/** The logical clock every participant keeps (LamportClock.java): one integer
    counter, advanced by `tick` and combined with a peer's counter by `update`.
    The combination is the literal `clock + received + 1`, not Lamport's
    `max(clock, received) + 1`; the lemmas below show which ordering guarantees
    survive that choice. */
module Lamport {

  /** The two ways the counter changes. */
  datatype Event = Local | Receive(received: int)

  /** The counter after one event: `tick` adds one, `update(r)` adds `r + 1`. */
  function Step(clock: int, e: Event): int {
    match e
    case Local => clock + 1
    case Receive(r) => clock + r + 1
  }

  /** The counter after a sequence of events, applied from the first. */
  function Run(clock: int, events: seq<Event>): int
    decreases |events|
  {
    if events == [] then clock else Run(Step(clock, events[0]), events[1..])
  }

  /** An event the callers in this system produce: a received value is either a
      real counter (never negative) or the "nothing received" marker -1. */
  predicate Admissible(e: Event) {
    e.Receive? ==> e.received >= -1
  }

  class LamportClock {
    var clock: int

    /** A fresh clock reads 0. */
    constructor ()
      ensures clock == 0
    {
      clock := 0;
    }

    method Tick()
      modifies this
      ensures clock == Step(old(clock), Local)
    {
      clock := clock + 1;
    }

    method Update(receivedTime: int)
      modifies this
      ensures clock == Step(old(clock), Receive(receivedTime))
    {
      clock := clock + receivedTime + 1;
    }

    method GetTime() returns (time: int)
      ensures time == clock
    {
      time := clock;
    }
  }

  /** A tick raises the counter by exactly one. */
  lemma TickIncrements(clock: int)
    ensures Step(clock, Local) == clock + 1 && Step(clock, Local) > clock
  {
  }

  /** After one tick from a fresh clock, `update(5)` reads 7. */
  lemma UpdateExample()
    ensures Step(Step(0, Local), Receive(5)) == 7
  {
  }

  /** Receiving a real counter lands strictly after both the local counter and
      the received one, hence at least at Lamport's `max + 1`. */
  lemma UpdateDominates(clock: int, r: int)
    requires clock >= 0 && r >= 0
    ensures Step(clock, Receive(r)) > clock && Step(clock, Receive(r)) > r
    ensures Step(clock, Receive(r)) >= (if clock >= r then clock else r) + 1
  {
  }

  /** `update(-1)` leaves the counter as it was. */
  lemma UpdateMinusOneIsIdentity(clock: int)
    ensures Step(clock, Receive(-1)) == clock
  {
  }

  /** Running a concatenation runs the two parts one after the other. */
  lemma {:induction false} RunAppend(clock: int, xs: seq<Event>, ys: seq<Event>)
    ensures Run(clock, xs + ys) == Run(Run(clock, xs), ys)
    decreases |xs|
  {
    if xs == [] {
      assert xs + ys == ys;
    } else {
      assert (xs + ys)[1..] == xs[1..] + ys;
      RunAppend(Step(clock, xs[0]), xs[1..], ys);
    }
  }

  /** Admissible events never move the counter back. */
  lemma {:induction false} RunNeverDecreases(clock: int, events: seq<Event>)
    requires forall i :: 0 <= i < |events| ==> Admissible(events[i])
    ensures Run(clock, events) >= clock
    decreases |events|
  {
    if events != [] {
      RunNeverDecreases(Step(clock, events[0]), events[1..]);
    }
  }

  /** Along any admissible history the counter is non-decreasing from one
      prefix to a longer one, and every tick raises it by exactly one. */
  lemma Monotone(clock: int, events: seq<Event>, i: nat, j: nat)
    requires forall k :: 0 <= k < |events| ==> Admissible(events[k])
    requires i <= j <= |events|
    ensures Run(clock, events[..i]) <= Run(clock, events[..j])
    ensures j < |events| && events[j] == Local ==> Run(clock, events[..j + 1]) == Run(clock, events[..j]) + 1
  {
    assert events[..j] == events[..i] + events[i..j];
    RunAppend(clock, events[..i], events[i..j]);
    RunNeverDecreases(Run(clock, events[..i]), events[i..j]);
    if j < |events| {
      assert events[..j + 1] == events[..j] + [events[j]];
      RunAppend(clock, events[..j], [events[j]]);
    }
  }

  /** A clock that starts non-negative and sees only admissible events never
      reads a negative value. */
  lemma {:induction false} RunStaysNatural(clock: int, events: seq<Event>)
    requires clock >= 0
    requires forall i :: 0 <= i < |events| ==> Admissible(events[i])
    ensures Run(clock, events) >= 0
  {
    RunNeverDecreases(clock, events);
  }
}
