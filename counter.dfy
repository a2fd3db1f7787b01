/**
 * The tap counter: one `count` that a press raises by one and the reset button
 * sets back to zero. A ghost history of the taps records what happened, so that
 * the count can be stated as the number of presses since the last reset.
 */
module Counter {
  datatype Event = Press | Reset

  /** One handler's effect on the count. */
  function Step(count: int, e: Event): int {
    match e
    case Press => count + 1
    case Reset => 0
  }

  /** The count after running `events` in order from `count`. */
  function Run(count: int, events: seq<Event>): (r: int)
    ensures Reset !in events ==> r == count + |events|
    decreases |events|
  {
    if events == [] then count else Run(Step(count, events[0]), events[1..])
  }

  /** The count after `events` from the initial `useState(0)`. */
  function Replay(events: seq<Event>): (r: int)
    ensures Reset !in events ==> r == |events|
  {
    Run(0, events)
  }

  /** The presses after the last reset, or all of them if there was none. */
  function PressesSinceReset(events: seq<Event>): (n: nat)
    ensures n <= |events|
    ensures n == |events| <==> Reset !in events
    decreases |events|
  {
    if events == [] then 0
    else if events[|events| - 1] == Reset then 0
    else PressesSinceReset(events[..|events| - 1]) + 1
  }

  lemma {:induction false} RunSnoc(count: int, events: seq<Event>, e: Event)
    ensures Run(count, events + [e]) == Step(Run(count, events), e)
    decreases |events|
  {
    if events != [] {
      assert (events + [e])[1..] == events[1..] + [e];
      RunSnoc(Step(count, events[0]), events[1..], e);
    }
  }

  lemma {:induction false} PressesSinceResetCons(e: Event, events: seq<Event>)
    ensures PressesSinceReset([e] + events) ==
      if Reset in events || e == Reset then PressesSinceReset(events) else PressesSinceReset(events) + 1
    decreases |events|
  {
    if events != [] {
      var last := events[|events| - 1];
      var front := events[..|events| - 1];
      assert ([e] + events)[..|events|] == [e] + front;
      assert events == front + [last];
      if last != Reset {
        PressesSinceResetCons(e, front);
        assert Reset in events <==> Reset in front;
      }
    }
  }

  /** From any starting count, running events leaves the presses since the last reset, on top of the start if none. */
  lemma {:induction false} RunCountsPresses(count: int, events: seq<Event>)
    ensures Run(count, events) == (if Reset in events then 0 else count) + PressesSinceReset(events)
    decreases |events|
  {
    if events != [] {
      var e, rest := events[0], events[1..];
      assert events == [e] + rest;
      RunCountsPresses(Step(count, e), rest);
      PressesSinceResetCons(e, rest);
    }
  }

  /** The count is never negative and equals the presses since the last reset (or since start). */
  lemma ReplayCountsPresses(events: seq<Event>)
    ensures Replay(events) == PressesSinceReset(events) && Replay(events) >= 0
  {
    RunCountsPresses(0, events);
  }

  class TapCounter {
    var count: int
    ghost var history: seq<Event>

    ghost predicate Valid()
      reads this
    {
      count == Replay(history)
    }

    /** The counter starts at 0. */
    constructor ()
      ensures Valid() && count == 0 && history == []
    {
      count := 0;
      history := [];
    }

    /** `handlePress`: one more. */
    method HandlePress()
      requires Valid()
      modifies this
      ensures Valid() && history == old(history) + [Press]
      ensures count == old(count) + 1
      ensures count == PressesSinceReset(history) && count >= 1
    {
      RunSnoc(0, history, Press);
      count := count + 1;
      history := history + [Press];
      ReplayCountsPresses(history);
    }

    /** `handleReset`: back to 0 from any state. */
    method HandleReset()
      requires Valid()
      modifies this
      ensures Valid() && history == old(history) + [Reset]
      ensures count == 0
    {
      RunSnoc(0, history, Reset);
      count := 0;
      history := history + [Reset];
    }
  }
}
