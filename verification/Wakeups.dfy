/** How watch events wake the collector: a burst of events coalesces into one
    pending token, and the sweeper drops the token before it reads the caches.
 */
module Wakeups {
  /** The sweeper waits for a token, reads each kind's cache, then sweeps. */
  datatype Sweeper = Waiting | Reading(left: set<string>) | Sweeping

  /** `unread` holds the kinds whose cache took an event that no read of that cache
      has seen. `calls` counts, per kind, the event handlers that have yet to call
      notify. `failed` says a call failed in a sweep and no sweep has begun since;
      `timers` counts the retries armed. */
  datatype State = State(
    unread: set<string>, calls: map<string, nat>, token: bool, sweeper: Sweeper, failed: bool, timers: nat)

  datatype Step =
    | Event(kind: string)   // a watch stores an event, and its handler is to run
    | Notify(kind: string)
    | Take
    | ReadCache(kind: string)
    | Judge
    | Fail
    | Retry
    | Done

  function Calls(s: State, kind: string): nat {
    if kind in s.calls then s.calls[kind] else 0
  }

  ghost predicate Next(kinds: set<string>, s: State, step: Step, s': State) {
    match step
    case Event(kind) =>
      kind in kinds && s' == s.(unread := s.unread + {kind}, calls := s.calls[kind := Calls(s, kind) + 1])
    case Notify(kind) =>
      Calls(s, kind) > 0 && s' == s.(calls := s.calls[kind := Calls(s, kind) - 1], token := true)
    case Take =>
      s.sweeper.Waiting? && s.token && s' == s.(token := false, sweeper := Reading(kinds), failed := false)
    case ReadCache(kind) =>
      && s.sweeper.Reading? && kind in s.sweeper.left
      && s' == s.(unread := s.unread - {kind}, sweeper := Reading(s.sweeper.left - {kind}))
    case Judge =>
      s.sweeper == Reading({}) && s' == s.(sweeper := Sweeping)
    case Fail =>
      s.sweeper.Sweeping? && s' == s.(failed := true, timers := s.timers + 1)
    case Retry =>
      s.timers > 0 && s' == s.(timers := s.timers - 1, token := true)
    case Done =>
      s.sweeper.Sweeping? && s' == s.(sweeper := Waiting)
  }

  /** Something is still to make the sweeper read the kind's cache. */
  ghost predicate WillRead(s: State, kind: string) {
    s.token || Calls(s, kind) > 0 || (s.sweeper.Reading? && kind in s.sweeper.left)
  }

  ghost predicate Inv(kinds: set<string>, s: State) {
    && s.unread <= kinds
    && (forall kind :: kind in s.unread ==> WillRead(s, kind))
    && (s.failed ==> s.token || s.timers > 0)
  }

  ghost predicate Run(kinds: set<string>, states: seq<State>, steps: seq<Step>) {
    && |states| == |steps| + 1
    && states[0] == State({}, map[], false, Waiting, false, 0)
    && forall i :: 0 <= i < |steps| ==> Next(kinds, states[i], steps[i], states[i + 1])
  }

  lemma NextKeepsInv(kinds: set<string>, s: State, step: Step, s': State)
    requires Inv(kinds, s) && Next(kinds, s, step, s')
    ensures Inv(kinds, s')
  {
    forall kind | kind in s'.unread
      ensures WillRead(s', kind)
    {
      assert kind in s.unread ==> WillRead(s, kind);
    }
  }

  /** No burst of events, however it coalesces, leaves one that nothing will make a
      sweep read; and a sweep whose calls failed is always followed by another. */
  lemma {:induction false} NoLostWakeup(kinds: set<string>, states: seq<State>, steps: seq<Step>, i: nat)
    requires Run(kinds, states, steps) && i < |states|
    ensures forall kind :: kind in states[i].unread ==> WillRead(states[i], kind)
    ensures states[i].failed ==> states[i].token || states[i].timers > 0
    ensures Inv(kinds, states[i])
  {
    if i > 0 {
      NoLostWakeup(kinds, states, steps, i - 1);
      NextKeepsInv(kinds, states[i - 1], steps[i - 1], states[i]);
    }
  }

  /** Once the collector comes to rest, it has read every event and no failed sweep
      is left unretried. */
  lemma AtRestNothingIsUnread(kinds: set<string>, states: seq<State>, steps: seq<Step>, i: nat)
    requires Run(kinds, states, steps) && i < |states|
    requires states[i].sweeper.Waiting? && !states[i].token && states[i].timers == 0
    requires forall kind :: Calls(states[i], kind) == 0
    ensures states[i].unread == {} && !states[i].failed
  {
    NoLostWakeup(kinds, states, steps, i);
  }
}
