/**
  ScopeRunner of simplechain/include/utility.hpp: any number of threads inside continue_lock, stop and
  the destructor of SharedLock, interleaved at their atomic operations.  A weak compare-and-swap may
  fail for no reason, and on failure reads the counter back.
 */
module ScopeRunner {
  /** Where a thread is. */
  datatype Local =
    | Outside
    | Loading                 // continue_lock, before the first load
    | Trying(expected: int)   // continue_lock, at the loop test
    | Stopping                // stop, before its compare-and-swap
    | Checking(expected: int) // stop, after a compare-and-swap that failed

  /** `locks` are the SharedLocks not destroyed yet. */
  datatype State = State(count: int, threads: map<nat, Local>, locks: set<nat>, next: nat)

  datatype Action =
    | CallContinue(t: nat)
    | Load(t: nat)
    | GiveUp(t: nat)
    | SwapIn(t: nat, spurious: bool)
    | Destroy(l: nat)
    | CallStop(t: nat)
    | SwapOut(t: nat, spurious: bool)
    | Check(t: nat)

  datatype Outcome = Silent | Granted(l: nat) | Refused | StopReturned

  function At(s: State, t: nat): Local {
    if t in s.threads then s.threads[t] else Outside
  }

  function Goes(s: State, t: nat, l: Local): State {
    s.(threads := s.threads[t := l])
  }

  /** One atomic step; an action whose turn it is not changes nothing. */
  function Step(s: State, a: Action): (State, Outcome) {
    match a
    case CallContinue(t) => (if At(s, t).Outside? then Goes(s, t, Loading) else s, Silent)
    case Load(t) => (if At(s, t).Loading? then Goes(s, t, Trying(s.count)) else s, Silent)
    case GiveUp(t) =>
      if At(s, t).Trying? && At(s, t).expected < 0 then (Goes(s, t, Outside), Refused) else (s, Silent)
    case SwapIn(t, spurious) =>
      if !(At(s, t).Trying? && At(s, t).expected >= 0) then (s, Silent)
      else if s.count == At(s, t).expected && !spurious then
        (Goes(s, t, Outside).(count := s.count + 1, locks := s.locks + {s.next}, next := s.next + 1), Granted(s.next))
      else (Goes(s, t, Trying(s.count)), Silent)
    case Destroy(l) => (if l in s.locks then s.(count := s.count - 1, locks := s.locks - {l}) else s, Silent)
    case CallStop(t) => (if At(s, t).Outside? then Goes(s, t, Stopping) else s, Silent)
    case SwapOut(t, spurious) =>
      if !At(s, t).Stopping? then (s, Silent)
      else if s.count == 0 && !spurious then (Goes(s, t, Outside).(count := -1), StopReturned)
      else (Goes(s, t, Checking(s.count)), Silent)
    case Check(t) =>
      if !At(s, t).Checking? then (s, Silent)
      else if At(s, t).expected < 0 then (Goes(s, t, Outside), StopReturned)
      else (Goes(s, t, Stopping), Silent)
  }

  const START: State := State(0, map[], {}, 0)

  function After(s: State, actions: seq<Action>): State
    decreases |actions|
  {
    if |actions| == 0 then s else After(Step(s, actions[0]).0, actions[1..])
  }

  /** What the steps return to their callers, in order. */
  function Outcomes(s: State, actions: seq<Action>): seq<Outcome>
    decreases |actions|
  {
    if |actions| == 0 then [] else [Step(s, actions[0]).1] + Outcomes(Step(s, actions[0]).0, actions[1..])
  }

  // ---------- what every step keeps ----------

  ghost predicate Stopped(s: State) {
    s.count == -1 && s.locks == {}
  }

  /** The counter counts the live locks until it is -1, and whoever has read a negative count is late. */
  ghost predicate Sane(s: State) {
    && (s.count == |s.locks| || Stopped(s))
    && (forall l :: l in s.locks ==> l < s.next)
    && (forall t :: t in s.threads && (s.threads[t].Trying? || s.threads[t].Checking?) && s.threads[t].expected < 0 ==>
      Stopped(s))
  }

  lemma SwapInSane(s: State, t: nat, spurious: bool, r: (State, Outcome))
    requires Sane(s) && r == Step(s, SwapIn(t, spurious))
    ensures Sane(r.0) && (Stopped(s) ==> Stopped(r.0)) && (r.1.Granted? ==> !Stopped(s) && r.1.l !in s.locks)
  {
    assert s.next !in s.locks;
    assert |s.locks + {s.next}| == |s.locks| + 1;
  }

  lemma SwapOutSane(s: State, t: nat, spurious: bool, r: (State, Outcome))
    requires Sane(s) && r == Step(s, SwapOut(t, spurious))
    ensures Sane(r.0) && (Stopped(s) ==> Stopped(r.0)) && (r.1.StopReturned? ==> Stopped(r.0))
  {
    if s.count == 0 {
      assert s.locks == {};
    }
  }

  lemma DestroySane(s: State, l: nat, r: (State, Outcome))
    requires Sane(s) && r == Step(s, Destroy(l))
    ensures Sane(r.0) && (Stopped(s) ==> Stopped(r.0))
  {
    if l in s.locks {
      assert |s.locks - {l}| == |s.locks| - 1;
    }
  }

  lemma StepSane(s: State, a: Action)
    requires Sane(s)
    ensures Sane(Step(s, a).0)
    ensures Stopped(s) ==> Stopped(Step(s, a).0)
    ensures Step(s, a).1.StopReturned? || Step(s, a).1.Refused? ==> Stopped(Step(s, a).0)
    ensures Step(s, a).1.Granted? ==> !Stopped(s) && Step(s, a).1.l !in s.locks
  {
    match a
    case Destroy(l) => DestroySane(s, l, Step(s, a));
    case SwapIn(t, spurious) => SwapInSane(s, t, spurious, Step(s, a));
    case SwapOut(t, spurious) => SwapOutSane(s, t, spurious, Step(s, a));
    case CallContinue(_) =>
    case Load(_) =>
    case GiveUp(_) =>
    case CallStop(_) =>
    case Check(_) =>
  }

  /** In every run the counter is the number of live locks, or -1 with no live lock. */
  lemma {:induction false} RunSane(s: State, actions: seq<Action>)
    requires Sane(s)
    ensures Sane(After(s, actions))
    ensures Stopped(s) ==> Stopped(After(s, actions))
    decreases |actions|
  {
    if |actions| > 0 {
      StepSane(s, actions[0]);
      RunSane(Step(s, actions[0]).0, actions[1..]);
    }
  }

  /** Once stopped, nothing is granted any more. */
  lemma {:induction false} NoneGranted(s: State, actions: seq<Action>)
    requires Sane(s) && Stopped(s)
    ensures forall i :: 0 <= i < |Outcomes(s, actions)| ==> !Outcomes(s, actions)[i].Granted?
    decreases |actions|
  {
    if |actions| > 0 {
      StepSane(s, actions[0]);
      NoneGranted(Step(s, actions[0]).0, actions[1..]);
    }
  }

  lemma {:induction false} Continues(s: State, a: seq<Action>, b: seq<Action>)
    ensures After(s, a + b) == After(After(s, a), b)
    ensures Outcomes(s, a + b) == Outcomes(s, a) + Outcomes(After(s, a), b)
    decreases |a|
  {
    if |a| == 0 {
      assert a + b == b;
    } else {
      assert (a + b)[1..] == a[1..] + b;
      Continues(Step(s, a[0]).0, a[1..], b);
    }
  }

  lemma {:induction false} ReturnedStopped(s: State, actions: seq<Action>)
    requires Sane(s)
    requires exists i ::
        0 <= i < |Outcomes(s, actions)| &&
        (Outcomes(s, actions)[i].StopReturned? || Outcomes(s, actions)[i].Refused?)
    ensures Stopped(After(s, actions))
    decreases |actions|
  {
    if |actions| > 0 {
      StepSane(s, actions[0]);
      var r := Step(s, actions[0]);
      if r.1.StopReturned? || r.1.Refused? {
        RunSane(r.0, actions[1..]);
      } else {
        var i :| 0 <= i < |Outcomes(s, actions)| && (Outcomes(s, actions)[i].StopReturned? ||
          Outcomes(s, actions)[i].Refused?);
        assert Outcomes(r.0, actions[1..])[i - 1] == Outcomes(s, actions)[i];
        ReturnedStopped(r.0, actions[1..]);
      }
    }
  }

  /** When any stop has returned, all scopes have ended for good: whatever the threads do from then on,
      no lock is live and none is granted. */
  lemma StopIsFinal(before: seq<Action>, after: seq<Action>)
    requires exists i ::
        0 <= i < |Outcomes(START, before)| &&
        (Outcomes(START, before)[i].StopReturned? || Outcomes(START, before)[i].Refused?)
    ensures Stopped(After(START, before)) && Stopped(After(START, before + after))
    ensures forall i :: |before| <= i < |before| + |after| ==>
        i < |Outcomes(START, before + after)| && !Outcomes(START, before + after)[i].Granted?
  {
    ReturnedStopped(START, before);
    RunSane(START, before);
    RunSane(After(START, before), after);
    NoneGranted(After(START, before), after);
    Continues(START, before, after);
    OutcomesLength(START, before);
    OutcomesLength(After(START, before), after);
  }

  lemma {:induction false} OutcomesLength(s: State, actions: seq<Action>)
    ensures |Outcomes(s, actions)| == |actions|
    decreases |actions|
  {
    if |actions| > 0 {
      OutcomesLength(Step(s, actions[0]).0, actions[1..]);
    }
  }

  /** stop gets through as soon as no lock is live: its compare-and-swap, unless it fails for no reason,
      returns exactly when there is none. */
  lemma StopGetsThrough(s: State, t: nat)
    requires Sane(s) && At(s, t).Stopping? && !Stopped(s)
    ensures Step(s, SwapOut(t, false)).1.StopReturned? <==> s.locks == {}
  {
    assert |s.locks| == 0 <==> s.locks == {};
  }

  /** A lock is granted to a thread whose expectation is current, and that is the count of live locks. */
  lemma GrantedWhen(s: State, t: nat, spurious: bool)
    requires Sane(s) && At(s, t).Trying?
    ensures Step(s, SwapIn(t, spurious)).1.Granted? <==> !spurious && !Stopped(s) && At(s, t).expected == |s.locks|
  {
  }

  // ---------- a thread on its own ----------

  /** A swap that fails, spuriously or not, leaves everything but the thread's expectation as it was; the next one,
      with no step between and not spurious, is granted the next lock, or the thread is refused when stopped. */
  lemma FailedSwap(s: State, t: nat, spurious: bool)
    requires Sane(s) && At(s, t).Trying? && At(s, t).expected >= 0 && !Step(s, SwapIn(t, spurious)).1.Granted?
    ensures var s' := Step(s, SwapIn(t, spurious)).0;
      && s'.count == s.count && s'.locks == s.locks && s'.next == s.next
      && (forall u :: u != t ==> At(s', u) == At(s, u))
      && (Step(s', SwapIn(t, false)).1 == Granted(s.next) <==> !Stopped(s))
      && (Step(s', GiveUp(t)).1 == Refused <==> Stopped(s))
  {
  }

  /** A thread that goes through continue_lock undisturbed gets a lock, one more than there were, or is refused when
      stopped. */
  lemma ContinueAlone(s: State, t: nat)
    requires Sane(s) && At(s, t).Outside?
    ensures var s1 := Step(Step(s, CallContinue(t)).0, Load(t)).0;
      && (!Stopped(s) ==>
          var r := Step(s1, SwapIn(t, false));
          && r.1 == Granted(s.next) && r.0.locks == s.locks + {s.next} && r.0.count == s.count + 1
          && At(r.0, t) == Outside)
      && (Stopped(s) ==> var r := Step(s1, GiveUp(t)); r.1 == Refused && r.0.count == s.count && At(r.0, t) == Outside)
  {
  }

  /** A thread that goes through stop undisturbed returns if there is no lock, or if it was stopped before; otherwise
      it tries again. */
  lemma StopAlone(s: State, t: nat)
    requires Sane(s) && At(s, t).Outside?
    ensures var r := Step(Step(s, CallStop(t)).0, SwapOut(t, false));
      var r' := Step(r.0, Check(t));
      if Stopped(s) then r.1 == Silent && r'.1 == StopReturned
      else if s.locks == {} then r.1 == StopReturned && Stopped(r.0)
      else r.1 == r'.1 == Silent && At(r'.0, t) == Stopping && r'.0.count == s.count && r'.0.locks == s.locks
  {
    assert |s.locks| == 0 <==> s.locks == {};
  }

  /** Giving a lock back makes it one less. */
  lemma DestroyIs(s: State, l: nat)
    requires Sane(s) && l in s.locks
    ensures var s' := Step(s, Destroy(l)).0;
      s'.locks == s.locks - {l} && s'.count == s.count - 1 && s'.threads == s.threads && s'.next == s.next
  {
  }
}
