/** The coalescing scheduler of the local mount service
    (control-plane/internal/orchestration/local_mount_service.go): one runner that
    `SyncAsync` and `SetEnabled` start or nudge, direct `Sync` calls,
    `PrepareRestart` and `Stop`, interleaved over the two locks `asyncMu` and
    `syncMu`. A section under `asyncMu` is one step; `syncMu` is the field `owner`. */
module SyncScheduler {
  import opened Bytes

  /** Who called `Sync`: the runner, or somebody directly. */
  datatype Caller = Runner | Direct

  /** Where a thread is. */
  datatype Place =
    | SyncLock(caller: Caller)                  // waits for syncMu
    | SyncCheck(caller: Caller)                 // holds syncMu, about to look at `stopped`
    | SyncRead(caller: Caller)                  // holds syncMu, about to read the setting
    | SyncWork(caller: Caller, enabled: bool)   // holds syncMu, ensures or removes devices
    | Decide(connecting: bool)                  // the runner between two attempts
    | Exit                                      // the runner after giving up its role
    | StopWait                                  // `Stop` waits for the runner's channel
    | DetachLock(final: bool, waited: bool)     // `PrepareRestart` waits for syncMu; `final` within Stop
    | Detach(final: bool, waited: bool)         // holds syncMu, removes devices
    | Done

  datatype State = State(
    enabled: bool, stopped: bool, asyncRun: bool, asyncNext: bool,
    owner: Option<nat>,          // who holds syncMu
    runner: Option<nat>,         // the latest runner, whose channel Stop waits on
    threads: seq<Place>,
    // history
    requests: nat,               // SyncAsync and SetEnabled calls accepted so far
    began: nat,                  // `requests` when the runner's latest attempt began
    read: Option<bool>,          // the setting that attempt read
    unread: bool,                // that attempt ended without reading it
    finalDetach: bool)           // some Stop's detach has taken syncMu

  const INIT := State(false, false, false, false, None, None, [], 0, 0, None, false, false)

  datatype Action =
    | SyncAsync
    | SetEnabled(enabled: bool)
    | CallSync
    | CallRestart
    | CallStop
    | Acquire(t: nat)
    | Check(t: nat)
    | Read(t: nat, ok: bool)
    | Ensure(t: nat)
    | Finish(t: nat, connecting: bool)
    | Conclude(t: nat, expired: bool)
    | Close(t: nat)
    | Waited(t: nat)
    | GaveUp(t: nat)
    | Release(t: nat)

  predicate At(s: State, t: nat) { t < |s.threads| }

  /** When an action can happen. */
  predicate Possible(s: State, a: Action)
  {
    match a
    case SyncAsync => true
    case SetEnabled(_) => !s.stopped
    case CallSync => true
    case CallRestart => true
    case CallStop => true
    case Acquire(t) => At(s, t) && (s.threads[t].SyncLock? || s.threads[t].DetachLock?) && s.owner.None?
    case Check(t) => At(s, t) && s.threads[t].SyncCheck?
    case Read(t, _) => At(s, t) && s.threads[t].SyncRead?
    case Ensure(t) => At(s, t) && s.threads[t].SyncWork? && s.threads[t].enabled
    case Finish(t, _) => At(s, t) && s.threads[t].SyncWork?
    case Conclude(t, _) => At(s, t) && s.threads[t].Decide?
    case Close(t) => At(s, t) && s.threads[t].Exit?
    case Waited(t) => At(s, t) && s.threads[t].StopWait? && (s.runner.None? || (At(s, s.runner.value) && s.threads[s.runner.value].Done?))
    case GaveUp(t) => At(s, t) && s.threads[t].StopWait?
    case Release(t) => At(s, t) && s.threads[t].Detach?
  }

  function Spawn(s: State, p: Place): State { s.(threads := s.threads + [p]) }

  function Move(s: State, t: nat, p: Place): State
    requires At(s, t)
  {
    s.(threads := s.threads[t := p])
  }

  /** scheduleSyncLocked: nudge the runner, or start one. */
  function Schedule(s: State): State
  {
    if s.stopped then s
    else if s.asyncRun then s.(asyncNext := true, requests := s.requests + 1)
    else Spawn(s, SyncLock(Runner)).(asyncRun := true, runner := Some(|s.threads|), requests := s.requests + 1,
                                     began := s.requests + 1, read := None, unread := false)
  }

  /** Back from `Sync`: the runner goes on to decide, a direct caller is done. */
  function Back(s: State, t: nat, caller: Caller, connecting: bool, unread: bool): State
    requires At(s, t)
  {
    var m := Move(s, t, if caller == Runner then Decide(connecting) else Done).(owner := None);
    if caller == Runner then m.(unread := unread) else m
  }

  /** The runner's next attempt. */
  function Again(s: State, t: nat): State
    requires At(s, t)
  {
    Move(s, t, SyncLock(Runner)).(began := s.requests, read := None, unread := false)
  }

  function Acquired(s: State, t: nat): State
    requires At(s, t) && (s.threads[t].SyncLock? || s.threads[t].DetachLock?)
  {
    var p := s.threads[t];
    if p.SyncLock? then Move(s, t, SyncCheck(p.caller)).(owner := Some(t))
    else Move(s, t, Detach(p.final, p.waited)).(owner := Some(t), finalDetach := s.finalDetach || p.final)
  }

  function Checked(s: State, t: nat): State
    requires At(s, t) && s.threads[t].SyncCheck?
  {
    if s.stopped then Back(s, t, s.threads[t].caller, false, true) else Move(s, t, SyncRead(s.threads[t].caller))
  }

  function HasRead(s: State, t: nat, ok: bool): State
    requires At(s, t) && s.threads[t].SyncRead?
  {
    var caller := s.threads[t].caller;
    if !ok then Back(s, t, caller, false, true)
    else if caller == Runner then Move(s, t, SyncWork(Runner, s.enabled)).(read := Some(s.enabled))
    else Move(s, t, SyncWork(Direct, s.enabled))
  }

  function Concluded(s: State, t: nat, expired: bool): State
    requires At(s, t) && s.threads[t].Decide?
  {
    if s.asyncNext then Again(s.(asyncNext := false), t)
    else if s.threads[t].connecting && !expired then Again(s, t)
    else Move(s, t, Exit).(asyncRun := false)
  }

  function Stopped(s: State): State
  {
    Spawn(s.(stopped := true, asyncNext := false), StopWait)
  }

  function Apply(s: State, a: Action): State
    requires Possible(s, a)
  {
    match a
    case SyncAsync => Schedule(s)
    case SetEnabled(e) => Schedule(s.(enabled := e))
    case CallSync => Spawn(s, SyncLock(Direct))
    case CallRestart => Spawn(s, DetachLock(false, false))
    case CallStop => Stopped(s)
    case Acquire(t) => Acquired(s, t)
    case Check(t) => Checked(s, t)
    case Read(t, ok) => HasRead(s, t, ok)
    case Ensure(t) => s
    case Finish(t, connecting) => Back(s, t, s.threads[t].caller, connecting, false)
    case Conclude(t, expired) => Concluded(s, t, expired)
    case Close(t) => Move(s, t, Done)
    case Waited(t) => Move(s, t, DetachLock(true, true))
    case GaveUp(t) => Move(s, t, Done)
    case Release(t) => Move(s, t, Done).(owner := None)
  }

  // ------------------------------------------------------------------- invariant

  predicate Holds(p: Place) { p.SyncCheck? || p.SyncRead? || p.SyncWork? || p.Detach? }

  predicate Running(p: Place)
  {
    p.Decide? || ((p.SyncLock? || p.SyncCheck? || p.SyncRead? || p.SyncWork?) && p.caller == Runner)
  }

  /** syncMu has exactly one holder when taken. */
  ghost predicate Locked(s: State)
  {
    && (s.owner.Some? ==> At(s, s.owner.value))
    && forall t :: 0 <= t < |s.threads| ==> (Holds(s.threads[t]) <==> s.owner == Some(t))
  }

  /** `asyncRun` holds exactly while the latest runner runs, and no other does. */
  ghost predicate OneRunner(s: State)
  {
    && (s.runner.Some? ==> At(s, s.runner.value))
    && (s.runner.Some? ==> var p := s.threads[s.runner.value]; Running(p) || p.Exit? || p.Done?)
    && (s.asyncRun ==> s.runner.Some? && Running(s.threads[s.runner.value]))
    && (forall t :: 0 <= t < |s.threads| && Running(s.threads[t]) ==> s.asyncRun && s.runner == Some(t))
    && (s.asyncNext ==> s.asyncRun && !s.stopped)
  }

  /** With no nudge outstanding, the latest attempt began after the latest request
      and what it read is what is set. */
  ghost predicate UpToDate(s: State)
  {
    && (!s.stopped && !s.asyncNext ==> s.began == s.requests && (s.read.Some? ==> s.read.value == s.enabled))
    && (s.runner.Some? && At(s, s.runner.value) ==>
          && (!s.asyncRun || s.threads[s.runner.value].Decide? ==> s.read.Some? || s.unread)
          && (s.threads[s.runner.value].SyncWork? ==> s.read.Some?))
  }

  predicate Stopping(p: Place) { p.StopWait? || ((p.DetachLock? || p.Detach?) && p.final) }
  predicate Committed(p: Place) { p.SyncRead? || p.SyncWork? }

  /** Once a Stop is past its mark nothing clears it, a Stop that waited has seen the
      runner end, and after its detach took syncMu no Sync is past its check. */
  ghost predicate Stops(s: State)
  {
    && (forall t :: 0 <= t < |s.threads| && Stopping(s.threads[t]) ==> s.stopped)
    && (forall t :: 0 <= t < |s.threads| && (s.threads[t].DetachLock? || s.threads[t].Detach?) && s.threads[t].waited ==> s.stopped && !s.asyncRun)
    && (s.finalDetach ==> s.stopped && forall t :: 0 <= t < |s.threads| ==> !Committed(s.threads[t]))
  }

  ghost predicate Inv(s: State)
  {
    Locked(s) && OneRunner(s) && UpToDate(s) && Stops(s)
  }

  lemma SpawnKeeps(s: State, p: Place)
    requires Inv(s) && !Holds(p) && !Running(p) && (Stopping(p) ==> s.stopped) && !(p.DetachLock? && p.waited)
    ensures Inv(Spawn(s, p))
  {
  }

  lemma StoppedKeeps(s: State)
    requires Inv(s)
    ensures Inv(Stopped(s))
  {
    var m := s.(stopped := true, asyncNext := false);
    assert Inv(m);
    SpawnKeeps(m, StopWait);
  }

  lemma ScheduleKeeps(s: State, e: bool)
    requires Inv(s) && (s.stopped ==> e == s.enabled)
    ensures Inv(Schedule(s.(enabled := e)))
  {
  }

  lemma SyncAcquireKeeps(s: State, t: nat)
    requires Inv(s) && At(s, t) && s.threads[t].SyncLock? && s.owner.None?
    ensures Inv(Move(s, t, SyncCheck(s.threads[t].caller)).(owner := Some(t)))
  {
  }

  lemma DetachAcquireKeeps(s: State, t: nat)
    requires Inv(s) && At(s, t) && s.threads[t].DetachLock? && s.owner.None?
    ensures var p := s.threads[t];
      Inv(Move(s, t, Detach(p.final, p.waited)).(owner := Some(t), finalDetach := s.finalDetach || p.final))
  {
    forall u | 0 <= u < |s.threads| ensures !Committed(s.threads[u]) { assert !Holds(s.threads[u]); }
  }

  lemma AcquireKeeps(s: State, t: nat)
    requires Inv(s) && Possible(s, Acquire(t))
    ensures Inv(Acquired(s, t))
  {
    if s.threads[t].SyncLock? { SyncAcquireKeeps(s, t); } else { DetachAcquireKeeps(s, t); }
  }

  lemma RunnerBackKeeps(s: State, t: nat, connecting: bool, unread: bool)
    requires Inv(s) && At(s, t) && Running(s.threads[t]) && Holds(s.threads[t]) && (s.threads[t].SyncWork? || unread)
    ensures Inv(Move(s, t, Decide(connecting)).(owner := None, unread := unread))
  {
  }

  lemma DirectBackKeeps(s: State, t: nat)
    requires Inv(s) && At(s, t) && Holds(s.threads[t]) && !Running(s.threads[t])
    ensures Inv(Move(s, t, Done).(owner := None))
  {
  }

  lemma BackKeeps(s: State, t: nat, connecting: bool, unread: bool)
    requires Inv(s) && At(s, t) && (s.threads[t].SyncCheck? || s.threads[t].SyncRead? || s.threads[t].SyncWork?)
    requires s.threads[t].SyncWork? || unread
    ensures Inv(Back(s, t, s.threads[t].caller, connecting, unread))
  {
    if s.threads[t].caller == Runner { RunnerBackKeeps(s, t, connecting, unread); } else { DirectBackKeeps(s, t); }
  }

  lemma CheckKeeps(s: State, t: nat)
    requires Inv(s) && Possible(s, Check(t))
    ensures Inv(Checked(s, t))
  {
    if s.stopped { BackKeeps(s, t, false, true); }
  }

  lemma RunnerReads(s: State, t: nat)
    requires Inv(s) && At(s, t) && s.threads[t] == SyncRead(Runner)
    ensures Inv(Move(s, t, SyncWork(Runner, s.enabled)).(read := Some(s.enabled)))
  {
  }

  lemma DirectReads(s: State, t: nat)
    requires Inv(s) && At(s, t) && s.threads[t] == SyncRead(Direct)
    ensures Inv(Move(s, t, SyncWork(Direct, s.enabled)))
  {
  }

  lemma ReadKeeps(s: State, t: nat, ok: bool)
    requires Inv(s) && Possible(s, Read(t, ok))
    ensures Inv(HasRead(s, t, ok))
  {
    if !ok { BackKeeps(s, t, false, true); }
    else if s.threads[t].caller == Runner { RunnerReads(s, t); }
    else { DirectReads(s, t); }
  }

  lemma AgainKeeps(s: State, t: nat)
    requires Inv(s) && At(s, t) && s.threads[t].Decide?
    ensures Inv(Again(s.(asyncNext := false), t))
  {
  }

  lemma IdleKeeps(s: State, t: nat)
    requires Inv(s) && At(s, t) && s.threads[t].Decide? && !s.asyncNext
    ensures Inv(Move(s, t, Exit).(asyncRun := false))
  {
  }

  lemma ConcludeKeeps(s: State, t: nat, expired: bool)
    requires Inv(s) && Possible(s, Conclude(t, expired))
    ensures Inv(Concluded(s, t, expired))
  {
    if s.asyncNext || (s.threads[t].connecting && !expired) { AgainKeeps(s, t); } else { IdleKeeps(s, t); }
  }

  /** A thread that neither runs nor holds the lock ends or goes on to detach. */
  lemma StandbyKeeps(s: State, t: nat, p: Place)
    requires Inv(s) && At(s, t) && (s.threads[t].Exit? || s.threads[t].StopWait?)
    requires p.Done? || (p == DetachLock(true, true) && s.threads[t].StopWait? && !s.asyncRun)
    ensures Inv(Move(s, t, p))
  {
  }

  lemma ReleaseKeeps(s: State, t: nat)
    requires Inv(s) && Possible(s, Release(t))
    ensures Inv(Move(s, t, Done).(owner := None))
  {
    DirectBackKeeps(s, t);
  }

  lemma InvKept(s: State, a: Action)
    requires Inv(s) && Possible(s, a)
    ensures Inv(Apply(s, a))
  {
    match a
    case SyncAsync => ScheduleKeeps(s, s.enabled);
    case SetEnabled(e) => ScheduleKeeps(s, e);
    case CallSync => SpawnKeeps(s, SyncLock(Direct));
    case CallRestart => SpawnKeeps(s, DetachLock(false, false));
    case CallStop => StoppedKeeps(s);
    case Acquire(t) => AcquireKeeps(s, t);
    case Check(t) => CheckKeeps(s, t);
    case Read(t, ok) => ReadKeeps(s, t, ok);
    case Ensure(t) =>
    case Finish(t, connecting) => BackKeeps(s, t, connecting, false);
    case Conclude(t, expired) => ConcludeKeeps(s, t, expired);
    case Close(t) => StandbyKeeps(s, t, Done);
    case Waited(t) => StandbyKeeps(s, t, DetachLock(true, true));
    case GaveUp(t) => StandbyKeeps(s, t, Done);
    case Release(t) => ReleaseKeeps(s, t);
  }

  // ------------------------------------------------------------------------ runs

  ghost predicate IsRun(acts: seq<Action>)
    decreases |acts|, 0
  {
    acts == [] || (IsRun(acts[..|acts| - 1]) && Possible(After(acts[..|acts| - 1]), acts[|acts| - 1]))
  }

  ghost function After(acts: seq<Action>): State
    requires IsRun(acts)
    decreases |acts|, 1
  {
    if acts == [] then INIT else Apply(After(acts[..|acts| - 1]), acts[|acts| - 1])
  }

  lemma {:induction false} RunKeepsInv(acts: seq<Action>)
    requires IsRun(acts)
    ensures Inv(After(acts))
  {
    if acts != [] {
      RunKeepsInv(acts[..|acts| - 1]);
      InvKept(After(acts[..|acts| - 1]), acts[|acts| - 1]);
    }
  }

  lemma {:induction false} PrefixIsRun(acts: seq<Action>, n: nat)
    requires IsRun(acts) && n <= |acts|
    ensures IsRun(acts[..n])
  {
    if n < |acts| {
      PrefixIsRun(acts[..|acts| - 1], n);
      assert acts[..|acts| - 1][..n] == acts[..n];
    } else {
      assert acts[..n] == acts;
    }
  }

  /** In every run there is at most one runner, a request that is still to be served
      has one, and when there is none and Stop was not called, the last attempt began
      after the last request and, unless it failed before that, read the setting last
      written. */
  lemma NoRequestLost(acts: seq<Action>)
    requires IsRun(acts)
    ensures var s := After(acts);
      && (forall t, u :: 0 <= t < |s.threads| && 0 <= u < |s.threads| && Running(s.threads[t]) && Running(s.threads[u]) ==> t == u)
      && (s.asyncNext ==> exists t :: 0 <= t < |s.threads| && Running(s.threads[t]))
      && ((forall t :: 0 <= t < |s.threads| ==> !Running(s.threads[t])) && !s.stopped ==>
            s.began == s.requests && (s.runner.Some? && !s.unread ==> s.read == Some(s.enabled)))
  {
    RunKeepsInv(acts);
  }

  /** `syncMu` is held by at most one thread. */
  lemma OneHolder(acts: seq<Action>)
    requires IsRun(acts)
    ensures var s := After(acts);
      forall t, u :: 0 <= t < |s.threads| && 0 <= u < |s.threads| && Holds(s.threads[t]) && Holds(s.threads[u]) ==> t == u
  {
    RunKeepsInv(acts);
  }

  /** A Stop that saw the runner's channel close detaches with no runner left. */
  lemma WaitedStopHasNoRunner(acts: seq<Action>, t: nat)
    requires IsRun(acts) && At(After(acts), t) && After(acts).threads[t].Detach? && After(acts).threads[t].waited
    ensures forall u :: 0 <= u < |After(acts).threads| ==> !Running(After(acts).threads[u])
  {
    RunKeepsInv(acts);
  }

  lemma FinalDetachStays(s: State, a: Action)
    requires Possible(s, a) && s.finalDetach
    ensures Apply(s, a).finalDetach
  {
    if a.SyncAsync? || a.CallSync? || a.CallRestart? || a.CallStop? || a.SetEnabled? {
      CallsKeepFinal(s, a);
    } else if a.Acquire? || a.Check? || a.Release? {
      LocksKeepFinal(s, a);
    } else if a.Read? {
      ReadKeepsFinal(s, a.t, a.ok);
    } else if a.Finish? {
      FinishKeepsFinal(s, a.t, a.connecting);
    } else if a.Conclude? {
      ConcludeKeepsFinal(s, a.t, a.expired);
    } else {
      EndsKeepFinal(s, a);
    }
  }

  lemma CallsKeepFinal(s: State, a: Action)
    requires Possible(s, a) && s.finalDetach && (a.SyncAsync? || a.CallSync? || a.CallRestart? || a.CallStop? || a.SetEnabled?)
    ensures Apply(s, a).finalDetach
  {
  }

  lemma LocksKeepFinal(s: State, a: Action)
    requires Possible(s, a) && s.finalDetach && (a.Acquire? || a.Check? || a.Release?)
    ensures Apply(s, a).finalDetach
  {
  }

  lemma ReadKeepsFinal(s: State, t: nat, ok: bool)
    requires Possible(s, Read(t, ok)) && s.finalDetach
    ensures Apply(s, Read(t, ok)).finalDetach
  {
  }

  lemma FinishKeepsFinal(s: State, t: nat, connecting: bool)
    requires Possible(s, Finish(t, connecting)) && s.finalDetach
    ensures Apply(s, Finish(t, connecting)).finalDetach
  {
  }

  lemma ConcludeKeepsFinal(s: State, t: nat, expired: bool)
    requires Possible(s, Conclude(t, expired)) && s.finalDetach
    ensures Apply(s, Conclude(t, expired)).finalDetach
  {
  }

  lemma EndsKeepFinal(s: State, a: Action)
    requires Possible(s, a) && s.finalDetach && (a.Ensure? || a.Close? || a.Waited? || a.GaveUp?)
    ensures Apply(s, a).finalDetach
  {
  }

  lemma {:induction false} FinalDetachLasts(acts: seq<Action>, n: nat)
    requires IsRun(acts) && n <= |acts| && IsRun(acts[..n]) && After(acts[..n]).finalDetach
    ensures After(acts).finalDetach
  {
    if n < |acts| {
      var front := acts[..|acts| - 1];
      assert front[..n] == acts[..n];
      FinalDetachLasts(front, n);
      FinalDetachStays(After(front), acts[|acts| - 1]);
    } else {
      assert acts[..n] == acts;
    }
  }

  /** The action by which a Stop's detach takes syncMu. */
  ghost predicate TakesFinalDetach(acts: seq<Action>, i: nat)
    requires IsRun(acts) && i < |acts|
  {
    PrefixIsRun(acts, i);
    var s := After(acts[..i]);
    acts[i].Acquire? && At(s, acts[i].t) && s.threads[acts[i].t].DetachLock? && s.threads[acts[i].t].final
  }

  lemma StepOf(acts: seq<Action>, j: nat)
    requires IsRun(acts) && j < |acts|
    ensures IsRun(acts[..j]) && Possible(After(acts[..j]), acts[j])
    ensures IsRun(acts[..j + 1]) && After(acts[..j + 1]) == Apply(After(acts[..j]), acts[j])
  {
    PrefixIsRun(acts, j + 1);
    assert acts[..j + 1][..j] == acts[..j];
  }

  lemma FinalDetachTaken(acts: seq<Action>, i: nat)
    requires IsRun(acts) && i < |acts| && TakesFinalDetach(acts, i)
    ensures IsRun(acts[..i + 1]) && After(acts[..i + 1]).finalDetach
  {
    StepOf(acts, i);
  }

  /** After a Stop's detach has taken syncMu no thread ensures a device again. */
  lemma NoEnsureAfterFinalDetach(acts: seq<Action>, i: nat, j: nat)
    requires IsRun(acts) && i < j < |acts| && TakesFinalDetach(acts, i)
    ensures !acts[j].Ensure?
  {
    FinalDetachTaken(acts, i);
    StepOf(acts, j);
    assert acts[..j][..i + 1] == acts[..i + 1];
    FinalDetachLasts(acts[..j], i + 1);
    RunKeepsInv(acts[..j]);
    NoEnsureWhenFinal(After(acts[..j]), acts[j]);
  }

  lemma NoEnsureWhenFinal(s: State, a: Action)
    requires Inv(s) && s.finalDetach && Possible(s, a)
    ensures !a.Ensure?
  {
    assert forall t :: 0 <= t < |s.threads| ==> !Committed(s.threads[t]);
  }
}
