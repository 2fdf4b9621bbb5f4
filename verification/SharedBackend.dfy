/** One tape device whose backend, a handler process behind a TCMU backstore, is
    shared by an iSCSI publication and a loopback LUN. Whether there is one to share
    is read off the adapter's registry of sessions, not off the process
    (control-plane/internal/orchestration/tcmu_adapter.go, target_runtime_service.go,
    local_mount_service.go). Two threads interleave: local Sync/detach under `syncMu`
    and Publish/Unpublish under `securityMu`; the per-device lock is `lock`. */
module SharedBackend {
  import opened Bytes

  datatype Mapping = NoMapping | Active | CleanupPending | Inactive
  datatype PublicationState = Creating | Ready | Failed | Disabled
  datatype Thread = Local | Network

  /** Why the local thread takes the device's LUN down, and what it does with the
      mapping afterwards: forget it, or keep it as inactive. */
  datatype Purpose = Forget | Deactivate

  /** Where the local thread is. `Lun`, `Removing`, `Releasing` and `Killing` are
      inside the device lock. */
  datatype LocalAt =
    | Resting
    | Wanting                            // about to store the mapping as active
    | Ensuring                           // waits for the lock, to ensure backend and LUN
    | Backing                            // in the lock, about to ensure the backend
    | Linking                            // in the lock, about to ensure the LUN
    | Marking(why: Purpose, owned: bool) // about to mark the mapping cleanup-pending
    | Unlinking(why: Purpose)            // waits for the lock, to remove the LUN
    | Removing(why: Purpose)             // in the lock, about to remove the LUN
    | Listing(why: Purpose)              // about to ask the helper what it still owns
    | Letting(why: Purpose)              // waits for the lock, to release the backend
    | Releasing(why: Purpose)            // in the lock, about to look for publications
    | Killing(why: Purpose)              // in the lock, about to stop handler and backstore
    | Forgetting(why: Purpose)           // about to delete or deactivate the mapping

  /** Where the network thread is. */
  datatype NetworkAt =
    | Quiet
    | Waiting(id: nat)                   // saved as creating, waits for the lock
    | Building(id: nat)                  // in the lock, about to set up backend and target
    | Recording(id: nat)                 // in the lock, about to save as ready
    | Reporting(id: nat)                 // out of the lock, about to save as failed
    | Leaving(id: nat)                   // waits for the lock, to unpublish
    | Asking(id: nat)                    // in the lock, about to look for a local mapping
    | Stopping(id: nat)                  // in the lock, about to stop the unshared handler
    | Untargeting(id: nat, shared: bool) // in the lock, about to delete the target
    | Deleting(id: nat)                  // in the lock, about to delete the unshared backstore
    | Disabling(id: nat)                 // in the lock, about to save as disabled

  datatype State = State(
    mapping: Mapping, lun: bool,
    session: bool,                       // the registry has an entry for the backstore's name
    handler: bool,                       // a handler process serves the backstore
    backstore: bool,
    lock: Option<Thread>, here: LocalAt, there: NetworkAt,
    publications: map<nat, PublicationState>,
    live: set<nat>,                      // publications whose iSCSI target exists
    // history
    entered: set<nat>,                   // publications that have had the device lock
    since: set<nat>,                     // publications saved since the latest release looked for them
    abandoned: bool,                     // see Abandoned below
    astray: bool)                        // see GoesAstray below

  const INIT := State(NoMapping, false, false, false, false, None, Resting, Quiet, map[], {}, {}, {}, false, false)

  // ------------------------------------------------------------------- adapter

  /** How the adapter comes by a backend: it takes the one a registry entry stands
      for, starts a new one, or fails to, having killed its handler and leaving the
      backstore or not. A backstore cannot be created where one exists. */
  datatype Start = Reused | Started | Refused(left: bool)

  predicate StartPossible(s: State, o: Start)
  {
    match o
    case Reused => s.session
    case Started => !s.session && !s.backstore
    case Refused(_) => !s.session
  }

  function AfterStart(s: State, o: Start): State
  {
    match o
    case Reused => s
    case Started => s.(session := true, handler := true, backstore := true)
    case Refused(left) => s.(backstore := s.backstore || left)
  }

  /** How it removes the backstore of a stopped handler: with the registry entry, with
      the entry but not the socket file, or reporting an error and keeping the entry. */
  datatype Removal = Removed | SocketLeft | NotRemoved(left: bool)

  function AfterRemoval(s: State, o: Removal): State
  {
    if o.NotRemoved? then s.(backstore := s.backstore && o.left) else s.(session := false, backstore := false)
  }

  // ------------------------------------------------------------- local thread

  /** What the helper answers when asked whether it still owns the device. */
  datatype Listing = Present | Absent | Unknown

  datatype LocalAction =
    | Enable                             // Sync wants the device
    | Drop(why: Purpose, owned: bool)    // Sync or detach gives it up; `owned` is what detach's first listing says
    | SaveActive(saved: bool)
    | LockLocal
    | Back(start: Start)
    | Link(lun: bool)
    | Mark(saved: bool, onward: bool)    // `onward`: an error does not stop the caller
    | Remove(gone: bool, ok: bool)
    | List(answer: Listing, onward: bool)
    | Look
    | Kill(removal: Removal, onward: bool)
    | Erase(saved: bool)

  predicate LocalWaits(p: LocalAt) { p.Ensuring? || p.Unlinking? || p.Letting? }
  predicate LocalInside(p: LocalAt) { p.Backing? || p.Linking? || p.Removing? || p.Releasing? || p.Killing? }

  predicate PublicationsOver(s: State) { forall id :: id in s.publications ==> s.publications[id] == Disabled }

  predicate LocalPossible(s: State, a: LocalAction)
  {
    match a
    case Enable => s.here.Resting?
    case Drop(why, owned) => s.here.Resting? && s.mapping != NoMapping && (s.lun || why == Forget ==> owned)
    case SaveActive(_) => s.here.Wanting?
    case LockLocal => LocalWaits(s.here) && s.lock.None?
    case Back(start) => s.here.Backing? && StartPossible(s, start)
    case Link(lun) => s.here.Linking? && (lun ==> s.backstore) && (s.lun ==> lun)
    case Mark(_, _) => s.here.Marking?
    case Remove(_, _) => s.here.Removing?
    case List(answer, onward) =>
      // Sync drops a stale device even when the helper could not answer; detach does not.
      s.here.Listing? && (s.lun ==> !answer.Absent?) && (onward ==> s.here.why == Forget)
    case Look => s.here.Releasing?
    case Kill(removal, _) => s.here.Killing? && (removal.SocketLeft? ==> s.session)
    case Erase(_) => s.here.Forgetting?
  }

  function LocalApply(s: State, a: LocalAction): State
    requires LocalPossible(s, a)
  {
    match a
    case Enable => s.(here := Wanting)
    case Drop(why, owned) => s.(here := Marking(why, owned))
    case SaveActive(saved) =>
      s.(mapping := if saved then Active else s.mapping, here := Ensuring) // an error is noted and the ensure goes on
    case LockLocal =>
      s.(lock := Some(Local),
         here := if s.here.Ensuring? then Backing else if s.here.Unlinking? then Removing(s.here.why) else Releasing(s.here.why))
    case Back(start) => AfterStart(s, start).(here := Linking) // the LUN is ensured even if the backend was not
    case Link(lun) => s.(lun := lun, lock := None, here := Resting)
    case Mark(saved, onward) =>
      s.(mapping := if saved then CleanupPending else s.mapping,
         here := if !saved && !onward then Resting else if s.here.owned then Unlinking(s.here.why) else Letting(s.here.why))
    case Remove(gone, ok) =>
      s.(lun := s.lun && !gone, lock := None, here := if ok then Listing(s.here.why) else Resting)
    case List(answer, onward) =>
      s.(here := if answer.Absent? || (answer.Unknown? && onward) then Letting(s.here.why) else Resting)
    case Look =>
      if PublicationsOver(s) then s.(since := {}, here := Killing(s.here.why))
      else s.(since := {}, lock := None, here := Forgetting(s.here.why))
    case Kill(removal, onward) =>
      AfterRemoval(s.(handler := false), removal)
        .(lock := None, here := if removal.Removed? || onward then Forgetting(s.here.why) else Resting)
    case Erase(saved) =>
      s.(mapping := if !saved then s.mapping else if s.here.why == Forget then NoMapping else Inactive, here := Resting)
  }

  // ----------------------------------------------------------- network thread

  datatype NetworkAction =
    | Announce(id: nat)                  // Publish saves the publication as creating
    | GiveUp                             // its context ended before the lock
    | LockNetwork
    | Build(start: Start, ok: bool, target: bool) // `target`: what a failure leaves of the target
    | Record(saved: bool)
    | Report(saved: bool)
    | Leave(id: nat)                     // Unpublish of a publication that is not disabled
    | Ask(ok: bool)
    | Stop
    | Untarget(shared: bool, ok: bool)
    | Delete(removal: Removal)
    | Disable(saved: bool)

  predicate NetworkWaits(p: NetworkAt) { p.Waiting? || p.Leaving? }
  predicate NetworkInside(p: NetworkAt) { !p.Quiet? && !p.Reporting? && !NetworkWaits(p) }

  predicate NetworkPossible(s: State, a: NetworkAction)
  {
    match a
    case Announce(id) => s.there.Quiet? && id !in s.publications
    case GiveUp => s.there.Waiting?
    case LockNetwork => NetworkWaits(s.there) && s.lock.None?
    case Build(start, ok, _) =>
      && s.there.Building? && StartPossible(s, start)
      && (start.Started? ==> ok) && (start.Refused? ==> !ok) && (start.Reused? && ok ==> s.backstore)
    case Record(_) => s.there.Recording?
    case Report(_) => s.there.Reporting?
    case Leave(id) => s.there.Quiet? && id in s.publications && s.publications[id] != Disabled
    case Ask(_) => s.there.Asking?
    case Stop => s.there.Stopping?
    case Untarget(shared, _) => s.there.Untargeting? && s.there.shared == shared
    case Delete(_) => s.there.Deleting?
    case Disable(saved) => s.there.Disabling? && s.there.id in s.publications && (saved ==> s.publications[s.there.id] != Creating)
  }

  predicate Shared(s: State) { s.mapping == Active || s.mapping == CleanupPending }

  function NetworkApply(s: State, a: NetworkAction): State
    requires NetworkPossible(s, a)
  {
    match a
    case Announce(id) =>
      s.(publications := s.publications[id := Creating], since := s.since + {id}, there := Waiting(id))
    case GiveUp => s.(there := Reporting(s.there.id))
    case LockNetwork =>
      s.(lock := Some(Network), entered := s.entered + {s.there.id},
         there := if s.there.Waiting? then Building(s.there.id) else Asking(s.there.id))
    case Build(start, ok, target) =>
      AfterStart(s, start)
        .(live := if ok || target then s.live + {s.there.id} else s.live - {s.there.id},
          lock := if ok then s.lock else None,
          there := if ok then Recording(s.there.id) else Reporting(s.there.id))
    case Record(saved) =>
      s.(publications := if saved then s.publications[s.there.id := Ready] else s.publications, lock := None, there := Quiet)
    case Report(saved) =>
      s.(publications := if saved then s.publications[s.there.id := Failed] else s.publications, there := Quiet)
    case Leave(id) => s.(there := Leaving(id))
    case Ask(ok) =>
      if !ok then s.(lock := None, there := Quiet)
      else s.(there := if Shared(s) then Untargeting(s.there.id, true) else Stopping(s.there.id))
    case Stop => s.(handler := false, there := Untargeting(s.there.id, false))
    case Untarget(shared, ok) =>
      if !ok then s.(lock := None, there := Quiet)
      else s.(live := s.live - {s.there.id}, there := if shared then Disabling(s.there.id) else Deleting(s.there.id))
    case Delete(removal) =>
      AfterRemoval(s, removal)
        .(lock := if removal.Removed? then s.lock else None,
          there := if removal.Removed? then Disabling(s.there.id) else Quiet)
    case Disable(saved) =>
      s.(publications := if saved then s.publications[s.there.id := Disabled] else s.publications, lock := None, there := Quiet)
  }

  // ---------------------------------------------------------------------- runs

  datatype Action = ByLocal(local: LocalAction) | ByNetwork(network: NetworkAction)

  predicate Possible(s: State, a: Action)
  {
    match a
    case ByLocal(l) => LocalPossible(s, l)
    case ByNetwork(n) => NetworkPossible(s, n)
  }

  /** A new handler is started. */
  predicate Starts(a: Action)
  {
    || (a.ByLocal? && a.local.Back? && a.local.start.Started?)
    || (a.ByNetwork? && a.network.Build? && a.network.start.Started?)
  }

  /** The step fails and leaves a backstore whose handler it, or an earlier step of
      the same operation, has stopped. */
  predicate Leaves(a: Action)
  {
    match a
    case ByLocal(Back(start)) => start == Refused(true)
    case ByLocal(Kill(removal, _)) => removal == NotRemoved(true)
    case ByNetwork(Build(start, _, _)) => start == Refused(true)
    case ByNetwork(Untarget(shared, ok)) => !shared && !ok
    case ByNetwork(Delete(removal)) => removal == NotRemoved(true)
    case _ => false
  }

  /** The step loses sight of a LUN: it lets the backend go although the helper could
      not say that the LUN is down, or it links one whose mapping could not be stored. */
  predicate GoesAstray(s: State, a: Action)
  {
    || (a.ByLocal? && a.local.List? && a.local.answer.Unknown? && a.local.onward && s.lun)
    || (a.ByLocal? && a.local.Link? && a.local.lun && !Shared(s))
  }

  function Apply(s: State, a: Action): State
    requires Possible(s, a)
  {
    var t := match a case ByLocal(l) => LocalApply(s, l) case ByNetwork(n) => NetworkApply(s, n);
    t.(abandoned := Leaves(a) || (s.abandoned && !Starts(a)), astray := s.astray || GoesAstray(s, a))
  }

  /** `acts` can happen from `s` and leads to `e`. */
  ghost predicate Leads(s: State, acts: seq<Action>, e: State)
    decreases |acts|
  {
    if acts == [] then s == e else Possible(s, acts[0]) && Leads(Apply(s, acts[0]), acts[1..], e)
  }

  /** Some operation failed leaving a backstore behind, and no handler was started
      since. */
  ghost predicate Abandoned(acts: seq<Action>)
  {
    exists i :: 0 <= i < |acts| && Leaves(acts[i]) && NoStart(acts[i + 1..])
  }

  ghost predicate NoStart(acts: seq<Action>) { forall k :: 0 <= k < |acts| ==> !Starts(acts[k]) }

  // ----------------------------------------------------------------- invariant

  ghost predicate Exclusive(s: State)
  {
    && (LocalInside(s.here) <==> s.lock == Some(Local))
    && (NetworkInside(s.there) <==> s.lock == Some(Network))
  }

  predicate Lowered(p: LocalAt) { p.Letting? || p.Releasing? || p.Killing? || p.Forgetting? }

  predicate Stopped(p: NetworkAt) { p.Deleting? || (p.Untargeting? && !p.shared) }

  /** The LUN is in use by somebody who would not know of it: its mapping does not say
      so, or one of the threads is about to stop its backend. */
  predicate Unprotected(s: State)
  {
    s.lun && (!Shared(s) || Lowered(s.here) || s.there.Stopping? || Stopped(s.there))
  }

  /** Unless a LUN has gone astray, every LUN is protected and has a backstore. */
  ghost predicate Mapped(s: State)
  {
    && (s.astray || (!Unprotected(s) && (s.lun ==> s.backstore)))
    && (s.here.Marking? && !s.here.owned ==> !s.lun)
    && (s.here.Marking? || s.here.Unlinking? || s.here.Removing? || s.here.Listing? || Lowered(s.here) ==> s.mapping != NoMapping)
  }

  /** A handler has both a backstore and a registry entry, and a backstore without a
      handler is one that was abandoned or is being removed. */
  ghost predicate Backed(s: State)
  {
    && (s.handler ==> s.session && s.backstore)
    && (Stopped(s.there) || s.abandoned ==> !s.handler)
    && (s.backstore && !s.handler ==> s.abandoned || Stopped(s.there))
  }

  /** Targets belong to publications that have had the lock and are not disabled,
      and so does whatever the network thread is at. */
  ghost predicate Owned(s: State)
  {
    && s.live <= s.entered <= s.publications.Keys
    && (forall id :: id in s.live ==> s.publications[id] != Disabled)
    && (!s.there.Quiet? ==> s.there.id in s.publications && s.publications[s.there.id] != Disabled)
    && (NetworkInside(s.there) ==> s.there.id in s.entered)
    && (s.there.Disabling? || s.there.Deleting? ==> s.there.id !in s.live)
  }

  /** While a release is about to stop the backend, the publications that are not
      disabled are exactly those saved since it looked, and none of them has had the
      lock. */
  ghost predicate Looked(s: State)
  {
    s.here.Killing? ==>
      && s.since !! s.entered && s.since <= s.publications.Keys
      && (forall id :: id in s.publications ==> (s.publications[id] != Disabled <==> id in s.since))
  }

  ghost predicate Inv(s: State) { Exclusive(s) && Mapped(s) && Backed(s) && Owned(s) && Looked(s) }

  lemma EnableKeeps(s: State)
    requires Inv(s) && Possible(s, ByLocal(Enable))
    ensures Inv(Apply(s, ByLocal(Enable)))
  {
  }

  lemma DropKeeps(s: State, why: Purpose, owned: bool)
    requires Inv(s) && Possible(s, ByLocal(Drop(why, owned)))
    ensures Inv(Apply(s, ByLocal(Drop(why, owned))))
  {
  }

  lemma SaveActiveKeeps(s: State, saved: bool)
    requires Inv(s) && Possible(s, ByLocal(SaveActive(saved)))
    ensures Inv(Apply(s, ByLocal(SaveActive(saved))))
  {
  }

  lemma LockLocalKeeps(s: State)
    requires Inv(s) && Possible(s, ByLocal(LockLocal))
    ensures Inv(Apply(s, ByLocal(LockLocal)))
  {
  }

  lemma BackKeeps(s: State, start: Start)
    requires Inv(s) && Possible(s, ByLocal(Back(start)))
    ensures Inv(Apply(s, ByLocal(Back(start))))
  {
  }

  lemma LinkKeeps(s: State, lun: bool)
    requires Inv(s) && Possible(s, ByLocal(Link(lun)))
    ensures Inv(Apply(s, ByLocal(Link(lun))))
  {
  }

  lemma MarkKeeps(s: State, saved: bool, onward: bool)
    requires Inv(s) && Possible(s, ByLocal(Mark(saved, onward)))
    ensures Inv(Apply(s, ByLocal(Mark(saved, onward))))
  {
  }

  lemma RemoveKeeps(s: State, gone: bool, ok: bool)
    requires Inv(s) && Possible(s, ByLocal(Remove(gone, ok)))
    ensures Inv(Apply(s, ByLocal(Remove(gone, ok))))
  {
  }

  lemma ListKeeps(s: State, answer: Listing, onward: bool)
    requires Inv(s) && Possible(s, ByLocal(List(answer, onward)))
    ensures Inv(Apply(s, ByLocal(List(answer, onward))))
  {
  }

  lemma LookKeeps(s: State)
    requires Inv(s) && Possible(s, ByLocal(Look))
    ensures Inv(Apply(s, ByLocal(Look)))
  {
    if PublicationsOver(s) { LookFindsNone(s); } else { LookFindsOne(s); }
  }

  lemma LookFindsNone(s: State)
    requires Inv(s) && Possible(s, ByLocal(Look)) && PublicationsOver(s)
    ensures Inv(Apply(s, ByLocal(Look)))
  {
  }

  lemma LookFindsOne(s: State)
    requires Inv(s) && Possible(s, ByLocal(Look)) && !PublicationsOver(s)
    ensures Inv(Apply(s, ByLocal(Look)))
  {
  }

  lemma KillKeeps(s: State, removal: Removal, onward: bool)
    requires Inv(s) && Possible(s, ByLocal(Kill(removal, onward)))
    ensures Inv(Apply(s, ByLocal(Kill(removal, onward))))
  {
  }

  lemma EraseKeeps(s: State, saved: bool)
    requires Inv(s) && Possible(s, ByLocal(Erase(saved)))
    ensures Inv(Apply(s, ByLocal(Erase(saved))))
  {
  }

  lemma AnnounceKeeps(s: State, id: nat)
    requires Inv(s) && Possible(s, ByNetwork(Announce(id)))
    ensures Inv(Apply(s, ByNetwork(Announce(id))))
  {
  }

  lemma GiveUpKeeps(s: State)
    requires Inv(s) && Possible(s, ByNetwork(GiveUp))
    ensures Inv(Apply(s, ByNetwork(GiveUp)))
  {
  }

  lemma LockNetworkKeeps(s: State)
    requires Inv(s) && Possible(s, ByNetwork(LockNetwork))
    ensures Inv(Apply(s, ByNetwork(LockNetwork)))
  {
  }

  lemma BuildKeeps(s: State, start: Start, ok: bool, target: bool)
    requires Inv(s) && Possible(s, ByNetwork(Build(start, ok, target)))
    ensures Inv(Apply(s, ByNetwork(Build(start, ok, target))))
  {
  }

  lemma RecordKeeps(s: State, saved: bool)
    requires Inv(s) && Possible(s, ByNetwork(Record(saved)))
    ensures Inv(Apply(s, ByNetwork(Record(saved))))
  {
  }

  lemma ReportKeeps(s: State, saved: bool)
    requires Inv(s) && Possible(s, ByNetwork(Report(saved)))
    ensures Inv(Apply(s, ByNetwork(Report(saved))))
  {
  }

  lemma LeaveKeeps(s: State, id: nat)
    requires Inv(s) && Possible(s, ByNetwork(Leave(id)))
    ensures Inv(Apply(s, ByNetwork(Leave(id))))
  {
  }

  lemma AskKeeps(s: State, ok: bool)
    requires Inv(s) && Possible(s, ByNetwork(Ask(ok)))
    ensures Inv(Apply(s, ByNetwork(Ask(ok))))
  {
  }

  lemma StopKeeps(s: State)
    requires Inv(s) && Possible(s, ByNetwork(Stop))
    ensures Inv(Apply(s, ByNetwork(Stop)))
  {
  }

  lemma UntargetKeeps(s: State, shared: bool, ok: bool)
    requires Inv(s) && Possible(s, ByNetwork(Untarget(shared, ok)))
    ensures Inv(Apply(s, ByNetwork(Untarget(shared, ok))))
  {
  }

  lemma DeleteKeeps(s: State, removal: Removal)
    requires Inv(s) && Possible(s, ByNetwork(Delete(removal)))
    ensures Inv(Apply(s, ByNetwork(Delete(removal))))
  {
  }

  lemma DisableKeeps(s: State, saved: bool)
    requires Inv(s) && Possible(s, ByNetwork(Disable(saved)))
    ensures Inv(Apply(s, ByNetwork(Disable(saved))))
  {
  }

  lemma LocalKeeps(s: State, a: LocalAction)
    requires Inv(s) && Possible(s, ByLocal(a))
    ensures Inv(Apply(s, ByLocal(a)))
  {
    match a
    case Enable => EnableKeeps(s);
    case Drop(why, owned) => DropKeeps(s, why, owned);
    case SaveActive(saved) => SaveActiveKeeps(s, saved);
    case LockLocal => LockLocalKeeps(s);
    case Back(start) => BackKeeps(s, start);
    case Link(lun) => LinkKeeps(s, lun);
    case Mark(saved, onward) => MarkKeeps(s, saved, onward);
    case Remove(gone, ok) => RemoveKeeps(s, gone, ok);
    case List(answer, onward) => ListKeeps(s, answer, onward);
    case Look => LookKeeps(s);
    case Kill(removal, onward) => KillKeeps(s, removal, onward);
    case Erase(saved) => EraseKeeps(s, saved);
  }

  lemma NetworkKeeps(s: State, a: NetworkAction)
    requires Inv(s) && Possible(s, ByNetwork(a))
    ensures Inv(Apply(s, ByNetwork(a)))
  {
    match a
    case Announce(id) => AnnounceKeeps(s, id);
    case GiveUp => GiveUpKeeps(s);
    case LockNetwork => LockNetworkKeeps(s);
    case Build(start, ok, target) => BuildKeeps(s, start, ok, target);
    case Record(saved) => RecordKeeps(s, saved);
    case Report(saved) => ReportKeeps(s, saved);
    case Leave(id) => LeaveKeeps(s, id);
    case Ask(ok) => AskKeeps(s, ok);
    case Stop => StopKeeps(s);
    case Untarget(shared, ok) => UntargetKeeps(s, shared, ok);
    case Delete(removal) => DeleteKeeps(s, removal);
    case Disable(saved) => DisableKeeps(s, saved);
  }

  lemma StepKeeps(s: State, a: Action)
    requires Inv(s) && Possible(s, a)
    ensures Inv(Apply(s, a))
  {
    match a
    case ByLocal(l) => LocalKeeps(s, l);
    case ByNetwork(n) => NetworkKeeps(s, n);
  }

  lemma {:induction false} RunsKeepInv(s: State, acts: seq<Action>, e: State)
    requires Inv(s) && Leads(s, acts, e)
    ensures Inv(e)
    decreases |acts|
  {
    if acts != [] {
      StepKeeps(s, acts[0]);
      RunsKeepInv(Apply(s, acts[0]), acts[1..], e);
    }
  }

  /** In every run in which no LUN has gone astray: a loopback LUN has a backstore and
      an active or cleanup-pending mapping; Unpublish stops a handler or deletes a
      backstore only when there is no LUN, and so does the release of a local backend.
      In every run, a release stops a backend only when no publication's target
      exists. */
  lemma BackendIsKept(acts: seq<Action>, e: State)
    requires Leads(INIT, acts, e)
    ensures !e.astray && e.lun ==> e.backstore && (e.mapping == Active || e.mapping == CleanupPending)
    ensures !e.astray && (e.there.Stopping? || e.there.Deleting? || e.here.Killing?) ==> !e.lun
    ensures e.here.Killing? ==> e.live == {}
  {
    RunsKeepInv(INIT, acts, e);
  }

  /** Exactly those steps leave a LUN unprotected for the first time. */
  lemma OnlyTheseGoAstray(acts: seq<Action>, e: State, a: Action)
    requires Leads(INIT, acts, e) && !e.astray && Possible(e, a)
    ensures Unprotected(Apply(e, a)) <==> GoesAstray(e, a)
  {
    RunsKeepInv(INIT, acts, e);
    StepKeeps(e, a);
  }

  /** As long as a LUN is up its handler neither stops nor starts. */
  lemma LunKeepsItsHandler(acts: seq<Action>, e: State, a: Action)
    requires Leads(INIT, acts, e) && !e.astray && Possible(e, a) && e.lun
    ensures Apply(e, a).handler == e.handler
  {
    RunsKeepInv(INIT, acts, e);
    if a.ByLocal? { LocalLeavesHandler(e, a.local); } else { NetworkLeavesHandler(e, a.network); }
  }

  lemma LocalLeavesHandler(s: State, a: LocalAction)
    requires Mapped(s) && Backed(s) && !s.astray && LocalPossible(s, a) && s.lun
    ensures LocalApply(s, a).handler == s.handler
  {
  }

  lemma NetworkLeavesHandler(s: State, a: NetworkAction)
    requires Mapped(s) && Backed(s) && !s.astray && NetworkPossible(s, a) && s.lun
    ensures NetworkApply(s, a).handler == s.handler
  {
  }

  lemma {:induction false} AbandonedIsRecorded(s: State, acts: seq<Action>, e: State)
    requires Leads(s, acts, e)
    ensures e.abandoned <==> Abandoned(acts) || (s.abandoned && NoStart(acts))
    decreases |acts|
  {
    if acts != [] {
      AbandonedIsRecorded(Apply(s, acts[0]), acts[1..], e);
      AbandonedFrom(acts);
    }
  }

  lemma AbandonedFrom(acts: seq<Action>)
    requires acts != []
    ensures NoStart(acts) <==> !Starts(acts[0]) && NoStart(acts[1..])
    ensures Abandoned(acts) <==> (Leaves(acts[0]) && NoStart(acts[1..])) || Abandoned(acts[1..])
  {
    var rest := acts[1..];
    if Abandoned(rest) {
      var i :| 0 <= i < |rest| && Leaves(rest[i]) && NoStart(rest[i + 1..]);
      assert acts[i + 2..] == rest[i + 1..];
      assert Leaves(acts[i + 1]);
    }
    if Abandoned(acts) {
      var i :| 0 <= i < |acts| && Leaves(acts[i]) && NoStart(acts[i + 1..]);
      if i > 0 {
        assert acts[i + 1..] == rest[i..];
        assert Leaves(rest[i - 1]);
      }
    }
    assert forall k :: 0 <= k < |rest| ==> rest[k] == acts[k + 1];
  }

  /** A LUN has no handler exactly when some operation failed leaving a backstore
      behind and no handler was started since: the registry entry, or the backstore
      itself, keeps the adapter from starting one. */
  lemma LunWithoutHandler(acts: seq<Action>, e: State)
    requires Leads(INIT, acts, e) && !e.astray && e.lun
    ensures !e.handler <==> Abandoned(acts)
  {
    RunsKeepInv(INIT, acts, e);
    AbandonedIsRecorded(INIT, acts, e);
  }

  /** When a release stops the backend, a publication of the device that is not
      disabled exists exactly when one was saved since the release looked. */
  lemma ReleaseMissesOnlyNewcomers(acts: seq<Action>, e: State)
    requires Leads(INIT, acts, e) && e.here.Killing?
    ensures (exists id :: id in e.publications && e.publications[id] != Disabled) <==> e.since != {}
    ensures e.since !! e.entered
  {
    RunsKeepInv(INIT, acts, e);
    if e.since != {} {
      var id :| id in e.since;
      assert id in e.publications;
    }
  }

  // ----------------------------------------------------------------- witnesses

  lemma {:induction false} OneMore(s: State, acts: seq<Action>, m: State, a: Action)
    requires Leads(s, acts, m) && Possible(m, a)
    ensures Leads(s, acts + [a], Apply(m, a))
    decreases |acts|
  {
    if acts != [] {
      OneMore(Apply(s, acts[0]), acts[1..], m, a);
      assert (acts + [a])[1..] == acts[1..] + [a];
    }
  }

  lemma Then(acts: seq<Action>, m: State, a: Action) returns (longer: seq<Action>, e: State)
    requires Leads(INIT, acts, m) && Possible(m, a)
    ensures Leads(INIT, longer, e) && e == Apply(m, a)
  {
    OneMore(INIT, acts, m, a);
    longer, e := acts + [a], Apply(m, a);
  }

  /** From rest to where the local thread ensures the backend. */
  lemma ToBacking(acts: seq<Action>, m: State) returns (longer: seq<Action>, e: State)
    requires Leads(INIT, acts, m) && m.here.Resting? && m.lock.None?
    ensures Leads(INIT, longer, e) && e == m.(mapping := Active, lock := Some(Local), here := Backing)
  {
    longer, e := ToEnsuring(acts, m);
    longer, e := Then(longer, e, ByLocal(LockLocal));
  }

  lemma ToEnsuring(acts: seq<Action>, m: State) returns (longer: seq<Action>, e: State)
    requires Leads(INIT, acts, m) && m.here.Resting?
    ensures Leads(INIT, longer, e) && e == m.(mapping := Active, here := Ensuring)
  {
    longer, e := Then(acts, m, ByLocal(Enable));
    longer, e := Then(longer, e, ByLocal(SaveActive(true)));
  }

  const READY := INIT.(mapping := Active, session := true, handler := true, backstore := true)

  lemma Ensured(lun: bool) returns (acts: seq<Action>, e: State)
    ensures Leads(INIT, acts, e) && e == READY.(lun := lun)
  {
    acts, e := ToBacking([], INIT);
    acts, e := Then(acts, e, ByLocal(Back(Started)));
    acts, e := Then(acts, e, ByLocal(Link(lun)));
  }

  /** And from there to where it has asked for the LUN to be removed. */
  lemma Unlinked() returns (acts: seq<Action>, e: State)
    ensures Leads(INIT, acts, e) && e == READY.(mapping := CleanupPending, lun := true, here := Unlinking(Forget))
  {
    acts, e := Ensured(true);
    acts, e := Then(acts, e, ByLocal(Drop(Forget, true)));
    acts, e := Then(acts, e, ByLocal(Mark(true, true)));
  }

  lemma Leftover() returns (acts: seq<Action>, e: State)
    ensures Leads(INIT, acts, e) && e == READY.(mapping := CleanupPending, lun := true, here := Listing(Forget))
  {
    acts, e := Unlinked();
    acts, e := Then(acts, e, ByLocal(LockLocal));
    acts, e := Then(acts, e, ByLocal(Remove(false, true)));
  }

  /** The LUN of a device that Sync drops survives the remove, the helper cannot be
      asked, and the release goes on to stop the handler under it. */
  lemma ReleaseCanMissALun() returns (acts: seq<Action>, e: State)
    ensures Leads(INIT, acts, e) && e.here.Killing? && e.lun && e.handler
  {
    acts, e := Leftover();
    acts, e := Then(acts, e, ByLocal(List(Unknown, true)));
    acts, e := Then(acts, e, ByLocal(LockLocal));
    acts, e := Then(acts, e, ByLocal(Look));
  }

  lemma Dropped() returns (acts: seq<Action>, e: State)
    ensures Leads(INIT, acts, e) && e == READY.(mapping := CleanupPending, here := Letting(Deactivate))
  {
    acts, e := Ensured(false);
    acts, e := Then(acts, e, ByLocal(Drop(Deactivate, false)));
    acts, e := Then(acts, e, ByLocal(Mark(true, true)));
  }

  /** Publish saves its publication before it takes the lock, so a release can miss
      it. */
  lemma ReleaseCanMissANewcomer() returns (acts: seq<Action>, e: State)
    ensures Leads(INIT, acts, e) && e.here.Killing? && e.handler
    ensures e.publications == map[0 := Creating]
  {
    acts, e := Dropped();
    acts, e := Then(acts, e, ByLocal(LockLocal));
    acts, e := Then(acts, e, ByLocal(Look));
    acts, e := Then(acts, e, ByNetwork(Announce(0)));
  }

  const BUILDING := INIT.(lock := Some(Network), there := Building(0), publications := map[0 := Creating], entered := {0}, since := {0})

  lemma Announced() returns (acts: seq<Action>, e: State)
    ensures Leads(INIT, acts, e) && e == BUILDING
  {
    acts, e := [], INIT;
    acts, e := Then(acts, e, ByNetwork(Announce(0)));
    acts, e := Then(acts, e, ByNetwork(LockNetwork));
  }

  const PUBLISHED := BUILDING.(session := true, handler := true, backstore := true, lock := None, there := Quiet,
                               publications := map[0 := Ready], live := {0})

  lemma Built() returns (acts: seq<Action>, e: State)
    ensures Leads(INIT, acts, e)
    ensures e == BUILDING.(session := true, handler := true, backstore := true, there := Recording(0), live := {0})
  {
    acts, e := Announced();
    acts, e := Then(acts, e, ByNetwork(Build(Started, true, true)));
    assert e.live == {0};
  }

  lemma Published() returns (acts: seq<Action>, e: State)
    ensures Leads(INIT, acts, e) && e == PUBLISHED
  {
    acts, e := Built();
    acts, e := Then(acts, e, ByNetwork(Record(true)));
  }

  lemma Unshared() returns (acts: seq<Action>, e: State)
    ensures Leads(INIT, acts, e) && e == PUBLISHED.(lock := Some(Network), there := Stopping(0))
  {
    acts, e := Published();
    acts, e := Then(acts, e, ByNetwork(Leave(0)));
    acts, e := Then(acts, e, ByNetwork(LockNetwork));
    assert e.entered == PUBLISHED.entered;
    acts, e := Then(acts, e, ByNetwork(Ask(true)));
  }

  lemma HalfUnpublished() returns (acts: seq<Action>, e: State)
    ensures Leads(INIT, acts, e) && e == PUBLISHED.(handler := false, abandoned := true)
  {
    acts, e := Unshared();
    acts, e := Then(acts, e, ByNetwork(Stop));
    acts, e := Then(acts, e, ByNetwork(Untarget(false, false)));
  }

  /** An Unpublish that kills the handler and then cannot delete the target keeps the
      registry entry: the next ensure takes it for a backend and links a LUN that
      nobody serves. */
  lemma LunCanLackItsHandler() returns (acts: seq<Action>, e: State)
    ensures Leads(INIT, acts, e) && !e.astray && e.lun && !e.handler && e.session && e.publications == map[0 := Ready]
  {
    acts, e := HalfUnpublished();
    acts, e := ToBacking(acts, e);
    acts, e := Then(acts, e, ByLocal(Back(Reused)));
    acts, e := Then(acts, e, ByLocal(Link(true)));
  }
}
