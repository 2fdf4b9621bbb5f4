/** Publishing iSCSI targets under changing security bindings
    (control-plane/internal/orchestration/target_runtime_service.go and
    iscsi_security_service.go). Every operation runs under the one outer security
    lock, so operations are atomic here; storage and the kernel target may fail at
    any point inside them, which the fault arguments decide. */
module TargetRuntime {
  import opened Bytes
  import opened IscsiPolicy

  datatype PublicationState = Creating | Ready | Failed | Disabled
  datatype Publication = Publication(iqn: string, library: string, drive: string, role: Role, state: PublicationState)

  /** What a failed kernel publish leaves of the target: as it was, deleted, present
      but without an exported LUN, or fully set up although an error was reported. */
  datatype Leftover = Kept | Gone | Bare | Applied

  datatype Publishing = Published | PublishFailed(left: Leftover)
  datatype Removal = Removed | RemovalFailed(gone: bool)

  // ---------------------------------------------------------------- invariants

  /** Target `q` resolves, and resolves to `a`. */
  ghost predicate EnforcedAt(s: Store, q: string, a: Auth)
  {
    q in s.targets && s.targets[q].role.Some? && ResolveTarget(s, q).Ok? && ResolveTarget(s, q).value.auth == a
  }

  /** Every serving target runs the policy its bindings resolve to. */
  ghost predicate Enforced(s: Store, serving: map<string, Auth>)
  {
    WellFormed(s) && forall q :: q in serving ==> EnforcedAt(s, q, serving[q])
  }

  /** Every held target is marked offline and does not serve. */
  ghost predicate Quiet(s: Store, serving: map<string, Auth>, held: set<string>)
  {
    forall q :: q in held ==> q in s.targets && s.targets[q].offline && q !in serving
  }

  // ------------------------------------------------------- repository functions

  function SetOffline(s: Store, q: string, offline: bool): Store
    requires q in s.targets
  {
    s.(targets := s.targets[q := s.targets[q].(offline := offline)])
  }

  function NewTarget(p: Publication): Binding
  {
    Binding(TargetScope, p.iqn, p.library, if p.role == ChangerRole then "" else p.drive, p.iqn, Some(p.role), None, 1, false)
  }

  /** Registers the publication's target, or checks that it has the identity it was
      registered with. */
  function Register(s: Store, p: Publication): (r: Result<Store, Error>)
    ensures r.Ok? ==> p.iqn in r.value.targets
  {
    var row := NewTarget(p);
    if !Valid(row) then Err(InvalidInput)
    else if p.iqn !in s.targets then Ok(s.(targets := s.targets[p.iqn := row]))
    else
      var was := s.targets[p.iqn];
      if was.library != row.library || was.drive != row.drive || was.role != row.role then Err(Conflict) else Ok(s)
  }

  lemma OwnOfflineFlag(s: Store, t: Binding, offline: bool, n: Store)
    requires t.role.Some? && n.drives == s.drives && n.libraries == s.libraries
    ensures ResolveWith(n, t.(offline := offline), None) == ResolveWith(s, t, None)
  {
  }

  lemma OfflineFlagDoesNotResolve(s: Store, q: string, offline: bool, t: string, a: Auth)
    requires WellFormed(s) && q in s.targets && EnforcedAt(s, t, a)
    ensures EnforcedAt(SetOffline(s, q, offline), t, a)
  {
    if t == q {
      OwnOfflineFlag(s, s.targets[q], offline, SetOffline(s, q, offline));
    } else {
      SameRowsSameResolution(s, SetOffline(s, q, offline), t);
    }
  }

  lemma SetOfflineKeeps(s: Store, q: string, offline: bool, serving: map<string, Auth>)
    requires q in s.targets && Enforced(s, serving)
    ensures Enforced(SetOffline(s, q, offline), serving)
  {
    assert TargetRow(q, s.targets[q]);
    forall t | t in serving ensures EnforcedAt(SetOffline(s, q, offline), t, serving[t]) {
      OfflineFlagDoesNotResolve(s, q, offline, t, serving[t]);
    }
  }

  lemma RegisterKeeps(s: Store, p: Publication, serving: map<string, Auth>)
    requires Enforced(s, serving) && Register(s, p).Ok?
    ensures Enforced(Register(s, p).value, serving)
  {
    if p.iqn !in s.targets {
      var n := Register(s, p).value;
      assert TargetRow(p.iqn, n.targets[p.iqn]);
      forall t | t in serving ensures EnforcedAt(n, t, serving[t]) {
        SameRowsSameResolution(s, n, t);
      }
    }
  }

  /** The publication's target is or can be registered as it says, and resolves. */
  ghost predicate Resolvable(s: Store, p: Publication)
  {
    && Register(s, p).Ok?
    && var n := Register(s, p).value; n.targets[p.iqn].role.Some? && ResolveTarget(n, p.iqn).Ok?
  }

  predicate Offline(s: Store, q: string) { q in s.targets && s.targets[q].offline }

  /** The publication's target is registered as it says, not held offline, and
      resolves: nothing in the store keeps a restart from serving it again. */
  ghost predicate Restorable(s: Store, p: Publication)
  {
    && Register(s, p) == Ok(s) && !s.targets[p.iqn].offline
    && s.targets[p.iqn].role.Some? && ResolveTarget(s, p.iqn).Ok?
  }

  lemma RegisterKeepsRestorable(s: Store, p: Publication, o: Publication)
    requires WellFormed(s) && Register(s, p).Ok? && Restorable(s, o)
    ensures Restorable(Register(s, p).value, o)
  {
    if p.iqn !in s.targets {
      SameRowsSameResolution(s, Register(s, p).value, o.iqn);
    }
  }

  /** No target has two active publications: the index over active rows. */
  ghost predicate OneActive(publications: map<string, Publication>)
  {
    forall a, b :: a in publications && b in publications && a != b && Active(publications[a]) && Active(publications[b])
      ==> publications[a].iqn != publications[b].iqn
  }

  /** A publication that was active may take any state. */
  lemma StillOneActive(publications: map<string, Publication>, id: string, state: PublicationState)
    requires OneActive(publications) && id in publications && Active(publications[id])
    ensures OneActive(publications[id := publications[id].(state := state)])
  {
  }

  /** Another publication of the target is ready. */
  predicate Taken(publications: map<string, Publication>, id: string, q: string)
  {
    exists o :: o in publications && o != id && publications[o].iqn == q && publications[o].state == Ready
  }

  // ----------------------------------------------------------------------- gate

  predicate Active(p: Publication) { p.state == Creating || p.state == Ready }

  /** Is the target gone from the runtime? An active publication says no; otherwise
      the kernel's target directory decides, unless it cannot be read. */
  function Absent(publications: map<string, Publication>, present: set<string>, unreadable: set<string>, q: string): Result<bool, Error>
  {
    if exists id :: id in publications && Active(publications[id]) && publications[id].iqn == q then Ok(false)
    else if q in unreadable then Err(Unavailable)
    else Ok(q !in present)
  }

  ghost predicate BothResolve(s: Store, b: Binding, q: string)
  {
    && q in s.targets && s.targets[q].role.Some?
    && ResolveTarget(s, q).Ok? && ResolveWith(s, s.targets[q], Some(b)).Ok?
  }

  /** The binding would change the target's policy. */
  ghost predicate Changes(s: Store, b: Binding, q: string)
    requires BothResolve(s, b, q)
  {
    !SamePolicy(ResolveTarget(s, q).value, ResolveWith(s, s.targets[q], Some(b)).value)
  }

  /** The binding may be stored as far as target `q` is concerned. */
  ghost predicate Passes(s: Store, b: Binding, absent: Result<bool, Error>, q: string)
  {
    BothResolve(s, b, q) && (Changes(s, b, q) ==> s.targets[q].offline && absent == Ok(true))
  }

  predicate Known(s: Store, b: Binding) { b.scope == TargetScope ==> b.iqn in s.targets }

  ghost predicate Gate(s: Store, b: Binding, publications: map<string, Publication>, present: set<string>, unreadable: set<string>)
  {
    Known(s, b) && forall q :: q in Affected(s, b) ==> Passes(s, b, Absent(publications, present, unreadable, q), q)
  }

  datatype Impact = Impact(changed: bool, absent: bool, busy: bool)

  ghost predicate ImpactOf(s: Store, b: Binding, absent: Result<bool, Error>, q: string, i: Impact)
  {
    && BothResolve(s, b, q)
    && i.changed == Changes(s, b, q)
    && i.absent == (absent == Ok(true))
    && i.busy == (i.changed && (!s.targets[q].offline || !i.absent))
  }

  ghost predicate Previewed(s: Store, b: Binding, publications: map<string, Publication>, present: set<string>,
                            unreadable: set<string>, impacts: map<string, Impact>)
  {
    && Known(s, b) && impacts.Keys == Affected(s, b)
    && forall q :: q in impacts ==> ImpactOf(s, b, Absent(publications, present, unreadable, q), q, impacts[q])
  }

  /** Storing passes the gate exactly when the preview shows no busy target, and a
      target whose state cannot be read is busy in the preview if its policy would
      change. */
  lemma GateAgreesWithPreview(s: Store, b: Binding, publications: map<string, Publication>, present: set<string>,
                              unreadable: set<string>, impacts: map<string, Impact>)
    requires Previewed(s, b, publications, present, unreadable, impacts)
    ensures Gate(s, b, publications, present, unreadable) <==> forall q :: q in impacts ==> !impacts[q].busy
    ensures forall q :: q in impacts && impacts[q].changed && Absent(publications, present, unreadable, q).Err? ==> impacts[q].busy
  {
    forall q | q in impacts
      ensures Passes(s, b, Absent(publications, present, unreadable, q), q) <==> !impacts[q].busy
    {
      assert ImpactOf(s, b, Absent(publications, present, unreadable, q), q, impacts[q]);
    }
    if Gate(s, b, publications, present, unreadable) {
      forall q | q in impacts ensures !impacts[q].busy { assert q in Affected(s, b); }
    }
  }

  /** A stored binding that passed the gate leaves every serving target with the
      policy it runs. */
  lemma GatedSaveKeeps(s: Store, b: Binding, publications: map<string, Publication>, present: set<string>,
                       unreadable: set<string>, serving: map<string, Auth>)
    requires Enforced(s, serving) && serving.Keys <= present
    requires Valid(b) && Gate(s, b, publications, present, unreadable) && Save(s, b).Ok?
    ensures Enforced(Save(s, b).value, serving)
  {
    SaveKeepsRows(s, b);
    forall q | q in serving ensures EnforcedAt(Save(s, b).value, q, serving[q]) {
      assert EnforcedAt(s, q, serving[q]);
      GatedTargetKeeps(s, b, q, serving[q], Absent(publications, present, unreadable, q));
    }
  }

  lemma GatedTargetKeeps(s: Store, b: Binding, q: string, a: Auth, absent: Result<bool, Error>)
    requires WellFormed(s) && Valid(b) && Save(s, b).Ok? && EnforcedAt(s, q, a)
    requires absent != Ok(true) && (q in Affected(s, b) ==> Passes(s, b, absent, q))
    ensures EnforcedAt(Save(s, b).value, q, a)
  {
    if q in Affected(s, b) { UnchangedStays(s, b, q, a); } else { UnreachedResolvesTheSame(s, b, q); }
  }

  lemma UnchangedStays(s: Store, b: Binding, q: string, a: Auth)
    requires WellFormed(s) && Valid(b) && Save(s, b).Ok? && q in Affected(s, b)
    requires BothResolve(s, b, q) && !Changes(s, b, q) && EnforcedAt(s, q, a)
    ensures EnforcedAt(Save(s, b).value, q, a)
  {
    ReachedResolvesAsForeseen(s, b, q);
    assert TargetRow(q, Save(s, b).value.targets[q]);
    ResolvedIsCanonical(s, s.targets[q], None);
    ResolvedIsCanonical(s, s.targets[q], Some(b));
  }

  lemma ResolvedIsCanonical(s: Store, t: Binding, candidate: Option<Binding>)
    requires t.role.Some? && ResolveWith(s, t, candidate).Ok?
    ensures var a := ResolveWith(s, t, candidate).value.auth; Canonical(a) == a
  {
    var own := if candidate.Some? && candidate.value.scope == TargetScope && candidate.value.iqn == t.iqn
               then candidate else Some(t);
    var d := Deciding(t.role.value, own, DriveBinding(s, t.drive, candidate), LibraryBinding(s, t.library, candidate));
    if d.Some? { CanonicalStable(d.value.auth.value); }
  }

  // --------------------------------------------------------------------- faults

  /** Marking a target offline: done, not stored, or stored and then reported as an
      error because its audit record could not be written. */
  datatype Marking = Marked | NotMarked | NotAudited

  datatype ResolveFaults = ResolveFaults(register: bool, credential: bool, clear: bool)
  datatype PublishFaults = PublishFaults(resources: bool, resolve: ResolveFaults, save: bool, kernel: Publishing,
                                         saveReady: bool, saveFailed: bool, offline: Marking)
  datatype UnpublishFaults = UnpublishFaults(offline: Marking, kernel: Removal, save: bool)
  datatype RestoreFaults = RestoreFaults(resolve: ResolveFaults, removal: Removal, kernel: Publishing, save: bool)

  predicate Clear(f: ResolveFaults) { !f.register && !f.credential && !f.clear }

  predicate Untroubled(f: PublishFaults)
  {
    !f.resources && Clear(f.resolve) && !f.save && f.kernel.Published? && !f.saveReady
  }

  predicate Undisturbed(f: UnpublishFaults) { f.offline.Marked? && f.kernel.Removed? && !f.save }

  predicate Smooth(f: RestoreFaults)
  {
    Clear(f.resolve) && f.removal.Removed? && f.kernel.Published?
  }

  function ReadyIds(publications: map<string, Publication>): set<string>
  {
    set id | id in publications && publications[id].state == Ready
  }

  /** Every publication of `done` that the store lets through and no fault hits
      serves. */
  ghost predicate Served(listed: map<string, Publication>, f: string -> RestoreFaults, s: Store, done: set<string>, serving: map<string, Auth>)
  {
    forall id :: id in done && id in listed && Restorable(s, listed[id]) && Smooth(f(id)) ==> listed[id].iqn in serving
  }

  ghost predicate StillRestorable(listed: map<string, Publication>, s: Store, n: Store)
  {
    forall id :: id in listed && Restorable(s, listed[id]) ==> Restorable(n, listed[id])
  }

  lemma RestorableOn(listed: map<string, Publication>, s: Store, before: Store, p: Publication, after: Store)
    requires WellFormed(before) && StillRestorable(listed, s, before)
    requires after == before || Register(before, p) == Ok(after)
    ensures StillRestorable(listed, s, after)
  {
    if after != before {
      forall o | o in listed && Restorable(s, listed[o]) ensures Restorable(after, listed[o]) {
        RegisterKeepsRestorable(before, p, listed[o]);
      }
    }
  }

  lemma ServedOn(listed: map<string, Publication>, f: string -> RestoreFaults, s: Store, done: set<string>, id: string,
                 before: map<string, Auth>, after: map<string, Auth>)
    requires OneActive(listed) && done + {id} <= ReadyIds(listed) && id !in done
    requires Served(listed, f, s, done, before)
    requires forall q :: q != listed[id].iqn ==> (q in after <==> q in before)
    requires Restorable(s, listed[id]) && Smooth(f(id)) ==> listed[id].iqn in after
    ensures Served(listed, f, s, done + {id}, after)
  {
  }

  // ---------------------------------------------------------------------- steps

  datatype Snapshot = Snapshot(store: Store, publications: map<string, Publication>, present: set<string>, serving: map<string, Auth>)

  datatype Op =
    | PublishOp(id: string, publication: Publication, automatic: bool, publishFaults: PublishFaults)
    | UnpublishOp(id: string, unpublishFaults: UnpublishFaults)
    | RollbackOp(id: string, unpublishFaults: UnpublishFaults)
    | RestoreOp(restoreFaults: string -> RestoreFaults)
    | PutBindingOp(binding: Binding, references: bool, unreadable: set<string>, storage: bool, audit: bool)
    | ShutdownOp(removals: string -> Removal)
    | RebootOp

  /** Nothing but the entry of `q` differs. */
  ghost predicate SameBut<T>(m: map<string, T>, q: string, n: map<string, T>)
  {
    forall t :: t != q ==> (t in m <==> t in n) && (t in m ==> m[t] == n[t])
  }

  ghost predicate StoreSameBut(s: Store, q: string, n: Store)
  {
    n.drives == s.drives && n.libraries == s.libraries && SameBut(s.targets, q, n.targets)
  }

  /** Publications other than `id` stay, except that one of `q` still being created
      may be superseded. */
  ghost predicate Superseded(was: map<string, Publication>, id: string, q: string, now: map<string, Publication>)
  {
    && was.Keys <= now.Keys <= was.Keys + {id}
    && forall o :: o in was && o != id ==>
         now[o] == was[o] || (was[o].state == Creating && was[o].iqn == q && now[o] == was[o].(state := Failed))
  }

  /** Nothing in the store, no rival and no fault keeps the publication from serving. */
  ghost predicate Publishable(s: Snapshot, id: string, p: Publication, automatic: bool, f: PublishFaults)
  {
    Resolvable(s.store, p) && Untroubled(f) && !Taken(s.publications, id, p.iqn) && !(automatic && Offline(s.store, p.iqn))
  }

  function StateAfter(f: PublishFaults): PublicationState
  {
    if f.kernel.Published? then if f.saveReady then Creating else Ready else if f.saveFailed then Creating else Failed
  }

  /** The publication got as far as having a row: what became of it. */
  ghost predicate Recorded(id: string, p: Publication, f: PublishFaults, t: Snapshot)
  {
    && id in t.publications && t.publications[id] == p.(state := StateAfter(f))
    && (f.kernel.Published? ==> p.iqn in t.serving)
    && (StateAfter(f) == Failed && !f.offline.NotMarked? ==> Offline(t.store, p.iqn))
  }

  ghost predicate PublishNext(s: Snapshot, id: string, p: Publication, automatic: bool, f: PublishFaults, t: Snapshot)
  {
    && StoreSameBut(s.store, p.iqn, t.store) && SameBut(s.serving, p.iqn, t.serving)
    && Superseded(s.publications, id, p.iqn, t.publications)
    && (Recorded(id, p, f, t) || (t.publications == s.publications && t.serving == s.serving))
    && (Publishable(s, id, p, automatic, f) ==> Recorded(id, p, f, t))
    && (automatic && Offline(s.store, p.iqn) ==> t.serving == s.serving && t.publications == s.publications)
  }

  /** Preparing and completing a publication together. */
  lemma BothParts(s: Snapshot, id: string, p: Publication, automatic: bool, f: PublishFaults, mid: Snapshot, t: Snapshot)
    requires StoreSameBut(s.store, p.iqn, mid.store) && Superseded(s.publications, id, p.iqn, mid.publications) && mid.serving == s.serving
    requires !(automatic && Offline(s.store, p.iqn)) && id in mid.publications
    requires StoreSameBut(mid.store, p.iqn, t.store) && SameBut(mid.serving, p.iqn, t.serving)
    requires Recorded(id, p, f, t) && t.publications == mid.publications[id := p.(state := StateAfter(f))]
    ensures PublishNext(s, id, p, automatic, f, t)
  {
  }

  predicate Removable(s: Snapshot, id: string, f: UnpublishFaults)
  {
    id in s.publications && s.publications[id].iqn in s.store.targets && Undisturbed(f)
  }

  /** An unpublish disables a publication that is ready or has failed, a rollback also
      one that is still being created. */
  predicate Unpublishes(s: Snapshot, id: string, f: UnpublishFaults)
  {
    Removable(s, id, f) && (s.publications[id].state == Ready || s.publications[id].state == Failed)
  }

  predicate RollsBack(s: Snapshot, id: string, f: UnpublishFaults)
  {
    Removable(s, id, f) && s.publications[id].state != Disabled
  }

  /** The target may be offline and its serving ended, and nothing else differs. */
  ghost predicate PartlyDown(s: Snapshot, q: string, t: Snapshot)
  {
    && (t.store == s.store || (q in s.store.targets && t.store == SetOffline(s.store, q, true)))
    && t.publications == s.publications
    && (t.serving == s.serving || t.serving == s.serving - {q})
  }

  ghost predicate TakenDown(s: Snapshot, id: string, t: Snapshot)
    requires id in s.publications && s.publications[id].iqn in s.store.targets
  {
    var p := s.publications[id];
    && t.store == SetOffline(s.store, p.iqn, true)
    && t.publications == s.publications[id := p.(state := Disabled)]
    && t.serving == s.serving - {p.iqn} && p.iqn !in t.present
  }

  ghost predicate UnpublishNext(s: Snapshot, id: string, f: UnpublishFaults, t: Snapshot)
  {
    if Unpublishes(s, id, f) then TakenDown(s, id, t)
    else if id in s.publications then PartlyDown(s, s.publications[id].iqn, t) else t == s
  }

  ghost predicate RollbackNext(s: Snapshot, id: string, f: UnpublishFaults, t: Snapshot)
  {
    if RollsBack(s, id, f) then TakenDown(s, id, t)
    else if id in s.publications then PartlyDown(s, s.publications[id].iqn, t) else t == s
  }

  /** Only the states of ready publications may differ. */
  ghost predicate OnlyStates(was: map<string, Publication>, now: map<string, Publication>)
  {
    && was.Keys == now.Keys
    && forall id :: id in was ==> now[id] == if was[id].state == Ready then was[id].(state := now[id].state) else was[id]
  }

  /** The publications of `todo` are as they were listed. */
  ghost predicate Pending(listed: map<string, Publication>, now: map<string, Publication>, todo: set<string>)
  {
    OnlyStates(listed, now) && forall id :: id in todo ==> id in now && now[id] == listed[id]
  }

  lemma PendingOn(listed: map<string, Publication>, was: map<string, Publication>, todo: set<string>, id: string,
                  now: map<string, Publication>)
    requires Pending(listed, was, todo) && id in todo && id in listed && listed[id].state == Ready
    requires id in now && now == was[id := listed[id].(state := now[id].state)]
    ensures Pending(listed, now, todo - {id})
  {
  }

  ghost predicate OneOf(listed: map<string, Publication>, done: set<string>, q: string)
  {
    exists id :: id in done && id in listed && listed[id].iqn == q
  }

  /** Only targets of the publications of `done` start or stop serving. */
  ghost predicate Spared(listed: map<string, Publication>, done: set<string>, was: map<string, Auth>, now: map<string, Auth>)
  {
    forall q :: (q in was <==> q in now) || OneOf(listed, done, q)
  }

  lemma SparedOn(listed: map<string, Publication>, done: set<string>, id: string, was: map<string, Auth>,
                 before: map<string, Auth>, now: map<string, Auth>)
    requires Spared(listed, done, was, before) && id in listed
    requires forall q :: q != listed[id].iqn ==> (q in now <==> q in before)
    ensures Spared(listed, done + {id}, was, now)
  {
    forall q ensures (q in was <==> q in now) || OneOf(listed, done + {id}, q) {
      if q == listed[id].iqn { assert id in done + {id}; }
      if OneOf(listed, done, q) {
        var o :| o in done && o in listed && listed[o].iqn == q;
        assert o in done + {id};
      }
    }
  }

  ghost predicate RestoreNext(s: Snapshot, f: string -> RestoreFaults, t: Snapshot)
  {
    && Served(s.publications, f, s.store, ReadyIds(s.publications), t.serving)
    && Spared(s.publications, ReadyIds(s.publications), s.serving, t.serving)
    && OnlyStates(s.publications, t.publications)
  }

  /** The binding is stored. */
  ghost predicate Stores(s: Snapshot, b: Binding, references: bool, unreadable: set<string>, storage: bool)
  {
    Valid(b) && references && Gate(s.store, b, s.publications, s.present, unreadable) && Save(s.store, b).Ok? && storage
  }

  ghost predicate PutBindingNext(s: Snapshot, b: Binding, references: bool, unreadable: set<string>, storage: bool, t: Snapshot)
  {
    t == if Stores(s, b, references, unreadable, storage) then s.(store := Save(s.store, b).value) else s
  }

  /** The ready publications of `done` whose removal works do not serve. */
  ghost predicate Silenced(listed: map<string, Publication>, f: string -> Removal, done: set<string>, serving: map<string, Auth>)
  {
    forall id :: id in done && id in listed && f(id).Removed? ==> listed[id].iqn !in serving
  }

  ghost predicate ShutdownNext(s: Snapshot, f: string -> Removal, t: Snapshot)
  {
    && t.store == s.store && t.publications == s.publications && t.serving.Keys <= s.serving.Keys
    && Silenced(s.publications, f, ReadyIds(s.publications), t.serving)
    && Spared(s.publications, ReadyIds(s.publications), s.serving, t.serving)
  }

  /** One operation. */
  ghost predicate Next(s: Snapshot, op: Op, t: Snapshot)
  {
    match op
    case PublishOp(id, p, automatic, f) => PublishNext(s, id, p, automatic, f, t)
    case UnpublishOp(id, f) => UnpublishNext(s, id, f, t)
    case RollbackOp(id, f) => RollbackNext(s, id, f, t)
    case RestoreOp(f) => RestoreNext(s, f, t)
    case PutBindingOp(b, references, unreadable, storage, _) => PutBindingNext(s, b, references, unreadable, storage, t)
    case ShutdownOp(f) => ShutdownNext(s, f, t)
    case RebootOp => t == s.(present := {}, serving := map[])
  }

  // ---------------------------------------------------------------------- runs

  /** The operation takes target `q` down. */
  predicate TakesDown(s: Snapshot, op: Op, q: string)
  {
    || (op.UnpublishOp? && Unpublishes(s, op.id, op.unpublishFaults) && s.publications[op.id].iqn == q)
    || (op.RollbackOp? && RollsBack(s, op.id, op.unpublishFaults) && s.publications[op.id].iqn == q)
  }

  /** The operation is a manual publish of target `q`. */
  predicate Manual(op: Op, q: string) { op.PublishOp? && !op.automatic && op.publication.iqn == q }

  /** The held targets after one operation: those taken down since the last manual
      publish of them. */
  ghost function HeldAfter(s: Snapshot, held: set<string>, op: Op): set<string>
  {
    match op
    case PublishOp(_, p, automatic, _) => if automatic then held else held - {p.iqn}
    case UnpublishOp(id, f) => if Unpublishes(s, id, f) then held + {s.publications[id].iqn} else held
    case RollbackOp(id, f) => if RollsBack(s, id, f) then held + {s.publications[id].iqn} else held
    case _ => held
  }

  ghost function Held(start: set<string>, ops: seq<Op>, trace: seq<Snapshot>, n: nat): set<string>
    requires n <= |ops| && n <= |trace|
  {
    if n == 0 then start else HeldAfter(trace[n - 1], Held(start, ops, trace, n - 1), ops[n - 1])
  }

  /** Operation `i` took `q` down and no manual publish of it came up to `j`. */
  ghost predicate DownSince(ops: seq<Op>, trace: seq<Snapshot>, i: nat, j: nat, q: string)
  {
    i <= j < |ops| && j < |trace| && TakesDown(trace[i], ops[i], q) && forall k :: i < k <= j ==> !Manual(ops[k], q)
  }

  lemma {:induction false} HeldFrom(start: set<string>, ops: seq<Op>, trace: seq<Snapshot>, i: nat, j: nat, q: string)
    requires DownSince(ops, trace, i, j, q)
    ensures q in Held(start, ops, trace, j + 1)
  {
    if i < j { HeldFrom(start, ops, trace, i, j - 1, q); }
  }

  lemma {:induction false} HeldPrefix(start: set<string>, ops: seq<Op>, trace: seq<Snapshot>, s: Snapshot, n: nat)
    requires n <= |ops| && n <= |trace|
    ensures Held(start, ops, trace + [s], n) == Held(start, ops, trace, n)
  {
    if n > 0 { HeldPrefix(start, ops, trace, s, n - 1); }
  }

  /** What is known of step `j` of a run. */
  ghost predicate SoundAt(start: set<string>, ops: seq<Op>, trace: seq<Snapshot>, j: nat)
    requires j < |ops| && j + 1 < |trace|
  {
    && Next(trace[j], ops[j], trace[j + 1])
    && Enforced(trace[j + 1].store, trace[j + 1].serving)
    && Held(start, ops, trace, j + 1) !! trace[j + 1].serving.Keys
  }

  ghost predicate Sound(start: set<string>, ops: seq<Op>, trace: seq<Snapshot>)
  {
    0 < |trace| <= |ops| + 1 && forall j :: 0 <= j < |trace| - 1 ==> SoundAt(start, ops, trace, j)
  }

  lemma SoundStays(start: set<string>, ops: seq<Op>, trace: seq<Snapshot>, s: Snapshot, j: nat)
    requires j < |ops| && j + 1 < |trace| && SoundAt(start, ops, trace, j)
    ensures SoundAt(start, ops, trace + [s], j)
  {
    HeldPrefix(start, ops, trace, s, j + 1);
  }

  lemma SoundOn(start: set<string>, ops: seq<Op>, trace: seq<Snapshot>, s: Snapshot)
    requires Sound(start, ops, trace) && |trace| <= |ops|
    requires Next(trace[|trace| - 1], ops[|trace| - 1], s) && Enforced(s.store, s.serving)
    requires Held(start, ops, trace, |trace|) !! s.serving.Keys
    ensures Sound(start, ops, trace + [s])
  {
    HeldPrefix(start, ops, trace, s, |trace|);
    forall j: nat | j < |trace| - 1 ensures SoundAt(start, ops, trace + [s], j) { SoundStays(start, ops, trace, s, j); }
  }

  lemma SoundMeans(start: set<string>, ops: seq<Op>, trace: seq<Snapshot>)
    requires Sound(start, ops, trace) && |trace| == |ops| + 1
    ensures forall j :: 0 <= j < |ops| ==> Next(trace[j], ops[j], trace[j + 1])
    ensures forall j :: 0 < j <= |ops| ==> Enforced(trace[j].store, trace[j].serving)
    ensures forall i: nat, j: nat, q :: DownSince(ops, trace, i, j, q) ==> q !in trace[j + 1].serving
  {
    forall j | 0 <= j < |ops| ensures Next(trace[j], ops[j], trace[j + 1]) { assert SoundAt(start, ops, trace, j); }
    forall j | 0 < j <= |ops| ensures Enforced(trace[j].store, trace[j].serving) { assert SoundAt(start, ops, trace, j - 1); }
    forall i: nat, j: nat, q | DownSince(ops, trace, i, j, q) ensures q !in trace[j + 1].serving {
      assert SoundAt(start, ops, trace, j);
      HeldFrom(start, ops, trace, i, j, q);
    }
  }

  class Runtime {
    var store: Store
    var publications: map<string, Publication>
    /** Targets with a directory in the kernel's configuration, and the policy of
        those that serve. */
    var present: set<string>
    var serving: map<string, Auth>
    /** Targets unpublished since their last manual publish. */
    ghost var held: set<string>

    function View(): Snapshot
      reads this
    {
      Snapshot(store, publications, present, serving)
    }

    ghost predicate Inv()
      reads this
    {
      serving.Keys <= present && Enforced(store, serving) && Quiet(store, serving, held) && OneActive(publications)
    }

    constructor ()
      ensures Inv() && held == {} && serving == map[] && publications == map[] && store == Store(map[], map[], map[])
    {
      store, publications, present, serving, held := Store(map[], map[], map[]), map[], {}, map[], {};
    }

    /** The gate for one reached target. */
    method CheckTarget(b: Binding, q: string, unreadable: set<string>) returns (r: Result<(), Error>)
      requires q in store.targets && store.targets[q].role.Some?
      ensures r.Ok? <==> Passes(store, b, Absent(publications, present, unreadable, q), q)
      ensures BothResolve(store, b, q) && Changes(store, b, q) && Absent(publications, present, unreadable, q).Err?
              ==> r == Err(RuntimeUnknown)
    {
      var before := ResolveTarget(store, q);
      if before.Err? { return Err(before.error); }
      var after := ResolveWith(store, store.targets[q], Some(b));
      if after.Err? { return Err(after.error); }
      if SamePolicy(before.value, after.value) { return Ok(()); }
      var absent := Absent(publications, present, unreadable, q);
      if absent.Err? { return Err(RuntimeUnknown); }
      if !store.targets[q].offline || !absent.value { return Err(SecurityBusy); }
      return Ok(());
    }

    method PassGate(b: Binding, unreadable: set<string>) returns (r: Result<(), Error>)
      requires WellFormed(store)
      ensures r.Ok? <==> Gate(store, b, publications, present, unreadable)
    {
      if !Known(store, b) { return Err(NotFound); }
      var todo := Affected(store, b);
      while todo != {}
        invariant todo <= Affected(store, b)
        invariant forall q :: q in Affected(store, b) - todo ==> Passes(store, b, Absent(publications, present, unreadable, q), q)
        decreases todo
      {
        var q :| q in todo;
        assert TargetRow(q, store.targets[q]);
        var checked := CheckTarget(b, q, unreadable);
        if checked.Err? { return checked; }
        todo := todo - {q};
      }
      return Ok(());
    }

    /** The store is changed although an error is returned when only the audit record
        cannot be written. */
    method PutBinding(b: Binding, references: bool, unreadable: set<string>, storage: bool, audit: bool) returns (r: Result<(), Error>)
      requires Inv()
      modifies this`store
      ensures Inv()
      ensures PutBindingNext(old(View()), b, references, unreadable, storage, View())
      ensures r.Ok? <==> Stores(old(View()), b, references, unreadable, storage) && audit
    {
      if !Valid(b) { return Err(InvalidInput); }
      if !references { return Err(NotFound); }
      var passed := PassGate(b, unreadable);
      if passed.Err? { return passed; }
      var saved := Save(store, b);
      if saved.Err? { return Err(saved.error); }
      if !storage { return Err(Unavailable); }
      GatedSaveKeeps(store, b, publications, present, unreadable, serving);
      SaveKeepsTargets(store, b);
      store := saved.value;
      return if audit then Ok(()) else Err(Unavailable);
    }

    method PreviewTarget(b: Binding, q: string, unreadable: set<string>) returns (r: Result<Impact, Error>)
      requires q in store.targets && store.targets[q].role.Some?
      ensures r.Ok? <==> BothResolve(store, b, q)
      ensures r.Ok? ==> ImpactOf(store, b, Absent(publications, present, unreadable, q), q, r.value)
    {
      var before := ResolveTarget(store, q);
      if before.Err? { return Err(before.error); }
      var after := ResolveWith(store, store.targets[q], Some(b));
      if after.Err? { return Err(after.error); }
      var changed := !SamePolicy(before.value, after.value);
      var query := Absent(publications, present, unreadable, q);
      var absent := query.Ok? && query.value;
      return Ok(Impact(changed, absent, changed && (!store.targets[q].offline || !absent)));
    }

    method PreviewBinding(b: Binding, references: bool, unreadable: set<string>) returns (r: Result<map<string, Impact>, Error>)
      requires WellFormed(store)
      ensures r.Ok? <==> Valid(b) && references && Known(store, b) && forall q :: q in Affected(store, b) ==> BothResolve(store, b, q)
      ensures r.Ok? ==> Previewed(store, b, publications, present, unreadable, r.value)
    {
      if !Valid(b) { return Err(InvalidInput); }
      if !references { return Err(NotFound); }
      if !Known(store, b) { return Err(NotFound); }
      var todo := Affected(store, b);
      var impacts: map<string, Impact> := map[];
      while todo != {}
        invariant todo <= Affected(store, b) && impacts.Keys == Affected(store, b) - todo
        invariant forall q :: q in impacts ==> ImpactOf(store, b, Absent(publications, present, unreadable, q), q, impacts[q])
        decreases todo
      {
        var q :| q in todo;
        assert TargetRow(q, store.targets[q]);
        var impact := PreviewTarget(b, q, unreadable);
        if impact.Err? { return Err(impact.error); }
        impacts := impacts[q := impact.value];
        todo := todo - {q};
      }
      forall q | q in Affected(store, b) ensures BothResolve(store, b, q) { assert q in impacts; }
      return Ok(impacts);
    }

    /** Registers the target and resolves its policy; a manual publish also lifts the
        offline mark. */
    method ResolvePublication(p: Publication, automatic: bool, f: ResolveFaults) returns (r: Result<Auth, Error>)
      requires Inv() && (automatic || p.iqn !in held)
      modifies this`store
      ensures Inv()
      ensures r.Ok? ==> EnforcedAt(store, p.iqn, r.value) && p.iqn !in held
      ensures automatic && Offline(old(store), p.iqn) ==> r.Err?
      ensures automatic ==> store == old(store) || Register(old(store), p) == Ok(store)
      ensures StoreSameBut(old(store), p.iqn, store)
      ensures Resolvable(old(store), p) && !f.register && !f.credential && !f.clear && (automatic ==> !Offline(old(store), p.iqn)) ==> r.Ok?
    {
      if f.register { return Err(Unavailable); }
      var registered := Register(store, p);
      if registered.Err? { return Err(registered.error); }
      RegisterKeeps(store, p, serving);
      store := registered.value;
      if automatic && store.targets[p.iqn].offline { return Err(SecurityBusy); }
      assert TargetRow(p.iqn, store.targets[p.iqn]);
      var resolved := ResolveTarget(store, p.iqn);
      if resolved.Err? { return Err(resolved.error); }
      if resolved.value.auth.mode != NoAuth && f.credential { return Err(Unavailable); }
      if !automatic && store.targets[p.iqn].offline {
        if f.clear { return Err(Unavailable); }
        OfflineFlagDoesNotResolve(store, p.iqn, false, p.iqn, resolved.value.auth);
        SetOfflineKeeps(store, p.iqn, false, serving);
        store := SetOffline(store, p.iqn, false);
      }
      return Ok(resolved.value.auth);
    }

    method KernelPublish(q: string, a: Auth, outcome: Publishing) returns (ok: bool)
      requires Inv() && EnforcedAt(store, q, a) && q !in held
      modifies this`present, this`serving
      ensures Inv() && ok == outcome.Published?
      ensures ok ==> serving == old(serving)[q := a]
      ensures SameBut(old(serving), q, serving)
    {
      ok := outcome.Published?;
      if ok || outcome.left == Applied {
        present, serving := present + {q}, serving[q := a];
      } else if outcome.left == Gone {
        present, serving := present - {q}, serving - {q};
      } else if outcome.left == Bare {
        present, serving := present + {q}, serving - {q};
      }
    }

    method KernelUnpublish(q: string, outcome: Removal) returns (ok: bool)
      requires Inv()
      modifies this`present, this`serving
      ensures Inv() && ok == outcome.Removed?
      ensures ok ==> serving == old(serving) - {q} && q !in present
      ensures serving == old(serving) || serving == old(serving) - {q}
    {
      ok := outcome.Removed?;
      if ok || outcome.gone {
        present, serving := present - {q}, serving - {q};
      }
    }

    method MarkOffline(q: string, outcome: Marking) returns (ok: bool)
      requires Inv()
      modifies this`store
      ensures Inv()
      ensures ok <==> outcome.Marked? && q in old(store).targets
      ensures store == if !outcome.NotMarked? && q in old(store).targets then SetOffline(old(store), q, true) else old(store)
    {
      if outcome.NotMarked? || q !in store.targets { return false; }
      SetOfflineKeeps(store, q, true, serving);
      store := SetOffline(store, q, true);
      return outcome.Marked?;
    }

    /** Makes the row of a new publication, unless another one of its target is ready;
        one that is still being created is superseded. */
    method SaveIfAvailable(id: string, p: Publication) returns (ok: bool)
      requires OneActive(publications)
      modifies this`publications
      ensures OneActive(publications)
      ensures ok <==> !Taken(old(publications), id, p.iqn)
      ensures !ok ==> publications == old(publications)
      ensures ok ==> id in publications && publications[id] == p.(state := Creating)
      ensures Superseded(old(publications), id, p.iqn, publications)
    {
      if Taken(publications, id, p.iqn) { return false; }
      publications := map o | o in publications ::
        if o != id && publications[o].iqn == p.iqn && publications[o].state == Creating
        then publications[o].(state := Failed) else publications[o];
      publications := publications[id := p.(state := Creating)];
      return true;
    }

    /** Resolves the policy of a new publication and makes its row. */
    method Prepare(id: string, p: Publication, automatic: bool, f: PublishFaults) returns (r: Result<Auth, Error>)
      requires Inv() && (automatic || p.iqn !in held)
      modifies this`store, this`publications
      ensures Inv()
      ensures r.Ok? ==> EnforcedAt(store, p.iqn, r.value) && p.iqn !in held
      ensures r.Ok? ==> id in publications && publications[id] == p.(state := Creating)
      ensures r.Err? ==> publications == old(publications)
      ensures StoreSameBut(old(store), p.iqn, store) && Superseded(old(publications), id, p.iqn, publications)
      ensures automatic && Offline(old(store), p.iqn) ==> r.Err?
      ensures Publishable(old(View()), id, p, automatic, f) ==> r.Ok?
    {
      if f.resources { return Err(InvalidInput); }
      var resolved := ResolvePublication(p, automatic, f.resolve);
      if resolved.Err? { return Err(resolved.error); }
      if f.save { return Err(Unavailable); }
      var free := SaveIfAvailable(id, p);
      return if free then Ok(resolved.value) else Err(Conflict);
    }

    /** Sets the target up and records the outcome. */
    method Complete(id: string, p: Publication, a: Auth, f: PublishFaults) returns (r: Result<(), Error>)
      requires Inv() && EnforcedAt(store, p.iqn, a) && p.iqn !in held
      requires id in publications && publications[id] == p.(state := Creating)
      modifies this`store, this`publications, this`present, this`serving
      ensures Inv()
      ensures Recorded(id, p, f, View()) && publications == old(publications)[id := p.(state := StateAfter(f))]
      ensures StoreSameBut(old(store), p.iqn, store) && SameBut(old(serving), p.iqn, serving)
      ensures r.Ok? <==> StateAfter(f) == Ready
    {
      var ok := KernelPublish(p.iqn, a, f.kernel);
      if ok {
        if f.saveReady { return Err(Unavailable); }
        publications := publications[id := p.(state := Ready)];
        return Ok(());
      }
      if f.saveFailed { return Err(Unavailable); }
      publications := publications[id := p.(state := Failed)];
      var _ := MarkOffline(p.iqn, f.offline);
      return Err(Unavailable);
    }

    method Publish(id: string, p: Publication, automatic: bool, f: PublishFaults) returns (r: Result<(), Error>)
      requires Inv()
      modifies this
      ensures Inv() && held == HeldAfter(old(View()), old(held), PublishOp(id, p, automatic, f))
      ensures PublishNext(old(View()), id, p, automatic, f, View())
      ensures r.Ok? ==> StateAfter(f) == Ready && Recorded(id, p, f, View())
      ensures Publishable(old(View()), id, p, automatic, f) ==> r.Ok?
    {
      if !automatic { held := held - {p.iqn}; }
      var prepared := Prepare(id, p, automatic, f);
      if prepared.Err? { return Err(prepared.error); }
      ghost var mid := View();
      r := Complete(id, p, prepared.value, f);
      BothParts(old(View()), id, p, automatic, f, mid, View());
    }

    method BringDown(q: string, f: UnpublishFaults) returns (r: Result<(), Error>)
      requires Inv()
      modifies this`store, this`present, this`serving
      ensures Inv()
      ensures r.Ok? <==> f.offline.Marked? && q in old(store).targets && f.kernel.Removed?
      ensures r.Ok? ==> store == SetOffline(old(store), q, true) && serving == old(serving) - {q} && q !in present
      ensures PartlyDown(old(View()), q, View())
    {
      var marked := MarkOffline(q, f.offline);
      if !marked { return Err(NotFound); }
      var ok := KernelUnpublish(q, f.kernel);
      return if ok then Ok(()) else Err(Unavailable);
    }

    /** `Ok(true)` is the no-op on a disabled publication. */
    method Unpublish(id: string, f: UnpublishFaults) returns (r: Result<bool, Error>)
      requires Inv()
      modifies this
      ensures Inv() && held == HeldAfter(old(View()), old(held), UnpublishOp(id, f))
      ensures UnpublishNext(old(View()), id, f, View())
      ensures r == Ok(false) <==> Unpublishes(old(View()), id, f)
      ensures r == Ok(true) <==> id in old(publications) && old(publications)[id].state == Disabled
    {
      if id !in publications { return Err(NotFound); }
      var p := publications[id];
      if p.state == Disabled { return Ok(true); }
      var down := BringDown(p.iqn, f);
      if down.Err? { return Err(down.error); }
      if p.state != Ready && p.state != Failed { return Err(InvalidState); }
      if f.save { return Err(Unavailable); }
      publications := publications[id := p.(state := Disabled)];
      held := held + {p.iqn};
      return Ok(false);
    }

    /** As Unpublish, but a publication still being created is disabled too. */
    method Rollback(id: string, f: UnpublishFaults) returns (r: Result<bool, Error>)
      requires Inv()
      modifies this
      ensures Inv() && held == HeldAfter(old(View()), old(held), RollbackOp(id, f))
      ensures RollbackNext(old(View()), id, f, View())
      ensures r == Ok(false) <==> RollsBack(old(View()), id, f)
      ensures r == Ok(true) <==> id in old(publications) && old(publications)[id].state == Disabled
    {
      if id !in publications { return Err(NotFound); }
      var p := publications[id];
      if p.state == Disabled { return Ok(true); }
      var down := BringDown(p.iqn, f);
      if down.Err? { return Err(down.error); }
      if f.save { return Err(Unavailable); }
      publications := publications[id := p.(state := Disabled)];
      held := held + {p.iqn};
      return Ok(false);
    }

    /** Takes the target of a ready publication down and, if its policy resolves,
        publishes it again; the result is the publication's new state. */
    method Republish(p: Publication, f: RestoreFaults) returns (state: PublicationState)
      requires Inv()
      modifies this`store, this`present, this`serving
      ensures Inv()
      ensures store == old(store) || Register(old(store), p) == Ok(store)
      ensures Offline(old(store), p.iqn) && p.iqn !in old(serving) ==> p.iqn !in serving
      ensures forall q :: q != p.iqn ==> (q in serving <==> q in old(serving))
      ensures state == Ready ==> p.iqn in serving
      ensures Restorable(old(store), p) && Smooth(f) ==> state == Ready
    {
      var resolved := ResolvePublication(p, true, f.resolve);
      var removed := KernelUnpublish(p.iqn, f.removal);
      if resolved.Err? {
        return if removed && resolved.error == SecurityBusy then Disabled else Failed;
      }
      if !removed { return Failed; }
      var ok := KernelPublish(p.iqn, resolved.value, f.kernel);
      return if ok then Ready else Failed;
    }

    /** Saves the new state of a ready publication, if storage lets it. */
    method SaveState(id: string, p: Publication, state: PublicationState, fails: bool)
      requires Inv() && id in publications && publications[id] == p && p.state == Ready
      modifies this`publications
      ensures Inv()
      ensures id in publications && publications[id].state == if fails then Ready else state
      ensures publications == old(publications)[id := p.(state := publications[id].state)]
    {
      StillOneActive(publications, id, state);
      if !fails { publications := publications[id := p.(state := state)]; }
    }

    /** One round of the restore loop for a ready publication. */
    method RestoreOne(id: string, p: Publication, f: RestoreFaults)
      requires Inv() && id in publications && publications[id] == p && p.state == Ready
      modifies this`store, this`publications, this`present, this`serving
      ensures Inv()
      ensures store == old(store) || Register(old(store), p) == Ok(store)
      ensures forall q :: q != p.iqn ==> (q in serving <==> q in old(serving))
      ensures id in publications && publications == old(publications)[id := p.(state := publications[id].state)]
      ensures publications[id].state == Ready && !f.save ==> p.iqn in serving
      ensures Restorable(old(store), p) && Smooth(f) ==> p.iqn in serving && publications[id].state == Ready
    {
      var state := Republish(p, f);
      SaveState(id, p, state, f.save);
    }

    /** Restart: every ready publication is taken down and published again. Those
        that the store allows and the kernel does not fail serve afterwards. */
    method Restore(f: string -> RestoreFaults)
      requires Inv()
      modifies this`store, this`publications, this`present, this`serving
      ensures Inv()
      ensures RestoreNext(old(View()), f, View())
    {
      var listed := publications;
      var todo := ReadyIds(listed);
      ghost var done: set<string> := {};
      while todo != {}
        invariant Inv() && todo !! done && todo + done == ReadyIds(listed)
        invariant Pending(listed, publications, todo)
        invariant StillRestorable(listed, old(store), store)
        invariant Served(listed, f, old(store), done, serving) && Spared(listed, done, old(serving), serving)
        decreases todo
      {
        var id :| id in todo;
        ghost var before, rows, serves := store, publications, serving;
        RestoreOne(id, listed[id], f(id));
        RestorableOn(listed, old(store), before, listed[id], store);
        ServedOn(listed, f, old(store), done, id, serves, serving);
        SparedOn(listed, done, id, old(serving), serves, serving);
        PendingOn(listed, rows, todo, id, publications);
        todo, done := todo - {id}, done + {id};
      }
    }

    method Shutdown(f: string -> Removal)
      requires Inv()
      modifies this`present, this`serving
      ensures Inv()
      ensures ShutdownNext(old(View()), f, View())
    {
      var todo := ReadyIds(publications);
      ghost var done: set<string> := {};
      while todo != {}
        invariant Inv() && todo + done == ReadyIds(publications)
        invariant serving.Keys <= old(serving).Keys && Silenced(publications, f, done, serving)
        invariant Spared(publications, done, old(serving), serving)
        decreases todo
      {
        var id :| id in todo;
        ghost var serves := serving;
        var _ := KernelUnpublish(publications[id].iqn, f(id));
        SparedOn(publications, done, id, old(serving), serves, serving);
        todo, done := todo - {id}, done + {id};
      }
    }

    method Step(op: Op)
      requires Inv()
      modifies this
      ensures Inv() && held == HeldAfter(old(View()), old(held), op)
      ensures Next(old(View()), op, View())
    {
      match op
      case PublishOp(id, p, automatic, f) => var _ := Publish(id, p, automatic, f);
      case UnpublishOp(id, f) => var _ := Unpublish(id, f);
      case RollbackOp(id, f) => var _ := Rollback(id, f);
      case RestoreOp(f) => Restore(f);
      case PutBindingOp(b, references, unreadable, storage, audit) => var _ := PutBinding(b, references, unreadable, storage, audit);
      case ShutdownOp(f) => Shutdown(f);
      case RebootOp => present, serving := {}, map[];
    }

    /** Every run, from any state that satisfies the invariant: each step is one of the
        operations, after each step every serving target runs the policy the bindings
        resolve to at that moment, and a target that was taken down does not serve
        until a manual publish of it is attempted. */
    method Run(ops: seq<Op>) returns (trace: seq<Snapshot>)
      requires Inv()
      modifies this
      ensures Inv() && |trace| == |ops| + 1 && trace[0] == old(View()) && trace[|ops|] == View()
      ensures forall j :: 0 <= j < |ops| ==> Next(trace[j], ops[j], trace[j + 1])
      ensures forall j :: 0 < j <= |ops| ==> Enforced(trace[j].store, trace[j].serving)
      ensures forall i: nat, j: nat, q :: DownSince(ops, trace, i, j, q) ==> q !in trace[j + 1].serving
    {
      ghost var start := held;
      trace := [View()];
      for n := 0 to |ops|
        invariant |trace| == n + 1 && trace[0] == old(View()) && trace[n] == View()
        invariant Inv() && held == Held(start, ops, trace, n) && Sound(start, ops, trace)
      {
        Step(ops[n]);
        HeldPrefix(start, ops, trace, View(), n + 1);
        SoundOn(start, ops, trace, View());
        trace := trace + [View()];
      }
      SoundMeans(start, ops, trace);
    }
  }
}
