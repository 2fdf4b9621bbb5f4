/** iSCSI security bindings and how they resolve to the policy of a target
    (control-plane/internal/auth/iscsi_policy_resolver.go, the resolution part of
    orchestration/iscsi_security_service.go and the binding tables behind it). */
module IscsiPolicy {
  import opened Bytes
  import StringOrder

  const MAX_INITIATORS := 256

  datatype Mode = NoAuth | Chap | MutualChap
  datatype Auth = Auth(mode: Mode, credential: string, initiators: seq<string>, restrict: bool)
  datatype Scope = LibraryScope | DriveScope | TargetScope
  datatype Role = DriveRole | ChangerRole
  datatype Binding = Binding(scope: Scope, owner: string, library: string, drive: string, iqn: string,
                             role: Option<Role>, auth: Option<Auth>, generation: int, offline: bool)
  datatype Origin = DefaultOrigin | Origin(scope: Scope, owner: string, generation: int)
  datatype Resolved = Resolved(auth: Auth, source: Origin)
  datatype Error = InvalidInput | InvalidState | NotFound | Conflict | SecurityBusy | RuntimeUnknown | Unavailable

  const DEFAULT_AUTH := Auth(NoAuth, "", [], false)

  // --------------------------------------------------------------- validation

  /** Identifiers and IQNs are opaque: all that matters here is that a blank one
      is not valid. */
  predicate ValidId(s: string) { s != "" }
  predicate ValidIqn(s: string) { s != "" }

  predicate ValidAuth(a: Auth)
  {
    && |a.initiators| <= MAX_INITIATORS
    && (forall i :: i in multiset(a.initiators) ==> ValidIqn(i) && multiset(a.initiators)[i] == 1)
    && (if a.mode == NoAuth then a.credential == ""
        else ValidId(a.credential) && a.initiators != [] && !a.restrict)
  }

  predicate Valid(b: Binding)
  {
    && b.generation > 0
    && (b.auth.Some? ==> ValidAuth(b.auth.value))
    && match b.scope
       case LibraryScope => ValidId(b.owner) && b.library == "" && b.drive == "" && b.iqn == "" && b.role.None?
       case DriveScope => ValidId(b.owner) && ValidId(b.library) && b.drive == "" && b.iqn == "" && b.role.None?
       case TargetScope =>
         && ValidIqn(b.iqn) && b.owner == b.iqn && ValidId(b.library)
         && b.role.Some? && (if b.role.value == DriveRole then ValidId(b.drive) else b.drive == "")
  }

  // --------------------------------------------------------------- resolution

  /** Initiator order carries no meaning; the resolver sorts it. */
  function Canonical(a: Auth): (r: Auth)
    ensures multiset(r.initiators) == multiset(a.initiators) && StringOrder.Sorted(r.initiators)
  {
    a.(initiators := StringOrder.Sort(a.initiators))
  }

  /** Equal in everything but the order of the initiators. */
  ghost predicate SameUpToOrder(a: Auth, b: Auth)
  {
    a.mode == b.mode && a.credential == b.credential && a.restrict == b.restrict
    && multiset(a.initiators) == multiset(b.initiators)
  }

  predicate SamePolicy(a: Resolved, b: Resolved)
  {
    Canonical(a.auth) == Canonical(b.auth)
  }

  lemma CanonicalDecides(a: Auth, b: Auth)
    ensures Canonical(a) == Canonical(b) <==> SameUpToOrder(a, b)
  {
    if SameUpToOrder(a, b) {
      StringOrder.SortedUnique(Canonical(a).initiators, Canonical(b).initiators);
    } else if multiset(a.initiators) != multiset(b.initiators) {
      assert multiset(Canonical(a).initiators) != multiset(Canonical(b).initiators);
    }
  }

  lemma CanonicalStable(a: Auth)
    ensures Canonical(Canonical(a)) == Canonical(a)
    ensures ValidAuth(a) ==> ValidAuth(Canonical(a))
  {
    CanonicalDecides(Canonical(a), a);
    assert |a.initiators| == |multiset(a.initiators)| == |Canonical(a).initiators|;
  }

  predicate Admissible(role: Role, iqn: string, library: string, drive: string,
                       targetB: Option<Binding>, driveB: Option<Binding>, libraryB: Option<Binding>)
  {
    && ValidIqn(iqn) && ValidId(library)
    && (role == DriveRole ==> ValidId(drive))
    && (libraryB.Some? ==>
          var b := libraryB.value; Valid(b) && b.scope == LibraryScope && b.owner == library)
    && (role == DriveRole && driveB.Some? ==>
          var b := driveB.value; Valid(b) && b.scope == DriveScope && b.owner == drive && b.library == library)
    && (targetB.Some? ==>
          var b := targetB.value;
          && Valid(b) && b.scope == TargetScope && b.iqn == iqn && b.library == library && b.role == Some(role)
          && (role == DriveRole ==> b.drive == drive))
  }

  predicate Decides(b: Option<Binding>) { b.Some? && b.value.auth.Some? }

  /** The most specific binding that says something: target, then drive (drives
      only), then library. */
  function Deciding(role: Role, targetB: Option<Binding>, driveB: Option<Binding>, libraryB: Option<Binding>): (r: Option<Binding>)
    ensures r.Some? ==> r.value.auth.Some?
  {
    if Decides(targetB) then targetB
    else if role == DriveRole && Decides(driveB) then driveB
    else if Decides(libraryB) then libraryB
    else None
  }

  function PolicyOf(b: Option<Binding>): Resolved
    requires b.Some? ==> b.value.auth.Some?
  {
    if b.None? then Resolved(DEFAULT_AUTH, DefaultOrigin)
    else Resolved(Canonical(b.value.auth.value), Origin(b.value.scope, b.value.owner, b.value.generation))
  }

  function Resolve(role: Role, iqn: string, library: string, drive: string,
                   targetB: Option<Binding>, driveB: Option<Binding>, libraryB: Option<Binding>): (r: Result<Resolved, Error>)
  {
    if Admissible(role, iqn, library, drive, targetB, driveB, libraryB)
    then Ok(PolicyOf(Deciding(role, targetB, driveB, libraryB)))
    else Err(InvalidInput)
  }

  /** The first source of a list that says something. */
  function First(sources: seq<Option<Binding>>): (r: Option<Binding>)
    ensures r.Some? ==> r.value.auth.Some?
  {
    if sources == [] then None
    else if Decides(sources[0]) then sources[0]
    else First(sources[1..])
  }

  function Front(b: Option<Binding>, sources: seq<Option<Binding>>): (r: seq<Option<Binding>>)
    ensures First(r) == if Decides(b) then b else First(sources)
  {
    if b.Some? then
      assert ([b] + sources)[1..] == sources;
      [b] + sources
    else sources
  }

  method FindFirst(sources: seq<Option<Binding>>) returns (r: Option<Binding>)
    ensures r == First(sources)
  {
    for i := 0 to |sources|
      invariant First(sources) == First(sources[i..])
    {
      if Decides(sources[i]) { return sources[i]; }
      assert sources[i..][1..] == sources[i + 1..];
    }
    return None;
  }

  /** The resolver as written: a list of sources, most specific first, searched for
      the first that says something. */
  method ResolveIscsiSecurity(role: Role, iqn: string, library: string, drive: string,
                              targetB: Option<Binding>, driveB: Option<Binding>, libraryB: Option<Binding>)
    returns (r: Result<Resolved, Error>)
    ensures r == Resolve(role, iqn, library, drive, targetB, driveB, libraryB)
  {
    if !Admissible(role, iqn, library, drive, targetB, driveB, libraryB) { return Err(InvalidInput); }
    var sources: seq<Option<Binding>> := [None];
    assert First(sources) == None;
    sources := Front(libraryB, sources);
    if role == DriveRole { sources := Front(driveB, sources); }
    sources := Front(targetB, sources);
    var found := FindFirst(sources);
    return Ok(PolicyOf(found));
  }

  // -------------------------------------------------------------------- tables

  /** The three binding tables, keyed by target IQN, drive and library. */
  datatype Store = Store(targets: map<string, Binding>, drives: map<string, Binding>, libraries: map<string, Binding>)

  ghost predicate TargetRow(q: string, b: Binding) { b.scope == TargetScope && b.iqn == q && Valid(b) }
  ghost predicate DriveRow(d: string, b: Binding) { b.scope == DriveScope && b.owner == d && Valid(b) }
  ghost predicate LibraryRow(l: string, b: Binding) { b.scope == LibraryScope && b.owner == l && Valid(b) }

  ghost predicate WellFormed(s: Store)
  {
    && (forall q :: q in s.targets ==> TargetRow(q, s.targets[q]))
    && (forall d :: d in s.drives ==> DriveRow(d, s.drives[d]))
    && (forall l :: l in s.libraries ==> LibraryRow(l, s.libraries[l]))
  }

  function Lookup(m: map<string, Binding>, key: string): Option<Binding>
  {
    if key in m then Some(m[key]) else None
  }

  function DriveBinding(s: Store, drive: string, candidate: Option<Binding>): Option<Binding>
  {
    if drive == "" then None
    else if candidate.Some? && candidate.value.scope == DriveScope && candidate.value.owner == drive then candidate
    else Lookup(s.drives, drive)
  }

  function LibraryBinding(s: Store, library: string, candidate: Option<Binding>): Option<Binding>
  {
    if candidate.Some? && candidate.value.scope == LibraryScope && candidate.value.owner == library then candidate
    else Lookup(s.libraries, library)
  }

  /** What `target` resolves to if `candidate` replaced its stored binding. */
  function ResolveWith(s: Store, target: Binding, candidate: Option<Binding>): Result<Resolved, Error>
    requires target.role.Some?
  {
    var own := if candidate.Some? && candidate.value.scope == TargetScope && candidate.value.iqn == target.iqn
               then candidate else Some(target);
    Resolve(target.role.value, target.iqn, target.library, target.drive, own,
            DriveBinding(s, target.drive, candidate), LibraryBinding(s, target.library, candidate))
  }

  /** What a registered target resolves to now. */
  function ResolveTarget(s: Store, q: string): Result<Resolved, Error>
    requires q in s.targets ==> s.targets[q].role.Some?
  {
    if q in s.targets then ResolveWith(s, s.targets[q], None) else Err(NotFound)
  }

  function StoredAuth(a: Option<Auth>): Option<Auth>
  {
    if a.Some? then Some(Canonical(a.value)) else None
  }

  /** A row with the binding's policy and generation; identity columns and the
      offline flag stay. */
  function Updated(row: Binding, b: Binding): Binding
  {
    row.(auth := StoredAuth(b.auth), generation := b.generation)
  }

  predicate NextGeneration(m: map<string, Binding>, key: string, b: Binding)
  {
    b.generation == if key in m then m[key].generation + 1 else 1
  }

  /** Storing a binding: the next generation only, target rows only for registered
      targets of the same identity. */
  function Save(s: Store, b: Binding): (r: Result<Store, Error>)
  {
    match b.scope
    case TargetScope =>
      if b.iqn !in s.targets then Err(NotFound)
      else
        var row := s.targets[b.iqn];
        if row.library != b.library || row.drive != b.drive || row.role != b.role then Err(Conflict)
        else if !NextGeneration(s.targets, b.iqn, b) then Err(Conflict)
        else Ok(s.(targets := s.targets[b.iqn := Updated(row, b)]))
    case DriveScope =>
      if !NextGeneration(s.drives, b.owner, b) then Err(Conflict)
      else Ok(s.(drives := s.drives[b.owner := Updated(if b.owner in s.drives then s.drives[b.owner] else b, b)]))
    case LibraryScope =>
      if !NextGeneration(s.libraries, b.owner, b) then Err(Conflict)
      else Ok(s.(libraries := s.libraries[b.owner := Updated(if b.owner in s.libraries then s.libraries[b.owner] else b, b)]))
  }

  /** The registered targets a binding can reach. */
  predicate Reaches(b: Binding, target: Binding)
  {
    match b.scope
    case TargetScope => target.iqn == b.iqn
    case LibraryScope => target.library == b.owner
    case DriveScope => target.role == Some(DriveRole) && target.drive == b.owner
  }

  function Affected(s: Store, b: Binding): set<string>
  {
    set q | q in s.targets && Reaches(b, s.targets[q])
  }

  lemma UpdatedIsValid(row: Binding, b: Binding)
    requires Valid(row) && Valid(b)
    ensures Valid(Updated(row, b))
  {
    if b.auth.Some? { CanonicalStable(b.auth.value); }
  }

  /** The table after a save: one row changed or added. */
  function SavedRow(s: Store, b: Binding): Binding
  {
    match b.scope
    case TargetScope => if b.iqn in s.targets then Updated(s.targets[b.iqn], b) else Updated(b, b)
    case DriveScope => Updated(if b.owner in s.drives then s.drives[b.owner] else b, b)
    case LibraryScope => Updated(if b.owner in s.libraries then s.libraries[b.owner] else b, b)
  }

  lemma SavedRowIsValid(s: Store, b: Binding)
    requires WellFormed(s) && Valid(b)
    ensures Valid(SavedRow(s, b))
  {
    if b.scope == TargetScope && b.iqn in s.targets {
      assert TargetRow(b.iqn, s.targets[b.iqn]);
      UpdatedIsValid(s.targets[b.iqn], b);
    } else if b.scope == DriveScope && b.owner in s.drives {
      assert DriveRow(b.owner, s.drives[b.owner]);
      UpdatedIsValid(s.drives[b.owner], b);
    } else if b.scope == LibraryScope && b.owner in s.libraries {
      assert LibraryRow(b.owner, s.libraries[b.owner]);
      UpdatedIsValid(s.libraries[b.owner], b);
    } else {
      UpdatedIsValid(b, b);
    }
  }

  lemma RowsAfter(s: Store, b: Binding, row: Binding)
    requires WellFormed(s) && Valid(row) && row.scope == b.scope
    ensures b.scope == TargetScope && row.iqn == b.iqn ==> WellFormed(s.(targets := s.targets[b.iqn := row]))
    ensures b.scope == DriveScope && row.owner == b.owner ==> WellFormed(s.(drives := s.drives[b.owner := row]))
    ensures b.scope == LibraryScope && row.owner == b.owner ==> WellFormed(s.(libraries := s.libraries[b.owner := row]))
  {
  }

  lemma SaveKeepsRows(s: Store, b: Binding)
    requires WellFormed(s) && Valid(b) && Save(s, b).Ok?
    ensures WellFormed(Save(s, b).value)
  {
    SavedRowIsValid(s, b);
    var row := SavedRow(s, b);
    if b.scope == TargetScope {
      assert TargetRow(b.iqn, s.targets[b.iqn]);
    } else if b.scope == DriveScope && b.owner in s.drives {
      assert DriveRow(b.owner, s.drives[b.owner]);
    } else if b.scope == LibraryScope && b.owner in s.libraries {
      assert LibraryRow(b.owner, s.libraries[b.owner]);
    }
    RowsAfter(s, b, row);
  }

  /** A save registers nothing and leaves every offline flag. */
  lemma SaveKeepsTargets(s: Store, b: Binding)
    requires Save(s, b).Ok?
    ensures Save(s, b).value.targets.Keys == s.targets.Keys
    ensures forall q :: q in s.targets ==> Save(s, b).value.targets[q].offline == s.targets[q].offline
  {
  }

  /** A target's policy is a function of its own row and the two rows above it. */
  lemma SameRowsSameResolution(s: Store, n: Store, q: string)
    requires WellFormed(s) && q in s.targets && q in n.targets && n.targets[q] == s.targets[q]
    requires var t := s.targets[q];
      && (t.role == Some(ChangerRole) || Lookup(n.drives, t.drive) == Lookup(s.drives, t.drive))
      && Lookup(n.libraries, t.library) == Lookup(s.libraries, t.library)
    ensures n.targets[q].role.Some? && s.targets[q].role.Some?
    ensures ResolveTarget(n, q) == ResolveTarget(s, q)
  {
    assert TargetRow(q, s.targets[q]);
  }

  /** The frame of a binding: a target it does not reach resolves as before. */
  lemma UnreachedResolvesTheSame(s: Store, b: Binding, q: string)
    requires WellFormed(s) && Save(s, b).Ok? && q in s.targets && q !in Affected(s, b)
    ensures q in Save(s, b).value.targets && Save(s, b).value.targets[q].role.Some? && s.targets[q].role.Some?
    ensures ResolveTarget(Save(s, b).value, q) == ResolveTarget(s, q)
  {
    assert TargetRow(q, s.targets[q]) && !Reaches(b, s.targets[q]);
    SameRowsSameResolution(s, Save(s, b).value, q);
  }

  /** What the gate computes for a reached target before storing is what the target
      resolves to afterwards. */
  lemma ReachedResolvesAsForeseen(s: Store, b: Binding, q: string)
    requires WellFormed(s) && Valid(b) && Save(s, b).Ok?
    requires q in Affected(s, b)
    requires ResolveTarget(s, q).Ok? && ResolveWith(s, s.targets[q], Some(b)).Ok?
    ensures WellFormed(Save(s, b).value)
    ensures ResolveTarget(Save(s, b).value, q) == ResolveWith(s, s.targets[q], Some(b))
  {
    SaveKeepsRows(s, b);
    if b.auth.Some? { CanonicalStable(b.auth.value); }
    var n := Save(s, b).value;
    assert TargetRow(q, s.targets[q]) && TargetRow(q, n.targets[q]);
    if b.scope == TargetScope {
      ForeseenTarget(s, b, q);
    } else if b.scope == DriveScope {
      ForeseenDrive(s, b, q);
    } else {
      ForeseenLibrary(s, b, q);
    }
  }

  lemma ForeseenTarget(s: Store, b: Binding, q: string)
    requires WellFormed(s) && Valid(b) && b.scope == TargetScope && Save(s, b).Ok? && WellFormed(Save(s, b).value)
    requires q in Affected(s, b) && ResolveTarget(s, q).Ok? && ResolveWith(s, s.targets[q], Some(b)).Ok?
    requires b.auth.Some? ==> Canonical(Canonical(b.auth.value)) == Canonical(b.auth.value)
    ensures ResolveTarget(Save(s, b).value, q) == ResolveWith(s, s.targets[q], Some(b))
  {
    assert TargetRow(q, s.targets[q]);
    var n := Save(s, b).value;
    assert TargetRow(q, n.targets[q]);
    assert n.targets[q] == Updated(s.targets[q], b);
  }

  lemma ForeseenDrive(s: Store, b: Binding, q: string)
    requires WellFormed(s) && Valid(b) && b.scope == DriveScope && Save(s, b).Ok? && WellFormed(Save(s, b).value)
    requires q in Affected(s, b) && ResolveTarget(s, q).Ok? && ResolveWith(s, s.targets[q], Some(b)).Ok?
    requires b.auth.Some? ==> Canonical(Canonical(b.auth.value)) == Canonical(b.auth.value)
    ensures ResolveTarget(Save(s, b).value, q) == ResolveWith(s, s.targets[q], Some(b))
  {
    assert TargetRow(q, s.targets[q]);
    var n := Save(s, b).value;
    assert n.targets == s.targets && DriveRow(b.owner, n.drives[b.owner]);
  }

  lemma ForeseenLibrary(s: Store, b: Binding, q: string)
    requires WellFormed(s) && Valid(b) && b.scope == LibraryScope && Save(s, b).Ok? && WellFormed(Save(s, b).value)
    requires q in Affected(s, b) && ResolveTarget(s, q).Ok? && ResolveWith(s, s.targets[q], Some(b)).Ok?
    requires b.auth.Some? ==> Canonical(Canonical(b.auth.value)) == Canonical(b.auth.value)
    ensures ResolveTarget(Save(s, b).value, q) == ResolveWith(s, s.targets[q], Some(b))
  {
    assert TargetRow(q, s.targets[q]);
    var n := Save(s, b).value;
    assert n.targets == s.targets && LibraryRow(b.owner, n.libraries[b.owner]);
  }
}
