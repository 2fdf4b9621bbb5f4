/** Stable LUN allocation for a library's local devices
    (control-plane/internal/orchestration/local_mount_service.go, `desiredMappings`
    and `localMountIdentityChanged`). */
module LunAllocation {

  const MAX_LUN := 65535

  datatype Kind = ChangerKind | DriveKind
  datatype MappingState = Active | CleanupPending | Inactive
  datatype Descriptor = Descriptor(key: string, kind: Kind, drive: string, identity: string, backend: string)
  datatype Mapping = Mapping(key: string, library: string, kind: Kind, drive: string, lun: int,
                             identity: string, backend: string, state: MappingState)

  predicate ValidId(s: string) { s != "" }
  function ChangerKey(library: string): string { "changer:" + library }
  function DriveKey(drive: string): string { "drive:" + drive }

  predicate Valid(m: Mapping)
  {
    && ValidId(m.library) && ValidId(m.identity) && ValidId(m.backend)
    && match m.kind
       case ChangerKind => m.key == ChangerKey(m.library) && m.drive == "" && m.lun == 0
       case DriveKind => ValidId(m.drive) && m.key == DriveKey(m.drive) && 1 <= m.lun <= MAX_LUN
  }

  // -------------------------------------------------------------- specification

  /** The stored mappings of a library: valid, with distinct keys and LUNs. */
  ghost predicate Sound(library: string, existing: seq<Mapping>)
  {
    && (forall i :: 0 <= i < |existing| ==> Valid(existing[i]) && existing[i].library == library)
    && (forall i, j :: 0 <= i < j < |existing| ==> existing[i].key != existing[j].key && existing[i].lun != existing[j].lun)
  }

  ghost predicate UniqueKeys(descriptors: seq<Descriptor>)
  {
    forall i, j :: 0 <= i < j < |descriptors| ==> descriptors[i].key != descriptors[j].key
  }

  function Luns(ms: seq<Mapping>): set<int> { set m | m in ms :: m.lun }
  function Keys(ms: seq<Mapping>): set<string> { set m | m in ms :: m.key }
  function DescriptorKeys(ds: seq<Descriptor>): set<string> { set d | d in ds :: d.key }

  function ByKey(existing: seq<Mapping>): (r: map<string, Mapping>)
    ensures r.Keys == Keys(existing)
    ensures forall k :: k in r ==> r[k].key == k && r[k] in existing
  {
    if existing == [] then map[]
    else
      var last := existing[|existing| - 1];
      assert existing == existing[..|existing| - 1] + [last];
      ByKey(existing[..|existing| - 1])[last.key := last]
  }

  /** The mapping of one descriptor, `lun` being the next free one. */
  function MappingFor(library: string, d: Descriptor, known: map<string, Mapping>, published: map<string, string>, lun: int): Mapping
  {
    if d.key in known then known[d.key].(state := Active)
    else Mapping(d.key, library, d.kind, d.drive, if d.kind == DriveKind then lun else 0, d.identity,
                 if d.key in published then published[d.key] else d.backend, Active)
  }

  /** `m` is what descriptor `d` gets: its stored mapping made active, or a new one
      with a LUN that no stored mapping has and the allocation bound allows. */
  ghost predicate Serves(m: Mapping, d: Descriptor, library: string, existing: seq<Mapping>, published: map<string, string>, bound: int)
  {
    && m.key == d.key && m.library == library && m.state == Active && Valid(m)
    && (m.key in Keys(existing) ==> m == ByKey(existing)[m.key].(state := Active))
    && (m.key !in Keys(existing) ==>
          && m == MappingFor(library, d, map[], published, m.lun)
          && (d.kind == DriveKind ==> m.lun !in Luns(existing) && 1 <= m.lun <= bound))
  }

  ghost predicate AllServe(ms: seq<Mapping>, ds: seq<Descriptor>, library: string, existing: seq<Mapping>,
                           published: map<string, string>, bound: int)
  {
    forall m :: m in ms ==> exists d :: d in ds && Serves(m, d, library, existing, published, bound)
  }

  ghost predicate DistinctLuns(ms: seq<Mapping>)
  {
    forall i, j :: 0 <= i < j < |ms| ==> ms[i].lun != ms[j].lun
  }

  /** The stored mappings no descriptor asks for, marked for cleanup. */
  ghost predicate Leftovers(stale: seq<Mapping>, existing: seq<Mapping>, ds: seq<Descriptor>)
  {
    && (forall m :: m in stale ==> m.key in Keys(existing) - DescriptorKeys(ds) && m == ByKey(existing)[m.key].(state := CleanupPending))
    && (forall k :: k in Keys(existing) - DescriptorKeys(ds) ==> k in Keys(stale))
  }

  ghost predicate SortedByLun(ms: seq<Mapping>)
  {
    forall i, j :: 0 <= i < j < |ms| ==> ms[i].lun <= ms[j].lun
  }

  // -------------------------------------------------------------------- sorting

  function Insert(m: Mapping, ms: seq<Mapping>): (r: seq<Mapping>)
    requires SortedByLun(ms)
    ensures SortedByLun(r) && multiset(r) == multiset(ms) + multiset{m}
  {
    if ms == [] then [m]
    else if m.lun <= ms[0].lun then [m] + ms
    else
      var t := Insert(m, ms[1..]);
      InsertedLater(m, ms, t);
      [ms[0]] + t
  }

  lemma InsertedLater(m: Mapping, ms: seq<Mapping>, t: seq<Mapping>)
    requires SortedByLun(ms) && ms != [] && m.lun > ms[0].lun
    requires SortedByLun(t) && multiset(t) == multiset(ms[1..]) + multiset{m}
    ensures SortedByLun([ms[0]] + t) && multiset([ms[0]] + t) == multiset(ms) + multiset{m}
  {
    assert ms == [ms[0]] + ms[1..];
    forall k | 0 <= k < |t| ensures ms[0].lun <= t[k].lun {
      assert t[k] in multiset(t);
      assert t[k] == m || t[k] in ms[1..];
    }
  }

  function SortByLun(ms: seq<Mapping>): (r: seq<Mapping>)
    ensures SortedByLun(r) && multiset(r) == multiset(ms)
  {
    if ms == [] then [] else
      assert ms == [ms[0]] + ms[1..];
      Insert(ms[0], SortByLun(ms[1..]))
  }

  lemma SameElements(a: seq<Mapping>, b: seq<Mapping>)
    requires multiset(a) == multiset(b)
    ensures (forall m :: m in a <==> m in b) && |a| == |b| && Keys(a) == Keys(b)
  {
    forall m ensures m in a <==> m in b { assert m in multiset(a) <==> m in multiset(b); }
    assert |multiset(a)| == |a| && |multiset(b)| == |b|;
  }

  lemma {:induction false} LunCount(ms: seq<Mapping>)
    ensures |Luns(ms)| <= |ms|
    ensures DistinctLuns(ms) ==> |Luns(ms)| == |ms|
    ensures |Luns(ms)| == |ms| ==> DistinctLuns(ms)
  {
    if ms != [] {
      var front, last := ms[..|ms| - 1], ms[|ms| - 1];
      LunCount(front);
      assert ms == front + [last];
      assert Luns(ms) == Luns(front) + {last.lun};
      forall i | 0 <= i < |front| ensures ms[i].lun in Luns(front) { assert front[i] in front; }
    }
  }

  /** Sorting keeps LUNs distinct. */
  lemma SortKeepsDistinct(ms: seq<Mapping>)
    requires DistinctLuns(ms)
    ensures DistinctLuns(SortByLun(ms))
  {
    SameElements(ms, SortByLun(ms));
    LunCount(ms);
    LunCount(SortByLun(ms));
    assert Luns(SortByLun(ms)) == Luns(ms);
  }

  // ------------------------------------------------------------------ pigeonhole

  lemma {:induction false} IntervalFits(n: nat, used: set<int>)
    requires forall x :: 1 <= x <= n ==> x in used
    ensures n <= |used|
  {
    if n > 0 {
      IntervalFits(n - 1, used - {n});
    }
  }

  /** The lowest free LUN from `next` on. The search ends because the LUNs below are
      all used. */
  method NextFree(next: int, used: set<int>) returns (lun: int)
    requires 1 <= next && forall x :: 1 <= x < next ==> x in used
    ensures next <= lun && lun !in used && forall x :: 1 <= x < lun ==> x in used
    ensures lun <= |used - {0}| + 1
  {
    lun := next;
    IntervalFits(lun - 1, used - {0});
    while lun in used
      invariant next <= lun <= |used - {0}| + 1 && forall x :: 1 <= x < lun ==> x in used
      decreases |used - {0}| + 1 - lun
    {
      IntervalFits(lun, used - {0});
      lun := lun + 1;
    }
  }

  // ------------------------------------------------------------------- allocation

  /** What holds of the wanted mappings after some of the descriptors. */
  ghost predicate SoFar(wanted: seq<Mapping>, ds: seq<Descriptor>, library: string, existing: seq<Mapping>,
                        published: map<string, string>, bound: int, used: set<int>)
  {
    && AllServe(wanted, ds, library, existing, published, bound) && DistinctLuns(wanted)
    && Luns(wanted) <= used && Luns(existing) <= used
  }

  lemma {:induction false} KeptLun(library: string, existing: seq<Mapping>, a: string, b: string)
    requires Sound(library, existing) && a in Keys(existing) && b in Keys(existing) && a != b
    ensures ByKey(existing)[a].lun != ByKey(existing)[b].lun
  {
    var x, y := ByKey(existing)[a], ByKey(existing)[b];
    var i :| 0 <= i < |existing| && existing[i] == x;
    var j :| 0 <= j < |existing| && existing[j] == y;
    assert i != j;
  }

  /** A mapping that serves a new descriptor has a LUN none of the others has. */
  lemma FreshLun(wanted: seq<Mapping>, ds: seq<Descriptor>, library: string, existing: seq<Mapping>, published: map<string, string>,
                 bound: int, used: set<int>, d: Descriptor, m: Mapping, k: nat)
    requires Sound(library, existing) && SoFar(wanted, ds, library, existing, published, bound, used)
    requires Serves(m, d, library, existing, published, bound) && d.key !in DescriptorKeys(ds)
    requires m.key !in Keys(existing) && m.kind == DriveKind ==> m.lun !in used
    requires k < |wanted|
    ensures wanted[k].lun != m.lun
  {
    var o := wanted[k];
    assert o in wanted;
    var e :| e in ds && Serves(o, e, library, existing, published, bound);
    assert o.key != m.key && o.lun in Luns(wanted);
    if m.key in Keys(existing) && o.key in Keys(existing) {
      KeptLun(library, existing, m.key, o.key);
    } else if m.key in Keys(existing) {
      assert ByKey(existing)[m.key] in existing;
      assert m.lun in Luns(existing);
    } else if o.key in Keys(existing) {
      assert ByKey(existing)[o.key] in existing;
    }
  }

  lemma Extended(wanted: seq<Mapping>, ds: seq<Descriptor>, library: string, existing: seq<Mapping>, published: map<string, string>,
                 bound: int, used: set<int>, d: Descriptor, m: Mapping, more: set<int>, wider: int)
    requires Sound(library, existing) && SoFar(wanted, ds, library, existing, published, bound, used)
    requires Serves(m, d, library, existing, published, wider) && d.key !in DescriptorKeys(ds) && bound <= wider
    requires m.key !in Keys(existing) && m.kind == DriveKind ==> m.lun !in used
    requires used <= more && m.lun in more
    ensures SoFar(wanted + [m], ds + [d], library, existing, published, wider, more)
  {
    Widened(wanted, ds, library, existing, published, bound, used, d, more, wider);
    forall k | 0 <= k < |wanted| ensures wanted[k].lun != m.lun {
      Widened(wanted, ds, library, existing, published, bound, used, d, used, wider);
      FreshLun(wanted, ds, library, existing, published, wider, used, d, m, k);
    }
    assert d in ds + [d];
    forall x | x in wanted + [m] ensures exists e :: e in ds + [d] && Serves(x, e, library, existing, published, wider) {
      if x in wanted {
        var e :| e in ds && Serves(x, e, library, existing, published, wider);
        assert e in ds + [d];
      }
    }
  }

  lemma Widened(wanted: seq<Mapping>, ds: seq<Descriptor>, library: string, existing: seq<Mapping>, published: map<string, string>,
                bound: int, used: set<int>, d: Descriptor, more: set<int>, wider: int)
    requires SoFar(wanted, ds, library, existing, published, bound, used) && used <= more && bound <= wider
    ensures SoFar(wanted, ds, library, existing, published, wider, more)
    ensures SoFar(wanted, ds + [d], library, existing, published, wider, more)
  {
    forall x | x in wanted ensures exists e :: e in ds && Serves(x, e, library, existing, published, wider) {
      var e :| e in ds && Serves(x, e, library, existing, published, bound);
    }
    forall x | x in wanted ensures exists e :: e in ds + [d] && Serves(x, e, library, existing, published, wider) {
      var e :| e in ds && Serves(x, e, library, existing, published, wider);
      assert e in ds + [d];
    }
  }

  /** A descriptor whose new mapping passes validation, given a valid LUN. */
  ghost predicate Proper(d: Descriptor, library: string, published: map<string, string>)
  {
    Valid(MappingFor(library, d, map[], published, 1))
  }

  /** The descriptors that must be served: those with a stored mapping, and proper new
      ones while LUNs last. */
  ghost predicate Due(d: Descriptor, library: string, existing: seq<Mapping>, published: map<string, string>, bound: int)
  {
    d.key in Keys(existing) || (Proper(d, library, published) && bound <= MAX_LUN)
  }

  ghost predicate Covered(ds: seq<Descriptor>, wanted: seq<Mapping>, library: string, existing: seq<Mapping>,
                          published: map<string, string>, bound: int)
  {
    forall d :: d in ds && Due(d, library, existing, published, bound) ==> d.key in Keys(wanted)
  }

  /** One descriptor of the allocation loop. */
  method AllocateOne(library: string, d: Descriptor, known: map<string, Mapping>, published: map<string, string>, next: int, used: set<int>)
    returns (m: Mapping, next': int, used': set<int>)
    requires 1 <= next && 0 in used && forall x :: 1 <= x < next ==> x in used
    ensures next <= next' && used <= used' && (forall x :: 1 <= x < next' ==> x in used')
    ensures m == MappingFor(library, d, known, published, m.lun)
    ensures d.key !in known && d.kind == DriveKind ==> m.lun !in used && 1 <= m.lun <= |used - {0}| + 1 && used' == used + {m.lun}
    ensures d.key in known || d.kind == ChangerKind ==> used' == used
  {
    var lun := 0;
    next', used' := next, used;
    if d.key !in known && d.kind == DriveKind {
      lun := NextFree(next, used);
      used', next' := used + {lun}, lun + 1;
    }
    m := MappingFor(library, d, known, published, lun);
  }

  lemma OneServes(library: string, d: Descriptor, existing: seq<Mapping>, published: map<string, string>, m: Mapping, bound: int)
    requires m == MappingFor(library, d, ByKey(existing), published, m.lun) && m.library == library && Valid(m)
    requires d.key !in Keys(existing) && d.kind == DriveKind ==> m.lun !in Luns(existing) && 1 <= m.lun <= bound
    ensures Serves(m, d, library, existing, published, bound)
  {
  }

  lemma DueIsAccepted(library: string, d: Descriptor, existing: seq<Mapping>, published: map<string, string>, m: Mapping, bound: int)
    requires Sound(library, existing) && m == MappingFor(library, d, ByKey(existing), published, m.lun)
    requires d.key !in Keys(existing) && d.kind == DriveKind ==> 1 <= m.lun <= bound
    requires Due(d, library, existing, published, bound)
    ensures m.library == library && Valid(m)
  {
    if d.key in Keys(existing) {
      var i :| 0 <= i < |existing| && existing[i] == ByKey(existing)[d.key];
    }
  }

  /** The allocation loop's invariant. */
  ghost predicate Progress(wanted: seq<Mapping>, ds: seq<Descriptor>, library: string, existing: seq<Mapping>,
                           published: map<string, string>, total: int, used: set<int>)
  {
    SoFar(wanted, ds, library, existing, published, total, used) && Covered(ds, wanted, library, existing, published, total)
  }

  /** The mappings of all descriptors, in order. */
  method Allocate(library: string, descriptors: seq<Descriptor>, existing: seq<Mapping>, published: map<string, string>)
    returns (wanted: seq<Mapping>)
    ensures Sound(library, existing) && UniqueKeys(descriptors) ==>
      && AllServe(wanted, descriptors, library, existing, published, |existing| + |descriptors|) && DistinctLuns(wanted)
      && Covered(descriptors, wanted, library, existing, published, |existing| + |descriptors|)
  {
    var known, used, next := ByKey(existing), {0} + Luns(existing), 1;
    LunCount(existing);
    ghost var sound, total := Sound(library, existing) && UniqueKeys(descriptors), |existing| + |descriptors|;
    wanted := [];
    for i := 0 to |descriptors|
      invariant 1 <= next && 0 in used && (forall x :: 1 <= x < next ==> x in used)
      invariant |used - {0}| <= |existing| + i
      invariant sound ==> Progress(wanted, descriptors[..i], library, existing, published, total, used)
    {
      var m, next', used' := AllocateOne(library, descriptors[i], known, published, next, used);
      OneMoreUsed(used, m.lun, used');
      ghost var before := wanted;
      if m.library == library && Valid(m) { wanted := wanted + [m]; }
      if sound {
        NewDescriptor(descriptors, i);
        AllocatedOne(before, descriptors[..i], descriptors[i], library, existing, published, total, used, m, used', wanted);
      }
      next, used := next', used';
    }
    assert descriptors[..|descriptors|] == descriptors;
  }

  lemma OneMoreUsed(used: set<int>, lun: int, used': set<int>)
    requires used' == used || used' == used + {lun}
    ensures |used' - {0}| <= |used - {0}| + 1
  {
    if lun != 0 { assert (used + {lun}) - {0} == (used - {0}) + {lun}; } else { assert (used + {lun}) - {0} == used - {0}; }
  }

  lemma NewDescriptor(descriptors: seq<Descriptor>, i: nat)
    requires i < |descriptors| && UniqueKeys(descriptors)
    ensures descriptors[..i + 1] == descriptors[..i] + [descriptors[i]]
    ensures descriptors[i].key !in DescriptorKeys(descriptors[..i])
  {
  }

  lemma AllocatedOne(before: seq<Mapping>, ds: seq<Descriptor>, d: Descriptor, library: string, existing: seq<Mapping>,
                     published: map<string, string>, total: int, used: set<int>, m: Mapping, used': set<int>, after: seq<Mapping>)
    requires Sound(library, existing) && d.key !in DescriptorKeys(ds)
    requires Progress(before, ds, library, existing, published, total, used)
    requires m == MappingFor(library, d, ByKey(existing), published, m.lun)
    requires d.key !in Keys(existing) && d.kind == DriveKind ==> m.lun !in used && 1 <= m.lun <= total && used' == used + {m.lun}
    requires used <= used' && 0 in used
    requires after == if m.library == library && Valid(m) then before + [m] else before
    ensures Progress(after, ds + [d], library, existing, published, total, used')
  {
    StillCovered(before, ds, library, existing, published, total, d, m, after);
    if m.library == library && Valid(m) {
      ServedOne(before, ds, d, library, existing, published, total, used, m, used');
    } else {
      Widened(before, ds, library, existing, published, total, used, d, used', total);
    }
  }

  lemma ServedOne(before: seq<Mapping>, ds: seq<Descriptor>, d: Descriptor, library: string, existing: seq<Mapping>,
                  published: map<string, string>, total: int, used: set<int>, m: Mapping, used': set<int>)
    requires Sound(library, existing) && d.key !in DescriptorKeys(ds)
    requires SoFar(before, ds, library, existing, published, total, used)
    requires m == MappingFor(library, d, ByKey(existing), published, m.lun) && m.library == library && Valid(m)
    requires d.key !in Keys(existing) && d.kind == DriveKind ==> m.lun !in used && 1 <= m.lun <= total && used' == used + {m.lun}
    requires used <= used' && 0 in used
    ensures SoFar(before + [m], ds + [d], library, existing, published, total, used')
  {
    OneServes(library, d, existing, published, m, total);
    LunIsUsed(m, library, d, existing, published, used, used');
    Extended(before, ds, library, existing, published, total, used, d, m, used', total);
  }

  lemma LunIsUsed(m: Mapping, library: string, d: Descriptor, existing: seq<Mapping>, published: map<string, string>, used: set<int>, used': set<int>)
    requires m == MappingFor(library, d, ByKey(existing), published, m.lun) && Luns(existing) <= used <= used' && 0 in used
    requires d.key !in Keys(existing) && d.kind == DriveKind ==> used' == used + {m.lun}
    ensures m.lun in used'
  {
    if d.key in Keys(existing) { assert ByKey(existing)[d.key].lun in Luns(existing); }
  }

  lemma StillCovered(before: seq<Mapping>, ds: seq<Descriptor>, library: string, existing: seq<Mapping>, published: map<string, string>,
                     total: int, d: Descriptor, m: Mapping, after: seq<Mapping>)
    requires Sound(library, existing) && Covered(ds, before, library, existing, published, total)
    requires m == MappingFor(library, d, ByKey(existing), published, m.lun)
    requires d.key !in Keys(existing) && d.kind == DriveKind ==> 1 <= m.lun <= total
    requires after == if m.library == library && Valid(m) then before + [m] else before
    ensures Covered(ds + [d], after, library, existing, published, total)
  {
    assert Keys(before) <= Keys(after);
    if Due(d, library, existing, published, total) {
      DueIsAccepted(library, d, existing, published, m, total);
      assert m in after;
    }
  }

  method Discard(descriptors: seq<Descriptor>, existing: seq<Mapping>) returns (stale: seq<Mapping>)
    ensures Leftovers(stale, existing, descriptors)
  {
    var known := ByKey(existing);
    var todo := known.Keys - DescriptorKeys(descriptors);
    stale := [];
    while todo != {}
      invariant todo <= Keys(existing) - DescriptorKeys(descriptors)
      invariant forall m :: m in stale ==> m.key in Keys(existing) - DescriptorKeys(descriptors) && m == known[m.key].(state := CleanupPending)
      invariant forall k :: k in Keys(existing) - DescriptorKeys(descriptors) ==> k in todo || k in Keys(stale)
      decreases todo
    {
      var k :| k in todo;
      ghost var before := stale;
      stale := stale + [known[k].(state := CleanupPending)];
      assert Keys(stale) == Keys(before) + {k};
      todo := todo - {k};
    }
  }

  method DesiredMappings(library: string, descriptors: seq<Descriptor>, existing: seq<Mapping>, published: map<string, string>)
    returns (wanted: seq<Mapping>, stale: seq<Mapping>)
    ensures SortedByLun(wanted) && SortedByLun(stale) && Leftovers(stale, existing, descriptors)
    ensures Sound(library, existing) && UniqueKeys(descriptors) ==>
      && AllServe(wanted, descriptors, library, existing, published, |existing| + |descriptors|) && DistinctLuns(wanted)
      && Covered(descriptors, wanted, library, existing, published, |existing| + |descriptors|)
  {
    var w := Allocate(library, descriptors, existing, published);
    var l := Discard(descriptors, existing);
    wanted, stale := SortByLun(w), SortByLun(l);
    SameElements(w, wanted);
    SameElements(l, stale);
    if DistinctLuns(w) { SortKeepsDistinct(w); }
  }

  lemma OnlyDescribed(library: string, descriptors: seq<Descriptor>, existing: seq<Mapping>, published: map<string, string>,
                      bound: int, wanted: seq<Mapping>)
    requires AllServe(wanted, descriptors, library, existing, published, bound)
    ensures Keys(wanted) <= DescriptorKeys(descriptors)
  {
    forall m | m in wanted ensures m.key in DescriptorKeys(descriptors) {
      var d :| d in descriptors && Serves(m, d, library, existing, published, bound);
    }
  }

  /** Every stored key is either kept or discarded, and not both. */
  lemma Partition(library: string, descriptors: seq<Descriptor>, existing: seq<Mapping>, published: map<string, string>,
                  bound: int, wanted: seq<Mapping>, stale: seq<Mapping>, k: string)
    requires AllServe(wanted, descriptors, library, existing, published, bound)
    requires Covered(descriptors, wanted, library, existing, published, bound)
    requires Leftovers(stale, existing, descriptors) && k in Keys(existing)
    ensures k in Keys(wanted) <==> k !in Keys(stale)
  {
    OnlyDescribed(library, descriptors, existing, published, bound, wanted);
    if k in DescriptorKeys(descriptors) {
      var d :| d in descriptors && d.key == k;
      assert Due(d, library, existing, published, bound);
    }
  }

  // ------------------------------------------------------------- identity changes

  function IdentityByKey(ds: seq<Descriptor>): (r: map<string, string>)
    ensures r.Keys == DescriptorKeys(ds)
  {
    if ds == [] then map[]
    else
      var last := ds[|ds| - 1];
      assert ds == ds[..|ds| - 1] + [last];
      IdentityByKey(ds[..|ds| - 1])[last.key := last.identity]
  }

  lemma {:induction false} IdentityFound(ds: seq<Descriptor>, d: Descriptor)
    requires UniqueKeys(ds) && d in ds
    ensures d.key in IdentityByKey(ds) && IdentityByKey(ds)[d.key] == d.identity
  {
    var last := ds[|ds| - 1];
    if d != last { IdentityFound(ds[..|ds| - 1], d); }
  }

  method IdentityChanged(descriptors: seq<Descriptor>, mappings: seq<Mapping>) returns (changed: bool)
    ensures changed <==> exists m :: m in mappings && m.key in IdentityByKey(descriptors) && m.identity != IdentityByKey(descriptors)[m.key]
  {
    var identities := IdentityByKey(descriptors);
    for i := 0 to |mappings|
      invariant forall m :: m in mappings[..i] ==> m.key in identities ==> m.identity == identities[m.key]
    {
      if mappings[i].key in identities && mappings[i].identity != identities[mappings[i].key] { return true; }
    }
    return false;
  }

  /** When no identity changed, every wanted mapping has its descriptor's identity. */
  lemma IdentitiesAgree(library: string, descriptors: seq<Descriptor>, existing: seq<Mapping>, published: map<string, string>,
                        bound: int, wanted: seq<Mapping>, m: Mapping)
    requires UniqueKeys(descriptors) && AllServe(wanted, descriptors, library, existing, published, bound) && m in wanted
    requires forall e :: e in existing && e.key in IdentityByKey(descriptors) ==> e.identity == IdentityByKey(descriptors)[e.key]
    ensures m.key in IdentityByKey(descriptors) && m.identity == IdentityByKey(descriptors)[m.key]
  {
    var d :| d in descriptors && Serves(m, d, library, existing, published, bound);
    IdentityFound(descriptors, d);
    if m.key in Keys(existing) { assert ByKey(existing)[m.key] in existing; }
  }
}
