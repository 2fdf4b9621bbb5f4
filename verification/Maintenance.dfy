/** Round-robin selection of storage maintenance work
    (control-plane/internal/orchestration/storage_maintenance_service.go,
    `nextFilesystemCandidates`): one candidate per filesystem and cycle, after the
    last one in key order. */
module Maintenance {
  import opened StringOrder

  const NUL := '\0'

  datatype Candidate = Candidate(pool: string, library: string, cartridge: string, device: nat)

  function Key(c: Candidate): string { c.pool + [NUL] + c.library + [NUL] + c.cartridge }

  predicate NulFree(c: Candidate) { NUL !in c.pool && NUL !in c.library && NUL !in c.cartridge }

  /** The order candidates are sorted in: by pool, then library, then cartridge. */
  predicate TupleLeq(a: Candidate, b: Candidate)
  {
    if a.pool != b.pool then Less(a.pool, b.pool)
    else if a.library != b.library then Less(a.library, b.library)
    else Leq(a.cartridge, b.cartridge)
  }

  // ------------------------------------------------------------------- key order

  lemma {:induction false} JoinedOrder(p: string, x: string, q: string, y: string)
    requires NUL !in p && NUL !in q
    ensures Leq(p + [NUL] + x, q + [NUL] + y) <==> if p == q then Leq(x, y) else Less(p, q)
  {
    var a, b := p + [NUL] + x, q + [NUL] + y;
    if p == [] || q == [] {
      if p == q { assert a[1..] == x && b[1..] == y; }
      else if p == [] { assert a[0] == NUL && b[0] == q[0] && q[0] in q; }
      else { assert b[0] == NUL && a[0] == p[0] && p[0] in p; }
    } else {
      JoinedOrder(p[1..], x, q[1..], y);
      assert a[1..] == p[1..] + [NUL] + x && b[1..] == q[1..] + [NUL] + y;
      assert p == [p[0]] + p[1..] && q == [q[0]] + q[1..];
    }
  }

  /** For names without NUL the joined keys sort as the tuples do. */
  lemma KeyOrder(a: Candidate, b: Candidate)
    requires NulFree(a) && NulFree(b)
    ensures Leq(Key(a), Key(b)) <==> TupleLeq(a, b)
  {
    var x, y := a.library + [NUL] + a.cartridge, b.library + [NUL] + b.cartridge;
    assert Key(a) == a.pool + [NUL] + x && Key(b) == b.pool + [NUL] + y;
    JoinedOrder(a.pool, x, b.pool, y);
    JoinedOrder(a.library, a.cartridge, b.library, b.cartridge);
  }

  lemma KeyDetermines(a: Candidate, b: Candidate)
    requires NulFree(a) && NulFree(b) && Key(a) == Key(b)
    ensures a.pool == b.pool && a.library == b.library && a.cartridge == b.cartridge
  {
    Reflexive(Key(a));
    KeyOrder(a, b);
    KeyOrder(b, a);
    if a.pool != b.pool { Antisymmetric(a.pool, b.pool); }
    if a.library != b.library { Antisymmetric(a.library, b.library); }
    Antisymmetric(a.cartridge, b.cartridge);
  }

  // --------------------------------------------------------------------- sorting

  ghost predicate AllNulFree(s: seq<Candidate>) { forall c :: c in s ==> NulFree(c) }

  ghost predicate KeysSorted(s: seq<Candidate>)
  {
    forall i, j :: 0 <= i < j < |s| ==> Leq(Key(s[i]), Key(s[j]))
  }

  function Insert(c: Candidate, s: seq<Candidate>): (r: seq<Candidate>)
    ensures multiset(r) == multiset(s) + multiset{c}
  {
    if s == [] then [c]
    else if TupleLeq(c, s[0]) then [c] + s
    else
      assert s == [s[0]] + s[1..];
      [s[0]] + Insert(c, s[1..])
  }

  function Sort(s: seq<Candidate>): (r: seq<Candidate>)
    ensures multiset(r) == multiset(s)
  {
    if s == [] then [] else
      assert s == [s[0]] + s[1..];
      Insert(s[0], Sort(s[1..]))
  }

  lemma SameMembers(a: seq<Candidate>, b: seq<Candidate>)
    requires multiset(a) == multiset(b)
    ensures forall c :: c in a <==> c in b
  {
    forall c ensures c in a <==> c in b { assert c in multiset(a) <==> c in multiset(b); }
  }

  lemma {:induction false} InsertSorted(c: Candidate, s: seq<Candidate>)
    requires NulFree(c) && AllNulFree(s) && KeysSorted(s)
    ensures KeysSorted(Insert(c, s))
  {
    if s != [] {
      KeyOrder(c, s[0]);
      if TupleLeq(c, s[0]) {
        forall k | 0 <= k < |s| ensures Leq(Key(c), Key(s[k])) {
          if k > 0 { Transitive(Key(c), Key(s[0]), Key(s[k])); }
        }
      } else {
        Total(Key(c), Key(s[0]));
        InsertSorted(c, s[1..]);
        InsertedBehind(c, s, Insert(c, s[1..]));
      }
    }
  }

  lemma InsertedBehind(c: Candidate, s: seq<Candidate>, t: seq<Candidate>)
    requires s != [] && KeysSorted(s) && KeysSorted(t) && Leq(Key(s[0]), Key(c)) && multiset(t) == multiset(s[1..]) + multiset{c}
    ensures KeysSorted([s[0]] + t)
  {
    forall k | 0 <= k < |t| ensures Leq(Key(s[0]), Key(t[k])) {
      assert t[k] in multiset(t);
      assert t[k] == c || t[k] in s[1..];
    }
  }

  lemma {:induction false} SortSorted(s: seq<Candidate>)
    requires AllNulFree(s)
    ensures KeysSorted(Sort(s))
  {
    if s != [] {
      SortSorted(s[1..]);
      SameMembers(s[1..], Sort(s[1..]));
      InsertSorted(s[0], Sort(s[1..]));
    }
  }

  // ------------------------------------------------------------------- selection

  /** The candidates of one filesystem. */
  function Group(candidates: seq<Candidate>, device: nat): seq<Candidate>
  {
    if candidates == [] then []
    else
      var last := candidates[|candidates| - 1];
      var g := Group(candidates[..|candidates| - 1], device);
      if last.device == device then g + [last] else g
  }

  lemma {:induction false} GroupMembers(candidates: seq<Candidate>, device: nat)
    ensures forall c :: c in Group(candidates, device) <==> c in candidates && c.device == device
    ensures forall c :: multiset(Group(candidates, device))[c] <= multiset(candidates)[c]
  {
    if candidates != [] {
      var front, last := candidates[..|candidates| - 1], candidates[|candidates| - 1];
      GroupMembers(front, device);
      assert candidates == front + [last];
    }
  }

  function Devices(candidates: seq<Candidate>): set<nat> { set c | c in candidates :: c.device }

  /** The first candidate at or after `i` whose key lies above the cursor, or the very
      first. */
  function PickFrom(group: seq<Candidate>, cursor: string, i: nat): (r: nat)
    requires i <= |group| && group != []
    ensures r < |group|
    decreases |group| - i
  {
    if i == |group| then 0
    else if Less(cursor, Key(group[i])) then i
    else PickFrom(group, cursor, i + 1)
  }

  function Pick(group: seq<Candidate>, cursor: string): (r: nat)
    requires group != []
    ensures r < |group|
  {
    PickFrom(group, cursor, 0)
  }

  method Choose(group: seq<Candidate>, cursor: string) returns (choice: Candidate)
    requires group != []
    ensures choice == group[Pick(group, cursor)]
  {
    for i := 0 to |group|
      invariant Pick(group, cursor) == PickFrom(group, cursor, i)
    {
      if Less(cursor, Key(group[i])) { return group[i]; }
    }
    return group[0];
  }

  /** The group of a filesystem in selection order. */
  function Queue(candidates: seq<Candidate>, device: nat): seq<Candidate>
  {
    Sort(Group(candidates, device))
  }

  lemma QueueMembers(candidates: seq<Candidate>, device: nat)
    ensures forall c :: c in Queue(candidates, device) <==> c in candidates && c.device == device
    ensures device in Devices(candidates) ==> Queue(candidates, device) != []
  {
    GroupMembers(candidates, device);
    SameMembers(Queue(candidates, device), Group(candidates, device));
    if device in Devices(candidates) {
      var c :| c in candidates && c.device == device;
      assert c in Queue(candidates, device);
    }
  }

  ghost predicate Increasing(ds: seq<nat>) { forall i, j :: 0 <= i < j < |ds| ==> ds[i] < ds[j] }

  method Least(s: set<nat>) returns (m: nat)
    requires s != {}
    ensures m in s && forall x :: x in s ==> m <= x
  {
    m :| m in s;
    var todo := s - {m};
    while todo != {}
      invariant todo <= s && m in s && forall x :: x in s ==> x in todo || m <= x
      decreases todo
    {
      var x :| x in todo;
      if x < m { m := x; }
      todo := todo - {x};
    }
  }

  method SortedDevices(s: set<nat>) returns (ds: seq<nat>)
    ensures Increasing(ds) && forall d :: d in ds <==> d in s
  {
    ds := [];
    var todo := s;
    while todo != {}
      invariant todo <= s && Increasing(ds)
      invariant forall d :: d in ds <==> d in s && d !in todo
      invariant forall i, d :: 0 <= i < |ds| && d in todo ==> ds[i] < d
      decreases todo
    {
      var d := Least(todo);
      ds, todo := ds + [d], todo - {d};
    }
  }

  function At(m: map<nat, string>, d: nat): string { if d in m then m[d] else "" }

  /** What the filesystem `d` gets with this cursor. */
  function Choice(candidates: seq<Candidate>, d: nat, cursor: string): Candidate
    requires d in Devices(candidates)
  {
    QueueMembers(candidates, d);
    var q := Queue(candidates, d);
    q[Pick(q, cursor)]
  }

  ghost predicate Chosen(candidates: seq<Candidate>, d: nat, before: map<nat, string>, c: Candidate)
  {
    d in Devices(candidates) && c == Choice(candidates, d, At(before, d))
  }

  ghost predicate AllChosen(candidates: seq<Candidate>, ds: seq<nat>, before: map<nat, string>, selected: seq<Candidate>)
  {
    |selected| <= |ds| && forall k :: 0 <= k < |selected| ==> Chosen(candidates, ds[k], before, selected[k])
  }

  method ChooseFor(candidates: seq<Candidate>, d: nat, cursor: string) returns (choice: Candidate)
    requires d in Devices(candidates)
    ensures choice == Choice(candidates, d, cursor)
  {
    QueueMembers(candidates, d);
    choice := Choose(Queue(candidates, d), cursor);
  }

  /** The cursors after the first `n` filesystems: moved to what was selected there,
      as before elsewhere. */
  ghost predicate Advanced(ds: seq<nat>, n: nat, before: map<nat, string>, last: map<nat, string>, selected: seq<Candidate>)
  {
    && n == |selected| <= |ds|
    && (forall k :: 0 <= k < n ==> ds[k] in last && last[ds[k]] == Key(selected[k]))
    && (forall k :: n <= k < |ds| ==> At(last, ds[k]) == At(before, ds[k]))
  }

  lemma AdvancedOn(ds: seq<nat>, n: nat, before: map<nat, string>, last: map<nat, string>, selected: seq<Candidate>, c: Candidate)
    requires n < |ds| && Increasing(ds) && Advanced(ds, n, before, last, selected)
    ensures Advanced(ds, n + 1, before, last[ds[n] := Key(c)], selected + [c])
  {
  }

  lemma ChosenOn(candidates: seq<Candidate>, ds: seq<nat>, before: map<nat, string>, selected: seq<Candidate>, c: Candidate)
    requires AllChosen(candidates, ds, before, selected) && |selected| < |ds|
    requires Chosen(candidates, ds[|selected|], before, c)
    ensures AllChosen(candidates, ds, before, selected + [c])
  {
  }

  lemma EveryoneAdvanced(ds: seq<nat>, before: map<nat, string>, last: map<nat, string>, selected: seq<Candidate>)
    requires Advanced(ds, |ds|, before, last, selected)
    ensures forall d :: d in ds ==> d in last
  {
  }

  method SelectAll(candidates: seq<Candidate>, ds: seq<nat>, cursors: map<nat, string>, ghost before: map<nat, string>)
    returns (selected: seq<Candidate>, last: map<nat, string>)
    requires Increasing(ds) && (forall d :: d in ds <==> d in Devices(candidates))
    requires cursors.Keys <= Devices(candidates) && Advanced(ds, 0, before, cursors, [])
    ensures AllChosen(candidates, ds, before, selected) && Advanced(ds, |ds|, before, last, selected)
    ensures last.Keys == Devices(candidates)
  {
    selected, last := [], cursors;
    for i := 0 to |ds|
      invariant last.Keys <= Devices(candidates) && Advanced(ds, i, before, last, selected)
      invariant AllChosen(candidates, ds, before, selected)
    {
      assert ds[i] in ds;
      var choice := ChooseFor(candidates, ds[i], At(last, ds[i]));
      AdvancedOn(ds, i, before, last, selected, choice);
      ChosenOn(candidates, ds, before, selected, choice);
      last := last[ds[i] := Key(choice)];
      selected := selected + [choice];
    }
    EveryoneAdvanced(ds, before, last, selected);
  }

  lemma ChoiceDevice(candidates: seq<Candidate>, d: nat, cursor: string)
    requires d in Devices(candidates)
    ensures Choice(candidates, d, cursor).device == d && Choice(candidates, d, cursor) in candidates
  {
    QueueMembers(candidates, d);
    var q := Queue(candidates, d);
    assert q[Pick(q, cursor)] in q;
  }

  /** `c` is the choice of filesystem `d`, and its key the new cursor. */
  ghost predicate Served(candidates: seq<Candidate>, d: nat, before: map<nat, string>, last: map<nat, string>, c: Candidate)
  {
    Chosen(candidates, d, before, c) && c.device == d && At(last, d) == Key(c)
  }

  lemma SelectedIs(candidates: seq<Candidate>, ds: seq<nat>, before: map<nat, string>, last: map<nat, string>, selected: seq<Candidate>, i: nat)
    requires AllChosen(candidates, ds, before, selected) && Advanced(ds, |ds|, before, last, selected) && i < |ds|
    ensures Served(candidates, ds[i], before, last, selected[i])
  {
    assert Chosen(candidates, ds[i], before, selected[i]);
    ChoiceDevice(candidates, ds[i], At(before, ds[i]));
  }

  class Selector {
    /** Per filesystem, the key selected last. */
    var last: map<nat, string>

    constructor ()
      ensures last == map[]
    {
      last := map[];
    }

    /** One cycle: exactly one candidate per filesystem, in filesystem order, each the
        one after the cursor in its queue; filesystems that are gone are forgotten. */
    method Next(candidates: seq<Candidate>) returns (selected: seq<Candidate>, ghost devices: seq<nat>)
      modifies this
      ensures Increasing(devices) && (forall d :: d in devices <==> d in Devices(candidates))
      ensures |selected| == |devices| && last.Keys == Devices(candidates)
      ensures forall i :: 0 <= i < |devices| ==> Served(candidates, devices[i], old(last), last, selected[i])
    {
      var ds := SortedDevices(Devices(candidates));
      devices := ds;
      last := map d | d in last && d in Devices(candidates) :: last[d];
      selected, last := SelectAll(candidates, ds, last, old(last));
      forall i | 0 <= i < |ds| ensures Served(candidates, ds[i], old(last), last, selected[i]) {
        SelectedIs(candidates, ds, old(last), last, selected, i);
      }
    }
  }

  // -------------------------------------------------------------------- fairness

  /** The queue of a filesystem has no candidate twice and its keys increase. */
  ghost predicate Fair(q: seq<Candidate>)
  {
    forall i, j :: 0 <= i < j < |q| ==> Less(Key(q[i]), Key(q[j]))
  }

  lemma {:induction false} NoCopies(q: seq<Candidate>, i: nat, j: nat)
    requires i < j < |q| && forall c :: multiset(q)[c] <= 1
    ensures q[i] != q[j]
  {
    assert q == q[..j] + [q[j]] + q[j + 1..];
    var front, x, back := q[..j], q[j], q[j + 1..];
    assert multiset(q) == multiset(front) + multiset{x} + multiset(back);
    assert multiset(q)[x] == multiset(front)[x] + 1 + multiset(back)[x];
    assert x !in multiset(front) && front[i] in multiset(front);
  }

  /** Names without NUL and no candidate twice: the queue is fair. */
  lemma QueueIsFair(candidates: seq<Candidate>, d: nat)
    requires AllNulFree(candidates) && forall c :: multiset(candidates)[c] <= 1
    ensures Fair(Queue(candidates, d))
  {
    var q := Queue(candidates, d);
    GroupMembers(candidates, d);
    QueueMembers(candidates, d);
    SortSorted(Group(candidates, d));
    forall i, j | 0 <= i < j < |q| ensures Less(Key(q[i]), Key(q[j])) {
      assert multiset(q)[q[i]] <= 1;
      NoCopies(q, i, j);
      assert q[i] in q && q[j] in q;
      if Key(q[i]) == Key(q[j]) { KeyDetermines(q[i], q[j]); }
    }
  }

  lemma {:induction false} PickSkips(q: seq<Candidate>, i: nat, j: nat)
    requires Fair(q) && i < |q| && j <= i + 1
    ensures PickFrom(q, Key(q[i]), j) == if i + 1 < |q| then i + 1 else 0
    decreases i + 1 - j
  {
    if j <= i {
      if j < i { Antisymmetricity(Key(q[j]), Key(q[i])); }
      PickSkips(q, i, j + 1);
    }
  }

  lemma Antisymmetricity(a: string, b: string)
    requires Less(a, b)
    ensures !Less(b, a)
  {
    if Leq(b, a) { Antisymmetric(a, b); }
  }

  /** After a candidate comes the next in the queue, and after the last the first. */
  lemma Rotates(q: seq<Candidate>, i: nat)
    requires Fair(q) && i < |q|
    ensures Pick(q, Key(q[i])) == if i + 1 < |q| then i + 1 else 0
  {
    PickSkips(q, i, 0);
  }

  /** The index picked in cycle `k` from a cursor, the queue staying the same. */
  ghost function Picked(q: seq<Candidate>, cursor: string, k: nat): (r: nat)
    requires q != []
    ensures r < |q|
  {
    if k == 0 then Pick(q, cursor) else Pick(q, Key(q[Picked(q, cursor, k - 1)]))
  }

  lemma NoneTwice(q: seq<Candidate>, cursor: string, m: nat, k: nat, l: nat)
    requires q != [] && Fair(q) && m <= k < l < m + |q|
    ensures Picked(q, cursor, k) != Picked(q, cursor, l)
  {
    Shifted(q, cursor, m, k - m);
    Shifted(q, cursor, m, l - m);
  }

  lemma EachOnce(q: seq<Candidate>, cursor: string, m: nat, i: nat) returns (k: nat)
    requires q != [] && Fair(q) && i < |q|
    ensures m <= k < m + |q| && Picked(q, cursor, k) == i
  {
    var f := Picked(q, cursor, m);
    var s := if i >= f then i - f else |q| + i - f;
    Shifted(q, cursor, m, s);
    k := m + s;
  }

  /** Any `n` consecutive cycles on a fixed queue of `n` pick every place exactly once. */
  lemma EachExactlyOnce(q: seq<Candidate>, cursor: string, m: nat, i: nat)
    requires q != [] && Fair(q) && i < |q|
    ensures exists k :: m <= k < m + |q| && Picked(q, cursor, k) == i
    ensures forall k, l :: m <= k < l < m + |q| ==> Picked(q, cursor, k) != Picked(q, cursor, l)
  {
    var k := EachOnce(q, cursor, m, i);
    forall k, l | m <= k < l < m + |q| ensures Picked(q, cursor, k) != Picked(q, cursor, l) {
      NoneTwice(q, cursor, m, k, l);
    }
  }

  /** Fewer than `n` cycles later the pick has moved on by that many places. */
  lemma {:induction false} Shifted(q: seq<Candidate>, cursor: string, m: nat, s: nat)
    requires q != [] && Fair(q) && s < |q|
    ensures Picked(q, cursor, m + s) ==
      if Picked(q, cursor, m) + s < |q| then Picked(q, cursor, m) + s else Picked(q, cursor, m) + s - |q|
  {
    if s > 0 {
      Shifted(q, cursor, m, s - 1);
      var p := Picked(q, cursor, m + (s - 1));
      assert Picked(q, cursor, m + s) == Pick(q, Key(q[p]));
      Rotates(q, p);
    }
  }

  // ------------------------------------------------------------------------ cycles

  /** What filesystem `d` is given in cycle `k` of a fixed inventory. */
  ghost function PickedIn(candidates: seq<Candidate>, d: nat, cursor: string, k: nat): Candidate
    requires d in Devices(candidates)
  {
    QueueMembers(candidates, d);
    var q := Queue(candidates, d);
    q[Picked(q, cursor, k)]
  }

  lemma FirstPick(candidates: seq<Candidate>, d: nat, cursor: string)
    requires d in Devices(candidates)
    ensures PickedIn(candidates, d, cursor, 0) == Choice(candidates, d, cursor)
  {
  }

  lemma NextPick(candidates: seq<Candidate>, d: nat, cursor: string, k: nat)
    requires d in Devices(candidates) && k > 0
    ensures PickedIn(candidates, d, cursor, k) == Choice(candidates, d, Key(PickedIn(candidates, d, cursor, k - 1)))
  {
    QueueMembers(candidates, d);
  }

  /** In cycle `k` every filesystem got its pick and nothing else was selected. */
  ghost predicate Round(candidates: seq<Candidate>, cursors: map<nat, string>, k: nat, picks: seq<Candidate>)
  {
    && (forall c :: c in picks ==> c.device in Devices(candidates) && c == PickedIn(candidates, c.device, At(cursors, c.device), k))
    && (forall d :: d in Devices(candidates) ==> PickedIn(candidates, d, At(cursors, d), k) in picks)
  }

  ghost predicate CursorsAfter(candidates: seq<Candidate>, cursors: map<nat, string>, k: nat, last: map<nat, string>)
  {
    if k == 0 then last == cursors
    else forall d :: d in Devices(candidates) ==> At(last, d) == Key(PickedIn(candidates, d, At(cursors, d), k - 1))
  }

  lemma OneRound(candidates: seq<Candidate>, cursors: map<nat, string>, k: nat, before: map<nat, string>, last: map<nat, string>,
                 devices: seq<nat>, selected: seq<Candidate>)
    requires CursorsAfter(candidates, cursors, k, before)
    requires |selected| == |devices| && forall d :: d in devices <==> d in Devices(candidates)
    requires forall i :: 0 <= i < |devices| ==> Served(candidates, devices[i], before, last, selected[i])
    ensures Round(candidates, cursors, k, selected) && CursorsAfter(candidates, cursors, k + 1, last)
  {
    forall i | 0 <= i < |devices|
      ensures devices[i] in Devices(candidates) && selected[i] == PickedIn(candidates, devices[i], At(cursors, devices[i]), k)
    {
      assert Served(candidates, devices[i], before, last, selected[i]);
      if k == 0 { FirstPick(candidates, devices[i], At(cursors, devices[i])); }
      else { NextPick(candidates, devices[i], At(cursors, devices[i]), k); }
    }
    forall d | d in Devices(candidates)
      ensures PickedIn(candidates, d, At(cursors, d), k) in selected
      ensures At(last, d) == Key(PickedIn(candidates, d, At(cursors, d), k))
    {
      var i :| 0 <= i < |devices| && devices[i] == d;
      assert selected[i] in selected;
    }
  }

  method Cycle(s: Selector, candidates: seq<Candidate>, ghost cursors: map<nat, string>, ghost k: nat) returns (selected: seq<Candidate>)
    requires CursorsAfter(candidates, cursors, k, s.last)
    modifies s
    ensures Round(candidates, cursors, k, selected) && CursorsAfter(candidates, cursors, k + 1, s.last)
  {
    ghost var before, devices := s.last, [];
    selected, devices := s.Next(candidates);
    OneRound(candidates, cursors, k, before, s.last, devices, selected);
  }

  ghost predicate Rounds(candidates: seq<Candidate>, cursors: map<nat, string>, picks: seq<seq<Candidate>>)
  {
    picks == [] || (var n := |picks| - 1; Rounds(candidates, cursors, picks[..n]) && Round(candidates, cursors, n, picks[n]))
  }

  lemma {:induction false} RoundOf(candidates: seq<Candidate>, cursors: map<nat, string>, picks: seq<seq<Candidate>>, k: nat)
    requires Rounds(candidates, cursors, picks) && k < |picks|
    ensures Round(candidates, cursors, k, picks[k])
  {
    var n := |picks| - 1;
    if k < n {
      RoundOf(candidates, cursors, picks[..n], k);
      assert picks[..n][k] == picks[k];
    }
  }

  lemma RoundsOn(candidates: seq<Candidate>, cursors: map<nat, string>, picks: seq<seq<Candidate>>, selected: seq<Candidate>)
    requires Rounds(candidates, cursors, picks) && Round(candidates, cursors, |picks|, selected)
    ensures Rounds(candidates, cursors, picks + [selected])
  {
    assert (picks + [selected])[..|picks|] == picks;
  }

  method CycleOn(s: Selector, candidates: seq<Candidate>, picks: seq<seq<Candidate>>, ghost cursors: map<nat, string>)
    returns (more: seq<seq<Candidate>>)
    requires CursorsAfter(candidates, cursors, |picks|, s.last) && Rounds(candidates, cursors, picks)
    modifies s
    ensures |more| == |picks| + 1 && CursorsAfter(candidates, cursors, |more|, s.last) && Rounds(candidates, cursors, more)
  {
    var selected := Cycle(s, candidates, cursors, |picks|);
    RoundsOn(candidates, cursors, picks, selected);
    more := picks + [selected];
  }

  /** Any number of cycles over a fixed inventory: `EachExactlyOnce` and `QueueIsFair`
      say what the picks of each filesystem then are. */
  method RunCycles(s: Selector, candidates: seq<Candidate>, rounds: nat) returns (picks: seq<seq<Candidate>>)
    modifies s
    ensures |picks| == rounds && Rounds(candidates, old(s.last), picks)
  {
    ghost var cursors := s.last;
    picks := [];
    for k := 0 to rounds
      invariant |picks| == k && CursorsAfter(candidates, cursors, |picks|, s.last) && Rounds(candidates, cursors, picks)
    {
      picks := CycleOn(s, candidates, picks, cursors);
    }
  }

  lemma InRound(candidates: seq<Candidate>, cursors: map<nat, string>, k: nat, picks: seq<Candidate>, c: Candidate, i: nat)
    requires Round(candidates, cursors, k, picks) && c.device in Devices(candidates)
    requires var q := Queue(candidates, c.device); i < |q| && q[i] == c && Fair(q)
    ensures c in picks <==> Picked(Queue(candidates, c.device), At(cursors, c.device), k) == i
  {
    var q, d := Queue(candidates, c.device), c.device;
    var p := Picked(q, At(cursors, d), k);
    assert PickedIn(candidates, d, At(cursors, d), k) == q[p];
    FairPlaces(q, p, i);
  }

  lemma FairPlaces(q: seq<Candidate>, i: nat, j: nat)
    requires Fair(q) && i < |q| && j < |q|
    ensures q[i] == q[j] <==> i == j
  {
    if i < j { assert Less(Key(q[i]), Key(q[j])); } else if j < i { assert Less(Key(q[j]), Key(q[i])); }
  }

  /** With NUL-free names and no candidate listed twice, any run of as many cycles as
      its filesystem has candidates selects a candidate exactly once. */
  lemma SelectedExactlyOnce(candidates: seq<Candidate>, cursors: map<nat, string>, picks: seq<seq<Candidate>>, m: nat, c: Candidate)
    requires AllNulFree(candidates) && (forall x :: multiset(candidates)[x] <= 1) && c in candidates
    requires Rounds(candidates, cursors, picks) && m + |Queue(candidates, c.device)| <= |picks|
    ensures exists k :: m <= k < m + |Queue(candidates, c.device)| && c in picks[k]
    ensures forall k, l :: m <= k < l < m + |Queue(candidates, c.device)| ==> !(c in picks[k] && c in picks[l])
  {
    var d, q := c.device, Queue(candidates, c.device);
    QueueIsFair(candidates, d);
    QueueMembers(candidates, d);
    var i :| 0 <= i < |q| && q[i] == c;
    var k := EachOnce(q, At(cursors, d), m, i);
    RoundOf(candidates, cursors, picks, k);
    InRound(candidates, cursors, k, picks[k], c, i);
    forall k, l | m <= k < l < m + |q| ensures !(c in picks[k] && c in picks[l]) {
      RoundOf(candidates, cursors, picks, k);
      RoundOf(candidates, cursors, picks, l);
      InRound(candidates, cursors, k, picks[k], c, i);
      InRound(candidates, cursors, l, picks[l], c, i);
      NoneTwice(q, At(cursors, d), m, k, l);
    }
  }
}
