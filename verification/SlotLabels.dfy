/** The stable slot inventory (control-plane/internal/api/resources_media_state.go,
    `stableSlotLabels` and `removeLoadedLabelsFromSlots`): one label per changer slot,
    from slot assignments first, then from the previous inventory, then, when there is
    none, by filling free slots in order. */
module SlotLabels {
  import opened Bytes
  import Collections
  import Utf8

  const FREE := "-"

  /** A cartridge by its shared label `tag` and, if any, its assigned slot address. */
  datatype Cartridge = Cartridge(tag: string, slot: Option<int>)

  /** The labels so far, and the set of labels that have a slot. */
  datatype Plan = Plan(labels: seq<string>, placed: set<string>)

  predicate Real(l: string) { l != "" && l != FREE }

  // ------------------------------------------------------------- the three passes

  function Blank(n: nat): (s: seq<string>)
    ensures |s| == n && forall i :: 0 <= i < n ==> s[i] == ""
  {
    if n == 0 then [] else Blank(n - 1) + [""]
  }

  /** One cartridge in the first pass: to its assigned slot, if that is in range and
      not taken by another label. */
  function Place(p: Plan, c: Cartridge, start: int): (r: Plan)
    ensures |r.labels| == |p.labels|
  {
    if c.slot.None? || c.tag == "" || c.tag in p.placed then p
    else
      var idx := c.slot.value - start;
      if idx < 0 || idx >= |p.labels| then p
      else if p.labels[idx] == "" || p.labels[idx] == FREE || p.labels[idx] == c.tag
      then Plan(p.labels[idx := c.tag], p.placed + {c.tag})
      else p
  }

  function Assign(n: nat, start: int, carts: seq<Cartridge>, k: nat): (r: Plan)
    requires k <= |carts|
    ensures |r.labels| == n
  {
    if k == 0 then Plan(Blank(n), {}) else Place(Assign(n, start, carts, k - 1), carts[k - 1], start)
  }

  /** One slot in the second pass: a slot still blank keeps its previous label if that
      is active and has no slot yet. */
  function Keep(p: Plan, i: nat, was: string, active: set<string>): (r: Plan)
    requires i < |p.labels|
    ensures |r.labels| == |p.labels|
  {
    if p.labels[i] != "" then p
    else
      var l := Utf8.Trim(was);
      if l != "" && l in active && l !in p.placed then Plan(p.labels[i := l], p.placed + {l})
      else p.(labels := p.labels[i := FREE])
  }

  function Carry(p: Plan, existing: seq<string>, active: set<string>, k: nat): (r: Plan)
    requires k <= |p.labels| && k <= |existing|
    ensures |r.labels| == |p.labels|
  {
    if k == 0 then p else Keep(Carry(p, existing, active, k - 1), k - 1, existing[k - 1], active)
  }

  function Free(labels: seq<string>, k: nat): (r: seq<string>)
    requires k <= |labels|
    ensures |r| == |labels|
    ensures forall i :: 0 <= i < |labels| ==> r[i] == if i < k && labels[i] == "" then FREE else labels[i]
  {
    if k == 0 then labels
    else
      var f := Free(labels, k - 1);
      if f[k - 1] == "" then f[k - 1 := FREE] else f
  }

  /** The first free slot from `next` on. */
  function NextFree(labels: seq<string>, next: nat): (r: nat)
    requires next <= |labels|
    ensures next <= r <= |labels| && (r < |labels| ==> labels[r] == FREE)
    ensures forall i :: next <= i < r ==> labels[i] != FREE
    decreases |labels| - next
  {
    if next < |labels| && labels[next] != FREE then NextFree(labels, next + 1) else next
  }

  /** One cartridge in the third pass: the next free slot. */
  function Settle(p: Plan, c: Cartridge, next: nat): (r: (Plan, nat))
    requires next <= |p.labels|
    ensures |r.0.labels| == |p.labels| && next <= r.1 <= |p.labels|
  {
    if c.slot.Some? || c.tag == "" || c.tag in p.placed then (p, next)
    else
      var at := NextFree(p.labels, next);
      if at >= |p.labels| then (p, at)
      else (Plan(p.labels[at := c.tag], p.placed + {c.tag}), at)
  }

  function Spread(p: Plan, carts: seq<Cartridge>, k: nat): (r: (Plan, nat))
    requires k <= |carts|
    ensures |r.0.labels| == |p.labels| && r.1 <= |p.labels|
  {
    if k == 0 then (p, 0)
    else
      var q := Spread(p, carts, k - 1);
      Settle(q.0, carts[k - 1], q.1)
  }

  function Min(a: nat, b: nat): nat { if a < b then a else b }

  function Settled(n: nat, start: int, existing: seq<string>, carts: seq<Cartridge>, active: set<string>): (r: Plan)
    ensures |r.labels| == n
  {
    var kept := Carry(Assign(n, start, carts, |carts|), existing, active, Min(n, |existing|));
    kept.(labels := Free(kept.labels, n))
  }

  function Stable(n: nat, start: int, existing: seq<string>, carts: seq<Cartridge>, active: set<string>): (r: seq<string>)
    ensures |r| == n
  {
    var p := Settled(n, start, existing, carts, active);
    if existing != [] then p.labels else Spread(p, carts, |carts|).0.labels
  }

  // ------------------------------------------------------------ the code as written

  method StableSlotLabels(n: nat, start: int, existing: seq<string>, carts: seq<Cartridge>, active: set<string>)
    returns (labels: array<string>)
    ensures fresh(labels) && labels[..] == Stable(n, start, existing, carts, active)
  {
    labels := new string[n](_ => "");
    assert labels[..] == Blank(n);
    var placed := AssignAll(labels, start, carts);
    placed := CarryAll(labels, existing, active, placed);
    FreeAll(labels);
    if existing == [] {
      SpreadAll(labels, carts, placed);
    }
  }

  method AssignAll(labels: array<string>, start: int, carts: seq<Cartridge>) returns (placed: set<string>)
    requires labels[..] == Blank(labels.Length)
    modifies labels
    ensures Plan(labels[..], placed) == Assign(labels.Length, start, carts, |carts|)
  {
    placed := {};
    for k := 0 to |carts|
      invariant Plan(labels[..], placed) == Assign(labels.Length, start, carts, k)
    {
      var c := carts[k];
      if c.slot.None? || c.tag == "" || c.tag in placed { continue; }
      var idx := c.slot.value - start;
      if idx < 0 || idx >= labels.Length { continue; }
      if labels[idx] == "" || labels[idx] == FREE || labels[idx] == c.tag {
        labels[idx] := c.tag;
        placed := placed + {c.tag};
      }
    }
  }

  method CarryAll(labels: array<string>, existing: seq<string>, active: set<string>, placed0: set<string>) returns (placed: set<string>)
    modifies labels
    ensures Plan(labels[..], placed) == Carry(Plan(old(labels[..]), placed0), existing, active, Min(labels.Length, |existing|))
  {
    placed := placed0;
    var i := 0;
    while i < labels.Length && i < |existing|
      invariant 0 <= i <= Min(labels.Length, |existing|)
      invariant Plan(labels[..], placed) == Carry(Plan(old(labels[..]), placed0), existing, active, i)
    {
      if labels[i] == "" {
        var l := Utf8.Trim(existing[i]);
        if l != "" && l in active && l !in placed {
          labels[i] := l;
          placed := placed + {l};
        } else {
          labels[i] := FREE;
        }
      }
      i := i + 1;
    }
  }

  method FreeAll(labels: array<string>)
    modifies labels
    ensures labels[..] == Free(old(labels[..]), labels.Length)
  {
    for i := 0 to labels.Length
      invariant labels[..] == Free(old(labels[..]), i)
    {
      if labels[i] == "" { labels[i] := FREE; }
    }
  }

  method SpreadAll(labels: array<string>, carts: seq<Cartridge>, placed0: set<string>)
    modifies labels
    ensures labels[..] == Spread(Plan(old(labels[..]), placed0), carts, |carts|).0.labels
  {
    var placed, next := placed0, 0;
    for k := 0 to |carts|
      invariant next <= labels.Length
      invariant (Plan(labels[..], placed), next) == Spread(Plan(old(labels[..]), placed0), carts, k)
    {
      var c := carts[k];
      if c.slot.Some? || c.tag == "" || c.tag in placed { continue; }
      ghost var first := next;
      while next < labels.Length && labels[next] != FREE
        invariant first <= next <= labels.Length
        invariant NextFree(labels[..], first) == NextFree(labels[..], next)
      {
        next := next + 1;
      }
      if next < labels.Length {
        labels[next] := c.tag;
        placed := placed + {c.tag};
      }
    }
  }

  /** Slots of loaded cartridges are shown free. */
  method RemoveLoaded(labels: array<string>, loaded: set<string>)
    modifies labels
    ensures forall i :: 0 <= i < labels.Length ==>
      labels[i] == if Utf8.Trim(old(labels[i])) in loaded then FREE else old(labels[i])
  {
    if loaded == {} { return; }
    for i := 0 to labels.Length
      invariant forall j :: 0 <= j < i ==> labels[j] == if Utf8.Trim(old(labels[j])) in loaded then FREE else old(labels[j])
      invariant forall j :: i <= j < labels.Length ==> labels[j] == old(labels[j])
    {
      if Utf8.Trim(labels[i]) in loaded { labels[i] := FREE; }
    }
  }

  // ------------------------------------------------------------------- properties

  /** No label has two slots, and `placed` is exactly the labels that have one. */
  ghost predicate Consistent(p: Plan)
  {
    && (forall i, j :: 0 <= i < j < |p.labels| && Real(p.labels[i]) ==> p.labels[i] != p.labels[j])
    && (forall l :: Real(l) ==> (l in p.placed <==> l in p.labels))
  }

  lemma PutKeeps(p: Plan, i: nat, l: string)
    requires Consistent(p) && i < |p.labels| && !Real(p.labels[i]) && l !in p.placed && l != ""
    ensures Consistent(Plan(p.labels[i := l], p.placed + {l}))
  {
    var q := p.labels[i := l];
    assert q[i] == l;
    forall x | Real(x) ensures x in p.placed + {l} <==> x in q {
      if x in p.labels {
        var j :| 0 <= j < |p.labels| && p.labels[j] == x;
        assert q[j] == x;
      }
    }
  }

  lemma FreeKeeps(p: Plan, i: nat)
    requires Consistent(p) && i < |p.labels| && !Real(p.labels[i])
    ensures Consistent(p.(labels := p.labels[i := FREE]))
  {
    var q := p.labels[i := FREE];
    forall x | Real(x) && x in p.labels ensures x in q {
      var j :| 0 <= j < |p.labels| && p.labels[j] == x;
      assert q[j] == x;
    }
  }

  lemma {:induction false} AssignConsistent(n: nat, start: int, carts: seq<Cartridge>, k: nat)
    requires k <= |carts|
    ensures Consistent(Assign(n, start, carts, k))
  {
    if k > 0 {
      AssignConsistent(n, start, carts, k - 1);
      var p, c := Assign(n, start, carts, k - 1), carts[k - 1];
      if Place(p, c, start) != p { PutKeeps(p, c.slot.value - start, c.tag); }
    }
  }

  lemma {:induction false} CarryConsistent(p: Plan, existing: seq<string>, active: set<string>, k: nat)
    requires k <= |p.labels| && k <= |existing| && Consistent(p)
    ensures Consistent(Carry(p, existing, active, k))
  {
    if k > 0 {
      CarryConsistent(p, existing, active, k - 1);
      var q, l := Carry(p, existing, active, k - 1), Utf8.Trim(existing[k - 1]);
      if q.labels[k - 1] == "" {
        if l != "" && l in active && l !in q.placed { PutKeeps(q, k - 1, l); } else { FreeKeeps(q, k - 1); }
      }
    }
  }

  lemma FreeAllConsistent(p: Plan)
    requires Consistent(p)
    ensures Consistent(p.(labels := Free(p.labels, |p.labels|)))
  {
    var q := Free(p.labels, |p.labels|);
    forall x | Real(x) ensures x in p.labels <==> x in q {
      if x in p.labels {
        var j :| 0 <= j < |p.labels| && p.labels[j] == x;
        assert q[j] == x;
      }
    }
  }

  lemma SettledConsistent(n: nat, start: int, existing: seq<string>, carts: seq<Cartridge>, active: set<string>)
    ensures Consistent(Settled(n, start, existing, carts, active))
  {
    var a := Assign(n, start, carts, |carts|);
    AssignConsistent(n, start, carts, |carts|);
    CarryConsistent(a, existing, active, Min(n, |existing|));
    FreeAllConsistent(Carry(a, existing, active, Min(n, |existing|)));
  }

  lemma {:induction false} SpreadConsistent(p: Plan, carts: seq<Cartridge>, k: nat)
    requires k <= |carts| && Consistent(p)
    ensures Consistent(Spread(p, carts, k).0)
  {
    if k > 0 {
      SpreadConsistent(p, carts, k - 1);
      var q, c := Spread(p, carts, k - 1), carts[k - 1];
      if Settle(q.0, c, q.1).0 != q.0 { PutKeeps(q.0, NextFree(q.0.labels, q.1), c.tag); }
    }
  }

  function Tags(carts: seq<Cartridge>): set<string> { set c | c in carts :: c.tag }

  ghost predicate Among(labels: seq<string>, known: set<string>)
  {
    forall i :: 0 <= i < |labels| && Real(labels[i]) ==> labels[i] in known
  }

  lemma {:induction false} AssignAmong(n: nat, start: int, carts: seq<Cartridge>, k: nat)
    requires k <= |carts|
    ensures Among(Assign(n, start, carts, k).labels, Tags(carts)) && Assign(n, start, carts, k).placed <= Tags(carts)
  {
    if k > 0 {
      AssignAmong(n, start, carts, k - 1);
      assert carts[k - 1] in carts;
    }
  }

  lemma {:induction false} CarryAmong(p: Plan, existing: seq<string>, active: set<string>, k: nat, known: set<string>)
    requires k <= |p.labels| && k <= |existing| && Among(p.labels, known) && active <= known
    ensures Among(Carry(p, existing, active, k).labels, known)
  {
    if k > 0 { CarryAmong(p, existing, active, k - 1, known); }
  }

  lemma {:induction false} SpreadAmong(p: Plan, carts: seq<Cartridge>, k: nat, known: set<string>)
    requires k <= |carts| && Among(p.labels, known) && Tags(carts) <= known
    ensures Among(Spread(p, carts, k).0.labels, known)
    ensures p.placed <= known ==> Spread(p, carts, k).0.placed <= known
  {
    if k > 0 {
      SpreadAmong(p, carts, k - 1, known);
      assert carts[k - 1] in carts;
    }
  }

  /** The third pass only turns free slots into labels. */
  lemma {:induction false} SpreadKeeps(p: Plan, carts: seq<Cartridge>, k: nat, i: nat)
    requires k <= |carts| && i < |p.labels| && p.labels[i] != ""
    ensures Spread(p, carts, k).0.labels[i] != ""
    ensures p.labels[i] != FREE ==> Spread(p, carts, k).0.labels[i] == p.labels[i]
  {
    if k > 0 { SpreadKeeps(p, carts, k - 1, i); }
  }

  /** The second pass only fills blank slots. */
  lemma {:induction false} CarryKeeps(p: Plan, existing: seq<string>, active: set<string>, k: nat, i: nat)
    requires k <= |p.labels| && k <= |existing| && i < |p.labels| && p.labels[i] != ""
    ensures Carry(p, existing, active, k).labels[i] == p.labels[i]
  {
    if k > 0 { CarryKeeps(p, existing, active, k - 1, i); }
  }

  ghost predicate NoRepeat(r: seq<string>)
  {
    forall i, j :: 0 <= i < j < |r| && r[i] != FREE ==> r[i] != r[j]
  }

  /** One entry per slot, no label twice, only labels that are active or belong to a
      cartridge. */
  lemma Inventory(n: nat, start: int, existing: seq<string>, carts: seq<Cartridge>, active: set<string>)
    ensures var r := Stable(n, start, existing, carts, active);
      && |r| == n && NoRepeat(r)
      && (forall i :: 0 <= i < n ==> r[i] == FREE || (r[i] != "" && r[i] in active + Tags(carts)))
  {
    var p, known := Settled(n, start, existing, carts, active), active + Tags(carts);
    SettledConsistent(n, start, existing, carts, active);
    SpreadConsistent(p, carts, |carts|);
    AssignAmong(n, start, carts, |carts|);
    CarryAmong(Assign(n, start, carts, |carts|), existing, active, Min(n, |existing|), known);
    SpreadAmong(p, carts, |carts|, known);
    forall i | 0 <= i < n ensures Stable(n, start, existing, carts, active)[i] != "" { SpreadKeeps(p, carts, |carts|, i); }
  }

  // -------------------------------------------------------- where a label comes from

  ghost predicate AssignedTo(carts: seq<Cartridge>, l: string, address: int)
  {
    exists c :: c in carts && c.tag == l && c.slot == Some(address)
  }

  ghost predicate Unassigned(carts: seq<Cartridge>, l: string)
  {
    exists c :: c in carts && c.tag == l && c.slot.None?
  }

  lemma {:induction false} AssignOrigin(n: nat, start: int, carts: seq<Cartridge>, k: nat, i: nat)
    requires k <= |carts| && i < n && Assign(n, start, carts, k).labels[i] != ""
    ensures AssignedTo(carts, Assign(n, start, carts, k).labels[i], start + i)
  {
    var p, c := Assign(n, start, carts, k - 1), carts[k - 1];
    assert c in carts;
    if Place(p, c, start).labels[i] == p.labels[i] { AssignOrigin(n, start, carts, k - 1, i); }
  }

  lemma {:induction false} CarryOrigin(p: Plan, existing: seq<string>, active: set<string>, k: nat, i: nat)
    requires k <= |p.labels| && k <= |existing| && i < |p.labels|
    ensures var l := Carry(p, existing, active, k).labels[i];
      l == p.labels[i] || l == FREE || (i < |existing| && l == Utf8.Trim(existing[i]) && l in active)
  {
    if k > 0 { CarryOrigin(p, existing, active, k - 1, i); }
  }

  lemma {:induction false} SpreadOrigin(p: Plan, carts: seq<Cartridge>, k: nat, i: nat)
    requires k <= |carts| && i < |p.labels|
    ensures var l := Spread(p, carts, k).0.labels[i]; l == p.labels[i] || Unassigned(carts, l)
  {
    if k > 0 {
      SpreadOrigin(p, carts, k - 1, i);
      assert carts[k - 1] in carts;
    }
  }

  /** A shown label is assigned to the slot that shows it, or was there before and is
      active, or, with no previous inventory, belongs to an unassigned cartridge. */
  lemma ShownOrigin(n: nat, start: int, existing: seq<string>, carts: seq<Cartridge>, active: set<string>, i: nat)
    requires i < n
    ensures var l := Stable(n, start, existing, carts, active)[i];
      || l == FREE || AssignedTo(carts, l, start + i)
      || (i < |existing| && l == Utf8.Trim(existing[i]) && l in active)
      || (existing == [] && Unassigned(carts, l))
  {
    var a, p := Assign(n, start, carts, |carts|), Settled(n, start, existing, carts, active);
    if a.labels[i] != "" { AssignOrigin(n, start, carts, |carts|, i); }
    CarryOrigin(a, existing, active, Min(n, |existing|), i);
    SpreadOrigin(p, carts, |carts|, i);
  }

  // ------------------------------------------------------------ assigned cartridges

  /** Cartridge `k` has a valid slot that, like its label, no other cartridge has. */
  ghost predicate OwnsSlot(carts: seq<Cartridge>, k: nat, n: nat, start: int)
  {
    && k < |carts| && Real(carts[k].tag) && carts[k].slot.Some? && start <= carts[k].slot.value < start + n
    && forall j :: 0 <= j < |carts| && j != k ==> carts[j].tag != carts[k].tag && carts[j].slot != carts[k].slot
  }

  lemma {:induction false} NotYet(n: nat, start: int, carts: seq<Cartridge>, k: nat, j: nat)
    requires OwnsSlot(carts, k, n, start) && j <= k
    ensures var p := Assign(n, start, carts, j); p.labels[carts[k].slot.value - start] == "" && carts[k].tag !in p.placed
  {
    if j > 0 { NotYet(n, start, carts, k, j - 1); }
  }

  lemma {:induction false} Stays(n: nat, start: int, carts: seq<Cartridge>, k: nat, j: nat)
    requires OwnsSlot(carts, k, n, start) && k < j <= |carts|
    ensures Assign(n, start, carts, j).labels[carts[k].slot.value - start] == carts[k].tag
  {
    if j == k + 1 { NotYet(n, start, carts, k, k); } else { Stays(n, start, carts, k, j - 1); }
  }

  /** A cartridge that alone has its valid slot is shown there. */
  lemma AtOwnSlot(n: nat, start: int, existing: seq<string>, carts: seq<Cartridge>, active: set<string>, k: nat)
    requires OwnsSlot(carts, k, n, start)
    ensures Stable(n, start, existing, carts, active)[carts[k].slot.value - start] == carts[k].tag
  {
    var idx := carts[k].slot.value - start;
    Stays(n, start, carts, k, |carts|);
    CarryKeeps(Assign(n, start, carts, |carts|), existing, active, Min(n, |existing|), idx);
    SpreadKeeps(Settled(n, start, existing, carts, active), carts, |carts|, idx);
  }

  // ---------------------------------------------------------- unassigned cartridges

  lemma {:induction false} DistinctCount(s: seq<string>)
    requires forall i, j :: 0 <= i < j < |s| ==> s[i] != s[j]
    ensures |set x | x in s| == |s|
  {
    if s != [] {
      var front, last := s[..|s| - 1], s[|s| - 1];
      DistinctCount(front);
      assert (set x | x in s) == (set x | x in front) + {last};
    }
  }

  lemma {:induction false} TagsCount(carts: seq<Cartridge>)
    ensures |Tags(carts)| <= |carts|
  {
    if carts != [] {
      var front, last := carts[..|carts| - 1], carts[|carts| - 1];
      TagsCount(front);
      assert Tags(carts) == Tags(front) + {last.tag};
    }
  }

  /** Slots all taken, and one more label to place: more cartridges than slots. */
  lemma AllTaken(p: Plan, carts: seq<Cartridge>, tag: string)
    requires Consistent(p) && p.placed <= Tags(carts) && tag in Tags(carts) && tag !in p.placed
    requires forall i :: 0 <= i < |p.labels| ==> Real(p.labels[i])
    ensures |p.labels| < |carts|
  {
    var used := set x | x in p.labels;
    DistinctCount(p.labels);
    assert tag !in used by {
      if Real(tag) { assert tag !in p.labels; }
    }
    forall x | x in used ensures x in p.placed { assert Real(x); }
    Collections.SubsetCount(used + {tag}, Tags(carts));
    TagsCount(carts);
  }

  /** With room for every cartridge, a label without a slot finds a free one. */
  lemma RoomLeft(p: Plan, carts: seq<Cartridge>, tag: string)
    requires Consistent(p) && p.placed <= Tags(carts) && tag in Tags(carts) && tag !in p.placed && |carts| <= |p.labels|
    requires forall i :: 0 <= i < |p.labels| ==> p.labels[i] != ""
    ensures FREE in p.labels
  {
    if forall i :: 0 <= i < |p.labels| ==> Real(p.labels[i]) {
      AllTaken(p, carts, tag);
    }
  }

  lemma {:induction false} NoneFreeBefore(p: Plan, carts: seq<Cartridge>, k: nat, i: nat)
    requires k <= |carts| && i < Spread(p, carts, k).1 && FREE !in Tags(carts)
    ensures Spread(p, carts, k).0.labels[i] != FREE
  {
    if k > 0 {
      var q, c := Spread(p, carts, k - 1), carts[k - 1];
      assert c in carts;
      if i < q.1 { NoneFreeBefore(p, carts, k - 1, i); }
    }
  }

  lemma {:induction false} SpreadPlaces(p: Plan, carts: seq<Cartridge>, k: nat, j: nat)
    requires Consistent(p) && p.placed <= Tags(carts) && Among(p.labels, Tags(carts)) && |carts| <= |p.labels| && FREE !in Tags(carts)
    requires forall i :: 0 <= i < |p.labels| ==> p.labels[i] != ""
    requires j < k <= |carts| && carts[j].slot.None? && carts[j].tag != ""
    ensures carts[j].tag in Spread(p, carts, k).0.placed
  {
    if j < k - 1 {
      SpreadPlaces(p, carts, k - 1, j);
    } else {
      var q, c := Spread(p, carts, j), carts[j];
      assert c in carts;
      if c.tag !in q.0.placed {
        SpreadConsistent(p, carts, j);
        SpreadAmong(p, carts, j, Tags(carts));
        forall i | 0 <= i < |p.labels| ensures q.0.labels[i] != "" { SpreadKeeps(p, carts, j, i); }
        RoomLeft(q.0, carts, c.tag);
        forall i | 0 <= i < q.1 ensures q.0.labels[i] != FREE { NoneFreeBefore(p, carts, j, i); }
      }
    }
  }

  /** With no previous inventory and room for all, every unassigned cartridge gets a
      slot. */
  lemma UnassignedIsPlaced(n: nat, start: int, carts: seq<Cartridge>, active: set<string>, j: nat)
    requires |carts| <= n && FREE !in Tags(carts)
    requires j < |carts| && carts[j].slot.None? && carts[j].tag != ""
    ensures carts[j].tag in Stable(n, start, [], carts, active)
  {
    var p := Settled(n, start, [], carts, active);
    SettledConsistent(n, start, [], carts, active);
    AssignAmong(n, start, carts, |carts|);
    SpreadPlaces(p, carts, |carts|, j);
    SpreadConsistent(p, carts, |carts|);
    assert carts[j] in carts;
  }

  // -------------------------------------------------------------------- idempotence

  /** The labels in use are what the caller makes them: trimmed, active, not "-". */
  ghost predicate Clean(carts: seq<Cartridge>, active: set<string>)
  {
    && (forall c :: c in carts && c.tag != "" ==> c.tag in active)
    && FREE !in active && (forall l :: l in active ==> Utf8.Trim(l) == l)
  }

  lemma AssignedStaysInResult(n: nat, start: int, existing: seq<string>, carts: seq<Cartridge>, active: set<string>, i: nat)
    requires i < n && FREE !in Tags(carts) && Assign(n, start, carts, |carts|).labels[i] != ""
    ensures Stable(n, start, existing, carts, active)[i] == Assign(n, start, carts, |carts|).labels[i]
  {
    var a := Assign(n, start, carts, |carts|);
    AssignNotFree(n, start, carts, |carts|, i);
    CarryKeeps(a, existing, active, Min(n, |existing|), i);
    SpreadKeeps(Settled(n, start, existing, carts, active), carts, |carts|, i);
  }

  lemma {:induction false} AssignNotFree(n: nat, start: int, carts: seq<Cartridge>, k: nat, i: nat)
    requires k <= |carts| && i < n && FREE !in Tags(carts)
    ensures Assign(n, start, carts, k).labels[i] != FREE
  {
    if k > 0 {
      AssignNotFree(n, start, carts, k - 1, i);
      assert carts[k - 1] in carts;
    }
  }

  /** The result keeps every assignment of `a` and repeats no label. */
  ghost predicate Extends(out: seq<string>, a: Plan, active: set<string>)
  {
    && |out| == |a.labels| && NoRepeat(out) && Consistent(a)
    && (forall i :: 0 <= i < |out| ==> out[i] == FREE || (out[i] != "" && out[i] in active))
    && (forall i :: 0 <= i < |out| && a.labels[i] != "" ==> out[i] == a.labels[i])
  }

  /** A label the result has in a slot that was blank is nowhere before it. */
  lemma NewHere(a: Plan, out: seq<string>, active: set<string>, i: nat)
    requires Extends(out, a, active) && i < |out| && a.labels[i] == "" && out[i] != FREE
    ensures out[i] !in out[..i] && out[i] !in a.labels
  {
    forall j | 0 <= j < |out| ensures a.labels[j] != out[i] {
      if j != i && a.labels[j] != "" { assert out[j] == a.labels[j]; }
    }
  }

  /** `q` is the second pass after `k` slots of a previous result. */
  ghost predicate Reproduced(q: Plan, a: Plan, out: seq<string>, k: nat)
    requires k <= |out| == |a.labels|
  {
    && |q.labels| == |out|
    && (forall i :: 0 <= i < |out| ==> q.labels[i] == if i < k then out[i] else a.labels[i])
    && (forall l :: Real(l) && l in q.placed ==> l in out[..k] || l in a.labels)
  }

  lemma StepReproduces(q: Plan, a: Plan, out: seq<string>, active: set<string>, i: nat)
    requires Extends(out, a, active) && i < |out| && FREE !in active && (forall l :: l in active ==> Utf8.Trim(l) == l)
    requires Reproduced(q, a, out, i)
    ensures Reproduced(Keep(q, i, out[i], active), a, out, i + 1)
  {
    assert out[..i + 1] == out[..i] + [out[i]];
    if a.labels[i] == "" {
      if out[i] == FREE {
        assert Utf8.Trim(FREE) == FREE;
      } else {
        NewHere(a, out, active, i);
      }
    }
  }

  lemma {:induction false} CarryReproduces(a: Plan, out: seq<string>, active: set<string>, k: nat)
    requires Extends(out, a, active) && k <= |out| && FREE !in active && (forall l :: l in active ==> Utf8.Trim(l) == l)
    ensures Reproduced(Carry(a, out, active, k), a, out, k)
  {
    if k > 0 {
      CarryReproduces(a, out, active, k - 1);
      StepReproduces(Carry(a, out, active, k - 1), a, out, active, k - 1);
    }
  }

  /** Running again on its own result, with the same cartridges, changes nothing. */
  lemma Idempotent(n: nat, start: int, existing: seq<string>, carts: seq<Cartridge>, active: set<string>)
    requires Clean(carts, active)
    ensures var r := Stable(n, start, existing, carts, active); Stable(n, start, r, carts, active) == r
  {
    var a, r := Assign(n, start, carts, |carts|), Stable(n, start, existing, carts, active);
    if n > 0 {
      Inventory(n, start, existing, carts, active);
      AssignConsistent(n, start, carts, |carts|);
      forall i | 0 <= i < n && a.labels[i] != "" ensures r[i] == a.labels[i] {
        AssignedStaysInResult(n, start, existing, carts, active, i);
      }
      assert Extends(r, a, active);
      CarryReproduces(a, r, active, n);
    }
  }
}
