/** Slot reservations of one library across create, load, unload, export, import and
    slot expansion (control-plane/internal/api/resources_handler.go); every operation
    runs under the library's slot lock and ends by writing the slot inventory. */
module SlotProtocol {
  import opened Bytes
  import Labels = SlotLabels
  import StringOrder
  import Utf8

  const MAX_SLOTS := 10000

  datatype Lifecycle = Available | Mounted | Imported | Exported | Retired
  datatype Cartridge = Cartridge(state: Lifecycle, slot: Option<int>)
  datatype MountState = Empty | Loaded | Busy | Faulty
  datatype Drive = Drive(state: MountState, cartridge: string)
  datatype Error = InvalidInput | InvalidState | NotFound | AlreadyExists | SlotsFull | SlotLimit | SlotTaken | NotShown | StorageFailed

  predicate MayBecome(from: Lifecycle, to: Lifecycle)
  {
    match from
    case Available => to == Mounted || to == Exported || to == Retired
    case Mounted => to == Available
    case Imported => to == Available
    case Exported => to == Imported
    case Retired => false
  }

  /** No change, one allowed change, or two by way of the imported state. */
  predicate Transits(from: Lifecycle, to: Lifecycle)
  {
    from == to || MayBecome(from, to) || (MayBecome(from, Imported) && MayBecome(Imported, to))
  }

  ghost predicate Moved(before: map<string, Cartridge>, after: map<string, Cartridge>)
  {
    forall id :: id in before ==> id in after && Transits(before[id].state, after[id].state)
  }

  /** A cartridge that holds its slot. */
  predicate Live(c: Cartridge) { c.state != Exported && c.state != Retired }

  /** A cartridge the inventory is made from. */
  predicate Listed(c: Cartridge) { c.state != Exported && c.state != Mounted }

  predicate GoodName(id: string) { Labels.Real(id) && Utf8.Trim(id) == id }

  // ------------------------------------------------------------------- invariants

  ghost predicate HasSlot(c: Cartridge, start: int, slots: int)
  {
    c.slot.Some? && start <= c.slot.value < start + slots
  }

  /** Every live cartridge has a slot in range and no other live one has it. */
  ghost predicate Reserved(carts: map<string, Cartridge>, start: int, slots: int)
  {
    && (forall id :: id in carts && Live(carts[id]) ==> HasSlot(carts[id], start, slots))
    && (forall a, b :: a in carts && b in carts && a != b && Live(carts[a]) && Live(carts[b]) ==> carts[a].slot != carts[b].slot)
  }

  ghost predicate Named(carts: map<string, Cartridge>) { forall id :: id in carts ==> GoodName(id) }

  ghost predicate NoneRetired(carts: map<string, Cartridge>) { forall id :: id in carts ==> carts[id].state != Retired }

  /** What slot `i` may show before the inventory is rewritten: nothing that is a live
      cartridge of another slot. */
  ghost predicate NotMisplaced(carts: map<string, Cartridge>, start: int, i: int, l: string)
  {
    Utf8.Trim(l) == l && (l in carts && Live(carts[l]) ==> carts[l].slot == Some(start + i))
  }

  /** What slot `i` shows afterwards: nothing, or a cartridge of the library that is
      not exported and, if live, reserved that slot. */
  ghost predicate WellShown(carts: map<string, Cartridge>, start: int, i: int, l: string)
  {
    l == Labels.FREE || (l in carts && carts[l].state != Exported && NotMisplaced(carts, start, i, l))
  }

  ghost predicate Tolerable(carts: map<string, Cartridge>, start: int, inventory: seq<string>)
  {
    forall i :: 0 <= i < |inventory| ==> NotMisplaced(carts, start, i, inventory[i])
  }

  ghost predicate Accurate(carts: map<string, Cartridge>, start: int, inventory: seq<string>)
  {
    forall i :: 0 <= i < |inventory| ==> WellShown(carts, start, i, inventory[i])
  }

  /** No other listed cartridge claims the slot of `id`. */
  ghost predicate Alone(carts: map<string, Cartridge>, id: string)
    requires id in carts
  {
    forall o :: o in carts && o != id && Listed(carts[o]) ==> carts[o].slot != carts[id].slot
  }

  /** Every listed cartridge that alone has a slot of the inventory is shown there. */
  ghost predicate Complete(carts: map<string, Cartridge>, start: int, inventory: seq<string>)
  {
    forall id :: id in carts && Listed(carts[id]) && HasSlot(carts[id], start, |inventory|) && Alone(carts, id)
      ==> ShownAt(carts[id], id, start, inventory)
  }

  ghost predicate ShownAt(c: Cartridge, id: string, start: int, inventory: seq<string>)
  {
    c.slot.Some? && 0 <= c.slot.value - start < |inventory| && inventory[c.slot.value - start] == id
  }

  // -------------------------------------------------------------- inventory input

  lemma {:induction false} OnceEach(r: seq<string>)
    requires forall x :: multiset(r)[x] <= 1
    ensures forall i, j :: 0 <= i < j < |r| ==> r[i] != r[j]
  {
    if r != [] {
      StringOrder.TailElements(r);
      OnceEach(r[1..]);
      forall j | 0 < j < |r| ensures r[0] != r[j] {
        assert r[1..][j - 1] in multiset(r[1..]);
      }
    }
  }

  method SortedIds(s: set<string>) returns (r: seq<string>)
    ensures StringOrder.Sorted(r) && (forall x :: x in r <==> x in s)
    ensures forall i, j :: 0 <= i < j < |r| ==> r[i] != r[j]
  {
    r := [];
    var todo := s;
    while todo != {}
      invariant todo <= s && StringOrder.Sorted(r)
      invariant forall x :: multiset(r)[x] == if x in s && x !in todo then 1 else 0
      decreases todo
    {
      var x :| x in todo;
      r := StringOrder.Insert(x, r);
      todo := todo - {x};
    }
    forall x ensures x in r <==> x in s { assert x in r <==> x in multiset(r); }
    OnceEach(r);
  }

  function Entries(ids: seq<string>, carts: map<string, Cartridge>): (r: seq<Labels.Cartridge>)
    requires forall id :: id in ids ==> id in carts
    ensures |r| == |ids| && forall k :: 0 <= k < |ids| ==> r[k] == Labels.Cartridge(ids[k], carts[ids[k]].slot)
  {
    if ids == [] then [] else [Labels.Cartridge(ids[0], carts[ids[0]].slot)] + Entries(ids[1..], carts)
  }

  /** The previous inventory cut or extended to `n` slots; free slots read as blank. */
  function Snapshot(inventory: seq<string>, n: nat): (r: seq<string>)
    ensures inventory == [] ==> r == []
    ensures inventory != [] ==> |r| == n
    ensures forall i :: 0 <= i < |r| ==>
      r[i] == if i < |inventory| && inventory[i] != Labels.FREE then inventory[i] else ""
  {
    if inventory == [] then [] else Cut(inventory, n)
  }

  function Cut(inventory: seq<string>, n: nat): (r: seq<string>)
    ensures |r| == n
    ensures forall i :: 0 <= i < n ==> r[i] == if i < |inventory| && inventory[i] != Labels.FREE then inventory[i] else ""
  {
    if n == 0 then []
    else Cut(inventory, n - 1) + [if n - 1 < |inventory| && inventory[n - 1] != Labels.FREE then inventory[n - 1] else ""]
  }

  // ------------------------------------------------------------ inventory rewriting

  /** The listed cartridges in the inventory's input. */
  ghost predicate Covers(ids: seq<string>, carts: map<string, Cartridge>)
  {
    && (forall id :: id in ids <==> id in carts && Listed(carts[id]))
    && (forall i, j :: 0 <= i < j < |ids| ==> ids[i] != ids[j])
  }

  lemma EntryOf(ids: seq<string>, carts: map<string, Cartridge>, c: Labels.Cartridge)
    requires Covers(ids, carts) && c in Entries(ids, carts)
    ensures c.tag in carts && Listed(carts[c.tag]) && carts[c.tag].slot == c.slot
  {
    var k :| 0 <= k < |ids| && Entries(ids, carts)[k] == c;
    assert ids[k] in ids;
  }

  lemma RewrittenSlot(carts: map<string, Cartridge>, start: int, slots: int, inventory: seq<string>, ids: seq<string>,
                      active: set<string>, n: nat, i: nat)
    requires Reserved(carts, start, slots) && Named(carts) && Tolerable(carts, start, inventory) && Covers(ids, carts)
    requires active == (set id | id in ids) && i < n
    ensures WellShown(carts, start, i, Labels.Stable(n, start, Snapshot(inventory, n), Entries(ids, carts), active)[i])
  {
    var existing, entries := Snapshot(inventory, n), Entries(ids, carts);
    var l := Labels.Stable(n, start, existing, entries, active)[i];
    Labels.ShownOrigin(n, start, existing, entries, active, i);
    if l == Labels.FREE {
    } else if Labels.AssignedTo(entries, l, start + i) {
      var c :| c in entries && c.tag == l && c.slot == Some(start + i);
      EntryOf(ids, carts, c);
    } else if existing == [] {
      var c :| c in entries && c.tag == l && c.slot.None?;
      EntryOf(ids, carts, c);
    } else {
      assert l in ids && l != "";
      assert existing[i] == inventory[i];
      assert NotMisplaced(carts, start, i, inventory[i]);
    }
  }

  lemma OwnEntry(carts: map<string, Cartridge>, start: int, n: nat, ids: seq<string>, k: nat)
    requires Named(carts) && Covers(ids, carts) && k < |ids| && ids[k] in carts
    requires HasSlot(carts[ids[k]], start, n) && Alone(carts, ids[k])
    ensures Labels.OwnsSlot(Entries(ids, carts), k, n, start)
  {
    var entries, id := Entries(ids, carts), ids[k];
    assert GoodName(id);
    forall j | 0 <= j < |entries| && j != k ensures entries[j].tag != id && entries[j].slot != carts[id].slot {
      assert ids[j] in ids && ids[j] != ids[k];
    }
  }

  lemma RewrittenOwn(carts: map<string, Cartridge>, start: int, n: nat, existing: seq<string>, ids: seq<string>,
                     active: set<string>, id: string, stable: seq<string>)
    requires Named(carts) && Covers(ids, carts) && stable == Labels.Stable(n, start, existing, Entries(ids, carts), active)
    requires id in carts && Listed(carts[id]) && HasSlot(carts[id], start, n) && Alone(carts, id)
    ensures ShownAt(carts[id], id, start, stable)
  {
    var k :| 0 <= k < |ids| && ids[k] == id;
    var entries := Entries(ids, carts);
    assert entries[k] == Labels.Cartridge(id, carts[id].slot);
    OwnEntry(carts, start, n, ids, k);
    Labels.AtOwnSlot(n, start, existing, entries, active, k);
  }

  /** What clearing the loaded labels leaves. */
  ghost predicate Cleared(stable: seq<string>, loaded: set<string>, r: seq<string>)
  {
    |r| == |stable| && forall i :: 0 <= i < |r| ==> r[i] == if Utf8.Trim(stable[i]) in loaded then Labels.FREE else stable[i]
  }

  lemma ClearedIsRight(carts: map<string, Cartridge>, start: int, stable: seq<string>, loaded: set<string>, r: seq<string>)
    requires Cleared(stable, loaded, r) && Named(carts)
    requires loaded == set id | id in carts && carts[id].state == Mounted
    ensures Accurate(carts, start, stable) ==> Accurate(carts, start, r)
    ensures Complete(carts, start, stable) ==> Complete(carts, start, r)
  {
    if Complete(carts, start, stable) {
      forall id | id in carts && Listed(carts[id]) && HasSlot(carts[id], start, |r|) && Alone(carts, id)
        ensures ShownAt(carts[id], id, start, r) {
        assert ShownAt(carts[id], id, start, stable) && GoodName(id);
      }
    }
  }

  /** The new inventory from the cartridges and the previous one. */
  method Rewrite(carts: map<string, Cartridge>, start: int, slots: int, inventory: seq<string>) returns (r: seq<string>)
    requires Reserved(carts, start, slots) && Named(carts) && Tolerable(carts, start, inventory)
    ensures |r| == (if slots <= 0 then 1 else slots) && Accurate(carts, start, r)
    ensures Complete(carts, start, r)
  {
    var ids := SortedIds(set id | id in carts && Listed(carts[id]));
    assert Covers(ids, carts);
    var n: nat := if slots <= 0 then 1 else slots;
    var active := set id | id in ids;
    var labels := Labels.StableSlotLabels(n, start, Snapshot(inventory, n), Entries(ids, carts), active);
    ghost var stable := labels[..];
    RewrittenRight(carts, start, slots, inventory, ids, active, n, stable);
    var loaded := set id | id in carts && carts[id].state == Mounted;
    Labels.RemoveLoaded(labels, loaded);
    r := labels[..];
    ClearedIsRight(carts, start, stable, loaded, r);
  }

  lemma RewrittenRight(carts: map<string, Cartridge>, start: int, slots: int, inventory: seq<string>, ids: seq<string>,
                       active: set<string>, n: nat, stable: seq<string>)
    requires Reserved(carts, start, slots) && Named(carts) && Tolerable(carts, start, inventory) && Covers(ids, carts)
    requires active == (set id | id in ids) && n == (if slots <= 0 then 1 else slots)
    requires stable == Labels.Stable(n, start, Snapshot(inventory, n), Entries(ids, carts), active)
    ensures Accurate(carts, start, stable)
    ensures Complete(carts, start, stable)
  {
    forall i | 0 <= i < n ensures WellShown(carts, start, i, stable[i]) {
      RewrittenSlot(carts, start, slots, inventory, ids, active, n, i);
    }
    forall id | id in carts && Listed(carts[id]) && HasSlot(carts[id], start, |stable|) && Alone(carts, id)
      ensures ShownAt(carts[id], id, start, stable)
    {
      RewrittenOwn(carts, start, n, Snapshot(inventory, n), ids, active, id, stable);
    }
  }

  function Occupied(carts: map<string, Cartridge>): set<int>
  {
    set id | id in carts && Live(carts[id]) && carts[id].slot.Some? :: carts[id].slot.value
  }

  lemma NewcomerFits(carts: map<string, Cartridge>, start: int, slots: int, inventory: seq<string>, id: string, slot: int)
    requires Reserved(carts, start, slots) && Named(carts) && Accurate(carts, start, inventory)
    requires GoodName(id) && id !in carts && start <= slot < start + slots && slot !in Occupied(carts)
    ensures var n := carts[id := Cartridge(Available, Some(slot))];
      Reserved(n, start, slots) && Named(n) && Tolerable(n, start, inventory)
  {
    NobodyElse(carts, slot);
    forall i | 0 <= i < |inventory| ensures inventory[i] != id && Utf8.Trim(inventory[i]) == inventory[i] {
      assert WellShown(carts, start, i, inventory[i]);
    }
    TolerableOn(carts, start, inventory, id, Cartridge(Available, Some(slot)));
  }

  lemma NewSlotIsFree(carts: map<string, Cartridge>, start: int, slots: int)
    requires Reserved(carts, start, slots)
    ensures start + slots !in Occupied(carts)
  {
  }

  lemma NobodyElse(carts: map<string, Cartridge>, slot: int)
    requires slot !in Occupied(carts)
    ensures forall o :: o in carts && Live(carts[o]) ==> carts[o].slot != Some(slot)
  {
    forall o | o in carts && Live(carts[o]) && carts[o].slot.Some? ensures carts[o].slot.value != slot {
      assert carts[o].slot.value in Occupied(carts);
    }
  }

  lemma TolerableOn(carts: map<string, Cartridge>, start: int, inventory: seq<string>, id: string, c: Cartridge)
    requires Accurate(carts, start, inventory) && Named(carts) && GoodName(id)
    requires forall i :: 0 <= i < |inventory| ==> inventory[i] != id && Utf8.Trim(inventory[i]) == inventory[i]
    ensures Tolerable(carts[id := c], start, inventory)
  {
    forall i | 0 <= i < |inventory| ensures NotMisplaced(carts[id := c], start, i, inventory[i]) {
      assert WellShown(carts, start, i, inventory[i]);
    }
  }

  lemma ReturnerFits(carts: map<string, Cartridge>, start: int, slots: int, inventory: seq<string>, id: string, slot: int)
    requires Reserved(carts, start, slots) && Named(carts) && Accurate(carts, start, inventory)
    requires id in carts && carts[id].state == Exported && start <= slot < start + slots && GoodName(id)
    requires forall o :: o in carts && o != id && Live(carts[o]) ==> carts[o].slot != Some(slot)
    ensures var n := carts[id := Cartridge(Available, Some(slot))];
      Reserved(n, start, slots) && Named(n) && Tolerable(n, start, inventory)
    ensures slot !in Occupied(carts)
  {
    forall i | 0 <= i < |inventory| ensures inventory[i] != id && Utf8.Trim(inventory[i]) == inventory[i] {
      assert WellShown(carts, start, i, inventory[i]);
    }
    TolerableOn(carts, start, inventory, id, Cartridge(Available, Some(slot)));
  }

  // ----------------------------------------------------------------------- states

  /** The slot labels in the shared files are empty before the first write. */
  datatype Shelf = Shelf(slots: int, cartridges: map<string, Cartridge>, drives: map<string, Drive>, inventory: seq<string>)

  ghost predicate Inv(start: int, s: Shelf)
  {
    && Reserved(s.cartridges, start, s.slots) && Named(s.cartridges)
    && Accurate(s.cartridges, start, s.inventory)
    && (s.drives == map[] ==> s.inventory == [])
    && (s.inventory != [] ==> Reserved(s.cartridges, start, |s.inventory|) && Complete(s.cartridges, start, s.inventory))
  }

  /** No slot is free. */
  ghost predicate Full(start: int, slots: int, carts: map<string, Cartridge>)
  {
    forall a :: start <= a < start + slots ==> a in Occupied(carts)
  }

  /** The lowest address no live cartridge has. */
  ghost predicate LowestFree(start: int, slots: int, carts: map<string, Cartridge>, slot: int)
  {
    start <= slot < start + slots && slot !in Occupied(carts) && forall a :: start <= a < slot ==> a in Occupied(carts)
  }

  predicate ShowsOther(start: int, s: Shelf, slot: int, id: string)
  {
    0 <= slot - start < |s.inventory| && s.inventory[slot - start] != id && s.inventory[slot - start] in s.cartridges
  }

  /** assignedSlotAvailableFor: in range, reserved by no other live cartridge, and
      not showing another cartridge of any kind. */
  predicate Usable(start: int, s: Shelf, slot: int, id: string)
  {
    && start <= slot < start + s.slots
    && (forall o :: o in s.cartridges && o != id && Live(s.cartridges[o]) ==> s.cartridges[o].slot != Some(slot))
    && !ShowsOther(start, s, slot, id)
  }

  /** The inventory shows a retired cartridge in the slot. */
  ghost predicate ShowsRetired(start: int, s: Shelf, slot: int)
  {
    && 0 <= slot - start < |s.inventory| && s.inventory[slot - start] in s.cartridges
    && s.cartridges[s.inventory[slot - start]].state == Retired
  }

  /** The slot of a live cartridge is refused to it exactly when the inventory shows a
      retired cartridge in it. */
  lemma OnlyRetiredInTheWay(start: int, s: Shelf, id: string)
    requires Inv(start, s) && id in s.cartridges && Live(s.cartridges[id])
    ensures HasSlot(s.cartridges[id], start, s.slots)
    ensures Usable(start, s, s.cartridges[id].slot.value, id) <==> !ShowsRetired(start, s, s.cartridges[id].slot.value)
    ensures GoodName(id)
  {
    var i := s.cartridges[id].slot.value - start;
    if 0 <= i < |s.inventory| { assert WellShown(s.cartridges, start, i, s.inventory[i]); }
  }

  lemma AvailableIsShown(start: int, s: Shelf, id: string)
    requires Inv(start, s) && id in s.cartridges && s.cartridges[id].state == Available
    ensures NoneRetired(s.cartridges) && s.inventory != [] ==> id in s.inventory
    ensures GoodName(id)
  {
    if NoneRetired(s.cartridges) && s.inventory != [] {
      assert HasSlot(s.cartridges[id], start, |s.inventory|) && Alone(s.cartridges, id);
      assert ShownAt(s.cartridges[id], id, start, s.inventory);
    }
  }

  // ------------------------------------------------------------------------ steps

  /** What goes wrong in a create: the inventory is not written after an expansion, the
      row cannot be stored, or a later step fails and the row is deleted again, or is
      not. */
  datatype Fault = NoFault | CannotSync | CannotStore | CannotFinish | CannotUndo

  datatype Op =
    | CreateOp(id: string, expand: bool, fault: Fault)
    | AddSlotsOp(count: int, synced: bool)
    | RollbackOp(original: int)
    | LoadOp(drive: string, id: string)
    | UnloadOp(drive: string)
    | ExportOp(id: string)
    | ImportOp(id: string)

  /** `id` is new, in the lowest free slot; nothing else of the cartridges differs. */
  ghost predicate Added(start: int, s: Shelf, id: string, expand: bool, t: Shelf)
  {
    && GoodName(id) && id !in s.cartridges && id in t.cartridges && t.cartridges[id].state == Available && t.cartridges[id].slot.Some?
    && LowestFree(start, t.slots, s.cartridges, t.cartridges[id].slot.value)
    && t.cartridges == s.cartridges[id := t.cartridges[id]]
    && (t.slots == s.slots || (expand && t.slots == s.slots + 1 && Full(start, s.slots, s.cartridges)))
  }

  /** What a failed create leaves: nothing, an expansion whose inventory was not
      written, or a row that could not be deleted again. */
  ghost predicate NotAdded(start: int, s: Shelf, id: string, expand: bool, fault: Fault, t: Shelf)
  {
    || (t.cartridges == s.cartridges && t.slots == s.slots)
    || (fault == CannotSync && expand && t.cartridges == s.cartridges && t.slots == s.slots + 1)
    || (fault == CannotUndo && Added(start, s, id, expand, t))
  }

  ghost predicate CreateNext(start: int, s: Shelf, id: string, expand: bool, fault: Fault, r: Result<(), Error>, t: Shelf)
  {
    && t.drives == s.drives
    && (if r.Ok? then Added(start, s, id, expand, t) else NotAdded(start, s, id, expand, fault, t))
    && (GoodName(id) && id !in s.cartridges && fault == NoFault && r.Err? ==>
          Full(start, s.slots, s.cartridges) && (expand ==> s.slots < 0 || s.slots >= MAX_SLOTS))
    && (r == Err(SlotsFull) || r == Err(SlotLimit) ==>
          Full(start, s.slots, s.cartridges) && (expand ==> s.slots >= MAX_SLOTS))
  }

  function Count(count: int): int { if count == 0 then 1 else count }

  predicate Fits(slots: int, count: int) { count >= 0 && slots >= 0 && slots + Count(count) <= MAX_SLOTS }

  ghost predicate AddSlotsNext(s: Shelf, count: int, synced: bool, r: Result<(), Error>, t: Shelf)
  {
    && t.slots == (if Fits(s.slots, count) then s.slots + Count(count) else s.slots)
    && t.cartridges == s.cartridges && t.drives == s.drives
    && (r.Ok? <==> Fits(s.slots, count) && synced)
  }

  predicate Shrinks(start: int, s: Shelf, original: int)
  {
    0 <= original < s.slots && forall a :: a in Occupied(s.cartridges) ==> a < start + original
  }

  ghost predicate RollbackNext(start: int, s: Shelf, original: int, r: Result<(), Error>, t: Shelf)
  {
    && t.slots == (if Shrinks(start, s, original) then original else s.slots)
    && t.cartridges == s.cartridges && t.drives == s.drives
    && (r.Ok? <==> Shrinks(start, s, original) || (0 <= original && s.slots <= original))
  }

  predicate Loads(s: Shelf, drive: string, id: string)
  {
    drive in s.drives && s.drives[drive] == Drive(Empty, "") && id in s.cartridges && s.cartridges[id].state == Available
  }

  ghost predicate LoadNext(s: Shelf, drive: string, id: string, r: Result<(), Error>, t: Shelf)
  {
    && (r.Ok? <==> Loads(s, drive, id))
    && t.slots == s.slots
    && if r.Ok? then
         && t.cartridges == s.cartridges[id := s.cartridges[id].(state := Mounted)]
         && t.drives == s.drives[drive := Drive(Loaded, id)] && t.inventory != []
       else t == s
  }

  /** The drive holds a mounted cartridge. */
  predicate Holds(s: Shelf, drive: string)
  {
    && drive in s.drives && s.drives[drive].state == Loaded && s.drives[drive].cartridge in s.cartridges
    && s.cartridges[s.drives[drive].cartridge].state == Mounted
  }

  ghost predicate Blocked(start: int, s: Shelf, drive: string)
    requires Holds(s, drive)
  {
    var c := s.cartridges[s.drives[drive].cartridge];
    c.slot.Some? && ShowsRetired(start, s, c.slot.value)
  }

  /** A cartridge goes back to its reserved slot; the slot is refused exactly when
      the inventory shows a retired cartridge in it. */
  ghost predicate UnloadNext(start: int, s: Shelf, drive: string, r: Result<(), Error>, t: Shelf)
  {
    && (r == Err(SlotTaken) <==> Holds(s, drive) && Blocked(start, s, drive))
    && (r.Ok? <==> Holds(s, drive) && !Blocked(start, s, drive))
    && t.slots == s.slots
    && if r.Ok? then
         var id := s.drives[drive].cartridge;
         && t.cartridges == s.cartridges[id := s.cartridges[id].(state := Available)]
         && t.drives == s.drives[drive := Drive(Empty, "")]
       else t == s
  }

  ghost predicate ExportNext(s: Shelf, id: string, r: Result<(), Error>, t: Shelf)
  {
    && (r.Ok? <==> id in s.cartridges && s.cartridges[id].state == Available && id in s.inventory)
    && t.slots == s.slots && t.drives == s.drives
    && if r.Ok? then t.cartridges == s.cartridges[id := s.cartridges[id].(state := Exported)] else t == s
  }

  predicate Away(s: Shelf, id: string) { id in s.cartridges && s.cartridges[id].state == Exported }

  predicate OldSlotUsable(start: int, s: Shelf, id: string)
    requires id in s.cartridges
  {
    s.cartridges[id].slot.Some? && Usable(start, s, s.cartridges[id].slot.value, id)
  }

  /** Back from the vault: to its old slot if usable, else to the lowest free one. */
  ghost predicate ImportNext(start: int, s: Shelf, id: string, r: Result<(), Error>, t: Shelf)
  {
    && t.slots == s.slots && t.drives == s.drives
    && (r == Err(SlotsFull) <==> Away(s, id) && !OldSlotUsable(start, s, id) && Full(start, s.slots, s.cartridges))
    && (r.Ok? <==> Away(s, id) && r != Err(SlotsFull))
    && if r.Ok? then
         && id in t.cartridges && t.cartridges == s.cartridges[id := Cartridge(Available, t.cartridges[id].slot)]
         && (if OldSlotUsable(start, s, id) then t.cartridges[id].slot == s.cartridges[id].slot
             else t.cartridges[id].slot.Some? && LowestFree(start, s.slots, s.cartridges, t.cartridges[id].slot.value))
       else t == s
  }

  /** One operation and its answer. */
  ghost predicate Next(start: int, s: Shelf, op: Op, r: Result<(), Error>, t: Shelf)
  {
    match op
    case CreateOp(id, expand, fault) => CreateNext(start, s, id, expand, fault, r, t)
    case AddSlotsOp(count, synced) => AddSlotsNext(s, count, synced, r, t)
    case RollbackOp(original) => RollbackNext(start, s, original, r, t)
    case LoadOp(drive, id) => LoadNext(s, drive, id, r, t)
    case UnloadOp(drive) => UnloadNext(start, s, drive, r, t)
    case ExportOp(id) => ExportNext(s, id, r, t)
    case ImportOp(id) => ImportNext(start, s, id, r, t)
  }

  /** Lifecycle states only change along the allowed transitions. */
  lemma StepMoves(start: int, s: Shelf, op: Op, r: Result<(), Error>, t: Shelf)
    requires Next(start, s, op, r, t)
    ensures Moved(s.cartridges, t.cartridges)
  {
  }

  /** So a retired cartridge stays retired and nothing becomes retired. */
  lemma StepRetiresNone(start: int, s: Shelf, op: Op, r: Result<(), Error>, t: Shelf)
    requires Next(start, s, op, r, t) && NoneRetired(s.cartridges)
    ensures NoneRetired(t.cartridges)
  {
  }

  // ------------------------------------------------------------------------- runs

  /** A create that may expand the library failed for want of a slot. */
  predicate OutOfSpace(op: Op, r: Result<(), Error>)
  {
    op.CreateOp? && op.expand && (r == Err(SlotsFull) || r == Err(SlotLimit))
  }

  ghost predicate WentAt(start: int, ops: seq<Op>, results: seq<Result<(), Error>>, trace: seq<Shelf>, k: nat)
    requires k < |ops| && k < |results| && k + 1 < |trace|
  {
    Inv(start, trace[k + 1]) && Next(start, trace[k], ops[k], results[k], trace[k + 1])
  }

  ghost predicate Went(start: int, ops: seq<Op>, results: seq<Result<(), Error>>, trace: seq<Shelf>)
  {
    && |results| <= |ops| && |trace| == |results| + 1 && Inv(start, trace[0])
    && forall k :: 0 <= k < |results| ==> WentAt(start, ops, results, trace, k)
  }

  lemma WentOn(start: int, ops: seq<Op>, results: seq<Result<(), Error>>, trace: seq<Shelf>, r: Result<(), Error>, t: Shelf)
    requires Went(start, ops, results, trace) && |results| < |ops|
    requires Inv(start, t) && Next(start, trace[|results|], ops[|results|], r, t)
    ensures Went(start, ops, results + [r], trace + [t])
  {
    var answers, states := results + [r], trace + [t];
    forall k: nat | k < |answers| ensures WentAt(start, ops, answers, states, k) {
      if k < |results| { assert WentAt(start, ops, results, trace, k); }
    }
  }

  lemma {:induction false} NeverRetired(start: int, ops: seq<Op>, results: seq<Result<(), Error>>, trace: seq<Shelf>, k: nat)
    requires Went(start, ops, results, trace) && NoneRetired(trace[0].cartridges) && k < |trace|
    ensures NoneRetired(trace[k].cartridges)
  {
    if k > 0 {
      NeverRetired(start, ops, results, trace, k - 1);
      assert WentAt(start, ops, results, trace, k - 1);
      StepRetiresNone(start, trace[k - 1], ops[k - 1], results[k - 1], trace[k]);
    }
  }

  lemma WentMeans(start: int, ops: seq<Op>, results: seq<Result<(), Error>>, trace: seq<Shelf>)
    requires Went(start, ops, results, trace) && |results| == |ops|
    ensures forall k :: 0 <= k <= |ops| ==> Inv(start, trace[k])
    ensures forall k :: 0 <= k < |ops| ==> Next(start, trace[k], ops[k], results[k], trace[k + 1])
    ensures NoneRetired(trace[0].cartridges) ==> forall k :: 0 <= k < |ops| && ops[k].UnloadOp? ==> results[k] != Err(SlotTaken)
    ensures forall k :: 0 <= k < |ops| && OutOfSpace(ops[k], results[k]) ==> trace[k].slots >= MAX_SLOTS
  {
    forall k: nat | k <= |ops| ensures Inv(start, trace[k]) {
      if k > 0 { assert WentAt(start, ops, results, trace, k - 1); }
    }
    forall k: nat | k < |ops| ensures Next(start, trace[k], ops[k], results[k], trace[k + 1]) {
      assert WentAt(start, ops, results, trace, k);
    }
    if NoneRetired(trace[0].cartridges) {
      forall k: nat | k < |ops| && ops[k].UnloadOp? ensures results[k] != Err(SlotTaken) {
        NeverRetired(start, ops, results, trace, k);
        assert WentAt(start, ops, results, trace, k);
      }
    }
    forall k: nat | k < |ops| && OutOfSpace(ops[k], results[k]) ensures trace[k].slots >= MAX_SLOTS {
      assert WentAt(start, ops, results, trace, k);
    }
  }

  // --------------------------------------------------------------------- the library

  class Library {
    /** The effective slot start address, at least 1. */
    const start: int
    var slots: int
    var cartridges: map<string, Cartridge>
    var drives: map<string, Drive>
    var inventory: seq<string>

    function View(): Shelf
      reads this
    {
      Shelf(slots, cartridges, drives, inventory)
    }

    ghost predicate Valid()
      reads this
    {
      Inv(start, View())
    }

    /** A library with its cartridges and drives, before any inventory is written. */
    constructor (startAddress: int, slots: int, cartridges: map<string, Cartridge>, drives: map<string, Drive>)
      requires var s := if startAddress <= 0 then 1 else startAddress; Reserved(cartridges, s, slots) && Named(cartridges)
      ensures Valid() && start == (if startAddress <= 0 then 1 else startAddress)
      ensures View() == Shelf(slots, cartridges, drives, [])
    {
      start := if startAddress <= 0 then 1 else startAddress;
      this.slots, this.cartridges, this.drives, inventory := slots, cartridges, drives, [];
    }

    /** What holds between a change and the rewriting of the inventory. */
    ghost predicate Syncable()
      reads this
    {
      && Reserved(cartridges, start, slots) && Named(cartridges) && Tolerable(cartridges, start, inventory)
      && (drives == map[] ==> inventory == [])
    }

    /** syncLibrarySlotsToSharedState. */
    method Sync()
      requires Syncable()
      modifies this`inventory
      ensures Valid()
      ensures drives != map[] ==> inventory != []
    {
      if drives == map[] { return; }
      inventory := Rewrite(cartridges, start, slots, inventory);
    }

    // ------------------------------------------------------------- slot allocation

    method NextFree() returns (r: Option<int>)
      ensures r.Some? ==> LowestFree(start, slots, cartridges, r.value)
      ensures r.None? ==> Full(start, slots, cartridges)
    {
      if slots <= 0 { return None; }
      var occupied := Occupied(cartridges);
      for i := 0 to slots
        invariant forall a :: start <= a < start + i ==> a in Occupied(cartridges)
      {
        if start + i !in occupied { return Some(start + i); }
      }
      return None;
    }

    method AddSlots(count: int, synced: bool) returns (r: Result<(), Error>)
      requires Valid()
      modifies this`slots, this`inventory
      ensures Valid() && AddSlotsNext(old(View()), count, synced, r, View())
      ensures r.Err? ==> r.error == if count < 0 || old(slots) < 0 then InvalidInput
                                    else if Fits(old(slots), count) then StorageFailed else SlotLimit
    {
      if count < 0 || slots < 0 { return Err(InvalidInput); }
      var added := Count(count);
      if slots > MAX_SLOTS || added > MAX_SLOTS - slots { return Err(SlotLimit); }
      slots := slots + added;
      if !synced { return Err(StorageFailed); }
      Sync();
      return Ok(());
    }

    /** Takes an expansion back unless a live cartridge sits in the added slots. */
    method RollbackSlots(original: int) returns (r: Result<(), Error>)
      requires Syncable()
      modifies this`slots, this`inventory
      ensures Syncable() && (old(Valid()) || slots != old(slots) ==> Valid())
      ensures RollbackNext(start, old(View()), original, r, View())
    {
      if original < 0 { return Err(InvalidInput); }
      if slots <= original { return Ok(()); }
      if exists a :: a in Occupied(cartridges) && a >= start + original { return Err(SlotTaken); }
      slots := original;
      assert Reserved(cartridges, start, slots) by {
        forall id | id in cartridges && Live(cartridges[id]) ensures HasSlot(cartridges[id], start, slots) {
          assert cartridges[id].slot.value in Occupied(cartridges);
        }
      }
      Sync();
      return Ok(());
    }

    /** A slot for a new cartridge, growing the library by one if allowed and needed. */
    method AssignSlot(expand: bool, synced: bool) returns (r: Result<int, Error>)
      requires Valid()
      modifies this`slots, this`inventory
      ensures Valid()
      ensures r.Ok? ==> LowestFree(start, slots, cartridges, r.value)
      ensures r.Ok? ==> slots == old(slots) || (expand && slots == old(slots) + 1 && Full(start, old(slots), cartridges))
      ensures r.Err? ==> Full(start, old(slots), cartridges)
      ensures r.Err? ==> slots == old(slots) || (expand && !synced && slots == old(slots) + 1 && r.error == StorageFailed)
      ensures r.Err? && synced ==> r.error == if !expand then SlotsFull else if slots < 0 then InvalidInput else SlotLimit
      ensures r == Err(SlotLimit) ==> slots >= MAX_SLOTS
      ensures r == Err(SlotsFull) ==> !expand
    {
      var free := NextFree();
      if free.Some? { return Ok(free.value); }
      if !expand { return Err(SlotsFull); }
      var added := AddSlots(1, synced);
      if added.Err? { return Err(added.error); }
      NewSlotIsFree(cartridges, start, old(slots));
      free := NextFree();
      return if free.Some? then Ok(free.value) else Err(SlotsFull);
    }

    // ------------------------------------------------------------------ operations

    method Create(id: string, expand: bool, fault: Fault) returns (r: Result<(), Error>)
      requires Valid()
      modifies this`slots, this`cartridges, this`inventory
      ensures Valid() && CreateNext(start, old(View()), id, expand, fault, r, View())
    {
      if !GoodName(id) { return Err(InvalidInput); }
      if id in cartridges { return Err(AlreadyExists); }
      var original := slots;
      var given := AssignSlot(expand, fault != CannotSync);
      if given.Err? { return Err(given.error); }
      r := Enter(id, given.value, original, fault);
    }

    /** Stores the new cartridge and finishes, or undoes what it can. */
    method Enter(id: string, slot: int, original: int, fault: Fault) returns (r: Result<(), Error>)
      requires Valid() && GoodName(id) && id !in cartridges && LowestFree(start, slots, cartridges, slot)
      requires slots != original ==> 0 <= original < slots && Reserved(cartridges, start, original)
      modifies this`slots, this`cartridges, this`inventory
      ensures Valid() && (r.Ok? <==> fault == NoFault || fault == CannotSync) && (r.Err? ==> r.error == StorageFailed)
      ensures if fault == CannotStore || fault == CannotFinish then cartridges == old(cartridges) && slots == original
              else cartridges == old(cartridges)[id := Cartridge(Available, Some(slot))] && slots == old(slots)
    {
      if fault == CannotStore {
        if slots != original { TakeBack(original); }
        return Err(StorageFailed);
      }
      Admit(id, slot);
      if fault == CannotFinish { Withdraw(id, original, old(cartridges)); }
      return if fault == CannotFinish || fault == CannotUndo then Err(StorageFailed) else Ok(());
    }

    method Admit(id: string, slot: int)
      requires Valid() && GoodName(id) && id !in cartridges && LowestFree(start, slots, cartridges, slot)
      modifies this`cartridges, this`inventory
      ensures Valid() && cartridges == old(cartridges)[id := Cartridge(Available, Some(slot))]
    {
      NewcomerFits(cartridges, start, slots, inventory, id, slot);
      cartridges := cartridges[id := Cartridge(Available, Some(slot))];
      Sync();
    }

    /** Deletes a cartridge that was just created and takes its expansion back. */
    method Withdraw(id: string, original: int, ghost before: map<string, Cartridge>)
      requires Valid() && id in cartridges && before == cartridges - {id}
      requires slots != original ==> 0 <= original < slots && Reserved(before, start, original)
      modifies this`cartridges, this`slots, this`inventory
      ensures Valid() && cartridges == before && slots == original
    {
      cartridges := cartridges - {id};
      assert Tolerable(cartridges, start, inventory) by {
        forall i | 0 <= i < |inventory| ensures NotMisplaced(cartridges, start, i, inventory[i]) {
          assert WellShown(old(cartridges), start, i, inventory[i]);
        }
      }
      if slots != original { TakeBack(original); }
      Sync();
    }

    /** Undoes an expansion whose slots no live cartridge has. */
    method TakeBack(original: int)
      requires Syncable() && 0 <= original < slots && Reserved(cartridges, start, original)
      modifies this`slots, this`inventory
      ensures Valid() && slots == original
    {
      forall a | a in Occupied(cartridges) ensures a < start + original {
        var id :| id in cartridges && Live(cartridges[id]) && cartridges[id].slot == Some(a);
        assert HasSlot(cartridges[id], start, original);
      }
      var _ := RollbackSlots(original);
    }

    method Load(drive: string, id: string) returns (r: Result<(), Error>)
      requires Valid()
      modifies this`cartridges, this`drives, this`inventory
      ensures Valid() && LoadNext(old(View()), drive, id, r, View())
    {
      if drive !in drives || id !in cartridges { return Err(NotFound); }
      if drives[drive] != Drive(Empty, "") { return Err(InvalidState); }
      if cartridges[id].state != Available { return Err(InvalidState); }
      cartridges := cartridges[id := cartridges[id].(state := Mounted)];
      drives := drives[drive := Drive(Loaded, id)];
      assert drive in drives;
      Sync();
      return Ok(());
    }

    method Unload(drive: string) returns (r: Result<(), Error>)
      requires Valid()
      modifies this`cartridges, this`drives, this`inventory
      ensures Valid() && UnloadNext(start, old(View()), drive, r, View())
    {
      if drive !in drives { return Err(NotFound); }
      var id := drives[drive].cartridge;
      if drives[drive].state != Loaded || id == "" { return Err(InvalidState); }
      if id !in cartridges { return Err(NotFound); }
      if cartridges[id].state != Mounted { return Err(InvalidState); }
      OnlyRetiredInTheWay(start, View(), id);
      if !Usable(start, View(), cartridges[id].slot.value, id) { return Err(SlotTaken); }
      cartridges := cartridges[id := cartridges[id].(state := Available)];
      drives := drives[drive := Drive(Empty, "")];
      Sync();
      return Ok(());
    }

    /** Where the inventory shows a cartridge. */
    method FindShown(id: string) returns (r: Option<int>)
      ensures r.Some? ==> 0 <= r.value - start < |inventory| && inventory[r.value - start] == id
      ensures r.None? <==> id !in inventory
    {
      for i := 0 to |inventory|
        invariant id !in inventory[..i]
      {
        if inventory[i] == id { return Some(start + i); }
      }
      return None;
    }

    method Export(id: string) returns (r: Result<(), Error>)
      requires Valid()
      modifies this`cartridges, this`inventory
      ensures Valid() && ExportNext(old(View()), id, r, View())
      ensures id in old(cartridges) && old(cartridges)[id].state == Available && NoneRetired(old(cartridges)) && old(inventory) != [] ==> r.Ok?
    {
      if id !in cartridges { return Err(NotFound); }
      if cartridges[id].state != Available { return Err(InvalidState); }
      var current := FindShown(id);
      AvailableIsShown(start, View(), id);
      if current.None? { return Err(NotShown); }
      assert WellShown(cartridges, start, current.value - start, id);
      cartridges := cartridges[id := Cartridge(Exported, current)];
      Sync();
      return Ok(());
    }

    method Import(id: string) returns (r: Result<(), Error>)
      requires Valid()
      modifies this`cartridges, this`inventory
      ensures Valid() && ImportNext(start, old(View()), id, r, View())
    {
      if id !in cartridges { return Err(NotFound); }
      var c := cartridges[id];
      if c.state != Exported { return Err(InvalidState); }
      var slot := c.slot;
      if slot.None? || !Usable(start, View(), slot.value, id) {
        slot := NextFree();
        if slot.None? { return Err(SlotsFull); }
      }
      ReturnerFits(cartridges, start, slots, inventory, id, slot.value);
      cartridges := cartridges[id := Cartridge(Available, slot)];
      Sync();
      return Ok(());
    }

    // ------------------------------------------------------------------------ runs

    method Step(op: Op) returns (r: Result<(), Error>)
      requires Valid()
      modifies this
      ensures Valid() && Next(start, old(View()), op, r, View())
    {
      match op
      case CreateOp(id, expand, fault) => r := Create(id, expand, fault);
      case AddSlotsOp(count, synced) => r := AddSlots(count, synced);
      case RollbackOp(original) => r := RollbackSlots(original);
      case LoadOp(drive, id) => r := Load(drive, id);
      case UnloadOp(drive) => r := Unload(drive);
      case ExportOp(id) => r := Export(id);
      case ImportOp(id) => r := Import(id);
    }

    /** Every run: each step is one of the operations and keeps the reservations and
        the inventory right. With no retired cartridge at the start no unload is refused
        for its slot, and a create that may expand fails for space only at the slot
        limit. */
    method Run(ops: seq<Op>) returns (results: seq<Result<(), Error>>, trace: seq<Shelf>)
      requires Valid()
      modifies this
      ensures |results| == |ops| && |trace| == |ops| + 1 && trace[0] == old(View()) && trace[|ops|] == View()
      ensures forall k :: 0 <= k <= |ops| ==> Inv(start, trace[k])
      ensures forall k :: 0 <= k < |ops| ==> Next(start, trace[k], ops[k], results[k], trace[k + 1])
      ensures NoneRetired(old(cartridges)) ==> forall k :: 0 <= k < |ops| && ops[k].UnloadOp? ==> results[k] != Err(SlotTaken)
      ensures forall k :: 0 <= k < |ops| && OutOfSpace(ops[k], results[k]) ==> trace[k].slots >= MAX_SLOTS
    {
      results, trace := [], [View()];
      for n := 0 to |ops|
        invariant |results| == n && |trace| == n + 1 && trace[0] == old(View()) && trace[n] == View()
        invariant Valid() && Went(start, ops, results, trace)
      {
        var r := Step(ops[n]);
        WentOn(start, ops, results, trace, r, View());
        results, trace := results + [r], trace + [View()];
      }
      WentMeans(start, ops, results, trace);
    }
  }

  lemma FirstCreated(a: string, b: string, s: Shelf, r: Result<(), Error>, t: Shelf)
    requires GoodName(b) && a != b && s.slots == 1 && s.cartridges == map[a := Cartridge(Retired, Some(1))]
    requires CreateNext(1, s, b, false, NoFault, r, t)
    ensures r.Ok? && t.slots == 1 && t.drives == s.drives
    ensures t.cartridges == map[a := Cartridge(Retired, Some(1)), b := Cartridge(Available, Some(1))]
  {
    assert 1 !in Occupied(s.cartridges);
  }

  lemma ThenLoaded(a: string, b: string, drive: string, s: Shelf, r: Result<(), Error>, t: Shelf)
    requires a != b && s.slots == 1 && s.drives == map[drive := Drive(Empty, "")]
    requires s.cartridges == map[a := Cartridge(Retired, Some(1)), b := Cartridge(Available, Some(1))]
    requires LoadNext(s, drive, b, r, t)
    ensures r.Ok? && t.slots == 1 && t.drives == map[drive := Drive(Loaded, b)] && t.inventory != []
    ensures t.cartridges == map[a := Cartridge(Retired, Some(1)), b := Cartridge(Mounted, Some(1))]
  {
  }

  lemma ThenBlocked(a: string, b: string, drive: string, s: Shelf, r: Result<(), Error>, t: Shelf)
    requires a != b && Inv(1, s) && s.drives == map[drive := Drive(Loaded, b)] && s.inventory != []
    requires s.cartridges == map[a := Cartridge(Retired, Some(1)), b := Cartridge(Mounted, Some(1))]
    requires UnloadNext(1, s, drive, r, t)
    ensures ShowsRetired(1, s, 1) && r == Err(SlotTaken) && t == s
  {
    assert Alone(s.cartridges, a) && HasSlot(s.cartridges[a], 1, |s.inventory|);
    assert ShownAt(s.cartridges[a], a, 1, s.inventory);
  }

  /** A retired cartridge `a` that kept its slot address blocks the unload of `b`, which
      was given the slot: the create and the load succeed, nothing in the library is
      wrong, and the unload is refused because the inventory shows `a`. */
  method RetiredCartridgeBlocksUnload(a: string, b: string, drive: string)
    returns (results: seq<Result<(), Error>>, trace: seq<Shelf>)
    requires GoodName(a) && GoodName(b) && a != b
    ensures |trace| == 4 && |results| == 3 && results[0].Ok? && results[1].Ok? && results[2] == Err(SlotTaken)
    ensures trace[0] == Shelf(1, map[a := Cartridge(Retired, Some(1))], map[drive := Drive(Empty, "")], [])
    ensures Next(1, trace[0], CreateOp(b, false, NoFault), results[0], trace[1])
    ensures Next(1, trace[1], LoadOp(drive, b), results[1], trace[2])
    ensures Next(1, trace[2], UnloadOp(drive), results[2], trace[3])
    ensures trace[2].cartridges == map[a := Cartridge(Retired, Some(1)), b := Cartridge(Mounted, Some(1))]
    ensures trace[2].drives == map[drive := Drive(Loaded, b)] && ShowsRetired(1, trace[2], 1)
    ensures trace[3] == trace[2] && Inv(1, trace[3])
  {
    var carts := map[a := Cartridge(Retired, Some(1))];
    var lib := new Library(1, 1, carts, map[drive := Drive(Empty, "")]);
    results, trace := lib.Run([CreateOp(b, false, NoFault), LoadOp(drive, b), UnloadOp(drive)]);
    FirstCreated(a, b, trace[0], results[0], trace[1]);
    ThenLoaded(a, b, drive, trace[1], results[1], trace[2]);
    ThenBlocked(a, b, drive, trace[2], results[2], trace[3]);
  }
}
