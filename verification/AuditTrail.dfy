/** The in-memory audit trail and its paged queries
    (control-plane/internal/audit/writer.go and query_service.go). */
module AuditTrail {
  import opened Bytes

  const LIMIT: nat := 10000
  const DEFAULT_PAGE: nat := 100
  const MAX_PAGE: nat := 500

  datatype Event = Event(id: string, action: string, actor: string, object_: string, result: string, at: int)

  // ------------------------------------------------------------------------ ring

  /** What the trail keeps of a history. */
  function Window(h: seq<Event>): (r: seq<Event>)
    ensures |r| <= LIMIT
  {
    if |h| <= LIMIT then h else h[|h| - LIMIT..]
  }

  lemma WindowGrows(h: seq<Event>, e: Event)
    ensures Window(h + [e]) == if |h| < LIMIT then Window(h) + [e] else Window(h)[1..] + [e]
  {
  }

  /** What a ring of which `len` places are in use holds, oldest first. */
  function Unrolled(ring: seq<Event>, len: nat, next: nat): seq<Event>
    requires len <= |ring| && next <= |ring|
  {
    if len < |ring| then ring[..len] else ring[next..] + ring[..next]
  }

  lemma RingFills(ring: seq<Event>, len: nat, e: Event)
    requires len < |ring|
    ensures Unrolled(ring[len := e], len + 1, 0) == Unrolled(ring, len, 0) + [e]
  {
    var n := ring[len := e];
    assert n[..len + 1] == ring[..len] + [e];
    if len + 1 == |ring| { assert n[0..] + n[..0] == n[..len + 1]; }
  }

  /** Overwriting the oldest entry of a full ring turns it by one. */
  lemma RingTurns(ring: seq<Event>, next: nat, e: Event)
    requires next < |ring|
    ensures Unrolled(ring[next := e], |ring|, (next + 1) % |ring|) == Unrolled(ring, |ring|, next)[1..] + [e]
  {
    if next + 1 < |ring| {
      assert (next + 1) % |ring| == next + 1;
      TurnInside(ring, next, e);
    } else {
      assert (next + 1) % |ring| == 0;
      assert ring[next..][1..] == [] && ring[next := e] == ring[..next] + [e];
    }
  }

  lemma TurnInside(ring: seq<Event>, next: nat, e: Event)
    requires next + 1 < |ring|
    ensures ring[next := e][next + 1..] + ring[next := e][..next + 1] == (ring[next..] + ring[..next])[1..] + [e]
  {
    var n := ring[next := e];
    assert n[next + 1..] == ring[next..][1..] && n[..next + 1] == ring[..next] + [e];
  }

  lemma TurnedWindow(h: seq<Event>, ring: seq<Event>, next: nat, e: Event)
    requires |ring| == LIMIT && next < LIMIT && |Window(h)| == LIMIT && Unrolled(ring, LIMIT, next) == Window(h)
    ensures Unrolled(ring[next := e], LIMIT, (next + 1) % LIMIT) == Window(h + [e]) && |Window(h + [e])| == LIMIT
  {
    WindowGrows(h, e);
    RingTurns(ring, next, e);
  }

  class MemoryWriter {
    const events: array<Event>
    var len: nat
    var next: nat
    /** Everything ever written. */
    ghost var history: seq<Event>

    ghost predicate Valid()
      reads this, events
    {
      && events.Length == LIMIT && len <= LIMIT && next < LIMIT
      && len == |Window(history)| && (len < LIMIT ==> next == 0)
      && Unrolled(events[..], len, next) == Window(history)
    }

    constructor ()
      ensures Valid() && history == [] && fresh(events)
    {
      events := new Event[LIMIT];
      len, next, history := 0, 0, [];
    }

    method Write(e: Event)
      requires Valid()
      modifies this, events
      ensures Valid() && history == old(history) + [e]
    {
      if len < LIMIT { Fill(e); } else { Turn(e); }
    }

    /** A free place is filled. */
    method Fill(e: Event)
      requires Valid() && len < LIMIT
      modifies this, events
      ensures Valid() && history == old(history) + [e]
    {
      ghost var ring := events[..];
      WindowGrows(history, e);
      RingFills(ring, len, e);
      events[len] := e;
      assert events[..] == ring[len := e];
      len, history := len + 1, history + [e];
    }

    /** The oldest event is overwritten. */
    method Turn(e: Event)
      requires Valid() && len == LIMIT
      modifies this, events
      ensures Valid() && history == old(history) + [e]
    {
      ghost var ring := events[..];
      TurnedWindow(history, ring, next, e);
      events[next] := e;
      assert events[..] == ring[next := e];
      next, history := (next + 1) % LIMIT, history + [e];
    }

    /** The kept events, oldest first. */
    method Events() returns (r: seq<Event>)
      requires Valid()
      ensures r == Window(history)
    {
      ghost var ring := events[..];
      if len < LIMIT || next == 0 {
        r := events[..len];
        assert r == ring[..len];
        assert len == LIMIT ==> ring[0..] + ring[..0] == ring[..len];
      } else {
        r := events[next..] + events[..next];
        assert r == ring[next..] + ring[..next];
      }
    }
  }

  // --------------------------------------------------------------------- queries

  datatype Filter = Filter(action: string, actor: string, object_: string, result: string, after: Option<int>, before: Option<int>)

  predicate Matches(f: Filter, e: Event)
  {
    && (f.action != "" ==> e.action == f.action)
    && (f.actor != "" ==> e.actor == f.actor)
    && (f.object_ != "" ==> e.object_ == f.object_)
    && (f.result != "" ==> e.result == f.result)
    && (f.after.Some? ==> e.at >= f.after.value)
    && (f.before.Some? ==> e.at <= f.before.value)
  }

  function Select(f: Filter, es: seq<Event>): (r: seq<Event>)
    ensures |r| <= |es| && forall e :: e in r ==> e in es && Matches(f, e)
  {
    if es == [] then []
    else
      var r := Select(f, es[..|es| - 1]);
      if Matches(f, es[|es| - 1]) then r + [es[|es| - 1]] else r
  }

  function Reverse(s: seq<Event>): (r: seq<Event>)
    ensures |r| == |s| && forall i :: 0 <= i < |s| ==> r[i] == s[|s| - 1 - i]
  {
    seq(|s|, i requires 0 <= i < |s| => s[|s| - 1 - i])
  }

  /** A cursor names the last event returned and the filter it was issued for. */
  datatype Cursor = Cursor(id: string, filter: Filter)
  datatype Page = Page(records: seq<Event>, next: Option<Cursor>, total: nat)
  datatype Answer = Answered(page: Page) | InvalidCursor

  function PageSize(limit: int): nat
  {
    if limit <= 0 then DEFAULT_PAGE else if limit > MAX_PAGE then MAX_PAGE else limit
  }

  function Low(hi: nat, size: nat): nat { if hi > size then hi - size else 0 }

  /** The page that ends below position `hi` of the matching events. */
  function PageBelow(matched: seq<Event>, f: Filter, hi: nat, size: nat): Page
    requires hi <= |matched|
  {
    var lo := Low(hi, size);
    Page(Reverse(matched[lo..hi]), if 0 < lo < hi then Some(Cursor(matched[lo].id, f)) else None, |matched|)
  }

  /** The latest position of an event. */
  function Find(matched: seq<Event>, id: string): (r: Option<nat>)
    ensures r.Some? ==> r.value < |matched| && matched[r.value].id == id
    ensures r.None? ==> forall i :: 0 <= i < |matched| ==> matched[i].id != id
    ensures r.Some? ==> forall i :: r.value < i < |matched| ==> matched[i].id != id
  {
    if matched == [] then None
    else if matched[|matched| - 1].id == id then Some(|matched| - 1)
    else Find(matched[..|matched| - 1], id)
  }

  function Ask(matched: seq<Event>, f: Filter, size: nat, cursor: Option<Cursor>): Answer
  {
    if cursor.None? then Answered(PageBelow(matched, f, |matched|, size))
    else if cursor.value.id == "" || cursor.value.filter != f then InvalidCursor
    else
      var at := Find(matched, cursor.value.id);
      if at.None? then InvalidCursor else Answered(PageBelow(matched, f, at.value, size))
  }

  method Filtered(es: seq<Event>, f: Filter) returns (matched: seq<Event>)
    ensures matched == Select(f, es)
  {
    matched := [];
    for i := 0 to |es|
      invariant matched == Select(f, es[..i])
    {
      assert es[..i + 1][..i] == es[..i];
      if Matches(f, es[i]) { matched := matched + [es[i]]; }
    }
    assert es[..|es|] == es;
  }

  lemma FindLast(matched: seq<Event>, i: nat, id: string)
    requires i < |matched|
    ensures Find(matched[..i + 1], id) == if matched[i].id == id then Some(i) else Find(matched[..i], id)
  {
    assert matched[..i + 1][..i] == matched[..i];
  }

  method Located(matched: seq<Event>, id: string) returns (at: Option<nat>)
    ensures at == Find(matched, id)
  {
    var i := |matched|;
    while i > 0
      invariant 0 <= i <= |matched| && Find(matched, id) == Find(matched[..i], id)
    {
      i := i - 1;
      FindLast(matched, i, id);
      if matched[i].id == id { return Some(i); }
    }
    return None;
  }

  method Collect(matched: seq<Event>, f: Filter, hi: nat, size: nat) returns (page: Page)
    requires hi <= |matched|
    ensures page == PageBelow(matched, f, hi, size)
  {
    var records, i := [], hi;
    while i > 0 && |records| < size
      invariant 0 <= i <= hi && |records| == hi - i <= size
      invariant records == Reverse(matched[i..hi])
    {
      i := i - 1;
      ReverseMore(matched, i, hi);
      records := records + [matched[i]];
    }
    assert i == Low(hi, size);
    page := Page(records, if i > 0 && records != [] then Some(Cursor(records[|records| - 1].id, f)) else None, |matched|);
  }

  lemma ReverseMore(s: seq<Event>, i: nat, hi: nat)
    requires i < hi <= |s|
    ensures Reverse(s[i..hi]) == Reverse(s[i + 1..hi]) + [s[i]]
  {
  }

  method Query(w: MemoryWriter, f: Filter, limit: int, cursor: Option<Cursor>) returns (r: Answer)
    requires w.Valid()
    ensures r == Ask(Select(f, Window(w.history)), f, PageSize(limit), cursor)
  {
    var all := w.Events();
    var matched := Filtered(all, f);
    var hi := |matched|;
    if cursor.Some? {
      if cursor.value.id == "" || cursor.value.filter != f { return InvalidCursor; }
      var at := Located(matched, cursor.value.id);
      if at.None? { return InvalidCursor; }
      hi := at.value;
    }
    var page := Collect(matched, f, hi, PageSize(limit));
    return Answered(page);
  }

  // ---------------------------------------------------------------------- paging

  function IdAt(h: seq<Event>, i: nat): string
    requires i < |h|
  {
    h[i].id
  }

  /** Every event has an identifier and no two the same. */
  ghost predicate UniqueIds(h: seq<Event>)
  {
    && (forall i :: 0 <= i < |h| ==> IdAt(h, i) != "")
    && (forall i, j :: 0 <= i < j < |h| ==> IdAt(h, i) != IdAt(h, j))
  }

  /** A sequence whose events come from `h`, in order, has unique identifiers too. */
  lemma PartUnique(h: seq<Event>, part: seq<Event>, at: nat -> nat)
    requires UniqueIds(h)
    requires forall i :: 0 <= i < |part| ==> at(i) < |h| && part[i] == h[at(i)]
    requires forall i, j :: 0 <= i < j < |part| ==> at(i) < at(j)
    ensures UniqueIds(part)
  {
    forall i | 0 <= i < |part| ensures IdAt(part, i) != "" { assert IdAt(part, i) == IdAt(h, at(i)); }
    forall i, j | 0 <= i < j < |part| ensures IdAt(part, i) != IdAt(part, j) {
      assert IdAt(part, i) == IdAt(h, at(i)) && IdAt(part, j) == IdAt(h, at(j));
    }
  }

  lemma {:induction false} SelectJoin(f: Filter, a: seq<Event>, b: seq<Event>)
    ensures Select(f, a + b) == Select(f, a) + Select(f, b)
  {
    if b == [] {
      assert a + b == a;
    } else {
      var front := b[..|b| - 1];
      SelectJoin(f, a, front);
      assert (a + b)[..|a + b| - 1] == a + front;
    }
  }

  lemma {:induction false} SelectUnique(f: Filter, es: seq<Event>)
    requires UniqueIds(es)
    ensures UniqueIds(Select(f, es))
  {
    if es != [] {
      var front, last := es[..|es| - 1], es[|es| - 1];
      PartUnique(es, front, i => i);
      SelectUnique(f, front);
      var r := Select(f, front);
      forall i | 0 <= i < |r| ensures IdAt(r, i) != last.id {
        assert r[i] in front;
        var k :| 0 <= k < |front| && front[k] == r[i];
        assert IdAt(es, k) != IdAt(es, |es| - 1);
      }
      assert last.id != "" by { assert IdAt(es, |es| - 1) != ""; }
      OneMoreUnique(r, last);
    }
  }

  lemma OneMoreUnique(r: seq<Event>, e: Event)
    requires UniqueIds(r) && e.id != "" && forall i :: 0 <= i < |r| ==> IdAt(r, i) != e.id
    ensures UniqueIds(r + [e])
  {
    var n := r + [e];
    forall i | 0 <= i < |n| ensures IdAt(n, i) != "" { if i < |r| { assert IdAt(n, i) == IdAt(r, i); } }
    forall i, j | 0 <= i < j < |n| ensures IdAt(n, i) != IdAt(n, j) {
      assert IdAt(n, i) == IdAt(r, i);
      if j < |r| { assert IdAt(n, j) == IdAt(r, j); }
    }
  }

  /** How many matching events of the snapshot a longer history has pushed out. */
  ghost function Evicted(f: Filter, h: seq<Event>, more: seq<Event>): nat
  {
    var gone := Gone(h, more);
    |Select(f, Window(h)[..gone])|
  }

  ghost function Gone(h: seq<Event>, more: seq<Event>): (g: nat)
    ensures g <= |Window(h)|
  {
    var out := |Window(h)| + |more| - |Window(h + more)|;
    if out > |Window(h)| then |Window(h)| else out
  }

  /** After more events the matching ones are what is left of the snapshot, then new
      ones. */
  lemma Later(f: Filter, h: seq<Event>, more: seq<Event>) returns (fresh_: seq<Event>)
    requires UniqueIds(h + more)
    ensures var s, e := Select(f, Window(h)), Evicted(f, h, more);
      && e <= |s| && Select(f, Window(h + more)) == s[e..] + fresh_
      && (forall x :: x in fresh_ ==> x in more)
  {
    var w, g := Window(h), Gone(h, more);
    var tail := if |Window(h + more)| >= |more| then more else more[|more| - |Window(h + more)|..];
    WindowSplits(h, more, tail);
    assert w == w[..g] + w[g..];
    SelectJoin(f, w[..g], w[g..]);
    SelectJoin(f, w[g..], tail);
    fresh_ := Select(f, tail);
    assert Select(f, w)[|Select(f, w[..g])|..] == Select(f, w[g..]);
  }

  lemma WindowSplits(h: seq<Event>, more: seq<Event>, tail: seq<Event>)
    requires tail == if |Window(h + more)| >= |more| then more else more[|more| - |Window(h + more)|..]
    ensures Window(h + more) == Window(h)[Gone(h, more)..] + tail
  {
    if |h| + |more| > LIMIT {
      if |more| >= LIMIT { AllNew(h, more, tail); } else { SomeNew(h, more); }
    }
  }

  lemma AllNew(h: seq<Event>, more: seq<Event>, tail: seq<Event>)
    requires |more| >= LIMIT && tail == more[|more| - LIMIT..]
    ensures Window(h + more) == Window(h)[Gone(h, more)..] + tail
  {
    DropJoinRight(h, more, |h| + |more| - LIMIT);
  }

  lemma SomeNew(h: seq<Event>, more: seq<Event>)
    requires |more| < LIMIT < |h| + |more|
    ensures Window(h + more) == Window(h)[Gone(h, more)..] + more
  {
    DropJoinLeft(h, more, |h| + |more| - LIMIT);
    assert Window(h + more) == h[|h| + |more| - LIMIT..] + more;
    if |h| > LIMIT {
      assert Gone(h, more) == |more|;
      DropDrop(h, |h| - LIMIT, |more|);
    }
  }

  lemma DropJoinLeft(a: seq<Event>, b: seq<Event>, k: nat)
    requires k <= |a|
    ensures (a + b)[k..] == a[k..] + b
  {
  }

  lemma DropJoinRight(a: seq<Event>, b: seq<Event>, k: nat)
    requires |a| <= k <= |a| + |b|
    ensures (a + b)[k..] == b[k - |a|..]
  {
  }

  lemma DropDrop(a: seq<Event>, i: nat, j: nat)
    requires i + j <= |a|
    ensures a[i..][j..] == a[i + j..]
  {
  }

  /** How far down a page of `size` reaches from `p` when `e` events are gone. */
  function Reach(p: nat, e: nat, size: nat): (lo: nat)
    requires e <= p
    ensures e <= lo <= p && (size > 0 && e < p ==> lo < p)
  {
    if p - e > size then p - size else e
  }

  lemma PageContinues(s: seq<Event>, e: nat, newer: seq<Event>, f: Filter, p: nat, size: nat)
    requires e <= p < |s|
    ensures var page, lo := PageBelow(s[e..] + newer, f, p - e, size), Reach(p, e, size);
      page.records == Reverse(s[lo..p]) && page.next == if e < lo < p then Some(Cursor(s[lo].id, f)) else None
  {
    var now, lo := s[e..] + newer, Reach(p, e, size);
    assert now[Low(p - e, size)..p - e] == s[lo..p];
  }

  /** What a cursor into snapshot `s` at `p` is answered when `e` of its events are
      gone: the snapshot goes on right below, or the cursor is refused. */
  ghost predicate Continues(s: seq<Event>, f: Filter, p: nat, e: nat, size: nat, r: Answer)
    requires p < |s|
  {
    if p < e then r == InvalidCursor
    else
      var lo := Reach(p, e, size);
      r.Answered? && r.page.records == Reverse(s[lo..p]) && r.page.next == if e < lo < p then Some(Cursor(s[lo].id, f)) else None
  }

  /** A cursor into a snapshot, used after any number of further writes, continues the
      snapshot right below the event it names, skipping nothing that is still kept;
      once that event was pushed out it is refused. */
  lemma CursorContinues(f: Filter, h: seq<Event>, more: seq<Event>, p: nat, size: nat, id: string)
    requires UniqueIds(h + more) && p < |Select(f, Window(h))| && id == Select(f, Window(h))[p].id
    ensures Continues(Select(f, Window(h)), f, p, Evicted(f, h, more), size,
                      Ask(Select(f, Window(h + more)), f, size, Some(Cursor(id, f))))
  {
    var newer := Later(f, h, more);
    RestContinues(f, h, more, Select(f, Window(h)), Evicted(f, h, more), newer, p, size, id);
  }

  lemma RestContinues(f: Filter, h: seq<Event>, more: seq<Event>, s: seq<Event>, e: nat, newer: seq<Event>, p: nat, size: nat, id: string)
    requires UniqueIds(h + more) && s == Select(f, Window(h)) && p < |s| && e <= |s| && id == s[p].id
    requires forall x :: x in newer ==> x in more
    ensures Continues(s, f, p, e, size, Ask(s[e..] + newer, f, size, Some(Cursor(id, f))))
  {
    var now := s[e..] + newer;
    SnapshotPosition(f, h, more, s, e, newer, now, p);
    AnswerContinues(s, f, p, e, newer, size, now, Ask(now, f, size, Some(Cursor(id, f))));
  }

  lemma AnswerContinues(s: seq<Event>, f: Filter, p: nat, e: nat, newer: seq<Event>, size: nat, now: seq<Event>, r: Answer)
    requires p < |s| && e <= |s| && now == s[e..] + newer
    requires r == if p < e then InvalidCursor else Answered(PageBelow(now, f, p - e, size))
    ensures Continues(s, f, p, e, size, r)
  {
    if p >= e { PageContinues(s, e, newer, f, p, size); }
  }

  lemma WindowUnique(h: seq<Event>)
    requires UniqueIds(h)
    ensures UniqueIds(Window(h))
  {
    PartUnique(h, Window(h), i => |h| - |Window(h)| + i);
  }

  lemma OldAndNew(h: seq<Event>, more: seq<Event>, x: Event, y: Event)
    requires UniqueIds(h + more) && x in h && y in more
    ensures x.id != y.id
  {
    var i :| 0 <= i < |h| && h[i] == x;
    var j :| 0 <= j < |more| && more[j] == y;
    assert IdAt(h + more, i) != IdAt(h + more, |h| + j);
  }

  lemma PrefixUnique(h: seq<Event>, more: seq<Event>)
    requires UniqueIds(h + more)
    ensures UniqueIds(h)
  {
    PartUnique(h + more, h, i => i);
  }

  /** Where the rest of a snapshot, followed by newer events, has the event that was
      at `p`. */
  lemma FoundAt(s: seq<Event>, e: nat, newer: seq<Event>, p: nat)
    requires UniqueIds(s) && p < |s| && e <= |s| && forall x :: x in newer ==> x.id != s[p].id
    ensures Find(s[e..] + newer, s[p].id) == if p < e then None else Some(p - e)
  {
    var now := s[e..] + newer;
    forall k | 0 <= k < |now| && k != p - e ensures now[k].id != s[p].id {
      if k < |s| - e {
        assert now[k] == s[e + k];
        assert IdAt(s, e + k) != IdAt(s, p);
      } else {
        assert now[k] in newer;
      }
    }
    if p >= e { assert now[p - e] == s[p]; }
  }

  lemma SnapshotPosition(f: Filter, h: seq<Event>, more: seq<Event>, s: seq<Event>, e: nat, newer: seq<Event>, now: seq<Event>, p: nat)
    requires UniqueIds(h + more) && s == Select(f, Window(h)) && p < |s| && e <= |s|
    requires now == s[e..] + newer && forall x :: x in newer ==> x in more
    ensures s[p].id != ""
    ensures Find(now, s[p].id) == if p < e then None else Some(p - e)
  {
    PrefixUnique(h, more);
    WindowUnique(h);
    SelectUnique(f, Window(h));
    assert IdAt(s, p) != "";
    assert s[p] in s && s[p] in Window(h) && s[p] in h;
    forall x | x in newer ensures x.id != s[p].id { OldAndNew(h, more, s[p], x); }
    FoundAt(s, e, newer, p);
  }

  // ------------------------------------------------------------- following cursors

  ghost function Joined(batches: seq<seq<Event>>, n: nat): seq<Event>
    requires n <= |batches|
  {
    if n == 0 then [] else Joined(batches, n - 1) + batches[n - 1]
  }

  lemma {:induction false} JoinedPrefix(batches: seq<seq<Event>>, n: nat, m: nat) returns (rest: seq<Event>)
    requires n <= m <= |batches|
    ensures Joined(batches, m) == Joined(batches, n) + rest
  {
    if n == m {
      rest := [];
    } else {
      rest := JoinedPrefix(batches, n, m - 1);
      rest := rest + batches[m - 1];
    }
  }

  method WriteAll(w: MemoryWriter, batch: seq<Event>)
    requires w.Valid()
    modifies w, w.events
    ensures w.Valid() && w.history == old(w.history) + batch
  {
    for i := 0 to |batch|
      invariant w.Valid() && w.history == old(w.history) + batch[..i]
    {
      w.Write(batch[i]);
      assert batch[..i + 1] == batch[..i] + [batch[i]];
    }
    assert batch[..|batch|] == batch;
  }

  ghost function Snapshot(f: Filter, h: seq<Event>): seq<Event> { Select(f, Window(h)) }

  ghost function EvictedBy(f: Filter, h: seq<Event>, batches: seq<seq<Event>>, n: nat): nat
    requires n <= |batches|
  {
    Evicted(f, h, Joined(batches, n))
  }

  /** The snapshot of a history, newest first, and how many of its oldest events are
      gone after each batch. */
  datatype Course = Course(newest: seq<Event>, evicted: seq<nat>)

  ghost predicate CourseOf(c: Course, f: Filter, h: seq<Event>, batches: seq<seq<Event>>)
  {
    && c.newest == Reverse(Snapshot(f, h)) && |c.evicted| == |batches| + 1
    && forall n {:trigger EvictedBy(f, h, batches, n)} :: 0 <= n <= |batches| ==> c.evicted[n] == EvictedBy(f, h, batches, n)
  }

  lemma Planned(f: Filter, h: seq<Event>, batches: seq<seq<Event>>) returns (c: Course)
    ensures CourseOf(c, f, h, batches)
  {
    c := Course(Reverse(Snapshot(f, h)), seq(|batches| + 1, n requires 0 <= n <= |batches| => EvictedBy(f, h, batches, n)));
  }

  /** The length of `n` full pages. */
  ghost function FullPages(n: nat, size: nat): nat { if n == 0 then 0 else FullPages(n - 1, size) + size }

  /** What has been read of the snapshot: its newest `|records|` events, in order. With
      a cursor, which names the last of them, these are `n + 1` full pages; with none
      they are all that was still kept when batch `n` had arrived. */
  ghost predicate ReadOn(c: Course, f: Filter, size: nat, records: seq<Event>, cursor: Option<Cursor>, n: nat)
  {
    && n < |c.evicted| && records <= c.newest
    && (if cursor.Some? then records != [] && cursor.value == Cursor(records[|records| - 1].id, f) && |records| == FullPages(n + 1, size)
        else |records| + c.evicted[n] == |c.newest|)
  }

  lemma ReverseTake(s: seq<Event>, lo: nat)
    requires lo <= |s|
    ensures Reverse(s[lo..]) == Reverse(s)[..|s| - lo]
  {
  }

  method FirstPage(w: MemoryWriter, f: Filter, limit: int, ghost batches: seq<seq<Event>>, ghost c: Course)
    returns (records: seq<Event>, cursor: Option<Cursor>)
    requires w.Valid() && CourseOf(c, f, w.history, batches)
    ensures ReadOn(c, f, PageSize(limit), records, cursor, 0)
  {
    var first := Query(w, f, limit, None);
    records, cursor := first.page.records, first.page.next;
    ghost var h, s := w.history, Snapshot(f, w.history);
    ghost var lo := Low(|s|, PageSize(limit));
    assert s[lo..|s|] == s[lo..];
    ReverseTake(s, lo);
    assert FullPages(1, PageSize(limit)) == PageSize(limit);
    assert h + [] == h && Gone(h, []) == 0 && EvictedBy(f, h, batches, 0) == 0;
  }

  /** A further page of snapshot `s`, of which `records` are read, joined to them. */
  lemma Joins(s: seq<Event>, newest: seq<Event>, f: Filter, records: seq<Event>, p: nat, e: nat, size: nat, page: Page)
    requires newest == Reverse(s) && e <= p < |s| && records == newest[..|s| - p] && Continued(s, f, p, e, size, page)
    ensures records + page.records == newest[..|s| - Reach(p, e, size)]
    ensures page.next.Some? ==> page.next.value == Cursor(newest[|s| - Reach(p, e, size) - 1].id, f)
  {
    ReverseTake(s, p);
    ReverseTake(s, Reach(p, e, size));
  }

  lemma ReadFurther(c: Course, s: seq<Event>, f: Filter, size: nat, records: seq<Event>, cursor: Cursor, k: nat, p: nat, page: Page)
    requires ReadOn(c, f, size, records, Some(cursor), k) && k + 1 < |c.evicted| && c.newest == Reverse(s)
    requires p == |s| - |records| && c.evicted[k + 1] <= p < |s| && Continued(s, f, p, c.evicted[k + 1], size, page)
    ensures ReadOn(c, f, size, records + page.records, page.next, k + 1)
  {
    Joins(s, c.newest, f, records, p, c.evicted[k + 1], size, page);
  }

  /** The cursor names the event where the reading stopped. */
  lemma CursorPlace(c: Course, s: seq<Event>, f: Filter, size: nat, records: seq<Event>, cursor: Cursor, k: nat)
    requires ReadOn(c, f, size, records, Some(cursor), k) && c.newest == Reverse(s)
    ensures 0 < |records| <= |s| && cursor == Cursor(s[|s| - |records|].id, f)
  {
  }

  /** What the cursor of a reading is answered once another batch has arrived. */
  lemma Answers(c: Course, f: Filter, size: nat, h: seq<Event>, batches: seq<seq<Event>>, k: nat, records: seq<Event>, cursor: Cursor)
    returns (p: nat)
    requires k < |batches| && UniqueIds(h + Joined(batches, k + 1))
    requires CourseOf(c, f, h, batches) && ReadOn(c, f, size, records, Some(cursor), k)
    ensures |records| <= |c.newest| && p == |c.newest| - |records| < |Snapshot(f, h)|
    ensures Continues(Snapshot(f, h), f, p, c.evicted[k + 1], size, Ask(Snapshot(f, h + Joined(batches, k + 1)), f, size, Some(cursor)))
  {
    p := |c.newest| - |records|;
    CursorPlace(c, Snapshot(f, h), f, size, records, cursor, k);
    assert c.evicted[k + 1] == EvictedBy(f, h, batches, k + 1);
    CursorContinues(f, h, Joined(batches, k + 1), p, size, cursor.id);
  }

  /** And what that makes of the reading. */
  lemma Extends(c: Course, s: seq<Event>, f: Filter, size: nat, k: nat, records: seq<Event>, cursor: Cursor, p: nat, a: Answer)
    requires size > 0 && ReadOn(c, f, size, records, Some(cursor), k) && k + 1 < |c.evicted| && c.newest == Reverse(s)
    requires p == |s| - |records| < |s| && Continues(s, f, p, c.evicted[k + 1], size, a)
    ensures a.Answered? ==> ReadOn(c, f, size, records + a.page.records, a.page.next, k + 1)
    ensures a.InvalidCursor? ==> |c.newest| - |records| < c.evicted[k + 1]
  {
    if a.Answered? {
      PageJoins(s, f, p, c.evicted[k + 1], size, a);
      ReadFurther(c, s, f, size, records, cursor, k, p, a.page);
    }
  }

  method FurtherPage(w: MemoryWriter, f: Filter, limit: int, ghost batches: seq<seq<Event>>, ghost k: nat, ghost h: seq<Event>, ghost c: Course,
                     records: seq<Event>, cursor: Cursor)
    returns (ok: bool, records': seq<Event>, cursor': Option<Cursor>)
    requires w.Valid() && k < |batches| && w.history == h + Joined(batches, k + 1) && UniqueIds(w.history)
    requires CourseOf(c, f, h, batches) && ReadOn(c, f, PageSize(limit), records, Some(cursor), k)
    ensures ok ==> ReadOn(c, f, PageSize(limit), records', cursor', k + 1)
    ensures !ok ==> records' == records && cursor' == Some(cursor) && |c.newest| - |records| < c.evicted[k + 1]
  {
    var answer := Query(w, f, limit, Some(cursor));
    ghost var p := Answers(c, f, PageSize(limit), h, batches, k, records, cursor);
    Extends(c, Snapshot(f, h), f, PageSize(limit), k, records, cursor, p, answer);
    ok, records', cursor' := answer.Answered?, records, Some(cursor);
    if ok { records', cursor' := records + answer.page.records, answer.page.next; }
  }

  /** Batch `k` arrives. */
  method Arrive(w: MemoryWriter, batches: seq<seq<Event>>, k: nat, ghost h: seq<Event>)
    requires w.Valid() && k < |batches| && w.history == h + Joined(batches, k) && UniqueIds(h + Joined(batches, |batches|))
    modifies w, w.events
    ensures w.Valid() && w.history == h + Joined(batches, k + 1) && UniqueIds(w.history)
  {
    WriteAll(w, batches[k]);
    assert h + Joined(batches, k) + batches[k] == h + Joined(batches, k + 1);
    StillUnique(h, batches, k + 1);
  }

  method ArriveAndRead(w: MemoryWriter, f: Filter, limit: int, batches: seq<seq<Event>>, k: nat, ghost h: seq<Event>, ghost c: Course,
                       records: seq<Event>, cursor: Cursor)
    returns (ok: bool, records': seq<Event>, cursor': Option<Cursor>)
    requires w.Valid() && k < |batches| && w.history == h + Joined(batches, k) && UniqueIds(h + Joined(batches, |batches|))
    requires CourseOf(c, f, h, batches) && ReadOn(c, f, PageSize(limit), records, Some(cursor), k)
    modifies w, w.events
    ensures w.Valid() && w.history == h + Joined(batches, k + 1)
    ensures ok ==> ReadOn(c, f, PageSize(limit), records', cursor', k + 1)
    ensures !ok ==> records' == records && cursor' == Some(cursor) && |c.newest| - |records| < c.evicted[k + 1]
  {
    Arrive(w, batches, k, h);
    ok, records', cursor' := FurtherPage(w, f, limit, batches, k, h, c, records, cursor);
  }

  /** The pages after the first. */
  method FollowOn(w: MemoryWriter, f: Filter, limit: int, batches: seq<seq<Event>>, ghost h: seq<Event>, ghost c: Course,
                  first: seq<Event>, next: Option<Cursor>)
    returns (records: seq<Event>, cursor: Option<Cursor>, n: nat)
    requires w.Valid() && w.history == h + Joined(batches, 0) && UniqueIds(h + Joined(batches, |batches|))
    requires CourseOf(c, f, h, batches) && ReadOn(c, f, PageSize(limit), first, next, 0)
    modifies w, w.events
    ensures n <= |batches| && ReadOn(c, f, PageSize(limit), records, cursor, n)
    ensures cursor.Some? && n < |batches| ==> |c.newest| - |records| < c.evicted[n + 1]
  {
    records, cursor, n := first, next, 0;
    while cursor.Some? && n < |batches|
      invariant n <= |batches| && w.Valid() && w.history == h + Joined(batches, n)
      invariant ReadOn(c, f, PageSize(limit), records, cursor, n)
    {
      var ok;
      ok, records, cursor := ArriveAndRead(w, f, limit, batches, n, h, c, records, cursor.value);
      if !ok { return; }
      n := n + 1;
    }
  }

  /** Reading page after page while `batches` of new events arrive in between. What is
      returned is always the newest part of the first page's snapshot, newest first,
      without a gap or a repeat. It is all of the snapshot that was still kept when the
      last page was reached; or full pages only, because the batches ran out or the
      next cursor's event had been evicted. */
  method Follow(w: MemoryWriter, f: Filter, limit: int, batches: seq<seq<Event>>)
    returns (records: seq<Event>, cursor: Option<Cursor>, n: nat, ghost c: Course)
    requires w.Valid() && UniqueIds(w.history + Joined(batches, |batches|))
    modifies w, w.events
    ensures CourseOf(c, f, old(w.history), batches) && n <= |batches|
    ensures ReadOn(c, f, PageSize(limit), records, cursor, n)
    ensures cursor.Some? && n < |batches| ==> |c.newest| - |records| < c.evicted[n + 1]
  {
    c := Planned(f, w.history, batches);
    records, cursor := FirstPage(w, f, limit, batches, c);
    assert w.history + Joined(batches, 0) == w.history;
    records, cursor, n := FollowOn(w, f, limit, batches, w.history, c, records, cursor);
  }

  /** What was read down to `p` goes on with this page, and if it has no cursor nothing
      of the snapshot that is still kept is missing. */
  ghost predicate Continued(s: seq<Event>, f: Filter, p: nat, e: nat, size: nat, page: Page)
    requires e <= p < |s|
  {
    var lo := Reach(p, e, size);
    && Reverse(s[p..]) + page.records == Reverse(s[lo..])
    && (if page.next.Some? then lo < |s| && page.next.value == Cursor(s[lo].id, f) && |page.records| == size else lo == e)
  }

  lemma PageJoins(s: seq<Event>, f: Filter, p: nat, e: nat, size: nat, r: Answer)
    requires p < |s| && size > 0 && Continues(s, f, p, e, size, r) && r.Answered?
    ensures e <= p && Continued(s, f, p, e, size, r.page)
  {
    ReverseJoin(s, Reach(p, e, size), p);
  }

  lemma StillUnique(h: seq<Event>, batches: seq<seq<Event>>, n: nat)
    requires n <= |batches| && UniqueIds(h + Joined(batches, |batches|))
    ensures UniqueIds(h + Joined(batches, n))
  {
    var rest := JoinedPrefix(batches, n, |batches|);
    assert h + Joined(batches, |batches|) == (h + Joined(batches, n)) + rest;
    PrefixUnique(h + Joined(batches, n), rest);
  }

  lemma ReverseJoin(s: seq<Event>, down: nat, lo: nat)
    requires down <= lo <= |s|
    ensures Reverse(s[lo..]) + Reverse(s[down..lo]) == Reverse(s[down..])
  {
    var a, b := Reverse(s[lo..]) + Reverse(s[down..lo]), Reverse(s[down..]);
    forall i | 0 <= i < |b| ensures a[i] == b[i] {}
  }
}
