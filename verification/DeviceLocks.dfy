/** Per-device locking (control-plane/internal/orchestration/target_runtime_service.go,
    `WithLocalMountDeviceLocks`): the requested keys are sorted and deduplicated in
    place, the locks taken in that order and given back in reverse. */
module DeviceLocks {
  import opened StringOrder
  import Utf8

  ghost predicate Increasing(s: seq<string>)
  {
    forall i, j :: 0 <= i < j < |s| ==> Less(s[i], s[j])
  }

  predicate Blank(key: string) { Utf8.Trim(key) == "" }

  // ----------------------------------------------------------------- lock order

  /** The in-place pass: `keys[..w]` are the keys seen so far that are not blank, each
      once. */
  method Dedup(keys: array<string>) returns (w: nat)
    requires Sorted(keys[..])
    modifies keys
    ensures w <= keys.Length && Increasing(keys[..w])
    ensures forall k :: k in keys[..w] <==> k in old(keys[..]) && !Blank(k)
  {
    w := 0;
    ghost var all := keys[..];
    for i := 0 to keys.Length
      invariant w <= i && Increasing(keys[..w])
      invariant forall j :: i <= j < keys.Length ==> keys[j] == all[j]
      invariant forall k :: k in keys[..w] <==> k in all[..i] && !Blank(k)
    {
      var key := keys[i];
      ghost var kept := keys[..w];
      assert key == all[i] && all[..i + 1] == all[..i] + [key];
      if Blank(key) || (w > 0 && keys[w - 1] == key) {
        assert w > 0 && keys[w - 1] == key ==> key in kept;
        continue;
      }
      NewKey(all, i, kept, key);
      keys[w] := key;
      w := w + 1;
      assert keys[..w] == kept + [key];
    }
    assert all[..keys.Length] == all;
  }

  lemma NewKey(all: seq<string>, i: nat, kept: seq<string>, key: string)
    requires Sorted(all) && i < |all| && all[i] == key && Increasing(kept) && !Blank(key)
    requires forall k :: k in kept <==> k in all[..i] && !Blank(k)
    requires kept != [] ==> kept[|kept| - 1] != key
    ensures Increasing(kept + [key])
  {
    forall j | 0 <= j < |kept| ensures Less(kept[j], key) {
      assert kept[j] in kept;
      var p :| 0 <= p < i && all[p] == kept[j];
      if j < |kept| - 1 {
        var last := kept[|kept| - 1];
        assert last in kept;
        var q :| 0 <= q < i && all[q] == last;
        LessTransitive(kept[j], last, key);
      }
    }
  }

  method LockOrder(requested: seq<string>) returns (unique: seq<string>)
    ensures Increasing(unique)
    ensures forall k :: k in unique <==> k in requested && !Blank(k)
  {
    var sorted := Sort(requested);
    var keys := new string[|sorted|](i requires 0 <= i < |sorted| => sorted[i]);
    assert keys[..] == sorted;
    var w := Dedup(keys);
    unique := keys[..w];
    forall k ensures k in sorted <==> k in requested { assert k in sorted <==> k in multiset(sorted); }
  }

  // -------------------------------------------------------------------- threads

  /** A call with its keys in lock order: it holds the first `held` of them, and is
      taking more or giving them back. */
  datatype Call = Call(keys: seq<string>, held: nat, leaving: bool)

  predicate Finished(c: Call) { c.leaving && c.held == 0 }
  predicate Waits(c: Call) { !c.leaving && c.held < |c.keys| }

  predicate HoldsKey(c: Call, key: string) { c.held <= |c.keys| && key in c.keys[..c.held] }

  ghost predicate Fine(c: Call) { c.held <= |c.keys| && Increasing(c.keys) }

  /** Every call locks in order and no lock is held twice. */
  ghost predicate Inv(s: seq<Call>)
  {
    && (forall t :: 0 <= t < |s| ==> Fine(s[t]))
    && (forall t, u, key :: 0 <= t < |s| && 0 <= u < |s| && t != u && HoldsKey(s[t], key) ==> !HoldsKey(s[u], key))
  }

  /** Call `t` can take its next lock, end its operation, or give a lock back. */
  ghost predicate CanStep(s: seq<Call>, t: nat)
  {
    && t < |s| && !Finished(s[t])
    && (Waits(s[t]) ==> forall u :: 0 <= u < |s| ==> !HoldsKey(s[u], s[t].keys[s[t].held]))
  }

  function Stepped(c: Call): Call
    requires !Finished(c)
  {
    if Waits(c) then c.(held := c.held + 1)
    else if !c.leaving then c.(leaving := true)
    else c.(held := c.held - 1)
  }

  lemma HoldsLess(c: Call, d: Call, key: string)
    requires c.keys == d.keys && c.held <= d.held <= |d.keys| && HoldsKey(c, key)
    ensures HoldsKey(d, key)
  {
    var i :| 0 <= i < c.held && c.keys[i] == key;
    assert d.keys[..d.held][i] == key;
  }

  lemma HoldsOneMore(c: Call, key: string)
    requires Waits(c) && HoldsKey(c.(held := c.held + 1), key)
    ensures HoldsKey(c, key) || key == c.keys[c.held]
  {
    assert c.keys[..c.held + 1] == c.keys[..c.held] + [c.keys[c.held]];
  }

  /** A step keeps mutual exclusion. */
  lemma StepKeeps(s: seq<Call>, t: nat)
    requires Inv(s) && CanStep(s, t)
    ensures Inv(s[t := Stepped(s[t])])
  {
    var c, n := s[t], s[t := Stepped(s[t])];
    forall u, key | 0 <= u < |s| && u != t && HoldsKey(n[t], key) ensures !HoldsKey(s[u], key) {
      if Waits(c) { HoldsOneMore(c, key); } else { HoldsLess(n[t], c, key); }
    }
  }

  /** And so does another caller with its keys in order. */
  lemma ArrivalKeeps(s: seq<Call>, keys: seq<string>)
    requires Inv(s) && Increasing(keys)
    ensures Inv(s + [Call(keys, 0, false)])
  {
  }

  // ------------------------------------------------------------------- progress

  /** The key a waiting call wants lies above every key it holds. */
  lemma WantsAbove(c: Call, key: string)
    requires Fine(c) && Waits(c) && HoldsKey(c, key)
    ensures Less(key, c.keys[c.held])
  {
    var i :| 0 <= i < c.held && c.keys[i] == key;
  }

  /** Of several waiting calls, one wants the greatest key. */
  lemma {:induction false} GreatestWish(s: seq<Call>, n: nat) returns (t: nat)
    requires n <= |s| && exists u :: 0 <= u < n && Waits(s[u])
    ensures t < n && Waits(s[t]) && forall u :: 0 <= u < n && Waits(s[u]) ==> Leq(s[u].keys[s[u].held], s[t].keys[s[t].held])
  {
    var last := n - 1;
    if !(exists u :: 0 <= u < last && Waits(s[u])) {
      t := last;
      Reflexive(s[t].keys[s[t].held]);
    } else {
      t := GreatestWish(s, last);
      if Waits(s[last]) {
        var a, b := s[last].keys[s[last].held], s[t].keys[s[t].held];
        Total(a, b);
        if !Leq(a, b) {
          forall u | 0 <= u < last && Waits(s[u]) ensures Leq(s[u].keys[s[u].held], a) {
            Transitive(s[u].keys[s[u].held], b, a);
          }
          t := last;
          Reflexive(a);
        }
      }
    }
  }

  /** No deadlock: while a call is unfinished, some call can step. */
  lemma SomeoneCanStep(s: seq<Call>, v: nat) returns (t: nat)
    requires Inv(s) && v < |s| && !Finished(s[v])
    ensures CanStep(s, t)
  {
    if x :| 0 <= x < |s| && !Finished(s[x]) && !Waits(s[x]) {
      t := x;
    } else {
      assert Waits(s[v]);
      t := GreatestWish(s, |s|);
      var wish := s[t].keys[s[t].held];
      forall u | 0 <= u < |s| ensures !HoldsKey(s[u], wish) {
        if Waits(s[u]) {
          if HoldsKey(s[u], wish) {
            WantsAbove(s[u], wish);
            Antisymmetric(wish, s[u].keys[s[u].held]);
          }
        } else {
          assert Finished(s[u]);
        }
      }
    }
  }

  // ----------------------------------------------------------------- termination

  function Left(c: Call): nat
    requires c.held <= |c.keys|
  {
    if c.leaving then c.held else 2 * |c.keys| - c.held + 1
  }

  ghost function Work(s: seq<Call>): nat
    requires forall t :: 0 <= t < |s| ==> s[t].held <= |s[t].keys|
  {
    if s == [] then 0 else Left(s[0]) + Work(s[1..])
  }

  lemma {:induction false} WorkAt(s: seq<Call>, t: nat, c: Call)
    requires (forall u :: 0 <= u < |s| ==> s[u].held <= |s[u].keys|) && t < |s| && c.held <= |c.keys|
    ensures Work(s[t := c]) == Work(s) - Left(s[t]) + Left(c)
  {
    var n := s[t := c];
    if t == 0 {
      assert n[1..] == s[1..];
    } else {
      WorkAt(s[1..], t - 1, c);
      assert n[1..] == s[1..][t - 1 := c];
    }
  }

  lemma {:induction false} NoWorkLeft(s: seq<Call>, t: nat)
    requires (forall u :: 0 <= u < |s| ==> s[u].held <= |s[u].keys|) && Work(s) == 0 && t < |s|
    ensures Finished(s[t])
  {
    if t > 0 { NoWorkLeft(s[1..], t - 1); }
  }

  lemma {:induction false} NothingToDo(s: seq<Call>)
    requires forall u :: 0 <= u < |s| ==> s[u].held <= |s[u].keys| && Finished(s[u])
    ensures Work(s) == 0
  {
    if s != [] { NothingToDo(s[1..]); }
  }

  lemma {:induction false} WorkOfOneMore(s: seq<Call>, c: Call)
    requires (forall u :: 0 <= u < |s| ==> s[u].held <= |s[u].keys|) && c.held <= |c.keys|
    ensures Work(s + [c]) == Work(s) + Left(c)
  {
    if s != [] {
      WorkOfOneMore(s[1..], c);
      assert (s + [c])[1..] == s[1..] + [c];
    } else {
      assert s + [c] == [c];
    }
  }

  /** A call steps, or another caller arrives. */
  datatype Event = Step(t: nat) | Arrive(keys: seq<string>)

  ghost predicate Happens(s: seq<Call>, m: Event)
  {
    match m
    case Step(t) => CanStep(s, t)
    case Arrive(keys) => Increasing(keys)
  }

  ghost function After(s: seq<Call>, m: Event): seq<Call>
    requires Happens(s, m)
  {
    match m
    case Step(t) => s[t := Stepped(s[t])]
    case Arrive(keys) => s + [Call(keys, 0, false)]
  }

  /** `schedule` can take the calls from `s` to `e`. */
  ghost predicate Leads(s: seq<Call>, schedule: seq<Event>, e: seq<Call>)
    decreases |schedule|
  {
    if schedule == [] then s == e else Happens(s, schedule[0]) && Leads(After(s, schedule[0]), schedule[1..], e)
  }

  /** The steps of a schedule, and the work its arrivals bring. */
  ghost function Steps(schedule: seq<Event>): nat
  {
    if schedule == [] then 0 else (if schedule[0].Step? then 1 else 0) + Steps(schedule[1..])
  }

  ghost function Brought(schedule: seq<Event>): nat
  {
    if schedule == [] then 0
    else (if schedule[0].Arrive? then 2 * |schedule[0].keys| + 1 else 0) + Brought(schedule[1..])
  }

  lemma EventKeeps(s: seq<Call>, m: Event)
    requires Inv(s) && Happens(s, m)
    ensures Inv(After(s, m))
    ensures Work(After(s, m)) == Work(s) + if m.Arrive? then 2 * |m.keys| + 1 else -1
  {
    match m
    case Step(t) =>
      StepKeeps(s, t);
      WorkAt(s, t, Stepped(s[t]));
    case Arrive(keys) =>
      ArrivalKeeps(s, keys);
      WorkOfOneMore(s, Call(keys, 0, false));
  }

  /** Whoever is scheduled and whoever arrives, each step uses up one unit of work.
      All calls are finished exactly when the steps have used up what was there and
      what arrived; by `SomeoneCanStep` a schedule can go on until then. */
  lemma {:induction false} EverySchedule(s: seq<Call>, schedule: seq<Event>, e: seq<Call>)
    requires Inv(s) && Leads(s, schedule, e)
    ensures Inv(e) && Steps(schedule) + Work(e) == Work(s) + Brought(schedule)
    ensures Steps(schedule) == Work(s) + Brought(schedule) <==> forall t :: 0 <= t < |e| ==> Finished(e[t])
    decreases |schedule|
  {
    if schedule != [] {
      EventKeeps(s, schedule[0]);
      EverySchedule(After(s, schedule[0]), schedule[1..], e);
    } else if Work(s) == 0 {
      forall t | 0 <= t < |e| ensures Finished(e[t]) { NoWorkLeft(e, t); }
    } else if forall t :: 0 <= t < |e| ==> Finished(e[t]) {
      NothingToDo(e);
    }
  }
}
