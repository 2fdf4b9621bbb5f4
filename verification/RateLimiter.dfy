/** The fixed-window request limiter (control-plane/internal/api/rate_limiter.go):
    one bucket a client, counters per request class, old buckets pruned. Times are in
    nanoseconds. */
module RateLimiter {
  import opened Bytes
  import Collections

  const WINDOW: nat := 60_000_000_000
  const MAX_BUCKETS: nat := 4096
  const MAX_OVERALL: nat := 300
  const MAX_SUPPORT: nat := 3
  const MAX_DISCOVERY: nat := 30

  datatype Class = General | Support | Discovery
  datatype Bucket = Bucket(start: int, total: nat, support: nat, discovery: nat)
  datatype Reply = Allowed | Refused(retry: int)

  function RequestClass(path: string): Class
  {
    if path == "/v1/support/bundle" then Support
    else if path == "/v1/storage/disks/discovery" then Discovery
    else General
  }

  // ------------------------------------------------------------------ one request

  function Fresh(now: int): Bucket { Bucket(now, 0, 0, 0) }

  /** The bucket a request counts in: a new one if there is none or its window is over. */
  function Current(b: Option<Bucket>, now: int): Bucket
  {
    if b.None? || now - b.value.start >= WINDOW then Fresh(now) else b.value
  }

  function Bump(n: nat, max: nat): nat { if n <= max then n + 1 else n }

  function Counted(b: Bucket, c: Class): Bucket
  {
    b.(total := Bump(b.total, MAX_OVERALL),
       support := if c == Support then Bump(b.support, MAX_SUPPORT) else b.support,
       discovery := if c == Discovery then Bump(b.discovery, MAX_DISCOVERY) else b.discovery)
  }

  predicate Within(b: Bucket, c: Class)
  {
    && b.total <= MAX_OVERALL
    && (c == Support ==> b.support <= MAX_SUPPORT)
    && (c == Discovery ==> b.discovery <= MAX_DISCOVERY)
  }

  /** The answer to a request and the bucket it leaves, when the table has room. */
  function Answer(b: Option<Bucket>, c: Class, now: int): (Bucket, Reply)
  {
    var n := Counted(Current(b, now), c);
    (n, if Within(n, c) then Allowed else Refused(WINDOW - (now - n.start)))
  }

  predicate Old(b: Bucket, now: int) { now - b.start >= 2 * WINDOW }

  /** Pruning a bucket does not change any later answer to its client. */
  lemma PruningIsInvisible(b: Bucket, c: Class, now: int, later: int)
    requires Old(b, now) && now <= later
    ensures Answer(Some(b), c, later) == Answer(None, c, later)
  {
  }

  // ---------------------------------------------------------------------- history

  /** A request that was allowed, with the window it was counted in. */
  datatype Entry = Entry(client: string, class_: Class, at: int, start: int)

  predicate Counts(e: Entry, client: string, class_: Option<Class>)
  {
    e.client == client && (class_.None? || e.class_ == class_.value)
  }

  /** Allowed requests of a client, of one class or all, in the window from `start`. */
  ghost function InWindow(log: seq<Entry>, client: string, class_: Option<Class>, start: int): nat
  {
    if log == [] then 0
    else
      var e := log[|log| - 1];
      InWindow(log[..|log| - 1], client, class_, start) + if Counts(e, client, class_) && e.start == start then 1 else 0
  }

  /** Allowed requests of a client at times from `a` to less than `b`. */
  ghost function InSpan(log: seq<Entry>, client: string, class_: Option<Class>, a: int, b: int): nat
  {
    if log == [] then 0
    else
      var e := log[|log| - 1];
      InSpan(log[..|log| - 1], client, class_, a, b) + if Counts(e, client, class_) && a <= e.at < b then 1 else 0
  }

  function Limit(class_: Option<Class>): nat
  {
    match class_
    case None => MAX_OVERALL
    case Some(General) => MAX_OVERALL
    case Some(Support) => MAX_SUPPORT
    case Some(Discovery) => MAX_DISCOVERY
  }

  /** Every window of every client stays within its limits, and two windows of a client
      start at least one window apart. */
  ghost predicate Spaced(log: seq<Entry>)
  {
    && (forall i :: 0 <= i < |log| ==> log[i].start <= log[i].at < log[i].start + WINDOW)
    && (forall i, j :: 0 <= i < j < |log| && log[i].client == log[j].client ==>
          log[i].start == log[j].start || log[i].start + WINDOW <= log[j].start)
  }

  ghost predicate Limited(log: seq<Entry>)
  {
    forall client, class_, start :: InWindow(log, client, class_, start) <= Limit(class_)
  }

  lemma {:induction false} SpanWithin(log: seq<Entry>, client: string, class_: Option<Class>, a: int, b: int, s: int, t: int)
    requires forall i :: 0 <= i < |log| && Counts(log[i], client, class_) && a <= log[i].at < b ==> log[i].start == s || log[i].start == t
    ensures InSpan(log, client, class_, a, b) <= InWindow(log, client, class_, s) + InWindow(log, client, class_, t)
  {
    if log != [] { SpanWithin(log[..|log| - 1], client, class_, a, b, s, t); }
  }

  ghost predicate Touches(e: Entry, client: string, class_: Option<Class>, a: int)
  {
    Counts(e, client, class_) && a <= e.at < a + WINDOW
  }

  /** A span of one window meets at most two windows of a client. */
  lemma TwoWindows(log: seq<Entry>, client: string, class_: Option<Class>, a: int) returns (s: int, t: int)
    requires Spaced(log)
    ensures forall i :: 0 <= i < |log| && Touches(log[i], client, class_, a) ==> log[i].start == s || log[i].start == t
  {
    s, t := 0, 0;
    if x :| 0 <= x < |log| && Touches(log[x], client, class_, a) {
      s, t := log[x].start, log[x].start;
      if y :| 0 <= y < |log| && Touches(log[y], client, class_, a) && log[y].start != s {
        t := log[y].start;
        forall i | 0 <= i < |log| && Touches(log[i], client, class_, a) ensures log[i].start == s || log[i].start == t {
          NoThird(log, client, class_, a, x, y, i);
        }
      }
    }
  }

  lemma Apart(log: seq<Entry>, i: nat, j: nat)
    requires Spaced(log) && i < |log| && j < |log| && log[i].client == log[j].client
    ensures log[i].start == log[j].start || log[i].start + WINDOW <= log[j].start || log[j].start + WINDOW <= log[i].start
  {
  }

  lemma NoThird(log: seq<Entry>, client: string, class_: Option<Class>, a: int, x: nat, y: nat, i: nat)
    requires Spaced(log) && x < |log| && y < |log| && i < |log| && log[x].start != log[y].start
    requires Touches(log[x], client, class_, a) && Touches(log[y], client, class_, a) && Touches(log[i], client, class_, a)
    ensures log[i].start == log[x].start || log[i].start == log[y].start
  {
    Apart(log, x, y);
    Apart(log, x, i);
    Apart(log, y, i);
  }

  /** In any span shorter than a window a client is allowed at most twice its limit:
      600 requests, 6 of them for support bundles and 60 for disk discovery. */
  lemma SpanLimit(log: seq<Entry>, client: string, class_: Option<Class>, a: int, b: int)
    requires Spaced(log) && Limited(log) && b - a < WINDOW
    ensures InSpan(log, client, class_, a, b) <= 2 * Limit(class_)
  {
    var s, t := TwoWindows(log, client, class_, a);
    SpanWithin(log, client, class_, a, b, s, t);
    assert InWindow(log, client, class_, s) <= Limit(class_) && InWindow(log, client, class_, t) <= Limit(class_);
  }

  // ---------------------------------------------------------------------- limiter

  /** What the table says about the history: a client's entries are in its bucket's
      window or in windows long over, and the bucket has counted those in its own. */
  ghost predicate Tracks(buckets: map<string, Bucket>, log: seq<Entry>, clock: int)
  {
    && (forall k :: k in buckets ==> buckets[k].start <= clock)
    && (forall i :: 0 <= i < |log| ==> Placed(buckets, log[i], clock))
    && (forall k, class_ :: k in buckets ==> InWindow(log, k, class_, buckets[k].start) <= Tally(buckets[k], class_))
  }

  ghost predicate Placed(buckets: map<string, Bucket>, e: Entry, clock: int)
  {
    if e.client in buckets
    then e.start == buckets[e.client].start || e.start + WINDOW <= buckets[e.client].start
    else e.start + WINDOW <= clock
  }

  function Tally(b: Bucket, class_: Option<Class>): nat
  {
    match class_
    case None => b.total
    case Some(General) => b.total
    case Some(Support) => b.support
    case Some(Discovery) => b.discovery
  }

  lemma {:induction false} NoneInWindow(log: seq<Entry>, client: string, class_: Option<Class>, start: int)
    requires forall i :: 0 <= i < |log| && log[i].client == client ==> log[i].start != start
    ensures InWindow(log, client, class_, start) == 0
  {
    if log != [] { NoneInWindow(log[..|log| - 1], client, class_, start); }
  }

  lemma OneMore(log: seq<Entry>, e: Entry, client: string, class_: Option<Class>, start: int)
    ensures InWindow(log + [e], client, class_, start)
         == InWindow(log, client, class_, start) + if Counts(e, client, class_) && e.start == start then 1 else 0
  {
    assert (log + [e])[..|log|] == log;
  }

  function Pruned(buckets: map<string, Bucket>, now: int): map<string, Bucket>
  {
    map k | k in buckets && !Old(buckets[k], now) :: buckets[k]
  }

  lemma {:induction false} PrunedNotMore(buckets: map<string, Bucket>, now: int)
    ensures |Pruned(buckets, now)| <= |buckets|
  {
    Collections.SubsetCount(Pruned(buckets, now).Keys, buckets.Keys);
    assert |Pruned(buckets, now)| == |Pruned(buckets, now).Keys| && |buckets| == |buckets.Keys|;
  }

  lemma PruneKeeps(buckets: map<string, Bucket>, log: seq<Entry>, clock: int, now: int)
    requires Tracks(buckets, log, clock) && clock <= now
    ensures Tracks(buckets, log, now) && Tracks(Pruned(buckets, now), log, now)
  {
  }

  /** Opening a new window for a client keeps the books. */
  lemma RenewKeeps(buckets: map<string, Bucket>, log: seq<Entry>, client: string, now: int)
    requires Tracks(buckets, log, now)
    ensures var b := Lookup(buckets, client);
      Tracks(buckets[client := Current(b, now)], log, now) && Current(b, now).start <= now < Current(b, now).start + WINDOW
  {
    var b := Lookup(buckets, client);
    if b.None? || now - b.value.start >= WINDOW {
      RenewedWindow(buckets, log, client, now);
    } else {
      assert buckets[client := b.value] == buckets;
    }
  }

  lemma RenewedWindow(buckets: map<string, Bucket>, log: seq<Entry>, client: string, now: int)
    requires Tracks(buckets, log, now) && (client in buckets ==> now - buckets[client].start >= WINDOW)
    ensures Tracks(buckets[client := Fresh(now)], log, now)
  {
    var n := buckets[client := Fresh(now)];
    forall i | 0 <= i < |log| ensures Placed(n, log[i], now) && (log[i].client == client ==> log[i].start < now) {
      assert Placed(buckets, log[i], now);
    }
    forall class_ ensures InWindow(log, client, class_, now) == 0 { NoneInWindow(log, client, class_, now); }
  }

  lemma TallyGrows(b: Bucket, c: Class, class_: Option<Class>)
    ensures Tally(Counted(b, c), class_) >= Tally(b, class_)
    ensures Within(Counted(b, c), c) && (class_.None? || class_.value == c) ==> Tally(b, class_) < Tally(Counted(b, c), class_) <= Limit(class_)
  {
  }

  /** A refused request counts but is not logged. */
  lemma RefusedKeeps(buckets: map<string, Bucket>, log: seq<Entry>, client: string, c: Class, now: int)
    requires Tracks(buckets, log, now) && client in buckets
    ensures Tracks(buckets[client := Counted(buckets[client], c)], log, now)
  {
    var n := buckets[client := Counted(buckets[client], c)];
    forall i | 0 <= i < |log| ensures Placed(n, log[i], now) { assert Placed(buckets, log[i], now); }
    forall class_ ensures Tally(n[client], class_) >= Tally(buckets[client], class_) { TallyGrows(buckets[client], c, class_); }
  }

  lemma AllowedTracks(buckets: map<string, Bucket>, log: seq<Entry>, client: string, c: Class, now: int)
    requires Tracks(buckets, log, now) && client in buckets && Within(Counted(buckets[client], c), c)
    ensures Tracks(buckets[client := Counted(buckets[client], c)], log + [Entry(client, c, now, buckets[client].start)], now)
  {
    var e, n := Entry(client, c, now, buckets[client].start), buckets[client := Counted(buckets[client], c)];
    var longer := log + [e];
    forall i | 0 <= i < |longer| ensures Placed(n, longer[i], now) {
      if i < |log| { assert Placed(buckets, log[i], now); }
    }
    forall k, class_ | k in n ensures InWindow(longer, k, class_, n[k].start) <= Tally(n[k], class_) {
      OneMore(log, e, k, class_, n[k].start);
      TallyGrows(buckets[client], c, class_);
    }
  }

  lemma AllowedSpaced(buckets: map<string, Bucket>, log: seq<Entry>, client: string, c: Class, now: int)
    requires Tracks(buckets, log, now) && client in buckets && Spaced(log)
    requires buckets[client].start <= now < buckets[client].start + WINDOW
    ensures Spaced(log + [Entry(client, c, now, buckets[client].start)])
  {
    forall i | 0 <= i < |log| ensures Placed(buckets, log[i], now) {}
  }

  lemma AllowedLimited(buckets: map<string, Bucket>, log: seq<Entry>, client: string, c: Class, now: int)
    requires Tracks(buckets, log, now) && client in buckets && Limited(log) && Within(Counted(buckets[client], c), c)
    ensures Limited(log + [Entry(client, c, now, buckets[client].start)])
  {
    var e := Entry(client, c, now, buckets[client].start);
    forall k, class_, start ensures InWindow(log + [e], k, class_, start) <= Limit(class_) {
      OneMore(log, e, k, class_, start);
      TallyGrows(buckets[client], c, class_);
      assert InWindow(log, k, class_, start) <= Limit(class_);
    }
  }

  function Lookup(buckets: map<string, Bucket>, client: string): Option<Bucket>
  {
    if client in buckets then Some(buckets[client]) else None
  }

  /** The table agrees with one that is never pruned, except for old buckets. */
  ghost predicate Abridges(buckets: map<string, Bucket>, full: map<string, Bucket>, clock: int)
  {
    && (forall k :: k in buckets ==> k in full && full[k] == buckets[k])
    && (forall k :: k in full && k !in buckets ==> Old(full[k], clock))
  }

  lemma PruneAbridges(buckets: map<string, Bucket>, full: map<string, Bucket>, clock: int, now: int)
    requires Abridges(buckets, full, clock) && clock <= now
    ensures Abridges(buckets, full, now) && Abridges(Pruned(buckets, now), full, now)
  {
  }

  lemma SameAnswer(buckets: map<string, Bucket>, full: map<string, Bucket>, client: string, c: Class, now: int)
    requires Abridges(buckets, full, now)
    ensures Answer(Lookup(buckets, client), c, now) == Answer(Lookup(full, client), c, now)
    ensures var n := Answer(Lookup(buckets, client), c, now).0; Abridges(buckets[client := n], full[client := n], now)
  {
    if client in full && client !in buckets { PruningIsInvisible(full[client], c, now, now); }
  }

  /** The reply and the next table of a limiter that never prunes. */
  ghost predicate AsIfUnpruned(full: map<string, Bucket>, next: map<string, Bucket>, client: string, c: Class, now: int, r: Reply)
  {
    var (n, reply) := Answer(Lookup(full, client), c, now);
    next == full[client := n] && r == reply
  }

  class Limiter {
    var buckets: map<string, Bucket>
    var nextPrune: Option<int>
    /** The allowed requests, the latest time seen, and whether time never ran back. */
    ghost var log: seq<Entry>
    ghost var clock: Option<int>
    ghost var steady: bool
    /** The table as it would be without pruning, and whether room never ran out. */
    ghost var full: map<string, Bucket>
    ghost var room: bool

    ghost predicate Valid()
      reads this
    {
      && |buckets| <= MAX_BUCKETS
      && (steady ==> Spaced(log) && Limited(log))
      && (steady && clock.Some? ==> Tracks(buckets, log, clock.value))
      && (clock.None? ==> buckets == map[] && log == [] && full == map[])
      && (steady && room && clock.Some? ==> Abridges(buckets, full, clock.value))
    }

    constructor ()
      ensures Valid() && buckets == map[] && log == [] && steady && clock == None && full == map[] && room
    {
      buckets, nextPrune, log, clock, steady, full, room := map[], None, [], None, true, map[], true;
    }

    method Prune(now: int)
      requires Valid()
      modifies this
      ensures Valid() && clock == Some(now) && log == old(log) && full == old(full) && room == old(room)
      ensures steady == (old(steady) && (old(clock).Some? ==> old(clock).value <= now))
      ensures buckets == old(buckets) || buckets == Pruned(old(buckets), now)
    {
      PrunedNotMore(buckets, now);
      steady := steady && (clock.Some? ==> clock.value <= now);
      if steady && clock.Some? {
        PruneKeeps(buckets, log, clock.value, now);
        if room { PruneAbridges(buckets, full, clock.value, now); }
      }
      clock := Some(now);
      if nextPrune.None? || now >= nextPrune.value {
        buckets, nextPrune := Pruned(buckets, now), Some(now + WINDOW);
      }
    }

    /** One request. With a steady clock the table keeps to its size and every window
        of the history to its limits; while the table never ran out of room the answer
        is the one a table that is never pruned would give. */
    method Allow(client: string, path: string, now: int) returns (r: Reply)
      requires Valid()
      modifies this
      ensures Valid() && clock == Some(now)
      ensures steady == (old(steady) && (old(clock).Some? ==> old(clock).value <= now))
      ensures steady && room ==> old(room) && AsIfUnpruned(old(full), full, client, RequestClass(path), now, r)
      ensures !room && old(room) ==> |buckets| == MAX_BUCKETS && client !in buckets && r == Refused(WINDOW)
      ensures r.Refused? ==> log == old(log)
      ensures r.Allowed? ==> exists start :: log == old(log) + [Entry(client, RequestClass(path), now, start)]
    {
      Prune(now);
      if client !in buckets && |buckets| >= MAX_BUCKETS {
        room := false;
        return Refused(WINDOW);
      }
      r := Count(client, RequestClass(path), now);
    }

    method Count(client: string, c: Class, now: int) returns (r: Reply)
      requires Valid() && clock == Some(now) && (client in buckets || |buckets| < MAX_BUCKETS)
      modifies this`buckets, this`log, this`full
      ensures Valid()
      ensures steady && room ==> AsIfUnpruned(old(full), full, client, c, now, r)
      ensures var b := Lookup(old(buckets), client);
        && r == Answer(b, c, now).1 && buckets == old(buckets)[client := Answer(b, c, now).0]
        && log == if r.Allowed? then old(log) + [Entry(client, c, now, Answer(b, c, now).0.start)] else old(log)
    {
      var current := Current(Lookup(buckets, client), now);
      if steady && room { SameAnswer(buckets, full, client, c, now); }
      ghost var open := buckets[client := current];
      if steady { RenewKeeps(buckets, log, client, now); }
      var n := Counted(current, c);
      assert open[client := n] == buckets[client := n];
      buckets, full := buckets[client := n], full[client := n];
      if Within(n, c) {
        if steady {
          AllowedTracks(open, log, client, c, now);
          AllowedSpaced(open, log, client, c, now);
          AllowedLimited(open, log, client, c, now);
        }
        log := log + [Entry(client, c, now, n.start)];
        return Allowed;
      }
      if steady { RefusedKeeps(open, log, client, c, now); }
      return Refused(WINDOW - (now - n.start));
    }
  }

  datatype Request = Request(client: string, path: string, at: int)

  /** How many of the requests answered so far came from the client, are of the class,
      fall in the span and were allowed. */
  ghost function AllowedIn(rs: seq<Request>, replies: seq<Reply>, client: string, class_: Option<Class>, a: int, b: int): nat
    requires |replies| <= |rs|
    decreases |replies|
  {
    if replies == [] then 0
    else
      var n := |replies| - 1;
      AllowedIn(rs, replies[..n], client, class_, a, b)
      + if replies[n].Allowed? && Counts(Entry(rs[n].client, RequestClass(rs[n].path), rs[n].at, 0), client, class_) && a <= rs[n].at < b then 1 else 0
  }

  ghost predicate Recorded(log: seq<Entry>, rs: seq<Request>, replies: seq<Reply>)
    requires |replies| <= |rs|
  {
    forall client, class_, a, b :: InSpan(log, client, class_, a, b) == AllowedIn(rs, replies, client, class_, a, b)
  }

  lemma RecordedOn(log: seq<Entry>, rs: seq<Request>, replies: seq<Reply>, r: Reply, longer: seq<Entry>)
    requires |replies| < |rs| && Recorded(log, rs, replies)
    requires r.Refused? ==> longer == log
    requires var q := rs[|replies|];
      r.Allowed? ==> exists start :: longer == log + [Entry(q.client, RequestClass(q.path), q.at, start)]
    ensures Recorded(longer, rs, replies + [r])
  {
    assert (replies + [r])[..|replies|] == replies;
    if r.Allowed? { assert longer[..|log|] == log; }
  }

  /** Any run of requests in time order: no span shorter than a minute lets a client
      through more than twice its limits, and the table stays within its size. */
  method Serve(requests: seq<Request>) returns (replies: seq<Reply>, l: Limiter)
    requires forall i, j :: 0 <= i < j < |requests| ==> requests[i].at <= requests[j].at
    ensures |replies| == |requests| && |l.buckets| <= MAX_BUCKETS
    ensures forall client, class_, a, b :: b - a < WINDOW ==> AllowedIn(requests, replies, client, class_, a, b) <= 2 * Limit(class_)
  {
    l := new Limiter();
    replies := [];
    for n := 0 to |requests|
      invariant fresh(l) && l.Valid() && l.steady && |replies| == n
      invariant l.clock.Some? ==> n > 0 && l.clock.value == requests[n - 1].at
      invariant Recorded(l.log, requests, replies)
    {
      ghost var log := l.log;
      var r := l.Allow(requests[n].client, requests[n].path, requests[n].at);
      RecordedOn(log, requests, replies, r, l.log);
      replies := replies + [r];
    }
    forall client, class_, a, b | b - a < WINDOW ensures AllowedIn(requests, replies, client, class_, a, b) <= 2 * Limit(class_) {
      SpanLimit(l.log, client, class_, a, b);
    }
  }
}
