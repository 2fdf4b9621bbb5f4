/** Full transfers over a stream socket (infra/tcmu/handler_holo.c): plain
    buffers, and scatter/gather over the first `len` bytes of an iovec list in
    batches of at most 1024 entries, across short transfers and retries.

    An iovec is a range of addresses in one memory, as a C pointer and a length
    are. `Addrs` lists the addresses an iovec list denotes, in transfer order;
    every transfer is stated on that list. */
module IovecTransfer {
  import opened Bytes

  const BATCH_MAX: nat := 1024
  const DISCARD_CHUNK: nat := 8192

  datatype Errno = EINTR | EAGAIN | EINVAL | ETIMEDOUT | EPIPE | OtherErrno(code: nat)

  datatype Iovec = Iovec(base: nat, len: nat)

  // ------------------------------------------------------------- addresses

  function Range(base: nat, len: nat): (r: seq<nat>)
    ensures |r| == len
  {
    if len == 0 then [] else Range(base, len - 1) + [base + len - 1]
  }

  lemma {:induction false} RangeAt(base: nat, len: nat, k: nat)
    requires k < len
    ensures Range(base, len)[k] == base + k
  {
    if k < len - 1 {
      RangeAt(base, len - 1, k);
    }
  }

  lemma RangeSlice(base: nat, len: nat, o: nat, t: nat)
    requires o + t <= len
    ensures Range(base, len)[o..o + t] == Range(base + o, t)
  {
    var part, whole := Range(base, len)[o..o + t], Range(base + o, t);
    forall k | 0 <= k < t ensures part[k] == whole[k] {
      RangeAt(base, len, o + k);
      RangeAt(base + o, t, k);
    }
  }

  lemma Associative(a: seq<nat>, b: seq<nat>, c: seq<nat>)
    ensures a + b + c == a + (b + c)
  {
  }

  function Addrs(iov: seq<Iovec>): (r: seq<nat>)
  {
    if iov == [] then [] else Range(iov[0].base, iov[0].len) + Addrs(iov[1..])
  }

  ghost predicate Fits(iov: seq<Iovec>, size: nat)
  {
    forall v :: v in iov ==> v.base + v.len <= size
  }

  ghost predicate Inside(a: seq<nat>, size: nat)
  {
    forall k :: 0 <= k < |a| ==> a[k] < size
  }

  /** No byte of memory is named twice. */
  ghost predicate Distinct(a: seq<nat>)
  {
    forall i, j :: 0 <= i < |a| && 0 <= j < |a| && i != j ==> a[i] != a[j]
  }

  lemma {:induction false} AddrsInside(iov: seq<Iovec>, size: nat)
    requires Fits(iov, size)
    ensures Inside(Addrs(iov), size)
  {
    if iov != [] {
      AddrsInside(iov[1..], size);
      forall k | 0 <= k < iov[0].len ensures Range(iov[0].base, iov[0].len)[k] < size {
        RangeAt(iov[0].base, iov[0].len, k);
      }
    }
  }

  lemma {:induction false} AddrsJoin(a: seq<Iovec>, b: seq<Iovec>)
    ensures Addrs(a + b) == Addrs(a) + Addrs(b)
  {
    if a == [] {
      assert a + b == b;
    } else {
      var front, back := Range(a[0].base, a[0].len), Addrs(a[1..]);
      AddrsJoin(a[1..], b);
      assert (a + b)[1..] == a[1..] + b;
      Associative(front, back, Addrs(b));
    }
  }

  lemma AddrsAppend(iov: seq<Iovec>, v: Iovec)
    ensures Addrs(iov + [v]) == Addrs(iov) + Range(v.base, v.len)
  {
    AddrsJoin(iov, [v]);
    assert Addrs([v]) == Range(v.base, v.len) + Addrs([]);
  }

  /** The number of bytes in the first `i` entries. */
  function Start(iov: seq<Iovec>, i: nat): (n: nat)
    requires i <= |iov|
  {
    if i == 0 then 0 else Start(iov, i - 1) + iov[i - 1].len
  }

  lemma {:induction false} StartIsLength(iov: seq<Iovec>, i: nat)
    requires i <= |iov|
    ensures Start(iov, i) == |Addrs(iov[..i])|
  {
    if i > 0 {
      StartIsLength(iov, i - 1);
      assert iov[..i] == iov[..i - 1] + [iov[i - 1]];
      AddrsAppend(iov[..i - 1], iov[i - 1]);
    }
  }

  lemma StartMonotone(iov: seq<Iovec>, i: nat, j: nat)
    requires i <= j <= |iov|
    ensures Start(iov, i) <= Start(iov, j)
    decreases j - i
  {
    if i < j {
      StartMonotone(iov, i + 1, j);
    }
  }

  lemma TotalLength(iov: seq<Iovec>)
    ensures Start(iov, |iov|) == |Addrs(iov)|
  {
    StartIsLength(iov, |iov|);
    assert iov[..|iov|] == iov;
  }

  lemma SplitAtEntry(iov: seq<Iovec>, i: nat)
    requires i < |iov|
    ensures Addrs(iov) == Addrs(iov[..i]) + (Range(iov[i].base, iov[i].len) + Addrs(iov[i..][1..]))
  {
    assert iov == iov[..i] + iov[i..];
    AddrsJoin(iov[..i], iov[i..]);
  }

  lemma SliceOfMiddle(front: seq<nat>, entry: seq<nat>, back: seq<nat>, o: nat, t: nat)
    requires o + t <= |entry|
    ensures (front + (entry + back))[|front| + o..|front| + o + t] == entry[o..o + t]
  {
  }

  /** Entry `i` holds the addresses from `Start(iov, i)` on. */
  lemma EntryAddrs(iov: seq<Iovec>, i: nat, o: nat, t: nat, addrs: seq<nat>)
    requires i < |iov| && o + t <= iov[i].len && addrs == Addrs(iov)
    ensures Start(iov, i) + o + t <= |addrs|
    ensures addrs[Start(iov, i) + o..Start(iov, i) + o + t] == Range(iov[i].base + o, t)
  {
    StartIsLength(iov, i);
    SplitAtEntry(iov, i);
    var front, entry, back := Addrs(iov[..i]), Range(iov[i].base, iov[i].len), Addrs(iov[i..][1..]);
    SliceOfMiddle(front, entry, back, o, t);
    RangeSlice(iov[i].base, iov[i].len, o, t);
  }

  /** The batch denotes the `n` addresses from position `pos` on. */
  ghost predicate Batched(iov: seq<Iovec>, batch: seq<Iovec>, pos: nat, n: nat)
  {
    pos + n <= |Addrs(iov)| && Addrs(batch) == Addrs(iov)[pos..pos + n]
  }

  lemma BatchGrows(iov: seq<Iovec>, scan: nat, o: nat, take: nat, batch: seq<Iovec>, pos: nat, n: nat)
    requires scan < |iov| && o + take <= iov[scan].len && pos + n == Start(iov, scan) + o
    requires Batched(iov, batch, pos, n)
    ensures Batched(iov, batch + [Iovec(iov[scan].base + o, take)], pos, n + take)
  {
    EntryAddrs(iov, scan, o, take, Addrs(iov));
    AddrsAppend(batch, Iovec(iov[scan].base + o, take));
    AppendedSlice(Addrs(iov), Addrs(batch), Range(iov[scan].base + o, take), Addrs(batch + [Iovec(iov[scan].base + o, take)]), pos, n, take);
  }

  lemma AppendedSlice(s: seq<nat>, a: seq<nat>, b: seq<nat>, c: seq<nat>, pos: nat, n: nat, take: nat)
    requires pos + n + take <= |s| && a == s[pos..pos + n] && b == s[pos + n..pos + n + take] && c == a + b
    ensures c == s[pos..pos + (n + take)]
  {
  }

  lemma SliceJoin<T>(s: seq<T>, i: nat, j: nat, k: nat)
    requires i <= j <= k <= |s|
    ensures s[i..j] + s[j..k] == s[i..k]
  {
  }

  /** The bytes at the addresses `a`. */
  function Collect(mem: seq<Byte>, a: seq<nat>): (b: seq<Byte>)
    requires Inside(a, |mem|)
    ensures |b| == |a| && forall k :: 0 <= k < |a| ==> b[k] == mem[a[k]]
  {
    if a == [] then [] else Collect(mem, a[..|a| - 1]) + [mem[a[|a| - 1]]]
  }

  /** `after` is `before` with `data` stored at the addresses `a`. */
  ghost predicate Stored(before: seq<Byte>, after: seq<Byte>, a: seq<nat>, data: seq<Byte>)
    requires |a| == |data|
  {
    && |after| == |before|
    && Inside(a, |after|)
    && (forall k :: 0 <= k < |a| ==> after[a[k]] == data[k])
    && (forall m :: 0 <= m < |before| && m !in a ==> after[m] == before[m])
  }

  lemma StoredMore(m0: seq<Byte>, m1: seq<Byte>, m2: seq<Byte>, a: seq<nat>, x: seq<Byte>, b: seq<nat>, y: seq<Byte>)
    requires |a| == |x| && |b| == |y| && Distinct(a + b)
    requires Stored(m0, m1, a, x) && Stored(m1, m2, b, y)
    ensures Stored(m0, m2, a + b, x + y)
  {
    forall k | 0 <= k < |a + b|
      ensures (a + b)[k] < |m2| && m2[(a + b)[k]] == (x + y)[k]
    {
      if k < |a| {
        forall j | 0 <= j < |b| ensures b[j] != a[k] {
          assert (a + b)[|a| + j] == b[j] && (a + b)[k] == a[k];
        }
      } else {
        assert (a + b)[k] == b[k - |a|];
      }
    }
  }

  // ---------------------------------------------------------------- socket

  /** What the kernel does on one transfer call: moves up to `n` bytes, or fails. */
  datatype Outcome = Move(n: nat) | MoveAll | Interrupted | WouldBlock | Broken(code: nat)

  function Min(a: nat, b: nat): nat { if a < b then a else b }

  predicate Harmless(o: Outcome) { o.MoveAll? || o.Interrupted? || (o.Move? && o.n > 0) }

  /** No coming call fails: at worst it is short or interrupted. */
  ghost predicate Healthy(script: seq<Outcome>)
  {
    forall i :: 0 <= i < |script| ==> Harmless(script[i])
  }

  /** A connected stream socket. `script` is what the kernel will do, call by
      call; once it is used up every call moves all it can. */
  class Socket {
    var sent: seq<Byte>
    var inbound: seq<Byte>
    var script: seq<Outcome>

    constructor (inbound: seq<Byte>, script: seq<Outcome>)
      ensures sent == [] && this.inbound == inbound && this.script == script
    {
      this.sent, this.inbound, this.script := [], inbound, script;
    }

    method Step() returns (o: Outcome)
      modifies this
      ensures sent == old(sent) && inbound == old(inbound)
      ensures o == Interrupted ==> |script| < |old(script)|
      ensures Healthy(old(script)) ==> Healthy(script) && Harmless(o)
    {
      if script == [] { return MoveAll; }
      o := script[0];
      script := script[1..];
    }

    method Write(b: seq<Byte>) returns (r: Result<nat, Errno>)
      modifies this
      ensures inbound == old(inbound)
      ensures r.Ok? ==> r.value <= |b| && sent == old(sent) + b[..r.value]
      ensures r.Err? ==> sent == old(sent) && r.error != EINVAL
      ensures r == Err(EINTR) ==> |script| < |old(script)|
      ensures Healthy(old(script)) ==> Healthy(script) && (r == Err(EINTR) || (r.Ok? && (b != [] ==> r.value > 0)))
    {
      var o := Step();
      match o {
        case Move(n) =>
          var k := Min(n, |b|);
          sent := sent + b[..k];
          return Ok(k);
        case MoveAll =>
          sent := sent + b;
          return Ok(|b|);
        case Interrupted => return Err(EINTR);
        case WouldBlock => return Err(EAGAIN);
        case Broken(code) => return Err(OtherErrno(code));
      }
    }

    method Read(max: nat) returns (r: Result<seq<Byte>, Errno>)
      modifies this
      ensures sent == old(sent)
      ensures r.Ok? ==> |r.value| <= max && old(inbound) == r.value + inbound
      ensures r.Err? ==> inbound == old(inbound) && r.error != EINVAL
      ensures r == Err(EINTR) ==> |script| < |old(script)|
      ensures Healthy(old(script)) ==>
        Healthy(script) && (r == Err(EINTR) || (r.Ok? && (max > 0 && old(inbound) != [] ==> r.value != [])))
    {
      var o := Step();
      match o {
        case Move(n) =>
          var k := Min(Min(n, max), |inbound|);
          r := Ok(inbound[..k]);
          inbound := inbound[k..];
        case MoveAll =>
          var k := Min(max, |inbound|);
          r := Ok(inbound[..k]);
          inbound := inbound[k..];
        case Interrupted => return Err(EINTR);
        case WouldBlock => return Err(EAGAIN);
        case Broken(code) => return Err(OtherErrno(code));
      }
    }
  }

  /** EAGAIN on a socket with a timeout means the timeout expired. */
  function Reported(e: Errno): Errno { if e == EAGAIN then ETIMEDOUT else e }

  method WriteFull(s: Socket, b: seq<Byte>) returns (r: Result<(), Errno>)
    modifies s
    ensures s.inbound == old(s.inbound)
    ensures r.Ok? ==> s.sent == old(s.sent) + b
    ensures r.Err? ==> |old(s.sent)| <= |s.sent| && s.sent <= old(s.sent) + b
    ensures Healthy(old(s.script)) ==> r.Ok? && Healthy(s.script)
  {
    var done := 0;
    while done < |b|
      invariant 0 <= done <= |b|
      invariant s.sent == old(s.sent) + b[..done] && s.inbound == old(s.inbound)
      invariant Healthy(old(s.script)) ==> Healthy(s.script)
      decreases |b| - done, |s.script|
    {
      var n := s.Write(b[done..]);
      if n.Err? {
        if n.error == EINTR { continue; }
        return Err(Reported(n.error));
      }
      if n.value == 0 { return Err(EPIPE); }
      assert b[..done] + b[done..][..n.value] == b[..done + n.value];
      done := done + n.value;
    }
    assert b[..done] == b;
    return Ok(());
  }

  method ReadFull(s: Socket, len: nat) returns (r: Result<seq<Byte>, Errno>)
    modifies s
    ensures s.sent == old(s.sent)
    ensures r.Ok? ==> |r.value| == len && old(s.inbound) == r.value + s.inbound
    ensures Healthy(old(s.script)) ==> Healthy(s.script) && (len <= |old(s.inbound)| ==> r.Ok?)
  {
    var got := [];
    while |got| < len
      invariant |got| <= len && s.sent == old(s.sent)
      invariant old(s.inbound) == got + s.inbound
      invariant Healthy(old(s.script)) ==> Healthy(s.script)
      decreases len - |got|, |s.script|
    {
      var n := s.Read(len - |got|);
      if n.Err? {
        if n.error == EINTR { continue; }
        return Err(Reported(n.error));
      }
      if n.value == [] { return Err(EPIPE); }
      got := got + n.value;
    }
    return Ok(got);
  }

  method DiscardFull(s: Socket, len: nat) returns (r: Result<(), Errno>)
    modifies s
    ensures s.sent == old(s.sent)
    ensures r.Ok? ==> len <= |old(s.inbound)| && s.inbound == old(s.inbound)[len..]
    ensures Healthy(old(s.script)) ==> Healthy(s.script) && (len <= |old(s.inbound)| ==> r.Ok?)
  {
    var left: nat := len;
    while left > 0
      invariant left <= len && s.sent == old(s.sent)
      invariant len - left <= |old(s.inbound)| && s.inbound == old(s.inbound)[len - left..]
      invariant Healthy(old(s.script)) ==> Healthy(s.script)
    {
      var chunk := Min(left, DISCARD_CHUNK);
      var got := ReadFull(s, chunk);
      if got.Err? { return Err(got.error); }
      left := left - chunk;
    }
    return Ok(());
  }

  // ---------------------------------------------------------- scatter/gather

  /** Entry `idx`, byte `offset` of it, is position `pos` of the address list. */
  ghost predicate At(iov: seq<Iovec>, idx: nat, offset: nat, pos: nat)
  {
    && idx <= |iov|
    && (idx < |iov| ==> offset <= iov[idx].len)
    && (idx == |iov| ==> offset == 0)
    && pos == Start(iov, idx) + offset
  }

  lemma AtNext(iov: seq<Iovec>, i: nat, o: nat, pos: nat)
    requires At(iov, i, o, pos) && i < |iov|
    ensures At(iov, i + 1, 0, pos + (iov[i].len - o))
  {
  }

  lemma AtInside(iov: seq<Iovec>, i: nat, o: nat, pos: nat)
    requires At(iov, i, o, pos)
    ensures pos <= |Addrs(iov)| && (i == |iov| ==> pos == |Addrs(iov)|)
  {
    TotalLength(iov);
    if i < |iov| {
      StartMonotone(iov, i + 1, |iov|);
    }
  }

  /** The batch for one call: the next addresses in order, empty entries skipped,
      at most `left` bytes and `BATCH_MAX` entries; empty only at the end. */
  method BuildBatch(iov: seq<Iovec>, idx: nat, offset: nat, left: nat, ghost pos: nat)
    returns (batch: seq<Iovec>, batchLen: nat)
    requires At(iov, idx, offset, pos) && left > 0
    ensures |batch| <= BATCH_MAX && batchLen <= left
    ensures Batched(iov, batch, pos, batchLen)
    ensures batch == [] <==> pos == |Addrs(iov)|
    ensures batch == [] <==> batchLen == 0
  {
    batch, batchLen := [], 0;
    var scan: nat, scanOffset: nat := idx, offset;
    AtInside(iov, idx, offset, pos);
    while scan < |iov| && |batch| < BATCH_MAX && batchLen < left
      invariant idx <= scan <= |iov| && |batch| <= BATCH_MAX && batchLen <= left
      invariant batchLen < left ==> At(iov, scan, scanOffset, pos + batchLen)
      invariant Batched(iov, batch, pos, batchLen)
      invariant batch == [] <==> batchLen == 0
    {
      AtNext(iov, scan, scanOffset, pos + batchLen);
      var available := iov[scan].len;
      if scanOffset >= available {
        scan, scanOffset := scan + 1, 0;
        continue;
      }
      available := available - scanOffset;
      var take := Min(available, left - batchLen);
      BatchGrows(iov, scan, scanOffset, take, batch, pos, batchLen);
      batch := batch + [Iovec(iov[scan].base + scanOffset, take)];
      batchLen := batchLen + take;
      scan, scanOffset := scan + 1, 0;
    }
    if batchLen < left {
      AtInside(iov, scan, scanOffset, pos + batchLen);
    }
  }

  /** The position after `advanced` more bytes have moved. */
  method Advance(iov: seq<Iovec>, idx: nat, offset: nat, advanced: nat, ghost pos: nat)
    returns (idx': nat, offset': nat)
    requires At(iov, idx, offset, pos) && pos + advanced <= |Addrs(iov)|
    ensures At(iov, idx', offset', pos + advanced)
  {
    idx', offset' := idx, offset;
    var rest: nat := advanced;
    TotalLength(iov);
    while rest > 0 && idx' < |iov|
      invariant rest <= advanced && At(iov, idx', offset', pos + advanced - rest)
      decreases |iov| - idx', rest
    {
      var available := iov[idx'].len - offset';
      if available > rest {
        offset', rest := offset' + rest, 0;
      } else {
        rest := rest - available;
        idx', offset' := idx' + 1, 0;
      }
    }
  }

  /** The bytes an iovec list denotes. */
  function Gathered(mem: seq<Byte>, iov: seq<Iovec>): (b: seq<Byte>)
    requires Fits(iov, |mem|)
    ensures |b| == |Addrs(iov)|
  {
    AddrsInside(iov, |mem|);
    Collect(mem, Addrs(iov))
  }

  lemma GatheredSlice(mem: seq<Byte>, iov: seq<Iovec>, batch: seq<Iovec>, pos: nat, n: nat)
    requires Fits(iov, |mem|) && pos + n <= |Addrs(iov)| && Addrs(batch) == Addrs(iov)[pos..pos + n]
    ensures Inside(Addrs(batch), |mem|)
    ensures Collect(mem, Addrs(batch)) == Gathered(mem, iov)[pos..pos + n]
  {
    AddrsInside(iov, |mem|);
    forall k | 0 <= k < n
      ensures Addrs(batch)[k] == Addrs(iov)[pos + k] < |mem|
    {
    }
  }

  /** `writev`: the kernel takes some first bytes of what the batch denotes, which
      are those of `iov` from position `pos` on. */
  method Writev(s: Socket, mem: seq<Byte>, batch: seq<Iovec>, ghost iov: seq<Iovec>, ghost pos: nat, batchLen: nat)
    returns (r: Result<nat, Errno>)
    requires Fits(iov, |mem|) && Batched(iov, batch, pos, batchLen)
    modifies s
    ensures s.inbound == old(s.inbound)
    ensures r.Ok? ==> r.value <= batchLen && s.sent == old(s.sent) + Gathered(mem, iov)[pos..pos + r.value]
    ensures r.Err? || r.value == 0 ==> s.sent == old(s.sent)
    ensures r.Err? ==> r.error != EINVAL
    ensures r == Err(EINTR) ==> |s.script| < |old(s.script)|
    ensures Healthy(old(s.script)) ==> Healthy(s.script) && (r == Err(EINTR) || (r.Ok? && (batchLen > 0 ==> r.value > 0)))
  {
    GatheredSlice(mem, iov, batch, pos, batchLen);
    var data := Collect(mem, Addrs(batch));
    r := s.Write(data);
    if r.Ok? {
      SliceSlice(Gathered(mem, iov), pos, pos + batchLen, r.value);
    }
  }

  lemma PrefixGrows(first: seq<Byte>, all: seq<Byte>, pos: nat, n: nat)
    requires pos + n <= |all|
    ensures first + all[..pos] + all[pos..pos + n] == first + all[..pos + n]
  {
  }

  /** One round of the gathering write: build the batch, hand it to the kernel and
      move past what it took. */
  method WriteRound(s: Socket, mem: seq<Byte>, iov: seq<Iovec>, idx: nat, offset: nat, left: nat, ghost pos: nat)
    returns (r: Result<nat, Errno>, idx': nat, offset': nat)
    requires Fits(iov, |mem|) && At(iov, idx, offset, pos) && left > 0
    modifies s
    ensures s.inbound == old(s.inbound)
    ensures r.Ok? ==>
      && 0 < r.value <= left && pos + r.value <= |Addrs(iov)|
      && At(iov, idx', offset', pos + r.value)
      && s.sent == old(s.sent) + Gathered(mem, iov)[pos..pos + r.value]
    ensures r.Err? ==> s.sent == old(s.sent) && idx' == idx && offset' == offset
    ensures r == Err(EINTR) ==> |s.script| < |old(s.script)|
    ensures r == Err(EINVAL) ==> pos == |Addrs(iov)|
    ensures Healthy(old(s.script)) ==> Healthy(s.script) && (pos < |Addrs(iov)| ==> r.Ok? || r == Err(EINTR))
  {
    idx', offset' := idx, offset;
    var batch, batchLen := BuildBatch(iov, idx, offset, left, pos);
    if batch == [] { return Err(EINVAL), idx, offset; }
    var n := Writev(s, mem, batch, iov, pos, batchLen);
    if n.Err? { return Err(Reported(n.error)), idx, offset; }
    if n.value == 0 { return Err(EPIPE), idx, offset; }
    idx', offset' := Advance(iov, idx, offset, n.value, pos);
    r := Ok(n.value);
  }

  /** Gathering write of the first `len` bytes that `iov` denotes. Each call that
      moves bytes shrinks the work left, and a retry uses up the script, which is
      the termination measure of the loop. */
  method WriteIovecLimited(s: Socket, mem: seq<Byte>, iov: seq<Iovec>, len: nat) returns (r: Result<(), Errno>)
    requires Fits(iov, |mem|)
    modifies s
    ensures s.inbound == old(s.inbound)
    ensures r.Ok? ==> len <= |Addrs(iov)| && s.sent == old(s.sent) + Gathered(mem, iov)[..len]
    ensures r == Err(EINVAL) ==> |Addrs(iov)| < len && s.sent == old(s.sent) + Gathered(mem, iov)
    ensures r.Err? ==> exists k :: 0 <= k <= len && k <= |Addrs(iov)| && s.sent == old(s.sent) + Gathered(mem, iov)[..k]
    ensures Healthy(old(s.script)) ==> Healthy(s.script) && (r.Ok? <==> len <= |Addrs(iov)|)
  {
    ghost var all, first := Gathered(mem, iov), s.sent;
    ghost var pos := 0;
    assert s.sent == first + all[..pos];
    if len == 0 { return Ok(()); }
    if iov == [] { return Err(EINVAL); }
    var left: nat, idx: nat, offset: nat := len, 0, 0;
    while left > 0
      invariant left <= len && pos == len - left && pos <= |all|
      invariant At(iov, idx, offset, pos)
      invariant s.sent == first + all[..pos] && s.inbound == old(s.inbound)
      invariant Healthy(old(s.script)) ==> Healthy(s.script)
      decreases left, |s.script|
    {
      var n;
      n, idx, offset := WriteRound(s, mem, iov, idx, offset, left, pos);
      if n.Err? {
        if n.error == EINTR { continue; }
        assert n.error == EINVAL ==> all[..pos] == all;
        return Err(n.error);
      }
      PrefixGrows(first, all, pos, n.value);
      left := left - n.value;
      pos := pos + n.value;
    }
    return Ok(());
  }

  /** Stores `data` at the first `|data|` addresses of a batch, entry by entry. */
  method Scatter(mem: array<Byte>, addrs: seq<nat>, data: seq<Byte>)
    requires |addrs| == |data| && Distinct(addrs)
    requires Inside(addrs, mem.Length)
    modifies mem
    ensures Stored(old(mem[..]), mem[..], addrs, data)
  {
    for i := 0 to |data|
      invariant forall k :: 0 <= k < i ==> mem[addrs[k]] == data[k]
      invariant forall m :: 0 <= m < mem.Length && m !in addrs[..i] ==> mem[m] == old(mem[m])
    {
      mem[addrs[i]] := data[i];
      assert addrs[..i + 1] == addrs[..i] + [addrs[i]];
    }
    assert addrs[..|data|] == addrs;
  }

  lemma BatchTarget(iov: seq<Iovec>, batch: seq<Iovec>, pos: nat, batchLen: nat, n: nat, size: nat)
    requires Fits(iov, size) && Distinct(Addrs(iov)) && Batched(iov, batch, pos, batchLen) && n <= batchLen
    ensures Addrs(batch)[..n] == Addrs(iov)[pos..pos + n]
    ensures Distinct(Addrs(batch)[..n]) && Inside(Addrs(batch)[..n], size)
  {
    AddrsInside(iov, size);
    SliceSlice(Addrs(iov), pos, pos + batchLen, n);
    SliceOfDistinct(Addrs(iov), pos, pos + n, size);
  }

  /** `readv`: the next bytes of the stream go to the first addresses of the batch,
      which are those of `iov` from position `pos` on. */
  method Readv(s: Socket, mem: array<Byte>, batch: seq<Iovec>, ghost iov: seq<Iovec>, ghost pos: nat, batchLen: nat)
    returns (r: Result<nat, Errno>)
    requires Fits(iov, mem.Length) && Distinct(Addrs(iov)) && Batched(iov, batch, pos, batchLen)
    modifies s, mem
    ensures s.sent == old(s.sent)
    ensures r.Ok? ==>
      && r.value <= batchLen && r.value <= |old(s.inbound)|
      && s.inbound == old(s.inbound)[r.value..]
      && Stored(old(mem[..]), mem[..], Addrs(iov)[pos..pos + r.value], old(s.inbound)[..r.value])
    ensures r.Err? || r.value == 0 ==> s.inbound == old(s.inbound) && mem[..] == old(mem[..])
    ensures r.Err? ==> r.error != EINVAL
    ensures r == Err(EINTR) ==> |s.script| < |old(s.script)|
    ensures Healthy(old(s.script)) ==>
      Healthy(s.script) && (r == Err(EINTR) || (r.Ok? && (batchLen > 0 && old(s.inbound) != [] ==> r.value > 0)))
  {
    var n := s.Read(batchLen);
    if n.Err? { return Err(n.error); }
    var count := |n.value|;
    assert old(s.inbound)[..count] == n.value;
    var target := Addrs(batch)[..count];
    BatchTarget(iov, batch, pos, batchLen, count, mem.Length);
    Scatter(mem, target, n.value);
    return Ok(count);
  }

  lemma StoredGrows(before: seq<Byte>, mid: seq<Byte>, after: seq<Byte>, addrs: seq<nat>, stream: seq<Byte>, pos: nat, n: nat)
    requires Distinct(addrs) && pos + n <= |addrs| && pos + n <= |stream|
    requires Stored(before, mid, addrs[..pos], stream[..pos])
    requires Stored(mid, after, addrs[pos..pos + n], stream[pos..pos + n])
    ensures Stored(before, after, addrs[..pos + n], stream[..pos + n])
  {
    SliceJoin(addrs, 0, pos, pos + n);
    SliceJoin(stream, 0, pos, pos + n);
    assert Distinct(addrs[..pos + n]);
    StoredMore(before, mid, after, addrs[..pos], stream[..pos], addrs[pos..pos + n], stream[pos..pos + n]);
  }

  lemma SliceSlice<T>(s: seq<T>, i: nat, j: nat, n: nat)
    requires i + n <= j <= |s|
    ensures s[i..j][..n] == s[i..i + n] && s[i..][..n] == s[i..i + n] && s[i..][n..] == s[i + n..]
  {
  }

  lemma SliceOfDistinct(addrs: seq<nat>, i: nat, j: nat, size: nat)
    requires Distinct(addrs) && i <= j <= |addrs| && Inside(addrs, size)
    ensures Distinct(addrs[i..j]) && Inside(addrs[i..j], size)
  {
  }

  /** One round of the scattering read. */
  method ReadRound(s: Socket, mem: array<Byte>, iov: seq<Iovec>, idx: nat, offset: nat, left: nat, ghost pos: nat)
    returns (r: Result<nat, Errno>, idx': nat, offset': nat)
    requires Fits(iov, mem.Length) && Distinct(Addrs(iov)) && At(iov, idx, offset, pos) && left > 0
    modifies s, mem
    ensures s.sent == old(s.sent)
    ensures r.Ok? ==>
      && 0 < r.value <= left && pos + r.value <= |Addrs(iov)| && r.value <= |old(s.inbound)|
      && At(iov, idx', offset', pos + r.value)
      && s.inbound == old(s.inbound)[r.value..]
      && Stored(old(mem[..]), mem[..], Addrs(iov)[pos..pos + r.value], old(s.inbound)[..r.value])
    ensures r.Err? ==> s.inbound == old(s.inbound) && mem[..] == old(mem[..]) && idx' == idx && offset' == offset
    ensures r == Err(EINTR) ==> |s.script| < |old(s.script)|
    ensures r == Err(EINVAL) ==> pos == |Addrs(iov)|
    ensures Healthy(old(s.script)) ==>
      Healthy(s.script) && (pos < |Addrs(iov)| && old(s.inbound) != [] ==> r.Ok? || r == Err(EINTR))
  {
    idx', offset' := idx, offset;
    var batch, batchLen := BuildBatch(iov, idx, offset, left, pos);
    if batch == [] { return Err(EINVAL), idx, offset; }
    var n := Readv(s, mem, batch, iov, pos, batchLen);
    if n.Err? { return Err(Reported(n.error)), idx, offset; }
    if n.value == 0 {
      return Err(EPIPE), idx, offset;
    }
    idx', offset' := Advance(iov, idx, offset, n.value, pos);
    r := Ok(n.value);
  }

  /** The first `k` bytes of the stream are stored at the first `k` addresses. */
  ghost predicate ReadTo(addrs: seq<nat>, stream: seq<Byte>, before: seq<Byte>, inbound: seq<Byte>, after: seq<Byte>, k: nat)
  {
    k <= |addrs| && k <= |stream| && inbound == stream[k..] && Stored(before, after, addrs[..k], stream[..k])
  }

  lemma ReadFurther(addrs: seq<nat>, stream: seq<Byte>, before: seq<Byte>, rest: seq<Byte>, mid: seq<Byte>, pos: nat,
                    inbound: seq<Byte>, after: seq<Byte>, n: nat)
    requires ReadTo(addrs, stream, before, rest, mid, pos) && Distinct(addrs)
    requires pos + n <= |addrs| && n <= |rest| && inbound == rest[n..]
    requires Stored(mid, after, addrs[pos..pos + n], rest[..n])
    ensures ReadTo(addrs, stream, before, inbound, after, pos + n)
  {
    SliceSlice(stream, pos, |stream|, n);
    StoredGrows(before, mid, after, addrs, stream, pos, n);
  }

  /** One round, with what it adds to the bytes read so far. */
  method ReadOn(s: Socket, mem: array<Byte>, iov: seq<Iovec>, idx: nat, offset: nat, left: nat, ghost pos: nat,
                ghost stream: seq<Byte>, ghost before: seq<Byte>)
    returns (r: Result<nat, Errno>, idx': nat, offset': nat)
    requires Fits(iov, mem.Length) && Distinct(Addrs(iov)) && At(iov, idx, offset, pos) && left > 0
    requires ReadTo(Addrs(iov), stream, before, s.inbound, mem[..], pos)
    modifies s, mem
    ensures s.sent == old(s.sent) && (r.Ok? ==> 0 < r.value <= left)
    ensures var k := if r.Ok? then pos + r.value else pos;
            At(iov, idx', offset', k) && ReadTo(Addrs(iov), stream, before, s.inbound, mem[..], k)
    ensures r == Err(EINTR) ==> |s.script| < |old(s.script)|
    ensures r == Err(EINVAL) ==> pos == |Addrs(iov)|
    ensures Healthy(old(s.script)) ==>
      Healthy(s.script) && (pos < |Addrs(iov)| && pos < |stream| ==> r.Ok? || r == Err(EINTR))
  {
    ghost var mid, rest := mem[..], s.inbound;
    r, idx', offset' := ReadRound(s, mem, iov, idx, offset, left, pos);
    if r.Ok? { ReadFurther(Addrs(iov), stream, before, rest, mid, pos, s.inbound, mem[..], r.value); }
  }

  /** Scattering read into the first `len` addresses that `iov` denotes: on success
      exactly those bytes of memory hold the next `len` bytes of the stream, in
      order, and all other memory is as before. */
  method ReadIovecLimited(s: Socket, mem: array<Byte>, iov: seq<Iovec>, len: nat) returns (r: Result<(), Errno>)
    requires Fits(iov, mem.Length) && Distinct(Addrs(iov))
    modifies s, mem
    ensures s.sent == old(s.sent)
    ensures r.Ok? ==> ReadTo(Addrs(iov), old(s.inbound), old(mem[..]), s.inbound, mem[..], len)
    ensures r == Err(EINVAL) ==> |Addrs(iov)| < len
    ensures r.Err? ==> exists k :: 0 <= k <= len && ReadTo(Addrs(iov), old(s.inbound), old(mem[..]), s.inbound, mem[..], k)
    ensures Healthy(old(s.script)) ==> Healthy(s.script) && (r.Ok? <==> len <= |Addrs(iov)| && len <= |old(s.inbound)|)
  {
    ghost var addrs, stream, before := Addrs(iov), s.inbound, mem[..];
    ghost var pos := 0;
    assert ReadTo(addrs, stream, before, s.inbound, mem[..], 0);
    if len == 0 { return Ok(()); }
    if iov == [] { return Err(EINVAL); }
    var left: nat, idx: nat, offset: nat := len, 0, 0;
    while left > 0
      invariant left <= len && pos == len - left && s.sent == old(s.sent)
      invariant At(iov, idx, offset, pos)
      invariant ReadTo(addrs, stream, before, s.inbound, mem[..], pos)
      invariant Healthy(old(s.script)) ==> Healthy(s.script)
      decreases left, |s.script|
    {
      var n;
      n, idx, offset := ReadOn(s, mem, iov, idx, offset, left, pos, stream, before);
      if n.Err? {
        if n.error == EINTR { continue; }
        return Err(n.error);
      }
      left := left - n.value;
      pos := pos + n.value;
    }
    return Ok(());
  }
}
