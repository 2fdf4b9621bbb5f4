/** The TCMU command handler of the bridge (infra/tcmu/handler_holo.c,
    `holo_handle_cmd`): one request frame out, one response frame in, on a socket
    that is kept open between commands and closed on any transfer failure. */
module CdbBridge {
  import opened Bytes
  import opened IovecTransfer
  import Wire = CdbWire

  const UINT32_MAX: nat := 0xFFFF_FFFF
  const MAX_REPLY: nat := 0x100_0000
  const MAX_CONTROL_DATA_OUT: nat := 0x10_0000
  const MAX_ATTRIBUTE_DATA_OUT: nat := 0x1_0000
  const SENSE_BUFFER_SIZE: nat := 96
  const SENSE_CHUNK: nat := 64

  datatype Status = StsOk | InvalidCdb | ReadError | Busy | Passthrough | HardwareError

  /** A SCSI command as the TCMU runner hands it over: the CDB buffer and the
      length the runner derives from it, the data iovecs, the byte count the
      initiator asked for, and whether the ring entry can report a short read. */
  datatype Command = Command(buffer: seq<Byte>, cdbLen: int, iov: seq<Iovec>, requested: nat, canReportLength: bool)

  /** What one request frame carries. */
  datatype Request = Request(name: seq<Byte>, cdb: seq<Byte>, data: seq<Byte>)

  ghost predicate ValidRequest(q: Request)
  {
    |q.name| <= Wire.MAX_INITIATOR_LEN && Wire.SupportedLength(|q.cdb|) && |q.data| < WORD_LIMIT
  }

  ghost function RequestFrame(q: Request): (b: seq<Byte>)
    requires ValidRequest(q)
  {
    Wire.HeaderBytes(q.name, q.cdb, |q.data|) + q.data
  }

  ghost function RequestFrames(qs: seq<Request>): (b: seq<Byte>)
    requires forall q :: q in qs ==> ValidRequest(q)
  {
    if qs == [] then [] else RequestFrames(qs[..|qs| - 1]) + RequestFrame(qs[|qs| - 1])
  }

  ghost predicate Encodable(rs: seq<Wire.Response>)
  {
    forall r :: r in rs ==> Wire.EncodableResponse(r)
  }

  ghost function ResponseFrames(rs: seq<Wire.Response>): (b: seq<Byte>)
    requires Encodable(rs)
  {
    if rs == [] then []
    else assert Wire.EncodableResponse(rs[0]); Wire.ResponseFrame(rs[0]) + ResponseFrames(rs[1..])
  }

  // ------------------------------------------------- the Rust side's reading

  /** The data plane accepts a request exactly under this condition. */
  ghost predicate Readable(q: Request)
  {
    Wire.ParseName(q.name).Ok? && |q.data| <= Wire.MAX_DATA_LEN
  }

  ghost function AsPacket(q: Request): Wire.Packet
    requires Readable(q)
  {
    Wire.Packet(q.cdb, q.data, Wire.ParseName(q.name).value)
  }

  lemma RequestIsRead(q: Request, rest: seq<Byte>)
    requires ValidRequest(q)
    ensures Readable(q) ==> Wire.Parse(RequestFrame(q) + rest) == Ok((AsPacket(q), rest))
    ensures !Readable(q) ==> Wire.Parse(RequestFrame(q) + rest) == Err(Wire.InvalidData)
  {
    Wire.HeaderRoundTrip(q.name, q.cdb, |q.data|, q.data + rest);
    Wire.JoinAssociates(Wire.HeaderBytes(q.name, q.cdb, |q.data|), q.data, rest);
    if Readable(q) {
      var h := Wire.Header(q.cdb, |q.data|, Wire.ParseName(q.name).value);
      Wire.ParseAfterHeader(RequestFrame(q) + rest, h, q.data, rest);
    }
  }

  ghost function AsPackets(qs: seq<Request>): (ps: seq<Wire.Packet>)
    requires forall q :: q in qs ==> Readable(q)
  {
    if qs == [] then [] else AsPackets(qs[..|qs| - 1]) + [AsPacket(qs[|qs| - 1])]
  }

  lemma {:induction false} ReadFurther(qs: seq<Request>, rest: seq<Byte>, tail: seq<Wire.Packet>)
    requires forall q :: q in qs ==> ValidRequest(q) && Readable(q)
    requires Wire.ParseAll(rest) == Some(tail)
    ensures Wire.ParseAll(RequestFrames(qs) + rest) == Some(AsPackets(qs) + tail)
  {
    if qs == [] {
      assert [] + rest == rest && [] + tail == tail;
    } else {
      var front, last := qs[..|qs| - 1], qs[|qs| - 1];
      RequestIsRead(last, rest);
      assert RequestFrame(last) + rest != [] by {
        assert |Wire.HeaderBytes(last.name, last.cdb, |last.data|)| > 0;
      }
      ReadFurther(front, RequestFrame(last) + rest, [AsPacket(last)] + tail);
      Wire.JoinAssociates(RequestFrames(front), RequestFrame(last), rest);
      assert AsPackets(front) + ([AsPacket(last)] + tail) == AsPackets(qs) + tail;
    }
  }

  /** The data plane reads back every sequence of readable requests, one packet a
      request and nothing left over. */
  lemma RequestsAreRead(qs: seq<Request>)
    requires forall q :: q in qs ==> ValidRequest(q) && Readable(q)
    ensures Wire.ParseAll(RequestFrames(qs)) == Some(AsPackets(qs))
  {
    ReadFurther(qs, [], []);
    assert RequestFrames(qs) + [] == RequestFrames(qs) && AsPackets(qs) + [] == AsPackets(qs);
  }

  // ------------------------------------------------------- command inspection

  predicate HasDataOut(opcode: Byte)
  {
    IsWrite(opcode) || opcode == 0x15 || opcode == 0x55 || opcode == 0x5F || opcode == 0x8D
  }

  predicate IsWrite(opcode: Byte)
  {
    opcode == 0x0A || opcode == 0x2A || opcode == 0xAA || opcode == 0x8A
  }

  function MaxDataOut(opcode: Byte): nat
  {
    if IsWrite(opcode) then UINT32_MAX
    else if opcode == 0x8D then MAX_ATTRIBUTE_DATA_OUT
    else MAX_CONTROL_DATA_OUT
  }

  /** The parameter-list length a CDB announces, when it announces one. */
  function AnnouncedLength(cdb: seq<Byte>, fallback: nat): nat
    requires cdb != []
  {
    if cdb[0] == 0x15 && |cdb| >= 5 then cdb[4]
    else if (cdb[0] == 0x55 || cdb[0] == 0x5F) && |cdb| >= 9 then
      var hi: int := cdb[7];
      hi * 256 + cdb[8]
    else if cdb[0] == 0x8D && |cdb| >= 14 then FromBigEndian(cdb[10..14])
    else fallback
  }

  function DataOutLength(cdb: seq<Byte>, requested: nat, available: nat): (n: nat)
    requires cdb != []
    ensures available > 0 ==> n <= available
  {
    if IsWrite(cdb[0]) then
      if available > 0 then available else requested
    else
      var want := AnnouncedLength(cdb, requested);
      if available > 0 && want > available then available else want
  }

  /** READ with the FIXED bit and more than one block. */
  predicate FixedMultiRead(b: seq<Byte>)
    requires |b| >= 16
  {
    && b[1] % 2 == 1
    && (if b[0] == 0x08 then b[2] != 0 || b[3] != 0 || b[4] != 1
        else b[0] == 0x88 && (b[10] != 0 || b[11] != 0 || b[12] != 0 || b[13] > 1))
  }

  predicate IsRead(opcode: Byte) { opcode == 0x08 || opcode == 0x88 }

  /** An initiator name too long for the frame is not sent at all. */
  function UsableName(raw: seq<Byte>): (name: seq<Byte>)
    ensures |name| <= Wire.MAX_INITIATOR_LEN
  {
    if |raw| > Wire.MAX_INITIATOR_LEN then [] else raw
  }

  // ------------------------------------------------------------------ sending

  method SendPreamble(s: Socket, name: seq<Byte>) returns (r: Result<(), Errno>)
    requires |name| <= Wire.MAX_INITIATOR_LEN
    modifies s
    ensures s.inbound == old(s.inbound)
    ensures r.Ok? ==> s.sent == old(s.sent) + Wire.Preamble(name)
    ensures Healthy(old(s.script)) ==> r.Ok? && Healthy(s.script)
  {
    ghost var first := s.sent;
    r := Ok(());
    if |name| == 0 { return; }
    r := WriteFull(s, [Wire.EXTENDED_MARKER]);
    if r.Ok? { r := WriteFull(s, [Wire.EXTENDED_VERSION]); }
    if r.Ok? { r := WriteFull(s, [|name|]); }
    if r.Ok? { r := WriteFull(s, name); }
    if r.Ok? { assert s.sent == first + ([Wire.EXTENDED_MARKER, Wire.EXTENDED_VERSION, |name|] + name); }
  }

  method SendHeader(s: Socket, name: seq<Byte>, cdb: seq<Byte>, dataLen: nat) returns (r: Result<(), Errno>)
    requires |name| <= Wire.MAX_INITIATOR_LEN && Wire.SupportedLength(|cdb|) && dataLen < WORD_LIMIT
    modifies s
    ensures s.inbound == old(s.inbound)
    ensures r.Ok? ==> s.sent == old(s.sent) + Wire.HeaderBytes(name, cdb, dataLen)
    ensures Healthy(old(s.script)) ==> r.Ok? && Healthy(s.script)
  {
    ghost var first, preamble, word := s.sent, Wire.Preamble(name), ToBigEndian(dataLen);
    r := SendPreamble(s, name);
    if r.Ok? { r := WriteFull(s, [|cdb|]); }
    if r.Ok? { r := WriteFull(s, cdb); }
    if r.Ok? { r := WriteFull(s, ToBigEndian(dataLen)); }
    if r.Ok? { FourParts(first, preamble, [|cdb|], cdb, word); }
  }

  lemma FourParts(first: seq<Byte>, a: seq<Byte>, b: seq<Byte>, c: seq<Byte>, d: seq<Byte>)
    ensures first + a + b + c + d == first + (a + (b + (c + d)))
  {
  }

  /** Sends one whole request frame. `WRITE` data goes straight from the iovecs;
      other data-out is staged in `staged` first. */
  method SendRequest(s: Socket, name: seq<Byte>, cdb: seq<Byte>, mem: seq<Byte>, iov: seq<Iovec>, dataLen: nat,
                     direct: bool, staged: seq<Byte>) returns (r: Result<(), Errno>, ghost q: Request)
    requires |name| <= Wire.MAX_INITIATOR_LEN && Wire.SupportedLength(|cdb|) && dataLen < WORD_LIMIT
    requires Fits(iov, |mem|) && (!direct ==> |staged| == dataLen)
    modifies s
    ensures s.inbound == old(s.inbound)
    ensures r.Ok? ==>
      && q.name == name && q.cdb == cdb && |q.data| == dataLen
      && (direct ==> dataLen <= |Addrs(iov)| && q.data == Gathered(mem, iov)[..dataLen])
      && (!direct ==> q.data == staged)
      && ValidRequest(q) && s.sent == old(s.sent) + RequestFrame(q)
    ensures Healthy(old(s.script)) ==> Healthy(s.script) && ((direct ==> dataLen <= |Addrs(iov)|) ==> r.Ok?)
  {
    ghost var first := s.sent;
    q := Request(name, cdb, []);
    r := SendHeader(s, name, cdb, dataLen);
    if r.Err? { return; }
    if dataLen > 0 {
      if direct {
        r := WriteIovecLimited(s, mem, iov, dataLen);
      } else {
        r := WriteFull(s, staged);
      }
      if r.Err? { return; }
    }
    q := Request(name, cdb, if direct then Gathered(mem, iov)[..dataLen] else staged);
    Wire.JoinAssociates(first, Wire.HeaderBytes(name, cdb, dataLen), q.data);
  }

  // ---------------------------------------------------------------- receiving

  /** Memory after a reply: the first `n` bytes of the iovecs hold the reply's
      first `n`, the others are zero when the initiator asked for more than that
      and untouched otherwise, and nothing outside the iovecs moves. */
  ghost predicate Delivered(before: seq<Byte>, after: seq<Byte>, iov: seq<Iovec>, reply: seq<Byte>, n: nat, zeroed: bool)
  {
    && n <= |Addrs(iov)| && n <= |reply| && |after| == |before|
    && Inside(Addrs(iov), |after|)
    && (forall k :: 0 <= k < n ==> after[Addrs(iov)[k]] == reply[k])
    && (forall k :: n <= k < |Addrs(iov)| ==>
          after[Addrs(iov)[k]] == if zeroed then 0 else before[Addrs(iov)[k]])
    && (forall m :: 0 <= m < |before| && m !in Addrs(iov) ==> after[m] == before[m])
  }

  function Zeros(n: nat): (z: seq<Byte>)
    ensures |z| == n && forall k :: 0 <= k < n ==> z[k] == 0
  {
    if n == 0 then [] else Zeros(n - 1) + [0]
  }

  lemma ZeroThenStore(m0: seq<Byte>, m1: seq<Byte>, m2: seq<Byte>, iov: seq<Iovec>, reply: seq<Byte>, n: nat, zeroed: bool)
    requires Distinct(Addrs(iov)) && n <= |Addrs(iov)| && n <= |reply| && Inside(Addrs(iov), |m0|)
    requires if zeroed then Stored(m0, m1, Addrs(iov), Zeros(|Addrs(iov)|)) else m1 == m0
    requires Stored(m1, m2, Addrs(iov)[..n], reply[..n])
    ensures Delivered(m0, m2, iov, reply, n, zeroed)
  {
    var a := Addrs(iov);
    forall k | 0 <= k < n ensures m2[a[k]] == reply[k] {
      assert a[..n][k] == a[k] && reply[..n][k] == reply[k];
    }
    forall k | n <= k < |a| ensures m2[a[k]] == m1[a[k]] {
      forall j | 0 <= j < n ensures a[..n][j] != a[k] { assert a[..n][j] == a[j]; }
    }
  }

  /** How much of the reply goes to the initiator's buffers. */
  function CopyLength(replyLen: nat, iovCount: nat, requested: nat): nat
  {
    if iovCount == 0 then 0
    else if requested > 0 && replyLen > requested then requested
    else replyLen
  }

  lemma DeliveredPrefix(before: seq<Byte>, after: seq<Byte>, iov: seq<Iovec>, stream: seq<Byte>, n: nat, zeroed: bool, len: nat)
    requires Delivered(before, after, iov, stream, n, zeroed) && n <= len <= |stream|
    ensures Delivered(before, after, iov, stream[..len], n, zeroed)
  {
  }

  lemma NothingStored(m: seq<Byte>, iov: seq<Iovec>, stream: seq<Byte>)
    requires Inside(Addrs(iov), |m|)
    ensures Stored(m, m, Addrs(iov)[..0], stream[..0])
  {
  }

  /** Clears the buffers when asked to, then reads `len` bytes into them. */
  method CopyReply(s: Socket, mem: array<Byte>, iov: seq<Iovec>, len: nat, zeroed: bool) returns (r: Result<(), Errno>)
    requires Fits(iov, mem.Length) && Distinct(Addrs(iov))
    modifies s, mem
    ensures s.sent == old(s.sent)
    ensures r.Ok? ==>
      && len <= |old(s.inbound)| && s.inbound == old(s.inbound)[len..]
      && Delivered(old(mem[..]), mem[..], iov, old(s.inbound), len, zeroed)
    ensures Healthy(old(s.script)) ==> Healthy(s.script) && (len <= |Addrs(iov)| && len <= |old(s.inbound)| ==> r.Ok?)
  {
    AddrsInside(iov, mem.Length);
    if zeroed {
      Scatter(mem, Addrs(iov), Zeros(|Addrs(iov)|));
    }
    ghost var mid := mem[..];
    r := Ok(());
    if len > 0 {
      r := ReadIovecLimited(s, mem, iov, len);
      if r.Err? { return; }
    } else {
      NothingStored(mid, iov, s.inbound);
    }
    ZeroThenStore(old(mem[..]), mid, mem[..], iov, old(s.inbound), len, zeroed);
  }

  /** The reply body, `replyLen` bytes of it: part to memory, the rest dropped. */
  method ReceiveReply(s: Socket, mem: array<Byte>, iov: seq<Iovec>, requested: nat, replyLen: nat) returns (r: Result<nat, Errno>)
    requires Fits(iov, mem.Length) && Distinct(Addrs(iov))
    modifies s, mem
    ensures s.sent == old(s.sent)
    ensures r.Ok? ==>
      && replyLen <= |old(s.inbound)| && s.inbound == old(s.inbound)[replyLen..]
      && r.value == CopyLength(replyLen, |iov|, requested)
      && Delivered(old(mem[..]), mem[..], iov, old(s.inbound)[..replyLen], r.value,
                   replyLen > 0 && requested > r.value && |iov| > 0)
    ensures Healthy(old(s.script)) ==> Healthy(s.script)
    ensures Healthy(old(s.script)) && replyLen <= |old(s.inbound)| && CopyLength(replyLen, |iov|, requested) <= |Addrs(iov)| ==> r.Ok?
  {
    ghost var before, stream := mem[..], s.inbound;
    var copyLen := CopyLength(replyLen, |iov|, requested);
    var zeroed := replyLen > 0 && requested > copyLen && |iov| > 0;
    var copied := CopyReply(s, mem, iov, copyLen, zeroed);
    if copied.Err? { return Err(copied.error); }
    if replyLen > copyLen {
      var dropped := DiscardFull(s, replyLen - copyLen);
      if dropped.Err? { return Err(dropped.error); }
    }
    DeliveredPrefix(before, mem[..], iov, stream, copyLen, zeroed, replyLen);
    return Ok(copyLen);
  }

  method DiscardSense(s: Socket, len: nat) returns (r: Result<(), Errno>)
    modifies s
    ensures s.sent == old(s.sent)
    ensures r.Ok? ==> len <= |old(s.inbound)| && s.inbound == old(s.inbound)[len..]
    ensures Healthy(old(s.script)) ==> Healthy(s.script) && (len <= |old(s.inbound)| ==> r.Ok?)
  {
    var left: nat := len;
    while left > 0
      invariant left <= len && s.sent == old(s.sent) && (Healthy(old(s.script)) ==> Healthy(s.script))
      invariant len - left <= |old(s.inbound)| && s.inbound == old(s.inbound)[len - left..]
    {
      var chunk := Min(left, SENSE_CHUNK);
      var got := ReadFull(s, chunk);
      if got.Err? { return Err(got.error); }
      left := left - chunk;
    }
    return Ok(());
  }

  /** The sense part: as much as the command's sense buffer holds, the rest dropped. */
  method ReceiveSense(s: Socket) returns (r: Result<seq<Byte>, Errno>)
    modifies s
    ensures s.sent == old(s.sent)
    ensures r.Ok? ==>
      && 0 < |old(s.inbound)| && 1 + old(s.inbound)[0] <= |old(s.inbound)|
      && s.inbound == old(s.inbound)[1 + old(s.inbound)[0]..]
      && r.value == old(s.inbound)[1..1 + Min(old(s.inbound)[0], SENSE_BUFFER_SIZE)]
    ensures Healthy(old(s.script)) ==> Healthy(s.script)
    ensures Healthy(old(s.script)) && 0 < |old(s.inbound)| && 1 + old(s.inbound)[0] <= |old(s.inbound)| ==> r.Ok?
  {
    ghost var stream := s.inbound;
    var lengthByte := ReadFull(s, 1);
    if lengthByte.Err? { return Err(lengthByte.error); }
    var len := lengthByte.value[0];
    assert s.inbound == stream[1..];
    if len == 0 { return Ok([]); }
    var copyLen := Min(len, SENSE_BUFFER_SIZE);
    var sense := ReadFull(s, copyLen);
    if sense.Err? { return Err(sense.error); }
    assert s.inbound == stream[1 + copyLen..] && sense.value == stream[1..1 + copyLen];
    if len > copyLen {
      var dropped := DiscardSense(s, len - copyLen);
      if dropped.Err? { return Err(dropped.error); }
    }
    return Ok(sense.value);
  }

  datatype Received = Received(status: Byte, sense: seq<Byte>, copied: nat)

  datatype Failure = TransferFailed | ReplyTooLong

  lemma ResponseLayout(r: Wire.Response, rest: seq<Byte>)
    requires Wire.EncodableResponse(r)
    ensures var b, n := Wire.ResponseFrame(r) + rest, 1 + |r.sense|;
            && n + 4 + |r.reply| < |b|
            && b[0] == |r.sense| && b[1..n] == r.sense
            && b[n..n + 4] == ToBigEndian(|r.reply|) && FromBigEndian(b[n..n + 4]) == |r.reply|
            && b[n + 4..] == r.reply + ([r.status] + rest)
  {
    WordRoundTrip(|r.reply|);
    var word := ToBigEndian(|r.reply|);
    var tail := r.reply + ([r.status] + rest);
    assert Wire.ResponseFrame(r) + rest == [|r.sense|] + (r.sense + (word + tail));
  }

  /** The sense part and the reply length; `rest` is what follows them. */
  method ReceiveHead(s: Socket, ghost pending: seq<Wire.Response>) returns (r: Result<(seq<Byte>, nat), Errno>)
    requires Encodable(pending) && s.inbound == ResponseFrames(pending)
    modifies s
    ensures s.sent == old(s.sent)
    ensures r.Ok? ==> pending != []
    ensures r.Ok? ==> var resp := pending[0];
      && r.value.0 == resp.sense[..Min(|resp.sense|, SENSE_BUFFER_SIZE)]
      && r.value.1 == |resp.reply|
      && s.inbound == resp.reply + ([resp.status] + ResponseFrames(pending[1..]))
    ensures Healthy(old(s.script)) ==> Healthy(s.script) && (pending != [] ==> r.Ok?)
  {
    ghost var b := s.inbound;
    if pending != [] { ResponseLayout(pending[0], ResponseFrames(pending[1..])); }
    var sense := ReceiveSense(s);
    if sense.Err? { return Err(sense.error); }
    ghost var resp := pending[0];
    ghost var n := 1 + |resp.sense|;
    var word := ReadFull(s, 4);
    if word.Err? { return Err(word.error); }
    SliceSlice(b, n, |b|, 4);
    return Ok((sense.value, FromBigEndian(word.value)));
  }

  /** The response is within the bridge's limit and its data fits the buffers. */
  ghost predicate Receivable(resp: Wire.Response, iov: seq<Iovec>, requested: nat)
  {
    |resp.reply| <= MAX_REPLY && CopyLength(|resp.reply|, |iov|, requested) <= |Addrs(iov)|
  }

  /** Consumes exactly one response frame from a stream of response frames. */
  method ReceiveResponse(s: Socket, mem: array<Byte>, iov: seq<Iovec>, requested: nat, ghost pending: seq<Wire.Response>)
    returns (r: Result<Received, Failure>)
    requires Fits(iov, mem.Length) && Distinct(Addrs(iov))
    requires Encodable(pending) && s.inbound == ResponseFrames(pending)
    modifies s, mem
    ensures s.sent == old(s.sent)
    ensures r.Ok? || r == Err(ReplyTooLong) ==> pending != []
    ensures r == Err(ReplyTooLong) ==> |pending[0].reply| > MAX_REPLY
    ensures r.Ok? ==> var resp := pending[0];
      && s.inbound == ResponseFrames(pending[1..])
      && |resp.reply| <= MAX_REPLY
      && r.value.status == resp.status
      && r.value.sense == resp.sense[..Min(|resp.sense|, SENSE_BUFFER_SIZE)]
      && r.value.copied == CopyLength(|resp.reply|, |iov|, requested)
      && Delivered(old(mem[..]), mem[..], iov, resp.reply, r.value.copied,
                   |resp.reply| > 0 && requested > r.value.copied && |iov| > 0)
    ensures Healthy(old(s.script)) ==> Healthy(s.script) && (pending != [] && Receivable(pending[0], iov, requested) ==> r.Ok?)
  {
    var head := ReceiveHead(s, pending);
    if head.Err? { return Err(TransferFailed); }
    ghost var resp, rest := pending[0], ResponseFrames(pending[1..]);
    var replyLen := head.value.1;
    if replyLen > MAX_REPLY { return Err(ReplyTooLong); }
    Wire.TakeJoin(resp.reply, [resp.status] + rest);
    var copied := ReceiveReply(s, mem, iov, requested, replyLen);
    if copied.Err? { return Err(TransferFailed); }
    var status := ReadFull(s, 1);
    if status.Err? { return Err(TransferFailed); }
    assert ([resp.status] + rest)[0] == resp.status && ([resp.status] + rest)[1..] == rest;
    return Ok(Received(status.value[0], head.value.0, copied.value));
  }

  // ------------------------------------------------------------------ commands

  /** What the runner guarantees about a command: a 16-byte CDB buffer, and data
      areas inside memory that do not overlap. */
  ghost predicate Acceptable(cmd: Command, size: nat)
  {
    |cmd.buffer| >= 16 && Fits(cmd.iov, size) && Distinct(Addrs(cmd.iov))
  }

  /** The data-out length of a command with a supported CDB length. */
  function RequestLength(cmd: Command): nat
    requires Wire.SupportedLength(cmd.cdbLen) && cmd.cdbLen <= |cmd.buffer|
  {
    var cdb := cmd.buffer[..cmd.cdbLen];
    if HasDataOut(cdb[0]) then DataOutLength(cdb, cmd.requested, |Addrs(cmd.iov)|) else 0
  }

  /** The data a write command announces is there to be sent. */
  predicate Sendable(cmd: Command)
    requires Wire.SupportedLength(cmd.cdbLen) && cmd.cdbLen <= |cmd.buffer|
  {
    IsWrite(cmd.buffer[0]) ==> RequestLength(cmd) <= |Addrs(cmd.iov)|
  }

  /** The status of a command that is refused before anything is sent. */
  function Refusal(cmd: Command): (r: Option<Status>)
    requires |cmd.buffer| >= 16
    ensures r.None? ==> Wire.SupportedLength(cmd.cdbLen) && RequestLength(cmd) <= UINT32_MAX
  {
    if !Wire.SupportedLength(cmd.cdbLen) then Some(InvalidCdb)
    else if IsRead(cmd.buffer[0]) && FixedMultiRead(cmd.buffer) && !cmd.canReportLength then Some(ReadError)
    else if HasDataOut(cmd.buffer[0]) && RequestLength(cmd) > MaxDataOut(cmd.buffer[0]) then Some(InvalidCdb)
    else None
  }

  /** The command got `resp`: its data is in memory, its sense and status reported. */
  ghost predicate Answered(cmd: Command, before: seq<Byte>, after: seq<Byte>, resp: Wire.Response, r: Received)
  {
    && r.status == resp.status
    && r.sense == resp.sense[..Min(|resp.sense|, SENSE_BUFFER_SIZE)]
    && r.copied == CopyLength(|resp.reply|, |cmd.iov|, cmd.requested)
    && Delivered(before, after, cmd.iov, resp.reply, r.copied,
                 |resp.reply| > 0 && cmd.requested > r.copied && |cmd.iov| > 0)
  }

  lemma RequestFramesGrow(qs: seq<Request>, q: Request)
    requires ValidRequest(q) && forall x :: x in qs ==> ValidRequest(x)
    ensures RequestFrames(qs + [q]) == RequestFrames(qs) + RequestFrame(q)
  {
    assert (qs + [q])[..|qs|] == qs;
  }

  /** The request a command gives rise to. */
  ghost predicate RequestOf(cmd: Command, initiator: seq<Byte>, mem: seq<Byte>, q: Request)
    requires Fits(cmd.iov, |mem|)
  {
    && 0 <= cmd.cdbLen <= |cmd.buffer|
    && q.name == UsableName(initiator) && q.cdb == cmd.buffer[..cmd.cdbLen]
    && q.cdb != []
    && |q.data| == (if HasDataOut(q.cdb[0]) then DataOutLength(q.cdb, cmd.requested, |Addrs(cmd.iov)|) else 0)
    && (|Addrs(cmd.iov)| > 0 ==> |q.data| <= |Addrs(cmd.iov)| && q.data == Gathered(mem, cmd.iov)[..|q.data|])
  }

  function ReplyStatus(status: Byte, cmd: Command, copied: nat): Status
    requires cmd.buffer != []
  {
    if status == 0x00 then StsOk
    else if status == 0x02 then
      if copied > 0 && IsRead(cmd.buffer[0]) && !cmd.canReportLength then ReadError else Passthrough
    else if status == 0x08 then Busy
    else HardwareError
  }

  /** The staging buffer: the iovecs' first bytes, then whatever the allocation held. */
  method Stage(mem: seq<Byte>, iov: seq<Iovec>, len: nat) returns (staged: seq<Byte>)
    requires Fits(iov, |mem|)
    ensures |staged| == len
    ensures var n := Min(len, |Addrs(iov)|); staged[..n] == Gathered(mem, iov)[..n]
  {
    var n := Min(len, |Addrs(iov)|);
    AddrsInside(iov, |mem|);
    var leftover := new Byte[len - n];
    staged := Collect(mem, Addrs(iov))[..n] + leftover[..];
  }

  /** Sends the request of an accepted command. */
  method SendCommand(s: Socket, initiator: seq<Byte>, cmd: Command, mem: seq<Byte>) returns (r: Result<(), Errno>, ghost q: Request)
    requires Acceptable(cmd, |mem|) && Refusal(cmd).None?
    modifies s
    ensures s.inbound == old(s.inbound)
    ensures r.Ok? ==> ValidRequest(q) && RequestOf(cmd, initiator, mem, q) && s.sent == old(s.sent) + RequestFrame(q)
    ensures Healthy(old(s.script)) ==> Healthy(s.script) && (Sendable(cmd) ==> r.Ok?)
  {
    var cdb := cmd.buffer[..cmd.cdbLen];
    var dataLen := RequestLength(cmd);
    var staged := Stage(mem, cmd.iov, dataLen);
    r, q := SendRequest(s, UsableName(initiator), cdb, mem, cmd.iov, dataLen, IsWrite(cdb[0]) && dataLen > 0, staged);
  }

  // ------------------------------------------------------------------- bridge

  /** The connection as the bridge sees it: on an open one, whether the transport works
      from here on, the requests sent and the responses still to come. */
  datatype Conn = Closed | Open(healthy: bool, requests: seq<Request>, pending: seq<Wire.Response>)

  /** One command of a session: the command, what a connect would find, and the
      responses the peer would then send. */
  datatype Turn = Turn(cmd: Command, link: Option<(seq<Byte>, seq<Outcome>)>, ghost responses: seq<Wire.Response>)

  ghost predicate PeerIsSound(t: Turn)
  {
    Encodable(t.responses) && (t.link.Some? ==> t.link.value.0 == ResponseFrames(t.responses))
  }

  /** The connection a command is sent on. */
  ghost function Connected(c: Conn, t: Turn): Conn
  {
    if c.Open? then c else if t.link.Some? then Open(Healthy(t.link.value.1), [], t.responses) else Closed
  }

  datatype Answer = Answer(status: Status, received: Option<Received>)

  /** On connection `c` the command's request went out, the next response came in and
      is what the command got. */
  ghost predicate Exchanged(initiator: seq<Byte>, c: Conn, m: seq<Byte>, cmd: Command, a: Answer, c': Conn, m': seq<Byte>)
    requires Fits(cmd.iov, |m|) && cmd.buffer != []
  {
    && c.Open? && c'.Open? && c.pending != [] && a.received.Some?
    && |c'.requests| == |c.requests| + 1 && c'.requests == c.requests + [c'.requests[|c.requests|]]
    && RequestOf(cmd, initiator, m, c'.requests[|c.requests|])
    && c'.pending == c.pending[1..] && (c.healthy ==> c'.healthy)
    && Answered(cmd, m, m', c.pending[0], a.received.value)
    && a.status == ReplyStatus(c.pending[0].status, cmd, a.received.value.copied)
  }

  /** Nothing keeps the command from being exchanged on connection `c`. */
  ghost predicate Exchangeable(c: Conn, cmd: Command)
    requires |cmd.buffer| >= 16 && Refusal(cmd).None?
  {
    c.Open? && c.healthy && c.pending != [] && Sendable(cmd) && Receivable(c.pending[0], cmd.iov, cmd.requested)
  }

  /** One turn, from connection `c` and memory `m` to `c'` and `m'`. */
  ghost predicate Handled(initiator: seq<Byte>, c: Conn, m: seq<Byte>, t: Turn, a: Answer, c': Conn, m': seq<Byte>)
    requires Acceptable(t.cmd, |m|)
  {
    if Refusal(t.cmd).Some? then a == Answer(Refusal(t.cmd).value, None) && c' == c && m' == m
    else
      && (if a.received.Some? then Exchanged(initiator, Connected(c, t), m, t.cmd, a, c', m') else a.status == Busy && c'.Closed?)
      && (Exchangeable(Connected(c, t), t.cmd) ==> a.received.Some?)
  }

  class Bridge {
    var socket: Socket?
    const initiator: seq<Byte>
    /** The requests sent and the responses still to come on the open connection. */
    ghost var requests: seq<Request>
    ghost var pending: seq<Wire.Response>

    /** Whenever the socket is open, what was sent on it is whole request frames
        and what is still to be read is whole response frames. */
    ghost predicate Aligned()
      reads this, socket
    {
      socket != null ==>
        && (forall q :: q in requests ==> ValidRequest(q))
        && socket.sent == RequestFrames(requests)
        && Encodable(pending)
        && socket.inbound == ResponseFrames(pending)
    }

    ghost function View(): Conn
      reads this, socket
    {
      if socket == null then Closed else Open(Healthy(socket.script), requests, pending)
    }

    constructor (initiator: seq<Byte>)
      ensures Aligned() && View() == Closed
    {
      this.initiator := initiator;
      socket, requests, pending := null, [], [];
    }

    /** Opens a connection unless one is open; `link` is what the environment has. */
    method Connect(link: Option<(seq<Byte>, seq<Outcome>)>, ghost responses: seq<Wire.Response>) returns (ok: bool)
      requires Aligned() && Encodable(responses)
      requires link.Some? ==> link.value.0 == ResponseFrames(responses)
      modifies this
      ensures Aligned() && (ok <==> socket != null)
      ensures if old(socket) != null then socket == old(socket) else socket == null || fresh(socket)
      ensures View() == if old(socket) != null then old(View())
                        else if link.Some? then Open(Healthy(link.value.1), [], responses) else Closed
    {
      if socket != null { return true; }
      if link.None? { return false; }
      socket := new Socket(link.value.0, link.value.1);
      requests, pending := [], responses;
      return true;
    }

    /** Sends the request of an accepted command and receives its answer on the
        open connection. */
    method Exchange(cmd: Command, mem: array<Byte>) returns (r: Result<Received, Failure>, ghost q: Request)
      requires socket != null && Aligned() && Acceptable(cmd, mem.Length) && Refusal(cmd).None?
      modifies this, socket, mem
      ensures Aligned() && (socket == null || socket == old(socket))
      ensures (r.Ok? <==> socket != null) && r != Err(ReplyTooLong)
      ensures socket != null ==>
        && requests == old(requests) + [q] && RequestOf(cmd, initiator, old(mem[..]), q)
        && old(pending) != [] && pending == old(pending)[1..]
        && Answered(cmd, old(mem[..]), mem[..], old(pending)[0], r.value)
      ensures old(Healthy(socket.script)) && Sendable(cmd) && old(pending) != [] && Receivable(old(pending)[0], cmd.iov, cmd.requested)
              ==> r.Ok?
      ensures old(Healthy(socket.script)) && r.Ok? ==> Healthy(socket.script)
    {
      var sent;
      sent, q := SendCommand(socket, initiator, cmd, mem[..]);
      if sent.Err? { socket := null; return Err(TransferFailed), q; }
      RequestFramesGrow(requests, q);
      assert pending != [] ==> Wire.EncodableResponse(pending[0]);
      r := ReceiveResponse(socket, mem, cmd.iov, cmd.requested, pending);
      if r.Err? { socket := null; return; }
      requests, pending := requests + [q], pending[1..];
    }

    /** One command. Afterwards the connection is closed, or it is the one before
        with nothing exchanged because the command was refused up front, or exactly
        one request frame went out and exactly one response frame came in. */
    method HandleCommand(cmd: Command, mem: array<Byte>, link: Option<(seq<Byte>, seq<Outcome>)>, ghost responses: seq<Wire.Response>)
      returns (a: Answer)
      requires Aligned() && PeerIsSound(Turn(cmd, link, responses)) && Acceptable(cmd, mem.Length)
      modifies this, socket, mem
      ensures Aligned() && (socket == null || socket == old(socket) || fresh(socket))
      ensures Handled(initiator, old(View()), old(mem[..]), Turn(cmd, link, responses), a, View(), mem[..])
    {
      var refusal := Refusal(cmd);
      if refusal.Some? { return Answer(refusal.value, None); }
      var ok := Connect(link, responses);
      if !ok { return Answer(Busy, None); }
      var got;
      ghost var q;
      got, q := Exchange(cmd, mem);
      if got.Err? { return Answer(if got.error == ReplyTooLong then ReadError else Busy, None); }
      return Answer(ReplyStatus(got.value.status, cmd, got.value.copied), Some(got.value));
    }
  }

  // ------------------------------------------------------------------- session

  /** The history of a session: each turn was handled from one recorded state to the
      next. */
  ghost predicate Session(initiator: seq<Byte>, turns: seq<Turn>, answers: seq<Answer>, conns: seq<Conn>, mems: seq<seq<Byte>>)
  {
    && |answers| <= |turns| && |conns| == |mems| == |answers| + 1
    && forall i :: 0 <= i < |answers| ==> HandledAt(initiator, turns, answers, conns, mems, i)
  }

  ghost predicate HandledAt(initiator: seq<Byte>, turns: seq<Turn>, answers: seq<Answer>, conns: seq<Conn>, mems: seq<seq<Byte>>, i: nat)
    requires i < |turns| && i < |answers| && i + 1 < |conns| && i + 1 < |mems|
  {
    && Acceptable(turns[i].cmd, |mems[i]|)
    && Handled(initiator, conns[i], mems[i], turns[i], answers[i], conns[i + 1], mems[i + 1])
  }

  lemma SessionOn(initiator: seq<Byte>, turns: seq<Turn>, answers: seq<Answer>, conns: seq<Conn>, mems: seq<seq<Byte>>,
                  a: Answer, c: Conn, m: seq<Byte>)
    requires Session(initiator, turns, answers, conns, mems) && |answers| < |turns|
    requires var n := |answers|; Acceptable(turns[n].cmd, |mems[n]|) && Handled(initiator, conns[n], mems[n], turns[n], a, c, m)
    ensures Session(initiator, turns, answers + [a], conns + [c], mems + [m])
  {
    var answered, cs, ms := answers + [a], conns + [c], mems + [m];
    forall i: nat | i < |answered| ensures HandledAt(initiator, turns, answered, cs, ms, i) {
      if i < |answers| { assert HandledAt(initiator, turns, answers, conns, mems, i); }
    }
  }

  /** As long as commands are exchanged on one connection, the one after `k` of them
      gets the response that was `k`th in line, and no request was lost or doubled. */
  lemma {:induction false} AnswersInOrder(initiator: seq<Byte>, turns: seq<Turn>, answers: seq<Answer>, conns: seq<Conn>,
                                          mems: seq<seq<Byte>>, k: nat)
    requires Session(initiator, turns, answers, conns, mems) && k <= |answers| && conns[0].Open?
    requires forall i :: 0 <= i < k ==> answers[i].received.Some?
    ensures conns[k].Open? && k <= |conns[0].pending| && conns[k].pending == conns[0].pending[k..]
    ensures |conns[k].requests| == |conns[0].requests| + k && conns[0].requests <= conns[k].requests
  {
    if k > 0 {
      AnswersInOrder(initiator, turns, answers, conns, mems, k - 1);
      assert HandledAt(initiator, turns, answers, conns, mems, k - 1);
      assert conns[0].pending[k - 1..][1..] == conns[0].pending[k..];
    }
  }

  /** Nothing in the commands or the responses keeps the first `k` turns from being
      exchanged on connection `c`. */
  ghost predicate Smooth(c: Conn, turns: seq<Turn>, k: nat)
    requires k <= |turns|
  {
    && c.Open? && c.healthy && k <= |c.pending|
    && forall i :: 0 <= i < k ==> SmoothTurn(turns[i].cmd, c.pending[i])
  }

  ghost predicate SmoothTurn(cmd: Command, resp: Wire.Response)
  {
    |cmd.buffer| >= 16 && Refusal(cmd).None? && Sendable(cmd) && Receivable(resp, cmd.iov, cmd.requested)
  }

  /** On a connection that works every command is exchanged, whatever the number. */
  lemma {:induction false} HealthyStaysOpen(initiator: seq<Byte>, turns: seq<Turn>, answers: seq<Answer>, conns: seq<Conn>,
                                            mems: seq<seq<Byte>>, k: nat)
    requires Session(initiator, turns, answers, conns, mems) && k <= |answers| && Smooth(conns[0], turns, k)
    ensures conns[k].Open? && conns[k].healthy
    ensures forall i :: 0 <= i < k ==> answers[i].received.Some?
  {
    if k > 0 {
      HealthyStaysOpen(initiator, turns, answers, conns, mems, k - 1);
      AnswersInOrder(initiator, turns, answers, conns, mems, k - 1);
      assert HandledAt(initiator, turns, answers, conns, mems, k - 1);
      assert SmoothTurn(turns[k - 1].cmd, conns[k - 1].pending[0]);
    }
  }

  /** Any sequence of commands against a peer that sends sound responses: every turn is
      handled, and a socket that is still open has sent whole request frames only,
      which the data plane reads back one packet a request. */
  method Serve(b: Bridge, turns: seq<Turn>, mem: array<Byte>)
    returns (answers: seq<Answer>, ghost conns: seq<Conn>, ghost mems: seq<seq<Byte>>)
    requires b.Aligned() && forall t :: t in turns ==> PeerIsSound(t) && Acceptable(t.cmd, mem.Length)
    modifies b, b.socket, mem
    ensures b.Aligned() && |answers| == |turns| && Session(b.initiator, turns, answers, conns, mems)
    ensures conns[0] == old(b.View()) && conns[|turns|] == b.View() && mems[0] == old(mem[..]) && mems[|turns|] == mem[..]
    ensures b.socket != null && (forall q :: q in b.requests ==> Readable(q)) ==>
      Wire.ParseAll(b.socket.sent) == Some(AsPackets(b.requests))
  {
    answers, conns, mems := [], [b.View()], [mem[..]];
    for i := 0 to |turns|
      invariant b.Aligned() && (b.socket == null || b.socket == old(b.socket) || fresh(b.socket))
      invariant |answers| == i && Session(b.initiator, turns, answers, conns, mems)
      invariant conns[0] == old(b.View()) && conns[i] == b.View() && mems[0] == old(mem[..]) && mems[i] == mem[..]
    {
      var t := turns[i];
      assert t in turns;
      var a := b.HandleCommand(t.cmd, mem, t.link, t.responses);
      SessionOn(b.initiator, turns, answers, conns, mems, a, b.View(), mem[..]);
      answers, conns, mems := answers + [a], conns + [b.View()], mems + [mem[..]];
    }
    if b.socket != null && forall q :: q in b.requests ==> Readable(q) { RequestsAreRead(b.requests); }
  }
}
