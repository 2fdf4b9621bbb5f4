/** The CDB request and response frames exchanged between the TCMU bridge and
    the data plane (data-plane/src/iscsi/cdb_wire.rs).

    `Frame` and `ResponseFrame` give the layout, `Parse` and `ParseResponse` the
    decoders; the methods write to and read from streams piece by piece, as the
    code does, and are proved against them. */
module CdbWire {
  import opened Bytes
  import Utf8

  const MAX_SENSE_LEN: int := 252
  const MAX_DATA_LEN: int := 0x100_0000
  const EXTENDED_MARKER: Byte := 0xFF
  const EXTENDED_VERSION: Byte := 0x01
  const MAX_INITIATOR_LEN: int := 255

  datatype WireError = InvalidInput | InvalidData | UnexpectedEof

  datatype Header = Header(cdb: seq<Byte>, dataLen: nat, initiator: Option<string>)

  datatype Packet = Packet(cdb: seq<Byte>, data: seq<Byte>, initiator: Option<string>)

  datatype Response = Response(sense: seq<Byte>, reply: seq<Byte>, status: Byte)

  predicate SupportedLength(n: int) { n == 6 || n == 10 || n == 12 || n == 16 }

  /** The initiator a frame carries: surrounding blanks and blank names do not travel. */
  function Clean(initiator: Option<string>): (r: Option<string>)
    ensures r.Some? ==> r.value != ""
  {
    if initiator.None? then None
    else
      var t := Utf8.Trim(initiator.value);
      if t == "" then None else Some(t)
  }

  lemma CleanIdempotent(initiator: Option<string>)
    ensures Clean(Clean(initiator)) == Clean(initiator)
  {
    if initiator.Some? {
      Utf8.TrimIdempotent(initiator.value);
    }
  }

  function Normalize(p: Packet): Packet { p.(initiator := Clean(p.initiator)) }

  predicate Encodable(p: Packet)
  {
    && SupportedLength(|p.cdb|)
    && |p.data| <= MAX_DATA_LEN
    && (Clean(p.initiator).Some? ==> |Utf8.Encode(Clean(p.initiator).value)| <= MAX_INITIATOR_LEN)
  }

  predicate EncodableResponse(r: Response)
  {
    |r.sense| <= MAX_SENSE_LEN && |r.reply| <= MAX_DATA_LEN
  }

  /** The layout has room for more sense bytes than the encoder lets through. */
  predicate Framable(r: Response)
  {
    |r.sense| < 256 && |r.reply| <= MAX_DATA_LEN
  }

  // ---------------------------------------------------------------- layout

  /** What comes before the CDB length: nothing, or the marker, the version and
      the length-prefixed initiator name. */
  function Preamble(name: seq<Byte>): (b: seq<Byte>)
    requires |name| <= MAX_INITIATOR_LEN
  {
    if name == [] then [] else [EXTENDED_MARKER, EXTENDED_VERSION, |name|] + name
  }

  function NameBytes(initiator: Option<string>): (b: seq<Byte>)
  {
    match Clean(initiator)
    case None => []
    case Some(t) => Utf8.Encode(t)
  }

  function HeaderBytes(name: seq<Byte>, cdb: seq<Byte>, dataLen: nat): (b: seq<Byte>)
    requires |name| <= MAX_INITIATOR_LEN && SupportedLength(|cdb|) && dataLen < WORD_LIMIT
  {
    Preamble(name) + ([|cdb|] + (cdb + ToBigEndian(dataLen)))
  }

  function Frame(p: Packet): (b: seq<Byte>)
    requires Encodable(p)
  {
    HeaderBytes(NameBytes(p.initiator), p.cdb, |p.data|) + p.data
  }

  function ResponseFrame(r: Response): (b: seq<Byte>)
    requires Framable(r)
  {
    [|r.sense|] + (r.sense + (ToBigEndian(|r.reply|) + (r.reply + [r.status])))
  }

  // -------------------------------------------------------------- decoders

  /** `Read::read_exact`: exactly `n` bytes and what follows them, or the end. */
  function Take(b: seq<Byte>, n: nat): (r: Result<(seq<Byte>, seq<Byte>), WireError>)
    ensures r != Err(InvalidInput)
  {
    if |b| < n then Err(UnexpectedEof) else Ok((b[..n], b[n..]))
  }

  function ParseCdb(length: Byte, b: seq<Byte>, initiator: Option<string>)
    : (r: Result<(Header, seq<Byte>), WireError>)
    ensures r != Err(InvalidInput)
  {
    if !SupportedLength(length) then Err(InvalidData)
    else
      match Take(b, length)
      case Err(e) => Err(e)
      case Ok((cdb, afterCdb)) =>
        match Take(afterCdb, 4)
        case Err(e) => Err(e)
        case Ok((word, rest)) =>
          if FromBigEndian(word) > MAX_DATA_LEN then Err(InvalidData)
          else Ok((Header(cdb, FromBigEndian(word), initiator), rest))
  }

  function ParseName(name: seq<Byte>): (r: Result<Option<string>, WireError>)
    ensures r != Err(InvalidInput)
  {
    match Utf8.Decode(name)
    case None => Err(InvalidData)
    case Some(text) => Ok(Clean(Some(text)))
  }

  function ParseExtended(b: seq<Byte>): (r: Result<(Header, seq<Byte>), WireError>)
    ensures r != Err(InvalidInput)
  {
    if b == [] then Err(UnexpectedEof)
    else if b[0] != EXTENDED_VERSION then Err(InvalidData)
    else if |b| < 2 then Err(UnexpectedEof)
    else
      match Take(b[2..], b[1])
      case Err(e) => Err(e)
      case Ok((name, afterName)) =>
        match ParseName(name)
        case Err(e) => Err(e)
        case Ok(initiator) =>
          if afterName == [] then Err(UnexpectedEof)
          else ParseCdb(afterName[0], afterName[1..], initiator)
  }

  function ParseHeader(b: seq<Byte>): (r: Result<(Header, seq<Byte>), WireError>)
    ensures r != Err(InvalidInput)
  {
    if b == [] then Err(UnexpectedEof)
    else if b[0] == EXTENDED_MARKER then ParseExtended(b[1..])
    else ParseCdb(b[0], b[1..], None)
  }

  function Parse(b: seq<Byte>): (r: Result<(Packet, seq<Byte>), WireError>)
    ensures r != Err(InvalidInput)
    ensures r.Ok? ==> |r.value.1| < |b|
  {
    match ParseHeader(b)
    case Err(e) => Err(e)
    case Ok((h, afterHeader)) =>
      match Take(afterHeader, h.dataLen)
      case Err(e) => Err(e)
      case Ok((data, rest)) => Ok((Packet(h.cdb, data, h.initiator), rest))
  }

  function ParseResponse(b: seq<Byte>): (r: Result<(Response, seq<Byte>), WireError>)
    ensures r.Ok? ==> |r.value.1| < |b|
  {
    if b == [] then Err(UnexpectedEof)
    else
      match Take(b[1..], b[0])
      case Err(e) => Err(e)
      case Ok((sense, afterSense)) =>
        match Take(afterSense, 4)
        case Err(e) => Err(e)
        case Ok((word, afterWord)) =>
          if FromBigEndian(word) > MAX_DATA_LEN then Err(InvalidData)
          else
            match Take(afterWord, FromBigEndian(word))
            case Err(e) => Err(e)
            case Ok((reply, afterReply)) =>
              if afterReply == [] then Err(UnexpectedEof)
              else Ok((Response(sense, reply, afterReply[0]), afterReply[1..]))
  }

  /** Every packet on a stream, when the stream ends exactly after a packet. */
  function ParseAll(b: seq<Byte>): (r: Option<seq<Packet>>)
    decreases |b|
  {
    if b == [] then Some([])
    else
      match Parse(b)
      case Err(_) => None
      case Ok((p, rest)) =>
        match ParseAll(rest)
        case None => None
        case Some(ps) => Some([p] + ps)
  }

  // ------------------------------------------------------------ round trips

  lemma TakeJoin(x: seq<Byte>, rest: seq<Byte>)
    ensures Take(x + rest, |x|) == Ok((x, rest))
  {
    assert (x + rest)[..|x|] == x && (x + rest)[|x|..] == rest;
  }

  lemma CdbRoundTrip(cdb: seq<Byte>, dataLen: nat, initiator: Option<string>, rest: seq<Byte>)
    requires SupportedLength(|cdb|) && dataLen < WORD_LIMIT
    ensures ParseCdb(|cdb|, cdb + ToBigEndian(dataLen) + rest, initiator)
         == if dataLen <= MAX_DATA_LEN then Ok((Header(cdb, dataLen, initiator), rest)) else Err(InvalidData)
  {
    var word := ToBigEndian(dataLen);
    assert cdb + word + rest == cdb + (word + rest);
    TakeJoin(cdb, word + rest);
    TakeJoin(word, rest);
    WordRoundTrip(dataLen);
  }

  lemma ExtendedHeader(name: seq<Byte>, length: Byte, tail: seq<Byte>)
    requires 0 < |name| <= MAX_INITIATOR_LEN
    ensures ParseHeader(Preamble(name) + ([length] + tail))
         == if ParseName(name).Err? then Err(ParseName(name).error)
            else ParseCdb(length, tail, ParseName(name).value)
  {
    var b := Preamble(name) + ([length] + tail);
    var e := b[1..];
    assert e[2..] == name + ([length] + tail);
    TakeJoin(name, [length] + tail);
    assert ([length] + tail)[1..] == tail;
  }

  lemma PlainHeader(length: Byte, tail: seq<Byte>)
    requires length != EXTENDED_MARKER
    ensures ParseHeader(Preamble([]) + ([length] + tail)) == ParseCdb(length, tail, None)
  {
    assert (Preamble([]) + ([length] + tail))[1..] == tail;
  }

  /** The decoder reads back a header exactly when its name is UTF-8 and its data
      length is within the limit; it then gives the name trimmed, or none when
      the name is blank. */
  lemma HeaderRoundTrip(name: seq<Byte>, cdb: seq<Byte>, dataLen: nat, rest: seq<Byte>)
    requires |name| <= MAX_INITIATOR_LEN && SupportedLength(|cdb|) && dataLen < WORD_LIMIT
    ensures ParseHeader(HeaderBytes(name, cdb, dataLen) + rest)
         == if ParseName(name).Ok? && dataLen <= MAX_DATA_LEN
            then Ok((Header(cdb, dataLen, ParseName(name).value), rest))
            else Err(InvalidData)
  {
    var body := cdb + ToBigEndian(dataLen) + rest;
    assert HeaderBytes(name, cdb, dataLen) + rest == Preamble(name) + ([|cdb|] + body);
    if name == [] {
      PlainHeader(|cdb|, body);
      EmptyName();
      CdbRoundTrip(cdb, dataLen, None, rest);
    } else {
      ExtendedHeader(name, |cdb|, body);
      if ParseName(name).Ok? {
        CdbRoundTrip(cdb, dataLen, ParseName(name).value, rest);
      }
    }
  }

  lemma EmptyName()
    ensures ParseName([]) == Ok(None)
  {
    assert Utf8.Decode([]) == Some("");
  }

  lemma NameRoundTrip(initiator: Option<string>)
    ensures ParseName(NameBytes(initiator)) == Ok(Clean(initiator))
  {
    match Clean(initiator)
    case None => EmptyName();
    case Some(t) => Utf8.RoundTrip(t); CleanIdempotent(initiator);
  }

  lemma JoinAssociates(a: seq<Byte>, b: seq<Byte>, c: seq<Byte>)
    ensures a + b + c == a + (b + c)
  {
  }

  lemma ParseAfterHeader(b: seq<Byte>, h: Header, data: seq<Byte>, rest: seq<Byte>)
    requires ParseHeader(b) == Ok((h, data + rest)) && h.dataLen == |data|
    ensures Parse(b) == Ok((Packet(h.cdb, data, h.initiator), rest))
  {
    TakeJoin(data, rest);
  }

  lemma PacketRoundTrip(p: Packet, rest: seq<Byte>)
    requires Encodable(p)
    ensures Parse(Frame(p) + rest) == Ok((Normalize(p), rest))
  {
    var name := NameBytes(p.initiator);
    var front := HeaderBytes(name, p.cdb, |p.data|);
    JoinAssociates(front, p.data, rest);
    NameRoundTrip(p.initiator);
    HeaderRoundTrip(name, p.cdb, |p.data|, p.data + rest);
    ParseAfterHeader(front + (p.data + rest), Header(p.cdb, |p.data|, Clean(p.initiator)), p.data, rest);
  }

  lemma ResponseRoundTrip(r: Response, rest: seq<Byte>)
    requires Framable(r)
    ensures ParseResponse(ResponseFrame(r) + rest) == Ok((r, rest))
  {
    var word := ToBigEndian(|r.reply|);
    var b := ResponseFrame(r) + rest;
    assert b[1..] == r.sense + (word + (r.reply + ([r.status] + rest)));
    TakeJoin(r.sense, word + (r.reply + ([r.status] + rest)));
    TakeJoin(word, r.reply + ([r.status] + rest));
    WordRoundTrip(|r.reply|);
    TakeJoin(r.reply, [r.status] + rest);
    assert ([r.status] + rest)[1..] == rest;
  }

  function Frames(ps: seq<Packet>): (b: seq<Byte>)
    requires forall i :: 0 <= i < |ps| ==> Encodable(ps[i])
  {
    if ps == [] then [] else Frame(ps[0]) + Frames(ps[1..])
  }

  function NormalizeAll(ps: seq<Packet>): (r: seq<Packet>)
    ensures |r| == |ps|
    ensures forall i :: 0 <= i < |ps| ==> r[i] == Normalize(ps[i])
  {
    if ps == [] then [] else [Normalize(ps[0])] + NormalizeAll(ps[1..])
  }

  /** Decoding a concatenation of encodable packets gives back exactly those
      packets, in order, with no bytes left. */
  lemma {:induction false} StreamRoundTrip(ps: seq<Packet>)
    requires forall i :: 0 <= i < |ps| ==> Encodable(ps[i])
    ensures ParseAll(Frames(ps)) == Some(NormalizeAll(ps))
  {
    if ps != [] {
      PacketRoundTrip(ps[0], Frames(ps[1..]));
      StreamRoundTrip(ps[1..]);
    }
  }

  /** Frames are uniquely decodable: no frame, plain or extended, begins like
      another one, so the split of a stream into frames is unique. */
  lemma FramesNeverCollide(p: Packet, q: Packet, x: seq<Byte>, y: seq<Byte>)
    requires Encodable(p) && Encodable(q)
    requires Frame(p) + x == Frame(q) + y
    ensures Normalize(p) == Normalize(q) && x == y
  {
    PacketRoundTrip(p, x);
    PacketRoundTrip(q, y);
  }

  // ------------------------------------------------- truncation and acceptance

  lemma TakeMore(b: seq<Byte>, n: nat, x: seq<Byte>)
    requires n <= |b|
    ensures Take(b + x, n) == Ok((b[..n], b[n..] + x))
  {
    assert (b + x)[..n] == b[..n] && (b + x)[n..] == b[n..] + x;
  }

  lemma ParseCdbMore(length: Byte, b: seq<Byte>, initiator: Option<string>, x: seq<Byte>)
    ensures var r := ParseCdb(length, b, initiator);
            && (r.Ok? ==> ParseCdb(length, b + x, initiator) == Ok((r.value.0, r.value.1 + x)))
            && (r == Err(InvalidData) ==> ParseCdb(length, b + x, initiator) == r)
  {
    if SupportedLength(length) && |b| >= length {
      TakeMore(b, length, x);
      if |b[length..]| >= 4 {
        TakeMore(b[length..], 4, x);
      }
    }
  }

  lemma ParseHeaderMore(b: seq<Byte>, x: seq<Byte>)
    ensures var r := ParseHeader(b);
            && (r.Ok? ==> ParseHeader(b + x) == Ok((r.value.0, r.value.1 + x)))
            && (r == Err(InvalidData) ==> ParseHeader(b + x) == r)
  {
    if b == [] {
    } else if b[0] != EXTENDED_MARKER {
      assert (b + x)[1..] == b[1..] + x;
      ParseCdbMore(b[0], b[1..], None, x);
    } else {
      var e := b[1..];
      assert (b + x)[1..] == e + x;
      if |e| >= 2 && |e[2..]| >= e[1] {
        assert (e + x)[2..] == e[2..] + x;
        TakeMore(e[2..], e[1], x);
        var afterName := e[2..][e[1]..];
        if afterName != [] && ParseName(e[2..][..e[1]]).Ok? {
          assert (afterName + x)[1..] == afterName[1..] + x;
          ParseCdbMore(afterName[0], afterName[1..], ParseName(e[2..][..e[1]]).value, x);
        }
      }
    }
  }

  /** A decoder that has seen enough never changes its mind on more input. */
  lemma ParseMore(b: seq<Byte>, x: seq<Byte>)
    ensures var r := Parse(b);
            && (r.Ok? ==> Parse(b + x) == Ok((r.value.0, r.value.1 + x)))
            && (r == Err(InvalidData) ==> Parse(b + x) == r)
  {
    ParseHeaderMore(b, x);
    var h := ParseHeader(b);
    if h.Ok? && h.value.0.dataLen <= |h.value.1| {
      TakeMore(h.value.1, h.value.0.dataLen, x);
    }
  }

  lemma ShorterIsTruncated(b: seq<Byte>, x: seq<Byte>, p: Packet)
    requires x != [] && Parse(b + x) == Ok((p, []))
    ensures Parse(b) == Err(UnexpectedEof)
  {
    ParseMore(b, x);
    assert forall tail: seq<Byte> :: tail + x != [] by {
      forall tail: seq<Byte> ensures tail + x != [] { assert |tail + x| > 0; }
    }
  }

  /** Every proper prefix of a frame is reported as truncated, never as another
      packet and never as corrupt. */
  lemma TruncatedFrame(p: Packet, k: nat)
    requires Encodable(p) && k < |Frame(p)|
    ensures Parse(Frame(p)[..k]) == Err(UnexpectedEof)
  {
    var f := Frame(p);
    PacketRoundTrip(p, []);
    assert f + [] == f == f[..k] + f[k..];
    ShorterIsTruncated(f[..k], f[k..], Normalize(p));
  }

  lemma ParsedCdb(length: Byte, b: seq<Byte>, initiator: Option<string>)
    requires ParseCdb(length, b, initiator).Ok?
    ensures var (h, rest) := ParseCdb(length, b, initiator).value;
            && SupportedLength(|h.cdb|) && |h.cdb| == length && h.dataLen <= MAX_DATA_LEN
            && h.initiator == initiator
            && b == h.cdb + ToBigEndian(h.dataLen) + rest
  {
    var cdb, afterCdb := b[..length], b[length..];
    WordOfBytes(afterCdb[..4]);
    assert b == cdb + (afterCdb[..4] + afterCdb[4..]);
  }

  /** The raw name a frame carries: empty for a plain frame. */
  function RawName(b: seq<Byte>): (name: seq<Byte>)
    requires ParseHeader(b).Ok?
  {
    if b[0] == EXTENDED_MARKER then b[3..][..b[2]] else []
  }

  /** What the decoder accepts is a header over the raw name, and what it
      returns is clean. */
  lemma ParsedHeader(b: seq<Byte>)
    requires ParseHeader(b).Ok?
    ensures var (h, rest) := ParseHeader(b).value;
            && SupportedLength(|h.cdb|) && h.dataLen <= MAX_DATA_LEN
            && |RawName(b)| <= MAX_INITIATOR_LEN && Utf8.Decode(RawName(b)).Some?
            && h.initiator == Clean(Utf8.Decode(RawName(b)))
            && b[(if b[0] == EXTENDED_MARKER then 3 + |RawName(b)| else 0)..]
               == [|h.cdb|] + (h.cdb + ToBigEndian(h.dataLen)) + rest
  {
    if b[0] == EXTENDED_MARKER {
      ExtendedShape(b);
      ParsedAfterName(b, RawName(b), b[3..][b[2]..]);
    } else {
      ParsedCdb(b[0], b[1..], None);
      assert b == [b[0]] + b[1..];
      assert Utf8.Decode([]) == Some("");
    }
  }

  lemma ExtendedShape(b: seq<Byte>)
    requires ParseHeader(b).Ok? && b[0] == EXTENDED_MARKER
    ensures 3 <= |b| && b[1] == EXTENDED_VERSION && 3 + b[2] < |b| && b[3..][b[2]..] == b[3 + b[2]..]
    ensures Utf8.Decode(b[3..][..b[2]]).Some?
    ensures var afterName := b[3..][b[2]..];
      ParseHeader(b) == ParseCdb(afterName[0], afterName[1..], Clean(Utf8.Decode(b[3..][..b[2]])))
  {
    var e := b[1..];
    assert e[0] == b[1] && e[1] == b[2] && e[2..] == b[3..];
  }

  lemma ParsedAfterName(b: seq<Byte>, name: seq<Byte>, afterName: seq<Byte>)
    requires Utf8.Decode(name).Some? && afterName != [] && ParseHeader(b).Ok?
    requires ParseHeader(b) == ParseCdb(afterName[0], afterName[1..], Clean(Utf8.Decode(name)))
    ensures var (h, rest) := ParseHeader(b).value;
            && SupportedLength(|h.cdb|) && h.dataLen <= MAX_DATA_LEN && h.initiator == Clean(Utf8.Decode(name))
            && afterName == [|h.cdb|] + (h.cdb + ToBigEndian(h.dataLen)) + rest
  {
    ParsedCdb(afterName[0], afterName[1..], Clean(Utf8.Decode(name)));
    assert afterName == [afterName[0]] + afterName[1..];
  }

  lemma CleanNotLonger(text: string)
    ensures |NameBytes(Some(text))| <= |Utf8.Encode(text)|
    ensures |NameBytes(Clean(Some(text)))| <= |Utf8.Encode(text)|
  {
    Utf8.TrimNotLonger(text);
    CleanIdempotent(Some(text));
  }

  lemma SameNameBytes(raw: seq<Byte>, name: seq<Byte>, tail: seq<Byte>)
    requires |raw| <= MAX_INITIATOR_LEN && |name| <= MAX_INITIATOR_LEN
    requires tail != [] && tail[0] != EXTENDED_MARKER
    ensures [EXTENDED_MARKER, EXTENDED_VERSION, |raw|] + raw + tail == Preamble(name) + tail
            <==> name != [] && name == raw
  {
    var b, f := [EXTENDED_MARKER, EXTENDED_VERSION, |raw|] + raw + tail, Preamble(name) + tail;
    if b == f && name != [] {
      assert b[2] == |raw| && f[2] == |name|;
      assert b[3..] == raw + tail && f[3..] == name + tail;
      assert (raw + tail)[..|raw|] == raw && (name + tail)[..|name|] == name;
    } else if name == [] {
      assert f[0] == tail[0];
    }
  }

  /** The bytes of an accepted frame after its name. */
  function AfterName(p: Packet): (b: seq<Byte>)
    requires SupportedLength(|p.cdb|) && |p.data| <= MAX_DATA_LEN
  {
    [|p.cdb|] + (p.cdb + ToBigEndian(|p.data|)) + p.data
  }

  /** The name part of an accepted frame, as it stands on the wire. */
  function RawPreamble(b: seq<Byte>): (r: seq<Byte>)
    requires ParseHeader(b).Ok?
  {
    if b[0] == EXTENDED_MARKER then [EXTENDED_MARKER, EXTENDED_VERSION, |RawName(b)|] + RawName(b) else []
  }

  lemma JoinHeader(b: seq<Byte>, front: seq<Byte>, p: Packet, word: seq<Byte>, afterHeader: seq<Byte>, rest: seq<Byte>)
    requires SupportedLength(|p.cdb|) && |p.data| <= MAX_DATA_LEN && word == ToBigEndian(|p.data|)
    requires |front| <= |b| && b[..|front|] == front
    requires b[|front|..] == [|p.cdb|] + (p.cdb + word) + afterHeader
    requires afterHeader == p.data + rest
    ensures b == front + (AfterName(p) + rest)
  {
    assert b == front + b[|front|..];
    assert [|p.cdb|] + (p.cdb + word) + (p.data + rest) == AfterName(p) + rest;
  }

  lemma ParsedData(b: seq<Byte>, p: Packet, rest: seq<Byte>)
    requires Parse(b) == Ok((p, rest))
    ensures ParseHeader(b) == Ok((Header(p.cdb, |p.data|, p.initiator), p.data + rest))
  {
    var h, afterHeader := ParseHeader(b).value.0, ParseHeader(b).value.1;
    assert afterHeader == afterHeader[..h.dataLen] + afterHeader[h.dataLen..];
  }

  lemma AcceptedShape(b: seq<Byte>, p: Packet, rest: seq<Byte>)
    requires ParseHeader(b) == Ok((Header(p.cdb, |p.data|, p.initiator), p.data + rest))
    ensures SupportedLength(|p.cdb|) && |p.data| <= MAX_DATA_LEN
    ensures b == RawPreamble(b) + (AfterName(p) + rest)
  {
    ParsedHeader(b);
    var front := RawPreamble(b);
    AcceptedFront(b);
    JoinHeader(b, front, p, ToBigEndian(|p.data|), p.data + rest, rest);
  }

  lemma FrontOf(b: seq<Byte>, name: seq<Byte>)
    requires 3 + |name| <= |b| && |name| < 256 && name == b[3..][..|name|]
    requires b[0] == EXTENDED_MARKER && b[1] == EXTENDED_VERSION && b[2] == |name|
    ensures b[..3 + |name|] == [EXTENDED_MARKER, EXTENDED_VERSION, |name|] + name
  {
    assert b[..3 + |name|] == b[..3] + b[3..][..|name|];
  }

  lemma AcceptedFront(b: seq<Byte>)
    requires ParseHeader(b).Ok?
    ensures |RawPreamble(b)| <= |b| && b[..|RawPreamble(b)|] == RawPreamble(b)
    ensures |RawPreamble(b)| == if b[0] == EXTENDED_MARKER then 3 + |RawName(b)| else 0
  {
    if b[0] == EXTENDED_MARKER {
      ExtendedShape(b);
      FrontOf(b, RawName(b));
    }
  }

  lemma AcceptedName(b: seq<Byte>, p: Packet)
    requires ParseHeader(b).Ok? && ParseHeader(b).value.0 == Header(p.cdb, |p.data|, p.initiator)
    ensures Encodable(p) && Normalize(p) == p
  {
    ParsedHeader(b);
    var raw := RawName(b);
    Utf8.DecodeIsInverse(raw);
    CleanNotLonger(Utf8.Decode(raw).value);
    CleanIdempotent(Utf8.Decode(raw));
  }

  /** Whatever the decoder accepts can be encoded again and read back. */
  lemma DecodeThenEncode(b: seq<Byte>)
    requires Parse(b).Ok?
    ensures var (p, rest) := Parse(b).value;
            && Encodable(p) && Normalize(p) == p
            && Parse(Frame(p) + rest) == Ok((p, rest))
  {
    var p, rest := Parse(b).value.0, Parse(b).value.1;
    ParsedData(b, p, rest);
    AcceptedName(b, p);
    PacketRoundTrip(p, rest);
  }

  lemma FrameShape(p: Packet, rest: seq<Byte>)
    requires Encodable(p)
    ensures Frame(p) + rest == Preamble(NameBytes(p.initiator)) + (AfterName(p) + rest)
  {
    var word, front := ToBigEndian(|p.data|), Preamble(NameBytes(p.initiator));
    assert front + ([|p.cdb|] + (p.cdb + word)) + p.data + rest
        == front + ([|p.cdb|] + (p.cdb + word) + p.data + rest);
  }

  /** The re-encoding is the accepted frame itself exactly when that frame is
      plain or carries a non-blank name that is already trimmed. */
  lemma CanonicalFrame(b: seq<Byte>, p: Packet, rest: seq<Byte>)
    requires Parse(b) == Ok((p, rest)) && Encodable(p)
    ensures b == Frame(p) + rest <==>
            (b[0] == EXTENDED_MARKER ==> NameBytes(p.initiator) != [] && NameBytes(p.initiator) == RawName(b))
  {
    ParsedData(b, p, rest);
    AcceptedShape(b, p, rest);
    FrameShape(p, rest);
    if b[0] == EXTENDED_MARKER {
      RawNameShort(b);
      SameNameBytes(RawName(b), NameBytes(p.initiator), AfterName(p) + rest);
    } else {
      PlainHasNoName(b);
    }
  }

  lemma RawNameShort(b: seq<Byte>)
    requires ParseHeader(b).Ok?
    ensures |RawName(b)| <= MAX_INITIATOR_LEN
  {
    ParsedHeader(b);
  }

  lemma PlainHasNoName(b: seq<Byte>)
    requires ParseHeader(b).Ok? && b[0] != EXTENDED_MARKER
    ensures ParseHeader(b).value.0.initiator.None?
  {
  }

  lemma JoinResponse(b: seq<Byte>, r: Response, word: seq<Byte>, rest: seq<Byte>)
    requires Framable(r) && word == ToBigEndian(|r.reply|)
    requires b != [] && b[0] == |r.sense|
    requires b[1..] == r.sense + (word + (r.reply + ([r.status] + rest)))
    ensures b == ResponseFrame(r) + rest
  {
    assert b == [b[0]] + b[1..];
    assert r.sense + (word + (r.reply + ([r.status] + rest))) == r.sense + (word + (r.reply + [r.status])) + rest;
  }

  lemma AcceptedResponse(b: seq<Byte>)
    requires ParseResponse(b).Ok?
    ensures var (r, rest) := ParseResponse(b).value;
            && b[0] == |r.sense| && |r.reply| <= MAX_DATA_LEN
            && b[1..] == r.sense + (ToBigEndian(|r.reply|) + (r.reply + ([r.status] + rest)))
  {
    var r, rest := ParseResponse(b).value.0, ParseResponse(b).value.1;
    var afterSense := b[1..][b[0]..];
    WordOfBytes(afterSense[..4]);
    var afterWord := afterSense[4..];
    assert afterSense == afterSense[..4] + afterWord;
    assert afterWord == r.reply + afterWord[|r.reply|..];
    assert afterWord[|r.reply|..] == [r.status] + rest;
  }

  /** What the response decoder accepts is one frame and what follows it; with the
      round trip above it accepts exactly the frames. It does not check the sense
      limit, so these are the encoder's and those with 253 to 255 sense bytes. */
  lemma ResponseAcceptance(b: seq<Byte>)
    requires ParseResponse(b).Ok?
    ensures var (r, rest) := ParseResponse(b).value;
            && Framable(r) && b == ResponseFrame(r) + rest
            && (EncodableResponse(r) <==> b[0] <= MAX_SENSE_LEN)
  {
    AcceptedResponse(b);
    var r, rest := ParseResponse(b).value.0, ParseResponse(b).value.1;
    JoinResponse(b, r, ToBigEndian(|r.reply|), rest);
  }

  // ---------------------------------------------------------------- streams

  /** The destination of `Write::write_all`. */
  class Sink {
    var bytes: seq<Byte>

    constructor ()
      ensures bytes == []
    {
      bytes := [];
    }

    method WriteAll(b: seq<Byte>)
      modifies this
      ensures bytes == old(bytes) + b
    {
      bytes := bytes + b;
    }
  }

  /** The origin of `Read::read_exact`; a read past the end loses what was left. */
  class Source {
    var rest: seq<Byte>

    constructor (b: seq<Byte>)
      ensures rest == b
    {
      rest := b;
    }

    method ReadExact(n: nat) returns (r: Result<seq<Byte>, WireError>)
      modifies this
      ensures match Take(old(rest), n)
              case Ok((b, tail)) => r == Ok(b) && rest == tail
              case Err(e) => r == Err(e)
    {
      if |rest| < n {
        rest := [];
        return Err(UnexpectedEof);
      }
      r := Ok(rest[..n]);
      rest := rest[n..];
    }
  }

  method WritePreamble(name: seq<Byte>, w: Sink)
    requires 0 < |name| <= MAX_INITIATOR_LEN
    modifies w
    ensures w.bytes == old(w.bytes) + Preamble(name)
  {
    w.WriteAll([EXTENDED_MARKER]);
    w.WriteAll([EXTENDED_VERSION]);
    w.WriteAll([|name|]);
    w.WriteAll(name);
  }

  method WriteBody(p: Packet, w: Sink)
    requires SupportedLength(|p.cdb|) && |p.data| <= MAX_DATA_LEN
    modifies w
    ensures w.bytes == old(w.bytes) + ([|p.cdb|] + (p.cdb + ToBigEndian(|p.data|)) + p.data)
  {
    w.WriteAll([|p.cdb|]);
    w.WriteAll(p.cdb);
    w.WriteAll(ToBigEndian(|p.data|));
    w.WriteAll(p.data);
  }

  method EncodePacket(p: Packet, w: Sink) returns (r: Result<(), WireError>)
    modifies w
    ensures r.Ok? <==> Encodable(p)
    ensures r.Ok? ==> w.bytes == old(w.bytes) + Frame(p)
    ensures r.Err? ==> r == Err(InvalidInput) && w.bytes == old(w.bytes)
  {
    ghost var before := w.bytes;
    if !SupportedLength(|p.cdb|) {
      return Err(InvalidInput);
    }
    if |p.data| > MAX_DATA_LEN {
      return Err(InvalidInput);
    }
    var initiator := Clean(p.initiator);
    if initiator.Some? {
      var name := Utf8.Encode(initiator.value);
      if |name| > MAX_INITIATOR_LEN {
        return Err(InvalidInput);
      }
      WritePreamble(name, w);
    }
    assert w.bytes == before + Preamble(NameBytes(p.initiator));
    WriteBody(p, w);
    FrameParts(before, Preamble(NameBytes(p.initiator)), [|p.cdb|] + (p.cdb + ToBigEndian(|p.data|)), p.data);
    return Ok(());
  }

  lemma FrameParts(before: seq<Byte>, front: seq<Byte>, middle: seq<Byte>, data: seq<Byte>)
    ensures before + front + (middle + data) == before + (front + middle + data)
  {
  }

  method EncodeResponse(resp: Response, w: Sink) returns (r: Result<(), WireError>)
    modifies w
    ensures r.Ok? <==> EncodableResponse(resp)
    ensures r.Ok? ==> w.bytes == old(w.bytes) + ResponseFrame(resp)
    ensures r.Err? ==> r == Err(InvalidInput) && w.bytes == old(w.bytes)
  {
    if |resp.sense| > MAX_SENSE_LEN {
      return Err(InvalidInput);
    }
    if |resp.reply| > MAX_DATA_LEN {
      return Err(InvalidInput);
    }
    ghost var before := w.bytes;
    w.WriteAll([|resp.sense|]);
    w.WriteAll(resp.sense);
    w.WriteAll(ToBigEndian(|resp.reply|));
    w.WriteAll(resp.reply);
    w.WriteAll([resp.status]);
    assert w.bytes == before + ResponseFrame(resp);
    return Ok(());
  }

  method ReadByte(s: Source) returns (r: Result<Byte, WireError>)
    modifies s
    ensures old(s.rest) == [] ==> r == Err(UnexpectedEof)
    ensures old(s.rest) != [] ==> r == Ok(old(s.rest)[0]) && s.rest == old(s.rest)[1..]
  {
    var b := s.ReadExact(1);
    if b.Err? { return Err(b.error); }
    return Ok(b.value[0]);
  }

  /** The part of `decode_header` after the extended marker, up to the CDB length. */
  method DecodeInitiator(s: Source) returns (r: Result<Option<string>, WireError>)
    modifies s
    ensures var e := old(s.rest);
            if e == [] then r == Err(UnexpectedEof)
            else if e[0] != EXTENDED_VERSION then r == Err(InvalidData)
            else if |e| < 2 || |e| - 2 < e[1] then r == Err(UnexpectedEof)
            else r == ParseName(e[2..][..e[1]]) && (r.Ok? ==> s.rest == e[2..][e[1]..])
  {
    var version := ReadByte(s);
    if version.Err? { return Err(version.error); }
    if version.value != EXTENDED_VERSION { return Err(InvalidData); }
    var nameLength := ReadByte(s);
    if nameLength.Err? { return Err(nameLength.error); }
    if nameLength.value == 0 {
      EmptyName();
      return Ok(None);
    }
    var name := s.ReadExact(nameLength.value);
    if name.Err? { return Err(name.error); }
    r := ParseName(name.value);
  }

  method DecodeCdb(s: Source, length: Byte, initiator: Option<string>) returns (r: Result<Header, WireError>)
    modifies s
    ensures match ParseCdb(length, old(s.rest), initiator)
            case Ok((h, rest)) => r == Ok(h) && s.rest == rest
            case Err(e) => r == Err(e)
  {
    if !SupportedLength(length) { return Err(InvalidData); }
    var cdb := s.ReadExact(length);
    if cdb.Err? { return Err(cdb.error); }
    var word := s.ReadExact(4);
    if word.Err? { return Err(word.error); }
    var dataLen := FromBigEndian(word.value);
    if dataLen > MAX_DATA_LEN { return Err(InvalidData); }
    return Ok(Header(cdb.value, dataLen, initiator));
  }

  method DecodeHeader(s: Source) returns (r: Result<Header, WireError>)
    modifies s
    ensures match ParseHeader(old(s.rest))
            case Ok((h, rest)) => r == Ok(h) && s.rest == rest
            case Err(e) => r == Err(e)
  {
    var length := ReadByte(s);
    if length.Err? { return Err(length.error); }
    var initiator := None;
    if length.value == EXTENDED_MARKER {
      var name := DecodeInitiator(s);
      if name.Err? { return Err(name.error); }
      initiator := name.value;
      length := ReadByte(s);
      if length.Err? { return Err(length.error); }
    }
    r := DecodeCdb(s, length.value, initiator);
  }

  method DecodePacket(s: Source) returns (r: Result<Packet, WireError>)
    modifies s
    ensures match Parse(old(s.rest))
            case Ok((p, rest)) => r == Ok(p) && s.rest == rest
            case Err(e) => r == Err(e)
  {
    var header := DecodeHeader(s);
    if header.Err? { return Err(header.error); }
    var data := s.ReadExact(header.value.dataLen);
    if data.Err? { return Err(data.error); }
    return Ok(Packet(header.value.cdb, data.value, header.value.initiator));
  }

  method DecodeResponse(s: Source) returns (r: Result<Response, WireError>)
    modifies s
    ensures match ParseResponse(old(s.rest))
            case Ok((resp, rest)) => r == Ok(resp) && s.rest == rest
            case Err(e) => r == Err(e)
  {
    var senseLength := s.ReadExact(1);
    if senseLength.Err? { return Err(senseLength.error); }
    var sense := s.ReadExact(senseLength.value[0]);
    if sense.Err? { return Err(sense.error); }
    var word := s.ReadExact(4);
    if word.Err? { return Err(word.error); }
    var replyLength := FromBigEndian(word.value);
    if replyLength > MAX_DATA_LEN { return Err(InvalidData); }
    var reply := s.ReadExact(replyLength);
    if reply.Err? { return Err(reply.error); }
    var status := s.ReadExact(1);
    if status.Err? { return Err(status.error); }
    return Ok(Response(sense.value, reply.value, status.value[0]));
  }
}
