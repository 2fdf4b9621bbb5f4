/** UTF-8 text, as Rust's `String` holds it: a string is a sequence of Unicode
    scalar values, its bytes are their encodings, and only shortest-form
    encodings of scalar values decode. */
module Utf8 {
  import opened Bytes

  predicate IsContinuation(b: Byte) { 0x80 <= b < 0xC0 }

  function EncodeChar(c: char): (b: seq<Byte>)
    ensures 1 <= |b| <= 4
  {
    var n := c as int;
    if n < 0x80 then [n]
    else if n < 0x800 then [0xC0 + n / 64, 0x80 + n % 64]
    else if n < 0x1_0000 then [0xE0 + n / 4096, 0x80 + n / 64 % 64, 0x80 + n % 64]
    else [0xF0 + n / 0x4_0000, 0x80 + n / 4096 % 64, 0x80 + n / 64 % 64, 0x80 + n % 64]
  }

  /** One more six-bit group. */
  function Shift(n: nat, b: Byte): (r: nat)
    requires IsContinuation(b)
  {
    n * 64 + (b - 0x80)
  }

  /** The first character of `b` and the number of bytes it takes. */
  function DecodeChar(b: seq<Byte>): (r: Option<(char, nat)>)
    ensures r.Some? ==> 1 <= r.value.1 <= |b| && r.value.1 <= 4
  {
    if b == [] then None
    else if b[0] < 0x80 then Some((b[0] as char, 1))
    else if b[0] < 0xC2 then None
    else if b[0] < 0xE0 then
      if |b| < 2 || !IsContinuation(b[1]) then None
      else Some((Shift(b[0] - 0xC0, b[1]) as char, 2))
    else if b[0] < 0xF0 then
      if |b| < 3 || !IsContinuation(b[1]) || !IsContinuation(b[2]) then None
      else
        var n := Shift(Shift(b[0] - 0xE0, b[1]), b[2]);
        if n < 0x800 || 0xD800 <= n < 0xE000 then None else Some((n as char, 3))
    else if b[0] < 0xF5 then
      if |b| < 4 || !IsContinuation(b[1]) || !IsContinuation(b[2]) || !IsContinuation(b[3]) then None
      else
        var n := Shift(Shift(Shift(b[0] - 0xF0, b[1]), b[2]), b[3]);
        if n < 0x1_0000 || 0x11_0000 <= n then None else Some((n as char, 4))
    else None
  }

  lemma ShiftBack(n: nat, b: Byte)
    requires IsContinuation(b)
    ensures Shift(n, b) / 64 == n && 0x80 + Shift(n, b) % 64 == b
  {
  }

  lemma CharRoundTrip(c: char, rest: seq<Byte>)
    ensures DecodeChar(EncodeChar(c) + rest) == Some((c, |EncodeChar(c)|))
  {
    var n := c as int;
    assert n / 4096 == n / 64 / 64 && n / 0x4_0000 == n / 4096 / 64;
  }

  lemma CharShortestForm(b: seq<Byte>)
    requires DecodeChar(b).Some?
    ensures EncodeChar(DecodeChar(b).value.0) == b[..DecodeChar(b).value.1]
  {
    var (c, k) := DecodeChar(b).value;
    var n := c as int;
    if k == 2 {
      ShiftBack(b[0] - 0xC0, b[1]);
    } else if k == 3 {
      var m := Shift(b[0] - 0xE0, b[1]);
      ShiftBack(b[0] - 0xE0, b[1]);
      ShiftBack(m, b[2]);
      assert n / 4096 == n / 64 / 64;
    } else if k == 4 {
      var m := Shift(b[0] - 0xF0, b[1]);
      var l := Shift(m, b[2]);
      ShiftBack(b[0] - 0xF0, b[1]);
      ShiftBack(m, b[2]);
      ShiftBack(l, b[3]);
      assert n / 4096 == n / 64 / 64 && n / 0x4_0000 == n / 64 / 64 / 64;
    }
  }

  function Encode(s: string): (b: seq<Byte>)
    ensures s == "" <==> b == []
  {
    if s == "" then [] else EncodeChar(s[0]) + Encode(s[1..])
  }

  function Decode(b: seq<Byte>): (s: Option<string>)
  {
    if b == [] then Some("")
    else
      match DecodeChar(b)
      case None => None
      case Some((c, k)) =>
        match Decode(b[k..])
        case None => None
        case Some(tail) => Some([c] + tail)
  }

  lemma {:induction false} RoundTrip(s: string)
    ensures Decode(Encode(s)) == Some(s)
  {
    if s != "" {
      var head, tail := EncodeChar(s[0]), Encode(s[1..]);
      CharRoundTrip(s[0], tail);
      assert (head + tail)[|head|..] == tail;
      RoundTrip(s[1..]);
      assert s == [s[0]] + s[1..];
    }
  }

  lemma DecodeStep(b: seq<Byte>, c: char, k: nat)
    requires b != [] && DecodeChar(b) == Some((c, k)) && Decode(b).Some?
    ensures Decode(b[k..]).Some? && Decode(b).value == [c] + Decode(b[k..]).value
  {
  }

  lemma EncodeCons(c: char, head: seq<Byte>, tail: string)
    requires EncodeChar(c) == head
    ensures Encode([c] + tail) == head + Encode(tail)
  {
    assert ([c] + tail)[1..] == tail;
  }

  /** A byte sequence is the encoding of at most one string. */
  lemma {:induction false} DecodeIsInverse(b: seq<Byte>)
    requires Decode(b).Some?
    ensures Encode(Decode(b).value) == b
    decreases |b|
  {
    if b != [] {
      var (c, k) := DecodeChar(b).value;
      CharShortestForm(b);
      DecodeStep(b, c, k);
      var rest := b[k..];
      DecodeIsInverse(rest);
      EncodeCons(c, b[..k], Decode(rest).value);
      assert b == b[..k] + rest;
    }
  }

  /** Unicode White_Space, the characters that Rust's `str::trim` strips. */
  predicate IsSpace(c: char)
  {
    var n := c as int;
    || 0x09 <= n <= 0x0D || n == 0x20 || n == 0x85 || n == 0xA0 || n == 0x1680
    || 0x2000 <= n <= 0x200A || n == 0x2028 || n == 0x2029 || n == 0x202F
    || n == 0x205F || n == 0x3000
  }

  function Trim(s: string): (t: string)
    ensures t != "" ==> !IsSpace(t[0]) && !IsSpace(t[|t| - 1])
    decreases |s|
  {
    if s == "" then ""
    else if IsSpace(s[0]) then Trim(s[1..])
    else if IsSpace(s[|s| - 1]) then Trim(s[..|s| - 1])
    else s
  }

  lemma TrimIdempotent(s: string)
    ensures Trim(Trim(s)) == Trim(s)
  {
  }

  lemma {:induction false} EncodeSnoc(s: string, c: char)
    ensures Encode(s + [c]) == Encode(s) + EncodeChar(c)
  {
    if s != "" {
      EncodeSnoc(s[1..], c);
      assert (s + [c])[1..] == s[1..] + [c];
    } else {
      assert [c][1..] == "";
    }
  }

  lemma {:induction false} TrimNotLonger(s: string)
    ensures |Encode(Trim(s))| <= |Encode(s)|
    decreases |s|
  {
    if s == "" {
    } else if IsSpace(s[0]) {
      TrimNotLonger(s[1..]);
    } else if IsSpace(s[|s| - 1]) {
      TrimNotLonger(s[..|s| - 1]);
      assert s == s[..|s| - 1] + [s[|s| - 1]];
      EncodeSnoc(s[..|s| - 1], s[|s| - 1]);
    }
  }
}
