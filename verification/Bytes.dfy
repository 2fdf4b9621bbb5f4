/** Bytes, failure-carrying results and the big-endian word used by every wire
    format of the project. */
module Bytes {

  type Byte = x: int | 0 <= x < 256

  datatype Option<+T> = None | Some(value: T)

  datatype Result<+T, +E> = Ok(value: T) | Err(error: E)

  const WORD_LIMIT: int := 0x1_0000_0000

  /** The four bytes of a 32-bit word, most significant first. */
  function ToBigEndian(n: nat): (b: seq<Byte>)
    requires n < WORD_LIMIT
  {
    [n / 0x100_0000, n / 0x1_0000 % 256, n / 256 % 256, n % 256]
  }

  function FromBigEndian(b: seq<Byte>): (n: nat)
    requires |b| == 4
  {
    var hi: int := b[0];
    ((hi * 256 + b[1]) * 256 + b[2]) * 256 + b[3]
  }

  lemma WordRoundTrip(n: nat)
    requires n < WORD_LIMIT
    ensures FromBigEndian(ToBigEndian(n)) == n
  {
    var a, b, c := n / 256, n / 0x1_0000, n / 0x100_0000;
    assert b == a / 256 && c == b / 256;
  }

  lemma WordOfBytes(b: seq<Byte>)
    requires |b| == 4
    ensures FromBigEndian(b) < WORD_LIMIT
    ensures ToBigEndian(FromBigEndian(b)) == b
  {
    var hi: int, n := b[0], FromBigEndian(b);
    assert n / 256 == (hi * 256 + b[1]) * 256 + b[2];
    assert n / 0x1_0000 == hi * 256 + b[1];
    assert n / 0x100_0000 == hi;
  }
}
