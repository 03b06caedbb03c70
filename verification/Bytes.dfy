/** Bytes and the 4-byte big-endian integers of the snapshot format. */
module Bytes {

  newtype byte = x: int | 0 <= x < 256

  type bytes = seq<byte>

  const WORD_LIMIT: nat := 0x1_0000_0000

  function Word(n: nat): (b: bytes)
    requires n < WORD_LIMIT
    ensures |b| == 4 && Value(b) == n
  {
    var b := [(n / 0x100_0000) as byte, (n / 0x1_0000 % 256) as byte, (n / 256 % 256) as byte, (n % 256) as byte];
    assert n == ((n / 0x100_0000 * 256 + n / 0x1_0000 % 256) * 256 + n / 256 % 256) * 256 + n % 256;
    b
  }

  function Value(b: bytes): (n: nat)
    requires |b| == 4
    ensures n < WORD_LIMIT
  {
    ((b[0] as int * 256 + b[1] as int) * 256 + b[2] as int) * 256 + b[3] as int
  }

  /** `Value` and `Word` are inverse: no two encodings of one number, no two numbers with one encoding. */
  lemma WordOfValue(b: bytes)
    requires |b| == 4
    ensures Word(Value(b)) == b
  {
    var high := (b[0] as int * 256 + b[1] as int) * 256 + b[2] as int;
    var n := high * 256 + b[3] as int;
    assert n / 256 == high && n % 256 == b[3] as int;
    assert high / 256 == b[0] as int * 256 + b[1] as int && high % 256 == b[2] as int;
    assert n / 0x1_0000 == high / 256 && n / 0x100_0000 == high / 256 / 256;
  }

  /** The first byte weighs most. */
  lemma BigEndian(n: nat)
    requires n < WORD_LIMIT
    ensures n == Word(n)[0] as int * 16777216 + Word(n)[1] as int * 65536 + Word(n)[2] as int * 256 + Word(n)[3] as int
  {
  }
}
