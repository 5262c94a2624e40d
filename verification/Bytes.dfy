/** Bytes, 32-bit words in either byte order, and powers of two. */
module Bytes {

  type byte = b: int | 0 <= b < 0x100

  type word = w: int | 0 <= w < 0x1_0000_0000

  const WORD_LIMIT := 0x1_0000_0000

  datatype ByteOrder = Little | Big

  /** The four bytes that a machine of byte order `o` stores for `w`. */
  function WordBytes(o: ByteOrder, w: word): (bs: seq<byte>)
    ensures |bs| == 4
  {
    var w1 := w / 0x100;
    var w2 := w1 / 0x100;
    var b0, b1, b2, b3 := w % 0x100, w1 % 0x100, w2 % 0x100, w2 / 0x100;
    match o
    case Little => [b0, b1, b2, b3]
    case Big => [b3, b2, b1, b0]
  }

  /** The word that a machine of byte order `o` reads from the first four bytes. */
  function WordAt(o: ByteOrder, bs: seq<byte>): word
    requires 4 <= |bs|
  {
    var b0: int, b1: int, b2: int, b3: int := bs[0], bs[1], bs[2], bs[3];
    match o
    case Little => b0 + 0x100 * (b1 + 0x100 * (b2 + 0x100 * b3))
    case Big => b3 + 0x100 * (b2 + 0x100 * (b1 + 0x100 * b0))
  }

  lemma WordRoundTrip(o: ByteOrder, w: word, tail: seq<byte>)
    ensures WordAt(o, WordBytes(o, w) + tail) == w
  {
    assert (WordBytes(o, w) + tail)[..4] == WordBytes(o, w);
  }

  function Reverse<T>(s: seq<T>): (r: seq<T>)
    ensures |r| == |s|
    ensures forall k :: 0 <= k < |s| ==> r[k] == s[|s| - 1 - k]
  {
    seq(|s|, k requires 0 <= k < |s| => s[|s| - 1 - k])
  }

  function Pow2(n: nat): (p: nat)
    ensures 0 < p
  {
    if n == 0 then 1 else 2 * Pow2(n - 1)
  }

  /** Byte k of a little-endian word counts 256^k; a big-endian one is the other way round. */
  lemma WordLayout(w: word, k: nat)
    requires k < 4
    ensures WordBytes(Little, w)[k] == w / [1, 0x100, 0x1_0000, 0x100_0000][k] % 0x100
    ensures WordBytes(Big, w)[3 - k] == WordBytes(Little, w)[k]
  {
    assert w / 0x100 / 0x100 == w / 0x1_0000 && w / 0x1_0000 / 0x100 == w / 0x100_0000;
    assert w / 0x100_0000 % 0x100 == w / 0x100_0000;
  }
}
