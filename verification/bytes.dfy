/** Bytes, half-words and words as the little-endian target stores them. */
module Bytes {

  type Byte = n: int | 0 <= n < 0x100
  type Half = n: int | 0 <= n < 0x1_0000
  type Word = n: int | 0 <= n < 0x1_0000_0000

  /** The two bytes of a half-word, low byte first. */
  function StoreHalf(x: Half): (s: seq<Byte>)
    ensures |s| == 2
  {
    [x % 0x100, x / 0x100]
  }

  function LoadHalf(s: seq<Byte>): (x: Half)
    requires |s| == 2
    ensures StoreHalf(x) == s
  {
    var lo: int, hi: int := s[0], s[1];
    lo + 0x100 * hi
  }

  lemma Peel(low: Byte, rest: nat)
    ensures (low as int + 0x100 * rest) % 0x100 == low && (low as int + 0x100 * rest) / 0x100 == rest
  {
  }

  /** The four bytes of a word, low byte first. */
  function StoreWord(x: Word): (s: seq<Byte>)
    ensures |s| == 4
  {
    [x % 0x100, x / 0x100 % 0x100, x / 0x100 / 0x100 % 0x100, x / 0x100 / 0x100 / 0x100]
  }

  function LoadWord(s: seq<Byte>): (x: Word)
    requires |s| == 4
    ensures StoreWord(x) == s
  {
    var top: int := s[3];
    var upper := s[2] as int + 0x100 * top;
    var middle := s[1] as int + 0x100 * upper;
    Peel(s[2], top);
    Peel(s[1], upper);
    Peel(s[0], middle);
    s[0] as int + 0x100 * middle
  }

  lemma LoadAfterStore(x: Word)
    ensures LoadWord(StoreWord(x)) == x
  {
  }

  lemma LoadAfterStoreHalf(x: Half)
    ensures LoadHalf(StoreHalf(x)) == x
  {
  }
}
