/** Byte swapping: the target keeps half-words low byte first, the Modbus wire wants them high byte first. */
module Memory {
  import opened Bytes

  /** The two bytes of a half-word, high byte first. */
  function StoreBig(x: Half): (s: seq<Byte>)
    ensures |s| == 2
  {
    [x / 0x100, x % 0x100]
  }

  function LoadBig(s: seq<Byte>): (x: Half)
    requires |s| == 2
    ensures StoreBig(x) == s
  {
    var hi: int, lo: int := s[0], s[1];
    0x100 * hi + lo
  }

  lemma LoadAfterStoreBig(x: Half)
    ensures LoadBig(StoreBig(x)) == x
  {
  }

  function SwapHalf(x: Half): (y: Half)
    ensures StoreBig(y) == StoreHalf(x) && StoreHalf(y) == StoreBig(x)
  {
    var lo: int, hi: int := x % 0x100, x / 0x100;
    Peel(hi, lo);
    0x100 * lo + hi
  }

  /** The rev16 instruction: the bytes of both halves of a word change places. */
  function Rev16(x: Word): Word
  {
    var lo: int, hi: int := SwapHalf(x % 0x1_0000), SwapHalf(x / 0x1_0000);
    lo + 0x1_0000 * hi
  }

  lemma HalvesOfWord(lo: Half, hi: Half)
    ensures StoreWord(lo as int + 0x1_0000 * hi as int) == StoreHalf(lo) + StoreHalf(hi)
    ensures (lo as int + 0x1_0000 * hi as int) % 0x1_0000 == lo && (lo as int + 0x1_0000 * hi as int) / 0x1_0000 == hi
  {
    var x := lo as int + 0x1_0000 * hi as int;
    assert x / 0x100 == lo / 0x100 + 0x100 * hi as int;
    Peel(lo / 0x100, hi);
  }

  /** Every pair of bytes the other way round. */
  ghost function Swapped(s: seq<Byte>): (r: seq<Byte>)
    requires |s| % 2 == 0
    ensures |r| == |s|
    ensures forall i | 0 <= i < |s| :: r[i] == s[if i % 2 == 0 then i + 1 else i - 1]
  {
    seq(|s|, i requires 0 <= i < |s| => s[if i % 2 == 0 then i + 1 else i - 1])
  }

  lemma SwappedTwice(s: seq<Byte>)
    requires |s| % 2 == 0
    ensures Swapped(Swapped(s)) == s
  {
  }

  lemma SwappedAppend(a: seq<Byte>, b: seq<Byte>)
    requires |a| % 2 == 0 && |b| % 2 == 0
    ensures Swapped(a + b) == Swapped(a) + Swapped(b)
  {
    hide Swapped;
    forall i | 0 <= i < |a + b| ensures Swapped(a + b)[i] == (Swapped(a) + Swapped(b))[i] {
      if i >= |a| {
        assert i % 2 == (i - |a|) % 2;
      }
    }
  }

  lemma WordOfHalves(lo: Half, hi: Half)
    ensures LoadWord(StoreHalf(lo) + StoreHalf(hi)) == lo as int + 0x1_0000 * hi as int
  {
    HalvesOfWord(lo, hi);
    LoadAfterStore(lo as int + 0x1_0000 * hi as int);
  }

  lemma Rev16OfHalves(lo: Half, hi: Half)
    ensures StoreWord(Rev16(lo as int + 0x1_0000 * hi as int)) == StoreHalf(SwapHalf(lo)) + StoreHalf(SwapHalf(hi))
  {
    hide StoreWord, StoreHalf, SwapHalf;
    HalvesOfWord(lo, hi);
    HalvesOfWord(SwapHalf(lo), SwapHalf(hi));
  }

  /** One rev16 does two half-words at once. */
  lemma Rev16Swaps(s: seq<Byte>)
    requires |s| == 4
    ensures StoreWord(Rev16(LoadWord(s))) == Swapped(s)
  {
    hide StoreWord, LoadWord, SwapHalf, StoreHalf, LoadHalf, Rev16, Swapped;
    var lo, hi := LoadHalf(s[..2]), LoadHalf(s[2..]);
    assert s[..2] + s[2..] == s;
    WordOfHalves(lo, hi);
    Rev16OfHalves(lo, hi);
    SwapHalfSwaps(lo, s[..2]);
    SwapHalfSwaps(hi, s[2..]);
    SwappedAppend(s[..2], s[2..]);
  }

  lemma SwapHalfSwaps(x: Half, s: seq<Byte>)
    requires |s| == 2 && StoreHalf(x) == s
    ensures StoreHalf(SwapHalf(x)) == Swapped(s)
  {
  }

  /** A word register whose upper half is whatever it was before. */
  lemma Rev16OfLowerHalf(s: seq<Byte>, stale: seq<Byte>)
    requires |s| == 2 == |stale|
    ensures StoreWord(Rev16(LoadWord(s + stale)))[..2] == Swapped(s)
  {
    Rev16Swaps(s + stale);
    SwappedAppend(s, stale);
    hide StoreWord, LoadWord, Rev16;
  }

  // ----- Registers -----

  /** Half-words as the target stores them, and as the wire carries them. */
  ghost function Little(rs: seq<Half>): (s: seq<Byte>)
    ensures |s| == 2 * |rs|
  {
    if rs == [] then [] else StoreHalf(rs[0]) + Little(rs[1..])
  }

  ghost function Big(rs: seq<Half>): (s: seq<Byte>)
    ensures |s| == 2 * |rs|
  {
    if rs == [] then [] else StoreBig(rs[0]) + Big(rs[1..])
  }

  /** Swapping pairs of bytes is swapping every register separately. */
  lemma {:induction false} SwappedRegisters(rs: seq<Half>)
    ensures Swapped(Little(rs)) == Big(rs) && Swapped(Big(rs)) == Little(rs)
  {
    if rs != [] {
      SwappedRegisters(rs[1..]);
      SwappedAppend(StoreHalf(rs[0]), Little(rs[1..]));
      SwappedAppend(StoreBig(rs[0]), Big(rs[1..]));
      assert Swapped(StoreHalf(rs[0])) == StoreBig(rs[0]);
      assert Swapped(StoreBig(rs[0])) == StoreHalf(rs[0]);
    }
  }

  /** Any even number of bytes is the registers stored in them. */
  ghost function Registers(s: seq<Byte>): (rs: seq<Half>)
    requires |s| % 2 == 0
    ensures |rs| == |s| / 2 && Little(rs) == s
  {
    if s == [] then [] else
    assert s == s[..2] + s[2..];
    [LoadHalf(s[..2])] + Registers(s[2..])
  }

  lemma {:induction false} RegistersOfLittle(rs: seq<Half>)
    ensures Registers(Little(rs)) == rs
  {
    if rs != [] {
      var s := Little(rs);
      assert s[..2] == StoreHalf(rs[0]) && s[2..] == Little(rs[1..]);
      LoadAfterStoreHalf(rs[0]);
      RegistersOfLittle(rs[1..]);
    }
  }

  lemma {:induction false} LittleSlice(rs: seq<Half>, i: nat, n: nat)
    requires i + n <= |rs|
    ensures Little(rs)[2 * i..2 * (i + n)] == Little(rs[i..i + n])
  {
    if i > 0 {
      LittleSlice(rs[1..], i - 1, n);
      assert rs[1..][i - 1..i - 1 + n] == rs[i..i + n];
      assert Little(rs)[2 * i..2 * (i + n)] == Little(rs[1..])[2 * (i - 1)..2 * (i - 1 + n)];
    } else if n > 0 {
      LittleSlice(rs[1..], 0, n - 1);
      assert rs[1..][..n - 1] == rs[..n][1..];
      assert Little(rs)[..2 * n] == StoreHalf(rs[0]) + Little(rs[1..])[..2 * (n - 1)];
    }
  }

  // ----- The code; addresses are indices into one memory, itself aligned to a word -----

  /** memcpy of a few bytes to anywhere. */
  method Put(mem: array<Byte>, at: nat, bytes: seq<Byte>)
    requires at + |bytes| <= mem.Length
    modifies mem
    ensures mem[..] == old(mem[..at]) + bytes + old(mem[at + |bytes|..])
  {
    forall i | 0 <= i < |bytes| {
      mem[at + i] := bytes[i];
    }
  }

  /** The other byte of the half-word that address `i` is in, counting half-words from `at`. */
  ghost function Partner(i: nat, at: nat): (k: nat)
    requires at <= i
    ensures at <= k && Partner'(k, at) == i
    ensures forall n: nat :: i < at + 2 * n <==> k < at + 2 * n
  {
    Partner'(i, at)
  }

  ghost function Partner'(i: nat, at: nat): int
  {
    if (i - at) % 2 == 0 then i + 1 else i - 1
  }

  /** A stretch of memory with its first `done` half-words swapped, and nothing else touched. */
  ghost predicate SwappedSoFar(now: seq<Byte>, was: seq<Byte>, at: nat, done: nat)
    requires at + 2 * done <= |was|
  {
    && |now| == |was|
    && forall i | 0 <= i < |was| :: now[i] == if at <= i < at + 2 * done then was[Partner(i, at)] else was[i]
  }

  lemma PartnerShift(i: nat, at: nat, done: nat)
    requires at + 2 * done <= i
    ensures Partner(i, at + 2 * done) == Partner(i, at)
  {
  }

  /** In bytes. */
  lemma SwappedStretch(now: seq<Byte>, was: seq<Byte>, at: nat, done: nat)
    requires at + 2 * done <= |was|
    ensures SwappedSoFar(now, was, at, done) <==>
              now == was[..at] + Swapped(was[at..at + 2 * done]) + was[at + 2 * done..]
  {
    var bytes := was[..at] + Swapped(was[at..at + 2 * done]) + was[at + 2 * done..];
    forall i | 0 <= i < |was|
      ensures bytes[i] == if at <= i < at + 2 * done then was[Partner(i, at)] else was[i]
    {
    }
    hide Swapped, Partner;
    if SwappedSoFar(now, was, at, done) {
      assert now == bytes;
    }
  }

  lemma NothingSwapped(was: seq<Byte>, at: nat)
    requires at <= |was|
    ensures SwappedSoFar(was, was, at, 0)
  {
  }

  lemma SwapMore(before: seq<Byte>, after: seq<Byte>, was: seq<Byte>, at: nat, done: nat, more: nat)
    requires at + 2 * (done + more) <= |was| == |before|
    requires SwappedSoFar(before, was, at, done) && SwappedSoFar(after, before, at + 2 * done, more)
    ensures SwappedSoFar(after, was, at, done + more)
  {
    hide Partner;
    forall i | 0 <= i < |was|
      ensures after[i] == if at <= i < at + 2 * (done + more) then was[Partner(i, at)] else was[i]
    {
      if at + 2 * done <= i {
        PartnerShift(i, at, done);
      }
    }
  }

  /** One turn of the loop. */
  method SwapWord(mem: array<Byte>, p: nat) returns (word: Word)
    requires p + 4 <= mem.Length
    modifies mem
    ensures SwappedSoFar(mem[..], old(mem[..]), p, 2)
  {
    hide Swapped, StoreWord, LoadWord, Rev16, SwappedSoFar;
    Rev16Swaps(mem[p..p + 4]);
    word := Rev16(LoadWord(mem[p..p + 4]));
    ghost var was := mem[..];
    Put(mem, p, StoreWord(word));
    SwappedStretch(mem[..], was, p, 2);
  }

  method SwapLastHalf(mem: array<Byte>, p: nat)
    requires p + 2 <= mem.Length
    modifies mem
    ensures SwappedSoFar(mem[..], old(mem[..]), p, 1)
  {
    hide Swapped, SwapHalf, StoreHalf, SwappedSoFar;
    var y := LoadHalf(mem[p..p + 2]);
    SwapHalfSwaps(y, mem[p..p + 2]);
    ghost var was := mem[..];
    Put(mem, p, StoreHalf(SwapHalf(y)));
    SwappedStretch(mem[..], was, p, 1);
  }

  method SwapLastHalfOfWord(mem: array<Byte>, p: nat, stale: Word)
    requires p + 2 <= mem.Length
    modifies mem
    ensures SwappedSoFar(mem[..], old(mem[..]), p, 1)
  {
    hide Swapped, StoreWord, LoadWord, Rev16, SwappedSoFar;
    Rev16OfLowerHalf(mem[p..p + 2], StoreWord(stale)[2..]);
    ghost var was := mem[..];
    Put(mem, p, StoreWord(Rev16(LoadWord(mem[p..p + 2] + StoreWord(stale)[2..])))[..2]);
    SwappedStretch(mem[..], was, p, 1);
  }

  /** swap16_array_fast on `len` half-words at `at`. */
  method SwapArrayFast(mem: array<Byte>, at: nat, len: nat)
    requires at + 2 * len <= mem.Length
    modifies mem
    ensures SwappedSoFar(mem[..], old(mem[..]), at, len)
  {
    ghost var was := mem[..];
    NothingSwapped(was, at);
    hide SwappedSoFar, Swapped;
    var p, n: nat := at, len / 2;
    ghost var done := 0;
    while n > 0
      invariant done + 2 * n + len % 2 == len && p == at + 2 * done
      invariant SwappedSoFar(mem[..], was, at, done)
    {
      ghost var before := mem[..];
      var _ := SwapWord(mem, p);
      SwapMore(before, mem[..], was, at, done, 2);
      done := done + 2;
      p := p + 4;
      n := n - 1;
    }
    if len % 2 == 1 {
      ghost var before := mem[..];
      SwapLastHalf(mem, p);
      SwapMore(before, mem[..], was, at, done, 1);
    }
  }

  /** swap16_array_fast_safe: through a word register, whose upper half is stale when one half-word is left over. */
  method SwapArrayFastSafe(mem: array<Byte>, at: nat, len: nat, uninitialised: Word)
    requires at + 2 * len <= mem.Length
    modifies mem
    ensures SwappedSoFar(mem[..], old(mem[..]), at, len)
  {
    if at % 4 == 0 {
      SwapArrayFast(mem, at, len);
      return;
    }
    ghost var was := mem[..];
    NothingSwapped(was, at);
    hide SwappedSoFar, Swapped;
    var twoSwap16AtOnce := uninitialised;
    var p, n: nat := at, len / 2;
    ghost var done := 0;
    while n > 0
      invariant done + 2 * n + len % 2 == len && p == at + 2 * done
      invariant SwappedSoFar(mem[..], was, at, done)
    {
      ghost var before := mem[..];
      twoSwap16AtOnce := SwapWord(mem, p);
      SwapMore(before, mem[..], was, at, done, 2);
      done := done + 2;
      p := p + 4;
      n := n - 1;
    }
    if len % 2 == 1 {
      ghost var before := mem[..];
      SwapLastHalfOfWord(mem, p, twoSwap16AtOnce);
      SwapMore(before, mem[..], was, at, done, 1);
    }
  }

  /** The array forms are their own inverse. */
  lemma SwappingTwice(was: seq<Byte>, once: seq<Byte>, twice: seq<Byte>, at: nat, n: nat)
    requires at + 2 * n <= |was| == |once|
    requires SwappedSoFar(once, was, at, n) && SwappedSoFar(twice, once, at, n)
    ensures twice == was
  {
    forall i | 0 <= i < |was| ensures twice[i] == was[i] {
      if at <= i < at + 2 * n {
        var k := Partner(i, at);
        assert twice[i] == once[k] && once[k] == was[Partner(k, at)];
      }
    }
  }

  /** swap_and_move_uint16_safe. */
  method SwapAndMove(mem: array<Byte>, dest: nat, src: Half)
    requires dest + 2 <= mem.Length
    modifies mem
    ensures mem[..] == old(mem[..dest]) + StoreBig(src) + old(mem[dest + 2..])
  {
    ghost var was := mem[..];
    hide StoreWord, LoadWord, Rev16, SwapHalf, StoreHalf, StoreBig;
    BigOfWord(src);
    Put(mem, dest, StoreWord(Rev16(src))[..2]);
  }

  lemma BigOfWord(src: Half)
    ensures StoreWord(Rev16(src))[..2] == StoreBig(src)
  {
    HalvesOfWord(src, 0);
    HalvesOfWord(SwapHalf(src), SwapHalf(0));
  }

  /** swap_and_move_two_uint16_at_once_safe. */
  method SwapAndMoveTwo(mem: array<Byte>, dest: nat, src: Word)
    requires dest + 4 <= mem.Length
    modifies mem
    ensures mem[..] == old(mem[..dest]) + Swapped(StoreWord(src)) + old(mem[dest + 4..])
  {
    hide StoreWord, LoadWord, Rev16, Swapped;
    Rev16Swaps(StoreWord(src));
    LoadAfterStore(src);
    Put(mem, dest, StoreWord(Rev16(src)));
  }

  /** swap_and_move_uint16_from_unaligned_to_unaligned_safe; the register's upper half is uninitialised. */
  method SwapAndMoveUnaligned(mem: array<Byte>, dest: nat, src: seq<Byte>, uninitialised: Word)
    requires dest + 2 <= mem.Length && |src| == 2
    modifies mem
    ensures mem[..] == old(mem[..dest]) + Swapped(src) + old(mem[dest + 2..])
  {
    hide StoreWord, LoadWord, Rev16, Swapped;
    Rev16OfLowerHalf(src, StoreWord(uninitialised)[2..]);
    Put(mem, dest, StoreWord(Rev16(LoadWord(src + StoreWord(uninitialised)[2..])))[..2]);
  }

  /** read_and_swap_uint16_safe. */
  method ReadAndSwap(src: seq<Byte>, uninitialised: Word) returns (x: Half)
    requires |src| == 2
    ensures x == LoadBig(src)
  {
    hide StoreWord, LoadWord, Rev16, SwapHalf, LoadBig;
    Rev16OfLowerHalf(src, StoreWord(uninitialised)[2..]);
    var y := Rev16(LoadWord(src + StoreWord(uninitialised)[2..]));
    LowerHalf(y);
    x := y % 0x1_0000;
    BigIsSwapped(src, x);
  }

  lemma LowerHalf(y: Word)
    ensures StoreHalf(y % 0x1_0000) == StoreWord(y)[..2]
  {
    HalvesOfWord(y % 0x1_0000, y / 0x1_0000);
  }

  lemma BigIsSwapped(src: seq<Byte>, x: Half)
    requires |src| == 2 && StoreHalf(x) == Swapped(src)
    ensures x == LoadBig(src)
  {
    assert x % 0x100 == Swapped(src)[0] == src[1] && x / 0x100 == Swapped(src)[1] == src[0];
    assert StoreBig(x) == src;
    LoadAfterStoreBig(x);
  }

  /** swap_and_compare_uint16. */
  method SwapAndCompare(a: seq<Byte>, b: Half) returns (same: bool)
    requires |a| == 2
    ensures same <==> LoadBig(a) == b
  {
    hide StoreWord, Rev16, SwapHalf;
    BigOfWord(b);
    LoadAfterStoreBig(b);
    same := a == StoreWord(Rev16(b))[..2];
  }

  /** Registers as they travel: each high byte first. */
  lemma {:induction false} BigAt(rs: seq<Half>, i: nat)
    requires i < |rs|
    ensures Big(rs)[2 * i] == rs[i] / 0x100 && Big(rs)[2 * i + 1] == rs[i] % 0x100
  {
    if i > 0 {
      BigAt(rs[1..], i - 1);
    }
  }
}
