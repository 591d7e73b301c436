/** Positions in a byte ring of `length` slots, one of which always stays empty. */
module Ring {
  import opened Bytes

  /** A position at most one lap ahead, brought back into the ring. */
  function Wrap(x: nat, length: nat): (p: nat)
    requires x < 2 * length
    ensures p < length
  {
    if x >= length then x - length else x
  }

  /** Bytes stored when reading starts at `tail` and writing continues at `head`. */
  function Used(tail: nat, head: nat, length: nat): (n: nat)
    requires tail < length && head < length
    ensures n < length && Wrap(tail + n, length) == head
  {
    if head >= tail then head - tail else length + head - tail
  }

  const SIZE_MODULUS := 0x1_0000_0000            // of size_t
  const LONGEST := 0x8000_0000                   // the longest storage whose counts are right

  /** A sum or a difference as size_t keeps it. */
  function ToSize(x: int): (n: nat)
    requires -SIZE_MODULUS <= x < 2 * SIZE_MODULUS
    ensures n < SIZE_MODULUS
  {
    if x < 0 then x + SIZE_MODULUS else if x >= SIZE_MODULUS then x - SIZE_MODULUS else x
  }

  /** prvBytesInBuffer, from the indices loaded. */
  function BytesFrom(tail: nat, head: nat, length: nat): (count: nat)
    requires tail < length && head < length < SIZE_MODULUS
    ensures length <= LONGEST ==> count == Used(tail, head, length)
  {
    var count := ToSize(ToSize(length + head) - tail);
    if count >= length then count - length else count
  }

  /** xStreamBufferSpacesAvailable, from the indices loaded. */
  function SpaceFrom(tail: nat, head: nat, length: nat): (space: nat)
    requires tail < length && head < length < SIZE_MODULUS
    ensures length <= LONGEST ==> space == length - 1 - Used(tail, head, length)
  {
    var space := ToSize(ToSize(ToSize(length + tail) - head) - 1);
    if space >= length then space - length else space
  }

  /** 3 GiB of storage with 1 GiB in it: counted as empty. */
  lemma CountWraps()
    ensures Used(0, 0x4000_0000, 0xC000_0000) == 0x4000_0000 && BytesFrom(0, 0x4000_0000, 0xC000_0000) == 0
  {
  }

  /** The bytes stored, and those free, are counted right for all indices if and only if the storage is at most 2 GiB
      long. */
  lemma CountsRightIff(length: nat)
    requires 0 < length < SIZE_MODULUS
    ensures (forall tail, head | 0 <= tail < length && 0 <= head < length ::
               BytesFrom(tail, head, length) == Used(tail, head, length)) <==> length <= LONGEST
    ensures (forall tail, head | 0 <= tail < length && 0 <= head < length ::
               SpaceFrom(tail, head, length) == length - 1 - Used(tail, head, length)) <==> length <= LONGEST
  {
    if length > LONGEST {
      assert BytesFrom(0, length - 1, length) != Used(0, length - 1, length);
      assert SpaceFrom(length - 1, 0, length) != length - 1 - Used(length - 1, 0, length);
    }
  }

  /** The `n` bytes from `start` on, in ring order. */
  ghost function Slice(buffer: seq<Byte>, start: nat, n: nat): (s: seq<Byte>)
    requires start < |buffer| && n <= |buffer|
    ensures |s| == n
    ensures forall i | 0 <= i < n :: s[i] == buffer[Wrap(start + i, |buffer|)]
  {
    seq(n, i requires 0 <= i < n => buffer[Wrap(start + i, |buffer|)])
  }

  /** Moving the tail on by `n` leaves `n` fewer bytes. */
  lemma UsedAfterRead(tail: nat, head: nat, length: nat, n: nat)
    requires tail < length && head < length && n <= Used(tail, head, length)
    ensures Used(Wrap(tail + n, length), head, length) == Used(tail, head, length) - n
  {
  }

  /** Moving the head on by `n` leaves `n` more, as long as they fit. */
  lemma UsedAfterWrite(tail: nat, head: nat, length: nat, n: nat)
    requires tail < length && head < length && Used(tail, head, length) + n < length
    ensures Used(tail, Wrap(head + n, length), length) == Used(tail, head, length) + n
  {
  }

  lemma WrapTwice(start: nat, i: nat, j: nat, length: nat)
    requires start < length && i + j < length
    ensures Wrap(Wrap(start + i, length) + j, length) == Wrap(start + (i + j), length)
  {
  }

  /** A slice taken in two parts. */
  lemma SliceSplit(buffer: seq<Byte>, start: nat, n: nat, k: nat)
    requires start < |buffer| && k <= n < |buffer|
    ensures Slice(buffer, start, n) == Slice(buffer, start, k) + Slice(buffer, Wrap(start + k, |buffer|), n - k)
  {
    var a, b := Slice(buffer, start, k), Slice(buffer, Wrap(start + k, |buffer|), n - k);
    forall i | 0 <= i < n ensures Slice(buffer, start, n)[i] == (a + b)[i] {
      if i >= k {
        WrapTwice(start, k, i - k, |buffer|);
      }
    }
  }

  /** Reading `count` bytes after skipping `skip` leaves the rest. */
  lemma SliceAfterRead(buffer: seq<Byte>, tail: nat, head: nat, skip: nat, count: nat)
    requires tail < |buffer| && head < |buffer|
    requires skip + count <= Used(tail, head, |buffer|)
    ensures var u, tail' := Used(tail, head, |buffer|), Wrap(tail + skip + count, |buffer|);
            var all := Slice(buffer, tail, u);
            && Slice(buffer, tail, skip) == all[..skip]
            && Used(tail', head, |buffer|) == u - skip - count
            && Slice(buffer, tail', u - skip - count) == all[skip + count..]
  {
    hide Slice;
    var u := Used(tail, head, |buffer|);
    UsedAfterRead(tail, head, |buffer|, skip + count);
    SliceSplit(buffer, tail, u, skip + count);
    SliceSplit(buffer, tail, u, skip);
  }

  /** Writing `n` bytes at the head, and nothing else, adds them behind what is stored. */
  lemma StoredAfterWrite(before: seq<Byte>, after: seq<Byte>, tail: nat, head: nat, n: nat)
    requires tail < |before| && head < |before| == |after| && 0 < n
    requires Used(tail, head, |before|) + n < |before|
    requires var head', rest := Wrap(head + n, |before|), |before| - n;
             Slice(after, head', rest) == Slice(before, head', rest)
    ensures var u := Used(tail, head, |before|);
            Slice(after, tail, u + n) == Slice(before, tail, u) + Slice(after, head, n)
  {
    hide Slice, Used, Wrap;
    var length, u := |before|, Used(tail, head, |before|);
    var head', rest := Wrap(head + n, length), length - n;
    UsedAfterWrite(tail, head, length, n);
    GapEndsAtTail(tail, head, length, n);
    SliceSplit(after, head', rest, rest - u);
    SliceSplit(before, head', rest, rest - u);
    SameEnds(Slice(after, head', rest - u), Slice(after, tail, u),
             Slice(before, head', rest - u), Slice(before, tail, u));
    SliceSplit(after, tail, u + n, u);
  }

  /** Past what is written next comes free space, and then what is stored. */
  lemma GapEndsAtTail(tail: nat, head: nat, length: nat, n: nat)
    requires tail < length && head < length && Used(tail, head, length) + n < length
    ensures Wrap(Wrap(head + n, length) + (length - n - Used(tail, head, length)), length) == tail
    ensures Wrap(tail + Used(tail, head, length), length) == head
  {
  }

  lemma SameEnds(a: seq<Byte>, b: seq<Byte>, c: seq<Byte>, d: seq<Byte>)
    requires a + b == c + d && |a| == |c|
    ensures b == d
  {
    assert (a + b)[|a|..] == b;
    assert (c + d)[|c|..] == d;
  }

  // ----- Messages -----

  const LENGTH_BYTES := 4                        // sizeof(configMESSAGE_BUFFER_LENGTH_TYPE)

  type Message = m: seq<Byte> | 0 < |m| < 0x1_0000_0000 witness [0]

  /** A message as it lies in the buffer: its length, then its bytes. */
  ghost function Frame(m: seq<Byte>): seq<Byte>
    requires |m| < 0x1_0000_0000
  {
    StoreWord(|m|) + m
  }

  ghost function Frames(ms: seq<Message>): seq<Byte>
  {
    if ms == [] then [] else Frame(ms[0]) + Frames(ms[1..])
  }

  lemma {:induction false} FramesAppend(ms: seq<Message>, m: Message)
    ensures Frames(ms + [m]) == Frames(ms) + Frame(m)
  {
    if ms == [] {
      assert ms + [m] == [m];
      assert Frames([m]) == Frame(m) + Frames([m][1..]);
    } else {
      assert (ms + [m])[1..] == ms[1..] + [m];
      FramesAppend(ms[1..], m);
      assert Frame(ms[0]) + (Frames(ms[1..]) + Frame(m)) == Frame(ms[0]) + Frames(ms[1..]) + Frame(m);
    }
  }

  /** What the front of a well-framed buffer says: the length of its first message, then that message. */
  lemma FirstFrame(ms: seq<Message>)
    requires ms != []
    ensures var all, m := Frames(ms), ms[0];
            && |all| >= LENGTH_BYTES + |m|
            && LoadWord(all[..LENGTH_BYTES]) == |m|
            && all[LENGTH_BYTES..LENGTH_BYTES + |m|] == m
            && all[LENGTH_BYTES + |m|..] == Frames(ms[1..])
  {
    var all, m := Frames(ms), ms[0];
    assert all == StoreWord(|m|) + m + Frames(ms[1..]);
    assert all[..LENGTH_BYTES] == StoreWord(|m|);
    LoadAfterStore(|m|);
  }

  lemma NotEmpty(ms: seq<Message>)
    ensures Frames(ms) != [] <==> ms != []
  {
  }

  /** Moving the head on over bytes already in place makes them readable behind the others. */
  lemma ReadableGrows(buffer: seq<Byte>, tail: nat, head: nat, n: nat)
    requires tail < |buffer| && head < |buffer| && Used(tail, head, |buffer|) + n < |buffer|
    ensures var u, head' := Used(tail, head, |buffer|), Wrap(head + n, |buffer|);
            && Used(tail, head', |buffer|) == u + n
            && Slice(buffer, tail, u + n) == Slice(buffer, tail, u) + Slice(buffer, head, n)
  {
    hide Slice, Used;
    UsedAfterWrite(tail, head, |buffer|, n);
    SliceSplit(buffer, tail, Used(tail, head, |buffer|) + n, Used(tail, head, |buffer|));
  }
}
