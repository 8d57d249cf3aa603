/** The Internet checksum (libsponge/util/util.cc; RFC 1071): 16-bit one's-complement sum with end-around
    carry, fed byte by byte in chunks of any size. */
module Checksums {
  import opened Wrapping
  import opened ByteStreams
  import opened Segments

  /** Running state: a 32-bit sum and whether an odd number of bytes has been added. */
  datatype Cksum = Cksum(sum: U32, parity: bool)

  /** A byte counts as the high or the low half of a 16-bit word. */
  function Weight(b: Byte, parity: bool): nat {
    if parity then b else 256 * b
  }

  function AddByte(c: Cksum, b: Byte): Cksum {
    Cksum((c.sum + Weight(b, c.parity)) % 0x1_0000_0000, !c.parity)
  }

  function AddAll(c: Cksum, data: seq<Byte>): Cksum
    decreases |data|
  {
    if data == [] then c else AddAll(AddByte(c, data[0]), data[1..])
  }

  /** One end-around carry at a time until 16 bits are left. */
  function Fold(x: nat): nat {
    if x > 0xFFFF then Fold(x / 0x1_0000 + x % 0x1_0000) else x
  }

  function ValueOf(c: Cksum): (v: U16) {
    FoldFits(c.sum);
    0xFFFF - Fold(c.sum)
  }

  /** The checksum of one buffer on top of an initial sum. */
  function ChecksumOf(initial: U32, data: seq<Byte>): U16 {
    ValueOf(AddAll(Cksum(initial, false), data))
  }

  lemma FoldFits(x: nat)
    ensures Fold(x) <= 0xFFFF
  {
  }

  /** Folding keeps the value modulo 65535 and turns only zero into zero. */
  lemma {:induction false} FoldMeaning(x: nat)
    ensures Fold(x) % 0xFFFF == x % 0xFFFF && (Fold(x) == 0 <==> x == 0)
  {
    if x > 0xFFFF {
      var hi, lo := x / 0x1_0000, x % 0x1_0000;
      assert x == hi * 0xFFFF + (hi + lo);
      MultipleDrops(hi + lo, hi);
      FoldMeaning(hi + lo);
    }
  }

  lemma MultipleDrops(y: nat, k: nat)
    ensures (k * 0xFFFF + y) % 0xFFFF == y % 0xFFFF
  {
  }

  /** Feeding in chunks is feeding the concatenation. */
  lemma {:induction false} AddConcat(c: Cksum, a: seq<Byte>, b: seq<Byte>)
    ensures AddAll(AddAll(c, a), b) == AddAll(c, a + b)
    decreases |a|
  {
    if a == [] {
      assert a + b == b;
    } else {
      assert (a + b)[1..] == a[1..] + b;
      AddConcat(AddByte(c, a[0]), a[1..], b);
    }
  }

  // ---- The exact sum ----

  /** Sum of the 16-bit words, without any carry lost. */
  function RawSum(data: seq<Byte>, parity: bool): nat {
    if data == [] then 0 else Weight(data[0], parity) + RawSum(data[1..], !parity)
  }

  /** Parity after `n` more bytes. */
  function Flip(parity: bool, n: nat): bool {
    if n % 2 == 0 then parity else !parity
  }

  lemma {:induction false} RawConcat(a: seq<Byte>, b: seq<Byte>, parity: bool)
    ensures RawSum(a + b, parity) == RawSum(a, parity) + RawSum(b, Flip(parity, |a|))
  {
    if a == [] {
      assert a + b == b;
    } else {
      assert (a + b)[1..] == a[1..] + b;
      RawConcat(a[1..], b, !parity);
    }
  }

  lemma {:induction false} RawBound(data: seq<Byte>, parity: bool)
    ensures RawSum(data, parity) <= |data| * 0xFF00
  {
    if data == [] {
    } else {
      RawBound(data[1..], !parity);
    }
  }

  /** As long as the exact sum fits 32 bits, the machine sum is exact. */
  lemma {:induction false} AddExact(c: Cksum, data: seq<Byte>)
    requires c.sum + RawSum(data, c.parity) < 0x1_0000_0000
    ensures AddAll(c, data) == Cksum(c.sum + RawSum(data, c.parity), Flip(c.parity, |data|))
    decreases |data|
  {
    if data == [] {
    } else {
      AddExact(AddByte(c, data[0]), data[1..]);
    }
  }

  /** Initial sums up to this leave room for any buffer of 65535 bytes. */
  const MAX_INITIAL: nat := 0x100_0000

  lemma SumFits(initial: nat, data: seq<Byte>)
    requires initial <= MAX_INITIAL && |data| <= 0xFFFF
    ensures initial + RawSum(data, false) < 0x1_0000_0000
  {
    RawBound(data, false);
  }

  /** The checksum in terms of the exact sum: it is zero exactly for a positive multiple of 65535. */
  lemma ChecksumZeroIff(initial: nat, data: seq<Byte>)
    requires initial <= MAX_INITIAL && |data| <= 0xFFFF
    ensures var s := initial + RawSum(data, false);
            ChecksumOf(initial, data) == 0 <==> s > 0 && s % 0xFFFF == 0
  {
    SumFits(initial, data);
    AddExact(Cksum(initial, false), data);
    var s := initial + RawSum(data, false);
    FoldMeaning(s);
    FoldFits(s);
    hide Fold, RawSum, AddAll;
    SmallMultiple(Fold(s));
  }

  lemma SmallMultiple(x: nat)
    requires x <= 0xFFFF
    ensures x % 0xFFFF == 0 <==> x == 0 || x == 0xFFFF
  {
  }

  /** Replacing a zero word by the checksum makes the whole sum check out. */
  lemma ChecksumCompletes(initial: nat, data: seq<Byte>)
    requires initial <= MAX_INITIAL && |data| <= 0xFFFF
    ensures var s := initial + RawSum(data, false) + ChecksumOf(initial, data);
            s > 0 && s % 0xFFFF == 0
  {
    SumFits(initial, data);
    AddExact(Cksum(initial, false), data);
    var s := initial + RawSum(data, false);
    FoldMeaning(s);
    FoldFits(s);
    hide Fold, RawSum, AddAll;
    Complement(s, Fold(s));
  }

  lemma Complement(s: nat, f: nat)
    requires f <= 0xFFFF && f % 0xFFFF == s % 0xFFFF && (f == 0 <==> s == 0)
    ensures s + (0xFFFF - f) > 0 && (s + (0xFFFF - f)) % 0xFFFF == 0
  {
  }

  /** A 16-bit word at an even offset counts as itself. */
  lemma WordCounts(pre: seq<Byte>, hi: Byte, lo: Byte, post: seq<Byte>)
    requires |pre| % 2 == 0
    ensures RawSum(pre + [hi, lo] + post, false) == RawSum(pre, false) + (256 * hi + lo) + RawSum(post, false)
  {
    RawConcat(pre + [hi, lo], post, false);
    RawConcat(pre, [hi, lo], false);
    assert [hi, lo][1..] == [lo] && [lo][1..] == [];
    assert RawSum([lo], true) == lo;
    assert RawSum([hi, lo], false) == 256 * hi + lo;
  }

  /** Writing the checksum over a zero word at an even offset makes the buffer check out. */
  lemma PatchedChecksOut(initial: nat, pre: seq<Byte>, post: seq<Byte>, c: nat)
    requires initial <= MAX_INITIAL && |pre| % 2 == 0 && |pre| + 2 + |post| <= 0xFFFF
    requires c == ChecksumOf(initial, pre + [0, 0] + post)
    ensures ChecksumOf(initial, pre + [c / 256, c % 256] + post) == 0
  {
    ChecksumCompletes(initial, pre + [0, 0] + post);
    ChecksumZeroIff(initial, pre + [c / 256, c % 256] + post);
    WordCounts(pre, 0, 0, post);
    WordCounts(pre, c / 256, c % 256, post);
  }

  /** A buffer that checks out holds, in a word at an even offset, just the checksum that filling in would put
      there, except that 0xFFFF stands where 0 would be put. */
  lemma PatchIsUnique(initial: nat, pre: seq<Byte>, post: seq<Byte>, hi: Byte, lo: Byte)
    requires initial <= MAX_INITIAL && |pre| % 2 == 0 && |pre| + 2 + |post| <= 0xFFFF
    requires ChecksumOf(initial, pre + [hi, lo] + post) == 0 && RawSum(pre, false) > 0
    ensures ChecksumOf(initial, pre + [0, 0] + post) == Word(hi, lo) <==> Word(hi, lo) != 0xFFFF
  {
    hide RawSum, ChecksumOf;
    ChecksumCompletes(initial, pre + [0, 0] + post);
    ChecksumNotFull(initial, pre + [0, 0] + post);
    ChecksumZeroIff(initial, pre + [hi, lo] + post);
    WordCounts(pre, 0, 0, post);
    WordCounts(pre, hi, lo, post);
    CongruentWords(initial + RawSum(pre, false) + RawSum(post, false), ChecksumOf(initial, pre + [0, 0] + post),
                   Word(hi, lo));
  }

  lemma CongruentWords(s: nat, c: nat, w: nat)
    requires (s + c) % 0xFFFF == 0 && (s + w) % 0xFFFF == 0 && c < 0xFFFF && w <= 0xFFFF
    ensures c == w <==> w != 0xFFFF
  {
  }

  /** Any byte but zero shows in the sum. */
  lemma {:induction false} NonzeroCounts(data: seq<Byte>, parity: bool, i: nat)
    requires i < |data| && data[i] > 0
    ensures RawSum(data, parity) > 0
  {
    if i == 0 {
    } else {
      NonzeroCounts(data[1..], !parity, i - 1);
    }
  }

  /** 0xFFFF is the checksum of nothing but zeros. */
  lemma ChecksumNotFull(initial: nat, data: seq<Byte>)
    requires initial <= MAX_INITIAL && |data| <= 0xFFFF
    ensures ChecksumOf(initial, data) == 0xFFFF <==> initial + RawSum(data, false) == 0
  {
    SumFits(initial, data);
    AddExact(Cksum(initial, false), data);
    FoldMeaning(initial + RawSum(data, false));
    hide Fold, RawSum, AddAll;
  }

  // ---- Error detection ----

  /** Changing one byte changes the exact sum by a nonzero amount modulo 65535. */
  lemma OneByteShifts(data: seq<Byte>, i: nat, b: Byte)
    requires i < |data| && b != data[i]
    ensures RawSum(data[i := b], false) - RawSum(data, false) == Weight(b, i % 2 == 1) - Weight(data[i], i % 2 == 1)
  {
    var x, y, z := data[..i], [data[i]], data[i + 1..];
    assert data == x + (y + z) && data[i := b] == x + ([b] + z);
    RawConcat(x, y + z, false);
    RawConcat(x, [b] + z, false);
    var p := Flip(false, i);
    assert (y + z)[1..] == z && ([b] + z)[1..] == z;
    assert p == (i % 2 == 1);
  }

  /** A buffer that checks out no longer does after any single byte is changed. */
  lemma OneByteErrorDetected(initial: nat, data: seq<Byte>, i: nat, b: Byte)
    requires initial <= MAX_INITIAL && |data| <= 0xFFFF && i < |data| && b != data[i]
    requires ChecksumOf(initial, data) == 0
    ensures ChecksumOf(initial, data[i := b]) != 0
  {
    ChecksumZeroIff(initial, data);
    ChecksumZeroIff(initial, data[i := b]);
    OneByteShifts(data, i, b);
    hide RawSum, ChecksumOf;
    ShiftNotMultiple(initial + RawSum(data, false), initial + RawSum(data[i := b], false),
                     Weight(b, i % 2 == 1) - Weight(data[i], i % 2 == 1));
  }

  lemma ShiftNotMultiple(s: nat, s': nat, d: int)
    requires s % 0xFFFF == 0 && s' == s + d && d != 0 && -0xFFFF < d < 0xFFFF
    ensures s' % 0xFFFF != 0
  {
  }

  class InternetChecksum {
    var sum: U32
    var parity: bool

    ghost function Model(): Cksum
      reads this
    {
      Cksum(sum, parity)
    }

    constructor (initial: U32)
      ensures Model() == Cksum(initial, false)
    {
      sum, parity := initial, false;
    }

    method Add(data: seq<Byte>)
      modifies this
      ensures Model() == AddAll(old(Model()), data)
    {
      ghost var c := Model();
      for i := 0 to |data|
        invariant AddAll(Model(), data[i..]) == AddAll(c, data)
      {
        assert data[i..][1..] == data[i + 1..];
        var val: nat := data[i];
        if !parity {
          val := val * 256;
        }
        sum := (sum + val) % 0x1_0000_0000;
        parity := !parity;
      }
    }

    method Value() returns (v: U16)
      ensures v == ValueOf(Model())
    {
      var ret: nat := sum;
      while ret > 0xFFFF
        invariant Fold(ret) == Fold(sum)
        decreases ret
      {
        ret := ret / 0x1_0000 + ret % 0x1_0000;
      }
      v := 0xFFFF - ret;
    }
  }
}
