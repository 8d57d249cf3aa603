/** Sequence-number arithmetic (libsponge/wrapping_integers.cc).

    A 32-bit relative sequence number stands for any absolute 64-bit number that is congruent to it
    modulo 2^32, offset by the initial sequence number. `Unwrap` picks one of them, near a checkpoint,
    using unsigned 64-bit subtractions that may wrap; those wrap-arounds are modelled explicitly. */
module Wrapping {
  type U32 = n: nat | n < 0x1_0000_0000
  type U64 = n: nat | n < 0x1_0000_0000_0000_0000

  /** Unsigned 64-bit addition and subtraction. */
  function Add64(a: U64, b: U64): (r: U64) {
    if a + b < 0x1_0000_0000_0000_0000 then a + b else a + b - 0x1_0000_0000_0000_0000
  }

  function Sub64(a: U64, b: U64): (r: U64) {
    if a >= b then a - b else a - b + 0x1_0000_0000_0000_0000
  }

  function Wrap(n: nat, isn: U32): (r: U32) {
    (isn + n) % 0x1_0000_0000
  }

  /** The offset of `n` behind `isn` inside one 2^32 block. */
  function Offset(n: U32, isn: U32): (r: U32) {
    (0x1_0000_0000 - isn + n) % 0x1_0000_0000
  }

  function Unwrap(n: U32, isn: U32, checkpoint: U64): (r: U64) {
    var mid := Add64(Offset(n, isn), checkpoint / 0x1_0000_0000 * 0x1_0000_0000);
    var right := Add64(mid, 0x1_0000_0000);
    var left := Sub64(mid, 0x1_0000_0000);
    if mid > checkpoint then
      if Sub64(mid, checkpoint) < Sub64(checkpoint, left) || mid < 0x1_0000_0000 then mid else left
    else
      if Sub64(right, checkpoint) < Sub64(checkpoint, mid) then right else mid
  }

  function Distance(a: nat, b: nat): nat {
    if a <= b then b - a else a - b
  }

  /** `r` is the 64-bit number that wraps to `n` and is closest to `checkpoint`, the lower one on a tie. */
  ghost predicate Nearest(r: nat, n: U32, isn: U32, checkpoint: nat) {
    && r < 0x1_0000_0000_0000_0000
    && Wrap(r, isn) == n
    && forall v: U64 :: Wrap(v, isn) == n && v != r ==>
         || Distance(r, checkpoint) < Distance(v, checkpoint)
         || (Distance(r, checkpoint) == Distance(v, checkpoint) && r < v)
  }

  /** The one family of inputs on which `Unwrap` leaves the 64-bit range: the checkpoint lies in the last
      2^32 block and the next block, which does not exist, would be closer. */
  predicate RunsOffTheEnd(n: U32, isn: U32, checkpoint: U64) {
    && checkpoint >= 0xFFFF_FFFF_0000_0000
    && checkpoint % 0x1_0000_0000 > 0x8000_0000 + Offset(n, isn)
  }

  lemma WrapOffset(v: nat, n: U32, isn: U32)
    ensures Wrap(v, isn) == n <==> v % 0x1_0000_0000 == Offset(n, isn)
  {
  }

  /** The choice `Unwrap` makes, with every wrap-around resolved. */
  function BlockChoice(off: nat, checkpoint: nat): (r: int) {
    var low := checkpoint % 0x1_0000_0000;
    var mid := checkpoint - low + off;
    if off > low then
      if off - low < 0x8000_0000 || mid < 0x1_0000_0000 then mid else mid - 0x1_0000_0000
    else
      if low - off > 0x8000_0000 then mid + 0x1_0000_0000 else mid
  }

  lemma UnwrapBlocks(n: U32, isn: U32, checkpoint: U64)
    ensures RunsOffTheEnd(n, isn, checkpoint) ==> Unwrap(n, isn, checkpoint) == Offset(n, isn)
    ensures !RunsOffTheEnd(n, isn, checkpoint) ==>
              Unwrap(n, isn, checkpoint) == BlockChoice(Offset(n, isn), checkpoint)
  {
    var base := checkpoint / 0x1_0000_0000 * 0x1_0000_0000;
    var mid := Offset(n, isn) + base;
    assert mid < 0x1_0000_0000_0000_0000;
    assert mid == Add64(Offset(n, isn), base);
    if mid <= checkpoint {
      assert Sub64(checkpoint, mid) == checkpoint - mid;
    }
  }

  lemma CongruentApart(a: nat, b: nat)
    requires a % 0x1_0000_0000 == b % 0x1_0000_0000 && a != b
    ensures a >= b + 0x1_0000_0000 || b >= a + 0x1_0000_0000
  {
  }

  lemma BlockChoiceNearest(off: nat, checkpoint: nat, v: nat)
    requires off < 0x1_0000_0000 && v % 0x1_0000_0000 == off
    ensures var r := BlockChoice(off, checkpoint);
            && 0 <= r && r % 0x1_0000_0000 == off
            && (v != r ==> || Distance(r, checkpoint) < Distance(v, checkpoint)
                           || (Distance(r, checkpoint) == Distance(v, checkpoint) && r < v))
  {
    var r := BlockChoice(off, checkpoint);
    if v != r {
      CongruentApart(v, r);
    }
  }

  /** `Unwrap` returns the nearest candidate exactly when it does not run off the end of the 64-bit range. */
  lemma UnwrapNearestIff(n: U32, isn: U32, checkpoint: U64)
    ensures Nearest(Unwrap(n, isn, checkpoint), n, isn, checkpoint) <==> !RunsOffTheEnd(n, isn, checkpoint)
  {
    UnwrapBlocks(n, isn, checkpoint);
    if RunsOffTheEnd(n, isn, checkpoint) {
      OffTheEndIsFar(n, isn, checkpoint);
    } else {
      InsideIsNearest(n, isn, checkpoint, BlockChoice(Offset(n, isn), checkpoint));
    }
  }

  lemma OffTheEndIsFar(n: U32, isn: U32, checkpoint: U64)
    requires RunsOffTheEnd(n, isn, checkpoint)
    ensures !Nearest(Offset(n, isn), n, isn, checkpoint)
  {
    var off: nat := Offset(n, isn);
    var v: U64 := 0xFFFF_FFFF_0000_0000 + off;
    WrapOffset(v, n, isn);
    assert Distance(v, checkpoint) < Distance(off, checkpoint);
  }

  lemma InsideIsNearest(n: U32, isn: U32, checkpoint: U64, r: nat)
    requires r < 0x1_0000_0000_0000_0000 && r == BlockChoice(Offset(n, isn), checkpoint)
    ensures Nearest(r, n, isn, checkpoint)
  {
    WrapOffset(r, n, isn);
    BlockChoiceNearest(Offset(n, isn), checkpoint, Offset(n, isn));
    forall v: U64 | Wrap(v, isn) == n && v != r
      ensures Distance(r, checkpoint) < Distance(v, checkpoint)
           || (Distance(r, checkpoint) == Distance(v, checkpoint) && r < v)
    {
      WrapOffset(v, n, isn);
      BlockChoiceNearest(Offset(n, isn), checkpoint, v);
    }
  }

  /** `v` is close enough to `checkpoint` to be recovered: within half the space, or ahead of it in the
      first block, where no lower candidate exists. */
  predicate Recoverable(v: nat, checkpoint: nat) {
    if v <= checkpoint then checkpoint - v <= 0x8000_0000
    else v - checkpoint < 0x8000_0000 || v < 0x1_0000_0000
  }

  lemma BlockChoiceFixed(v: nat, checkpoint: nat)
    ensures BlockChoice(v % 0x1_0000_0000, checkpoint) == v <==> Recoverable(v, checkpoint)
  {
    var r := BlockChoice(v % 0x1_0000_0000, checkpoint);
    BlockChoiceNearest(v % 0x1_0000_0000, checkpoint, v);
    if v != r {
      CongruentApart(v, r);
    }
  }

  /** An absolute number survives wrapping and unwrapping exactly when it is recoverable, or when `Unwrap` runs
      off the end and comes out, at the other end of the range, on a number of the first block. */
  lemma RoundTripIff(v: U64, isn: U32, checkpoint: U64)
    ensures Unwrap(Wrap(v, isn), isn, checkpoint) == v <==>
              Recoverable(v, checkpoint) || (RunsOffTheEnd(Wrap(v, isn), isn, checkpoint) && v < 0x1_0000_0000)
  {
    var n := Wrap(v, isn);
    WrapOffset(v, n, isn);
    UnwrapBlocks(n, isn, checkpoint);
    BlockChoiceFixed(v, checkpoint);
  }

  /** Shifting both the number and the initial sequence number by one changes nothing. */
  lemma WrapShift(n: nat, isn: U32)
    ensures Wrap(n + 1, isn) == Wrap(n, Wrap(1, isn))
  {
  }

  lemma WrapZero(isn: U32)
    ensures Wrap(0, isn) == isn
  {
  }

  /** The absolute number below 2^32 that a header field names. */
  function AbsOf(x: U32, isn: U32): (r: U32)
    ensures Wrap(r, isn) == x
    ensures r == Unwrap(x, isn, 0)
  {
    Offset(x, isn)
  }

  lemma AbsOfWrap(v: U32, isn: U32)
    ensures AbsOf(Wrap(v, isn), isn) == v
  {
  }
}
