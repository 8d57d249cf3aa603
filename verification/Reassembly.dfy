/** The reference model of stream reassembly: an index-to-byte map.

    Every excerpt puts its in-window bytes into the map, new bytes overriding stored ones; then the
    longest contiguous run from the first unassembled index moves to the output stream. The interval
    set of libsponge/stream_reassembler.cc is proved to compute exactly this (StreamReassembler.dfy). */
module Reassembly {
  import opened ByteStreams

  /** Value of `_input_end_idx` until an excerpt carries the end of the stream. */
  const NO_END: nat := 0xFFFF_FFFF

  datatype Reasm = Reasm(out: Stream, pending: map<nat, Byte>, endIdx: nat) {
    function Cur(): nat {
      |out.written|
    }

    /** First index beyond the receive window. */
    function WindowEnd(): nat {
      out.read + out.capacity
    }

    ghost predicate Valid() {
      && out.Valid()
      && (forall i :: i in pending ==> Cur() < i < WindowEnd())
      && (out.ended || Cur() < endIdx)
    }
  }

  function EmptyReasm(capacity: nat): (r: Reasm)
    ensures r.Valid()
  {
    Reasm(EmptyStream(capacity), map[], NO_END)
  }

  /** The byte of `data` at stream index `i`, when `data` starts at index `start`. */
  function At(data: seq<Byte>, start: nat, i: nat): Byte
    requires start <= i < start + |data|
  {
    data[i - start]
  }

  /** `data` laid out from index `start` on. */
  function Spread(data: seq<Byte>, start: nat): map<nat, Byte> {
    map i: nat | start <= i < start + |data| :: At(data, start, i)
  }

  /** The bytes of an excerpt that lie between `lo` and `hi`. */
  function Clipped(data: seq<Byte>, index: nat, lo: nat, hi: nat): map<nat, Byte> {
    map i: nat | Max(index, lo) <= i < Min(index + |data|, hi) :: At(data, index, i)
  }

  lemma InClipped(data: seq<Byte>, index: nat, lo: nat, hi: nat, i: nat)
    ensures i in Clipped(data, index, lo, hi) <==> index <= i < index + |data| && lo <= i < hi
    ensures i in Clipped(data, index, lo, hi) ==> Clipped(data, index, lo, hi)[i] == data[i - index]
  {
    assert i in Clipped(data, index, lo, hi) <==> Max(index, lo) <= i < Min(index + |data|, hi);
  }

  /** End of the contiguous run of `m` that starts at `i`. */
  function RunEnd(m: map<nat, Byte>, i: nat, hi: nat): (r: nat)
    requires i <= hi
    ensures i <= r <= hi
    ensures forall j :: i <= j < r ==> j in m
    ensures r < hi ==> r !in m
    decreases hi - i
  {
    if i < hi && i in m then RunEnd(m, i + 1, hi) else i
  }

  function Bytes(m: map<nat, Byte>, a: nat, b: nat): (s: seq<Byte>)
    requires a <= b
    requires forall j :: a <= j < b ==> j in m
    ensures |s| == b - a
    ensures forall k :: 0 <= k < |s| ==> s[k] == m[a + k]
    decreases b - a
  {
    if a == b then [] else [m[a]] + Bytes(m, a + 1, b)
  }

  /** What is stored once an excerpt has been merged and before anything is emitted. */
  function Merged(r: Reasm, data: seq<Byte>, index: nat): map<nat, Byte> {
    r.pending + Clipped(data, index, r.Cur(), r.WindowEnd())
  }

  function Push(r: Reasm, data: seq<Byte>, index: nat, eof: bool): (r': Reasm)
    requires r.Valid()
    ensures r'.Valid() && r'.out.capacity == r.out.capacity && r'.out.read == r.out.read
    ensures r.out.written <= r'.out.written
  {
    var m := Merged(r, data, index);
    var end := RunEnd(m, r.Cur(), r.WindowEnd());
    var endIdx := if eof then index + |data| else r.endIdx;
    Reasm(r.out.(written := r.out.written + Bytes(m, r.Cur(), end), ended := r.out.ended || end >= endIdx),
          map i | i in m && i > end :: m[i],
          endIdx)
  }

  /** The application reads from the assembled stream, which opens the window. */
  function ReadOut(r: Reasm, len: nat): (r': Reasm)
    requires r.Valid()
    ensures r'.Valid()
  {
    r.(out := StreamRead(r.out, len))
  }

  /** The run end is the only index that ends a run: a contiguous stretch that stops before a gap. */
  lemma RunEndUnique(m: map<nat, Byte>, i: nat, hi: nat, e: nat)
    requires i <= e <= hi
    requires forall j :: i <= j < e ==> j in m
    requires e < hi ==> e !in m
    ensures RunEnd(m, i, hi) == e
  {
    var r := RunEnd(m, i, hi);
    assert !(r < e) && !(e < r);
  }

  /** `Push`, given where the run of the merged map ends and what is emitted and kept. */
  lemma PushByRun(r: Reasm, data: seq<Byte>, index: nat, eof: bool,
                  m: map<nat, Byte>, end: nat, emitted: seq<Byte>, kept: map<nat, Byte>)
    requires r.Valid() && m == Merged(r, data, index) && end == RunEnd(m, r.Cur(), r.WindowEnd())
    requires emitted == Bytes(m, r.Cur(), end) && kept == map i | i in m && i > end :: m[i]
    ensures var endIdx := if eof then index + |data| else r.endIdx;
            Push(r, data, index, eof) ==
            Reasm(r.out.(written := r.out.written + emitted, ended := r.out.ended || end >= endIdx), kept, endIdx)
  {
  }

  // ---- Storage bound ----

  lemma {:induction false} SpreadSize(data: seq<Byte>, start: nat)
    ensures |Spread(data, start)| == |data|
  {
    if data == [] {
    } else {
      var front, last := data[..|data| - 1], start + |data| - 1;
      SpreadSize(front, start);
      assert Spread(data, start).Keys == Spread(front, start).Keys + {last};
    }
  }

  /** A map whose keys lie in an interval is no larger than the interval. */
  lemma {:induction false} KeysInInterval(m: map<nat, Byte>, lo: nat, hi: nat)
    requires lo <= hi
    requires forall i :: i in m ==> lo <= i < hi
    ensures |m| <= hi - lo
    decreases hi - lo
  {
    if lo == hi {
      assert m == map[];
    } else {
      var rest := map i | i in m && i != hi - 1 :: m[i];
      KeysInInterval(rest, lo, hi - 1);
      assert m.Keys <= rest.Keys + {hi - 1};
      SubsetSize(m.Keys, rest.Keys + {hi - 1});
    }
  }

  lemma {:induction false} SubsetSize<T>(a: set<T>, b: set<T>)
    requires a <= b
    ensures |a| <= |b|
  {
    if a == {} {
    } else {
      var x :| x in a;
      SubsetSize(a - {x}, b - {x});
    }
  }

  /** Assembled-but-unread plus stored-but-unassembled bytes never exceed the capacity. */
  lemma MemoryBound(r: Reasm)
    requires r.Valid()
    ensures |r.out.Buffer()| + |r.pending| <= r.out.capacity
  {
    if r.Cur() < r.WindowEnd() {
      KeysInInterval(r.pending, r.Cur() + 1, r.WindowEnd());
    } else {
      assert r.pending == map[] by {
        assert forall i :: i !in r.pending;
      }
    }
  }

  // ---- Excerpts of one stream ----

  /** Everything held agrees with stream `w`, and nothing lies at or beyond index `limit`. */
  ghost predicate AgreesWith(r: Reasm, w: seq<Byte>, limit: nat) {
    && limit <= |w|
    && r.out.written <= w
    && r.Cur() <= limit
    && forall i :: i in r.pending ==> i < limit && r.pending[i] == w[i]
  }

  ghost predicate IsExcerpt(data: seq<Byte>, index: nat, w: seq<Byte>, limit: nat) {
    data == [] || (index + |data| <= limit <= |w| && data == w[index..index + |data|])
  }

  lemma MergedAgrees(r: Reasm, data: seq<Byte>, index: nat, w: seq<Byte>, limit: nat)
    requires r.Valid() && AgreesWith(r, w, limit) && IsExcerpt(data, index, w, limit)
    ensures forall i :: i in Merged(r, data, index) ==> i < limit && Merged(r, data, index)[i] == w[i]
  {
  }

  /** The run emitted after a prefix of `w` extends that prefix. */
  lemma RunAgrees(m: map<nat, Byte>, written: seq<Byte>, hi: nat, w: seq<Byte>, limit: nat)
    requires written <= w && |written| <= limit <= |w| && |written| <= hi
    requires forall i :: i in m ==> i < limit && m[i] == w[i]
    ensures var end := RunEnd(m, |written|, hi);
            end <= limit && written + Bytes(m, |written|, end) == w[..end]
  {
    var end := RunEnd(m, |written|, hi);
    assert end <= limit by {
      assert |written| < end ==> end - 1 in m;
    }
    var bytes := Bytes(m, |written|, end);
    assert forall k :: 0 <= k < |bytes| ==> bytes[k] == w[|written| + k];
  }

  /** Pushing an excerpt of `w` keeps the reassembler in agreement with `w`. */
  lemma PushAgrees(r: Reasm, data: seq<Byte>, index: nat, eof: bool, w: seq<Byte>, limit: nat)
    requires r.Valid() && AgreesWith(r, w, limit) && IsExcerpt(data, index, w, limit)
    ensures AgreesWith(Push(r, data, index, eof), w, limit)
  {
    MergedAgrees(r, data, index, w, limit);
    RunAgrees(Merged(r, data, index), r.out.written, r.WindowEnd(), w, limit);
  }

  /** An excerpt with no bytes and no end marker changes nothing. */
  lemma PushNothing(r: Reasm, index: nat)
    requires r.Valid()
    ensures Push(r, [], index, false) == r
  {
    var m := Merged(r, [], index);
    assert m == r.pending;
    RunEndUnique(m, r.Cur(), r.WindowEnd(), r.Cur());
    assert (map i | i in m && i > r.Cur() :: m[i]) == m;
    assert r.out.written + [] == r.out.written;
  }
}
