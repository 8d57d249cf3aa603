/** The reassembler itself (libsponge/stream_reassembler.cc): an ordered set of intervals, clipped to
    the receive window, merged with each new excerpt, proved to compute the index-to-byte model. */
module StreamReassemblers {
  import opened ByteStreams
  import opened Reassembly
  import opened Intervals

  /** No stored interval touches `nd`: those before position `p` end well before it, the others start
      well after it. */
  ghost predicate Isolated(segs: seq<Node>, p: nat, nd: Node) {
    && p <= |segs|
    && (forall k :: 0 <= k < p ==> segs[k].end + 1 < nd.start)
    && (forall k :: p <= k < |segs| ==> nd.end + 1 < segs[k].start)
  }

  /** Window clipping leaves exactly the in-window bytes of the excerpt. */
  function Clip(data: seq<Byte>, index: nat, cur: nat, maxIdx: int): (nd: Node)
    requires data != [] && cur <= index + |data| - 1 && index <= maxIdx && cur <= maxIdx + 1
    ensures nd.Ok() && cur <= nd.start && nd.end <= maxIdx
    ensures nd.start == Max(index, cur) && nd.end + 1 == Min(index + |data|, maxIdx + 1)
    ensures nd.data == data[nd.start - index..nd.end + 1 - index]
  {
    var nd0 := MakeNode(index, data);
    var nd1 := if nd0.start < cur then Node(cur, nd0.end, data[cur - nd0.start..]) else nd0;
    if nd1.end > maxIdx then Node(nd1.start, maxIdx, nd1.data[..|nd1.data| - (nd1.end - maxIdx)]) else nd1
  }

  // ---- What the merged node means for the model ----

  /** A node at the head of the window with only later bytes stored is exactly the run to emit. */
  lemma HeadRun(m: map<nat, Byte>, stored: map<nat, Byte>, nd: Node, cur: nat, hi: nat)
    requires nd.Ok() && nd.start == cur && nd.end < hi
    requires m == stored + nd.Map()
    requires forall i :: i in stored ==> nd.end + 1 < i
    ensures RunEnd(m, cur, hi) == nd.end + 1
    ensures Bytes(m, cur, nd.end + 1) == nd.data
    ensures (map i | i in m && i > nd.end + 1 :: m[i]) == stored
  {
    RunEndUnique(m, cur, hi, nd.end + 1);
    var bytes := Bytes(m, cur, nd.end + 1);
    assert forall k :: 0 <= k < |bytes| ==> bytes[k] == nd.data[k];
  }

  /** When the first unassembled index is still missing, nothing is emitted and everything is kept. */
  lemma GapRun(m: map<nat, Byte>, cur: nat, hi: nat)
    requires cur <= hi && forall i :: i in m ==> cur < i
    ensures RunEnd(m, cur, hi) == cur
    ensures (map i | i in m && i > cur :: m[i]) == m
  {
    RunEndUnique(m, cur, hi, cur);
  }

  /** `r'` results from merging `clipped` into `r` as node `nd`, with `stored` what the set keeps besides it. */
  ghost predicate Inserted(r: Reasm, clipped: Node, nd: Node, stored: map<nat, Byte>, r': Reasm) {
    && nd.Ok() && r.Cur() <= nd.start && nd.end < r.WindowEnd()
    && stored + nd.Map() == r.pending + clipped.Map()
    && r'.endIdx == r.endIdx
    && if nd.start == r.Cur() then
         && (forall i :: i in stored ==> nd.end + 1 < i)
         && r'.pending == stored
         && r'.out == r.out.(written := r.out.written + nd.data, ended := r.out.ended || nd.end + 1 >= r.endIdx)
       else
         && (forall i :: i in stored ==> r.Cur() < i)
         && r'.pending == stored + nd.Map()
         && r'.out == r.out
  }

  lemma PushInside(r: Reasm, data: seq<Byte>, index: nat, eof: bool, m: map<nat, Byte>,
                   clipped: Node, nd: Node, stored: map<nat, Byte>, r': Reasm)
    requires r.Valid() && m == Merged(r, data, index) && m == stored + nd.Map()
    requires eof ==> r.Cur() < index + |data|
    requires Inserted(r.(endIdx := if eof then index + |data| else r.endIdx), clipped, nd, stored, r')
    ensures r' == Push(r, data, index, eof)
  {
    hide Push, Merged;
    if nd.start == r.Cur() {
      PushHead(r, data, index, eof, m, nd, stored, r');
    } else {
      PushGap(r, data, index, eof, m, r');
    }
  }

  lemma PushHead(r: Reasm, data: seq<Byte>, index: nat, eof: bool, m: map<nat, Byte>,
                 nd: Node, stored: map<nat, Byte>, r': Reasm)
    requires r.Valid() && m == Merged(r, data, index) && m == stored + nd.Map()
    requires nd.Ok() && nd.start == r.Cur() && nd.end < r.WindowEnd()
    requires forall i :: i in stored ==> nd.end + 1 < i
    requires var endIdx := if eof then index + |data| else r.endIdx;
             r' == Reasm(r.out.(written := r.out.written + nd.data, ended := r.out.ended || nd.end + 1 >= endIdx),
                         stored, endIdx)
    ensures r' == Push(r, data, index, eof)
  {
    hide Push, Merged;
    HeadRun(m, stored, nd, r.Cur(), r.WindowEnd());
    PushByRun(r, data, index, eof, m, nd.end + 1, nd.data, stored);
  }

  lemma PushGap(r: Reasm, data: seq<Byte>, index: nat, eof: bool, m: map<nat, Byte>, r': Reasm)
    requires r.Valid() && m == Merged(r, data, index)
    requires forall i :: i in m ==> r.Cur() < i
    requires var endIdx := if eof then index + |data| else r.endIdx;
             r' == Reasm(r.out.(ended := r.out.ended || r.Cur() >= endIdx), m, endIdx)
    ensures r' == Push(r, data, index, eof)
  {
    hide Push, Merged;
    GapRun(m, r.Cur(), r.WindowEnd());
    PushByRun(r, data, index, eof, m, r.Cur(), [], m);
    assert r.out.written + [] == r.out.written;
  }

  lemma ClipMerged(r: Reasm, data: seq<Byte>, index: nat, clipped: Node)
    requires r.Valid() && data != [] && r.Cur() <= index + |data| - 1 && index < r.WindowEnd()
    requires clipped == Clip(data, index, r.Cur(), r.WindowEnd() - 1)
    ensures Merged(r, data, index) == r.pending + clipped.Map()
  {
    hide Clip;
    assert clipped.Map() == Clipped(data, index, r.Cur(), r.WindowEnd());
  }

  lemma PushAccepted(r: Reasm, data: seq<Byte>, index: nat, eof: bool,
                     clipped: Node, nd: Node, stored: map<nat, Byte>, r': Reasm)
    requires r.Valid() && data != [] && r.Cur() <= index + |data| - 1 && index < r.WindowEnd()
    requires clipped == Clip(data, index, r.Cur(), r.WindowEnd() - 1)
    requires Inserted(r.(endIdx := if eof then index + |data| else r.endIdx), clipped, nd, stored, r')
    ensures r' == Push(r, data, index, eof)
  {
    hide Push, Merged, Clip;
    ClipMerged(r, data, index, clipped);
    PushInside(r, data, index, eof, Merged(r, data, index), clipped, nd, stored, r');
  }

  lemma PushOutside(r: Reasm, data: seq<Byte>, index: nat, eof: bool, r': Reasm)
    requires r.Valid()
    requires r.Cur() >= index + |data| || index >= r.WindowEnd() || data == []
    requires var endIdx := if eof then index + |data| else r.endIdx;
             r' == Reasm(r.out.(ended := r.out.ended || r.Cur() >= endIdx), r.pending, endIdx)
    ensures r' == Push(r, data, index, eof)
  {
    NothingInWindow(r, data, index);
    PushGap(r, data, index, eof, r.pending, r');
  }

  lemma StoredBeyond(segs: seq<Node>, p: nat, nd: Node, hi: nat)
    requires nd.Ok() && Separated(segs, nd.start, hi) && Isolated(segs, p, nd)
    ensures Separated(segs, nd.end + 1, hi)
    ensures forall i :: i in MapOf(segs) ==> nd.end + 1 < i
  {
    forall i | i in MapOf(segs)
      ensures nd.end + 1 < i
    {
      InMapOf(segs, i);
    }
  }

  lemma InsertNode(segs: seq<Node>, p: nat, nd: Node)
    requires nd.Ok() && Isolated(segs, p, nd)
    requires forall k :: 0 <= k < |segs| ==> segs[k].Ok()
    ensures MapOf(segs[..p] + [nd] + segs[p..]) == MapOf(segs) + nd.Map()
    ensures TotalBytes(segs[..p] + [nd] + segs[p..]) == TotalBytes(segs) + |nd.data|
  {
    var a, b := segs[..p], segs[p..];
    assert a + b == segs;
    forall k | 0 <= k < |b|
      ensures nd.Map().Keys !! b[k].Map().Keys
    {
      assert b[k] == segs[p + k];
    }
    MapOfExtract(a, nd, b);
    TotalExtract(a, nd, b);
  }

  lemma SeparatedWith(segs: seq<Node>, p: nat, nd: Node, lo: nat, hi: nat)
    requires Separated(segs, lo, hi) && Isolated(segs, p, nd)
    requires nd.Ok() && nd.data != [] && lo < nd.start && nd.end < hi
    ensures Separated(segs[..p] + [nd] + segs[p..], lo, hi)
  {
  }

  /** An excerpt with nothing inside the window adds no byte. */
  lemma NothingInWindow(r: Reasm, data: seq<Byte>, index: nat)
    requires r.Valid()
    requires r.Cur() >= index + |data| || index >= r.WindowEnd() || data == []
    ensures Merged(r, data, index) == r.pending
  {
  }

  lemma MapAssoc(a: map<nat, Byte>, b: map<nat, Byte>, c: map<nat, Byte>)
    ensures a + b + c == a + (b + c)
  {
  }

  /** The merge loop's invariant: set and node together hold the bytes `m`, and everything before
      position `p` ends well before the node. */
  ghost predicate Merging(segs: seq<Node>, unassembled: nat, nd: Node, p: nat, lo: nat, hi: nat, m: map<nat, Byte>) {
    && Separated(segs, lo, hi) && unassembled == TotalBytes(segs)
    && nd.Ok() && lo <= nd.start && nd.end < hi && (nd.data == [] ==> nd.start == lo)
    && p <= |segs| && (forall k :: 0 <= k < p ==> segs[k].end + 1 < nd.start)
    && m == MapOf(segs) + nd.Map()
  }

  /** One merge step: the touching interval moves from the set into the node. */
  lemma AbsorbStep(segs: seq<Node>, lo: nat, hi: nat, k: nat, nd: Node)
    requires Separated(segs, lo, hi) && k < |segs| && nd.Ok() && segs[k].Touches(nd)
    ensures var rest := segs[..k] + segs[k + 1..];
            && MapOf(rest) + MergeNodes(segs[k], nd).Map() == MapOf(segs) + nd.Map()
            && TotalBytes(rest) + |segs[k].data| == TotalBytes(segs)
  {
    var a, x, b := segs[..k], segs[k], segs[k + 1..];
    assert segs == a + [x] + b;
    forall j | 0 <= j < |b|
      ensures x.Map().Keys !! b[j].Map().Keys
    {
      assert b[j] == segs[k + 1 + j];
    }
    MapOfExtract(a, x, b);
    TotalExtract(a, x, b);
    MergeNodesMap(x, nd);
    MapAssoc(MapOf(a + b), x.Map(), nd.Map());
  }

  lemma MergingAbsorb(segs: seq<Node>, unassembled: nat, nd: Node, p: nat, lo: nat, hi: nat, m: map<nat, Byte>)
    requires Merging(segs, unassembled, nd, p, lo, hi, m) && p < |segs| && segs[p].Touches(nd)
    ensures unassembled >= |segs[p].data|
    ensures Merging(segs[..p] + segs[p + 1..], unassembled - |segs[p].data|, MergeNodes(segs[p], nd), p, lo, hi, m)
  {
    AbsorbStep(segs, lo, hi, p, nd);
    SeparatedWithout(segs, lo, hi, p);
  }

  class StreamReassembler {
    const output: ByteStream
    const capacity: nat
    var segs: seq<Node>
    var inputEndIdx: nat
    var curIdx: nat
    var unassembled: nat

    ghost predicate Valid()
      reads this, output
    {
      && output.Valid() && output.capacity == capacity && capacity > 0
      && curIdx == |output.written|
      && Separated(segs, curIdx, output.totalRead + capacity)
      && unassembled == TotalBytes(segs)
      && (output.inputEnd || curIdx < inputEndIdx)
    }

    ghost function Model(): (m: Reasm)
      requires Valid()
      reads this, output
      ensures m.Valid()
    {
      MapOfBounds(segs, curIdx, output.totalRead + capacity);
      Reasm(output.Model(), MapOf(segs), inputEndIdx)
    }

    constructor (capacity: nat)
      requires capacity > 0
      ensures Valid() && fresh(output) && Model() == EmptyReasm(capacity)
    {
      output := new ByteStream(capacity);
      this.capacity := capacity;
      segs, inputEndIdx, curIdx, unassembled := [], NO_END, 0, 0;
    }

    /** Position of the first interval ordered after `nd`. */
    method UpperBound(nd: Node) returns (p: nat)
      requires Valid()
      ensures p <= |segs|
      ensures forall k :: 0 <= k < p ==> !nd.Less(segs[k])
      ensures p < |segs| ==> nd.Less(segs[p])
    {
      p := 0;
      while p < |segs| && !nd.Less(segs[p])
        invariant p <= |segs|
        invariant forall k :: 0 <= k < p ==> !nd.Less(segs[k])
      {
        p := p + 1;
      }
    }

    /** Extends `b` with the parts of `a` that stick out on either side; bytes of `b` stay as they are. */
    static method MergeTo(a: Node, b: Node) returns (r: Node)
      requires a.Ok() && b.Ok() && a.Touches(b)
      ensures r == MergeNodes(a, b)
    {
      r := b;
      if a.start < r.start {
        r := Node(a.start, r.end, a.data[..r.start - a.start] + r.data);
      }
      if a.end > r.end {
        r := Node(r.start, a.end, r.data + a.data[|a.data| - (a.end - r.end)..]);
      }
    }

    /** The merge loop over the set, from position `it` on. Starting one interval before the upper bound
        and stopping at the first interval beyond the merged node, it leaves no touching interval behind. */
    static method MergeLoop(segs0: seq<Node>, nd0: Node, unassembled0: nat, it: nat,
                            ghost lo: nat, ghost hi: nat, ghost m: map<nat, Byte>)
      returns (segs: seq<Node>, nd: Node, unassembled: nat, p: nat)
      requires Merging(segs0, unassembled0, nd0, it, lo, hi, m)
      ensures Merging(segs, unassembled, nd, p, lo, hi, m) && Isolated(segs, p, nd)
    {
      segs, nd, unassembled, p := segs0, nd0, unassembled0, it;
      while p < |segs|
        invariant Merging(segs, unassembled, nd, p, lo, hi, m)
        decreases |segs| - p
      {
        var x := segs[p];
        if x.Touches(nd) {
          MergingAbsorb(segs, unassembled, nd, p, lo, hi, m);
          nd := MergeTo(x, nd);
          unassembled := unassembled - |x.data|;
          segs := segs[..p] + segs[p + 1..];
        } else if x.start > nd.end {
          break;
        } else {
          p := p + 1;
        }
      }
    }

    /** Merges `nd0` with every stored interval it touches and takes those out of the set. */
    method Absorb(nd0: Node) returns (nd: Node, p: nat)
      requires Valid() && nd0.Ok() && curIdx <= nd0.start && nd0.end < output.totalRead + capacity
      requires nd0.data == [] ==> nd0.start == curIdx
      modifies this`segs, this`unassembled
      ensures Valid() && nd.Ok() && curIdx <= nd.start && nd.end < output.totalRead + capacity
      ensures nd.data == [] ==> nd.start == curIdx
      ensures Isolated(segs, p, nd)
      ensures MapOf(segs) + nd.Map() == old(MapOf(segs)) + nd0.Map()
    {
      var it := UpperBound(nd0);
      if it > 0 {
        it := it - 1;
        assert segs[it].start <= nd0.start;
        assert forall k :: 0 <= k < it ==> segs[k].end + 1 < segs[it].start;
      }
      segs, nd, unassembled, p := MergeLoop(
        segs, nd0, unassembled, it, curIdx, output.totalRead + capacity, MapOf(segs) + nd0.Map());
    }

    /** Moves a node that starts at the first unassembled index to the stream; the write always fits. */
    method Commit(nd: Node)
      requires output.Valid() && nd.Ok() && nd.start == curIdx == |output.written|
      requires nd.end < output.totalRead + output.capacity
      modifies this`curIdx, output
      ensures output.Valid() && curIdx == nd.end + 1
      ensures var s := old(output.Model());
              output.Model() == s.(written := s.written + nd.data, ended := s.ended || curIdx >= inputEndIdx)
    {
      var accepted := output.Write(nd.data);
      assert nd.data[..accepted] == nd.data;
      curIdx := nd.end + 1;
      if curIdx >= inputEndIdx {
        output.EndInput();
      }
    }

    /** Stores a node that has a gap before it. */
    method Store(nd: Node, p: nat)
      requires Valid() && Isolated(segs, p, nd)
      requires nd.Ok() && nd.data != [] && curIdx < nd.start && nd.end < output.totalRead + capacity
      modifies this`segs, this`unassembled
      ensures Valid() && MapOf(segs) == old(MapOf(segs)) + nd.Map()
    {
      InsertNode(segs, p, nd);
      SeparatedWith(segs, p, nd, curIdx, output.totalRead + capacity);
      segs := segs[..p] + [nd] + segs[p..];
      unassembled := unassembled + |nd.data|;
    }

    /** Merges the clipped excerpt, then commits the resulting node to the stream or stores it. */
    method Insert(clipped: Node) returns (ghost nd: Node, ghost stored: map<nat, Byte>)
      requires Valid() && clipped.Ok() && curIdx <= clipped.start && clipped.end < output.totalRead + capacity
      requires clipped.data == [] ==> clipped.start == curIdx
      modifies this, output
      ensures Valid() && inputEndIdx == old(inputEndIdx)
      ensures Inserted(old(Model()), clipped, nd, stored, Model())
    {
      var node, p := Absorb(clipped);
      nd, stored := node, MapOf(segs);
      if node.start == curIdx {
        StoredBeyond(segs, p, node, output.totalRead + capacity);
        Commit(node);
      } else {
        MapOfBounds(segs, curIdx, output.totalRead + capacity);
        Store(node, p);
      }
    }

    lemma Accounting()
      requires Valid()
      ensures unassembled == |Model().pending|
      ensures |output.buffer| + unassembled <= capacity
    {
      TotalIsSize(segs, curIdx, output.totalRead + capacity);
      MemoryBound(Model());
    }

    /** Accepts an excerpt that claims to start at `index`. The new value is that of the index-to-byte
        model, and the number of bytes kept unassembled is the number of distinct stored indices. */
    method PushSubstring(data: seq<Byte>, index: nat, eof: bool)
      requires Valid()
      modifies this, output
      ensures Valid() && Model() == Push(old(Model()), data, index, eof)
      ensures unassembled == |Model().pending|
      ensures |output.buffer| + unassembled <= capacity
    {
      var maxIdx := curIdx + capacity - output.BufferSize() - 1;
      if curIdx > index + |data| - 1 || index > maxIdx || data == [] {
        Discard(data, index, eof);
      } else {
        Accept(data, index, eof, maxIdx);
      }
      Accounting();
    }

    /** Nothing of the excerpt is new and inside the window; only its end-of-stream mark counts. */
    method Discard(data: seq<Byte>, index: nat, eof: bool)
      requires Valid()
      requires curIdx >= index + |data| || index >= output.totalRead + capacity || data == []
      modifies this`inputEndIdx, output`inputEnd
      ensures Valid() && Model() == Push(old(Model()), data, index, eof)
    {
      hide Push;
      ghost var r := Model();
      if eof {
        inputEndIdx := index + |data|;
      }
      if curIdx >= inputEndIdx {
        output.EndInput();
      }
      PushOutside(r, data, index, eof, Model());
    }

    method Accept(data: seq<Byte>, index: nat, eof: bool, maxIdx: nat)
      requires Valid() && data != [] && maxIdx == output.totalRead + capacity - 1
      requires curIdx <= index + |data| - 1 && index <= maxIdx
      modifies this, output
      ensures Valid() && Model() == Push(old(Model()), data, index, eof)
    {
      hide Push, Clip, Inserted;
      ghost var r := Model();
      if eof {
        inputEndIdx := index + |data|;
      }
      ghost var r1 := Model();
      assert r1 == r.(endIdx := if eof then index + |data| else r.endIdx);
      var clipped := Clip(data, index, curIdx, maxIdx);
      ghost var nd, stored := Insert(clipped);
      PushAccepted(r, data, index, eof, clipped, nd, stored, Model());
    }

    /** The application reads assembled bytes: they come in order, and the window opens by as many. */
    method ReadOutput(len: nat) returns (bytes: seq<Byte>)
      requires Valid()
      modifies output
      ensures Valid() && Model() == ReadOut(old(Model()), len)
      ensures bytes == output.written[old(output.totalRead)..output.totalRead]
    {
      bytes := output.Read(len);
    }

    /** Bytes stored but not yet assembled, each index counted once. */
    function UnassembledBytes(): (n: nat)
      requires Valid()
      reads this, output
      ensures n == |Model().pending|
    {
      TotalIsSize(segs, curIdx, output.totalRead + capacity);
      unassembled
    }

    predicate Empty()
      requires Valid()
      reads this, output
      ensures Empty() <==> Model().pending == map[]
    {
      TotalIsSize(segs, curIdx, output.totalRead + capacity);
      unassembled == 0
    }
  }
}
