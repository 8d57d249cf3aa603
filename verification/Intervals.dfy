/** Facts about the reassembler's interval set: sorted, non-empty, pairwise separated by a gap. */
module Intervals {
  import opened ByteStreams
  import opened Reassembly

  /** A stored excerpt; `end` is its last index, so an empty one has `end == start - 1`. */
  datatype Node = Node(start: nat, end: int, data: seq<Byte>) {
    predicate Ok() {
      end == start + |data| - 1
    }

    function Map(): map<nat, Byte> {
      Spread(data, start)
    }

    /** The ordering of the set: by start, then by end. */
    predicate Less(b: Node) {
      if start != b.start then start < b.start else end < b.end
    }

    /** The two ranges overlap or are adjacent. */
    predicate Touches(b: Node) {
      end + 1 >= b.start && b.end + 1 >= start
    }
  }

  function MakeNode(index: nat, data: seq<Byte>): (n: Node)
    ensures n.Ok()
  {
    Node(index, index + |data| - 1, data)
  }

  /** Stored intervals inside `(lo, hi)`, in order, with at least one missing index between neighbours. */
  ghost predicate Separated(segs: seq<Node>, lo: nat, hi: nat) {
    && (forall k :: 0 <= k < |segs| ==> segs[k].Ok() && segs[k].data != [] && lo < segs[k].start && segs[k].end < hi)
    && (forall j, k :: 0 <= j < k < |segs| ==> segs[j].end + 1 < segs[k].start)
  }

  /** The bytes a list of intervals stores. */
  ghost function MapOf(segs: seq<Node>): map<nat, Byte> {
    if segs == [] then map[]
    else MapOf(segs[..|segs| - 1]) + segs[|segs| - 1].Map()
  }

  ghost function TotalBytes(segs: seq<Node>): nat {
    if segs == [] then 0
    else TotalBytes(segs[..|segs| - 1]) + |segs[|segs| - 1].data|
  }

  lemma {:induction false} InMapOf(segs: seq<Node>, i: nat)
    ensures i in MapOf(segs) <==> exists k :: 0 <= k < |segs| && i in segs[k].Map()
  {
    if segs == [] {
    } else {
      var front, last := segs[..|segs| - 1], segs[|segs| - 1];
      InMapOf(front, i);
      if i in MapOf(front) {
        var k :| 0 <= k < |front| && i in front[k].Map();
        assert segs[k] == front[k];
      }
      if i in last.Map() {
        assert i in segs[|segs| - 1].Map();
      }
    }
  }

  lemma MapSwap(m: map<nat, Byte>, x: map<nat, Byte>, y: map<nat, Byte>)
    requires x.Keys !! y.Keys
    ensures m + x + y == m + y + x
  {
  }

  lemma MapOfSnoc(segs: seq<Node>, x: Node)
    ensures MapOf(segs + [x]) == MapOf(segs) + x.Map()
  {
    assert (segs + [x])[..|segs|] == segs;
  }

  /** Taking one interval out of the middle takes out exactly its bytes. */
  lemma {:induction false} MapOfExtract(a: seq<Node>, x: Node, b: seq<Node>)
    requires forall k :: 0 <= k < |b| ==> x.Map().Keys !! b[k].Map().Keys
    ensures MapOf(a + [x] + b) == MapOf(a + b) + x.Map()
    decreases |b|
  {
    if b == [] {
      assert a + [x] + b == a + [x] && a + b == a;
      MapOfSnoc(a, x);
    } else {
      var front, last := b[..|b| - 1], b[|b| - 1];
      assert a + [x] + b == (a + [x] + front) + [last] && a + b == (a + front) + [last];
      MapOfSnoc(a + [x] + front, last);
      MapOfSnoc(a + front, last);
      MapOfExtract(a, x, front);
      MapSwap(MapOf(a + front), x.Map(), last.Map());
    }
  }

  lemma {:induction false} TotalExtract(a: seq<Node>, x: Node, b: seq<Node>)
    ensures TotalBytes(a + [x] + b) == TotalBytes(a + b) + |x.data|
    decreases |b|
  {
    if b == [] {
      assert (a + [x] + b)[..|a|] == a && a + b == a;
    } else {
      assert (a + [x] + b)[..|a| + |b|] == a + [x] + b[..|b| - 1];
      assert (a + b)[..|a| + |b| - 1] == a + b[..|b| - 1];
      TotalExtract(a, x, b[..|b| - 1]);
    }
  }

  lemma DisjointMapSize(m: map<nat, Byte>, n: map<nat, Byte>)
    requires m.Keys !! n.Keys
    ensures |m + n| == |m| + |n|
  {
    assert (m + n).Keys == m.Keys + n.Keys;
    assert |m.Keys + n.Keys| == |m.Keys| + |n.Keys|;
  }

  /** The byte count kept beside the set is the number of distinct stored indices. */
  lemma {:induction false} TotalIsSize(segs: seq<Node>, lo: nat, hi: nat)
    requires Separated(segs, lo, hi)
    ensures TotalBytes(segs) == |MapOf(segs)|
  {
    if segs == [] {
    } else {
      var front, last := segs[..|segs| - 1], segs[|segs| - 1];
      TotalIsSize(front, lo, hi);
      forall i | i in MapOf(front)
        ensures i !in last.Map()
      {
        InMapOf(front, i);
        var k :| 0 <= k < |front| && i in front[k].Map();
        assert segs[k].end + 1 < last.start;
      }
      DisjointMapSize(MapOf(front), last.Map());
      SpreadSize(last.data, last.start);
    }
  }

  /** Every stored index lies strictly between the bounds. */
  lemma MapOfBounds(segs: seq<Node>, lo: nat, hi: nat)
    requires Separated(segs, lo, hi)
    ensures forall i :: i in MapOf(segs) ==> lo < i < hi
  {
    forall i | i in MapOf(segs)
      ensures lo < i < hi
    {
      InMapOf(segs, i);
    }
  }

  /** Intervals with one removed are still separated. */
  lemma SeparatedWithout(segs: seq<Node>, lo: nat, hi: nat, k: nat)
    requires Separated(segs, lo, hi) && k < |segs|
    ensures Separated(segs[..k] + segs[k + 1..], lo, hi)
  {
  }

  /** The node that replaces a touching pair; bytes of `b` win on the overlap. */
  function MergeNodes(a: Node, b: Node): (r: Node)
    requires a.Ok() && b.Ok() && a.Touches(b)
    ensures r.Ok()
    ensures r.start == Min(a.start, b.start) && r.end == if a.end > b.end then a.end else b.end
  {
    var left := if a.start < b.start then a.data[..b.start - a.start] else [];
    var right := if a.end > b.end then a.data[|a.data| - (a.end - b.end)..] else [];
    Node(Min(a.start, b.start), if a.end > b.end then a.end else b.end, left + b.data + right)
  }

  lemma MergeNodesMap(a: Node, b: Node)
    requires a.Ok() && b.Ok() && a.Touches(b)
    ensures MergeNodes(a, b).Map() == a.Map() + b.Map()
  {
  }
}
