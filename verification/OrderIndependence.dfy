/** Order independence of reassembly: for excerpts of one stream that fits the capacity, the outcome
    depends only on which excerpts arrived, not on their order, repetition or the reads in between. */
module OrderIndependence {
  import opened ByteStreams
  import opened Reassembly

  /** An arriving excerpt of the stream (its range, and whether it carries the end mark), or a read by
      the application. */
  datatype Event = Excerpt(index: nat, len: nat, eof: bool) | AppRead(len: nat)

  /** Excerpts lie inside `w`, and only one that reaches its end carries the end mark. */
  ghost predicate Genuine(e: Event, w: seq<Byte>) {
    e.Excerpt? ==> e.index + e.len <= |w| && (e.eof ==> e.index + e.len == |w|)
  }

  ghost predicate AllGenuine(es: seq<Event>, w: seq<Byte>) {
    forall e :: e in es ==> Genuine(e, w)
  }

  ghost function Apply(r: Reasm, e: Event, w: seq<Byte>): (r': Reasm)
    requires r.Valid() && Genuine(e, w)
    ensures r'.Valid()
  {
    match e
    case Excerpt(index, len, eof) => Push(r, w[index..index + len], index, eof)
    case AppRead(len) => ReadOut(r, len)
  }

  ghost function Run(capacity: nat, es: seq<Event>, w: seq<Byte>): (r: Reasm)
    requires AllGenuine(es, w)
    ensures r.Valid()
  {
    if es == [] then EmptyReasm(capacity)
    else Apply(Run(capacity, es[..|es| - 1], w), es[|es| - 1], w)
  }

  /** Some excerpt brought the byte at index `i`. */
  ghost predicate Covered(es: seq<Event>, i: nat) {
    exists e :: e in es && e.Excerpt? && e.index <= i < e.index + e.len
  }

  /** Some excerpt brought the end mark. */
  ghost predicate Marked(es: seq<Event>) {
    exists e :: e in es && e.Excerpt? && e.eof
  }

  ghost function EndIdx(es: seq<Event>, w: seq<Byte>): nat {
    if Marked(es) then |w| else NO_END
  }

  /** The closed form: the assembled bytes are the stream up to the first index nobody brought, the
      stored ones are the other indices brought, and the output has ended when the end is reached. */
  ghost predicate ClosedForm(r: Reasm, es: seq<Event>, w: seq<Byte>) {
    && r.Cur() <= |w| && r.out.written == w[..r.Cur()]
    && (forall i :: 0 <= i < r.Cur() ==> Covered(es, i))
    && !Covered(es, r.Cur())
    && (forall i :: i in r.pending <==> r.Cur() < i && Covered(es, i))
    && (forall i :: i in r.pending ==> i < |w| && r.pending[i] == w[i])
    && r.endIdx == EndIdx(es, w)
    && r.out.ended == (r.Cur() >= r.endIdx)
  }

  lemma CoveredSnoc(es: seq<Event>, e: Event, i: nat)
    ensures Covered(es + [e], i) <==> Covered(es, i) || (e.Excerpt? && e.index <= i < e.index + e.len)
  {
    if Covered(es, i) {
      var d :| d in es && d.Excerpt? && d.index <= i < d.index + d.len;
      assert d in es + [e];
    }
    if e.Excerpt? && e.index <= i < e.index + e.len {
      assert e in es + [e];
    }
  }

  lemma MarkedSnoc(es: seq<Event>, e: Event)
    ensures Marked(es + [e]) <==> Marked(es) || (e.Excerpt? && e.eof)
  {
    if Marked(es) {
      var d :| d in es && d.Excerpt? && d.eof;
      assert d in es + [e];
    }
    if e.Excerpt? && e.eof {
      assert e in es + [e];
    }
  }

  /** What is stored before emission, in closed form. */
  lemma MergedClosed(r: Reasm, es: seq<Event>, e: Event, w: seq<Byte>)
    requires r.Valid() && ClosedForm(r, es, w) && e.Excerpt? && Genuine(e, w) && |w| <= r.WindowEnd()
    ensures var m := Merged(r, w[e.index..e.index + e.len], e.index);
            && (forall i :: i in m <==> r.Cur() <= i && Covered(es + [e], i))
            && (forall i :: i in m ==> i < |w| && m[i] == w[i])
  {
    var data := w[e.index..e.index + e.len];
    var m := Merged(r, data, e.index);
    hide Clipped;
    forall i: nat
      ensures i in m <==> r.Cur() <= i && Covered(es + [e], i)
    {
      CoveredSnoc(es, e, i);
      InClipped(data, e.index, r.Cur(), r.WindowEnd(), i);
    }
    forall i | i in m
      ensures i < |w| && m[i] == w[i]
    {
      InClipped(data, e.index, r.Cur(), r.WindowEnd(), i);
    }
  }

  /** Emitting the run stops exactly at the first index nobody brought. */
  lemma EmitClosed(m: map<nat, Byte>, written: seq<Byte>, hi: nat, fs: seq<Event>, w: seq<Byte>)
    requires |written| <= |w| <= hi && written == w[..|written|]
    requires forall i :: i in m <==> |written| <= i && Covered(fs, i)
    requires forall i :: i in m ==> i < |w| && m[i] == w[i]
    requires forall i :: 0 <= i < |written| ==> Covered(fs, i)
    ensures var end := RunEnd(m, |written|, hi);
            && end <= |w| && written + Bytes(m, |written|, end) == w[..end]
            && (forall i :: 0 <= i < end ==> Covered(fs, i))
            && !Covered(fs, end)
  {
    RunAgrees(m, written, hi, w, |w|);
    var end := RunEnd(m, |written|, hi);
    assert end !in m;
  }

  /** The situation just before emission: history `fs` includes the excerpt being pushed. */
  ghost predicate ReadyToEmit(r: Reasm, m: map<nat, Byte>, endIdx: nat, fs: seq<Event>, w: seq<Byte>) {
    && r.Cur() <= |w| <= r.WindowEnd() && r.out.written == w[..r.Cur()]
    && (forall i :: i in m <==> r.Cur() <= i && Covered(fs, i))
    && (forall i :: i in m ==> i < |w| && m[i] == w[i])
    && (forall i :: 0 <= i < r.Cur() ==> Covered(fs, i))
    && endIdx == EndIdx(fs, w)
    && (r.out.ended ==> r.Cur() >= endIdx)
  }

  lemma PushCloses(r: Reasm, data: seq<Byte>, index: nat, eof: bool, m: map<nat, Byte>, fs: seq<Event>, w: seq<Byte>)
    requires r.Valid() && m == Merged(r, data, index)
    requires ReadyToEmit(r, m, if eof then index + |data| else r.endIdx, fs, w)
    ensures ClosedForm(Push(r, data, index, eof), fs, w)
  {
    hide Push, Merged, Covered;
    EmitClosed(m, r.out.written, r.WindowEnd(), fs, w);
    var end := RunEnd(m, r.Cur(), r.WindowEnd());
    var kept := map i | i in m && i > end :: m[i];
    PushByRun(r, data, index, eof, m, end, Bytes(m, r.Cur(), end), kept);
    ClosedAfter(r, m, end, kept, fs, w);
  }

  lemma ExcerptReady(r: Reasm, es: seq<Event>, e: Event, w: seq<Byte>, m: map<nat, Byte>)
    requires r.Valid() && ClosedForm(r, es, w) && e.Excerpt? && Genuine(e, w)
    requires |w| <= r.WindowEnd() && |w| <= NO_END
    requires m == Merged(r, w[e.index..e.index + e.len], e.index)
    ensures ReadyToEmit(r, m, if e.eof then e.index + e.len else r.endIdx, es + [e], w)
  {
    MergedClosed(r, es, e, w);
    MarkedSnoc(es, e);
    forall i: nat | i < r.Cur()
      ensures Covered(es + [e], i)
    {
      CoveredSnoc(es, e, i);
    }
  }

  lemma ExcerptKeepsClosedForm(r: Reasm, es: seq<Event>, e: Event, w: seq<Byte>)
    requires r.Valid() && ClosedForm(r, es, w) && e.Excerpt? && Genuine(e, w)
    requires |w| <= r.WindowEnd() && |w| <= NO_END
    ensures ClosedForm(Apply(r, e, w), es + [e], w)
  {
    hide Push, Merged, ClosedForm, ReadyToEmit, Covered;
    var data := w[e.index..e.index + e.len];
    var m := Merged(r, data, e.index);
    ExcerptReady(r, es, e, w, m);
    PushCloses(r, data, e.index, e.eof, m, es + [e], w);
  }

  lemma ClosedAfter(r: Reasm, m: map<nat, Byte>, end: nat, kept: map<nat, Byte>, fs: seq<Event>, w: seq<Byte>)
    requires r.Cur() <= end <= |w| && kept == map i | i in m && i > end :: m[i]
    requires forall i :: i in m <==> r.Cur() <= i && Covered(fs, i)
    requires forall i :: i in m ==> i < |w| && m[i] == w[i]
    requires (forall i :: 0 <= i < end ==> Covered(fs, i)) && !Covered(fs, end)
    requires r.out.ended ==> end >= EndIdx(fs, w)
    ensures ClosedForm(Reasm(r.out.(written := w[..end], ended := r.out.ended || end >= EndIdx(fs, w)),
                             kept, EndIdx(fs, w)), fs, w)
  {
  }

  lemma ReadKeepsClosedForm(r: Reasm, es: seq<Event>, e: Event, w: seq<Byte>)
    requires r.Valid() && ClosedForm(r, es, w) && e.AppRead?
    ensures ClosedForm(Apply(r, e, w), es + [e], w)
  {
    forall i: nat
      ensures Covered(es + [e], i) <==> Covered(es, i)
    {
      CoveredSnoc(es, e, i);
    }
    MarkedSnoc(es, e);
  }

  lemma {:induction false} RunClosedForm(capacity: nat, es: seq<Event>, w: seq<Byte>)
    requires AllGenuine(es, w) && |w| <= capacity && |w| <= NO_END
    ensures ClosedForm(Run(capacity, es, w), es, w)
    ensures Run(capacity, es, w).out.capacity == capacity
  {
    hide Push, ClosedForm;
    if es == [] {
      EmptyClosedForm(capacity, w);
    } else {
      var front, e := es[..|es| - 1], es[|es| - 1];
      RunClosedForm(capacity, front, w);
      assert front + [e] == es;
      if e.Excerpt? {
        ExcerptKeepsClosedForm(Run(capacity, front, w), front, e, w);
      } else {
        ReadKeepsClosedForm(Run(capacity, front, w), front, e, w);
      }
    }
  }

  lemma EmptyClosedForm(capacity: nat, w: seq<Byte>)
    ensures ClosedForm(EmptyReasm(capacity), [], w)
  {
    assert w[..0] == [];
  }

  /** Two histories that brought the same excerpts, in any order, with any repetition and any reads. */
  ghost predicate SameExcerpts(es: seq<Event>, fs: seq<Event>) {
    forall e: Event :: e.Excerpt? ==> (e in es <==> e in fs)
  }

  lemma ClosedFormUnique(r: Reasm, s: Reasm, es: seq<Event>, fs: seq<Event>, w: seq<Byte>)
    requires SameExcerpts(es, fs) && ClosedForm(r, es, w) && ClosedForm(s, fs, w)
    ensures r.out.written == s.out.written && r.pending == s.pending
    ensures r.endIdx == s.endIdx && r.out.ended == s.out.ended
  {
    assert forall i: nat :: Covered(es, i) <==> Covered(fs, i);
    assert Marked(es) <==> Marked(fs);
    assert !(r.Cur() < s.Cur()) && !(s.Cur() < r.Cur());
  }

  ghost predicate SameOutcome(r: Reasm, s: Reasm) {
    r.out.written == s.out.written && r.pending == s.pending && r.endIdx == s.endIdx && r.out.ended == s.out.ended
  }

  /** Order independence, for every stream that fits the capacity and does not reach past the marker. */
  lemma Independent(capacity: nat, es: seq<Event>, fs: seq<Event>, w: seq<Byte>)
    requires AllGenuine(es, w) && AllGenuine(fs, w) && SameExcerpts(es, fs)
    requires |w| <= capacity && |w| <= NO_END
    ensures SameOutcome(Run(capacity, es, w), Run(capacity, fs, w))
  {
    RunClosedForm(capacity, es, w);
    RunClosedForm(capacity, fs, w);
    ClosedFormUnique(Run(capacity, es, w), Run(capacity, fs, w), es, fs, w);
  }

  /** The same for two histories at once. */
  ghost predicate Agree(capacity: nat, es: seq<Event>, fs: seq<Event>, w: seq<Byte>) {
    AllGenuine(es, w) && AllGenuine(fs, w) && SameExcerpts(es, fs) ==>
      SameOutcome(Run(capacity, es, w), Run(capacity, fs, w))
  }

  /** A stream longer than the marker: everything below the marker arrives, and the end mark alone. */
  function Below(): Event {
    Excerpt(0, NO_END, false)
  }

  function MarkOnly(w: seq<Byte>): Event {
    Excerpt(|w|, 0, true)
  }

  lemma PushBelow(r: Reasm, w: seq<Byte>)
    requires r.Valid() && NO_END < |w| <= r.WindowEnd() && r.out.written == [] && r.pending == map[]
    ensures Push(r, w[0..NO_END], 0, false).out.ended == (r.out.ended || NO_END >= r.endIdx)
  {
    var data := w[0..NO_END];
    var m := Merged(r, data, 0);
    assert m == Clipped(data, 0, 0, r.WindowEnd());
    assert forall i: nat {:trigger i in m} :: i in m <==> i < NO_END;
    RunEndUnique(m, 0, r.WindowEnd(), NO_END);
  }

  lemma PushMark(r: Reasm, w: seq<Byte>)
    requires r.Valid() && NO_END < |w| && r.out.written == [] && r.pending == map[] && !r.out.ended
    ensures Push(r, w[|w|..|w|], |w|, true) == r.(endIdx := |w|)
  {
    assert Merged(r, [], |w|) == map[];
    assert w[|w|..|w|] == [];
    PushByRun(r, [], |w|, true, map[], 0, [], map[]);
    assert r.out.written + [] == r.out.written;
  }

  /** With the end mark last, the output has ended by itself at the marker. */
  lemma EndsAtMarker(capacity: nat, w: seq<Byte>)
    requires NO_END < |w| <= capacity
    ensures AllGenuine([Below(), MarkOnly(w)], w) && Run(capacity, [Below(), MarkOnly(w)], w).out.ended
  {
    var r := EmptyReasm(capacity);
    PushBelow(r, w);
    hide Push;
    RunTwo(capacity, Below(), MarkOnly(w), w);
    EndStays(Apply(r, Below(), w), MarkOnly(w), w);
  }

  /** An end once reached is not undone. */
  lemma EndStays(r: Reasm, e: Event, w: seq<Byte>)
    requires r.Valid() && Genuine(e, w) && r.out.ended
    ensures Apply(r, e, w).out.ended
  {
  }

  /** With the end mark first, it has not ended. */
  lemma RunsPastMarker(capacity: nat, w: seq<Byte>)
    requires NO_END < |w| <= capacity
    ensures AllGenuine([MarkOnly(w), Below()], w) && !Run(capacity, [MarkOnly(w), Below()], w).out.ended
  {
    var r := EmptyReasm(capacity);
    PushMark(r, w);
    PushBelow(r.(endIdx := |w|), w);
    hide Push;
    RunTwo(capacity, MarkOnly(w), Below(), w);
  }

  /** Past the marker the order shows. */
  lemma MarkerBreaksOrder(capacity: nat, w: seq<Byte>)
    requires NO_END < |w| <= capacity
    ensures !Agree(capacity, [Below(), MarkOnly(w)], [MarkOnly(w), Below()], w)
  {
    hide Run;
    EndsAtMarker(capacity, w);
    RunsPastMarker(capacity, w);
    assert SameExcerpts([Below(), MarkOnly(w)], [MarkOnly(w), Below()]);
  }

  lemma RunTwo(capacity: nat, a: Event, b: Event, w: seq<Byte>)
    requires Genuine(a, w) && Genuine(b, w)
    ensures AllGenuine([a, b], w)
    ensures Run(capacity, [a, b], w) == Apply(Apply(EmptyReasm(capacity), a, w), b, w)
  {
    hide Apply;
    assert [a, b][..1] == [a] && [a][..0] == [];
    assert Run(capacity, [a], w) == Apply(EmptyReasm(capacity), a, w);
  }

  /** For a stream that fits the capacity, order never matters exactly when the stream is no longer than
      the "no end yet" marker. */
  lemma IndependentIff(capacity: nat, w: seq<Byte>)
    requires |w| <= capacity
    ensures (forall es, fs :: Agree(capacity, es, fs, w)) <==> |w| <= 0xFFFF_FFFF
  {
    if |w| <= NO_END {
      forall es, fs | AllGenuine(es, w) && AllGenuine(fs, w) && SameExcerpts(es, fs)
        ensures SameOutcome(Run(capacity, es, w), Run(capacity, fs, w))
      {
        Independent(capacity, es, fs, w);
      }
    } else {
      MarkerBreaksOrder(capacity, w);
    }
  }
}
