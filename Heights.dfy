/**
 * The measurement side of the list view (src/VirtuosoView.tsx): after each
 * resize of the list element, its rendered children are read back and turned
 * into `{start, end, size}` records, one per maximal run of consecutive items
 * that measured the same size; and every scroll position is clamped before it
 * is reported to the engine.
 */
module Heights {
  import opened Wrappers

  /**
   * One rendered child of the list element: its `data-index` and
   * `data-known-size` attributes (None when the attribute is missing, so that
   * the parsed value is NaN and compares equal to nothing) and its rendered
   * width and height in whole pixels.
   */
  datatype Child = Child(dataIndex: Option<int>, knownSize: Option<int>, offsetWidth: int, offsetHeight: int)

  /** The `ItemHeight` record sent to the engine: items `start..end` (inclusive) have size `size`. */
  datatype ItemHeight = ItemHeight(start: int, end: int, size: int)

  /** One item whose rendered size differs from the size the engine knew for it. */
  datatype Measure = Measure(index: int, size: int)

  /** The size read from a child: its width when the list is horizontal, its height otherwise. */
  function RenderedSize(c: Child, isHorizontal: bool): int {
    if isHorizontal then c.offsetWidth else c.offsetHeight
  }

  /**
   * What one child contributes: nothing when it has no index, when its size
   * did not change, or when it has no size yet; otherwise its index and size.
   */
  function Measurement(c: Child, isHorizontal: bool): Option<Measure> {
    if c.dataIndex.None? then None
    else
      var size := RenderedSize(c, isHorizontal);
      if c.knownSize == Some(size) || size == 0 then None
      else Some(Measure(c.dataIndex.value, size))
  }

  /** The same contribution as a sequence of zero or one measurements. */
  function Contribution(c: Child, isHorizontal: bool): seq<Measure> {
    var m := Measurement(c, isHorizontal);
    if m.Some? then [m.value] else []
  }

  /** The contributions of all children, in child order. */
  function Measurements(cs: seq<Child>, isHorizontal: bool): seq<Measure> {
    if cs == [] then [] else Measurements(cs[..|cs| - 1], isHorizontal) + Contribution(cs[|cs| - 1], isHorizontal)
  }

  /** Two records can be merged when they have the same size and the second starts right after the first. */
  predicate Mergeable(a: ItemHeight, b: ItemHeight) {
    a.size == b.size && a.end == b.start - 1
  }

  /** Every record is a non-empty range, and no record could be merged into the one before it. */
  predicate Canonical(rs: seq<ItemHeight>) {
    (forall i :: 0 <= i < |rs| ==> rs[i].start <= rs[i].end) &&
    (forall i :: 0 < i < |rs| ==> !Mergeable(rs[i - 1], rs[i]))
  }

  /** One step of the encoder: grow the last record by one item, or open a new one. */
  function Extend(rs: seq<ItemHeight>, m: Measure): seq<ItemHeight> {
    if |rs| == 0 || rs[|rs| - 1].size != m.size || rs[|rs| - 1].end != m.index - 1 then
      rs + [ItemHeight(m.index, m.index, m.size)]
    else
      rs[..|rs| - 1] + [rs[|rs| - 1].(end := rs[|rs| - 1].end + 1)]
  }

  /** The run-length encoding of a sequence of measurements, built left to right. */
  function Compress(ms: seq<Measure>): seq<ItemHeight> {
    if ms == [] then [] else Extend(Compress(ms[..|ms| - 1]), ms[|ms| - 1])
  }

  /** The items one record stands for, in index order. */
  function Span(r: ItemHeight): seq<Measure> {
    seq(if r.start <= r.end then r.end - r.start + 1 else 0, k => Measure(r.start + k, r.size))
  }

  /** The decoder: every record replaced by the items it stands for. */
  function Expand(rs: seq<ItemHeight>): seq<Measure> {
    if rs == [] then [] else Expand(rs[..|rs| - 1]) + Span(rs[|rs| - 1])
  }

  /**
   * getHeights: walks the children once, skipping those that contribute
   * nothing, and either extends the last record in place or appends a new one.
   * The records decode to exactly the children's measurements, in child
   * order, and are maximal.
   */
  method GetHeights(children: seq<Child>, isHorizontal: bool) returns (results: seq<ItemHeight>)
    ensures Expand(results) == Measurements(children, isHorizontal)
    ensures Canonical(results)
    ensures results == Compress(Measurements(children, isHorizontal))
  {
    results := [];
    ghost var ms: seq<Measure> := [];
    for i := 0 to |children|
      invariant ms == Measurements(children[..i], isHorizontal)
      invariant results == Compress(ms)
    {
      var child := children[i];
      MeasurementsStep(children, i, isHorizontal);
      if child.dataIndex.None? {
        assert Measurement(child, isHorizontal).None?;
        continue;
      }
      var index := child.dataIndex.value;
      var size := if isHorizontal then child.offsetWidth else child.offsetHeight;
      if child.knownSize == Some(size) || size == 0 {
        assert Measurement(child, isHorizontal).None?;
        continue;
      }
      var m := Measure(index, size);
      assert Measurement(child, isHorizontal) == Some(m);
      CompressSnoc(ms, m);
      ms := ms + [m];
      if |results| == 0 || results[|results| - 1].size != size || results[|results| - 1].end != index - 1 {
        results := results + [ItemHeight(index, index, size)];
      } else {
        GrowLast(results, m);
        var last := results[|results| - 1];
        results := results[|results| - 1 := last.(end := last.end + 1)];
      }
    }
    assert children[..|children|] == children;
    CompressCanonical(ms);
    ExpandCompress(ms);
  }

  /** reportScrollTop: the position passed on is never negative, and a non-negative position passes unchanged. */
  function ReportedScrollTop(scrollTop: int): (r: int)
    ensures r >= 0 && r >= scrollTop
    ensures r == scrollTop || r == 0
  {
    if scrollTop > 0 then scrollTop else 0
  }

  /** One child more: its measurement, if any, is appended to the measurements. */
  lemma MeasurementsStep(cs: seq<Child>, i: nat, isHorizontal: bool)
    requires i < |cs|
    ensures Measurement(cs[i], isHorizontal).None? ==>
      Measurements(cs[..i + 1], isHorizontal) == Measurements(cs[..i], isHorizontal)
    ensures Measurement(cs[i], isHorizontal).Some? ==>
      Measurements(cs[..i + 1], isHorizontal) == Measurements(cs[..i], isHorizontal) + [Measurement(cs[i], isHorizontal).value]
  {
    assert cs[..i + 1][..i] == cs[..i];
    assert Measurements(cs[..i + 1], isHorizontal) == Measurements(cs[..i], isHorizontal) + Contribution(cs[i], isHorizontal);
  }

  /** Extending by one measurement adds exactly that measurement to the decoded sequence. */
  lemma ExpandExtend(rs: seq<ItemHeight>, m: Measure)
    requires Canonical(rs)
    ensures Expand(Extend(rs, m)) == Expand(rs) + [m]
  {
    if |rs| == 0 || rs[|rs| - 1].size != m.size || rs[|rs| - 1].end != m.index - 1 {
      var rs' := rs + [ItemHeight(m.index, m.index, m.size)];
      assert rs'[..|rs'| - 1] == rs;
      assert Span(ItemHeight(m.index, m.index, m.size)) == [m];
    } else {
      var last := rs[|rs| - 1];
      var rs' := rs[..|rs| - 1] + [last.(end := last.end + 1)];
      assert rs'[..|rs'| - 1] == rs[..|rs| - 1];
      assert Span(last.(end := last.end + 1)) == Span(last) + [m];
    }
  }

  /** Decoding the encoding gives back the measurements: no item is lost, added, reordered or resized. */
  lemma {:induction false} ExpandCompress(ms: seq<Measure>)
    ensures Expand(Compress(ms)) == ms
  {
    if ms != [] {
      ExpandCompress(ms[..|ms| - 1]);
      CompressCanonical(ms[..|ms| - 1]);
      ExpandExtend(Compress(ms[..|ms| - 1]), ms[|ms| - 1]);
    }
  }

  /** The encoding of any measurements consists of non-empty, maximal records. */
  lemma {:induction false} CompressCanonical(ms: seq<Measure>)
    ensures Canonical(Compress(ms))
  {
    if ms != [] {
      CompressCanonical(ms[..|ms| - 1]);
    }
  }

  lemma CompressSnoc(ms: seq<Measure>, m: Measure)
    ensures Compress(ms + [m]) == Extend(Compress(ms), m)
  {
    assert (ms + [m])[..|ms|] == ms;
  }

  /** A measurement right after the last record and of its size grows that record by one item. */
  lemma ExtendGrows(init: seq<ItemHeight>, last: ItemHeight, m: Measure)
    requires last.size == m.size && last.end == m.index - 1
    ensures Extend(init + [last], m) == init + [last.(end := last.end + 1)]
  {
    assert (init + [last])[..|init|] == init;
  }

  /** The in-place form of growing the last record: `results[results.length - 1].end++`. */
  lemma GrowLast(rs: seq<ItemHeight>, m: Measure)
    requires rs != [] && rs[|rs| - 1].size == m.size && rs[|rs| - 1].end == m.index - 1
    ensures Extend(rs, m) == rs[|rs| - 1 := rs[|rs| - 1].(end := rs[|rs| - 1].end + 1)]
  {
    var init := rs[..|rs| - 1];
    assert rs == init + [rs[|rs| - 1]];
    ExtendGrows(init, rs[|rs| - 1], m);
  }

  /** The record cannot be merged into the last of the records before it. */
  predicate OpensAfter(init: seq<ItemHeight>, r: ItemHeight) {
    init == [] || !Mergeable(init[|init| - 1], r)
  }

  /** A record that cannot merge with the last record opens a new one on its first item. */
  lemma ExtendOpens(init: seq<ItemHeight>, r: ItemHeight)
    requires OpensAfter(init, r)
    ensures Extend(init, Measure(r.start, r.size)) == init + [r.(end := r.start)]
  {
  }

  /** A record of more than one item decodes to the record without its last item, then that item. */
  lemma SpanSnoc(r: ItemHeight)
    requires r.start < r.end
    ensures Span(r) == Span(r.(end := r.end - 1)) + [Measure(r.end, r.size)]
  {
    var shorter := Span(r.(end := r.end - 1)) + [Measure(r.end, r.size)];
    assert |Span(r)| == |shorter|;
    forall j | 0 <= j < |Span(r)|
      ensures Span(r)[j] == shorter[j]
    {
    }
  }

  /** Encoding the items of a record that cannot merge with the records before it appends exactly that record. */
  lemma {:induction false} CompressSpan(ms: seq<Measure>, init: seq<ItemHeight>, r: ItemHeight)
    requires Compress(ms) == init && OpensAfter(init, r) && r.start <= r.end
    ensures Compress(ms + Span(r)) == init + [r]
    decreases r.end - r.start
  {
    if r.start == r.end {
      assert Span(r) == [Measure(r.start, r.size)];
      CompressSnoc(ms, Measure(r.start, r.size));
      ExtendOpens(init, r);
    } else {
      var shorter := r.(end := r.end - 1);
      var m := Measure(r.end, r.size);
      CompressSpan(ms, init, shorter);
      SpanSnoc(r);
      assert ms + Span(r) == (ms + Span(shorter)) + [m];
      CompressSnoc(ms + Span(shorter), m);
      ExtendGrows(init, shorter, m);
    }
  }

  /** Encoding the decoded records gives back the records, when they are non-empty and maximal. */
  lemma {:induction false} CompressExpand(rs: seq<ItemHeight>)
    requires Canonical(rs)
    ensures Compress(Expand(rs)) == rs
  {
    if rs != [] {
      var init, r := rs[..|rs| - 1], rs[|rs| - 1];
      assert rs == init + [r];
      assert Canonical(init);
      assert init != [] ==> rs[|rs| - 2] == init[|init| - 1];
      assert OpensAfter(init, r);
      CompressExpand(init);
      CompressSpan(Expand(init), init, r);
    }
  }

  lemma {:induction false} MeasurementsAppend(a: seq<Child>, b: seq<Child>, isHorizontal: bool)
    ensures Measurements(a + b, isHorizontal) == Measurements(a, isHorizontal) + Measurements(b, isHorizontal)
  {
    if b != [] {
      assert (a + b)[..|a + b| - 1] == a + b[..|b| - 1];
      MeasurementsAppend(a, b[..|b| - 1], isHorizontal);
    } else {
      assert a + b == a;
    }
  }

  /**
   * A child without `data-index`, with an unchanged size or with size 0
   * changes nothing in the records, wherever it stands among the children.
   */
  lemma SkippedChildIgnored(before: seq<Child>, c: Child, after: seq<Child>, isHorizontal: bool)
    requires c.dataIndex.None? || RenderedSize(c, isHorizontal) == 0 || c.knownSize == Some(RenderedSize(c, isHorizontal))
    ensures Compress(Measurements(before + [c] + after, isHorizontal)) == Compress(Measurements(before + after, isHorizontal))
  {
    MeasurementsAppend(before + [c], after, isHorizontal);
    MeasurementsAppend(before, [c], isHorizontal);
    MeasurementsAppend(before, after, isHorizontal);
    assert [c][..0] == [];
    assert Measurement(c, isHorizontal).None?;
    assert Measurements([c], isHorizontal) == [];
    assert Measurements(before + [c], isHorizontal) == Measurements(before, isHorizontal);
    assert Measurements(before + [c] + after, isHorizontal) == Measurements(before + after, isHorizontal);
  }

  /** Every item covered by a record appears in the decoding, with the record's size. */
  lemma {:induction false} ExpandCovers(rs: seq<ItemHeight>, k: nat, i: int)
    requires k < |rs| && rs[k].start <= i <= rs[k].end
    ensures Measure(i, rs[k].size) in Expand(rs)
  {
    var init, r := rs[..|rs| - 1], rs[|rs| - 1];
    if k == |rs| - 1 {
      assert Span(r)[i - r.start] == Measure(i, r.size);
    } else {
      assert init[k] == rs[k];
      ExpandCovers(init, k, i);
    }
  }

  lemma {:induction false} MeasurementOrigin(cs: seq<Child>, isHorizontal: bool, m: Measure)
    requires m in Measurements(cs, isHorizontal)
    ensures exists j :: 0 <= j < |cs| && Measurement(cs[j], isHorizontal) == Some(m)
  {
    var init := cs[..|cs| - 1];
    if m in Measurements(init, isHorizontal) {
      MeasurementOrigin(init, isHorizontal, m);
      var j :| 0 <= j < |init| && Measurement(init[j], isHorizontal) == Some(m);
      assert cs[j] == init[j];
    } else {
      assert Measurement(cs[|cs| - 1], isHorizontal) == Some(m);
    }
  }

  /**
   * Every item covered by a record of getHeights comes from a child with that
   * `data-index` whose rendered size is the record's size and differs from its
   * known size.
   */
  lemma RecordsAreMeasured(children: seq<Child>, isHorizontal: bool, k: nat, i: int)
    requires k < |Compress(Measurements(children, isHorizontal))|
    requires Compress(Measurements(children, isHorizontal))[k].start <= i <= Compress(Measurements(children, isHorizontal))[k].end
    ensures exists j :: (0 <= j < |children| && children[j].dataIndex == Some(i) &&
                         RenderedSize(children[j], isHorizontal) == Compress(Measurements(children, isHorizontal))[k].size &&
                         RenderedSize(children[j], isHorizontal) != 0 &&
                         children[j].knownSize != Some(RenderedSize(children[j], isHorizontal)))
  {
    var rs := Compress(Measurements(children, isHorizontal));
    ExpandCovers(rs, k, i);
    ExpandCompress(Measurements(children, isHorizontal));
    MeasurementOrigin(children, isHorizontal, Measure(i, rs[k].size));
  }
}
