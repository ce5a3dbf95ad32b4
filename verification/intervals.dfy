/** `mask_to_intervals` of `utils/misc.py`: the maximal runs of each value of a
    one-dimensional integer mask, as half-open `[start, end)` intervals.

    The source finds the indices holding the value (`np.where`), splits that
    index list wherever two neighbours differ by more than one, and turns each
    piece into `[first, last + 1]`.  `Positions` and `Runs` follow those two
    steps; the lemmas show the result is exactly the list of maximal runs. */
module Intervals {

  datatype Span = Span(start: int, end: int)

  // ---------------------------------------------------------------------------
  // The two steps of the source
  // ---------------------------------------------------------------------------

  /** `np.where(np.array(mask) == v)[0]` */
  function Positions(mask: seq<int>, v: int): (p: seq<int>)
    ensures forall k :: 0 <= k < |p| ==> 0 <= p[k] < |mask| && mask[p[k]] == v
    ensures forall i :: 0 <= i < |mask| && mask[i] == v ==> i in p
    ensures forall j, k :: 0 <= j < k < |p| ==> p[j] < p[k]
  {
    if |mask| == 0 then []
    else
      var init := Positions(mask[..|mask| - 1], v);
      if mask[|mask| - 1] == v then init + [|mask| - 1] else init
  }

  /** Grouping an ascending index list into runs of consecutive indices: a new
      run starts exactly where `np.diff(valid_inds) > 1`. */
  function Runs(p: seq<int>): seq<Span> {
    if |p| == 0 then [] else Step(Runs(p[..|p| - 1]), p[|p| - 1])
  }

  /** The next index either continues the last run or opens a new one. */
  function Step(r: seq<Span>, x: int): (s: seq<Span>)
    ensures |s| > 0 && s[|s| - 1].end == x + 1
  {
    if |r| > 0 && r[|r| - 1].end == x then r[..|r| - 1] + [Span(r[|r| - 1].start, x + 1)]
    else r + [Span(x, x + 1)]
  }

  /** Intervals of one value: `mask_to_intervals(mask, v)` for an int `v`. */
  function MaskToIntervals(mask: seq<int>, v: int): seq<Span> {
    Runs(Positions(mask, v))
  }

  // ---------------------------------------------------------------------------
  // What the runs of an ascending index list are
  // ---------------------------------------------------------------------------

  predicate Ascending(p: seq<int>) {
    forall j, k :: 0 <= j < k < |p| ==> p[j] < p[k]
  }

  predicate InSpan(s: Span, i: int) {
    s.start <= i < s.end
  }

  predicate InSomeSpan(spans: seq<Span>, i: int) {
    exists k :: 0 <= k < |spans| && InSpan(spans[k], i)
  }

  /** Non-empty spans, ascending, with a gap between neighbours. */
  predicate WellSpaced(spans: seq<Span>) {
    && (forall k :: 0 <= k < |spans| ==> spans[k].start < spans[k].end)
    && (forall k :: 0 <= k < |spans| - 1 ==> spans[k].end < spans[k + 1].start)
  }

  /** The spans end no later than `bound`. */
  predicate EndBy(spans: seq<Span>, bound: int) {
    forall k :: 0 <= k < |spans| ==> spans[k].end <= bound
  }

  /** The spans cover exactly the members of `p`. */
  ghost predicate Covers(p: seq<int>, spans: seq<Span>) {
    forall i :: i in p <==> InSomeSpan(spans, i)
  }

  /** No span can be extended on either side without leaving `p`. */
  ghost predicate Unextendable(p: seq<int>, spans: seq<Span>) {
    forall k :: 0 <= k < |spans| ==> spans[k].start - 1 !in p && spans[k].end !in p
  }

  /** Everything about the runs that does not mention membership. */
  lemma {:induction false} RunsShape(p: seq<int>)
    requires Ascending(p)
    ensures WellSpaced(Runs(p))
    ensures |p| == 0 <==> |Runs(p)| == 0
    ensures |p| > 0 ==> Runs(p)[|Runs(p)| - 1].end == p[|p| - 1] + 1
    ensures |p| > 0 ==> EndBy(Runs(p), p[|p| - 1] + 1)
    decreases |p|
  {
    if |p| > 0 {
      var q := p[..|p| - 1];
      var x := p[|p| - 1];
      RunsShape(q);
      if |q| > 0 {
        assert q[|q| - 1] < x;
      }
      StepShape(Runs(q), x);
    }
  }

  /** Adding an index at or after the end of the last run keeps the runs
      well spaced and ending by that index. */
  lemma StepShape(r: seq<Span>, x: int)
    requires WellSpaced(r) && EndBy(r, x)
    ensures WellSpaced(Step(r, x)) && EndBy(Step(r, x), x + 1)
  {
    var s := Step(r, x);
    if |r| > 0 && r[|r| - 1].end == x {
      assert forall k :: 0 <= k < |s| - 1 ==> s[k] == r[k];
    } else {
      assert forall k :: 0 <= k < |r| ==> s[k] == r[k];
    }
  }

  lemma StepCovers(r: seq<Span>, x: int)
    requires WellSpaced(r)
    ensures forall i :: InSomeSpan(Step(r, x), i) <==> InSomeSpan(r, i) || i == x
  {
    var s := Step(r, x);
    forall i
      ensures InSomeSpan(s, i) <==> InSomeSpan(r, i) || i == x
    {
      if InSomeSpan(r, i) {
        var k :| 0 <= k < |r| && InSpan(r[k], i);
        assert InSpan(s[k], i);
      }
      if i == x {
        assert InSpan(s[|s| - 1], i);
      }
      if InSomeSpan(s, i) {
        var k :| 0 <= k < |s| && InSpan(s[k], i);
        if k < |r| && i != x {
          assert InSpan(r[k], i);
        }
      }
    }
  }

  lemma {:induction false} RunsCover(p: seq<int>)
    requires Ascending(p)
    ensures Covers(p, Runs(p))
    decreases |p|
  {
    if |p| > 0 {
      var q := p[..|p| - 1];
      var x := p[|p| - 1];
      RunsCover(q);
      RunsShape(q);
      StepCovers(Runs(q), x);
      assert p == q + [x];
      assert forall i :: i in p <==> i in q || i == x;
    }
  }

  lemma StepUnextendable(q: seq<int>, r: seq<Span>, x: int)
    requires Unextendable(q, r) && WellSpaced(r)
    requires forall y :: y in q ==> y < x
    requires |q| > 0 ==> |r| > 0 && r[|r| - 1].end == q[|q| - 1] + 1
    requires |q| > 0 ==> forall y :: y in q ==> y <= q[|q| - 1]
    requires |q| == 0 ==> r == []
    requires |q| > 0 ==> EndBy(r, q[|q| - 1] + 1)
    ensures Unextendable(q + [x], Step(r, x))
  {
    var s := Step(r, x);
    var p := q + [x];
    var n := |r|;
    assert forall i :: i in p <==> i in q || i == x;
    if |q| > 0 {
      assert q[|q| - 1] in q;
    }
    forall k | 0 <= k < |s|
      ensures s[k].start - 1 !in p && s[k].end !in p
    {
      if k < n - 1 {
        assert s[k] == r[k];
        assert r[k].start - 1 !in q && r[k].end !in q;
        assert r[k + 1].end <= q[|q| - 1] + 1;
        assert r[k].end < r[k + 1].start < r[k + 1].end;
      } else if k == n - 1 {
        assert r[k].start - 1 !in q && r[k].end !in q;
        assert r[k].end <= q[|q| - 1] + 1;
        assert s[k].start == r[k].start < r[k].end;
        if s[k] == r[k] {
          assert r[k].end != x;
        } else {
          assert s[k].end == x + 1;
        }
      } else {
        assert s[k] == Span(x, x + 1);
        if |q| > 0 {
          assert x - 1 != q[|q| - 1];
        }
      }
    }
  }

  lemma {:induction false} RunsUnextendable(p: seq<int>)
    requires Ascending(p)
    ensures Unextendable(p, Runs(p))
    decreases |p|
  {
    if |p| > 0 {
      var q := p[..|p| - 1];
      var x := p[|p| - 1];
      RunsUnextendable(q);
      RunsShape(q);
      assert forall y :: y in q ==> y < x;
      assert |q| > 0 ==> forall y :: y in q ==> y <= q[|q| - 1];
      StepUnextendable(q, Runs(q), x);
      assert p == q + [x];
    }
  }

  // ---------------------------------------------------------------------------
  // The properties of `mask_to_intervals` in terms of the mask
  // ---------------------------------------------------------------------------

  /** Every interval of `v` is non-empty and holds only `v`; it is maximal
      (the neighbours on both sides, when they exist, differ from `v`); the
      intervals are ascending and pairwise disjoint; and together they cover
      exactly the positions holding `v`. */
  lemma MaskIntervalsAreMaximalRuns(mask: seq<int>, v: int)
    ensures var itvs := MaskToIntervals(mask, v);
            && (forall k :: 0 <= k < |itvs| ==> 0 <= itvs[k].start < itvs[k].end <= |mask|)
            && (forall k, i :: 0 <= k < |itvs| && itvs[k].start <= i < itvs[k].end ==> mask[i] == v)
            && (forall k :: 0 <= k < |itvs| && itvs[k].start > 0 ==> mask[itvs[k].start - 1] != v)
            && (forall k :: 0 <= k < |itvs| && itvs[k].end < |mask| ==> mask[itvs[k].end] != v)
            && (forall j, k :: 0 <= j < k < |itvs| ==> itvs[j].end < itvs[k].start)
            && (forall i :: 0 <= i < |mask| ==> (mask[i] == v <==> InSomeSpan(itvs, i)))
  {
    IntervalsHoldValue(mask, v);
    IntervalsMaximal(mask, v);
    IntervalsAscending(mask, v);
    IntervalsCoverValue(mask, v);
  }

  lemma IntervalsHoldValue(mask: seq<int>, v: int)
    ensures var itvs := MaskToIntervals(mask, v);
            && (forall k :: 0 <= k < |itvs| ==> 0 <= itvs[k].start < itvs[k].end <= |mask|)
            && (forall k, i :: 0 <= k < |itvs| && itvs[k].start <= i < itvs[k].end ==> mask[i] == v)
  {
    var p := Positions(mask, v);
    var itvs := Runs(p);
    RunsShape(p);
    RunsCover(p);
    forall k | 0 <= k < |itvs|
      ensures 0 <= itvs[k].start < itvs[k].end <= |mask|
      ensures forall i :: itvs[k].start <= i < itvs[k].end ==> mask[i] == v
    {
      assert InSpan(itvs[k], itvs[k].start);
      assert itvs[k].start in p;
      assert InSpan(itvs[k], itvs[k].end - 1);
      assert itvs[k].end - 1 in p;
      forall i | itvs[k].start <= i < itvs[k].end
        ensures mask[i] == v
      {
        assert InSpan(itvs[k], i);
        assert i in p;
      }
    }
  }

  lemma IntervalsMaximal(mask: seq<int>, v: int)
    ensures var itvs := MaskToIntervals(mask, v);
            && (forall k :: 0 <= k < |itvs| ==> 0 <= itvs[k].start < itvs[k].end <= |mask|)
            && (forall k :: 0 <= k < |itvs| && itvs[k].start > 0 ==> mask[itvs[k].start - 1] != v)
            && (forall k :: 0 <= k < |itvs| && itvs[k].end < |mask| ==> mask[itvs[k].end] != v)
  {
    var p := Positions(mask, v);
    var itvs := Runs(p);
    assert itvs == MaskToIntervals(mask, v);
    IntervalsHoldValue(mask, v);
    assert Ascending(p);
    RunsUnextendable(p);
    forall k | 0 <= k < |itvs| && itvs[k].start > 0
      ensures mask[itvs[k].start - 1] != v
    {
      assert 0 <= itvs[k].start - 1 < |mask|;
      assert itvs[k].start - 1 !in p;
    }
    forall k | 0 <= k < |itvs| && itvs[k].end < |mask|
      ensures mask[itvs[k].end] != v
    {
      assert 0 <= itvs[k].end < |mask|;
      assert itvs[k].end !in p;
    }
  }

  lemma IntervalsAscending(mask: seq<int>, v: int)
    ensures var itvs := MaskToIntervals(mask, v);
            forall j, k :: 0 <= j < k < |itvs| ==> itvs[j].end < itvs[k].start
  {
    var itvs := Runs(Positions(mask, v));
    RunsShape(Positions(mask, v));
    forall j, k | 0 <= j < k < |itvs|
      ensures itvs[j].end < itvs[k].start
    {
      SpansChain(itvs, j, k);
    }
  }

  lemma IntervalsCoverValue(mask: seq<int>, v: int)
    ensures var itvs := MaskToIntervals(mask, v);
            forall i :: 0 <= i < |mask| ==> (mask[i] == v <==> InSomeSpan(itvs, i))
  {
    var p := Positions(mask, v);
    RunsCover(p);
    forall i | 0 <= i < |mask|
      ensures mask[i] == v <==> InSomeSpan(Runs(p), i)
    {
      assert mask[i] == v <==> i in p;
    }
  }

  lemma {:induction false} SpansChain(spans: seq<Span>, j: int, k: int)
    requires forall m :: 0 <= m < |spans| ==> spans[m].start < spans[m].end
    requires forall m :: 0 <= m < |spans| - 1 ==> spans[m].end < spans[m + 1].start
    requires 0 <= j < k < |spans|
    ensures spans[j].end < spans[k].start
    decreases k - j
  {
    if j + 1 < k {
      SpansChain(spans, j + 1, k);
    }
  }

  /** A value absent from the mask has no intervals. */
  lemma AbsentValueHasNoIntervals(mask: seq<int>, v: int)
    requires v !in mask
    ensures MaskToIntervals(mask, v) == []
  {
    var p := Positions(mask, v);
    assert forall k :: 0 <= k < |p| ==> mask[p[k]] in mask;
  }

  // ---------------------------------------------------------------------------
  // The `vals` argument
  // ---------------------------------------------------------------------------

  /** `vals`: `None`, a single int, or a sequence of ints. */
  datatype ValsArg = AllValues | OneValue(v: int) | SomeValues(vs: seq<int>)

  /** A dictionary keyed by value, or the single list an int `vals` selects. */
  datatype IntervalsResult = PerValue(byValue: map<int, seq<Span>>) | Single(spans: seq<Span>)

  /** The dictionary built by the loop over `_vals`: a value listed twice has
      its runs appended twice. */
  function Accumulate(mask: seq<int>, vs: seq<int>): (m: map<int, seq<Span>>)
    ensures m.Keys == set v | v in vs
  {
    if |vs| == 0 then map[]
    else
      var m := Accumulate(mask, vs[..|vs| - 1]);
      var v := vs[|vs| - 1];
      m[v := (if v in m then m[v] else []) + MaskToIntervals(mask, v)]
  }

  /** `mask_to_intervals(mask, vals)` */
  function MaskToIntervalsFor(mask: seq<int>, vals: ValsArg): IntervalsResult {
    match vals
    case AllValues => PerValue(map v | v in mask :: MaskToIntervals(mask, v))
    case OneValue(v) => Single(MaskToIntervals(mask, v))
    case SomeValues(vs) => PerValue(Accumulate(mask, vs))
  }

  /** With `vals = None` the keys are the distinct mask values; with an int
      only that value's list is returned; with a duplicate-free sequence each
      listed value maps to its own intervals. */
  lemma {:induction false} MaskToIntervalsForKeys(mask: seq<int>, vals: ValsArg)
    ensures vals.AllValues? ==>
              && MaskToIntervalsFor(mask, vals).PerValue?
              && MaskToIntervalsFor(mask, vals).byValue.Keys == set v | v in mask
              && forall v :: v in mask ==> MaskToIntervalsFor(mask, vals).byValue[v] == MaskToIntervals(mask, v)
    ensures vals.OneValue? ==> MaskToIntervalsFor(mask, vals) == Single(MaskToIntervals(mask, vals.v))
    ensures vals.SomeValues? && (forall j, k :: 0 <= j < k < |vals.vs| ==> vals.vs[j] != vals.vs[k]) ==>
              && MaskToIntervalsFor(mask, vals).PerValue?
              && forall v :: v in vals.vs ==> MaskToIntervalsFor(mask, vals).byValue[v] == MaskToIntervals(mask, v)
  {
    if vals.SomeValues? && (forall j, k :: 0 <= j < k < |vals.vs| ==> vals.vs[j] != vals.vs[k]) {
      AccumulateDistinct(mask, vals.vs);
    }
  }

  lemma {:induction false} AccumulateDistinct(mask: seq<int>, vs: seq<int>)
    requires forall j, k :: 0 <= j < k < |vs| ==> vs[j] != vs[k]
    ensures forall v :: v in vs ==> Accumulate(mask, vs)[v] == MaskToIntervals(mask, v)
    decreases |vs|
  {
    if |vs| > 0 {
      var init := vs[..|vs| - 1];
      AccumulateDistinct(mask, init);
      assert vs[|vs| - 1] !in init;
      forall v | v in vs
        ensures Accumulate(mask, vs)[v] == MaskToIntervals(mask, v)
      {
        if v != vs[|vs| - 1] {
          assert v in init;
        }
      }
    }
  }
}
