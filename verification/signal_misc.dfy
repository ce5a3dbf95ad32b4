/** Signal-format helpers of `torch_ecg_bak/torch_ecg/utils/misc.py` (their
    copies in `utils/misc.py` behave the same and are modelled once here):
    fixed-length windowing, lead-axis normalisation, masks around critical
    points, boolean parsing and stepped differences. */
module SignalMisc {
  import opened Wrappers
  import opened PyCore
  import opened Grid

  // ---------------------------------------------------------------------------
  // Format names
  // ---------------------------------------------------------------------------

  /** `fmt.lower() in ["channel_last", "lead_last"]` */
  predicate IsLeadLast(fmt: string) {
    Lower(fmt) == "channel_last" || Lower(fmt) == "lead_last"
  }

  /** `fmt.lower() in ["lead_first", "channel_first"]` */
  predicate IsLeadFirst(fmt: string) {
    Lower(fmt) == "lead_first" || Lower(fmt) == "channel_first"
  }

  // ---------------------------------------------------------------------------
  // ensure_siglen
  // ---------------------------------------------------------------------------

  function Zeros(n: nat): (z: seq<real>)
    ensures |z| == n && forall i :: 0 <= i < n ==> z[i] == 0.0
  {
    seq(n, _ => 0.0)
  }

  /** Where the central window of `siglen` samples starts in a lead of `len` samples. */
  function CropStart(len: nat, siglen: nat): nat
    requires len >= siglen
  {
    FloorDiv(len - siglen, 2)
  }

  /** Zeros placed before the signal when it is `d` samples too short;
      the remaining `d - PadLeft(d)` go after it. */
  function PadLeft(d: nat): nat {
    FloorDiv(d, 2)
  }

  /** One lead brought to `siglen` samples: the central slice when the lead is
      long enough, otherwise the lead with zeros on both sides. */
  function WindowLead(lead: seq<real>, siglen: nat): (w: seq<real>)
    ensures |w| == siglen
  {
    if |lead| >= siglen then
      var start := CropStart(|lead|, siglen);
      Slice(lead, start, start + siglen)
    else
      var padLen := siglen - |lead|;
      Zeros(PadLeft(padLen)) + lead + Zeros(padLen - PadLeft(padLen))
  }

  /** Windowing of a lead-first array: every lead windowed alike. */
  function WindowLeads(values: Array2<real>, siglen: nat): (out: Array2<real>)
    requires values.Valid()
    ensures out.Valid() && out.rows == values.rows && out.cols == siglen
    ensures forall l :: 0 <= l < values.rows ==> out.cells[l] == WindowLead(values.cells[l], siglen)
  {
    Array2(values.rows, siglen, seq(values.rows, l requires 0 <= l < values.rows =>
                                      WindowLead(values.cells[l], siglen)))
  }

  /** `ensure_siglen(values, siglen, fmt)`: a lead-last array is transposed
      before windowing and transposed back afterwards. */
  function EnsureSiglen(values: Array2<real>, siglen: nat, fmt: string): (out: Array2<real>)
    requires values.Valid()
    ensures out.Valid()
    ensures !IsLeadLast(fmt) ==> out.rows == values.rows && out.cols == siglen
    ensures IsLeadLast(fmt) ==> out.rows == siglen && out.cols == values.cols
  {
    if IsLeadLast(fmt) then Transpose(WindowLeads(Transpose(values), siglen))
    else WindowLeads(values, siglen)
  }

  /** A long lead yields exactly its central `siglen` samples. */
  lemma CropIsCentral(lead: seq<real>, siglen: nat)
    requires |lead| >= siglen
    ensures forall k :: 0 <= k < siglen ==>
              WindowLead(lead, siglen)[k] == lead[(|lead| - siglen) / 2 + k]
  {
  }

  /** The offcut on the left and on the right of the crop differ by at most one
      sample, the larger one being on the right. */
  lemma CropIsBalanced(lead: seq<real>, siglen: nat)
    requires |lead| >= siglen
    ensures var left := CropStart(|lead|, siglen);
            var right := |lead| - siglen - left;
            left <= right <= left + 1
  {
  }

  /** A lead of exactly `siglen` samples is left as it is. */
  lemma WindowExactLengthIsIdentity(values: Array2<real>, fmt: string)
    requires values.Valid()
    ensures !IsLeadLast(fmt) ==> EnsureSiglen(values, values.cols, fmt) == values
    ensures IsLeadLast(fmt) ==> EnsureSiglen(values, values.rows, fmt) == values
  {
    if IsLeadLast(fmt) {
      var t := Transpose(values);
      var w := WindowLeads(t, values.rows);
      forall l | 0 <= l < t.rows
        ensures w.cells[l] == t.cells[l]
      {
        assert WindowLead(t.cells[l], values.rows) == t.cells[l][0..values.rows];
      }
      assert w == t;
      TransposeInvolution(values);
    } else {
      var w := WindowLeads(values, values.cols);
      forall l | 0 <= l < values.rows
        ensures w.cells[l] == values.cells[l]
      {
        assert WindowLead(values.cells[l], values.cols) == values.cells[l][0..values.cols];
      }
    }
  }

  /** A short lead is padded with `floor(d/2)` zeros before and `ceil(d/2)`
      after, the original samples unchanged in between. */
  lemma PadIsSymmetric(lead: seq<real>, siglen: nat)
    requires |lead| < siglen
    ensures var d := siglen - |lead|;
            var w := WindowLead(lead, siglen);
            && (forall k :: 0 <= k < d / 2 ==> w[k] == 0.0)
            && (forall k :: 0 <= k < |lead| ==> w[d / 2 + k] == lead[k])
            && (forall k :: d / 2 + |lead| <= k < siglen ==> w[k] == 0.0)
            && siglen - (d / 2 + |lead|) == d - d / 2
  {
  }

  /** In the lead-last layout sample `k` of lead `l` is `out.cells[k][l]`; it is
      the same sample the lead-first windowing would have produced. */
  lemma LeadLastWindowsEachLead(values: Array2<real>, siglen: nat, fmt: string)
    requires values.Valid() && IsLeadLast(fmt)
    ensures var out := EnsureSiglen(values, siglen, fmt);
            var t := Transpose(values);
            forall k, l :: 0 <= k < siglen && 0 <= l < values.cols ==>
              out.cells[k][l] == WindowLead(t.cells[l], siglen)[k]
  {
  }

  // ---------------------------------------------------------------------------
  // ensure_lead_fmt
  // ---------------------------------------------------------------------------

  /** `ensure_lead_fmt(values, n_leads, fmt)`: the axis of size `n_leads` is
      looked up; none, or both (a square array, whose numpy truth test is
      ambiguous), raise `ValueError`.  The array is transposed when its lead
      axis is not where `fmt` wants it. */
  function EnsureLeadFmt(values: Array2<real>, nLeads: int, fmt: string): (r: Result<Array2<real>>)
    requires values.Valid()
    ensures r.Err? <==> (values.rows == nLeads) == (values.cols == nLeads)
    ensures r.Err? ==> r.error.ValueError?
    ensures r.Ok? ==> r.value.Valid()
    ensures r.Ok? ==> r.value == values || r.value == Transpose(values)
    ensures r.Ok? && IsLeadFirst(fmt) ==> r.value.rows == nLeads
    ensures r.Ok? && IsLeadLast(fmt) ==> r.value.cols == nLeads
    ensures r.Ok? && !IsLeadFirst(fmt) && !IsLeadLast(fmt) ==> r.value == values
  {
    var onRows := values.rows == nLeads;
    var onCols := values.cols == nLeads;
    if onRows && onCols then Err(ValueError("ambiguous truth value of the lead axis"))
    else if !onRows && !onCols then Err(ValueError("not valid n_leads-lead signal"))
    else if (onCols && IsLeadFirst(fmt)) || (onRows && IsLeadLast(fmt)) then Ok(Transpose(values))
    else Ok(values)
  }

  /** Converting to lead-last and back to lead-first restores the array. */
  lemma LeadFmtRoundTrip(values: Array2<real>, nLeads: int)
    requires values.Valid() && values.rows == nLeads && values.cols != nLeads
    ensures var last := EnsureLeadFmt(values, nLeads, "lead_last");
            && last.Ok? && last.value.cols == nLeads
            && EnsureLeadFmt(last.value, nLeads, "lead_first") == Ok(values)
  {
    LeadLastName();
    LeadFirstName();
    TransposeInvolution(values);
  }

  lemma LeadLastName()
    ensures IsLeadLast("lead_last") && !IsLeadFirst("lead_last")
  {
    LowerOfLowercase("lead_last");
  }

  lemma LeadFirstName()
    ensures IsLeadFirst("lead_first") && !IsLeadLast("lead_first")
  {
    LowerOfLowercase("lead_first");
  }

  // ---------------------------------------------------------------------------
  // get_mask
  // ---------------------------------------------------------------------------

  /** `[max(0, cp - left_bias), min(n, cp + right_bias)]` */
  datatype Interval = Interval(lo: int, hi: int)

  /** Does `mask[..., itv.lo : itv.hi] = 1` write position `i` of a last axis of length `n`? */
  predicate Paints(itv: Interval, n: nat, i: int) {
    SliceBound(itv.lo, n) <= i < SliceBound(itv.hi, n)
  }

  function CriticalIntervals(n: nat, cps: seq<int>, leftBias: int, rightBias: int): (itvs: seq<Interval>)
    ensures |itvs| == |cps|
    ensures forall k :: 0 <= k < |cps| ==>
              itvs[k] == Interval(Max(0, cps[k] - leftBias), Min(n, cps[k] + rightBias))
  {
    seq(|cps|, k requires 0 <= k < |cps| => Interval(Max(0, cps[k] - leftBias), Min(n, cps[k] + rightBias)))
  }

  /** The row after `mask[..., lo:hi] = 1` for every interval in turn. */
  function PaintAll(row: seq<int>, itvs: seq<Interval>): (r: seq<int>)
    ensures |r| == |row|
    decreases |itvs|
  {
    if |itvs| == 0 then row
    else
      var itv := itvs[|itvs| - 1];
      var prev := PaintAll(row, itvs[..|itvs| - 1]);
      seq(|prev|, i requires 0 <= i < |prev| => if Paints(itv, |prev|, i) then 1 else prev[i])
  }

  /** `np.zeros(n, dtype=int)` painted with every interval. */
  function MaskRow(n: nat, itvs: seq<Interval>): (r: seq<int>)
    ensures |r| == n
  {
    PaintAll(seq(n, _ => 0), itvs)
  }

  predicate Covered(itvs: seq<Interval>, n: nat, i: int) {
    exists k :: 0 <= k < |itvs| && Paints(itvs[k], n, i)
  }

  /** A painted row of zeros is 1 exactly where some interval covers it. */
  lemma {:induction false} MaskRowCovers(n: nat, itvs: seq<Interval>)
    ensures forall i :: 0 <= i < n ==> MaskRow(n, itvs)[i] == (if Covered(itvs, n, i) then 1 else 0)
    decreases |itvs|
  {
    if |itvs| > 0 {
      var init := itvs[..|itvs| - 1];
      var last := itvs[|itvs| - 1];
      MaskRowCovers(n, init);
      forall i | 0 <= i < n
        ensures MaskRow(n, itvs)[i] == (if Covered(itvs, n, i) then 1 else 0)
      {
        assert MaskRow(n, itvs)[i] == (if Paints(last, n, i) then 1 else MaskRow(n, init)[i]);
        CoveredSplit(itvs, n, i);
      }
    }
  }

  lemma CoveredSplit(itvs: seq<Interval>, n: nat, i: int)
    requires |itvs| > 0
    ensures Covered(itvs, n, i) <==> Covered(itvs[..|itvs| - 1], n, i) || Paints(itvs[|itvs| - 1], n, i)
  {
    var init := itvs[..|itvs| - 1];
    if Covered(itvs, n, i) && !Paints(itvs[|itvs| - 1], n, i) {
      var k :| 0 <= k < |itvs| && Paints(itvs[k], n, i);
      assert init[k] == itvs[k];
    }
    if Covered(init, n, i) {
      var k :| 0 <= k < |init| && Paints(init[k], n, i);
      assert itvs[k] == init[k];
    }
  }

  datatype ShapeArg = ShapeInt(n: nat) | ShapeSeq(dims: seq<nat>)

  /** What `get_mask` returns: the mask array, flattened to the rows of its
      leading axes, the 0-d array of an empty shape, or the list of intervals. */
  datatype MaskResult = MaskArray(rows: seq<seq<int>>) | MaskScalar(value: int) | IntervalList(itvs: seq<Interval>)

  function Product(xs: seq<nat>): nat {
    if |xs| == 0 then 1 else xs[0] * Product(xs[1..])
  }

  function Dims(shape: ShapeArg): seq<nat> {
    match shape
    case ShapeInt(n) => [n]
    case ShapeSeq(d) => d
  }

  function LastDim(shape: ShapeArg): nat
    requires |Dims(shape)| > 0
  {
    Dims(shape)[|Dims(shape)| - 1]
  }

  function LeadingSize(shape: ShapeArg): nat
    requires |Dims(shape)| > 0
  {
    Product(Dims(shape)[..|Dims(shape)| - 1])
  }

  /** `get_mask(shape, critical_points, left_bias, right_bias, return_fmt)`.
      Every row along the last axis carries the same mask.  The intervals are
      built before the format is looked at, so an empty shape with critical
      points fails on `shape[-1]` first; an empty shape without them gives
      the 0-d zero array.  A `return_fmt` other than "mask" or "intervals"
      leaves the result unbound. */
  function GetMask(shape: ShapeArg, cps: seq<int>, leftBias: int, rightBias: int, fmt: string): (r: Result<MaskResult>)
    ensures r.Err? <==> (|Dims(shape)| == 0 && |cps| > 0) || (Lower(fmt) != "mask" && Lower(fmt) != "intervals")
    ensures r.Err? ==> (r.error.IndexError? <==> |Dims(shape)| == 0 && |cps| > 0)
    ensures r.Err? && !r.error.IndexError? ==> r.error.UnboundLocalError?
    ensures r.Ok? && |Dims(shape)| > 0 && Lower(fmt) == "intervals" ==>
              r.value == IntervalList(CriticalIntervals(LastDim(shape), cps, leftBias, rightBias))
    ensures r.Ok? && |Dims(shape)| > 0 && Lower(fmt) == "mask" ==>
              && r.value.MaskArray?
              && |r.value.rows| == LeadingSize(shape)
              && forall j :: 0 <= j < |r.value.rows| ==>
                   r.value.rows[j] == MaskRow(LastDim(shape), CriticalIntervals(LastDim(shape), cps, leftBias, rightBias))
    ensures r.Ok? && |Dims(shape)| == 0 ==>
              r.value == (if Lower(fmt) == "mask" then MaskScalar(0) else IntervalList([]))
  {
    if |Dims(shape)| == 0 && |cps| > 0 then
      Err(IndexError("tuple index out of range"))
    else if |Dims(shape)| == 0 then
      if Lower(fmt) == "mask" then Ok(MaskScalar(0))
      else if Lower(fmt) == "intervals" then Ok(IntervalList([]))
      else Err(UnboundLocalError("mask"))
    else
      var n := LastDim(shape);
      var itvs := CriticalIntervals(n, cps, leftBias, rightBias);
      if Lower(fmt) == "mask" then
        Ok(MaskArray(seq(LeadingSize(shape), _ => MaskRow(n, itvs))))
      else if Lower(fmt) == "intervals" then
        Ok(IntervalList(itvs))
      else
        Err(UnboundLocalError("mask"))
  }

  /** Is position `i` within `[max(0, cp - left), min(n, cp + right))` of some critical point? */
  predicate NearCritical(cps: seq<int>, n: nat, leftBias: int, rightBias: int, i: int) {
    exists cp :: cp in cps && Max(0, cp - leftBias) <= i < Min(n, cp + rightBias)
  }

  lemma CoveredIsNear(n: nat, cps: seq<int>, leftBias: int, rightBias: nat, i: int)
    requires forall k :: 0 <= k < |cps| ==> cps[k] >= 0
    requires Covered(CriticalIntervals(n, cps, leftBias, rightBias), n, i)
    ensures NearCritical(cps, n, leftBias, rightBias, i)
  {
    var itvs := CriticalIntervals(n, cps, leftBias, rightBias);
    var k :| 0 <= k < |itvs| && Paints(itvs[k], n, i);
    PaintsNear(n, cps[k], leftBias, rightBias, i);
    assert cps[k] in cps;
  }

  lemma NearIsCovered(n: nat, cps: seq<int>, leftBias: int, rightBias: nat, i: int)
    requires forall k :: 0 <= k < |cps| ==> cps[k] >= 0
    requires NearCritical(cps, n, leftBias, rightBias, i)
    ensures Covered(CriticalIntervals(n, cps, leftBias, rightBias), n, i)
  {
    var itvs := CriticalIntervals(n, cps, leftBias, rightBias);
    var cp :| cp in cps && Max(0, cp - leftBias) <= i < Min(n, cp + rightBias);
    var k :| 0 <= k < |cps| && cps[k] == cp;
    PaintsNear(n, cp, leftBias, rightBias, i);
    assert Paints(itvs[k], n, i);
  }

  /** One clamped interval paints `i` exactly when `i` lies within it. */
  lemma PaintsNear(n: nat, cp: int, leftBias: int, rightBias: nat, i: int)
    requires cp >= 0
    ensures Paints(Interval(Max(0, cp - leftBias), Min(n, cp + rightBias)), n, i) <==>
              Max(0, cp - leftBias) <= i < Min(n, cp + rightBias)
  {
    var lo, hi := Max(0, cp - leftBias), Min(n, cp + rightBias);
    assert SliceBound(lo, n) == Min(lo, n);
    assert SliceBound(hi, n) == hi;
  }

  /** With non-negative critical points and right bias, slicing never counts
      from the end, so the painted row is the union of the clamped intervals. */
  lemma CriticalRowIsUnion(n: nat, cps: seq<int>, leftBias: int, rightBias: nat)
    requires forall k :: 0 <= k < |cps| ==> cps[k] >= 0
    ensures forall i :: 0 <= i < n ==>
              MaskRow(n, CriticalIntervals(n, cps, leftBias, rightBias))[i] ==
                (if NearCritical(cps, n, leftBias, rightBias, i) then 1 else 0)
  {
    var itvs := CriticalIntervals(n, cps, leftBias, rightBias);
    MaskRowCovers(n, itvs);
    forall i | 0 <= i < n
      ensures MaskRow(n, itvs)[i] == (if NearCritical(cps, n, leftBias, rightBias, i) then 1 else 0)
    {
      if Covered(itvs, n, i) {
        CoveredIsNear(n, cps, leftBias, rightBias, i);
      }
      if NearCritical(cps, n, leftBias, rightBias, i) {
        NearIsCovered(n, cps, leftBias, rightBias, i);
      }
    }
  }

  /** The mask has the requested shape and is 1 exactly on the union of the
      clamped intervals around the (non-negative) critical points, 0 elsewhere,
      in every row of the leading axes. */
  lemma MaskIsUnionOfIntervals(shape: ShapeArg, cps: seq<int>, leftBias: int, rightBias: nat)
    requires |Dims(shape)| > 0
    requires forall k :: 0 <= k < |cps| ==> cps[k] >= 0
    ensures var r := GetMask(shape, cps, leftBias, rightBias, "mask");
            && r.Ok? && r.value.MaskArray? && |r.value.rows| == LeadingSize(shape)
            && (forall j :: 0 <= j < |r.value.rows| ==> |r.value.rows[j]| == LastDim(shape))
            && (forall j, i :: 0 <= j < |r.value.rows| && 0 <= i < LastDim(shape) ==>
                  r.value.rows[j][i] == (if NearCritical(cps, LastDim(shape), leftBias, rightBias, i) then 1 else 0))
  {
    LowerOfLowercase("mask");
    CriticalRowIsUnion(LastDim(shape), cps, leftBias, rightBias);
  }

  /** `"MAS\u212a".lower()` is `"mask"` in Python, so that format also returns
      the mask. */
  lemma KelvinSignFormatIsMask(shape: ShapeArg, cps: seq<int>, leftBias: int, rightBias: int)
    requires |Dims(shape)| > 0
    ensures GetMask(shape, cps, leftBias, rightBias, "MAS\U{212A}") == GetMask(shape, cps, leftBias, rightBias, "mask")
    ensures GetMask(shape, cps, leftBias, rightBias, "MAS\U{212A}").Ok?
  {
    var f := "MAS\U{212A}";
    assert Lower(f) == [LowerChar(f[0]), LowerChar(f[1]), LowerChar(f[2]), LowerChar(f[3])];
    assert Lower(f) == "mask";
    LowerOfLowercase("mask");
  }

  // ---------------------------------------------------------------------------
  // str2bool
  // ---------------------------------------------------------------------------

  datatype BoolOrStr = BoolValue(b: bool) | StrValue(s: string)

  predicate IsTrueWord(s: string) {
    var l := Lower(s);
    l == "yes" || l == "true" || l == "t" || l == "y" || l == "1"
  }

  predicate IsFalseWord(s: string) {
    var l := Lower(s);
    l == "no" || l == "false" || l == "f" || l == "n" || l == "0"
  }

  /** `str2bool(v)` */
  function Str2Bool(v: BoolOrStr): (r: Result<bool>)
    ensures v.BoolValue? ==> r == Ok(v.b)
    ensures v.StrValue? ==> (r == Ok(true) <==> IsTrueWord(v.s))
    ensures v.StrValue? ==> (r == Ok(false) <==> IsFalseWord(v.s))
    ensures v.StrValue? ==> (r.Err? <==> !IsTrueWord(v.s) && !IsFalseWord(v.s))
    ensures r.Err? ==> r.error.ValueError?
  {
    match v
    case BoolValue(b) => Ok(b)
    case StrValue(s) =>
      if IsTrueWord(s) then Ok(true)
      else if IsFalseWord(s) then Ok(false)
      else Err(ValueError("Boolean value expected."))
  }

  /** Case does not matter: "TRUE", "True" and "true" parse alike. */
  lemma Str2BoolIgnoresCase(s: string)
    ensures Str2Bool(StrValue(s)) == Str2Bool(StrValue(Lower(s)))
  {
    LowerIdempotent(s);
  }

  // ---------------------------------------------------------------------------
  // diff_with_step
  // ---------------------------------------------------------------------------

  /** numpy's `x - y` on 1-d arrays, with broadcasting of a length-1 operand. */
  function BroadcastSub(x: seq<real>, y: seq<real>): (r: Result<seq<real>>)
    ensures |x| == |y| ==> r.Ok? && |r.value| == |x|
    ensures |x| == |y| ==> forall i :: 0 <= i < |x| ==> r.value[i] == x[i] - y[i]
    ensures r.Err? <==> |x| != |y| && |x| != 1 && |y| != 1
  {
    if |x| == |y| then Ok(seq(|x|, i requires 0 <= i < |x| => x[i] - y[i]))
    else if |x| == 1 then Ok(seq(|y|, i requires 0 <= i < |y| => x[0] - y[i]))
    else if |y| == 1 then Ok(seq(|x|, i requires 0 <= i < |x| => x[i] - y[0]))
    else Err(ValueError("operands could not be broadcast together"))
  }

  /** `diff_with_step(a, step)`: `a[step:] - a[:-step]`, refused when `step >= len(a)`. */
  function DiffWithStep(a: seq<real>, step: int): (r: Result<seq<real>>)
    ensures step >= |a| ==> r.Err? && r.error.ValueError?
    ensures 1 <= step < |a| ==> r.Ok? && |r.value| == |a| - step
    ensures 1 <= step < |a| ==> forall n :: 0 <= n < |a| - step ==> r.value[n] == a[n + step] - a[n]
  {
    if step >= |a| then Err(ValueError("step should be less than the length of `a`"))
    else BroadcastSub(Slice(a, step, |a|), Slice(a, 0, -step))
  }

  /** A second-order difference is the difference of differences:
      `a[n+2s] - a[n]` splits at `a[n+s]`. */
  lemma DiffWithStepTelescopes(a: seq<real>, s: int)
    requires 1 <= s && 2 * s < |a|
    ensures var d1 := DiffWithStep(a, s).value;
            var d2 := DiffWithStep(a, 2 * s).value;
            forall n :: 0 <= n < |a| - 2 * s ==> d2[n] == d1[n] + d1[n + s]
  {
  }
}
