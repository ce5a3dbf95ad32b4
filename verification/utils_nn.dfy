/** Shape arithmetic of `utils/utils_nn.py`: re-indexing predictions into a
    larger class vocabulary, the output shape of convolution, pooling and
    transposed-convolution layers, and the receptive field of a stack of
    layers.  Sizes are exact integers; the floating-point detour of the
    source's `floor(x / s + 1)` is not modelled. */
module UtilsNN {
  import opened Wrappers
  import opened PyCore
  import opened Grid

  // ---------------------------------------------------------------------------
  // extend_predictions
  // ---------------------------------------------------------------------------

  /** A prediction vector of one record, or a matrix with one row per record. */
  datatype Preds = Preds1(v: seq<real>) | Preds2(a: Array2<real>)

  /** `np.atleast_2d(preds)` */
  function AtLeast2D(preds: Preds): (a: Array2<real>)
    requires preds.Preds2? ==> preds.a.Valid()
    ensures a.Valid()
  {
    match preds
    case Preds1(v) => Array2(1, |v|, [v])
    case Preds2(a) => a
  }

  predicate SubsetOf(classes: seq<string>, extended: seq<string>) {
    forall c :: c in classes ==> c in extended
  }

  /** `extended_preds[..., j] = column`, on every row. */
  function SetColumn(a: Array2<real>, j: nat, column: seq<real>): (r: Array2<real>)
    requires a.Valid() && j < a.cols && |column| == a.rows
    ensures r.Valid() && r.rows == a.rows && r.cols == a.cols
    ensures forall i, k :: 0 <= i < a.rows && 0 <= k < a.cols ==>
              r.cells[i][k] == (if k == j then column[i] else a.cells[i][k])
  {
    Array2(a.rows, a.cols, seq(a.rows, i requires 0 <= i < a.rows =>
      seq(a.cols, k requires 0 <= k < a.cols => if k == j then column[i] else a.cells[i][k])))
  }

  function Column(a: Array2<real>, j: nat): (c: seq<real>)
    requires a.Valid() && j < a.cols
    ensures |c| == a.rows && forall i :: 0 <= i < a.rows ==> c[i] == a.cells[i][j]
  {
    seq(a.rows, i requires 0 <= i < a.rows => a.cells[i][j])
  }

  function ZeroArray(rows: nat, cols: nat): (z: Array2<real>)
    ensures z.Valid() && z.rows == rows && z.cols == cols
    ensures forall i, k :: 0 <= i < rows && 0 <= k < cols ==> z.cells[i][k] == 0.0
  {
    Array2(rows, cols, seq(rows, _ => seq(cols, _ => 0.0)))
  }

  /** The loop of `extend_predictions` after its first `n` classes. */
  function Fill(a: Array2<real>, classes: seq<string>, extended: seq<string>, n: nat): (r: Array2<real>)
    requires a.Valid() && a.cols == |classes| && SubsetOf(classes, extended) && n <= |classes|
    ensures r.Valid() && r.rows == a.rows && r.cols == |extended|
  {
    if n == 0 then ZeroArray(a.rows, |extended|)
    else
      SetColumn(Fill(a, classes, extended, n - 1), IndexOf(extended, classes[n - 1]), Column(a, n - 1))
  }

  /** The input column that ends up in output column `j` after the first `n`
      classes: the last class whose first position in `extended` is `j`. */
  function SourceColumn(classes: seq<string>, extended: seq<string>, j: nat, n: nat): (src: Option<nat>)
    requires SubsetOf(classes, extended) && n <= |classes|
    ensures src.Some? ==> src.value < n && IndexOf(extended, classes[src.value]) == j
    ensures src.None? ==> forall i :: 0 <= i < n ==> IndexOf(extended, classes[i]) != j
  {
    if n == 0 then None
    else if IndexOf(extended, classes[n - 1]) == j then Some(n - 1)
    else SourceColumn(classes, extended, j, n - 1)
  }

  /** The columns written by the loop are exactly those `SourceColumn` names;
      every other column keeps its zero. */
  lemma {:induction false} FillTakesSourceColumns(a: Array2<real>, classes: seq<string>,
                                                  extended: seq<string>, n: nat, i: nat, j: nat)
    requires a.Valid() && a.cols == |classes| && SubsetOf(classes, extended) && n <= |classes|
    requires i < a.rows && j < |extended|
    ensures Fill(a, classes, extended, n).cells[i][j] ==
              (match SourceColumn(classes, extended, j, n)
               case Some(s) => a.cells[i][s]
               case None => 0.0)
    decreases n
  {
    if n > 0 {
      FillTakesSourceColumns(a, classes, extended, n - 1, i, j);
    }
  }

  datatype Extended = Extended1(v: seq<real>) | Extended2(a: Array2<real>)

  /** `extend_predictions(preds, classes, extended_classes)` */
  function ExtendPredictions(preds: Preds, classes: seq<string>, extended: seq<string>)
    : (r: Result<Extended>)
    requires preds.Preds2? ==> preds.a.Valid()
    ensures r.Err? <==> AtLeast2D(preds).cols != |classes| || !SubsetOf(classes, extended)
    ensures r.Err? ==> r.error.AssertionError?
    ensures r.Ok? ==> (preds.Preds1? <==> r.value.Extended1?)
    ensures r.Ok? && r.value.Extended1? ==> |r.value.v| == |extended|
    ensures r.Ok? && r.value.Extended2? ==>
              r.value.a.Valid() && r.value.a.rows == preds.a.rows && r.value.a.cols == |extended|
  {
    var a := AtLeast2D(preds);
    if a.cols != |classes| then Err(AssertionError("`pred` indicates a different number of classes"))
    else if !SubsetOf(classes, extended) then Err(AssertionError("`extended_classes` is not a superset of `classes`"))
    else
      var e := Fill(a, classes, extended, |classes|);
      if preds.Preds1? then Ok(Extended1(e.cells[0])) else Ok(Extended2(e))
  }

  /** With distinct classes, output column `extended.index(classes[k])` is
      written by class `k` only. */
  lemma SourceOfDistinct(classes: seq<string>, extended: seq<string>, k: nat)
    requires SubsetOf(classes, extended) && k < |classes|
    requires forall p, q :: 0 <= p < q < |classes| ==> classes[p] != classes[q]
    ensures SourceColumn(classes, extended, IndexOf(extended, classes[k]), |classes|) == Some(k)
  {
    var j := IndexOf(extended, classes[k]);
    var src := SourceColumn(classes, extended, j, |classes|);
    assert src.Some?;
  }

  /** With distinct classes the loop moves input column `k` to output column
      `extended.index(classes[k])`. */
  lemma FillMovesColumns(a: Array2<real>, classes: seq<string>, extended: seq<string>)
    requires a.Valid() && a.cols == |classes| && SubsetOf(classes, extended)
    requires forall p, q :: 0 <= p < q < |classes| ==> classes[p] != classes[q]
    ensures var e := Fill(a, classes, extended, |classes|);
            forall i, k :: 0 <= i < a.rows && 0 <= k < |classes| ==>
              e.cells[i][IndexOf(extended, classes[k])] == a.cells[i][k]
  {
    forall i, k | 0 <= i < a.rows && 0 <= k < |classes|
      ensures Fill(a, classes, extended, |classes|).cells[i][IndexOf(extended, classes[k])] == a.cells[i][k]
    {
      SourceOfDistinct(classes, extended, k);
      FillTakesSourceColumns(a, classes, extended, |classes|, i, IndexOf(extended, classes[k]));
    }
  }

  /** A written column is the first position of a name in `classes`. */
  lemma SourceColumnIsFirstOccurrence(classes: seq<string>, extended: seq<string>, j: nat)
    requires SubsetOf(classes, extended) && j < |extended|
    ensures var src := SourceColumn(classes, extended, j, |classes|);
            src.Some? ==> extended[j] in classes && IndexOf(extended, extended[j]) == j
  {
  }

  /** Output columns that no class maps to stay zero: those holding a name
      outside `classes`, and later repeats of a name in `extended`. */
  lemma FillZeroElsewhere(a: Array2<real>, classes: seq<string>, extended: seq<string>, i: nat, j: nat)
    requires a.Valid() && a.cols == |classes| && SubsetOf(classes, extended)
    requires i < a.rows && j < |extended|
    requires extended[j] !in classes || IndexOf(extended, extended[j]) != j
    ensures Fill(a, classes, extended, |classes|).cells[i][j] == 0.0
  {
    FillTakesSourceColumns(a, classes, extended, |classes|, i, j);
    SourceColumnIsFirstOccurrence(classes, extended, j);
  }

  /** A column of the extended classes that no class is moved to: its name is
      not among `classes`, or it repeats a name met earlier in `extended`. */
  predicate Unfilled(classes: seq<string>, extended: seq<string>, j: nat)
    requires j < |extended|
  {
    extended[j] !in classes || IndexOf(extended, extended[j]) != j
  }

  /** With distinct classes, `extend_predictions` moves the prediction of class
      `k` to position `extended_classes.index(classes[k])` and leaves every
      other position zero. */
  lemma ExtendPredictionsMovesColumns(preds: Preds, classes: seq<string>, extended: seq<string>)
    requires preds.Preds2? ==> preds.a.Valid()
    requires AtLeast2D(preds).cols == |classes| && SubsetOf(classes, extended)
    requires forall p, q :: 0 <= p < q < |classes| ==> classes[p] != classes[q]
    ensures var r := ExtendPredictions(preds, classes, extended);
            && r.Ok?
            && (preds.Preds2? ==>
                  && (forall i, k :: 0 <= i < preds.a.rows && 0 <= k < |classes| ==>
                        r.value.a.cells[i][IndexOf(extended, classes[k])] == preds.a.cells[i][k])
                  && (forall i, j :: 0 <= i < preds.a.rows && 0 <= j < |extended| && Unfilled(classes, extended, j) ==>
                        r.value.a.cells[i][j] == 0.0))
            && (preds.Preds1? ==>
                  && (forall k :: 0 <= k < |classes| ==> r.value.v[IndexOf(extended, classes[k])] == preds.v[k])
                  && (forall j :: 0 <= j < |extended| && Unfilled(classes, extended, j) ==> r.value.v[j] == 0.0))
  {
    var a := AtLeast2D(preds);
    var e := Fill(a, classes, extended, |classes|);
    FillMovesColumns(a, classes, extended);
    forall i, j | 0 <= i < a.rows && 0 <= j < |extended| && Unfilled(classes, extended, j)
      ensures e.cells[i][j] == 0.0
    {
      FillZeroElsewhere(a, classes, extended, i, j);
    }
    if preds.Preds1? {
      assert forall k :: 0 <= k < |classes| ==> a.cells[0][k] == preds.v[k];
      assert forall k :: 0 <= k < |classes| ==> e.cells[0][IndexOf(extended, classes[k])] == a.cells[0][k];
      assert forall j :: 0 <= j < |extended| && Unfilled(classes, extended, j) ==> e.cells[0][j] == 0.0;
    }
  }

  // ---------------------------------------------------------------------------
  // compute_output_shape
  // ---------------------------------------------------------------------------

  datatype LayerKind = Conv | MaxPool | AvgPool | Deconv

  /** The layer type, lower-cased with every '_' removed, among the twelve names
      the function accepts. */
  function LayerKindOf(layerType: string): (k: Option<LayerKind>)
    ensures var lt := RemoveChar(Lower(layerType), '_');
            && (k == Some(Conv) <==> lt == "conv" || lt == "convolution")
            && (k == Some(MaxPool) <==> lt == "maxpool" || lt == "maxpooling")
            && (k == Some(AvgPool) <==>
                  (lt == "avgpool" || lt == "avgpooling" || lt == "averagepool" || lt == "averagepooling"))
            && (k == Some(Deconv) <==>
                  (lt == "deconv" || lt == "deconvolution" || lt == "transposeconv" || lt == "transposeconvolution"))
  {
    var lt := RemoveChar(Lower(layerType), '_');
    if lt == "conv" || lt == "convolution" then Some(Conv)
    else if lt == "maxpool" || lt == "maxpooling" then Some(MaxPool)
    else if lt == "avgpool" || lt == "avgpooling" || lt == "averagepool" || lt == "averagepooling" then Some(AvgPool)
    else if lt == "deconv" || lt == "deconvolution" || lt == "transposeconv" || lt == "transposeconvolution" then Some(Deconv)
    else None
  }

  /** A layer parameter given as one integer or as one integer per spatial dimension. */
  datatype IntOrList = Scalar(n: int) | PerDim(ns: seq<int>)

  /** `list(repeat(p, dim))` for an integer, the list itself when its length is `dim`. */
  function Expand(p: IntOrList, dim: nat): (r: Result<seq<int>>)
    ensures r.Err? <==> p.PerDim? && |p.ns| != dim
    ensures r.Err? ==> r.error.ValueError?
    ensures r.Ok? ==> |r.value| == dim
    ensures r.Ok? && p.Scalar? ==> forall i :: 0 <= i < dim ==> r.value[i] == p.n
    ensures r.Ok? && p.PerDim? ==> r.value == p.ns
  {
    match p
    case Scalar(n) => Ok(seq(dim, _ => n))
    case PerDim(ns) =>
      if |ns| == dim then Ok(ns)
      else Err(ValueError("input and kernel have different numbers of dimensions"))
  }

  predicate AllNone(dims: seq<Option<int>>) {
    forall i :: 0 <= i < |dims| ==> dims[i].None?
  }

  predicate AnyNone(dims: seq<Option<int>>) {
    exists i :: 0 <= i < |dims| && dims[i].None?
  }

  /** Channels of the output: the filter count of a (transposed) convolution,
      the input's channel entry for a pooling layer, read before the rank is
      checked (so a too-short shape fails on indexing). */
  function OutChannels(kind: LayerKind, input: seq<Option<int>>, numFilters: Option<int>,
                       channelLast: bool): (r: Result<Option<int>>)
    ensures (kind == Conv || kind == Deconv) ==> r == Ok(numFilters)
    ensures (kind == MaxPool || kind == AvgPool) ==>
              if channelLast then (if |input| == 0 then r.Err? && r.error.IndexError?
                                   else r == Ok(input[|input| - 1]))
              else (if |input| < 2 then r.Err? && r.error.IndexError? else r == Ok(input[1]))
  {
    match kind
    case Conv => Ok(numFilters)
    case Deconv => Ok(numFilters)
    case _ =>
      if channelLast then
        if |input| == 0 then Err(IndexError("tuple index out of range")) else Ok(input[|input| - 1])
      else
        if |input| < 2 then Err(IndexError("tuple index out of range")) else Ok(input[1])
  }

  /** The size subtracted before dividing by the stride. */
  function MinusTerm(kind: LayerKind, d: int, k: int): int {
    if kind == AvgPool then k else d * (k - 1) + 1
  }

  /** Size of one spatial dimension after a convolution or pooling layer. */
  function PooledSize(kind: LayerKind, i: int, p: int, d: int, k: int, s: int): (r: Result<int>)
    ensures r.Err? <==> s == 0
    ensures r.Err? ==> r.error == ZeroDivisionError
  {
    if s == 0 then Err(ZeroDivisionError) else Ok(FloorDiv(i + 2 * p - MinusTerm(kind, d, k), s) + 1)
  }

  /** For a positive stride the output size `n` is the number of whole strides
      that fit the padded, kernel-reduced extent `x`, plus one:
      `s(n-1) <= x < sn`. */
  lemma PooledSizeBounds(kind: LayerKind, i: int, p: int, d: int, k: int, s: int)
    requires s > 0
    ensures var x := i + 2 * p - MinusTerm(kind, d, k);
            var n := PooledSize(kind, i, p, d, k, s).value;
            s * (n - 1) <= x < s * n
  {
  }

  /** Size of one spatial dimension after a transposed convolution. */
  function DeconvSize(i: int, p: int, o: int, d: int, k: int, s: int): int {
    (i - 1) * s - 2 * p + d * (k - 1) + o + 1
  }

  /** The output size of one spatial dimension, once the stride is known to
      be usable: `(i + 2p - d(k-1) - 1) // s + 1` for a convolution or
      max-pooling layer, `(i + 2p - k) // s + 1` for average pooling and
      `(i-1)s - 2p + d(k-1) + o + 1` for a transposed convolution. */
  function SizeFormula(kind: LayerKind, i: int, p: int, o: int, d: int, k: int, s: int): int
    requires kind == Deconv || s != 0
  {
    if kind == Deconv then DeconvSize(i, p, o, d, k, s) else PooledSize(kind, i, p, d, k, s).value
  }

  /** The spatial output sizes, dimension by dimension; the first zero stride fails. */
  function SpatialSizes(kind: LayerKind, sizes: seq<int>, ks: seq<int>, ss: seq<int>, ps: seq<int>,
                        os: seq<int>, ds: seq<int>): (r: Result<seq<int>>)
    requires |ks| == |ss| == |ps| == |os| == |ds| == |sizes|
    ensures r.Err? <==> kind != Deconv && 0 in ss
    ensures r.Err? ==> r.error == ZeroDivisionError
    ensures r.Ok? ==>
              && |r.value| == |sizes|
              && (kind == Deconv || 0 !in ss)
              && forall j :: 0 <= j < |sizes| ==>
                   r.value[j] == SizeFormula(kind, sizes[j], ps[j], os[j], ds[j], ks[j], ss[j])
  {
    if |sizes| == 0 then Ok([])
    else
      var n := |sizes| - 1;
      var init := SpatialSizes(kind, sizes[..n], ks[..n], ss[..n], ps[..n], os[..n], ds[..n]);
      assert ss == ss[..n] + [ss[n]];
      if init.Err? then init
      else if kind == Deconv then Ok(init.value + [DeconvSize(sizes[n], ps[n], os[n], ds[n], ks[n], ss[n])])
      else
        var last := PooledSize(kind, sizes[n], ps[n], ds[n], ks[n], ss[n]);
        if last.Err? then Err(last.error) else Ok(init.value + [last.value])
  }

  function Somes(xs: seq<int>): (r: seq<Option<int>>)
    ensures |r| == |xs| && forall i :: 0 <= i < |xs| ==> r[i] == Some(xs[i])
  {
    seq(|xs|, i requires 0 <= i < |xs| => Some(xs[i]))
  }

  function Values(xs: seq<Option<int>>): (r: seq<int>)
    requires !AnyNone(xs)
    ensures |r| == |xs| && forall i :: 0 <= i < |xs| ==> xs[i] == Some(r[i])
  {
    seq(|xs|, i requires 0 <= i < |xs| => xs[i].value)
  }

  /** The spatial entries of a shape: between batch and channel, or after both. */
  function SpatialDims(input: seq<Option<int>>, channelLast: bool): seq<Option<int>>
    requires |input| >= 3
  {
    if channelLast then input[1..|input| - 1] else input[2..]
  }

  /** `compute_output_shape(layer_type, input_shape, num_filters, kernel_size,
      stride, padding, output_padding, dilation, channel_last)`; `None`
      entries of the shape are `None` options. An unknown layer type fails its
      assertion, a known one selects the layer kind. */
  function ComputeOutputShape(layerType: string, input: seq<Option<int>>, numFilters: Option<int>,
                              kernel: IntOrList, stride: IntOrList, padding: IntOrList,
                              outputPadding: IntOrList, dilation: IntOrList, channelLast: bool)
    : (r: Result<seq<Option<int>>>)
    ensures LayerKindOf(layerType).None? ==> r.Err? && r.error.AssertionError?
    ensures LayerKindOf(layerType).Some? ==>
              r == ShapeOfKind(LayerKindOf(layerType).value, input, numFilters, kernel, stride, padding,
                               outputPadding, dilation, channelLast)
  {
    match LayerKindOf(layerType)
    case None => Err(AssertionError("lt in __TYPES__"))
    case Some(kind) =>
      ShapeOfKind(kind, input, numFilters, kernel, stride, padding, outputPadding, dilation, channelLast)
  }

  /** The output shape for a known layer kind: the channel count is read first,
      then the rank is checked. The batch entry is copied and the channel entry
      is the output channel count. */
  function ShapeOfKind(kind: LayerKind, input: seq<Option<int>>, numFilters: Option<int>,
                       kernel: IntOrList, stride: IntOrList, padding: IntOrList,
                       outputPadding: IntOrList, dilation: IntOrList, channelLast: bool)
    : (r: Result<seq<Option<int>>>)
    ensures var ch := OutChannels(kind, input, numFilters, channelLast);
            && (ch.Err? ==> r == Err(ch.error))
            && (ch.Ok? && |input| < 3 ==> r.Err? && r.error.AssertionError?)
    ensures r.Ok? ==> |input| >= 3 && |r.value| == |input| && r.value[0] == input[0]
    ensures r.Ok? ==> var ch := OutChannels(kind, input, numFilters, channelLast).value;
                      if channelLast then r.value[|input| - 1] == ch else r.value[1] == ch
    ensures var ch := OutChannels(kind, input, numFilters, channelLast);
            ch.Ok? && |input| >= 3 ==>
              r == ShapeWithChannels(kind, input, ch.value, kernel, stride, padding, outputPadding,
                                     dilation, channelLast)
  {
    var outChannels :- OutChannels(kind, input, numFilters, channelLast);
    if |input| < 3 then Err(AssertionError("input_shape should be of length at least 3"))
    else ShapeWithChannels(kind, input, outChannels, kernel, stride, padding, outputPadding, dilation, channelLast)
  }

  /** With the channel count known: all-`None` spatial dimensions give an
      all-`None` output unless the channel count is unknown too; partly known
      ones are rejected. */
  function ShapeWithChannels(kind: LayerKind, input: seq<Option<int>>, ch: Option<int>,
                             kernel: IntOrList, stride: IntOrList, padding: IntOrList,
                             outputPadding: IntOrList, dilation: IntOrList, channelLast: bool)
    : (r: Result<seq<Option<int>>>)
    requires |input| >= 3
    ensures var spatial := SpatialDims(input, channelLast);
            && (AllNone(spatial) ==> (r.Err? <==> ch.None?))
            && (AllNone(spatial) && r.Err? ==> r.error.ValueError?)
            && (AllNone(spatial) && r.Ok? ==> |r.value| == |input| && AllNone(SpatialDims(r.value, channelLast)))
            && (AnyNone(spatial) && !AllNone(spatial) ==> r.Err? && r.error.ValueError?)
            && (!AnyNone(spatial) ==>
                  var prm := ExpandAll(kernel, stride, padding, outputPadding, dilation, |input| - 2);
                  && (prm.Err? ==> r == Err(prm.error))
                  && (prm.Ok? ==> r == SizedShape(kind, input, ch, prm.value, channelLast)))
    ensures r.Ok? ==> |r.value| == |input| && r.value[0] == input[0] &&
                      if channelLast then r.value[|input| - 1] == ch else r.value[1] == ch
  {
    var spatial := SpatialDims(input, channelLast);
    if AllNone(spatial) then
      assert spatial[0].None?;
      if ch.None? then Err(ValueError("out channel dimension and spatial dimensions are all `None`"))
      else Ok(UnknownSpatialShape(input, ch, channelLast))
    else if AnyNone(spatial) then Err(ValueError("spatial dimensions should be all `None`, or all not `None`"))
    else
      var prm :- ExpandAll(kernel, stride, padding, outputPadding, dilation, |input| - 2);
      SizedShape(kind, input, ch, prm, channelLast)
  }

  /** The shape returned when no spatial size is known: the input shape with
      its channel entry replaced. */
  function UnknownSpatialShape(input: seq<Option<int>>, ch: Option<int>, channelLast: bool)
    : (r: seq<Option<int>>)
    requires |input| >= 3 && AllNone(SpatialDims(input, channelLast))
    ensures |r| == |input| && r[0] == input[0] && AllNone(SpatialDims(r, channelLast))
    ensures if channelLast then r[|input| - 1] == ch else r[1] == ch
  {
    if channelLast then input[..|input| - 1] + [ch] else [input[0], ch] + input[2..]
  }

  /** The five layer parameters, one value per spatial dimension each. */
  datatype Params = Params(ks: seq<int>, ss: seq<int>, ps: seq<int>, os: seq<int>, ds: seq<int>)
  {
    predicate Fits(dim: nat) {
      |ks| == dim && |ss| == dim && |ps| == dim && |os| == dim && |ds| == dim
    }
  }

  /** Kernel size, stride, padding, output padding and dilation expanded in
      that order; the first list of the wrong length is a `ValueError`. */
  function ExpandAll(kernel: IntOrList, stride: IntOrList, padding: IntOrList,
                     outputPadding: IntOrList, dilation: IntOrList, dim: nat): (r: Result<Params>)
    ensures r.Ok? <==> Expand(kernel, dim).Ok? && Expand(stride, dim).Ok? && Expand(padding, dim).Ok? &&
                       Expand(outputPadding, dim).Ok? && Expand(dilation, dim).Ok?
    ensures r.Err? ==> r.error.ValueError?
    ensures r.Ok? ==> r.value.Fits(dim) &&
                      r.value == Params(Expand(kernel, dim).value, Expand(stride, dim).value,
                                        Expand(padding, dim).value, Expand(outputPadding, dim).value,
                                        Expand(dilation, dim).value)
  {
    var ks :- Expand(kernel, dim);
    var ss :- Expand(stride, dim);
    var ps :- Expand(padding, dim);
    var os :- Expand(outputPadding, dim);
    var ds :- Expand(dilation, dim);
    Ok(Params(ks, ss, ps, os, ds))
  }

  /** With every spatial size known and the parameters expanded: a zero stride
      of a convolution or pooling layer divides by zero, and otherwise every
      spatial entry is the size formula of its dimension. */
  function SizedShape(kind: LayerKind, input: seq<Option<int>>, ch: Option<int>, prm: Params,
                      channelLast: bool): (r: Result<seq<Option<int>>>)
    requires |input| >= 3 && !AnyNone(SpatialDims(input, channelLast)) && prm.Fits(|input| - 2)
    ensures r.Err? <==> kind != Deconv && 0 in prm.ss
    ensures r.Err? ==> r.error == ZeroDivisionError
    ensures r.Ok? ==> |r.value| == |input| && r.value[0] == input[0] &&
                      if channelLast then r.value[|input| - 1] == ch else r.value[1] == ch
    ensures r.Ok? ==>
              var sizes := Values(SpatialDims(input, channelLast));
              var first := if channelLast then 1 else 2;
              && (kind == Deconv || 0 !in prm.ss)
              && forall j :: 0 <= j < |input| - 2 ==>
                   r.value[first + j] ==
                     Some(SizeFormula(kind, sizes[j], prm.ps[j], prm.os[j], prm.ds[j], prm.ks[j], prm.ss[j]))
  {
    var sizes :- SpatialSizes(kind, Values(SpatialDims(input, channelLast)),
                              prm.ks, prm.ss, prm.ps, prm.os, prm.ds);
    var pre := if channelLast then [input[0]] else [input[0], ch];
    var post := if channelLast then [ch] else [];
    forall j | 0 <= j < |sizes|
      ensures (pre + Somes(sizes) + post)[|pre| + j] == Some(sizes[j])
    {
      PlaceMiddle(pre, Somes(sizes), post, j);
    }
    Ok(pre + Somes(sizes) + post)
  }

  /** Element `j` of the middle part of a three-part concatenation. */
  lemma PlaceMiddle<T>(pre: seq<T>, mid: seq<T>, post: seq<T>, j: nat)
    requires j < |mid|
    ensures (pre + mid + post)[|pre| + j] == mid[j]
  {
  }

  /** A fully known input of a known layer kind, with parameter lists that fit
      and (for a convolution or pooling layer) no zero stride, has an output
      shape, given dimension by dimension by the size formulas. */
  lemma ComputeOutputShapeSucceeds(layerType: string, kind: LayerKind, input: seq<Option<int>>,
                                   numFilters: Option<int>, kernel: IntOrList, stride: IntOrList,
                                   padding: IntOrList, outputPadding: IntOrList, dilation: IntOrList,
                                   channelLast: bool, prm: Params)
    requires LayerKindOf(layerType) == Some(kind) && |input| >= 3
    requires !AnyNone(SpatialDims(input, channelLast))
    requires ExpandAll(kernel, stride, padding, outputPadding, dilation, |input| - 2) == Ok(prm)
    requires kind != Deconv ==> 0 !in prm.ss
    ensures var r := ComputeOutputShape(layerType, input, numFilters, kernel, stride, padding,
                                        outputPadding, dilation, channelLast);
            var ch := OutChannels(kind, input, numFilters, channelLast);
            && ch.Ok?
            && r == SizedShape(kind, input, ch.value, prm, channelLast)
            && r.Ok?
  {
    var ch := OutChannels(kind, input, numFilters, channelLast);
    assert ch.Ok?;
    var spatial := SpatialDims(input, channelLast);
    assert !AllNone(spatial) by {
      assert spatial[0].Some?;
    }
    var inner := ShapeWithChannels(kind, input, ch.value, kernel, stride, padding, outputPadding,
                                   dilation, channelLast);
    assert inner == SizedShape(kind, input, ch.value, prm, channelLast);
    assert ShapeOfKind(kind, input, numFilters, kernel, stride, padding, outputPadding,
                       dilation, channelLast) == inner;
  }

  /** The names the four wrappers pass select the intended layer kinds. */
  lemma ConvLayerName()
    ensures LayerKindOf("conv") == Some(Conv)
  {
    LowerOfLowercase("conv");
    RemoveCharAbsent("conv", '_');
  }

  lemma MaxPoolLayerName()
    ensures LayerKindOf("maxpool") == Some(MaxPool)
  {
    LowerOfLowercase("maxpool");
    RemoveCharAbsent("maxpool", '_');
  }

  lemma AvgPoolLayerName()
    ensures LayerKindOf("avgpool") == Some(AvgPool)
  {
    LowerOfLowercase("avgpool");
    RemoveCharAbsent("avgpool", '_');
  }

  lemma DeconvLayerName()
    ensures LayerKindOf("deconv") == Some(Deconv)
  {
    LowerOfLowercase("deconv");
    RemoveCharAbsent("deconv", '_');
  }

  /** `compute_conv_output_shape`: a convolution without output padding. */
  function ConvOutputShape(input: seq<Option<int>>, numFilters: Option<int>, kernel: IntOrList,
                           stride: IntOrList, padding: IntOrList, dilation: IntOrList, channelLast: bool)
    : (r: Result<seq<Option<int>>>)
    ensures r == ShapeOfKind(Conv, input, numFilters, kernel, stride, padding, Scalar(0), dilation, channelLast)
  {
    ConvLayerName();
    ComputeOutputShape("conv", input, numFilters, kernel, stride, padding, Scalar(0), dilation, channelLast)
  }

  /** `compute_maxpool_output_shape`: the filter count passed is 1, and unused. */
  function MaxPoolOutputShape(input: seq<Option<int>>, kernel: IntOrList, stride: IntOrList,
                              padding: IntOrList, dilation: IntOrList, channelLast: bool)
    : (r: Result<seq<Option<int>>>)
    ensures r == ShapeOfKind(MaxPool, input, Some(1), kernel, stride, padding, Scalar(0), dilation, channelLast)
  {
    MaxPoolLayerName();
    ComputeOutputShape("maxpool", input, Some(1), kernel, stride, padding, Scalar(0), dilation, channelLast)
  }

  /** `compute_avgpool_output_shape`: dilation is fixed to 1. */
  function AvgPoolOutputShape(input: seq<Option<int>>, kernel: IntOrList, stride: IntOrList,
                              padding: IntOrList, channelLast: bool)
    : (r: Result<seq<Option<int>>>)
    ensures r == ShapeOfKind(AvgPool, input, Some(1), kernel, stride, padding, Scalar(0), Scalar(1), channelLast)
  {
    AvgPoolLayerName();
    ComputeOutputShape("avgpool", input, Some(1), kernel, stride, padding, Scalar(0), Scalar(1), channelLast)
  }

  /** `compute_deconv_output_shape` */
  function DeconvOutputShape(input: seq<Option<int>>, numFilters: Option<int>, kernel: IntOrList,
                             stride: IntOrList, padding: IntOrList, outputPadding: IntOrList,
                             dilation: IntOrList, channelLast: bool)
    : (r: Result<seq<Option<int>>>)
    ensures r == ShapeOfKind(Deconv, input, numFilters, kernel, stride, padding, outputPadding, dilation,
                             channelLast)
  {
    DeconvLayerName();
    ComputeOutputShape("deconv", input, numFilters, kernel, stride, padding, outputPadding, dilation, channelLast)
  }

  /** A pooling layer keeps the channel count of its input, wherever the
      channel axis is. */
  lemma PoolingKeepsChannels(input: seq<Option<int>>, kernel: IntOrList, stride: IntOrList,
                             padding: IntOrList, dilation: IntOrList, channelLast: bool)
    ensures var r := MaxPoolOutputShape(input, kernel, stride, padding, dilation, channelLast);
            r.Ok? ==> (if channelLast then r.value[|input| - 1] == input[|input| - 1]
                       else r.value[1] == input[1])
    ensures var r := AvgPoolOutputShape(input, kernel, stride, padding, channelLast);
            r.Ok? ==> (if channelLast then r.value[|input| - 1] == input[|input| - 1]
                       else r.value[1] == input[1])
  {
  }

  /** A stride-1 convolution whose padding is half its dilated kernel extent
      keeps the length of its input. */
  lemma SamePaddingKeepsLength(i: int, p: int, d: int, k: int)
    requires 2 * p == d * (k - 1)
    ensures PooledSize(Conv, i, p, d, k, 1) == Ok(i)
  {
  }

  /** A transposed convolution with the same parameters, and output padding
      equal to the remainder the convolution dropped, restores the input size. */
  lemma DeconvUndoesConv(i: int, p: int, d: int, k: int, s: int)
    requires s > 0
    ensures var x := i + 2 * p - MinusTerm(Conv, d, k);
            var n := PooledSize(Conv, i, p, d, k, s).value;
            DeconvSize(n, p, x % s, d, k, s) == i
  {
    var x := i + 2 * p - MinusTerm(Conv, d, k);
    var n := PooledSize(Conv, i, p, d, k, s).value;
    assert n - 1 == x / s;
    assert (n - 1) * s + x % s == x;
  }

  // ---------------------------------------------------------------------------
  // compute_receptive_field
  // ---------------------------------------------------------------------------

  function Product(xs: seq<int>): int {
    if |xs| == 0 then 1 else Product(xs[..|xs| - 1]) * xs[|xs| - 1]
  }

  /** `sum(d_i * (k_i - 1) * prod(s_0 .. s_{i-1}))` over the first `n` layers. */
  function FieldSum(ks: seq<int>, ss: seq<int>, ds: seq<int>, n: nat): int
    requires n <= |ks| == |ss| == |ds|
  {
    if n == 0 then 0
    else FieldSum(ks, ss, ds, n - 1) + ds[n - 1] * (ks[n - 1] - 1) * Product(ss[..n - 1])
  }

  /** The recurrence `r_{n+1} = r_n + d_n (k_n - 1) f_n`, `f_{n+1} = s_n f_n`,
      from `(r_0, f_0) = (1, 1)`. */
  function Recurrence(ks: seq<int>, ss: seq<int>, ds: seq<int>, n: nat): (rf: (int, int))
    requires n <= |ks| == |ss| == |ds|
  {
    if n == 0 then (1, 1)
    else
      var (r, f) := Recurrence(ks, ss, ds, n - 1);
      (r + ds[n - 1] * (ks[n - 1] - 1) * f, f * ss[n - 1])
  }

  /** The closed form the loop computes agrees with the recurrence. */
  lemma {:induction false} FieldSumIsRecurrence(ks: seq<int>, ss: seq<int>, ds: seq<int>, n: nat)
    requires n <= |ks| == |ss| == |ds|
    ensures Recurrence(ks, ss, ds, n) == (1 + FieldSum(ks, ss, ds, n), Product(ss[..n]))
    decreases n
  {
    if n > 0 {
      FieldSumIsRecurrence(ks, ss, ds, n - 1);
      ProductOfPrefix(ss, n);
      var prev := Recurrence(ks, ss, ds, n - 1);
      var step := ds[n - 1] * (ks[n - 1] - 1);
      assert Recurrence(ks, ss, ds, n) == (prev.0 + step * prev.1, prev.1 * ss[n - 1]);
      assert FieldSum(ks, ss, ds, n) == FieldSum(ks, ss, ds, n - 1) + step * prev.1;
    }
  }

  /** The product of the first `n` strides extends the product of the first `n - 1`. */
  lemma ProductOfPrefix(ss: seq<int>, n: nat)
    requires 0 < n <= |ss|
    ensures Product(ss[..n]) == Product(ss[..n - 1]) * ss[n - 1]
  {
    assert ss[..n][..n - 1] == ss[..n - 1];
  }

  /** `compute_receptive_field(kernel_sizes, strides, dilations, input_len)` */
  function ReceptiveField(kernels: IntOrList, strides: IntOrList, dilations: IntOrList,
                          inputLen: Option<int>): (r: Result<int>)
    ensures var ks := if kernels.Scalar? then [kernels.n] else kernels.ns;
            var n := |ks|;
            var ss := if strides.Scalar? then seq(n, _ => strides.n) else strides.ns;
            var ds := if dilations.Scalar? then seq(n, _ => dilations.n) else dilations.ns;
            && (r.Err? <==> |ss| != n || |ds| != n)
            && (r.Err? ==> r.error.AssertionError?)
            && (r.Ok? ==> var field := Recurrence(ks, ss, ds, n).0;
                          r.value == if inputLen.Some? then Min(field, inputLen.value) else field)
  {
    var ks := if kernels.Scalar? then [kernels.n] else kernels.ns;
    var n := |ks|;
    var ss := if strides.Scalar? then seq(n, _ => strides.n) else strides.ns;
    var ds := if dilations.Scalar? then seq(n, _ => dilations.n) else dilations.ns;
    if |ss| != n || |ds| != n then Err(AssertionError("num_layers == len(_strides) == len(_dilations)"))
    else
      FieldSumIsRecurrence(ks, ss, ds, n);
      var field := 1 + FieldSum(ks, ss, ds, n);
      Ok(if inputLen.Some? then Min(field, inputLen.value) else field)
  }

  /** The three receptive fields of the multi-scopic network given in the
      function's documentation: 90, 484 and 1984 samples for the three scopes,
      which share the kernel sizes and strides and differ in dilations. */
  lemma MultiScopicFieldScopeOne()
    ensures ReceptiveField(PerDim([11, 2, 7, 7, 2, 5, 5, 5, 2]), PerDim([1, 2, 1, 1, 2, 1, 1, 1, 2]),
                           Scalar(1), None) == Ok(90)
  {
    var ds := seq(9, _ => 1);
    assert ds == [1, 1, 1, 1, 1, 1, 1, 1, 1];
    ScopeStepsOne([11, 2, 7, 7, 2, 5, 5, 5, 2], [1, 2, 1, 1, 2, 1, 1, 1, 2], ds);
  }

  lemma ScopeStepsOne(ks: seq<int>, ss: seq<int>, ds: seq<int>)
    requires ks == [11, 2, 7, 7, 2, 5, 5, 5, 2] && ss == [1, 2, 1, 1, 2, 1, 1, 1, 2]
    requires ds == [1, 1, 1, 1, 1, 1, 1, 1, 1]
    ensures Recurrence(ks, ss, ds, 9) == (90, 8)
  {
    assert Recurrence(ks, ss, ds, 1) == (11, 1);
    assert Recurrence(ks, ss, ds, 2) == (12, 2);
    assert Recurrence(ks, ss, ds, 3) == (24, 2);
    assert Recurrence(ks, ss, ds, 4) == (36, 2);
    assert Recurrence(ks, ss, ds, 5) == (38, 4);
    assert Recurrence(ks, ss, ds, 6) == (54, 4);
    assert Recurrence(ks, ss, ds, 7) == (70, 4);
    assert Recurrence(ks, ss, ds, 8) == (86, 4);
    assert Recurrence(ks, ss, ds, 9) == (90, 8);
  }

  lemma MultiScopicFieldScopeTwo()
    ensures ReceptiveField(PerDim([11, 2, 7, 7, 2, 5, 5, 5, 2]), PerDim([1, 2, 1, 1, 2, 1, 1, 1, 2]),
                           PerDim([2, 1, 2, 4, 1, 8, 8, 8, 1]), None) == Ok(484)
  {
    var ds := [2, 1, 2, 4, 1, 8, 8, 8, 1];
    ScopeStepsTwo([11, 2, 7, 7, 2, 5, 5, 5, 2], [1, 2, 1, 1, 2, 1, 1, 1, 2], ds);
  }

  lemma ScopeStepsTwo(ks: seq<int>, ss: seq<int>, ds: seq<int>)
    requires ks == [11, 2, 7, 7, 2, 5, 5, 5, 2] && ss == [1, 2, 1, 1, 2, 1, 1, 1, 2]
    requires ds == [2, 1, 2, 4, 1, 8, 8, 8, 1]
    ensures Recurrence(ks, ss, ds, 9) == (484, 8)
  {
    assert Recurrence(ks, ss, ds, 1) == (21, 1);
    assert Recurrence(ks, ss, ds, 2) == (22, 2);
    assert Recurrence(ks, ss, ds, 3) == (46, 2);
    assert Recurrence(ks, ss, ds, 4) == (94, 2);
    assert Recurrence(ks, ss, ds, 5) == (96, 4);
    assert Recurrence(ks, ss, ds, 6) == (224, 4);
    assert Recurrence(ks, ss, ds, 7) == (352, 4);
    assert Recurrence(ks, ss, ds, 8) == (480, 4);
    assert Recurrence(ks, ss, ds, 9) == (484, 8);
  }

  lemma MultiScopicFieldScopeThree()
    ensures ReceptiveField(PerDim([11, 2, 7, 7, 2, 5, 5, 5, 2]), PerDim([1, 2, 1, 1, 2, 1, 1, 1, 2]),
                           PerDim([4, 1, 4, 8, 1, 16, 32, 64, 1]), None) == Ok(1984)
  {
    var ds := [4, 1, 4, 8, 1, 16, 32, 64, 1];
    ScopeStepsThree([11, 2, 7, 7, 2, 5, 5, 5, 2], [1, 2, 1, 1, 2, 1, 1, 1, 2], ds);
  }

  lemma ScopeStepsThree(ks: seq<int>, ss: seq<int>, ds: seq<int>)
    requires ks == [11, 2, 7, 7, 2, 5, 5, 5, 2] && ss == [1, 2, 1, 1, 2, 1, 1, 1, 2]
    requires ds == [4, 1, 4, 8, 1, 16, 32, 64, 1]
    ensures Recurrence(ks, ss, ds, 9) == (1984, 8)
  {
    assert Recurrence(ks, ss, ds, 1) == (41, 1);
    assert Recurrence(ks, ss, ds, 2) == (42, 2);
    assert Recurrence(ks, ss, ds, 3) == (90, 2);
    assert Recurrence(ks, ss, ds, 4) == (186, 2);
    assert Recurrence(ks, ss, ds, 5) == (188, 4);
    assert Recurrence(ks, ss, ds, 6) == (444, 4);
    assert Recurrence(ks, ss, ds, 7) == (956, 4);
    assert Recurrence(ks, ss, ds, 8) == (1980, 4);
    assert Recurrence(ks, ss, ds, 9) == (1984, 8);
  }
}
