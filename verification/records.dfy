/** What `CINC2021` in `dataset.py` does with single records once the split
    is known: the post-filter of the record list, the multi-hot label rows of
    a loaded record, the class-weight vector and the lead re-selection `to`.
    The data reader is a parameter: for every record it reports what the
    source asks of it (exceptional or not, its labels, its resampled length,
    whether its data file exists). */
module Records {
  import opened Wrappers
  import opened PyCore

  type Record = string
  type Label = string

  /** What the data reader answers about one record. */
  datatype RecordInfo = RecordInfo(
    exceptional: bool,          // listed in `exceptional_records`
    scoredLabels: seq<Label>,   // `get_labels(rec, scored_only=True, fmt="a", normalize=True)`
    labels: seq<Label>,         // `get_labels(rec, fmt="a")`
    samples: nat,               // `load_resampled_data(rec).shape[1]`
    hasDataFile: bool)          // `os.path.isfile(get_data_filepath(rec))`

  type Reader = Record -> RecordInfo

  // ---------------------------------------------------------------------------
  // The record post-filter of `__init__`
  // ---------------------------------------------------------------------------

  predicate Usable(info: RecordInfo) {
    !info.exceptional && info.hasDataFile
  }

  /** The split's records, without the exceptional ones and those whose data
      file is missing, in their original order. */
  function PostFilter(records: seq<Record>, reader: Reader): (r: seq<Record>)
    ensures |r| <= |records|
    ensures forall i :: 0 <= i < |r| ==> Usable(reader(r[i]))
  {
    Filter(records, rec => Usable(reader(rec)))
  }

  /** A usable record keeps every one of its occurrences; any other disappears. */
  lemma PostFilterKeepsUsable(records: seq<Record>, reader: Reader, rec: Record)
    ensures multiset(PostFilter(records, reader))[rec] ==
              if Usable(reader(rec)) then multiset(records)[rec] else 0
  {
    FilterCount(records, r => Usable(reader(r)), rec);
  }

  /** Filtering the concatenated lists is concatenating the filtered lists. */
  lemma PostFilterAppend(a: seq<Record>, b: seq<Record>, reader: Reader)
    ensures PostFilter(a + b, reader) == PostFilter(a, reader) + PostFilter(b, reader)
  {
    FilterAppend(a, b, rec => Usable(reader(rec)));
  }

  // ---------------------------------------------------------------------------
  // Label rows (`np.isin(all_classes, labels)` repeated over the windows)
  // ---------------------------------------------------------------------------

  /** `np.isin(all_classes, labels).astype(dtype)` */
  function LabelRow(allClasses: seq<Label>, labels: seq<Label>): (r: seq<real>)
    ensures |r| == |allClasses|
    ensures forall i :: 0 <= i < |r| ==> r[i] == 0.0 || r[i] == 1.0
  {
    seq(|allClasses|, i requires 0 <= i < |allClasses| => if allClasses[i] in labels then 1.0 else 0.0)
  }

  /** Reading the row back: the classes flagged with 1 are exactly the
      classes among the record's labels. */
  lemma LabelRowDecodes(allClasses: seq<Label>, labels: seq<Label>)
    ensures var r := LabelRow(allClasses, labels);
            (set i | 0 <= i < |r| && r[i] == 1.0 :: allClasses[i]) ==
              (set c | c in allClasses && c in labels)
  {
    var r := LabelRow(allClasses, labels);
    var flagged := set i | 0 <= i < |r| && r[i] == 1.0 :: allClasses[i];
    forall c | c in allClasses && c in labels
      ensures c in flagged
    {
      var i :| 0 <= i < |allClasses| && allClasses[i] == c;
      assert r[i] == 1.0;
    }
  }

  /** The windowed signal of a record: one window (2-d) or several (3-d). */
  datatype Values = Values2(leads: seq<seq<real>>) | Values3(windows: seq<seq<seq<real>>>)

  /** `values[np.newaxis, ...]` when 2-d. */
  function Windows(values: Values): (w: seq<seq<seq<real>>>)
    ensures values.Values2? ==> w == [values.leads]
    ensures values.Values3? ==> w == values.windows
  {
    match values
    case Values2(leads) => [leads]
    case Values3(windows) => windows
  }

  /** The end of `FastDataReader.__getitem__`: the windows, and one label row
      per window. */
  function LoadItem(values: Values, allClasses: seq<Label>, info: RecordInfo)
    : (r: (seq<seq<seq<real>>>, seq<seq<real>>))
    ensures r.0 == Windows(values)
    ensures |r.1| == |r.0|
    ensures forall k :: 0 <= k < |r.1| ==> r.1[k] == LabelRow(allClasses, info.scoredLabels)
  {
    var w := Windows(values);
    (w, seq(|w|, _ => LabelRow(allClasses, info.scoredLabels)))
  }

  /** A 2-d signal yields exactly one label row. */
  lemma LoadItemTwoDimensional(leads: seq<seq<real>>, allClasses: seq<Label>, info: RecordInfo)
    ensures |LoadItem(Values2(leads), allClasses, info).1| == 1
  {
  }

  /** Every window's label row, read back, names exactly the record's scored
      labels among `all_classes`, whatever the number of windows. */
  lemma LoadItemWindowDecodes(values: Values, allClasses: seq<Label>, info: RecordInfo, k: nat)
    requires k < |Windows(values)|
    ensures var r := LoadItem(values, allClasses, info);
            && k < |r.1|
            && (set i | 0 <= i < |r.1[k]| && r.1[k][i] == 1.0 :: allClasses[i]) ==
                 (set c | c in allClasses && c in info.scoredLabels)
  {
    LabelRowDecodes(allClasses, info.scoredLabels);
  }

  // ---------------------------------------------------------------------------
  // The class-weight vector of `__init__`
  // ---------------------------------------------------------------------------

  /** Position `i` of the loop fails: the class has no weight (the dictionary
      lookup raises first) or the vector, sized by the dictionary, is too short. */
  predicate WeightFails(allClasses: seq<Label>, weights: map<Label, real>, i: nat)
    requires i < |allClasses|
  {
    allClasses[i] !in weights || i >= |weights|
  }

  /** The first failing position at or after `from`, or `|allClasses|` if none. */
  function FirstFailure(allClasses: seq<Label>, weights: map<Label, real>, from: nat): (k: nat)
    requires from <= |allClasses|
    ensures from <= k <= |allClasses|
    ensures forall j :: from <= j < k ==> !WeightFails(allClasses, weights, j)
    ensures k < |allClasses| ==> WeightFails(allClasses, weights, k)
    decreases |allClasses| - from
  {
    if from == |allClasses| then from
    else if WeightFails(allClasses, weights, from) then from
    else FirstFailure(allClasses, weights, from + 1)
  }

  /** `cw = np.zeros(len(class_weights)); cw[idx] = class_weights[c]` for each
      class in turn, then `.view(1, n_classes)`.  The view fails unless the
      dictionary has exactly one entry per class. */
  method ClassWeights(allClasses: seq<Label>, weights: map<Label, real>) returns (r: Result<seq<real>>)
    ensures var k := FirstFailure(allClasses, weights, 0);
            && (k < |allClasses| && allClasses[k] !in weights ==> r.Err? && r.error.KeyError?)
            && (k < |allClasses| && allClasses[k] in weights ==> r.Err? && r.error.IndexError?)
            && (k == |allClasses| && |weights| != |allClasses| ==> r.Err? && r.error.RuntimeError?)
    ensures r.Ok? <==> (forall c :: c in allClasses ==> c in weights) && |weights| == |allClasses|
    ensures r.Ok? ==> |r.value| == |allClasses| &&
                      forall i :: 0 <= i < |allClasses| ==> r.value[i] == weights[allClasses[i]]
  {
    var cw := seq(|weights|, _ => 0.0);
    var idx := 0;
    while idx < |allClasses|
      invariant 0 <= idx <= |allClasses|
      invariant |cw| == |weights|
      invariant forall j :: 0 <= j < idx ==>
                  !WeightFails(allClasses, weights, j) && cw[j] == weights[allClasses[j]]
    {
      var c := allClasses[idx];
      if c !in weights {
        FirstFailureIs(allClasses, weights, idx);
        return Err(KeyError(c));
      }
      if idx >= |cw| {
        FirstFailureIs(allClasses, weights, idx);
        return Err(IndexError("index out of bounds"));
      }
      cw := cw[idx := weights[c]];
      idx := idx + 1;
    }
    FirstFailureIs(allClasses, weights, idx);
    if |cw| != |allClasses| {
      return Err(RuntimeError("shape is invalid for input size"));
    }
    return Ok(cw);
  }

  /** The first failure is at `k` when every earlier position succeeds and
      `k` fails (or is the end). */
  lemma {:induction false} FirstFailureIs(allClasses: seq<Label>, weights: map<Label, real>, k: nat)
    requires k <= |allClasses|
    requires forall j :: 0 <= j < k ==> !WeightFails(allClasses, weights, j)
    requires k < |allClasses| ==> WeightFails(allClasses, weights, k)
    ensures FirstFailure(allClasses, weights, 0) == k
    ensures k == |allClasses| ==> forall c :: c in allClasses ==> c in weights
  {
    FirstFailureFrom(allClasses, weights, 0, k);
    if k == |allClasses| {
      forall c | c in allClasses
        ensures c in weights
      {
        var j :| 0 <= j < |allClasses| && allClasses[j] == c;
        assert !WeightFails(allClasses, weights, j);
      }
    }
  }

  lemma {:induction false} FirstFailureFrom(allClasses: seq<Label>, weights: map<Label, real>, from: nat, k: nat)
    requires from <= k <= |allClasses|
    requires forall j :: from <= j < k ==> !WeightFails(allClasses, weights, j)
    requires k < |allClasses| ==> WeightFails(allClasses, weights, k)
    ensures FirstFailure(allClasses, weights, from) == k
    decreases k - from
  {
    if from < k {
      FirstFailureFrom(allClasses, weights, from + 1, k);
    }
  }

  // ---------------------------------------------------------------------------
  // Lead re-selection (`to`)
  // ---------------------------------------------------------------------------

  /** The configured leads and the loaded signals, `signals[record][lead][sample]`. */
  datatype LeadState = LeadState(leads: seq<string>, signals: seq<seq<seq<real>>>) {
    /** The signal array has one row per configured lead. */
    predicate Valid() {
      forall b :: 0 <= b < |signals| ==> |signals[b]| == |leads|
    }
  }

  /** The state after `to(leads)`, and the exception it raised if any.  The
      configured leads are replaced before the indices are looked up, so a
      lead missing from the previous list leaves the new leads with the old
      signals. */
  datatype ToOutcome = ToOutcome(state: LeadState, raised: Option<Error>)

  /** `self._signals[:, indices, :]` */
  function SelectLeads(signals: seq<seq<seq<real>>>, indices: seq<nat>): (r: seq<seq<seq<real>>>)
    requires forall b, j :: 0 <= b < |signals| && 0 <= j < |indices| ==> indices[j] < |signals[b]|
    ensures |r| == |signals|
    ensures forall b :: 0 <= b < |r| ==> |r[b]| == |indices|
    ensures forall b, j :: 0 <= b < |r| && 0 <= j < |indices| ==> r[b][j] == signals[b][indices[j]]
  {
    seq(|signals|, b requires 0 <= b < |signals| =>
      seq(|indices|, j requires 0 <= j < |indices| => signals[b][indices[j]]))
  }

  function LeadIndices(prev: seq<string>, leads: seq<string>): (r: seq<nat>)
    requires forall j :: 0 <= j < |leads| ==> leads[j] in prev
    ensures |r| == |leads|
    ensures forall j :: 0 <= j < |leads| ==> r[j] == IndexOf(prev, leads[j]) && r[j] < |prev|
  {
    seq(|leads|, j requires 0 <= j < |leads| => IndexOf(prev, leads[j]))
  }

  function To(st: LeadState, leads: seq<string>): (r: ToOutcome)
    requires st.Valid()
    ensures r.state.leads == leads
    ensures r.raised.Some? <==> exists j :: 0 <= j < |leads| && leads[j] !in st.leads
    ensures r.raised.Some? ==> r.raised.value.ValueError? && r.state.signals == st.signals
    ensures r.raised.None? ==> r.state.Valid() && |r.state.signals| == |st.signals|
    ensures r.raised.None? ==>
              forall b, j :: 0 <= b < |st.signals| && 0 <= j < |leads| ==>
                r.state.signals[b][j] == st.signals[b][IndexOf(st.leads, leads[j])]
  {
    if exists j :: 0 <= j < |leads| && leads[j] !in st.leads then
      ToOutcome(LeadState(leads, st.signals), Some(ValueError("is not in list")))
    else
      var indices := LeadIndices(st.leads, leads);
      ToOutcome(LeadState(leads, SelectLeads(st.signals, indices)), None)
  }

  predicate Distinct(xs: seq<string>) {
    forall i, j :: 0 <= i < j < |xs| ==> xs[i] != xs[j]
  }

  lemma IndexOfDistinct(xs: seq<string>, i: nat)
    requires Distinct(xs) && i < |xs|
    ensures IndexOf(xs, xs[i]) == i
  {
  }

  /** Re-selecting the previous leads after a re-ordering of them restores
      the signals exactly. */
  lemma ToRoundTrip(st: LeadState, leads: seq<string>)
    requires st.Valid() && Distinct(st.leads)
    requires forall j :: 0 <= j < |leads| ==> leads[j] in st.leads
    requires forall i :: 0 <= i < |st.leads| ==> st.leads[i] in leads
    ensures var there := To(st, leads);
            && there.raised.None?
            && To(there.state, st.leads) == ToOutcome(st, None)
  {
    var there := To(st, leads);
    assert there.raised.None?;
    var mid := there.state;
    var back := To(mid, st.leads);
    assert back.raised.None?;
    forall b, i | 0 <= b < |st.signals| && 0 <= i < |st.leads|
      ensures back.state.signals[b][i] == st.signals[b][i]
    {
      var j := IndexOf(leads, st.leads[i]);
      assert leads[j] == st.leads[i];
      IndexOfDistinct(st.leads, i);
      assert mid.signals[b][j] == st.signals[b][IndexOf(st.leads, leads[j])];
    }
    forall b | 0 <= b < |st.signals|
      ensures back.state.signals[b] == st.signals[b]
    {
    }
  }
}
