/** `masks_to_waveforms` of `utils/misc.py`: per lead, every maximal run of a
    P-wave, QRS or T-wave class value becomes a wave with an onset and an
    offset, and each lead's waves are sorted by onset.  The `peak` (always
    NaN) and the floating-point `duration` of a wave are not modelled. */
module Waveforms {
  import opened Wrappers
  import opened PyCore
  import opened Grid
  import opened Intervals

  datatype Wave = Wave(name: string, onset: int, offset: int)

  /** A mask of one dimension, of two, or of more (which is refused). */
  datatype MaskInput = Mask1D(m: seq<int>) | Mask2D(a: Array2<int>) | MaskHigherDim

  predicate WellShaped(masks: MaskInput) {
    masks.Mask2D? ==> masks.a.Valid()
  }

  /** Only the class-map keys "pwave", "qrs" and "twave" (in any case) yield waves. */
  predicate IsWaveName(name: string) {
    var l := Lower(name);
    l == "pwave" || l == "qrs" || l == "twave"
  }

  function SpansToWaves(name: string, spans: seq<Span>): (ws: seq<Wave>)
    ensures |ws| == |spans|
    ensures forall k :: 0 <= k < |spans| ==> ws[k] == Wave(name, spans[k].start, spans[k].end)
  {
    seq(|spans|, k requires 0 <= k < |spans| => Wave(name, spans[k].start, spans[k].end))
  }

  /** The waves of one channel, class-map entry after class-map entry, before sorting. */
  function ChannelWaves(row: seq<int>, classMap: seq<(string, int)>): seq<Wave> {
    if |classMap| == 0 then []
    else
      var prev := ChannelWaves(row, classMap[..|classMap| - 1]);
      var (name, number) := classMap[|classMap| - 1];
      if IsWaveName(name) then prev + SpansToWaves(Lower(name), MaskToIntervals(row, number))
      else prev
  }

  /** Every wave of a channel is a maximal run of the value of one wave class. */
  ghost predicate FromClassRun(w: Wave, row: seq<int>, classMap: seq<(string, int)>) {
    exists e :: e in classMap && IsWaveName(e.0) && w.name == Lower(e.0) &&
                Span(w.onset, w.offset) in MaskToIntervals(row, e.1)
  }

  lemma {:induction false} ChannelWavesFromRuns(row: seq<int>, classMap: seq<(string, int)>)
    ensures forall w :: w in ChannelWaves(row, classMap) ==> FromClassRun(w, row, classMap)
    decreases |classMap|
  {
    if |classMap| > 0 {
      var init := classMap[..|classMap| - 1];
      var e := classMap[|classMap| - 1];
      ChannelWavesFromRuns(row, init);
      forall w | w in ChannelWaves(row, classMap)
        ensures FromClassRun(w, row, classMap)
      {
        if w in ChannelWaves(row, init) {
          var e' :| e' in init && IsWaveName(e'.0) && w.name == Lower(e'.0) &&
                    Span(w.onset, w.offset) in MaskToIntervals(row, e'.1);
          assert e' in classMap;
        } else {
          var spans := MaskToIntervals(row, e.1);
          var ws := SpansToWaves(Lower(e.0), spans);
          assert w in ws;
          var k :| 0 <= k < |ws| && ws[k] == w;
          assert spans[k] == Span(w.onset, w.offset);
        }
      }
    }
  }

  /** Conversely, every maximal run of the value of a wave class becomes a wave
      of the channel. */
  lemma {:induction false} ChannelWavesCoverRuns(row: seq<int>, classMap: seq<(string, int)>,
                                                 e: (string, int), s: Span)
    requires e in classMap && IsWaveName(e.0) && s in MaskToIntervals(row, e.1)
    ensures Wave(Lower(e.0), s.start, s.end) in ChannelWaves(row, classMap)
    decreases |classMap|
  {
    var init := classMap[..|classMap| - 1];
    var last := classMap[|classMap| - 1];
    if e in init {
      ChannelWavesCoverRuns(row, init, e, s);
    } else {
      assert e == last;
      var spans := MaskToIntervals(row, e.1);
      var k :| 0 <= k < |spans| && spans[k] == s;
      var ws := SpansToWaves(Lower(e.0), spans);
      assert ws[k] == Wave(Lower(e.0), s.start, s.end);
      assert ChannelWaves(row, classMap) == ChannelWaves(row, init) + ws;
    }
  }

  // ---------------------------------------------------------------------------
  // Sorting by onset (`list.sort(key=lambda w: w.onset)`, a stable sort)
  // ---------------------------------------------------------------------------

  predicate SortedByOnset(ws: seq<Wave>) {
    forall j, k :: 0 <= j < k < |ws| ==> ws[j].onset <= ws[k].onset
  }

  /** Places `w` before the first wave whose onset is not smaller, so that
      waves with equal onsets keep their original order. */
  function Insert(w: Wave, ws: seq<Wave>): (r: seq<Wave>)
    requires SortedByOnset(ws)
    ensures |r| == |ws| + 1
    ensures forall x :: x in r <==> x == w || x in ws
    ensures SortedByOnset(r)
    ensures multiset(r) == multiset(ws) + multiset{w}
  {
    if |ws| == 0 || w.onset <= ws[0].onset then [w] + ws
    else
      var tail := Insert(w, ws[1..]);
      assert ws == [ws[0]] + ws[1..];
      assert forall k :: 0 <= k < |tail| ==> ws[0].onset <= tail[k].onset by {
        forall k | 0 <= k < |tail|
          ensures ws[0].onset <= tail[k].onset
        {
          assert tail[k] in tail;
          if tail[k] != w {
            var j :| 0 <= j < |ws[1..]| && ws[1..][j] == tail[k];
            assert ws[j + 1] == tail[k];
          }
        }
      }
      [ws[0]] + tail
  }

  function SortByOnset(ws: seq<Wave>): (r: seq<Wave>)
    ensures SortedByOnset(r)
    ensures multiset(r) == multiset(ws)
  {
    if |ws| == 0 then []
    else
      assert ws == [ws[0]] + ws[1..];
      Insert(ws[0], SortByOnset(ws[1..]))
  }

  // ---------------------------------------------------------------------------
  // masks_to_waveforms
  // ---------------------------------------------------------------------------

  /** The default lead names "lead_1", ..., "lead_n". */
  function DefaultLeadNames(n: nat): (names: seq<string>)
    ensures |names| == n
    ensures forall i :: 0 <= i < n ==> names[i] == "lead_" + IntToString(i + 1)
  {
    seq(n, i requires 0 <= i < n => "lead_" + IntToString(i + 1))
  }

  lemma DefaultLeadNamesDistinct(n: nat)
    ensures forall i, j :: 0 <= i < j < n ==> DefaultLeadNames(n)[i] != DefaultLeadNames(n)[j]
  {
    var names := DefaultLeadNames(n);
    forall i, j | 0 <= i < j < n
      ensures names[i] != names[j]
    {
      if names[i] == names[j] {
        assert IntToString(i + 1) == names[i][5..];
        assert IntToString(j + 1) == names[j][5..];
        IntToStringInjective(i + 1, j + 1);
      }
    }
  }

  /** The channel-first view of the masks: a 1-d mask is one lead; a 2-d mask
      whose format is not "channel_first"/"lead_first" is transposed. */
  function ChannelFirst(masks: MaskInput, fmt: string): (a: Array2<int>)
    requires WellShaped(masks) && !masks.MaskHigherDim?
    ensures a.Valid()
  {
    match masks
    case Mask1D(m) => Array2(1, |m|, [m])
    case Mask2D(a) =>
      var l := Lower(fmt);
      if l != "channel_first" && l != "lead_first" then Transpose(a) else a
  }

  /** One channel's waves added to a lead's list, which is then re-sorted. */
  function AddWaves(existing: seq<Wave>, row: seq<int>, classMap: seq<(string, int)>): seq<Wave> {
    SortByOnset(existing + ChannelWaves(row, classMap))
  }

  /** The list of lead `name` after the first `n` channels: each channel
      carrying that name has its waves appended and the list re-sorted.
      Channels under other names leave it alone, so the dictionary built
      channel after channel holds, for every name, the list obtained here. */
  function LeadWaves(masks: Array2<int>, names: seq<string>, classMap: seq<(string, int)>,
                     name: string, n: nat): seq<Wave>
    requires masks.Valid() && |names| == masks.rows && n <= |names|
  {
    if n == 0 then []
    else
      var prev := LeadWaves(masks, names, classMap, name, n - 1);
      if names[n - 1] == name then AddWaves(prev, masks.cells[n - 1], classMap) else prev
  }

  /** The dictionary `{lead: []}` after every channel has been added. */
  function Collect(masks: Array2<int>, names: seq<string>, classMap: seq<(string, int)>)
    : (m: map<string, seq<Wave>>)
    requires masks.Valid() && |names| == masks.rows
    ensures forall name :: name in m <==> name in names
  {
    map name | name in names :: LeadWaves(masks, names, classMap, name, |names|)
  }

  /** `masks_to_waveforms(masks, class_map, fs, mask_format, leads)` */
  function MasksToWaveforms(masks: MaskInput, classMap: seq<(string, int)>, fmt: string,
                            leads: Option<seq<string>>): (r: Result<map<string, seq<Wave>>>)
    requires WellShaped(masks)
    ensures masks.MaskHigherDim? ==> r.Err? && r.error.ValueError?
    ensures !masks.MaskHigherDim? ==>
              var names := if leads.Some? then leads.value else DefaultLeadNames(ChannelFirst(masks, fmt).rows);
              (r.Err? <==> |names| != ChannelFirst(masks, fmt).rows) &&
              (r.Ok? ==> forall name :: name in r.value <==> name in names)
    ensures !masks.MaskHigherDim? && r.Err? ==> r.error.AssertionError?
  {
    if masks.MaskHigherDim? then Err(ValueError("masks should be of dim 1 or 2"))
    else
      var a := ChannelFirst(masks, fmt);
      var names := if leads.Some? then leads.value else DefaultLeadNames(a.rows);
      if |names| != a.rows then Err(AssertionError("len(_leads) == _masks.shape[0]"))
      else Ok(Collect(a, names, classMap))
  }

  /** Channels `m` to `n - 1` do not carry `name`, so they leave its list alone. */
  lemma {:induction false} LeadWavesStable(masks: Array2<int>, names: seq<string>,
                                           classMap: seq<(string, int)>, name: string, m: nat, n: nat)
    requires masks.Valid() && |names| == masks.rows && m <= n <= |names|
    requires forall k :: m <= k < n ==> names[k] != name
    ensures LeadWaves(masks, names, classMap, name, n) == LeadWaves(masks, names, classMap, name, m)
    decreases n
  {
    if m < n {
      LeadWavesStable(masks, names, classMap, name, m, n - 1);
    }
  }

  /** The first channel carrying a name gives that lead its own sorted waves. */
  lemma LeadWavesFirst(masks: Array2<int>, names: seq<string>, classMap: seq<(string, int)>, n: nat)
    requires masks.Valid() && |names| == masks.rows && 0 < n <= |names|
    requires forall k :: 0 <= k < n - 1 ==> names[k] != names[n - 1]
    ensures LeadWaves(masks, names, classMap, names[n - 1], n) ==
              SortByOnset(ChannelWaves(masks.cells[n - 1], classMap))
  {
    LeadWavesStable(masks, names, classMap, names[n - 1], 0, n - 1);
    var waves := ChannelWaves(masks.cells[n - 1], classMap);
    assert [] + waves == waves;
  }

  /** With distinct lead names, lead `c` holds exactly the sorted waves of channel `c`. */
  lemma LeadWavesDistinct(masks: Array2<int>, names: seq<string>, classMap: seq<(string, int)>, c: nat)
    requires masks.Valid() && |names| == masks.rows && c < |names|
    requires forall k :: 0 <= k < |names| && k != c ==> names[k] != names[c]
    ensures LeadWaves(masks, names, classMap, names[c], |names|) ==
              SortByOnset(ChannelWaves(masks.cells[c], classMap))
  {
    LeadWavesStable(masks, names, classMap, names[c], c + 1, |names|);
    LeadWavesFirst(masks, names, classMap, c + 1);
  }

  /** Each lead's waves are sorted by onset, and each is a maximal run
      `[onset, offset)` of the value of a "pwave", "qrs" or "twave" class in
      that lead's mask; every such run is among them. */
  lemma WavesAreSortedClassRuns(masks: MaskInput, classMap: seq<(string, int)>, fmt: string,
                                leads: Option<seq<string>>, c: nat)
    requires WellShaped(masks) && !masks.MaskHigherDim?
    requires var rows := ChannelFirst(masks, fmt).rows;
             c < rows &&
             (leads.Some? ==> |leads.value| == rows &&
                              forall i, j :: 0 <= i < j < rows ==> leads.value[i] != leads.value[j])
    ensures var a := ChannelFirst(masks, fmt);
            var names := if leads.Some? then leads.value else DefaultLeadNames(a.rows);
            var r := MasksToWaveforms(masks, classMap, fmt, leads);
            && r.Ok?
            && SortedByOnset(r.value[names[c]])
            && multiset(r.value[names[c]]) == multiset(ChannelWaves(a.cells[c], classMap))
            && forall w :: w in r.value[names[c]] <==> FromClassRun(w, a.cells[c], classMap)
  {
    var a := ChannelFirst(masks, fmt);
    var names := if leads.Some? then leads.value else DefaultLeadNames(a.rows);
    DefaultLeadNamesDistinct(a.rows);
    LeadWavesDistinct(a, names, classMap, c);
    ChannelWavesFromRuns(a.cells[c], classMap);
    var sorted := SortByOnset(ChannelWaves(a.cells[c], classMap));
    forall w | w in sorted
      ensures FromClassRun(w, a.cells[c], classMap)
    {
      assert w in multiset(sorted);
    }
    forall w | FromClassRun(w, a.cells[c], classMap)
      ensures w in sorted
    {
      var e :| e in classMap && IsWaveName(e.0) && w.name == Lower(e.0) &&
               Span(w.onset, w.offset) in MaskToIntervals(a.cells[c], e.1);
      ChannelWavesCoverRuns(a.cells[c], classMap, e, Span(w.onset, w.offset));
      assert w in multiset(ChannelWaves(a.cells[c], classMap));
    }
  }

  /** A 1-d mask is a single lead named "lead_1". */
  lemma OneDimensionalMaskIsLeadOne(m: seq<int>, classMap: seq<(string, int)>, fmt: string)
    ensures var r := MasksToWaveforms(Mask1D(m), classMap, fmt, None);
            && r.Ok? && (forall name :: name in r.value <==> name == "lead_1")
            && r.value["lead_1"] == SortByOnset(ChannelWaves(m, classMap))
  {
    assert DigitChar(1) == '1';
    assert IntToString(1) == "1";
    var names := DefaultLeadNames(1);
    assert names[0] == "lead_1";
    assert names == ["lead_1"];
    LeadWavesDistinct(ChannelFirst(Mask1D(m), fmt), names, classMap, 0);
  }
}
