/** `CINC2021._train_test_split` and `_check_train_test_split_validity` of
    `dataset.py`: which records of a tranche are candidates, how a shuffled
    candidate list is cut into a train and a test part, when such a cut is
    accepted, the names of the cache files, and which lists a dataset object
    finally uses.  The shuffle is not modelled as randomness: the caller
    supplies the successive shuffled orders, each a permutation of the
    candidates. */
module TrainTestSplit {
  import opened Wrappers
  import opened PyCore
  import opened TextUtils
  import opened Records

  // ---------------------------------------------------------------------------
  // The train ratio
  // ---------------------------------------------------------------------------

  /** `train_ratio` as the exact fraction `num / den`. */
  datatype Fraction = Fraction(num: int, den: int)
  type Ratio = r: Fraction | r.den > 0 witness Fraction(0, 1)

  /** `int(train_ratio * 100)`: truncation toward zero. */
  function TrainPercent(ratio: Ratio): int {
    TruncDiv(100 * ratio.num, ratio.den)
  }

  /** The ratios the split accepts: `0.01 <= train_ratio < 1`. */
  predicate RatioOk(ratio: Ratio) {
    ratio.den <= 100 * ratio.num && ratio.num < ratio.den
  }

  /** `assert _train_ratio * _test_ratio > 0`, returning the train percentage. */
  function CheckRatio(ratio: Ratio): (r: Result<int>)
    ensures r.Ok? <==> 0 < TrainPercent(ratio) < 100
    ensures r.Ok? ==> r.value == TrainPercent(ratio)
    ensures r.Err? ==> r.error.AssertionError?
  {
    var p := TrainPercent(ratio);
    PercentProduct(p);
    if p * (100 - p) > 0 then Ok(p) else Err(AssertionError("_train_ratio * _test_ratio > 0"))
  }

  lemma PercentProduct(p: int)
    ensures p * (100 - p) > 0 <==> 0 < p < 100
  {
    if p <= 0 {
      assert p * (100 - p) <= 0;
    } else if p >= 100 {
      assert p * (100 - p) <= 0;
    } else {
      assert p * (100 - p) > 0;
    }
  }

  /** The percentage check accepts exactly the ratios from 1/100 up to, but
      excluding, 1. */
  lemma CheckRatioAcceptsExactly(ratio: Ratio)
    ensures CheckRatio(ratio).Ok? <==> RatioOk(ratio)
  {
    TruncInPercentRange(100 * ratio.num, ratio.den);
  }

  lemma TruncInPercentRange(a: int, b: int)
    requires b > 0
    ensures 0 < TruncDiv(a, b) < 100 <==> b <= a < 100 * b
  {
    var q := TruncDiv(a, b);
    if a >= 0 {
      if q <= 0 {
        assert q == 0;
      } else if q >= 100 {
        MulMono(b, 100, q);
      } else {
        MulMono(b, 1, q);
        MulMono(b, q, 99);
      }
    }
  }

  lemma MulMono(b: int, x: int, y: int)
    requires b > 0 && x <= y
    ensures b * x <= b * y
  {
    assert b * y - b * x == b * (y - x);
  }

  // ---------------------------------------------------------------------------
  // Cache file names
  // ---------------------------------------------------------------------------

  /** `f"_siglen_{siglen}{ns}.json"` with `ns = "_ns"` when there are no special classes. */
  function FileSuffix(siglen: nat, noSpecial: bool): string {
    "_siglen_" + NatToString(siglen) + (if noSpecial then "_ns" else "") + ".json"
  }

  function TrainFileName(percent: nat, siglen: nat, noSpecial: bool): string {
    "train_ratio_" + NatToString(percent) + FileSuffix(siglen, noSpecial)
  }

  function TestFileName(percent: nat, siglen: nat, noSpecial: bool): string
    requires percent <= 100
  {
    "test_ratio_" + NatToString(100 - percent) + FileSuffix(siglen, noSpecial)
  }

  /** A rendered number followed by a non-digit can be read back, so two such
      strings agree only if the numbers and the remainders agree. */
  lemma RenderedPrefixInjective(a: nat, b: nat, ra: string, rb: string)
    requires |ra| > 0 && !IsDigit(ra[0]) && |rb| > 0 && !IsDigit(rb[0])
    requires NatToString(a) + ra == NatToString(b) + rb
    ensures a == b && ra == rb
  {
    var sa, sb := NatToString(a), NatToString(b);
    DigitRunOfRendered(sa, ra);
    DigitRunOfRendered(sb, rb);
    assert sa == (sa + ra)[..|sa|];
    assert sb == (sb + rb)[..|sb|];
    NatToStringRoundTrip(a);
    NatToStringRoundTrip(b);
    assert ra == (sa + ra)[|sa|..];
    assert rb == (sb + rb)[|sb|..];
  }

  lemma FileSuffixInjective(s1: nat, s2: nat, n1: bool, n2: bool)
    requires FileSuffix(s1, n1) == FileSuffix(s2, n2)
    ensures s1 == s2 && n1 == n2
  {
    var tail1 := (if n1 then "_ns" else "") + ".json";
    var tail2 := (if n2 then "_ns" else "") + ".json";
    assert FileSuffix(s1, n1) == "_siglen_" + (NatToString(s1) + tail1);
    assert FileSuffix(s2, n2) == "_siglen_" + (NatToString(s2) + tail2);
    assert NatToString(s1) + tail1 == FileSuffix(s1, n1)[8..];
    assert NatToString(s2) + tail2 == FileSuffix(s2, n2)[8..];
    assert tail1[0] == (if n1 then '_' else '.');
    assert tail2[0] == (if n2 then '_' else '.');
    RenderedPrefixInjective(s1, s2, tail1, tail2);
  }

  /** Past its fixed twelve-character head, a train cache name is the
      rendered percentage followed by the suffix. */
  lemma TrainFileNameTail(p: nat, s: nat, n: bool)
    ensures |TrainFileName(p, s, n)| >= 12
    ensures TrainFileName(p, s, n)[12..] == NatToString(p) + FileSuffix(s, n)
  {
    assert TrainFileName(p, s, n) == "train_ratio_" + (NatToString(p) + FileSuffix(s, n));
  }

  /** Different percentages, signal lengths or special-class settings give
      different train cache names. */
  lemma TrainFileNameInjective(p1: nat, s1: nat, n1: bool, p2: nat, s2: nat, n2: bool)
    requires TrainFileName(p1, s1, n1) == TrainFileName(p2, s2, n2)
    ensures p1 == p2 && s1 == s2 && n1 == n2
  {
    TrainFileNameTail(p1, s1, n1);
    TrainFileNameTail(p2, s2, n2);
    var f1, f2 := FileSuffix(s1, n1), FileSuffix(s2, n2);
    assert f1[0] == '_' && f2[0] == '_';
    RenderedPrefixInjective(p1, p2, f1, f2);
    FileSuffixInjective(s1, s2, n1, n2);
  }

  /** A train cache name is never a test cache name. */
  lemma TrainTestNamesDiffer(p1: nat, s1: nat, n1: bool, p2: nat, s2: nat, n2: bool)
    requires p2 <= 100
    ensures TrainFileName(p1, s1, n1) != TestFileName(p2, s2, n2)
  {
    assert TrainFileName(p1, s1, n1)[1] == 'r';
    assert TestFileName(p2, s2, n2)[1] == 'e';
  }

  /** Where the split comes from: recomputed, or read from the database
      directory's cache files, or from the package's. */
  datatype CacheSource = Recompute | LoadFromDatabase | LoadFromPackage

  /** The database directory's pair is preferred when both of its files
      exist; otherwise the package's pair is looked at.  The split is
      recomputed when forced or when the pair looked at is incomplete. */
  function CacheChoice(force: bool, dbTrain: bool, dbTest: bool, pkgTrain: bool, pkgTest: bool)
    : (r: CacheSource)
    ensures r == Recompute <==> force || (!(dbTrain && dbTest) && !(pkgTrain && pkgTest))
    ensures r == LoadFromDatabase ==> dbTrain && dbTest
    ensures r == LoadFromPackage ==> pkgTrain && pkgTest && !(dbTrain && dbTest)
  {
    var useDb := dbTrain && dbTest;
    var haveBoth := if useDb then true else pkgTrain && pkgTest;
    if force || !haveBoth then Recompute
    else if useDb then LoadFromDatabase
    else LoadFromPackage
  }

  // ---------------------------------------------------------------------------
  // Candidates of a tranche
  // ---------------------------------------------------------------------------

  /** A record of tranche `t` is a candidate unless it is exceptional, has no
      scored label among the tranche's classes, or is shorter than
      `siglen - input_len_tol` samples. */
  predicate Eligible(info: RecordInfo, trancheClasses: seq<Label>, siglen: int, tolerance: int) {
    && !info.exceptional
    && Filter(info.scoredLabels, c => c in trancheClasses) != []
    && info.samples >= siglen - tolerance
  }

  lemma EligibleMeans(info: RecordInfo, trancheClasses: seq<Label>, siglen: int, tolerance: int)
    ensures Eligible(info, trancheClasses, siglen, tolerance) <==>
              && !info.exceptional
              && (exists c :: c in info.scoredLabels && c in trancheClasses)
              && info.samples >= siglen - tolerance
  {
    var kept := Filter(info.scoredLabels, c => c in trancheClasses);
    if exists c :: c in info.scoredLabels && c in trancheClasses {
      var c :| c in info.scoredLabels && c in trancheClasses;
      FilterCount(info.scoredLabels, c => c in trancheClasses, c);
      assert multiset(kept)[c] > 0;
    }
    if kept != [] {
      assert kept[0] in trancheClasses;
      FilterCount(info.scoredLabels, c => c in trancheClasses, kept[0]);
      assert kept[0] in multiset(kept);
    }
  }

  function Candidates(records: seq<Record>, reader: Reader, trancheClasses: seq<Label>,
                      siglen: int, tolerance: int): (r: seq<Record>)
    ensures |r| <= |records|
    ensures forall i :: 0 <= i < |r| ==> Eligible(reader(r[i]), trancheClasses, siglen, tolerance)
  {
    Filter(records, rec => Eligible(reader(rec), trancheClasses, siglen, tolerance))
  }

  /** An eligible record is a candidate as often as it is listed; any other never. */
  lemma CandidatesExactly(records: seq<Record>, reader: Reader, trancheClasses: seq<Label>,
                          siglen: int, tolerance: int, rec: Record)
    ensures multiset(Candidates(records, reader, trancheClasses, siglen, tolerance))[rec] ==
              if Eligible(reader(rec), trancheClasses, siglen, tolerance) then multiset(records)[rec] else 0
  {
    FilterCount(records, r => Eligible(reader(r), trancheClasses, siglen, tolerance), rec);
  }

  // ---------------------------------------------------------------------------
  // One cut of a shuffled candidate list
  // ---------------------------------------------------------------------------

  datatype Split = Split(train: seq<Record>, test: seq<Record>)

  /** `int(len(records) * train_ratio)`. */
  function SplitIndex(n: nat, ratio: Ratio): (k: nat)
    requires RatioOk(ratio)
  {
    assert n * ratio.num >= 0;
    TruncDiv(n * ratio.num, ratio.den)
  }

  /** The cut falls inside the list, strictly before its end when it is not empty. */
  lemma SplitIndexBounds(n: nat, ratio: Ratio)
    requires RatioOk(ratio)
    ensures SplitIndex(n, ratio) <= n
    ensures n > 0 ==> SplitIndex(n, ratio) < n
  {
    var k := SplitIndex(n, ratio);
    var a := n * ratio.num;
    var d := ratio.den;
    if n == 0 {
      assert a == 0;
    } else {
      MulMono(n, ratio.num, d - 1);
      assert n * (d - 1) == d * n - n;
      MulCancelLt(d, k, n);
    }
  }

  lemma MulCancelLt(d: int, x: int, y: int)
    requires d > 0 && d * x < d * y
    ensures x < y
  {
    assert d * (y - x) == d * y - d * x;
  }

  /** `train = records[:split_idx]`, `test = records[split_idx:]`. */
  function Partition(shuffled: seq<Record>, ratio: Ratio): (s: Split)
    requires RatioOk(ratio)
    ensures |s.train| == SplitIndex(|shuffled|, ratio)
    ensures s.train + s.test == shuffled
  {
    SplitIndexBounds(|shuffled|, ratio);
    var k := SplitIndex(|shuffled|, ratio);
    assert shuffled[..k] + shuffled[k..] == shuffled;
    Split(shuffled[..k], shuffled[k..])
  }

  /** A cut of a shuffled candidate list redistributes the candidates: each
      occurs in train and test together as often as among the candidates,
      and with distinct candidates no record is on both sides. */
  lemma PartitionRedistributes(candidates: seq<Record>, shuffled: seq<Record>, ratio: Ratio)
    requires RatioOk(ratio)
    requires multiset(shuffled) == multiset(candidates)
    ensures var s := Partition(shuffled, ratio);
            && multiset(s.train) + multiset(s.test) == multiset(candidates)
            && |s.train| + |s.test| == |candidates|
            && (|candidates| > 0 ==> |s.test| > 0)
  {
    var s := Partition(shuffled, ratio);
    assert multiset(s.train + s.test) == multiset(shuffled);
    assert |shuffled| == |multiset(shuffled)| == |candidates|;
    SplitIndexBounds(|shuffled|, ratio);
  }

  /** With no record listed twice, no record lands on both sides. */
  lemma PartitionDisjoint(shuffled: seq<Record>, ratio: Ratio)
    requires RatioOk(ratio) && Distinct(shuffled)
    ensures var s := Partition(shuffled, ratio);
            forall r :: r in s.train ==> r !in s.test
  {
    var s := Partition(shuffled, ratio);
    var k := |s.train|;
    forall r | r in s.train
      ensures r !in s.test
    {
      var i :| 0 <= i < k && s.train[i] == r;
      assert shuffled[i] == r;
    }
  }

  // ---------------------------------------------------------------------------
  // Validity of a cut
  // ---------------------------------------------------------------------------

  /** `list_sum([reader.get_labels(rec, fmt="a") for rec in side])` */
  function SideLabels(side: seq<Record>, reader: Reader): seq<Label> {
    ListSum(seq(|side|, i requires 0 <= i < |side| => reader(side[i]).labels))
  }

  /** `set(side labels) & all_classes` */
  function CoveredClasses(side: seq<Record>, reader: Reader, classes: set<Label>): (r: set<Label>)
    ensures r <= classes
  {
    (set c | c in SideLabels(side, reader)) * classes
  }

  /** `len(all_classes) == len(train_classes) == len(test_classes)` */
  predicate SplitValid(s: Split, reader: Reader, classes: set<Label>) {
    |classes| == |CoveredClasses(s.train, reader, classes)| &&
    |CoveredClasses(s.train, reader, classes)| == |CoveredClasses(s.test, reader, classes)|
  }

  /** Some record of `side` carries label `c`. */
  ghost predicate Carried(side: seq<Record>, reader: Reader, c: Label) {
    exists i :: 0 <= i < |side| && c in reader(side[i]).labels
  }

  lemma SubsetCard<T>(a: set<T>, b: set<T>)
    requires a <= b
    ensures |a| <= |b|
    ensures |a| == |b| ==> a == b
    decreases |b|
  {
    if a != {} {
      var x :| x in a;
      SubsetCard(a - {x}, b - {x});
      assert a == (a - {x}) + {x};
      assert b == (b - {x}) + {x};
    } else if b != {} {
      var y :| y in b;
      assert |b| >= 1;
    }
  }

  lemma SideLabelsCarried(side: seq<Record>, reader: Reader, c: Label)
    ensures c in SideLabels(side, reader) <==> Carried(side, reader, c)
  {
    var lists := seq(|side|, i requires 0 <= i < |side| => reader(side[i]).labels);
    ListSumContains(lists, c);
    if Carried(side, reader, c) {
      var i :| 0 <= i < |side| && c in reader(side[i]).labels;
      assert c in lists[i];
    }
  }

  lemma CoveredAll(side: seq<Record>, reader: Reader, classes: set<Label>)
    ensures CoveredClasses(side, reader, classes) == classes <==>
              forall c :: c in classes ==> Carried(side, reader, c)
  {
    forall c | c in classes
      ensures c in CoveredClasses(side, reader, classes) <==> Carried(side, reader, c)
    {
      SideLabelsCarried(side, reader, c);
    }
  }

  /** A cut is accepted exactly when each class of the tranche is carried by
      some train record and by some test record. */
  lemma SplitValidIffBothSidesCover(s: Split, reader: Reader, classes: set<Label>)
    ensures SplitValid(s, reader, classes) <==>
              (forall c :: c in classes ==> Carried(s.train, reader, c)) &&
              (forall c :: c in classes ==> Carried(s.test, reader, c))
  {
    var tr := CoveredClasses(s.train, reader, classes);
    var te := CoveredClasses(s.test, reader, classes);
    SubsetCard(tr, classes);
    SubsetCard(te, classes);
    CoveredAll(s.train, reader, classes);
    CoveredAll(s.test, reader, classes);
  }

  /** With at least one class, an accepted cut has records on both sides; in
      particular a tranche with fewer than two candidates never yields one. */
  lemma ValidSplitHasBothSides(s: Split, reader: Reader, classes: set<Label>)
    requires SplitValid(s, reader, classes) && classes != {}
    ensures |s.train| > 0 && |s.test| > 0
  {
    SplitValidIffBothSidesCover(s, reader, classes);
    var c :| c in classes;
    assert Carried(s.train, reader, c);
    assert Carried(s.test, reader, c);
  }

  // ---------------------------------------------------------------------------
  // The retry loop of one tranche
  // ---------------------------------------------------------------------------

  /** The cut of the `k`-th shuffled order. */
  function Attempt(orders: seq<seq<Record>>, k: nat, ratio: Ratio): Split
    requires k < |orders| && RatioOk(ratio)
  {
    Partition(orders[k], ratio)
  }

  /** The first `n` shuffled orders were all cut into rejected splits. */
  predicate Rejected(orders: seq<seq<Record>>, n: nat, ratio: Ratio, reader: Reader, classes: set<Label>)
    requires n <= |orders| && RatioOk(ratio)
  {
    forall k :: 0 <= k < n ==> !SplitValid(Attempt(orders, k, ratio), reader, classes)
  }

  lemma RejectedExtend(orders: seq<seq<Record>>, n: nat, ratio: Ratio, reader: Reader, classes: set<Label>)
    requires n < |orders| && RatioOk(ratio)
    requires Rejected(orders, n, ratio, reader, classes)
    requires !SplitValid(Attempt(orders, n, ratio), reader, classes)
    ensures Rejected(orders, n + 1, ratio, reader, classes)
  {
  }

  /** `while not is_valid: shuffle; cut; check`, over the given shuffled
      orders.  It returns the first accepted cut and the number of orders
      tried, or nothing when every order was rejected: the source would keep
      shuffling for ever in that case. */
  method SplitTranche(orders: seq<seq<Record>>, ratio: Ratio, reader: Reader, classes: set<Label>)
    returns (r: Option<Split>, tries: nat)
    requires RatioOk(ratio)
    ensures tries <= |orders|
    ensures r.Some? ==> 0 < tries && r.value == Attempt(orders, tries - 1, ratio)
    ensures r.Some? ==> SplitValid(r.value, reader, classes) && Rejected(orders, tries - 1, ratio, reader, classes)
    ensures r.None? ==> tries == |orders| && Rejected(orders, |orders|, ratio, reader, classes)
  {
    tries := 0;
    while tries < |orders|
      invariant tries <= |orders|
      invariant Rejected(orders, tries, ratio, reader, classes)
    {
      var s := Attempt(orders, tries, ratio);
      if SplitValid(s, reader, classes) {
        return Some(s), tries + 1;
      }
      RejectedExtend(orders, tries, ratio, reader, classes);
      tries := tries + 1;
    }
    return None, tries;
  }

  /** An empty tranche is never split successfully when it has classes. */
  lemma EmptyTrancheNeverSplits(orders: seq<seq<Record>>, ratio: Ratio, reader: Reader,
                                classes: set<Label>, k: nat)
    requires RatioOk(ratio) && classes != {}
    requires k < |orders| && orders[k] == []
    ensures !SplitValid(Partition(orders[k], ratio), reader, classes)
  {
    if SplitValid(Partition(orders[k], ratio), reader, classes) {
      ValidSplitHasBothSides(Partition(orders[k], ratio), reader, classes);
    }
  }

  /** The classes a tranche's split must cover: `set(tranche_classes[t])`. */
  function ClassSet(trancheClasses: seq<Label>): set<Label> {
    set c | c in trancheClasses
  }

  /** The candidates of tranche `t`, as the reader lists them. */
  function TrancheCandidates(t: char, allRecords: map<char, seq<Record>>, trancheClasses: map<char, seq<Label>>,
                             reader: Reader, siglen: int, tolerance: int): seq<Record>
    requires t in allRecords && t in trancheClasses
  {
    Candidates(allRecords[t], reader, trancheClasses[t], siglen, tolerance)
  }

  /** Tranche `t` holds an accepted cut of its own candidates. */
  predicate TrancheDone(t: char, trainSet: map<char, seq<Record>>, testSet: map<char, seq<Record>>,
                        allRecords: map<char, seq<Record>>, trancheClasses: map<char, seq<Label>>,
                        reader: Reader, siglen: int, tolerance: int)
    requires t in allRecords && t in trancheClasses
  {
    && t in trainSet && t in testSet
    && SplitValid(Split(trainSet[t], testSet[t]), reader, ClassSet(trancheClasses[t]))
    && multiset(trainSet[t] + testSet[t]) ==
         multiset(TrancheCandidates(t, allRecords, trancheClasses, reader, siglen, tolerance))
  }

  /** Recording a tranche's accepted cut keeps every other tranche's. */
  lemma TrancheDoneFrame(u: char, t: char, trainSet: map<char, seq<Record>>, testSet: map<char, seq<Record>>,
                         split: Split, allRecords: map<char, seq<Record>>, trancheClasses: map<char, seq<Label>>,
                         reader: Reader, siglen: int, tolerance: int)
    requires u in allRecords && u in trancheClasses && t in allRecords && t in trancheClasses
    requires TrancheDone(u, trainSet, testSet, allRecords, trancheClasses, reader, siglen, tolerance)
    requires TrancheDone(t, trainSet[t := split.train], testSet[t := split.test],
                         allRecords, trancheClasses, reader, siglen, tolerance)
    ensures TrancheDone(u, trainSet[t := split.train], testSet[t := split.test],
                        allRecords, trancheClasses, reader, siglen, tolerance)
  {
    if u != t {
      assert trainSet[t := split.train][u] == trainSet[u];
      assert testSet[t := split.test][u] == testSet[u];
    }
  }

  /** Recording the accepted cut of `tranches[i]` extends the finished prefix by one. */
  lemma TranchesDoneStep(tranches: string, i: nat, trainSet: map<char, seq<Record>>,
                         testSet: map<char, seq<Record>>, split: Split,
                         allRecords: map<char, seq<Record>>, trancheClasses: map<char, seq<Label>>,
                         reader: Reader, siglen: int, tolerance: int)
    requires i < |tranches|
    requires forall j :: 0 <= j <= i ==> tranches[j] in allRecords && tranches[j] in trancheClasses
    requires forall j :: 0 <= j < i ==>
               TrancheDone(tranches[j], trainSet, testSet, allRecords, trancheClasses, reader, siglen, tolerance)
    requires TrancheDone(tranches[i], trainSet[tranches[i] := split.train], testSet[tranches[i] := split.test],
                         allRecords, trancheClasses, reader, siglen, tolerance)
    ensures forall j :: 0 <= j < i + 1 ==>
              TrancheDone(tranches[j], trainSet[tranches[i] := split.train], testSet[tranches[i] := split.test],
                          allRecords, trancheClasses, reader, siglen, tolerance)
  {
    forall j | 0 <= j < i
      ensures TrancheDone(tranches[j], trainSet[tranches[i] := split.train], testSet[tranches[i] := split.test],
                          allRecords, trancheClasses, reader, siglen, tolerance)
    {
      TrancheDoneFrame(tranches[j], tranches[i], trainSet, testSet, split, allRecords, trancheClasses,
                       reader, siglen, tolerance);
    }
  }

  /** The recomputation of the split: every tranche in turn collects its
      candidates and retries cuts until one is accepted.  Either every tranche
      ends with an accepted cut of its own candidates, or some tranche ran out
      of shuffled orders without one. */
  method SplitTranches(tranches: string, allRecords: map<char, seq<Record>>,
                       trancheClasses: map<char, seq<Label>>, orders: map<char, seq<seq<Record>>>,
                       ratio: Ratio, reader: Reader, siglen: int, tolerance: int)
    returns (done: bool, trainSet: map<char, seq<Record>>, testSet: map<char, seq<Record>>)
    requires RatioOk(ratio)
    requires forall i :: 0 <= i < |tranches| ==>
               tranches[i] in allRecords && tranches[i] in trancheClasses && tranches[i] in orders
    requires forall i, k :: 0 <= i < |tranches| && 0 <= k < |orders[tranches[i]]| ==>
               multiset(orders[tranches[i]][k]) ==
                 multiset(TrancheCandidates(tranches[i], allRecords, trancheClasses, reader, siglen, tolerance))
    ensures done ==>
              forall i :: 0 <= i < |tranches| ==>
                TrancheDone(tranches[i], trainSet, testSet, allRecords, trancheClasses, reader, siglen, tolerance)
    ensures !done ==>
              exists i :: 0 <= i < |tranches| &&
                Rejected(orders[tranches[i]], |orders[tranches[i]]|, ratio, reader, ClassSet(trancheClasses[tranches[i]]))
  {
    trainSet, testSet := map[], map[];
    var i := 0;
    while i < |tranches|
      invariant 0 <= i <= |tranches|
      invariant forall j :: 0 <= j < i ==>
                  TrancheDone(tranches[j], trainSet, testSet, allRecords, trancheClasses, reader, siglen, tolerance)
    {
      var t := tranches[i];
      var found, tries := SplitTranche(orders[t], ratio, reader, ClassSet(trancheClasses[t]));
      if found.None? {
        return false, trainSet, testSet;
      }
      var order := orders[t][tries - 1];
      assert found.value.train + found.value.test == order;
      assert multiset(order) ==
               multiset(TrancheCandidates(tranches[i], allRecords, trancheClasses, reader, siglen, tolerance));
      var oldTrain, oldTest := trainSet, testSet;
      trainSet := trainSet[t := found.value.train];
      testSet := testSet[t := found.value.test];
      assert TrancheDone(t, trainSet, testSet, allRecords, trancheClasses, reader, siglen, tolerance);
      TranchesDoneStep(tranches, i, oldTrain, oldTest, found.value, allRecords, trancheClasses, reader, siglen, tolerance);
      i := i + 1;
    }
    return true, trainSet, testSet;
  }

  // ---------------------------------------------------------------------------
  // Selecting the lists of a dataset object
  // ---------------------------------------------------------------------------

  /** `self.training`: `True`, `False`, or a string such as "all". */
  datatype Training = PyBool(b: bool) | PyStr(s: string)

  /** The tranches used: `list(self.tranches or "ABEFG")`. */
  function UsedTranches(tranches: string): (ts: string)
    ensures tranches != "" ==> ts == tranches
    ensures tranches == "" ==> ts == "ABEFG"
  {
    if tranches == "" then "ABEFG" else tranches
  }

  /** `list_sum([table[k] for k in ts])`, failing on the first missing key. */
  function Gather(ts: string, table: map<char, seq<Record>>): (r: Result<seq<Record>>)
    ensures r.Ok? <==> forall k :: k in ts ==> k in table
    ensures r.Err? ==> r.error.KeyError?
    ensures r.Ok? ==> r.value == ListSum(seq(|ts|, i requires 0 <= i < |ts| && ts[i] in table => table[ts[i]]))
  {
    if forall k :: k in ts ==> k in table then
      Ok(ListSum(seq(|ts|, i requires 0 <= i < |ts| && ts[i] in table => table[ts[i]])))
    else
      Err(KeyError("tranche"))
  }

  /** The record list of a dataset object: train lists then test lists for
      "all", the train lists for `True`, the test lists otherwise. */
  function SelectRecords(training: Training, tranches: string,
                         trainSet: map<char, seq<Record>>, testSet: map<char, seq<Record>>)
    : (r: Result<seq<Record>>)
    ensures training == PyStr("all") ==>
              r == (var tr :- Gather(UsedTranches(tranches), trainSet);
                    var te :- Gather(UsedTranches(tranches), testSet);
                    Ok(tr + te))
    ensures training == PyBool(true) ==> r == Gather(UsedTranches(tranches), trainSet)
    ensures training != PyStr("all") && training != PyBool(true) ==>
              r == Gather(UsedTranches(tranches), testSet)
  {
    var ts := UsedTranches(tranches);
    if training == PyStr("all") then
      var tr :- Gather(ts, trainSet);
      var te :- Gather(ts, testSet);
      Ok(tr + te)
    else if training == PyBool(true) then Gather(ts, trainSet)
    else Gather(ts, testSet)
  }

  /** "all" is the train selection followed by the test selection. */
  lemma AllIsTrainThenTest(tranches: string, trainSet: map<char, seq<Record>>,
                           testSet: map<char, seq<Record>>)
    requires forall k :: k in UsedTranches(tranches) ==> k in trainSet && k in testSet
    ensures var all := SelectRecords(PyStr("all"), tranches, trainSet, testSet);
            var tr := SelectRecords(PyBool(true), tranches, trainSet, testSet);
            var te := SelectRecords(PyBool(false), tranches, trainSet, testSet);
            all.Ok? && tr.Ok? && te.Ok? && all.value == tr.value + te.value
  {
  }

  /** A record is selected for training exactly when the train list of one of
      the used tranches holds it. */
  lemma SelectedForTraining(tranches: string, trainSet: map<char, seq<Record>>,
                            testSet: map<char, seq<Record>>, rec: Record)
    requires forall k :: k in UsedTranches(tranches) ==> k in trainSet
    ensures var r := SelectRecords(PyBool(true), tranches, trainSet, testSet);
            r.Ok? && (rec in r.value <==>
                        exists i :: 0 <= i < |UsedTranches(tranches)| &&
                                    rec in trainSet[UsedTranches(tranches)[i]])
  {
    var ts := UsedTranches(tranches);
    var lists := seq(|ts|, i requires 0 <= i < |ts| && ts[i] in trainSet => trainSet[ts[i]]);
    ListSumContains(lists, rec);
    assert forall i :: 0 <= i < |ts| ==> lists[i] == trainSet[ts[i]];
  }
}
