/** The DEM shoulder analysis: the temperature-bound search around the peak
    of a log-DEM curve and the two shoulder metrics computed from its bounds
    (a pair of secant slopes and a trapezoid-rule ratio). */
module DemAnalysis {
  import opened Outcomes
  import opened Sequences

  /** One log-DEM sample as numpy holds it: a finite value or one of the two
      infinities that log10 of an empty or overflowing bin produces. */
  datatype LogDem = Finite(v: real) | PosInf | NegInf

  datatype DemError =
    | EmptyInput    // ValueError: numpy.max of an empty array
    | IndexError    // a search found nothing, or an index fell outside an array
    | NonFinite     // an inf or nan result of arithmetic on an infinite sample
    | ZeroDivision  // a zero denominator (numpy yields inf or nan)
    | ShapeMismatch // numpy.trapz on samples and abscissae of different lengths

  /** The dictionary returned by find_temp_bounds: i_cool, i_max, i_hot. */
  datatype Bounds = Bounds(cool: int, peak: nat, hot: int)

  predicate IsInf(x: LogDem) {
    !x.Finite?
  }

  /** numpy's `a > b` on samples. */
  predicate Greater(a: LogDem, b: LogDem) {
    match a
    case PosInf => !b.PosInf?
    case NegInf => false
    case Finite(x) => b.NegInf? || (b.Finite? && x > b.v)
  }

  /** dem_max - delta: an infinite peak stays infinite. */
  function Threshold(peak: LogDem, delta: real): (t: LogDem)
    ensures IsInf(t) <==> IsInf(peak)
    ensures peak.Finite? ==> (Greater(peak, t) <==> delta > 0.0)
  {
    match peak
    case Finite(x) => Finite(x - delta)
    case _ => peak
  }

  /** Python's s[i]: a negative index counts back from the end. */
  function PyIndex<T>(s: seq<T>, i: int): Result<T, DemError> {
    if 0 <= i < |s| then Ok(s[i])
    else if -|s| <= i < 0 then Ok(s[|s| + i])
    else Err(IndexError)
  }

  predicate FiniteAt(s: seq<LogDem>, i: int) {
    PyIndex(s, i).Ok? && PyIndex(s, i).value.Finite?
  }

  predicate InfAt(s: seq<LogDem>, i: int) {
    PyIndex(s, i).Ok? && IsInf(PyIndex(s, i).value)
  }

  /** The first index of the largest sample among dem[..n]. */
  function ArgMaxIn(dem: seq<LogDem>, n: nat): (r: nat)
    requires 0 < n <= |dem|
    ensures r < n
    ensures forall k :: 0 <= k < n ==> !Greater(dem[k], dem[r])
    ensures forall k :: 0 <= k < r ==> Greater(dem[r], dem[k])
  {
    if n == 1 then 0
    else
      var r := ArgMaxIn(dem, n - 1);
      if Greater(dem[n - 1], dem[r]) then n - 1 else r
  }

  /** numpy.argmax: the first index holding the largest sample. */
  function ArgMax(dem: seq<LogDem>): nat
    requires |dem| > 0
  {
    ArgMaxIn(dem, |dem|)
  }

  /** The first index at or after i whose sample is above t. */
  function FirstAboveFrom(s: seq<LogDem>, t: LogDem, i: nat): (r: Option<nat>)
    requires i <= |s|
    ensures r.Some? ==> i <= r.value < |s| && Greater(s[r.value], t)
    ensures r.Some? ==> forall m :: i <= m < r.value ==> !Greater(s[m], t)
    ensures r.None? ==> forall m :: i <= m < |s| ==> !Greater(s[m], t)
    decreases |s| - i
  {
    if i == |s| then None
    else if Greater(s[i], t) then Some(i)
    else FirstAboveFrom(s, t, i + 1)
  }

  /** np.where(s > t)[0][0], or None where np.where finds nothing. */
  function FirstAbove(s: seq<LogDem>, t: LogDem): Option<nat> {
    FirstAboveFrom(s, t, 0)
  }

  /** The last index below n whose sample is above t. */
  function LastAboveBefore(s: seq<LogDem>, t: LogDem, n: nat): (r: Option<nat>)
    requires n <= |s|
    ensures r.Some? ==> r.value < n && Greater(s[r.value], t)
    ensures r.Some? ==> forall m :: r.value < m < n ==> !Greater(s[m], t)
    ensures r.None? ==> forall m :: 0 <= m < n ==> !Greater(s[m], t)
  {
    if n == 0 then None
    else if Greater(s[n - 1], t) then Some(n - 1)
    else LastAboveBefore(s, t, n - 1)
  }

  /** np.where(s > t)[0][-1], or None where np.where finds nothing. */
  function LastAbove(s: seq<LogDem>, t: LogDem): Option<nat> {
    LastAboveBefore(s, t, |s|)
  }

  /** The cool-side walk of find_temp_bounds: from index i of the cool slice,
      step toward the peak (i + 1) while the sample there is infinite. It ends
      at the first finite sample, or raises IndexError off the slice's end. */
  function WalkCool(demCool: seq<LogDem>, i: int): (r: Result<int, DemError>)
    ensures r.Ok? ==> i <= r.value && FiniteAt(demCool, r.value)
    ensures r.Ok? ==> forall m :: i <= m < r.value ==> InfAt(demCool, m)
    ensures r.Err? ==> r.error == IndexError
    ensures r.Err? ==> i < -|demCool| || forall m :: i <= m < |demCool| ==> InfAt(demCool, m)
    decreases |demCool| - i
  {
    match PyIndex(demCool, i)
    case Err(e) => Err(e)
    case Ok(x) => if IsInf(x) then WalkCool(demCool, i + 1) else Ok(i)
  }

  /** The hot-side walk of find_temp_bounds: from index i of the hot slice,
      step toward the peak (i - 1) while the sample there is infinite. */
  function WalkHot(demHot: seq<LogDem>, i: int): (r: Result<int, DemError>)
    ensures r.Ok? ==> r.value <= i && FiniteAt(demHot, r.value)
    ensures r.Ok? ==> forall m :: r.value < m <= i ==> InfAt(demHot, m)
    ensures r.Err? ==> r.error == IndexError
    ensures r.Err? ==> i >= |demHot| || forall m :: -|demHot| <= m <= i ==> InfAt(demHot, m)
    decreases i + |demHot|
  {
    match PyIndex(demHot, i)
    case Err(e) => Err(e)
    case Ok(x) => if IsInf(x) then WalkHot(demHot, i - 1) else Ok(i)
  }

  /** dem_bound: the threshold delta below the peak sample. */
  function Bound(dem: seq<LogDem>, delta: real): LogDem
    requires |dem| > 0
  {
    Threshold(dem[ArgMax(dem)], delta)
  }

  /** dem[i_max:-1]: from the peak up to, but excluding, the last sample. */
  function HotSlice(dem: seq<LogDem>): seq<LogDem>
    requires |dem| > 0
  {
    dem[ArgMax(dem)..|dem| - 1]
  }

  /** dem[0:i_max]: every sample before the peak. */
  function CoolSlice(dem: seq<LogDem>): seq<LogDem>
    requires |dem| > 0
  {
    dem[..ArgMax(dem)]
  }

  /** Where the cool walk starts, given the first above-threshold index k of
      the cool slice: k - 1 as written, which is -1 when k is 0; the corrected
      search clamps that case to 0. */
  function CoolStart(k: nat, clampAtZero: bool): int {
    if clampAtZero && k == 0 then 0 else k - 1
  }

  /** find_temp_bounds as a value: the searches of lines 38-39 followed by the
      two independent walks of lines 45-58. The walks cannot disagree on the
      error they raise, so interleaving them, as the loop does, changes nothing. */
  function Search(dem: seq<LogDem>, delta: real, clampAtZero: bool): Result<Bounds, DemError> {
    if |dem| == 0 then Err(EmptyInput)
    else SearchIn(Bound(dem, delta), ArgMax(dem), HotSlice(dem), CoolSlice(dem), clampAtZero)
  }

  /** The search once the threshold, the peak index and the two slices are
      known. */
  function SearchIn(bound: LogDem, peak: nat, hs: seq<LogDem>, cs: seq<LogDem>, clampAtZero: bool): Result<Bounds, DemError> {
    match LastAbove(hs, bound)
    case None => Err(IndexError)
    case Some(j) =>
      match FirstAbove(cs, bound)
      case None => Err(IndexError)
      case Some(k) => WalkBoth(peak, hs, cs, j, k, clampAtZero)
  }

  /** The two walks, from the indices the searches found. */
  function WalkBoth(peak: nat, hs: seq<LogDem>, cs: seq<LogDem>, j: nat, k: nat, clampAtZero: bool): Result<Bounds, DemError> {
    match WalkCool(cs, CoolStart(k, clampAtZero))
    case Err(e) => Err(e)
    case Ok(c) =>
      match WalkHot(hs, j + 1)
      case Err(e) => Err(e)
      case Ok(h) => Ok(Bounds(c, peak, peak + h))
  }

  /** The bounds the code as written returns. */
  function TempBounds(dem: seq<LogDem>, delta: real): Result<Bounds, DemError> {
    Search(dem, delta, false)
  }

  /** The bounds with the cool start clamped at index 0 (see README, Findings). */
  function CorrectedTempBounds(dem: seq<LogDem>, delta: real): Result<Bounds, DemError> {
    Search(dem, delta, true)
  }

  /** find_temp_bounds with its two reads of temp: temp[i_max] (line 25),
      right after the peak is found, and temp_hot[i_hot] (line 57), where
      temp_hot is temp[i_max:-1], once the hot walk stops. Either raises
      IndexError on a temperature array that is too short. Every failure of
      the search on a non-empty curve is an IndexError too, so which one the
      code meets first does not change the result. The read of temp_cool at
      line 50 indexes a slice of dem the walk has just read, so it cannot
      fail. */
  function TempBoundsAt(temp: seq<real>, dem: seq<LogDem>, delta: real): Result<Bounds, DemError> {
    if |dem| == 0 then Err(EmptyInput)
    else if ArgMax(dem) >= |temp| then Err(IndexError)
    else
      match TempBounds(dem, delta)
      case Err(e) => Err(e)
      case Ok(b) => if PyIndex(PySlice(temp, b.peak, -1), b.hot - b.peak).Err? then Err(IndexError) else Ok(b)
  }

  /** The two walks of lines 45-58 together, with the read of temp_hot where
      the hot walk stops: Ok of both stopping indices, or the IndexError of
      whichever walk runs off its slice or of the temperature read. */
  function Walks(demCool: seq<LogDem>, demHot: seq<LogDem>, tempHot: seq<real>, cool0: int, hot0: int): Result<(int, int), DemError> {
    match WalkCool(demCool, cool0)
    case Err(e) => Err(e)
    case Ok(c) =>
      match WalkHot(demHot, hot0)
      case Err(e) => Err(e)
      case Ok(h) => if PyIndex(tempHot, h).Err? then Err(IndexError) else Ok((c, h))
  }

  /** The loop of lines 45-58: each pass advances whichever bound is not yet
      on a finite sample, the cool one first. */
  method WalkToFinite(demCool: seq<LogDem>, demHot: seq<LogDem>, tempHot: seq<real>, cool0: int, hot0: int)
    returns (r: Result<(int, int), DemError>)
    requires -1 <= cool0 <= |demCool| && -|demHot| <= hot0 <= |demHot|
    ensures r == Walks(demCool, demHot, tempHot, cool0, hot0)
  {
    var iCool, iHot := cool0, hot0;
    var foundCool, foundHot := false, false;
    while !foundCool || !foundHot
      invariant -1 <= iCool && iHot <= |demHot|
      invariant !foundCool ==> iCool <= |demCool|
      invariant !foundHot ==> -|demHot| - 1 <= iHot
      invariant foundCool ==> WalkCool(demCool, cool0) == Ok(iCool)
      invariant !foundCool ==> WalkCool(demCool, iCool) == WalkCool(demCool, cool0)
      invariant foundHot ==> WalkHot(demHot, hot0) == Ok(iHot) && PyIndex(tempHot, iHot).Ok?
      invariant !foundHot ==> WalkHot(demHot, iHot) == WalkHot(demHot, hot0)
      decreases (if foundCool then 0 else |demCool| + 1 - iCool) + (if foundHot then 0 else iHot + |demHot| + 1)
    {
      if !foundCool {
        var x := PyIndex(demCool, iCool);
        if x.Err? {
          return Err(IndexError);
        }
        if IsInf(x.value) {
          iCool := iCool + 1;
        } else {
          foundCool := true;
        }
      }
      if !foundHot {
        var y := PyIndex(demHot, iHot);
        if y.Err? {
          return Err(IndexError);
        }
        if IsInf(y.value) {
          iHot := iHot - 1;
        } else {
          var tempBound := PyIndex(tempHot, iHot);
          if tempBound.Err? {
            return Err(IndexError);
          }
          foundHot := true;
        }
      }
    }
    r := Ok((iCool, iHot));
  }

  /** Once both searches find a sample, the walks and the read of temp_hot
      decide the outcome. */
  lemma WalksDecide(temp: seq<real>, dem: seq<LogDem>, delta: real)
    requires |dem| > 0 && ArgMax(dem) < |temp|
    requires LastAbove(HotSlice(dem), Bound(dem, delta)).Some?
    requires FirstAbove(CoolSlice(dem), Bound(dem, delta)).Some?
    ensures
      var w := Walks(CoolSlice(dem), HotSlice(dem), PySlice(temp, ArgMax(dem), -1),
                     FirstAbove(CoolSlice(dem), Bound(dem, delta)).value - 1,
                     LastAbove(HotSlice(dem), Bound(dem, delta)).value + 1);
      TempBoundsAt(temp, dem, delta) ==
        if w.Err? then Err(w.error) else Ok(Bounds(w.value.0, ArgMax(dem), ArgMax(dem) + w.value.1))
  {
    var peak := ArgMax(dem);
    var hs, cs := HotSlice(dem), CoolSlice(dem);
    var j := LastAbove(hs, Bound(dem, delta)).value;
    var k := FirstAbove(cs, Bound(dem, delta)).value;
    assert CoolStart(k, false) == k as int - 1;
    assert TempBounds(dem, delta) == WalkBoth(peak, hs, cs, j, k, false);
    var tempHot := PySlice(temp, peak, -1);
    if WalkCool(cs, k as int - 1).Ok? && WalkHot(hs, j + 1).Ok? {
      var b := Bounds(WalkCool(cs, k as int - 1).value, peak, peak + WalkHot(hs, j + 1).value);
      assert TempBounds(dem, delta) == Ok(b);
      assert PySlice(temp, b.peak, -1) == tempHot && b.hot - b.peak == WalkHot(hs, j + 1).value;
    }
  }

  /** A search that finds no sample above the threshold, on either side,
      raises IndexError. */
  lemma SearchMisses(temp: seq<real>, dem: seq<LogDem>, delta: real)
    requires |dem| > 0 && ArgMax(dem) < |temp|
    ensures LastAbove(HotSlice(dem), Bound(dem, delta)).None? ==> TempBoundsAt(temp, dem, delta) == Err(IndexError)
    ensures FirstAbove(CoolSlice(dem), Bound(dem, delta)).None? ==> TempBoundsAt(temp, dem, delta) == Err(IndexError)
  {
  }

  /** find_temp_bounds as the code runs it: the peak and its temperature,
      the threshold, the two searches, then the walk loop. */
  method FindTempBounds(temp: seq<real>, dem: seq<LogDem>, delta: real) returns (r: Result<Bounds, DemError>)
    ensures r == TempBoundsAt(temp, dem, delta)
  {
    if |dem| == 0 {
      return Err(EmptyInput);
    }
    var iMax := ArgMax(dem);
    if iMax >= |temp| {
      return Err(IndexError);
    }
    var bound := Threshold(dem[iMax], delta);
    var demHot := dem[iMax..|dem| - 1];
    var tempHot := PySlice(temp, iMax, -1);
    var demCool := dem[..iMax];
    assert bound == Bound(dem, delta) && demHot == HotSlice(dem) && demCool == CoolSlice(dem);
    SearchMisses(temp, dem, delta);
    var lastHot := LastAbove(demHot, bound);
    if lastHot.None? {
      return Err(IndexError);
    }
    var firstCool := FirstAbove(demCool, bound);
    if firstCool.None? {
      return Err(IndexError);
    }
    var walked := WalkToFinite(demCool, demHot, tempHot, firstCool.value as int - 1, lastHot.value as int + 1);
    WalksDecide(temp, dem, delta);
    if walked.Err? {
      return Err(walked.error);
    }
    r := Ok(Bounds(walked.value.0, iMax, iMax + walked.value.1));
  }

  // ---------------------------------------------------------------------
  // What the search guarantees

  /** Once the hot search finds any sample above the threshold, the peak is
      finite; hence the curve holds no +inf at all. */
  lemma FoundImpliesFinitePeak(dem: seq<LogDem>, delta: real)
    requires |dem| > 0
    requires LastAbove(HotSlice(dem), Bound(dem, delta)).Some?
    ensures dem[ArgMax(dem)].Finite?
    ensures forall m :: 0 <= m < |dem| ==> dem[m] != PosInf
  {
    var iMax := ArgMax(dem);
    var bound := Bound(dem, delta);
    var j := LastAbove(HotSlice(dem), bound).value;
    var x := dem[iMax + j];
    assert Greater(x, bound) by {
      assert HotSlice(dem)[j] == x;
    }
    assert !Greater(x, dem[iMax]);
    forall m | 0 <= m < |dem|
      ensures dem[m] != PosInf
    {
      assert !Greater(dem[m], dem[iMax]);
    }
  }

  /** What a successful search found: both searches succeeded, the peak is
      numpy's argmax, and the walks ended at the returned bounds. */
  lemma SearchFound(dem: seq<LogDem>, delta: real, clampAtZero: bool, b: Bounds)
    requires Search(dem, delta, clampAtZero) == Ok(b)
    ensures |dem| > 0 && b.peak == ArgMax(dem)
    ensures LastAbove(HotSlice(dem), Bound(dem, delta)).Some?
    ensures FirstAbove(CoolSlice(dem), Bound(dem, delta)).Some?
    ensures WalkCool(CoolSlice(dem), CoolStart(FirstAbove(CoolSlice(dem), Bound(dem, delta)).value, clampAtZero)) == Ok(b.cool)
    ensures WalkHot(HotSlice(dem), LastAbove(HotSlice(dem), Bound(dem, delta)).value + 1) == Ok(b.hot - b.peak)
  {
  }

  /** The bounds the code as written returns: the peak is numpy's argmax;
      cool lies before it (possibly at -1) and hot at or after it, never on the
      last sample; each walk moves at most one step, never past the outermost
      above-threshold sample, and only over an infinite sample. */
  lemma TempBoundsFound(dem: seq<LogDem>, delta: real, b: Bounds)
    requires TempBounds(dem, delta) == Ok(b)
    ensures |dem| >= 4 && b.peak == ArgMax(dem) && dem[b.peak].Finite?
    ensures -1 <= b.cool < b.peak <= b.hot <= |dem| - 2
    ensures dem[b.hot].Finite?
    ensures 0 <= b.cool ==> dem[b.cool].Finite?
    ensures b.cool == -1 ==> dem[b.peak - 1].Finite? && Greater(dem[0], Bound(dem, delta))
    ensures FirstAbove(CoolSlice(dem), Bound(dem, delta)).Some?
    ensures LastAbove(HotSlice(dem), Bound(dem, delta)).Some?
    ensures var k := FirstAbove(CoolSlice(dem), Bound(dem, delta)).value;
      k - 1 <= b.cool <= k && (b.cool == k ==> InfAt(CoolSlice(dem), k - 1))
    ensures var j := LastAbove(HotSlice(dem), Bound(dem, delta)).value;
      b.peak + j <= b.hot <= b.peak + j + 1 && (b.hot == b.peak + j ==> dem[b.hot + 1] == NegInf)
  {
    SearchFound(dem, delta, false, b);
    var bound := Bound(dem, delta);
    var hs, cs := HotSlice(dem), CoolSlice(dem);
    var iMax := ArgMax(dem);
    var j := LastAbove(hs, bound).value;
    var k := FirstAbove(cs, bound).value;
    FoundImpliesFinitePeak(dem, delta);
    var c, h := b.cool, b.hot - iMax;
    assert cs[k] == dem[k] && hs[j] == dem[iMax + j];
    assert !InfAt(cs, k) && !InfAt(hs, j);
    assert k - 1 <= c <= k;
    assert j <= h <= j + 1;
    assert j + 1 < |hs|;
    if c == -1 {
      assert PyIndex(cs, -1) == Ok(dem[iMax - 1]);
    }
    if h == j {
      assert InfAt(hs, j + 1) && hs[j + 1] == dem[iMax + j + 1];
    }
  }

  /** No sample before the cool bound, and none after the hot bound other
      than the last, is above the threshold. */
  lemma TempBoundsOutside(dem: seq<LogDem>, delta: real, b: Bounds)
    requires TempBounds(dem, delta) == Ok(b)
    ensures |dem| > 0 && b.cool < |dem| && 0 <= b.peak <= b.hot
    ensures forall m :: 0 <= m < b.cool ==> !Greater(dem[m], Bound(dem, delta))
    ensures forall m :: b.hot < m < |dem| - 1 ==> !Greater(dem[m], Bound(dem, delta))
  {
    SearchFound(dem, delta, false, b);
    var bound := Bound(dem, delta);
    var hs, cs := HotSlice(dem), CoolSlice(dem);
    var iMax := ArgMax(dem);
    var j := LastAbove(hs, bound).value;
    var k := FirstAbove(cs, bound).value;
    var c, h := b.cool, b.hot - iMax;
    assert c <= k && j <= h;
    forall m | 0 <= m < c
      ensures !Greater(dem[m], bound)
    {
      assert cs[m] == dem[m];
    }
    forall m | iMax + h < m < |dem| - 1
      ensures !Greater(dem[m], bound)
    {
      assert hs[m - iMax] == dem[m];
    }
  }

  /** When the search fails, and why: IndexError exactly when the cool slice
      has no sample above the threshold, or the hot slice has none, or its last
      one is the final sample of that (truncated) slice. In particular a peak at
      index 0, or at one of the last two indices, always fails. */
  lemma TempBoundsFails(dem: seq<LogDem>, delta: real)
    requires |dem| > 0
    ensures TempBounds(dem, delta).Err? <==>
      || FirstAbove(CoolSlice(dem), Bound(dem, delta)).None?
      || LastAbove(HotSlice(dem), Bound(dem, delta)).None?
      || LastAbove(HotSlice(dem), Bound(dem, delta)).value == |HotSlice(dem)| - 1
    ensures TempBounds(dem, delta).Err? ==> TempBounds(dem, delta).error == IndexError
    ensures ArgMax(dem) == 0 || ArgMax(dem) >= |dem| - 2 ==> TempBounds(dem, delta) == Err(IndexError)
  {
    var bound := Bound(dem, delta);
    var hs, cs := HotSlice(dem), CoolSlice(dem);
    var iMax := ArgMax(dem);
    if FirstAbove(cs, bound).Some? && LastAbove(hs, bound).Some? {
      var j := LastAbove(hs, bound).value;
      var k := FirstAbove(cs, bound).value;
      FoundImpliesFinitePeak(dem, delta);
      assert cs[k] == dem[k] && hs[j] == dem[iMax + j];
      assert FiniteAt(cs, k) && FiniteAt(hs, j);
      assert WalkCool(cs, k as int - 1).Ok?;
      if j + 1 < |hs| {
        assert WalkHot(hs, j + 1).Ok?;
      } else {
        assert PyIndex(hs, j + 1).Err?;
      }
    }
  }

  /** The corrected search differs from the code as written only where the
      latter returns -1 for the cool bound: it fails on the same curves, and
      otherwise returns the same bounds with the cool bound clamped to 0. */
  lemma CorrectedOnlyClampsCool(dem: seq<LogDem>, delta: real)
    ensures CorrectedTempBounds(dem, delta) ==
      match TempBounds(dem, delta)
      case Err(e) => Err(e)
      case Ok(b) => Ok(b.(cool := if b.cool < 0 then 0 else b.cool))
  {
    if |dem| > 0 {
      var bound := Bound(dem, delta);
      var hs, cs := HotSlice(dem), CoolSlice(dem);
      var iMax := ArgMax(dem);
      if FirstAbove(cs, bound).Some? && LastAbove(hs, bound).Some? {
        var k := FirstAbove(cs, bound).value;
        FoundImpliesFinitePeak(dem, delta);
        assert cs[k] == dem[k];
        assert FiniteAt(cs, k);
        if k == 0 {
          assert WalkCool(cs, 0) == Ok(0);
          var c := WalkCool(cs, -1);
          assert c.Ok? && (c.value == -1 || c.value == 0);
        }
      }
    }
  }

  /** The bounds the corrected search returns: both are real indices into the
      curve, on finite samples, strictly below and at or above the peak. */
  lemma CorrectedTempBoundsFound(dem: seq<LogDem>, delta: real, b: Bounds)
    requires CorrectedTempBounds(dem, delta) == Ok(b)
    ensures |dem| >= 4 && b.peak == ArgMax(dem)
    ensures 0 <= b.cool < b.peak <= b.hot <= |dem| - 2
    ensures dem[b.cool].Finite? && dem[b.peak].Finite? && dem[b.hot].Finite?
    ensures forall k :: 0 <= k < |dem| ==> !Greater(dem[k], dem[b.peak])
    ensures forall m :: 0 <= m < b.cool ==> !Greater(dem[m], Bound(dem, delta))
    ensures forall m :: b.hot < m < |dem| - 1 ==> !Greater(dem[m], Bound(dem, delta))
  {
    CorrectedOnlyClampsCool(dem, delta);
    var w := TempBounds(dem, delta).value;
    TempBoundsFound(dem, delta, w);
    TempBoundsOutside(dem, delta, w);
  }

  // ---------------------------------------------------------------------
  // Shifting the whole curve up or down leaves the bounds where they are

  function Lift(x: LogDem, c: real): LogDem {
    match x
    case Finite(v) => Finite(v + c)
    case _ => x
  }

  /** The curve moved vertically by c (log-DEM plus a constant). */
  function Shift(dem: seq<LogDem>, c: real): seq<LogDem> {
    seq(|dem|, k requires 0 <= k < |dem| => Lift(dem[k], c))
  }

  lemma {:induction false} ArgMaxInShift(dem: seq<LogDem>, c: real, n: nat)
    requires 0 < n <= |dem|
    ensures ArgMaxIn(Shift(dem, c), n) == ArgMaxIn(dem, n)
  {
    if n > 1 {
      ArgMaxInShift(dem, c, n - 1);
    }
  }

  lemma {:induction false} FirstAboveFromShift(s: seq<LogDem>, t: LogDem, c: real, i: nat)
    requires i <= |s|
    ensures FirstAboveFrom(Shift(s, c), Lift(t, c), i) == FirstAboveFrom(s, t, i)
    decreases |s| - i
  {
    if i < |s| {
      FirstAboveFromShift(s, t, c, i + 1);
    }
  }

  lemma {:induction false} LastAboveBeforeShift(s: seq<LogDem>, t: LogDem, c: real, n: nat)
    requires n <= |s|
    ensures LastAboveBefore(Shift(s, c), Lift(t, c), n) == LastAboveBefore(s, t, n)
  {
    if n > 0 {
      LastAboveBeforeShift(s, t, c, n - 1);
    }
  }

  lemma {:induction false} WalkCoolShift(s: seq<LogDem>, c: real, i: int)
    ensures WalkCool(Shift(s, c), i) == WalkCool(s, i)
    decreases |s| - i
  {
    if -|s| <= i < |s| {
      WalkCoolShift(s, c, i + 1);
    }
  }

  lemma {:induction false} WalkHotShift(s: seq<LogDem>, c: real, i: int)
    ensures WalkHot(Shift(s, c), i) == WalkHot(s, i)
    decreases i + |s|
  {
    if -|s| <= i < |s| {
      WalkHotShift(s, c, i - 1);
    }
  }

  /** The pieces the search reads off a shifted curve are the shifted pieces. */
  lemma ShiftPieces(dem: seq<LogDem>, delta: real, c: real)
    requires |dem| > 0
    ensures ArgMax(Shift(dem, c)) == ArgMax(dem)
    ensures Bound(Shift(dem, c), delta) == Lift(Bound(dem, delta), c)
    ensures HotSlice(Shift(dem, c)) == Shift(HotSlice(dem), c)
    ensures CoolSlice(Shift(dem, c)) == Shift(CoolSlice(dem), c)
  {
    ArgMaxInShift(dem, c, |dem|);
  }

  /** The threshold tracks the peak, so moving the curve by any constant c
      leaves the peak, both bounds and every failure unchanged (as written and
      corrected alike). */
  lemma SearchShiftInvariant(dem: seq<LogDem>, delta: real, c: real, clampAtZero: bool)
    ensures Search(Shift(dem, c), delta, clampAtZero) == Search(dem, delta, clampAtZero)
  {
    if |dem| > 0 {
      ShiftPieces(dem, delta, c);
      SearchInShift(Bound(dem, delta), ArgMax(dem), HotSlice(dem), CoolSlice(dem), c, clampAtZero);
    }
  }

  /** The search reads the slices only through comparisons with the threshold
      and infinity tests, which a common shift leaves alone. */
  lemma SearchInShift(bound: LogDem, peak: nat, hs: seq<LogDem>, cs: seq<LogDem>, c: real, clampAtZero: bool)
    ensures SearchIn(Lift(bound, c), peak, Shift(hs, c), Shift(cs, c), clampAtZero) == SearchIn(bound, peak, hs, cs, clampAtZero)
  {
    LastAboveBeforeShift(hs, bound, c, |hs|);
    FirstAboveFromShift(cs, bound, c, 0);
    var k, j := FirstAbove(cs, bound), LastAbove(hs, bound);
    if k.Some? && j.Some? {
      WalkBothShift(peak, hs, cs, j.value, k.value, c, clampAtZero);
    }
  }

  lemma WalkBothShift(peak: nat, hs: seq<LogDem>, cs: seq<LogDem>, j: nat, k: nat, c: real, clampAtZero: bool)
    ensures WalkBoth(peak, Shift(hs, c), Shift(cs, c), j, k, clampAtZero) == WalkBoth(peak, hs, cs, j, k, clampAtZero)
  {
    WalkCoolShift(cs, c, CoolStart(k, clampAtZero));
    WalkHotShift(hs, c, j + 1);
  }

  // ---------------------------------------------------------------------
  // dem_shoulder_compare_fit

  /** a_hot and a_cool. */
  datatype Slopes = Slopes(aHot: real, aCool: real)

  predicate StrictlyIncreasing(xs: seq<real>) {
    forall i, j :: 0 <= i < j < |xs| ==> xs[i] < xs[j]
  }

  /** (y1 - y0) / (x1 - x0) on numpy floats; where numpy would produce inf or
      nan (an infinite sample, a zero denominator) the model reports why. */
  function Secant(y0: LogDem, y1: LogDem, x0: real, x1: real): Result<real, DemError> {
    if IsInf(y0) || IsInf(y1) then Err(NonFinite)
    else if x1 == x0 then Err(ZeroDivision)
    else Ok((y1.v - y0.v) / (x1 - x0))
  }

  /** The secant slopes from the peak to the hot bound and from the cool
      bound to the peak, read with Python indexing. */
  function FitSlopes(temp: seq<real>, dem: seq<LogDem>, b: Bounds): Result<Slopes, DemError> {
    var dHot :- PyIndex(dem, b.hot);
    var dMax :- PyIndex(dem, b.peak);
    var tHot :- PyIndex(temp, b.hot);
    var tMax :- PyIndex(temp, b.peak);
    var dCool :- PyIndex(dem, b.cool);
    var tCool :- PyIndex(temp, b.cool);
    var aHot :- Secant(dMax, dHot, tMax, tHot);
    var aCool :- Secant(dCool, dMax, tCool, tMax);
    Ok(Slopes(aHot, aCool))
  }

  /** dem_shoulder_compare_fit as written. */
  function DemShoulderCompareFit(temp: seq<real>, dem: seq<LogDem>, delta: real): Result<Slopes, DemError> {
    var b :- TempBoundsAt(temp, dem, delta);
    FitSlopes(temp, dem, b)
  }

  lemma QuotientSign(a: real, d: real)
    requires d > 0.0
    ensures a <= 0.0 ==> a / d <= 0.0
    ensures a >= 0.0 ==> a / d >= 0.0
  {
    assert a / d * d == a;
  }

  /** With strictly increasing temperatures and the corrected bounds, the hot
      slope is never positive and the cool slope never negative, because the
      peak is the largest sample; a hot bound on the peak itself leaves the hot
      slope undefined. */
  lemma CorrectedFitSlopeSigns(temp: seq<real>, dem: seq<LogDem>, delta: real, b: Bounds)
    requires |temp| == |dem| && StrictlyIncreasing(temp)
    requires CorrectedTempBounds(dem, delta) == Ok(b)
    ensures b.peak == b.hot ==> FitSlopes(temp, dem, b) == Err(ZeroDivision)
    ensures b.peak < b.hot ==>
      FitSlopes(temp, dem, b).Ok? && FitSlopes(temp, dem, b).value.aHot <= 0.0 <= FitSlopes(temp, dem, b).value.aCool
  {
    CorrectedTempBoundsFound(dem, delta, b);
    assert !Greater(dem[b.hot], dem[b.peak]) && !Greater(dem[b.cool], dem[b.peak]);
    assert temp[b.cool] < temp[b.peak];
    QuotientSign(dem[b.peak].v - dem[b.cool].v, temp[b.peak] - temp[b.cool]);
    if b.peak < b.hot {
      assert temp[b.peak] < temp[b.hot];
      QuotientSign(dem[b.hot].v - dem[b.peak].v, temp[b.hot] - temp[b.peak]);
    }
  }

  // ---------------------------------------------------------------------
  // dem_shoulder_compare_integrate

  predicate AllFinite(ys: seq<LogDem>) {
    forall k :: 0 <= k < |ys| ==> ys[k].Finite?
  }

  /** numpy.trapz(ys, x=xs): the trapezoid rule over the given abscissae. */
  function Trapz(ys: seq<LogDem>, xs: seq<real>): real
    requires |ys| == |xs| && AllFinite(ys)
  {
    if |ys| < 2 then 0.0
    else (xs[1] - xs[0]) * (ys[0].v + ys[1].v) / 2.0 + Trapz(ys[1..], xs[1..])
  }

  /** A Python slice bound: negative counts back from the end, then clamped. */
  function PySliceBound(n: nat, i: int): (r: nat)
    ensures r <= n
  {
    if i < 0 then (if n + i < 0 then 0 else n + i)
    else if i > n then n
    else i
  }

  /** Python's s[a:b]. */
  function PySlice<T>(s: seq<T>, a: int, b: int): seq<T> {
    var lo, hi := PySliceBound(|s|, a), PySliceBound(|s|, b);
    if lo < hi then s[lo..hi] else []
  }

  /** A numpy float as the trapezoid sums produce it: a real, an infinity or
      nan. The two zeros are not told apart. */
  datatype Float = Real(x: real) | PlusInf | MinusInf | NaN

  function FloatOf(y: LogDem): Float {
    match y
    case Finite(v) => Real(v)
    case PosInf => PlusInf
    case NegInf => MinusInf
  }

  /** IEEE addition: nan absorbs, infinities of opposite signs give nan, and
      otherwise an infinity wins. */
  function FloatAdd(a: Float, b: Float): (r: Float)
    ensures r.Real? <==> a.Real? && b.Real?
  {
    match (a, b)
    case (NaN, _) => NaN
    case (_, NaN) => NaN
    case (Real(p), Real(q)) => Real(p + q)
    case (PlusInf, MinusInf) => NaN
    case (MinusInf, PlusInf) => NaN
    case (PlusInf, _) => PlusInf
    case (_, PlusInf) => PlusInf
    case (MinusInf, _) => MinusInf
    case (_, MinusInf) => MinusInf
  }

  /** IEEE product with the real c: an infinity keeps its sign for a positive
      c, flips it for a negative one, and times zero is nan. */
  function FloatScale(c: real, a: Float): (r: Float)
    ensures r.Real? <==> a.Real?
  {
    match a
    case Real(p) => Real(c * p)
    case NaN => NaN
    case PlusInf => if c > 0.0 then PlusInf else if c < 0.0 then MinusInf else NaN
    case MinusInf => if c > 0.0 then MinusInf else if c < 0.0 then PlusInf else NaN
  }

  function Halve(a: Float): Float {
    if a.Real? then Real(a.x / 2.0) else a
  }

  /** numpy.trapz on samples that may be infinite: the segments
      (x1 - x0) * (y0 + y1) / 2.0 summed in IEEE arithmetic. */
  function FloatTrapz(ys: seq<LogDem>, xs: seq<real>): Float
    requires |ys| == |xs|
  {
    if |ys| < 2 then Real(0.0)
    else
      var segment := Halve(FloatScale(xs[1] - xs[0], FloatAdd(FloatOf(ys[0]), FloatOf(ys[1]))));
      FloatAdd(segment, FloatTrapz(ys[1..], xs[1..]))
  }

  /** hot_shoulder / total_shoulder: a finite integral over an infinite total
      is a zero (numpy's -0.0 or 0.0); an infinite or nan quotient is reported
      as NonFinite, and a zero total as ZeroDivision. */
  function Quotient(hot: Float, total: Float): Result<real, DemError> {
    if !hot.Real? || total.NaN? then Err(NonFinite)
    else if !total.Real? then Ok(0.0)
    else if total.x == 0.0 then Err(ZeroDivision)
    else Ok(hot.x / total.x)
  }

  /** The hot-shoulder strength for given bounds: the trapezoid sum over
      dem[i_max:i_hot] divided by the one over dem[i_cool:i_hot]. numpy raises
      on slices of different lengths. */
  function ShoulderStrength(temp: seq<real>, dem: seq<LogDem>, b: Bounds): Result<real, DemError> {
    var hotY, hotX := PySlice(dem, b.peak, b.hot), PySlice(temp, b.peak, b.hot);
    var totalY, totalX := PySlice(dem, b.cool, b.hot), PySlice(temp, b.cool, b.hot);
    if |hotY| != |hotX| || |totalY| != |totalX| then Err(ShapeMismatch)
    else Quotient(FloatTrapz(hotY, hotX), FloatTrapz(totalY, totalX))
  }

  /** dem_shoulder_compare_integrate as written. */
  function DemShoulderCompareIntegrate(temp: seq<real>, dem: seq<LogDem>, delta: real): Result<real, DemError> {
    var b :- TempBoundsAt(temp, dem, delta);
    ShoulderStrength(temp, dem, b)
  }

  /** The trapezoid sum splits at any sample m, which both halves share. */
  lemma {:induction false} TrapzSplit(ys: seq<LogDem>, xs: seq<real>, m: nat)
    requires |ys| == |xs| && AllFinite(ys) && m < |ys|
    ensures Trapz(ys, xs) == Trapz(ys[..m + 1], xs[..m + 1]) + Trapz(ys[m..], xs[m..])
  {
    if m == 0 {
      assert ys[0..] == ys && xs[0..] == xs;
    } else {
      TrapzSplit(ys[1..], xs[1..], m - 1);
      assert ys[1..][..m] == ys[..m + 1][1..] && xs[1..][..m] == xs[..m + 1][1..];
      assert ys[1..][m - 1..] == ys[m..] && xs[1..][m - 1..] == xs[m..];
    }
  }

  lemma SegmentNonNegative(dx: real, y0: real, y1: real)
    requires dx >= 0.0 && y0 >= 0.0 && y1 >= 0.0
    ensures dx * (y0 + y1) / 2.0 >= 0.0
  {
  }

  /** Non-negative samples over non-decreasing abscissae have a
      non-negative trapezoid sum. */
  lemma {:induction false} TrapzNonNegative(ys: seq<LogDem>, xs: seq<real>)
    requires |ys| == |xs| && AllFinite(ys)
    requires forall k :: 0 <= k < |ys| ==> ys[k].v >= 0.0
    requires forall k :: 0 <= k < |xs| - 1 ==> xs[k] <= xs[k + 1]
    ensures Trapz(ys, xs) >= 0.0
  {
    if |ys| >= 2 {
      SegmentNonNegative(xs[1] - xs[0], ys[0].v, ys[1].v);
      TrapzNonNegative(ys[1..], xs[1..]);
    }
  }

  /** The total integral is the cool part (cool bound to peak, the peak
      included) plus the hot integral (peak to hot bound, the bound excluded). */
  lemma TotalSplitsAtPeak(temp: seq<real>, dem: seq<LogDem>, b: Bounds)
    requires |temp| == |dem| && 0 <= b.cool <= b.peak < b.hot <= |dem|
    requires AllFinite(dem[b.cool..b.hot])
    ensures AllFinite(dem[b.cool..b.peak + 1]) && AllFinite(dem[b.peak..b.hot])
    ensures Trapz(dem[b.cool..b.hot], temp[b.cool..b.hot]) ==
      Trapz(dem[b.cool..b.peak + 1], temp[b.cool..b.peak + 1]) + Trapz(dem[b.peak..b.hot], temp[b.peak..b.hot])
  {
    var ys, xs := dem[b.cool..b.hot], temp[b.cool..b.hot];
    var m := b.peak - b.cool;
    TrapzSplit(ys, xs, m);
    SliceTake(dem, b.cool, b.hot, m + 1);
    SliceTake(temp, b.cool, b.hot, m + 1);
    SliceDrop(dem, b.cool, b.hot, m);
    SliceDrop(temp, b.cool, b.hot, m);
  }

  lemma RatioAtMostOne(part: real, whole: real)
    requires 0.0 <= part <= whole && whole > 0.0
    ensures 0.0 <= part / whole <= 1.0
  {
    assert part / whole * whole == part;
  }

  /** With non-negative samples and increasing temperatures the hot-shoulder
      integral lies between zero and the total integral. */
  lemma HotAtMostTotal(temp: seq<real>, dem: seq<LogDem>, b: Bounds)
    requires |temp| == |dem| && StrictlyIncreasing(temp)
    requires 0 <= b.cool <= b.peak <= b.hot <= |dem|
    requires forall k :: 0 <= k < |dem| && dem[k].Finite? ==> dem[k].v >= 0.0
    requires AllFinite(PySlice(dem, b.cool, b.hot))
    ensures |PySlice(dem, b.peak, b.hot)| == |PySlice(temp, b.peak, b.hot)|
    ensures |PySlice(dem, b.cool, b.hot)| == |PySlice(temp, b.cool, b.hot)|
    ensures AllFinite(PySlice(dem, b.peak, b.hot))
    ensures 0.0 <= Trapz(PySlice(dem, b.peak, b.hot), PySlice(temp, b.peak, b.hot))
    ensures Trapz(PySlice(dem, b.peak, b.hot), PySlice(temp, b.peak, b.hot))
         <= Trapz(PySlice(dem, b.cool, b.hot), PySlice(temp, b.cool, b.hot))
  {
    var hotY, hotX := PySlice(dem, b.peak, b.hot), PySlice(temp, b.peak, b.hot);
    var totalY, totalX := PySlice(dem, b.cool, b.hot), PySlice(temp, b.cool, b.hot);
    assert totalY == dem[b.cool..b.hot] && totalX == temp[b.cool..b.hot];
    if b.peak < b.hot {
      assert hotY == dem[b.peak..b.hot] && hotX == temp[b.peak..b.hot];
      assert forall k :: 0 <= k < |hotX| - 1 ==> hotX[k] <= hotX[k + 1];
      TrapzNonNegative(hotY, hotX);
      TotalSplitsAtPeak(temp, dem, b);
      var coolY, coolX := dem[b.cool..b.peak + 1], temp[b.cool..b.peak + 1];
      assert forall k :: 0 <= k < |coolX| - 1 ==> coolX[k] <= coolX[k + 1];
      TrapzNonNegative(coolY, coolX);
    } else {
      assert hotY == [] && hotX == [];
      assert forall k :: 0 <= k < |totalX| - 1 ==> totalX[k] <= totalX[k + 1];
      TrapzNonNegative(totalY, totalX);
    }
  }

  /** On finite samples the IEEE sum is the real trapezoid sum; conversely a
      finite sum over two or more samples means every sample is finite. */
  lemma {:induction false} FloatTrapzFinite(ys: seq<LogDem>, xs: seq<real>)
    requires |ys| == |xs|
    ensures AllFinite(ys) ==> FloatTrapz(ys, xs) == Real(Trapz(ys, xs))
    ensures |ys| >= 2 && FloatTrapz(ys, xs).Real? ==> AllFinite(ys)
  {
    if |ys| >= 2 {
      FloatTrapzFinite(ys[1..], xs[1..]);
      if AllFinite(ys) {
        assert AllFinite(ys[1..]);
      }
      if FloatTrapz(ys, xs).Real? {
        assert ys[0].Finite? && ys[1].Finite?;
        forall k | 0 <= k < |ys|
          ensures ys[k].Finite?
        {
          if k >= 2 {
            assert ys[k] == ys[1..][k - 1];
          }
        }
      }
    }
  }

  /** Over increasing abscissae, samples that are finite or -inf never sum to
      +inf or nan, and a -inf sample among two or more makes the sum -inf. */
  lemma {:induction false} TrapzDownToMinusInf(ys: seq<LogDem>, xs: seq<real>)
    requires |ys| == |xs|
    requires forall k :: 0 <= k < |xs| - 1 ==> xs[k] < xs[k + 1]
    requires forall k :: 0 <= k < |ys| ==> !ys[k].PosInf?
    ensures FloatTrapz(ys, xs).Real? || FloatTrapz(ys, xs) == MinusInf
    ensures |ys| >= 2 && (exists k :: 0 <= k < |ys| && ys[k].NegInf?) ==> FloatTrapz(ys, xs) == MinusInf
  {
    if |ys| >= 2 {
      assert forall k :: 0 <= k < |xs[1..]| - 1 ==> xs[1..][k] < xs[1..][k + 1];
      TrapzDownToMinusInf(ys[1..], xs[1..]);
      if exists k :: 0 <= k < |ys| && ys[k].NegInf? {
        var k :| 0 <= k < |ys| && ys[k].NegInf?;
        if k >= 2 {
          assert ys[1..][k - 1].NegInf?;
        }
      }
    }
  }

  /** A log-DEM is -inf where a bin is empty. When such a sample lies in the
      total slice, no sample there is +inf and the hot slice is finite, the
      total integral is -inf and the strength is zero; only a total slice of
      one sample (an empty hot slice) divides by zero instead. */
  lemma StrengthOverMinusInfTotal(temp: seq<real>, dem: seq<LogDem>, b: Bounds)
    requires |temp| == |dem| && 0 <= b.cool <= b.peak <= b.hot <= |dem|
    requires forall k :: b.cool <= k < b.hot - 1 ==> temp[k] < temp[k + 1]
    requires forall k :: b.cool <= k < b.hot ==> !dem[k].PosInf?
    requires forall k :: b.peak <= k < b.hot ==> dem[k].Finite?
    requires exists k :: b.cool <= k < b.hot && dem[k].NegInf?
    ensures ShoulderStrength(temp, dem, b) == if b.hot - b.cool >= 2 then Ok(0.0) else Err(ZeroDivision)
  {
    var k :| b.cool <= k < b.hot && dem[k].NegInf?;
    var hotY, hotX := PySlice(dem, b.peak, b.hot), PySlice(temp, b.peak, b.hot);
    var totalY, totalX := PySlice(dem, b.cool, b.hot), PySlice(temp, b.cool, b.hot);
    assert totalY == dem[b.cool..b.hot] && totalX == temp[b.cool..b.hot];
    assert hotY == dem[b.peak..b.hot] && hotX == temp[b.peak..b.hot];
    assert AllFinite(hotY);
    FloatTrapzFinite(hotY, hotX);
    assert totalY[k - b.cool].NegInf?;
    assert forall j :: 0 <= j < |totalX| - 1 ==> totalX[j] < totalX[j + 1];
    TrapzDownToMinusInf(totalY, totalX);
  }

  /** With non-negative samples and increasing temperatures the hot-shoulder
      strength of bounds inside the curve lies in [0, 1], infinite samples
      included. */
  lemma StrengthInUnitInterval(temp: seq<real>, dem: seq<LogDem>, b: Bounds)
    requires |temp| == |dem| && StrictlyIncreasing(temp)
    requires 0 <= b.cool <= b.peak <= b.hot <= |dem|
    requires forall k :: 0 <= k < |dem| && dem[k].Finite? ==> dem[k].v >= 0.0
    ensures ShoulderStrength(temp, dem, b).Ok? ==> 0.0 <= ShoulderStrength(temp, dem, b).value <= 1.0
  {
    var hotY, hotX := PySlice(dem, b.peak, b.hot), PySlice(temp, b.peak, b.hot);
    var totalY, totalX := PySlice(dem, b.cool, b.hot), PySlice(temp, b.cool, b.hot);
    var total := FloatTrapz(totalY, totalX);
    if ShoulderStrength(temp, dem, b).Ok? && total.Real? {
      assert total.x != 0.0;
      assert |totalY| >= 2;
      FloatTrapzFinite(totalY, totalX);
      HotAtMostTotal(temp, dem, b);
      FloatTrapzFinite(hotY, hotX);
      RatioAtMostOne(Trapz(hotY, hotX), Trapz(totalY, totalX));
    }
  }

  /** dem_shoulder_compare_integrate on any curve with non-negative finite
      samples over increasing temperatures: whenever it returns a value, that
      value lies in [0, 1]. A cool bound of -1 never returns one, because the
      slice dem[-1:i_hot] is empty and the total zero. */
  lemma IntegrateInUnitInterval(temp: seq<real>, dem: seq<LogDem>, delta: real)
    requires |temp| == |dem| && StrictlyIncreasing(temp)
    requires forall k :: 0 <= k < |dem| && dem[k].Finite? ==> dem[k].v >= 0.0
    ensures var r := DemShoulderCompareIntegrate(temp, dem, delta);
      r.Ok? ==> 0.0 <= r.value <= 1.0
  {
    TemperatureReads(temp, dem, delta);
    if TempBounds(dem, delta).Ok? {
      var b := TempBounds(dem, delta).value;
      TempBoundsFound(dem, delta, b);
      if b.cool < 0 {
        assert PySlice(dem, b.cool, b.hot) == [];
      } else {
        StrengthInUnitInterval(temp, dem, b);
      }
    }
  }

  /** dem_shoulder_compare_fit over increasing temperatures: it fails as the
      bound search fails; a hot bound on the peak divides by zero; otherwise
      the hot slope is never positive, and with a cool bound inside the curve
      the fit succeeds with a cool slope never negative. */
  lemma FitSlopeSigns(temp: seq<real>, dem: seq<LogDem>, delta: real)
    requires |temp| == |dem| && StrictlyIncreasing(temp)
    ensures var r := DemShoulderCompareFit(temp, dem, delta);
      TempBounds(dem, delta).Err? ==> r == Err(TempBounds(dem, delta).error)
    ensures var r := DemShoulderCompareFit(temp, dem, delta);
      TempBounds(dem, delta).Ok? && TempBounds(dem, delta).value.peak == TempBounds(dem, delta).value.hot ==>
        r == Err(ZeroDivision)
    ensures var r := DemShoulderCompareFit(temp, dem, delta);
      r.Ok? ==> r.value.aHot <= 0.0
    ensures var r := DemShoulderCompareFit(temp, dem, delta);
      TempBounds(dem, delta).Ok? && 0 <= TempBounds(dem, delta).value.cool &&
      TempBounds(dem, delta).value.peak < TempBounds(dem, delta).value.hot ==>
        r.Ok? && 0.0 <= r.value.aCool
  {
    TemperatureReads(temp, dem, delta);
    if TempBounds(dem, delta).Ok? {
      var b := TempBounds(dem, delta).value;
      TempBoundsFound(dem, delta, b);
      CorrectedOnlyClampsCool(dem, delta);
      var c := b.(cool := if b.cool < 0 then 0 else b.cool);
      CorrectedFitSlopeSigns(temp, dem, delta, c);
    }
  }

  const EmptyBinTemp: seq<real> := [1.0, 2.0, 3.0, 4.0, 5.0, 6.0]
  const EmptyBinDem: seq<LogDem> := [Finite(4.0), NegInf, Finite(5.0), Finite(4.0), Finite(0.0), Finite(0.0)]

  lemma EmptyBinSearch()
    ensures TempBoundsAt(EmptyBinTemp, EmptyBinDem, 2.0) == Ok(Bounds(0, 2, 4))
  {
    var dem := EmptyBinDem;
    assert ArgMaxIn(dem, 1) == 0;
    assert ArgMaxIn(dem, 2) == 0;
    assert ArgMaxIn(dem, 3) == 2;
    assert ArgMaxIn(dem, 4) == 2;
    assert ArgMaxIn(dem, 5) == 2;
    assert ArgMax(dem) == 2;
    var bound := Finite(3.0);
    assert Bound(dem, 2.0) == bound;
    var hs := HotSlice(dem);
    assert hs == [Finite(5.0), Finite(4.0), Finite(0.0)];
    assert LastAboveBefore(hs, bound, 2) == Some(1);
    var cs := CoolSlice(dem);
    assert cs == [Finite(4.0), NegInf];
    assert FirstAbove(cs, bound) == Some(0);
    assert WalkCool(cs, 0) == Ok(0);
    assert WalkCool(cs, -1) == Ok(0);
    assert WalkHot(hs, 2) == Ok(2);
    assert PySlice(EmptyBinTemp, 2, -1) == [3.0, 4.0, 5.0];
  }

  lemma EmptyBinIntegrals()
    ensures FloatTrapz(EmptyBinDem[2..4], EmptyBinTemp[2..4]) == Real(4.5)
    ensures FloatTrapz(EmptyBinDem[..4], EmptyBinTemp[..4]) == MinusInf
  {
    var dem, temp := EmptyBinDem, EmptyBinTemp;
    assert dem[2..4] == [Finite(5.0), Finite(4.0)] && temp[2..4] == [3.0, 4.0];
    assert dem[2..4][1..] == [Finite(4.0)];
    var ys, xs := dem[..4], temp[..4];
    assert ys[1] == NegInf;
    assert forall k :: 0 <= k < |xs| - 1 ==> xs[k] < xs[k + 1];
    TrapzDownToMinusInf(ys, xs);
  }

  /** An empty bin on the cool side: the cool walk steps over the -inf sample
      to the bounds (0, 2, 4); the hot integral is 4.5 and the total -inf, so
      the strength is zero. */
  lemma EmptyBinStrength()
    ensures TempBoundsAt(EmptyBinTemp, EmptyBinDem, 2.0) == Ok(Bounds(0, 2, 4))
    ensures FloatTrapz(EmptyBinDem[2..4], EmptyBinTemp[2..4]) == Real(4.5)
    ensures FloatTrapz(EmptyBinDem[..4], EmptyBinTemp[..4]) == MinusInf
    ensures DemShoulderCompareIntegrate(EmptyBinTemp, EmptyBinDem, 2.0) == Ok(0.0)
  {
    EmptyBinSearch();
    EmptyBinIntegrals();
    var b := Bounds(0, 2, 4);
    assert EmptyBinDem[1].NegInf?;
    StrengthOverMinusInfTotal(EmptyBinTemp, EmptyBinDem, b);
  }

  // ---------------------------------------------------------------------
  // The temperature reads

  /** The reads of temp change the outcome only by raising IndexError when
      the hot bound is not below the last index of temp; in particular a
      temperature array as long as the curve never changes it. */
  lemma TemperatureReads(temp: seq<real>, dem: seq<LogDem>, delta: real)
    ensures TempBounds(dem, delta).Err? ==> TempBoundsAt(temp, dem, delta) == TempBounds(dem, delta)
    ensures TempBounds(dem, delta).Ok? ==>
      TempBoundsAt(temp, dem, delta) ==
        if TempBounds(dem, delta).value.hot < |temp| - 1 then TempBounds(dem, delta) else Err(IndexError)
    ensures |temp| >= |dem| ==> TempBoundsAt(temp, dem, delta) == TempBounds(dem, delta)
  {
    if |dem| > 0 {
      TempBoundsFails(dem, delta);
      if TempBounds(dem, delta).Ok? {
        var b := TempBounds(dem, delta).value;
        TempBoundsFound(dem, delta, b);
        var hot := PySlice(temp, b.peak, -1);
        if b.peak < |temp| {
          assert |hot| == if b.peak < |temp| - 1 then |temp| - 1 - b.peak else 0;
        }
      }
    }
  }

  const ShortDem: seq<LogDem> := [Finite(0.0), Finite(4.0), Finite(5.0), Finite(4.0), Finite(0.0), Finite(0.0)]
  const ShortTemp: seq<real> := [1.0, 2.0, 3.0, 4.0, 5.0]

  /** A temperature array one sample shorter than the curve: the search on
      the curve alone finds the bounds (0, 2, 4), but temp_hot = temp[2:-1]
      has two entries, so reading temp_hot[2] raises IndexError, and so do
      both metrics. */
  lemma ShortTemperatureFails()
    ensures TempBounds(ShortDem, 2.0) == Ok(Bounds(0, 2, 4))
    ensures TempBoundsAt(ShortTemp, ShortDem, 2.0) == Err(IndexError)
    ensures DemShoulderCompareFit(ShortTemp, ShortDem, 2.0) == Err(IndexError)
    ensures DemShoulderCompareIntegrate(ShortTemp, ShortDem, 2.0) == Err(IndexError)
  {
    var dem := ShortDem;
    assert ArgMaxIn(dem, 1) == 0;
    assert ArgMaxIn(dem, 2) == 1;
    assert ArgMaxIn(dem, 3) == 2;
    assert ArgMaxIn(dem, 4) == 2;
    assert ArgMaxIn(dem, 5) == 2;
    assert ArgMax(dem) == 2;
    var bound := Finite(3.0);
    assert Bound(dem, 2.0) == bound;
    var hs := HotSlice(dem);
    assert hs == [Finite(5.0), Finite(4.0), Finite(0.0)];
    assert LastAboveBefore(hs, bound, 2) == Some(1);
    var cs := CoolSlice(dem);
    assert cs == [Finite(0.0), Finite(4.0)];
    assert FirstAboveFrom(cs, bound, 1) == Some(1);
    assert FirstAbove(cs, bound) == Some(1);
    assert WalkCool(cs, 0) == Ok(0);
    assert WalkHot(hs, 2) == Ok(2);
    assert PySlice(ShortTemp, 2, -1) == [3.0, 4.0];
  }

  // ---------------------------------------------------------------------
  // Curves the search rejects, and the cool bound that wraps (README, Findings)

  const PeakedDem: seq<LogDem> := [Finite(22.0), Finite(24.0), Finite(27.0), Finite(26.0), Finite(23.0), Finite(21.0)]

  /** A curve whose cool side never rises above the threshold: the hot bound
      would be index 4, but np.where on the cool slice finds nothing, so the
      search raises IndexError; the corrected search fails alike. */
  lemma NoCoolSampleAboveFails()
    ensures LastAbove(HotSlice(PeakedDem), Bound(PeakedDem, 2.0)) == Some(1)
    ensures FirstAbove(CoolSlice(PeakedDem), Bound(PeakedDem, 2.0)) == None
    ensures TempBounds(PeakedDem, 2.0) == Err(IndexError)
    ensures CorrectedTempBounds(PeakedDem, 2.0) == Err(IndexError)
  {
    var dem := PeakedDem;
    assert ArgMaxIn(dem, 1) == 0;
    assert ArgMaxIn(dem, 2) == 1;
    assert ArgMaxIn(dem, 3) == 2;
    assert ArgMaxIn(dem, 4) == 2;
    assert ArgMaxIn(dem, 5) == 2;
    assert ArgMax(dem) == 2;
    var bound := Finite(25.0);
    assert Bound(dem, 2.0) == bound;
    var hs := HotSlice(dem);
    assert hs == [Finite(27.0), Finite(26.0), Finite(23.0)];
    assert LastAboveBefore(hs, bound, 2) == Some(1);
    var cs := CoolSlice(dem);
    assert cs == [Finite(22.0), Finite(24.0)];
    assert FirstAboveFrom(cs, bound, 1) == None;
  }

  const WrapTemp: seq<real> := [1.0, 2.0, 3.0, 4.0, 5.0]
  const WrapDem: seq<LogDem> := [Finite(5.0), Finite(6.0), Finite(5.0), Finite(0.0), Finite(0.0)]

  /** A curve whose first sample is already above the threshold: as written
      the cool bound is -1, so the fit reads the last sample as the cool bound
      (a negative cool slope) and the integration slices dem[-1:i_hot] to
      nothing (a zero total). The corrected search gives the cool bound 0, a
      non-negative cool slope and a strength of one half. */
  lemma CoolIndexWraps()
    ensures TempBounds(WrapDem, 2.0) == Ok(Bounds(-1, 1, 3))
    ensures DemShoulderCompareFit(WrapTemp, WrapDem, 2.0) == Ok(Slopes(-3.0, -2.0))
    ensures DemShoulderCompareIntegrate(WrapTemp, WrapDem, 2.0) == Err(ZeroDivision)
    ensures CorrectedTempBounds(WrapDem, 2.0) == Ok(Bounds(0, 1, 3))
    ensures FitSlopes(WrapTemp, WrapDem, Bounds(0, 1, 3)) == Ok(Slopes(-3.0, 1.0))
    ensures ShoulderStrength(WrapTemp, WrapDem, Bounds(0, 1, 3)) == Ok(0.5)
  {
    var dem := WrapDem;
    assert ArgMaxIn(dem, 1) == 0;
    assert ArgMaxIn(dem, 2) == 1;
    assert ArgMaxIn(dem, 3) == 1;
    assert ArgMaxIn(dem, 4) == 1;
    assert ArgMax(dem) == 1;
    var bound := Finite(4.0);
    assert Bound(dem, 2.0) == bound;
    var hs := HotSlice(dem);
    assert hs == [Finite(6.0), Finite(5.0), Finite(0.0)];
    assert LastAboveBefore(hs, bound, 2) == Some(1);
    assert LastAbove(hs, bound) == Some(1);
    var cs := CoolSlice(dem);
    assert cs == [Finite(5.0)];
    assert FirstAbove(cs, bound) == Some(0);
    assert WalkCool(cs, -1) == Ok(-1);
    assert WalkCool(cs, 0) == Ok(0);
    assert WalkHot(hs, 2) == Ok(2);
    assert PySlice(WrapTemp, 1, -1) == [2.0, 3.0, 4.0];
    assert TempBoundsAt(WrapTemp, dem, 2.0) == Ok(Bounds(-1, 1, 3));
    assert PySlice(dem, -1, 3) == [];
    assert PySlice(dem, 1, 3) == [Finite(6.0), Finite(5.0)];
    assert PySlice(WrapTemp, 1, 3) == [2.0, 3.0];
    assert PySlice(dem, 0, 3) == [Finite(5.0), Finite(6.0), Finite(5.0)];
    assert PySlice(WrapTemp, 0, 3) == [1.0, 2.0, 3.0];
  }
}
