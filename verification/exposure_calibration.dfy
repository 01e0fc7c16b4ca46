/** `ImageAcquisitionAbstract.calibrate_exposure`: a binary search over
    the camera's calibration exposures for the last one whose frame is not
    saturated while the next one's is.

    The search keeps an array `exposure_out` of marks, one per exposure:
    −1 for a frame found under-exposed, +1 for one found saturated, 0 for
    an exposure not yet tried. The camera is an oracle here: `saturated[i]`
    says whether the frame taken at exposure `values[i]` has too many
    saturated pixels. */
module ExposureCalibration {
  import opened Errors

  function Pow2(e: nat): (p: nat)
    ensures 1 <= p
  {
    if e == 0 then 1 else 2 * Pow2(e - 1)
  }

  /** `int(np.ceil(np.log2(n)))`: the least e with n <= 2^e. */
  function CeilLog2(n: nat): (e: nat)
    requires 1 <= n
    ensures n <= Pow2(e)
    ensures 0 < e ==> Pow2(e - 1) < n
    decreases n
  {
    if n == 1 then 0 else 1 + CeilLog2((n + 1) / 2)
  }

  /** On a power of two the logarithm is exact. */
  lemma {:induction false} CeilLog2OfPow2(e: nat)
    ensures CeilLog2(Pow2(e)) == e
  {
    if e > 0 {
      var p := Pow2(e - 1);
      assert (Pow2(e) + 1) / 2 == p;
      CeilLog2OfPow2(e - 1);
    }
  }

  /** `max_iters`: the number of probes the loop allows. */
  function MaxIters(n: nat): (m: nat)
    requires 1 <= n
    ensures 1 <= m && n <= Pow2(m - 1)
  {
    CeilLog2(n) + 1
  }

  // ------------------------------------------------------------------
  // The helper closures

  function FirstIndexOf(s: seq<int>, v: int): (r: Option<nat>)
    ensures r.Some? ==> r.value < |s| && s[r.value] == v && forall j :: 0 <= j < r.value ==> s[j] != v
    ensures r.None? <==> forall j :: 0 <= j < |s| ==> s[j] != v
  {
    if |s| == 0 then None
    else if s[0] == v then Some(0)
    else
      match FirstIndexOf(s[1..], v)
      case None => None
      case Some(i) => Some(i + 1)
  }

  function LastIndexOf(s: seq<int>, v: int): (r: Option<nat>)
    ensures r.Some? ==> r.value < |s| && s[r.value] == v && forall j :: r.value < j < |s| ==> s[j] != v
    ensures r.None? <==> forall j :: 0 <= j < |s| ==> s[j] != v
  {
    if |s| == 0 then None
    else if s[|s| - 1] == v then Some(|s| - 1)
    else LastIndexOf(s[..|s| - 1], v)
  }

  /** `_get_exposure_idxs`: the last index marked −1 and the first marked
      +1. Indexing an empty `np.where` result is an IndexError. */
  function ExposureIdxs(marks: seq<int>): (r: Result<(nat, nat)>)
    ensures r.Err? ==> r.error == IndexError
    ensures r.Ok? <==> LastIndexOf(marks, -1).Some? && FirstIndexOf(marks, 1).Some?
    ensures r.Ok? ==> r.value == (LastIndexOf(marks, -1).value, FirstIndexOf(marks, 1).value)
  {
    match LastIndexOf(marks, -1)
    case None => Err(IndexError)
    case Some(idx0) =>
      match FirstIndexOf(marks, 1)
      case None => Err(IndexError)
      case Some(idx1) => Ok((idx0, idx1))
  }

  /** `_check_exposure_set`: the bracket has closed to neighbours. */
  function CheckSet(marks: seq<int>): (r: Result<bool>)
    ensures r.Ok? <==> ExposureIdxs(marks).Ok?
    ensures r.Ok? ==> (r.value <==> ExposureIdxs(marks).value.1 == ExposureIdxs(marks).value.0 + 1)
  {
    var (idx0, idx1) :- ExposureIdxs(marks);
    Ok(idx1 as int - idx0 as int == 1)
  }

  /** `_get_next_exposure_idx`: the floor of the bracket's midpoint. */
  function NextIdx(marks: seq<int>): (r: Result<nat>)
    ensures r.Ok? <==> ExposureIdxs(marks).Ok?
    ensures r.Ok? ==> 2 * r.value <= ExposureIdxs(marks).value.0 + ExposureIdxs(marks).value.1 < 2 * r.value + 2
  {
    var (idx0, idx1) :- ExposureIdxs(marks);
    Ok((idx0 + idx1) / 2)
  }

  // ------------------------------------------------------------------
  // The bracket

  /** The marks bracket the search between lo and hi: lo is the last −1,
      hi the first +1, and each mark agrees with the oracle. */
  ghost predicate Bracket(marks: seq<int>, saturated: seq<bool>, lo: nat, hi: nat) {
    && |marks| == |saturated| && lo < hi < |marks|
    && marks[lo] == -1 && marks[hi] == 1
    && (forall j :: lo < j < |marks| ==> marks[j] != -1)
    && (forall j :: 0 <= j < hi ==> marks[j] != 1)
    && (forall j :: 0 <= j < |marks| && marks[j] == -1 ==> !saturated[j])
    && (forall j :: 0 <= j < |marks| && marks[j] == 1 ==> saturated[j])
  }

  lemma BracketIdxs(marks: seq<int>, saturated: seq<bool>, lo: nat, hi: nat)
    requires Bracket(marks, saturated, lo, hi)
    ensures ExposureIdxs(marks) == Ok((lo, hi))
  {
    var a := LastIndexOf(marks, -1);
    var b := FirstIndexOf(marks, 1);
    assert a.Some? && b.Some?;
    assert a.value <= lo;
    assert hi <= b.value;
  }

  /** Probing and marking the midpoint keeps a bracket and at least halves
      its width, rounding up; a bracket of width 1 stays as it is. */
  lemma ProbeKeepsBracket(marks: seq<int>, saturated: seq<bool>, lo: nat, hi: nat)
    requires Bracket(marks, saturated, lo, hi)
    ensures var p := (lo + hi) / 2;
            var marks' := marks[p := if saturated[p] then 1 else -1];
            var lo' := if saturated[p] then lo else p;
            var hi' := if saturated[p] then p else hi;
            && Bracket(marks', saturated, lo', hi')
            && lo <= lo' && hi' <= hi
            && 2 * (hi' - lo') <= hi - lo + 1
            && (hi - lo == 1 ==> lo' == lo && hi' == hi)
  {
  }

  /** The closing bracket: an unsaturated exposure right below a saturated one. */
  predicate Crossing(saturated: seq<bool>, i: nat) {
    i + 1 < |saturated| && !saturated[i] && saturated[i + 1]
  }

  /** The setting chosen: the index of the exposure and its value. */
  datatype Setting = Setting(index: nat, exposure: int)

  const MinSaturated: string := "the smallest exposure already saturates"
  const MaxUnsaturated: string := "the largest exposure does not saturate"
  const NotSet: string := "exposure could not be set"

  /** The search. `probes` lists the indices tried, in order. */
  method CalibrateExposure(values: seq<int>, saturated: seq<bool>) returns (r: Result<Setting>, probes: seq<nat>)
    requires |saturated| == |values|
    ensures |values| == 0 ==> r == Err(IndexError)
    ensures 0 < |values| && saturated[0] ==> r == Err(ValueError(MinSaturated))
    ensures 0 < |values| && !saturated[0] && !saturated[|values| - 1] ==> r == Err(ValueError(MaxUnsaturated))
    ensures 0 < |values| && !saturated[0] && saturated[|values| - 1] ==>
              r.Ok? && Crossing(saturated, r.value.index) && r.value.exposure == values[r.value.index]
    ensures 0 < |values| ==> |probes| <= MaxIters(|values|)
    ensures forall k :: 0 <= k < |probes| ==> probes[k] + 1 < |values|
  {
    var n := |values|;
    probes := [];
    if n == 0 {
      r := Err(IndexError);
      return;
    }
    // `exposure_out[0] = -1` then `exposure_out[-1] = 1`: with one
    // exposure the second write wins.
    var marks := seq(n, j requires 0 <= j < n => if j == n - 1 then 1 else if j == 0 then -1 else 0);
    if saturated[0] {
      r := Err(ValueError(MinSaturated));
      return;
    }
    if !saturated[n - 1] {
      r := Err(ValueError(MaxUnsaturated));
      return;
    }
    assert Bracket(marks, saturated, 0, n - 1);
    r, probes := Search(values, saturated, marks);
  }

  /** A probe that leaves the bracket open halves the bound on its width. */
  lemma Narrow(w: nat, w': nat, e: nat)
    requires 1 <= w <= Pow2(e) && 2 * w' <= w + 1 && 2 <= w'
    ensures 1 <= e && w' <= Pow2(e - 1)
  {
  }

  /** One pass of the loop: probe the midpoint of the bracket, mark it by
      the oracle, and check whether the bracket has closed. */
  method Probe(marks: seq<int>, saturated: seq<bool>, ghost lo: nat, ghost hi: nat)
    returns (marks': seq<int>, idx: nat, isSet: bool, ghost lo': nat, ghost hi': nat)
    requires Bracket(marks, saturated, lo, hi)
    ensures Bracket(marks', saturated, lo', hi')
    ensures idx == (lo + hi) / 2 && idx + 1 < |marks|
    ensures isSet <==> hi' == lo' + 1
    ensures 2 * (hi' - lo') <= hi - lo + 1
  {
    BracketIdxs(marks, saturated, lo, hi);
    idx := NextIdx(marks).value;
    ProbeKeepsBracket(marks, saturated, lo, hi);
    marks' := marks[idx := if saturated[idx] then 1 else -1];
    lo', hi' := if saturated[idx] then lo else idx, if saturated[idx] then idx else hi;
    BracketIdxs(marks', saturated, lo', hi');
    isSet := CheckSet(marks').value;
  }

  /** The loop of `calibrate_exposure`, from the initial marks on. */
  method Search(values: seq<int>, saturated: seq<bool>, marks0: seq<int>) returns (r: Result<Setting>, probes: seq<nat>)
    requires |saturated| == |values| && 2 <= |values|
    requires Bracket(marks0, saturated, 0, |values| - 1)
    ensures r.Ok? && Crossing(saturated, r.value.index) && r.value.exposure == values[r.value.index]
    ensures |probes| <= MaxIters(|values|)
    ensures forall k :: 0 <= k < |probes| ==> probes[k] + 1 < |values|
  {
    var n := |values|;
    var marks := marks0;
    probes := [];
    var maxIters := MaxIters(n);
    ghost var L := maxIters - 1;
    ghost var lo: nat := 0;
    ghost var hi: nat := n - 1;
    var i := 0;
    var isSet := false;
    while i < maxIters && !isSet
      invariant i <= maxIters && |probes| == i
      invariant forall k :: 0 <= k < |probes| ==> probes[k] + 1 < n
      invariant Bracket(marks, saturated, lo, hi)
      invariant isSet ==> hi == lo + 1
      invariant !isSet ==> i <= L && hi - lo <= Pow2(L - i)
    {
      ghost var w := hi - lo;
      var idx;
      marks, idx, isSet, lo, hi := Probe(marks, saturated, lo, hi);
      probes := probes + [idx];
      if !isSet {
        Narrow(w, hi - lo, L - i);
      }
      i := i + 1;
    }
    BracketIdxs(marks, saturated, lo, hi);
    r := match CheckSet(marks)
      case Err(e) => Err(e)
      case Ok(false) => Err(ValueError(NotSet))
      case Ok(true) =>
        var idx0 := ExposureIdxs(marks).value.0;
        Ok(Setting(idx0, values[idx0]));
  }

  // ------------------------------------------------------------------
  // Where the search can land

  /** Between an unsaturated first exposure and a saturated last one there
      is always a crossing. */
  lemma {:induction false} CrossingExists(saturated: seq<bool>, lo: nat, hi: nat)
    requires lo < hi < |saturated| && !saturated[lo] && saturated[hi]
    ensures exists i :: lo <= i < hi && Crossing(saturated, i)
    decreases hi - lo
  {
    if !saturated[lo + 1] {
      CrossingExists(saturated, lo + 1, hi);
    } else {
      assert Crossing(saturated, lo);
    }
  }

  /** Saturation that never goes away as the exposure grows. */
  predicate Monotone(saturated: seq<bool>) {
    forall i, j :: 0 <= i <= j < |saturated| && saturated[i] ==> saturated[j]
  }

  /** With monotone saturation the crossing is unique: the search returns
      the last exposure whose frame is not saturated. */
  lemma MonotoneCrossingIsThreshold(saturated: seq<bool>, i: nat)
    requires Monotone(saturated) && Crossing(saturated, i)
    ensures forall j :: 0 <= j < |saturated| ==> (saturated[j] <==> i < j)
  {
  }

  lemma MonotoneCrossingUnique(saturated: seq<bool>, i: nat, k: nat)
    requires Monotone(saturated) && Crossing(saturated, i) && Crossing(saturated, k)
    ensures i == k
  {
    MonotoneCrossingIsThreshold(saturated, i);
  }

  /** The DCAM camera calibrates over 2^13 exposures, so the loop allows
      14 probes. */
  lemma DcamMaxIters()
    ensures MaxIters(Pow2(13)) == 14
  {
    CeilLog2OfPow2(13);
  }
}
