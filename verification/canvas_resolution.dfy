/**
 * `CanvasResolution`: on start-up the canvas scaler's width/height match is
 * chosen from a table of screen-ratio settings. The table is sorted in place
 * by `maxRatio`, and the first setting whose `maxRatio` is not below the
 * current height/width ratio supplies the match; past every setting the
 * default applies. Ratios are reals; the current ratio is an input.
 */
module CanvasResolution {
  import opened Wrappers

  /** One row of the ratio table. */
  datatype RatioSetting = RatioSetting(maxRatio: real, matchWidthOrHeight: real)

  /** The part of the canvas scaler the component sets. */
  class CanvasScaler {
    var matchWidthOrHeight: real

    constructor (matchWidthOrHeight: real)
      ensures this.matchWidthOrHeight == matchWidthOrHeight
    {
      this.matchWidthOrHeight := matchWidthOrHeight;
    }
  }

  /** Ascending by `maxRatio`. */
  predicate SortedByMaxRatio(s: seq<RatioSetting>) {
    forall p, q :: 0 <= p < q < |s| ==> s[p].maxRatio <= s[q].maxRatio
  }

  /** The index of the first setting whose `maxRatio` is not below the
      current ratio, if any. */
  function FirstFit(settings: seq<RatioSetting>, currentRatio: real): (r: Option<nat>)
    ensures r.Some? ==> r.value < |settings| && currentRatio <= settings[r.value].maxRatio
    ensures r.Some? ==> forall k :: 0 <= k < r.value ==> settings[k].maxRatio < currentRatio
    ensures r.None? ==> forall k :: 0 <= k < |settings| ==> settings[k].maxRatio < currentRatio
    decreases |settings|
  {
    if settings == [] then None
    else if currentRatio <= settings[0].maxRatio then Some(0)
    else
      match FirstFit(settings[1..], currentRatio)
      case None => None
      case Some(i) => Some(i + 1)
  }

  /** The match the scaler ends with for a (sorted) table. */
  function MatchFor(settings: seq<RatioSetting>, currentRatio: real, defaultMatch: real): real {
    match FirstFit(settings, currentRatio)
    case Some(i) => settings[i].matchWidthOrHeight
    case None => defaultMatch
  }

  /** `System.Array.Sort` by `maxRatio`, as an insertion sort by adjacent swaps.
      The library sort is not stable; neither order of equal ratios is
      promised, so any sorted permutation models it. */
  method SortByMaxRatio(a: array<RatioSetting>)
    modifies a
    ensures SortedByMaxRatio(a[..])
    ensures multiset(a[..]) == multiset(old(a[..]))
  {
    var i := 0;
    while i < a.Length
      invariant 0 <= i <= a.Length
      invariant SortedByMaxRatio(a[..i])
      invariant multiset(a[..]) == multiset(old(a[..]))
    {
      SinkLast(a, i);
      i := i + 1;
    }
    assert a[..a.Length] == a[..];
  }

  /** One insertion step: moves `a[i]` left past the larger ratios of the
      sorted prefix `a[..i]`. */
  method SinkLast(a: array<RatioSetting>, i: nat)
    requires i < a.Length && SortedByMaxRatio(a[..i])
    modifies a
    ensures SortedByMaxRatio(a[..i + 1])
    ensures multiset(a[..]) == multiset(old(a[..]))
  {
    var j := i;
    SinkStart(a[..], i);
    while j > 0 && a[j - 1].maxRatio > a[j].maxRatio
      invariant 0 <= j <= i
      invariant SortedApartFrom(a[..], i, j) && BelowRest(a[..], i, j)
      invariant multiset(a[..]) == multiset(old(a[..]))
    {
      ghost var s := a[..];
      SinkStep(s, i, j);
      SwapKeepsContents(s, j);
      a[j - 1], a[j] := a[j], a[j - 1];
      assert a[..] == Swap(s, j);
      j := j - 1;
    }
    SinkDone(a[..], i, j);
  }

  /** `s` with the entries at `j - 1` and `j` exchanged. */
  function Swap(s: seq<RatioSetting>, j: nat): (t: seq<RatioSetting>)
    requires 0 < j < |s|
    ensures |t| == |s| && t[j - 1] == s[j] && t[j] == s[j - 1]
    ensures forall k :: 0 <= k < |s| && k != j - 1 && k != j ==> t[k] == s[k]
  {
    s[j - 1 := s[j]][j := s[j - 1]]
  }

  lemma SwapKeepsContents(s: seq<RatioSetting>, j: nat)
    requires 0 < j < |s|
    ensures multiset(Swap(s, j)) == multiset(s)
  {
  }

  /** `s[..n + 1]` is sorted once the entry at `j` is set aside. */
  predicate SortedApartFrom(s: seq<RatioSetting>, n: nat, j: nat)
    requires n < |s|
  {
    forall p, q :: 0 <= p < q <= n && p != j && q != j ==> s[p].maxRatio <= s[q].maxRatio
  }

  /** The entry at `j` is not above anything after it up to `n`. */
  predicate BelowRest(s: seq<RatioSetting>, n: nat, j: nat)
    requires j <= n < |s|
  {
    forall q :: j < q <= n ==> s[j].maxRatio <= s[q].maxRatio
  }

  lemma SinkStart(s: seq<RatioSetting>, n: nat)
    requires n < |s| && SortedByMaxRatio(s[..n])
    ensures SortedApartFrom(s, n, n) && BelowRest(s, n, n)
  {
    forall p, q | 0 <= p < q <= n && p != n && q != n
      ensures s[p].maxRatio <= s[q].maxRatio
    {
      assert s[p] == s[..n][p] && s[q] == s[..n][q];
    }
  }

  lemma SinkStep(s: seq<RatioSetting>, n: nat, j: nat)
    requires 0 < j <= n < |s|
    requires SortedApartFrom(s, n, j) && BelowRest(s, n, j)
    requires s[j - 1].maxRatio > s[j].maxRatio
    ensures SortedApartFrom(Swap(s, j), n, j - 1) && BelowRest(Swap(s, j), n, j - 1)
  {
    var t := Swap(s, j);
    forall p, q | 0 <= p < q <= n && p != j - 1 && q != j - 1
      ensures t[p].maxRatio <= t[q].maxRatio
    {
      if q == j {
        if p < j - 1 {
          assert s[p].maxRatio <= s[j - 1].maxRatio;
        }
      } else if p == j {
        assert s[j - 1].maxRatio >= s[j].maxRatio;
        assert s[j].maxRatio <= s[q].maxRatio;
      }
    }
  }

  lemma SinkDone(s: seq<RatioSetting>, n: nat, j: nat)
    requires j <= n < |s|
    requires SortedApartFrom(s, n, j) && BelowRest(s, n, j)
    requires j == 0 || s[j - 1].maxRatio <= s[j].maxRatio
    ensures SortedByMaxRatio(s[..n + 1])
  {
    forall p, q | 0 <= p < q <= n
      ensures s[p].maxRatio <= s[q].maxRatio
    {
      if q == j && p < j - 1 {
        assert s[p].maxRatio <= s[j - 1].maxRatio;
      }
    }
  }

  /** The component. */
  class CanvasResolution {
    const canvasScaler: CanvasScaler
    const ratioSettings: array<RatioSetting>
    var defaultMatchWidthOrHeight: real

    constructor (canvasScaler: CanvasScaler, ratioSettings: array<RatioSetting>)
      ensures this.canvasScaler == canvasScaler && this.ratioSettings == ratioSettings
      ensures defaultMatchWidthOrHeight == 0.0
    {
      this.canvasScaler := canvasScaler;
      this.ratioSettings := ratioSettings;
      defaultMatchWidthOrHeight := 0.0;
    }

    /** `CanvasScalerResolution`: sort the table, then take the match of the
        first setting that admits `currentRatio`, else the default. */
    method CanvasScalerResolution(currentRatio: real)
      modifies ratioSettings, canvasScaler
      ensures SortedByMaxRatio(ratioSettings[..])
      ensures multiset(ratioSettings[..]) == multiset(old(ratioSettings[..]))
      ensures canvasScaler.matchWidthOrHeight == MatchFor(ratioSettings[..], currentRatio, defaultMatchWidthOrHeight)
    {
      SortByMaxRatio(ratioSettings);
      var k := 0;
      while k < ratioSettings.Length
        invariant 0 <= k <= ratioSettings.Length
        invariant forall m :: 0 <= m < k ==> ratioSettings[m].maxRatio < currentRatio
      {
        var setting := ratioSettings[k];
        if currentRatio <= setting.maxRatio {
          canvasScaler.matchWidthOrHeight := setting.matchWidthOrHeight;
          return;
        }
        k := k + 1;
      }
      canvasScaler.matchWidthOrHeight := defaultMatchWidthOrHeight;
    }
  }

  /** On a sorted table the chosen setting has the smallest `maxRatio` that
      is not below the current ratio. */
  lemma ChosenIsSmallestFit(settings: seq<RatioSetting>, currentRatio: real)
    requires SortedByMaxRatio(settings)
    ensures match FirstFit(settings, currentRatio)
      case Some(i) => forall k :: 0 <= k < |settings| && currentRatio <= settings[k].maxRatio ==>
                        settings[i].maxRatio <= settings[k].maxRatio
      case None => forall k :: 0 <= k < |settings| ==> settings[k].maxRatio < currentRatio
  {
    match FirstFit(settings, currentRatio)
    case Some(i) =>
      forall k | 0 <= k < |settings| && currentRatio <= settings[k].maxRatio
        ensures settings[i].maxRatio <= settings[k].maxRatio
      {
      }
    case None =>
  }

  /** One direction of `ChosenRatioIsDetermined`: whatever `s1` fits, `s2`
      fits too, with a `maxRatio` no larger. */
  lemma FitCarriesOver(s1: seq<RatioSetting>, s2: seq<RatioSetting>, currentRatio: real)
    requires SortedByMaxRatio(s2)
    requires multiset(s1) <= multiset(s2)
    requires FirstFit(s1, currentRatio).Some?
    ensures FirstFit(s2, currentRatio).Some?
    ensures s2[FirstFit(s2, currentRatio).value].maxRatio <= s1[FirstFit(s1, currentRatio).value].maxRatio
  {
    var x := s1[FirstFit(s1, currentRatio).value];
    assert x in multiset(s1);
    assert x in multiset(s2);
    var k :| 0 <= k < |s2| && s2[k] == x;
    ChosenIsSmallestFit(s2, currentRatio);
  }

  /** However the sort orders equal ratios, the chosen `maxRatio` is the
      same: two sorted arrangements of one table fit the same ratio, or both
      fall back to the default. */
  lemma ChosenRatioIsDetermined(s1: seq<RatioSetting>, s2: seq<RatioSetting>, currentRatio: real)
    requires SortedByMaxRatio(s1) && SortedByMaxRatio(s2)
    requires multiset(s1) == multiset(s2)
    ensures FirstFit(s1, currentRatio).Some? <==> FirstFit(s2, currentRatio).Some?
    ensures FirstFit(s1, currentRatio).Some? ==>
      s1[FirstFit(s1, currentRatio).value].maxRatio == s2[FirstFit(s2, currentRatio).value].maxRatio
  {
    if FirstFit(s1, currentRatio).Some? {
      FitCarriesOver(s1, s2, currentRatio);
      FitCarriesOver(s2, s1, currentRatio);
    } else if FirstFit(s2, currentRatio).Some? {
      FitCarriesOver(s2, s1, currentRatio);
    }
  }
}
