/**
 * `compare_pages` of compare_pdfs.py: two page records are compared check by check. The four
 * counts must be equal, the three font sizes may differ by at most 0.6 points and the four
 * margins by at most 2 points; each failing check clears `ok` and adds one reason. A change in
 * the font set adds a reason too, but leaves `ok` alone.
 */
module PageComparison {
  import opened PageAnalysis

  datatype CountKey = Blocks | Lines | Spans | Images
  datatype SizeKey = AvgSize | MinSize | MaxSize
  datatype Side = Left | Right | Top | Bottom

  /** One entry of `reasons`, carrying what its message shows. */
  datatype Reason =
    | CountChanged(count: CountKey, was: nat, now: nat)
    | SizeChanged(size: SizeKey, from: real, to: real, tolerance: real)
    | MarginChanged(side: Side, from: real, to: real, tolerance: real)
    | FontsChanged

  /** The keys in the order the three loops visit them. */
  const CountKeys: seq<CountKey> := [Blocks, Lines, Spans, Images]
  const SizeChecks: seq<(SizeKey, real)> := [(AvgSize, 0.6), (MinSize, 0.6), (MaxSize, 0.6)]
  const Sides: seq<Side> := [Left, Right, Top, Bottom]

  const SizeTolerance: real := 0.6
  const MarginTolerance: real := 2.0

  function Count(st: PageStats, key: CountKey): nat {
    match key
    case Blocks => st.blocks
    case Lines => st.lines
    case Spans => st.spans
    case Images => st.images
  }

  function Size(st: PageStats, key: SizeKey): real {
    match key
    case AvgSize => st.avgSize
    case MinSize => st.minSize
    case MaxSize => st.maxSize
  }

  function Margin(st: PageStats, side: Side): real {
    match side
    case Left => st.margins.left
    case Right => st.margins.right
    case Top => st.margins.top
    case Bottom => st.margins.bottom
  }

  function Abs(x: real): real { if x < 0.0 then -x else x }

  /** The reasons the count loop adds for the given keys. */
  function CountReasons(a: PageStats, b: PageStats, keys: seq<CountKey>): seq<Reason> {
    if keys == [] then []
    else
      var k := keys[|keys| - 1];
      CountReasons(a, b, keys[..|keys| - 1])
        + (if Count(a, k) != Count(b, k) then [CountChanged(k, Count(a, k), Count(b, k))] else [])
  }

  function SizeReasons(a: PageStats, b: PageStats, checks: seq<(SizeKey, real)>): seq<Reason> {
    if checks == [] then []
    else
      var (k, tol) := checks[|checks| - 1];
      SizeReasons(a, b, checks[..|checks| - 1])
        + (if Abs(Size(a, k) - Size(b, k)) > tol then [SizeChanged(k, Size(a, k), Size(b, k), tol)] else [])
  }

  function MarginReasons(a: PageStats, b: PageStats, sides: seq<Side>): seq<Reason> {
    if sides == [] then []
    else
      var s := sides[|sides| - 1];
      MarginReasons(a, b, sides[..|sides| - 1])
        + (if Abs(Margin(a, s) - Margin(b, s)) > MarginTolerance
           then [MarginChanged(s, Margin(a, s), Margin(b, s), MarginTolerance)] else [])
  }

  /** Every reason `compare_pages` gives, in order: counts, sizes, margins, fonts. */
  function Reasons(a: PageStats, b: PageStats): seq<Reason> {
    CountReasons(a, b, CountKeys) + SizeReasons(a, b, SizeChecks) + MarginReasons(a, b, Sides)
      + (if a.fonts != b.fonts then [FontsChanged] else [])
  }

  /** The layout matches: equal counts, sizes within 0.6 and margins within 2 points. */
  predicate Matches(a: PageStats, b: PageStats) {
    && (forall k: CountKey :: Count(a, k) == Count(b, k))
    && (forall k: SizeKey :: Abs(Size(a, k) - Size(b, k)) <= SizeTolerance)
    && (forall s: Side :: Abs(Margin(a, s) - Margin(b, s)) <= MarginTolerance)
  }

  /** `compare_pages`: the verdict and the reasons, loop by loop. */
  method ComparePages(a: PageStats, b: PageStats) returns (ok: bool, reasons: seq<Reason>)
    ensures ok <==> Matches(a, b)
    ensures reasons == Reasons(a, b)
  {
    ok := true;
    reasons := [];
    for i := 0 to |CountKeys|
      invariant reasons == CountReasons(a, b, CountKeys[..i])
      invariant ok <==> forall j :: 0 <= j < i ==> Count(a, CountKeys[j]) == Count(b, CountKeys[j])
    {
      assert CountKeys[..i + 1][..i] == CountKeys[..i];
      var key := CountKeys[i];
      if Count(a, key) != Count(b, key) {
        ok := false;
        reasons := reasons + [CountChanged(key, Count(a, key), Count(b, key))];
      }
    }
    assert CountKeys[..|CountKeys|] == CountKeys;
    ok, reasons := CheckSizes(a, b, ok, reasons);
    ok, reasons := CheckMargins(a, b, ok, reasons);
    if a.fonts != b.fonts {
      reasons := reasons + [FontsChanged];
    }
    MatchesByLoops(a, b);
  }

  /** The size loop of `compare_pages`. */
  method CheckSizes(a: PageStats, b: PageStats, ok0: bool, reasons0: seq<Reason>) returns (ok: bool, reasons: seq<Reason>)
    ensures reasons == reasons0 + SizeReasons(a, b, SizeChecks)
    ensures ok <==> ok0 && forall j :: 0 <= j < |SizeChecks| ==> Abs(Size(a, SizeChecks[j].0) - Size(b, SizeChecks[j].0)) <= SizeChecks[j].1
  {
    ok, reasons := ok0, reasons0;
    for i := 0 to |SizeChecks|
      invariant reasons == reasons0 + SizeReasons(a, b, SizeChecks[..i])
      invariant ok <==> ok0 && forall j :: 0 <= j < i ==> Abs(Size(a, SizeChecks[j].0) - Size(b, SizeChecks[j].0)) <= SizeChecks[j].1
    {
      assert SizeChecks[..i + 1][..i] == SizeChecks[..i];
      var (key, tol) := SizeChecks[i];
      if Abs(Size(a, key) - Size(b, key)) > tol {
        ok := false;
        reasons := reasons + [SizeChanged(key, Size(a, key), Size(b, key), tol)];
      }
    }
    assert SizeChecks[..|SizeChecks|] == SizeChecks;
  }

  /** The margin loop of `compare_pages`. */
  method CheckMargins(a: PageStats, b: PageStats, ok0: bool, reasons0: seq<Reason>) returns (ok: bool, reasons: seq<Reason>)
    ensures reasons == reasons0 + MarginReasons(a, b, Sides)
    ensures ok <==> ok0 && forall j :: 0 <= j < |Sides| ==> Abs(Margin(a, Sides[j]) - Margin(b, Sides[j])) <= MarginTolerance
  {
    ok, reasons := ok0, reasons0;
    for i := 0 to |Sides|
      invariant reasons == reasons0 + MarginReasons(a, b, Sides[..i])
      invariant ok <==> ok0 && forall j :: 0 <= j < i ==> Abs(Margin(a, Sides[j]) - Margin(b, Sides[j])) <= MarginTolerance
    {
      assert Sides[..i + 1][..i] == Sides[..i];
      var side := Sides[i];
      var aval := Margin(a, side);
      var bval := Margin(b, side);
      if Abs(aval - bval) > MarginTolerance {
        ok := false;
        reasons := reasons + [MarginChanged(side, aval, bval, MarginTolerance)];
      }
    }
    assert Sides[..|Sides|] == Sides;
  }

  // ---------------------------------------------------------------------------
  // Lemmas

  /** The three loops together check exactly what `Matches` asks. */
  lemma MatchesByLoops(a: PageStats, b: PageStats)
    ensures Matches(a, b) <==>
              && (forall j :: 0 <= j < |CountKeys| ==> Count(a, CountKeys[j]) == Count(b, CountKeys[j]))
              && (forall j :: 0 <= j < |SizeChecks| ==> Abs(Size(a, SizeChecks[j].0) - Size(b, SizeChecks[j].0)) <= SizeChecks[j].1)
              && (forall j :: 0 <= j < |Sides| ==> Abs(Margin(a, Sides[j]) - Margin(b, Sides[j])) <= MarginTolerance)
  {
    if forall j :: 0 <= j < |CountKeys| ==> Count(a, CountKeys[j]) == Count(b, CountKeys[j]) {
      forall k: CountKey ensures Count(a, k) == Count(b, k) {
        assert Count(a, CountKeys[0]) == Count(b, CountKeys[0]) && Count(a, CountKeys[1]) == Count(b, CountKeys[1]);
        assert Count(a, CountKeys[2]) == Count(b, CountKeys[2]) && Count(a, CountKeys[3]) == Count(b, CountKeys[3]);
      }
    }
    if forall j :: 0 <= j < |SizeChecks| ==> Abs(Size(a, SizeChecks[j].0) - Size(b, SizeChecks[j].0)) <= SizeChecks[j].1 {
      forall k: SizeKey ensures Abs(Size(a, k) - Size(b, k)) <= SizeTolerance {
        assert Abs(Size(a, SizeChecks[0].0) - Size(b, SizeChecks[0].0)) <= SizeChecks[0].1;
        assert Abs(Size(a, SizeChecks[1].0) - Size(b, SizeChecks[1].0)) <= SizeChecks[1].1;
        assert Abs(Size(a, SizeChecks[2].0) - Size(b, SizeChecks[2].0)) <= SizeChecks[2].1;
      }
    }
    if forall j :: 0 <= j < |Sides| ==> Abs(Margin(a, Sides[j]) - Margin(b, Sides[j])) <= MarginTolerance {
      forall s: Side ensures Abs(Margin(a, s) - Margin(b, s)) <= MarginTolerance {
        assert Abs(Margin(a, Sides[0]) - Margin(b, Sides[0])) <= MarginTolerance;
        assert Abs(Margin(a, Sides[1]) - Margin(b, Sides[1])) <= MarginTolerance;
        assert Abs(Margin(a, Sides[2]) - Margin(b, Sides[2])) <= MarginTolerance;
        assert Abs(Margin(a, Sides[3]) - Margin(b, Sides[3])) <= MarginTolerance;
      }
    }
  }

  /** A count reason is listed exactly for a count that differs. */
  lemma {:induction false} CountReasonsMembers(a: PageStats, b: PageStats, keys: seq<CountKey>, r: Reason)
    ensures r in CountReasons(a, b, keys) <==>
              r.CountChanged? && r.count in keys && Count(a, r.count) != Count(b, r.count)
              && r.was == Count(a, r.count) && r.now == Count(b, r.count)
    decreases |keys|
  {
    if keys != [] {
      var init := keys[..|keys| - 1];
      CountReasonsMembers(a, b, init, r);
      assert forall k :: k in keys <==> k in init || k == keys[|keys| - 1];
    }
  }

  lemma {:induction false} SizeReasonsMembers(a: PageStats, b: PageStats, checks: seq<(SizeKey, real)>, r: Reason)
    ensures r in SizeReasons(a, b, checks) <==>
              r.SizeChanged? && (r.size, r.tolerance) in checks && Abs(Size(a, r.size) - Size(b, r.size)) > r.tolerance
              && r.from == Size(a, r.size) && r.to == Size(b, r.size)
    decreases |checks|
  {
    if checks != [] {
      var init := checks[..|checks| - 1];
      SizeReasonsMembers(a, b, init, r);
      assert forall c :: c in checks <==> c in init || c == checks[|checks| - 1];
    }
  }

  lemma {:induction false} MarginReasonsMembers(a: PageStats, b: PageStats, sides: seq<Side>, r: Reason)
    ensures r in MarginReasons(a, b, sides) <==>
              r.MarginChanged? && r.side in sides && r.tolerance == MarginTolerance
              && Abs(Margin(a, r.side) - Margin(b, r.side)) > MarginTolerance
              && r.from == Margin(a, r.side) && r.to == Margin(b, r.side)
    decreases |sides|
  {
    if sides != [] {
      var init := sides[..|sides| - 1];
      MarginReasonsMembers(a, b, init, r);
      assert forall s :: s in sides <==> s in init || s == sides[|sides| - 1];
    }
  }

  /**
   * Each check contributes its reason exactly when it fails: a count that differs, a size off
   * by more than 0.6, a margin off by more than 2 points (so a difference of exactly the
   * tolerance passes), and a change of font set.
   */
  lemma ReasonPerFailingCheck(a: PageStats, b: PageStats)
    ensures forall k: CountKey :: CountChanged(k, Count(a, k), Count(b, k)) in Reasons(a, b) <==> Count(a, k) != Count(b, k)
    ensures forall k: SizeKey ::
              SizeChanged(k, Size(a, k), Size(b, k), SizeTolerance) in Reasons(a, b) <==> Abs(Size(a, k) - Size(b, k)) > SizeTolerance
    ensures forall s: Side ::
              MarginChanged(s, Margin(a, s), Margin(b, s), MarginTolerance) in Reasons(a, b) <==> Abs(Margin(a, s) - Margin(b, s)) > MarginTolerance
    ensures FontsChanged in Reasons(a, b) <==> a.fonts != b.fonts
  {
    var c, z, m := CountReasons(a, b, CountKeys), SizeReasons(a, b, SizeChecks), MarginReasons(a, b, Sides);
    forall k: CountKey ensures CountChanged(k, Count(a, k), Count(b, k)) in Reasons(a, b) <==> Count(a, k) != Count(b, k) {
      var r := CountChanged(k, Count(a, k), Count(b, k));
      CountReasonsMembers(a, b, CountKeys, r);
      SizeReasonsMembers(a, b, SizeChecks, r);
      MarginReasonsMembers(a, b, Sides, r);
      assert k in CountKeys by { assert k == CountKeys[0] || k == CountKeys[1] || k == CountKeys[2] || k == CountKeys[3]; }
    }
    forall k: SizeKey ensures SizeChanged(k, Size(a, k), Size(b, k), SizeTolerance) in Reasons(a, b)
                              <==> Abs(Size(a, k) - Size(b, k)) > SizeTolerance {
      var r := SizeChanged(k, Size(a, k), Size(b, k), SizeTolerance);
      CountReasonsMembers(a, b, CountKeys, r);
      SizeReasonsMembers(a, b, SizeChecks, r);
      MarginReasonsMembers(a, b, Sides, r);
      assert (k, SizeTolerance) in SizeChecks by { assert k == SizeChecks[0].0 || k == SizeChecks[1].0 || k == SizeChecks[2].0; }
    }
    forall s: Side ensures MarginChanged(s, Margin(a, s), Margin(b, s), MarginTolerance) in Reasons(a, b)
                           <==> Abs(Margin(a, s) - Margin(b, s)) > MarginTolerance {
      var r := MarginChanged(s, Margin(a, s), Margin(b, s), MarginTolerance);
      CountReasonsMembers(a, b, CountKeys, r);
      SizeReasonsMembers(a, b, SizeChecks, r);
      MarginReasonsMembers(a, b, Sides, r);
      assert s in Sides by { assert s == Sides[0] || s == Sides[1] || s == Sides[2] || s == Sides[3]; }
    }
    CountReasonsMembers(a, b, CountKeys, FontsChanged);
    SizeReasonsMembers(a, b, SizeChecks, FontsChanged);
    MarginReasonsMembers(a, b, Sides, FontsChanged);
  }

  /** `ok` is false exactly when some reason other than the font change is listed. */
  lemma VerdictFollowsReasons(a: PageStats, b: PageStats)
    ensures Matches(a, b) <==> forall r :: r in Reasons(a, b) ==> r == FontsChanged
  {
    forall r | r in Reasons(a, b) && r != FontsChanged
      ensures !Matches(a, b)
    {
      CountReasonsMembers(a, b, CountKeys, r);
      SizeReasonsMembers(a, b, SizeChecks, r);
      MarginReasonsMembers(a, b, Sides, r);
    }
    if !Matches(a, b) {
      ReasonPerFailingCheck(a, b);
    }
  }

  /** A page record compared with itself: `ok` and no reasons. */
  lemma SelfComparison(a: PageStats)
    ensures Matches(a, a) && Reasons(a, a) == []
  {
    assert Abs(0.0) == 0.0;
    NoReasonsWhenMatching(a, a);
  }

  /** Fonts alone never fail the comparison: the only reason is the font change. */
  lemma FontsOnlyChange(a: PageStats, fonts: set<string>)
    requires fonts != a.fonts
    ensures Matches(a, a.(fonts := fonts)) && Reasons(a, a.(fonts := fonts)) == [FontsChanged]
  {
    NoReasonsWhenMatching(a, a.(fonts := fonts));
  }

  /** When the layout matches, the three loops add nothing. */
  lemma NoReasonsWhenMatching(a: PageStats, b: PageStats)
    requires Matches(a, b)
    ensures CountReasons(a, b, CountKeys) == [] && SizeReasons(a, b, SizeChecks) == [] && MarginReasons(a, b, Sides) == []
  {
    NoCountReasons(a, b, CountKeys);
    MatchesByLoops(a, b);
    NoSizeReasons(a, b, SizeChecks);
    NoMarginReasons(a, b, Sides);
  }

  lemma {:induction false} NoCountReasons(a: PageStats, b: PageStats, keys: seq<CountKey>)
    requires forall k: CountKey :: Count(a, k) == Count(b, k)
    ensures CountReasons(a, b, keys) == []
    decreases |keys|
  {
    if keys != [] {
      NoCountReasons(a, b, keys[..|keys| - 1]);
    }
  }

  lemma {:induction false} NoSizeReasons(a: PageStats, b: PageStats, checks: seq<(SizeKey, real)>)
    requires forall j :: 0 <= j < |checks| ==> Abs(Size(a, checks[j].0) - Size(b, checks[j].0)) <= checks[j].1
    ensures SizeReasons(a, b, checks) == []
    decreases |checks|
  {
    if checks != [] {
      NoSizeReasons(a, b, checks[..|checks| - 1]);
    }
  }

  lemma {:induction false} NoMarginReasons(a: PageStats, b: PageStats, sides: seq<Side>)
    requires forall s: Side :: Abs(Margin(a, s) - Margin(b, s)) <= MarginTolerance
    ensures MarginReasons(a, b, sides) == []
    decreases |sides|
  {
    if sides != [] {
      NoMarginReasons(a, b, sides[..|sides| - 1]);
    }
  }
}
