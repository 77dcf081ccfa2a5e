/**
 * The hard exposure limits: every target book is clipped and scaled into them,
 * and execution refuses a book that is outside them.
 */
module RiskLimits {
  import opened Prelude
  import opened Sums

  /** A target book: symbol to fraction of capital. */
  type Weights = map<string, real>

  datatype Limits = Limits(position: real, gross: real, net: real, sector: real) {
    predicate Valid() {
      0.0 <= position && 0.0 <= gross && 0.0 <= net && 0.0 <= sector
    }
  }

  /** The slack with which the net trim fires, and the slack the refusing check allows. */
  const NET_SLACK := 0.000_000_000_001
  const CHECK_SLACK := 0.000_000_001

  function Magnitudes(w: Weights): Weights {
    map k | k in w :: Abs(w[k])
  }

  function Members(w: Weights, sectors: map<string, string>, sector: string): set<string> {
    set k | k in w && k in sectors && sectors[k] == sector
  }

  function Restrict(w: Weights, ks: set<string>): Weights {
    map k | k in w && k in ks :: w[k]
  }

  ghost function Gross(w: Weights): real {
    Total(Magnitudes(w))
  }

  ghost function Exposure(w: Weights, ks: set<string>): real {
    Gross(Restrict(w, ks))
  }

  /** All caps at once: what the limits are for. */
  ghost predicate WithinCaps(w: Weights, limits: Limits, sectors: map<string, string>, slack: real) {
    && (forall k :: k in w ==> Abs(w[k]) <= limits.position)
    && Gross(w) <= limits.gross
    && (forall sector :: sector in sectors.Values ==> Exposure(w, Members(w, sectors, sector)) <= limits.sector)
    && Abs(Total(w)) <= limits.net + slack
  }

  /** Every weight of a lies between zero and the weight b gives the same name. */
  ghost predicate Shrinks(a: Weights, b: Weights) {
    && a.Keys <= b.Keys
    && forall k :: k in a ==> 0.0 <= a[k] <= b[k] || b[k] <= a[k] <= 0.0
  }

  // ---------------------------------------------------------------- the steps

  function Clip(x: real, cap: real): real {
    if x > cap then cap else if x < -cap then -cap else x
  }

  function Clipped(w: Weights, cap: real): Weights {
    map k | k in w :: Clip(w[k], cap)
  }

  /** w with the names in ks multiplied by f. */
  function Rescaled(w: Weights, ks: set<string>, f: real): Weights {
    map k | k in w :: if k in ks then Times(w[k], f) else w[k]
  }

  /** The names in ks brought down, together, to the cap if they exceed it. */
  ghost function Capped(w: Weights, ks: set<string>, cap: real): Weights {
    var e := Exposure(w, ks);
    if e > cap && e > 0.0 then Rescaled(w, ks, cap / e) else w
  }

  /** Every sector brought down to the sector cap; sectors share no name, so the order is immaterial. */
  ghost function SectorCapped(w: Weights, sectors: map<string, string>, cap: real): Weights {
    map k | k in w ::
      if k in sectors then Capped(w, Members(w, sectors, sectors[k]), cap)[k] else w[k]
  }

  function Side(w: Weights, long: bool): set<string> {
    set k | k in w && (if long then w[k] > 0.0 else w[k] < 0.0)
  }

  /** What is left of a side of size e once its excess over the cap is taken out. */
  function TrimFactor(net: real, cap: real, e: real): real
    requires e > 0.0
  {
    1.0 - (net - cap) / e
  }

  lemma TrimFactorInUnit(net: real, cap: real, e: real)
    requires 0.0 <= cap <= net <= e && 0.0 < e
    ensures 0.0 <= TrimFactor(net, cap, e) <= 1.0
    ensures Times(e, TrimFactor(net, cap, e)) == e - (net - cap)
  {
    RatioInUnit(net - cap, e);
  }

  /** The dominant side trimmed so that the net lands on the cap. */
  ghost function NetTrimmed(w: Weights, cap: real): Weights {
    var net := Total(w);
    if Abs(net) > cap + NET_SLACK then
      var side := Side(w, net > 0.0);
      var e := Exposure(w, side);
      if e > 0.0 then Rescaled(w, side, TrimFactor(Abs(net), cap, e)) else w
    else w
  }

  function WithoutZeros(w: Weights): Weights {
    map k | k in w && w[k] != 0.0 :: w[k]
  }

  /** Clipped per name, then capped in gross. */
  ghost function GrossStep(w: Weights, limits: Limits): Weights {
    var clipped := Clipped(w, limits.position);
    Capped(clipped, clipped.Keys, limits.gross)
  }

  /** And then capped per sector. */
  ghost function SectorStep(w: Weights, limits: Limits, sectors: map<string, string>): Weights {
    SectorCapped(GrossStep(w, limits), sectors, limits.sector)
  }

  /** The limited book. */
  ghost function Limited(w: Weights, limits: Limits, sectors: map<string, string>): Weights {
    WithoutZeros(NetTrimmed(SectorStep(w, limits, sectors), limits.net))
  }

  // ------------------------------------------------------- shrinking is enough

  lemma ShrinksTrans(a: Weights, b: Weights, c: Weights)
    requires Shrinks(a, b) && Shrinks(b, c)
    ensures Shrinks(a, c)
  {
  }

  /** A book that only shrank has no more gross, over all names and over any set of them. */
  lemma ShrinkingLowersExposure(a: Weights, b: Weights, ks: set<string>, ls: set<string>)
    requires a.Keys == b.Keys && Shrinks(a, b)
    requires forall k :: k in a && k in ks ==> k in ls
    ensures Exposure(a, ks) <= Exposure(b, ls)
  {
    var ma := Magnitudes(Restrict(a, ks));
    var mb := Magnitudes(Restrict(b, ls));
    var padded := map k | k in mb :: if k in ma then ma[k] else 0.0;
    TotalIgnoresZeros(ma, padded);
    TotalMono(padded, mb);
  }

  lemma ExposureOfAll(w: Weights, ks: set<string>)
    requires w.Keys <= ks
    ensures Exposure(w, ks) == Gross(w)
  {
    assert Restrict(w, ks) == w;
  }

  lemma ExposureNonNegative(w: Weights, ks: set<string>)
    ensures 0.0 <= Exposure(w, ks)
    ensures forall k :: k in w && k in ks ==> Abs(w[k]) <= Exposure(w, ks)
  {
    var m := Magnitudes(Restrict(w, ks));
    TotalNonNegative(m);
    forall k | k in w && k in ks ensures Abs(w[k]) <= Exposure(w, ks) {
      assert k in m;
    }
  }

  lemma RescalingShrinks(w: Weights, ks: set<string>, f: real)
    requires 0.0 <= f <= 1.0
    ensures Shrinks(Rescaled(w, ks, f), w)
  {
    forall k | k in w
      ensures var x := Rescaled(w, ks, f)[k]; 0.0 <= x <= w[k] || w[k] <= x <= 0.0
    {
      ShrinkTowardZero(w[k], f);
    }
  }

  lemma RescalingScalesExposure(w: Weights, ks: set<string>, f: real)
    requires 0.0 <= f <= 1.0
    ensures Exposure(Rescaled(w, ks, f), ks) == Times(Exposure(w, ks), f)
  {
    var m := Magnitudes(Restrict(w, ks));
    var r := Magnitudes(Restrict(Rescaled(w, ks, f), ks));
    forall k | k in m ensures r[k] == Times(m[k], f) {
      AbsScales(w[k], f);
    }
    TotalScale(m, r, f);
  }

  /** Capping a set of names lands its exposure exactly on the cap, or leaves it where it was. */
  lemma CappedMeetsCap(w: Weights, ks: set<string>, cap: real)
    requires 0.0 <= cap
    ensures Capped(w, ks, cap).Keys == w.Keys
    ensures Shrinks(Capped(w, ks, cap), w)
    ensures Exposure(Capped(w, ks, cap), ks) == Min(cap, Exposure(w, ks))
    ensures forall k :: k in w && k !in ks ==> Capped(w, ks, cap)[k] == w[k]
  {
    var e := Exposure(w, ks);
    ExposureNonNegative(w, ks);
    if e > cap && e > 0.0 {
      var f := cap / e;
      RatioInUnit(cap, e);
      RescalingShrinks(w, ks, f);
      RescalingScalesExposure(w, ks, f);
    }
  }

  /** The sector step lands every sector exactly on the cap, or leaves it where it was. */
  lemma SectorCappedMeetsCaps(w: Weights, sectors: map<string, string>, cap: real)
    requires 0.0 <= cap
    ensures SectorCapped(w, sectors, cap).Keys == w.Keys
    ensures Shrinks(SectorCapped(w, sectors, cap), w)
    ensures forall sector :: sector in sectors.Values ==>
      var ks := Members(w, sectors, sector);
      Exposure(SectorCapped(w, sectors, cap), ks) == Min(cap, Exposure(w, ks))
    ensures forall k :: k in w && k !in sectors ==> SectorCapped(w, sectors, cap)[k] == w[k]
  {
    var s := SectorCapped(w, sectors, cap);
    forall k | k in w ensures 0.0 <= s[k] <= w[k] || w[k] <= s[k] <= 0.0 {
      if k in sectors {
        CappedMeetsCap(w, Members(w, sectors, sectors[k]), cap);
      }
    }
    forall sector | sector in sectors.Values
      ensures var ks := Members(w, sectors, sector); Exposure(s, ks) == Min(cap, Exposure(w, ks))
    {
      var ks := Members(w, sectors, sector);
      CappedMeetsCap(w, ks, cap);
      assert Restrict(s, ks) == Restrict(Capped(w, ks, cap), ks);
    }
  }

  /** The long, or short, part of every weight. */
  function PartOf(w: Weights, long: bool): Weights {
    map k | k in w :: Max(if long then w[k] else -w[k], 0.0)
  }

  lemma SideExposure(w: Weights, long: bool)
    ensures Exposure(w, Side(w, long)) == Total(PartOf(w, long))
  {
    TotalIgnoresZeros(Magnitudes(Restrict(w, Side(w, long))), PartOf(w, long));
  }

  lemma PartsMakeNet(w: Weights)
    ensures Total(PartOf(w, true)) == Total(w) + Total(PartOf(w, false))
  {
    var long, short := PartOf(w, true), PartOf(w, false);
    forall k | k in long ensures long[k] == w[k] + short[k] {
    }
    TotalAdd(w, short, long);
  }

  /** Net exposure is long exposure minus short exposure. */
  lemma NetIsLongMinusShort(w: Weights)
    ensures Total(w) == Exposure(w, Side(w, true)) - Exposure(w, Side(w, false))
  {
    SideExposure(w, true);
    SideExposure(w, false);
    PartsMakeNet(w);
  }

  /**
   * After the trim the net is on the cap if it was beyond the slack, and untouched otherwise. Names on the other side
   * are left alone.
   */
  lemma NetTrimmedMeetsCap(w: Weights, cap: real)
    requires 0.0 <= cap
    ensures NetTrimmed(w, cap).Keys == w.Keys
    ensures Shrinks(NetTrimmed(w, cap), w)
    ensures var net := Total(w);
      Total(NetTrimmed(w, cap)) ==
        if Abs(net) <= cap + NET_SLACK then net else if net > 0.0 then cap else -cap
    ensures forall k :: k in w && (if Total(w) > 0.0 then w[k] <= 0.0 else w[k] >= 0.0) ==>
      NetTrimmed(w, cap)[k] == w[k]
  {
    var net := Total(w);
    if Abs(net) > cap + NET_SLACK {
      NetIsLongMinusShort(w);
      ExposureNonNegative(w, Side(w, net <= 0.0));
      var e := Exposure(w, Side(w, net > 0.0));
      TrimFactorInUnit(Abs(net), cap, e);
      TrimmedSideLandsOnCap(w, net > 0.0, Abs(net), cap, TrimFactor(Abs(net), cap, e));
    }
  }

  /** Shrinking one side by its share of the excess moves the net to the cap and leaves the other side alone. */
  lemma TrimmedSideLandsOnCap(w: Weights, long: bool, net: real, cap: real, f: real)
    requires 0.0 <= f <= 1.0
    requires Total(w) == if long then net else -net
    requires Times(Exposure(w, Side(w, long)), f) == Exposure(w, Side(w, long)) - (net - cap)
    ensures var t := Rescaled(w, Side(w, long), f);
      Shrinks(t, w) && Total(t) == if long then cap else -cap
  {
    var t := Rescaled(w, Side(w, long), f);
    RescalingShrinks(w, Side(w, long), f);
    RescalingScalesExposure(w, Side(w, long), f);
    SidesAfterTrim(w, t, long);
    NetIsLongMinusShort(w);
    NetIsLongMinusShort(t);
  }

  /** A name trimmed all the way to zero leaves its side, and contributes nothing to it. */
  lemma SidesAfterTrim(w: Weights, t: Weights, long: bool)
    requires w.Keys == t.Keys && Shrinks(t, w)
    requires forall k :: k in w && k !in Side(w, long) ==> t[k] == w[k]
    ensures Exposure(t, Side(t, long)) == Exposure(t, Side(w, long))
    ensures Exposure(t, Side(t, !long)) == Exposure(w, Side(w, !long))
  {
    assert Restrict(t, Side(t, !long)) == Restrict(w, Side(w, !long));
    TotalIgnoresZeros(Magnitudes(Restrict(t, Side(t, long))), Magnitudes(Restrict(t, Side(w, long))));
  }

  lemma ZerosDoNotCount(w: Weights, ks: set<string>)
    ensures Exposure(WithoutZeros(w), ks) == Exposure(w, ks)
    ensures Gross(WithoutZeros(w)) == Gross(w)
    ensures Total(WithoutZeros(w)) == Total(w)
  {
    TotalIgnoresZeros(Magnitudes(Restrict(WithoutZeros(w), ks)), Magnitudes(Restrict(w, ks)));
    TotalIgnoresZeros(Magnitudes(WithoutZeros(w)), Magnitudes(w));
    TotalIgnoresZeros(WithoutZeros(w), w);
  }

  // ------------------------------------------- what is scaled, and in what proportion

  /** Every weight is the smaller of its size and the cap, with its sign. */
  ghost predicate Bounded(w: Weights, cap: real, c: Weights) {
    && c.Keys == w.Keys
    && forall k :: k in w ==>
      && Abs(c[k]) == Min(Abs(w[k]), cap)
      && (w[k] >= 0.0 ==> c[k] >= 0.0) && (w[k] <= 0.0 ==> c[k] <= 0.0)
  }

  /** Clipping bounds every weight, and loses no name. */
  lemma ClippedIsBounded(w: Weights, cap: real)
    requires 0.0 <= cap
    ensures Bounded(w, cap, Clipped(w, cap))
    ensures forall k :: k in w && w[k] != 0.0 && cap > 0.0 ==> Clipped(w, cap)[k] != 0.0
  {
  }

  lemma BoundedIsClipped(w: Weights, cap: real, c: Weights)
    requires 0.0 <= cap && Bounded(w, cap, c)
    ensures c == Clipped(w, cap)
  {
    forall k | k in w ensures c[k] == Clipped(w, cap)[k] {
    }
  }

  /** With the other caps slack, the limited book is the bounded one: a name over the cap ends exactly on it. */
  lemma SlackBookIsBounded(w: Weights, limits: Limits, sectors: map<string, string>, c: Weights)
    requires limits.Valid() && Bounded(w, limits.position, c)
    requires WithinCaps(c, limits, sectors, NET_SLACK)
    ensures Limited(w, limits, sectors) == map k | k in c && c[k] != 0.0 :: c[k]
    ensures forall k :: k in w && Abs(w[k]) >= limits.position > 0.0 ==>
      var out := Limited(w, limits, sectors);
      k in out && out[k] == if w[k] > 0.0 then limits.position else -limits.position
  {
    BoundedIsClipped(w, limits.position, c);
    CompliantStepsAreIdle(c, limits, sectors);
  }

  /** a and b are in the proportion of x and y, and each of the sign of its own. */
  predicate InProportion(a: real, b: real, x: real, y: real) {
    Times(a, y) == Times(b, x) && (0.0 <= a <= x || x <= a <= 0.0) && (0.0 <= b <= y || y <= b <= 0.0)
  }

  lemma ScaledTogether(a: real, b: real, x: real, y: real, f: real)
    requires InProportion(a, b, x, y) && 0.0 <= f <= 1.0
    ensures InProportion(Times(a, f), Times(b, f), x, y)
  {
    ShrinkTowardZero(a, f);
    ShrinkTowardZero(b, f);
    ScaledProducts(a, b, x, y, f);
  }

  lemma ScaledProducts(a: real, b: real, x: real, y: real, f: real)
    requires Times(a, y) == Times(b, x)
    ensures Times(Times(a, f), y) == Times(Times(b, f), x)
  {
    assert a * f * y == (a * y) * f && b * f * x == (b * x) * f;
  }

  lemma CappedKeepsProportion(w: Weights, ks: set<string>, cap: real, k: string, j: string, x: real, y: real)
    requires 0.0 <= cap && k in w && j in w && (k in ks <==> j in ks) && InProportion(w[k], w[j], x, y)
    ensures InProportion(Capped(w, ks, cap)[k], Capped(w, ks, cap)[j], x, y)
  {
    var e := Exposure(w, ks);
    if e > cap && e > 0.0 && k in ks {
      RatioInUnit(cap, e);
      ScaledTogether(w[k], w[j], x, y, cap / e);
    }
  }

  ghost predicate SameSector(sectors: map<string, string>, k: string, j: string) {
    (k in sectors <==> j in sectors) && (k in sectors ==> sectors[k] == sectors[j])
  }

  lemma SectorStepKeepsProportion(w: Weights, sectors: map<string, string>, cap: real, k: string, j: string, x: real,
                                  y: real)
    requires 0.0 <= cap && k in w && j in w && SameSector(sectors, k, j) && InProportion(w[k], w[j], x, y)
    ensures InProportion(SectorCapped(w, sectors, cap)[k], SectorCapped(w, sectors, cap)[j], x, y)
  {
    if k in sectors {
      CappedKeepsProportion(w, Members(w, sectors, sectors[k]), cap, k, j, x, y);
    }
  }

  /** Of two weights in proportion, of one sign, neither is zero unless both are. */
  lemma ZeroTogether(a: real, b: real, x: real, y: real)
    requires InProportion(a, b, x, y) && x != 0.0 && y != 0.0
    ensures a == 0.0 <==> b == 0.0
  {
    assert a == 0.0 ==> Times(b, x) == 0.0;
    assert b == 0.0 ==> Times(a, y) == 0.0;
  }

  lemma NetTrimKeepsProportion(w: Weights, cap: real, k: string, j: string, x: real, y: real)
    requires 0.0 <= cap && k in w && j in w && InProportion(w[k], w[j], x, y)
    requires x != 0.0 && y != 0.0 && (x > 0.0 <==> y > 0.0)
    ensures InProportion(NetTrimmed(w, cap)[k], NetTrimmed(w, cap)[j], x, y)
  {
    var net := Total(w);
    ZeroTogether(w[k], w[j], x, y);
    if Abs(net) > cap + NET_SLACK && k in Side(w, net > 0.0) {
      NetIsLongMinusShort(w);
      ExposureNonNegative(w, Side(w, net <= 0.0));
      var e := Exposure(w, Side(w, net > 0.0));
      TrimFactorInUnit(Abs(net), cap, e);
      ScaledTogether(w[k], w[j], x, y, TrimFactor(Abs(net), cap, e));
    }
  }

  function WeightIn(w: Weights, k: string): real {
    if k in w then w[k] else 0.0
  }

  /**
   * Names of one sector on one side of the book keep the proportion they have once each is bounded: whatever is
   * scaled, they are scaled alike.
   */
  lemma LimitedKeepsProportions(w: Weights, limits: Limits, sectors: map<string, string>, c: Weights, k: string,
                                j: string)
    requires limits.Valid() && Bounded(w, limits.position, c)
    requires k in w && j in w && SameSector(sectors, k, j)
    requires w[k] != 0.0 && w[j] != 0.0 && (w[k] > 0.0 <==> w[j] > 0.0)
    ensures var out := Limited(w, limits, sectors);
      InProportion(WeightIn(out, k), WeightIn(out, j), c[k], c[j])
  {
    var g, s := GrossStep(w, limits), SectorStep(w, limits, sectors);
    BoundedIsClipped(w, limits.position, c);
    CappedKeepsProportion(c, c.Keys, limits.gross, k, j, c[k], c[j]);
    SectorStepKeepsProportion(g, sectors, limits.sector, k, j, c[k], c[j]);
    if limits.position > 0.0 {
      NetTrimKeepsProportion(s, limits.net, k, j, c[k], c[j]);
    } else {
      LimitedShrinks(w, limits, sectors);
    }
  }

  /** The part of a book its gross cap leaves. */
  function GrossFactor(gross: real, cap: real): real {
    if gross > cap && gross > 0.0 then cap / gross else 1.0
  }

  lemma GrossStepScales(w: Weights, limits: Limits, c: Weights, ks: set<string>)
    requires limits.Valid() && Bounded(w, limits.position, c)
    ensures var f := GrossFactor(Gross(c), limits.gross);
      && (forall k :: k in w ==> GrossStep(w, limits)[k] == Times(c[k], f))
      && Exposure(GrossStep(w, limits), ks) == Times(Exposure(c, ks), f)
  {
    var f := GrossFactor(Gross(c), limits.gross);
    BoundedIsClipped(w, limits.position, c);
    ExposureOfAll(c, c.Keys);
    ExposureNonNegative(c, c.Keys);
    if Gross(c) > limits.gross {
      RatioInUnit(limits.gross, Gross(c));
    }
    RescalingScalesExposure(c, c.Keys, f);
    assert GrossStep(w, limits) == Rescaled(c, c.Keys, f);
    PartScales(c, ks, f);
  }

  lemma PartScales(c: Weights, ks: set<string>, f: real)
    requires 0.0 <= f <= 1.0
    ensures Exposure(Rescaled(c, c.Keys, f), ks) == Times(Exposure(c, ks), f)
  {
    RescalingScalesExposure(c, ks, f);
    assert Restrict(Rescaled(c, c.Keys, f), ks) == Restrict(Rescaled(c, ks, f), ks);
  }

  /** A net strictly inside its cap has not been trimmed. */
  lemma InsideNetIsUntrimmed(w: Weights, limits: Limits, sectors: map<string, string>)
    requires limits.Valid() && Abs(Total(Limited(w, limits, sectors))) < limits.net
    ensures Limited(w, limits, sectors) == WithoutZeros(SectorStep(w, limits, sectors))
  {
    var s := SectorStep(w, limits, sectors);
    NetTrimmedMeetsCap(s, limits.net);
    ZerosDoNotCount(NetTrimmed(s, limits.net), {});
  }

  /**
   * Where the scaling ends unless the net is on its cap: first the whole bounded book gives way to the gross cap, then
   * each sector to its own, and a name in no sector to nothing else.
   */
  lemma SectorEndsAt(w: Weights, limits: Limits, sectors: map<string, string>, c: Weights, sector: string)
    requires limits.Valid() && Bounded(w, limits.position, c) && sector in sectors.Values
    requires Abs(Total(Limited(w, limits, sectors))) < limits.net
    ensures var out, ks := Limited(w, limits, sectors), Members(w, sectors, sector);
      Exposure(out, ks) == Min(limits.sector, Times(Exposure(c, ks), GrossFactor(Gross(c), limits.gross)))
  {
    InsideNetIsUntrimmed(w, limits, sectors);
    SectorAfterItsStep(w, limits, sectors, c, sector);
    ZerosDoNotCount(SectorStep(w, limits, sectors), Members(w, sectors, sector));
  }

  lemma SectorAfterItsStep(w: Weights, limits: Limits, sectors: map<string, string>, c: Weights, sector: string)
    requires limits.Valid() && Bounded(w, limits.position, c) && sector in sectors.Values
    ensures var ks := Members(w, sectors, sector);
      Exposure(SectorStep(w, limits, sectors), ks)
      == Min(limits.sector, Times(Exposure(c, ks), GrossFactor(Gross(c), limits.gross)))
  {
    var g := GrossStep(w, limits);
    GrossStepScales(w, limits, c, Members(w, sectors, sector));
    SectorCappedMeetsCaps(g, sectors, limits.sector);
    assert Members(g, sectors, sector) == Members(w, sectors, sector);
  }

  lemma UnsectoredEndsAt(w: Weights, limits: Limits, sectors: map<string, string>, c: Weights, k: string)
    requires limits.Valid() && Bounded(w, limits.position, c) && k in w && k !in sectors
    requires Abs(Total(Limited(w, limits, sectors))) < limits.net
    ensures WeightIn(Limited(w, limits, sectors), k) == Times(c[k], GrossFactor(Gross(c), limits.gross))
  {
    InsideNetIsUntrimmed(w, limits, sectors);
    GrossStepScales(w, limits, c, {});
    SectorCappedMeetsCaps(GrossStep(w, limits), sectors, limits.sector);
  }

  // ------------------------------------------------------------ the main laws

  /** Exposure caps met at some step survive every later step, as those only shrink. */
  lemma CapsSurviveShrinking(out: Weights, w: Weights, ks: set<string>, ls: set<string>, cap: real)
    requires Shrinks(out, w) && ks <= ls
    requires Exposure(w, ls) <= cap
    ensures Exposure(out, ks) <= cap
  {
    var padded := map k | k in w :: if k in out then out[k] else 0.0;
    assert Exposure(padded, ks) == Exposure(out, ks) by {
      TotalIgnoresZeros(Magnitudes(Restrict(out, ks)), Magnitudes(Restrict(padded, ks)));
    }
    ShrinkingLowersExposure(padded, w, ks, ls);
  }

  /** The net trim and the dropping of zeros, together. */
  lemma LastStepsMeetNetCap(w: Weights, cap: real)
    requires 0.0 <= cap
    ensures var out := WithoutZeros(NetTrimmed(w, cap));
      && Shrinks(out, w)
      && Abs(Total(out)) <= cap + NET_SLACK
      && (forall k :: k in out ==> out[k] != 0.0)
  {
    NetTrimmedMeetsCap(w, cap);
    ZerosDoNotCount(NetTrimmed(w, cap), {});
  }

  lemma GrossStepMeetsCaps(w: Weights, limits: Limits)
    requires limits.Valid()
    ensures var s := GrossStep(w, limits);
      && s.Keys == w.Keys
      && Shrinks(s, Clipped(w, limits.position)) && Shrinks(Clipped(w, limits.position), w)
      && Gross(s) == Min(limits.gross, Gross(Clipped(w, limits.position)))
  {
    var clipped := Clipped(w, limits.position);
    CappedMeetsCap(clipped, clipped.Keys, limits.gross);
    ExposureOfAll(clipped, clipped.Keys);
    ExposureOfAll(GrossStep(w, limits), clipped.Keys);
  }

  /** Each step's result shrinks that of the step before. */
  lemma LimitedShrinks(w: Weights, limits: Limits, sectors: map<string, string>)
    requires limits.Valid()
    ensures var out := Limited(w, limits, sectors);
      && Shrinks(out, SectorStep(w, limits, sectors))
      && Shrinks(out, GrossStep(w, limits))
      && Shrinks(out, Clipped(w, limits.position))
      && Shrinks(out, w)
  {
    var out, s := Limited(w, limits, sectors), SectorStep(w, limits, sectors);
    var g, c := GrossStep(w, limits), Clipped(w, limits.position);
    LastStepsMeetNetCap(s, limits.net);
    SectorCappedMeetsCaps(g, sectors, limits.sector);
    GrossStepMeetsCaps(w, limits);
    ShrinksTrans(out, s, g);
    ShrinksTrans(out, g, c);
    ShrinksTrans(out, c, w);
  }

  lemma LimitedMeetsSectorCap(w: Weights, limits: Limits, sectors: map<string, string>, sector: string)
    requires limits.Valid() && sector in sectors.Values
    ensures var out := Limited(w, limits, sectors); Exposure(out, Members(out, sectors, sector)) <= limits.sector
  {
    var out, s, g := Limited(w, limits, sectors), SectorStep(w, limits, sectors), GrossStep(w, limits);
    LimitedShrinks(w, limits, sectors);
    SectorCappedMeetsCaps(g, sectors, limits.sector);
    CapsSurviveShrinking(out, s, Members(out, sectors, sector), Members(g, sectors, sector), limits.sector);
  }

  lemma LimitedMeetsGrossCap(w: Weights, limits: Limits, sectors: map<string, string>)
    requires limits.Valid()
    ensures Gross(Limited(w, limits, sectors)) <= limits.gross
  {
    var out, g := Limited(w, limits, sectors), GrossStep(w, limits);
    LimitedShrinks(w, limits, sectors);
    GrossStepMeetsCaps(w, limits);
    ExposureOfAll(g, g.Keys);
    CapsSurviveShrinking(out, g, g.Keys, g.Keys, limits.gross);
    ExposureOfAll(out, g.Keys);
  }

  /** The limited book satisfies every cap at once, and no name grew, flipped or appeared. */
  lemma LimitedIsWithinCaps(w: Weights, limits: Limits, sectors: map<string, string>)
    requires limits.Valid()
    ensures var out := Limited(w, limits, sectors);
      && WithinCaps(out, limits, sectors, NET_SLACK)
      && Shrinks(out, w)
      && (forall k :: k in out ==> out[k] != 0.0)
  {
    LimitedShrinks(w, limits, sectors);
    LimitedMeetsGrossCap(w, limits, sectors);
    LastStepsMeetNetCap(SectorStep(w, limits, sectors), limits.net);
    forall sector | sector in sectors.Values
      ensures var out := Limited(w, limits, sectors); Exposure(out, Members(out, sectors, sector)) <= limits.sector
    {
      LimitedMeetsSectorCap(w, limits, sectors, sector);
    }
  }

  /** The limits change nothing exactly when the book already respects all of them. */
  lemma LimitedIsIdentityOnCompliantBooks(w: Weights, limits: Limits, sectors: map<string, string>)
    requires limits.Valid()
    ensures Limited(w, limits, sectors) == w
      <==> WithinCaps(w, limits, sectors, NET_SLACK) && (forall k :: k in w ==> w[k] != 0.0)
  {
    LimitedIsWithinCaps(w, limits, sectors);
    if WithinCaps(w, limits, sectors, NET_SLACK) && (forall k :: k in w ==> w[k] != 0.0) {
      CompliantStepsAreIdle(w, limits, sectors);
      assert WithoutZeros(w) == w;
    }
  }

  /** Within the caps, none of the scaling steps acts. */
  lemma CompliantStepsAreIdle(w: Weights, limits: Limits, sectors: map<string, string>)
    requires WithinCaps(w, limits, sectors, NET_SLACK)
    ensures Clipped(w, limits.position) == w
    ensures Capped(w, w.Keys, limits.gross) == w
    ensures SectorCapped(w, sectors, limits.sector) == w
    ensures NetTrimmed(w, limits.net) == w
  {
    ExposureOfAll(w, w.Keys);
    CompliantSectorsAreIdle(w, limits.sector, sectors);
  }

  lemma CompliantSectorsAreIdle(w: Weights, cap: real, sectors: map<string, string>)
    requires forall sector :: sector in sectors.Values ==> Exposure(w, Members(w, sectors, sector)) <= cap
    ensures SectorCapped(w, sectors, cap) == w
  {
    forall k | k in w && k in sectors ensures Capped(w, Members(w, sectors, sectors[k]), cap) == w {
      assert sectors[k] in sectors.Values;
    }
  }

  lemma LimitedIsIdempotent(w: Weights, limits: Limits, sectors: map<string, string>)
    requires limits.Valid()
    ensures var out := Limited(w, limits, sectors); Limited(out, limits, sectors) == out
  {
    LimitedIsWithinCaps(w, limits, sectors);
    LimitedIsIdentityOnCompliantBooks(Limited(w, limits, sectors), limits, sectors);
  }

  /** Sector scaling done so far: the sectors still in todo are untouched. */
  ghost function PartlySectorCapped(w: Weights, sectors: map<string, string>, cap: real, todo: set<string>): Weights {
    map k | k in w ::
      if k in sectors && sectors[k] !in todo then Capped(w, Members(w, sectors, sectors[k]), cap)[k] else w[k]
  }

  /** Handling one more sector, whichever it is, finds its members as the gross step left them. */
  lemma OneMoreSector(w: Weights, sectors: map<string, string>, cap: real, todo: set<string>, sector: string)
    requires sector in todo
    ensures var s, ks := PartlySectorCapped(w, sectors, cap, todo), Members(w, sectors, sector);
      && Members(s, sectors, sector) == ks
      && Capped(s, ks, cap) == PartlySectorCapped(w, sectors, cap, todo - {sector})
  {
    var s, ks := PartlySectorCapped(w, sectors, cap, todo), Members(w, sectors, sector);
    assert Members(s, sectors, sector) == ks;
    assert Restrict(s, ks) == Restrict(w, ks);
  }

  /** Brings the names in ks down to the cap if together they exceed it. */
  method ScaleToCap(w: Weights, ks: set<string>, cap: real) returns (s: Weights)
    ensures s == Capped(w, ks, cap)
  {
    s := w;
    var exposure := SumValues(Magnitudes(Restrict(w, ks)));
    if exposure > cap && exposure > 0.0 {
      s := Rescaled(w, ks, cap / exposure);
    }
  }

  /** Brings every sector down to the cap, in any order. */
  method ScaleSectors(w: Weights, sectors: map<string, string>, cap: real) returns (s: Weights)
    ensures s == SectorCapped(w, sectors, cap)
  {
    s := w;
    var todo := sectors.Values;
    assert forall k :: k in sectors ==> sectors[k] in todo;
    while todo != {}
      invariant s == PartlySectorCapped(w, sectors, cap, todo)
    {
      var sector :| sector in todo;
      OneMoreSector(w, sectors, cap, todo, sector);
      s := ScaleToCap(s, Members(s, sectors, sector), cap);
      todo := todo - {sector};
    }
  }

  method TrimNet(w: Weights, cap: real) returns (s: Weights)
    ensures s == NetTrimmed(w, cap)
  {
    s := w;
    var net := SumValues(w);
    if Abs(net) > cap + NET_SLACK {
      var dominant := Side(w, net > 0.0);
      var size := SumValues(Magnitudes(Restrict(w, dominant)));
      if size > 0.0 {
        s := Rescaled(w, dominant, TrimFactor(Abs(net), cap, size));
      }
    }
  }

  /** The caps, name by name and sum by sum. */
  ghost predicate KeepsLimits(w: Weights, limits: Limits, sectors: map<string, string>) {
    && (forall k :: k in w ==> -limits.position <= w[k] <= limits.position)
    && Total(map k | k in w :: if w[k] < 0.0 then -w[k] else w[k]) <= limits.gross
    && (forall sector :: sector in sectors.Values ==>
          Total(map k | k in w && k in sectors && sectors[k] == sector :: if w[k] < 0.0 then -w[k] else w[k])
          <= limits.sector)
    && -limits.net - 0.000_000_000_001 <= Total(w) <= limits.net + 0.000_000_000_001
  }

  lemma KeepsLimitsIff(w: Weights, limits: Limits, sectors: map<string, string>)
    ensures KeepsLimits(w, limits, sectors) <==> WithinCaps(w, limits, sectors, NET_SLACK)
  {
    assert Magnitudes(w) == map k | k in w :: if w[k] < 0.0 then -w[k] else w[k];
    forall sector | sector in sectors.Values
      ensures Total(map k | k in w && k in sectors && sectors[k] == sector :: if w[k] < 0.0 then -w[k] else w[k])
        == Exposure(w, Members(w, sectors, sector))
    {
      assert Magnitudes(Restrict(w, Members(w, sectors, sector)))
        == map k | k in w && k in sectors && sectors[k] == sector :: if w[k] < 0.0 then -w[k] else w[k];
    }
  }

  lemma LimitedKeepsLimits(w: Weights, limits: Limits, sectors: map<string, string>)
    requires limits.Valid()
    ensures KeepsLimits(Limited(w, limits, sectors), limits, sectors)
    ensures forall c :: Bounded(w, limits.position, c) && KeepsLimits(c, limits, sectors) ==>
      Limited(w, limits, sectors) == map k | k in c && c[k] != 0.0 :: c[k]
  {
    LimitedIsWithinCaps(w, limits, sectors);
    KeepsLimitsIff(Limited(w, limits, sectors), limits, sectors);
    forall c | Bounded(w, limits.position, c) && KeepsLimits(c, limits, sectors)
      ensures Limited(w, limits, sectors) == map k | k in c && c[k] != 0.0 :: c[k]
    {
      KeepsLimitsIff(c, limits, sectors);
      SlackBookIsBounded(w, limits, sectors, c);
    }
  }

  /** Clips each name, then scales the gross, each sector in any order, and the net into their caps. */
  method ApplyRiskLimits(weights: Weights, limits: Limits, sectors: map<string, string>) returns (out: Weights)
    ensures out == Limited(weights, limits, sectors)
    ensures limits.Valid() ==> KeepsLimits(out, limits, sectors)
    ensures limits.Valid() ==> forall c :: Bounded(weights, limits.position, c) && KeepsLimits(c, limits, sectors) ==>
      out == map k | k in c && c[k] != 0.0 :: c[k]
  {
    if limits.Valid() {
      LimitedKeepsLimits(weights, limits, sectors);
    }
    if weights == map[] {
      NothingToLimit(limits, sectors);
      return map[];
    }
    var s := Clipped(weights, limits.position);
    s := ScaleToCap(s, s.Keys, limits.gross);
    s := ScaleSectors(s, sectors, limits.sector);
    s := TrimNet(s, limits.net);
    out := WithoutZeros(s);
  }

  lemma NothingToLimit(limits: Limits, sectors: map<string, string>)
    ensures Limited(map[], limits, sectors) == map[]
  {
    assert Capped(map[], {}, limits.gross) == map[];
  }

  // ------------------------------------------------------- the refusing check

  datatype Verdict = Allowed | PositionBreach | GrossBreach | NetBreach

  /** The verdict on one target, given the other targets of the same book. */
  ghost function CheckVerdict(target: real, proposed: Weights, limits: Limits): Verdict {
    if Abs(target) > limits.position + CHECK_SLACK then PositionBreach
    else if Gross(proposed) > limits.gross + CHECK_SLACK then GrossBreach
    else if Abs(Total(proposed)) > limits.net + CHECK_SLACK then NetBreach
    else Allowed
  }

  /** Refuses a target that would breach a limit, given the other targets. */
  method CheckOrder(symbol: string, target: real, others: Weights, limits: Limits) returns (v: Verdict)
    ensures v == CheckVerdict(target, others[symbol := target], limits)
    ensures v == PositionBreach <==> Abs(target) > limits.position + 0.000_000_001
    ensures v == GrossBreach ==> Gross(others[symbol := target]) > limits.gross + 0.000_000_001
    ensures v == NetBreach ==>
      Gross(others[symbol := target]) <= limits.gross + 0.000_000_001
      && Abs(Total(others[symbol := target])) > limits.net + 0.000_000_001
    ensures v == Allowed ==>
      Gross(others[symbol := target]) <= limits.gross + 0.000_000_001
      && Abs(Total(others[symbol := target])) <= limits.net + 0.000_000_001
  {
    if Abs(target) > limits.position + CHECK_SLACK {
      return PositionBreach;
    }
    var proposed := others[symbol := target];
    var gross := SumValues(Magnitudes(proposed));
    if gross > limits.gross + CHECK_SLACK {
      return GrossBreach;
    }
    var net := SumValues(proposed);
    if Abs(net) > limits.net + CHECK_SLACK {
      return NetBreach;
    }
    v := Allowed;
  }

  /** Every target of a book passes when checked against the rest of the book. */
  ghost predicate BookPasses(w: Weights, limits: Limits) {
    forall k :: k in w ==> CheckVerdict(w[k], (w - {k})[k := w[k]], limits) == Allowed
  }

  /** Checking name by name is checking the whole book against the caps, once. */
  lemma BookPassesIffWithinCaps(w: Weights, limits: Limits)
    ensures BookPasses(w, limits) <==>
      w == map[] || (
        && (forall k :: k in w ==> Abs(w[k]) <= limits.position + CHECK_SLACK)
        && Gross(w) <= limits.gross + CHECK_SLACK
        && Abs(Total(w)) <= limits.net + CHECK_SLACK)
  {
    forall k | k in w ensures (w - {k})[k := w[k]] == w {
    }
    if w != map[] {
      var k :| k in w;
      assert (w - {k})[k := w[k]] == w;
    }
  }

  /** A book with explicit zero targets added for names that left it. */
  function WithFlattened(w: Weights, leavers: set<string>): Weights {
    (map k | k in leavers :: 0.0) + w
  }

  /** Execution never refuses a limited book, even with names to flatten added to it. */
  lemma LimitedBookIsNeverRefused(w: Weights, limits: Limits, sectors: map<string, string>, leavers: set<string>)
    requires limits.Valid()
    ensures BookPasses(WithFlattened(Limited(w, limits, sectors), leavers), limits)
  {
    var out := Limited(w, limits, sectors);
    var book := WithFlattened(out, leavers);
    LimitedIsWithinCaps(w, limits, sectors);
    TotalIgnoresZeros(out, book);
    TotalIgnoresZeros(Magnitudes(out), Magnitudes(book));
    BookPassesIffWithinCaps(book, limits);
  }
}
