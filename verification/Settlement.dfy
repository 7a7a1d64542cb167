/** Inferring the settled daily high from bracket results and reconciling it with a reference high. */
module Settlement {
  import opened Options

  datatype Bracket = Bracket(strikeType: string, floor: Option<real>, cap: Option<real>, yes: bool)

  const LOWEST := -999
  const HIGHEST := 999

  /** The program's int(): truncation toward zero. */
  function Trunc(x: real): (n: int)
    ensures x >= 0.0 ==> n as real <= x < n as real + 1.0
    ensures x <= 0.0 ==> n as real - 1.0 < x <= n as real
  {
    if x >= 0.0 then x.Floor else -((-x).Floor)
  }

  /** Does the bracket settle YES at an integer high; None for a bracket that cannot be judged. */
  function ImpliedResult(b: Bracket, high: int): Option<bool> {
    if b.strikeType == "greater" && b.floor.Some? then Some(high >= Trunc(b.floor.value) + 1)
    else if b.strikeType == "less" && b.cap.Some? then Some(high <= Trunc(b.cap.value) - 1)
    else if b.strikeType == "between" && b.floor.Some? && b.cap.Some? then
      Some(Trunc(b.floor.value) <= high <= Trunc(b.cap.value))
    else None
  }

  /** A strike in whole degrees. */
  predicate Whole(strike: Option<real>) {
    strike.Some? ==> strike.value.Floor as real == strike.value
  }

  /** The settlement rule in whole degrees: above the floor, below the cap, or from floor to cap. A bracket of
      another type, or without the strikes of its type, cannot be judged. */
  lemma WholeStrikes(b: Bracket, high: int)
    requires Whole(b.floor) && Whole(b.cap)
    ensures b.strikeType == "greater" && b.floor.Some? ==>
      ImpliedResult(b, high) == Some(high as real > b.floor.value)
    ensures b.strikeType == "less" && b.cap.Some? ==> ImpliedResult(b, high) == Some(b.cap.value > high as real)
    ensures b.strikeType == "between" && b.floor.Some? && b.cap.Some? ==>
      ImpliedResult(b, high) == Some(b.floor.value <= high as real <= b.cap.value)
    ensures ImpliedResult(b, high).Some? <==>
      || (b.strikeType == "greater" && b.floor.Some?)
      || (b.strikeType == "less" && b.cap.Some?)
      || (b.strikeType == "between" && b.floor.Some? && b.cap.Some?)
  {
    hide Trunc;
    if b.floor.Some? {
      WholeTrunc(b.floor.value);
    }
    if b.cap.Some? {
      WholeTrunc(b.cap.value);
    }
  }

  lemma WholeTrunc(x: real)
    requires Whole(Some(x))
    ensures Trunc(x) as real == x
  {
    assert Trunc(x) == x.Floor;
  }

  function Truncated(strike: Option<real>): Option<real> {
    if strike.Some? then Some(Trunc(strike.value) as real) else None
  }

  /** Fractional strikes count as the whole degrees they are truncated to. */
  lemma FractionsAreDropped(b: Bracket, high: int)
    ensures ImpliedResult(b, high) ==
      ImpliedResult(Bracket(b.strikeType, Truncated(b.floor), Truncated(b.cap), b.yes), high)
    ensures Whole(Truncated(b.floor)) && Whole(Truncated(b.cap))
  {
    hide Trunc;
    forall x: real
      ensures Trunc(Trunc(x) as real) == Trunc(x)
    {
      TruncTwice(x);
    }
  }

  lemma TruncTwice(x: real)
    ensures Trunc(Trunc(x) as real) == Trunc(x)
  {
    WholeTrunc(Trunc(x) as real);
  }

  predicate Disagrees(b: Bracket, high: int) {
    ImpliedResult(b, high).Some? && ImpliedResult(b, high).value != b.yes
  }

  /** A high in range that every bracket result allows. */
  predicate Possible(bs: seq<Bracket>, high: int) {
    LOWEST <= high <= HIGHEST && forall i :: 0 <= i < |bs| ==> !Disagrees(bs[i], high)
  }

  /** A NO on a two-sided bracket that rules this high out; the bounds ignore such results. */
  predicate PunchesOut(b: Bracket, high: int) {
    && b.strikeType == "between" && b.floor.Some? && b.cap.Some? && !b.yes
    && Trunc(b.floor.value) <= high <= Trunc(b.cap.value)
  }

  predicate PunchedOut(bs: seq<Bracket>, high: int) {
    exists i :: 0 <= i < |bs| && PunchesOut(bs[i], high)
  }

  function Max(x: int, y: int): int {
    if x >= y then x else y
  }

  function Min(x: int, y: int): int {
    if x <= y then x else y
  }

  datatype Bounds = Bounds(lo: int, hi: int)

  /** The effect of one bracket result on the bounds. */
  function Tighten(p: Bounds, b: Bracket): Bounds {
    if b.strikeType == "greater" && b.floor.Some? then
      if b.yes then Bounds(Max(p.lo, Trunc(b.floor.value) + 1), p.hi) else Bounds(p.lo, Min(p.hi, Trunc(b.floor.value)))
    else if b.strikeType == "less" && b.cap.Some? then
      if b.yes then Bounds(p.lo, Min(p.hi, Trunc(b.cap.value) - 1)) else Bounds(Max(p.lo, Trunc(b.cap.value)), p.hi)
    else if b.strikeType == "between" && b.floor.Some? && b.cap.Some? && b.yes then
      Bounds(Max(p.lo, Trunc(b.floor.value)), Min(p.hi, Trunc(b.cap.value)))
    else p
  }

  function HighBounds(bs: seq<Bracket>): Bounds {
    if bs == [] then Bounds(LOWEST, HIGHEST) else Tighten(HighBounds(bs[..|bs| - 1]), bs[|bs| - 1])
  }

  method KalshiHighBounds(bs: seq<Bracket>) returns (lo: int, hi: int)
    ensures Bounds(lo, hi) == HighBounds(bs)
    ensures forall high :: Possible(bs, high) <==> lo <= high <= hi && !PunchedOut(bs, high)
  {
    lo, hi := LOWEST, HIGHEST;
    for i := 0 to |bs|
      invariant Bounds(lo, hi) == HighBounds(bs[..i])
    {
      var b := bs[i];
      assert bs[..i + 1][..i] == bs[..i];
      if b.strikeType == "greater" && b.floor.Some? {
        lo := if b.yes then Max(lo, Trunc(b.floor.value) + 1) else lo;
        hi := if b.yes then hi else Min(hi, Trunc(b.floor.value));
      } else if b.strikeType == "less" && b.cap.Some? {
        hi := if b.yes then Min(hi, Trunc(b.cap.value) - 1) else hi;
        lo := if b.yes then lo else Max(lo, Trunc(b.cap.value));
      } else if b.strikeType == "between" && b.floor.Some? && b.cap.Some? && b.yes {
        lo, hi := Max(lo, Trunc(b.floor.value)), Min(hi, Trunc(b.cap.value));
      }
    }
    assert bs[..|bs|] == bs;
    HighBoundsMeaning(bs);
  }

  /** The possible highs are exactly those within the bounds that no two-sided NO rules out. */
  ghost predicate BoundsOf(bs: seq<Bracket>, lo: int, hi: int) {
    LOWEST <= lo && hi <= HIGHEST && forall high :: Possible(bs, high) <==> lo <= high <= hi && !PunchedOut(bs, high)
  }

  lemma TightenMeaning(p: Bounds, b: Bracket, high: int)
    ensures var q := Tighten(p, b);
            && q.lo <= high <= q.hi <==> p.lo <= high <= p.hi && (!Disagrees(b, high) || PunchesOut(b, high))
    ensures PunchesOut(b, high) ==> Disagrees(b, high)
    ensures p.lo <= Tighten(p, b).lo && Tighten(p, b).hi <= p.hi
  {
    hide Trunc;
  }

  lemma {:induction false} HighBoundsMeaning(bs: seq<Bracket>)
    ensures BoundsOf(bs, HighBounds(bs).lo, HighBounds(bs).hi)
  {
    if bs == [] {
    } else {
      var init, b := bs[..|bs| - 1], bs[|bs| - 1];
      HighBoundsMeaning(init);
      hide Disagrees;
      hide PunchesOut;
      hide Tighten;
      TightenMeaning(HighBounds(init), b, 0);
      forall high
        ensures Possible(bs, high) <==> HighBounds(bs).lo <= high <= HighBounds(bs).hi && !PunchedOut(bs, high)
      {
        ExtendBrackets(init, b, high);
        assert init + [b] == bs;
        TightenMeaning(HighBounds(init), b, high);
      }
    }
  }

  lemma ExtendBrackets(init: seq<Bracket>, b: Bracket, high: int)
    ensures Possible(init + [b], high) <==> Possible(init, high) && !Disagrees(b, high)
    ensures PunchedOut(init + [b], high) <==> PunchedOut(init, high) || PunchesOut(b, high)
  {
    hide Disagrees;
    hide PunchesOut;
    var bs := init + [b];
    assert bs[|init|] == b;
    if Possible(bs, high) {
      assert forall j :: 0 <= j < |init| ==> init[j] == bs[j];
    }
    if PunchedOut(init, high) {
      var j :| 0 <= j < |init| && PunchesOut(init[j], high);
      assert PunchesOut(bs[j], high);
    }
  }

  /** No narrower interval holds every possible high. */
  ghost predicate Tightest(bs: seq<Bracket>, lo: int, hi: int) {
    forall l, u :: Holds(bs, l, u) ==> l <= lo && hi <= u
  }

  ghost predicate Holds(bs: seq<Bracket>, l: int, u: int) {
    forall high :: Possible(bs, high) ==> l <= high <= u
  }

  /** The bounds are the tightest, as advertised, exactly when the results do not contradict each other
      outright and no two-sided NO rules out an end. */
  lemma TightestIff(bs: seq<Bracket>)
    ensures var p := HighBounds(bs);
            Tightest(bs, p.lo, p.hi) <==> p.lo <= p.hi && !PunchedOut(bs, p.lo) && !PunchedOut(bs, p.hi)
  {
    hide Possible;
    hide PunchedOut;
    hide HighBounds;
    HighBoundsMeaning(bs);
    var lo, hi := HighBounds(bs).lo, HighBounds(bs).hi;
    if lo <= hi && !PunchedOut(bs, lo) && !PunchedOut(bs, hi) {
      assert Possible(bs, lo) && Possible(bs, hi);
    } else if lo > hi || PunchedOut(bs, lo) {
      assert Holds(bs, lo + 1, hi);
    } else {
      assert Holds(bs, lo, hi - 1);
    }
  }

  /** Above 49 but not 50 or 51: the bounds stop at 50, although 52 is the lowest possible high. */
  lemma NotTightest()
    ensures var bs := [Bracket("greater", Some(49.0), None, true), Bracket("between", Some(50.0), Some(51.0), false)];
            HighBounds(bs) == Bounds(50, 999) && !Tightest(bs, 50, 999)
  {
    var b0, b1 := Bracket("greater", Some(49.0), None, true), Bracket("between", Some(50.0), Some(51.0), false);
    var bs := [b0, b1];
    assert bs[..1] == [b0] && [b0][..0] == [];
    assert HighBounds([b0]) == Bounds(50, 999);
    assert PunchesOut(bs[1], 50);
    TightestIff(bs);
  }

  /** Without two-sided NOs the bounds are exact. */
  lemma BoundsExact(bs: seq<Bracket>, high: int)
    requires forall i :: 0 <= i < |bs| ==> bs[i].strikeType != "between" || bs[i].yes
    ensures Possible(bs, high) <==> HighBounds(bs).lo <= high <= HighBounds(bs).hi
  {
    HighBoundsMeaning(bs);
    assert !PunchedOut(bs, high);
  }

  // ---- Reconciling days against a reference high ----

  /** A settled day: its brackets and the reference high, if there is one. */
  datatype Day = Day(brackets: seq<Bracket>, reference: Option<int>)

  datatype Report = Report(brackets: nat, disagreements: nat, pinned: nat, pinMismatches: nat)

  ghost predicate Reproduced(d: Day) {
    d.reference.Some? ==> forall i :: 0 <= i < |d.brackets| ==> !Disagrees(d.brackets[i], d.reference.value)
  }

  /** The brackets pin one integer that the reference exceeds by lying beyond the scale. */
  predicate OffScale(d: Day) {
    d.reference.Some? && d.reference.value > HIGHEST && Pinned(d.brackets)
  }

  /** A high above the scale that every result allows never lowers the upper bound, and one below the
      scale never raises the lower bound. */
  lemma {:induction false} AllowedBeyondScale(bs: seq<Bracket>, high: int)
    requires forall i :: 0 <= i < |bs| ==> !Disagrees(bs[i], high)
    ensures high > HIGHEST ==> HighBounds(bs).hi == HIGHEST
    ensures high < LOWEST ==> HighBounds(bs).lo == LOWEST
  {
    hide Trunc;
    if bs == [] {
    } else {
      AllowedBeyondScale(bs[..|bs| - 1], high);
      assert !Disagrees(bs[|bs| - 1], high);
    }
  }

  /** If the brackets pin one integer and it is not the reference, some bracket disagrees, for every
      reference up to the top of the scale. */
  lemma PinMismatchIsDisagreement(bs: seq<Bracket>, reference: int)
    requires Pinned(bs) && reference != HighBounds(bs).lo && reference <= HIGHEST
    ensures exists i :: 0 <= i < |bs| && Disagrees(bs[i], reference)
  {
    hide HighBounds;
    HighBoundsMeaning(bs);
    if reference >= LOWEST {
      assert !Possible(bs, reference);
    } else if forall i :: 0 <= i < |bs| ==> !Disagrees(bs[i], reference) {
      AllowedBeyondScale(bs, reference);
    }
  }

  /** A reference above the scale is counted as a mismatch although every bracket allows it, for
      every such reference. */
  lemma PinMismatchOffScale(reference: int)
    requires reference > HIGHEST
    ensures var d := Day([Bracket("greater", Some(998.0), None, true)], Some(reference));
            Reproduced(d) && DayReport(d) == Report(1, 0, 1, 1)
  {
    var b := Bracket("greater", Some(998.0), None, true);
    assert [b][..0] == [] && Trunc(998.0) == 998;
    assert HighBounds([b]) == Bounds(999, 999);
    assert ImpliedResult(b, reference) == Some(true);
    assert Judged([], reference) == 0 && Disagreeing([], reference) == 0;
    assert Judged([b], reference) == 1 && Disagreeing([b], reference) == 0;
  }

  /** Brackets that can be judged at a high, and those of them that disagree with it. */
  function Judged(bs: seq<Bracket>, high: int): nat {
    if bs == [] then 0
    else Judged(bs[..|bs| - 1], high) + (if ImpliedResult(bs[|bs| - 1], high).Some? then 1 else 0)
  }

  function Disagreeing(bs: seq<Bracket>, high: int): nat {
    if bs == [] then 0
    else Disagreeing(bs[..|bs| - 1], high) + (if Disagrees(bs[|bs| - 1], high) then 1 else 0)
  }

  predicate Pinned(bs: seq<Bracket>) {
    HighBounds(bs).lo == HighBounds(bs).hi && HighBounds(bs).lo > -900
  }

  function DayReport(d: Day): Report {
    match d.reference
    case None => Report(0, 0, 0, 0)
    case Some(high) =>
      Report(Judged(d.brackets, high), Disagreeing(d.brackets, high), if Pinned(d.brackets) then 1 else 0,
             if Pinned(d.brackets) && HighBounds(d.brackets).lo != high then 1 else 0)
  }

  function Add(r: Report, s: Report): Report {
    Report(r.brackets + s.brackets, r.disagreements + s.disagreements,
           r.pinned + s.pinned, r.pinMismatches + s.pinMismatches)
  }

  function FullReport(days: seq<Day>): Report {
    if days == [] then Report(0, 0, 0, 0) else Add(FullReport(days[..|days| - 1]), DayReport(days[|days| - 1]))
  }

  method CompareDay(d: Day, r: Report) returns (r': Report)
    ensures r' == Add(r, DayReport(d))
  {
    r' := r;
    if d.reference.None? {
      return;
    }
    var high := d.reference.value;
    for i := 0 to |d.brackets|
      invariant r' == Add(r, Report(Judged(d.brackets[..i], high), Disagreeing(d.brackets[..i], high), 0, 0))
    {
      assert d.brackets[..i + 1][..i] == d.brackets[..i];
      var implied := ImpliedResult(d.brackets[i], high);
      if implied.None? {
        continue;
      }
      r' := r'.(brackets := r'.brackets + 1);
      if implied.value != d.brackets[i].yes {
        r' := r'.(disagreements := r'.disagreements + 1);
      }
    }
    assert d.brackets[..|d.brackets|] == d.brackets;
    var lo, hi := KalshiHighBounds(d.brackets);
    if lo == hi && lo > -900 {
      r' := r'.(pinned := r'.pinned + 1);
      if lo != high {
        r' := r'.(pinMismatches := r'.pinMismatches + 1);
      }
    }
  }

  /** The brackets of the day that the reference contradicts, and those it says anything about. */
  ghost function Contradicted(d: Day): set<int> {
    set i | 0 <= i < |d.brackets| && d.reference.Some? && Disagrees(d.brackets[i], d.reference.value)
  }

  ghost function Comparable(d: Day): set<int> {
    set i | 0 <= i < |d.brackets| && d.reference.Some? && ImpliedResult(d.brackets[i], d.reference.value).Some?
  }

  lemma ContradictedStep(bs: seq<Bracket>, high: int)
    requires bs != []
    ensures var n := |bs| - 1;
            |Contradicted(Day(bs, Some(high)))| ==
              |Contradicted(Day(bs[..n], Some(high)))| + (if Disagrees(bs[n], high) then 1 else 0)
  {
    hide Disagrees;
    var n := |bs| - 1;
    var before := Contradicted(Day(bs[..n], Some(high)));
    assert Contradicted(Day(bs, Some(high))) == before + (if Disagrees(bs[n], high) then {n} else {});
  }

  lemma ComparableStep(bs: seq<Bracket>, high: int)
    requires bs != []
    ensures var n := |bs| - 1;
            |Comparable(Day(bs, Some(high)))| ==
              |Comparable(Day(bs[..n], Some(high)))| + (if ImpliedResult(bs[n], high).Some? then 1 else 0)
  {
    hide ImpliedResult;
    var n := |bs| - 1;
    var before := Comparable(Day(bs[..n], Some(high)));
    assert Comparable(Day(bs, Some(high))) == before + (if ImpliedResult(bs[n], high).Some? then {n} else {});
  }

  lemma {:induction false} CountsAreSizes(bs: seq<Bracket>, high: int)
    ensures Disagreeing(bs, high) == |Contradicted(Day(bs, Some(high)))|
    ensures Judged(bs, high) == |Comparable(Day(bs, Some(high)))|
  {
    if bs == [] {
    } else {
      hide Contradicted;
      hide Comparable;
      hide Disagrees;
      CountsAreSizes(bs[..|bs| - 1], high);
      ContradictedStep(bs, high);
      ComparableStep(bs, high);
    }
  }

  /** The four counters of a day: each comparable bracket once, each contradicted one once, a pinned high, and
      a pinned high that is not the reference. */
  lemma DayReportCounts(d: Day)
    ensures DayReport(d).brackets == |Comparable(d)| && DayReport(d).disagreements == |Contradicted(d)|
    ensures DayReport(d).pinned <= 1 && DayReport(d).pinMismatches <= 1
    ensures DayReport(d).pinned == 1 <==>
      d.reference.Some? && HighBounds(d.brackets).lo == HighBounds(d.brackets).hi && HighBounds(d.brackets).lo > -900
    ensures DayReport(d).pinMismatches == 1 <==>
      DayReport(d).pinned == 1 && HighBounds(d.brackets).lo != d.reference.value
  {
    hide HighBounds;
    if d.reference.Some? {
      CountsAreSizes(d.brackets, d.reference.value);
    } else {
      assert Comparable(d) == {} && Contradicted(d) == {};
    }
  }

  /** Sums of the days' counters. */
  ghost function Sum(days: seq<Day>, count: Day -> int): int {
    if days == [] then 0 else Sum(days[..|days| - 1], count) + count(days[|days| - 1])
  }

  /** The overall counters add up those of the days. */
  lemma {:induction false} FullReportSums(days: seq<Day>)
    ensures FullReport(days).brackets == Sum(days, d => DayReport(d).brackets)
    ensures FullReport(days).disagreements == Sum(days, d => DayReport(d).disagreements)
    ensures FullReport(days).pinned == Sum(days, d => DayReport(d).pinned)
    ensures FullReport(days).pinMismatches == Sum(days, d => DayReport(d).pinMismatches)
  {
    hide DayReport;
    if days == [] {
    } else {
      FullReportSums(days[..|days| - 1]);
    }
  }

  /** With no brackets the bounds are the whole scale. */
  lemma WholeScale(high: int)
    ensures HighBounds([]) == Bounds(-999, 999)
    ensures Possible([], high) <==> -999 <= high <= 999
  {
  }

  lemma {:induction false} NoneDisagreeing(bs: seq<Bracket>, high: int)
    ensures Disagreeing(bs, high) == 0 <==> forall i :: 0 <= i < |bs| ==> !Disagrees(bs[i], high)
  {
    if bs == [] {
    } else {
      NoneDisagreeing(bs[..|bs| - 1], high);
    }
  }

  /** Where every bracket settled as the reference implies, a pin mismatch is counted exactly when the
      brackets pin a high and the reference lies above the scale. */
  lemma PinMismatchIff(d: Day)
    requires d.reference.Some? && Reproduced(d)
    ensures DayReport(d).pinMismatches == 1 <==> OffScale(d)
  {
    hide HighBounds;
    var high := d.reference.value;
    HighBoundsMeaning(d.brackets);
    if Pinned(d.brackets) && HighBounds(d.brackets).lo != high && high <= HIGHEST {
      PinMismatchIsDisagreement(d.brackets, high);
      assert false;
    }
  }

  /** A day passes exactly when its brackets all settled as the reference implies and it is not off
      the scale. */
  lemma DayReportMeaning(d: Day)
    ensures DayReport(d).disagreements == 0 <==> Reproduced(d)
    ensures DayReport(d).disagreements == 0 && DayReport(d).pinMismatches == 0 <==> Reproduced(d) && !OffScale(d)
  {
    if d.reference.Some? {
      NoneDisagreeing(d.brackets, d.reference.value);
      if Reproduced(d) {
        PinMismatchIff(d);
      }
    }
  }

  lemma {:induction false} FullReportMeaning(days: seq<Day>)
    ensures FullReport(days).disagreements == 0 <==> forall i :: 0 <= i < |days| ==> Reproduced(days[i])
    ensures FullReport(days).disagreements == 0 && FullReport(days).pinMismatches == 0 <==>
      forall i :: 0 <= i < |days| ==> Reproduced(days[i]) && !OffScale(days[i])
  {
    hide Reproduced;
    hide OffScale;
    hide DayReport;
    if days == [] {
    } else {
      FullReportMeaning(days[..|days| - 1]);
      DayReportMeaning(days[|days| - 1]);
    }
  }

  /** The overall verdict: success means exactly that every bracket of every compared day settled as
      the reference implies, and no day with pinned brackets has a reference above the scale. */
  method Reconcile(days: seq<Day>) returns (r: Report, ok: bool)
    ensures r == FullReport(days) && (ok <==> r.disagreements == 0 && r.pinMismatches == 0)
    ensures ok <==> forall i :: 0 <= i < |days| ==> Reproduced(days[i]) && !OffScale(days[i])
  {
    hide Reproduced;
    hide OffScale;
    r := Report(0, 0, 0, 0);
    for i := 0 to |days|
      invariant r == FullReport(days[..i])
    {
      assert days[..i + 1][..i] == days[..i];
      r := CompareDay(days[i], r);
    }
    assert days[..|days|] == days;
    FullReportMeaning(days);
    ok := r.disagreements == 0 && r.pinMismatches == 0;
  }
}
