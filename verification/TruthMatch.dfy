/** Comparing a candidate with the truth.  The truth is any decimal text, and normalising it
    rounds to 28 significant digits, half to even; the candidates are never rounded. */
module TruthMatch {
  import opened NumericText

  const PRECISION := 28

  function Pow10(k: nat): nat { if k == 0 then 1 else 10 * Pow10(k - 1) }

  function Zeros(m: nat): (ds: seq<Digit>)
    ensures |ds| == m
  {
    seq(m, _ => 0)
  }

  /** One more in the last place. */
  function Increment(ds: seq<Digit>): seq<Digit> {
    if ds == [] then [1]
    else if ds[|ds| - 1] == 9 then Increment(ds[..|ds| - 1]) + [0]
    else ds[..|ds| - 1] + [ds[|ds| - 1] + 1]
  }

  function LeadingZeros(ds: seq<Digit>): (z: nat)
    ensures z <= |ds| && (forall i :: 0 <= i < z ==> ds[i] == 0) && (z < |ds| ==> ds[z] != 0)
  {
    if ds == [] || ds[0] != 0 then 0 else 1 + LeadingZeros(ds[1..])
  }

  /** The digits from the first to the last that is not zero. */
  function SignificantDigits(ds: seq<Digit>): nat {
    if LeadingZeros(ds) <= |StripBack(ds)| then |StripBack(ds)| - LeadingZeros(ds) else 0
  }

  predicate RoundsUp(kept: seq<Digit>, rest: seq<Digit>) {
    || 2 * WholeValue(rest) > Pow10(|rest|)
    || (2 * WholeValue(rest) == Pow10(|rest|) && kept != [] && kept[|kept| - 1] % 2 == 1)
  }

  /** The coefficient rounded to the precision, at the same scale. */
  function RoundDigits(ds: seq<Digit>): seq<Digit> {
    var n := LeadingZeros(ds) + PRECISION;
    if |ds| <= n then ds
    else (if RoundsUp(ds[..n], ds[n..]) then Increment(ds[..n]) else ds[..n]) + Zeros(|ds| - n)
  }

  function Digits(n: Numeral): seq<Digit> { n.whole + n.fraction }

  function Rounded(n: Numeral): Numeral {
    var ds, k := RoundDigits(Digits(n)), |n.fraction|;
    if |ds| < k then n else Numeral(ds[..|ds| - k], ds[|ds| - k..])
  }

  /** The truth's side of the comparison. */
  function CanonicalTruth(truth: string): string
    requires IsNumeral(truth)
  {
    Render(Normal(Rounded(Parse(truth))))
  }

  // ---- Digits and values ----

  lemma {:induction false} WholeSplit(a: seq<Digit>, b: seq<Digit>)
    ensures WholeValue(a + b) == WholeValue(a) * Pow10(|b|) + WholeValue(b)
  {
    if b == [] {
      assert a + b == a;
    } else {
      var b' := b[..|b| - 1];
      assert (a + b)[..|a + b| - 1] == a + b';
      WholeSplit(a, b');
      assert 10 * (WholeValue(a) * Pow10(|b'|)) == WholeValue(a) * Pow10(|b|);
    }
  }

  lemma {:induction false} WholeBound(ds: seq<Digit>)
    ensures WholeValue(ds) < Pow10(|ds|)
  {
    if ds != [] { WholeBound(ds[..|ds| - 1]); }
  }

  lemma {:induction false} ZerosAreZero(m: nat)
    ensures WholeValue(Zeros(m)) == 0
  {
    if m > 0 {
      assert Zeros(m)[..m - 1] == Zeros(m - 1);
      ZerosAreZero(m - 1);
    }
  }

  lemma {:induction false} IncrementAddsOne(ds: seq<Digit>)
    ensures WholeValue(Increment(ds)) == WholeValue(ds) + 1 && |Increment(ds)| >= |ds|
  {
    if ds != [] {
      IncrementAddsOne(ds[..|ds| - 1]);
      if ds[|ds| - 1] == 9 {
        assert Increment(ds)[..|Increment(ds)| - 1] == Increment(ds[..|ds| - 1]);
      }
    } else {
      assert [1][..0] == [];
    }
  }

  lemma {:induction false} SameFraction(f: seq<Digit>, g: seq<Digit>)
    requires |f| == |g|
    ensures FractionValue(f) == FractionValue(g) <==> f == g
  {
    if f != [] && FractionValue(f) == FractionValue(g) {
      FractionInUnit(f[1..]);
      FractionInUnit(g[1..]);
      FirstDigit(f[0], FractionValue(f[1..]), g[0], FractionValue(g[1..]));
      SameFraction(f[1..], g[1..]);
      assert f == [f[0]] + f[1..] && g == [g[0]] + g[1..];
    }
  }

  lemma {:induction false} SameWhole(w: seq<Digit>, f: seq<Digit>, v: seq<Digit>, g: seq<Digit>)
    requires |f| == |g|
    ensures WholeValue(w + f) == WholeValue(v + g) <==> WholeValue(w) == WholeValue(v) && f == g
  {
    if f == [] {
      assert w + f == w && v + g == v;
    } else {
      var f', g' := f[..|f| - 1], g[..|g| - 1];
      assert (w + f)[..|w + f| - 1] == w + f' && (v + g)[..|v + g| - 1] == v + g';
      SameWhole(w, f', v, g');
      assert f == f' + [f[|f| - 1]] && g == g' + [g[|g| - 1]];
    }
  }

  /** At the same scale, equal values are equal coefficients. */
  lemma SameScale(a: Numeral, b: Numeral)
    requires |a.fraction| == |b.fraction|
    ensures Value(a) == Value(b) <==> WholeValue(Digits(a)) == WholeValue(Digits(b))
  {
    FractionInUnit(a.fraction);
    FractionInUnit(b.fraction);
    SameFraction(a.fraction, b.fraction);
    SameWhole(a.whole, a.fraction, b.whole, b.fraction);
    assert Value(a) == Value(b) <==>
           WholeValue(a.whole) == WholeValue(b.whole) && FractionValue(a.fraction) == FractionValue(b.fraction);
  }

  // ---- What rounding changes ----

  lemma {:induction false} StripBackIsZeros(ds: seq<Digit>)
    ensures |StripBack(ds)| <= |ds| && StripBack(ds) == ds[..|StripBack(ds)|]
    ensures forall i :: |StripBack(ds)| <= i < |ds| ==> ds[i] == 0
    ensures StripBack(ds) != [] ==> ds[|StripBack(ds)| - 1] != 0
  {
    if ds != [] && ds[|ds| - 1] == 0 { StripBackIsZeros(ds[..|ds| - 1]); }
  }

  lemma {:induction false} PositiveSomewhere(ds: seq<Digit>, i: nat)
    requires i < |ds| && ds[i] != 0
    ensures WholeValue(ds) > 0
  {
    if i < |ds| - 1 { PositiveSomewhere(ds[..|ds| - 1], i); }
  }

  lemma RoundLength(ds: seq<Digit>)
    ensures |RoundDigits(ds)| >= |ds|
  {
    var n := LeadingZeros(ds) + PRECISION;
    if |ds| > n { IncrementAddsOne(ds[..n]); }
  }

  /** The rounded coefficient: the kept digits, or one more, times the power of the dropped. */
  lemma RoundedWhole(kept: seq<Digit>, up: bool, m: nat)
    ensures WholeValue((if up then Increment(kept) else kept) + Zeros(m))
            == (WholeValue(kept) + if up then 1 else 0) * Pow10(m)
  {
    var head := if up then Increment(kept) else kept;
    ZerosAreZero(m);
    IncrementAddsOne(kept);
    WholeSplit(head, Zeros(m));
    assert WholeValue(head) == WholeValue(kept) + if up then 1 else 0;
  }

  lemma NearMultiple(k: nat, u: nat, p: nat, r: nat, rounded: nat, exact: nat)
    requires u <= 1 && r < p && (2 * r < p ==> u == 0)
    requires rounded == (k + u) * p && exact == k * p + r
    ensures rounded == exact <==> r == 0
  {
    assert (k + u) * p == k * p + u * p;
  }

  lemma RestIsZero(ds: seq<Digit>, n: nat)
    requires n < |ds|
    ensures WholeValue(ds[n..]) == 0 <==> |StripBack(ds)| <= n
  {
    StripBackIsZeros(ds);
    if |StripBack(ds)| <= n {
      assert ds[n..] == Zeros(|ds| - n);
      ZerosAreZero(|ds| - n);
    } else {
      PositiveSomewhere(ds[n..], |StripBack(ds)| - 1 - n);
    }
  }

  lemma RoundedAgainstExact(kept: seq<Digit>, rest: seq<Digit>)
    ensures WholeValue((if RoundsUp(kept, rest) then Increment(kept) else kept) + Zeros(|rest|)) == WholeValue(kept + rest) <==>
            WholeValue(rest) == 0
  {
    var up := RoundsUp(kept, rest);
    var p := Pow10(|rest|);
    WholeSplit(kept, rest);
    WholeBound(rest);
    RoundedWhole(kept, up, |rest|);
    NearMultiple(WholeValue(kept), if up then 1 else 0, p, WholeValue(rest),
                 WholeValue((if up then Increment(kept) else kept) + Zeros(|rest|)), WholeValue(kept + rest));
  }

  /** Rounding leaves the value alone exactly when at most 28 digits are significant. */
  lemma RoundingKeepsExactly(ds: seq<Digit>)
    ensures WholeValue(RoundDigits(ds)) == WholeValue(ds) <==> SignificantDigits(ds) <= PRECISION
  {
    var n := LeadingZeros(ds) + PRECISION;
    if |ds| <= n {
      StripBackIsZeros(ds);
    } else {
      assert ds == ds[..n] + ds[n..];
      RoundedAgainstExact(ds[..n], ds[n..]);
      RestIsZero(ds, n);
    }
  }

  // ---- What a match means ----

  lemma RoundedValue(n: Numeral)
    requires n.whole != []
    ensures Rounded(n).whole != [] && (Value(Rounded(n)) == Value(n) <==> SignificantDigits(Digits(n)) <= PRECISION)
  {
    RoundLength(Digits(n));
    RoundingKeepsExactly(Digits(n));
    var ds, k := RoundDigits(Digits(n)), |n.fraction|;
    assert Digits(Rounded(n)) == ds;
    SameScale(Rounded(n), n);
  }

  /** A candidate matches when its value is the rounded truth's. */
  lemma MatchIsEqualToRounded(truth: string, raw: string)
    requires IsNumeral(truth) && IsNumeral(raw)
    ensures CanonicalTruth(truth) == Canonical(raw) <==> Value(Rounded(Parse(truth))) == Value(Parse(raw))
  {
    var r := Rounded(Parse(truth));
    RoundedValue(Parse(truth));
    NormalKeeps(r);
    NormalKeeps(Parse(raw));
    ParseRender(Normal(r));
    ParseRender(Normal(Parse(raw)));
    NormalUnique(Normal(r), Normal(Parse(raw)));
  }

  // ---- What the candidates look like ----

  /** At most six digits in front of the point and three behind it. */
  predicate Fits(n: Numeral) { |n.whole| <= 6 && |n.fraction| <= 3 }

  lemma {:induction false} StripFrontIsZeros(ds: seq<Digit>)
    ensures |StripFront(ds)| <= |ds| && forall i :: 0 <= i < |ds| - |StripFront(ds)| ==> ds[i] == 0
  {
    if |ds| > 1 && ds[0] == 0 {
      StripFrontIsZeros(ds[1..]);
      forall i | 0 <= i < |ds| - |StripFront(ds)| ensures ds[i] == 0 {
        if i > 0 { assert ds[1..][i - 1] == 0; }
      }
    }
  }

  lemma NormalIsItself(n: Numeral)
    requires IsNormal(n)
    ensures Normal(n) == n
  {
    NormalKeeps(n);
    NormalUnique(n, Normal(n));
  }

  lemma {:induction false} NoCommas(t: string)
    requires ',' !in t
    ensures WithoutCommas(t) == t
  {
    if t != [] { NoCommas(t[1..]); }
  }

  /** A short numeral is one number to the pattern. */
  lemma NumeralIsOneNumber(n: Numeral)
    requires IsNormal(n) && Fits(n)
    ensures DigitAt(Render(n), 0) && RunEnd(Render(n), 0) <= 6 && NumberEnd(Render(n), 0) == |Render(n)|
  {
    var t, k := Render(n), |n.whole|;
    assert t[..k] == TextOf(n.whole);
    assert forall i :: 0 <= i < k ==> IsDigit(t[..k][i]);
    RunEndIs(t, 0, k);
    if n.fraction != [] {
      assert t[k] == '.' && t[k + 1..] == TextOf(n.fraction);
      assert forall i :: k + 1 <= i < |t| ==> t[i] == t[k + 1..][i - k - 1];
      RunEndIs(t, k + 1, |t|);
    }
  }

  lemma NormalIsEmitted(n: Numeral)
    requires IsNormal(n) && Fits(n)
    ensures Render(n) in CandidatesOf(Render(n))
  {
    var t := Render(n);
    NoCommas(t);
    NumeralIsOneNumber(n);
    ScanIsFindAll(t, 0);
    assert FindAll(t, 0) == [(0, |t|)];
    ScanPicks(t, 0);
    assert (0, |t|) in FindAll(t, 0) && t[0..|t|] == t;
    ParseRender(n);
    NormalIsItself(n);
    assert CanonicalAt(t, (0, |t|)) == t;
  }

  lemma EmittedIsNormal(text: string, c: string) returns (n: Numeral)
    requires c in CandidatesOf(text)
    ensures IsNormal(n) && Fits(n) && c == Render(n)
  {
    var t := WithoutCommas(text);
    ScanIsFindAll(t, 0);
    ScanPicks(t, 0);
    var m :| m in FindAll(t, 0) && c == CanonicalAt(t, m);
    var picked := Parse(t[m.0..m.1]);
    n := Normal(picked);
    NormalKeeps(picked);
    StripFrontIsZeros(picked.whole);
    StripBackIsZeros(picked.fraction);
  }

  /** The candidates of all texts are the normal numerals of at most six and three digits. */
  lemma EmittedExactly(c: string)
    ensures (exists text :: c in CandidatesOf(text)) <==> exists n :: IsNormal(n) && Fits(n) && c == Render(n)
  {
    if exists text :: c in CandidatesOf(text) {
      var text :| c in CandidatesOf(text);
      var n := EmittedIsNormal(text, c);
    }
    if exists n :: IsNormal(n) && Fits(n) && c == Render(n) {
      var n :| IsNormal(n) && Fits(n) && c == Render(n);
      NormalIsEmitted(n);
    }
  }

  lemma SignificantInNormal(n: Numeral)
    ensures SignificantDigits(Digits(n)) <= |Normal(n).whole| + |Normal(n).fraction|
  {
    var ds := Digits(n);
    StripFrontIsZeros(n.whole);
    StripBackIsZeros(n.fraction);
    StripBackIsZeros(ds);
    var front := |n.whole| - |StripFront(n.whole)|;
    assert forall i :: 0 <= i < front ==> ds[i] == n.whole[i];
    assert forall i :: |n.whole| <= i < |ds| ==> ds[i] == n.fraction[i - |n.whole|];
  }

  /** A truth that equals a candidate has no more digits that count than the candidate. */
  lemma EqualIsShort(truth: Numeral, n: Numeral)
    requires truth.whole != [] && IsNormal(n) && Fits(n) && Value(truth) == Value(n)
    ensures SignificantDigits(Digits(truth)) <= 9
  {
    NormalKeeps(truth);
    NormalUnique(Normal(truth), n);
    SignificantInNormal(truth);
  }

  // ---- When a match means equality ----

  predicate MatchesAsEqual(truth: string, c: string)
    requires IsNumeral(truth)
  {
    IsNumeral(c) && (CanonicalTruth(truth) == c <==> Value(Parse(truth)) == Value(Parse(c)))
  }

  /** Every candidate the extractor can emit matches exactly when it equals the truth. */
  ghost predicate MatchMeansEqual(truth: string)
    requires IsNumeral(truth)
  {
    forall text, c :: c in CandidatesOf(text) ==> MatchesAsEqual(truth, c)
  }

  /** Rounding does no harm: it changes nothing, or leaves a number no candidate can be. */
  predicate RoundedHarmlessly(truth: string)
    requires IsNumeral(truth)
  {
    SignificantDigits(Digits(Parse(truth))) <= PRECISION || !Fits(Normal(Rounded(Parse(truth))))
  }

  lemma MatchAtCandidate(truth: string, text: string, c: string)
    requires IsNumeral(truth) && RoundedHarmlessly(truth) && c in CandidatesOf(text)
    ensures MatchesAsEqual(truth, c)
  {
    var n := EmittedIsNormal(text, c);
    ParseRender(n);
    NormalIsItself(n);
    MatchIsEqualToRounded(truth, c);
    RoundedValue(Parse(truth));
    if SignificantDigits(Digits(Parse(truth))) > PRECISION {
      if Value(Parse(truth)) == Value(n) { EqualIsShort(Parse(truth), n); }
      NormalKeeps(Rounded(Parse(truth)));
      NormalUnique(Normal(Rounded(Parse(truth))), n);
    }
  }

  lemma HarmlessMeansEqual(truth: string)
    requires IsNumeral(truth) && RoundedHarmlessly(truth)
    ensures MatchMeansEqual(truth)
  {
    forall text, c | c in CandidatesOf(text) ensures MatchesAsEqual(truth, c) {
      MatchAtCandidate(truth, text, c);
    }
  }

  /** The rounded truth is itself a candidate, and does not equal the truth. */
  lemma HarmfulMatch(truth: string)
    requires IsNumeral(truth) && !RoundedHarmlessly(truth)
    ensures CanonicalTruth(truth) in CandidatesOf(CanonicalTruth(truth)) && !MatchesAsEqual(truth, CanonicalTruth(truth))
  {
    var r := Rounded(Parse(truth));
    RoundedValue(Parse(truth));
    NormalKeeps(r);
    ParseRender(Normal(r));
    NormalIsEmitted(Normal(r));
  }

  /** A match means numeric equality exactly for truths of at most 28 significant digits and for
      those whose rounded value has too many digits to be a candidate. */
  lemma MatchMeansEqualExactly(truth: string)
    requires IsNumeral(truth)
    ensures MatchMeansEqual(truth) <==> RoundedHarmlessly(truth)
  {
    if RoundedHarmlessly(truth) { HarmlessMeansEqual(truth); } else { HarmfulMatch(truth); }
  }

  /** Twelve and a bit that is 29 places behind the point: more than any candidate can show, and
      rounded away on the truth's side. */
  const TWELVE_AND_A_BIT := Numeral([1, 2], Zeros(28) + [1])

  lemma {:induction false} ZeroFraction(m: nat)
    ensures FractionValue(Zeros(m)) == 0.0
  {
    if m > 0 {
      assert Zeros(m)[1..] == Zeros(m - 1);
      ZeroFraction(m - 1);
    }
  }

  lemma BitIsRoundedAway()
    ensures Rounded(TWELVE_AND_A_BIT) == Numeral([1, 2], Zeros(29))
  {
    var ds := Digits(TWELVE_AND_A_BIT);
    assert |ds| == 31 && LeadingZeros(ds) == 0;
    var kept, rest := ds[..28], ds[28..];
    assert rest == [0, 0, 1] && rest[..2] == [0, 0] && rest[..2][..1] == [0] && rest[..1][..0] == [];
    assert WholeValue(rest[..1]) == 0 && WholeValue(rest[..2]) == 0;
    assert WholeValue(rest) == 1;
    assert Pow10(1) == 10 && Pow10(2) == 100;
    assert Pow10(3) == 1000;
    assert !RoundsUp(kept, rest);
    assert RoundDigits(ds) == [1, 2] + Zeros(29);
  }

  /** A candidate can match a truth it does not equal. */
  lemma UnequalMatch()
    ensures var truth := Render(TWELVE_AND_A_BIT);
      IsNumeral(truth) && IsNumeral("12")
      && CanonicalTruth(truth) == Canonical("12") && Value(Parse(truth)) != Value(Parse("12"))
  {
    ParseRender(TWELVE_AND_A_BIT);
    var twelve := Numeral([1, 2], []);
    assert Render(twelve) == "12";
    ParseRender(twelve);
    BitIsRoundedAway();
    ZeroFraction(29);
    MatchIsEqualToRounded(Render(TWELVE_AND_A_BIT), "12");
    assert Zeros(28) + [1] != Zeros(29) by {
      assert (Zeros(28) + [1])[28] == 1;
    }
    SameFraction(Zeros(28) + [1], Zeros(29));
  }
}
