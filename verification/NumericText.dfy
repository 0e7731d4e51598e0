/** Numbers in recognised text: which digits the pattern picks, the canonical decimal text,
    and what it means when that text equals the truth's. */
module NumericText {
  import opened Sequences
  import opened Sorting

  predicate IsDigit(c: char) { '0' <= c <= '9' }

  predicate IsDigits(s: string) { forall i :: 0 <= i < |s| ==> IsDigit(s[i]) }

  // ---- The pattern `(?<!\d)(\d{1,6}(?:\.\d{1,3})?)(?!\d)` ----

  predicate DigitAt(t: string, i: int) { 0 <= i < |t| && IsDigit(t[i]) }

  /** Where the maximal run of digits from `i` on ends. */
  function RunEnd(t: string, i: nat): (e: nat)
    requires i <= |t|
    ensures i <= e <= |t| && (forall k :: i <= k < e ==> IsDigit(t[k])) && !DigitAt(t, e)
    decreases |t| - i
  {
    if DigitAt(t, i) then RunEnd(t, i + 1) else i
  }

  /** The optional group after the integer part that ends at `i`: `j` fraction digits if the
      look-ahead accepts the end, else fewer. */
  function FractionFrom(t: string, i: nat, j: nat): Option<nat>
    requires i < |t| && t[i] == '.'
  {
    if j == 0 then None
    else if RunEnd(t, i + 1) >= i + 1 + j && !DigitAt(t, i + 1 + j) then Some(i + 1 + j)
    else FractionFrom(t, i, j - 1)
  }

  /** `k` integer digits from `i` on, with a fraction if one matches, else without, else fewer:
      the order in which the matcher backtracks. */
  function MatchFrom(t: string, i: nat, k: nat): Option<nat>
    requires i <= |t|
  {
    if k == 0 then None
    else if RunEnd(t, i) < i + k then MatchFrom(t, i, k - 1)
    else
      var e := i + k;
      var withFraction := if e < |t| && t[e] == '.' then FractionFrom(t, e, 3) else None;
      if withFraction.Some? then withFraction
      else if !DigitAt(t, e) then Some(e)
      else MatchFrom(t, i, k - 1)
  }

  function MatchAt(t: string, i: nat): Option<nat>
    requires i <= |t|
  {
    if DigitAt(t, i - 1) then None else MatchFrom(t, i, 6)
  }

  lemma {:induction false} MatchIsForward(t: string, i: nat, k: nat)
    requires i <= |t|
    ensures MatchFrom(t, i, k).Some? ==> i < MatchFrom(t, i, k).value <= |t|
  {
    if k > 0 {
      MatchIsForward(t, i, k - 1);
      if RunEnd(t, i) >= i + k && i + k < |t| && t[i + k] == '.' { FractionIsForward(t, i + k, 3); }
    }
  }

  lemma {:induction false} FractionIsForward(t: string, i: nat, j: nat)
    requires i < |t| && t[i] == '.'
    ensures FractionFrom(t, i, j).Some? ==> i < FractionFrom(t, i, j).value <= |t|
  {
    if j > 0 { FractionIsForward(t, i, j - 1); }
  }

  /** `findall`: the leftmost matches from `p` on that do not overlap, as start and end. */
  function FindAll(t: string, p: nat): seq<(nat, nat)>
    requires p <= |t|
    decreases |t| - p
  {
    if p == |t| then []
    else
      match MatchAt(t, p)
      case None => FindAll(t, p + 1)
      case Some(e) =>
        MatchIsForward(t, p, 6);
        [(p, e)] + FindAll(t, e)
  }

  // ---- The same as a scan over maximal digit runs ----

  /** A run of one to six digits is a number; its fraction is the run behind a point if that
      has one to three digits; a longer run of either kind is not touched. */
  function NumberEnd(t: string, p: nat): (e: nat)
    requires DigitAt(t, p) && RunEnd(t, p) <= p + 6
    ensures p < e <= |t| && !DigitAt(t, e)
  {
    var e := RunEnd(t, p);
    if e < |t| && t[e] == '.' && e + 1 < RunEnd(t, e + 1) <= e + 4 then RunEnd(t, e + 1) else e
  }

  function Scan(t: string, p: nat): seq<(nat, nat)>
    requires p <= |t|
    decreases |t| - p
  {
    if p == |t| then []
    else if !IsDigit(t[p]) then Scan(t, p + 1)
    else if RunEnd(t, p) > p + 6 then Scan(t, RunEnd(t, p))
    else [(p, NumberEnd(t, p))] + Scan(t, NumberEnd(t, p))
  }

  lemma {:induction false} FractionIsRun(t: string, i: nat, j: nat)
    requires i < |t| && t[i] == '.'
    ensures FractionFrom(t, i, j)
            == (if i + 1 < RunEnd(t, i + 1) <= i + 1 + j then Some(RunEnd(t, i + 1)) else None)
  {
    if j > 0 { FractionIsRun(t, i, j - 1); }
  }

  lemma {:induction false} MatchIsRun(t: string, i: nat, k: nat)
    requires DigitAt(t, i) && k <= 6
    ensures MatchFrom(t, i, k) == (if RunEnd(t, i) <= i + k then Some(NumberEnd(t, i)) else None)
  {
    if k > 0 {
      MatchIsRun(t, i, k - 1);
      var e := i + k;
      if e < |t| && t[e] == '.' { FractionIsRun(t, e, 3); }
    }
  }

  lemma {:induction false} SkipRun(t: string, p: nat, e: nat)
    requires p < e <= |t| && forall k :: p <= k < e ==> IsDigit(t[k])
    ensures FindAll(t, p + 1) == FindAll(t, e)
    decreases e - p
  {
    if p + 1 < e { SkipRun(t, p + 1, e); }
  }

  lemma NoDigitNoMatch(t: string, p: nat)
    requires p < |t| && !IsDigit(t[p])
    ensures MatchAt(t, p) == None
  {
    assert RunEnd(t, p) == p;
    assert MatchFrom(t, p, 0) == None && MatchFrom(t, p, 1) == None && MatchFrom(t, p, 2) == None;
    assert MatchFrom(t, p, 3) == None && MatchFrom(t, p, 4) == None && MatchFrom(t, p, 5) == None;
  }

  /** The backtracking matcher and the scan agree from every place that does not lie inside a
      run of digits. */
  lemma {:induction false} ScanIsFindAll(t: string, p: nat)
    requires p <= |t| && !(DigitAt(t, p - 1) && DigitAt(t, p))
    ensures FindAll(t, p) == Scan(t, p)
    decreases |t| - p
  {
    if p < |t| {
      if !IsDigit(t[p]) {
        NoDigitNoMatch(t, p);
        ScanIsFindAll(t, p + 1);
      } else {
        MatchIsRun(t, p, 6);
        if RunEnd(t, p) > p + 6 {
          SkipRun(t, p, RunEnd(t, p));
          ScanIsFindAll(t, RunEnd(t, p));
        } else {
          ScanIsFindAll(t, NumberEnd(t, p));
        }
      }
    }
  }

  // ---- Numerals and their values ----

  type Digit = d: int | 0 <= d < 10

  datatype Numeral = Numeral(whole: seq<Digit>, fraction: seq<Digit>)

  function WholeValue(ds: seq<Digit>): nat {
    if ds == [] then 0 else 10 * WholeValue(ds[..|ds| - 1]) + ds[|ds| - 1]
  }

  function FractionValue(ds: seq<Digit>): real {
    if ds == [] then 0.0 else (ds[0] as real + FractionValue(ds[1..])) / 10.0
  }

  function Value(n: Numeral): real { WholeValue(n.whole) as real + FractionValue(n.fraction) }

  /** `Decimal(...).normalize()` without rounding, and the text it is formatted to: no zeros in
      front, none behind the last digit that counts. */
  function StripFront(ds: seq<Digit>): seq<Digit> {
    if |ds| > 1 && ds[0] == 0 then StripFront(ds[1..]) else ds
  }

  function StripBack(ds: seq<Digit>): seq<Digit> {
    if ds != [] && ds[|ds| - 1] == 0 then StripBack(ds[..|ds| - 1]) else ds
  }

  function Normal(n: Numeral): Numeral { Numeral(StripFront(n.whole), StripBack(n.fraction)) }

  predicate IsNormal(n: Numeral) {
    && n.whole != [] && (|n.whole| > 1 ==> n.whole[0] != 0)
    && (n.fraction != [] ==> n.fraction[|n.fraction| - 1] != 0)
  }

  lemma {:induction false} FractionInUnit(ds: seq<Digit>)
    ensures 0.0 <= FractionValue(ds) < 1.0
  {
    if ds != [] { FractionInUnit(ds[1..]); }
  }

  lemma {:induction false} TrailingZero(ds: seq<Digit>)
    ensures FractionValue(ds + [0]) == FractionValue(ds)
  {
    if ds != [] {
      assert (ds + [0])[1..] == ds[1..] + [0];
      TrailingZero(ds[1..]);
    } else {
      assert [0][1..] == [];
    }
  }

  lemma {:induction false} LeadingZero(ds: seq<Digit>)
    ensures WholeValue([0] + ds) == WholeValue(ds)
  {
    if ds != [] {
      assert ([0] + ds)[..|ds|] == [0] + ds[..|ds| - 1];
      LeadingZero(ds[..|ds| - 1]);
    }
  }

  lemma {:induction false} StripFrontKeeps(ds: seq<Digit>)
    ensures WholeValue(StripFront(ds)) == WholeValue(ds)
    ensures ds != [] ==> StripFront(ds) != [] && (|StripFront(ds)| > 1 ==> StripFront(ds)[0] != 0)
  {
    if |ds| > 1 && ds[0] == 0 {
      assert ds == [0] + ds[1..];
      LeadingZero(ds[1..]);
      StripFrontKeeps(ds[1..]);
    }
  }

  lemma {:induction false} StripBackKeeps(ds: seq<Digit>)
    ensures FractionValue(StripBack(ds)) == FractionValue(ds)
    ensures StripBack(ds) != [] ==> StripBack(ds)[|StripBack(ds)| - 1] != 0
  {
    if ds != [] && ds[|ds| - 1] == 0 {
      assert ds == ds[..|ds| - 1] + [0];
      TrailingZero(ds[..|ds| - 1]);
      StripBackKeeps(ds[..|ds| - 1]);
    }
  }

  lemma NormalKeeps(n: Numeral)
    requires n.whole != []
    ensures Value(Normal(n)) == Value(n) && IsNormal(Normal(n))
  {
    StripFrontKeeps(n.whole);
    StripBackKeeps(n.fraction);
  }

  lemma {:induction false} WholePositive(ds: seq<Digit>)
    requires ds != [] && ds[0] != 0
    ensures WholeValue(ds) > 0
  {
    if |ds| > 1 { WholePositive(ds[..|ds| - 1]); }
  }

  /** Digits without zeros in front are determined by their value. */
  lemma {:induction false} WholeUnique(a: seq<Digit>, b: seq<Digit>)
    requires (a != [] ==> a[0] != 0) && (b != [] ==> b[0] != 0) && WholeValue(a) == WholeValue(b)
    ensures a == b
  {
    if a == [] || b == [] {
      if a != [] { WholePositive(a); }
      if b != [] { WholePositive(b); }
    } else {
      var a', b' := a[..|a| - 1], b[..|b| - 1];
      assert a[|a| - 1] == b[|b| - 1] && WholeValue(a') == WholeValue(b');
      WholeUnique(a', b');
      assert a == a' + [a[|a| - 1]] && b == b' + [b[|b| - 1]];
    }
  }

  lemma {:induction false} FractionPositive(ds: seq<Digit>)
    requires ds != [] && ds[|ds| - 1] != 0
    ensures FractionValue(ds) > 0.0
  {
    if |ds| > 1 { FractionPositive(ds[1..]); }
  }

  /** Digits without zeros behind are determined by the fraction they stand for. */
  lemma {:induction false} FractionUnique(a: seq<Digit>, b: seq<Digit>)
    requires (a != [] ==> a[|a| - 1] != 0) && (b != [] ==> b[|b| - 1] != 0) && FractionValue(a) == FractionValue(b)
    ensures a == b
  {
    if a == [] || b == [] {
      if a != [] { FractionPositive(a); }
      if b != [] { FractionPositive(b); }
    } else {
      FractionInUnit(a[1..]);
      FractionInUnit(b[1..]);
      FirstDigit(a[0], FractionValue(a[1..]), b[0], FractionValue(b[1..]));
      FractionUnique(a[1..], b[1..]);
      assert a == [a[0]] + a[1..] && b == [b[0]] + b[1..];
    }
  }

  lemma FirstDigit(d: Digit, x: real, e: Digit, y: real)
    requires 0.0 <= x < 1.0 && 0.0 <= y < 1.0 && (d as real + x) / 10.0 == (e as real + y) / 10.0
    ensures d == e && x == y
  {
  }

  /** Normal numerals are equal exactly when their values are. */
  lemma NormalUnique(a: Numeral, b: Numeral)
    requires IsNormal(a) && IsNormal(b)
    ensures a == b <==> Value(a) == Value(b)
  {
    if Value(a) == Value(b) {
      FractionInUnit(a.fraction);
      FractionInUnit(b.fraction);
      assert WholeValue(a.whole) == WholeValue(b.whole);
      FractionUnique(a.fraction, b.fraction);
      WholeUnique(Nonzero(a.whole), Nonzero(b.whole));
    }
  }

  /** The digits of a normal whole part, a lone zero dropped. */
  function Nonzero(ds: seq<Digit>): (r: seq<Digit>)
    requires ds != [] && (|ds| > 1 ==> ds[0] != 0)
    ensures WholeValue(r) == WholeValue(ds) && (r != [] ==> r[0] != 0) && (r == [] <==> ds == [0])
    ensures r == [] || r == ds
  {
    if ds[0] == 0 then
      assert ds == [0] && ds[..0] == [];
      []
    else ds
  }

  // ---- Text ----

  function DigitsOf(s: string): seq<Digit>
    requires IsDigits(s)
  {
    seq(|s|, i requires 0 <= i < |s| => s[i] as int - '0' as int)
  }

  function TextOf(ds: seq<Digit>): (s: string)
    ensures IsDigits(s) && |s| == |ds|
  {
    seq(|ds|, i requires 0 <= i < |ds| => (ds[i] + '0' as int) as char)
  }

  lemma DigitsOfText(ds: seq<Digit>)
    ensures DigitsOf(TextOf(ds)) == ds
  {
  }

  predicate IsNumeral(raw: string) {
    var k := RunEnd(raw, 0);
    k > 0 && (k == |raw| || (raw[k] == '.' && k + 1 < |raw| && IsDigits(raw[k + 1..])))
  }

  function Parse(raw: string): (n: Numeral)
    requires IsNumeral(raw)
    ensures n.whole != []
  {
    var k := RunEnd(raw, 0);
    Numeral(DigitsOf(raw[..k]), if k == |raw| then [] else DigitsOf(raw[k + 1..]))
  }

  function Render(n: Numeral): string {
    if n.fraction == [] then TextOf(n.whole) else TextOf(n.whole) + "." + TextOf(n.fraction)
  }

  lemma {:induction false} RunEndIs(t: string, i: nat, e: nat)
    requires i <= e <= |t| && (forall k :: i <= k < e ==> IsDigit(t[k])) && !DigitAt(t, e)
    ensures RunEnd(t, i) == e
  {
  }

  lemma ParseRender(n: Numeral)
    requires n.whole != []
    ensures IsNumeral(Render(n)) && Parse(Render(n)) == n
  {
    var s, k := Render(n), |n.whole|;
    assert s[..k] == TextOf(n.whole);
    if n.fraction != [] { assert s[k] == '.' && s[k + 1..] == TextOf(n.fraction); }
    RunEndIs(s, 0, k);
    DigitsOfText(n.whole);
    DigitsOfText(n.fraction);
  }

  /** `format(Decimal(raw).normalize(), "f")` for the numerals the pattern picks: nine digits
      at most, so nothing is rounded. */
  function Canonical(raw: string): string
    requires IsNumeral(raw)
  {
    Render(Normal(Parse(raw)))
  }

  /** The canonical text is a numeral of the same value, and is its own canonical text. */
  lemma CanonicalKeepsValue(raw: string)
    requires IsNumeral(raw)
    ensures IsNumeral(Canonical(raw)) && Value(Parse(Canonical(raw))) == Value(Parse(raw))
    ensures Canonical(Canonical(raw)) == Canonical(raw)
  {
    var n := Normal(Parse(raw));
    NormalKeeps(Parse(raw));
    ParseRender(n);
    NormalKeeps(n);
    NormalUnique(n, Normal(n));
  }

  /** Two numerals have the same canonical text exactly when they are numerically equal. */
  lemma CanonicalExactly(a: string, b: string)
    requires IsNumeral(a) && IsNumeral(b)
    ensures Canonical(a) == Canonical(b) <==> Value(Parse(a)) == Value(Parse(b))
  {
    NormalKeeps(Parse(a));
    NormalKeeps(Parse(b));
    ParseRender(Normal(Parse(a)));
    ParseRender(Normal(Parse(b)));
    NormalUnique(Normal(Parse(a)), Normal(Parse(b)));
  }

  // ---- Extraction ----

  function WithoutCommas(t: string): string {
    if t == [] then [] else (if t[0] == ',' then [] else [t[0]]) + WithoutCommas(t[1..])
  }

  /** What the pattern picks are numerals of at most six and three digits. */
  predicate IsPicked(t: string, m: (nat, nat)) {
    && m.0 < m.1 <= |t| && IsNumeral(t[m.0..m.1])
    && 0 < |Parse(t[m.0..m.1]).whole| <= 6 && |Parse(t[m.0..m.1]).fraction| <= 3
  }

  lemma PickedText(raw: string, k: nat)
    requires 0 < k <= 6 && k <= |raw| && RunEnd(raw, 0) == k
    requires k == |raw| || (raw[k] == '.' && k + 1 < |raw| <= k + 4 && IsDigits(raw[k + 1..]))
    ensures IsNumeral(raw) && 0 < |Parse(raw).whole| <= 6 && |Parse(raw).fraction| <= 3
  {
  }

  lemma SliceRun(t: string, p: nat, k: nat, e: nat)
    requires p < k <= e <= |t| && RunEnd(t, p) == k
    ensures RunEnd(t[p..e], 0) == k - p
  {
    var raw := t[p..e];
    assert forall i :: 0 <= i < k - p ==> raw[i] == t[p + i];
    RunEndIs(raw, 0, k - p);
  }

  lemma SliceFraction(t: string, p: nat, k: nat, e: nat)
    requires p < k < e <= |t| && t[k] == '.' && k + 1 < e && RunEnd(t, k + 1) == e
    ensures t[p..e][k - p] == '.' && IsDigits(t[p..e][k - p + 1..])
  {
    assert t[p..e][k - p + 1..] == t[k + 1..e];
  }

  lemma PickedAt(t: string, p: nat)
    requires DigitAt(t, p) && RunEnd(t, p) <= p + 6
    ensures IsPicked(t, (p, NumberEnd(t, p)))
  {
    var e, k := NumberEnd(t, p), RunEnd(t, p);
    SliceRun(t, p, k, e);
    if e != k { SliceFraction(t, p, k, e); }
    PickedText(t[p..e], k - p);
  }

  lemma {:induction false} ScanPicks(t: string, p: nat)
    requires p <= |t|
    ensures forall m <- Scan(t, p) :: IsPicked(t, m)
    decreases |t| - p
  {
    if p < |t| {
      if !IsDigit(t[p]) {
        ScanPicks(t, p + 1);
      } else if RunEnd(t, p) > p + 6 {
        ScanPicks(t, RunEnd(t, p));
      } else {
        PickedAt(t, p);
        ScanPicks(t, NumberEnd(t, p));
      }
    }
  }

  function CanonicalAt(t: string, m: (nat, nat)): string {
    if IsPicked(t, m) then Canonical(t[m.0..m.1]) else ""
  }

  function TextsOf(t: string, matches: seq<(nat, nat)>): set<string> { set m | m in matches :: CanonicalAt(t, m) }

  function CandidatesOf(text: string): set<string> { TextsOf(WithoutCommas(text), FindAll(WithoutCommas(text), 0)) }

  function AllCandidates(texts: seq<string>): set<string> {
    if texts == [] then {} else AllCandidates(texts[..|texts| - 1]) + CandidatesOf(texts[|texts| - 1])
  }

  predicate Lex(a: string, b: string)
    requires |a| == |b|
  {
    a != [] && (a[0] < b[0] || (a[0] == b[0] && Lex(a[1..], b[1..])))
  }

  /** The sort key of the result: length, then text. */
  predicate Shorter(a: string, b: string) { |a| < |b| || (|a| == |b| && Lex(a, b)) }

  lemma {:induction false} LexTotal(a: string, b: string)
    requires |a| == |b|
    ensures a == b || Lex(a, b) || Lex(b, a)
    ensures !Lex(a, a)
  {
    if a != [] {
      LexTotal(a[1..], b[1..]);
      assert a == [a[0]] + a[1..] && b == [b[0]] + b[1..];
    }
  }

  lemma {:induction false} LexTransitive(a: string, b: string, c: string)
    requires |a| == |b| == |c| && Lex(a, b) && Lex(b, c)
    ensures Lex(a, c)
  {
    if a[0] == b[0] == c[0] { LexTransitive(a[1..], b[1..], c[1..]); }
  }

  lemma ShorterIsTotal()
    ensures TotalOrder(Shorter)
  {
    forall a, b ensures a == b || Shorter(a, b) || Shorter(b, a) {
      if |a| == |b| { LexTotal(a, b); }
    }
    forall a ensures !Shorter(a, a) {
      LexTotal(a, a);
    }
    forall a, b, c | Shorter(a, b) && Shorter(b, c) ensures Shorter(a, c) {
      if |a| == |b| == |c| { LexTransitive(a, b, c); }
    }
  }

  /** The inner loop: the canonical text of every match. */
  method AddMatches(t: string, candidates: set<string>) returns (more: set<string>)
    ensures more == candidates + TextsOf(t, FindAll(t, 0))
  {
    var matches := FindAll(t, 0);
    ScanIsFindAll(t, 0);
    ScanPicks(t, 0);
    more := candidates;
    for k := 0 to |matches|
      invariant more == candidates + TextsOf(t, matches[..k])
    {
      assert matches[..k + 1] == matches[..k] + [matches[k]];
      assert matches[k] in matches && IsPicked(t, matches[k]);
      OneMoreText(t, matches[..k], matches[k]);
      more := more + {Canonical(t[matches[k].0..matches[k].1])};
    }
    assert matches[..|matches|] == matches;
  }

  lemma OneMoreText(t: string, matches: seq<(nat, nat)>, m: (nat, nat))
    ensures TextsOf(t, matches + [m]) == TextsOf(t, matches) + {CanonicalAt(t, m)}
  {
  }

  /** `extract_numeric_candidates`: exactly the canonical texts of the matches, each once, the
      shorter first. */
  method ExtractNumericCandidates(texts: seq<string>) returns (found: seq<string>)
    ensures Sorted(found, Shorter)
    ensures forall c :: c in found <==> c in AllCandidates(texts)
  {
    var candidates: set<string> := {};
    for i := 0 to |texts|
      invariant candidates == AllCandidates(texts[..i])
    {
      assert texts[..i + 1][..i] == texts[..i];
      candidates := AddMatches(WithoutCommas(texts[i]), candidates);
    }
    assert texts[..|texts|] == texts;
    ShorterIsTotal();
    found := SortSet(candidates, Shorter);
  }
}
