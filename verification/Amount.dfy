/** validateAmount: which decimal strings are accepted, and what canonical form keeps. */
module Amount {
  import opened Text

  datatype Option<+T> = None | Some(value: T)

  const MAX_AMOUNT_LEN := 40

  predicate IsDigit(c: char) { '0' <= c <= '9' }
  predicate Digits(s: string, lo: nat, hi: nat)
    requires lo <= hi <= |s|
  {
    forall i :: lo <= i < hi ==> IsDigit(s[i])
  }

  /** The language of amountPattern, by its two cuts: the sign is s[..body], the integer part s[body..dot], and
      the fraction, if any, what follows the point at `dot`. */
  ghost predicate InPattern(s: string) { exists body, dot :: Cuts(s, body, dot) }

  ghost predicate Cuts(s: string, body: nat, dot: nat) {
    && body <= 1 && body <= dot <= |s|
    && (body == 1 ==> s[0] == '+' || s[0] == '-')
    && Digits(s, body, dot)
    && (if dot == |s| then body < dot else s[dot] == '.' && dot + 1 < |s| && Digits(s, dot + 1, |s|))
  }

  function DigitRun(s: string): (n: nat)
    ensures n <= |s|
    ensures forall i :: 0 <= i < n ==> IsDigit(s[i])
    ensures n < |s| ==> !IsDigit(s[n])
  {
    if s != [] && IsDigit(s[0]) then 1 + DigitRun(s[1..]) else 0
  }

  predicate HasSign(s: string) { s != [] && (s[0] == '+' || s[0] == '-') }

  function Unsigned(s: string): string { if HasSign(s) then s[1..] else s }

  /** A one-pass scanner for the pattern. */
  predicate Matches(s: string) {
    var t := Unsigned(s);
    var n := DigitRun(t);
    if n == |t| then n > 0 else t[n] == '.' && n + 1 < |t| && DigitRun(t[n + 1..]) == |t| - n - 1
  }

  /** The scanner accepts exactly the pattern's language. */
  lemma ScannerDecidesPattern(s: string)
    ensures Matches(s) <==> InPattern(s)
  {
    hide Matches, Cuts;
    if Matches(s) { MatchesCuts(s); }
    if InPattern(s) {
      var body: nat, dot: nat :| Cuts(s, body, dot);
      CutsMatch(s, body, dot);
    }
  }

  lemma MatchesCuts(s: string)
    requires Matches(s)
    ensures Cuts(s, |s| - |Unsigned(s)|, |s| - |Unsigned(s)| + DigitRun(Unsigned(s)))
  {
    hide DigitRun;
    var t := Unsigned(s);
    var n := DigitRun(t);
    if n < |t| {
      var f := t[n + 1..];
      assert forall i :: n + 1 <= i < |t| ==> t[i] == f[i - n - 1];
    }
  }

  lemma CutsMatch(s: string, body: nat, dot: nat)
    requires Cuts(s, body, dot)
    ensures Matches(s)
  {
    hide DigitRun;
    var t := Unsigned(s);
    assert s[body] == '.' || IsDigit(s[body]);
    assert t == s[body..];
    RunIs(t, dot - body);
    if dot < |s| { RunIs(s[dot + 1..], |s| - dot - 1); }
  }

  lemma {:induction false} RunIs(s: string, n: nat)
    requires n <= |s| && Digits(s, 0, n) && (n < |s| ==> !IsDigit(s[n]))
    ensures DigitRun(s) == n
  {
    if n > 0 { RunIs(s[1..], n - 1); }
  }

  // --- exact value ---

  /** units / 10^scale, kept exactly: "12.340" is 12340 at scale 3, not 1234 at scale 2. */
  datatype Decimal = Decimal(units: int, scale: nat)

  function Natural(s: string): nat
    requires forall i :: 0 <= i < |s| ==> IsDigit(s[i])
  {
    if s == [] then 0
    else
      assert IsDigit(s[|s| - 1]);
      10 * Natural(s[..|s| - 1]) + (s[|s| - 1] as int - '0' as int)
  }

  /** The digits in order, the point dropped. */
  function DigitsOf(s: string): (r: string)
    ensures forall i :: 0 <= i < |r| ==> IsDigit(r[i])
  {
    if s == [] then [] else (if IsDigit(s[0]) then [s[0]] else []) + DigitsOf(s[1..])
  }

  function Denote(s: string): Decimal
    requires Matches(s)
  {
    var t := Unsigned(s);
    var n := DigitRun(t);
    var units: int := Natural(DigitsOf(s));
    var signed: int := if s[0] == '-' then -units else units;
    Decimal(signed, if n == |t| then 0 else |t| - n - 1)
  }

  function ValidateAmount(input: string): Option<string> {
    var s := Trim(input);
    if s == "" || |s| > MAX_AMOUNT_LEN || !Matches(s) then None
    else Some(if s[0] == '+' then s[1..] else s)
  }

  /** Accepted exactly when the trimmed input is short enough and in the language. */
  lemma AcceptsExactly(input: string)
    ensures ValidateAmount(input).Some? <==> |Trim(input)| <= MAX_AMOUNT_LEN && InPattern(Trim(input))
  {
    ScannerDecidesPattern(Trim(input));
  }

  /** The canonical form is a fixed point without "+", with the same digits and the same exact value. */
  lemma CanonicalKeepsValue(input: string)
    requires ValidateAmount(input).Some?
    ensures var r := ValidateAmount(input).value;
            && ValidateAmount(r) == Some(r)
            && '+' !in r
            && Matches(Trim(input)) && Matches(r)
            && DigitsOf(r) == DigitsOf(Trim(input))
            && Denote(r) == Denote(Trim(input))
  {
    hide DigitRun, Natural, Trim;
    var s := Trim(input);
    var r := ValidateAmount(input).value;
    MatchedChars(s);
    assert Unsigned(r) == Unsigned(s);
    assert Trimmed(r);
  }

  lemma MatchedChars(s: string)
    requires Matches(s)
    ensures forall c :: c in Unsigned(s) ==> IsDigit(c) || c == '.'
    ensures Unsigned(s) != [] && !IsSpace(Unsigned(s)[0]) && !HasSign(Unsigned(s))
    ensures IsDigit(s[|s| - 1])
  {
    var t := Unsigned(s);
    var n := DigitRun(t);
    forall i | 0 <= i < |t| ensures IsDigit(t[i]) || (t[i] == '.' && i < |t| - 1) {
      if i > n { assert t[i] == t[n + 1..][i - n - 1]; }
    }
    assert s[|s| - 1] == t[|t| - 1];
  }
}
