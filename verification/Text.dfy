/** Strings as the Go code and the SQL collation see them: byte order, trimming, and the
    canonical forms of label keys, extension keys and relationship kinds. ASCII only. */
module Text {

  /** Go's `<` on strings and SQLite's BINARY collation. */
  predicate Below(a: string, b: string) {
    if a == [] then b != []
    else b != [] && (a[0] < b[0] || (a[0] == b[0] && Below(a[1..], b[1..])))
  }

  lemma {:induction false} BelowIrreflexive(a: string)
    ensures !Below(a, a)
  {
    if a != [] { BelowIrreflexive(a[1..]); }
  }

  lemma {:induction false} BelowTransitive(a: string, b: string, c: string)
    requires Below(a, b) && Below(b, c)
    ensures Below(a, c)
  {
    if a != [] && a[0] == b[0] == c[0] { BelowTransitive(a[1..], b[1..], c[1..]); }
  }

  lemma {:induction false} BelowTotal(a: string, b: string)
    ensures a == b || Below(a, b) || Below(b, a)
  {
    if a != [] && b != [] && a[0] == b[0] {
      BelowTotal(a[1..], b[1..]);
      assert a == [a[0]] + a[1..] && b == [b[0]] + b[1..];
    }
  }

  predicate IsSpace(c: char) { c == ' ' || '\t' <= c <= '\r' }

  predicate Trimmed(s: string) { s == [] || (!IsSpace(s[0]) && !IsSpace(s[|s| - 1])) }

  function TrimLeft(s: string): (r: string)
    ensures r == [] || !IsSpace(r[0])
    ensures |r| <= |s| && r == s[|s| - |r|..]
  {
    if s != [] && IsSpace(s[0]) then TrimLeft(s[1..]) else s
  }

  function TrimRight(s: string): (r: string)
    ensures r == [] || !IsSpace(r[|r| - 1])
    ensures r <= s
  {
    if s != [] && IsSpace(s[|s| - 1]) then TrimRight(s[..|s| - 1]) else s
  }

  /** strings.TrimSpace. */
  function Trim(s: string): (r: string)
    ensures Trimmed(r)
    ensures Trimmed(s) ==> r == s
    ensures forall c :: c in r ==> c in s
    ensures |r| <= |s|
  {
    TrimRight(TrimLeft(s))
  }

  predicate IsUpper(c: char) { 'A' <= c <= 'Z' }

  function LowerChar(c: char): char {
    if IsUpper(c) then ((c as int) + 32) as char else c
  }

  /** strings.ToLower. */
  function Lower(s: string): (r: string)
    ensures |r| == |s|
    ensures forall i :: 0 <= i < |s| ==> r[i] == LowerChar(s[i])
  {
    seq(|s|, i requires 0 <= i < |s| => LowerChar(s[i]))
  }

  lemma LowerLetters(i: nat)
    requires i < 26
    ensures LowerChar("ABCDEFGHIJKLMNOPQRSTUVWXYZ"[i]) == "abcdefghijklmnopqrstuvwxyz"[i]
    ensures LowerChar("abcdefghijklmnopqrstuvwxyz"[i]) == "abcdefghijklmnopqrstuvwxyz"[i]
  {
  }

  /** Characters that would break a JSON path: quote, backslash and control characters. */
  predicate Unsafe(c: char) { c == '"' || c == '\\' || c < ' ' }

  predicate Safe(s: string) { forall c :: c in s ==> !Unsafe(c) }
  predicate NoUppers(s: string) { forall c :: c in s ==> !IsUpper(c) }

  function Strip(s: string): (r: string)
    ensures forall c :: c in r ==> c in s && !Unsafe(c)
    ensures Safe(s) ==> r == s
    ensures |r| <= |s|
  {
    if s == [] then [] else (if Unsafe(s[0]) then [] else [s[0]]) + Strip(s[1..])
  }

  // --- label and extension keys ---

  /** Trim, optionally lower-case, strip, trim again, cap the length, and trim what the cap exposed. */
  function CleanKey(s: string, fold: bool, cap: nat): string {
    var t := Trim(Strip(if fold then Lower(Trim(s)) else Trim(s)));
    if |t| > cap then Trim(t[..cap]) else t
  }

  /** What every stored key looks like. */
  predicate IsCleanKey(s: string, fold: bool, cap: nat) {
    Trimmed(s) && |s| <= cap && Safe(s) && (fold ==> NoUppers(s))
  }

  /** Cleaning lands on clean keys and leaves clean keys alone, so a stored key is found again by
      any spelling that cleans to it. */
  lemma CleanKeyCanonical(s: string, fold: bool, cap: nat)
    ensures IsCleanKey(CleanKey(s, fold, cap), fold, cap)
    ensures IsCleanKey(s, fold, cap) ==> CleanKey(s, fold, cap) == s
  {
    var l := if fold then Lower(Trim(s)) else Trim(s);
    assert fold ==> NoUppers(l);
    var t := Trim(Strip(l));
    assert Safe(t) && (fold ==> NoUppers(t));
    if |t| > cap {
      var u := Trim(t[..cap]);
      assert forall c :: c in u ==> c in t;
    }
    if IsCleanKey(s, fold, cap) {
      if fold { LowerFixed(s); }
      assert l == s && t == s;
    }
  }

  lemma LowerFixed(s: string)
    requires NoUppers(s)
    ensures Lower(s) == s
  {
    forall i | 0 <= i < |s| ensures Lower(s)[i] == s[i] { assert s[i] in s; }
  }

  // --- relationship kinds ---

  predicate IsWordChar(c: char) { 'a' <= c <= 'z' || '0' <= c <= '9' }
  predicate IsSeparator(c: char) { c == ' ' || c == '-' || c == '.' || c == '_' }

  /** The character loop of NormalizeKind: `out` is what the builder holds. */
  function ScanKind(s: string, out: string, pendingSep: bool): string {
    if s == [] then out
    else if IsWordChar(s[0]) then
      ScanKind(s[1..], out + (if pendingSep && out != [] then "_" else "") + [s[0]], false)
    else ScanKind(s[1..], out, pendingSep || IsSeparator(s[0]))
  }

  function DropTrailingUnderscores(s: string): string {
    if s != [] && s[|s| - 1] == '_' then DropTrailingUnderscores(s[..|s| - 1]) else s
  }

  const MAX_KIND_LEN := 64

  function NormalizeKind(s: string): string {
    var out := ScanKind(Lower(Trim(s)), [], false);
    if |out| > MAX_KIND_LEN then DropTrailingUnderscores(out[..MAX_KIND_LEN]) else out
  }

  /** Lower-case words joined by single underscores. */
  predicate IsIdentifier(s: string) {
    && (forall i :: 0 <= i < |s| ==> IsWordChar(s[i]) || s[i] == '_')
    && (s != [] ==> s[0] != '_' && s[|s| - 1] != '_')
    && (forall i :: 0 < i < |s| ==> s[i - 1] != '_' || s[i] != '_')
  }

  lemma {:induction false} ScanKindIdentifier(s: string, out: string, pendingSep: bool)
    requires IsIdentifier(out)
    ensures IsIdentifier(ScanKind(s, out, pendingSep))
    decreases |s|
  {
    if s != [] {
      if IsWordChar(s[0]) {
        ScanKindIdentifier(s[1..], out + (if pendingSep && out != [] then "_" else "") + [s[0]], false);
      } else {
        ScanKindIdentifier(s[1..], out, pendingSep || IsSeparator(s[0]));
      }
    }
  }

  /** Scanning an identifier from position i, with everything before i already copied. */
  lemma {:induction false} ScanKindFixpoint(s: string, i: nat)
    requires IsIdentifier(s) && i <= |s|
    requires i == |s| || s[i] != '_'
    ensures ScanKind(s[i..], if i > 0 && s[i - 1] == '_' then s[..i - 1] else s[..i], i > 0 && s[i - 1] == '_') == s
    decreases |s| - i
  {
    if i == |s| {
      assert s[..i] == s;
    } else {
      var gap := i > 0 && s[i - 1] == '_';
      var out := if gap then s[..i - 1] else s[..i];
      assert s[i..][1..] == s[i + 1..];
      assert out + (if gap && out != [] then "_" else "") + [s[i]] == s[..i + 1];
      if i + 1 < |s| && s[i + 1] == '_' {
        assert ScanKind(s[i + 1..], s[..i + 1], false) == ScanKind(s[i + 1..][1..], s[..i + 1], true);
        assert s[i + 1..][1..] == s[i + 2..];
        ScanKindFixpoint(s, i + 2);
      } else {
        ScanKindFixpoint(s, i + 1);
      }
    }
  }

  lemma {:induction false} DropTrailingIdentifier(s: string)
    requires forall i :: 0 <= i < |s| ==> IsWordChar(s[i]) || s[i] == '_'
    requires s != [] ==> s[0] != '_'
    requires forall i :: 0 < i < |s| ==> s[i - 1] != '_' || s[i] != '_'
    ensures IsIdentifier(DropTrailingUnderscores(s)) && |DropTrailingUnderscores(s)| <= |s|
  {
    if s != [] && s[|s| - 1] == '_' { DropTrailingIdentifier(s[..|s| - 1]); }
  }

  predicate IsKind(s: string) { IsIdentifier(s) && |s| <= MAX_KIND_LEN }

  /** Every normalized kind is a capped identifier, and such identifiers are fixed points. */
  lemma NormalizeKindCanonical(s: string)
    ensures IsKind(NormalizeKind(s))
    ensures IsKind(s) ==> NormalizeKind(s) == s
  {
    ScanKindIdentifier(Lower(Trim(s)), [], false);
    var out := ScanKind(Lower(Trim(s)), [], false);
    if |out| > MAX_KIND_LEN { DropTrailingIdentifier(out[..MAX_KIND_LEN]); }
    if IsKind(s) {
      assert Trimmed(s);
      assert Lower(s) == s;
      ScanKindFixpoint(s, 0);
      assert s[0..] == s && s[..0] == [];
    }
  }

  // --- what the canonical forms keep ---

  predicate AllSpaces(s: string) { forall c :: c in s ==> IsSpace(c) }

  lemma {:induction false} TrimLeftSpaces(s: string)
    ensures forall i :: 0 <= i < |s| - |TrimLeft(s)| ==> IsSpace(s[i])
  {
    hide IsSpace;
    if s != [] && IsSpace(s[0]) {
      var rest := s[1..];
      TrimLeftSpaces(rest);
      forall i | 0 < i < |s| - |TrimLeft(s)| ensures IsSpace(s[i]) { assert rest[i - 1] == s[i]; }
    }
  }

  lemma TrimLeftCuts(s: string)
    returns (left: string)
    ensures s == left + TrimLeft(s) && AllSpaces(left)
  {
    hide IsSpace;
    left := s[..|s| - |TrimLeft(s)|];
    TrimLeftSpaces(s);
  }

  lemma {:induction false} TrimRightSpaces(s: string)
    ensures forall i :: |TrimRight(s)| <= i < |s| ==> IsSpace(s[i])
  {
    hide IsSpace;
    if s != [] && IsSpace(s[|s| - 1]) { TrimRightSpaces(s[..|s| - 1]); }
  }

  lemma TrimRightCuts(s: string)
    returns (right: string)
    ensures s == TrimRight(s) + right && AllSpaces(right)
  {
    hide IsSpace;
    right := s[|TrimRight(s)|..];
    TrimRightSpaces(s);
  }

  /** Trimming takes away leading and trailing spaces, and nothing else. */
  lemma TrimOnlyTrims(s: string)
    returns (left: string, right: string)
    ensures s == left + Trim(s) + right && AllSpaces(left) && AllSpaces(right)
  {
    hide AllSpaces, IsSpace, TrimLeft, TrimRight;
    left := TrimLeftCuts(s);
    right := TrimRightCuts(TrimLeft(s));
    assert left + (Trim(s) + right) == left + Trim(s) + right;
  }

  /** So any spelling of a trimmed text with spaces around it trims to it. */
  lemma TrimOf(left: string, s: string, right: string)
    requires AllSpaces(left) && AllSpaces(right) && Trimmed(s)
    ensures Trim(left + s + right) == s
  {
    hide AllSpaces, IsSpace, TrimLeft, TrimRight;
    TrimLeftOf(left, s + right);
    assert left + (s + right) == left + s + right;
    TrimRightOf(s, right);
    if s == [] {
      TrimLeftOf(right, []);
      assert s + right == right + [];
      assert TrimLeft([]) == [] && TrimRight([]) == [] by { TrimNothing(); }
    } else {
      TrimLeftStops(s + right);
    }
  }

  lemma TrimNothing()
    ensures TrimLeft([]) == [] && TrimRight([]) == []
  {
  }

  lemma TrimLeftStops(s: string)
    requires s != [] && !IsSpace(s[0])
    ensures TrimLeft(s) == s
  {
  }

  lemma {:induction false} TrimLeftOf(left: string, s: string)
    requires AllSpaces(left)
    ensures TrimLeft(left + s) == TrimLeft(s)
  {
    if left == [] {
      assert left + s == s;
    } else {
      assert left[0] in left && (left + s)[0] == left[0] && (left + s)[1..] == left[1..] + s;
      TrimLeftOf(left[1..], s);
    }
  }

  lemma {:induction false} TrimRightOf(s: string, right: string)
    requires AllSpaces(right) && (s == [] || !IsSpace(s[|s| - 1]))
    ensures TrimRight(s + right) == s
  {
    if right == [] {
      assert s + right == s;
    } else {
      var n := |right| - 1;
      assert right[n] in right && (s + right)[|s + right| - 1] == right[n];
      assert (s + right)[..|s + right| - 1] == s + right[..n];
      TrimRightOf(s, right[..n]);
    }
  }

  /** Stripping drops the unsafe characters one by one, and keeps every other in its place. */
  lemma {:induction false} StripConcat(a: string, b: string)
    ensures Strip(a + b) == Strip(a) + Strip(b)
  {
    hide Unsafe;
    if a == [] {
      assert a + b == b;
    } else {
      assert (a + b)[0] == a[0] && (a + b)[1..] == a[1..] + b;
      StripConcat(a[1..], b);
    }
  }

  lemma StripKeepsSafe(a: string, c: char, b: string)
    ensures Strip(a + [c] + b) == Strip(a) + (if Unsafe(c) then [] else [c]) + Strip(b)
  {
    hide Unsafe;
    StripConcat(a + [c], b);
    StripConcat(a, [c]);
    assert [c][1..] == [] && Strip([c]) == if Unsafe(c) then [] else [c];
  }

  /** Any spelling of a clean key cleans to it: with spaces around, in upper case where case is folded, and with unsafe
      characters anywhere in between. */
  lemma SpellingsClean(key: string, left: string, spelling: string, right: string, fold: bool, cap: nat)
    requires IsCleanKey(key, fold, cap) && AllSpaces(left) && AllSpaces(right) && Trimmed(spelling)
    requires Strip(if fold then Lower(spelling) else spelling) == key
    ensures CleanKey(left + spelling + right, fold, cap) == key
  {
    hide TrimLeft, TrimRight, Strip, Lower, AllSpaces;
    TrimOf(left, spelling, right);
  }

  /** A key that is too long keeps its first characters, less the spaces the cut exposes. */
  lemma LongKeysAreCut(s: string, fold: bool, cap: nat)
    requires Trimmed(s) && Safe(s) && (fold ==> NoUppers(s)) && |s| > cap
    ensures CleanKey(s, fold, cap) == Trim(s[..cap])
  {
    if fold { LowerFixed(s); }
  }

  // --- what a relationship kind keeps ---

  /** A kind before the cap on its length. */
  function FullKind(s: string): string { ScanKind(Lower(s), [], false) }

  /** The letters and digits. */
  function Letters(s: string): string {
    if s == [] then [] else (if IsWordChar(s[0]) then [s[0]] else []) + Letters(s[1..])
  }

  function JoinWords(a: string, b: string): string { if a == "" then b else if b == "" then a else a + "_" + b }

  function ScanPending(s: string, pending: bool): bool {
    if s == [] then pending
    else ScanPending(s[1..], !IsWordChar(s[0]) && (pending || IsSeparator(s[0])))
  }

  lemma {:induction false} ScanConcat(a: string, b: string, out: string, pending: bool)
    ensures ScanKind(a + b, out, pending) == ScanKind(b, ScanKind(a, out, pending), ScanPending(a, pending))
    decreases |a|
  {
    hide IsWordChar, IsSeparator;
    if a == [] {
      assert a + b == b;
    } else {
      assert (a + b)[0] == a[0] && (a + b)[1..] == a[1..] + b;
      var out' := if IsWordChar(a[0]) then out + (if pending && out != [] then "_" else "") + [a[0]] else out;
      ScanConcat(a[1..], b, out', !IsWordChar(a[0]) && (pending || IsSeparator(a[0])));
    }
  }

  lemma {:induction false} ScanShift(s: string, x: string, y: string, pending: bool)
    requires y != []
    ensures ScanKind(s, x + y, pending) == x + ScanKind(s, y, pending)
    decreases |s|
  {
    hide IsWordChar, IsSeparator;
    if s != [] {
      if IsWordChar(s[0]) {
        var more := (if pending then "_" else "") + [s[0]];
        assert y + more == y + (if pending && y != [] then "_" else "") + [s[0]];
        assert x + (y + more) == x + y + (if pending && x + y != [] then "_" else "") + [s[0]];
        ScanShift(s[1..], x, y + more, false);
      } else {
        ScanShift(s[1..], x, y, pending || IsSeparator(s[0]));
      }
    }
  }

  /** A separator waits for the next word: nothing leads, nothing trails. */
  lemma {:induction false} ScanAfterSeparator(s: string, out: string)
    ensures ScanKind(s, out, true) == JoinWords(out, ScanKind(s, [], false))
    decreases |s|
  {
    hide IsWordChar, IsSeparator;
    if s != [] {
      if IsWordChar(s[0]) {
        ScanShift(s[1..], out + (if out != [] then "_" else ""), [s[0]], false);
        ScanNonEmpty(s[1..], [s[0]], false);
        assert [] + [s[0]] == [s[0]] && out + "" + [s[0]] == out + [s[0]];
      } else {
        ScanAfterSeparator(s[1..], out);
        ScanAfterSeparator(s[1..], []);
      }
    }
  }

  lemma {:induction false} ScanNonEmpty(s: string, out: string, pending: bool)
    ensures |ScanKind(s, out, pending)| >= |out|
    decreases |s|
  {
    if s != [] {
      if IsWordChar(s[0]) {
        ScanNonEmpty(s[1..], out + (if pending && out != [] then "_" else "") + [s[0]], false);
      } else {
        ScanNonEmpty(s[1..], out, pending || IsSeparator(s[0]));
      }
    }
  }

  lemma {:induction false} ScanLetters(s: string, out: string)
    requires forall c :: c in s ==> !IsSeparator(c)
    ensures ScanKind(s, out, false) == out + Letters(s)
    decreases |s|
  {
    hide IsWordChar, IsSeparator;
    assert out + [] == out;
    if s != [] {
      assert s[0] in s;
      var more := if IsWordChar(s[0]) then [s[0]] else [];
      assert out + "" + [s[0]] == out + [s[0]];
      ScanLetters(s[1..], out + more);
      assert out + more + Letters(s[1..]) == out + (more + Letters(s[1..]));
    }
  }

  lemma LowerConcat(a: string, b: string)
    ensures Lower(a + b) == Lower(a) + Lower(b)
  {
  }

  /** A kind is its words joined: one underscore stands for the separators between two words, and a stretch without
      separators is one word of its letters and digits, lower-cased. */
  lemma KindsOfWords(a: string, c: char, b: string)
    requires IsSeparator(c)
    ensures FullKind(a + [c] + b) == JoinWords(FullKind(a), FullKind(b))
    ensures (forall x :: x in a ==> !IsSeparator(LowerChar(x))) ==> FullKind(a) == Letters(Lower(a))
  {
    hide ScanKind, ScanPending;
    LowerConcat(a, [c] + b);
    LowerConcat([c], b);
    assert a + [c] + b == a + ([c] + b) && Lower([c]) == [c];
    ScanConcat(Lower(a), [c] + Lower(b), [], false);
    SeparatorPends(c, Lower(b), ScanKind(Lower(a), [], false), ScanPending(Lower(a), false));
    ScanAfterSeparator(Lower(b), FullKind(a));
    if forall x :: x in a ==> !IsSeparator(LowerChar(x)) {
      ScanLetters(Lower(a), []);
      assert [] + Letters(Lower(a)) == Letters(Lower(a));
    }
  }

  lemma SeparatorPends(c: char, b: string, out: string, pending: bool)
    requires IsSeparator(c)
    ensures ScanKind([c] + b, out, pending) == ScanKind(b, out, true)
  {
    assert ([c] + b)[1..] == b;
  }

  /** Spaces around a kind do not count, and the cap only cuts its end. */
  lemma NormalizeKindIs(s: string)
    ensures |FullKind(s)| <= MAX_KIND_LEN ==> NormalizeKind(s) == FullKind(s)
    ensures NormalizeKind(s) <= FullKind(s) && (|FullKind(s)| > MAX_KIND_LEN ==> |NormalizeKind(s)| >= MAX_KIND_LEN - 1)
  {
    hide ScanKind, Trim;
    var left, right := TrimOnlyTrims(s);
    FullKindOfTrimmed(left, Trim(s), right);
    var out := FullKind(s);
    ScanKindIdentifier(Lower(s), [], false);
    if |out| > MAX_KIND_LEN { OneUnderscoreCut(out[..MAX_KIND_LEN]); }
  }

  lemma OneUnderscoreCut(s: string)
    requires |s| == MAX_KIND_LEN && s[0] != '_'
    requires forall i :: 0 < i < |s| ==> s[i - 1] != '_' || s[i] != '_'
    ensures DropTrailingUnderscores(s) <= s && |DropTrailingUnderscores(s)| >= MAX_KIND_LEN - 1
  {
    if s[|s| - 1] == '_' {
      var t := s[..|s| - 1];
      assert t[|t| - 1] != '_';
      assert DropTrailingUnderscores(t) == t;
    }
  }

  lemma {:induction false} ScanNoWords(s: string, out: string, pending: bool)
    requires forall c :: c in s ==> !IsWordChar(c)
    ensures ScanKind(s, out, pending) == out
    decreases |s|
  {
    if s != [] {
      assert s[0] in s;
      ScanNoWords(s[1..], out, pending || IsSeparator(s[0]));
    }
  }

  lemma FullKindOfTrimmed(left: string, s: string, right: string)
    requires AllSpaces(left) && AllSpaces(right)
    ensures FullKind(left + s + right) == FullKind(s)
  {
    hide ScanKind, ScanPending;
    LowerConcat(left + s, right);
    LowerConcat(left, s);
    assert left + s + right == (left + s) + right;
    SpacesHaveNoWords(left);
    SpacesHaveNoWords(right);
    ScanConcat(Lower(left + s), Lower(right), [], false);
    ScanNoWords(Lower(right), FullKind(left + s), ScanPending(Lower(left + s), false));
    ScanConcat(Lower(left), Lower(s), [], false);
    ScanNoWords(Lower(left), [], false);
    if ScanPending(Lower(left), false) { ScanAfterSeparator(Lower(s), []); }
  }

  lemma SpacesHaveNoWords(s: string)
    requires AllSpaces(s)
    ensures forall c :: c in Lower(s) ==> !IsWordChar(c)
  {
    forall i | 0 <= i < |s| ensures !IsWordChar(Lower(s)[i]) { assert s[i] in s; }
  }
}
