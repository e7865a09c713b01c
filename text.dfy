/** The string operations the core uses: toLowerCase (on ASCII letters), trim
    (the schema's `trim: true` setter), indexOf/includes, and replace with a string
    pattern (which replaces the first occurrence only). */
module Text {
  import opened Common

  /** String.prototype.toLowerCase on one character, for ASCII letters. */
  function LowerChar(c: char): char {
    if 'A' <= c <= 'Z' then (c as int + 32) as char else c
  }

  function Lower(s: string): string {
    seq(|s|, i requires 0 <= i < |s| => LowerChar(s[i]))
  }

  predicate IsUpper(c: char) {
    'A' <= c <= 'Z'
  }

  /** Lowercasing keeps the length, leaves no upper-case letter, and a second pass
      changes nothing. */
  lemma LowerFacts(s: string)
    ensures |Lower(s)| == |s|
    ensures forall i :: 0 <= i < |s| ==> !IsUpper(Lower(s)[i])
    ensures Lower(Lower(s)) == Lower(s)
  {
  }

  /** String.prototype.length: the number of UTF-16 code units, so a character
      above U+FFFF, stored as a surrogate pair, counts twice. */
  function JsLength(s: string): (r: nat)
    ensures |s| <= r <= 2 * |s|
    ensures (forall i :: 0 <= i < |s| ==> s[i] as int <= 0xFFFF) ==> r == |s|
  {
    if s == [] then 0
    else
      assert forall i :: 0 <= i < |s[1..]| ==> s[1..][i] == s[i + 1];
      (if s[0] as int > 0xFFFF then 2 else 1) + JsLength(s[1..])
  }

  /** One emoji is one Dafny character but two JavaScript code units. */
  lemma AstralCharacterCountsTwice()
    ensures |"\U{1F600}"| == 1 && JsLength("\U{1F600}") == 2
    ensures JsLength("ab\U{1F600}") == 4
  {
  }

  /** The WhiteSpace and LineTerminator code points of ECMA-262 (sections 12.2 and
      12.3): the characters String.prototype.trim removes. */
  predicate IsWhiteSpace(c: char) {
    || c == '\t' || c == '\n' || c == '\U{000B}' || c == '\U{000C}' || c == '\r'
    || c == ' ' || c == '\U{00A0}' || c == '\U{1680}'
    || ('\U{2000}' <= c <= '\U{200A}')
    || c == '\U{2028}' || c == '\U{2029}' || c == '\U{202F}' || c == '\U{205F}'
    || c == '\U{3000}' || c == '\U{FEFF}'
  }

  /** s without its leading white space. */
  function TrimStart(s: string): string {
    if |s| > 0 && IsWhiteSpace(s[0]) then TrimStart(s[1..]) else s
  }

  /** TrimStart(s) is a suffix of s whose dropped prefix is all white space and
      that does not itself start with white space. */
  lemma {:induction false} TrimStartSpec(s: string)
    ensures var r := TrimStart(s);
      && |r| <= |s| && r == s[|s| - |r|..]
      && (forall k :: 0 <= k < |s| - |r| ==> IsWhiteSpace(s[k]))
      && (r == [] || !IsWhiteSpace(r[0]))
  {
    if |s| > 0 && IsWhiteSpace(s[0]) {
      TrimStartSpec(s[1..]);
    }
  }

  /** s without its trailing white space. */
  function TrimEnd(s: string): string {
    if |s| > 0 && IsWhiteSpace(s[|s| - 1]) then TrimEnd(s[..|s| - 1]) else s
  }

  /** TrimEnd(s) is a prefix of s whose dropped suffix is all white space and that
      does not itself end with white space. */
  lemma {:induction false} TrimEndSpec(s: string)
    ensures var r := TrimEnd(s);
      && |r| <= |s| && r == s[..|r|]
      && (forall k :: |r| <= k < |s| ==> IsWhiteSpace(s[k]))
      && (r == [] || !IsWhiteSpace(r[|r| - 1]))
  {
    if |s| > 0 && IsWhiteSpace(s[|s| - 1]) {
      TrimEndSpec(s[..|s| - 1]);
    }
  }

  /** String.prototype.trim. */
  function Trim(s: string): string {
    TrimEnd(TrimStart(s))
  }

  /** A trimmed string has white space at neither end, and trimming it again
      changes nothing. */
  lemma TrimIdempotent(s: string)
    ensures var t := Trim(s); t == [] || (!IsWhiteSpace(t[0]) && !IsWhiteSpace(t[|t| - 1]))
    ensures Trim(Trim(s)) == Trim(s)
  {
    var a := TrimStart(s);
    var t := TrimEnd(a);
    TrimStartSpec(s);
    TrimEndSpec(a);
    if t != [] {
      assert t[0] == a[0];
    }
    assert TrimStart(t) == t;
    assert TrimEnd(t) == t;
  }

  /** Lowercasing ASCII letters and trimming white space commute, so the order in
      which the `trim` and `lowercase` setters run does not matter. */
  lemma {:induction false} LowerTrimStartCommute(s: string)
    ensures Lower(TrimStart(s)) == TrimStart(Lower(s))
  {
    if |s| > 0 && IsWhiteSpace(s[0]) {
      assert Lower(s)[1..] == Lower(s[1..]);
      LowerTrimStartCommute(s[1..]);
    }
  }

  lemma {:induction false} LowerTrimEndCommute(s: string)
    ensures Lower(TrimEnd(s)) == TrimEnd(Lower(s))
  {
    if |s| > 0 && IsWhiteSpace(s[|s| - 1]) {
      assert Lower(s)[..|s| - 1] == Lower(s[..|s| - 1]);
      LowerTrimEndCommute(s[..|s| - 1]);
    }
  }

  lemma LowerTrimCommute(s: string)
    ensures Lower(Trim(s)) == Trim(Lower(s))
  {
    LowerTrimStartCommute(s);
    LowerTrimEndCommute(TrimStart(s));
  }

  /** s has white space at neither end. */
  predicate Trimmed(s: string) {
    s == [] || (!IsWhiteSpace(s[0]) && !IsWhiteSpace(s[|s| - 1]))
  }

  /** s holds no upper-case letter. */
  predicate LowerCase(s: string) {
    forall i :: 0 <= i < |s| ==> !IsUpper(s[i])
  }

  /** Trimmed strings are exactly the ones trim leaves alone, and lower-case
      strings exactly the ones toLowerCase leaves alone. */
  lemma NormalFormsIff(s: string)
    ensures Trimmed(s) <==> Trim(s) == s
    ensures LowerCase(s) <==> Lower(s) == s
  {
    TrimIdempotent(s);
    if Trimmed(s) {
      assert TrimStart(s) == s;
    }
    if Lower(s) == s {
      LowerFacts(s);
    }
  }

  /** The `trim` and `lowercase` setters leave a trimmed, lower-case string, which
      running them again does not change. */
  lemma TrimLowerNormalizes(raw: string)
    ensures var e := Lower(Trim(raw)); Trimmed(e) && LowerCase(e) && Lower(Trim(e)) == e
  {
    var t := Trim(raw);
    var e := Lower(t);
    TrimIdempotent(raw);
    LowerFacts(t);
    LowerTrimCommute(raw);
    NormalFormsIff(e);
    LowerTrimCommute(e);
  }

  // ---------------------------------------------------------------------------
  // Searching

  /** p occurs in s at index i. */
  predicate OccursAt(s: string, p: string, i: int) {
    0 <= i && i + |p| <= |s| && s[i..i + |p|] == p
  }

  /** The first index at or after `from` where p occurs in s. */
  function IndexOfFrom(s: string, p: string, from: nat): (r: Option<nat>)
    ensures r.Some? ==> from <= r.value && OccursAt(s, p, r.value)
    ensures r.Some? ==> forall j :: from <= j < r.value ==> !OccursAt(s, p, j)
    ensures r.None? ==> forall j :: from <= j ==> !OccursAt(s, p, j)
    decreases |s| - from
  {
    if from + |p| > |s| then None
    else if s[from..from + |p|] == p then Some(from)
    else IndexOfFrom(s, p, from + 1)
  }

  /** String.prototype.indexOf(p): the first occurrence of p in s. */
  function IndexOf(s: string, p: string): Option<nat> {
    IndexOfFrom(s, p, 0)
  }

  /** String.prototype.includes(p). */
  predicate Includes(s: string, p: string) {
    IndexOf(s, p).Some?
  }

  /** includes holds exactly when p occurs somewhere in s; the empty string occurs
      in every string. */
  lemma IncludesIff(s: string, p: string)
    ensures Includes(s, p) <==> exists i :: OccursAt(s, p, i)
    ensures Includes(s, [])
  {
    assert OccursAt(s, [], 0);
  }

  /** String.prototype.replace(pattern, replacement) with a string pattern and a
      replacement without `$` patterns: the first occurrence only is replaced. */
  function ReplaceFirst(s: string, pattern: string, replacement: string): string {
    match IndexOf(s, pattern)
    case None => s
    case Some(i) => s[..i] + replacement + s[i + |pattern|..]
  }

  /** Replacing a prefix with the empty string strips it; a string without the
      pattern is returned unchanged. */
  lemma ReplaceFirstFacts(s: string, pattern: string)
    ensures |pattern| <= |s| && s[..|pattern|] == pattern ==>
      ReplaceFirst(s, pattern, []) == s[|pattern|..]
    ensures !Includes(s, pattern) ==> ReplaceFirst(s, pattern, []) == s
  {
    if |pattern| <= |s| && s[..|pattern|] == pattern {
      assert OccursAt(s, pattern, 0);
    }
  }
}
