/** The JavaScript string primitives the storefront leans on: `trim`,
    `toUpperCase`, `toLowerCase`, `includes` and the default `<` order that
    `Array.prototype.sort` uses on strings. Two helpers support the rest of
    the model: `TrimStart` is the leading-whitespace skip inside `parseInt`
    and `parseFloat`, and `JoinWith` states what splitting loses. */
module Text {

  /** ECMAScript's WhiteSpace and LineTerminator characters: what `trim`
      removes and what `parseInt`/`parseFloat` skip at the front. */
  predicate IsWhitespace(c: char) {
    || c == '\t' || c == '\n' || c == '\U{000B}' || c == '\U{000C}' || c == '\r'
    || c == ' ' || c == '\U{00A0}' || c == '\U{1680}'
    || ('\U{2000}' <= c <= '\U{200A}')
    || c == '\U{2028}' || c == '\U{2029}' || c == '\U{202F}' || c == '\U{205F}'
    || c == '\U{3000}' || c == '\U{FEFF}'
  }

  predicate IsBlank(s: string) {
    forall k :: 0 <= k < |s| ==> IsWhitespace(s[k])
  }

  /** Neither end of `s` is whitespace. */
  predicate IsTrimmed(s: string) {
    s == [] || (!IsWhitespace(s[0]) && !IsWhitespace(s[|s| - 1]))
  }

  /** Index of the first character at or after `from` that is not
      whitespace, or `|s|`. */
  function SkipBlank(s: string, from: nat): (i: nat)
    requires from <= |s|
    ensures from <= i <= |s|
    ensures forall k :: from <= k < i ==> IsWhitespace(s[k])
    ensures i == |s| || !IsWhitespace(s[i])
    decreases |s| - from
  {
    if from < |s| && IsWhitespace(s[from]) then SkipBlank(s, from + 1) else from
  }

  /** Index just past the last character before `to` that is not
      whitespace, or 0. */
  function BackBlank(s: string, to: nat): (e: nat)
    requires to <= |s|
    ensures e <= to
    ensures forall k :: e <= k < to ==> IsWhitespace(s[k])
    ensures e == 0 || !IsWhitespace(s[e - 1])
  {
    if to > 0 && IsWhitespace(s[to - 1]) then BackBlank(s, to - 1) else to
  }

  /** `String.prototype.trimStart`: drops the leading whitespace, keeps the rest. */
  function TrimStart(s: string): (r: string)
    ensures |r| <= |s| && r == s[|s| - |r|..]
    ensures forall k :: 0 <= k < |s| - |r| ==> IsWhitespace(s[k])
    ensures r == [] || !IsWhitespace(r[0])
  {
    s[SkipBlank(s, 0)..]
  }

  /** A string that does not start with whitespace is its own `trimStart`. */
  lemma TrimStartNoLead(s: string)
    requires s == [] || !IsWhitespace(s[0])
    ensures TrimStart(s) == s
  {
    assert SkipBlank(s, 0) == 0;
  }

  /** `r` is the slice of `s` starting at `i`, and everything around it is whitespace. */
  predicate IsCoreAt(s: string, r: string, i: nat) {
    && i + |r| <= |s| && r == s[i..i + |r|]
    && IsBlank(s[..i]) && IsBlank(s[i + |r|..])
  }

  /** `String.prototype.trim`: the slice of `s` with whitespace-only margins
      whose ends are not whitespace. */
  function Trim(s: string): (r: string)
    ensures IsTrimmed(r)
    ensures IsCoreAt(s, r, SkipBlank(s, 0))
    ensures r == [] <==> IsBlank(s)
  {
    var i := SkipBlank(s, 0);
    var e := BackBlank(s, |s|);
    TrimEnds(s);
    TrimMargins(s);
    if e <= i then [] else s[i..e]
  }

  /** Either the string is all whitespace or its first non-blank character
      comes before the end of its last one. */
  lemma TrimEnds(s: string)
    ensures IsBlank(s) <==> BackBlank(s, |s|) <= SkipBlank(s, 0)
    ensures IsBlank(s) ==> SkipBlank(s, 0) == |s|
  {
    var i := SkipBlank(s, 0);
    var e := BackBlank(s, |s|);
    if i < |s| {
      assert !IsWhitespace(s[i]);
      assert i < e;
    }
  }

  lemma TrimMargins(s: string)
    ensures IsBlank(s[..SkipBlank(s, 0)])
    ensures IsBlank(s[BackBlank(s, |s|)..])
  {
    var i := SkipBlank(s, 0);
    var e := BackBlank(s, |s|);
    forall k | 0 <= k < i
      ensures IsWhitespace(s[..i][k])
    {
    }
    var u := s[e..];
    forall k | 0 <= k < |u|
      ensures IsWhitespace(u[k])
    {
      assert u[k] == s[e + k];
    }
  }

  /** A string without whitespace at either end is its own trim. */
  lemma TrimTrimmed(s: string)
    requires IsTrimmed(s)
    ensures Trim(s) == s
  {
    if s != [] {
      assert SkipBlank(s, 0) == 0;
      assert BackBlank(s, |s|) == |s|;
    }
  }

  /** Trimming twice is trimming once. */
  lemma TrimIdempotent(s: string)
    ensures Trim(Trim(s)) == Trim(s)
  {
    TrimTrimmed(Trim(s));
  }

  /** `toUpperCase` on one character: ASCII and Latin-1 letters. */
  function UpperChar(c: char): char {
    if 'a' <= c <= 'z' then (c as int - 32) as char
    else if '\U{00E0}' <= c <= '\U{00FE}' && c != '\U{00F7}' then (c as int - 32) as char
    else if c == '\U{00FF}' then '\U{0178}'
    else if c == '\U{00B5}' then '\U{039C}'
    else c
  }

  /** `toLowerCase` on one character: ASCII and Latin-1 letters. */
  function LowerChar(c: char): char {
    if 'A' <= c <= 'Z' then (c as int + 32) as char
    else if '\U{00C0}' <= c <= '\U{00DE}' && c != '\U{00D7}' then (c as int + 32) as char
    else if c == '\U{0178}' then '\U{00FF}'
    else c
  }

  /** `toUpperCase`: character by character, so the length is kept; no
      ASCII lower-case letter survives and every other ASCII character is
      kept. */
  function Upper(s: string): (r: string)
    ensures |r| == |s|
    ensures forall k :: 0 <= k < |r| ==> !('a' <= r[k] <= 'z')
    ensures forall k :: 0 <= k < |s| && 'a' <= s[k] <= 'z' ==> r[k] as int == s[k] as int - 32
    ensures forall k :: 0 <= k < |s| && s[k] as int < 128 && !('a' <= s[k] <= 'z') ==> r[k] == s[k]
  {
    seq(|s|, k requires 0 <= k < |s| => UpperChar(s[k]))
  }

  /** `toLowerCase`, the mirror image of `Upper`. */
  function Lower(s: string): (r: string)
    ensures |r| == |s|
    ensures forall k :: 0 <= k < |r| ==> !('A' <= r[k] <= 'Z')
    ensures forall k :: 0 <= k < |s| && 'A' <= s[k] <= 'Z' ==> r[k] as int == s[k] as int + 32
    ensures forall k :: 0 <= k < |s| && s[k] as int < 128 && !('A' <= s[k] <= 'Z') ==> r[k] == s[k]
  {
    seq(|s|, k requires 0 <= k < |s| => LowerChar(s[k]))
  }

  /** A string `toUpperCase` leaves as it is. */
  predicate IsUpper(s: string) {
    forall k :: 0 <= k < |s| ==> UpperChar(s[k]) == s[k]
  }

  /** Upper-casing is idempotent: its result is already upper case. */
  lemma UpperIsUpper(s: string)
    ensures IsUpper(Upper(s))
    ensures Upper(Upper(s)) == Upper(s)
  {
    assert forall k :: 0 <= k < |s| ==> UpperChar(UpperChar(s[k])) == UpperChar(s[k]);
  }

  /** `n` occurs in `h` at offset `i`. */
  predicate OccursAt(h: string, n: string, i: int) {
    0 <= i <= |h| - |n| && h[i..i + |n|] == n
  }

  /** `String.prototype.includes`: `n` occurs in `h` at some offset. */
  function Contains(h: string, n: string): (r: bool)
    ensures r <==> exists i :: OccursAt(h, n, i)
    decreases |h|
  {
    if |n| > |h| then false
    else if n <= h then
      assert OccursAt(h, n, 0);
      true
    else
      ContainsStep(h, n);
      Contains(h[1..], n)
  }

  /** An occurrence of `n` in `h` that is not at offset 0 is an occurrence in `h[1..]`. */
  lemma ContainsStep(h: string, n: string)
    requires |n| <= |h| && !(n <= h)
    ensures (exists i :: OccursAt(h, n, i)) <==> (exists i :: OccursAt(h[1..], n, i))
  {
    if i :| OccursAt(h, n, i) {
      assert h[1..][i - 1..i - 1 + |n|] == n;
      assert OccursAt(h[1..], n, i - 1);
    }
    if i :| OccursAt(h[1..], n, i) {
      assert h[i + 1..i + 1 + |n|] == n;
      assert OccursAt(h, n, i + 1);
    }
  }

  /** JavaScript's `<` on strings (and the default `sort` order): the first
      differing character decides, and a proper prefix comes first. */
  predicate Less(a: string, b: string) {
    if |a| == 0 then |b| > 0
    else if |b| == 0 then false
    else if a[0] != b[0] then a[0] < b[0]
    else Less(a[1..], b[1..])
  }

  lemma {:induction false} LessIrreflexive(a: string)
    ensures !Less(a, a)
  {
    if |a| > 0 { LessIrreflexive(a[1..]); }
  }

  lemma {:induction false} LessTransitive(a: string, b: string, c: string)
    requires Less(a, b) && Less(b, c)
    ensures Less(a, c)
  {
    if |a| > 0 && |b| > 0 && |c| > 0 && a[0] == b[0] && b[0] == c[0] {
      LessTransitive(a[1..], b[1..], c[1..]);
    }
  }

  /** Any two different strings are ordered one way or the other. */
  lemma {:induction false} LessTotal(a: string, b: string)
    requires a != b
    ensures Less(a, b) || Less(b, a)
  {
    if |a| > 0 && |b| > 0 && a[0] == b[0] {
      assert a == [a[0]] + a[1..] && b == [b[0]] + b[1..];
      LessTotal(a[1..], b[1..]);
    }
  }

  /** `parts.join(sep)`. */
  function JoinWith(parts: seq<string>, sep: char): string {
    if |parts| == 0 then []
    else if |parts| == 1 then parts[0]
    else JoinWith(parts[..|parts| - 1], sep) + [sep] + parts[|parts| - 1]
  }
}
