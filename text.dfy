/**
 * String operations of Python's `str`/`bytes` that the plugin relies on:
 * `replace`, `in`, `startswith`, `strip`, `rstrip`, character classes of
 * its regular expressions, `os.path.basename`, and `%d`/`%x` formatting.
 * Text and bytes share one alphabet here (`string`).
 */
module Text {

  import opened WordChars

  /** Python's `str.isspace()` characters, which are also what `\s`,
      `strip()` and `rstrip()` treat as whitespace. */
  predicate IsSpace(c: char) {
    c == ' ' || ('\t' <= c <= '\r') || ('\U{1C}' <= c <= '\U{1F}')
    || c == '\U{85}' || c == '\U{A0}' || c == '\U{1680}'
    || ('\U{2000}' <= c <= '\U{200A}') || c == '\U{2028}' || c == '\U{2029}'
    || c == '\U{202F}' || c == '\U{205F}' || c == '\U{3000}'
  }

  /** The regular-expression class `\w` of a `str` pattern: a Unicode
      letter or digit (`str.isalnum()`) or `_`. */
  predicate IsWordChar(c: char) {
    if c < '\U{80}' then ('a' <= c <= 'z') || ('A' <= c <= 'Z') || ('0' <= c <= '9') || c == '_'
    else IsNonAsciiAlnum(c)
  }

  predicate StartsWith(s: string, prefix: string) {
    |prefix| <= |s| && s[..|prefix|] == prefix
  }

  /** `pat` occurs in `s` starting at index `i`. */
  predicate OccursAt(s: string, pat: string, i: nat) {
    i + |pat| <= |s| && s[i..i + |pat|] == pat
  }

  /** Python's `pat in s` for strings. */
  predicate Contains(s: string, pat: string) {
    exists i | 0 <= i <= |s| :: OccursAt(s, pat, i)
  }

  /** Python's `s.replace(pat, rep)`: every occurrence of `pat`, scanning
      left to right and never overlapping, is replaced by `rep`. */
  function Replace(s: string, pat: string, rep: string): string
    requires pat != []
    decreases |s|
  {
    if |s| < |pat| then s
    else if s[..|pat|] == pat then rep + Replace(s[|pat|..], pat, rep)
    else [s[0]] + Replace(s[1..], pat, rep)
  }

  /** The characters of `s` that are not in `cs`, in their order. */
  function Without(s: string, cs: set<char>): string {
    if s == [] then []
    else (if s[0] in cs then [] else [s[0]]) + Without(s[1..], cs)
  }

  lemma {:induction false} WithoutAppend(a: string, b: string, cs: set<char>)
    ensures Without(a + b, cs) == Without(a, cs) + Without(b, cs)
  {
    if a != [] {
      assert (a + b)[0] == a[0] && (a + b)[1..] == a[1..] + b;
      WithoutAppend(a[1..], b, cs);
      calc {
        Without(a + b, cs);
        (if a[0] in cs then [] else [a[0]]) + Without(a[1..] + b, cs);
        (if a[0] in cs then [] else [a[0]]) + (Without(a[1..], cs) + Without(b, cs));
        ((if a[0] in cs then [] else [a[0]]) + Without(a[1..], cs)) + Without(b, cs);
        Without(a, cs) + Without(b, cs);
      }
    } else {
      assert a + b == b;
    }
  }

  lemma {:induction false} WithoutExcludes(s: string, cs: set<char>)
    ensures forall i | 0 <= i < |Without(s, cs)| :: Without(s, cs)[i] !in cs
    ensures forall c | c in Without(s, cs) :: c !in cs && c in s
  {
    if s != [] {
      WithoutExcludes(s[1..], cs);
    }
  }

  lemma {:induction false} WithoutKeeps(s: string, cs: set<char>)
    requires forall i | 0 <= i < |s| :: s[i] !in cs
    ensures Without(s, cs) == s
  {
    if s != [] {
      WithoutKeeps(s[1..], cs);
    }
  }

  lemma {:induction false} WithoutTwice(s: string, cs: set<char>, ds: set<char>)
    ensures Without(Without(s, cs), ds) == Without(s, cs + ds)
  {
    if s != [] {
      WithoutTwice(s[1..], cs, ds);
      WithoutAppend(if s[0] in cs then [] else [s[0]], Without(s[1..], cs), ds);
    }
  }

  /** Replacing a one-character pattern by nothing removes that character. */
  lemma {:induction false} ReplaceCharByNothing(s: string, c: char)
    ensures Replace(s, [c], []) == Without(s, {c})
  {
    if s != [] {
      ReplaceCharByNothing(s[1..], c);
    }
  }

  /** `replace` leaves a string in which the pattern never occurs unchanged. */
  lemma {:induction false} ReplaceAbsent(s: string, pat: string, rep: string)
    requires pat != []
    requires forall i: nat | i <= |s| :: !OccursAt(s, pat, i)
    ensures Replace(s, pat, rep) == s
    decreases |s|
  {
    if |s| >= |pat| {
      assert !OccursAt(s, pat, 0);
      forall i: nat | i <= |s[1..]|
        ensures !OccursAt(s[1..], pat, i)
      {
        assert !OccursAt(s, pat, i + 1);
        if i + |pat| <= |s[1..]| {
          assert s[1..][i..i + |pat|] == s[i + 1..i + 1 + |pat|];
        }
      }
      ReplaceAbsent(s[1..], pat, rep);
    }
  }

  /** When the first occurrence of `pat` in `p + pat + s` is the one after
      `p`, `replace` keeps `p`, substitutes that occurrence and goes on with `s`. */
  lemma {:induction false} ReplaceFirst(p: string, pat: string, s: string, rep: string)
    requires pat != []
    requires forall i: nat | i < |p| :: !OccursAt(p + pat + s, pat, i)
    ensures Replace(p + pat + s, pat, rep) == p + rep + Replace(s, pat, rep)
    decreases |p|
  {
    var t := p + pat + s;
    if p == [] {
      assert t == pat + s;
      assert t[..|pat|] == pat;
      assert t[|pat|..] == s;
    } else {
      ReplaceFirstStep(p, pat, s);
      ReplaceFirst(p[1..], pat, s, rep);
      assert Replace(t, pat, rep) == [p[0]] + Replace(p[1..] + pat + s, pat, rep) by {
        assert !OccursAt(t, pat, 0);
        assert t[1..] == p[1..] + pat + s;
      }
      assert p == [p[0]] + p[1..];
    }
  }

  /** The hypothesis of `ReplaceFirst` holds of the text after its first character. */
  lemma ReplaceFirstStep(p: string, pat: string, s: string)
    requires p != []
    requires forall i: nat | i < |p| :: !OccursAt(p + pat + s, pat, i)
    ensures forall i: nat | i < |p[1..]| :: !OccursAt(p[1..] + pat + s, pat, i)
  {
    var t := p + pat + s;
    assert t[1..] == p[1..] + pat + s;
    forall i: nat | i < |p[1..]|
      ensures !OccursAt(p[1..] + pat + s, pat, i)
    {
      assert !OccursAt(t, pat, i + 1);
      assert t[1..][i..i + |pat|] == t[i + 1..i + 1 + |pat|];
    }
  }

  /** Python's `s.rstrip()`. */
  function RStrip(s: string): (r: string)
    ensures |r| <= |s|
  {
    if s == [] || !IsSpace(s[|s| - 1]) then s
    else RStrip(s[..|s| - 1])
  }

  /** `rstrip` removes exactly the trailing run of whitespace. */
  lemma {:induction false} RStripShape(s: string)
    ensures StartsWith(s, RStrip(s))
    ensures RStrip(s) == [] || !IsSpace(RStrip(s)[|RStrip(s)| - 1])
    ensures forall i | |RStrip(s)| <= i < |s| :: IsSpace(s[i])
  {
    if s != [] && IsSpace(s[|s| - 1]) {
      RStripShape(s[..|s| - 1]);
      assert s[..|s| - 1][..|RStrip(s)|] == s[..|RStrip(s)|];
    }
  }

  /** The leading run of whitespace of `s` has this length. */
  function LeadingSpaces(s: string): (n: nat)
    ensures n <= |s|
  {
    if s == [] || !IsSpace(s[0]) then 0 else 1 + LeadingSpaces(s[1..])
  }

  lemma {:induction false} LeadingSpacesShape(s: string)
    ensures forall i | 0 <= i < LeadingSpaces(s) :: IsSpace(s[i])
    ensures LeadingSpaces(s) == |s| || !IsSpace(s[LeadingSpaces(s)])
  {
    if s != [] && IsSpace(s[0]) {
      LeadingSpacesShape(s[1..]);
    }
  }

  /** Python's `s.strip()`. */
  function Strip(s: string): string {
    RStrip(s[LeadingSpaces(s)..])
  }

  /** Posix `os.path.basename`: the part after the last `/`. */
  function Basename(path: string): (name: string)
    ensures '/' !in name
    ensures |name| <= |path| && path[|path| - |name|..] == name
    ensures |name| == |path| || path[|path| - |name| - 1] == '/'
  {
    if path == [] || path[|path| - 1] == '/' then []
    else Basename(path[..|path| - 1]) + [path[|path| - 1]]
  }

  /** Posix `os.path.join(dir, name)` for a relative `name`. */
  function JoinPath(dir: string, name: string): string {
    if dir == [] || dir[|dir| - 1] == '/' then dir + name else dir + "/" + name
  }

  function DigitChar(d: nat): char
    requires d < 16
  {
    "0123456789abcdef"[d]
  }

  /** `%d` of a non-negative integer. */
  function Decimal(n: nat): (s: string)
    ensures s != []
  {
    if n < 10 then [DigitChar(n)] else Decimal(n / 10) + [DigitChar(n % 10)]
  }

  /** `%x` of a non-negative integer, lower-case and without leading zeros. */
  function Hex(n: nat): (s: string)
    ensures s != []
  {
    if n < 16 then [DigitChar(n)] else Hex(n / 16) + [DigitChar(n % 16)]
  }

  /** `%x` of any integer: Python writes a minus sign before the digits. */
  function SignedHex(n: int): string {
    if n < 0 then "-" + Hex(-n) else Hex(n)
  }
}
