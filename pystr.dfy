/**
 * The parts of Python's `str` type that the application relies on, over Dafny
 * strings (sequences of Unicode scalar values): `isspace`, `strip`,
 * `splitlines`, `join`, `startswith`/`endswith`, `index`/`rindex`/`rfind`,
 * `replace` of one character, comparisons after `upper()`/`lower()`, and the
 * decimal rendering of a natural number.
 */
module PyStr {

  // ---------------------------------------------------------------------------
  // Character classes
  // ---------------------------------------------------------------------------

  /** `c.isspace()`: bidirectional classes WS, B and S plus category Zs. */
  predicate IsSpace(c: char) {
    || ('\t' <= c <= '\r')
    || ('\U{1C}' <= c <= ' ')
    || c == '\U{85}' || c == '\U{A0}' || c == '\U{1680}'
    || ('\U{2000}' <= c <= '\U{200A}')
    || c == '\U{2028}' || c == '\U{2029}' || c == '\U{202F}' || c == '\U{205F}' || c == '\U{3000}'
  }

  /** The line boundaries `str.splitlines()` splits on (`\r\n` counts as one). */
  predicate IsLineBreak(c: char) {
    || ('\n' <= c <= '\r')
    || ('\U{1C}' <= c <= '\U{1E}')
    || c == '\U{85}' || c == '\U{2028}' || c == '\U{2029}'
  }

  predicate IsDigit(c: char) {
    '0' <= c <= '9'
  }

  predicate AllDigits(s: string) {
    forall i :: 0 <= i < |s| ==> IsDigit(s[i])
  }

  // ---------------------------------------------------------------------------
  // Substrings
  // ---------------------------------------------------------------------------

  /** `r in s` for strings: `r` occurs contiguously in `s`. */
  ghost predicate IsInfix(r: string, s: string) {
    exists i | 0 <= i <= |s| :: r <= s[i..]
  }

  lemma InfixOfConcat(a: string, b: string, c: string)
    ensures IsInfix(b, a + b + c)
  {
    assert b <= (a + b + c)[|a|..];
  }

  lemma InfixOfSuffix(a: string, b: string)
    ensures IsInfix(b, a + b)
  {
    assert b <= (a + b)[|a|..];
  }

  lemma InfixOfPrefix(a: string, b: string)
    ensures IsInfix(a, a + b)
  {
    assert a <= (a + b)[0..];
  }

  lemma InfixOfSlice(r: string, s: string, i: nat, j: nat)
    requires i <= j <= |s| && r == s[i..j]
    ensures IsInfix(r, s)
  {
    assert r <= s[i..];
  }

  /** What occurs in a tail of `t` occurs in `t`. */
  lemma InfixOfTail(r: string, t: string, n: nat)
    requires n <= |t| && IsInfix(r, t[n..])
    ensures IsInfix(r, t)
  {
    var i :| 0 <= i <= |t[n..]| && r <= t[n..][i..];
    assert t[n..][i..] == t[n + i..];
  }

  /** Containment of substrings is transitive. */
  lemma InfixTrans(r: string, s: string, t: string)
    requires IsInfix(r, s) && IsInfix(s, t)
    ensures IsInfix(r, t)
  {
    var i :| 0 <= i <= |s| && r <= s[i..];
    var j :| 0 <= j <= |t| && s <= t[j..];
    assert r <= t[j + i..] by {
      forall k | 0 <= k < |r| ensures r[k] == t[j + i + k] {
        assert r[k] == s[i + k];
        assert s[i + k] == t[j..][i + k];
      }
    }
  }

  predicate StartsWith(s: string, prefix: string) {
    prefix <= s
  }

  predicate EndsWith(s: string, suffix: string) {
    |suffix| <= |s| && s[|s| - |suffix|..] == suffix
  }

  /** `s.index(c)`: the position of the first `c`. */
  function IndexOf(s: string, c: char): (k: nat)
    requires c in s
    ensures k < |s| && s[k] == c
    ensures c !in s[..k]
  {
    if s[0] == c then 0 else 1 + IndexOf(s[1..], c)
  }

  /** `s.rindex(c)`: the position of the last `c`. */
  function LastIndexOf(s: string, c: char): (k: nat)
    requires c in s
    ensures k < |s| && s[k] == c
    ensures c !in s[k + 1..]
  {
    if s[|s| - 1] == c then |s| - 1
    else
      assert c in s[..|s| - 1] by {
        var i :| 0 <= i < |s| && s[i] == c;
        assert s[..|s| - 1][i] == c;
      }
      LastIndexOf(s[..|s| - 1], c)
  }

  /** The first `c` is at `k` when `s[k]` is `c` and no `c` comes before it. */
  lemma {:induction false} IndexOfAt(s: string, c: char, k: nat)
    requires k < |s| && s[k] == c && c !in s[..k]
    ensures IndexOf(s, c) == k
  {
    if k > 0 {
      assert s[0] == s[..k][0];
      assert s[1..][..k - 1] == s[1..k];
      assert forall x :: x in s[1..k] ==> x in s[..k];
      IndexOfAt(s[1..], c, k - 1);
    }
  }

  /** The last `c` is at `k` when `s[k]` is `c` and no `c` comes after it. */
  lemma {:induction false} LastIndexOfAt(s: string, c: char, k: nat)
    requires k < |s| && s[k] == c && c !in s[k + 1..]
    ensures LastIndexOf(s, c) == k
    decreases |s|
  {
    if k < |s| - 1 {
      assert s[|s| - 1] == s[k + 1..][|s| - 2 - k];
      var s' := s[..|s| - 1];
      assert s'[k + 1..] == s[k + 1..|s| - 1];
      LastIndexOfAt(s', c, k);
    }
  }

  /** `s.rfind(c)`: the position of the last `c`, or -1 when there is none. */
  function RFind(s: string, c: char): (k: int)
    ensures -1 <= k < |s|
    ensures k == -1 <==> c !in s
    ensures k >= 0 ==> s[k] == c && c !in s[k + 1..]
  {
    if c in s then LastIndexOf(s, c) else -1
  }

  /** `s.replace(old, new)` for single characters. */
  function ReplaceChar(s: string, from: char, to: char): (r: string)
    ensures |r| == |s|
    ensures forall i :: 0 <= i < |s| ==> r[i] == if s[i] == from then to else s[i]
  {
    seq(|s|, i requires 0 <= i < |s| => if s[i] == from then to else s[i])
  }

  // ---------------------------------------------------------------------------
  // strip
  // ---------------------------------------------------------------------------

  /** The number of whitespace characters at the start of `s`. */
  function LeadingSpaces(s: string): (k: nat)
    ensures k <= |s|
    ensures forall i :: 0 <= i < k ==> IsSpace(s[i])
    ensures k < |s| ==> !IsSpace(s[k])
  {
    if s != [] && IsSpace(s[0]) then 1 + LeadingSpaces(s[1..]) else 0
  }

  /** The number of whitespace characters at the end of `s`. */
  function TrailingSpaces(s: string): (k: nat)
    ensures k <= |s|
    ensures forall i :: |s| - k <= i < |s| ==> IsSpace(s[i])
    ensures k < |s| ==> !IsSpace(s[|s| - 1 - k])
  {
    if s != [] && IsSpace(s[|s| - 1]) then 1 + TrailingSpaces(s[..|s| - 1]) else 0
  }

  /**
   * `s.strip()`: the slice of `s` that remains once every leading and trailing
   * whitespace character is dropped.
   */
  function Strip(s: string): (r: string)
    ensures LeadingSpaces(s) + |r| <= |s|
    ensures r == s[LeadingSpaces(s)..LeadingSpaces(s) + |r|]
    ensures r == [] || (!IsSpace(r[0]) && !IsSpace(r[|r| - 1]))
  {
    var t := s[LeadingSpaces(s)..];
    t[..|t| - TrailingSpaces(t)]
  }

  /** Everything `strip()` drops is whitespace. */
  lemma StripDropsSpaces(s: string)
    ensures forall i :: 0 <= i < LeadingSpaces(s) ==> IsSpace(s[i])
    ensures forall i :: LeadingSpaces(s) + |Strip(s)| <= i < |s| ==> IsSpace(s[i])
  {
    var k := LeadingSpaces(s);
    var t := s[k..];
    var n := |t| - TrailingSpaces(t);
    assert |Strip(s)| == n;
    forall i | k + n <= i < |s| ensures IsSpace(s[i]) {
      assert s[i] == t[i - k];
    }
  }

  /** `strip(s)` occurs in `s`. */
  lemma StripInfix(s: string)
    ensures IsInfix(Strip(s), s)
  {
    InfixOfSlice(Strip(s), s, LeadingSpaces(s), LeadingSpaces(s) + |Strip(s)|);
  }

  /**
   * Stripping a slice `x[lo..hi]` that holds non-space characters at `p` and
   * `q - 1` gives a slice of `x` that still spans `[p, q)`.
   */
  lemma StripSpan(x: string, lo: nat, hi: nat, p: nat, q: nat) returns (lo': nat, hi': nat)
    requires lo <= p < q <= hi <= |x|
    requires !IsSpace(x[p]) && !IsSpace(x[q - 1])
    ensures lo <= lo' <= p && q <= hi' <= hi
    ensures Strip(x[lo..hi]) == x[lo'..hi']
  {
    var k, m := StripWithin(x, lo, hi, p, q);
    lo', hi' := lo + k, lo + m;
  }

  lemma SliceOfSlice(x: string, lo: nat, hi: nat, k: nat, m: nat)
    requires lo <= hi <= |x| && k <= m <= hi - lo
    ensures x[lo..hi][k..m] == x[lo + k..lo + m]
  {
    var a, b := x[lo..hi][k..m], x[lo + k..lo + m];
    forall i | 0 <= i < m - k ensures a[i] == b[i] {
      assert a[i] == x[lo..hi][k + i];
    }
  }

  /** Stripping `x[lo..hi]` gives exactly `x[p..q]` when only white space surrounds that span. */
  lemma StripExact(x: string, lo: nat, hi: nat, p: nat, q: nat)
    requires lo <= p < q <= hi <= |x|
    requires !IsSpace(x[p]) && !IsSpace(x[q - 1])
    requires forall i :: lo <= i < p ==> IsSpace(x[i])
    requires forall i :: q <= i < hi ==> IsSpace(x[i])
    ensures Strip(x[lo..hi]) == x[p..q]
  {
    var lo', hi' := StripSpan(x, lo, hi, p, q);
    var r := Strip(x[lo..hi]);
    assert r[0] == x[lo'] && r[|r| - 1] == x[hi' - 1];
  }

  /** White space on both sides of `b` is exactly what `strip()` removes. */
  lemma StripPadded(a: string, b: string, c: string)
    requires forall i :: 0 <= i < |a| ==> IsSpace(a[i])
    requires forall i :: 0 <= i < |c| ==> IsSpace(c[i])
    requires b != [] && !IsSpace(b[0]) && !IsSpace(b[|b| - 1])
    ensures Strip(a + b + c) == b
  {
    var x := a + b + c;
    var p, q := |a|, |a| + |b|;
    forall i | 0 <= i < p ensures IsSpace(x[i]) {
      assert x[i] == a[i];
    }
    forall i | q <= i < |x| ensures IsSpace(x[i]) {
      assert x[i] == c[i - q];
    }
    assert x[p] == b[0] && x[q - 1] == b[|b| - 1];
    assert x[0..|x|] == x;
    StripExact(x, 0, |x|, p, q);
    assert x[p..q] == b;
  }

  /** A string that neither starts nor ends with white space is its own `strip()`. */
  lemma StripUnpadded(x: string)
    requires x != [] && !IsSpace(x[0]) && !IsSpace(x[|x| - 1])
    ensures Strip(x) == x
  {
    assert x[0..|x|] == x;
    StripExact(x, 0, |x|, 0, |x|);
  }

  /** Dropping a prefix by its length leaves the rest. */
  lemma DropPrefix(a: string, u: string)
    ensures (a + u)[|a|..] == u
  {
  }

  /** Stripping `x[lo..hi]` keeps `x[p..q]` when its first and last characters are not spaces. */
  lemma StripWithin(x: string, lo: nat, hi: nat, p: nat, q: nat) returns (k: nat, m: nat)
    requires lo <= p < q <= hi <= |x|
    requires !IsSpace(x[p]) && !IsSpace(x[q - 1])
    ensures k <= p - lo && q - lo <= m <= hi - lo
    ensures Strip(x[lo..hi]) == x[lo + k..lo + m]
  {
    var t := x[lo..hi];
    assert t[p - lo] == x[p];
    assert t[q - 1 - lo] == x[q - 1];
    k, m := StripBounds(t, p - lo, q - lo);
    SliceOfSlice(x, lo, hi, k, m);
  }

  /** Stripping `t` keeps the span `[a, b)` when its first and last characters are not spaces. */
  lemma StripBounds(t: string, a: nat, b: nat) returns (k: nat, m: nat)
    requires a < b <= |t| && !IsSpace(t[a]) && !IsSpace(t[b - 1])
    ensures k <= a && b <= m <= |t| && Strip(t) == t[k..m]
  {
    StripKeeps(t, a);
    StripKeeps(t, b - 1);
    k := LeadingSpaces(t);
    m := k + |Strip(t)|;
  }

  /** A string with no whitespace at either end is its own `strip()`. */
  lemma StripTrimmed(s: string)
    requires s == [] || (!IsSpace(s[0]) && !IsSpace(s[|s| - 1]))
    ensures Strip(s) == s
  {
    var r := Strip(s);
    assert |r| == |s| by {
      assert s != [] ==> LeadingSpaces(s) + |r| > |s| - 1;
    }
  }

  /** `strip()` is idempotent. */
  lemma StripIdempotent(s: string)
    ensures Strip(Strip(s)) == Strip(s)
  {
    StripTrimmed(Strip(s));
  }

  /** `strip()` keeps a character of `s` only if it lies between the first and last non-space. */
  lemma StripKeeps(s: string, k: nat)
    requires k < |s| && !IsSpace(s[k])
    ensures LeadingSpaces(s) <= k < LeadingSpaces(s) + |Strip(s)|
  {
    StripDropsSpaces(s);
  }

  /** Every character of `strip(s)` occurs in `s`. */
  lemma StripChars(s: string, p: char -> bool)
    requires forall i :: 0 <= i < |s| ==> p(s[i])
    ensures forall i :: 0 <= i < |Strip(s)| ==> p(Strip(s)[i])
  {
    var r := Strip(s);
    var k := LeadingSpaces(s);
    forall i | 0 <= i < |r| ensures p(r[i]) {
      assert r[i] == s[k + i];
    }
  }

  // ---------------------------------------------------------------------------
  // join
  // ---------------------------------------------------------------------------

  /** `sep.join(parts)`. */
  function Join(sep: string, parts: seq<string>): string
  {
    if |parts| == 0 then ""
    else if |parts| == 1 then parts[0]
    else parts[0] + sep + Join(sep, parts[1..])
  }

  /** Joining one more part appends the separator and that part. */
  lemma {:induction false} JoinAppend(sep: string, parts: seq<string>, last: string)
    requires parts != []
    ensures Join(sep, parts + [last]) == Join(sep, parts) + sep + last
  {
    if |parts| == 1 {
      assert parts + [last] == [parts[0], last];
      assert ([parts[0], last])[1..] == [last];
    } else {
      assert (parts + [last])[1..] == parts[1..] + [last];
      JoinAppend(sep, parts[1..], last);
    }
  }

  /** Every part occurs in the joined string. */
  lemma {:induction false} JoinPartInfix(sep: string, parts: seq<string>, k: nat)
    requires k < |parts|
    ensures IsInfix(parts[k], Join(sep, parts))
  {
    if |parts| == 1 {
      InfixOfSlice(parts[0], parts[0], 0, |parts[0]|);
    } else if k == 0 {
      InfixOfPrefix(parts[0], sep + Join(sep, parts[1..]));
      assert parts[0] + (sep + Join(sep, parts[1..])) == Join(sep, parts);
    } else {
      JoinPartInfix(sep, parts[1..], k - 1);
      assert parts[1..][k - 1] == parts[k];
      InfixOfSuffix(parts[0] + sep, Join(sep, parts[1..]));
      InfixTrans(parts[k], Join(sep, parts[1..]), Join(sep, parts));
    }
  }

  /** A character property shared by the separator and every part holds of the joined string. */
  lemma {:induction false} JoinChars(sep: string, parts: seq<string>, p: char -> bool)
    requires forall i :: 0 <= i < |sep| ==> p(sep[i])
    requires forall k, i :: 0 <= k < |parts| && 0 <= i < |parts[k]| ==> p(parts[k][i])
    ensures forall i :: 0 <= i < |Join(sep, parts)| ==> p(Join(sep, parts)[i])
  {
    if |parts| > 1 {
      JoinChars(sep, parts[1..], p);
      var rest := Join(sep, parts[1..]);
      var r := parts[0] + sep + rest;
      forall i | 0 <= i < |r| ensures p(r[i]) {
        if i < |parts[0]| {
          assert r[i] == parts[0][i];
        } else if i < |parts[0]| + |sep| {
          assert r[i] == sep[i - |parts[0]|];
        } else {
          assert r[i] == rest[i - |parts[0]| - |sep|];
        }
      }
    } else if |parts| == 1 {
      assert Join(sep, parts) == parts[0];
    }
  }

  // ---------------------------------------------------------------------------
  // splitlines
  // ---------------------------------------------------------------------------

  /** The position of the first line boundary in `s`, or `|s|` when there is none. */
  function LineEnd(s: string): (k: nat)
    ensures k <= |s|
    ensures forall i :: 0 <= i < k ==> !IsLineBreak(s[i])
    ensures k < |s| ==> IsLineBreak(s[k])
  {
    if s == [] || IsLineBreak(s[0]) then 0 else 1 + LineEnd(s[1..])
  }

  /** No character of `s` is a line boundary. */
  predicate SingleLine(s: string) {
    forall i :: 0 <= i < |s| ==> !IsLineBreak(s[i])
  }

  /** A string with no line boundary runs to its end. */
  lemma {:induction false} LineEndOfSingle(s: string)
    requires SingleLine(s)
    ensures LineEnd(s) == |s|
  {
    if s != [] {
      assert SingleLine(s[1..]);
      LineEndOfSingle(s[1..]);
    }
  }

  /**
   * `s.splitlines()`: the lines of `s` without their boundaries; a trailing
   * boundary does not open an empty last line, and `""` has no lines.
   */
  function SplitLines(s: string): (lines: seq<string>)
    ensures forall k :: 0 <= k < |lines| ==> SingleLine(lines[k])
    ensures |lines| <= |s|
    ensures s != [] ==> lines != []
    decreases |s|
  {
    if s == [] then []
    else
      var k := LineEnd(s);
      if k == |s| then [s]
      else
        var next := if s[k] == '\r' && k + 1 < |s| && s[k + 1] == '\n' then k + 2 else k + 1;
        [s[..k]] + SplitLines(s[next..])
  }

  /** A line followed by `\n` is split off as the first line. */
  lemma SplitLinesCons(line: string, rest: string)
    requires SingleLine(line)
    ensures SplitLines(line + "\n" + rest) == [line] + SplitLines(rest)
  {
    var s := line + "\n" + rest;
    assert s[|line|] == '\n';
    forall i | 0 <= i < |line| ensures !IsLineBreak(s[i]) {
      assert s[i] == line[i];
    }
    assert LineEnd(s) == |line|;
    assert s[..|line|] == line;
    assert s[|line| + 1..] == rest;
  }

  /** `splitlines` undoes `"\n".join` of single lines whose last line is not empty. */
  lemma {:induction false} SplitLinesJoin(lines: seq<string>)
    requires lines != [] && lines[|lines| - 1] != ""
    requires forall k :: 0 <= k < |lines| ==> SingleLine(lines[k])
    ensures SplitLines(Join("\n", lines)) == lines
  {
    if |lines| == 1 {
      assert Join("\n", lines) == lines[0];
    } else {
      SplitLinesJoin(lines[1..]);
      assert Join("\n", lines) == lines[0] + "\n" + Join("\n", lines[1..]);
      SplitLinesCons(lines[0], Join("\n", lines[1..]));
    }
  }

  // ---------------------------------------------------------------------------
  // Case-insensitive comparisons
  // ---------------------------------------------------------------------------

  /**
   * `c.upper() == [t]` for an ASCII upper-case letter `t`: its lower-case form,
   * and the dotless i and the long s, which Python upper-cases to `I` and `S`.
   */
  predicate UpperIs(c: char, t: char)
    requires 'A' <= t <= 'Z'
  {
    || c == t
    || c as int == t as int + 32
    || (t == 'I' && c == '\U{131}')
    || (t == 'S' && c == '\U{17F}')
  }

  /** `c.lower() == [t]` for an ASCII lower-case letter `t` (the Kelvin sign lowers to `k`). */
  predicate LowerIs(c: char, t: char)
    requires 'a' <= t <= 'z'
  {
    || c == t
    || c as int == t as int - 32
    || (t == 'k' && c == '\U{212A}')
  }

  predicate UpperLetters(t: string) {
    forall i :: 0 <= i < |t| ==> 'A' <= t[i] <= 'Z'
  }

  predicate LowerLetters(t: string) {
    forall i :: 0 <= i < |t| ==> 'a' <= t[i] <= 'z'
  }

  /**
   * `s.upper() == t` for a target of ASCII upper-case letters that holds none
   * of the pairs `SS`, `FF`, `FI`, `FL`, `ST` (which some single characters
   * upper-case to).
   */
  predicate UpperEquals(s: string, t: string)
    requires UpperLetters(t)
  {
    |s| == |t| && forall i :: 0 <= i < |s| ==> UpperIs(s[i], t[i])
  }

  /** `s.lower() == t` for a target of ASCII lower-case letters. */
  predicate LowerEquals(s: string, t: string)
    requires LowerLetters(t)
  {
    |s| == |t| && forall i :: 0 <= i < |s| ==> LowerIs(s[i], t[i])
  }

  // ---------------------------------------------------------------------------
  // Numbers
  // ---------------------------------------------------------------------------

  function DigitChar(d: nat): (c: char)
    requires d < 10
    ensures IsDigit(c) && c as int - '0' as int == d
  {
    ('0' as int + d) as char
  }

  /** `str(n)` for a natural number: its decimal digits, without leading zeros. */
  function NatToString(n: nat): (s: string)
    ensures s != [] && AllDigits(s)
    ensures s[0] == '0' ==> n == 0
  {
    if n < 10 then [DigitChar(n)] else NatToString(n / 10) + [DigitChar(n % 10)]
  }

  lemma DigitsConcat(a: string, b: string)
    requires AllDigits(a) && AllDigits(b)
    ensures AllDigits(a + b)
  {
    forall i | 0 <= i < |a + b| ensures IsDigit((a + b)[i]) {
      if i < |a| { assert (a + b)[i] == a[i]; } else { assert (a + b)[i] == b[i - |a|]; }
    }
  }

  /** `int(s)` for a string of decimal digits. */
  function DigitsValue(s: string): nat
    requires AllDigits(s)
  {
    if s == [] then 0 else 10 * DigitsValue(s[..|s| - 1]) + (s[|s| - 1] as int - '0' as int)
  }

  /** Reading back the rendering of `n` gives `n`. */
  lemma {:induction false} NatToStringRoundTrip(n: nat)
    ensures DigitsValue(NatToString(n)) == n
  {
    if n >= 10 {
      NatToStringRoundTrip(n / 10);
      var s := NatToString(n);
      assert s[..|s| - 1] == NatToString(n / 10);
    }
  }

  function Pow10(w: nat): (p: nat)
    ensures p >= 1
  {
    if w == 0 then 1 else 10 * Pow10(w - 1)
  }

  /** A number below `10^w` has at most `w` digits. */
  lemma {:induction false} NatToStringWidth(n: nat, w: nat)
    requires w >= 1 && n < Pow10(w)
    ensures |NatToString(n)| <= w
  {
    if n >= 10 {
      assert w >= 2;
      NatToStringWidth(n / 10, w - 1);
    }
  }

  /** `n` rendered with at least `w` digits, padded with zeros on the left (`%02d`). */
  function ZeroPad(n: nat, w: nat): (s: string)
    ensures AllDigits(s)
    ensures |s| == if |NatToString(n)| < w then w else |NatToString(n)|
  {
    var digits := NatToString(n);
    if |digits| < w then seq(w - |digits|, _ => '0') + digits else digits
  }
}
