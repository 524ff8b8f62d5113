/**
 * The JavaScript string built-ins the dashboard script relies on, over `string` (a
 * sequence of Unicode scalar values): `trim`, `split` on one character, `join`,
 * `includes`, `startsWith`, `toLowerCase` (ASCII letters), `indexOf`/`lastIndexOf` of
 * one character, and the decimal rendering of a non-negative number in a template
 * literal. Each comes with the property that pins down what it computes.
 */
module Text {

  /** The code points `String.prototype.trim` removes: ECMAScript WhiteSpace and LineTerminator. */
  predicate IsSpace(c: char) {
    || c == '\t' || c == '\n' || c == '\U{0B}' || c == '\U{0C}' || c == '\r' || c == ' '
    || c == '\U{A0}' || c == '\U{1680}' || ('\U{2000}' <= c <= '\U{200A}')
    || c == '\U{2028}' || c == '\U{2029}' || c == '\U{202F}' || c == '\U{205F}'
    || c == '\U{3000}' || c == '\U{FEFF}'
  }

  /** Every character of `s` is white space (the empty string included). */
  predicate IsBlank(s: string) {
    forall i :: 0 <= i < |s| ==> IsSpace(s[i])
  }

  /** `s` with its leading white space removed: a suffix of `s`. */
  function TrimStart(s: string): (r: string)
    ensures |r| <= |s| && r == s[|s| - |r|..]
    ensures IsBlank(s[..|s| - |r|])
    ensures r != [] ==> !IsSpace(r[0])
  {
    if |s| > 0 && IsSpace(s[0]) then TrimStart(s[1..]) else s
  }

  /** `s` with its trailing white space removed: a prefix of `s`. */
  function TrimEnd(s: string): (r: string)
    ensures |r| <= |s| && r == s[..|r|]
    ensures IsBlank(s[|r|..])
    ensures r != [] ==> !IsSpace(r[|r| - 1])
  {
    if |s| > 0 && IsSpace(s[|s| - 1]) then TrimEnd(s[..|s| - 1]) else s
  }

  /** `s.trim()`: empty exactly when `s` is all white space, and never starting or ending with it. */
  function Trim(s: string): (r: string)
    ensures r != [] ==> !IsSpace(r[0]) && !IsSpace(r[|r| - 1])
    ensures r == [] <==> IsBlank(s)
  {
    var t := TrimStart(s);
    var r := TrimEnd(t);
    assert r == [] ==> IsBlank(s) by {
      if r == [] {
        assert s == s[..|s| - |t|] + t;
        assert t == t[|r|..];
      }
    }
    r
  }

  /** What `trim` keeps is the middle slice of `s`, with only white space cut off around it. */
  lemma TrimIsMiddleSlice(s: string)
    ensures exists i, j :: 0 <= i <= j <= |s| && Trim(s) == s[i..j] && IsBlank(s[..i]) && IsBlank(s[j..])
  {
    var t := TrimStart(s);
    var r := TrimEnd(t);
    var i := |s| - |t|;
    assert r == s[i..i + |r|];
    assert s[i + |r|..] == t[|r|..];
  }

  /** `parts.join(sep)`. */
  function Join(parts: seq<string>, sep: string): string {
    if |parts| == 0 then ""
    else if |parts| == 1 then parts[0]
    else parts[0] + sep + Join(parts[1..], sep)
  }

  /**
   * `s.split(sep)` for a one-character separator: the pieces between separators, empty
   * pieces included, so that joining them back gives `s`.
   */
  function Split(s: string, sep: char): (parts: seq<string>)
    ensures |parts| > 0
    ensures forall i :: 0 <= i < |parts| ==> sep !in parts[i]
    ensures Join(parts, [sep]) == s
  {
    if |s| == 0 then [""]
    else
      var rest := Split(s[1..], sep);
      if s[0] == sep then
        JoinCons("", rest, [sep]);
        [""] + rest
      else
        JoinPrepend(s[0], rest, [sep]);
        [[s[0]] + rest[0]] + rest[1..]
  }

  /** Joining a list with a new first element. */
  lemma JoinCons(x: string, rest: seq<string>, sep: string)
    requires |rest| > 0
    ensures Join([x] + rest, sep) == x + sep + Join(rest, sep)
  {
    assert ([x] + rest)[1..] == rest;
  }

  /** Joining a list whose first element has gained a first character. */
  lemma JoinPrepend(c: char, rest: seq<string>, sep: string)
    requires |rest| > 0
    ensures Join([[c] + rest[0]] + rest[1..], sep) == [c] + Join(rest, sep)
  {
    var parts := [[c] + rest[0]] + rest[1..];
    if |rest| > 1 {
      assert parts[1..] == rest[1..];
    }
  }

  /** A piece without a separator splits into itself. */
  lemma {:induction false} SplitSeparatorFree(w: string, sep: char)
    requires sep !in w
    ensures Split(w, sep) == [w]
  {
    if |w| > 0 {
      SplitSeparatorFree(w[1..], sep);
      assert [w[0]] + w[1..] == w;
    }
  }

  /** Splitting peels off a separator-free first piece. */
  lemma {:induction false} SplitAfterPiece(w: string, sep: char, t: string)
    requires sep !in w
    ensures Split(w + [sep] + t, sep) == [w] + Split(t, sep)
  {
    var s := w + [sep] + t;
    if |w| == 0 {
      assert s[1..] == t;
    } else {
      assert s[1..] == w[1..] + [sep] + t;
      SplitAfterPiece(w[1..], sep, t);
      assert [w[0]] + w[1..] == w;
    }
  }

  /** The converse of Split's contract: separator-free pieces are recovered from their join. */
  lemma {:induction false} SplitJoin(parts: seq<string>, sep: char)
    requires |parts| > 0
    requires forall i :: 0 <= i < |parts| ==> sep !in parts[i]
    ensures Split(Join(parts, [sep]), sep) == parts
  {
    if |parts| == 1 {
      SplitSeparatorFree(parts[0], sep);
    } else {
      SplitJoin(parts[1..], sep);
      SplitAfterPiece(parts[0], sep, Join(parts[1..], [sep]));
      assert [parts[0]] + parts[1..] == parts;
    }
  }

  /** `pattern` occurs in `s` starting at index `i`. */
  predicate OccursAt(s: string, pattern: string, i: int) {
    0 <= i && i + |pattern| <= |s| && s[i..i + |pattern|] == pattern
  }

  /** `s.includes(pattern)`. */
  function Contains(s: string, pattern: string): (b: bool)
    ensures b <==> exists i :: OccursAt(s, pattern, i)
    decreases |s|
  {
    if |s| < |pattern| then false
    else if s[..|pattern|] == pattern then
      assert OccursAt(s, pattern, 0);
      true
    else
      var b := Contains(s[1..], pattern);
      assert b ==> exists i :: OccursAt(s, pattern, i) by {
        if b {
          var i :| OccursAt(s[1..], pattern, i);
          assert s[1..][i..i + |pattern|] == s[i + 1..i + 1 + |pattern|];
          assert OccursAt(s, pattern, i + 1);
        }
      }
      assert (exists i :: OccursAt(s, pattern, i)) ==> b by {
        if exists i :: OccursAt(s, pattern, i) {
          var i :| OccursAt(s, pattern, i);
          assert i != 0;
          assert s[1..][i - 1..i - 1 + |pattern|] == s[i..i + |pattern|];
          assert OccursAt(s[1..], pattern, i - 1);
        }
      }
      b
  }

  /** `s.startsWith(prefix)`. */
  predicate StartsWith(s: string, prefix: string) {
    |prefix| <= |s| && s[..|prefix|] == prefix
  }

  /** `toLowerCase` on one character, for the ASCII letters. */
  function LowerChar(c: char): char {
    if 'A' <= c <= 'Z' then (c as int + 32) as char else c
  }

  /** `s.toLowerCase()`, character by character. */
  function Lower(s: string): (r: string)
    ensures |r| == |s|
  {
    if s == [] then [] else [LowerChar(s[0])] + Lower(s[1..])
  }

  /** Lower-casing twice is lower-casing once. */
  lemma {:induction false} LowerIdempotent(s: string)
    ensures Lower(Lower(s)) == Lower(s)
  {
    if s != [] {
      LowerIdempotent(s[1..]);
      assert Lower(s)[1..] == Lower(s[1..]);
    }
  }

  /** `s.indexOf(c)`: the first index holding `c`, or -1 when there is none. */
  function IndexOf(s: string, c: char): (k: int)
    ensures k == -1 <==> c !in s
    ensures k != -1 ==> 0 <= k < |s| && s[k] == c && c !in s[..k]
  {
    if |s| == 0 then -1
    else if s[0] == c then 0
    else
      var k := IndexOf(s[1..], c);
      if k == -1 then -1
      else
        assert s[..k + 1] == [s[0]] + s[1..][..k];
        k + 1
  }

  /** `s.lastIndexOf(c)`: the last index holding `c`, or -1 when there is none. */
  function LastIndexOf(s: string, c: char): (k: int)
    ensures k == -1 <==> c !in s
    ensures k != -1 ==> 0 <= k < |s| && s[k] == c && c !in s[k + 1..]
  {
    if |s| == 0 then -1
    else if s[|s| - 1] == c then |s| - 1
    else
      var k := LastIndexOf(s[..|s| - 1], c);
      assert s == s[..|s| - 1] + [s[|s| - 1]];
      assert k != -1 ==> s[k + 1..] == s[..|s| - 1][k + 1..] + [s[|s| - 1]];
      k
  }

  predicate IsDigits(s: string) {
    forall i :: 0 <= i < |s| ==> '0' <= s[i] <= '9'
  }

  function DigitChar(d: nat): char
    requires d < 10
  {
    ('0' as int + d) as char
  }

  /** The value of a string of decimal digits. */
  function DigitsValue(s: string): nat
    requires IsDigits(s)
  {
    if s == [] then 0
    else 10 * DigitsValue(s[..|s| - 1]) + (s[|s| - 1] as int - '0' as int)
  }

  /** How a template literal renders a non-negative integer such as an HTTP status. */
  function Decimal(n: nat): (r: string)
    ensures r != [] && IsDigits(r)
    decreases n
  {
    if n < 10 then [DigitChar(n)] else Decimal(n / 10) + [DigitChar(n % 10)]
  }

  /** The rendering loses nothing: reading the digits back gives the number. */
  lemma {:induction false} DecimalRoundTrip(n: nat)
    ensures DigitsValue(Decimal(n)) == n
  {
    if n >= 10 {
      DecimalRoundTrip(n / 10);
      var r := Decimal(n);
      assert r[..|r| - 1] == Decimal(n / 10);
    }
  }
}
