/**
 * The few pieces of JavaScript's string library that the page scripts rely on:
 * whitespace as `String.prototype.trim` and the regular-expression class `\s`
 * define it, `trim`, `split` on one separator character, `startsWith`, the
 * UTF-16 `length` of a string, and the decimal rendering of a number inside a
 * template literal.
 */
module JsText {

  /** The characters `trim` removes and `\s` matches: ECMAScript WhiteSpace and LineTerminator. */
  predicate IsWhiteSpace(c: char) {
    var n := c as int;
    n == 0x09 || n == 0x0A || n == 0x0B || n == 0x0C || n == 0x0D || n == 0x20 ||
    n == 0xA0 || n == 0x1680 || (0x2000 <= n <= 0x200A) || n == 0x2028 || n == 0x2029 ||
    n == 0x202F || n == 0x205F || n == 0x3000 || n == 0xFEFF
  }

  predicate AllWhiteSpace(s: string) {
    forall i :: 0 <= i < |s| ==> IsWhiteSpace(s[i])
  }

  /** `s.trimStart()` */
  function TrimStart(s: string): string {
    if s == [] || !IsWhiteSpace(s[0]) then s else TrimStart(s[1..])
  }

  /** `s.trimEnd()` */
  function TrimEnd(s: string): string {
    if s == [] || !IsWhiteSpace(s[|s| - 1]) then s else TrimEnd(s[..|s| - 1])
  }

  /** Trimming the start leaves a suffix of `s`, drops only whitespace, and stops at the first other character. */
  lemma {:induction false} TrimStartSpec(s: string)
    ensures var r := TrimStart(s);
      |r| <= |s| && r == s[|s| - |r|..] && AllWhiteSpace(s[..|s| - |r|]) &&
      (r == [] || !IsWhiteSpace(r[0]))
  {
    if s != [] && IsWhiteSpace(s[0]) {
      TrimStartSpec(s[1..]);
      var r := TrimStart(s[1..]);
      assert s[1..][..|s[1..]| - |r|] == s[1..|s| - |r|];
    }
  }

  /** Trimming the end leaves a prefix of `s`. */
  lemma {:induction false} TrimEndIsPrefix(s: string)
    ensures |TrimEnd(s)| <= |s| && TrimEnd(s) == s[..|TrimEnd(s)|]
  {
    if s != [] && IsWhiteSpace(s[|s| - 1]) {
      var t := s[..|s| - 1];
      assert TrimEnd(s) == TrimEnd(t);
      TrimEndIsPrefix(t);
      assert t[..|TrimEnd(t)|] == s[..|TrimEnd(t)|];
    }
  }

  /** Everything trimming the end cuts off is whitespace. */
  lemma {:induction false} TrimEndDropsWhiteSpace(s: string)
    ensures forall k :: |TrimEnd(s)| <= k < |s| ==> IsWhiteSpace(s[k])
  {
    if s != [] && IsWhiteSpace(s[|s| - 1]) {
      var t := s[..|s| - 1];
      assert TrimEnd(s) == TrimEnd(t);
      TrimEndDropsWhiteSpace(t);
      assert forall k :: 0 <= k < |t| ==> s[k] == t[k];
    }
  }

  /** Trimming the end stops at the last character that is not whitespace. */
  lemma {:induction false} TrimEndStops(s: string)
    ensures TrimEnd(s) == [] || !IsWhiteSpace(TrimEnd(s)[|TrimEnd(s)| - 1])
  {
    if s != [] && IsWhiteSpace(s[|s| - 1]) {
      assert TrimEnd(s) == TrimEnd(s[..|s| - 1]);
      TrimEndStops(s[..|s| - 1]);
    }
  }

  /** Trimming the end leaves a prefix of `s`, drops only whitespace, and stops at the last other character. */
  lemma TrimEndSpec(s: string)
    ensures var r := TrimEnd(s);
      |r| <= |s| && r == s[..|r|] && AllWhiteSpace(s[|r|..]) &&
      (r == [] || !IsWhiteSpace(r[|r| - 1]))
  {
    var r := TrimEnd(s);
    TrimEndIsPrefix(s);
    TrimEndDropsWhiteSpace(s);
    TrimEndStops(s);
    assert forall k :: 0 <= k < |s| - |r| ==> s[|r|..][k] == s[|r| + k];
  }

  /** `s.trim()` */
  function Trim(s: string): string {
    TrimEnd(TrimStart(s))
  }

  /**
   * What `trim` promises: the result is a contiguous piece of `s` that neither
   * starts nor ends with whitespace, and everything cut off around it is whitespace.
   */
  lemma TrimIsMaximalInnerPiece(s: string)
    ensures var r := Trim(s);
      exists i :: 0 <= i <= |s| - |r| && s[i..i + |r|] == r &&
        AllWhiteSpace(s[..i]) && AllWhiteSpace(s[i + |r|..])
    ensures Trim(s) == [] || (!IsWhiteSpace(Trim(s)[0]) && !IsWhiteSpace(Trim(s)[|Trim(s)| - 1]))
  {
    var t := TrimStart(s);
    var r := TrimEnd(t);
    TrimStartSpec(s);
    TrimEndSpec(t);
    var i := |s| - |t|;
    assert s[i..i + |r|] == t[..|r|];
    assert s[i + |r|..] == t[|r|..];
    if r != [] {
      assert r[0] == t[0];
    }
  }

  /** A string trims to nothing exactly when it is all whitespace. */
  lemma TrimEmptyIffBlank(s: string)
    ensures Trim(s) == [] <==> AllWhiteSpace(s)
  {
    var t := TrimStart(s);
    TrimStartSpec(s);
    TrimEndSpec(t);
    var i := |s| - |t|;
    assert t != [] ==> t[0] == s[i];
    assert t[|TrimEnd(t)|..] == t[|Trim(s)|..];
    assert s == s[..i] + t;
    assert AllWhiteSpace(s[..i]) && AllWhiteSpace(t) ==> AllWhiteSpace(s[..i] + t);
  }

  /** Trimming is idempotent. */
  lemma TrimIdempotent(s: string)
    ensures Trim(Trim(s)) == Trim(s)
  {
    var r := Trim(s);
    TrimIsMaximalInnerPiece(s);
    if r != [] {
      assert TrimStart(r) == r;
      assert TrimEnd(r) == r;
    }
  }

  /** Leading whitespace in front of `u` is dropped entirely. */
  lemma {:induction false} TrimStartSkips(pre: string, u: string)
    requires AllWhiteSpace(pre)
    ensures TrimStart(pre + u) == TrimStart(u)
  {
    if pre != [] {
      assert (pre + u)[1..] == pre[1..] + u;
      TrimStartSkips(pre[1..], u);
    } else {
      assert pre + u == u;
    }
  }

  /** Trailing whitespace after `u` is dropped entirely. */
  lemma {:induction false} TrimEndSkips(u: string, post: string)
    requires AllWhiteSpace(post)
    ensures TrimEnd(u + post) == TrimEnd(u)
  {
    if post != [] {
      var t := u + post;
      assert t[..|t| - 1] == u + post[..|post| - 1];
      TrimEndSkips(u, post[..|post| - 1]);
    } else {
      assert u + post == u;
    }
  }

  /** Trimming the start of `u + v` touches only `u` when `u` is not all whitespace. */
  lemma {:induction false} TrimStartKeeps(u: string, v: string)
    requires TrimStart(u) != []
    ensures TrimStart(u + v) == TrimStart(u) + v
  {
    assert u != [];
    assert (u + v)[0] == u[0];
    if IsWhiteSpace(u[0]) {
      assert (u + v)[1..] == u[1..] + v;
      TrimStartKeeps(u[1..], v);
    }
  }

  /** Trimming is unaffected by whitespace added on either side. */
  lemma TrimSurrounded(pre: string, s: string, post: string)
    requires AllWhiteSpace(pre) && AllWhiteSpace(post)
    ensures Trim((pre + s) + post) == Trim(s)
  {
    TrimStartSkips(pre, s);
    if TrimStart(s) != [] {
      TrimStartKeeps(pre + s, post);
      TrimEndSkips(TrimStart(s), post);
    } else {
      TrimStartSpec(s);
      assert s[..|s|] == s;
      AllWhiteSpaceConcat(pre, s);
      AllWhiteSpaceConcat(pre + s, post);
      TrimEmptyIffBlank((pre + s) + post);
    }
  }

  lemma AllWhiteSpaceConcat(a: string, b: string)
    requires AllWhiteSpace(a) && AllWhiteSpace(b)
    ensures AllWhiteSpace(a + b)
  {
    forall k | 0 <= k < |a + b| ensures IsWhiteSpace((a + b)[k]) {
      if k >= |a| { assert (a + b)[k] == b[k - |a|]; }
    }
  }

  /** `s.startsWith(p)` */
  predicate StartsWith(s: string, p: string) {
    |p| <= |s| && s[..|p|] == p
  }

  /** `s.length`: JavaScript counts UTF-16 code units, so a character outside the BMP counts twice. */
  function Utf16Length(s: string): (n: nat)
    ensures |s| <= n <= 2 * |s|
    ensures (forall i :: 0 <= i < |s| ==> s[i] as int <= 0xFFFF) ==> n == |s|
  {
    if s == [] then 0
    else (if s[0] as int > 0xFFFF then 2 else 1) + Utf16Length(s[1..])
  }

  /** `s.split(sep)`: never empty. */
  function Split(s: string, sep: char): (parts: seq<string>)
    ensures |parts| >= 1
  {
    if s == [] then [[]]
    else
      var rest := Split(s[1..], sep);
      if s[0] == sep then [[]] + rest
      else [[s[0]] + rest[0]] + rest[1..]
  }

  /** No piece contains the separator, and `s` splits into one piece exactly when it has no separator. */
  lemma {:induction false} SplitSpec(s: string, sep: char)
    ensures var parts := Split(s, sep);
      (forall k :: 0 <= k < |parts| ==> sep !in parts[k]) &&
      (|parts| == 1 <==> sep !in s) &&
      (sep !in s ==> parts == [s])
  {
    if s != [] {
      SplitSpec(s[1..], sep);
      assert s == [s[0]] + s[1..];
    }
  }

  /** `parts.join(sep)` */
  function Join(parts: seq<string>, sep: char): string
    requires |parts| >= 1
  {
    if |parts| == 1 then parts[0] else parts[0] + [sep] + Join(parts[1..], sep)
  }

  /** Splitting loses nothing: joining the pieces with the separator gives the string back. */
  lemma {:induction false} JoinSplit(s: string, sep: char)
    ensures Join(Split(s, sep), sep) == s
  {
    if s != [] {
      var rest := Split(s[1..], sep);
      JoinSplit(s[1..], sep);
      if s[0] == sep {
        assert Split(s, sep)[1..] == rest;
      } else {
        var parts := Split(s, sep);
        assert parts[1..] == rest[1..];
        if |rest| == 1 {
          assert Join(parts, sep) == [s[0]] + rest[0];
        } else {
          assert Join(rest, sep) == rest[0] + [sep] + Join(rest[1..], sep);
          assert Join(parts, sep) == [s[0]] + rest[0] + [sep] + Join(rest[1..], sep);
        }
      }
    }
  }

  /** The last piece of a split is the text after the last separator (all of `s` when there is none). */
  lemma {:induction false} LastPieceIsTail(s: string, sep: char)
    ensures var parts := Split(s, sep); var last := parts[|parts| - 1];
      |last| <= |s| && s[|s| - |last|..] == last &&
      (|last| < |s| ==> s[|s| - |last| - 1] == sep)
  {
    if s != [] {
      var tail := s[1..];
      LastPieceIsTail(tail, sep);
      SplitSpec(tail, sep);
      var rest := Split(tail, sep);
      var parts := Split(s, sep);
      var last := rest[|rest| - 1];
      assert tail[|tail| - |last|..] == last;
      assert s[|s| - |last|..] == tail[|tail| - |last|..];
      if s[0] == sep || |rest| > 1 {
        assert parts[|parts| - 1] == last;
        assert |last| < |tail| ==> s[|s| - |last| - 1] == tail[|tail| - |last| - 1];
        assert |last| == |tail| ==> tail == last;
      } else {
        SplitSpec(s, sep);
      }
    }
  }

  function DigitChar(d: nat): char
    requires d < 10
    ensures IsDigit(DigitChar(d)) && DigitChar(d) as int - '0' as int == d
  {
    "0123456789"[d]
  }

  predicate IsDigit(c: char) {
    '0' as int <= c as int <= '9' as int
  }

  /** The value of a string of decimal digits. */
  function DecimalValue(s: string): nat
    requires forall i :: 0 <= i < |s| ==> IsDigit(s[i])
  {
    if s == [] then 0
    else
      assert IsDigit(s[|s| - 1]);
      10 * DecimalValue(s[..|s| - 1]) + (s[|s| - 1] as int - '0' as int)
  }

  /** How a non-negative integer appears in a template literal: decimal digits, no leading zero. */
  function NatToDecimal(n: nat): (r: string)
    ensures |r| >= 1 && (forall i :: 0 <= i < |r| ==> IsDigit(r[i]))
    ensures |r| > 1 ==> r[0] != '0'
  {
    if n < 10 then [DigitChar(n)] else NatToDecimal(n / 10) + [DigitChar(n % 10)]
  }

  /** Reading the rendered digits back gives the number. */
  lemma {:induction false} DecimalRoundTrip(n: nat)
    ensures DecimalValue(NatToDecimal(n)) == n
  {
    var r := NatToDecimal(n);
    if n >= 10 {
      DecimalRoundTrip(n / 10);
      assert r[..|r| - 1] == NatToDecimal(n / 10);
    }
  }
}
