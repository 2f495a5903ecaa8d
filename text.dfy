/**
 * String helpers with the JavaScript meaning the TypeScript code relies on:
 * `String.prototype.trim`, the regular-expression class `\s`, an ASCII-only
 * `toLowerCase`, `includes`, `Array.prototype.join`, splitting on one character,
 * and the decimal conversions behind `${n}` and `parseInt(s)` on decimal text.
 */
module Text {
  import opened Wrappers

  /** The characters ECMAScript counts as WhiteSpace or LineTerminator (used by `trim` and `\s`). */
  predicate IsJsWhitespace(c: char) {
    c == '\t' || c == '\n' || c == '\U{000B}' || c == '\U{000C}' || c == '\r' || c == ' '
    || c == '\U{00A0}' || c == '\U{1680}' || ('\U{2000}' <= c <= '\U{200A}')
    || c == '\U{2028}' || c == '\U{2029}' || c == '\U{202F}' || c == '\U{205F}'
    || c == '\U{3000}' || c == '\U{FEFF}'
  }

  predicate AllWhitespace(s: string) {
    forall i :: 0 <= i < |s| ==> IsJsWhitespace(s[i])
  }

  function TrimStart(s: string): (r: string)
    ensures |r| <= |s| && r == s[|s| - |r|..]
    ensures r == [] || !IsJsWhitespace(r[0])
    ensures AllWhitespace(s[..|s| - |r|])
  {
    if s != [] && IsJsWhitespace(s[0]) then TrimStart(s[1..]) else s
  }

  function TrimEnd(s: string): (r: string)
    ensures |r| <= |s| && r == s[..|r|]
    ensures r == [] || !IsJsWhitespace(r[|r| - 1])
    ensures AllWhitespace(s[|r|..])
  {
    if s != [] && IsJsWhitespace(s[|s| - 1]) then TrimEnd(s[..|s| - 1]) else s
  }

  /** `s.trim()` */
  function Trim(s: string): string {
    TrimEnd(TrimStart(s))
  }

  /** A string is blank (`!s.trim()`) exactly when every character is whitespace. */
  lemma TrimEmptyIff(s: string)
    ensures Trim(s) == "" <==> AllWhitespace(s)
  {
    var t := TrimStart(s);
    if t == [] {
      assert s[..|s|] == s;
    } else {
      assert !IsJsWhitespace(s[|s| - |t|]);
      TrimEndKeepsNonBlank(t);
    }
  }

  lemma {:induction false} TrimEndKeepsNonBlank(t: string)
    requires t != [] && !IsJsWhitespace(t[0])
    ensures TrimEnd(t) != []
  {
    if |t| > 1 && IsJsWhitespace(t[|t| - 1]) {
      TrimEndKeepsNonBlank(t[..|t| - 1]);
    }
  }

  /** Trimming ignores surrounding whitespace: padding a trimmed string gives the same trim. */
  lemma TrimPadded(w1: string, h: string, w2: string)
    requires AllWhitespace(w1) && AllWhitespace(w2)
    requires h == [] || (!IsJsWhitespace(h[0]) && !IsJsWhitespace(h[|h| - 1]))
    ensures Trim(w1 + h + w2) == h
  {
    var rest := h + w2;
    assert w1 + h + w2 == w1 + rest;
    if h == [] {
      assert rest == w2;
      TrimStartPadded(w1, rest);
    } else {
      assert rest[0] == h[0];
      assert !AllWhitespace(rest) by { assert !IsJsWhitespace(rest[0]); }
      TrimStartPadded(w1, rest);
      TrimEndPadded(h, w2);
    }
  }

  lemma {:induction false} TrimStartPadded(w: string, rest: string)
    requires AllWhitespace(w)
    requires rest == [] || !IsJsWhitespace(rest[0]) || AllWhitespace(rest)
    ensures TrimStart(w + rest) == if AllWhitespace(rest) then [] else rest
  {
    if w == [] {
      assert w + rest == rest;
      TrimStartAllWs(rest);
    } else {
      assert (w + rest)[1..] == w[1..] + rest;
      TrimStartPadded(w[1..], rest);
    }
  }

  lemma {:induction false} TrimStartAllWs(s: string)
    requires s == [] || !IsJsWhitespace(s[0]) || AllWhitespace(s)
    ensures TrimStart(s) == if AllWhitespace(s) then [] else s
  {
    if s != [] && AllWhitespace(s) {
      TrimStartAllWs(s[1..]);
    }
  }

  lemma {:induction false} TrimEndPadded(h: string, w: string)
    requires AllWhitespace(w)
    requires h == [] || !IsJsWhitespace(h[|h| - 1])
    ensures TrimEnd(h + w) == h
  {
    if w == [] {
      assert h + w == h;
    } else {
      assert (h + w)[..|h + w| - 1] == h + w[..|w| - 1];
      TrimEndPadded(h, w[..|w| - 1]);
    }
  }

  /** `c.toLowerCase()` restricted to ASCII: A-Z become a-z, everything else is kept. */
  function LowerChar(c: char): char {
    if 'A' <= c <= 'Z' then (c as int + 32) as char else c
  }

  /** `s.toLowerCase()` restricted to ASCII. */
  function AsciiLower(s: string): (r: string)
    ensures |r| == |s|
    ensures forall i :: 0 <= i < |s| ==> r[i] == LowerChar(s[i])
  {
    seq(|s|, i requires 0 <= i < |s| => LowerChar(s[i]))
  }

  /** Lowering twice is lowering once. */
  lemma LowerTwice(s: string)
    ensures AsciiLower(AsciiLower(s)) == AsciiLower(s)
  {
    var k := AsciiLower(s);
    assert forall i :: 0 <= i < |k| ==> LowerChar(k[i]) == k[i];
  }

  /** `s.includes(sub)`: `sub` occurs in `s` as a contiguous piece. */
  predicate Contains(s: string, sub: string) {
    sub <= s || (s != [] && Contains(s[1..], sub))
  }

  /** `sub` sits in `s` starting at index `i`. */
  predicate OccursAt(s: string, sub: string, i: nat) {
    i + |sub| <= |s| && s[i..i + |sub|] == sub
  }

  /** `Contains` holds exactly when `sub` occurs at some index of `s`. */
  lemma {:induction false} ContainsIff(s: string, sub: string)
    ensures Contains(s, sub) <==> exists i: nat :: OccursAt(s, sub, i)
  {
    if sub <= s {
      assert OccursAt(s, sub, 0);
    } else if s != [] {
      ContainsIff(s[1..], sub);
      if Contains(s[1..], sub) {
        var i: nat :| OccursAt(s[1..], sub, i);
        assert s[i + 1..i + 1 + |sub|] == s[1..][i..i + |sub|];
        assert OccursAt(s, sub, i + 1);
      }
      if exists i: nat :: OccursAt(s, sub, i) {
        var i: nat :| OccursAt(s, sub, i);
        if i > 0 {
          assert s[1..][i - 1..i - 1 + |sub|] == s[i..i + |sub|];
          assert OccursAt(s[1..], sub, i - 1);
        }
      }
    }
  }

  /** `xs.join(sep)` for a list of strings. */
  function Join(xs: seq<string>, sep: string): string {
    if |xs| == 0 then ""
    else if |xs| == 1 then xs[0]
    else xs[0] + sep + Join(xs[1..], sep)
  }

  /** `s.split(c)` for a one-character separator. */
  function Split(s: string, c: char): (r: seq<string>)
    ensures |r| >= 1
  {
    if s == [] then [""]
    else
      var rest := Split(s[1..], c);
      if s[0] == c then [""] + rest else [[s[0]] + rest[0]] + rest[1..]
  }

  lemma {:induction false} SplitNoSeparator(x: string, c: char)
    requires c !in x
    ensures Split(x, c) == [x]
  {
    if x != [] {
      SplitNoSeparator(x[1..], c);
      assert [x[0]] + x[1..] == x;
    }
  }

  lemma {:induction false} SplitAfterPiece(x: string, c: char, y: string)
    requires c !in x
    ensures Split(x + [c] + y, c) == [x] + Split(y, c)
  {
    if x == [] {
      assert x + [c] + y == [c] + y;
      assert ([c] + y)[1..] == y;
    } else {
      assert (x + [c] + y)[1..] == x[1..] + [c] + y;
      SplitAfterPiece(x[1..], c, y);
      assert [x[0]] + x[1..] == x;
    }
  }

  /** Splitting a join on a separator that no piece contains gives the pieces back. */
  lemma {:induction false} SplitJoin(xs: seq<string>, c: char)
    requires |xs| >= 1
    requires forall i :: 0 <= i < |xs| ==> c !in xs[i]
    ensures Split(Join(xs, [c]), c) == xs
  {
    if |xs| == 1 {
      SplitNoSeparator(xs[0], c);
    } else {
      SplitJoin(xs[1..], c);
      SplitAfterPiece(xs[0], c, Join(xs[1..], [c]));
      assert [xs[0]] + xs[1..] == xs;
    }
  }

  /** The number of occurrences of `c` in `s`. */
  function CountChar(s: string, c: char): (n: nat)
    ensures n == 0 <==> c !in s
  {
    if s == [] then 0 else (if s[0] == c then 1 else 0) + CountChar(s[1..], c)
  }

  function SumCounts(xs: seq<string>, c: char): nat {
    if xs == [] then 0 else CountChar(xs[0], c) + SumCounts(xs[1..], c)
  }

  lemma {:induction false} CountAppend(a: string, b: string, c: char)
    ensures CountChar(a + b, c) == CountChar(a, c) + CountChar(b, c)
  {
    if a != [] {
      assert (a + b)[1..] == a[1..] + b;
      CountAppend(a[1..], b, c);
    } else {
      assert a + b == b;
    }
  }

  /** Each separator in the text starts one more piece. */
  lemma {:induction false} SplitLength(s: string, c: char)
    ensures |Split(s, c)| == 1 + CountChar(s, c)
  {
    if s != [] {
      SplitLength(s[1..], c);
    }
  }

  /** A join holds the separators it puts in, plus those already inside the pieces. */
  lemma {:induction false} JoinCount(xs: seq<string>, c: char)
    requires |xs| >= 1
    ensures CountChar(Join(xs, [c]), c) == |xs| - 1 + SumCounts(xs, c)
  {
    if |xs| == 1 {
      assert xs[1..] == [];
    } else {
      JoinCount(xs[1..], c);
      CountAppend(xs[0], [c], c);
      CountAppend(xs[0] + [c], Join(xs[1..], [c]), c);
    }
  }

  lemma {:induction false} SumCountsAtLeast(xs: seq<string>, c: char, i: nat)
    requires i < |xs|
    ensures SumCounts(xs, c) >= CountChar(xs[i], c)
  {
    if i > 0 {
      SumCountsAtLeast(xs[1..], c, i - 1);
    }
  }

  /** With no quoting, a piece that holds the separator makes the text split into more pieces. */
  lemma SplitJoinBreaks(xs: seq<string>, c: char, i: nat)
    requires i < |xs| && c in xs[i]
    ensures |Split(Join(xs, [c]), c)| > |xs|
  {
    SplitLength(Join(xs, [c]), c);
    JoinCount(xs, c);
    SumCountsAtLeast(xs, c, i);
  }

  predicate IsDigit(c: char) {
    '0' <= c <= '9'
  }

  function DigitChar(d: nat): char
    requires d < 10
  {
    ('0' as int + d) as char
  }

  /** Decimal rendering of a natural number, as `${n}` prints it. */
  function NatToString(n: nat): (r: string)
    ensures |r| >= 1 && forall i :: 0 <= i < |r| ==> IsDigit(r[i])
  {
    if n < 10 then [DigitChar(n)] else NatToString(n / 10) + [DigitChar(n % 10)]
  }

  /** Decimal rendering of an integer, as `${n}` prints it for an integral number. */
  function IntToString(n: int): string {
    if n < 0 then "-" + NatToString(-n) else NatToString(n)
  }

  /** The longest prefix of `s` made of decimal digits. */
  function LeadingDigits(s: string): (r: string)
    ensures r <= s
    ensures forall i :: 0 <= i < |r| ==> IsDigit(s[i])
    ensures |r| == |s| || !IsDigit(s[|r|])
  {
    if s != [] && IsDigit(s[0]) then [s[0]] + LeadingDigits(s[1..]) else []
  }

  function DigitValue(c: char): nat
    requires IsDigit(c)
  {
    assert '0' as int <= c as int;
    c as int - '0' as int
  }

  function DigitsValue(ds: string): nat
    requires forall i :: 0 <= i < |ds| ==> IsDigit(ds[i])
  {
    if ds == [] then 0 else DigitsValue(ds[..|ds| - 1]) * 10 + DigitValue(ds[|ds| - 1])
  }

  /** `parseInt(s)` on decimal text: skip leading whitespace, read an optional sign and
      the longest run of digits; `None` stands for `NaN` (no digits). Without a radix
      `parseInt` also reads a `0x` prefix as hexadecimal; that case is not modelled. */
  function ParseInt(s: string): (r: Option<int>)
  {
    var t := TrimStart(s);
    var negative := t != [] && t[0] == '-';
    var body := if t != [] && (t[0] == '-' || t[0] == '+') then t[1..] else t;
    var ds := LeadingDigits(body);
    var v: int := if ds == [] then 0 else DigitsValue(ds);
    if ds == [] then None else Some(if negative then -v else v)
  }

  lemma {:induction false} DigitsOfNatToString(n: nat, suffix: string)
    requires suffix == [] || !IsDigit(suffix[0])
    ensures LeadingDigits(NatToString(n) + suffix) == NatToString(n)
    ensures DigitsValue(NatToString(n)) == n
  {
    LeadingDigitsOfDigits(NatToString(n), suffix);
    if n >= 10 {
      DigitsOfNatToString(n / 10, []);
      var r := NatToString(n);
      assert r[..|r| - 1] == NatToString(n / 10);
    }
  }

  lemma {:induction false} LeadingDigitsOfDigits(ds: string, suffix: string)
    requires forall i :: 0 <= i < |ds| ==> IsDigit(ds[i])
    requires suffix == [] || !IsDigit(suffix[0])
    ensures LeadingDigits(ds + suffix) == ds
  {
    if ds != [] {
      assert (ds + suffix)[1..] == ds[1..] + suffix;
      LeadingDigitsOfDigits(ds[1..], suffix);
      assert [ds[0]] + ds[1..] == ds;
    } else {
      assert ds + suffix == suffix;
    }
  }

  /** `parseInt` reads back what `${n}` wrote, whatever non-digit text follows it. */
  lemma ParseIntToString(n: int, suffix: string)
    requires suffix == [] || !IsDigit(suffix[0])
    ensures ParseInt(IntToString(n) + suffix) == Some(n)
  {
    if n < 0 {
      ParseNegativeToString(-n, suffix);
    } else {
      ParseNatToString(n, suffix);
    }
  }

  lemma ParseNegativeToString(m: nat, suffix: string)
    requires m > 0
    requires suffix == [] || !IsDigit(suffix[0])
    ensures ParseInt(IntToString(-(m as int)) + suffix) == Some(-(m as int))
  {
    var s := IntToString(-(m as int)) + suffix;
    NegativeText(m, suffix);
    DigitsOfNatToString(m, suffix);
    ParseSignedDigits(s, m);
  }

  lemma ParseSignedDigits(s: string, m: nat)
    requires s != [] && s[0] == '-'
    requires LeadingDigits(s[1..]) != [] && DigitsValue(LeadingDigits(s[1..])) == m
    ensures ParseInt(s) == Some(-(m as int))
  {
    ParseIntSigned(s);
  }

  lemma NegativeText(m: nat, suffix: string)
    requires m > 0
    ensures var s := IntToString(-(m as int)) + suffix; s != [] && s[0] == '-' && s[1..] == NatToString(m) + suffix
  {
    var t := IntToString(-(m as int));
    var digits := NatToString(m);
    assert t == "-" + digits;
    assert t[0] == '-' && t[1..] == digits;
    assert (t + suffix)[1..] == t[1..] + suffix;
  }

  lemma ParseNatToString(n: nat, suffix: string)
    requires suffix == [] || !IsDigit(suffix[0])
    ensures ParseInt(IntToString(n) + suffix) == Some(n)
  {
    DigitsOfNatToString(n, suffix);
    var s := NatToString(n) + suffix;
    assert s[0] == NatToString(n)[0];
    ParseIntUnsigned(s);
  }

  lemma ParseIntSigned(s: string)
    requires s != [] && s[0] == '-'
    ensures ParseInt(s) ==
      var ds := LeadingDigits(s[1..]); if ds == [] then None else Some(0 - DigitsValue(ds))
  {
    TrimStartUnpadded(s);
  }

  lemma ParseIntUnsigned(s: string)
    requires s != [] && IsDigit(s[0])
    ensures ParseInt(s) == Some(DigitsValue(LeadingDigits(s)))
  {
    TrimStartUnpadded(s);
  }

  lemma TrimStartUnpadded(s: string)
    requires s != [] && !IsJsWhitespace(s[0])
    ensures TrimStart(s) == s
  {
  }

  lemma TrimEndUnpadded(s: string)
    requires s != [] && !IsJsWhitespace(s[|s| - 1])
    ensures TrimEnd(s) == s
  {
  }
}
