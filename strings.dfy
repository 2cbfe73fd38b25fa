/**
 * String building blocks used by the schema renderer, the value escaper,
 * the dictionary readers and the normaliser. A string is a sequence of
 * Unicode scalar values, as a Rust `String` iterated with `chars()`.
 */
module Strings {
  import opened Wrappers
  import Seqs

  /** `parts.join(sep)` */
  function Join(parts: seq<string>, sep: string): string {
    if |parts| == 0 then ""
    else if |parts| == 1 then parts[0]
    else Join(parts[..|parts| - 1], sep) + sep + parts[|parts| - 1]
  }

  /** Joining reads the same from the front. */
  lemma {:induction false} JoinCons(p: string, parts: seq<string>, sep: string)
    requires |parts| > 0
    ensures Join([p] + parts, sep) == p + sep + Join(parts, sep)
  {
    var all := [p] + parts;
    if |parts| == 1 {
      assert all[..1] == [p];
    } else {
      var init := parts[..|parts| - 1];
      assert all[..|all| - 1] == [p] + init;
      JoinCons(p, init, sep);
      assert Join(parts, sep) == Join(init, sep) + sep + parts[|parts| - 1];
    }
  }

  lemma JoinAppend(parts: seq<string>, p: string, sep: string)
    requires |parts| > 0
    ensures Join(parts + [p], sep) == Join(parts, sep) + sep + p
  {
    assert (parts + [p])[..|parts|] == parts;
  }

  // ---------------------------------------------------------------------
  // Decimal text of integers (`to_string`) and parsing it back (`cast`).

  predicate IsDigit(c: char) {
    '0' <= c <= '9'
  }

  function DigitChar(d: nat): (c: char)
    requires d < 10
    ensures IsDigit(c)
  {
    ['0', '1', '2', '3', '4', '5', '6', '7', '8', '9'][d]
  }

  function DigitValue(c: char): (d: nat)
    requires IsDigit(c)
    ensures d < 10
  {
    c as int - '0' as int
  }

  lemma DigitRoundTrip(d: nat)
    requires d < 10
    ensures DigitValue(DigitChar(d)) == d
  {
  }

  predicate AllDigits(s: string) {
    forall i :: 0 <= i < |s| ==> IsDigit(s[i])
  }

  /** Decimal text of a natural number, most significant digit first. */
  function NatText(n: nat): string {
    if n < 10 then [DigitChar(n)] else NatText(n / 10) + [DigitChar(n % 10)]
  }

  /** Decimal text of an integer, with a leading `-` when negative (Rust's `Display`). */
  function IntText(i: int): string {
    if i < 0 then "-" + NatText(-i) else NatText(i)
  }

  /** Value of a non-empty string of decimal digits; None for anything else. */
  function ParseNat(s: string): Option<nat> {
    if |s| == 0 || !AllDigits(s) then None
    else if |s| == 1 then Some(DigitValue(s[0]))
    else
      assert AllDigits(s[..|s| - 1]);
      Some(ParseNat(s[..|s| - 1]).value * 10 + DigitValue(s[|s| - 1]))
  }

  lemma {:induction false} NatTextDigits(n: nat)
    ensures |NatText(n)| > 0 && AllDigits(NatText(n))
  {
    if n >= 10 {
      NatTextDigits(n / 10);
    }
  }

  /** Parsing the decimal text of n gives n back. */
  lemma {:induction false} ParseNatText(n: nat)
    ensures ParseNat(NatText(n)) == Some(n)
  {
    NatTextDigits(n);
    if n < 10 {
      DigitRoundTrip(n);
    } else {
      var t := NatText(n);
      assert t[..|t| - 1] == NatText(n / 10);
      assert t[|t| - 1] == DigitChar(n % 10);
      ParseNatText(n / 10);
      DigitRoundTrip(n % 10);
      NatTextDigits(n / 10);
      assert |NatText(n / 10)| >= 1;
    }
  }

  /** A number below 10^width has at most width digits. */
  lemma {:induction false} NatTextShort(n: nat, width: nat)
    requires 0 < width && n < Pow10(width)
    ensures |NatText(n)| <= width
  {
    if n >= 10 {
      assert width > 1;
      NatTextShort(n / 10, width - 1);
    }
  }

  /** Value of an optionally `-`-signed decimal text. */
  function ParseInt(s: string): Option<int> {
    if |s| > 0 && s[0] == '-' then Negated(ParseNat(s[1..])) else Widened(ParseNat(s))
  }

  function Negated(o: Option<nat>): Option<int> {
    if o.Some? then Some(0 - o.value) else None
  }

  function Widened(o: Option<nat>): Option<int> {
    if o.Some? then Some(o.value) else None
  }

  /** Parsing the decimal text of i gives i back. */
  lemma ParseIntText(i: int)
    ensures ParseInt(IntText(i)) == Some(i)
  {
    var t := IntText(i);
    if i < 0 {
      ParseNatText(-i);
      assert t[1..] == NatText(-i);
      assert ParseInt(t) == Negated(ParseNat(NatText(-i)));
    } else {
      ParseNatText(i);
      NatTextDigits(i);
      assert t[0] != '-';
      assert ParseInt(t) == Widened(ParseNat(NatText(i)));
    }
  }

  /** Distinct numbers have distinct decimal texts. */
  lemma NatTextInjective(a: nat, b: nat)
    requires NatText(a) == NatText(b)
    ensures a == b
  {
    ParseNatText(a);
    ParseNatText(b);
  }

  // ---------------------------------------------------------------------
  // SQL string literals: `'` + s with every `'` doubled + `'`.

  /** `s.replace("'", "''")` */
  function Escape(s: string): string {
    if |s| == 0 then ""
    else (if s[0] == '\'' then "''" else [s[0]]) + Escape(s[1..])
  }

  /** `format!("'{}'", s.replace("'", "''"))` */
  function Quote(s: string): string {
    "'" + Escape(s) + "'"
  }

  /**
   * How a SQL store reads the body of a string literal whose opening quote
   * is already consumed: a doubled quote stands for one quote, a single
   * quote closes the literal. Answers the value and what follows it.
   */
  function ReadLiteralBody(t: string): (r: Option<(string, string)>)
    ensures r.Some? ==> |r.value.1| < |t|
  {
    if |t| == 0 then None
    else if t[0] == '\'' then
      if |t| >= 2 && t[1] == '\'' then
        match ReadLiteralBody(t[2..])
        case None => None
        case Some(r) => Some(("'" + r.0, r.1))
      else Some(("", t[1..]))
    else
      match ReadLiteralBody(t[1..])
      case None => None
      case Some(r) => Some(([t[0]] + r.0, r.1))
  }

  /** Reads one quoted SQL string literal at the start of t. */
  function ParseLiteral(t: string): (r: Option<(string, string)>)
    ensures r.Some? ==> |r.value.1| < |t|
  {
    if |t| > 0 && t[0] == '\'' then ReadLiteralBody(t[1..]) else None
  }

  lemma {:induction false} ReadEscaped(s: string, rest: string)
    requires |rest| == 0 || rest[0] != '\''
    ensures ReadLiteralBody(Escape(s) + "'" + rest) == Some((s, rest))
  {
    if |s| > 0 {
      ReadEscaped(s[1..], rest);
      var tail := Escape(s[1..]) + "'" + rest;
      if s[0] == '\'' {
        assert Escape(s) + "'" + rest == "''" + tail;
        assert ("''" + tail)[2..] == tail;
        assert s == "'" + s[1..];
      } else {
        assert Escape(s) + "'" + rest == [s[0]] + tail;
        assert ([s[0]] + tail)[1..] == tail;
        assert s == [s[0]] + s[1..];
      }
    } else {
      assert Escape(s) + "'" + rest == "'" + rest;
      assert ("'" + rest)[1..] == rest;
    }
  }

  /**
   * Escaping round trip: a store reading the quoted literal back gets the
   * original text, and stops exactly at the closing quote.
   */
  lemma QuoteRoundTrip(s: string, rest: string)
    requires |rest| == 0 || rest[0] != '\''
    ensures ParseLiteral(Quote(s) + rest) == Some((s, rest))
  {
    ReadEscaped(s, rest);
    assert (Quote(s) + rest)[1..] == Escape(s) + "'" + rest;
  }

  /** Text holding no quote is left alone by the escaper. */
  lemma {:induction false} EscapeNoQuote(s: string)
    requires '\'' !in s
    ensures Escape(s) == s
  {
    if |s| > 0 {
      assert '\'' !in s[1..] by {
        forall k | 0 <= k < |s[1..]| ensures s[1..][k] != '\'' {
          assert s[1..][k] == s[k + 1];
        }
      }
      EscapeNoQuote(s[1..]);
      assert s == [s[0]] + s[1..];
    }
  }

  lemma IntTextNoQuote(i: int)
    ensures '\'' !in IntText(i)
  {
    NatTextDigits(if i < 0 then -i else i);
  }

  // ---------------------------------------------------------------------
  // Substrings, splitting and character removal.

  predicate IsPrefix(p: string, s: string) {
    |p| <= |s| && s[..|p|] == p
  }

  /** `s.contains(sub)` */
  predicate Contains(s: string, sub: string) {
    IsPrefix(sub, s) || (|s| > 0 && Contains(s[1..], sub))
  }

  /** `s.split(c)`: always at least one segment. */
  function SplitOn(s: string, c: char): (r: seq<string>)
    ensures |r| >= 1
  {
    if |s| == 0 then [""]
    else if s[0] == c then [""] + SplitOn(s[1..], c)
    else
      var p := SplitOn(s[1..], c);
      [[s[0]] + p[0]] + p[1..]
  }

  /** `collect::<String>()` of an iterator of strings. */
  function Concat(ss: seq<string>): string {
    if |ss| == 0 then "" else ss[0] + Concat(ss[1..])
  }

  /** s with every occurrence of c removed (`replace(c, "")`). */
  function RemoveChar(s: string, c: char): (r: string)
    ensures c !in r
    ensures forall x :: x in r ==> x in s
  {
    if |s| == 0 then ""
    else (if s[0] == c then "" else [s[0]]) + RemoveChar(s[1..], c)
  }

  lemma {:induction false} ConcatSplit(s: string, c: char)
    ensures Concat(SplitOn(s, c)) == RemoveChar(s, c)
  {
    if |s| > 0 {
      ConcatSplit(s[1..], c);
      var p := SplitOn(s[1..], c);
      if s[0] != c {
        assert Concat([[s[0]] + p[0]] + p[1..]) == [s[0]] + p[0] + Concat(p[1..]);
        assert Concat(p) == p[0] + Concat(p[1..]);
      }
    }
  }

  /**
   * The segments after the first one, concatenated, are the text after the
   * first c with every later c dropped; nothing when c does not occur.
   */
  lemma {:induction false} ConcatAfterFirstSegment(s: string, c: char)
    ensures Concat(SplitOn(s, c)[1..]) ==
              if c in s then RemoveChar(s[Seqs.IndexOf(s, c) + 1..], c) else ""
  {
    if |s| > 0 {
      if s[0] == c {
        assert SplitOn(s, c)[1..] == SplitOn(s[1..], c);
        ConcatSplit(s[1..], c);
      } else {
        var p := SplitOn(s[1..], c);
        assert SplitOn(s, c)[1..] == p[1..];
        ConcatAfterFirstSegment(s[1..], c);
        assert c in s <==> c in s[1..] by {
          assert s == [s[0]] + s[1..];
        }
        if c in s {
          assert Seqs.IndexOf(s, c) == 1 + Seqs.IndexOf(s[1..], c);
          assert s[Seqs.IndexOf(s, c) + 1..] == s[1..][Seqs.IndexOf(s[1..], c) + 1..];
        }
      }
    }
  }

  // ---------------------------------------------------------------------
  // Whitespace tokens (`split_whitespace().last()`).

  /** Rust's `char::is_whitespace`: the Unicode White_Space property. */
  predicate IsWhitespace(c: char) {
    ('\t' <= c <= '\r') || c == ' ' || c == '\U{85}' || c == '\U{A0}'
    || c == '\U{1680}' || ('\U{2000}' <= c <= '\U{200A}') || c == '\U{2028}'
    || c == '\U{2029}' || c == '\U{202F}' || c == '\U{205F}' || c == '\U{3000}'
  }

  predicate NoWhitespace(s: string) {
    forall i :: 0 <= i < |s| ==> !IsWhitespace(s[i])
  }

  predicate AllWhitespace(s: string) {
    forall i :: 0 <= i < |s| ==> IsWhitespace(s[i])
  }

  /** The longest suffix of s without whitespace. */
  function TrailingWord(s: string): string {
    if |s| == 0 || IsWhitespace(s[|s| - 1]) then ""
    else TrailingWord(s[..|s| - 1]) + [s[|s| - 1]]
  }

  /** `s.split_whitespace().last().unwrap_or_default()` */
  function LastToken(s: string): string {
    if |s| == 0 then ""
    else if IsWhitespace(s[|s| - 1]) then LastToken(s[..|s| - 1])
    else TrailingWord(s)
  }

  lemma {:induction false} TrailingWordShape(s: string)
    ensures var w := TrailingWord(s);
      && |w| <= |s| && s[|s| - |w|..] == w && NoWhitespace(w)
      && (|w| == |s| || IsWhitespace(s[|s| - |w| - 1]))
      && (|s| > 0 && !IsWhitespace(s[|s| - 1]) ==> |w| > 0)
  {
    if |s| > 0 && !IsWhitespace(s[|s| - 1]) {
      var p := s[..|s| - 1];
      TrailingWordShape(p);
      var w := TrailingWord(p);
      assert s[|s| - |w| - 1..] == p[|p| - |w|..] + [s[|s| - 1]];
      if |w| < |p| {
        assert s[|s| - |w| - 2] == p[|p| - |w| - 1];
      }
    }
  }

  /** t occurs in s at k, bounded by whitespace or the start on its left and followed only by whitespace. */
  predicate TokenAt(s: string, t: string, k: int) {
    && 0 <= k <= |s| - |t|
    && s[k..k + |t|] == t
    && AllWhitespace(s[k + |t|..])
    && (k == 0 || IsWhitespace(s[k - 1]))
  }

  lemma AllWhitespaceSnoc(p: string, c: char)
    requires IsWhitespace(c)
    ensures AllWhitespace(p + [c]) <==> AllWhitespace(p)
  {
    if AllWhitespace(p + [c]) {
      forall i | 0 <= i < |p| ensures IsWhitespace(p[i]) {
        assert p[i] == (p + [c])[i];
      }
    }
  }

  lemma {:induction false} LastTokenNoWhitespace(s: string)
    ensures NoWhitespace(LastToken(s))
  {
    if |s| > 0 {
      if IsWhitespace(s[|s| - 1]) {
        LastTokenNoWhitespace(s[..|s| - 1]);
      } else {
        TrailingWordShape(s);
      }
    }
  }

  lemma {:induction false} LastTokenEmpty(s: string)
    ensures LastToken(s) == "" <==> AllWhitespace(s)
  {
    if |s| > 0 {
      var p := s[..|s| - 1];
      assert s == p + [s[|s| - 1]];
      if IsWhitespace(s[|s| - 1]) {
        LastTokenEmpty(p);
        AllWhitespaceSnoc(p, s[|s| - 1]);
      } else {
        TrailingWordShape(s);
      }
    }
  }

  lemma TokenAtSnoc(p: string, t: string, k: int, c: char)
    requires TokenAt(p, t, k) && IsWhitespace(c)
    ensures TokenAt(p + [c], t, k)
  {
    var s := p + [c];
    assert s[k..k + |t|] == p[k..k + |t|];
    assert s[k + |t|..] == p[k + |t|..] + [c];
    AllWhitespaceSnoc(p[k + |t|..], c);
    if k > 0 { assert s[k - 1] == p[k - 1]; }
  }

  lemma TokenAtEnd(s: string)
    ensures TokenAt(s, TrailingWord(s), |s| - |TrailingWord(s)|)
  {
    TrailingWordShape(s);
    var t := TrailingWord(s);
    assert s[|s| - |t| + |t|..] == "";
  }

  lemma {:induction false} LastTokenPlace(s: string)
    ensures exists k :: TokenAt(s, LastToken(s), k)
  {
    if |s| == 0 {
      assert TokenAt(s, LastToken(s), 0);
    } else if IsWhitespace(s[|s| - 1]) {
      var p := s[..|s| - 1];
      assert s == p + [s[|s| - 1]];
      LastTokenPlace(p);
      var k :| TokenAt(p, LastToken(p), k);
      TokenAtSnoc(p, LastToken(p), k, s[|s| - 1]);
      assert LastToken(s) == LastToken(p);
      assert TokenAt(s, LastToken(s), k);
    } else {
      TokenAtEnd(s);
      assert LastToken(s) == TrailingWord(s);
      assert TokenAt(s, LastToken(s), |s| - |TrailingWord(s)|);
    }
  }

  /**
   * The table-name rule: the last token holds no whitespace, it is preceded
   * by whitespace (or starts s) and only whitespace follows it; it is empty
   * exactly when s is all whitespace.
   */
  lemma LastTokenShape(s: string)
    ensures var t := LastToken(s);
      && NoWhitespace(t)
      && (t == "" <==> AllWhitespace(s))
      && exists k :: TokenAt(s, t, k)
  {
    LastTokenNoWhitespace(s);
    LastTokenEmpty(s);
    LastTokenPlace(s);
  }

  // ---------------------------------------------------------------------
  // Padding and character codes.

  function Repeat(c: char, n: nat): (r: string)
    ensures |r| == n && forall i :: 0 <= i < n ==> r[i] == c
  {
    if n == 0 then "" else [c] + Repeat(c, n - 1)
  }

  /** `zfill(width)` of an unsigned decimal: left-pad with zeros to at least width characters. */
  function ZFill(s: string, width: nat): (r: string)
    ensures |r| == if |s| < width then width else |s|
    ensures r[|r| - |s|..] == s
    ensures forall i :: 0 <= i < |r| - |s| ==> r[i] == '0'
  {
    if |s| < width then Repeat('0', width - |s|) + s else s
  }

  /** Sum of the code points of s (each `char as u64`). */
  function CodeSum(s: string): nat {
    if |s| == 0 then 0 else CodeSum(s[..|s| - 1]) + s[|s| - 1] as nat
  }

  lemma {:induction false} CodeSumAppend(a: string, b: string)
    ensures CodeSum(a + b) == CodeSum(a) + CodeSum(b)
  {
    if |b| > 0 {
      assert (a + b)[..|a + b| - 1] == a + b[..|b| - 1];
      CodeSumAppend(a, b[..|b| - 1]);
    } else {
      assert a + b == a;
    }
  }

  function Pow10(k: nat): (r: nat)
    ensures r >= 1
  {
    if k == 0 then 1 else 10 * Pow10(k - 1)
  }

  lemma ParseNatSnoc(s: string)
    requires |s| > 1 && AllDigits(s)
    ensures AllDigits(s[..|s| - 1]) && ParseNat(s[..|s| - 1]).Some? && ParseNat(s).Some?
    ensures ParseNat(s).value == ParseNat(s[..|s| - 1]).value * 10 + DigitValue(s[|s| - 1])
  {
    assert AllDigits(s[..|s| - 1]);
  }

  lemma ShiftDigits(x: nat, y: nat, p: nat, d: nat)
    ensures (x * p + y) * 10 + d == x * (10 * p) + (y * 10 + d)
  {
  }

  /** Reading digits a then digits b: a's value shifted left by |b| places, plus b's. */
  lemma {:induction false} ParseNatAppend(a: string, b: string)
    requires |a| > 0 && |b| > 0 && AllDigits(a) && AllDigits(b)
    ensures ParseNat(a).Some? && ParseNat(b).Some? && ParseNat(a + b).Some?
    ensures ParseNat(a + b).value == ParseNat(a).value * Pow10(|b|) + ParseNat(b).value
  {
    var s := a + b;
    assert AllDigits(s);
    ParseNatSnoc(s);
    assert s[|s| - 1] == b[|b| - 1];
    if |b| == 1 {
      assert s[..|s| - 1] == a;
    } else {
      var b' := b[..|b| - 1];
      assert s[..|s| - 1] == a + b';
      ParseNatSnoc(b);
      ParseNatAppend(a, b');
      ShiftDigits(ParseNat(a).value, ParseNat(b').value, Pow10(|b'|), DigitValue(b[|b| - 1]));
    }
  }

  lemma {:induction false} ParseZeros(k: nat)
    requires k > 0
    ensures AllDigits(Repeat('0', k)) && ParseNat(Repeat('0', k)) == Some(0)
  {
    var z := Repeat('0', k);
    if k > 1 {
      assert z[..k - 1] == Repeat('0', k - 1);
      ParseZeros(k - 1);
    }
  }

  /** Leading zeros do not change the value read. */
  lemma ParseZeroPadded(s: string, width: nat)
    requires |s| > 0 && AllDigits(s)
    ensures AllDigits(ZFill(s, width)) && ParseNat(ZFill(s, width)) == ParseNat(s)
  {
    if |s| < width {
      var z := Repeat('0', width - |s|);
      ParseZeros(width - |s|);
      ParseNatAppend(z, s);
      assert ZFill(s, width) == z + s;
    }
  }

  lemma {:induction false} NatTextLength(n: nat, k: nat)
    requires k >= 1 && n < Pow10(k)
    ensures |NatText(n)| <= k
  {
    if n >= 10 {
      assert k >= 2;
      NatTextLength(n / 10, k - 1);
    }
  }
}
