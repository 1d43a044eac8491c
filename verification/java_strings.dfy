/** The few pieces of java.lang the command handler leans on: the `\s`
    character class, `String.trim().isEmpty()`, `String.split("\\s+", n)`,
    `Integer.parseInt` and `Integer.toString`, and 32-bit `int` arithmetic. */
module JavaStrings {
  import opened Optional

  const Int32Min: int := -0x8000_0000
  const Int32Max: int := 0x7FFF_FFFF

  predicate IsInt32(n: int) {
    Int32Min <= n <= Int32Max
  }

  /** Java's `n++` on an int: two's-complement wrap-around at the top. */
  function Increment32(n: int): (r: int)
    requires IsInt32(n)
    ensures IsInt32(r)
    ensures r == n + 1 || (n == Int32Max && r == Int32Min)
  {
    if n == Int32Max then Int32Min else n + 1
  }

  /** Increment32 is addition of one modulo 2^32, read back into the int
      range: its result is the one int congruent to n + 1, and it differs
      from n + 1 only at Integer.MAX_VALUE. */
  lemma Increment32IsModular(n: int, r: int)
    requires IsInt32(n) && IsInt32(r)
    ensures r == Increment32(n) <==> (r - (n + 1)) % 0x1_0000_0000 == 0
    ensures Increment32(n) != n + 1 <==> n == Int32Max
  {
    if (r - (n + 1)) % 0x1_0000_0000 == 0 {
      var q := (r - (n + 1)) / 0x1_0000_0000;
      assert r - (n + 1) == q * 0x1_0000_0000;
      if n == Int32Max {
        assert q == -1;
      } else {
        assert q == 0;
      }
    }
  }

  // ---------------------------------------------------------------- characters

  /** The regex class `\s`: space, tab, newline, vertical tab, form feed, carriage return. */
  predicate IsSpace(ch: char) {
    ch == ' ' || 9 <= ch as int <= 13
  }

  predicate NoSpace(t: string) {
    forall k :: 0 <= k < |t| ==> !IsSpace(t[k])
  }

  /** A maximal-run candidate for `\s+`: non-empty and all whitespace. */
  predicate IsSeparator(t: string) {
    t != [] && forall k :: 0 <= k < |t| ==> IsSpace(t[k])
  }

  predicate NotSpaceLed(t: string) {
    t == [] || !IsSpace(t[0])
  }

  /** `t.trim().isEmpty()`: trim strips every character at or below U+0020. */
  predicate Blank(t: string) {
    forall k :: 0 <= k < |t| ==> t[k] as int <= 32
  }

  /** `String.trim()`: drop every leading and every trailing character at or
      below U+0020. */
  function Trim(t: string): string {
    TrimEnd(TrimStart(t))
  }

  function TrimStart(t: string): (r: string)
    ensures |r| <= |t| && r == t[|t| - |r|..]
  {
    if t != [] && t[0] as int <= 32 then TrimStart(t[1..]) else t
  }

  function TrimEnd(t: string): (r: string)
    ensures |r| <= |t| && r == t[..|r|]
  {
    if t != [] && t[|t| - 1] as int <= 32 then TrimEnd(t[..|t| - 1]) else t
  }

  lemma {:induction false} TrimStartBlank(t: string)
    ensures Blank(TrimStart(t)) <==> Blank(t)
  {
    if t != [] && t[0] as int <= 32 {
      TrimStartBlank(t[1..]);
      assert Blank(t) <==> Blank(t[1..]) by {
        if Blank(t[1..]) {
          forall k | 0 <= k < |t| ensures t[k] as int <= 32 {
            if k > 0 { assert t[1..][k - 1] == t[k]; }
          }
        }
      }
    }
  }

  lemma {:induction false} TrimEndEmpty(t: string)
    ensures TrimEnd(t) == [] <==> Blank(t)
  {
    if t != [] && t[|t| - 1] as int <= 32 {
      var u := t[..|t| - 1];
      TrimEndEmpty(u);
      assert Blank(t) <==> Blank(u) by {
        if Blank(u) {
          forall k | 0 <= k < |t| ensures t[k] as int <= 32 {
            if k < |u| { assert u[k] == t[k]; }
          }
        }
      }
    }
  }

  /** `trim().isEmpty()` holds exactly for the strings Blank accepts. */
  lemma BlankIsTrimEmpty(t: string)
    ensures Blank(t) <==> Trim(t) == []
  {
    TrimStartBlank(t);
    TrimEndEmpty(TrimStart(t));
  }

  // ---------------------------------------------------------------- splitting

  /** Index of the first whitespace character, or |t| when there is none. */
  function FirstSpace(t: string): (i: nat)
    ensures i <= |t|
    ensures NoSpace(t[..i])
    ensures i < |t| ==> IsSpace(t[i])
  {
    if t == [] then 0
    else if IsSpace(t[0]) then 0
    else
      var j := FirstSpace(t[1..]);
      assert t[..1 + j] == [t[0]] + t[1..][..j];
      1 + j
  }

  /** Length of the whitespace run at the front of t. */
  function LeadingSpaces(t: string): (n: nat)
    ensures n <= |t|
    ensures forall k :: 0 <= k < n ==> IsSpace(t[k])
    ensures NotSpaceLed(t[n..])
  {
    if t == [] || !IsSpace(t[0]) then 0
    else 1 + LeadingSpaces(t[1..])
  }

  /** `t.split("\\s+", 2)`: the text before the first whitespace run and
      everything after that run, or `[t]` when t holds no whitespace. */
  function SplitOnce(t: string): (parts: seq<string>)
    ensures |parts| == 1 || |parts| == 2
    ensures |parts| == 1 <==> NoSpace(t)
    ensures |parts| == 1 ==> parts[0] == t
    ensures |parts| == 2 ==>
      && NoSpace(parts[0])
      && NotSpaceLed(parts[1])
      && exists sep :: IsSeparator(sep) && t == parts[0] + sep + parts[1]
  {
    var i := FirstSpace(t);
    if i == |t| then
      assert t[..i] == t;
      [t]
    else
      var rest := t[i..];
      var n := LeadingSpaces(rest);
      var sep := rest[..n];
      assert IsSeparator(sep);
      assert t == t[..i] + sep + rest[n..];
      assert !NoSpace(t) by { assert IsSpace(t[i]); }
      [t[..i], rest[n..]]
  }

  /** Two words joined by one space split back into those words. */
  lemma SplitOnceJoined(a: string, b: string)
    requires NoSpace(a) && NotSpaceLed(b)
    ensures SplitOnce(a + " " + b) == [a, b]
  {
    var t := a + " " + b;
    var i := FirstSpace(t);
    assert t[|a|] == ' ';
    assert forall k :: 0 <= k < |a| ==> t[k] == a[k];
    assert i == |a|;
    assert t[i..] == " " + b;
    assert LeadingSpaces(t[i..]) == 1 by {
      assert t[i..][1..] == b;
    }
    assert t[..i] == a;
    assert t[i..][1..] == b;
  }

  /** `t.split("\\s+", 3)`: like SplitOnce, but the remainder is split once more. */
  function SplitTwice(t: string): (parts: seq<string>)
    ensures 1 <= |parts| <= 3
    ensures |parts| < 3 ==> parts == SplitOnce(t)
    ensures |parts| == 3 <==> |SplitOnce(t)| == 2 && !NoSpace(SplitOnce(t)[1])
    ensures |parts| == 3 ==>
      && NoSpace(parts[0])
      && NoSpace(parts[1])
      && parts[1] != []
      && NotSpaceLed(parts[2])
      && exists sep1, sep2 :: IsSeparator(sep1) && IsSeparator(sep2)
                              && t == parts[0] + sep1 + parts[1] + sep2 + parts[2]
  {
    var first := SplitOnce(t);
    if |first| == 1 then first
    else
      var second := SplitOnce(first[1]);
      if |second| == 1 then first
      else
        SplitTwiceShape(t, first, second);
        [first[0], second[0], second[1]]
  }

  lemma SplitTwiceShape(t: string, first: seq<string>, second: seq<string>)
    requires |first| == 2 && first == SplitOnce(t)
    requires |second| == 2 && second == SplitOnce(first[1])
    ensures second[0] != []
    ensures exists sep1, sep2 :: IsSeparator(sep1) && IsSeparator(sep2)
                                 && t == first[0] + sep1 + second[0] + sep2 + second[1]
  {
    var sep1 :| IsSeparator(sep1) && t == first[0] + sep1 + first[1];
    var sep2 :| IsSeparator(sep2) && first[1] == second[0] + sep2 + second[1];
    var mid, last := second[0], second[1];
    calc {
      t;
      first[0] + sep1 + first[1];
      first[0] + sep1 + (mid + sep2 + last);
      { SeqAssoc5(first[0], sep1, mid, sep2, last); }
      first[0] + sep1 + mid + sep2 + last;
    }
  }

  lemma SeqAssoc5<T>(a: seq<T>, b: seq<T>, c: seq<T>, d: seq<T>, e: seq<T>)
    ensures a + b + (c + d + e) == a + b + c + d + e
  {
  }

  // ---------------------------------------------------------------- integers

  predicate IsDigit(ch: char) {
    '0' <= ch <= '9'
  }

  predicate AllDigits(t: string) {
    forall k :: 0 <= k < |t| ==> IsDigit(t[k])
  }

  /** The value of a decimal numeral, most significant digit first. */
  function DigitsValue(t: string): nat
    requires AllDigits(t)
  {
    if t == [] then 0
    else DigitsValue(t[..|t| - 1]) * 10 + (t[|t| - 1] as int - '0' as int)
  }

  /** `Integer.parseInt(t)`: an optional sign followed by at least one digit,
      whose value fits in 32 bits; None stands for NumberFormatException. */
  function ParseInt(t: string): (r: Option<int>)
    ensures r.Some? ==> IsInt32(r.value)
    ensures r.Some? ==> t != [] && (IsDigit(t[0]) || t[0] == '-' || t[0] == '+')
    ensures t == [] ==> r == None
  {
    if t == [] then None
    else
      var signed := t[0] == '-' || t[0] == '+';
      var digits := if signed then t[1..] else t;
      if digits == [] || !AllDigits(digits) then None
      else
        var v: int := if t[0] == '-' then 0 - DigitsValue(digits) else DigitsValue(digits);
        if IsInt32(v) then Some(v) else None
  }

  /** A character after the first that is not a digit makes parseInt throw,
      so `/join 1x` and `/join 1 2` are malformed. */
  lemma ParseIntRejectsNonDigit(t: string, k: int)
    requires 0 < k < |t| && !IsDigit(t[k])
    ensures ParseInt(t) == None
  {
    if t[0] == '-' || t[0] == '+' {
      assert t[1..][k - 1] == t[k];
    }
  }

  /** An unsigned or `+`-signed numeral denotes its digits' value, leading
      zeros included, and a `-`-signed one its negation, within the int range;
      outside that range, and for a lone sign, parseInt throws. */
  lemma ParseIntDigits(t: string)
    requires t != [] && AllDigits(t)
    ensures DigitsValue(t) <= Int32Max ==>
      ParseInt(t) == Some(DigitsValue(t)) && ParseInt("+" + t) == Some(DigitsValue(t))
    ensures DigitsValue(t) <= -Int32Min ==> ParseInt("-" + t) == Some(0 - DigitsValue(t) as int)
    ensures DigitsValue(t) > Int32Max ==> ParseInt(t) == None && ParseInt("+" + t) == None
    ensures DigitsValue(t) > -Int32Min ==> ParseInt("-" + t) == None
    ensures ParseInt("-") == None && ParseInt("+") == None
  {
    assert ("+" + t)[1..] == t;
    assert ("-" + t)[1..] == t;
  }

  function DigitChar(d: nat): (ch: char)
    requires d < 10
    ensures IsDigit(ch) && ch as int - '0' as int == d
  {
    ('0' as int + d) as char
  }

  /** Decimal numeral of a natural number without leading zeros. */
  function NatToString(n: nat): (t: string)
    ensures t != [] && AllDigits(t)
  {
    if n < 10 then [DigitChar(n)]
    else NatToString(n / 10) + [DigitChar(n % 10)]
  }

  /** `Integer.toString(n)` (also what `"..." + n` produces). */
  function IntToString(n: int): (t: string)
    ensures t != [] && NoSpace(t)
    ensures n >= 0 ==> IsDigit(t[0])
  {
    if n < 0 then "-" + NatToString(-n) else NatToString(n)
  }

  lemma {:induction false} NatToStringValue(n: nat)
    ensures DigitsValue(NatToString(n)) == n
  {
    if n >= 10 {
      var t := NatToString(n);
      assert t[..|t| - 1] == NatToString(n / 10);
      NatToStringValue(n / 10);
    }
  }

  /** Distinct ints have distinct decimal texts. */
  lemma IntToStringInjective(a: int, b: int)
    requires IntToString(a) == IntToString(b)
    ensures a == b
  {
    var t := IntToString(a);
    if a < 0 && b < 0 {
      assert t[1..] == NatToString(-a) && t[1..] == NatToString(-b);
      NatToStringValue(-a);
      NatToStringValue(-b);
    } else if a >= 0 && b >= 0 {
      NatToStringValue(a);
      NatToStringValue(b);
    }
  }

  /** Every int the server prints, parseInt reads back unchanged. */
  lemma ParseIntToString(n: int)
    requires IsInt32(n)
    ensures ParseInt(IntToString(n)) == Some(n)
  {
    var t := IntToString(n);
    if n < 0 {
      assert t[1..] == NatToString(-n);
      NatToStringValue(-n);
    } else {
      NatToStringValue(n);
    }
  }
}
