/** The string operations of the JavaScript runtime that the extractor relies on:
    `split` and `join` with a one-character separator, `replace` of a one-character
    pattern, and the decimal grammar read by `parseInt`, `parseFloat` and `Number`. */
module Text {
  import opened Common

  // ---------------------------------------------------------------------------
  // Splitting and joining

  /** Position of the first occurrence of `c` in `s`. */
  function IndexOf(s: string, c: char): (i: nat)
    requires c in s
    ensures i < |s| && s[i] == c && c !in s[..i]
  {
    if s[0] == c then 0
    else
      var j := IndexOf(s[1..], c);
      assert s[..j + 1] == [s[0]] + s[1..][..j];
      j + 1
  }

  /** `s.split(sep)`: the pieces of `s` between the occurrences of `sep`, in order.
      There is always at least one piece, and no piece contains the separator. */
  function Split(s: string, sep: char): (parts: seq<string>)
    ensures |parts| >= 1
    ensures sep in s ==> |parts| >= 2
    ensures forall k :: 0 <= k < |parts| ==> sep !in parts[k]
    decreases |s|
  {
    if sep !in s then [s]
    else
      var i := IndexOf(s, sep);
      [s[..i]] + Split(s[i + 1..], sep)
  }

  /** `parts.join(sep)`. */
  function Join(parts: seq<string>, sep: char): string
  {
    if |parts| == 0 then ""
    else if |parts| == 1 then parts[0]
    else parts[0] + [sep] + Join(parts[1..], sep)
  }

  /** The first occurrence of the separator is found right after a separator-free prefix. */
  lemma IndexOfAfterPrefix(a: string, c: char, b: string)
    requires c !in a
    ensures IndexOf(a + [c] + b, c) == |a|
  {
    var s := a + [c] + b;
    assert forall k :: 0 <= k < |a| ==> s[k] == a[k];
    assert s[|a|] == c;
  }

  /** Splitting at a separator that follows a separator-free prefix. */
  lemma SplitAfterPrefix(a: string, c: char, b: string)
    requires c !in a
    ensures Split(a + [c] + b, c) == [a] + Split(b, c)
  {
    var s := a + [c] + b;
    IndexOfAfterPrefix(a, c, b);
    assert s[..|a|] == a;
    assert s[|a| + 1..] == b;
  }

  /** Joining the pieces of a split gives the string back. */
  lemma {:induction false} JoinOfSplit(s: string, sep: char)
    ensures Join(Split(s, sep), sep) == s
    decreases |s|
  {
    if sep in s {
      var i := IndexOf(s, sep);
      var rest := s[i + 1..];
      JoinOfSplit(rest, sep);
      var parts := Split(s, sep);
      assert parts == [s[..i]] + Split(rest, sep);
      assert parts[1..] == Split(rest, sep);
      assert s == s[..i] + [sep] + rest;
    }
  }

  /** Splitting the join of separator-free pieces gives the pieces back. */
  lemma {:induction false} SplitOfJoin(parts: seq<string>, sep: char)
    requires |parts| >= 1
    requires forall k :: 0 <= k < |parts| ==> sep !in parts[k]
    ensures Split(Join(parts, sep), sep) == parts
  {
    if |parts| > 1 {
      var rest := Join(parts[1..], sep);
      SplitOfJoin(parts[1..], sep);
      SplitAfterPrefix(parts[0], sep, rest);
      assert Join(parts, sep) == parts[0] + [sep] + rest;
      assert parts == [parts[0]] + parts[1..];
    }
  }

  /** A character that occurs in no piece occurs nowhere in the join. */
  lemma {:induction false} JoinAvoids(parts: seq<string>, sep: char, c: char)
    requires c != sep
    requires forall k :: 0 <= k < |parts| ==> c !in parts[k]
    ensures c !in Join(parts, sep)
  {
    if |parts| > 1 {
      JoinAvoids(parts[1..], sep, c);
    }
  }

  /** `s.replace(c, '')` for a one-character pattern: only the first occurrence goes. */
  function RemoveFirst(s: string, c: char): (r: string)
    ensures c !in s ==> r == s
    ensures c in s ==> |r| == |s| - 1 && r == s[..IndexOf(s, c)] + s[IndexOf(s, c) + 1..]
  {
    if c in s then
      var i := IndexOf(s, c);
      s[..i] + s[i + 1..]
    else s
  }

  // ---------------------------------------------------------------------------
  // Decimal digits

  predicate IsDigit(c: char)
  {
    '0' <= c <= '9'
  }

  /** The white space that `parseInt`, `parseFloat` and `Number` skip: space, and tab
      through carriage return. */
  predicate IsSpace(c: char)
  {
    c == ' ' || '\t' <= c <= '\r'
  }

  predicate AllDigits(s: string)
  {
    forall k :: 0 <= k < |s| ==> IsDigit(s[k])
  }

  function DigitValue(c: char): nat
    requires IsDigit(c)
  {
    c as int - '0' as int
  }

  function DigitChar(d: nat): (c: char)
    requires d < 10
    ensures IsDigit(c) && DigitValue(c) == d
  {
    ('0' as int + d) as char
  }

  /** The value of a string of decimal digits, most significant digit first. */
  function DigitsValue(s: string): nat
    requires AllDigits(s)
  {
    if |s| == 0 then 0 else 10 * DigitsValue(s[..|s| - 1]) + DigitValue(s[|s| - 1])
  }

  /** The text JavaScript writes for a non-negative integer: its decimal digits, with no
      leading zero except for zero itself. */
  function NatToDecimal(n: nat): (s: string)
    ensures |s| >= 1 && AllDigits(s)
    ensures s[0] == '0' <==> n == 0
    ensures n == 0 ==> s == "0"
  {
    if n < 10 then [DigitChar(n)] else NatToDecimal(n / 10) + [DigitChar(n % 10)]
  }

  /** The text JavaScript writes for an integer. */
  function IntToDecimal(i: int): string
  {
    if i < 0 then "-" + NatToDecimal(-i) else NatToDecimal(i)
  }

  /** Reading back the decimal text of a number gives the number. */
  lemma {:induction false} DecimalRoundTrip(n: nat)
    ensures DigitsValue(NatToDecimal(n)) == n
  {
    if n >= 10 {
      DecimalRoundTrip(n / 10);
      var s := NatToDecimal(n);
      assert s[..|s| - 1] == NatToDecimal(n / 10);
    }
  }

  /** The array index a property key denotes: a non-empty digit string with no leading
      zero other than "0" itself. */
  function CanonicalIndex(key: string): Option<nat>
  {
    if |key| > 0 && AllDigits(key) && (key[0] != '0' || key == "0") then Some(DigitsValue(key))
    else None
  }

  /** The key JavaScript makes of an integer names that array index exactly when the
      integer is not negative. */
  lemma CanonicalIndexOfDecimal(i: int)
    ensures CanonicalIndex(IntToDecimal(i)) == if i >= 0 then Some(i) else None
  {
    if i >= 0 {
      DecimalRoundTrip(i);
    } else {
      assert IntToDecimal(i)[0] == '-';
    }
  }

  // ---------------------------------------------------------------------------
  // Number grammar: white space, a sign, digits, an optional fraction

  /** The longest prefix of `s` made of decimal digits. */
  function DigitPrefix(s: string): (p: string)
    ensures AllDigits(p) && |p| <= |s| && p == s[..|p|]
    ensures |p| < |s| ==> !IsDigit(s[|p|])
  {
    if |s| > 0 && IsDigit(s[0]) then [s[0]] + DigitPrefix(s[1..]) else ""
  }

  function TrimStart(s: string): string
  {
    if |s| > 0 && IsSpace(s[0]) then TrimStart(s[1..]) else s
  }

  function TrimEnd(s: string): string
  {
    if |s| > 0 && IsSpace(s[|s| - 1]) then TrimEnd(s[..|s| - 1]) else s
  }

  /** An optional leading sign and what follows it. */
  datatype Signed = Signed(negative: bool, rest: string)

  function ReadSign(s: string): Signed
  {
    if |s| > 0 && (s[0] == '-' || s[0] == '+') then Signed(s[0] == '-', s[1..]) else Signed(false, s)
  }

  function Pow10(k: nat): (p: nat)
    ensures p >= 1
  {
    if k == 0 then 1 else 10 * Pow10(k - 1)
  }

  /** The value of `intDigits.fracDigits`. */
  function DecimalValue(intDigits: string, fracDigits: string): real
    requires AllDigits(intDigits) && AllDigits(fracDigits)
  {
    (DigitsValue(intDigits + fracDigits) as real) / (Pow10(|fracDigits|) as real)
  }

  /** `digits [ "." digits ]` read from the front of a string, and what is left. */
  datatype DecimalScan = DecimalScan(intDigits: string, fracDigits: string, rest: string)

  function ScanDecimal(s: string): (d: DecimalScan)
    ensures AllDigits(d.intDigits) && AllDigits(d.fracDigits)
  {
    var ip := DigitPrefix(s);
    var after := s[|ip|..];
    if |after| > 0 && after[0] == '.' then
      var fp := DigitPrefix(after[1..]);
      DecimalScan(ip, fp, after[1 + |fp|..])
    else DecimalScan(ip, "", after)
  }

  function Negate(negative: bool, v: real): real
  {
    if negative then -v else v
  }

  /** `parseInt(s)` without a radix: skip white space, read a sign and the longest run of
      decimal digits; no digit at all is NaN (`None`). */
  function ParseInt(s: string): Option<int>
  {
    var sg := ReadSign(TrimStart(s));
    var ds := DigitPrefix(sg.rest);
    if |ds| == 0 then None
    else Some(if sg.negative then -(DigitsValue(ds) as int) else DigitsValue(ds))
  }

  /** `parseFloat(s)`: skip white space, read a sign and the longest decimal prefix; no
      digit at all is NaN (`None`). */
  function ParseFloat(s: string): Option<real>
  {
    var sg := ReadSign(TrimStart(s));
    var d := ScanDecimal(sg.rest);
    if |d.intDigits| + |d.fracDigits| == 0 then None
    else Some(Negate(sg.negative, DecimalValue(d.intDigits, d.fracDigits)))
  }

  /** `Number(s)`: white space alone is 0; otherwise the whole trimmed text must be one
      signed decimal, or the result is NaN (`None`). */
  function StringToNumber(s: string): Option<real>
  {
    var t := TrimEnd(TrimStart(s));
    if t == "" then Some(0.0)
    else
      var sg := ReadSign(t);
      var d := ScanDecimal(sg.rest);
      if |d.intDigits| + |d.fracDigits| == 0 || d.rest != "" then None
      else Some(Negate(sg.negative, DecimalValue(d.intDigits, d.fracDigits)))
  }

  lemma DigitPrefixOfDigits(s: string)
    requires AllDigits(s)
    ensures DigitPrefix(s) == s
  {
  }

  lemma TrimOfDigits(s: string)
    requires |s| >= 1 && AllDigits(s)
    ensures TrimStart(s) == s && TrimEnd(s) == s
  {
  }

  /** `parseInt` reads back the decimal text of every integer. */
  lemma ParseIntOfDecimal(i: int)
    ensures ParseInt(IntToDecimal(i)) == Some(i)
  {
    if i < 0 {
      ParseIntOfNegative(-i);
    } else {
      ParseIntOfNatural(i);
    }
  }

  lemma ParseIntOfNatural(n: nat)
    ensures ParseInt(NatToDecimal(n)) == Some(n)
  {
    var ds := NatToDecimal(n);
    DigitPrefixOfDigits(ds);
    DecimalRoundTrip(n);
    TrimOfDigits(ds);
    assert ReadSign(TrimStart(ds)) == Signed(false, ds);
  }

  lemma ParseIntOfNegative(n: nat)
    ensures ParseInt("-" + NatToDecimal(n)) == Some(-(n as int))
  {
    var ds := NatToDecimal(n);
    DigitPrefixOfDigits(ds);
    DecimalRoundTrip(n);
    assert ReadSign(TrimStart("-" + ds)) == Signed(true, ds);
  }

  /** `Number` reads back the decimal text of every natural number. */
  lemma StringToNumberOfDecimal(n: nat)
    ensures StringToNumber(NatToDecimal(n)) == Some(n as real)
  {
    var ds := NatToDecimal(n);
    TrimOfDigits(ds);
    assert ReadSign(ds) == Signed(false, ds);
    ScanDecimalOfDigits(ds);
    DecimalRoundTrip(n);
    assert ds + "" == ds;
  }

  lemma ScanDecimalOfDigits(ds: string)
    requires AllDigits(ds)
    ensures ScanDecimal(ds) == DecimalScan(ds, "", "")
  {
    DigitPrefixOfDigits(ds);
    assert ds[|ds|..] == "";
  }
}
