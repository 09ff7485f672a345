/** String operations the life grid uses: decimal rendering of integers (the
    template literals `${n}`), JavaScript's `parseInt` without a radix,
    `split` on one character, and `replace` of the first occurrence of a
    character. */
module Text {
  import opened Wrappers

  // ---------------------------------------------------------------------
  // Decimal rendering

  function Digit(d: nat): (c: char)
    requires d < 10
    ensures '0' <= c <= '9'
  {
    ('0' as int + d) as char
  }

  predicate AllDecimalDigits(s: string) {
    forall i :: 0 <= i < |s| ==> '0' <= s[i] <= '9'
  }

  /** `${n}` for a natural number: its decimal digits, most significant first. */
  function DecimalString(n: nat): (s: string)
    ensures |s| >= 1
    ensures AllDecimalDigits(s)
    decreases n
  {
    if n < 10 then [Digit(n)] else DecimalString(n / 10) + [Digit(n % 10)]
  }

  /** `${i}` for any integer. */
  function IntToString(i: int): (s: string)
    ensures i >= 0 ==> s == DecimalString(i)
    ensures i < 0 ==> s == "-" + DecimalString(-i)
  {
    if i >= 0 then DecimalString(i) else "-" + DecimalString(-i)
  }

  // ---------------------------------------------------------------------
  // parseInt(s) with no radix argument

  /** The white space and line terminators `parseInt` skips at the start of its input. */
  predicate IsJsSpace(c: char) {
    var n := c as int;
    n == 0x09 || n == 0x0A || n == 0x0B || n == 0x0C || n == 0x0D || n == 0x20
    || n == 0xA0 || n == 0x1680 || (0x2000 <= n <= 0x200A) || n == 0x2028 || n == 0x2029
    || n == 0x202F || n == 0x205F || n == 0x3000 || n == 0xFEFF
  }

  function TrimStart(s: string): (r: string)
    ensures |r| <= |s| && r == s[|s| - |r|..]
    ensures |r| > 0 ==> !IsJsSpace(r[0])
    decreases |s|
  {
    if |s| > 0 && IsJsSpace(s[0]) then TrimStart(s[1..]) else s
  }

  /** The value of `c` as a digit in `radix` (10 or 16), if it is one. */
  function DigitValue(c: char, radix: nat): (r: Option<nat>)
    ensures r.Some? ==> r.value < radix
  {
    var d :=
      if '0' <= c <= '9' then (c as int - '0' as int)
      else if 'a' <= c <= 'z' then (c as int - 'a' as int) + 10
      else if 'A' <= c <= 'Z' then (c as int - 'A' as int) + 10
      else 36;
    if d < radix then Some(d) else None
  }

  predicate AllDigits(s: string, radix: nat) {
    forall i :: 0 <= i < |s| ==> DigitValue(s[i], radix).Some?
  }

  /** The number of leading characters of `s` that are digits in `radix`. */
  function DigitRun(s: string, radix: nat): (n: nat)
    ensures n <= |s|
    ensures AllDigits(s[..n], radix)
    ensures n < |s| ==> DigitValue(s[n], radix).None?
    decreases |s|
  {
    if |s| == 0 || DigitValue(s[0], radix).None? then 0
    else
      var rest := DigitRun(s[1..], radix);
      assert s[1..][..rest] == s[1..1 + rest];
      assert s[..1 + rest] == [s[0]] + s[1..1 + rest];
      1 + rest
  }

  /** The number written by a run of digits, most significant first. */
  function DigitsValue(s: string, radix: nat): nat
    requires AllDigits(s, radix)
    decreases |s|
  {
    if |s| == 0 then 0
    else DigitsValue(s[..|s| - 1], radix) * radix + DigitValue(s[|s| - 1], radix).value
  }

  /** The unsigned part of `parseInt`: a `0x`/`0X` prefix selects radix 16,
      then the longest run of digits is read; no digits at all is NaN (`None`). */
  function ParseMagnitude(u: string): Option<nat> {
    var hex := |u| >= 2 && u[0] == '0' && (u[1] == 'x' || u[1] == 'X');
    var radix := if hex then 16 else 10;
    var body := if hex then u[2..] else u;
    var n := DigitRun(body, radix);
    if n == 0 then None else Some(DigitsValue(body[..n], radix))
  }

  /** `parseInt(s)`: skip leading white space, read one optional sign, then
      the magnitude. The value is exact (the rounding of integers beyond 2^53
      is not modelled) and `-0` is 0. */
  function ParseInt(s: string): (r: Option<int>)
    ensures |TrimStart(s)| == 0 ==> r.None?
    ensures |TrimStart(s)| > 0 && TrimStart(s)[0] !in "+-0123456789" ==> r.None?
    ensures r.Some? && r.value < 0 ==> TrimStart(s)[0] == '-'
  {
    var t := TrimStart(s);
    var negative := |t| > 0 && t[0] == '-';
    var u := if |t| > 0 && (t[0] == '-' || t[0] == '+') then t[1..] else t;
    assert (|t| == 0 || t[0] !in "+-0123456789") ==> ParseMagnitude(u).None? by {
      if |t| == 0 || t[0] !in "+-0123456789" {
        MagnitudeNeedsDigit(u);
      }
    }
    match ParseMagnitude(u)
    case None => None
    case Some(m) =>
      var v: int := if negative then -(m as int) else m;
      Some(v)
  }

  /** Text that does not start with a decimal digit has no magnitude. */
  lemma MagnitudeNeedsDigit(u: string)
    requires |u| == 0 || u[0] !in "0123456789"
    ensures ParseMagnitude(u).None?
  {
    if |u| > 0 {
      assert DigitValue(u[0], 10).None?;
    }
  }

  lemma DecimalDigitsAreDigits(s: string)
    requires AllDecimalDigits(s)
    ensures AllDigits(s, 10)
    ensures forall i :: 0 <= i < |s| ==> DigitValue(s[i], 10) == Some(s[i] as int - '0' as int)
  {
  }

  lemma {:induction false} DigitRunOfDigits(s: string, radix: nat)
    requires AllDigits(s, radix)
    ensures DigitRun(s, radix) == |s|
    decreases |s|
  {
    if |s| > 0 {
      DigitRunOfDigits(s[1..], radix);
    }
  }

  /** Reading back the decimal rendering of `n` gives `n`. */
  lemma {:induction false} DecimalValue(n: nat)
    ensures AllDigits(DecimalString(n), 10)
    ensures DigitsValue(DecimalString(n), 10) == n
    decreases n
  {
    var s := DecimalString(n);
    DecimalDigitsAreDigits(s);
    if n >= 10 {
      var p := DecimalString(n / 10);
      DecimalValue(n / 10);
      assert s == p + [Digit(n % 10)];
      assert s[..|s| - 1] == p;
    }
  }

  /** A decimal rendering is read back whole, in radix 10. */
  lemma ParseMagnitudeOfDecimal(n: nat)
    ensures ParseMagnitude(DecimalString(n)) == Some(n)
  {
    var d := DecimalString(n);
    DecimalValue(n);
    DecimalDigitsAreDigits(d);
    DigitRunOfDigits(d, 10);
    assert !(|d| >= 2 && d[1] == 'x');
    assert !(|d| >= 2 && d[1] == 'X');
    assert d[..|d|] == d;
  }

  /** `parseInt` of a string that starts with neither white space nor a sign
      is its magnitude. */
  lemma ParseIntUnsigned(u: string)
    requires |u| > 0 && !IsJsSpace(u[0]) && u[0] != '-' && u[0] != '+'
    requires ParseMagnitude(u).Some?
    ensures ParseInt(u) == Some(ParseMagnitude(u).value as int)
  {
    assert TrimStart(u) == u;
  }

  /** `parseInt` of a minus sign followed by a magnitude is its negation. */
  lemma ParseIntNegative(u: string, m: nat)
    requires ParseMagnitude(u) == Some(m)
    ensures ParseInt("-" + u) == Some(-(m as int))
  {
    var s := "-" + u;
    assert s[0] == '-' && !IsJsSpace(s[0]);
    assert TrimStart(s) == s;
    assert s[1..] == u;
    var t := TrimStart(s);
    assert |t| > 0 && t[0] == '-' && t[1..] == u;
  }

  /** `parseInt` inverts the decimal rendering of every integer. */
  lemma ParseIntRoundTrip(i: int)
    ensures ParseInt(IntToString(i)) == Some(i)
  {
    if i >= 0 {
      ParseIntOfDecimal(i);
    } else {
      var n: nat := -i;
      assert IntToString(i) == "-" + DecimalString(n);
      ParseIntOfNegatedDecimal(n);
    }
  }

  lemma ParseIntOfDecimal(n: nat)
    ensures ParseInt(DecimalString(n)) == Some(n as int)
  {
    var d := DecimalString(n);
    ParseMagnitudeOfDecimal(n);
    assert '0' <= d[0] <= '9';
    assert !IsJsSpace(d[0]);
    ParseIntUnsigned(d);
  }

  lemma ParseIntOfNegatedDecimal(n: nat)
    ensures ParseInt("-" + DecimalString(n)) == Some(-(n as int))
  {
    ParseMagnitudeOfDecimal(n);
    ParseIntNegative(DecimalString(n), n);
  }

  // ---------------------------------------------------------------------
  // split, join and first-occurrence replacement

  function Count(s: string, c: char): nat
    decreases |s|
  {
    if |s| == 0 then 0 else (if s[0] == c then 1 else 0) + Count(s[1..], c)
  }

  /** `s.split(sep)` for a one-character separator: the pieces between the
      separators, left to right, including empty ones. */
  function Split(s: string, sep: char): (parts: seq<string>)
    ensures |parts| >= 1
    ensures forall k :: 0 <= k < |parts| ==> sep !in parts[k]
    decreases |s|
  {
    if |s| == 0 then [""]
    else
      var rest := Split(s[1..], sep);
      if s[0] == sep then [""] + rest else [[s[0]] + rest[0]] + rest[1..]
  }

  /** `parts.join(sep)`. */
  function Join(parts: seq<string>, sep: char): string
    requires |parts| >= 1
    decreases |parts|
  {
    if |parts| == 1 then parts[0] else parts[0] + [sep] + Join(parts[1..], sep)
  }

  /** Splitting loses nothing: joining the pieces with the separator gives the text back. */
  lemma {:induction false} JoinSplit(s: string, sep: char)
    ensures Join(Split(s, sep), sep) == s
    decreases |s|
  {
    if |s| > 0 {
      var rest := Split(s[1..], sep);
      JoinSplit(s[1..], sep);
      if s[0] == sep {
        assert Split(s, sep)[1..] == rest;
        assert s == [sep] + s[1..];
      } else {
        var parts := Split(s, sep);
        if |rest| == 1 {
          assert parts == [[s[0]] + rest[0]];
        } else {
          assert parts[1..] == rest[1..];
          assert Join(rest, sep) == rest[0] + [sep] + Join(rest[1..], sep);
        }
        assert s == [s[0]] + s[1..];
      }
    }
  }

  /** There is one more piece than there are separators. */
  lemma {:induction false} SplitCount(s: string, sep: char)
    ensures |Split(s, sep)| == Count(s, sep) + 1
    decreases |s|
  {
    if |s| > 0 {
      SplitCount(s[1..], sep);
    }
  }

  /** The position of the first `c` in `s`. */
  function FirstIndex(s: string, c: char): (i: nat)
    requires c in s
    ensures i < |s| && s[i] == c && c !in s[..i]
    decreases |s|
  {
    if s[0] == c then 0
    else
      var j := FirstIndex(s[1..], c);
      assert s[..j + 1] == [s[0]] + s[1..][..j];
      j + 1
  }

  /** `s.replace(c, "")` for a one-character pattern: only the first
      occurrence of `c` is removed. */
  function RemoveFirst(s: string, c: char): (r: string)
    ensures c !in s ==> r == s
    ensures c in s ==> var i := FirstIndex(s, c); r == s[..i] + s[i + 1..]
    ensures c in s ==> |r| == |s| - 1 && Count(r, c) == Count(s, c) - 1
    ensures |s| > 0 && s[0] == c ==> r == s[1..]
    decreases |s|
  {
    if |s| == 0 then s
    else if s[0] == c then s[1..]
    else
      var t := RemoveFirst(s[1..], c);
      var r := [s[0]] + t;
      assert r[0] == s[0] && r[1..] == t;
      assert c in s ==> c in s[1..];
      assert c in s ==> Count(r, c) == Count(s, c) - 1;
      assert c in s ==> var i := FirstIndex(s, c); r == s[..i] + s[i + 1..] by {
        if c in s {
          RemoveFirstStep(s, c, t);
        }
      }
      r
  }

  /** The first `c` of `s`, when `s` starts with another character, is the
      first `c` of its tail, one position on. */
  lemma RemoveFirstStep(s: string, c: char, t: string)
    requires c in s && s[0] != c
    requires var j := FirstIndex(s[1..], c); t == s[1..][..j] + s[1..][j + 1..]
    ensures var i := FirstIndex(s, c); [s[0]] + t == s[..i] + s[i + 1..]
  {
    var j := FirstIndex(s[1..], c);
    assert FirstIndex(s, c) == j + 1;
    assert s[..j + 1] == [s[0]] + s[1..][..j];
    assert s[j + 2..] == s[1..][j + 1..];
  }

  /** Only the first of two '#' goes: "a#b#" becomes "ab#". */
  lemma RemoveFirstOfTwo()
    ensures RemoveFirst("a#b#", '#') == "ab#"
  {
    assert FirstIndex("a#b#", '#') == 1 by {
      assert "a#b#"[..1] == "a";
    }
    assert "a#b#"[..1] + "a#b#"[2..] == "ab#";
  }
}
