/** The two JavaScript string built-ins the request guards depend on:
    `String.prototype.split` with a one-character separator, which the
    bearer-header guard uses to cut `Authorization`, and the global
    `parseInt` with no radix, which the activation guard applies to `uid`. */
module JsText {
  import opened Outcomes

  // ---------------------------------------------------------------------------
  // Digits

  /** Value of `c` as a digit of radix up to 36 (`0-9`, `a-z`, `A-Z`), or -1. */
  function DigitValue(c: char): int {
    if '0' <= c <= '9' then c as int - '0' as int
    else if 'a' <= c <= 'z' then c as int - 'a' as int + 10
    else if 'A' <= c <= 'Z' then c as int - 'A' as int + 10
    else -1
  }

  predicate IsDigitIn(c: char, radix: nat) {
    0 <= DigitValue(c) < radix
  }

  predicate AllDigitsIn(s: string, radix: nat) {
    forall i :: 0 <= i < |s| ==> IsDigitIn(s[i], radix)
  }

  /** Length of the longest prefix of `s` made of digits of `radix`. */
  function DigitRun(s: string, radix: nat): (n: nat)
    ensures n <= |s|
    ensures AllDigitsIn(s[..n], radix)
    ensures n < |s| ==> !IsDigitIn(s[n], radix)
  {
    if s == [] || !IsDigitIn(s[0], radix) then 0
    else
      var n := 1 + DigitRun(s[1..], radix);
      assert s[..n] == [s[0]] + s[1..][..n - 1];
      n
  }

  /** Value of a string of digits of `radix`, most significant digit first. */
  function ValueIn(s: string, radix: nat): nat
    requires AllDigitsIn(s, radix)
  {
    if s == [] then 0
    else
      assert AllDigitsIn(s[..|s| - 1], radix);
      ValueIn(s[..|s| - 1], radix) * radix + DigitValue(s[|s| - 1])
  }

  /** The decimal rendering of a natural number, without leading zeros. */
  function DecimalString(n: nat): (s: string)
    ensures |s| > 0
    ensures forall i :: 0 <= i < |s| ==> '0' <= s[i] <= '9'
    ensures s[0] == '0' <==> n == 0
    decreases n
  {
    var d := (n % 10 + '0' as int) as char;
    if n < 10 then [d] else DecimalString(n / 10) + [d]
  }

  lemma {:induction false} DecimalStringValue(n: nat)
    ensures AllDigitsIn(DecimalString(n), 10)
    ensures ValueIn(DecimalString(n), 10) == n
    decreases n
  {
    var s := DecimalString(n);
    if n >= 10 {
      DecimalStringValue(n / 10);
      assert s[..|s| - 1] == DecimalString(n / 10);
    }
  }

  // ---------------------------------------------------------------------------
  // parseInt

  /** The characters `parseInt` skips before the number (ECMAScript's
      WhiteSpace and LineTerminator productions). */
  predicate IsJsWhiteSpace(c: char) {
    c == '\t' || c == '\n' || c == '\U{000B}' || c == '\U{000C}' || c == '\r' || c == ' '
    || c == '\U{00A0}' || c == '\U{1680}' || ('\U{2000}' <= c <= '\U{200A}')
    || c == '\U{2028}' || c == '\U{2029}' || c == '\U{202F}' || c == '\U{205F}'
    || c == '\U{3000}' || c == '\U{FEFF}'
  }

  function TrimStart(s: string): (r: string)
    ensures |r| <= |s| && r == s[|s| - |r|..]
    ensures r == [] || !IsJsWhiteSpace(r[0])
  {
    if s != [] && IsJsWhiteSpace(s[0]) then TrimStart(s[1..]) else s
  }

  /** `parseInt(s)` called without a radix; `None` stands for `NaN`. Leading
      white space is skipped, one sign is read, a `0x`/`0X` prefix selects
      radix 16, and the longest run of digits that follows is the number;
      an empty run gives `NaN`. */
  function ParseInt(s: string): (r: Option<int>)
    ensures (forall i :: 0 <= i < |s| ==> !IsDigitIn(s[i], 10)) ==> r.None?
    ensures r.Some? && r.value < 0 ==> TrimStart(s) != [] && TrimStart(s)[0] == '-'
  {
    var t := TrimStart(s);
    assert forall i :: 0 <= i < |t| ==> t[i] == s[|s| - |t| + i];
    ParseSigned(t)
  }

  /** `parseInt` once the white space is gone: an optional sign, then the
      unsigned number. */
  function ParseSigned(t: string): (r: Option<int>)
    ensures (forall i :: 0 <= i < |t| ==> !IsDigitIn(t[i], 10)) ==> r.None?
    ensures r.Some? && r.value < 0 ==> t != [] && t[0] == '-'
  {
    match UnsignedPart(AfterSign(t))
    case None => None
    case Some(v) => var i: int := v; Some(if t != [] && t[0] == '-' then -i else i)
  }

  /** `t` without its leading sign, if it has one. */
  function AfterSign(t: string): string {
    if t != [] && (t[0] == '-' || t[0] == '+') then t[1..] else t
  }

  /** The longest digit run of `d + tail` is `d` when `tail` does not start
      with a digit. */
  lemma {:induction false} DigitRunStopsAtTail(d: string, tail: string, radix: nat)
    requires AllDigitsIn(d, radix)
    requires tail == [] || !IsDigitIn(tail[0], radix)
    ensures DigitRun(d + tail, radix) == |d|
    ensures (d + tail)[..|d|] == d
    decreases |d|
  {
    var s := d + tail;
    if d == [] {
      assert s == tail;
    } else {
      assert AllDigitsIn(d[1..], radix) by {
        assert forall i :: 0 <= i < |d| - 1 ==> d[1..][i] == d[i + 1];
      }
      DigitRunStopsAtTail(d[1..], tail, radix);
      assert d == [d[0]] + d[1..];
      assert s == [d[0]] + (d[1..] + tail);
      assert s[0] == d[0] && IsDigitIn(d[0], radix);
      assert s[1..] == d[1..] + tail;
    }
    assert s[..|d|] == d;
  }

  /** What `parseInt` does once white space and sign are gone. */
  function UnsignedPart(u: string): Option<nat> {
    var hex := |u| >= 2 && u[0] == '0' && (u[1] == 'x' || u[1] == 'X');
    var radix := if hex then 16 else 10;
    var digits := if hex then u[2..] else u;
    var n := DigitRun(digits, radix);
    if n == 0 then None else Some(ValueIn(digits[..n], radix))
  }

  lemma UnsignedDecimal(n: nat, tail: string)
    requires tail == [] || !IsDigitIn(tail[0], 10)
    requires n == 0 && tail != [] ==> tail[0] != 'x' && tail[0] != 'X'
    ensures UnsignedPart(DecimalString(n) + tail) == Some(n)
  {
    var d := DecimalString(n);
    DecimalStringValue(n);
    DigitRunStopsAtTail(d, tail, 10);
    if |d + tail| >= 2 && (d + tail)[0] == '0' {
      assert d == "0";
      assert (d + tail)[1] == tail[0];
    }
  }

  /** `parseInt` reads back the decimal rendering of a number (with a minus
      sign: below) and ignores whatever follows it as long as the rest does
      not continue the number (a further digit, or an `x` that would turn a
      lone `0` into a hex prefix). */
  lemma ParseIntReadsLeadingDecimal(n: nat, tail: string)
    requires tail == [] || !IsDigitIn(tail[0], 10)
    requires n == 0 && tail != [] ==> tail[0] != 'x' && tail[0] != 'X'
    ensures ParseInt(DecimalString(n) + tail) == Some(n)
  {
    var d := DecimalString(n) + tail;
    UnsignedDecimal(n, tail);
    assert d[0] == DecimalString(n)[0];
    assert '0' <= d[0] <= '9';
    assert !IsJsWhiteSpace(d[0]);
    assert TrimStart(d) == d;
    assert AfterSign(d) == d;
    assert UnsignedPart(d) == Some(n);
  }

  lemma ParseIntReadsLeadingNegative(n: nat, tail: string)
    requires tail == [] || !IsDigitIn(tail[0], 10)
    requires n == 0 && tail != [] ==> tail[0] != 'x' && tail[0] != 'X'
    ensures ParseInt("-" + (DecimalString(n) + tail)) == Some(-(n as int))
  {
    var d := DecimalString(n) + tail;
    UnsignedDecimal(n, tail);
    var m := "-" + d;
    assert !IsJsWhiteSpace(m[0]);
    assert TrimStart(m) == m;
    assert AfterSign(m) == d;
    assert UnsignedPart(AfterSign(TrimStart(m))) == Some(n);
  }

  predicate AllZeros(z: string) {
    forall i :: 0 <= i < |z| ==> z[i] == '0'
  }

  lemma {:induction false} ValueInZeros(z: string)
    requires AllZeros(z)
    ensures AllDigitsIn(z, 10) && ValueIn(z, 10) == 0
    decreases |z|
  {
    if z != [] {
      ValueInZeros(z[..|z| - 1]);
    }
  }

  /** Leading zeros do not change the value of a digit string. */
  lemma {:induction false} ValueInLeadingZeros(z: string, d: string)
    requires AllZeros(z) && AllDigitsIn(d, 10)
    ensures AllDigitsIn(z + d, 10) && ValueIn(z + d, 10) == ValueIn(d, 10)
    decreases |d|
  {
    var s := z + d;
    forall i | 0 <= i < |s|
      ensures IsDigitIn(s[i], 10)
    {
      if i < |z| {
        assert s[i] == z[i];
      } else {
        assert s[i] == d[i - |z|];
      }
    }
    if d == [] {
      assert s == z;
      ValueInZeros(z);
    } else {
      var init := d[..|d| - 1];
      assert AllDigitsIn(init, 10);
      ValueInLeadingZeros(z, init);
      assert s[..|s| - 1] == z + init;
      assert s[|s| - 1] == d[|d| - 1];
    }
  }

  /** The digit run of `zeros + DecimalString(n) + tail` is everything before
      `tail`, and its value is `n`. */
  lemma PaddedDecimalRun(zeros: string, n: nat, tail: string)
    requires AllZeros(zeros)
    requires tail == [] || !IsDigitIn(tail[0], 10)
    ensures var zd := zeros + DecimalString(n);
      && DigitRun(zd + tail, 10) == |zd|
      && AllDigitsIn(zd, 10)
      && (zd + tail)[..|zd|] == zd
      && ValueIn(zd, 10) == n
  {
    var d := DecimalString(n);
    DecimalStringValue(n);
    ValueInLeadingZeros(zeros, d);
    DigitRunStopsAtTail(zeros + d, tail, 10);
  }

  lemma UnsignedPadded(zeros: string, n: nat, tail: string)
    requires AllZeros(zeros)
    requires tail == [] || !IsDigitIn(tail[0], 10)
    requires n == 0 && zeros == [] && tail != [] ==> tail[0] != 'x' && tail[0] != 'X'
    ensures UnsignedPart(zeros + DecimalString(n) + tail) == Some(n)
    ensures (zeros + DecimalString(n) + tail)[0] == (zeros + DecimalString(n))[0]
    ensures IsDigitIn((zeros + DecimalString(n) + tail)[0], 10)
  {
    var d := DecimalString(n);
    var zd := zeros + d;
    PaddedDecimalRun(zeros, n, tail);
    var u := zd + tail;
    assert zeros + d + tail == u;
    if |u| >= 2 && u[0] == '0' {
      if zeros == [] {
        assert d[0] == '0';
        assert d == "0";
        assert u[1] == tail[0];
      } else {
        assert |zd| >= 2 && u[1] == zd[1];
        assert IsDigitIn(u[1], 10);
      }
    }
  }

  lemma {:induction false} TrimStartSkips(ws: string, t: string)
    requires forall i :: 0 <= i < |ws| ==> IsJsWhiteSpace(ws[i])
    requires t == [] || !IsJsWhiteSpace(t[0])
    ensures TrimStart(ws + t) == t
    decreases |ws|
  {
    if ws == [] {
      assert ws + t == t;
    } else {
      TrimStartSkips(ws[1..], t);
      assert (ws + t)[1..] == ws[1..] + t;
    }
  }

  /** White space before the number is skipped. */
  lemma ParseIntAfterWhiteSpace(ws: string, t: string)
    requires forall i :: 0 <= i < |ws| ==> IsJsWhiteSpace(ws[i])
    requires t == [] || !IsJsWhiteSpace(t[0])
    ensures ParseInt(ws + t) == ParseSigned(t)
  {
    TrimStartSkips(ws, t);
  }

  /** One sign before a digit string: `-` negates, `+` and no sign do not. */
  lemma ParseSignedDigits(sign: string, u: string, v: nat)
    requires sign == "" || sign == "+" || sign == "-"
    requires u != [] && IsDigitIn(u[0], 10)
    requires UnsignedPart(u) == Some(v)
    ensures ParseSigned(sign + u) == Some(if sign == "-" then -(v as int) else v)
    ensures !IsJsWhiteSpace((sign + u)[0])
  {
    var t := sign + u;
    assert !IsJsWhiteSpace(t[0]) by {
      if sign == "" {
        assert t[0] == u[0] && '0' <= u[0] <= '9';
      } else {
        assert t[0] == sign[0] && (sign[0] == '+' || sign[0] == '-');
      }
    }
    assert AfterSign(t) == u by {
      if sign == "" {
        assert t == u;
      } else {
        assert t[1..] == u;
      }
    }
  }

  /** What `parseInt` skips before the number: white space, one sign, and
      leading zeros (which cannot form a `0x` prefix, being followed by a
      digit). */
  lemma ParseIntSkipsPadding(ws: string, sign: string, zeros: string, n: nat, tail: string)
    requires forall i :: 0 <= i < |ws| ==> IsJsWhiteSpace(ws[i])
    requires sign == "" || sign == "+" || sign == "-"
    requires AllZeros(zeros)
    requires tail == [] || !IsDigitIn(tail[0], 10)
    requires n == 0 && zeros == [] && tail != [] ==> tail[0] != 'x' && tail[0] != 'X'
    ensures ParseInt(ws + (sign + (zeros + DecimalString(n) + tail))) == Some(if sign == "-" then -(n as int) else n)
  {
    var u := zeros + DecimalString(n) + tail;
    UnsignedPadded(zeros, n, tail);
    ParseSignedDigits(sign, u, n);
    ParseIntAfterWhiteSpace(ws, sign + u);
  }

  /** A `0x` prefix reads the digits as hexadecimal: `"0x1F"` is 31. */
  lemma ParseIntReadsHexPrefix()
    ensures ParseInt("0x1F") == Some(31)
  {
    var s := "0x1F";
    assert !IsJsWhiteSpace(s[0]) && TrimStart(s) == s;
    assert AfterSign(s) == s;
    var digits := s[2..];
    assert digits == "1F";
    assert DigitRun(digits[1..], 16) == 1 by {
      assert digits[1..][1..] == [];
    }
    assert DigitRun(digits, 16) == 2;
    assert digits[..2] == digits;
    assert digits[..1] == "1";
    assert ValueIn("1", 16) == 1 by {
      assert "1"[..0] == [];
    }
    assert ValueIn(digits, 16) == 31;
  }

  // ---------------------------------------------------------------------------
  // split

  /** `s.split(sep)` for a one-character separator: the pieces of `s` between
      occurrences of `sep`, always at least one. */
  function Split(s: string, sep: char): (parts: seq<string>)
    ensures |parts| >= 1
    ensures forall i :: 0 <= i < |parts| ==> sep !in parts[i]
    decreases |s|
  {
    if s == [] then [""] else Push(s[0], Split(s[1..], sep), sep)
  }

  /** The pieces of `[c] + t`, from the pieces `rest` of `t`: a separator
      opens a new empty piece, any other character joins the first piece. */
  function Push(c: char, rest: seq<string>, sep: char): (parts: seq<string>)
    requires |rest| >= 1
    requires forall i :: 0 <= i < |rest| ==> sep !in rest[i]
    ensures |parts| >= 1
    ensures forall i :: 0 <= i < |parts| ==> sep !in parts[i]
  {
    if c == sep then [""] + rest else [[c] + rest[0]] + rest[1..]
  }

  lemma PushAppend(c: char, p: seq<string>, q: seq<string>, sep: char)
    requires |p| >= 1 && |q| >= 1
    requires forall i :: 0 <= i < |p| ==> sep !in p[i]
    requires forall i :: 0 <= i < |q| ==> sep !in q[i]
    ensures Push(c, p + q, sep) == Push(c, p, sep) + q
  {
    assert (p + q)[0] == p[0];
    assert (p + q)[1..] == p[1..] + q;
  }

  /** `parts.join(sep)`. */
  function Join(parts: seq<string>, sep: char): string
    requires |parts| >= 1
  {
    if |parts| == 1 then parts[0] else parts[0] + [sep] + Join(parts[1..], sep)
  }

  /** Splitting loses nothing: joining the pieces gives back the string. */
  lemma {:induction false} JoinSplit(s: string, sep: char)
    ensures Join(Split(s, sep), sep) == s
    decreases |s|
  {
    if s != [] {
      JoinSplit(s[1..], sep);
      var rest := Split(s[1..], sep);
      if s[0] == sep {
        assert ([""] + rest)[1..] == rest;
      } else if |rest| > 1 {
        var parts := [[s[0]] + rest[0]] + rest[1..];
        assert parts[1..] == rest[1..];
        assert Join(rest, sep) == rest[0] + [sep] + Join(rest[1..], sep);
      }
      assert s == [s[0]] + s[1..];
    }
  }

  lemma {:induction false} SplitSepFree(a: string, sep: char)
    requires sep !in a
    ensures Split(a, sep) == [a]
    decreases |a|
  {
    if a != [] {
      SplitSepFree(a[1..], sep);
      assert a == [a[0]] + a[1..];
    }
  }

  /** One separator between `a` and `b` makes the pieces of `a` and of `b`. */
  lemma {:induction false} SplitAround(a: string, b: string, sep: char)
    ensures Split(a + [sep] + b, sep) == Split(a, sep) + Split(b, sep)
    decreases |a|
  {
    var s := a + [sep] + b;
    if a == [] {
      assert s[1..] == b;
    } else {
      SplitAround(a[1..], b, sep);
      assert s[0] == a[0] && s[1..] == a[1..] + [sep] + b;
      PushAppend(a[0], Split(a[1..], sep), Split(b, sep), sep);
    }
  }
}
