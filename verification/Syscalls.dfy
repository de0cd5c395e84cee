/** Printing and reading numbers in syscalls.c: printnum, the flags and the %d case of vprintfmt, and
    atol. */
module Syscalls {
  import opened Powers

  // ----- numerals

  /** The digits of a number, the highest first. */
  function Digits(num: nat, base: nat): (d: seq<nat>)
    requires base >= 2
    ensures |d| > 0 && forall i :: 0 <= i < |d| ==> d[i] < base
  {
    if num < base then [num]
    else
      QuotientPositive(num, base);
      Digits(num / base, base) + [num % base]
  }

  /** The number that digits, of whatever sign, stand for. */
  function FromDigits(d: seq<int>, base: nat): int {
    if d == [] then 0 else FromDigits(d[..|d| - 1], base) * base + d[|d| - 1]
  }

  lemma {:induction false} FromSnoc(d: seq<int>, x: int, base: nat)
    ensures FromDigits(d + [x], base) == FromDigits(d, base) * base + x
  {
    assert (d + [x])[..|d|] == d;
  }

  /** The digits stand for the number. */
  lemma {:induction false} DigitsValue(num: nat, base: nat)
    requires base >= 2
    ensures FromDigits(Digits(num, base), base) == num
  {
    hide FromDigits;
    if num < base {
      FromSnoc([], num, base);
      NoDigits(base);
      assert [] + [num] == Digits(num, base);
    } else {
      DigitsValue(num / base, base);
      FromSnoc(Digits(num / base, base), num % base, base);
    }
  }

  lemma {:induction false} NoDigits(base: nat)
    ensures FromDigits([], base) == 0
  {
  }

  /** Only the number 0 has a leading digit 0. */
  lemma {:induction false} NoLeadingZero(num: nat, base: nat)
    requires base >= 2
    ensures Digits(num, base)[0] == 0 <==> num == 0
    ensures num == 0 ==> Digits(num, base) == [0]
  {
    if num >= base {
      NoLeadingZero(num / base, base);
      QuotientPositive(num, base);
    }
  }

  lemma {:induction false} QuotientPositive(num: nat, base: nat)
    requires num >= base >= 2
    ensures 0 < num / base <= num / 2
  {
  }

  /** A number below 2^k has at most k digits in any base. */
  lemma {:induction false} DigitsFit(num: nat, base: nat, k: nat)
    requires base >= 2 && k > 0 && num < Pow2(k)
    ensures |Digits(num, base)| <= k
    decreases k
  {
    if num >= base {
      QuotientPositive(num, base);
      DigitsFit(num / base, base, k - 1);
    }
  }

  function DigitChar(d: nat): char
    requires d < 36
  {
    if d >= 10 then 'a' + (d - 10) as char else '0' + d as char
  }

  function Chars(d: seq<nat>): (s: string)
    requires forall i :: 0 <= i < |d| ==> d[i] < 36
    ensures |s| == |d| && forall i :: 0 <= i < |s| ==> s[i] == DigitChar(d[i])
  {
    seq(|d|, i requires 0 <= i < |d| => DigitChar(d[i]))
  }

  function Numeral(num: nat, base: nat): (s: string)
    requires 2 <= base <= 36
    ensures |s| > 0
  {
    Chars(Digits(num, base))
  }

  function Repeat(c: char, n: int): (s: string)
    ensures |s| == if n > 0 then n else 0
    ensures forall i :: 0 <= i < |s| ==> s[i] == c
  {
    if n <= 0 then [] else Repeat(c, n - 1) + [c]
  }

  /** The text, filled up on the left to the given width. */
  function Padded(s: string, width: int, padc: char): (t: string)
    ensures |t| == if width > |s| then width else |s|
  {
    Repeat(padc, width - |s|) + s
  }

  // ----- printnum

  class Output {
    var text: string

    constructor ()
      ensures text == ""
    {
      text := "";
    }

    method Putch(ch: char)
      modifies this
      ensures text == old(text) + [ch]
    {
      text := text + [ch];
    }
  }

  lemma {:induction false} DigitTaken(num: nat, base: nat, low: seq<nat>, all: seq<nat>)
    requires base >= 2 && all == Digits(num, base) + low
    ensures all == if num < base then [num % base] + low else Digits(num / base, base) + ([num % base] + low)
  {
    if num < base {
      assert num % base == num;
    }
  }

  /** Fill the digit buffer, the lowest digit first. It has 64 entries, one a bit. */
  method FillDigits(num0: nat, base: nat, digs: array<nat>) returns (pos: nat)
    requires 2 <= base && num0 < Pow2(64) && digs.Length == 64
    modifies digs
    ensures pos == |Digits(num0, base)| <= 64
    ensures forall j :: 0 <= j < pos ==> digs[j] == Digits(num0, base)[pos - 1 - j]
  {
    hide Digits, Pow2;
    var num: nat := num0;
    ghost var all, low: seq<nat> := Digits(num0, base), [];
    DigitsFit(num0, base, 64);
    pos := 0;
    while true
      invariant pos == |low| < |all| <= 64 && all == Digits(num, base) + low
      invariant forall j :: 0 <= j < pos ==> digs[j] == low[pos - 1 - j]
      decreases num
    {
      DigitTaken(num, base, low, all);
      digs[pos] := num % base;
      low := [num % base] + low;
      pos := pos + 1;
      if num < base {
        break;
      }
      QuotientPositive(num, base);
      num := num / base;
    }
  }

  lemma {:induction false} RepeatNext(c: char, n: int)
    requires n >= 0
    ensures Repeat(c, n + 1) == Repeat(c, n) + [c]
  {
  }

  /** The number in the given base, at least as wide as asked for, with padding on the left. */
  method PrintNum(out: Output, num: nat, base: nat, width0: int, padc: char)
    requires 2 <= base <= 36 && num < Pow2(64)
    modifies out
    ensures out.text == old(out.text) + Padded(Numeral(num, base), width0, padc)
  {
    hide Digits, Pow2, Repeat, Chars;
    var digs := new nat[64];
    var pos := FillDigits(num, base, digs);
    ghost var was, all, s := out.text, Digits(num, base), Numeral(num, base);
    assert s == Chars(all);
    var width := width0;
    ghost var n, buffer := 0, digs[..];
    NothingRepeated(padc, was);
    while width > pos
      invariant n >= 0 && width == width0 - n && (n > 0 ==> width >= pos)
      invariant digs[..] == buffer
      invariant out.text == was + Repeat(padc, n)
      decreases width - pos
    {
      RepeatNext(padc, n);
      out.Putch(padc);
      n := n + 1;
      width := width - 1;
    }
    NoneRepeated(padc, width0 - pos, n);
    ghost var pad := Repeat(padc, n);
    assert forall j :: 0 <= j < pos ==> buffer[j] == all[|all| - 1 - j];
    assert s[..0] == [] && was + pad + s[..0] == was + pad;
    while pos > 0
      invariant 0 <= pos <= |s|
      invariant digs[..] == buffer
      invariant out.text == was + pad + s[..|s| - pos]
    {
      pos := pos - 1;
      out.Putch(DigitChar(digs[pos]));
      assert s[..|s| - pos] == s[..|s| - pos - 1] + [s[|s| - pos - 1]];
    }
    assert s[..|s|] == s;
  }

  lemma {:induction false} NothingRepeated(c: char, was: string)
    ensures was == was + Repeat(c, 0)
  {
  }

  lemma {:induction false} NoneRepeated(c: char, m: int, n: int)
    requires n >= 0 && (m == n || (n == 0 && m <= 0))
    ensures Repeat(c, m) == Repeat(c, n)
  {
  }

  // ----- the %d case of vprintfmt

  function Magnitude(n: int): nat {
    if n < 0 then -n else n
  }

  /** The sign comes before the padding. */
  function Decimal(n: int, width: int, padc: char): string {
    (if n < 0 then "-" else "") + Padded(Numeral(Magnitude(n), 10), width, padc)
  }

  method PrintDecimal(out: Output, n: int, width: int, padc: char)
    requires Magnitude(n) < Pow2(63)
    modifies out
    ensures out.text == old(out.text) + Decimal(n, width, padc)
  {
    hide Padded, Numeral, Pow2;
    var num := n;
    if num < 0 {
      out.Putch('-');
      num := -num;
    }
    PowerStep(63);
    PrintNum(out, num, 10, width, padc);
  }

  lemma {:induction false} PowerStep(n: nat)
    ensures Pow2(n + 1) == 2 * Pow2(n)
  {
  }

  // ----- atol

  function SkipSpaces(s: string): string {
    if s != [] && s[0] == ' ' then SkipSpaces(s[1..]) else s
  }

  /** What each character counts for, digit or not. */
  function Values(s: string): (d: seq<int>)
    ensures |d| == |s| && forall i :: 0 <= i < |s| ==> d[i] == s[i] as int - '0' as int
  {
    seq(|s|, i requires 0 <= i < |s| => s[i] as int - '0' as int)
  }

  predicate Signed(s: string) {
    s != [] && (s[0] == '-' || s[0] == '+')
  }

  /** What the accumulation loop reads: all that follows the spaces and a sign. */
  function Unsigned(s: string): string {
    var t := SkipSpaces(s);
    if Signed(t) then t[1..] else t
  }

  predicate Negative(s: string) {
    var t := SkipSpaces(s);
    t != [] && t[0] == '-'
  }

  /** The number atol reads, on unbounded integers. */
  function AtolValue(s: string): int {
    var v := FromDigits(Values(Unsigned(s)), 10);
    if Negative(s) then -v else v
  }

  method Atol(str: string) returns (res: int)
    ensures res == AtolValue(str)
  {
    hide FromDigits, Values;
    var i := 0;
    while i < |str| && str[i] == ' '
      invariant 0 <= i <= |str| && SkipSpaces(str[i..]) == SkipSpaces(str)
    {
      assert str[i..][1..] == str[i + 1..];
      i := i + 1;
    }
    ghost var t := str[i..];
    assert t == SkipSpaces(str);
    var negative := false;
    if i < |str| && (str[i] == '-' || str[i] == '+') {
      negative := str[i] == '-';
      i := i + 1;
    }
    ghost var digits := str[i..];
    assert digits == Unsigned(str) && negative == Negative(str);
    res := ReadDigits(str, i);
    if negative {
      res := -res;
    }
  }

  /** The accumulation loop, up to the end of the string. */
  method ReadDigits(str: string, from: nat) returns (res: int)
    requires from <= |str|
    ensures res == FromDigits(Values(str[from..]), 10)
  {
    hide FromDigits, Values;
    ghost var s := str[from..];
    var i := from;
    res := 0;
    NoValues(s);
    while i < |str|
      invariant from <= i <= |str| && res == FromDigits(Values(s[..i - from]), 10)
    {
      ValuesNext(s, i - from);
      res := res * 10;
      res := res + (str[i] as int - '0' as int);
      i := i + 1;
    }
    assert s[..|s|] == s;
  }

  lemma {:induction false} NoValues(s: string)
    ensures FromDigits(Values(s[..0]), 10) == 0
  {
    NoDigits(10);
    assert Values(s[..0]) == [];
  }

  lemma {:induction false} ValuesNext(s: string, i: nat)
    requires i < |s|
    ensures FromDigits(Values(s[..i + 1]), 10) == FromDigits(Values(s[..i]), 10) * 10 + (s[i] as int - '0' as int)
  {
    hide FromDigits;
    FromSnoc(Values(s[..i]), s[i] as int - '0' as int, 10);
    assert Values(s[..i + 1]) == Values(s[..i]) + [s[i] as int - '0' as int];
  }

  // ----- reading back what was printed

  function Pow10(n: nat): (p: nat)
    ensures p > 0
  {
    if n == 0 then 1 else 10 * Pow10(n - 1)
  }

  /** 1, 11, 111, ... */
  function Ones(k: nat): (r: nat)
    ensures k > 0 ==> r > 0
  {
    if k == 0 then 0 else 10 * Ones(k - 1) + 1
  }

  lemma {:induction false} FromJoin(x: seq<int>, y: seq<int>)
    ensures FromDigits(x + y, 10) == FromDigits(x, 10) * Pow10(|y|) + FromDigits(y, 10)
    decreases |y|
  {
    if y == [] {
      assert x + y == x;
      NoDigits(10);
    } else {
      var y', d := y[..|y| - 1], y[|y| - 1];
      FromJoin(x, y');
      assert x + y == (x + y') + [d] && y == y' + [d];
      JoinValue(FromDigits(x, 10), Pow10(|y'|), FromDigits(y', 10), FromDigits(x + y', 10), d);
      FromSnoc(x + y', d, 10);
      FromSnoc(y', d, 10);
    }
  }

  lemma {:induction false} JoinValue(x: int, p: int, y: int, xy: int, d: int)
    requires xy == x * p + y
    ensures xy * 10 + d == x * (10 * p) + (y * 10 + d)
  {
  }

  lemma {:induction false} NumeralValues(num: nat)
    ensures FromDigits(Values(Numeral(num, 10)), 10) == num
  {
    hide Digits, FromDigits;
    DigitsValue(num, 10);
    assert Values(Numeral(num, 10)) == Digits(num, 10);
  }

  lemma {:induction false} NumeralBound(num: nat)
    ensures num < Pow10(|Numeral(num, 10)|)
  {
    hide Chars;
    if num >= 10 {
      NumeralBound(num / 10);
    }
  }

  /** A run of one character. */
  lemma {:induction false} RepeatValue(c: char, k: nat)
    ensures FromDigits(Values(Repeat(c, k)), 10) == (c as int - '0' as int) * Ones(k)
  {
    hide FromDigits;
    if k == 0 {
      NoDigits(10);
      assert Values(Repeat(c, 0)) == [];
    } else {
      RepeatValue(c, k - 1);
      RepeatNext(c, k - 1);
      var s := Repeat(c, k);
      assert s[..k] == s && s[..k - 1] == Repeat(c, k - 1);
      ValuesNext(s, k - 1);
      OnesValue(c as int - '0' as int, Ones(k - 1));
    }
  }

  lemma {:induction false} OnesValue(v: int, r: nat)
    ensures v * r * 10 + v == v * (10 * r + 1)
  {
  }

  /** What the accumulation loop makes of k padding characters and a numeral. */
  function PaddedValue(num: nat, k: nat, padc: char): int {
    (padc as int - '0' as int) * Ones(k) * Pow10(|Numeral(num, 10)|) + num
  }

  lemma {:induction false} PaddedDigits(num: nat, k: nat, padc: char)
    ensures FromDigits(Values(Repeat(padc, k) + Numeral(num, 10)), 10) == PaddedValue(num, k, padc)
  {
    hide FromDigits, Repeat, Ones, Pow10, Numeral;
    var s, t := Repeat(padc, k), Numeral(num, 10);
    assert Values(s + t) == Values(s) + Values(t);
    FromJoin(Values(s), Values(t));
    RepeatValue(padc, k);
    NumeralValues(num);
  }

  /** The number of padding characters. */
  function Pads(n: int, width: int): nat {
    var d := |Numeral(Magnitude(n), 10)|;
    if width > d then width - d else 0
  }

  lemma {:induction false} PaddedIs(n: int, width: int, padc: char)
    ensures Padded(Numeral(Magnitude(n), 10), width, padc) == Repeat(padc, Pads(n, width)) + Numeral(Magnitude(n), 10)
  {
    NoneRepeated(padc, width - |Numeral(Magnitude(n), 10)|, Pads(n, width));
  }

  lemma {:induction false} NumeralStart(num: nat)
    ensures '0' <= Numeral(num, 10)[0] <= '9'
  {
    hide Digits;
    assert Digits(num, 10)[0] < 10;
  }

  lemma {:induction false} SkipRepeated(k: nat, s: string)
    requires s == [] || s[0] != ' '
    ensures SkipSpaces(Repeat(' ', k) + s) == s
  {
    if k == 0 {
      assert Repeat(' ', 0) + s == s;
    } else {
      SkipRepeated(k - 1, s);
      RepeatFirst(' ', k);
      assert (Repeat(' ', k) + s)[1..] == Repeat(' ', k - 1) + s;
    }
  }

  lemma {:induction false} RepeatFirst(c: char, k: nat)
    requires k > 0
    ensures Repeat(c, k) == [c] + Repeat(c, k - 1)
  {
    if k > 1 {
      RepeatFirst(c, k - 1);
      RepeatNext(c, k - 1);
      RepeatNext(c, k - 2);
      assert [c] + Repeat(c, k - 2) + [c] == [c] + (Repeat(c, k - 2) + [c]);
    }
  }

  /** The three padding characters that vprintfmt uses. */
  predicate PadChar(c: char) {
    c == ' ' || c == '0' || c == '-'
  }

  lemma {:induction false} NegativeValue(n: int, width: int, padc: char)
    requires n < 0
    ensures AtolValue(Decimal(n, width, padc)) == -PaddedValue(-n, Pads(n, width), padc)
  {
    hide FromDigits, Values, Repeat, Numeral, PaddedValue, Padded;
    PaddedIs(n, width, padc);
    var t := Repeat(padc, Pads(n, width)) + Numeral(-n, 10);
    var s := Decimal(n, width, padc);
    assert s == "-" + t && s[0] == '-' && s[1..] == t;
    PaddedDigits(-n, Pads(n, width), padc);
  }

  lemma {:induction false} SpacedValue(n: nat, width: int)
    ensures AtolValue(Decimal(n, width, ' ')) == n
  {
    hide FromDigits, Values, Repeat, Numeral, Padded;
    PaddedIs(n, width, ' ');
    NumeralStart(n);
    assert Decimal(n, width, ' ') == Repeat(' ', Pads(n, width)) + Numeral(n, 10);
    SkipRepeated(Pads(n, width), Numeral(n, 10));
    NumeralValues(n);
  }

  lemma {:induction false} PlainValue(n: nat, width: int, padc: char)
    requires padc == '0' || Pads(n, width) == 0
    ensures AtolValue(Decimal(n, width, padc)) == n
  {
    hide FromDigits, Values, Repeat, Numeral, Padded, Ones, Pow10;
    var k := Pads(n, width);
    PaddedIs(n, width, padc);
    NumeralStart(n);
    NoneRepeatedEmpty(padc, k);
    var s := Decimal(n, width, padc);
    assert s == Repeat(padc, k) + Numeral(n, 10);
    assert '0' <= s[0] <= '9';
    PaddedDigits(n, k, padc);
    ZeroPads(n, k, padc);
  }

  lemma {:induction false} NoneRepeatedEmpty(c: char, k: nat)
    ensures k == 0 ==> Repeat(c, k) == []
  {
  }

  lemma {:induction false} ZeroPads(num: nat, k: nat, padc: char)
    requires padc == '0' || k == 0
    ensures PaddedValue(num, k, padc) == num
  {
    hide Pow10, Numeral;
    assert padc == '0' ==> (padc as int - '0' as int) * Ones(k) == 0;
    assert k == 0 ==> Ones(k) == 0;
  }

  lemma {:induction false} DashedValue(n: nat, width: int)
    requires Pads(n, width) > 0
    ensures AtolValue(Decimal(n, width, '-')) == -PaddedValue(n, Pads(n, width) - 1, '-')
  {
    hide FromDigits, Values, Repeat, Numeral, Padded, PaddedValue;
    var k := Pads(n, width);
    PaddedIs(n, width, '-');
    RepeatFirst('-', k);
    var t := Repeat('-', k - 1) + Numeral(n, 10);
    var s := Decimal(n, width, '-');
    assert s == ['-'] + t && s[0] == '-' && s[1..] == t;
    PaddedDigits(n, k - 1, '-');
  }

  /** Padding with anything but zeros moves the value by more than the number itself. */
  lemma {:induction false} OtherPads(num: nat, k: nat, padc: char)
    requires padc == ' ' || padc == '-'
    ensures k == 0 ==> PaddedValue(num, k, padc) == num
    ensures k > 0 ==> PaddedValue(num, k, padc) + 2 * num < num
  {
    hide Pow10, Numeral, Ones;
    NumeralBound(num);
    NoOnes();
    var v, r, p := padc as int - '0' as int, Ones(k), Pow10(|Numeral(num, 10)|);
    if k > 0 {
      Dominates(v, r, p, num);
    } else {
      assert v * r * p == 0;
    }
  }

  lemma {:induction false} NoOnes()
    ensures Ones(0) == 0
  {
  }

  lemma {:induction false} Dominates(v: int, r: nat, p: nat, num: nat)
    requires v <= -3 && r > 0 && num < p
    ensures v * r * p + num + 2 * num < num
  {
    assert v * r <= -3;
    assert v * r * p <= -3 * p;
  }

  /** No padding, zeros, or spaces before a number that is not negative. */
  predicate Readable(n: int, width: int, padc: char) {
    Pads(n, width) == 0 || padc == '0' || (padc == ' ' && n >= 0)
  }

  /** atol reads back what %ld printed exactly when the output is readable, and once more by accident,
      for a single dash before 0. */
  lemma {:induction false} RoundTrip(n: int, width: int, padc: char)
    requires PadChar(padc)
    ensures AtolValue(Decimal(n, width, padc)) == n <==>
            Readable(n, width, padc) || (padc == '-' && Pads(n, width) == 1 && n == 0)
  {
    hide AtolValue, Decimal, PaddedValue, Pads;
    var k := Pads(n, width);
    if n < 0 {
      NegativeValue(n, width, padc);
      if padc == '0' {
        ZeroPads(-n, k, padc);
      } else {
        OtherPads(-n, k, padc);
      }
    } else if padc == '0' || k == 0 {
      PlainValue(n, width, padc);
    } else if padc == ' ' {
      SpacedValue(n, width);
    } else {
      DashedValue(n, width);
      OtherPads(n, k - 1, '-');
    }
  }

  /** Two outputs that are read back as other numbers: "-  42" and "-42" for 42 with one dash. */
  lemma {:induction false} PaddingMisread()
    ensures AtolValue(Decimal(-42, 4, ' ')) != -42
    ensures AtolValue(Decimal(42, 3, '-')) == -42
  {
    hide AtolValue, Decimal, PaddedValue;
    RoundTrip(-42, 4, ' ');
    FortyTwo();
    DashedValue(42, 3);
    OtherPads(42, 0, '-');
  }

  lemma {:induction false} FortyTwo()
    ensures Pads(-42, 4) == 2 && Pads(42, 3) == 1
  {
    assert Digits(4, 10) == [4];
    assert Digits(42, 10) == [4, 2];
  }

  lemma {:induction false} ReadableText(n: int, width: int, padc: char) returns (k: nat)
    requires Readable(n, width, padc)
    ensures Unsigned(Decimal(n, width, padc)) == Repeat('0', k) + Numeral(Magnitude(n), 10)
  {
    hide Repeat, Numeral, Padded;
    var d, m := Numeral(Magnitude(n), 10), Pads(n, width);
    var t := Repeat(padc, m) + d;
    PaddedIs(n, width, padc);
    NumeralStart(Magnitude(n));
    NoneRepeatedEmpty(padc, m);
    NoneRepeatedEmpty('0', 0);
    k := if padc == '0' then m else 0;
    assert Repeat('0', 0) + d == d;
    var s := Decimal(n, width, padc);
    if n < 0 {
      assert s == "-" + t && s[0] == '-' && s[1..] == t;
    } else if padc == ' ' {
      assert s == t;
      SkipRepeated(m, d);
    } else {
      assert s == t && '0' <= s[0] <= '9';
    }
  }

  lemma {:induction false} PrefixBound(d: seq<int>, i: nat)
    requires i <= |d| && forall j :: 0 <= j < |d| ==> d[j] >= 0
    ensures 0 <= FromDigits(d[..i], 10) <= FromDigits(d, 10)
    decreases |d|
  {
    if i < |d| {
      PrefixBound(d[..|d| - 1], i);
      assert d[..|d| - 1][..i] == d[..i];
    } else {
      assert d[..i] == d;
      if i > 0 {
        PrefixBound(d[..i - 1], i - 1);
        assert d[..i - 1][..i - 1] == d[..i - 1];
      }
    }
  }

  lemma {:induction false} DigitText(k: nat, num: nat)
    ensures var d := Values(Repeat('0', k) + Numeral(num, 10));
            forall j :: 0 <= j < |d| ==> d[j] >= 0
  {
    hide Digits, Repeat;
  }

  /** Reading such an output never takes the accumulator past the magnitude of the number: a 64-bit
      long does not overflow. */
  lemma {:induction false} NoOverflow(n: int, width: int, padc: char, i: nat)
    requires Readable(n, width, padc) && i <= |Unsigned(Decimal(n, width, padc))|
    ensures 0 <= FromDigits(Values(Unsigned(Decimal(n, width, padc))[..i]), 10) <= Magnitude(n)
  {
    hide FromDigits, Repeat, Numeral, Decimal, Unsigned, Readable;
    var k := ReadableText(n, width, padc);
    var s := Unsigned(Decimal(n, width, padc));
    DigitText(k, Magnitude(n));
    PrefixBound(Values(s), i);
    assert Values(s)[..i] == Values(s[..i]);
    PaddedDigits(Magnitude(n), k, '0');
    ZeroPads(Magnitude(n), k, '0');
  }

  // ----- the flags of a conversion

  /** What vprintfmt knows when it comes to a conversion character. */
  datatype Flags = Flags(padc: char, width: int, precision: int, long: nat, alt: bool)

  const PLAIN := Flags(' ', -1, -1, 0, false)

  predicate IsDigit(c: char) {
    '0' <= c <= '9'
  }

  /** Read a decimal number: its value, and where it ends. */
  function ReadNumber(fmt: string, i: nat, value: nat): (r: (nat, nat))
    requires i <= |fmt|
    ensures i <= r.1 <= |fmt| && (i < |fmt| && IsDigit(fmt[i]) ==> i < r.1)
    decreases |fmt| - i
  {
    if i < |fmt| && IsDigit(fmt[i]) then ReadNumber(fmt, i + 1, value * 10 + (fmt[i] as int - '0' as int))
    else (value, i)
  }

  /** The first number is the width, a later one the precision. */
  function SetNumber(f: Flags, n: int): Flags {
    if f.width < 0 then f.(width := n, precision := -1) else f.(precision := n)
  }

  /** What the flags say, where the conversion character is, and the arguments that are left. */
  datatype Conversion = Conversion(flags: Flags, pos: nat, args: seq<int>)

  /** The flags from i on. An asterisk takes an argument; without one, which C leaves undefined, the
      reading stops there. */
  function ReadFlags(fmt: string, i: nat, f: Flags, args: seq<int>): (r: Conversion)
    requires i <= |fmt|
    ensures i <= r.pos <= |fmt|
    decreases |fmt| - i
  {
    if i == |fmt| then Conversion(f, i, args)
    else if fmt[i] == '-' then ReadFlags(fmt, i + 1, f.(padc := '-'), args)
    else if fmt[i] == '0' then ReadFlags(fmt, i + 1, f.(padc := '0'), args)
    else if IsDigit(fmt[i]) then
      var (n, j) := ReadNumber(fmt, i, 0);
      ReadFlags(fmt, j, SetNumber(f, n), args)
    else if fmt[i] == '*' && args != [] then ReadFlags(fmt, i + 1, SetNumber(f, args[0]), args[1..])
    else if fmt[i] == '.' then ReadFlags(fmt, i + 1, if f.width < 0 then f.(width := 0) else f, args)
    else if fmt[i] == '#' then ReadFlags(fmt, i + 1, f.(alt := true), args)
    else if fmt[i] == 'l' then ReadFlags(fmt, i + 1, f.(long := f.long + 1), args)
    else Conversion(f, i, args)
  }

  /** The loop over the flags, from just after the percent sign. */
  method ScanFlags(fmt: string, start: nat, args: seq<int>) returns (r: Conversion)
    requires start <= |fmt|
    ensures r == ReadFlags(fmt, start, PLAIN, args)
  {
    var f, i, ap := PLAIN, start, args;
    while i < |fmt| && (fmt[i] == '-' || IsDigit(fmt[i]) || (fmt[i] == '*' && ap != [])
                        || fmt[i] == '.' || fmt[i] == '#' || fmt[i] == 'l')
      invariant start <= i <= |fmt|
      invariant ReadFlags(fmt, i, f, ap) == ReadFlags(fmt, start, PLAIN, args)
      decreases |fmt| - i
    {
      match fmt[i]
      case '-' => f, i := f.(padc := '-'), i + 1;
      case '0' => f, i := f.(padc := '0'), i + 1;
      case '*' =>
        f := if f.width < 0 then f.(width := ap[0], precision := -1) else f.(precision := ap[0]);
        i, ap := i + 1, ap[1..];
      case '.' => f, i := (if f.width < 0 then f.(width := 0) else f), i + 1;
      case '#' => f, i := f.(alt := true), i + 1;
      case 'l' => f, i := f.(long := f.long + 1), i + 1;
      case _ =>
        var n;
        n, i := ScanNumber(fmt, i);
        f := if f.width < 0 then f.(width := n, precision := -1) else f.(precision := n);
    }
    r := Conversion(f, i, ap);
  }

  method ScanNumber(fmt: string, start: nat) returns (n: nat, i: nat)
    requires start < |fmt| && IsDigit(fmt[start])
    ensures (n, i) == ReadNumber(fmt, start, 0)
  {
    n, i := 0, start;
    while i < |fmt| && IsDigit(fmt[i])
      invariant start <= i <= |fmt| && ReadNumber(fmt, i, n) == ReadNumber(fmt, start, 0)
    {
      n := n * 10 + (fmt[i] as int - '0' as int);
      i := i + 1;
    }
  }

  /** Only three padding characters can come out. */
  lemma {:induction false} FlagsPad(fmt: string, i: nat, f: Flags, args: seq<int>)
    requires i <= |fmt| && PadChar(f.padc)
    ensures PadChar(ReadFlags(fmt, i, f, args).flags.padc)
    decreases |fmt| - i
  {
    hide ReadNumber;
    if i < |fmt| {
      if fmt[i] == '-' {
        FlagsPad(fmt, i + 1, f.(padc := '-'), args);
      } else if fmt[i] == '0' {
        FlagsPad(fmt, i + 1, f.(padc := '0'), args);
      } else if IsDigit(fmt[i]) {
        var (n, j) := ReadNumber(fmt, i, 0);
        FlagsPad(fmt, j, SetNumber(f, n), args);
      } else if fmt[i] == '*' && args != [] {
        FlagsPad(fmt, i + 1, SetNumber(f, args[0]), args[1..]);
      } else if fmt[i] == '.' {
        FlagsPad(fmt, i + 1, if f.width < 0 then f.(width := 0) else f, args);
      } else if fmt[i] == '#' {
        FlagsPad(fmt, i + 1, f.(alt := true), args);
      } else if fmt[i] == 'l' {
        FlagsPad(fmt, i + 1, f.(long := f.long + 1), args);
      }
    }
  }

  lemma {:induction false} ReadNumberValue(fmt: string, i: nat, k: nat, value: nat)
    requires i + k <= |fmt| && (forall j :: i <= j < i + k ==> IsDigit(fmt[j]))
    requires i + k == |fmt| || !IsDigit(fmt[i + k])
    ensures ReadNumber(fmt, i, value) == (value * Pow10(k) + FromDigits(Values(fmt[i..i + k]), 10), i + k)
    decreases k
  {
    hide FromDigits;
    if k == 0 {
      NoDigits(10);
      assert Values(fmt[i..i]) == [];
    } else {
      var d := fmt[i] as int - '0' as int;
      ReadNumberValue(fmt, i + 1, k - 1, value * 10 + d);
      var v := Values(fmt[i + 1..i + k]);
      assert Values(fmt[i..i + k]) == [d] + v;
      FromJoin([d], v);
      OneDigitValue(d);
      FirstDigit(value, d, Pow10(k - 1));
    }
  }

  lemma {:induction false} OneDigitValue(d: int)
    ensures FromDigits([d], 10) == d
  {
    FromSnoc([], d, 10);
    assert [] + [d] == [d];
  }

  lemma {:induction false} FirstDigit(value: nat, d: int, p: nat)
    ensures (value * 10 + d) * p == value * (10 * p) + d * p
  {
  }

  lemma {:induction false} NumeralDigits(num: nat)
    ensures forall j :: 0 <= j < |Numeral(num, 10)| ==> IsDigit(Numeral(num, 10)[j])
    ensures num > 0 ==> Numeral(num, 10)[0] != '0'
  {
    hide Digits;
    NoLeadingZero(num, 10);
  }

  /** What a conversion prints. */
  function Converted(fmt: string, args: seq<int>): string
    requires ReadFlags(fmt, 0, PLAIN, args).args != []
  {
    var r := ReadFlags(fmt, 0, PLAIN, args);
    Decimal(r.args[0], r.flags.width, r.flags.padc)
  }

  /** The conversion of a signed number, from just after the percent sign: the number is the first
      argument that the flags leave. */
  method Convert(out: Output, fmt: string, args: seq<int>)
    requires var r := ReadFlags(fmt, 0, PLAIN, args);
             r.pos < |fmt| && fmt[r.pos] == 'd' && r.args != [] && Magnitude(r.args[0]) < Pow2(63)
    modifies out
    ensures var r := ReadFlags(fmt, 0, PLAIN, args);
            && out.text == old(out.text) + Converted(fmt, args)
            && PadChar(r.flags.padc)
  {
    hide Decimal, ReadFlags, Pow2;
    FlagsPad(fmt, 0, PLAIN, args);
    var r := ScanFlags(fmt, 0, args);
    PrintDecimal(out, r.args[0], r.flags.width, r.flags.padc);
  }
}
