/** The conversions of vprintfmt that print a signed number: every such format is read as what it says,
    what it prints is written out, and exactly when atol reads it back. */
module Formats {
  import opened Syscalls

  /** A width or a precision: none, a number, or an asterisk that takes it from the arguments. */
  datatype Amount = None | Number(n: nat) | Star(value: int)

  /** The precision may also be a point alone. */
  datatype Precision = NoPoint | Point(amount: Amount)

  /** A conversion as it is written: flag characters, a width, a precision, and a number of l's. */
  datatype Spec = Spec(flags: string, width: Amount, precision: Precision, longs: nat)

  function AmountText(a: Amount): string {
    match a
    case None => ""
    case Number(n) => Numeral(n, 10)
    case Star(_) => "*"
  }

  function AmountArgs(a: Amount): seq<int> {
    if a.Star? then [a.value] else []
  }

  function PrecisionText(p: Precision): string {
    if p.NoPoint? then "" else "." + AmountText(p.amount)
  }

  function PrecisionArgs(p: Precision): seq<int> {
    if p.NoPoint? then [] else AmountArgs(p.amount)
  }

  /** From just after the percent sign to the d. */
  function Text(s: Spec): string {
    s.flags + (AmountText(s.width) + (PrecisionText(s.precision) + (Repeat('l', s.longs) + "d")))
  }

  /** The arguments that come before the number. */
  function Args(s: Spec): seq<int> {
    AmountArgs(s.width) + PrecisionArgs(s.precision)
  }

  predicate FlagChars(fl: string) {
    forall i :: 0 <= i < |fl| ==> fl[i] == '-' || fl[i] == '0' || fl[i] == '#'
  }

  /** Written numbers are positive: a leading zero is a flag. */
  predicate Positive(a: Amount) {
    a.Number? ==> a.n > 0
  }

  predicate WellWritten(s: Spec) {
    FlagChars(s.flags) && Positive(s.width) && (s.precision.Point? ==> Positive(s.precision.amount))
  }

  /** The padding character: the last of the two flags for it, or a space. */
  function PadOf(fl: string): char {
    if fl == "" then ' ' else if fl[|fl| - 1] == '#' then PadOf(fl[..|fl| - 1]) else fl[|fl| - 1]
  }

  /** The width, negative if there is none; a point makes it at least 0. */
  function WidthOf(s: Spec): int {
    var w := match s.width
             case None => -1
             case Number(n) => n
             case Star(v) => v;
    if s.precision.Point? && w < 0 then 0 else w
  }

  function PrecisionOf(s: Spec): int {
    if s.precision.NoPoint? then -1
    else
      match s.precision.amount
      case None => -1
      case Number(n) => n
      case Star(v) => v
  }

  // ----- reading a piece of a format

  lemma {:induction false} FlagStep(fmt: string, i: nat, f: Flags, args: seq<int>)
    requires i < |fmt|
    ensures fmt[i] == '-' ==> ReadFlags(fmt, i, f, args) == ReadFlags(fmt, i + 1, f.(padc := '-'), args)
    ensures fmt[i] == '0' ==> ReadFlags(fmt, i, f, args) == ReadFlags(fmt, i + 1, f.(padc := '0'), args)
    ensures fmt[i] == '#' ==> ReadFlags(fmt, i, f, args) == ReadFlags(fmt, i + 1, f.(alt := true), args)
    ensures fmt[i] == 'l' ==> ReadFlags(fmt, i, f, args) == ReadFlags(fmt, i + 1, f.(long := f.long + 1), args)
    ensures fmt[i] == '.' ==>
              ReadFlags(fmt, i, f, args) == ReadFlags(fmt, i + 1, if f.width < 0 then f.(width := 0) else f, args)
    ensures fmt[i] == '*' && args != [] ==>
              ReadFlags(fmt, i, f, args) == ReadFlags(fmt, i + 1, SetNumber(f, args[0]), args[1..])
    ensures fmt[i] == 'd' ==> ReadFlags(fmt, i, f, args) == Conversion(f, i, args)
  {
    hide ReadNumber, SetNumber;
  }

  lemma {:induction false} NumberStep(fmt: string, i: nat, f: Flags, args: seq<int>)
    requires i < |fmt| && IsDigit(fmt[i]) && fmt[i] != '0'
    ensures var (n, j) := ReadNumber(fmt, i, 0);
            ReadFlags(fmt, i, f, args) == ReadFlags(fmt, j, SetNumber(f, n), args)
  {
    hide ReadNumber, SetNumber;
  }

  function AfterFlags(fl: string, f: Flags): Flags {
    if fl == "" then f
    else
      var g := AfterFlags(fl[..|fl| - 1], f);
      if fl[|fl| - 1] == '#' then g.(alt := true) else g.(padc := fl[|fl| - 1])
  }

  lemma {:induction false} FlagsRead(pre: string, fl: string, rest: string, f: Flags, args: seq<int>)
    requires FlagChars(fl)
    ensures var fmt := pre + (fl + rest);
            ReadFlags(fmt, |pre|, f, args) == ReadFlags(fmt, |pre + fl|, AfterFlags(fl, f), args)
    decreases |fl|
  {
    hide ReadFlags;
    if fl == "" {
      assert pre + fl == pre;
    } else {
      var n := |fl| - 1;
      var some, c := fl[..n], fl[n];
      assert pre + (fl + rest) == pre + (some + ([c] + rest));
      FlagsRead(pre, some, [c] + rest, f, args);
      FlagStep(pre + (fl + rest), |pre + some|, AfterFlags(some, f), args);
    }
  }

  lemma {:induction false} FlagsAre(fl: string)
    requires FlagChars(fl)
    ensures AfterFlags(fl, PLAIN) == PLAIN.(padc := PadOf(fl), alt := '#' in fl)
    decreases |fl|
  {
    if fl != "" {
      FlagsAre(fl[..|fl| - 1]);
      assert fl == fl[..|fl| - 1] + [fl[|fl| - 1]];
    }
  }

  function AfterAmount(a: Amount, f: Flags): Flags {
    match a
    case None => f
    case Number(n) => SetNumber(f, n)
    case Star(v) => SetNumber(f, v)
  }

  /** What follows a number does not start with a digit. */
  predicate NoDigit(rest: string) {
    rest == "" || !IsDigit(rest[0])
  }

  lemma {:induction false} AmountRead(pre: string, a: Amount, rest: string, f: Flags, args: seq<int>)
    requires Positive(a) && NoDigit(rest)
    ensures var fmt := pre + (AmountText(a) + rest);
            ReadFlags(fmt, |pre|, f, AmountArgs(a) + args) ==
            ReadFlags(fmt, |pre + AmountText(a)|, AfterAmount(a, f), args)
  {
    hide ReadFlags, SetNumber, ReadNumber, Numeral;
    var fmt := pre + (AmountText(a) + rest);
    match a
    case None =>
      assert pre + "" == pre && [] + args == args;
    case Number(n) =>
      assert [] + args == args;
      NumberRead(pre, n, rest, f, args);
    case Star(v) =>
      assert fmt[|pre|] == '*';
      FlagStep(fmt, |pre|, f, [v] + args);
      assert ([v] + args)[1..] == args;
  }

  lemma {:induction false} NumberRead(pre: string, n: nat, rest: string, f: Flags, args: seq<int>)
    requires n > 0 && NoDigit(rest)
    ensures var fmt := pre + (Numeral(n, 10) + rest);
            ReadFlags(fmt, |pre|, f, args) == ReadFlags(fmt, |pre + Numeral(n, 10)|, SetNumber(f, n), args)
  {
    hide ReadFlags, SetNumber, ReadNumber, Numeral, Values, FromDigits, Pow10;
    var d := Numeral(n, 10);
    var fmt, i, k := pre + (d + rest), |pre|, |d|;
    NumeralDigits(n);
    forall j | i <= j < i + k
      ensures fmt[j] == d[j - i]
    {
    }
    assert fmt[i..i + k] == d;
    if i + k < |fmt| {
      assert fmt[i + k] == rest[0];
    }
    ReadNumberValue(fmt, i, k, 0);
    NumeralValues(n);
    NumberStep(fmt, i, f, args);
  }

  lemma {:induction false} LongsRead(pre: string, k: nat, rest: string, f: Flags, args: seq<int>)
    ensures var fmt := pre + (Repeat('l', k) + rest);
            ReadFlags(fmt, |pre|, f, args) == ReadFlags(fmt, |pre| + k, f.(long := f.long + k), args)
  {
    hide ReadFlags;
    if k == 0 {
      assert f.(long := f.long + 0) == f;
    } else {
      LongsRead(pre, k - 1, ['l'] + rest, f, args);
      var fmt := pre + (Repeat('l', k) + rest);
      assert fmt == pre + (Repeat('l', k - 1) + (['l'] + rest));
      assert fmt[|pre| + k - 1] == 'l';
      FlagStep(fmt, |pre| + k - 1, f.(long := f.long + (k - 1)), args);
    }
  }

  function AfterPrecision(p: Precision, f: Flags): Flags {
    if p.NoPoint? then f else AfterAmount(p.amount, if f.width < 0 then f.(width := 0) else f)
  }

  lemma {:induction false} PrecisionRead(pre: string, p: Precision, rest: string, f: Flags, args: seq<int>)
    requires (p.Point? ==> Positive(p.amount)) && NoDigit(rest)
    ensures var fmt := pre + (PrecisionText(p) + rest);
            ReadFlags(fmt, |pre|, f, PrecisionArgs(p) + args) ==
            ReadFlags(fmt, |pre + PrecisionText(p)|, AfterPrecision(p, f), args)
  {
    hide ReadFlags, AmountText, AfterAmount, AmountArgs;
    if p.NoPoint? {
      assert pre + "" == pre && [] + args == args;
    } else {
      var t := AmountText(p.amount);
      var fmt := pre + ("." + t + rest);
      assert fmt == (pre + ".") + (t + rest) && fmt[|pre|] == '.';
      FlagStep(fmt, |pre|, f, AmountArgs(p.amount) + args);
      AmountRead(pre + ".", p.amount, rest, if f.width < 0 then f.(width := 0) else f, args);
      assert (pre + ".") + t == pre + ("." + t);
    }
  }

  // ----- reading a format

  lemma {:induction false} EndStarts(p: Precision, longs: nat)
    ensures var t := Repeat('l', longs) + "d";
            NoDigit(t) && NoDigit(PrecisionText(p) + t)
  {
    hide AmountText;
    var t := Repeat('l', longs) + "d";
    assert t[0] == 'l' || t[0] == 'd';
  }

  lemma {:induction false} AfterAll(s: Spec, f: Flags)
    requires f.width == f.precision == -1
    ensures AfterPrecision(s.precision, AfterAmount(s.width, f)) == f.(width := WidthOf(s), precision := PrecisionOf(s))
  {
  }

  /** What a format says: the last padding flag, the width, the precision, the l's, and whether there is a
      number sign. */
  function Meaning(s: Spec): Flags {
    Flags(PadOf(s.flags), WidthOf(s), PrecisionOf(s), s.longs, '#' in s.flags)
  }

  /** From the precision on. */
  lemma {:induction false} EndRead(pre: string, p: Precision, longs: nat, f: Flags, args: seq<int>)
    requires p.Point? ==> Positive(p.amount)
    ensures var fmt := pre + (PrecisionText(p) + (Repeat('l', longs) + "d"));
            var g := AfterPrecision(p, f);
            ReadFlags(fmt, |pre|, f, PrecisionArgs(p) + args) ==
            Conversion(g.(long := g.long + longs), |fmt| - 1, args)
  {
    hide ReadFlags, PrecisionText, PrecisionArgs, AfterPrecision, NoDigit, Repeat;
    var t, l, g := PrecisionText(p), Repeat('l', longs), AfterPrecision(p, f);
    var fmt := pre + (t + (l + "d"));
    EndStarts(p, longs);
    PrecisionRead(pre, p, l + "d", f, args);
    assert (pre + t) + (l + "d") == fmt;
    LongsRead(pre + t, longs, "d", g, args);
    assert fmt[|fmt| - 1] == 'd' && |pre + t| + longs == |fmt| - 1;
    FlagStep(fmt, |fmt| - 1, g.(long := g.long + longs), args);
  }

  /** Up to the width. */
  lemma {:induction false} StartRead(fl: string, a: Amount, rest: string, args: seq<int>)
    requires FlagChars(fl) && Positive(a) && NoDigit(rest)
    ensures var fmt := fl + (AmountText(a) + rest);
            ReadFlags(fmt, 0, PLAIN, AmountArgs(a) + args) ==
            ReadFlags(fmt, |fl + AmountText(a)|, AfterAmount(a, AfterFlags(fl, PLAIN)), args)
  {
    hide ReadFlags, AmountText, AmountArgs, AfterAmount, AfterFlags, NoDigit;
    var fmt := fl + (AmountText(a) + rest);
    assert "" + (fl + (AmountText(a) + rest)) == fmt && "" + fl == fl;
    FlagsRead("", fl, AmountText(a) + rest, PLAIN, AmountArgs(a) + args);
    AmountRead(fl, a, rest, AfterFlags(fl, PLAIN), args);
  }

  /** Every format is read as what it says, up to its d, and leaves the arguments behind its own. */
  lemma {:induction false} FormatIsRead(s: Spec, args: seq<int>)
    requires WellWritten(s)
    ensures ReadFlags(Text(s), 0, PLAIN, Args(s) + args) == Conversion(Meaning(s), |Text(s)| - 1, args)
  {
    hide ReadFlags, AmountText, PrecisionText, AmountArgs, PrecisionArgs, AfterAmount, AfterPrecision, AfterFlags;
    hide WidthOf, PrecisionOf, PadOf, NoDigit, Repeat;
    var w, rest := AmountText(s.width), PrecisionText(s.precision) + (Repeat('l', s.longs) + "d");
    var f := AfterFlags(s.flags, PLAIN);
    EndStarts(s.precision, s.longs);
    FlagsAre(s.flags);
    AfterAll(s, f);
    assert Args(s) + args == AmountArgs(s.width) + (PrecisionArgs(s.precision) + args);
    StartRead(s.flags, s.width, rest, PrecisionArgs(s.precision) + args);
    assert (s.flags + w) + rest == Text(s);
    EndRead(s.flags + w, s.precision, s.longs, AfterAmount(s.width, f), args);
  }

  // ----- what is printed

  lemma {:induction false} NumberPrinted(s: Spec, n: int)
    requires WellWritten(s)
    ensures ReadFlags(Text(s), 0, PLAIN, Args(s) + [n]).args == [n]
    ensures Converted(Text(s), Args(s) + [n]) == Decimal(n, WidthOf(s), PadOf(s.flags))
  {
    hide ReadFlags, Decimal, WidthOf, PadOf, Text, Args;
    FormatIsRead(s, [n]);
  }

  /** What is printed: a minus sign for a negative number, then padding characters up to the width, then
      the decimal digits of the magnitude, without a leading zero. */
  lemma {:induction false} PrintedText(s: Spec, n: int) returns (pads: string, digits: string)
    requires WellWritten(s)
    ensures ReadFlags(Text(s), 0, PLAIN, Args(s) + [n]).args != []
    ensures Converted(Text(s), Args(s) + [n]) == (if n < 0 then "-" else "") + pads + digits
    ensures forall i :: 0 <= i < |pads| ==> pads[i] == PadOf(s.flags)
    ensures |pads| == if WidthOf(s) > |digits| then WidthOf(s) - |digits| else 0
    ensures |digits| > 0 && forall i :: 0 <= i < |digits| ==> '0' <= digits[i] <= '9'
    ensures digits[0] == '0' ==> digits == "0"
    ensures FromDigits(Values(digits), 10) == if n < 0 then -n else n
  {
    hide ReadFlags, Numeral, WidthOf, PadOf, Text, Args, FromDigits, Values, Padded, Repeat;
    NumberPrinted(s, n);
    digits := Numeral(Magnitude(n), 10);
    pads := Repeat(PadOf(s.flags), Pads(n, WidthOf(s)));
    PaddedIs(n, WidthOf(s), PadOf(s.flags));
    NumeralValues(Magnitude(n));
    NumeralChars(Magnitude(n));
  }

  lemma {:induction false} NumeralChars(num: nat)
    ensures var d := Numeral(num, 10);
            && (forall i :: 0 <= i < |d| ==> '0' <= d[i] <= '9')
            && (d[0] == '0' ==> d == "0")
  {
    hide Digits;
    NoLeadingZero(num, 10);
  }

  // ----- reading it back

  lemma {:induction false} PadOfFlags(fl: string)
    requires FlagChars(fl)
    ensures PadChar(PadOf(fl))
    decreases |fl|
  {
    if fl != "" {
      PadOfFlags(fl[..|fl| - 1]);
    }
  }

  /** atol reads back what a format printed exactly if there was no padding, or zeros, or spaces before a
      number that is not negative, and for a single dash before 0. */
  lemma {:induction false} FormatRoundTrip(s: Spec, n: int)
    requires WellWritten(s)
    ensures ReadFlags(Text(s), 0, PLAIN, Args(s) + [n]).args != []
    ensures var c, k := PadOf(s.flags), Pads(n, WidthOf(s));
            AtolValue(Converted(Text(s), Args(s) + [n])) == n <==>
            k == 0 || c == '0' || (c == ' ' && n >= 0) || (c == '-' && k == 1 && n == 0)
  {
    hide ReadFlags, Decimal, WidthOf, PadOf, Text, Args, AtolValue, Pads;
    NumberPrinted(s, n);
    PadOfFlags(s.flags);
    RoundTrip(n, WidthOf(s), PadOf(s.flags));
  }

  /** A plain %d, or one with any number of l's. */
  function Plain(k: nat): string {
    Repeat('l', k) + "d"
  }

  lemma {:induction false} PlainSpec(k: nat)
    ensures var s := Spec("", None, NoPoint, k);
            WellWritten(s) && Text(s) == Plain(k) && Args(s) == [] && WidthOf(s) == -1 && PadOf(s.flags) == ' '
  {
    assert "" + ("" + ("" + (Repeat('l', k) + "d"))) == Plain(k);
  }

  /** What %d prints, with any number of l's, is read back, for every number. */
  lemma {:induction false} PlainRoundTrip(n: int, k: nat)
    ensures ReadFlags(Plain(k), 0, PLAIN, [n]).args != [] && AtolValue(Converted(Plain(k), [n])) == n
  {
    hide ReadFlags, Converted, AtolValue, Text, Plain, Args, WidthOf, PadOf;
    PlainSpec(k);
    assert [] + [n] == [n];
    FormatRoundTrip(Spec("", None, NoPoint, k), n);
    NoPads(n, -1);
  }

  lemma {:induction false} NoPads(n: int, width: int)
    requires width <= 0
    ensures Pads(n, width) == 0
  {
    hide Numeral;
  }

  lemma {:induction false} ZeroSpec(a: Amount, k: nat)
    requires Positive(a)
    ensures var s := Spec("0", a, NoPoint, k);
            && WellWritten(s) && Text(s) == "0" + AmountText(a) + Plain(k)
            && Args(s) == AmountArgs(a) && PadOf(s.flags) == '0'
  {
    hide AmountText;
    assert "0" + (AmountText(a) + ("" + (Repeat('l', k) + "d"))) == "0" + AmountText(a) + Plain(k);
  }

  /** So is what is printed behind a 0, with any width, in the format or from the arguments. */
  lemma {:induction false} LongRoundTrip(n: int, a: Amount, k: nat)
    requires Positive(a)
    ensures var fmt, args := "0" + AmountText(a) + Plain(k), AmountArgs(a) + [n];
            ReadFlags(fmt, 0, PLAIN, args).args != [] && AtolValue(Converted(fmt, args)) == n
  {
    hide ReadFlags, Converted, AtolValue, Text, Plain, Args, AmountText, PadOf, WidthOf;
    ZeroSpec(a, k);
    FormatRoundTrip(Spec("0", a, NoPoint, k), n);
  }

  // ----- atol and the digits on their own

  /** atol skips spaces, takes one sign, and reads all that follows as a decimal number, whatever the
      characters are. */
  lemma {:induction false} AtolReads(k: nat, sign: string, rest: string)
    requires sign == "" || sign == "-" || sign == "+"
    requires sign == "" && rest != "" ==> rest[0] != ' ' && rest[0] != '-' && rest[0] != '+'
    ensures var v := FromDigits(Values(rest), 10);
            AtolValue(Repeat(' ', k) + (sign + rest)) == if sign == "-" then -v else v
  {
    hide FromDigits, Values, Repeat;
    var t := sign + rest;
    SkipRepeated(k, t);
    if sign == "" {
      assert t == rest;
    } else {
      assert t[1..] == rest;
    }
  }

  /** A decimal number, digit by digit. */
  lemma {:induction false} DecimalValue(digits: string, c: char)
    ensures FromDigits(Values(""), 10) == 0
    ensures FromDigits(Values(digits + [c]), 10) == 10 * FromDigits(Values(digits), 10) + (c as int - '0' as int)
  {
    hide FromDigits;
    assert Values("") == [];
    NoDigits(10);
    assert Values(digits + [c]) == Values(digits) + [c as int - '0' as int];
    FromSnoc(Values(digits), c as int - '0' as int, 10);
  }

  /** The digits of all bases up to 36. */
  lemma {:induction false} DigitChars(d: nat)
    requires d < 36
    ensures DigitChar(d) == "0123456789abcdefghijklmnopqrstuvwxyz"[d]
  {
  }
}
