/** The two string parsers of the preprocessors: "M:S" playing time to minutes, and "YYYY-MM-DD" to a date. */
module Parsing {
  import opened Values
  import opened Calendar

  /** The ASCII characters `str.strip()` and `int()` treat as white space. */
  predicate IsSpace(c: char) {
    c == ' ' || 9 <= c as int <= 13 || 28 <= c as int <= 31
  }

  predicate IsDigit(c: char) {
    '0' <= c <= '9'
  }

  function TrimStart(s: string): string
    decreases |s|
  {
    if |s| > 0 && IsSpace(s[0]) then TrimStart(s[1..]) else s
  }

  function TrimEnd(s: string): string
    decreases |s|
  {
    if |s| > 0 && IsSpace(s[|s| - 1]) then TrimEnd(s[..|s| - 1]) else s
  }

  function Strip(s: string): string {
    TrimEnd(TrimStart(s))
  }

  /** Decimal digits, with single underscores allowed between two digits (as `int("1_000")` accepts). */
  predicate IsDigitGroups(s: string) {
    && |s| > 0
    && IsDigit(s[0])
    && forall i :: 0 <= i < |s| ==> GroupChar(s, i)
  }

  /** Position i holds a digit, or an underscore followed by a digit. */
  predicate GroupChar(s: string, i: int)
    requires 0 <= i < |s|
  {
    IsDigit(s[i]) || (s[i] == '_' && i + 1 < |s| && IsDigit(s[i + 1]))
  }

  /** The number the digits of `s` spell, underscores skipped. */
  function DigitsValue(s: string): int
    decreases |s|
  {
    if s == [] then 0
    else if s[|s| - 1] == '_' then DigitsValue(s[..|s| - 1])
    else 10 * DigitsValue(s[..|s| - 1]) + (s[|s| - 1] as int - '0' as int)
  }

  /** Python's `int(s)` on a string: surrounding white space, an optional sign, then digit groups. */
  function ParseInt(s: string): Result<int> {
    var t := Strip(s);
    if |t| > 0 && (t[0] == '-' || t[0] == '+') then
      if IsDigitGroups(t[1..]) then
        Ok(if t[0] == '-' then -DigitsValue(t[1..]) else DigitsValue(t[1..]))
      else Err(BadInt(s))
    else if IsDigitGroups(t) then Ok(DigitsValue(t))
    else Err(BadInt(s))
  }

  function DigitChar(d: nat): char
    requires d < 10
  {
    ('0' as int + d) as char
  }

  /** `str(n)` for a natural number. */
  function ShowNat(n: nat): string
    decreases n
  {
    if n < 10 then [DigitChar(n)] else ShowNat(n / 10) + [DigitChar(n % 10)]
  }

  /** `str(n)` for an integer. */
  function ShowInt(n: int): string {
    if n < 0 then "-" + ShowNat(-n) else ShowNat(n)
  }

  function Zeros(k: nat): string {
    seq(k, _ => '0')
  }

  /** `f"{n:0{width}d}"`: `n` in decimal, left-padded with zeros to `width` characters. */
  function PadNat(n: nat, width: nat): string {
    var digits := ShowNat(n);
    (if |digits| < width then Zeros(width - |digits|) else []) + digits
  }

  /** `s.split(sep)`: the pieces between separators; "" gives [""] and adjacent separators give "". */
  function Split(s: string, sep: char): (parts: seq<string>)
    ensures |parts| >= 1
    decreases |s|
  {
    if s == [] then [[]]
    else
      var rest := Split(s[1..], sep);
      if s[0] == sep then [[]] + rest else [[s[0]] + rest[0]] + rest[1..]
  }

  function CountChar(s: string, c: char): nat
    decreases |s|
  {
    if s == [] then 0 else (if s[0] == c then 1 else 0) + CountChar(s[1..], c)
  }

  /**
   * convert_minutes_to_float: a non-string is returned unchanged; a string without ':' gives 0; otherwise
   * `minutes, seconds = map(int, s.split(":"))` (each part through int(), in order, before the unpacking
   * checks that there are exactly two) and the result is minutes + seconds / 60.
   */
  function ConvertMinutesToFloat(v: Value): (r: Result<Value>)
    ensures !v.Str? ==> r == Ok(v)
    ensures v.Str? && ':' !in v.s ==> r == Ok(Num(0.0))
    ensures r.Ok? && v.Str? && ':' in v.s ==> r.value.Num? && CountChar(v.s, ':') == 1
  {
    if !v.Str? then Ok(v)
    else if ':' !in v.s then Ok(Num(0.0))
    else
      var parts := Split(v.s, ':');
      SplitCount(v.s, ':');
      var minutes :- ParseInt(parts[0]);
      var seconds :- if |parts| >= 2 then ParseInt(parts[1]) else Err(Unpack);
      if |parts| != 2 then Err(Unpack)
      else Ok(Num(minutes as real + seconds as real / 60.0))
  }

  /** `date(*map(int, s.split("-")))`: every part through int(), then exactly three of them, then a real date. */
  function ParseDate(v: Value): (r: Result<Value>)
    ensures r.Ok? ==> r.value.Day? && IsValidDate(r.value.d)
    ensures !v.Str? ==> r == Err(NotAString)
  {
    if !v.Str? then Err(NotAString)
    else
      var ints :- ParseInts(Split(v.s, '-'));
      if |ints| != 3 then Err(DateArity)
      else MakeDate(ints[0], ints[1], ints[2])
  }

  function ParseInts(parts: seq<string>): (r: Result<seq<int>>)
    ensures r.Ok? ==> |r.value| == |parts| && forall i :: 0 <= i < |parts| ==> ParseInt(parts[i]) == Ok(r.value[i])
  {
    if parts == [] then Ok([])
    else
      var first :- ParseInt(parts[0]);
      var rest :- ParseInts(parts[1..]);
      Ok([first] + rest)
  }

  /** The checks of `date(year, month, day)`. */
  function MakeDate(y: int, m: int, d: int): Result<Value> {
    if !(MinYear <= y <= MaxYear) || !(1 <= m <= 12) || !(1 <= d <= DaysInMonth(y, m)) then Err(InvalidDate)
    else Ok(Day(Date(y, m, d)))
  }

  /** `date.isoformat()`: "YYYY-MM-DD". */
  function FormatDate(d: Date): string
    requires IsValidDate(d)
  {
    PadNat(d.year, 4) + "-" + PadNat(d.month, 2) + "-" + PadNat(d.day, 2)
  }

  /** `column.apply(parse)`: the cells parsed in order, the first failure aborting the whole column. */
  function ParseDates(col: seq<Value>): (r: Result<seq<Value>>)
    ensures r.Ok? <==> forall i :: 0 <= i < |col| ==> ParseDate(col[i]).Ok?
    ensures r.Ok? ==> |r.value| == |col| && forall i :: 0 <= i < |col| ==> Ok(r.value[i]) == ParseDate(col[i])
  {
    if col == [] then Ok([])
    else
      var first :- ParseDate(col[0]);
      var rest :- ParseDates(col[1..]);
      Ok([first] + rest)
  }

  // ---------------------------------------------------------------------------------------------
  // Properties

  lemma {:induction false} SplitCount(s: string, sep: char)
    ensures |Split(s, sep)| == 1 + CountChar(s, sep)
    decreases |s|
  {
    if s != [] {
      SplitCount(s[1..], sep);
    }
  }

  lemma {:induction false} SplitWithout(a: string, sep: char)
    requires sep !in a
    ensures Split(a, sep) == [a]
    decreases |a|
  {
    if a != [] {
      SplitWithout(a[1..], sep);
      assert [a[0]] + a[1..] == a;
    }
  }

  lemma {:induction false} SplitAt(a: string, sep: char, b: string)
    requires sep !in a
    ensures Split(a + [sep] + b, sep) == [a] + Split(b, sep)
    decreases |a|
  {
    if a == [] {
      assert a + [sep] + b == [sep] + b;
    } else {
      assert (a + [sep] + b)[1..] == a[1..] + [sep] + b;
      assert (a + [sep] + b)[0] == a[0];
      SplitAt(a[1..], sep, b);
      assert [a[0]] + a[1..] == a;
    }
  }

  lemma {:induction false} ShowNatDigits(n: nat)
    ensures |ShowNat(n)| > 0
    ensures forall i :: 0 <= i < |ShowNat(n)| ==> IsDigit(ShowNat(n)[i])
    ensures DigitsValue(ShowNat(n)) == n
    decreases n
  {
    if n >= 10 {
      ShowNatDigits(n / 10);
      var s := ShowNat(n);
      assert s[..|s| - 1] == ShowNat(n / 10);
    }
  }

  lemma {:induction false} LeadingZero(s: string)
    ensures DigitsValue("0" + s) == DigitsValue(s)
    decreases |s|
  {
    if s != [] {
      assert ("0" + s)[..|s|] == "0" + s[..|s| - 1];
      LeadingZero(s[..|s| - 1]);
    }
  }

  lemma {:induction false} LeadingZeros(k: nat, s: string)
    ensures DigitsValue(Zeros(k) + s) == DigitsValue(s)
    decreases k
  {
    if k > 0 {
      assert Zeros(k) + s == "0" + (Zeros(k - 1) + s);
      LeadingZero(Zeros(k - 1) + s);
      LeadingZeros(k - 1, s);
    } else {
      assert Zeros(k) + s == s;
    }
  }

  lemma StripPlain(s: string)
    requires |s| > 0 && !IsSpace(s[0]) && !IsSpace(s[|s| - 1])
    ensures Strip(s) == s
  {
  }

  /** Zero-padded decimals parse back to their number (as `int("07")` gives 7). */
  lemma {:induction false} PadNatParses(n: nat, width: nat)
    ensures ParseInt(PadNat(n, width)) == Ok(n)
    ensures '-' !in PadNat(n, width)
  {
    var digits := ShowNat(n);
    ShowNatDigits(n);
    var z := if |digits| < width then Zeros(width - |digits|) else [];
    var s := z + digits;
    assert s == PadNat(n, width);
    LeadingZeros(|z|, digits);
    assert z == Zeros(|z|);
    assert forall i :: 0 <= i < |s| ==> IsDigit(s[i]);
    StripPlain(s);
  }

  /** int() of a run of ASCII digits, leading zeros included, is the number they spell. */
  lemma ParsesDigits(s: string)
    requires |s| > 0 && forall i :: 0 <= i < |s| ==> IsDigit(s[i])
    ensures ParseInt(s) == Ok(DigitsValue(s))
  {
    StripPlain(s);
    assert IsDigitGroups(s);
  }

  lemma ParsesNegativeDigits(s: string)
    requires |s| > 0 && forall i :: 0 <= i < |s| ==> IsDigit(s[i])
    ensures ParseInt("-" + s) == Ok(-DigitsValue(s))
  {
    assert IsDigitGroups(s);
    var t := "-" + s;
    assert t[0] == '-' && t[|t| - 1] == s[|s| - 1];
    StripPlain(t);
    assert t[1..] == s;
  }

  /** int() reads back what str() writes. */
  lemma {:induction false} IntRoundTrip(n: int)
    ensures ParseInt(ShowInt(n)) == Ok(n)
  {
    if n < 0 {
      ShowNatDigits(-n);
      ParsesNegativeDigits(ShowNat(-n));
    } else {
      ShowNatDigits(n);
      ParsesDigits(ShowNat(n));
    }
  }

  /** "minutes:seconds" with integer parts converts to minutes + seconds / 60. */
  lemma {:induction false} MinutesRoundTrip(minutes: int, seconds: int)
    ensures ConvertMinutesToFloat(Str(ShowInt(minutes) + ":" + ShowInt(seconds)))
         == Ok(Num(minutes as real + seconds as real / 60.0))
  {
    var a, b := ShowInt(minutes), ShowInt(seconds);
    ShowIntHasNoColon(minutes);
    ShowIntHasNoColon(seconds);
    IntRoundTrip(minutes);
    IntRoundTrip(seconds);
    MinutesParts(a, b);
  }

  /**
   * Any text with exactly one ':' converts exactly when both sides are integers to int(), leading zeros,
   * signs and surrounding white space included, and then gives minutes + seconds / 60; a side that is not
   * an integer is an error.
   */
  lemma MinutesParts(a: string, b: string)
    requires ':' !in a && ':' !in b
    ensures ConvertMinutesToFloat(Str(a + ":" + b)).Ok? <==> ParseInt(a).Ok? && ParseInt(b).Ok?
    ensures ConvertMinutesToFloat(Str(a + ":" + b)).Ok? ==>
      ConvertMinutesToFloat(Str(a + ":" + b)).value
        == Num(ParseInt(a).value as real + ParseInt(b).value as real / 60.0)
  {
    SplitAt(a, ':', b);
    SplitWithout(b, ':');
    assert a + ":" + b == a + [':'] + b;
    assert ':' in a + ":" + b by { assert (a + ":" + b)[|a|] == ':'; }
  }

  /** The usual zero-padded box-score form: "34:07" is 34 minutes and 7 seconds. */
  lemma MinutesZeroPadded()
    ensures ConvertMinutesToFloat(Str("34:07")) == Ok(Num(34.0 + 7.0 / 60.0))
  {
    assert "34:07" == "34" + ":" + "07";
    ParsesDigits("34");
    ParsesDigits("07");
    assert DigitsValue("07") == 7 by {
      assert "07"[..1] == "0";
      assert "0"[..0] == [];
    }
    assert DigitsValue("34") == 34 by {
      assert "34"[..1] == "3";
      assert "3"[..0] == [];
    }
    MinutesParts("34", "07");
  }

  /** A seconds part that int() rejects makes the conversion fail. */
  lemma MinutesBadSeconds()
    ensures ConvertMinutesToFloat(Str("12:3x")).Err?
  {
    assert "12:3x" == "12" + ":" + "3x";
    StripPlain("3x");
    var t := "3x";
    assert !GroupChar(t, 1);
    MinutesParts("12", "3x");
  }

  lemma ShowIntHasNoColon(n: int)
    ensures ':' !in ShowInt(n)
  {
    ShowNatDigits(if n < 0 then -n else n);
  }

  lemma MinutesExample()
    ensures ConvertMinutesToFloat(Str("12:30")) == Ok(Num(12.5))
  {
    MinutesRoundTrip(12, 30);
    assert ShowInt(12) + ":" + ShowInt(30) == "12:30";
  }

  /** A string with more than one ':' never converts. */
  lemma {:induction false} MinutesTooManyColons(s: string)
    requires CountChar(s, ':') >= 2
    ensures ConvertMinutesToFloat(Str(s)).Err?
  {
    SplitCount(s, ':');
    if ':' !in s {
      CountCharAbsent(s, ':');
    }
  }

  lemma {:induction false} CountCharAbsent(s: string, c: char)
    requires c !in s
    ensures CountChar(s, c) == 0
    decreases |s|
  {
    if s != [] {
      CountCharAbsent(s[1..], c);
    }
  }

  lemma SplitThree(a: string, b: string, c: string, sep: char)
    requires sep !in a && sep !in b && sep !in c
    ensures Split(a + [sep] + b + [sep] + c, sep) == [a, b, c]
  {
    assert a + [sep] + b + [sep] + c == a + [sep] + (b + [sep] + c);
    SplitAt(a, sep, b + [sep] + c);
    SplitAt(b, sep, c);
    SplitWithout(c, sep);
  }

  lemma ParseDateParts(s: string, a: string, b: string, c: string, y: int, m: int, d: int)
    requires Split(s, '-') == [a, b, c]
    requires ParseInt(a) == Ok(y) && ParseInt(b) == Ok(m) && ParseInt(c) == Ok(d)
    ensures ParseDate(Str(s)) == MakeDate(y, m, d)
  {
    assert [c][1..] == [];
    assert ParseInts([]) == Ok([]);
    assert [d] + [] == [d];
    assert ParseInts([c]) == Ok([d]);
    assert [b, c][1..] == [c];
    assert [m] + [d] == [m, d];
    assert ParseInts([b, c]) == Ok([m, d]);
    assert [a, b, c][1..] == [b, c];
    assert [y] + [m, d] == [y, m, d];
    assert ParseInts([a, b, c]) == Ok([y, m, d]);
  }

  /** Parsing reads back every valid date written in ISO form. */
  lemma {:induction false} DateRoundTrip(d: Date)
    requires IsValidDate(d)
    ensures ParseDate(Str(FormatDate(d))) == Ok(Day(d))
  {
    var y, m, dd := PadNat(d.year, 4), PadNat(d.month, 2), PadNat(d.day, 2);
    PadNatParses(d.year, 4);
    PadNatParses(d.month, 2);
    PadNatParses(d.day, 2);
    assert FormatDate(d) == y + ['-'] + m + ['-'] + dd;
    SplitThree(y, m, dd, '-');
    ParseDateParts(FormatDate(d), y, m, dd, d.year, d.month, d.day);
  }
}
