/**
  The loose check that a query parameter looks like YYYY-MM-DD: split on
  '-', then compare the numeric value of each segment with fixed bounds, the
  way JavaScript compares a string with a number. Missing segments compare
  as undefined, which makes every comparison false.
 */
module DateParam {
  import opened Models

  /** A query-string value: a string, or an array or object built by the query parser. */
  datatype ParamValue = Str(s: string) | NonString

  /** A JavaScript number as a relational comparison sees it. */
  datatype Number = Finite(value: real) | PosInfinity | NegInfinity | NaN

  /** `n < k` for a finite k: false whenever n is NaN. */
  predicate LessThan(n: Number, k: real)
  {
    n.NegInfinity? || (n.Finite? && n.value < k)
  }

  /** `n > k` for a finite k: false whenever n is NaN. */
  predicate GreaterThan(n: Number, k: real)
  {
    n.PosInfinity? || (n.Finite? && n.value > k)
  }

  predicate NoDash(s: string)
  {
    forall i :: 0 <= i < |s| ==> s[i] != '-'
  }

  function SplitFrom(s: string, current: string): (parts: seq<string>)
    ensures |parts| >= 1
  {
    if s == [] then [current]
    else if s[0] == '-' then [current] + SplitFrom(s[1..], [])
    else SplitFrom(s[1..], current + [s[0]])
  }

  /** `s.split("-")`: the maximal dash-free pieces between dashes; never empty. */
  function Split(s: string): (parts: seq<string>)
    ensures |parts| >= 1
  {
    SplitFrom(s, [])
  }

  /** `parts.join("-")`. */
  function Join(parts: seq<string>): string
    requires |parts| >= 1
  {
    if |parts| == 1 then parts[0] else parts[0] + "-" + Join(parts[1..])
  }

  predicate IsDigit(c: char)
  {
    '0' <= c <= '9'
  }

  predicate AllDigits(s: string)
  {
    forall i :: 0 <= i < |s| ==> IsDigit(s[i])
  }

  function DigitValue(c: char): nat
    requires IsDigit(c)
  {
    c as int - '0' as int
  }

  function IntegerValue(s: string): nat
    requires AllDigits(s)
  {
    if s == [] then 0 else IntegerValue(s[..|s| - 1]) * 10 + DigitValue(s[|s| - 1])
  }

  function FractionValue(s: string): real
    requires AllDigits(s)
  {
    if s == [] then 0.0 else (DigitValue(s[0]) as real + FractionValue(s[1..])) / 10.0
  }

  function IndexOf(s: string, c: char): (k: nat)
    ensures k <= |s|
    ensures k < |s| ==> s[k] == c
    ensures forall i :: 0 <= i < k ==> s[i] != c
  {
    if s == [] || s[0] == c then 0 else 1 + IndexOf(s[1..], c)
  }

  /** The white space and line terminators that the string-to-number conversion ignores at both ends. */
  predicate IsWhiteSpace(c: char)
  {
    var k := c as int;
    || k == 0x09 || k == 0x0A || k == 0x0B || k == 0x0C || k == 0x0D || k == 0x20 || k == 0xA0
    || k == 0x1680 || (0x2000 <= k <= 0x200A) || k == 0x2028 || k == 0x2029 || k == 0x202F
    || k == 0x205F || k == 0x3000 || k == 0xFEFF
  }

  function TrimStart(s: string): string
  {
    if s != [] && IsWhiteSpace(s[0]) then TrimStart(s[1..]) else s
  }

  function TrimEnd(s: string): string
  {
    if s != [] && IsWhiteSpace(s[|s| - 1]) then TrimEnd(s[..|s| - 1]) else s
  }

  /** A digit of the given radix (2, 8, 10 or 16; hexadecimal letters in either case). */
  predicate IsRadixDigit(c: char, radix: nat)
  {
    if radix == 16 then IsDigit(c) || 'a' <= c <= 'f' || 'A' <= c <= 'F'
    else '0' <= c && (c as int) < ('0' as int) + radix
  }

  function RadixDigitValue(c: char, radix: nat): nat
    requires IsRadixDigit(c, radix)
  {
    if 'a' <= c <= 'f' then c as int - 'a' as int + 10
    else if 'A' <= c <= 'F' then c as int - 'A' as int + 10
    else c as int - '0' as int
  }

  predicate AllRadixDigits(s: string, radix: nat)
  {
    forall i :: 0 <= i < |s| ==> IsRadixDigit(s[i], radix)
  }

  function RadixValue(s: string, radix: nat): nat
    requires AllRadixDigits(s, radix)
  {
    if s == [] then 0 else RadixValue(s[..|s| - 1], radix) * radix + RadixDigitValue(s[|s| - 1], radix)
  }

  /** The radix a `0x`, `0o` or `0b` prefix announces, or 0 when there is none. */
  function RadixPrefix(t: string): nat
  {
    if |t| < 2 || t[0] != '0' then 0
    else if t[1] == 'x' || t[1] == 'X' then 16
    else if t[1] == 'o' || t[1] == 'O' then 8
    else if t[1] == 'b' || t[1] == 'B' then 2
    else 0
  }

  /** m times ten to the power e. */
  function Scale10(m: real, e: int): real
    decreases if e >= 0 then e else -e
  {
    if e == 0 then m
    else if e > 0 then 10.0 * Scale10(m, e - 1)
    else Scale10(m, e + 1) / 10.0
  }

  /** An exponent after `e` or `E`: an optional sign and at least one digit. */
  function Exponent(x: string): Option<int>
  {
    var sign := if x != [] && x[0] == '-' then -1 else 1;
    var digits := if x != [] && (x[0] == '+' || x[0] == '-') then x[1..] else x;
    if digits != [] && AllDigits(digits) then Some(sign * IntegerValue(digits)) else None
  }

  /** The first `e` or `E` in s, or |s| when there is none. */
  function ExponentMark(s: string): (k: nat)
    ensures k <= |s|
    ensures k < |s| ==> s[k] == 'e' || s[k] == 'E'
    ensures forall i :: 0 <= i < k ==> s[i] != 'e' && s[i] != 'E'
  {
    if s == [] || s[0] == 'e' || s[0] == 'E' then 0 else 1 + ExponentMark(s[1..])
  }

  /** An unsigned decimal literal: `Infinity`, or digits with an optional fraction and an optional exponent. */
  function UnsignedDecimal(u: string): Number
  {
    if u == "Infinity" then PosInfinity
    else
      var mark := ExponentMark(u);
      var mantissa := u[..mark];
      var exponent := if mark < |u| then Exponent(u[mark + 1..]) else Some(0);
      var dot := IndexOf(mantissa, '.');
      var whole := mantissa[..dot];
      var fraction := if dot < |mantissa| then mantissa[dot + 1..] else [];
      if AllDigits(whole) && AllDigits(fraction) && |whole| + |fraction| > 0 && exponent.Some?
      then Finite(Scale10(IntegerValue(whole) as real + FractionValue(fraction), exponent.value))
      else NaN
  }

  function Negate(n: Number): Number
  {
    match n
    case Finite(v) => Finite(-v)
    case PosInfinity => NegInfinity
    case NegInfinity => PosInfinity
    case NaN => NaN
  }

  /**
    JavaScript's string-to-number conversion, as a relational comparison with
    a number applies it: surrounding white space is ignored, the empty string
    is 0, `0x`/`0o`/`0b` literals are read in their radix, a signed decimal
    literal (or `Infinity`) is its value, and anything else is NaN.
   */
  function ToNumber(s: string): Number
  {
    var t := TrimEnd(TrimStart(s));
    var radix := RadixPrefix(t);
    var signed := t != [] && (t[0] == '+' || t[0] == '-');
    var magnitude := UnsignedDecimal(if signed then t[1..] else t);
    if t == [] then Finite(0.0)
    else if radix != 0 then
      (if |t| > 2 && AllRadixDigits(t[2..], radix) then Finite(RadixValue(t[2..], radix) as real) else NaN)
    else if t[0] == '-' then Negate(magnitude)
    else magnitude
  }

  /** The i-th segment as a number; a segment that does not exist is undefined, i.e. NaN. */
  function Segment(parts: seq<string>, i: nat): Number
  {
    if i < |parts| then ToNumber(parts[i]) else NaN
  }

  /** `isValidParamDate`; a value without `split` throws, which the check reports as invalid. */
  function IsValidParamDate(date: ParamValue): (ok: bool)
    ensures ok ==> date.Str? && |Split(date.s)[0]| == 4
  {
    match date
    case NonString => false
    case Str(s) =>
      var dateSplit := Split(s);
      if !(|dateSplit[0]| == 4 && LessThan(Segment(dateSplit, 0), 3000.0) && GreaterThan(Segment(dateSplit, 0), 2000.0)) then
        false
      else if GreaterThan(Segment(dateSplit, 1), 13.0) || LessThan(Segment(dateSplit, 1), 1.0) then
        false
      else if GreaterThan(Segment(dateSplit, 2), 31.0) || LessThan(Segment(dateSplit, 2), 1.0) then
        false
      else
        true
  }

  lemma {:induction false} JoinSplitFrom(s: string, current: string)
    ensures Join(SplitFrom(s, current)) == current + s
  {
    if s == [] {
    } else if s[0] == '-' {
      JoinSplitFrom(s[1..], []);
      assert current + s == current + "-" + s[1..];
    } else {
      JoinSplitFrom(s[1..], current + [s[0]]);
      assert current + s == current + [s[0]] + s[1..];
    }
  }

  /** Joining the pieces with '-' gives back the split string. */
  lemma JoinSplit(s: string)
    ensures Join(Split(s)) == s
  {
    JoinSplitFrom(s, []);
  }

  lemma {:induction false} SplitFromDashFree(a: string, rest: string, current: string)
    requires NoDash(a)
    ensures SplitFrom(a + rest, current) == SplitFrom(rest, current + a)
  {
    if a != [] {
      assert (a + rest)[1..] == a[1..] + rest;
      SplitFromDashFree(a[1..], rest, current + [a[0]]);
      assert current + [a[0]] + a[1..] == current + a;
    } else {
      assert a + rest == rest && current + a == current;
    }
  }

  lemma {:induction false} SplitJoinFrom(parts: seq<string>)
    requires |parts| >= 1
    requires forall i :: 0 <= i < |parts| ==> NoDash(parts[i])
    ensures Split(Join(parts)) == parts
  {
    if |parts| == 1 {
      SplitFromDashFree(parts[0], [], []);
      assert parts[0] + [] == parts[0];
    } else {
      var rest := "-" + Join(parts[1..]);
      SplitFromDashFree(parts[0], rest, []);
      assert Join(parts) == parts[0] + rest;
      assert [] + parts[0] == parts[0];
      assert rest[1..] == Join(parts[1..]);
      SplitJoinFrom(parts[1..]);
    }
  }

  /** Splitting the join of dash-free pieces gives back the pieces. */
  lemma SplitJoin(parts: seq<string>)
    requires |parts| >= 1
    requires forall i :: 0 <= i < |parts| ==> NoDash(parts[i])
    ensures Split(Join(parts)) == parts
  {
    SplitJoinFrom(parts);
  }

  lemma {:induction false} SplitFromDash(a: string, b: string, current: string)
    ensures SplitFrom(a + "-" + b, current) == SplitFrom(a, current) + Split(b)
  {
    if a == [] {
      assert a + "-" + b == "-" + b;
      assert ("-" + b)[1..] == b;
    } else {
      assert (a + "-" + b)[1..] == a[1..] + "-" + b;
      if a[0] == '-' {
        SplitFromDash(a[1..], b, []);
      } else {
        SplitFromDash(a[1..], b, current + [a[0]]);
      }
    }
  }

  /** Segments after the third are never looked at. */
  lemma TrailingSegmentsIgnored(s: string, extra: string)
    requires |Split(s)| >= 3
    ensures IsValidParamDate(Str(s + "-" + extra)) == IsValidParamDate(Str(s))
  {
    SplitFromDash(s, extra, []);
    var parts := Split(s + "-" + extra);
    assert parts[..|Split(s)|] == Split(s);
    assert parts[0] == Split(s)[0] && parts[1] == Split(s)[1] && parts[2] == Split(s)[2];
  }

  /** A lone four-digit year strictly between 2000 and 3000 passes: the missing month and day reject nothing. */
  lemma LoneYearAccepted(year: string)
    requires |year| == 4 && AllDigits(year)
    requires 2000 < IntegerValue(year) < 3000
    ensures IsValidParamDate(Str(year))
  {
    SplitJoin([year]);
    DigitsNumber(year);
  }

  function DigitChar(d: nat): (c: char)
    requires d < 10
    ensures IsDigit(c) && DigitValue(c) == d
  {
    ('0' as int + d) as char
  }

  /** Two digits of n, zero padded. */
  function Pad2(n: nat): string
    requires n < 100
  {
    [DigitChar(n / 10), DigitChar(n % 10)]
  }

  /** Four digits of n, zero padded. */
  function Pad4(n: nat): string
    requires n < 10000
  {
    Pad2(n / 100) + Pad2(n % 100)
  }

  /** The calendar-shaped string YYYY-MM-DD for a year, month and day. */
  function DateString(year: nat, month: nat, day: nat): string
    requires year < 10000 && month < 100 && day < 100
  {
    Join([Pad4(year), Pad2(month), Pad2(day)])
  }

  lemma TrimDigits(s: string)
    requires |s| > 0 && AllDigits(s)
    ensures TrimEnd(TrimStart(s)) == s
  {
    assert !IsWhiteSpace(s[0]) && !IsWhiteSpace(s[|s| - 1]);
  }

  lemma NoMarksInDigits(s: string)
    requires AllDigits(s)
    ensures ExponentMark(s) == |s| && IndexOf(s, '.') == |s|
  {
    assert forall i :: 0 <= i < |s| ==> s[i] != 'e' && s[i] != 'E' && s[i] != '.';
  }

  lemma UnsignedDigits(s: string)
    requires |s| > 0 && AllDigits(s)
    ensures UnsignedDecimal(s) == Finite(IntegerValue(s) as real)
  {
    assert s != "Infinity" by {
      assert IsDigit(s[0]) && !IsDigit("Infinity"[0]);
    }
    NoMarksInDigits(s);
    assert s[..|s|] == s;
    assert FractionValue([]) == 0.0;
  }

  /** A non-empty string of decimal digits converts to the integer it spells. */
  lemma DigitsNumber(s: string)
    requires |s| > 0 && AllDigits(s)
    ensures ToNumber(s) == Finite(IntegerValue(s) as real)
  {
    TrimDigits(s);
    assert RadixPrefix(s) == 0 by {
      if |s| >= 2 {
        assert IsDigit(s[1]);
      }
    }
    UnsignedDigits(s);
  }

  lemma Pad2Value(n: nat)
    requires n < 100
    ensures |Pad2(n)| == 2 && AllDigits(Pad2(n)) && NoDash(Pad2(n)) && IntegerValue(Pad2(n)) == n
  {
    var s := Pad2(n);
    assert s[..1] == [s[0]] && [s[0]][..0] == [];
    assert IntegerValue(s[..1]) == n / 10;
    assert IntegerValue(s) == (n / 10) * 10 + n % 10;
  }

  lemma Pad4Value(n: nat)
    requires n < 10000
    ensures |Pad4(n)| == 4 && AllDigits(Pad4(n)) && NoDash(Pad4(n)) && IntegerValue(Pad4(n)) == n
  {
    var s := Pad4(n);
    var hi, lo := n / 100, n % 100;
    assert s[..3][..2] == Pad2(hi);
    assert s[..3] == Pad2(hi) + [s[2]];
    assert s[..2][..1] == [s[0]] && [s[0]][..0] == [];
    Pad2Value(hi);
    Pad2Value(lo);
    assert IntegerValue(Pad2(hi)) == hi;
    assert IntegerValue(s) == (hi * 10 + lo / 10) * 10 + lo % 10;
  }

  /**
    On calendar-shaped strings the check is exactly: year strictly between
    2000 and 3000, month from 1 to 13, day from 1 to 31, with no regard for
    the month's length or leap years.
   */
  lemma DateStringAccepted(year: nat, month: nat, day: nat)
    requires year < 10000 && month < 100 && day < 100
    ensures IsValidParamDate(Str(DateString(year, month, day)))
        <==> 2000 < year < 3000 && 1 <= month <= 13 && 1 <= day <= 31
  {
    DateStringSegments(year, month, day);
    CheckOnNumericSegments(DateString(year, month, day), year as real, month as real, day as real);
  }

  /** When the first three segments are numbers, the check is exactly three range conditions. */
  lemma CheckOnNumericSegments(s: string, y: real, m: real, d: real)
    requires |Split(s)| >= 3 && |Split(s)[0]| == 4
    requires Segment(Split(s), 0) == Finite(y) && Segment(Split(s), 1) == Finite(m) && Segment(Split(s), 2) == Finite(d)
    ensures IsValidParamDate(Str(s)) <==> 2000.0 < y < 3000.0 && 1.0 <= m <= 13.0 && 1.0 <= d <= 31.0
  {
  }

  /** The three pieces of a calendar-shaped string, and the numbers they convert to. */
  lemma DateStringSegments(year: nat, month: nat, day: nat)
    requires year < 10000 && month < 100 && day < 100
    ensures Split(DateString(year, month, day)) == [Pad4(year), Pad2(month), Pad2(day)]
    ensures |Pad4(year)| == 4
    ensures ToNumber(Pad4(year)) == Finite(year as real)
    ensures ToNumber(Pad2(month)) == Finite(month as real)
    ensures ToNumber(Pad2(day)) == Finite(day as real)
  {
    var y, m, d := Pad4(year), Pad2(month), Pad2(day);
    Pad4Value(year);
    Pad2Value(month);
    Pad2Value(day);
    DigitsNumber(y);
    DigitsNumber(m);
    DigitsNumber(d);
    SplitThree(y, m, d);
  }

  lemma SplitThree(a: string, b: string, c: string)
    requires NoDash(a) && NoDash(b) && NoDash(c)
    ensures Split(Join([a, b, c])) == [a, b, c]
  {
    var parts := [a, b, c];
    assert parts[0] == a && parts[1] == b && parts[2] == c;
    SplitJoin(parts);
  }

  /** February 31st passes; so do month 13 and day 31, while year 2000 does not. */
  lemma LooseExamples()
    ensures IsValidParamDate(Str(DateString(2021, 2, 31)))
    ensures IsValidParamDate(Str(DateString(2021, 13, 31)))
    ensures !IsValidParamDate(Str(DateString(2000, 1, 1)))
    ensures !IsValidParamDate(Str(DateString(3000, 1, 1)))
    ensures IsValidParamDate(Str(DateString(2001, 1, 1)))
    ensures !IsValidParamDate(Str(DateString(2021, 14, 1)))
    ensures !IsValidParamDate(Str(DateString(2021, 0, 1)))
    ensures !IsValidParamDate(Str(DateString(2021, 1, 32)))
  {
    DateStringAccepted(2021, 2, 31);
    DateStringAccepted(2021, 13, 31);
    DateStringAccepted(2000, 1, 1);
    DateStringAccepted(3000, 1, 1);
    DateStringAccepted(2001, 1, 1);
    DateStringAccepted(2021, 14, 1);
    DateStringAccepted(2021, 0, 1);
    DateStringAccepted(2021, 1, 32);
  }

  /** Month and day segments that do not convert to a number (NaN) fail neither bound, so they pass. */
  lemma NonNumericSegmentsAccepted(year: string, month: string, day: string)
    requires |year| == 4 && AllDigits(year) && 2000 < IntegerValue(year) < 3000
    requires NoDash(month) && NoDash(day)
    requires ToNumber(month).NaN? && ToNumber(day).NaN?
    ensures IsValidParamDate(Str(Join([year, month, day])))
  {
    DigitsNumber(year);
    SplitThree(year, month, day);
  }

  lemma LettersAreNaN(s: string)
    requires |s| > 0 && forall i :: 0 <= i < |s| ==> 'a' <= s[i] <= 'd'
    ensures ToNumber(s).NaN?
  {
    assert !IsWhiteSpace(s[0]) && !IsWhiteSpace(s[|s| - 1]);
    assert s != "Infinity" by {
      assert s[0] != "Infinity"[0];
    }
    var mark := ExponentMark(s);
    assert mark > 0 ==> !IsDigit(s[..mark][0]);
  }

  /** "2021-ab-cd" passes the check. */
  lemma LettersAccepted()
    ensures IsValidParamDate(Str(Join(["2021", "ab", "cd"])))
  {
    assert IntegerValue("2021") == 2021 by {
      assert "2021"[..3] == "202" && "202"[..2] == "20" && "20"[..1] == "2" && "2"[..0] == "";
    }
    LettersAreNaN("ab");
    LettersAreNaN("cd");
    NonNumericSegmentsAccepted("2021", "ab", "cd");
  }

  /** A year written with an exponent passes: "21e2" converts to 2100. */
  lemma ExponentYearAccepted()
    ensures IsValidParamDate(Str("21e2"))
  {
    SplitJoin(["21e2"]);
    ExponentYearValue();
  }

  lemma ExponentYearValue()
    ensures ToNumber("21e2") == Finite(2100.0)
  {
    assert ExponentMark("21e2") == 2;
    assert "21e2"[..2] == "21" && "21"[..1] == "2" && "2"[..0] == "";
    assert "21e2"[3..] == "2";
    assert IndexOf("21", '.') == 2;
    assert Scale10(21.0, 2) == 2100.0;
  }
}
