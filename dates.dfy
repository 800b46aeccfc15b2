/** The date handling of both scripts: datetime.strptime with the patterns
    "%d/%m/%Y" and "%d/%m/%y", and strftime("%d/%m/%Y").

    strptime builds the regular expression
      (3[01]|[12]\d|0[1-9]|[1-9]| [1-9]) / (1[0-2]|0[1-9]|[1-9]) / (\d\d\d\d | \d\d)
    matches it at the start of the string, refuses a match that leaves
    characters over, and then refuses a day that the month does not have
    (and the year 0). Both scripts parse a stripped value, which cannot
    start with a space, so the day's " [1-9]" form never matches and is not
    part of this model. Because neither the day nor the month can hold a '/',
    the match exists exactly when the string splits at its first two '/'
    into a day of one or two digits worth 1..31, a month of one or two digits
    worth 1..12 and a year of exactly four (or two) digits. */
module Dates {
  import opened Wrappers
  import opened Text

  datatype Date = Date(day: nat, month: nat, year: nat)

  /** Which year directive ends the pattern: %Y or %y. */
  datatype YearStyle = FourDigitYear | TwoDigitYear

  predicate IsLeapYear(y: nat) {
    y % 4 == 0 && (y % 100 != 0 || y % 400 == 0)
  }

  function DaysInMonth(month: nat, year: nat): nat {
    if month == 2 then (if IsLeapYear(year) then 29 else 28)
    else if month == 4 || month == 6 || month == 9 || month == 11 then 30
    else 31
  }

  /** A date that datetime can represent: years 1 to 9999 of the Gregorian
      calendar. */
  predicate ValidDate(d: Date) {
    1 <= d.year <= 9999 && 1 <= d.month <= 12 && 1 <= d.day <= DaysInMonth(d.month, d.year)
  }

  function YearWidth(style: YearStyle): nat {
    if style == FourDigitYear then 4 else 2
  }

  /** %d: one or two digits worth 1..31 ("0" and "00" do not match). */
  predicate DayText(t: string) {
    1 <= |t| <= 2 && AllDigits(t) && 1 <= DecimalValue(t) <= 31
  }

  /** %m: one or two digits worth 1..12. */
  predicate MonthText(t: string) {
    1 <= |t| <= 2 && AllDigits(t) && 1 <= DecimalValue(t) <= 12
  }

  /** %Y: exactly four digits; %y: exactly two. */
  predicate YearText(t: string, style: YearStyle) {
    |t| == YearWidth(style) && AllDigits(t)
  }

  /** The year a matched year text stands for: %y puts 00..68 in the 2000s
      and 69..99 in the 1900s. */
  function FullYear(v: nat, style: YearStyle): nat {
    match style
    case FourDigitYear => v
    case TwoDigitYear => if v <= 68 then 2000 + v else 1900 + v
  }

  /** The three texts between the first two '/' of s, if s has two. */
  function Fields(s: string): Option<(string, string, string)> {
    var i := IndexOf(s, '/');
    if i == |s| then None
    else
      var rest := s[i + 1..];
      var j := IndexOf(rest, '/');
      if j == |rest| then None
      else Some((s[..i], rest[..j], rest[j + 1..]))
  }

  /** The date three matched texts stand for, if the calendar has it. */
  function ParseFields(dayText: string, monthText: string, yearText: string, style: YearStyle): (r: Option<Date>)
    ensures r.Some? ==> ValidDate(r.value)
  {
    if DayText(dayText) && MonthText(monthText) && YearText(yearText, style) then
      var d := Date(DecimalValue(dayText), DecimalValue(monthText), FullYear(DecimalValue(yearText), style));
      if ValidDate(d) then Some(d) else None
    else None
  }

  /** datetime.strptime(s, "%d/%m/%Y") or (s, "%d/%m/%y"); None stands for
      the ValueError. */
  function ParseDate(s: string, style: YearStyle): (r: Option<Date>)
    ensures r.Some? ==> ValidDate(r.value)
  {
    match Fields(s)
    case None => None
    case Some((dayText, monthText, yearText)) => ParseFields(dayText, monthText, yearText, style)
  }

  function DigitChar(n: nat): char
    requires n < 10
  {
    (48 + n) as char
  }

  /** The last w decimal digits of n, with leading '0's: %d and %m use w = 2,
      %Y uses w = 4. */
  function Padded(n: nat, w: nat): (r: string)
    ensures |r| == w && AllDigits(r)
  {
    if w == 0 then [] else Padded(n / 10, w - 1) + [DigitChar(n % 10)]
  }

  /** date.strftime("%d/%m/%Y"): the canonical form dd/mm/yyyy. */
  function FormatDate(d: Date): (r: string)
    ensures |r| == 10 && r[2] == '/' && r[5] == '/'
  {
    Padded(d.day, 2) + "/" + Padded(d.month, 2) + "/" + Padded(d.year, 4)
  }

  function Pow10(w: nat): nat {
    if w == 0 then 1 else 10 * Pow10(w - 1)
  }

  /** Reading back w padded digits gives the number, when it has at most w
      digits. */
  lemma {:induction false} PaddedValue(n: nat, w: nat)
    requires n < Pow10(w)
    ensures DecimalValue(Padded(n, w)) == n
  {
    if w > 0 {
      var p := Padded(n, w);
      PaddedValue(n / 10, w - 1);
      assert p[..w - 1] == Padded(n / 10, w - 1);
    }
  }

  /** Padding the value of a digit string to its own width gives it back. */
  lemma {:induction false} PaddedOfValue(t: string)
    requires AllDigits(t)
    ensures Padded(DecimalValue(t), |t|) == t
  {
    if t != [] {
      var init := t[..|t| - 1];
      PaddedOfValue(init);
      var v := DecimalValue(t);
      assert v / 10 == DecimalValue(init);
      assert t == init + [t[|t| - 1]];
    }
  }

  /** Fields undoes the joining of three texts by '/' when the first two hold
      no '/'. */
  lemma FieldsOfJoined(a: string, b: string, c: string)
    requires forall k :: 0 <= k < |a| ==> a[k] != '/'
    requires forall k :: 0 <= k < |b| ==> b[k] != '/'
    ensures Fields(a + "/" + b + "/" + c) == Some((a, b, c))
  {
    var s := a + "/" + b + "/" + c;
    assert s == a + ['/'] + (b + "/" + c);
    IndexOfAfter(a, '/', b + "/" + c);
    var rest := s[|a| + 1..];
    assert rest == b + ['/'] + c;
    IndexOfAfter(b, '/', c);
    assert s[..|a|] == a;
    assert rest[..|b|] == b && rest[|b| + 1..] == c;
  }

  /** A string with '/' at i and at i + 1 + j is its three pieces joined
      by '/'. */
  lemma JoinThree(s: string, i: nat, j: nat)
    requires i < |s| && s[i] == '/' && i + 1 + j < |s| && s[i + 1 + j] == '/'
    ensures s == s[..i] + "/" + s[i + 1..][..j] + "/" + s[i + 1..][j + 1..]
  {
    var rest := s[i + 1..];
    assert rest[j..] == "/" + rest[j + 1..];
    assert s[i..] == "/" + rest;
    assert rest == rest[..j] + rest[j..];
    assert s == s[..i] + s[i..];
  }

  /** Joining the fields by '/' gives the string back. */
  lemma JoinedFields(s: string)
    requires Fields(s).Some?
    ensures var (a, b, c) := Fields(s).value;
            s == a + "/" + b + "/" + c
  {
    var i := IndexOf(s, '/');
    var j := IndexOf(s[i + 1..], '/');
    JoinThree(s, i, j);
  }

  /** The first two fields hold no '/'. */
  lemma FieldsHoldNoSlash(s: string)
    requires Fields(s).Some?
    ensures var (a, b, c) := Fields(s).value;
            (forall k :: 0 <= k < |a| ==> a[k] != '/') && (forall k :: 0 <= k < |b| ==> b[k] != '/')
  {
    var i := IndexOf(s, '/');
    var rest := s[i + 1..];
    var j := IndexOf(rest, '/');
    assert forall k :: 0 <= k < i ==> s[..i][k] == s[k];
    assert forall k :: 0 <= k < j ==> rest[..j][k] == rest[k];
  }

  /** What strptime accepts, in both directions: a string parses to d exactly
      when it is a matched day, month and year joined by '/' whose values
      make the valid date d. */
  lemma ParseDateExactly(s: string, style: YearStyle, d: Date)
    ensures ParseDate(s, style) == Some(d) <==>
      exists dayText, monthText, yearText {:trigger dayText + "/" + monthText + "/" + yearText} ::
        s == dayText + "/" + monthText + "/" + yearText
        && DayText(dayText) && MonthText(monthText) && YearText(yearText, style)
        && d == Date(DecimalValue(dayText), DecimalValue(monthText), FullYear(DecimalValue(yearText), style))
        && ValidDate(d)
  {
    if ParseDate(s, style) == Some(d) {
      JoinedFields(s);
      FieldsHoldNoSlash(s);
      var (a, b, c) := Fields(s).value;
      assert s == a + "/" + b + "/" + c;
    }
    forall a, b, c | s == a + "/" + b + "/" + c && DayText(a) && MonthText(b) && YearText(c, style)
      && d == Date(DecimalValue(a), DecimalValue(b), FullYear(DecimalValue(c), style)) && ValidDate(d)
      ensures ParseDate(s, style) == Some(d)
    {
      DigitsHoldNoSlash(a);
      DigitsHoldNoSlash(b);
      FieldsOfJoined(a, b, c);
    }
  }

  lemma DigitsHoldNoSlash(t: string)
    requires AllDigits(t)
    ensures forall k :: 0 <= k < |t| ==> t[k] != '/'
  {
  }

  /** Formatting and parsing back with "%d/%m/%Y" gives the same date. */
  lemma FormatThenParse(d: Date)
    requires ValidDate(d)
    ensures ParseDate(FormatDate(d), FourDigitYear) == Some(d)
  {
    var dd, mm, yyyy := Padded(d.day, 2), Padded(d.month, 2), Padded(d.year, 4);
    PaddedValue(d.day, 2);
    PaddedValue(d.month, 2);
    PaddedValue(d.year, 4);
    DigitsHoldNoSlash(dd);
    DigitsHoldNoSlash(mm);
    FieldsOfJoined(dd, mm, yyyy);
  }

  /** The canonical form is made of digits and the two '/'. */
  lemma FormatDateChars(d: Date)
    ensures forall k :: 0 <= k < |FormatDate(d)| ==> FormatDate(d)[k] == '/' || IsDigit(FormatDate(d)[k])
  {
    var dd, mm, yyyy := Padded(d.day, 2), Padded(d.month, 2), Padded(d.year, 4);
    var s := FormatDate(d);
    assert s == dd + "/" + mm + "/" + yyyy;
    forall k | 0 <= k < |s|
      ensures s[k] == '/' || IsDigit(s[k])
    {
      if k < 2 {
        assert s[k] == dd[k];
      } else if 2 < k < 5 {
        assert s[k] == mm[k - 3];
      } else if 5 < k {
        assert s[k] == yyyy[k - 6];
      }
    }
  }

  /** Without a '/' nothing parses. */
  lemma NoSlashNoDate(s: string, style: YearStyle)
    requires forall k :: 0 <= k < |s| ==> s[k] != '/'
    ensures ParseDate(s, style) == None
  {
    assert IndexOf(s, '/') == |s|;
  }

  /** A string that parses is already canonical exactly when it is ten
      characters long: then reformatting gives it back unchanged, so the
      canonical form is a fixed point of parse-then-format. */
  lemma CanonicalFixedPoint(s: string, d: Date)
    requires ParseDate(s, FourDigitYear) == Some(d)
    ensures FormatDate(d) == s <==> |s| == 10
  {
    JoinedFields(s);
    var (a, b, c) := Fields(s).value;
    if |s| == 10 {
      assert |a| == 2 && |b| == 2;
      PaddedOfValue(a);
      PaddedOfValue(b);
      PaddedOfValue(c);
    }
  }

  /** Parse, then format as dd/mm/yyyy: what the scripts write back. */
  function Canonical(s: string, style: YearStyle): Option<string> {
    match ParseDate(s, style)
    case None => None
    case Some(d) => Some(FormatDate(d))
  }

  /** Canonicalising is idempotent: the canonical text is accepted by
      "%d/%m/%Y" and canonicalises to itself. */
  lemma {:induction false} CanonicalIdempotent(s: string, style: YearStyle, t: string)
    requires Canonical(s, style) == Some(t)
    ensures Canonical(t, FourDigitYear) == Some(t)
  {
    FormatThenParse(ParseDate(s, style).value);
  }

  /** %y only produces the years 1969..2068. */
  lemma TwoDigitYearRange(s: string, d: Date)
    requires ParseDate(s, TwoDigitYear) == Some(d)
    ensures 1969 <= d.year <= 2068
  {
    JoinedFields(s);
    var (a, b, c) := Fields(s).value;
    TwoDigitsBelowHundred(c);
  }

  /** A string of w digits is worth less than 10^w. */
  lemma {:induction false} DecimalValueBound(t: string)
    requires AllDigits(t)
    ensures DecimalValue(t) < Pow10(|t|)
  {
    if t != [] {
      DecimalValueBound(t[..|t| - 1]);
    }
  }

  lemma TwoDigitsBelowHundred(t: string)
    requires |t| == 2 && AllDigits(t)
    ensures DecimalValue(t) < 100
  {
    DecimalValueBound(t);
  }

  /** The first of the patterns, tried in order, that parses s (the
      for-loop over formats with a break on the first success). */
  function FirstParse(s: string, styles: seq<YearStyle>): (r: Option<Date>)
    ensures r.Some? ==> ValidDate(r.value)
  {
    if styles == [] then None
    else if ParseDate(s, styles[0]).Some? then ParseDate(s, styles[0])
    else FirstParse(s, styles[1..])
  }

  /** FirstParse finds the earliest pattern that accepts s, and nothing when
      none does. */
  lemma {:induction false} FirstParseIsEarliest(s: string, styles: seq<YearStyle>)
    ensures FirstParse(s, styles).None? <==> forall k :: 0 <= k < |styles| ==> ParseDate(s, styles[k]).None?
    ensures FirstParse(s, styles).Some? ==>
      exists k :: 0 <= k < |styles| && FirstParse(s, styles) == ParseDate(s, styles[k])
        && forall j :: 0 <= j < k ==> ParseDate(s, styles[j]).None?
  {
    if styles != [] && ParseDate(s, styles[0]).None? {
      FirstParseIsEarliest(s, styles[1..]);
      assert forall k :: 1 <= k < |styles| ==> styles[k] == styles[1..][k - 1];
      if FirstParse(s, styles).Some? {
        var k :| 0 <= k < |styles[1..]| && FirstParse(s, styles[1..]) == ParseDate(s, styles[1..][k])
          && forall j :: 0 <= j < k ==> ParseDate(s, styles[1..][j]).None?;
        assert FirstParse(s, styles) == ParseDate(s, styles[k + 1]);
      }
    }
  }

  /** The loop of the script that tries "%d/%m/%Y" and then "%d/%m/%y",
      keeping the first date that parses. */
  method ParseFirst(s: string, styles: seq<YearStyle>) returns (d: Option<Date>)
    ensures d == FirstParse(s, styles)
  {
    var k := 0;
    while k < |styles|
      invariant 0 <= k <= |styles|
      invariant FirstParse(s, styles) == FirstParse(s, styles[k..])
    {
      d := ParseDate(s, styles[k]);
      if d.Some? {
        return;
      }
      assert styles[k..][1..] == styles[k + 1..];
      k := k + 1;
    }
    d := None;
  }

  /** The canonical example: "1/2/1990" is the first of February 1990 and is
      rewritten as "01/02/1990". */
  lemma ShortDayAndMonthExample()
    ensures Canonical("1/2/1990", FourDigitYear) == Some("01/02/1990")
  {
    ShortDayAndMonthParse();
    ShortDayAndMonthFormat();
  }

  lemma ShortDayAndMonthParse()
    ensures ParseDate("1/2/1990", FourDigitYear) == Some(Date(1, 2, 1990))
  {
    DigitsHoldNoSlash("1");
    DigitsHoldNoSlash("2");
    FieldsOfJoined("1", "2", "1990");
    assert "1/2/1990" == "1" + "/" + "2" + "/" + "1990";
    SmallValues();
    assert ParseFields("1", "2", "1990", FourDigitYear) == Some(Date(1, 2, 1990));
  }

  lemma SmallValues()
    ensures DecimalValue("1") == 1 && DecimalValue("2") == 2 && DecimalValue("1990") == 1990
  {
    assert "1"[..0] == [] && "2"[..0] == [];
    assert "19"[..1] == "1";
    assert DecimalValue("19") == 19;
    assert "199"[..2] == "19";
    assert DecimalValue("199") == 199;
    assert "1990"[..3] == "199";
  }

  lemma ShortDayAndMonthFormat()
    ensures FormatDate(Date(1, 2, 1990)) == "01/02/1990"
  {
    PaddedDayAndMonth();
    PaddedYear();
  }

  lemma PaddedDayAndMonth()
    ensures Padded(1, 2) == "01" && Padded(2, 2) == "02"
  {
    assert Padded(0, 1) == "0";
  }

  lemma PaddedYear()
    ensures Padded(1990, 4) == "1990"
  {
    assert Padded(1, 1) == "1";
    assert Padded(19, 2) == "19";
    assert Padded(199, 3) == "199";
  }
}
