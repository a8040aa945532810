/** Date normalisation: the three textual date encodings found in the two data files,
    and the display string derived from a date key. */
module Dates {
  import opened Results
  import opened PyText

  /** The canonical `(year, month, day)` key. No calendar validity is implied. */
  datatype Date = Date(year: int, month: int, day: int)

  /** Why a date string could not be converted: a component the format needs is absent
      (`IndexError`) or a component is not an integer literal (`ValueError`, carrying the
      offending text). Either aborts the whole load. */
  datatype DateError = MissingComponent | NotAnInteger(text: string)

  function ParseComponent(text: string): Result<int, DateError>
  {
    match ParseInt(text)
    case Some(n) => Success(n)
    case None => Failure(NotAnInteger(text))
  }

  /** `convert_day`: `M/D/Y` when the text contains `/`, otherwise `Y-M` (day 1) or `Y-M-D`.
      Components are read in Python's evaluation order, so the reported error is the first
      one Python would raise; pieces beyond the third are ignored. */
  function ConvertDay(s: string): Result<Date, DateError>
  {
    if '/' in s then
      var parts := Split(s, '/');
      if |parts| < 3 then Failure(MissingComponent)
      else
        var y :- ParseComponent(parts[2]);
        var m :- ParseComponent(parts[0]);
        var d :- ParseComponent(parts[1]);
        Success(Date(y, m, d))
    else
      var split := Split(s, '-');
      var parts := if |split| == 2 then split + ["1"] else split;
      var y :- ParseComponent(parts[0]);
      if |parts| < 2 then Failure(MissingComponent)
      else
        var m :- ParseComponent(parts[1]);
        var d :- ParseComponent(parts[2]);
        Success(Date(y, m, d))
  }

  /** With a `/` present the text is read as month/day/year: it converts exactly when it has
      at least three pieces and the first three are integer literals, and the result takes
      the year from the third piece, the month from the first and the day from the second.
      Fewer than three pieces is a missing component. */
  lemma ConvertDaySlash(s: string)
    requires '/' in s
    ensures var p := Split(s, '/');
      && (ConvertDay(s).Success? <==>
           |p| >= 3 && ParseInt(p[0]).Some? && ParseInt(p[1]).Some? && ParseInt(p[2]).Some?)
      && (ConvertDay(s).Success? ==>
           ConvertDay(s).value == Date(ParseInt(p[2]).value, ParseInt(p[0]).value, ParseInt(p[1]).value))
      && (|p| < 3 ==> ConvertDay(s) == Failure(MissingComponent))
  {
  }

  /** Without a `/` the text is read as year-month or year-month-day: it converts exactly when
      it has at least two `-`-separated pieces that are integer literals (and a third one when
      there are more than two); a two-piece text gets day 1. A text with no `-` fails: with a
      missing component when its one piece is an integer literal, otherwise as not an integer. */
  lemma ConvertDayDash(s: string)
    requires '/' !in s
    ensures var p := Split(s, '-');
      && (ConvertDay(s).Success? <==>
           |p| >= 2 && ParseInt(p[0]).Some? && ParseInt(p[1]).Some?
           && (|p| == 2 || ParseInt(p[2]).Some?))
      && (ConvertDay(s).Success? ==>
           ConvertDay(s).value
           == Date(ParseInt(p[0]).value, ParseInt(p[1]).value, if |p| == 2 then 1 else ParseInt(p[2]).value))
      && (|p| == 1 ==> ConvertDay(s) == Failure(if ParseInt(s).Some? then MissingComponent else NotAnInteger(s)))
  {
  }

  /** `'-'.join(map(str, date))`: the components joined by `-`, without zero padding. */
  function StringDate(d: Date): string
  {
    Join([IntToString(d.year), IntToString(d.month), IntToString(d.day)], '-')
  }

  /** An integer literal contains no `/`, and a `-` only as its first character. */
  lemma LiteralAlphabet(s: string)
    requires ParseInt(s).Some?
    ensures '/' !in s && '-' !in s[1..]
  {
    forall i | 0 <= i < |s| ensures s[i] != '/' && (i > 0 ==> s[i] != '-') {
      if i > 0 && !IsDigits(s) {
        assert s[i] == s[1..][i - 1];
      }
    }
  }

  /** An integer literal without a sign contains neither separator. */
  lemma UnsignedLiteralAlphabet(s: string)
    requires ParseInt(s).Some? && (s[0] == '-' ==> false)
    ensures '/' !in s && '-' !in s
  {
    LiteralAlphabet(s);
    assert s == [s[0]] + s[1..];
  }

  /** `Y-M-D` assembled from three unsigned integer literals converts component by component. */
  lemma ConvertJoinedFullDate(y: string, m: string, d: string)
    requires ParseInt(y).Some? && ParseInt(m).Some? && ParseInt(d).Some?
    requires y[0] != '-' && m[0] != '-' && d[0] != '-'
    ensures ConvertDay(y + "-" + m + "-" + d)
            == Success(Date(ParseInt(y).value, ParseInt(m).value, ParseInt(d).value))
  {
    UnsignedLiteralAlphabet(y);
    UnsignedLiteralAlphabet(m);
    UnsignedLiteralAlphabet(d);
    var parts := [y, m, d];
    var s := y + "-" + m + "-" + d;
    JoinThree(y, m, d, '-');
    SplitJoin(parts, '-');
    assert '/' !in s;
    ConvertDayDash(s);
  }

  /** `Y-M` assembled from two unsigned integer literals converts to day 1 of that month. */
  lemma ConvertJoinedMonthOnly(y: string, m: string)
    requires ParseInt(y).Some? && ParseInt(m).Some?
    requires y[0] != '-' && m[0] != '-'
    ensures ConvertDay(y + "-" + m) == Success(Date(ParseInt(y).value, ParseInt(m).value, 1))
  {
    UnsignedLiteralAlphabet(y);
    UnsignedLiteralAlphabet(m);
    var parts := [y, m];
    var s := y + "-" + m;
    JoinTwo(y, m, '-');
    SplitJoin(parts, '-');
    assert '/' !in s;
    ConvertDayDash(s);
  }

  /** `M/D/Y` assembled from three integer literals, signed or not, converts to `(Y, M, D)`. */
  lemma ConvertJoinedSlashDate(m: string, d: string, y: string)
    requires ParseInt(y).Some? && ParseInt(m).Some? && ParseInt(d).Some?
    ensures ConvertDay(m + "/" + d + "/" + y)
            == Success(Date(ParseInt(y).value, ParseInt(m).value, ParseInt(d).value))
  {
    LiteralAlphabet(y);
    LiteralAlphabet(m);
    LiteralAlphabet(d);
    var parts := [m, d, y];
    var s := m + "/" + d + "/" + y;
    JoinThree(m, d, y, '/');
    SplitJoin(parts, '/');
    assert s[|m|] == '/';
    ConvertDaySlash(s);
  }

  /** `StringDate` and `ConvertDay` are inverse on dates with non-negative components:
      the display string parses back to the key it was made from. */
  lemma StringDateRoundTrip(d: Date)
    requires d.year >= 0 && d.month >= 0 && d.day >= 0
    ensures ConvertDay(StringDate(d)) == Success(d)
  {
    var y, m, dd := IntToString(d.year), IntToString(d.month), IntToString(d.day);
    ParseIntToString(d.year);
    ParseIntToString(d.month);
    ParseIntToString(d.day);
    ConvertJoinedFullDate(y, m, dd);
    JoinThree(y, m, dd, '-');
  }

  /** A `M/D/Y` string written from any three integers converts back to `(Y, M, D)`. */
  lemma SlashDateRoundTrip(d: Date)
    ensures ConvertDay(IntToString(d.month) + "/" + IntToString(d.day) + "/" + IntToString(d.year))
            == Success(d)
  {
    ParseIntToString(d.year);
    ParseIntToString(d.month);
    ParseIntToString(d.day);
    ConvertJoinedSlashDate(IntToString(d.month), IntToString(d.day), IntToString(d.year));
  }

  /** A `Y-M` string written from non-negative integers converts to the first day of that month. */
  lemma MonthOnlyIsFirstDay(year: nat, month: nat)
    ensures ConvertDay(IntToString(year) + "-" + IntToString(month)) == Success(Date(year, month, 1))
  {
    ParseIntToString(year);
    ParseIntToString(month);
    ConvertJoinedMonthOnly(IntToString(year), IntToString(month));
  }

  lemma ParseYearExamples()
    ensures ParseInt("2018") == Some(2018)
    ensures ParseInt("2003") == Some(2003)
    ensures ParseInt("2020") == Some(2020)
  {
    assert "2018"[..3] == "201" && "201"[..2] == "20" && "20"[..1] == "2" && "2"[..0] == "";
    assert "2003"[..3] == "200" && "200"[..2] == "20";
    assert "2020"[..3] == "202" && "202"[..2] == "20";
  }

  lemma ParseShortExamples()
    ensures ParseInt("05") == Some(5) && ParseInt("17") == Some(17)
    ensures ParseInt("1") == Some(1) && ParseInt("31") == Some(31)
  {
    assert "05"[..1] == "0" && "0"[..0] == "";
    assert "17"[..1] == "1" && "1"[..0] == "";
    assert "31"[..1] == "3" && "3"[..0] == "";
  }

  /** The display string of March 15 2020 has no zero padding. */
  lemma ExampleStringDate()
    ensures StringDate(Date(2020, 3, 15)) == "2020-3-15"
  {
    assert NatToString(20) == "20" by { assert NatToString(2) == "2"; }
    assert NatToString(202) == "202";
    assert NatToString(2020) == "2020";
    assert NatToString(3) == "3";
    assert NatToString(15) == "15" by { assert NatToString(1) == "1"; }
    JoinThree("2020", "3", "15", '-');
  }

  /** Documented example: a year-month string gets day 1. */
  lemma ExampleMonthOnly()
    ensures ConvertDay("2018-05") == Success(Date(2018, 5, 1))
  {
    ParseYearExamples();
    ParseShortExamples();
    ConvertJoinedMonthOnly("2018", "05");
    assert "2018" + "-" + "05" == "2018-05";
  }

  /** Documented example: a year-month-day string maps component by component. */
  lemma ExampleFullDate()
    ensures ConvertDay("2003-05-17") == Success(Date(2003, 5, 17))
  {
    ParseYearExamples();
    ParseShortExamples();
    ConvertJoinedFullDate("2003", "05", "17");
    assert "2003" + "-" + "05" + "-" + "17" == "2003-05-17";
  }

  /** Documented example: a month/day/year string is reordered to year, month, day. */
  lemma ExampleSlashDate()
    ensures ConvertDay("1/31/2020") == Success(Date(2020, 1, 31))
  {
    ParseYearExamples();
    ParseShortExamples();
    ConvertJoinedSlashDate("1", "31", "2020");
    assert "1" + "/" + "31" + "/" + "2020" == "1/31/2020";
  }
}
