/** Phase 1 of the loader: daily case-rate rows, in file order, write the rates of their
    province and day; later rows for the same key overwrite earlier ones. */
module CaseRates {
  import opened Results
  import opened Dates
  import opened OrderedMaps
  import opened Provinces
  import opened Records

  /** A case-rate row survives the region filter. */
  predicate CaseRetained(row: CaseRow)
  {
    ProvinceCode(row.region).Some?
  }

  /** Every cell a retained case-rate row needs can be read. */
  predicate CaseReadable(row: CaseRow)
  {
    row.total.Num? && row.active.Num? && ConvertDay(row.date).Success?
  }

  /** The row is retained, readable and writes the key `(code, d)`. */
  predicate CaseKey(row: CaseRow, code: int, d: Date)
  {
    CaseRetained(row) && CaseReadable(row)
    && ProvinceCode(row.region) == Some(code) && ConvertDay(row.date) == Success(d)
  }

  /** The record a readable case-rate row writes: its two rates and a zero price index. */
  function CaseRecord(row: CaseRow): Rec
    requires CaseReadable(row)
  {
    Rec(row.total.value, row.active.value, 0.0)
  }

  /** One iteration of the case-rate loop. A row for an unknown region changes nothing; a
      retained row fails exactly when one of its cells cannot be read, and otherwise sets its
      own key to its record, leaving every other key as it was. A province seen for the first
      time is appended to the province order. */
  function CaseStep(s: Store, row: CaseRow): (r: Result<Store, LoadError>)
    requires WellFormed(s)
    ensures !CaseRetained(row) ==> r == Success(s)
    ensures CaseRetained(row) ==> (r.Success? <==> CaseReadable(row))
    ensures r.Success? ==> WellFormed(r.value)
    ensures r.Success? ==> forall c, d ::
      Lookup(r.value, c, d) == (if CaseKey(row, c, d) then Some(CaseRecord(row)) else Lookup(s, c, d))
    ensures r.Success? && CaseRetained(row) ==>
      var code := ProvinceCode(row.region).value;
      r.value.keys == (if code in s.entries then s.keys else s.keys + [code])
  {
    match ProvinceCode(row.region)
    case None => Success(s)
    case Some(code) =>
      var total :- Float(row.total);
      var active :- Float(row.active);
      var date :- DateOf(row.date);
      var table := if code in s.entries then s.entries[code] else Empty();
      Success(Put(s, code, Put(table, date, Rec(total, active, 0.0))))
  }

  /** The case-rate loop over the rows in file order; the first failing row aborts. */
  function LoadCases(s: Store, rows: seq<CaseRow>): (r: Result<Store, LoadError>)
    requires WellFormed(s)
    ensures r.Success? ==> WellFormed(r.value)
    decreases |rows|
  {
    if |rows| == 0 then Success(s)
    else
      var s' :- CaseStep(s, rows[0]);
      LoadCases(s', rows[1..])
  }

  /** The record of the last row in `rows` that writes `(code, d)`, if any row does. */
  function LastCase(rows: seq<CaseRow>, code: int, d: Date): Option<Rec>
  {
    if |rows| == 0 then None
    else if CaseKey(rows[|rows| - 1], code, d) then Some(CaseRecord(rows[|rows| - 1]))
    else LastCase(rows[..|rows| - 1], code, d)
  }

  /** Appending a row to the file runs one more step after the earlier rows. */
  lemma {:induction false} LoadCasesSnoc(s: Store, rows: seq<CaseRow>, row: CaseRow)
    requires WellFormed(s)
    ensures LoadCases(s, rows + [row]) ==
      match LoadCases(s, rows)
      case Failure(e) => Failure(e)
      case Success(t) => CaseStep(t, row)
    decreases |rows|
  {
    if |rows| == 0 {
      assert rows + [row] == [row];
    } else {
      assert (rows + [row])[1..] == rows[1..] + [row];
      match CaseStep(s, rows[0])
      case Failure(e) =>
      case Success(s') => LoadCasesSnoc(s', rows[1..], row);
    }
  }

  /** Last write wins: after the case-rate loop, the record at every key is the one written by
      the last row for that key; keys no row writes keep their earlier record. */
  lemma {:induction false} CasesLastWriteWins(s: Store, rows: seq<CaseRow>, code: int, d: Date)
    requires WellFormed(s)
    requires LoadCases(s, rows).Success?
    ensures Lookup(LoadCases(s, rows).value, code, d) ==
      match LastCase(rows, code, d)
      case Some(rec) => Some(rec)
      case None => Lookup(s, code, d)
    decreases |rows|
  {
    if |rows| > 0 {
      var init, last := rows[..|rows| - 1], rows[|rows| - 1];
      var mid := LoadCases(s, init);
      assert mid.Success? && LoadCases(s, rows) == CaseStep(mid.value, last) by {
        assert rows == init + [last];
        LoadCasesSnoc(s, init, last);
      }
      assert Lookup(LoadCases(s, rows).value, code, d) ==
        if CaseKey(last, code, d) then Some(CaseRecord(last)) else Lookup(mid.value, code, d);
      CasesLastWriteWins(s, init, code, d);
      assert LastCase(rows, code, d) ==
        if CaseKey(last, code, d) then Some(CaseRecord(last)) else LastCase(init, code, d);
    }
  }

  /** The case-rate loop succeeds exactly when every retained row is readable; rows for
      unknown regions are never read. */
  lemma {:induction false} CasesSucceedIff(s: Store, rows: seq<CaseRow>)
    requires WellFormed(s)
    ensures LoadCases(s, rows).Success? <==>
      forall i :: 0 <= i < |rows| && CaseRetained(rows[i]) ==> CaseReadable(rows[i])
    decreases |rows|
  {
    if |rows| > 0 {
      match CaseStep(s, rows[0])
      case Failure(e) =>
      case Success(s') =>
        CasesSucceedIff(s', rows[1..]);
        assert forall i :: 1 <= i < |rows| ==> rows[i] == rows[1..][i - 1];
    }
  }

  /** Position of the first retained row for province `code` (`|rows|` when there is none). */
  function FirstRow(rows: seq<CaseRow>, code: int): (i: nat)
    ensures i <= |rows|
  {
    if |rows| == 0 then 0
    else if ProvinceCode(rows[0].region) == Some(code) then 0
    else 1 + FirstRow(rows[1..], code)
  }

  /** Provinces of the store keep their places through the case-rate loop, and a province is
      in the result exactly when it was there before or some row of the file is retained for it. */
  lemma {:induction false} CasesProvinces(s: Store, rows: seq<CaseRow>)
    requires WellFormed(s)
    requires LoadCases(s, rows).Success?
    ensures var t := LoadCases(s, rows).value;
      && |s.keys| <= |t.keys| && t.keys[..|s.keys|] == s.keys
      && (forall c :: c in t.entries <==> c in s.entries || FirstRow(rows, c) < |rows|)
    decreases |rows|
  {
    if |rows| > 0 {
      var s' := CaseStep(s, rows[0]).value;
      CasesProvinces(s', rows[1..]);
      var t := LoadCases(s, rows).value;
      assert t == LoadCases(s', rows[1..]).value;
      assert t.keys[..|s.keys|] == s.keys by {
        assert t.keys[..|s'.keys|][..|s.keys|] == s'.keys[..|s.keys|];
      }
    }
  }

  lemma FirstRowTail(rows: seq<CaseRow>, c: int)
    requires |rows| > 0
    ensures FirstRow(rows, c) == if ProvinceCode(rows[0].region) == Some(c) then 0 else 1 + FirstRow(rows[1..], c)
  {
  }

  /** One step of the order argument, on key sequences alone: `before`, `mid` and `after` are
      the province orders before the first row, after it, and after the remaining rows. */
  lemma {:induction false} ProvinceOrderStep(rows: seq<CaseRow>, before: seq<int>, mid: seq<int>, after: seq<int>)
    requires |rows| > 0
    requires forall i, j :: 0 <= i < j < |after| ==> after[i] != after[j]
    requires |mid| <= |after| && after[..|mid|] == mid
    requires !CaseRetained(rows[0]) ==> mid == before
    requires CaseRetained(rows[0]) ==>
      var code := ProvinceCode(rows[0].region).value;
      code in mid && (mid == before || mid == before + [code])
    requires forall i, j :: |mid| <= i < j < |after| ==> FirstRow(rows[1..], after[i]) < FirstRow(rows[1..], after[j])
    ensures forall i, j :: |before| <= i < j < |after| ==> FirstRow(rows, after[i]) < FirstRow(rows, after[j])
  {
    forall i, j | |before| <= i < j < |after| ensures FirstRow(rows, after[i]) < FirstRow(rows, after[j]) {
      if CaseRetained(rows[0]) {
        var code := ProvinceCode(rows[0].region).value;
        var at :| 0 <= at < |mid| && mid[at] == code;
        assert after[at] == code;
        FirstRowTail(rows, after[j]);
        if i < |mid| {
          assert mid == before + [code] && i == |before|;
          assert after[i] == mid[i];
        } else {
          FirstRowTail(rows, after[i]);
        }
      } else {
        FirstRowTail(rows, after[i]);
        FirstRowTail(rows, after[j]);
      }
    }
  }

  /** The province order of the store comes from the case-rate file: the provinces added by
      the loop follow in the order in which their first retained row appears. */
  lemma {:induction false} CasesProvinceOrder(s: Store, rows: seq<CaseRow>)
    requires WellFormed(s)
    requires LoadCases(s, rows).Success?
    ensures var t := LoadCases(s, rows).value;
      forall i, j :: |s.keys| <= i < j < |t.keys| ==> FirstRow(rows, t.keys[i]) < FirstRow(rows, t.keys[j])
    decreases |rows|
  {
    if |rows| > 0 {
      var s' := CaseStep(s, rows[0]).value;
      var t := LoadCases(s, rows).value;
      assert t == LoadCases(s', rows[1..]).value;
      CasesProvinceOrder(s', rows[1..]);
      CasesProvinces(s', rows[1..]);
      if CaseRetained(rows[0]) {
        var code := ProvinceCode(rows[0].region).value;
        ListsEveryKey(s', code);
      }
      ProvinceOrderStep(rows, s.keys, s'.keys, t.keys);
    }
  }

  /** The date a case-rate row adds to the date order `keys` of province `code`: its own date
      when it is a retained, readable row of that province whose date is not yet listed. */
  function NewCaseDay(keys: seq<Date>, row: CaseRow, code: int): seq<Date>
  {
    if CaseRetained(row) && CaseReadable(row) && ProvinceCode(row.region) == Some(code)
       && ConvertDay(row.date).value !in keys
    then [ConvertDay(row.date).value]
    else []
  }

  /** The date order of province `code` after the rows, starting from `keys`: each date is
      appended when the first row that writes it is read. */
  function CaseDates(keys: seq<Date>, rows: seq<CaseRow>, code: int): seq<Date>
    decreases |rows|
  {
    if |rows| == 0 then keys
    else CaseDates(keys + NewCaseDay(keys, rows[0], code), rows[1..], code)
  }

  /** One case-rate row keeps the date order of every province and appends its date to its own
      province's order when that date is new there. */
  lemma CaseStepDates(s: Store, row: CaseRow, c: int)
    requires WellFormed(s)
    requires CaseStep(s, row).Success?
    ensures DateKeys(CaseStep(s, row).value, c) == DateKeys(s, c) + NewCaseDay(DateKeys(s, c), row, c)
  {
    var r := CaseStep(s, row).value;
    if CaseRetained(row) && ProvinceCode(row.region) == Some(c) {
      var date := ConvertDay(row.date).value;
      var table := if c in s.entries then s.entries[c] else Empty();
      assert r.entries[c] == Put(table, date, CaseRecord(row));
      assert date in table.entries <==> date in table.keys by {
        if date in table.entries {
          ListsEveryKey(table, date);
        }
      }
    } else {
      assert Get(r, c) == Get(s, c);
    }
  }

  /** The date order of each province after the case-rate loop is the one `CaseDates`
      describes: dates in the order of the first row that writes each of them. */
  lemma {:induction false} CasesDates(s: Store, rows: seq<CaseRow>, c: int)
    requires WellFormed(s)
    requires LoadCases(s, rows).Success?
    ensures DateKeys(LoadCases(s, rows).value, c) == CaseDates(DateKeys(s, c), rows, c)
    decreases |rows|
  {
    if |rows| > 0 {
      var s' := CaseStep(s, rows[0]).value;
      CaseStepDates(s, rows[0], c);
      CasesDates(s', rows[1..], c);
    }
  }
}
