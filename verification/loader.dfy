/** The whole load: the case-rate phase on an empty store, the price phase on its result, and
    the flattening of the final store into the data set the map reads. */
module Loader {
  import opened Results
  import opened PyText
  import opened Dates
  import opened Calendar
  import opened Sequences
  import opened OrderedMaps
  import opened Provinces
  import opened Records
  import opened CaseRates
  import opened HousePrices
  import opened Flatten

  /** The store both phases leave behind. */
  function LoadStore(caseRows: seq<CaseRow>, priceRows: seq<PriceRow>): (r: Result<Store, LoadError>)
    ensures r.Success? ==> WellFormed(r.value)
  {
    var cases :- LoadCases(Empty(), caseRows);
    LoadPrices(cases, priceRows)
  }

  /** The loader: the flattened data set, or the error of the first row that aborts it. */
  function LoadData(caseRows: seq<CaseRow>, priceRows: seq<PriceRow>): Result<seq<FlatRecord>, LoadError>
  {
    var store :- LoadStore(caseRows, priceRows);
    Success(FlattenStore(store))
  }

  /** Some retained case-rate row names province `code`. */
  predicate HasCaseRows(caseRows: seq<CaseRow>, code: int)
  {
    FirstRow(caseRows, code) < |caseRows|
  }

  /** The record the two files determine for key `(code, d)`, if any: the rates of the last
      case-rate row for the key (zero if there is none) and the index value of the last price
      row covering it (zero if there is none). */
  function Expected(caseRows: seq<CaseRow>, priceRows: seq<PriceRow>, code: int, d: Date): Option<Rec>
  {
    match (LastCase(caseRows, code, d), LastPrice(priceRows, code, d))
    case (None, None) => None
    case (Some(rec), None) => Some(rec)
    case (None, Some(v)) => Some(Rec(0.0, 0.0, v))
    case (Some(rec), Some(v)) => Some(rec.(hpi := v))
  }

  /** The final store holds, at every key, exactly the record the two files determine. */
  lemma StoreMatchesFiles(caseRows: seq<CaseRow>, priceRows: seq<PriceRow>, code: int, d: Date)
    requires LoadStore(caseRows, priceRows).Success?
    ensures Lookup(LoadStore(caseRows, priceRows).value, code, d) == Expected(caseRows, priceRows, code, d)
  {
    var cases := LoadCases(Empty(), caseRows).value;
    CasesLastWriteWins(Empty(), caseRows, code, d);
    PricesLastWriteWins(cases, priceRows, code, d);
  }

  /** The load succeeds exactly when every retained case-rate row is readable and every
      retained price row is readable and names a province that has case-rate rows. */
  lemma LoadSucceedsIff(caseRows: seq<CaseRow>, priceRows: seq<PriceRow>)
    ensures LoadData(caseRows, priceRows).Success? <==>
      && (forall i :: 0 <= i < |caseRows| && CaseRetained(caseRows[i]) ==> CaseReadable(caseRows[i]))
      && (forall i :: 0 <= i < |priceRows| && PriceRetained(priceRows[i]) ==>
            PriceReadable(priceRows[i]) && HasCaseRows(caseRows, ProvinceCode(priceRows[i].region).value))
  {
    CasesSucceedIff(Empty(), caseRows);
    if LoadCases(Empty(), caseRows).Success? {
      var cases := LoadCases(Empty(), caseRows).value;
      CasesProvinces(Empty(), caseRows);
      PricesSucceedIff(cases, priceRows);
    }
  }

  /** Every output record carries the record the two files determine for its key, and the
      display form of its date. */
  lemma LoadDataSound(caseRows: seq<CaseRow>, priceRows: seq<PriceRow>, i: nat)
    requires LoadData(caseRows, priceRows).Success?
    requires i < |LoadData(caseRows, priceRows).value|
    ensures var f := LoadData(caseRows, priceRows).value[i];
      && Expected(caseRows, priceRows, f.code, f.date) == Some(Rec(f.total, f.active, f.hpi))
      && f.stringDate == StringDate(f.date)
  {
    var f := LoadData(caseRows, priceRows).value[i];
    StoreMatchesFiles(caseRows, priceRows, f.code, f.date);
  }

  /** Every key the two files determine a record for has an output record. */
  lemma LoadDataComplete(caseRows: seq<CaseRow>, priceRows: seq<PriceRow>, code: int, d: Date)
    requires LoadData(caseRows, priceRows).Success?
    requires Expected(caseRows, priceRows, code, d).Some?
    ensures var r := LoadData(caseRows, priceRows).value;
      exists i :: 0 <= i < |r| && r[i].code == code && r[i].date == d
  {
    var store := LoadStore(caseRows, priceRows).value;
    StoreMatchesFiles(caseRows, priceRows, code, d);
    ListsEveryKey(store, code);
    FlattenComplete(store, store.keys, code, d);
  }

  /** The date order of province `code` the two files determine: the dates of its case-rate
      rows in the order of the first row for each, then, for each retained price row of the
      province in file order, the days of its month not yet listed, in increasing order. */
  function DateOrder(caseRows: seq<CaseRow>, priceRows: seq<PriceRow>, code: int): seq<Date>
  {
    PriceDates(CaseDates([], caseRows, code), priceRows, code)
  }

  /** The final store lists the dates of every province in the order `DateOrder` gives. */
  lemma StoreDateOrder(caseRows: seq<CaseRow>, priceRows: seq<PriceRow>, code: int)
    requires LoadStore(caseRows, priceRows).Success?
    ensures DateKeys(LoadStore(caseRows, priceRows).value, code) == DateOrder(caseRows, priceRows, code)
  {
    var cases := LoadCases(Empty(), caseRows).value;
    CasesDates(Empty(), caseRows, code);
    assert DateKeys(Empty(), code) == [];
    PricesDates(cases, priceRows, code);
  }

  /** The output groups records by province, and the provinces follow the order in which each
      first appears in the case-rate file; within a province the dates follow `DateOrder`. */
  lemma LoadDataOrder(caseRows: seq<CaseRow>, priceRows: seq<PriceRow>)
    requires LoadData(caseRows, priceRows).Success?
    ensures var r := LoadData(caseRows, priceRows).value;
      forall i, j :: 0 <= i < j < |r| ==>
        || FirstRow(caseRows, r[i].code) < FirstRow(caseRows, r[j].code)
        || (&& r[i].code == r[j].code
            && r[i].date in DateOrder(caseRows, priceRows, r[i].code)
            && r[j].date in DateOrder(caseRows, priceRows, r[i].code)
            && FirstIndex(DateOrder(caseRows, priceRows, r[i].code), r[i].date)
               < FirstIndex(DateOrder(caseRows, priceRows, r[i].code), r[j].date))
  {
    var cases := LoadCases(Empty(), caseRows).value;
    var store := LoadStore(caseRows, priceRows).value;
    assert store.keys == cases.keys;
    CasesProvinceOrder(Empty(), caseRows);
    FlattenOrder(store, store.keys);
    var r := FlattenStore(store);
    forall i, j | 0 <= i < j < |r|
      ensures || FirstRow(caseRows, r[i].code) < FirstRow(caseRows, r[j].code)
              || (&& r[i].code == r[j].code
                  && r[i].date in DateOrder(caseRows, priceRows, r[i].code)
                  && r[j].date in DateOrder(caseRows, priceRows, r[i].code)
                  && FirstIndex(DateOrder(caseRows, priceRows, r[i].code), r[i].date)
                     < FirstIndex(DateOrder(caseRows, priceRows, r[i].code), r[j].date))
    {
      assert Precedes(store, store.keys, r[i], r[j]);
      var a, b := FirstIndex(store.keys, r[i].code), FirstIndex(store.keys, r[j].code);
      if a < b {
        assert cases.keys[a] == r[i].code && cases.keys[b] == r[j].code;
      } else {
        var c := r[i].code;
        StoreDateOrder(caseRows, priceRows, c);
        assert DateKeys(store, c) == store.entries[c].keys;
      }
    }
  }

  lemma MarchFifteenth()
    ensures ConvertDay("2020-03-15") == Success(Date(2020, 3, 15))
  {
    ParseYearExamples();
    assert ParseInt("03") == Some(3) by { assert "03"[..1] == "0" && "0"[..0] == ""; }
    assert ParseInt("15") == Some(15) by { assert "15"[..1] == "1" && "1"[..0] == ""; }
    ConvertJoinedFullDate("2020", "03", "15");
    assert "2020" + "-" + "03" + "-" + "15" == "2020-03-15";
  }

  lemma MarchMonth()
    ensures ConvertDay("2020-03") == Success(Date(2020, 3, 1))
  {
    ParseYearExamples();
    assert ParseInt("03") == Some(3) by { assert "03"[..1] == "0" && "0"[..0] == ""; }
    ConvertJoinedMonthOnly("2020", "03");
    assert "2020" + "-" + "03" == "2020-03";
  }

  /** The case-rate file of the worked load: an Ontario row and a row for the national aggregate. */
  function SampleCases(): seq<CaseRow>
  {
    [CaseRow("Ontario", "2020-03-15", Num(100.0), Num(50.0)), CaseRow("Canada", "2020-03-15", Num(7.0), Num(7.0))]
  }

  /** The price file of the worked load: a "House only" index for March and a row of another category. */
  function SamplePrices(): seq<PriceRow>
  {
    [PriceRow("2020-03", "Ontario", "House only", Num(500.0)), PriceRow("2020-03", "Ontario", "Land only", Num(9.0))]
  }

  lemma SampleCaseCells()
    ensures ProvinceCode(SampleCases()[0].region) == Some(11) && !CaseRetained(SampleCases()[1])
    ensures CaseReadable(SampleCases()[0]) && ConvertDay(SampleCases()[0].date) == Success(Date(2020, 3, 15))
  {
    MarchFifteenth();
    AggregatesAreNotProvinces();
  }

  /** The Ontario row is the last and only case-rate row for March 15; no other key is written. */
  lemma SampleLastCase(c: int, d: Date)
    ensures LastCase(SampleCases(), c, d) ==
      if c == 11 && d == Date(2020, 3, 15) then Some(Rec(100.0, 50.0, 0.0)) else None
  {
    SampleCaseCells();
    var rows := SampleCases();
    assert LastCase(rows, c, d) == LastCase(rows[..1], c, d);
    var first := rows[..1];
    assert first[0] == rows[0] && |first| == 1;
    assert LastCase(first, c, d) ==
      if CaseKey(rows[0], c, d) then Some(CaseRecord(rows[0])) else LastCase(first[..0], c, d);
  }

  /** The case-rate phase of the worked load succeeds and creates Ontario only. */
  lemma SampleCaseProvinces()
    ensures LoadCases(Empty(), SampleCases()).Success?
    ensures LoadCases(Empty(), SampleCases()).value.keys == [11]
  {
    SampleCaseCells();
    var rows := SampleCases();
    var e: Store := Empty();
    var one := CaseStep(e, rows[0]);
    assert one.Success?;
    assert one.value.keys == [11];
    assert LoadCases(e, rows) == LoadCases(one.value, rows[1..]);
    var rest := rows[1..];
    assert rest[0] == rows[1] && |rest| == 1;
    assert CaseStep(one.value, rest[0]) == Success(one.value);
    assert LoadCases(one.value, rest) == LoadCases(one.value, rest[1..]);
  }

  lemma SamplePriceCells()
    ensures PriceRetained(SamplePrices()[0]) && PriceReadable(SamplePrices()[0])
    ensures ProvinceCode(SamplePrices()[0].region) == Some(11)
    ensures ConvertDay(SamplePrices()[0].date) == Success(Date(2020, 3, 1))
    ensures !PriceRetained(SamplePrices()[1])
  {
    MarchMonth();
    assert SamplePrices()[1].category != HouseOnly;
  }

  /** The "House only" row is the last and only price row covering each day of March 2020 in
      Ontario; no other key is covered. */
  lemma SampleLastPrice(c: int, d: Date)
    ensures LastPrice(SamplePrices(), c, d) == if c == 11 && InMonth(d, 2020, 3, 31) then Some(500.0) else None
  {
    SamplePriceCells();
    var rows := SamplePrices();
    assert MonthDays(3) == Some(31);
    assert PriceHit(rows[0], c, d) <==> c == 11 && InMonth(d, 2020, 3, 31);
    assert LastPrice(rows, c, d) == LastPrice(rows[..1], c, d);
    var first := rows[..1];
    assert first[0] == rows[0] && |first| == 1;
    assert LastPrice(first, c, d) ==
      if PriceHit(rows[0], c, d) then Some(PriceValue(rows[0].value).value) else LastPrice(first[..0], c, d);
  }

  /** With one day `e` of the month listed, the new days are the other days 1..`n`, in order. */
  lemma {:induction false} NewDaysAround(year: int, month: int, e: int, n: nat)
    requires e >= 1
    ensures var ds := NewDays([Date(year, month, e)], year, month, n);
      && |ds| == (if n < e then n else n - 1)
      && forall k :: 0 <= k < |ds| ==> ds[k] == Date(year, month, if k + 1 < e then k + 1 else k + 2)
    decreases n
  {
    if n > 0 {
      NewDaysAround(year, month, e, n - 1);
      if n == e {
        assert Date(year, month, n) in [Date(year, month, e)];
      } else {
        assert Date(year, month, n) !in [Date(year, month, e)];
      }
    }
  }

  /** Both phases of the worked load succeed, and Ontario is the only province. */
  lemma ExampleStoreSucceeds()
    ensures var r := LoadStore(SampleCases(), SamplePrices());
      r.Success? && r.value.keys == [11] && 11 in r.value.entries
  {
    SampleCaseProvinces();
    SamplePriceCells();
    var cases := LoadCases(Empty(), SampleCases()).value;
    assert ProvinceCode(SamplePrices()[0].region).value in cases.entries by {
      assert cases.keys[0] == 11;
    }
    PricesSucceedIff(cases, SamplePrices());
    assert LoadStore(SampleCases(), SamplePrices()).value.keys[0] == 11;
  }

  /** The store of the worked load: Ontario only, with the rates of March 15 and the March
      index on every day of March. */
  lemma ExampleStore()
    ensures var r := LoadStore(SampleCases(), SamplePrices());
      && r.Success?
      && r.value.keys == [11]
      && forall c, d :: Lookup(r.value, c, d) ==
           if c == 11 && d == Date(2020, 3, 15) then Some(Rec(100.0, 50.0, 500.0))
           else if c == 11 && InMonth(d, 2020, 3, 31) then Some(Rec(0.0, 0.0, 500.0))
           else None
  {
    ExampleStoreSucceeds();
    var r := LoadStore(SampleCases(), SamplePrices());
    forall c, d
      ensures Lookup(r.value, c, d) ==
        if c == 11 && d == Date(2020, 3, 15) then Some(Rec(100.0, 50.0, 500.0))
        else if c == 11 && InMonth(d, 2020, 3, 31) then Some(Rec(0.0, 0.0, 500.0))
        else None
    {
      SampleLastCase(c, d);
      SampleLastPrice(c, d);
      StoreMatchesFiles(SampleCases(), SamplePrices(), c, d);
    }
  }

  /** The date order a two-row case-rate file gives, step by step. */
  lemma CaseDatesTwoRows(keys: seq<Date>, a: CaseRow, b: CaseRow, c: int)
    ensures var mid := keys + NewCaseDay(keys, a, c);
      CaseDates(keys, [a, b], c) == mid + NewCaseDay(mid, b, c)
  {
    var mid := keys + NewCaseDay(keys, a, c);
    assert [a, b][1..] == [b] && [b][1..] == [];
    assert CaseDates(keys, [a, b], c) == CaseDates(mid, [b], c);
    assert CaseDates(mid, [b], c) == CaseDates(mid + NewCaseDay(mid, b, c), [], c);
  }

  /** The date order a two-row price file gives, step by step. */
  lemma PriceDatesTwoRows(keys: seq<Date>, p: PriceRow, q: PriceRow, c: int)
    ensures var mid := keys + PriceNewDays(keys, p, c);
      PriceDates(keys, [p, q], c) == mid + PriceNewDays(mid, q, c)
  {
    var mid := keys + PriceNewDays(keys, p, c);
    assert [p, q][1..] == [q] && [q][1..] == [];
    assert PriceDates(keys, [p, q], c) == PriceDates(mid, [q], c);
    assert PriceDates(mid, [q], c) == PriceDates(mid + PriceNewDays(mid, q, c), [], c);
  }

  /** A two-row case-rate file whose first row writes `(c, d)` and whose second row is dropped
      gives province `c` the single date `d`. */
  lemma CaseDatesOneKey(a: CaseRow, b: CaseRow, c: int, d: Date)
    requires CaseKey(a, c, d) && !CaseRetained(b)
    ensures CaseDates([], [a, b], c) == [d]
  {
    CaseDatesTwoRows([], a, b, c);
  }

  /** A two-row price file whose first row is a retained, readable row of province `c` for
      month `m` and whose second row is dropped adds the missing days of that month. */
  lemma PriceDatesOneMonth(keys: seq<Date>, p: PriceRow, q: PriceRow, c: int, m: Date)
    requires PriceRetained(p) && PriceReadable(p) && ProvinceCode(p.region) == Some(c)
    requires ConvertDay(p.date) == Success(m) && !PriceRetained(q)
    ensures PriceDates(keys, [p, q], c) == keys + NewDays(keys, m.year, m.month, MonthDays(m.month).value)
  {
    PriceDatesTwoRows(keys, p, q, c);
  }

  /** Ontario's date order in the worked load: March 15 from the case-rate file, then the other
      March days from the index row. */
  lemma ExampleDateOrder()
    ensures DateOrder(SampleCases(), SamplePrices(), 11) == [Date(2020, 3, 15)] + NewDays([Date(2020, 3, 15)], 2020, 3, 31)
  {
    SampleCaseCells();
    SamplePriceCells();
    var cases, prices := SampleCases(), SamplePrices();
    assert cases == [cases[0], cases[1]];
    assert prices == [prices[0], prices[1]];
    CaseDatesOneKey(cases[0], cases[1], 11, Date(2020, 3, 15));
    PriceDatesOneMonth([Date(2020, 3, 15)], prices[0], prices[1], 11, Date(2020, 3, 1));
  }

  /** March 15, then the other days of March 2020 in increasing order. */
  lemma MarchAfterFifteenth(ks: seq<Date>)
    requires ks == [Date(2020, 3, 15)] + NewDays([Date(2020, 3, 15)], 2020, 3, 31)
    ensures |ks| == 31 && ks[0] == Date(2020, 3, 15)
    ensures forall k :: 1 <= k < 31 ==> ks[k] == Date(2020, 3, if k < 15 then k else k + 1)
  {
    var tail := NewDays([Date(2020, 3, 15)], 2020, 3, 31);
    NewDaysAround(2020, 3, 15, 31);
    forall k | 1 <= k < 31
      ensures ks[k] == Date(2020, 3, if k < 15 then k else k + 1)
    {
      assert ks[k] == tail[k - 1];
    }
  }

  /** Ontario's dates in the store of the worked load: March 15, then the other March days in
      increasing order. */
  lemma ExampleDays()
    ensures var r := LoadStore(SampleCases(), SamplePrices());
      && r.Success? && 11 in r.value.entries
      && var ks := r.value.entries[11].keys;
         && |ks| == 31 && ks[0] == Date(2020, 3, 15)
         && forall k :: 1 <= k < 31 ==> ks[k] == Date(2020, 3, if k < 15 then k else k + 1)
  {
    ExampleStoreSucceeds();
    var store := LoadStore(SampleCases(), SamplePrices()).value;
    StoreDateOrder(SampleCases(), SamplePrices(), 11);
    ExampleDateOrder();
    MarchAfterFifteenth(store.entries[11].keys);
  }

  /** A worked load: one Ontario case-rate row for March 15 2020 and a row for the national
      aggregate, then a "House only" index for March 2020 and a row of another category. The
      aggregate and the other category are dropped. The data set has 31 records, all for
      Ontario: first March 15, which keeps its rates and gains the index and is displayed as
      `2020-3-15`, then every other day of March in order, with the index and zero rates.
      April and the other provinces are absent. */
  lemma ExampleLoad()
    ensures var r := LoadData(SampleCases(), SamplePrices());
      && r.Success?
      && |r.value| == 31
      && r.value[0] == FlatRecord(11, Date(2020, 3, 15), "2020-3-15", 500.0, 100.0, 50.0)
      && forall k :: 1 <= k < 31 ==>
           var d := Date(2020, 3, if k < 15 then k else k + 1);
           r.value[k] == FlatRecord(11, d, StringDate(d), 500.0, 0.0, 0.0)
  {
    ExampleStore();
    ExampleDays();
    var store := LoadStore(SampleCases(), SamplePrices()).value;
    var t := store.entries[11];
    var r := FlattenStore(store);
    assert r == FlattenTable(11, t, t.keys) by {
      assert r == FlattenTable(11, t, t.keys) + FlattenFrom(store, [11][1..]);
    }
    assert r[0] == FlatRecord(11, Date(2020, 3, 15), "2020-3-15", 500.0, 100.0, 50.0) by {
      ExampleStringDate();
      assert Slots(r[0]) == t.entries[t.keys[0]];
      assert Lookup(store, 11, t.keys[0]) == Some(t.entries[t.keys[0]]);
    }
    forall k | 1 <= k < 31
      ensures var d := Date(2020, 3, if k < 15 then k else k + 1);
        r[k] == FlatRecord(11, d, StringDate(d), 500.0, 0.0, 0.0)
    {
      var d := t.keys[k];
      assert InMonth(d, 2020, 3, 31) && d != Date(2020, 3, 15);
      assert Slots(r[k]) == t.entries[d];
      assert Lookup(store, 11, d) == Some(t.entries[d]);
    }
  }
}
