/** Phase 2 of the loader: each monthly "House only" price-index row is spread over every day
    of its month in the month-length table. Days that already hold a record get only their
    price slot replaced; the other days get a new record with zero rates. */
module HousePrices {
  import opened Results
  import opened Dates
  import opened Calendar
  import opened OrderedMaps
  import opened Provinces
  import opened Records

  /** Day `d` lies in days 1..`n` of the given month. */
  predicate InMonth(d: Date, year: int, month: int, n: int)
  {
    d.year == year && d.month == month && 1 <= d.day <= n
  }

  /** One iteration of the day loop: the price slot of an existing record is replaced,
      otherwise a record `[0, 0, v]` is created. */
  function SetHpi(t: Table, d: Date, v: real): Table
    requires Valid(t)
  {
    match Get(t, d)
    case Some(rec) => Put(t, d, rec.(hpi := v))
    case None => Put(t, d, Rec(0.0, 0.0, v))
  }

  /** The days 1..`n` of the month that are not in `keys`, in increasing order. */
  function NewDays(keys: seq<Date>, year: int, month: int, n: nat): seq<Date>
  {
    if n == 0 then []
    else NewDays(keys, year, month, n - 1) + (if Date(year, month, n) in keys then [] else [Date(year, month, n)])
  }

  /** The new days are exactly the days 1..`n` of the month missing from `keys`, listed in
      increasing order of day. */
  lemma {:induction false} NewDaysAscending(keys: seq<Date>, year: int, month: int, n: nat)
    ensures var ds := NewDays(keys, year, month, n);
      && (forall d :: d in ds <==> InMonth(d, year, month, n) && d !in keys)
      && (forall i, j :: 0 <= i < j < |ds| ==> ds[i].day < ds[j].day)
    decreases n
  {
    if n > 0 {
      NewDaysAscending(keys, year, month, n - 1);
      var prev := NewDays(keys, year, month, n - 1);
      forall i | 0 <= i < |prev| ensures prev[i].day < n {
        assert prev[i] in prev;
      }
    }
  }

  /** The day loop `for day in range(1, n + 1)` of one price row. */
  function Broadcast(t: Table, year: int, month: int, n: nat, v: real): (r: Table)
    requires Valid(t)
    ensures Valid(r)
    decreases n
  {
    if n == 0 then t
    else SetHpi(Broadcast(t, year, month, n - 1, v), Date(year, month, n), v)
  }

  /** Setting the price index of one day leaves every other day as it was. */
  lemma SetHpiElsewhere(t: Table, day: Date, v: real, d: Date)
    requires Valid(t) && d != day
    ensures Get(SetHpi(t, day, v), d) == Get(t, d)
  {
  }

  /** Setting the price index of a day gives it index `v`, keeping its rates if it had a record
      and zero rates otherwise; the day is appended to the key order only if it was new. */
  lemma SetHpiHere(t: Table, day: Date, v: real)
    requires Valid(t)
    ensures var r := SetHpi(t, day, v);
      && day in r.entries
      && r.entries[day].hpi == v
      && (day in t.entries ==> r.entries[day].total == t.entries[day].total && r.entries[day].active == t.entries[day].active)
      && (day !in t.entries ==> r.entries[day].total == 0.0 && r.entries[day].active == 0.0)
      && r.keys == t.keys + (if day in t.entries then [] else [day])
  {
  }

  /** Keys outside days 1..`n` of the month are untouched by the day loop. */
  lemma {:induction false} BroadcastOutside(t: Table, year: int, month: int, n: nat, v: real, d: Date)
    requires Valid(t)
    requires !InMonth(d, year, month, n)
    ensures Get(Broadcast(t, year, month, n, v), d) == Get(t, d)
    decreases n
  {
    if n > 0 {
      var prev := Broadcast(t, year, month, n - 1, v);
      BroadcastOutside(t, year, month, n - 1, v, d);
      SetHpiElsewhere(prev, Date(year, month, n), v, d);
    }
  }

  /** Every day 1..`n` of the month ends the day loop with price index `v`; a day that already
      had a record keeps its rates and a new day gets zero rates. */
  lemma {:induction false} BroadcastInside(t: Table, year: int, month: int, n: nat, v: real, d: Date)
    requires Valid(t)
    requires InMonth(d, year, month, n)
    ensures var r := Broadcast(t, year, month, n, v);
      && d in r.entries
      && r.entries[d].hpi == v
      && (d in t.entries ==> r.entries[d].total == t.entries[d].total && r.entries[d].active == t.entries[d].active)
      && (d !in t.entries ==> r.entries[d].total == 0.0 && r.entries[d].active == 0.0)
    decreases n
  {
    var prev := Broadcast(t, year, month, n - 1, v);
    if d.day == n {
      BroadcastOutside(t, year, month, n - 1, v, d);
      SetHpiHere(prev, d, v);
    } else {
      BroadcastInside(t, year, month, n - 1, v, d);
      SetHpiElsewhere(prev, Date(year, month, n), v, d);
    }
  }

  /** Day `n` of the loop appends its day to the key order exactly when the day was not a key
      before the loop. */
  lemma BroadcastStepKeys(t: Table, year: int, month: int, n: nat, v: real)
    requires Valid(t) && n > 0
    ensures var day := Date(year, month, n);
      Broadcast(t, year, month, n, v).keys ==
        Broadcast(t, year, month, n - 1, v).keys + (if day in t.keys then [] else [day])
  {
    var day := Date(year, month, n);
    var prev := Broadcast(t, year, month, n - 1, v);
    assert Broadcast(t, year, month, n, v) == SetHpi(prev, day, v);
    BroadcastOutside(t, year, month, n - 1, v, day);
    SetHpiHere(prev, day, v);
    if day in t.entries {
      ListsEveryKey(t, day);
    }
  }

  /** The day loop appends the days that were not yet keys, in increasing order, after the
      existing keys, whose order it keeps. */
  lemma {:induction false} BroadcastKeys(t: Table, year: int, month: int, n: nat, v: real)
    requires Valid(t)
    ensures Broadcast(t, year, month, n, v).keys == t.keys + NewDays(t.keys, year, month, n)
    decreases n
  {
    if n > 0 {
      var day := Date(year, month, n);
      var extra := if day in t.keys then [] else [day];
      var before := NewDays(t.keys, year, month, n - 1);
      BroadcastStepKeys(t, year, month, n, v);
      BroadcastKeys(t, year, month, n - 1, v);
      assert NewDays(t.keys, year, month, n) == before + extra;
      assert (t.keys + before) + extra == t.keys + (before + extra);
    }
  }

  /** A price row survives the filter: a known province and exactly the "House only" category. */
  predicate PriceRetained(row: PriceRow)
  {
    ProvinceCode(row.region).Some? && row.category == HouseOnly
  }

  /** The index value of a row: an empty cell counts as 0. */
  function PriceValue(c: Cell): Result<real, LoadError>
  {
    match c
    case Blank => Success(0.0)
    case Num(v) => Success(v)
    case NotNumeric => Failure(BadNumber)
  }

  /** Every cell a retained price row needs can be read and its month is in the table. */
  predicate PriceReadable(row: PriceRow)
  {
    && !row.value.NotNumeric?
    && ConvertDay(row.date).Success?
    && 1 <= ConvertDay(row.date).value.month <= 12
  }

  /** The row is retained, readable, and its month covers key `(code, d)`. */
  predicate PriceHit(row: PriceRow, code: int, d: Date)
  {
    && PriceRetained(row) && PriceReadable(row)
    && ProvinceCode(row.region) == Some(code)
    && var m := ConvertDay(row.date).value;
       InMonth(d, m.year, m.month, MonthDays(m.month).value)
  }

  function MonthLength(month: int): Result<nat, LoadError>
  {
    match MonthDays(month)
    case Some(n) => Success(n)
    case None => Failure(NoMonthLength(month))
  }

  /** One iteration of the price loop. A row outside the filter changes nothing. A retained row
      fails exactly when a cell cannot be read, its month is outside the table, or its province
      has no case-rate rows. A successful step keeps the province order. */
  function PriceStep(s: Store, row: PriceRow): (r: Result<Store, LoadError>)
    requires WellFormed(s)
    ensures !PriceRetained(row) ==> r == Success(s)
    ensures PriceRetained(row) ==>
      (r.Success? <==> PriceReadable(row) && ProvinceCode(row.region).value in s.entries)
    ensures r.Success? ==> WellFormed(r.value) && r.value.keys == s.keys && r.value.entries.Keys == s.entries.Keys
  {
    if !PriceRetained(row) then Success(s)
    else
      var v :- PriceValue(row.value);
      var date :- DateOf(row.date);
      var n :- MonthLength(date.month);
      var code := ProvinceCode(row.region).value;
      if code !in s.entries then Failure(NoCaseRates(code))
      else Success(Put(s, code, Broadcast(s.entries[code], date.year, date.month, n, v)))
  }

  /** The price loop over the rows in file order; the first failing row aborts. */
  function LoadPrices(s: Store, rows: seq<PriceRow>): (r: Result<Store, LoadError>)
    requires WellFormed(s)
    ensures r.Success? ==> WellFormed(r.value) && r.value.keys == s.keys && r.value.entries.Keys == s.entries.Keys
    decreases |rows|
  {
    if |rows| == 0 then Success(s)
    else
      var s' :- PriceStep(s, rows[0]);
      LoadPrices(s', rows[1..])
  }

  /** What one successful price row does to key `(c, d)`: a key the row covers ends with the
      row's index value, keeping its rates if it had a record and getting zero rates if not;
      any other key is unchanged. */
  lemma PriceStepEffect(s: Store, row: PriceRow, c: int, d: Date)
    requires WellFormed(s)
    requires PriceStep(s, row).Success?
    ensures var after, before := Lookup(PriceStep(s, row).value, c, d), Lookup(s, c, d);
      && (!PriceHit(row, c, d) ==> after == before)
      && (PriceHit(row, c, d) ==>
            && after.Some?
            && after.value.hpi == PriceValue(row.value).value
            && (before.Some? ==> after.value.total == before.value.total && after.value.active == before.value.active)
            && (before.None? ==> after.value.total == 0.0 && after.value.active == 0.0))
  {
    if PriceRetained(row) {
      var date := ConvertDay(row.date).value;
      var n := MonthDays(date.month).value;
      var code := ProvinceCode(row.region).value;
      var v := PriceValue(row.value).value;
      if c == code {
        if InMonth(d, date.year, date.month, n) {
          BroadcastInside(s.entries[code], date.year, date.month, n, v, d);
        } else {
          BroadcastOutside(s.entries[code], date.year, date.month, n, v, d);
        }
      }
    }
  }

  /** Appending a row to the file runs one more step after the earlier rows. */
  lemma {:induction false} LoadPricesSnoc(s: Store, rows: seq<PriceRow>, row: PriceRow)
    requires WellFormed(s)
    ensures LoadPrices(s, rows + [row]) ==
      match LoadPrices(s, rows)
      case Failure(e) => Failure(e)
      case Success(t) => PriceStep(t, row)
    decreases |rows|
  {
    if |rows| == 0 {
      assert rows + [row] == [row];
    } else {
      assert (rows + [row])[1..] == rows[1..] + [row];
      match PriceStep(s, rows[0])
      case Failure(e) =>
      case Success(s') => LoadPricesSnoc(s', rows[1..], row);
    }
  }

  /** The index value of the last row in `rows` that covers `(code, d)`, if any row does. */
  function LastPrice(rows: seq<PriceRow>, code: int, d: Date): Option<real>
  {
    if |rows| == 0 then None
    else if PriceHit(rows[|rows| - 1], code, d) then Some(PriceValue(rows[|rows| - 1].value).value)
    else LastPrice(rows[..|rows| - 1], code, d)
  }

  /** After the price loop, a key no row covers is unchanged; a covered key carries the index
      value of the last row covering it, and keeps the rates it had before the loop (zero rates
      if it had no record). When monthly rows overlap, the later one wins. */
  lemma {:induction false} PricesLastWriteWins(s: Store, rows: seq<PriceRow>, code: int, d: Date)
    requires WellFormed(s)
    requires LoadPrices(s, rows).Success?
    ensures var after, before := Lookup(LoadPrices(s, rows).value, code, d), Lookup(s, code, d);
      match LastPrice(rows, code, d)
      case None => after == before
      case Some(v) =>
        && after.Some? && after.value.hpi == v
        && (before.Some? ==> after.value.total == before.value.total && after.value.active == before.value.active)
        && (before.None? ==> after.value.total == 0.0 && after.value.active == 0.0)
    decreases |rows|
  {
    if |rows| > 0 {
      var init, last := rows[..|rows| - 1], rows[|rows| - 1];
      assert rows == init + [last];
      LoadPricesSnoc(s, init, last);
      var mid := LoadPrices(s, init);
      assert mid.Success?;
      assert LoadPrices(s, rows) == PriceStep(mid.value, last);
      PricesLastWriteWins(s, init, code, d);
      PriceStepEffect(mid.value, last, code, d);
      assert LastPrice(rows, code, d) ==
        if PriceHit(last, code, d) then Some(PriceValue(last.value).value) else LastPrice(init, code, d);
    }
  }

  /** The price loop never changes a rate: a record that existed before it keeps its total and
      active rates. */
  lemma PricesKeepRates(s: Store, rows: seq<PriceRow>, code: int, d: Date)
    requires WellFormed(s)
    requires LoadPrices(s, rows).Success?
    requires Lookup(s, code, d).Some?
    ensures var after := Lookup(LoadPrices(s, rows).value, code, d);
      && after.Some?
      && after.value.total == Lookup(s, code, d).value.total
      && after.value.active == Lookup(s, code, d).value.active
  {
    PricesLastWriteWins(s, rows, code, d);
  }

  /** The price loop succeeds exactly when every retained row is readable and its province
      already has case-rate records. */
  lemma {:induction false} PricesSucceedIff(s: Store, rows: seq<PriceRow>)
    requires WellFormed(s)
    ensures LoadPrices(s, rows).Success? <==>
      forall i :: 0 <= i < |rows| && PriceRetained(rows[i]) ==>
        PriceReadable(rows[i]) && ProvinceCode(rows[i].region).value in s.entries
    decreases |rows|
  {
    if |rows| > 0 {
      match PriceStep(s, rows[0])
      case Failure(e) =>
        assert LoadPrices(s, rows).Failure?;
      case Success(s') =>
        assert LoadPrices(s, rows) == LoadPrices(s', rows[1..]);
        PricesSucceedIff(s', rows[1..]);
        assert forall i :: 1 <= i < |rows| ==> rows[i] == rows[1..][i - 1];
    }
  }

  /** The month-length table has no leap day: no price row ever covers February 29, so the
      price loop leaves that day of every year and province as it was. */
  lemma {:induction false} LeapDayNeverPriced(s: Store, rows: seq<PriceRow>, code: int, year: int)
    requires WellFormed(s)
    requires LoadPrices(s, rows).Success?
    ensures Lookup(LoadPrices(s, rows).value, code, Date(year, 2, 29)) == Lookup(s, code, Date(year, 2, 29))
  {
    NoRowCoversLeapDay(rows, code, year);
    PricesLastWriteWins(s, rows, code, Date(year, 2, 29));
  }

  lemma {:induction false} NoRowCoversLeapDay(rows: seq<PriceRow>, code: int, year: int)
    ensures LastPrice(rows, code, Date(year, 2, 29)) == None
    decreases |rows|
  {
    if |rows| > 0 {
      NoRowCoversLeapDay(rows[..|rows| - 1], code, year);
    }
  }

  /** The days a price row adds to the date order `keys` of province `code`: for a retained,
      readable row of that province, the days of its month missing from `keys`, in
      increasing order. */
  function PriceNewDays(keys: seq<Date>, row: PriceRow, code: int): seq<Date>
  {
    if PriceRetained(row) && PriceReadable(row) && ProvinceCode(row.region) == Some(code) then
      var m := ConvertDay(row.date).value;
      NewDays(keys, m.year, m.month, MonthDays(m.month).value)
    else []
  }

  /** The date order of province `code` after the price rows, starting from `keys`. */
  function PriceDates(keys: seq<Date>, rows: seq<PriceRow>, code: int): seq<Date>
    decreases |rows|
  {
    if |rows| == 0 then keys
    else PriceDates(keys + PriceNewDays(keys, rows[0], code), rows[1..], code)
  }

  /** One price row keeps the date order of every province and appends the missing days of its
      month to its own province's order. */
  lemma PriceStepDates(s: Store, row: PriceRow, c: int)
    requires WellFormed(s)
    requires PriceStep(s, row).Success?
    ensures DateKeys(PriceStep(s, row).value, c) == DateKeys(s, c) + PriceNewDays(DateKeys(s, c), row, c)
  {
    var r := PriceStep(s, row).value;
    if PriceRetained(row) && ProvinceCode(row.region) == Some(c) {
      var m := ConvertDay(row.date).value;
      var n := MonthDays(m.month).value;
      var v := PriceValue(row.value).value;
      assert r.entries[c] == Broadcast(s.entries[c], m.year, m.month, n, v);
      BroadcastKeys(s.entries[c], m.year, m.month, n, v);
    } else {
      assert Get(r, c) == Get(s, c);
    }
  }

  /** The date order of each province after the price loop is the one `PriceDates` describes:
      its earlier dates, then each covering row's missing days in increasing order. */
  lemma {:induction false} PricesDates(s: Store, rows: seq<PriceRow>, c: int)
    requires WellFormed(s)
    requires LoadPrices(s, rows).Success?
    ensures DateKeys(LoadPrices(s, rows).value, c) == PriceDates(DateKeys(s, c), rows, c)
    decreases |rows|
  {
    if |rows| > 0 {
      var s' := PriceStep(s, rows[0]).value;
      PriceStepDates(s, rows[0], c);
      PricesDates(s', rows[1..], c);
    }
  }
}
