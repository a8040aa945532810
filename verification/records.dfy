/** The shared state of the loader: the rows it reads, the per-province, per-day record
    store both phases write into, and the errors that abort a load. */
module Records {
  import opened Results
  import opened Dates
  import opened OrderedMaps

  /** A decoded spreadsheet cell that should hold a number: empty text, a float literal
      (its value), or any other text. */
  datatype Cell = Blank | Num(value: real) | NotNumeric

  /** A case-rate row, reduced to the columns the loader reads: the region name, the reporting
      date, cases plus deaths per 100k and currently active cases per 100k. */
  datatype CaseRow = CaseRow(region: string, date: string, total: Cell, active: Cell)

  /** A house-price row, reduced to the columns the loader reads: the reference month, the
      region name, the index category and the index value. */
  datatype PriceRow = PriceRow(date: string, region: string, category: string, value: Cell)

  /** The only price-index category the loader keeps. */
  const HouseOnly: string := "House only"

  /** The three aligned metrics of one province on one day: `[total, active, hpi]`. */
  datatype Rec = Rec(total: real, active: real, hpi: real)

  /** Dates of one province, in insertion order. */
  type Table = OrdMap<Date, Rec>

  /** `data_dict`: province code to that province's table, in insertion order. */
  type Store = OrdMap<int, Table>

  /** What aborts a load: a numeric cell that is not a float (`ValueError`), a date that does
      not convert, a month outside the month-length table (`KeyError`), or a price row for a
      province that has no case-rate rows (`KeyError`). */
  datatype LoadError =
    | BadNumber
    | BadDate(reason: DateError)
    | NoMonthLength(month: int)
    | NoCaseRates(code: int)

  ghost predicate WellFormed(s: Store)
  {
    Valid(s) && forall c :: c in s.entries ==> Valid(s.entries[c])
  }

  /** The record at `(code, d)`, if any. */
  function Lookup(s: Store, code: int, d: Date): Option<Rec>
  {
    if code in s.entries && d in s.entries[code].entries then Some(s.entries[code].entries[d]) else None
  }

  /** The dates of province `code` in insertion order; none when the province has no table. */
  function DateKeys(s: Store, code: int): seq<Date>
  {
    if code in s.entries then s.entries[code].keys else []
  }

  /** `float(cell)`. */
  function Float(c: Cell): Result<real, LoadError>
  {
    match c
    case Num(v) => Success(v)
    case _ => Failure(BadNumber)
  }

  function DateOf(text: string): Result<Date, LoadError>
  {
    match ConvertDay(text)
    case Success(d) => Success(d)
    case Failure(e) => Failure(BadDate(e))
  }
}
