/** The flattening pass of the loader: the nested store becomes one flat record per
    (province, date) key, provinces in their insertion order and, within a province, dates in
    their insertion order. */
module Flatten {
  import opened Results
  import opened Dates
  import opened Sequences
  import opened OrderedMaps
  import opened Records

  /** One dictionary of the output list: `cartodb_id`, `date`, `string_date`, `hpi`,
      `total_per_100k` and `active_per_100k`. */
  datatype FlatRecord = FlatRecord(code: int, date: Date, stringDate: string, hpi: real, total: real, active: real)

  /** The output record for key `(code, d)` holding `rec`. */
  function Project(code: int, d: Date, rec: Rec): FlatRecord
  {
    FlatRecord(code, d, StringDate(d), rec.hpi, rec.total, rec.active)
  }

  /** The record a flat record was projected from. */
  function Slots(f: FlatRecord): Rec
  {
    Rec(f.total, f.active, f.hpi)
  }

  /** The inner loop over the dates `ks` of one province: one record per date, in order,
      carrying the province code, the date, its display string and the three slots of the
      date's record. */
  function FlattenTable(code: int, t: Table, ks: seq<Date>): (r: seq<FlatRecord>)
    requires forall i :: 0 <= i < |ks| ==> ks[i] in t.entries
    ensures |r| == |ks|
    ensures forall i :: 0 <= i < |r| ==>
      && r[i].code == code && r[i].date == ks[i] && r[i].stringDate == StringDate(ks[i])
      && Slots(r[i]) == t.entries[ks[i]]
    decreases |ks|
  {
    if |ks| == 0 then []
    else [Project(code, ks[0], t.entries[ks[0]])] + FlattenTable(code, t, ks[1..])
  }

  /** The outer loop over the provinces `codes` of the store. */
  function FlattenFrom(s: Store, codes: seq<int>): (r: seq<FlatRecord>)
    requires WellFormed(s)
    requires forall i :: 0 <= i < |codes| ==> codes[i] in s.entries
    ensures forall i :: 0 <= i < |r| ==>
      && r[i].code in codes
      && Lookup(s, r[i].code, r[i].date) == Some(Slots(r[i]))
      && r[i].stringDate == StringDate(r[i].date)
    decreases |codes|
  {
    if |codes| == 0 then []
    else
      var t := s.entries[codes[0]];
      FlattenTable(codes[0], t, t.keys) + FlattenFrom(s, codes[1..])
  }

  /** The flattened data set of the whole store. */
  function FlattenStore(s: Store): (r: seq<FlatRecord>)
    requires WellFormed(s)
  {
    FlattenFrom(s, s.keys)
  }

  /** Every record of the store has a flat record. */
  lemma {:induction false} FlattenComplete(s: Store, codes: seq<int>, code: int, d: Date)
    requires WellFormed(s)
    requires forall i :: 0 <= i < |codes| ==> codes[i] in s.entries
    requires code in codes && Lookup(s, code, d).Some?
    ensures exists i :: 0 <= i < |FlattenFrom(s, codes)| && FlattenFrom(s, codes)[i].code == code
                        && FlattenFrom(s, codes)[i].date == d
    decreases |codes|
  {
    var r := FlattenFrom(s, codes);
    var t := s.entries[codes[0]];
    var block := FlattenTable(codes[0], t, t.keys);
    assert r == block + FlattenFrom(s, codes[1..]);
    if codes[0] == code {
      ListsEveryKey(t, d);
      var k := FirstIndex(t.keys, d);
      assert r[k] == block[k];
    } else {
      assert code in codes[1..];
      FlattenComplete(s, codes[1..], code, d);
      var i :| 0 <= i < |FlattenFrom(s, codes[1..])| && FlattenFrom(s, codes[1..])[i].code == code
               && FlattenFrom(s, codes[1..])[i].date == d;
      assert r[|block| + i] == FlattenFrom(s, codes[1..])[i];
    }
  }

  /** Record `a` is emitted before record `b`: its province was inserted earlier, or both
      belong to one province and its date was inserted earlier. */
  predicate Precedes(s: Store, codes: seq<int>, a: FlatRecord, b: FlatRecord)
    requires WellFormed(s)
    requires a.code in codes && b.code in codes
    requires Lookup(s, a.code, a.date).Some? && Lookup(s, b.code, b.date).Some?
  {
    || FirstIndex(codes, a.code) < FirstIndex(codes, b.code)
    || (a.code == b.code && IndexOf(s.entries[a.code], a.date) < IndexOf(s.entries[b.code], b.date))
  }

  /** Dropping the first of distinct provinces shifts every other position down by one. */
  lemma PositionInTail(codes: seq<int>, x: int)
    requires forall a, b :: 0 <= a < b < |codes| ==> codes[a] != codes[b]
    requires |codes| > 0 && x in codes[1..]
    ensures x != codes[0] && FirstIndex(codes, x) == 1 + FirstIndex(codes[1..], x)
  {
    var k := FirstIndex(codes[1..], x);
    assert codes[k + 1] == x;
  }

  /** The order of the output: a record of an earlier province comes first, and within one
      province the dates follow their insertion order. */
  lemma {:induction false} FlattenOrder(s: Store, codes: seq<int>)
    requires WellFormed(s)
    requires forall i :: 0 <= i < |codes| ==> codes[i] in s.entries
    requires forall a, b :: 0 <= a < b < |codes| ==> codes[a] != codes[b]
    ensures forall i, j :: 0 <= i < j < |FlattenFrom(s, codes)| ==>
      Precedes(s, codes, FlattenFrom(s, codes)[i], FlattenFrom(s, codes)[j])
    decreases |codes|
  {
    if |codes| > 0 {
      var r := FlattenFrom(s, codes);
      var c := codes[0];
      var t := s.entries[c];
      var block := FlattenTable(c, t, t.keys);
      var rest := FlattenFrom(s, codes[1..]);
      assert r == block + rest;
      FlattenOrder(s, codes[1..]);
      forall i, j | 0 <= i < j < |r| ensures Precedes(s, codes, r[i], r[j]) {
        if j < |block| {
          assert r[i] == block[i] && r[j] == block[j];
          PositionOfDistinct(t.keys, i);
          PositionOfDistinct(t.keys, j);
        } else if i < |block| {
          assert r[i] == block[i] && r[j] == rest[j - |block|];
          PositionInTail(codes, r[j].code);
        } else {
          assert r[i] == rest[i - |block|] && r[j] == rest[j - |block|];
          assert Precedes(s, codes[1..], rest[i - |block|], rest[j - |block|]);
          PositionInTail(codes, r[i].code);
          PositionInTail(codes, r[j].code);
        }
      }
    }
  }

  /** Each key is emitted at most once. */
  lemma FlattenOncePerKey(s: Store)
    requires WellFormed(s)
    ensures var r := FlattenStore(s);
      forall i, j :: 0 <= i < j < |r| ==> r[i].code != r[j].code || r[i].date != r[j].date
  {
    var r := FlattenStore(s);
    FlattenOrder(s, s.keys);
    forall i, j | 0 <= i < j < |r| ensures r[i].code != r[j].code || r[i].date != r[j].date {
      assert Precedes(s, s.keys, r[i], r[j]);
    }
  }
}
