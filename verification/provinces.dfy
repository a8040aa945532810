/** The fixed enumeration of the thirteen provinces and territories, each with the numeric
    code used as the join key with the boundary geometry. Names outside the table (the
    national aggregate, repatriated travellers) are filtered out by both loaders. */
module Provinces {
  import opened Results

  /** `provinces`: name and code of each province or territory, in the order of the literal. */
  const Table: seq<(string, int)> := [
    ("Ontario", 11), ("British Columbia", 6), ("Quebec", 1), ("Manitoba", 10), ("Nova Scotia", 2),
    ("Newfoundland and Labrador", 5), ("New Brunswick", 7), ("Saskatchewan", 3), ("Yukon", 9),
    ("Alberta", 4), ("Prince Edward Island", 8), ("Northwest Territories", 13), ("Nunavut", 12)]

  /** The code paired with `name` in `entries`, if any. */
  function CodeIn(entries: seq<(string, int)>, name: string): (r: Option<int>)
    ensures r.Some? ==> exists i :: 0 <= i < |entries| && entries[i] == (name, r.value)
    ensures r.None? ==> forall i :: 0 <= i < |entries| ==> entries[i].0 != name
  {
    if |entries| == 0 then None
    else if entries[0].0 == name then Some(entries[0].1)
    else
      var r := CodeIn(entries[1..], name);
      assert forall i :: 1 <= i < |entries| ==> entries[i] == entries[1..][i - 1];
      r
  }

  /** The name paired with `code` in `entries`, if any. */
  function NameIn(entries: seq<(string, int)>, code: int): (r: Option<string>)
    ensures r.Some? ==> exists i :: 0 <= i < |entries| && entries[i] == (r.value, code)
    ensures r.None? ==> forall i :: 0 <= i < |entries| ==> entries[i].1 != code
  {
    if |entries| == 0 then None
    else if entries[0].1 == code then Some(entries[0].0)
    else
      var r := NameIn(entries[1..], code);
      assert forall i :: 1 <= i < |entries| ==> entries[i] == entries[1..][i - 1];
      r
  }

  /** `provinces[name]`, with `None` for a name that is not a key (`name in provinces` fails). */
  function ProvinceCode(name: string): Option<int>
  {
    CodeIn(Table, name)
  }

  /** The province a code stands for: the same table read in the other direction. */
  function ProvinceName(code: int): Option<string>
  {
    NameIn(Table, code)
  }

  /** No name and no code occurs twice in the table. */
  lemma TableIsOneToOne()
    ensures forall i, j :: 0 <= i < j < |Table| ==> Table[i].0 != Table[j].0 && Table[i].1 != Table[j].1
  {
  }

  /** The codes of the table are exactly 1..13. */
  lemma CodesAreOneToThirteen(code: int)
    ensures ProvinceName(code).Some? <==> 1 <= code <= 13
  {
    if ProvinceName(code).Some? {
      assert forall i :: 0 <= i < |Table| ==> 1 <= Table[i].1 <= 13;
    } else if 1 <= code <= 13 {
      EveryCodeNamed(code);
    }
  }

  lemma EveryCodeNamed(code: int)
    requires 1 <= code <= 13
    ensures ProvinceName(code).Some?
  {
    if code == 1 { assert ProvinceName(1).Some?; }
    else if code == 2 { assert ProvinceName(2).Some?; }
    else if code == 3 { assert ProvinceName(3).Some?; }
    else if code == 4 { assert ProvinceName(4).Some?; }
    else if code == 5 { assert ProvinceName(5).Some?; }
    else if code == 6 { assert ProvinceName(6).Some?; }
    else if code == 7 { assert ProvinceName(7).Some?; }
    else if code == 8 { assert ProvinceName(8).Some?; }
    else if code == 9 { assert ProvinceName(9).Some?; }
    else if code == 10 { assert ProvinceName(10).Some?; }
    else if code == 11 { assert ProvinceName(11).Some?; }
    else if code == 12 { assert ProvinceName(12).Some?; }
    else { assert ProvinceName(13).Some?; }
  }

  /** Every known name has a code that leads back to the name. */
  lemma CodeLeadsBackToName(name: string)
    requires ProvinceCode(name).Some?
    ensures ProvinceName(ProvinceCode(name).value) == Some(name)
  {
    TableIsOneToOne();
  }

  /** Every code of the table leads to a name whose code it is. */
  lemma NameLeadsBackToCode(code: int)
    requires ProvinceName(code).Some?
    ensures ProvinceCode(ProvinceName(code).value) == Some(code)
  {
    TableIsOneToOne();
  }

  /** No two provinces share a code. */
  lemma CodesAreDistinct(a: string, b: string)
    requires ProvinceCode(a).Some? && ProvinceCode(a) == ProvinceCode(b)
    ensures a == b
  {
    CodeLeadsBackToName(a);
    CodeLeadsBackToName(b);
  }

  /** Ontario, the first entry, has code 11. */
  lemma OntarioIsEleven()
    ensures ProvinceCode("Ontario") == Some(11)
  {
  }

  lemma CanadaIsNotAProvince()
    ensures ProvinceCode("Canada") == None
  {
    assert forall i :: 0 <= i < |Table| ==> |Table[i].0| != 6 || Table[i].0[0] != 'C';
  }

  lemma TravellersAreNotAProvince()
    ensures ProvinceCode("Repatriated travellers") == None
  {
    assert forall i :: 0 <= i < |Table| ==> |Table[i].0| != 22;
  }

  /** The aggregate rows of the case-rate file are not provinces. */
  lemma AggregatesAreNotProvinces()
    ensures ProvinceCode("Canada") == None
    ensures ProvinceCode("Repatriated travellers") == None
  {
    CanadaIsNotAProvince();
    TravellersAreNotAProvince();
  }
}
