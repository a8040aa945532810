/** The handful of Python string built-ins the loader relies on: `str.split` on one
    separator character, `sep.join`, `int(text)` for base-ten literals and `str(n)`. */
module PyText {
  import opened Results
  import opened Sequences

  /** `sep.join(parts)`: the parts with one separator between neighbours. */
  function Join(parts: seq<string>, sep: char): string
  {
    if |parts| == 0 then []
    else if |parts| == 1 then parts[0]
    else parts[0] + [sep] + Join(parts[1..], sep)
  }

  /** Joining two pieces puts one separator between them. */
  lemma JoinTwo(a: string, b: string, sep: char)
    ensures Join([a, b], sep) == a + [sep] + b
  {
    assert [a, b][1..] == [b];
  }

  /** Joining three pieces puts one separator between each pair of neighbours. */
  lemma JoinThree(a: string, b: string, c: string, sep: char)
    ensures Join([a, b, c], sep) == a + [sep] + b + [sep] + c
  {
    assert [a, b, c][1..] == [b, c];
    JoinTwo(b, c, sep);
    assert a + [sep] + (b + [sep] + c) == a + [sep] + b + [sep] + c;
  }

  /** `s.split(sep)`: the maximal separator-free pieces between separators, empty pieces
      included, so that there is always at least one piece. */
  function Split(s: string, sep: char): (parts: seq<string>)
    ensures |parts| >= 1
    decreases |s|
  {
    if sep !in s then [s]
    else
      var i := FirstIndex(s, sep);
      [s[..i]] + Split(s[i + 1..], sep)
  }

  /** Joining the pieces of a split gives back the text, and no piece holds the separator:
      `Split` is a right inverse of `Join` on separator-free pieces. */
  lemma {:induction false} JoinSplit(s: string, sep: char)
    ensures Join(Split(s, sep), sep) == s
    ensures forall i :: 0 <= i < |Split(s, sep)| ==> sep !in Split(s, sep)[i]
    decreases |s|
  {
    if sep in s {
      var i := FirstIndex(s, sep);
      JoinSplit(s[i + 1..], sep);
      assert sep !in s[..i] by {
        forall j | 0 <= j < i ensures s[..i][j] != sep {
          assert s[..i][j] == s[j];
        }
      }
      assert s == s[..i] + [sep] + s[i + 1..];
    }
  }

  /** Splitting at the first separator: the piece before it, then the split of the rest. */
  lemma SplitAtFirst(s: string, sep: char, k: nat)
    requires k < |s| && s[k] == sep && sep !in s[..k]
    ensures Split(s, sep) == [s[..k]] + Split(s[k + 1..], sep)
  {
    forall j | 0 <= j < k ensures s[j] != sep {
      assert s[..k][j] == s[j];
    }
    FirstIndexIsFirst(s, sep, k);
  }

  /** A separator-free piece followed by the separator splits off as the first piece. */
  lemma SplitFirstPiece(p0: string, tail: string, sep: char)
    requires sep !in p0
    ensures Split(p0 + [sep] + tail, sep) == [p0] + Split(tail, sep)
  {
    var s := p0 + [sep] + tail;
    assert s[..|p0|] == p0 && s[|p0|] == sep && s[|p0| + 1..] == tail;
    SplitAtFirst(s, sep, |p0|);
  }

  /** Splitting undoes joining: separator-free pieces come back unchanged, so `Split` and
      `Join` are inverse to each other (the other direction is `JoinSplit`). */
  lemma {:induction false} SplitJoin(parts: seq<string>, sep: char)
    requires |parts| >= 1
    requires forall i :: 0 <= i < |parts| ==> sep !in parts[i]
    ensures Split(Join(parts, sep), sep) == parts
    decreases |parts|
  {
    if |parts| == 1 {
      assert sep !in parts[0];
    } else {
      var p0, rest := parts[0], parts[1..];
      assert Join(parts, sep) == p0 + [sep] + Join(rest, sep);
      assert sep !in p0;
      SplitFirstPiece(p0, Join(rest, sep), sep);
      forall i | 0 <= i < |rest|
        ensures sep !in rest[i]
      {
        assert rest[i] == parts[i + 1];
      }
      SplitJoin(rest, sep);
      assert parts == [p0] + rest;
    }
  }

  predicate IsDigit(c: char)
  {
    '0' <= c <= '9'
  }

  /** A non-empty run of ASCII decimal digits. */
  predicate IsDigits(s: string)
  {
    |s| > 0 && forall i :: 0 <= i < |s| ==> IsDigit(s[i])
  }

  /** The base-ten value of a run of digits, leading zeros allowed. */
  function DigitsValue(s: string): nat
    requires forall i :: 0 <= i < |s| ==> IsDigit(s[i])
    decreases |s|
  {
    if |s| == 0 then 0
    else
      assert IsDigit(s[|s| - 1]);
      DigitsValue(s[..|s| - 1]) * 10 + (s[|s| - 1] as int - '0' as int)
  }

  /** `int(text)` for a base-ten literal: an optional `+` or `-` followed by digits.
      `None` stands for the `ValueError` Python raises on anything else. */
  function ParseInt(s: string): Option<int>
  {
    if |s| > 1 && (s[0] == '-' || s[0] == '+') && IsDigits(s[1..]) then
      Some(if s[0] == '-' then -(DigitsValue(s[1..]) as int) else DigitsValue(s[1..]))
    else if IsDigits(s) then Some(DigitsValue(s))
    else None
  }

  function DigitChar(n: nat): (c: char)
    requires n < 10
    ensures IsDigit(c) && c as int - '0' as int == n
  {
    ('0' as int + n) as char
  }

  /** `str(n)` for a natural number: its digits, most significant first, without leading zeros. */
  function NatToString(n: nat): (s: string)
    ensures IsDigits(s)
    ensures DigitsValue(s) == n
    ensures s[0] == '0' ==> n == 0 && s == "0"
    decreases n
  {
    if n < 10 then [DigitChar(n)]
    else
      var prefix := NatToString(n / 10);
      var s := prefix + [DigitChar(n % 10)];
      assert s[..|s| - 1] == prefix;
      s
  }

  /** `str(n)` for any integer: a leading `-` for negative values. */
  function IntToString(n: int): (s: string)
    ensures n >= 0 ==> IsDigits(s)
    ensures n < 0 ==> |s| > 1 && s[0] == '-' && IsDigits(s[1..])
  {
    if n < 0 then "-" + NatToString(-n) else NatToString(n)
  }

  /** `int(str(n)) == n` for every integer. */
  lemma ParseIntToString(n: int)
    ensures ParseInt(IntToString(n)) == Some(n)
  {
    if n < 0 {
      assert IntToString(n)[1..] == NatToString(-n);
    }
  }

  /** The text of an integer holds only digits and, for a negative integer, `-`. */
  lemma IntToStringAlphabet(n: int, c: char)
    requires !IsDigit(c)
    requires c == '-' ==> n >= 0
    ensures c !in IntToString(n)
  {
    var s := IntToString(n);
    forall k | 0 <= k < |s| ensures s[k] != c {
      if n < 0 && k > 0 {
        assert s[k] == s[1..][k - 1];
      }
    }
  }
}
