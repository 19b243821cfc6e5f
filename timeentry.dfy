/** The minute fields of the call form. `updateTotalTime` (app.js:1769-1800) adds up
    `parseInt(input.value) || 0` over every inbound and every outbound field, and `logCall`
    (app.js:1850-1860) refuses to log unless at least one field is non-empty. */
module TimeEntry {
  import opened Text

  /** `parseInt(value) || 0` for decimal text: leading whitespace is skipped, one sign is
      read, then as many digits as follow; whatever comes after them is ignored. No digits
      at all is `NaN`, which `|| 0` turns into 0, as it does `-0`. */
  function MinutesOf(value: string): int
  {
    var t := TrimStart(value);
    var signed := t != [] && (t[0] == '-' || t[0] == '+');
    var n: int := ParseNat(Span(if signed then t[1..] else t).0);
    if signed && t[0] == '-' then -n else n
  }

  /** The minutes of a list of fields, added up in order. */
  function MinutesSum(values: seq<string>): int
  {
    if values == [] then 0 else MinutesSum(values[..|values| - 1]) + MinutesOf(values[|values| - 1])
  }

  /** Some field holds text; a field holding only spaces counts, although it reads as 0. */
  predicate AnyEntered(values: seq<string>)
  {
    exists i :: 0 <= i < |values| && values[i] != ""
  }

  /** Text that starts with neither whitespace nor a sign reads as its leading digits. */
  lemma MinutesOfUnsigned(t: string)
    requires t != [] && !IsWhitespace(t[0]) && t[0] != '-' && t[0] != '+'
    ensures MinutesOf(t) == ParseNat(Span(t).0)
  {
    assert TrimStart(t) == t;
  }

  /** Text that starts with a minus sign reads as minus the digits after it. */
  lemma MinutesOfMinus(t: string)
    requires t != [] && t[0] == '-'
    ensures MinutesOf(t) == -(ParseNat(Span(t[1..]).0) as int)
  {
    assert TrimStart(t) == t;
  }

  /** The loop of `updateTotalTime` over one group of fields: `parseInt(value) || 0`
      added up field by field. */
  method TotalMinutes(values: seq<string>) returns (total: int)
    ensures total == MinutesSum(values)
  {
    total := 0;
    var i := 0;
    while i < |values|
      invariant 0 <= i <= |values|
      invariant total == MinutesSum(values[..i])
    {
      MinutesSumStep(values, i);
      total := total + MinutesOf(values[i]);
      i := i + 1;
    }
    assert values[..i] == values;
  }

  /** The loop of `logCall` over one group of fields: is any of them not empty? */
  method AnyTimeEntered(values: seq<string>) returns (entered: bool)
    ensures entered <==> AnyEntered(values)
  {
    entered := false;
    var i := 0;
    while i < |values|
      invariant 0 <= i <= |values|
      invariant entered <==> exists j :: 0 <= j < i && values[j] != ""
    {
      if values[i] != "" {
        entered := true;
      }
      i := i + 1;
    }
  }

  /** Digits, with or without a minus sign in front, and then anything that does not start
      with a digit, read as the number the digits spell. */
  lemma MinutesOfDigits(d: string, rest: string)
    requires d != [] && AllDigits(d)
    requires rest == [] || !IsDigit(rest[0])
    ensures MinutesOf(d + rest) == ParseNat(d)
    ensures MinutesOf("-" + d + rest) == -(ParseNat(d) as int)
  {
    var s := d + rest;
    assert s[0] == d[0];
    SpanDigits(d, rest);
    MinutesOfUnsigned(s);
    var t := "-" + d + rest;
    AfterSign(d, rest);
    MinutesOfMinus(t);
  }

  /** Dropping the sign in front of `d + rest` leaves `d + rest`. */
  lemma AfterSign(d: string, rest: string)
    ensures var t := "-" + d + rest; t != [] && t[0] == '-' && t[1..] == d + rest
  {
  }

  /** A field holding a number written out, followed by anything that does not start with
      a digit (nothing, a unit, a remark), reads as that number. */
  lemma MinutesOfNumber(i: int, rest: string)
    requires rest == [] || !IsDigit(rest[0])
    ensures MinutesOf(IntToString(i) + rest) == i
  {
    var n: nat := if i < 0 then -i else i;
    MinutesOfDigits(NatToString(n), rest);
    ParseNatToString(n);
  }

  /** An empty field, or one of spaces, reads as 0. */
  lemma BlankReadsZero(value: string)
    requires forall i :: 0 <= i < |value| ==> IsWhitespace(value[i])
    ensures MinutesOf(value) == 0
  {
    assert TrimStart(value) == [];
  }

  /** Text that does not start with a digit after the sign reads as 0. */
  lemma NonNumberReadsZero(value: string)
    requires value != [] && !IsDigit(value[0]) && !IsWhitespace(value[0]) && value[0] != '-' && value[0] != '+'
    ensures MinutesOf(value) == 0
  {
    assert TrimStart(value) == value;
  }

  /** When no field holds any text, the fields add up to 0 minutes. */
  lemma {:induction false} NothingEnteredSumsToZero(values: seq<string>)
    requires !AnyEntered(values)
    ensures MinutesSum(values) == 0
  {
    if values != [] {
      var init := values[..|values| - 1];
      assert !AnyEntered(init) by {
        forall i | 0 <= i < |init| ensures init[i] == "" {
          assert init[i] == values[i];
        }
      }
      NothingEnteredSumsToZero(init);
      assert values[|values| - 1] == "";
      BlankReadsZero(values[|values| - 1]);
    }
  }

  /** The total over one more field adds that field's minutes. */
  lemma MinutesSumStep(values: seq<string>, i: nat)
    requires i < |values|
    ensures MinutesSum(values[..i + 1]) == MinutesSum(values[..i]) + MinutesOf(values[i])
  {
    assert values[..i + 1][..i] == values[..i];
  }

  /** Fields are added independently: the total over two groups is the sum of the totals. */
  lemma {:induction false} MinutesSumAppend(a: seq<string>, b: seq<string>)
    ensures MinutesSum(a + b) == MinutesSum(a) + MinutesSum(b)
    decreases |b|
  {
    if b == [] {
      assert a + b == a;
    } else {
      var b' := b[..|b| - 1];
      assert (a + b)[..|a + b| - 1] == a + b';
      MinutesSumAppend(a, b');
    }
  }
}
