/**
 Command payloads as their readers see them: object fields are looked up by name and numbers are read from their
 digits. A payload read back from `jsonb` may have its object keys in another order; the readings do not depend on it.
 */
module Wire {
  import opened CanonicalJson
  import opened Text
  import opened Wrappers

  // ---------------------------------------------------------------- writing

  function Strings(ss: seq<string>): Json {
    Arr(seq(|ss|, i requires 0 <= i < |ss| => Str(ss[i])))
  }

  function IntText(n: int): string {
    if n < 0 then "-" + Numeral(-n, 10) else Numeral(n, 10)
  }

  function Ints(ns: seq<int>): Json {
    Arr(seq(|ns|, i requires 0 <= i < |ns| => Number(IntText(ns[i]))))
  }

  lemma IntTextIsNumeric(n: int)
    ensures WellFormed(Number(IntText(n)))
  {
    NumeralDigits(if n < 0 then -n else n, 10);
  }

  lemma IntsWellFormed(ns: seq<int>)
    ensures WellFormed(Ints(ns))
  {
    forall i | 0 <= i < |ns|
      ensures WellFormed(Ints(ns).items[i])
    {
      IntTextIsNumeric(ns[i]);
    }
  }

  // ---------------------------------------------------------------- reading

  function Lookup(entries: seq<Entry>, key: string): Option<Json> {
    if entries == [] then None
    else if entries[0].key == key then Some(entries[0].value)
    else Lookup(entries[1..], key)
  }

  function Field(v: Json, key: string): Option<Json> {
    if v.Obj? then Lookup(v.entries, key) else None
  }

  /** A list of texts that contains this one. */
  predicate ListsText(v: Option<Json>, text: string) {
    v.Some? && v.value.Arr? && Str(text) in v.value.items
  }

  /** A list of numbers that contains this one. */
  predicate ListsNumber(v: Option<Json>, n: int) {
    v.Some? && v.value.Arr? && exists i :: 0 <= i < |v.value.items| && ReadsAs(v.value.items[i], n)
  }

  predicate ReadsAs(v: Json, n: int) {
    v.Number? && ValueOf(v.text) == n
  }

  function DigitsValue(digits: string): int {
    if digits == "" then 0
    else 10 * DigitsValue(digits[..|digits| - 1]) + (digits[|digits| - 1] as int - '0' as int)
  }

  /** The integer a decimal text stands for. */
  function ValueOf(text: string): int {
    if text != "" && text[0] == '-' then -DigitsValue(text[1..]) else DigitsValue(text)
  }

  lemma {:induction false} NumeralValue(n: nat)
    ensures DigitsValue(Numeral(n, 10)) == n
  {
    NumeralParts(n, 10);
    var s := Numeral(n, 10);
    assert Digit(n % 10) as int == '0' as int + n % 10;
    if n >= 10 {
      NumeralValue(n / 10);
    } else {
      assert s[..|s| - 1] == "";
    }
  }

  /** Writing a number and reading it back gives the number. */
  lemma IntTextValue(n: int)
    ensures ValueOf(IntText(n)) == n
    ensures IntText(n) != "" && (IntText(n)[0] == '-' <==> n < 0)
  {
    if n < 0 {
      NumeralValue(-n);
      assert ("-" + Numeral(-n, 10))[1..] == Numeral(-n, 10);
    } else {
      NumeralValue(n);
      NumeralDigits(n, 10);
      assert Numeral(n, 10)[0] in Numeral(n, 10);
    }
  }

  // ---------------------------------------------------------------- what arrives

  lemma {:induction false} LookupAt(entries: seq<Entry>, j: nat)
    requires DistinctKeys(entries) && j < |entries|
    ensures Lookup(entries, entries[j].key) == Some(entries[j].value)
  {
    if j > 0 {
      var rest := entries[1..];
      assert forall i :: 0 <= i < |rest| ==> rest[i] == entries[i + 1];
      LookupAt(rest, j - 1);
    }
  }

  lemma {:induction false} LookupMissing(entries: seq<Entry>, key: string)
    requires forall i :: 0 <= i < |entries| ==> entries[i].key != key
    ensures Lookup(entries, key) == None
  {
    if entries != [] {
      LookupMissing(entries[1..], key);
    }
  }

  /** Every field that was sent is found, with an equivalent value. */
  lemma FieldArrives(sent: seq<Entry>, w: Json, i: nat)
    requires Equivalent(Obj(sent), w) && WellFormed(w) && i < |sent|
    ensures Field(w, sent[i].key).Some? && Equivalent(sent[i].value, Field(w, sent[i].key).value)
    ensures WellFormed(Field(w, sent[i].key).value)
  {
    assert HasField(sent[i], w.entries);
    var j :| 0 <= j < |w.entries| && sent[i].key == w.entries[j].key && Equivalent(sent[i].value, w.entries[j].value);
    LookupAt(w.entries, j);
  }

  lemma StringsArrive(ss: seq<string>, w: Json, text: string)
    requires Equivalent(Strings(ss), w)
    ensures w == Strings(ss) && (ListsText(Some(w), text) <==> text in ss)
  {
    forall i | 0 <= i < |ss|
      ensures w.items[i] == Str(ss[i])
    {
      assert Equivalent(Strings(ss).items[i], w.items[i]);
    }
    if text in ss {
      var i :| 0 <= i < |ss| && ss[i] == text;
      assert w.items[i] == Str(text);
    }
  }

  lemma IntsArrive(ns: seq<int>, w: Json, n: int)
    requires Equivalent(Ints(ns), w)
    ensures w == Ints(ns) && (ListsNumber(Some(w), n) <==> n in ns)
  {
    forall i | 0 <= i < |ns|
      ensures w.items[i] == Number(IntText(ns[i])) && (ReadsAs(w.items[i], n) <==> ns[i] == n)
    {
      assert Equivalent(Ints(ns).items[i], w.items[i]);
      IntTextValue(ns[i]);
    }
    if n in ns {
      var i :| 0 <= i < |ns| && ns[i] == n;
      assert ReadsAs(w.items[i], n);
    }
  }

  /** A value read back unchanged is an equivalent one. */
  lemma {:induction false} EquivalentToItself(v: Json)
    ensures Equivalent(v, v)
  {
    match v
    case Arr(items) =>
      forall i | 0 <= i < |items|
        ensures Equivalent(items[i], items[i])
      {
        EquivalentToItself(items[i]);
      }
    case Obj(entries) =>
      forall i | 0 <= i < |entries|
        ensures HasField(entries[i], entries)
      {
        EquivalentToItself(entries[i].value);
      }
    case _ =>
  }
}
