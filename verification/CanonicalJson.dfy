/**
 Deterministic JSON text (src/infrastructure/canonical-json.ts): object keys are printed in sorted order at every
 depth, so that hashes survive a round trip through `jsonb`. The order stands for `localeCompare`; the results hold
 for every strict total order on keys.
 */
module CanonicalJson {
  import opened StableSort
  import opened Text
  import opened Wrappers

  /** A number is carried as the text `Number.prototype.toString` gives it. */
  datatype Json =
    | Null
    | Bool(b: bool)
    | Number(text: string)
    | Str(s: string)
    | Arr(items: seq<Json>)
    | Obj(entries: seq<Entry>)

  datatype Entry = Entry(key: string, value: Json)

  type Order = (string, string) -> bool

  predicate NumericChar(c: char) {
    '0' <= c <= '9' || c in "+-.e"
  }

  ghost predicate DistinctKeys(entries: seq<Entry>) {
    forall i, j :: 0 <= i < j < |entries| ==> entries[i].key != entries[j].key
  }

  /** Values a program object can hold: numeric texts are numeric and no object repeats a key. */
  ghost predicate WellFormed(v: Json) {
    match v
    case Number(text) => text != "" && forall c :: c in text ==> NumericChar(c)
    case Arr(items) => forall i :: 0 <= i < |items| ==> WellFormed(items[i])
    case Obj(entries) =>
      DistinctKeys(entries) && forall i :: 0 <= i < |entries| ==> WellFormed(entries[i].value)
    case _ => true
  }

  // ---------------------------------------------------------------- printing

  function Escape(c: char): string {
    if c == '"' then "\\\""
    else if c == '\\' then "\\\\"
    else if c == '\U{0008}' then "\\b"
    else if c == '\U{000c}' then "\\f"
    else if c == '\n' then "\\n"
    else if c == '\r' then "\\r"
    else if c == '\t' then "\\t"
    else if c < ' ' then "\\u00" + [Digit(c as int / 16), Digit(c as int % 16)]
    else [c]
  }

  function EscapeAll(s: string): string {
    if s == "" then "" else Escape(s[0]) + EscapeAll(s[1..])
  }

  function Quote(s: string): string {
    "\"" + EscapeAll(s) + "\""
  }

  function ByKey(lt: Order): (Entry, Entry) -> bool {
    (a: Entry, b: Entry) => lt(a.key, b.key)
  }

  function SortEntries(entries: seq<Entry>, lt: Order): (r: seq<Entry>)
    ensures |r| == |entries| && forall e :: e in r <==> e in entries
  {
    SortPermutes(entries, ByKey(lt));
    Sort(entries, ByKey(lt))
  }

  /** `canonicalJson`. */
  function Print(v: Json, lt: Order): string
    decreases v
  {
    match v
    case Null => "null"
    case Bool(b) => if b then "true" else "false"
    case Number(text) => text
    case Str(s) => Quote(s)
    case Arr(items) => "[" + PrintItems(v, items, lt) + "]"
    case Obj(entries) => "{" + PrintEntries(v, SortEntries(entries, lt), lt) + "}"
  }

  function PrintItems(parent: Json, items: seq<Json>, lt: Order): string
    requires forall i :: 0 <= i < |items| ==> items[i] < parent
    decreases parent, |items|
  {
    if items == [] then ""
    else if |items| == 1 then Print(items[0], lt)
    else Print(items[0], lt) + "," + PrintItems(parent, items[1..], lt)
  }

  function PrintEntry(parent: Json, e: Entry, lt: Order): string
    requires e.value < parent
    decreases parent, 0
  {
    Quote(e.key) + ":" + Print(e.value, lt)
  }

  function PrintEntries(parent: Json, entries: seq<Entry>, lt: Order): string
    requires forall e :: e in entries ==> e.value < parent
    decreases parent, |entries|
  {
    if entries == [] then ""
    else if |entries| == 1 then PrintEntry(parent, entries[0], lt)
    else PrintEntry(parent, entries[0], lt) + "," + PrintEntries(parent, entries[1..], lt)
  }

  /** The value with every object's entries in key order. */
  function Canon(v: Json, lt: Order): Json
    decreases v
  {
    match v
    case Arr(items) => Arr(CanonItems(v, items, lt))
    case Obj(entries) => Obj(CanonEntries(v, SortEntries(entries, lt), lt))
    case _ => v
  }

  function CanonItems(parent: Json, items: seq<Json>, lt: Order): (r: seq<Json>)
    requires forall i :: 0 <= i < |items| ==> items[i] < parent
    ensures |r| == |items|
    decreases parent, |items|
  {
    if items == [] then [] else [Canon(items[0], lt)] + CanonItems(parent, items[1..], lt)
  }

  function CanonEntries(parent: Json, entries: seq<Entry>, lt: Order): (r: seq<Entry>)
    requires forall e :: e in entries ==> e.value < parent
    ensures |r| == |entries|
    decreases parent, |entries|
  {
    if entries == [] then []
    else [Entry(entries[0].key, Canon(entries[0].value, lt))] + CanonEntries(parent, entries[1..], lt)
  }

  lemma {:induction false} CanonItemsAt(parent: Json, items: seq<Json>, lt: Order, i: nat)
    requires forall k :: 0 <= k < |items| ==> items[k] < parent
    requires i < |items|
    ensures CanonItems(parent, items, lt)[i] == Canon(items[i], lt)
    decreases |items|
  {
    if i > 0 {
      CanonItemsAt(parent, items[1..], lt, i - 1);
    }
  }

  lemma {:induction false} CanonEntriesAt(parent: Json, entries: seq<Entry>, lt: Order, i: nat)
    requires forall e :: e in entries ==> e.value < parent
    requires i < |entries|
    ensures CanonEntries(parent, entries, lt)[i] == Entry(entries[i].key, Canon(entries[i].value, lt))
    decreases |entries|
  {
    if i > 0 {
      CanonEntriesAt(parent, entries[1..], lt, i - 1);
    }
  }

  // ---------------------------------------------------------------- parsing

  function HexValue(c: char): Option<nat> {
    if '0' <= c <= '9' then Some(c as nat - '0' as nat)
    else if 'a' <= c <= 'f' then Some(c as nat - 'a' as nat + 10)
    else None
  }

  /** One character of a JSON string (section 7 of RFC 8259) and how many characters of text it took. */
  function ParseChar(s: string): (r: Option<(char, nat)>)
    ensures r.Some? ==> 1 <= r.value.1 <= |s|
  {
    if s == "" || s[0] == '"' || s[0] < ' ' then None
    else if s[0] != '\\' then Some((s[0], 1))
    else if |s| < 2 then None
    else
      match s[1]
      case '"' => Some(('"', 2))
      case '\\' => Some(('\\', 2))
      case '/' => Some(('/', 2))
      case 'b' => Some(('\U{0008}', 2))
      case 'f' => Some(('\U{000c}', 2))
      case 'n' => Some(('\n', 2))
      case 'r' => Some(('\r', 2))
      case 't' => Some(('\t', 2))
      case 'u' =>
        if |s| < 6 then None
        else
          var a :- HexValue(s[2]);
          var b :- HexValue(s[3]);
          var c :- HexValue(s[4]);
          var d :- HexValue(s[5]);
          var code := 4096 * a + 256 * b + 16 * c + d;
          if code < 0xD800 then Some((code as char, 6)) else None
      case _ => None
  }

  /** The rest of a JSON string after its opening quote, and the text behind its closing quote. */
  function ParseChars(s: string): (r: Option<(string, string)>)
    ensures r.Some? ==> |r.value.1| < |s|
    decreases |s|
  {
    if s != "" && s[0] == '"' then Some(("", s[1..]))
    else
      var (c, n) :- ParseChar(s);
      var (t, rest) :- ParseChars(s[n..]);
      Some(([c] + t, rest))
  }

  function NumericPrefix(s: string): (n: nat)
    ensures n <= |s|
  {
    if s == "" || !NumericChar(s[0]) then 0 else 1 + NumericPrefix(s[1..])
  }

  function ParseValue(s: string): (r: Option<(Json, string)>)
    ensures r.Some? ==> |r.value.1| < |s|
    decreases |s|, 0
  {
    if s == "" then None
    else if s[0] == 'n' then if "null" <= s then Some((Null, s[4..])) else None
    else if s[0] == 't' then if "true" <= s then Some((Bool(true), s[4..])) else None
    else if s[0] == 'f' then if "false" <= s then Some((Bool(false), s[5..])) else None
    else if s[0] == '"' then
      var (t, rest) :- ParseChars(s[1..]);
      Some((Str(t), rest))
    else if s[0] == '[' then
      if |s| > 1 && s[1] == ']' then Some((Arr([]), s[2..]))
      else
        var (items, rest) :- ParseItems(s[1..]);
        Some((Arr(items), rest))
    else if s[0] == '{' then
      if |s| > 1 && s[1] == '}' then Some((Obj([]), s[2..]))
      else
        var (entries, rest) :- ParseEntries(s[1..]);
        Some((Obj(entries), rest))
    else
      var n := NumericPrefix(s);
      if n == 0 then None else Some((Number(s[..n]), s[n..]))
  }

  function ParseItems(s: string): (r: Option<(seq<Json>, string)>)
    ensures r.Some? ==> |r.value.1| < |s|
    decreases |s|, 1
  {
    var (v, rest) :- ParseValue(s);
    if rest == "" then None
    else if rest[0] == ']' then Some(([v], rest[1..]))
    else if rest[0] == ',' then
      var (vs, rest') :- ParseItems(rest[1..]);
      Some(([v] + vs, rest'))
    else None
  }

  function ParseEntries(s: string): (r: Option<(seq<Entry>, string)>)
    ensures r.Some? ==> |r.value.1| < |s|
    decreases |s|, 1
  {
    if s == "" || s[0] != '"' then None
    else
      var (k, rest) :- ParseChars(s[1..]);
      if rest == "" || rest[0] != ':' then None
      else
        var (v, rest') :- ParseValue(rest[1..]);
        if rest' == "" then None
        else if rest'[0] == '}' then Some(([Entry(k, v)], rest'[1..]))
        else if rest'[0] == ',' then
          var (es, rest'') :- ParseEntries(rest'[1..]);
          Some(([Entry(k, v)] + es, rest''))
        else None
  }

  // ---------------------------------------------------------------- the parser inverts the printer

  lemma EscapeParses(c: char, rest: string)
    ensures |Escape(c)| >= 1 && Escape(c)[0] != '"'
    ensures ParseChar(Escape(c) + rest) == Some((c, |Escape(c)|))
  {
    var s := Escape(c) + rest;
    if c < ' ' && |Escape(c)| == 6 {
      assert s[4] == Digit(c as int / 16) && s[5] == Digit(c as int % 16);
    }
  }

  lemma {:induction false} EscapeAllParses(t: string, rest: string)
    ensures ParseChars(EscapeAll(t) + "\"" + rest) == Some((t, rest))
  {
    var s := EscapeAll(t) + "\"" + rest;
    if t == "" {
      assert s == "\"" + rest;
    } else {
      var tail := EscapeAll(t[1..]) + "\"" + rest;
      assert s == Escape(t[0]) + tail;
      EscapeParses(t[0], tail);
      assert s[|Escape(t[0])|..] == tail;
      EscapeAllParses(t[1..], rest);
      assert s[0] != '"' && t == [t[0]] + t[1..];
    }
  }

  /** What may follow a value inside a larger text. */
  predicate Delimited(rest: string) {
    rest == "" || !NumericChar(rest[0])
  }

  lemma {:induction false} NumericPrefixOf(t: string, rest: string)
    requires forall c :: c in t ==> NumericChar(c)
    requires Delimited(rest)
    ensures NumericPrefix(t + rest) == |t|
  {
    if t == "" {
      assert t + rest == rest;
    } else {
      assert (t + rest)[1..] == t[1..] + rest;
      NumericPrefixOf(t[1..], rest);
    }
  }

  lemma PrintHead(v: Json, lt: Order)
    requires WellFormed(v)
    ensures Print(v, lt) != "" && Print(v, lt)[0] != ']' && Print(v, lt)[0] != '}'
  {
    if v.Number? {
      assert v.text[0] in v.text;
    }
  }

  /** Parsing a printed value gives back the value in key order, and leaves what followed it untouched. */
  lemma {:induction false} ParsePrint(v: Json, rest: string, lt: Order)
    requires WellFormed(v) && Delimited(rest)
    ensures ParseValue(Print(v, lt) + rest) == Some((Canon(v, lt), rest))
    decreases v
  {
    match v
    case Arr(items) =>
      if items != [] {
        ParsePrintItems(v, items, rest, lt);
        PrintHead(items[0], lt);
      }
      ParseArray(PrintItems(v, items, lt), rest, CanonItems(v, items, lt));
    case Obj(entries) =>
      var sorted := SortEntries(entries, lt);
      var text := PrintEntries(v, sorted, lt);
      if sorted != [] {
        ParsePrintEntries(v, sorted, rest, lt);
        EntriesHead(v, sorted, lt);
      }
      ParseObject(text, rest, CanonEntries(v, sorted, lt));
    case _ =>
      ParsePrintScalar(v, rest, lt);
  }

  lemma ParsePrintScalar(v: Json, rest: string, lt: Order)
    requires WellFormed(v) && Delimited(rest) && !v.Arr? && !v.Obj?
    ensures ParseValue(Print(v, lt) + rest) == Some((v, rest))
  {
    match v
    case Null => assert ("null" + rest)[4..] == rest;
    case Bool(true) => assert ("true" + rest)[4..] == rest;
    case Bool(false) => assert ("false" + rest)[5..] == rest;
    case Number(text) => ParseNumber(text, rest);
    case Str(t) => ParseQuoted(t, rest);
  }

  lemma ParseNumber(text: string, rest: string)
    requires WellFormed(Number(text)) && Delimited(rest)
    ensures ParseValue(text + rest) == Some((Number(text), rest))
  {
    var s := text + rest;
    NumericPrefixOf(text, rest);
    assert s[0] in text;
    assert s[..|text|] == text && s[|text|..] == rest;
  }

  lemma ParseEmptyArray(rest: string)
    ensures ParseValue("[]" + rest) == Some((Arr([]), rest))
  {
    var s := "[]" + rest;
    assert s[0] == '[' && s[1] == ']' && s[2..] == rest;
  }

  lemma ParseFilledArray(s: string, items: seq<Json>, rest: string)
    requires |s| >= 2 && s[0] == '[' && s[1] != ']' && ParseItems(s[1..]) == Some((items, rest))
    ensures ParseValue(s) == Some((Arr(items), rest))
  {
  }

  lemma Bracketed(text: string, rest: string)
    ensures var s := "[" + text + "]" + rest;
            && |s| >= 2 && s[0] == '[' && s[1..] == text + "]" + rest
            && (text == "" ==> s == "[]" + rest) && (text != "" ==> s[1] == text[0])
  {
  }

  lemma ParseArray(text: string, rest: string, items: seq<Json>)
    requires text == "" ==> items == []
    requires text != "" ==> text[0] != ']' && ParseItems(text + "]" + rest) == Some((items, rest))
    ensures ParseValue("[" + text + "]" + rest) == Some((Arr(items), rest))
  {
    Bracketed(text, rest);
    if text == "" {
      ParseEmptyArray(rest);
    } else {
      ParseFilledArray("[" + text + "]" + rest, items, rest);
    }
  }

  lemma ParseObject(text: string, rest: string, entries: seq<Entry>)
    requires text == "" ==> entries == []
    requires text != "" ==> text[0] == '"' && ParseEntries(text + "}" + rest) == Some((entries, rest))
    ensures ParseValue("{" + text + "}" + rest) == Some((Obj(entries), rest))
  {
    var s := "{" + text + "}" + rest;
    if text == "" {
      assert s[1] == '}' && s[2..] == rest;
    } else {
      assert s[1..] == text + "}" + rest;
      assert s[1] == text[0];
    }
  }

  lemma EntriesHead(parent: Json, entries: seq<Entry>, lt: Order)
    requires entries != []
    requires forall e :: e in entries ==> e.value < parent
    ensures PrintEntries(parent, entries, lt) != "" && PrintEntries(parent, entries, lt)[0] == '"'
  {
    assert PrintEntry(parent, entries[0], lt)[0] == '"';
  }

  lemma ItemsSplit(parent: Json, items: seq<Json>, rest: string, lt: Order)
    requires items != []
    requires forall i :: 0 <= i < |items| ==> items[i] < parent
    ensures PrintItems(parent, items, lt) + "]" + rest
         == Print(items[0], lt) + (if |items| == 1 then "]" + rest
                                   else "," + (PrintItems(parent, items[1..], lt) + "]" + rest))
  {
  }

  lemma EntriesSplit(parent: Json, entries: seq<Entry>, rest: string, lt: Order)
    requires entries != []
    requires forall e :: e in entries ==> e.value < parent
    ensures PrintEntries(parent, entries, lt) + "}" + rest
         == PrintEntry(parent, entries[0], lt) + (if |entries| == 1 then "}" + rest
                                      else "," + (PrintEntries(parent, entries[1..], lt) + "}" + rest))
  {
    if |entries| > 1 {
      Regroup(PrintEntry(parent, entries[0], lt), PrintEntries(parent, entries[1..], lt), rest);
    }
  }

  lemma Regroup(first: string, others: string, rest: string)
    ensures first + "," + others + "}" + rest == first + ("," + (others + "}" + rest))
  {
  }

  lemma ParseItemsStep(s: string, v: Json, tail: string)
    requires ParseValue(s) == Some((v, tail)) && tail != ""
    ensures tail[0] == ']' ==> ParseItems(s) == Some(([v], tail[1..]))
    ensures tail[0] == ',' && ParseItems(tail[1..]).Some? ==>
      ParseItems(s) == Some(([v] + ParseItems(tail[1..]).value.0, ParseItems(tail[1..]).value.1))
  {
  }

  lemma {:induction false} ParsePrintItems(parent: Json, items: seq<Json>, rest: string, lt: Order)
    requires items != []
    requires forall i :: 0 <= i < |items| ==> items[i] < parent && WellFormed(items[i])
    ensures ParseItems(PrintItems(parent, items, lt) + "]" + rest) == Some((CanonItems(parent, items, lt), rest))
    decreases parent, |items|
  {
    var s := PrintItems(parent, items, lt) + "]" + rest;
    ItemsSplit(parent, items, rest, lt);
    if |items| == 1 {
      var tail := "]" + rest;
      ParsePrint(items[0], tail, lt);
      ParseItemsStep(s, Canon(items[0], lt), tail);
      assert tail[1..] == rest;
      assert CanonItems(parent, items, lt) == [Canon(items[0], lt)];
    } else {
      var more := PrintItems(parent, items[1..], lt) + "]" + rest;
      var tail := "," + more;
      ParsePrint(items[0], tail, lt);
      assert tail[1..] == more;
      ParsePrintItems(parent, items[1..], rest, lt);
      ParseItemsStep(s, Canon(items[0], lt), tail);
    }
  }

  lemma ParseEntriesStep(s: string, e: Entry, mid: string, tail: string)
    requires s != "" && s[0] == '"' && ParseChars(s[1..]) == Some((e.key, ":" + mid))
    requires ParseValue(mid) == Some((e.value, tail)) && tail != ""
    ensures tail[0] == '}' ==> ParseEntries(s) == Some(([e], tail[1..]))
    ensures tail[0] == ',' && ParseEntries(tail[1..]).Some? ==>
      ParseEntries(s) == Some(([e] + ParseEntries(tail[1..]).value.0, ParseEntries(tail[1..]).value.1))
  {
    assert (":" + mid)[1..] == mid;
  }

  lemma {:induction false} ParsePrintEntries(parent: Json, entries: seq<Entry>, rest: string, lt: Order)
    requires entries != []
    requires forall e :: e in entries ==> e.value < parent && WellFormed(e.value)
    ensures ParseEntries(PrintEntries(parent, entries, lt) + "}" + rest)
         == Some((CanonEntries(parent, entries, lt), rest))
    decreases parent, |entries|
  {
    var s := PrintEntries(parent, entries, lt) + "}" + rest;
    EntriesSplit(parent, entries, rest, lt);
    if |entries| == 1 {
      ParseFirstEntry(parent, s, entries[0], "}" + rest, lt);
      assert ("}" + rest)[1..] == rest;
      assert CanonEntries(parent, entries, lt) == [Entry(entries[0].key, Canon(entries[0].value, lt))];
    } else {
      var more := PrintEntries(parent, entries[1..], lt) + "}" + rest;
      ParseFirstEntry(parent, s, entries[0], "," + more, lt);
      assert ("," + more)[1..] == more;
      ParsePrintEntries(parent, entries[1..], rest, lt);
    }
  }

  lemma ParseFirstEntry(parent: Json, s: string, e: Entry, tail: string, lt: Order)
    requires e.value < parent && WellFormed(e.value) && tail != "" && (tail[0] == '}' || tail[0] == ',')
    requires s == PrintEntry(parent, e, lt) + tail
    ensures var c := Entry(e.key, Canon(e.value, lt));
            && (tail[0] == '}' ==> ParseEntries(s) == Some(([c], tail[1..])))
            && (tail[0] == ',' && ParseEntries(tail[1..]).Some? ==>
                ParseEntries(s) == Some(([c] + ParseEntries(tail[1..]).value.0, ParseEntries(tail[1..]).value.1)))
    decreases parent, 0, 1
  {
    ParsePrintEntry(parent, e, tail, lt);
    ParseEntriesStep(s, Entry(e.key, Canon(e.value, lt)), Print(e.value, lt) + tail, tail);
  }

  lemma ParsePrintEntry(parent: Json, e: Entry, tail: string, lt: Order)
    requires e.value < parent && WellFormed(e.value) && Delimited(tail)
    ensures var s := PrintEntry(parent, e, lt) + tail;
            && s != "" && s[0] == '"'
            && ParseChars(s[1..]) == Some((e.key, ":" + (Print(e.value, lt) + tail)))
            && ParseValue(Print(e.value, lt) + tail) == Some((Canon(e.value, lt), tail))
    decreases parent, 0, 0
  {
    var after := ":" + (Print(e.value, lt) + tail);
    assert PrintEntry(parent, e, lt) + tail == Quote(e.key) + after;
    ParseQuoted(e.key, after);
    ParsePrint(e.value, tail, lt);
  }

  lemma ParseQuoted(k: string, rest: string)
    ensures (Quote(k) + rest)[0] == '"' && ParseChars((Quote(k) + rest)[1..]) == Some((k, rest))
  {
    assert (Quote(k) + rest)[1..] == EscapeAll(k) + "\"" + rest;
    EscapeAllParses(k, rest);
  }

  // ---------------------------------------------------------------- faithfulness

  /** Equal up to the order of object keys, at every depth. */
  ghost predicate Equivalent(a: Json, b: Json)
    decreases a
  {
    match (a, b)
    case (Arr(xs), Arr(ys)) =>
      |xs| == |ys| && forall i :: 0 <= i < |xs| ==> Equivalent(xs[i], ys[i])
    case (Obj(es), Obj(fs)) =>
      |es| == |fs| && forall i :: 0 <= i < |es| ==> HasField(es[i], fs)
    case _ => a == b
  }

  /** Some entry has this one's key and an equivalent value. */
  ghost predicate HasField(e: Entry, fs: seq<Entry>)
    decreases e
  {
    exists j :: 0 <= j < |fs| && e.key == fs[j].key && Equivalent(e.value, fs[j].value)
  }

  /** Objects built with the same keys in the same places are equivalent only field by field. */
  lemma EquivalentField(es: seq<Entry>, fs: seq<Entry>, i: nat)
    requires Equivalent(Obj(es), Obj(fs)) && DistinctKeys(fs) && i < |es|
    requires forall k :: 0 <= k < |es| ==> es[k].key == fs[k].key
    ensures Equivalent(es[i].value, fs[i].value)
  {
    assert HasField(es[i], fs);
    var j :| 0 <= j < |fs| && es[i].key == fs[j].key && Equivalent(es[i].value, fs[j].value);
    assert i == j;
  }

  lemma {:induction false} FieldsEquivalent(a: Json, b: Json)
    requires a.Obj? && b.Obj? && |a.entries| == |b.entries|
    requires forall k :: 0 <= k < |a.entries| ==>
      a.entries[k].key == b.entries[k].key && Equivalent(a.entries[k].value, b.entries[k].value)
    ensures Equivalent(a, b)
  {
    var es, fs := a.entries, b.entries;
    forall i | 0 <= i < |es|
      ensures HasField(es[i], fs)
    {
      assert es[i].key == fs[i].key && Equivalent(es[i].value, fs[i].value);
    }
  }

  lemma PrintDeterminesCanon(a: Json, b: Json, lt: Order)
    requires WellFormed(a) && WellFormed(b) && Print(a, lt) == Print(b, lt)
    ensures Canon(a, lt) == Canon(b, lt)
  {
    assert Print(a, lt) + "" == Print(a, lt) && Print(b, lt) + "" == Print(b, lt);
    ParsePrint(a, "", lt);
    ParsePrint(b, "", lt);
  }

  lemma {:induction false} CanonDeterminesValue(a: Json, b: Json, lt: Order)
    requires Canon(a, lt) == Canon(b, lt)
    ensures Equivalent(a, b)
    decreases a
  {
    match (a, b)
    case (Arr(xs), Arr(ys)) =>
      forall i | 0 <= i < |xs|
        ensures Equivalent(xs[i], ys[i])
      {
        CanonItemsAt(a, xs, lt, i);
        CanonItemsAt(b, ys, lt, i);
        CanonDeterminesValue(xs[i], ys[i], lt);
      }
    case (Obj(es), Obj(fs)) =>
      var S, T := SortEntries(es, lt), SortEntries(fs, lt);
      forall i | 0 <= i < |es|
        ensures HasField(es[i], fs)
      {
        assert es[i] in S;
        var p :| 0 <= p < |S| && S[p] == es[i];
        CanonEntriesAt(a, S, lt, p);
        CanonEntriesAt(b, T, lt, p);
        assert T[p] in fs;
        var j :| 0 <= j < |fs| && fs[j] == T[p];
        CanonDeterminesValue(es[i].value, fs[j].value, lt);
      }
    case _ =>
  }

  lemma {:induction false} InsertKeepsDistinct(e: Entry, s: seq<Entry>, lt: Order)
    requires DistinctKeys(s) && forall x :: x in s ==> x.key != e.key
    ensures DistinctKeys(Insert(e, s, ByKey(lt)))
  {
    var t := Insert(e, s, ByKey(lt));
    if s != [] && t[0] == s[0] && t != [e] + s {
      InsertKeepsDistinct(e, s[1..], lt);
      InsertPermutes(e, s[1..], ByKey(lt));
      var u := Insert(e, s[1..], ByKey(lt));
      forall j | 0 <= j < |u|
        ensures u[j].key != s[0].key
      {
        assert u[j] in multiset(u);
        assert u[j] == e || u[j] in s[1..];
      }
    }
  }

  lemma {:induction false} SortKeepsDistinct(s: seq<Entry>, lt: Order)
    requires DistinctKeys(s)
    ensures DistinctKeys(Sort(s, ByKey(lt)))
  {
    if s != [] {
      SortKeepsDistinct(s[1..], lt);
      SortPermutes(s[1..], ByKey(lt));
      InsertKeepsDistinct(s[0], Sort(s[1..], ByKey(lt)), lt);
    }
  }

  ghost function KeySet(s: seq<Entry>): set<string> {
    set e | e in s :: e.key
  }

  lemma {:induction false} KeySetSize(s: seq<Entry>)
    requires DistinctKeys(s)
    ensures |KeySet(s)| == |s|
  {
    if s != [] {
      KeySetSize(s[1..]);
      assert KeySet(s) == KeySet(s[1..]) + {s[0].key};
    }
  }

  lemma SubsetOfEqualSize<T>(a: set<T>, b: set<T>)
    requires a <= b && |a| == |b|
    ensures a == b
  {
    assert |b - a| == |b| - |a|;
  }

  /** Two arrangements in strict key order over the same keys agree key by key. */
  lemma {:induction false} KeysAgree(s: seq<Entry>, t: seq<Entry>, lt: Order)
    requires TotalOrder(lt) && DistinctKeys(s) && DistinctKeys(t)
    requires Sorted(s, ByKey(lt)) && Sorted(t, ByKey(lt)) && KeySet(s) == KeySet(t)
    ensures |s| == |t| && forall i :: 0 <= i < |s| ==> s[i].key == t[i].key
  {
    KeySetSize(s);
    KeySetSize(t);
    if s != [] {
      assert s[0].key in KeySet(t) && t[0].key in KeySet(s);
      var i :| 0 <= i < |t| && t[i].key == s[0].key;
      var j :| 0 <= j < |s| && s[j].key == t[0].key;
      assert !ByKey(lt)(t[i], t[0]) || i == 0;
      assert !ByKey(lt)(s[j], s[0]) || j == 0;
      assert s[0].key == t[0].key;
      assert KeySet(s[1..]) == KeySet(s) - {s[0].key};
      assert KeySet(t[1..]) == KeySet(t) - {t[0].key};
      KeysAgree(s[1..], t[1..], lt);
      forall k | 0 <= k < |s|
        ensures s[k].key == t[k].key
      {
        if k > 0 {
          assert s[k] == s[1..][k - 1] && t[k] == t[1..][k - 1];
        }
      }
    }
  }

  lemma ByKeyIsWeakOrder(lt: Order)
    requires TotalOrder(lt)
    ensures WeakOrder(ByKey(lt))
  {
    var order := ByKey(lt);
    assert forall x, y :: order(x, y) == lt(x.key, y.key);
  }

  lemma {:induction false} SameItemsText(a: Json, b: Json, xs: seq<Json>, ys: seq<Json>, lt: Order)
    requires |xs| == |ys|
    requires forall i :: 0 <= i < |xs| ==> xs[i] < a && ys[i] < b && Print(xs[i], lt) == Print(ys[i], lt)
    ensures PrintItems(a, xs, lt) == PrintItems(b, ys, lt)
    decreases |xs|
  {
    if |xs| > 1 {
      SameItemsText(a, b, xs[1..], ys[1..], lt);
    }
  }

  lemma {:induction false} SameEntriesText(a: Json, b: Json, s: seq<Entry>, t: seq<Entry>, lt: Order)
    requires |s| == |t|
    requires forall e :: e in s ==> e.value < a
    requires forall e :: e in t ==> e.value < b
    requires forall i :: 0 <= i < |s| ==> s[i].key == t[i].key && Print(s[i].value, lt) == Print(t[i].value, lt)
    ensures PrintEntries(a, s, lt) == PrintEntries(b, t, lt)
    decreases |s|
  {
    if |s| > 1 {
      SameEntriesText(a, b, s[1..], t[1..], lt);
    }
  }

  /** The sorted entries of two equivalent objects agree, position by position, up to equivalence. */
  lemma EquivalentObjectsAlign(es: seq<Entry>, fs: seq<Entry>, lt: Order)
    requires TotalOrder(lt) && DistinctKeys(es) && DistinctKeys(fs) && Equivalent(Obj(es), Obj(fs))
    ensures var s, t := SortEntries(es, lt), SortEntries(fs, lt);
            |s| == |t| && forall p :: 0 <= p < |s| ==> s[p].key == t[p].key && Equivalent(s[p].value, t[p].value)
  {
    var s, t := SortEntries(es, lt), SortEntries(fs, lt);
    SortKeepsDistinct(es, lt);
    SortKeepsDistinct(fs, lt);
    ByKeyIsWeakOrder(lt);
    SortSorts(es, ByKey(lt));
    SortSorts(fs, ByKey(lt));
    KeySetSize(es);
    KeySetSize(fs);
    assert KeySet(es) <= KeySet(fs);
    SubsetOfEqualSize(KeySet(es), KeySet(fs));
    assert KeySet(s) == KeySet(es) && KeySet(t) == KeySet(fs);
    KeysAgree(s, t, lt);
    forall p | 0 <= p < |s|
      ensures Equivalent(s[p].value, t[p].value)
    {
      assert s[p] in es && t[p] in fs;
      var i :| 0 <= i < |es| && es[i] == s[p];
      var j :| 0 <= j < |fs| && es[i].key == fs[j].key && Equivalent(es[i].value, fs[j].value);
      var k :| 0 <= k < |fs| && fs[k] == t[p];
      assert j == k;
    }
  }

  lemma {:induction false} EquivalentPrintsSame(a: Json, b: Json, lt: Order)
    requires TotalOrder(lt) && WellFormed(a) && WellFormed(b) && Equivalent(a, b)
    ensures Print(a, lt) == Print(b, lt)
    decreases a
  {
    match (a, b)
    case (Arr(xs), Arr(ys)) =>
      forall i | 0 <= i < |xs|
        ensures Print(xs[i], lt) == Print(ys[i], lt)
      {
        EquivalentPrintsSame(xs[i], ys[i], lt);
      }
      SameItemsText(a, b, xs, ys, lt);
    case (Obj(es), Obj(fs)) =>
      EquivalentObjectsAlign(es, fs, lt);
      var s, t := SortEntries(es, lt), SortEntries(fs, lt);
      forall p | 0 <= p < |s|
        ensures Print(s[p].value, lt) == Print(t[p].value, lt)
      {
        assert s[p] in es && t[p] in fs;
        EquivalentPrintsSame(s[p].value, t[p].value, lt);
      }
      SameEntriesText(a, b, s, t, lt);
    case _ =>
  }

  /** Canonical texts are equal exactly when the values are equal up to key order at every depth. */
  lemma CanonicalFaithful(a: Json, b: Json, lt: Order)
    requires TotalOrder(lt) && WellFormed(a) && WellFormed(b)
    ensures Print(a, lt) == Print(b, lt) <==> Equivalent(a, b)
  {
    if Print(a, lt) == Print(b, lt) {
      PrintDeterminesCanon(a, b, lt);
      CanonDeterminesValue(a, b, lt);
    }
    if Equivalent(a, b) {
      EquivalentPrintsSame(a, b, lt);
    }
  }
}
