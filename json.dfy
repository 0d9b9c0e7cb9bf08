/**
 * The configuration serialiser: `to_json`, which writes one value in the
 * JSON-like dialect the JSHint runner reads, and `option_string`, which
 * flattens the whole configuration into `key=value&key=value`.
 */
module Json {
  import opened Wrappers
  import opened Values
  import opened Text

  /** ArgumentError "Don't know how to convert <className> to JSON". */
  datatype JsonError = Unsupported(className: string)

  // ------------------------------------------------------------- to_json

  /**
   * `to_json(obj)`. A hash becomes `({"k": v,...})` with the key written
   * bare between quotes, an array `[v,...]`, strings, integers and booleans
   * their `inspect` text, nil `null`; any other class raises.
   *
   * Deviation from the source: for an array the source recurses on the whole
   * array instead of on each element, so it never returns for a non-empty
   * array (see ToJsonAsWritten). This definition encodes each element, as
   * the code evidently intends.
   */
  function ToJson(v: Value): (r: Result<string, JsonError>)
    ensures r.Success? <==> Encodable(v)
    ensures r.Failure? ==> HasClass(v, r.error.className)
  {
    match v
    case VHash(es) =>
      var body :- EncodeEntries(es);
      Success("({" + body + "})")
    case VArray(items) =>
      var body :- EncodeItems(items);
      Success("[" + body + "]")
    case VStr(s) => Success(Inspect(s))
    case VInt(i) => Success(DecimalText(i))
    case VBool(b) => Success(if b then "true" else "false")
    case VNull => Success("null")
    case VOther(name, _) => Failure(Unsupported(name))
  }

  /** `obj.map { |key, val| "\"#{key}\": #{to_json(val)}" }.join(",")` */
  function EncodeEntries(es: seq<Entry>): (r: Result<string, JsonError>)
    ensures r.Success? <==> EncodableEntries(es)
    ensures r.Failure? ==> exists i :: 0 <= i < |es| && HasClass(es[i].value, r.error.className)
  {
    if es == [] then Success("")
    else
      var first :- ToJson(es[0].value);
      var piece := "\"" + es[0].key + "\": " + first;
      if |es| == 1 then Success(piece)
      else
        var rest :- EncodeEntries(es[1..]);
        Success(piece + "," + rest)
  }

  /** `obj.map { |val| to_json(val) }.join(",")` */
  function EncodeItems(items: seq<Value>): (r: Result<string, JsonError>)
    ensures r.Success? <==> EncodableItems(items)
    ensures r.Failure? ==> exists i :: 0 <= i < |items| && HasClass(items[i], r.error.className)
  {
    if items == [] then Success("")
    else
      var first :- ToJson(items[0]);
      if |items| == 1 then Success(first)
      else
        var rest :- EncodeItems(items[1..]);
        Success(first + "," + rest)
  }

  /** Holds no value of a class `to_json` rejects, at any depth. */
  predicate Encodable(v: Value)
  {
    match v
    case VHash(es) => EncodableEntries(es)
    case VArray(items) => EncodableItems(items)
    case VOther(_, _) => false
    case _ => true
  }

  predicate EncodableEntries(es: seq<Entry>)
  {
    es == [] || (Encodable(es[0].value) && EncodableEntries(es[1..]))
  }

  predicate EncodableItems(items: seq<Value>)
  {
    items == [] || (Encodable(items[0]) && EncodableItems(items[1..]))
  }

  /** v holds, at some depth, an object of the given unsupported class. */
  predicate HasClass(v: Value, name: string)
  {
    match v
    case VHash(es) => exists i :: 0 <= i < |es| && HasClass(es[i].value, name)
    case VArray(items) => exists i :: 0 <= i < |items| && HasClass(items[i], name)
    case VOther(n, _) => n == name
    case _ => false
  }

  // --------------------------------------------------------- the decoder

  /**
   * A reader for the dialect: what the receiving side must do to recover
   * the value. It reads one value at the front of s and returns what follows.
   */
  function ReadValue(s: string): (r: Option<(Value, string)>)
    ensures r.Some? ==> |r.value.1| < |s|
    decreases |s|, 0
  {
    if s == [] then None
    else if s[0] == '(' then ReadHash(s[1..])
    else if s[0] == '[' then ReadArray(s[1..])
    else if s[0] == '"' then ReadString(s[1..])
    else if s[0] == 't' || s[0] == 'f' || s[0] == 'n' then ReadWord(s)
    else ReadNumber(s)
  }

  /** Reads `{})` or `{"k": v,...})`, the opening parenthesis already read. */
  function ReadHash(s: string): (r: Option<(Value, string)>)
    ensures r.Some? ==> |r.value.1| < |s|
    decreases |s|, 2
  {
    if |s| >= 3 && s[..3] == "{})" then Some((VHash([]), s[3..]))
    else if s == [] || s[0] != '{' then None
    else
      var es := ReadEntries(s[1..]);
      if es.None? then None else Some((VHash(es.value.0), es.value.1))
  }

  /** Reads `]` or `v,...]`, the opening bracket already read. */
  function ReadArray(s: string): (r: Option<(Value, string)>)
    ensures r.Some? ==> |r.value.1| < |s|
    decreases |s|, 2
  {
    if s != [] && s[0] == ']' then Some((VArray([]), s[1..]))
    else
      var items := ReadItems(s);
      if items.None? then None else Some((VArray(items.value.0), items.value.1))
  }

  /** Reads the rest of a string literal, the opening quote already read. */
  function ReadString(s: string): (r: Option<(Value, string)>)
    ensures r.Some? ==> |r.value.1| < |s|
  {
    var lit := ReadQuoted(s);
    if lit.None? then None else Some((VStr(lit.value.0), lit.value.1))
  }

  function ReadWord(s: string): (r: Option<(Value, string)>)
    ensures r.Some? ==> |r.value.1| < |s|
  {
    if |s| >= 4 && s[..4] == "true" then Some((VBool(true), s[4..]))
    else if |s| >= 5 && s[..5] == "false" then Some((VBool(false), s[5..]))
    else if |s| >= 4 && s[..4] == "null" then Some((VNull, s[4..]))
    else None
  }

  function ReadNumber(s: string): (r: Option<(Value, string)>)
    ensures r.Some? ==> |r.value.1| < |s|
  {
    var n := ParseInt(s);
    if n.None? then None else Some((VInt(n.value.0), n.value.1))
  }

  /** Reads `v,v,...,v]`. */
  function ReadItems(s: string): (r: Option<(seq<Value>, string)>)
    ensures r.Some? ==> |r.value.1| < |s|
    decreases |s|, 1
  {
    var first := ReadValue(s);
    if first.None? then None
    else
      var t := first.value.1;
      if t != [] && t[0] == ']' then Some(([first.value.0], t[1..]))
      else if t != [] && t[0] == ',' then
        var more := ReadItems(t[1..]);
        if more.None? then None else Some(([first.value.0] + more.value.0, more.value.1))
      else None
  }

  /** Reads a key: the text up to the next double quote. */
  function ReadKey(s: string): (r: Option<(string, string)>)
    ensures r.Some? ==> |r.value.1| < |s|
  {
    if s == [] then None
    else if s[0] == '"' then Some(("", s[1..]))
    else
      var more := ReadKey(s[1..]);
      if more.None? then None else Some(([s[0]] + more.value.0, more.value.1))
  }

  /** Reads `"k": v,"k": v})`. */
  function ReadEntries(s: string): (r: Option<(seq<Entry>, string)>)
    ensures r.Some? ==> |r.value.1| < |s|
    decreases |s|, 1
  {
    if s == [] || s[0] != '"' then None
    else
      var key := ReadKey(s[1..]);
      if key.None? then None
      else
        var t := key.value.1;
        if |t| < 2 || t[..2] != ": " then None
        else
          var val := ReadValue(t[2..]);
          if val.None? then None else ReadEntriesAfter(key.value.0, val.value.0, val.value.1, |s|)
  }

  /** Continues after the entry k: v, with u the text after the value. */
  function ReadEntriesAfter(k: string, v: Value, u: string, bound: nat): (r: Option<(seq<Entry>, string)>)
    requires |u| < bound
    ensures r.Some? ==> |r.value.1| < bound
    decreases bound, 0
  {
    if |u| >= 2 && u[..2] == "})" then Some(([Entry(k, v)], u[2..]))
    else if u != [] && u[0] == ',' then
      var more := ReadEntries(u[1..]);
      if more.None? then None else Some(([Entry(k, v)] + more.value.0, more.value.1))
    else None
  }

  /** Reads a whole text as one value. */
  function Decode(s: string): Option<Value>
  {
    var r := ReadValue(s);
    if r.Some? && r.value.1 == [] then Some(r.value.0) else None
  }

  /** No hash key, at any depth, contains a double quote (keys are written unescaped). */
  predicate PlainKeys(v: Value)
  {
    match v
    case VHash(es) => PlainKeysEntries(es)
    case VArray(items) => PlainKeysItems(items)
    case _ => true
  }

  predicate PlainKeysEntries(es: seq<Entry>)
  {
    es == [] || ('"' !in es[0].key && PlainKeys(es[0].value) && PlainKeysEntries(es[1..]))
  }

  predicate PlainKeysItems(items: seq<Value>)
  {
    items == [] || (PlainKeys(items[0]) && PlainKeysItems(items[1..]))
  }

  /** What may follow an encoded value inside a larger one. */
  predicate Delimits(rest: string)
  {
    rest == [] || rest[0] == ',' || rest[0] == ']' || rest[0] == '}'
  }

  lemma {:induction false} ReadKeyPlain(k: string, rest: string)
    requires '"' !in k
    ensures ReadKey(k + "\"" + rest) == Some((k, rest))
  {
    if k == [] {
      assert k + "\"" + rest == "\"" + rest;
      assert ("\"" + rest)[1..] == rest;
    } else {
      assert (k + "\"" + rest)[1..] == k[1..] + "\"" + rest;
      ReadKeyPlain(k[1..], rest);
      assert [k[0]] + k[1..] == k;
    }
  }

  /**
   * Serialiser round trip: an encodable value whose keys hold no double
   * quote reads back from its encoding, whatever delimiter follows.
   */
  lemma {:induction false} ReadToJson(v: Value, rest: string)
    requires Encodable(v) && PlainKeys(v) && Delimits(rest)
    ensures ReadValue(ToJson(v).value + rest) == Some((v, rest))
    decreases v, 3
  {
    match v
    case VHash(es) => ReadHashEncoded(es, rest);
    case VArray(items) => ReadArrayEncoded(items, rest);
    case VStr(s) => ReadStrEncoded(s, rest);
    case VInt(i) => ReadIntEncoded(i, rest);
    case VBool(b) => ReadWordEncoded(v, rest);
    case VNull => ReadWordEncoded(v, rest);
  }

  lemma ReadStrEncoded(s: string, rest: string)
    ensures ReadValue(Inspect(s) + rest) == Some((VStr(s), rest))
  {
    InspectReads(s, rest);
    var t := Inspect(s) + rest;
    assert t[0] == '"';
    assert ReadLiteral(t) == ReadQuoted(t[1..]);
  }

  lemma ReadIntEncoded(i: int, rest: string)
    requires Delimits(rest)
    ensures ReadValue(DecimalText(i) + rest) == Some((VInt(i), rest))
  {
    ParseDecimalText(i, rest);
    var d := DecimalText(i);
    var t := d + rest;
    NumberStart(i);
    assert t[0] == d[0];
    ReadValueNumber(t);
  }

  lemma ReadValueNumber(s: string)
    requires s != [] && (s[0] == '-' || IsDigit(s[0]))
    ensures ReadValue(s) == ReadNumber(s)
  {
    var c := s[0];
    assert c != '(' && c != '[' && c != '"' && c != 't' && c != 'f' && c != 'n';
  }

  /** Integer text starts with a minus sign or a digit, never a character another reader claims. */
  lemma NumberStart(i: int)
    ensures DecimalText(i) != [] && (DecimalText(i)[0] == '-' || IsDigit(DecimalText(i)[0]))
  {
    if i >= 0 {
      assert DecimalText(i) == NatText(i);
    }
  }

  lemma ReadWordEncoded(v: Value, rest: string)
    requires v.VBool? || v.VNull?
    ensures ReadValue(ToJson(v).value + rest) == Some((v, rest))
  {
    var t := ToJson(v).value + rest;
    if v == VBool(true) {
      assert t[..4] == "true" && t[4..] == rest;
    } else if v == VBool(false) {
      assert t[..5] == "false" && t[5..] == rest;
    } else {
      assert t[..4] == "null" && t[4..] == rest;
    }
  }

  lemma {:induction false} ReadHashEncoded(es: seq<Entry>, rest: string)
    requires EncodableEntries(es) && PlainKeysEntries(es) && Delimits(rest)
    ensures ReadValue(ToJson(VHash(es)).value + rest) == Some((VHash(es), rest))
    decreases es, 2
  {
    var body := EncodeEntries(es).value;
    ToJsonHash(es);
    if es == [] {
      assert ToJson(VHash(es)).value + rest == "({})" + rest;
      ReadEmptyHash(rest);
    } else {
      var u := body + "})" + rest;
      assert ToJson(VHash(es)).value + rest == "({" + u;
      assert u[0] == body[0] == '"';
      ReadEntriesEncoded(es, rest);
      ReadHashStep(u);
    }
  }

  lemma ReadEmptyHash(rest: string)
    ensures ReadValue("({})" + rest) == Some((VHash([]), rest))
  {
    var t := "({})" + rest;
    assert t[1..][..3] == "{})" && t[1..][3..] == rest;
  }

  lemma ReadHashStep(u: string)
    requires u != [] && u[0] == '"'
    ensures ReadValue("({" + u) ==
      var es := ReadEntries(u);
      if es.None? then None else Some((VHash(es.value.0), es.value.1))
  {
    var t := "({" + u;
    assert t[0] == '(';
    assert ReadValue(t) == ReadHash(t[1..]);
    var h := t[1..];
    assert h == "{" + u;
    assert h[0] == '{' && h[1] == '"' && h[1..] == u;
    assert !(|h| >= 3 && h[..3] == "{})") by {
      if |h| >= 3 {
        assert h[..3][1] == '"';
      }
    }
  }

  lemma ToJsonHash(es: seq<Entry>)
    requires EncodableEntries(es)
    ensures ToJson(VHash(es)) == Success("({" + EncodeEntries(es).value + "})")
  {
  }

  lemma ToJsonArray(items: seq<Value>)
    requires EncodableItems(items)
    ensures ToJson(VArray(items)) == Success("[" + EncodeItems(items).value + "]")
  {
  }

  lemma {:induction false} ReadArrayEncoded(items: seq<Value>, rest: string)
    requires EncodableItems(items) && PlainKeysItems(items) && Delimits(rest)
    ensures ReadValue(ToJson(VArray(items)).value + rest) == Some((VArray(items), rest))
    decreases items, 2
  {
    var body := EncodeItems(items).value;
    ToJsonArray(items);
    var t := "[" + body + "]" + rest;
    assert t[0] == '[' && t[1..] == body + "]" + rest;
    if items == [] {
      assert t[1..][0] == ']' && t[1..][1..] == rest;
    } else {
      FirstNotClosing(items);
      ReadItemsEncoded(items, rest);
    }
  }

  /** An element's encoding never starts with a closing bracket. */
  lemma FirstNotClosing(items: seq<Value>)
    requires items != [] && EncodableItems(items)
    ensures EncodeItems(items).value != [] && EncodeItems(items).value[0] != ']'
  {
    var first := ToJson(items[0]).value;
    assert first != [] && first[0] != ']' by {
      match items[0]
      case VInt(i) =>
        var n: nat := if i < 0 then -i else i;
        assert DecimalText(i)[0] == '-' || IsDigit(NatText(n)[0]);
      case _ =>
    }
    EncodeItemsStep(items);
  }

  lemma EncodeItemsStep(items: seq<Value>)
    requires items != [] && EncodableItems(items)
    ensures EncodeItems(items).value == ToJson(items[0]).value
      + (if |items| == 1 then "" else "," + EncodeItems(items[1..]).value)
  {
  }

  /** How the item reader proceeds once a value is read. */
  lemma ReadItemsStep(u: string, v: Value, w: string)
    requires ReadValue(u) == Some((v, w))
    ensures ReadItems(u) ==
      if w != [] && w[0] == ']' then Some(([v], w[1..]))
      else if w != [] && w[0] == ',' then
        var more := ReadItems(w[1..]);
        if more.None? then None else Some(([v] + more.value.0, more.value.1))
      else None
  {
  }

  lemma {:induction false} ReadItemsEncoded(items: seq<Value>, rest: string)
    requires items != [] && EncodableItems(items) && PlainKeysItems(items)
    ensures ReadItems(EncodeItems(items).value + "]" + rest) == Some((items, rest))
    decreases items, 1
  {
    var first := ToJson(items[0]).value;
    EncodeItemsStep(items);
    if |items| == 1 {
      var tail := "]" + rest;
      assert EncodeItems(items).value + "]" + rest == first + tail;
      ReadToJson(items[0], tail);
      ReadItemsStep(first + tail, items[0], tail);
      assert tail[1..] == rest;
      assert [items[0]] == items;
    } else {
      var after := EncodeItems(items[1..]).value + "]" + rest;
      var tail := "," + after;
      assert EncodeItems(items).value + "]" + rest == first + tail;
      ReadToJson(items[0], tail);
      ReadItemsStep(first + tail, items[0], tail);
      assert tail[1..] == after;
      ReadItemsEncoded(items[1..], rest);
      assert [items[0]] + items[1..] == items;
    }
  }

  lemma {:induction false} ReadEntriesEncoded(es: seq<Entry>, rest: string)
    requires es != [] && EncodableEntries(es) && PlainKeysEntries(es)
    ensures ReadEntries(EncodeEntries(es).value + "})" + rest) == Some((es, rest))
    decreases es, 1
  {
    if |es| == 1 {
      ReadLastEntry(es, rest);
    } else {
      ReadFirstEntry(es, rest);
    }
  }

  lemma ReadLastEntry(es: seq<Entry>, rest: string)
    requires |es| == 1 && EncodableEntries(es) && PlainKeysEntries(es)
    ensures ReadEntries(EncodeEntries(es).value + "})" + rest) == Some((es, rest))
    decreases es, 0
  {
    var k, v := es[0].key, es[0].value;
    var first := ToJson(v).value;
    EncodeEntriesStep(es);
    var tail := "})" + rest;
    var s := "\"" + k + "\": " + (first + tail);
    assert EncodeEntries(es).value + "})" + rest == s;
    ReadToJson(v, tail);
    ReadEntriesStep(k, first + tail, v, tail);
    ReadEntriesClosed(k, v, rest, |s|);
    assert [Entry(k, v)] == es;
  }

  lemma ReadFirstEntry(es: seq<Entry>, rest: string)
    requires |es| > 1 && EncodableEntries(es) && PlainKeysEntries(es)
    ensures ReadEntries(EncodeEntries(es).value + "})" + rest) == Some((es, rest))
    decreases es, 0
  {
    var k, v := es[0].key, es[0].value;
    var first := ToJson(v).value;
    var after := EncodeEntries(es[1..]).value + "})" + rest;
    FirstEntryText(es, rest);
    ReadToJson(v, "," + after);
    ReadEntriesEncoded(es[1..], rest);
    ReadNextEntry(k, v, first, after, es[1..], rest);
    assert [Entry(k, v)] + es[1..] == es;
  }

  /** The text of several entries: the first one, a comma, then the others. */
  lemma FirstEntryText(es: seq<Entry>, rest: string)
    requires |es| > 1 && EncodableEntries(es)
    ensures EncodeEntries(es).value + "})" + rest ==
      "\"" + es[0].key + "\": " + (ToJson(es[0].value).value + ("," + (EncodeEntries(es[1..]).value + "})" + rest)))
  {
    EncodeEntriesStep(es);
    Regroup("\"" + es[0].key + "\": ", ToJson(es[0].value).value, ",", EncodeEntries(es[1..]).value, "})", rest);
  }

  lemma Regroup(q: string, f: string, m: string, e: string, c: string, r: string)
    ensures q + f + (m + e) + c + r == q + (f + (m + (e + c + r)))
  {
  }

  /** One entry followed by a comma and entries that read back. */
  lemma ReadNextEntry(k: string, v: Value, first: string, after: string, more: seq<Entry>, rest: string)
    requires '"' !in k
    requires ReadValue(first + ("," + after)) == Some((v, "," + after))
    requires ReadEntries(after) == Some((more, rest))
    ensures ReadEntries("\"" + k + "\": " + (first + ("," + after))) == Some(([Entry(k, v)] + more, rest))
  {
    var s := "\"" + k + "\": " + (first + ("," + after));
    ReadEntriesStep(k, first + ("," + after), v, "," + after);
    ReadEntriesContinued(k, v, after, |s|);
  }

  lemma ReadEntriesClosed(k: string, v: Value, rest: string, bound: nat)
    requires |"})" + rest| < bound
    ensures ReadEntriesAfter(k, v, "})" + rest, bound) == Some(([Entry(k, v)], rest))
  {
    var u := "})" + rest;
    assert u[..2] == "})" && u[2..] == rest;
  }

  lemma ReadEntriesContinued(k: string, v: Value, after: string, bound: nat)
    requires |"," + after| < bound
    ensures ReadEntriesAfter(k, v, "," + after, bound) ==
      var more := ReadEntries(after);
      if more.None? then None else Some(([Entry(k, v)] + more.value.0, more.value.1))
  {
    var u := "," + after;
    assert u[0] == ',' && u[1..] == after;
  }

  lemma EncodeEntriesStep(es: seq<Entry>)
    requires es != [] && EncodableEntries(es)
    ensures EncodeEntries(es).value == "\"" + es[0].key + "\": " + ToJson(es[0].value).value
      + (if |es| == 1 then "" else "," + EncodeEntries(es[1..]).value)
  {
  }

  /** How the entry reader proceeds once a key and its value are read. */
  lemma ReadEntriesStep(k: string, u: string, v: Value, w: string)
    requires '"' !in k && ReadValue(u) == Some((v, w))
    ensures ReadEntries("\"" + k + "\": " + u) == ReadEntriesAfter(k, v, w, |"\"" + k + "\": " + u|)
  {
    var s := "\"" + k + "\": " + u;
    assert s[1..] == k + "\"" + (": " + u);
    ReadKeyPlain(k, ": " + u);
    assert (": " + u)[..2] == ": ";
    assert (": " + u)[2..] == u;
  }

  /** The whole encoding decodes to the value it came from. */
  lemma DecodeToJson(v: Value)
    requires Encodable(v) && PlainKeys(v)
    ensures Decode(ToJson(v).value) == Some(v)
  {
    ReadToJson(v, "");
    assert ToJson(v).value + "" == ToJson(v).value;
  }

  // ------------------------------------------------ to_json as written

  /** How the source's to_json ends: it raises, or it exhausts the stack. */
  datatype AsWrittenError = ConversionFailed(error: JsonError) | StackOverflow

  /**
   * `to_json` exactly as lib/jshint/lint.rb:78-91 has it, where the array
   * branch calls `to_json(obj)` on the whole array once per element. `depth`
   * is the number of stack frames still available: every call uses one.
   */
  function ToJsonAsWritten(obj: Value, depth: nat): Result<string, AsWrittenError>
    decreases depth, 0, 0
  {
    if depth == 0 then Failure(StackOverflow)
    else
      match obj
      case VHash(es) =>
        var body :- EntriesAsWritten(es, depth - 1);
        Success("({" + body + "})")
      case VArray(items) =>
        var body :- ItemsAsWritten(obj, |items|, depth - 1);
        Success("[" + body + "]")
      case VStr(s) => Success(Inspect(s))
      case VInt(i) => Success(DecimalText(i))
      case VBool(b) => Success(if b then "true" else "false")
      case VNull => Success("null")
      case VOther(name, _) => Failure(ConversionFailed(Unsupported(name)))
  }

  function EntriesAsWritten(es: seq<Entry>, depth: nat): Result<string, AsWrittenError>
    decreases depth, 1, |es|
  {
    if es == [] then Success("")
    else
      var first :- ToJsonAsWritten(es[0].value, depth);
      var piece := "\"" + es[0].key + "\": " + first;
      if |es| == 1 then Success(piece)
      else
        var rest :- EntriesAsWritten(es[1..], depth);
        Success(piece + "," + rest)
  }

  /** `obj.map { |val| to_json(obj) }.join(",")`: count calls on the array itself. */
  function ItemsAsWritten(obj: Value, count: nat, depth: nat): Result<string, AsWrittenError>
    decreases depth, 1, count
  {
    if count == 0 then Success("")
    else
      var first :- ToJsonAsWritten(obj, depth);
      if count == 1 then Success(first)
      else
        var rest :- ItemsAsWritten(obj, count - 1, depth);
        Success(first + "," + rest)
  }

  /** The defect: with any finite stack, the source's to_json overflows on a non-empty array. */
  lemma {:induction false} AsWrittenOverflows(items: seq<Value>, depth: nat)
    requires items != []
    ensures ToJsonAsWritten(VArray(items), depth) == Failure(StackOverflow)
  {
    if depth > 0 {
      AsWrittenOverflows(items, depth - 1);
    }
  }

  /** A concrete witness: `to_json(["a"])` cannot return, where the intended result is `["a"]`. */
  lemma AsWrittenOneElement(depth: nat)
    ensures ToJsonAsWritten(VArray([VStr("a")]), depth) == Failure(StackOverflow)
    ensures ToJson(VArray([VStr("a")])) == Success("[" + Inspect("a") + "]")
  {
    AsWrittenOverflows([VStr("a")], depth);
  }

  /** Values the defect does not reach: no array in them has an element. */
  predicate ArraysEmpty(v: Value)
  {
    match v
    case VHash(es) => ArraysEmptyEntries(es)
    case VArray(items) => items == []
    case _ => true
  }

  predicate ArraysEmptyEntries(es: seq<Entry>)
  {
    es == [] || (ArraysEmpty(es[0].value) && ArraysEmptyEntries(es[1..]))
  }

  /** Stack frames the intended to_json needs for v. */
  function Height(v: Value): nat
  {
    match v
    case VHash(es) => 1 + HeightEntries(es)
    case _ => 1
  }

  function HeightEntries(es: seq<Entry>): nat
  {
    if es == [] then 0
    else
      var h := Height(es[0].value);
      var t := HeightEntries(es[1..]);
      if h > t then h else t
  }

  /** The intended result in the as-written result type. */
  function Lift(r: Result<string, JsonError>): Result<string, AsWrittenError>
  {
    if r.Success? then Success(r.value) else Failure(ConversionFailed(r.error))
  }

  /**
   * Outside non-empty arrays the defect is invisible: given enough stack the
   * as-written to_json and the corrected one agree, errors included.
   */
  lemma {:induction false} AsWrittenAgrees(v: Value, depth: nat)
    requires ArraysEmpty(v) && depth >= Height(v)
    ensures ToJsonAsWritten(v, depth) == Lift(ToJson(v))
    decreases v, 1
  {
    match v
    case VHash(es) => EntriesAsWrittenAgree(es, depth - 1);
    case VArray(items) =>
      assert ItemsAsWritten(v, 0, depth - 1) == Success("");
    case _ =>
  }

  lemma {:induction false} EntriesAsWrittenAgree(es: seq<Entry>, depth: nat)
    requires ArraysEmptyEntries(es) && depth >= HeightEntries(es)
    ensures EntriesAsWritten(es, depth) == Lift(EncodeEntries(es))
    decreases es, 0
  {
    if es != [] {
      AsWrittenAgrees(es[0].value, depth);
      EntriesAsWrittenAgree(es[1..], depth);
    }
  }

  // ------------------------------------------------------- option_string

  /** `@config.map { |k, v| "#{k}=#{to_json(v)}" }.join('&')` */
  function OptionString(config: Hash): (r: Result<string, JsonError>)
    ensures r.Success? <==> forall i :: 0 <= i < |config| ==> Encodable(config[i].value)
    ensures r.Failure? ==> exists i :: 0 <= i < |config| && HasClass(config[i].value, r.error.className)
  {
    if config == [] then Success("")
    else
      var first :- ToJson(config[0].value);
      var piece := config[0].key + "=" + first;
      if |config| == 1 then Success(piece)
      else
        var rest :- OptionString(config[1..]);
        assert forall i :: 0 < i < |config| ==> config[1..][i - 1] == config[i];
        Success(piece + "&" + rest)
  }

  /** The `key=value` pair each entry contributes. */
  function Pair(e: Entry): string
    requires Encodable(e.value)
  {
    e.key + "=" + ToJson(e.value).value
  }

  /** option_string is the `&`-join of each entry's `key=value`, in the Hash's order. */
  lemma {:induction false} OptionStringJoins(config: Hash)
    requires forall i :: 0 <= i < |config| ==> Encodable(config[i].value)
    ensures OptionString(config).value
      == Join("&", seq(|config|, i requires 0 <= i < |config| => Pair(config[i])))
  {
    if |config| > 1 {
      OptionStringJoins(config[1..]);
      var ps := seq(|config|, i requires 0 <= i < |config| => Pair(config[i]));
      assert ps[1..] == seq(|config| - 1, i requires 0 <= i < |config| - 1 => Pair(config[1..][i]));
    }
  }

  lemma OptionStringExample()
    ensures OptionString([Entry("strict", VBool(true)), Entry("indent", VInt(4))]) == Success("strict=true&indent=4")
  {
    var c := [Entry("strict", VBool(true)), Entry("indent", VInt(4))];
    assert DecimalText(4) == NatText(4) == [DigitChar(4)] == "4";
    assert ToJson(VBool(true)) == Success("true");
    assert ToJson(VInt(4)) == Success("4");
    assert c[1..] == [Entry("indent", VInt(4))];
    var d := c[1..];
    assert d != [] && |d| == 1 && d[0].key == "indent" && d[0].value == VInt(4);
    assert d[0].key + "=" + "4" == "indent=4";
    assert OptionString(d) == Success("indent=4");
    assert "strict" + "=" + "true" + "&" + "indent=4" == "strict=true&indent=4";
    assert c[0].key == "strict" && c[0].value == VBool(true) && |c| == 2;
  }

  /** The token line 41 builds: `option_string.inspect.gsub(/\$/, "\\$")`. */
  function OptionToken(config: Hash): (r: Result<string, JsonError>)
    ensures r.Success? <==> OptionString(config).Success?
    ensures r.Success? ==> forall i :: 0 <= i < |r.value| && r.value[i] == '$' ==> 0 < i && r.value[i - 1] == '\\'
  {
    var options :- OptionString(config);
    Success(EscapeDollars(Inspect(options)))
  }

  /** The token loses nothing: undoing the `$` escapes and the quoting gives option_string back. */
  lemma TokenCarriesOptions(config: Hash)
    requires OptionToken(config).Success?
    ensures ReadLiteral(UnescapeDollars(OptionToken(config).value)) == Some((OptionString(config).value, ""))
  {
    var options := OptionString(config).value;
    UnescapeEscapeDollars(Inspect(options));
    InspectReads(options, "");
    assert Inspect(options) + "" == Inspect(options);
  }
}

