/**
 * How `Lint#initialize` resolves the configuration it lints with
 * (lib/jshint/lint.rb:22-28 and 35): the custom config merged over the
 * default one, a `predef` list flattened into one comma-separated string,
 * and the two file-selection keys dropped.
 */
module Config {
  import opened Wrappers
  import opened Values
  import opened Text

  /** The keys that select files and are removed before linting. */
  const SelectionKeys: seq<string> := ["paths", "exclude_paths"]

  // ----------------------------------------------- Array#join and to_s

  /**
   * `v.inspect` as Ruby before 3.4 writes it: `{"k"=>v, ...}`, `[v, ...]`,
   * strings quoted, nil as `nil`. This is how a Hash inside `predef` shows
   * when the list is joined.
   */
  function InspectValue(v: Value): string
  {
    match v
    case VHash(es) => "{" + InspectEntries(es) + "}"
    case VArray(items) => "[" + InspectItems(items) + "]"
    case VStr(s) => Inspect(s)
    case VInt(i) => DecimalText(i)
    case VBool(b) => if b then "true" else "false"
    case VNull => "nil"
    case VOther(_, text) => text
  }

  function InspectEntries(es: seq<Entry>): string
  {
    if es == [] then ""
    else
      var piece := Inspect(es[0].key) + "=>" + InspectValue(es[0].value);
      if |es| == 1 then piece else piece + ", " + InspectEntries(es[1..])
  }

  function InspectItems(items: seq<Value>): string
  {
    if items == [] then ""
    else if |items| == 1 then InspectValue(items[0])
    else InspectValue(items[0]) + ", " + InspectItems(items[1..])
  }

  /**
   * The text `Array#join(sep)` writes for one element: a string as it is,
   * nil as nothing, a nested array joined with the same separator, anything
   * else its `to_s`.
   */
  function ElementText(sep: string, v: Value): string
  {
    match v
    case VArray(items) => JoinText(sep, items)
    case VStr(s) => s
    case VNull => ""
    case VHash(_) => InspectValue(v)
    case VInt(i) => DecimalText(i)
    case VBool(b) => if b then "true" else "false"
    case VOther(_, text) => text
  }

  /** `items.join(sep)` */
  function JoinText(sep: string, items: seq<Value>): string
  {
    if items == [] then ""
    else if |items| == 1 then ElementText(sep, items[0])
    else ElementText(sep, items[0]) + sep + JoinText(sep, items[1..])
  }

  predicate AllStrings(items: seq<Value>)
  {
    forall i :: 0 <= i < |items| ==> items[i].VStr?
  }

  function Strings(items: seq<Value>): (r: seq<string>)
    requires AllStrings(items)
    ensures |r| == |items| && forall i :: 0 <= i < |items| ==> r[i] == items[i].s
  {
    if items == [] then [] else [items[0].s] + Strings(items[1..])
  }

  /** On a list of strings Array#join is plain string joining. */
  lemma {:induction false} JoinTextStrings(sep: string, items: seq<Value>)
    requires AllStrings(items)
    ensures JoinText(sep, items) == Join(sep, Strings(items))
  {
    if |items| > 1 {
      JoinTextStrings(sep, items[1..]);
      assert Strings(items)[1..] == Strings(items[1..]);
    }
  }

  /** Joining two non-empty lists puts one separator between their texts. */
  lemma {:induction false} JoinTextAppend(sep: string, a: seq<Value>, b: seq<Value>)
    requires a != [] && b != []
    ensures JoinText(sep, a + b) == JoinText(sep, a) + sep + JoinText(sep, b)
  {
    assert (a + b)[0] == a[0];
    assert (a + b)[1..] == a[1..] + b;
    if |a| > 1 {
      JoinTextAppend(sep, a[1..], b);
    }
  }

  /** Two lists that join alike still join alike behind the same prefix. */
  lemma JoinSameAfter(sep: string, xs: seq<Value>, a: seq<Value>, b: seq<Value>)
    requires a != [] && b != [] && JoinText(sep, a) == JoinText(sep, b)
    ensures JoinText(sep, xs + a) == JoinText(sep, xs + b)
  {
    if xs != [] {
      JoinTextAppend(sep, xs, a);
      JoinTextAppend(sep, xs, b);
    } else {
      assert xs + a == a && xs + b == b;
    }
  }

  /** Two lists that join alike still join alike before the same suffix. */
  lemma JoinSameBefore(sep: string, a: seq<Value>, b: seq<Value>, zs: seq<Value>)
    requires a != [] && b != [] && JoinText(sep, a) == JoinText(sep, b)
    ensures JoinText(sep, a + zs) == JoinText(sep, b + zs)
  {
    if zs != [] {
      JoinTextAppend(sep, a, zs);
      JoinTextAppend(sep, b, zs);
    } else {
      assert a + zs == a && b + zs == b;
    }
  }

  /**
   * Joining flattens: a non-empty nested list reads as if its elements stood
   * in the outer one. (An empty nested list still leaves an empty name; see
   * JoinEmptyNested.)
   */
  lemma JoinFlattensNested(sep: string, xs: seq<Value>, ys: seq<Value>, zs: seq<Value>)
    requires ys != []
    ensures JoinText(sep, xs + [VArray(ys)] + zs) == JoinText(sep, xs + ys + zs)
  {
    var m := [VArray(ys)];
    assert JoinText(sep, m) == JoinText(sep, ys);
    JoinSameBefore(sep, m, ys, zs);
    JoinSameAfter(sep, xs, m + zs, ys + zs);
    assert xs + [VArray(ys)] + zs == xs + (m + zs);
    assert xs + ys + zs == xs + (ys + zs);
  }

  /** An empty nested list is an empty element: its separators stay. */
  lemma JoinEmptyNested()
    ensures JoinText(",", [VStr("a"), VArray([]), VStr("b")]) == "a,,b"
  {
    var items := [VStr("a"), VArray([]), VStr("b")];
    assert items[1..] == [VArray([]), VStr("b")];
    assert items[1..][1..] == [VStr("b")];
  }

  /** Joining flattens, on one input: a nested list reads as if its names stood in the outer one. */
  lemma JoinFlattens()
    ensures JoinText(",", [VStr("a"), VArray([VStr("b"), VStr("c")])]) == "a,b,c"
  {
    var inner := [VStr("b"), VStr("c")];
    assert inner[1..] == [VStr("c")];
    assert JoinText(",", inner) == "b,c";
    var outer := [VStr("a"), VArray(inner)];
    assert outer[1..] == [VArray(inner)];
  }

  /**
   * A predef list of names without commas survives the flattening: splitting
   * the joined string at the commas gives the names back, in order.
   */
  lemma PredefNamesRecoverable(items: seq<Value>)
    requires items != [] && AllStrings(items)
    requires forall i :: 0 <= i < |items| ==> ',' !in items[i].s
    ensures Split(JoinText(",", items), ',') == Strings(items)
  {
    JoinTextStrings(",", items);
    SplitJoin(Strings(items), ',');
  }

  // ------------------------------------------------ config resolution

  /** `@config['predef'] = @config['predef'].join(",") if @config['predef'].is_a?(Array)` */
  function NormalizePredef(c: Hash): Hash
  {
    match Get(c, "predef")
    case Some(VArray(items)) => Put(c, "predef", VStr(JoinText(",", items)))
    case _ => c
  }

  /** The value `predef` has after normalising a config whose `predef` was p. */
  function PredefAfter(p: Option<Value>): Option<Value>
  {
    match p
    case Some(VArray(items)) => Some(VStr(JoinText(",", items)))
    case _ => p
  }

  /**
   * Normalising touches `predef` alone: an array there becomes its joined
   * string, every other key keeps its value, and no key moves.
   */
  lemma NormalizePredefSpec(c: Hash, k: string)
    ensures Get(NormalizePredef(c), k) == if k == "predef" then PredefAfter(Get(c, k)) else Get(c, k)
    ensures Keys(NormalizePredef(c)) == Keys(c)
  {
    match Get(c, "predef")
    case Some(VArray(items)) =>
      PutGet(c, "predef", VStr(JoinText(",", items)), k);
      PutKeys(c, "predef", VStr(JoinText(",", items)));
    case _ =>
  }

  /** After normalising, `predef` is never an array, so normalising again changes nothing. */
  lemma NormalizePredefIdempotent(c: Hash)
    ensures NormalizePredef(NormalizePredef(c)) == NormalizePredef(c)
  {
    NormalizePredefSpec(c, "predef");
  }

  lemma NormalizePredefUnique(c: Hash)
    requires UniqueKeys(c)
    ensures UniqueKeys(NormalizePredef(c))
  {
    match Get(c, "predef")
    case Some(VArray(items)) => PutUnique(c, "predef", VStr(JoinText(",", items)));
    case _ =>
  }

  /** The config as it stands while the files are being selected. */
  function SelectionConfig(defaultConfig: Hash, customConfig: Hash): Hash
  {
    NormalizePredef(Merge(defaultConfig, customConfig))
  }

  /** `@config` at the end of `initialize`. */
  function ResolveConfig(defaultConfig: Hash, customConfig: Hash): Hash
  {
    RemoveAll(SelectionConfig(defaultConfig, customConfig), SelectionKeys)
  }

  /**
   * What each key of the resolved config holds: the selection keys are gone,
   * `predef` is the merged one flattened, and any other key takes the custom
   * value when the custom config has the key and the default value otherwise.
   */
  lemma ResolveConfigGet(defaultConfig: Hash, customConfig: Hash, k: string)
    requires UniqueKeys(customConfig)
    ensures Get(ResolveConfig(defaultConfig, customConfig), k) ==
      if k in SelectionKeys then None
      else
        var merged := if k in Keys(customConfig) then Get(customConfig, k) else Get(defaultConfig, k);
        if k == "predef" then PredefAfter(merged) else merged
  {
    var m := Merge(defaultConfig, customConfig);
    RemoveAllGet(NormalizePredef(m), SelectionKeys, k);
    NormalizePredefSpec(m, k);
    MergeGet(defaultConfig, customConfig, k);
  }

  /**
   * The order of the resolved config's keys: the default's keys, then the
   * custom config's new ones, less the selection keys.
   */
  lemma ResolveConfigKeys(defaultConfig: Hash, customConfig: Hash)
    ensures Keys(ResolveConfig(defaultConfig, customConfig)) ==
      Without(Without(Keys(defaultConfig) + NewKeys(Keys(defaultConfig), Keys(customConfig)), "paths"), "exclude_paths")
  {
    var m := Merge(defaultConfig, customConfig);
    var n := NormalizePredef(m);
    MergeKeys(defaultConfig, customConfig);
    NormalizePredefSpec(m, "predef");
    RemoveKeys(n, "paths");
    RemoveKeys(Remove(n, "paths"), "exclude_paths");
    assert SelectionKeys[1..][1..] == [];
  }

  lemma ResolveConfigUnique(defaultConfig: Hash, customConfig: Hash)
    requires UniqueKeys(defaultConfig)
    ensures UniqueKeys(ResolveConfig(defaultConfig, customConfig))
  {
    var m := Merge(defaultConfig, customConfig);
    MergeUnique(defaultConfig, customConfig);
    NormalizePredefUnique(m);
    RemoveAllUnique(NormalizePredef(m), SelectionKeys);
  }
}
