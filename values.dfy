/**
 * Configuration values as the linter sees them after a config document is
 * loaded, and Ruby's insertion-ordered Hash as an association list.
 */
module Values {
  import opened Wrappers

  /**
   * A value by its Ruby class. VOther stands for every class `to_json` does
   * not know (Float, Symbol, Date, ...): it carries the class name, which the
   * error message names, and the text the object shows when converted to a
   * string.
   */
  datatype Value =
    | VHash(entries: seq<Entry>)
    | VArray(items: seq<Value>)
    | VStr(s: string)
    | VInt(i: int)
    | VBool(b: bool)
    | VNull
    | VOther(className: string, text: string)

  datatype Entry = Entry(key: string, value: Value)

  /** A Ruby Hash with string keys: its entries in insertion order. */
  type Hash = seq<Entry>

  function Keys(h: Hash): (ks: seq<string>)
    ensures |ks| == |h|
    ensures forall i :: 0 <= i < |h| ==> ks[i] == h[i].key
  {
    if h == [] then [] else [h[0].key] + Keys(h[1..])
  }

  /** Ruby Hash never holds one key twice. */
  predicate UniqueKeys(h: Hash)
  {
    forall i, j :: 0 <= i < j < |h| ==> h[i].key != h[j].key
  }

  /** `h[k]`, with None for a missing key (where Ruby gives nil). */
  function Get(h: Hash, k: string): (r: Option<Value>)
    ensures r.None? <==> k !in Keys(h)
  {
    if h == [] then None
    else if h[0].key == k then Some(h[0].value)
    else Get(h[1..], k)
  }

  /**
   * `h[k] = v`: an existing key keeps its position and takes the new value, a
   * new key is appended.
   */
  function Put(h: Hash, k: string, v: Value): Hash
  {
    if h == [] then [Entry(k, v)]
    else if h[0].key == k then [Entry(k, v)] + h[1..]
    else [h[0]] + Put(h[1..], k, v)
  }

  /** `h.delete(k)`: the entry for k goes, every other entry keeps its place. */
  function Remove(h: Hash, k: string): Hash
  {
    if h == [] then []
    else if h[0].key == k then Remove(h[1..], k)
    else [h[0]] + Remove(h[1..], k)
  }

  /** `a.merge(b)`: every entry of b stored into a copy of a, in b's order. */
  function Merge(a: Hash, b: Hash): Hash
    decreases |b|
  {
    if b == [] then a else Merge(Put(a, b[0].key, b[0].value), b[1..])
  }

  /** The keys of kb that ka lacks, in kb's order: where they land after a merge. */
  function NewKeys(ka: seq<string>, kb: seq<string>): seq<string>
    decreases |kb|
  {
    if kb == [] then []
    else if kb[0] in ka then NewKeys(ka, kb[1..])
    else [kb[0]] + NewKeys(ka + [kb[0]], kb[1..])
  }

  /** The map a Hash stands for, forgetting order. */
  function ToMap(h: Hash): map<string, Value>
  {
    map k | k in Keys(h) :: Get(h, k).value
  }

  /** In a Hash with unique keys, looking up the key of entry i finds entry i. */
  lemma {:induction false} GetAt(h: Hash, i: nat)
    requires UniqueKeys(h) && i < |h|
    ensures Get(h, h[i].key) == Some(h[i].value)
  {
    if i > 0 {
      assert h[1..][i - 1] == h[i];
      GetAt(h[1..], i - 1);
    }
  }

  /** Storing a key keeps the key order, appending the key only when it is new. */
  lemma {:induction false} PutKeys(h: Hash, k: string, v: Value)
    ensures Keys(Put(h, k, v)) == if k in Keys(h) then Keys(h) else Keys(h) + [k]
  {
    if h == [] {
      assert Keys([Entry(k, v)]) == [k];
    } else if h[0].key == k {
      var p := [Entry(k, v)] + h[1..];
      assert Keys(p) == Keys(h);
      assert k in Keys(h) by { assert Keys(h)[0] == k; }
    } else {
      var p := Put(h[1..], k, v);
      PutKeys(h[1..], k, v);
      assert ([h[0]] + p)[1..] == p;
      assert Keys(Put(h, k, v)) == [h[0].key] + Keys(p);
      assert Keys(h) == [h[0].key] + Keys(h[1..]);
      assert k in Keys(h) <==> k in Keys(h[1..]);
    }
  }

  /** After `h[k] = v`, k maps to v and every other key to what it did before. */
  lemma {:induction false} PutGet(h: Hash, k: string, v: Value, k': string)
    ensures Get(Put(h, k, v), k') == if k' == k then Some(v) else Get(h, k')
  {
    if h != [] && h[0].key != k {
      PutGet(h[1..], k, v, k');
    }
  }

  lemma {:induction false} PutUnique(h: Hash, k: string, v: Value)
    requires UniqueKeys(h)
    ensures UniqueKeys(Put(h, k, v))
  {
    if h != [] && h[0].key != k {
      PutUnique(h[1..], k, v);
      PutKeys(h[1..], k, v);
      var r := Put(h, k, v);
      forall i, j | 0 <= i < j < |r| ensures r[i].key != r[j].key {
        assert Keys(r) == [h[0].key] + Keys(Put(h[1..], k, v));
        if i == 0 {
          assert Keys(r)[j] in Keys(Put(h[1..], k, v));
          assert h[0].key !in Keys(h[1..]) by {
            forall m | 0 <= m < |h[1..]| ensures Keys(h[1..])[m] != h[0].key {
              assert h[1..][m] == h[m + 1];
            }
          }
        } else {
          assert r[i] == Put(h[1..], k, v)[i - 1];
          assert r[j] == Put(h[1..], k, v)[j - 1];
        }
      }
    }
  }

  /** No entry of a Hash with unique keys other than the first has the first one's key. */
  lemma HeadKeyNotInTail(h: Hash)
    requires UniqueKeys(h) && h != []
    ensures h[0].key !in Keys(h[1..])
    ensures UniqueKeys(h[1..])
  {
    forall m | 0 <= m < |h[1..]| ensures Keys(h[1..])[m] != h[0].key {
      assert h[1..][m] == h[m + 1];
    }
  }

  /** `h.delete(k)` removes k from the key list and nothing else. */
  lemma {:induction false} RemoveGet(h: Hash, k: string, k': string)
    ensures Get(Remove(h, k), k') == if k' == k then None else Get(h, k')
  {
    if h != [] {
      RemoveGet(h[1..], k, k');
    }
  }

  /** Deleting a missing key leaves the Hash as it was. */
  lemma {:induction false} RemoveAbsent(h: Hash, k: string)
    requires k !in Keys(h)
    ensures Remove(h, k) == h
  {
    if h != [] {
      assert Keys(h) == [h[0].key] + Keys(h[1..]);
      RemoveAbsent(h[1..], k);
    }
  }

  /** Deleting a key held by entry i alone cuts out exactly entry i, keeping the others in order. */
  lemma {:induction false} RemoveOnly(h: Hash, i: nat)
    requires i < |h|
    requires forall j :: 0 <= j < |h| && j != i ==> h[j].key != h[i].key
    ensures Remove(h, h[i].key) == h[..i] + h[i + 1..]
  {
    var k := h[i].key;
    var t := h[1..];
    if i == 0 {
      forall m | 0 <= m < |t| ensures Keys(t)[m] != k {
        assert t[m] == h[m + 1];
      }
      RemoveAbsent(t, k);
      assert h[..0] + t == t;
    } else {
      assert t[i - 1] == h[i];
      forall j | 0 <= j < |t| && j != i - 1 ensures t[j].key != t[i - 1].key {
        assert t[j] == h[j + 1];
      }
      RemoveOnly(t, i - 1);
      assert h[0].key != k;
      assert Remove(h, k) == [h[0]] + Remove(t, k);
      assert [h[0]] + (t[..i - 1] + t[i..]) == ([h[0]] + t[..i - 1]) + t[i..];
      assert [h[0]] + t[..i - 1] == h[..i];
      assert t[i..] == h[i + 1..];
    }
  }

  /** In a Hash, deleting the key of entry i cuts out exactly entry i. */
  lemma RemoveAt(h: Hash, i: nat)
    requires UniqueKeys(h) && i < |h|
    ensures Remove(h, h[i].key) == h[..i] + h[i + 1..]
  {
    forall j | 0 <= j < |h| && j != i ensures h[j].key != h[i].key {
      if j < i {
        assert h[j].key != h[i].key;
      } else {
        assert h[i].key != h[j].key;
      }
    }
    RemoveOnly(h, i);
  }

  /** The keys left after a delete, in their old order. */
  lemma {:induction false} RemoveKeys(h: Hash, k: string)
    ensures Keys(Remove(h, k)) == Without(Keys(h), k)
  {
    if h != [] {
      RemoveKeys(h[1..], k);
      assert Keys(h) == [h[0].key] + Keys(h[1..]);
    }
  }

  /** The sequence xs with every occurrence of x taken out. */
  function Without(xs: seq<string>, x: string): seq<string>
  {
    if xs == [] then [] else if xs[0] == x then Without(xs[1..], x) else [xs[0]] + Without(xs[1..], x)
  }

  lemma {:induction false} RemoveUnique(h: Hash, k: string)
    requires UniqueKeys(h)
    ensures UniqueKeys(Remove(h, k))
  {
    if h != [] {
      HeadKeyNotInTail(h);
      RemoveUnique(h[1..], k);
      if h[0].key != k {
        var rest := Remove(h[1..], k);
        RemoveKeys(h[1..], k);
        WithoutSubset(Keys(h[1..]), k, h[0].key);
        forall i, j | 0 <= i < j < |[h[0]] + rest| ensures ([h[0]] + rest)[i].key != ([h[0]] + rest)[j].key {
          if i == 0 {
            assert ([h[0]] + rest)[j].key == Keys(rest)[j - 1];
          } else {
            assert ([h[0]] + rest)[i] == rest[i - 1];
          }
        }
      }
    }
  }

  lemma {:induction false} WithoutSubset(xs: seq<string>, x: string, y: string)
    requires y !in xs
    ensures y !in Without(xs, x)
  {
    if xs != [] {
      WithoutSubset(xs[1..], x, y);
    }
  }

  /**
   * Merge precedence: after `a.merge(b)` a key of b maps to b's value and a
   * key only in a to a's value; a key in neither stays missing.
   */
  lemma {:induction false} MergeGet(a: Hash, b: Hash, k: string)
    requires UniqueKeys(b)
    decreases |b|
    ensures Get(Merge(a, b), k) == if k in Keys(b) then Get(b, k) else Get(a, k)
  {
    if b != [] {
      HeadKeyNotInTail(b);
      MergeGet(Put(a, b[0].key, b[0].value), b[1..], k);
      PutGet(a, b[0].key, b[0].value, k);
      assert Keys(b) == [b[0].key] + Keys(b[1..]);
    }
  }

  /**
   * Merge order: a's keys keep their places and b's new keys follow in b's
   * order.
   */
  lemma {:induction false} MergeKeys(a: Hash, b: Hash)
    decreases |b|
    ensures Keys(Merge(a, b)) == Keys(a) + NewKeys(Keys(a), Keys(b))
  {
    if b != [] {
      var x := b[0].key;
      var a' := Put(a, x, b[0].value);
      PutKeys(a, x, b[0].value);
      MergeKeys(a', b[1..]);
      assert Merge(a, b) == Merge(a', b[1..]);
      var kb := Keys(b);
      assert kb != [] && kb[0] == x;
      assert kb[1..] == Keys(b[1..]);
      if x in Keys(a) {
        assert NewKeys(Keys(a), kb) == NewKeys(Keys(a), Keys(b[1..]));
      } else {
        var rest := NewKeys(Keys(a) + [x], Keys(b[1..]));
        assert NewKeys(Keys(a), kb) == [x] + rest;
        assert Keys(a') + rest == Keys(a) + ([x] + rest);
      }
    }
  }

  lemma {:induction false} MergeUnique(a: Hash, b: Hash)
    requires UniqueKeys(a)
    decreases |b|
    ensures UniqueKeys(Merge(a, b))
  {
    if b != [] {
      PutUnique(a, b[0].key, b[0].value);
      MergeUnique(Put(a, b[0].key, b[0].value), b[1..]);
    }
  }

  /** The merged Hash has the union of both key sets. */
  lemma MergeKeySet(a: Hash, b: Hash, k: string)
    requires UniqueKeys(b)
    ensures k in Keys(Merge(a, b)) <==> k in Keys(a) || k in Keys(b)
  {
    MergeGet(a, b, k);
  }

  /** Forgetting order, `a.merge(b)` is the map union with b's values winning. */
  lemma MergeToMap(a: Hash, b: Hash)
    requires UniqueKeys(b)
    ensures ToMap(Merge(a, b)) == ToMap(a) + ToMap(b)
  {
    var m := Merge(a, b);
    forall k ensures (k in ToMap(m)) == (k in ToMap(a) + ToMap(b))
      && (k in ToMap(m) ==> ToMap(m)[k] == (ToMap(a) + ToMap(b))[k])
    {
      MergeGet(a, b, k);
    }
  }

  /** Ruby truthiness: only nil and false are false. */
  predicate Truthy(v: Value)
  {
    !v.VNull? && v != VBool(false)
  }

  /** `ks.each { |k| h.delete(k) }` */
  function RemoveAll(h: Hash, ks: seq<string>): Hash
    decreases |ks|
  {
    if ks == [] then h else RemoveAll(Remove(h, ks[0]), ks[1..])
  }

  /** Deleting one more key after a run of deletions. */
  lemma {:induction false} RemoveAllSnoc(h: Hash, ks: seq<string>, k: string)
    decreases |ks|
    ensures RemoveAll(h, ks + [k]) == Remove(RemoveAll(h, ks), k)
  {
    if ks != [] {
      assert (ks + [k])[1..] == ks[1..] + [k];
      RemoveAllSnoc(Remove(h, ks[0]), ks[1..], k);
    }
  }

  /** After the deletions a deleted key is missing and every other key reads as before. */
  lemma {:induction false} RemoveAllGet(h: Hash, ks: seq<string>, k: string)
    decreases |ks|
    ensures Get(RemoveAll(h, ks), k) == if k in ks then None else Get(h, k)
  {
    if ks != [] {
      RemoveAllGet(Remove(h, ks[0]), ks[1..], k);
      RemoveGet(h, ks[0], k);
      assert ks == [ks[0]] + ks[1..];
    }
  }

  lemma {:induction false} RemoveAllUnique(h: Hash, ks: seq<string>)
    decreases |ks|
    requires UniqueKeys(h)
    ensures UniqueKeys(RemoveAll(h, ks))
  {
    if ks != [] {
      RemoveUnique(h, ks[0]);
      RemoveAllUnique(Remove(h, ks[0]), ks[1..]);
    }
  }
}

