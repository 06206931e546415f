/** PHP's ordered arrays with string keys, as the media code uses them:
    lookup, `isset`, assignment to a key, `unset`, `array_merge`, the
    `(array)` cast and loose `==` on scalars. */
module PhpArrays {
  import opened Common

  /** A PHP value as it arrives in a request or a decoded field. */
  datatype Value = Null | Int(i: int) | Str(s: string) | Arr(entries: seq<Entry>)

  /** One key => value pair of an array; order is insertion order. */
  datatype Entry = Entry(key: string, val: Value)

  /** `array_keys($a)`. */
  function Keys(a: seq<Entry>): (ks: seq<string>)
    ensures |ks| == |a|
    ensures forall i :: 0 <= i < |a| ==> ks[i] == a[i].key
  {
    if a == [] then [] else [a[0].key] + Keys(a[1..])
  }

  /** A PHP array never holds the same key twice. */
  predicate DistinctKeys(a: seq<Entry>) {
    forall i, j :: 0 <= i < j < |a| ==> a[i].key != a[j].key
  }

  /** `$a[$k]`, when the key exists. */
  function Get(a: seq<Entry>, k: string): (r: Option<Value>)
    ensures r.Some? <==> k in Keys(a)
    ensures r.Some? ==> Entry(k, r.value) in a
  {
    if a == [] then None
    else if a[0].key == k then Some(a[0].val)
    else Get(a[1..], k)
  }

  /** Under distinct keys, the entry at position i is what lookup finds. */
  lemma {:induction false} GetAt(a: seq<Entry>, i: nat)
    requires DistinctKeys(a) && i < |a|
    ensures Get(a, a[i].key) == Some(a[i].val)
  {
    if i > 0 {
      assert DistinctKeys(a[1..]) by {
        forall x, y | 0 <= x < y < |a[1..]|
          ensures a[1..][x].key != a[1..][y].key
        {
          assert a[1..][x] == a[x + 1] && a[1..][y] == a[y + 1];
        }
      }
      assert a[0].key != a[i].key;
      GetAt(a[1..], i - 1);
    }
  }

  /** `isset($a[$k])`: the key exists and its value is not null. */
  predicate IsSet(a: seq<Entry>, k: string) {
    Get(a, k).Some? && Get(a, k).value != Null
  }

  /** `isset($v[$k])` on any value: false for anything but an array. */
  predicate IsSetIn(v: Value, k: string) {
    v.Arr? && IsSet(v.entries, k)
  }

  lemma DistinctTail(a: seq<Entry>)
    requires a != [] && DistinctKeys(a)
    ensures DistinctKeys(a[1..]) && a[0].key !in Keys(a[1..])
  {
    forall x | 0 <= x < |a[1..]|
      ensures a[1..][x].key != a[0].key
    {
      assert a[1..][x] == a[x + 1];
    }
  }

  /** `$a[$k] = $v`: replaced in place when the key exists, else appended. */
  function Set(a: seq<Entry>, k: string, v: Value): (r: seq<Entry>)
    ensures Get(r, k) == Some(v)
    ensures forall k' :: k' != k ==> Get(r, k') == Get(a, k')
  {
    if a == [] then [Entry(k, v)]
    else if a[0].key == k then [Entry(k, v)] + a[1..]
    else [a[0]] + Set(a[1..], k, v)
  }

  /** Assignment keeps the order of the keys, appending a new key. */
  lemma {:induction false} SetKeys(a: seq<Entry>, k: string, v: Value)
    ensures k in Keys(a) ==> Keys(Set(a, k, v)) == Keys(a)
    ensures k !in Keys(a) ==> Keys(Set(a, k, v)) == Keys(a) + [k]
  {
    if a != [] && a[0].key != k {
      SetKeys(a[1..], k, v);
      SetKeysPass(a, k, v);
    } else if a != [] {
      SetKeysHere(a, k, v);
    }
  }

  /** The key is found at the front: the keys stay as they are. */
  lemma SetKeysHere(a: seq<Entry>, k: string, v: Value)
    requires a != [] && a[0].key == k
    ensures k in Keys(a) && Keys(Set(a, k, v)) == Keys(a)
  {
    var r := [Entry(k, v)] + a[1..];
    assert r[1..] == a[1..];
    assert Keys(r) == [k] + Keys(a[1..]);
    assert Keys(a) == [k] + Keys(a[1..]);
  }

  /** The key is not at the front: the front key is kept before the rest. */
  lemma SetKeysPass(a: seq<Entry>, k: string, v: Value)
    requires a != [] && a[0].key != k
    requires k in Keys(a[1..]) ==> Keys(Set(a[1..], k, v)) == Keys(a[1..])
    requires k !in Keys(a[1..]) ==> Keys(Set(a[1..], k, v)) == Keys(a[1..]) + [k]
    ensures k in Keys(a) ==> Keys(Set(a, k, v)) == Keys(a)
    ensures k !in Keys(a) ==> Keys(Set(a, k, v)) == Keys(a) + [k]
  {
    var rest := Set(a[1..], k, v);
    assert Set(a, k, v) == [a[0]] + rest;
    KeysCons(a[0], rest);
    KeysCons(a[0], a[1..]);
    assert [a[0]] + a[1..] == a;
    KeysPass(a[0].key, k, Keys(a[1..]), Keys(rest), Keys(a), Keys(Set(a, k, v)));
  }

  lemma KeysCons(e: Entry, a: seq<Entry>)
    ensures Keys([e] + a) == [e.key] + Keys(a)
  {
    assert ([e] + a)[1..] == a;
  }

  /** The key lists of SetKeysPass, as plain sequences. */
  lemma KeysPass(x: string, k: string, tail: seq<string>, newTail: seq<string>, ks: seq<string>, newKs: seq<string>)
    requires x != k && ks == [x] + tail && newKs == [x] + newTail
    requires k in tail ==> newTail == tail
    requires k !in tail ==> newTail == tail + [k]
    ensures k in ks ==> newKs == ks
    ensures k !in ks ==> newKs == ks + [k]
  {
    assert (k in ks) == (k in tail);
    if k !in tail {
      assert [x] + (tail + [k]) == ([x] + tail) + [k];
    }
  }

  /** Assignment never duplicates a key. */
  lemma {:induction false} SetDistinct(a: seq<Entry>, k: string, v: Value)
    requires DistinctKeys(a)
    ensures DistinctKeys(Set(a, k, v))
  {
    var r := Set(a, k, v);
    SetKeys(a, k, v);
    forall x, y | 0 <= x < y < |r|
      ensures r[x].key != r[y].key
    {
      assert Keys(r)[x] == r[x].key && Keys(r)[y] == r[y].key;
      if k !in Keys(a) && y == |a| {
        assert Keys(a)[x] == a[x].key;
      } else {
        assert Keys(a)[x] == a[x].key && Keys(a)[y] == a[y].key;
      }
    }
  }

  /** `unset($a[$k])`. */
  function Unset(a: seq<Entry>, k: string): seq<Entry> {
    if a == [] then []
    else if a[0].key == k then Unset(a[1..], k)
    else [a[0]] + Unset(a[1..], k)
  }

  /** After `unset` the key is gone, every other key keeps its value, and
      exactly the entries under other keys remain. */
  lemma {:induction false} UnsetSpec(a: seq<Entry>, k: string)
    ensures Get(Unset(a, k), k) == None
    ensures forall k' :: k' != k ==> Get(Unset(a, k), k') == Get(a, k')
    ensures forall e :: e in Unset(a, k) <==> e in a && e.key != k
  {
    if a != [] {
      UnsetSpec(a[1..], k);
      if a[0].key != k {
        assert ([a[0]] + Unset(a[1..], k))[1..] == Unset(a[1..], k);
      }
    }
  }

  /** `array_merge($a, $b)` for string keys: every entry of b is assigned
      in turn, so b's values win and b's new keys come after a's. */
  function Merge(a: seq<Entry>, b: seq<Entry>): seq<Entry>
    decreases |b|
  {
    if b == [] then a else Merge(Set(a, b[0].key, b[0].val), b[1..])
  }

  /** In a merge the second array wins: a key of b maps to b's value, any
      other key keeps a's value; no key is lost or duplicated. */
  lemma {:induction false} MergeSpec(a: seq<Entry>, b: seq<Entry>)
    requires DistinctKeys(b)
    ensures forall k :: Get(Merge(a, b), k) == if k in Keys(b) then Get(b, k) else Get(a, k)
    ensures DistinctKeys(a) ==> DistinctKeys(Merge(a, b))
    decreases |b|
  {
    if b != [] {
      var a' := Set(a, b[0].key, b[0].val);
      assert DistinctKeys(b[1..]) by {
        forall x, y | 0 <= x < y < |b[1..]|
          ensures b[1..][x].key != b[1..][y].key
        {
          assert b[1..][x] == b[x + 1] && b[1..][y] == b[y + 1];
        }
      }
      MergeSpec(a', b[1..]);
      if DistinctKeys(a) {
        SetDistinct(a, b[0].key, b[0].val);
      }
      forall k
        ensures Get(Merge(a, b), k) == if k in Keys(b) then Get(b, k) else Get(a, k)
      {
        if k in Keys(b[1..]) {
          var x :| 0 <= x < |b[1..]| && Keys(b[1..])[x] == k;
          assert b[x + 1].key == k;
          assert k != b[0].key;
        }
      }
    }
  }

  /** The `(array)` cast: null is the empty array, a scalar is wrapped at
      key 0. */
  function AsArray(v: Value): (r: seq<Entry>)
    ensures v.Arr? ==> r == v.entries
    ensures v.Null? ==> r == []
  {
    match v
    case Null => []
    case Arr(es) => es
    case _ => [Entry("0", v)]
  }

  /** Loose `==` between two scalars: equal values, or an integer and its
      decimal string. */
  predicate LooseEq(x: Value, y: Value) {
    x == y ||
    (x.Int? && y.Str? && y.s == IntToString(x.i)) ||
    (x.Str? && y.Int? && x.s == IntToString(y.i))
  }
}
