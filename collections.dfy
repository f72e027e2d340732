/** Value types shared by the whole model: `Option` for results that the
    source produces only on some inputs (it raises otherwise), and `ODict`,
    a Python `dict` with its insertion order. */
module Collections {
  import opened Text

  datatype Option<T> = None | Some(value: T)

  /** A Python dict keyed by strings: `keys` in insertion order, `vals` the mapping. Assigning
      to a key already present replaces its value and keeps its position;
      a new key goes to the end. */
  datatype ODict<V> = ODict(keys: seq<string>, vals: map<string, V>)
  {
    ghost predicate Valid()
    {
      && (forall i, j :: 0 <= i < j < |keys| ==> keys[i] != keys[j])
      && (forall k :: k in vals <==> k in keys)
    }
  }

  function EmptyDict<V>(): (d: ODict<V>)
    ensures d.Valid() && d.keys == []
  {
    ODict([], map[])
  }

  /** `d[k] = v` */
  function Put<V>(d: ODict<V>, k: string, v: V): (r: ODict<V>)
    requires d.Valid()
    ensures r.Valid()
    ensures k in r.vals && r.vals[k] == v
    ensures forall k' :: k' != k ==> (k' in r.vals <==> k' in d.vals) && (k' in d.vals ==> r.vals[k'] == d.vals[k'])
    ensures k in d.vals ==> r.keys == d.keys
    ensures k !in d.vals ==> r.keys == d.keys + [k]
  {
    if k in d.vals then ODict(d.keys, d.vals[k := v]) else ODict(d.keys + [k], d.vals[k := v])
  }

  /** `list(d.items())` */
  function Items<V>(d: ODict<V>): (r: seq<(string, V)>)
    requires d.Valid()
    ensures |r| == |d.keys|
    ensures forall i :: 0 <= i < |r| ==> r[i].0 == d.keys[i] && d.keys[i] in d.vals && r[i].1 == d.vals[d.keys[i]]
  {
    seq(|d.keys|, i requires 0 <= i < |d.keys| => (d.keys[i], d.vals[d.keys[i]]))
  }

  /** `[x for x in xs if p(x)]` */
  function Filter<T>(xs: seq<T>, p: T -> bool): (r: seq<T>)
    ensures |r| <= |xs|
  {
    if |xs| == 0 then [] else (if p(xs[0]) then [xs[0]] else []) + Filter(xs[1..], p)
  }

  /** Filtering keeps exactly the elements that pass. */
  lemma {:induction false} FilterMembers<T>(xs: seq<T>, p: T -> bool, x: T)
    ensures x in Filter(xs, p) <==> x in xs && p(x)
    decreases |xs|
  {
    if |xs| > 0 {
      FilterMembers(xs[1..], p, x);
      assert xs == [xs[0]] + xs[1..];
    }
  }

  /** Filtering keeps the order: it distributes over concatenation. */
  lemma {:induction false} FilterAppend<T>(a: seq<T>, b: seq<T>, p: T -> bool)
    ensures Filter(a + b, p) == Filter(a, p) + Filter(b, p)
    decreases |a|
  {
    if |a| == 0 {
      assert a + b == b;
    } else {
      FilterAppend(a[1..], b, p);
      assert (a + b)[0] == a[0];
      assert (a + b)[1..] == a[1..] + b;
      var h := if p(a[0]) then [a[0]] else [];
      assert Filter(a + b, p) == h + Filter(a[1..] + b, p);
      AppendAssoc(h, Filter(a[1..], p), Filter(b, p));
    }
  }

  /** `for k, v in zip(ks, vs): d[k] = v` */
  function PutAll<V>(d: ODict<V>, ks: seq<string>, vs: seq<V>): (r: ODict<V>)
    requires d.Valid() && |ks| == |vs|
    ensures r.Valid()
    decreases |ks|
  {
    if |ks| == 0 then d else PutAll(Put(d, ks[0], vs[0]), ks[1..], vs[1..])
  }

  /** Assigning the pairs from position `i` on is assigning pair `i`, then
      the rest: one turn of a loop that fills a dict. */
  lemma PutAllStep<V>(d: ODict<V>, ks: seq<string>, vs: seq<V>, i: nat)
    requires d.Valid() && |ks| == |vs| && i < |ks|
    ensures PutAll(d, ks[i..], vs[i..]) == PutAll(Put(d, ks[i], vs[i]), ks[i + 1..], vs[i + 1..])
  {
    assert ks[i..][1..] == ks[i + 1..] && vs[i..][1..] == vs[i + 1..];
  }

  /** The keys already there keep their positions at the front. */
  lemma {:induction false} PutAllPrefix<V>(d: ODict<V>, ks: seq<string>, vs: seq<V>)
    requires d.Valid() && |ks| == |vs|
    ensures d.keys <= PutAll(d, ks, vs).keys
    decreases |ks|
  {
    if |ks| > 0 {
      var d' := Put(d, ks[0], vs[0]);
      PutAllPrefix(d', ks[1..], vs[1..]);
      assert d.keys <= d'.keys;
    }
  }

  /** The keys afterwards are those already there and the assigned ones. */
  lemma {:induction false} PutAllMembers<V>(d: ODict<V>, ks: seq<string>, vs: seq<V>, k: string)
    requires d.Valid() && |ks| == |vs|
    ensures k in PutAll(d, ks, vs).vals <==> k in d.vals || k in ks
    decreases |ks|
  {
    if |ks| > 0 {
      PutAllMembers(Put(d, ks[0], vs[0]), ks[1..], vs[1..], k);
      assert ks == [ks[0]] + ks[1..];
    }
  }

  /** A key assigned several times holds its last value. */
  lemma {:induction false} PutAllLast<V>(d: ODict<V>, ks: seq<string>, vs: seq<V>, j: nat)
    requires d.Valid() && |ks| == |vs|
    requires j < |ks| && ks[j] !in ks[j + 1..]
    ensures ks[j] in PutAll(d, ks, vs).vals && PutAll(d, ks, vs).vals[ks[j]] == vs[j]
    decreases |ks|
  {
    var d' := Put(d, ks[0], vs[0]);
    if j == 0 {
      PutAllKeeps(d', ks[1..], vs[1..], ks[0]);
    } else {
      assert ks[1..][j - 1 + 1..] == ks[j + 1..];
      PutAllLast(d', ks[1..], vs[1..], j - 1);
    }
  }

  /** A key never assigned keeps its value. */
  lemma {:induction false} PutAllKeeps<V>(d: ODict<V>, ks: seq<string>, vs: seq<V>, k: string)
    requires d.Valid() && |ks| == |vs|
    requires k in d.vals && k !in ks
    ensures k in PutAll(d, ks, vs).vals && PutAll(d, ks, vs).vals[k] == d.vals[k]
    decreases |ks|
  {
    if |ks| > 0 {
      assert k != ks[0];
      assert k !in ks[1..];
      PutAllKeeps(Put(d, ks[0], vs[0]), ks[1..], vs[1..], k);
    }
  }

  /** Assigning keys that are distinct and new appends them in order. */
  lemma {:induction false} PutAllFresh<V>(d: ODict<V>, ks: seq<string>, vs: seq<V>)
    requires d.Valid() && |ks| == |vs|
    requires forall i, j :: 0 <= i < j < |ks| ==> ks[i] != ks[j]
    requires forall i :: 0 <= i < |ks| ==> ks[i] !in d.vals
    ensures PutAll(d, ks, vs).keys == d.keys + ks
    decreases |ks|
  {
    if |ks| > 0 {
      var d' := Put(d, ks[0], vs[0]);
      var rest := ks[1..];
      forall i | 0 <= i < |rest| ensures rest[i] !in d'.vals {
        assert rest[i] == ks[i + 1];
      }
      PutAllFresh(d', rest, vs[1..]);
      assert ks == [ks[0]] + rest;
      AppendAssoc(d.keys, [ks[0]], rest);
    }
  }

  /** The last position at which a key occurs. */
  lemma {:induction false} LastIndex(ks: seq<string>, k: string) returns (j: nat)
    requires k in ks
    ensures j < |ks| && ks[j] == k && k !in ks[j + 1..]
    decreases |ks|
  {
    if k in ks[1..] {
      var j' := LastIndex(ks[1..], k);
      j := j' + 1;
      assert ks[j + 1..] == ks[1..][j' + 1..];
    } else {
      j := 0;
    }
  }

  /** Every element kept by a filter is an element of the list that passes. */
  lemma {:induction false} FilterSubset<T>(xs: seq<T>, p: T -> bool)
    ensures forall i :: 0 <= i < |Filter(xs, p)| ==> Filter(xs, p)[i] in xs && p(Filter(xs, p)[i])
  {
    var r := Filter(xs, p);
    forall i | 0 <= i < |r| ensures r[i] in xs && p(r[i]) {
      FilterMembers(xs, p, r[i]);
    }
  }

  /** Filtering a list without repeats gives a list without repeats. */
  lemma {:induction false} FilterDistinct<T>(xs: seq<T>, p: T -> bool)
    requires forall i, j :: 0 <= i < j < |xs| ==> xs[i] != xs[j]
    ensures forall i, j :: 0 <= i < j < |Filter(xs, p)| ==> Filter(xs, p)[i] != Filter(xs, p)[j]
    decreases |xs|
  {
    if |xs| > 0 {
      var rest := xs[1..];
      assert forall i, j :: 0 <= i < j < |rest| ==> rest[i] != rest[j] by {
        forall i, j | 0 <= i < j < |rest| ensures rest[i] != rest[j] {
          assert rest[i] == xs[i + 1] && rest[j] == xs[j + 1];
        }
      }
      FilterDistinct(rest, p);
      FilterMembers(rest, p, xs[0]);
      assert xs[0] !in rest;
    }
  }

  /** Assigning only keys already present keeps the keys and their order. */
  lemma {:induction false} PutAllExisting<V>(d: ODict<V>, ks: seq<string>, vs: seq<V>)
    requires d.Valid() && |ks| == |vs|
    requires forall i :: 0 <= i < |ks| ==> ks[i] in d.vals
    ensures PutAll(d, ks, vs).keys == d.keys
    decreases |ks|
  {
    if |ks| > 0 {
      var d' := Put(d, ks[0], vs[0]);
      assert forall i :: 0 <= i < |ks[1..]| ==> ks[1..][i] in d'.vals by {
        forall i | 0 <= i < |ks[1..]| ensures ks[1..][i] in d'.vals {
          assert ks[1..][i] == ks[i + 1];
        }
      }
      PutAllExisting(d', ks[1..], vs[1..]);
    }
  }

  /** `{k: f(k, v) for k, v in d.items()}` from position `i` on, added to
      `acc`; `None` where some `f` raises. */
  function MapDictFrom<V, W>(d: ODict<V>, f: (string, V) --> Option<W>, i: nat, acc: ODict<W>): (r: Option<ODict<W>>)
    requires d.Valid() && acc.Valid() && i <= |d.keys|
    requires forall k :: k in d.vals ==> f.requires(k, d.vals[k])
    ensures r.Some? ==> r.value.Valid()
    decreases |d.keys| - i
  {
    if i == |d.keys| then Some(acc)
    else
      var k := d.keys[i];
      match f(k, d.vals[k])
      case None => None
      case Some(w) => MapDictFrom(d, f, i + 1, Put(acc, k, w))
  }

  /** The mapped dictionary exists exactly when `f` succeeds on every entry. */
  lemma {:induction false} MapDictFromSome<V, W>(d: ODict<V>, f: (string, V) --> Option<W>, i: nat, acc: ODict<W>)
    requires d.Valid() && acc.Valid() && i <= |d.keys|
    requires forall k :: k in d.vals ==> f.requires(k, d.vals[k])
    ensures MapDictFrom(d, f, i, acc).Some? <==> forall j :: i <= j < |d.keys| ==> f(d.keys[j], d.vals[d.keys[j]]).Some?
    decreases |d.keys| - i
  {
    if i < |d.keys| {
      var k := d.keys[i];
      if f(k, d.vals[k]).Some? {
        MapDictFromSome(d, f, i + 1, Put(acc, k, f(k, d.vals[k]).value));
      }
    }
  }

  /** The mapped dictionary has the same keys in the same order. */
  lemma {:induction false} MapDictFromKeys<V, W>(d: ODict<V>, f: (string, V) --> Option<W>, i: nat, acc: ODict<W>)
    requires d.Valid() && acc.Valid() && i <= |d.keys|
    requires forall k :: k in d.vals ==> f.requires(k, d.vals[k])
    requires acc.keys == d.keys[..i]
    requires MapDictFrom(d, f, i, acc).Some?
    ensures MapDictFrom(d, f, i, acc).value.keys == d.keys
    decreases |d.keys| - i
  {
    if i < |d.keys| {
      var k := d.keys[i];
      assert k !in acc.keys by {
        forall j | 0 <= j < i ensures acc.keys[j] != k {
          assert acc.keys[j] == d.keys[j];
        }
      }
      var acc' := Put(acc, k, f(k, d.vals[k]).value);
      assert acc'.keys == d.keys[..i] + [k];
      assert d.keys[..i + 1] == d.keys[..i] + [k];
      MapDictFromKeys(d, f, i + 1, acc');
    } else {
      assert d.keys[..i] == d.keys;
    }
  }

  /** Every key from position `i` on is mapped to its image under `f`. */
  lemma {:induction false} MapDictFromValue<V, W>(d: ODict<V>, f: (string, V) --> Option<W>, i: nat, acc: ODict<W>, j: nat)
    requires d.Valid() && acc.Valid() && i <= j < |d.keys|
    requires forall k :: k in d.vals ==> f.requires(k, d.vals[k])
    requires MapDictFrom(d, f, i, acc).Some?
    ensures f(d.keys[j], d.vals[d.keys[j]]).Some?
    ensures d.keys[j] in MapDictFrom(d, f, i, acc).value.vals
    ensures MapDictFrom(d, f, i, acc).value.vals[d.keys[j]] == f(d.keys[j], d.vals[d.keys[j]]).value
    decreases |d.keys| - i
  {
    var k := d.keys[i];
    var acc' := Put(acc, k, f(k, d.vals[k]).value);
    if i < j {
      MapDictFromValue(d, f, i + 1, acc', j);
    } else {
      assert k !in d.keys[i + 1..];
      MapDictFromKeeps(d, f, i + 1, acc', k);
    }
  }

  /** Entries already in the accumulator and not mapped again are kept. */
  lemma {:induction false} MapDictFromKeeps<V, W>(d: ODict<V>, f: (string, V) --> Option<W>, i: nat, acc: ODict<W>, k: string)
    requires d.Valid() && acc.Valid() && i <= |d.keys|
    requires forall k :: k in d.vals ==> f.requires(k, d.vals[k])
    requires MapDictFrom(d, f, i, acc).Some?
    requires k in acc.vals && k !in d.keys[i..]
    ensures k in MapDictFrom(d, f, i, acc).value.vals && MapDictFrom(d, f, i, acc).value.vals[k] == acc.vals[k]
    decreases |d.keys| - i
  {
    if i < |d.keys| {
      var k' := d.keys[i];
      assert k != k';
      assert k !in d.keys[i + 1..];
      MapDictFromKeeps(d, f, i + 1, Put(acc, k', f(k', d.vals[k']).value), k);
    }
  }

  /** The whole dictionary mapped. */
  function MapDict<V, W>(d: ODict<V>, f: (string, V) --> Option<W>): Option<ODict<W>>
    requires d.Valid()
    requires forall k :: k in d.vals ==> f.requires(k, d.vals[k])
  {
    MapDictFrom(d, f, 0, EmptyDict())
  }

  /** An entry of the mapped dictionary: the same keys, each with the image
      of its value. */
  lemma MapDictEntry<V, W>(d: ODict<V>, f: (string, V) --> Option<W>, k: string)
    requires d.Valid()
    requires forall k :: k in d.vals ==> f.requires(k, d.vals[k])
    requires MapDict(d, f).Some?
    ensures MapDict(d, f).value.keys == d.keys
    ensures k in MapDict(d, f).value.vals <==> k in d.vals
    ensures k in d.vals ==> f(k, d.vals[k]).Some? && MapDict(d, f).value.vals[k] == f(k, d.vals[k]).value
  {
    MapDictFromKeys(d, f, 0, EmptyDict());
    if k in d.vals {
      var j :| 0 <= j < |d.keys| && d.keys[j] == k;
      MapDictFromValue(d, f, 0, EmptyDict(), j);
    }
  }
}
