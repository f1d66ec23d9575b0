/** Python's `dict` with string keys: an insertion-ordered association list.
    Assigning to a present key replaces its value in place; assigning to an
    absent key appends it.  `values()` lists the values in key order. */
module OrderedIndex {
  import opened Wrappers

  datatype Entry<V> = Entry(key: string, value: V)

  type Index<V> = seq<Entry<V>>

  function Keys<V>(ix: Index<V>): seq<string> {
    seq(|ix|, i requires 0 <= i < |ix| => ix[i].key)
  }

  /** `d.values()`. */
  function Values<V>(ix: Index<V>): seq<V> {
    seq(|ix|, i requires 0 <= i < |ix| => ix[i].value)
  }

  predicate KeysDistinct<V>(ix: Index<V>) {
    forall i, j :: 0 <= i < j < |ix| ==> ix[i].key != ix[j].key
  }

  /** `k in d`. */
  predicate HasKey<V>(ix: Index<V>, k: string) {
    k in Keys(ix)
  }

  /** `d.get(k)`: the value of the first entry with key `k`. */
  function Lookup<V>(ix: Index<V>, k: string): (r: Option<V>)
    ensures r.Some? <==> HasKey(ix, k)
    decreases |ix|
  {
    if |ix| == 0 then None
    else
      assert Keys(ix) == [ix[0].key] + Keys(ix[1..]);
      if ix[0].key == k then Some(ix[0].value) else Lookup(ix[1..], k)
  }

  /** `d[k] = v`. */
  function Put<V>(ix: Index<V>, k: string, v: V): (r: Index<V>)
    ensures |r| == |ix| || |r| == |ix| + 1
    decreases |ix|
  {
    if |ix| == 0 then [Entry(k, v)]
    else if ix[0].key == k then [Entry(k, v)] + ix[1..]
    else [ix[0]] + Put(ix[1..], k, v)
  }

  /** Assigning keeps the key order and appends a new key at the end. */
  lemma {:induction false} PutKeys<V>(ix: Index<V>, k: string, v: V)
    ensures Keys(Put(ix, k, v)) == if HasKey(ix, k) then Keys(ix) else Keys(ix) + [k]
    decreases |ix|
  {
    if |ix| > 0 {
      KeysCons(ix[0], ix[1..]);
      assert [ix[0]] + ix[1..] == ix;
      if ix[0].key == k {
        KeysCons(Entry(k, v), ix[1..]);
      } else {
        PutKeys(ix[1..], k, v);
        KeysCons(ix[0], Put(ix[1..], k, v));
      }
    }
  }

  lemma KeysCons<V>(e: Entry<V>, ix: Index<V>)
    ensures Keys([e] + ix) == [e.key] + Keys(ix)
  {
  }

  /** After `d[k] = v`, `d[k]` is `v` and every other key reads as before. */
  lemma {:induction false} PutLookup<V>(ix: Index<V>, k: string, v: V, k': string)
    ensures Lookup(Put(ix, k, v), k') == if k' == k then Some(v) else Lookup(ix, k')
    decreases |ix|
  {
    if |ix| > 0 && ix[0].key != k {
      PutLookup(ix[1..], k, v, k');
      assert ([ix[0]] + Put(ix[1..], k, v))[1..] == Put(ix[1..], k, v);
    }
  }

  /** A dictionary never holds a key twice. */
  lemma PutDistinct<V>(ix: Index<V>, k: string, v: V)
    requires KeysDistinct(ix)
    ensures KeysDistinct(Put(ix, k, v))
  {
    PutKeys(ix, k, v);
    var r := Put(ix, k, v);
    assert forall i :: 0 <= i < |r| ==> r[i].key == Keys(r)[i];
    assert forall i :: 0 <= i < |ix| ==> ix[i].key == Keys(ix)[i];
  }

  /** A value stored by `Put` is either the new one or one that was there. */
  lemma {:induction false} PutValues<V>(ix: Index<V>, k: string, v: V, x: V)
    requires x in Values(Put(ix, k, v))
    ensures x == v || x in Values(ix)
    decreases |ix|
  {
    if |ix| > 0 {
      ValuesCons(ix[0], ix[1..]);
      assert [ix[0]] + ix[1..] == ix;
      if ix[0].key != k {
        ValuesCons(ix[0], Put(ix[1..], k, v));
        if x != ix[0].value {
          PutValues(ix[1..], k, v, x);
        }
      } else {
        ValuesCons(Entry(k, v), ix[1..]);
      }
    }
  }

  lemma ValuesCons<V>(e: Entry<V>, ix: Index<V>)
    ensures Values([e] + ix) == [e.value] + Values(ix)
  {
  }

  /** Every value of a key-distinct index is the one `Lookup` finds under its key. */
  lemma LookupAt<V>(ix: Index<V>, i: nat)
    requires KeysDistinct(ix) && i < |ix|
    ensures Lookup(ix, ix[i].key) == Some(ix[i].value)
    decreases i
  {
    if i > 0 {
      LookupAt(ix[1..], i - 1);
    }
  }

  // ---------------------------------------------------------------------
  // Building an index from a list: `{key(x): x for x in xs}` and `for x in xs: d[key(x)] = x`
  // ---------------------------------------------------------------------

  /** Assigns `d[keyOf(x)] = x` for each `x` of `xs` in order. */
  function PutAll<V>(ix: Index<V>, xs: seq<V>, keyOf: V -> string): Index<V>
    decreases |xs|
  {
    if |xs| == 0 then ix
    else Put(PutAll(ix, xs[..|xs| - 1], keyOf), keyOf(xs[|xs| - 1]), xs[|xs| - 1])
  }

  /** The last element of `xs` whose key is `k`. */
  function LastBy<V>(xs: seq<V>, keyOf: V -> string, k: string): (r: Option<V>)
    ensures r.Some? ==> r.value in xs && keyOf(r.value) == k
    ensures r.None? ==> forall i :: 0 <= i < |xs| ==> keyOf(xs[i]) != k
    decreases |xs|
  {
    if |xs| == 0 then None
    else if keyOf(xs[|xs| - 1]) == k then Some(xs[|xs| - 1])
    else
      var r := LastBy(xs[..|xs| - 1], keyOf, k);
      assert forall i :: 0 <= i < |xs| - 1 ==> xs[..|xs| - 1][i] == xs[i];
      r
  }

  /** Keys that appear in `ks`, each once, in order of first appearance. */
  function FirstOccurrences(ks: seq<string>): (r: seq<string>)
    ensures forall k :: k in r <==> k in ks
    decreases |ks|
  {
    if |ks| == 0 then []
    else
      var r := FirstOccurrences(ks[..|ks| - 1]);
      assert forall k :: k in ks <==> k in ks[..|ks| - 1] || k == ks[|ks| - 1];
      if ks[|ks| - 1] in r then r else r + [ks[|ks| - 1]]
  }

  function KeyList<V>(xs: seq<V>, keyOf: V -> string): seq<string> {
    seq(|xs|, i requires 0 <= i < |xs| => keyOf(xs[i]))
  }

  lemma KeyListMember<V>(xs: seq<V>, keyOf: V -> string, k: string)
    ensures k in KeyList(xs, keyOf) <==> exists x :: x in xs && keyOf(x) == k
  {
    if exists x :: x in xs && keyOf(x) == k {
      var x :| x in xs && keyOf(x) == k;
      var i :| 0 <= i < |xs| && xs[i] == x;
      assert KeyList(xs, keyOf)[i] == k;
    }
  }

  /** Building from `xs`: the keys are those of `xs` in first-appearance
      order after the keys already present, each key holds the last
      element of `xs` with that key, and untouched keys keep their value. */
  lemma {:induction false} PutAllFacts<V>(ix: Index<V>, xs: seq<V>, keyOf: V -> string)
    ensures KeysDistinct(ix) ==>
              Keys(PutAll(ix, xs, keyOf)) == FirstOccurrences(Keys(ix) + KeyList(xs, keyOf))
    ensures forall k :: Lookup(PutAll(ix, xs, keyOf), k)
                        == (if LastBy(xs, keyOf, k).Some? then LastBy(xs, keyOf, k) else Lookup(ix, k))
    ensures KeysDistinct(ix) ==> KeysDistinct(PutAll(ix, xs, keyOf))
    decreases |xs|
  {
    if |xs| == 0 {
      if KeysDistinct(ix) {
        FirstOccurrencesOfDistinct(Keys(ix));
        assert Keys(ix) + KeyList(xs, keyOf) == Keys(ix);
      }
    } else {
      var init := xs[..|xs| - 1];
      var last := xs[|xs| - 1];
      PutAllFacts(ix, init, keyOf);
      var p := PutAll(ix, init, keyOf);
      PutKeys(p, keyOf(last), last);
      if KeysDistinct(ix) {
        PutDistinct(p, keyOf(last), last);
      }
      forall k
        ensures Lookup(Put(p, keyOf(last), last), k)
                == (if LastBy(xs, keyOf, k).Some? then LastBy(xs, keyOf, k) else Lookup(ix, k))
      {
        PutLookup(p, keyOf(last), last, k);
      }
      assert KeyList(xs, keyOf) == KeyList(init, keyOf) + [keyOf(last)];
      assert Keys(ix) + KeyList(xs, keyOf) == (Keys(ix) + KeyList(init, keyOf)) + [keyOf(last)];
    }
  }

  /** Keys of an index with distinct keys, listed without repeats, are a fixed point. */
  lemma {:induction false} FirstOccurrencesOfDistinct(ks: seq<string>)
    requires forall i, j :: 0 <= i < j < |ks| ==> ks[i] != ks[j]
    ensures FirstOccurrences(ks) == ks
    decreases |ks|
  {
    if |ks| > 0 {
      FirstOccurrencesOfDistinct(ks[..|ks| - 1]);
      assert ks[|ks| - 1] !in ks[..|ks| - 1];
      assert ks[..|ks| - 1] + [ks[|ks| - 1]] == ks;
    }
  }

  /** Values of an index whose every entry is stored under `keyOf` of its value. */
  predicate KeyedBy<V>(ix: Index<V>, keyOf: V -> string) {
    forall i :: 0 <= i < |ix| ==> keyOf(ix[i].value) == ix[i].key
  }

  lemma {:induction false} PutAllKeyed<V>(ix: Index<V>, xs: seq<V>, keyOf: V -> string)
    requires KeyedBy(ix, keyOf)
    ensures KeyedBy(PutAll(ix, xs, keyOf), keyOf)
    decreases |xs|
  {
    if |xs| > 0 {
      PutAllKeyed(ix, xs[..|xs| - 1], keyOf);
      PutKeyed(PutAll(ix, xs[..|xs| - 1], keyOf), xs[|xs| - 1], keyOf);
    }
  }

  lemma {:induction false} PutKeyed<V>(ix: Index<V>, x: V, keyOf: V -> string)
    requires KeyedBy(ix, keyOf)
    ensures KeyedBy(Put(ix, keyOf(x), x), keyOf)
    decreases |ix|
  {
    if |ix| > 0 && ix[0].key != keyOf(x) {
      PutKeyed(ix[1..], x, keyOf);
    }
  }

  /** In a keyed index, the keys are the values' keys. */
  lemma KeyedKeys<V>(ix: Index<V>, keyOf: V -> string)
    requires KeyedBy(ix, keyOf)
    ensures Keys(ix) == KeyList(Values(ix), keyOf)
  {
  }

  /** What `Lookup` finds is one of the index's values. */
  lemma {:induction false} LookupIn<V>(ix: Index<V>, k: string)
    requires Lookup(ix, k).Some?
    ensures Lookup(ix, k).value in Values(ix)
    decreases |ix|
  {
    assert Values(ix) == [ix[0].value] + Values(ix[1..]);
    if ix[0].key != k {
      LookupIn(ix[1..], k);
    }
  }

  /** Keys are never removed. */
  lemma PutKeepsKeys<V>(ix: Index<V>, k: string, v: V, k': string)
    requires HasKey(ix, k')
    ensures HasKey(Put(ix, k, v), k')
  {
    PutKeys(ix, k, v);
  }

  /** Building from `xs` adds no value that was not already stored or in `xs`. */
  lemma {:induction false} PutAllValues<V>(ix: Index<V>, xs: seq<V>, keyOf: V -> string, x: V)
    requires x in Values(PutAll(ix, xs, keyOf))
    ensures x in Values(ix) || x in xs
    decreases |xs|
  {
    if |xs| > 0 {
      var init := xs[..|xs| - 1];
      PutValues(PutAll(ix, init, keyOf), keyOf(xs[|xs| - 1]), xs[|xs| - 1], x);
      if x != xs[|xs| - 1] {
        PutAllValues(ix, init, keyOf, x);
      }
    }
  }

  lemma PutAllOne<V>(ix: Index<V>, x: V, keyOf: V -> string)
    ensures PutAll(ix, [x], keyOf) == Put(ix, keyOf(x), x)
  {
    assert [x][..0] == [];
  }
}
