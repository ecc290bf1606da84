/**
  The example values built by the synthesizer: a small JSON tree that stands in
  for the Jackson `ObjectNode` / `ArrayNode` / POJO values of restdoc's `ASTResolvedType`.
  An object is an ordered sequence of key/value entries; `Put` overwrites the
  value of a key that is already present (keeping its position) and appends a
  new key at the end, as an insertion-ordered map does.
 */
module Json {

  datatype Option<T> = None | Some(value: T)

  datatype Json =
    | JNull
    | JNum(n: int)
    | JStr(s: string)
    | JArr(items: seq<Json>)
    | JObj(entries: seq<(string, Json)>)

  type Entries = seq<(string, Json)>

  /** The set of keys of an entry sequence. */
  function Keys(e: Entries): set<string>
  {
    set i | 0 <= i < |e| :: e[i].0
  }

  lemma KeysCons(x: (string, Json), e: Entries)
    ensures Keys([x] + e) == {x.0} + Keys(e)
  {
    var c := [x] + e;
    forall k | k in Keys(c) ensures k in {x.0} + Keys(e) {
      var i :| 0 <= i < |c| && c[i].0 == k;
      if i > 0 { assert e[i - 1] == c[i]; }
    }
    forall k | k in Keys(e) ensures k in Keys(c) {
      var i :| 0 <= i < |e| && e[i].0 == k;
      assert c[i + 1] == e[i];
    }
    assert c[0] == x;
  }

  /** No key occurs twice. */
  predicate DistinctKeys(e: Entries)
  {
    forall i, j :: 0 <= i < j < |e| ==> e[i].0 != e[j].0
  }

  /** The value stored under `k`, looking at the first entry with that key. */
  function Lookup(e: Entries, k: string): Option<Json>
  {
    if e == [] then None
    else if e[0].0 == k then Some(e[0].1)
    else Lookup(e[1..], k)
  }

  /** A key is found exactly when it is one of the keys. */
  lemma {:induction false} LookupFound(e: Entries, k: string)
    ensures Lookup(e, k).Some? <==> k in Keys(e)
  {
    if e != [] {
      KeysCons(e[0], e[1..]);
      assert e == [e[0]] + e[1..];
      if e[0].0 != k {
        LookupFound(e[1..], k);
      }
    }
  }

  /** `ObjectNode.putPOJO`: store `v` under `k`, in place when `k` is already a key. */
  function Put(e: Entries, k: string, v: Json): Entries
  {
    if e == [] then [(k, v)]
    else if e[0].0 == k then [(k, v)] + e[1..]
    else [e[0]] + Put(e[1..], k, v)
  }

  /** After a put the key maps to the new value and every other key keeps its value. */
  lemma {:induction false} PutLookup(e: Entries, k: string, v: Json)
    ensures Keys(Put(e, k, v)) == Keys(e) + {k}
    ensures Lookup(Put(e, k, v), k) == Some(v)
    ensures forall k' :: k' != k ==> Lookup(Put(e, k, v), k') == Lookup(e, k')
  {
    if e == [] {
      KeysCons((k, v), []);
    } else if e[0].0 == k {
      KeysCons(e[0], e[1..]);
      KeysCons((k, v), e[1..]);
      assert e == [e[0]] + e[1..];
    } else {
      PutLookup(e[1..], k, v);
      KeysCons(e[0], e[1..]);
      KeysCons(e[0], Put(e[1..], k, v));
      assert e == [e[0]] + e[1..];
    }
  }

  /** A put adds no entry other than `(k, v)`. */
  lemma {:induction false} PutEntries(e: Entries, k: string, v: Json)
    ensures forall i :: 0 <= i < |Put(e, k, v)| ==> Put(e, k, v)[i] == (k, v) || Put(e, k, v)[i] in e
  {
    if e != [] {
      var r := Put(e, k, v);
      if e[0].0 == k {
        forall i | 0 <= i < |r| ensures r[i] == (k, v) || r[i] in e {
          if i > 0 { assert r[i] == e[i]; }
        }
      } else {
        var tail := Put(e[1..], k, v);
        PutEntries(e[1..], k, v);
        forall i | 0 <= i < |r| ensures r[i] == (k, v) || r[i] in e {
          if i > 0 { assert r[i] == tail[i - 1]; }
        }
      }
    }
  }

  /** Distinct keys stay distinct in the tail, and the head key is not among them. */
  lemma DistinctTail(e: Entries)
    requires e != [] && DistinctKeys(e)
    ensures DistinctKeys(e[1..]) && e[0].0 !in Keys(e[1..])
  {
  }

  /** A fresh key in front of distinct keys keeps them distinct. */
  lemma ConsDistinct(x: (string, Json), t: Entries)
    requires DistinctKeys(t) && x.0 !in Keys(t)
    ensures DistinctKeys([x] + t)
  {
    var r := [x] + t;
    forall i, j | 0 <= i < j < |r| ensures r[i].0 != r[j].0 {
      assert r[j] == t[j - 1];
      if i == 0 {
        assert r[j].0 in Keys(t);
      } else {
        assert r[i] == t[i - 1];
      }
    }
  }

  /** A put never introduces a duplicate key. */
  lemma {:induction false} PutDistinct(e: Entries, k: string, v: Json)
    requires DistinctKeys(e)
    ensures DistinctKeys(Put(e, k, v))
  {
    if e != [] {
      DistinctTail(e);
      if e[0].0 == k {
        ConsDistinct((k, v), e[1..]);
      } else {
        PutDistinct(e[1..], k, v);
        PutLookup(e[1..], k, v);
        ConsDistinct(e[0], Put(e[1..], k, v));
      }
    }
  }


  /** No object anywhere in the tree has a repeated key. */
  predicate WellFormed(j: Json)
  {
    match j
    case JArr(items) => forall i :: 0 <= i < |items| ==> WellFormed(items[i])
    case JObj(es) => DistinctKeys(es) && forall i :: 0 <= i < |es| ==> WellFormed(es[i].1)
    case _ => true
  }
}
