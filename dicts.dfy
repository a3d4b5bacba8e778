/** The Python dicts from mail id to outcome used by the evaluation: a map
    together with the keys' insertion order, which `.keys()` and
    `.values()` follow. */
module Dicts {

  datatype Dict = Dict(order: seq<string>, entries: map<string, int>)

  predicate Distinct(keys: seq<string>) {
    forall i, j :: 0 <= i < j < |keys| ==> keys[i] != keys[j]
  }

  /** The insertion order lists every key once. */
  predicate Valid(d: Dict) {
    && Distinct(d.order)
    && (forall k :: k in d.entries ==> k in d.order)
    && (forall k :: k in d.order ==> k in d.entries)
  }

  const Empty: Dict := Dict([], map[])

  /** `d[k] = v`: a new key goes to the end of the order, an existing key
      keeps its place. */
  function Put(d: Dict, k: string, v: int): Dict
  {
    if k in d.entries then Dict(d.order, d.entries[k := v]) else Dict(d.order + [k], d.entries[k := v])
  }

  /** Setting a key keeps every key listed once, and sets only that key. */
  lemma PutValid(d: Dict, k: string, v: int)
    requires Valid(d)
    ensures Valid(Put(d, k, v))
    ensures Put(d, k, v).entries[k] == v
    ensures forall x :: x in d.entries && x != k ==>
              x in Put(d, k, v).entries && Put(d, k, v).entries[x] == d.entries[x]
  {
    if k !in d.entries {
      assert k !in d.order;
    }
  }

  /** A key not yet listed goes to the end of the order. */
  lemma PutNew(d: Dict, k: string, v: int)
    requires Valid(d) && k !in d.order
    ensures Put(d, k, v).order == d.order + [k]
    ensures Valid(Put(d, k, v))
  {
    PutValid(d, k, v);
  }

  /** The sum of the entries of `keys`, in order. */
  function SumOver(keys: seq<string>, entries: map<string, int>): int
    requires forall k :: k in keys ==> k in entries
  {
    if keys == [] then 0
    else SumOver(keys[..|keys| - 1], entries) + entries[keys[|keys| - 1]]
  }

  /** `sum(d.values())` */
  function Sum(d: Dict): int
    requires Valid(d)
  {
    SumOver(d.order, d.entries)
  }

  /** Overwriting a key outside `keys` leaves their sum alone. */
  lemma {:induction false} SumOverUpdateElsewhere(keys: seq<string>, entries: map<string, int>,
                                                   k: string, v: int)
    requires forall x :: x in keys ==> x in entries
    requires k !in keys
    ensures SumOver(keys, entries[k := v]) == SumOver(keys, entries)
  {
    if keys != [] {
      SumOverUpdateElsewhere(keys[..|keys| - 1], entries, k, v);
    }
  }
}
