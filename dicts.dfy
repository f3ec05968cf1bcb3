/**
 * Python dictionaries keyed by scenario name, filled by a loop that runs
 * `d[key] = f(key)` over a list of keys and stops at the first exception.
 */
module Dicts {
  import opened Wrappers
  import opened Errors

  /** A dict: its entries and its keys in insertion order. */
  datatype Dict<V> = Dict(order: seq<string>, entries: map<string, V>) {
    /** Every key listed once, and the listed keys are the keys. */
    ghost predicate Valid() {
      (forall k :: k in order <==> k in entries) &&
      (forall a, b :: 0 <= a < b < |order| ==> order[a] != order[b])
    }
  }

  /** Two results that both raise, or both succeed with the same value. */
  ghost predicate Alike<V>(a: Result<V, Error>, b: Result<V, Error>) {
    a.Success? == b.Success? && (a.Success? ==> a.value == b.value)
  }

  /** d[key] = value: a new key goes last, an existing key keeps its place. */
  function Insert<V>(d: Dict<V>, key: string, value: V): Dict<V> {
    if key in d.entries then Dict(d.order, d.entries[key := value])
    else Dict(d.order + [key], d.entries[key := value])
  }

  /** Inserting keeps every key listed once, and lists exactly the keys. */
  lemma InsertValid<V>(d: Dict<V>, key: string, value: V)
    requires d.Valid()
    ensures Insert(d, key, value).Valid()
  {
  }

  /** The dict after `d[key] = f(key)` for the first k keys, or the first error raised. */
  function Collect<V>(f: string -> Result<V, Error>, keys: seq<string>, k: nat): Result<Dict<V>, Error>
    requires k <= |keys|
  {
    if k == 0 then Success(Dict([], map[]))
    else
      var prev :- Collect(f, keys, k - 1);
      var entry :- f(keys[k - 1]);
      Success(Insert(prev, keys[k - 1], entry))
  }

  /** A completed loop leaves a well-formed dict. */
  lemma {:induction false} CollectValid<V>(f: string -> Result<V, Error>, keys: seq<string>, k: nat)
    requires k <= |keys| && Collect(f, keys, k).Success?
    ensures Collect(f, keys, k).value.Valid()
  {
    if k > 0 {
      CollectValid(f, keys, k - 1);
      InsertValid(Collect(f, keys, k - 1).value, keys[k - 1], f(keys[k - 1]).value);
    }
  }

  /** One more key: its entry is inserted, or its error ends the loop. */
  lemma CollectStep<V>(f: string -> Result<V, Error>, keys: seq<string>, k: nat, d: Dict<V>)
    requires k < |keys| && Collect(f, keys, k) == Success(d)
    ensures f(keys[k]).Failure? ==> Collect(f, keys, k + 1) == Failure(f(keys[k]).error)
    ensures f(keys[k]).Success? ==> Collect(f, keys, k + 1) == Success(Insert(d, keys[k], f(keys[k]).value))
  {
  }

  /** Once a key raises, the loop ends with that error. */
  lemma {:induction false} CollectFailureStays<V>(f: string -> Result<V, Error>, keys: seq<string>, k: nat, m: nat, err: Error)
    requires k <= m <= |keys| && Collect(f, keys, k) == Failure(err)
    ensures Collect(f, keys, m) == Failure(err)
    decreases m - k
  {
    if k < m {
      CollectFailureStays(f, keys, k + 1, m, err);
    }
  }

  /** The loop completes exactly when no key raises. */
  lemma {:induction false} CollectSucceedsIff<V>(f: string -> Result<V, Error>, keys: seq<string>, k: nat)
    requires k <= |keys|
    ensures Collect(f, keys, k).Success? <==> forall j :: 0 <= j < k ==> f(keys[j]).Success?
  {
    if k > 0 {
      CollectSucceedsIff(f, keys, k - 1);
    }
  }

  /**
   * A completed loop holds one entry per listed key and no other, and the
   * entry of a key is f(key), however often the key is listed.
   */
  lemma {:induction false} CollectEntries<V>(f: string -> Result<V, Error>, keys: seq<string>, k: nat)
    requires k <= |keys| && Collect(f, keys, k).Success?
    ensures forall s :: s in Collect(f, keys, k).value.entries <==> s in keys[..k]
    ensures forall s :: s in Collect(f, keys, k).value.entries ==>
      f(s).Success? && Collect(f, keys, k).value.entries[s] == f(s).value
  {
    if k > 0 {
      CollectEntries(f, keys, k - 1);
      assert keys[..k] == keys[..k - 1] + [keys[k - 1]];
    }
  }

  /** With no key listed twice, the keys come out in the order they were listed. */
  lemma {:induction false} CollectOrder<V>(f: string -> Result<V, Error>, keys: seq<string>, k: nat)
    requires k <= |keys| && Collect(f, keys, k).Success?
    requires forall a, b :: 0 <= a < b < |keys| ==> keys[a] != keys[b]
    ensures Collect(f, keys, k).value.order == keys[..k]
  {
    if k > 0 {
      CollectOrder(f, keys, k - 1);
      CollectEntries(f, keys, k - 1);
      assert keys[k - 1] !in keys[..k - 1];
      assert keys[..k] == keys[..k - 1] + [keys[k - 1]];
    }
  }

  /** Two loops over the same keys whose entries come out alike end alike. */
  lemma {:induction false} CollectAlike<V>(f: string -> Result<V, Error>, g: string -> Result<V, Error>, keys: seq<string>, k: nat)
    requires k <= |keys|
    requires forall j :: 0 <= j < k ==> Alike(f(keys[j]), g(keys[j]))
    ensures Alike(Collect(f, keys, k), Collect(g, keys, k))
  {
    if k > 0 {
      CollectAlike(f, g, keys, k - 1);
    }
  }
}
