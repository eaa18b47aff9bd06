/** Keyed collections: the in-memory `Map` a service fills with
    `forEach(r => map.set(key(r), r))` before joining, and the backend
    tables, each a map from its conflict key to a row, with the batch
    `upsert(rows, { onConflict })` the services call. */
module Tables {
  import opened Types

  /** The value a Map filled by `set(key(r), r)` in list order holds for k:
      the last element with that key. */
  function LastWith<T, K(==)>(s: seq<T>, key: T -> K, k: K): Option<T>
  {
    if |s| == 0 then None
    else if key(s[|s| - 1]) == k then Some(s[|s| - 1])
    else LastWith(s[..|s| - 1], key, k)
  }

  /** s[i] is the last element of s with key k. */
  ghost predicate IsLastWith<T, K>(s: seq<T>, key: T -> K, k: K, i: int)
  {
    0 <= i < |s| && key(s[i]) == k &&
    forall j :: i < j < |s| ==> key(s[j]) != k
  }

  /** The lookup finds nothing exactly when no element has the key, and
      otherwise finds the last element with that key. */
  lemma {:induction false} LastWithSpec<T, K>(s: seq<T>, key: T -> K, k: K)
    ensures LastWith(s, key, k).None? <==> forall i :: 0 <= i < |s| ==> key(s[i]) != k
    ensures LastWith(s, key, k).Some? ==>
      exists i :: IsLastWith(s, key, k, i) && s[i] == LastWith(s, key, k).value
  {
    if |s| > 0 {
      var p := s[..|s| - 1];
      LastWithSpec(p, key, k);
      if key(s[|s| - 1]) == k {
        assert IsLastWith(s, key, k, |s| - 1);
      } else if LastWith(p, key, k).Some? {
        var i :| IsLastWith(p, key, k, i) && p[i] == LastWith(p, key, k).value;
        assert IsLastWith(s, key, k, i);
      } else {
        assert forall i :: 0 <= i < |p| ==> p[i] == s[i];
      }
    }
  }

  /** The forEach that fills a Map: each element is stored under its key,
      a later element replacing an earlier one. */
  method BuildIndex<T, K(==)>(s: seq<T>, key: T -> K) returns (m: map<K, T>)
    ensures forall k :: k in m <==> LastWith(s, key, k).Some?
    ensures forall k :: k in m ==> m[k] == LastWith(s, key, k).value
  {
    m := map[];
    var i := 0;
    while i < |s|
      invariant 0 <= i <= |s|
      invariant forall k :: k in m <==> LastWith(s[..i], key, k).Some?
      invariant forall k :: k in m ==> m[k] == LastWith(s[..i], key, k).value
    {
      assert s[..i + 1][..i] == s[..i];
      m := m[key(s[i]) := s[i]];
      i := i + 1;
    }
    assert s[..|s|] == s;
  }

  /** `map.get(k)`, undefined being None. */
  function Get<K, V>(m: map<K, V>, k: K): (r: Option<V>)
    ensures r.Some? <==> k in m
    ensures r.Some? ==> r.value == m[k]
  {
    if k in m then Some(m[k]) else None
  }

  /** Two elements of one batch carry the same conflict key. */
  predicate HasDuplicateKey<R, K(==)>(batch: seq<R>, key: R -> K)
  {
    exists i, j :: 0 <= i < j < |batch| && key(batch[i]) == key(batch[j])
  }

  /** Some element of the batch carries key k. */
  ghost predicate InBatch<R, K>(batch: seq<R>, key: R -> K, k: K)
  {
    exists i :: 0 <= i < |batch| && key(batch[i]) == k
  }

  /** The table with each element of the batch written under its key;
      `write` gives the new row from the row already stored, if any, and the
      supplied columns. */
  function WriteAll<R, K(==), V>(rows: map<K, V>, batch: seq<R>, key: R -> K,
                                   write: (Option<V>, R) -> V): map<K, V>
    decreases |batch|
  {
    if |batch| == 0 then rows
    else WriteAll(rows[key(batch[0]) := write(Get(rows, key(batch[0])), batch[0])], batch[1..], key, write)
  }

  /** Writing a batch without repeated keys: every batch key holds the row
      written from the row stored before, and every other key is untouched. */
  lemma {:induction false} WriteAllSpec<R, K, V>(rows: map<K, V>, batch: seq<R>, key: R -> K,
                                                 write: (Option<V>, R) -> V)
    requires !HasDuplicateKey(batch, key)
    ensures forall i :: 0 <= i < |batch| ==>
      Get(WriteAll(rows, batch, key, write), key(batch[i])) == Some(write(Get(rows, key(batch[i])), batch[i]))
    ensures forall k :: !InBatch(batch, key, k) ==> Get(WriteAll(rows, batch, key, write), k) == Get(rows, k)
    decreases |batch|
  {
    if |batch| > 0 {
      var b := batch[0];
      var rest := batch[1..];
      var rows' := rows[key(b) := write(Get(rows, key(b)), b)];
      assert forall i :: 0 <= i < |rest| ==> rest[i] == batch[i + 1];
      assert !HasDuplicateKey(rest, key) by {
        forall i, j | 0 <= i < j < |rest|
          ensures key(rest[i]) != key(rest[j])
        {
          assert key(batch[i + 1]) != key(batch[j + 1]);
        }
      }
      WriteAllSpec(rows', rest, key, write);
      forall i | 0 <= i < |rest|
        ensures key(rest[i]) != key(b)
      {
        assert key(batch[0]) != key(batch[i + 1]);
      }
      assert !InBatch(rest, key, key(b));
    }
  }

  /** The message Postgres gives when one upsert names a key twice. */
  const DuplicateKeyError := "ON CONFLICT DO UPDATE command cannot affect row a second time"

  /** `upsert(batch, { onConflict })`: refused when two elements share a
      conflict key, otherwise every element is inserted or written over the
      stored row. */
  function Upsert<R, K(==), V>(rows: map<K, V>, batch: seq<R>, key: R -> K,
                                 write: (Option<V>, R) -> V): Result<map<K, V>>
  {
    if HasDuplicateKey(batch, key) then Err(DuplicateKeyError)
    else Ok(WriteAll(rows, batch, key, write))
  }

  /** The upsert succeeds exactly when the conflict keys of the batch are
      distinct; then it writes every batch key from the row stored before
      and leaves every other key alone. */
  lemma UpsertSpec<R, K, V>(rows: map<K, V>, batch: seq<R>, key: R -> K, write: (Option<V>, R) -> V)
    ensures Upsert(rows, batch, key, write).Ok? <==> !HasDuplicateKey(batch, key)
    ensures Upsert(rows, batch, key, write).Ok? ==>
      (forall i :: 0 <= i < |batch| ==>
        Get(Upsert(rows, batch, key, write).value, key(batch[i])) == Some(write(Get(rows, key(batch[i])), batch[i]))) &&
      (forall k :: !InBatch(batch, key, k) ==>
        Get(Upsert(rows, batch, key, write).value, k) == Get(rows, k))
  {
    if !HasDuplicateKey(batch, key) {
      WriteAllSpec(rows, batch, key, write);
    }
  }
}
