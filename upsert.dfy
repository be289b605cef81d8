/** The H2 statement `MERGE INTO T (cols) KEY (k) VALUES (...)` that both loaders' writers
    issue: a row whose key column matches is updated, otherwise a row is inserted. A table
    is a map from the key to its row; inserted rows receive the next surrogate id. */
module Upsert {
  import opened Wrappers

  datatype Row<V> = Row(id: nat, columns: V)

  datatype Table<K, V> = Table(rows: map<K, Row<V>>, nextId: nat)

  /** Surrogate ids are distinct and below the next id to hand out. */
  ghost predicate WellFormed<K, V>(t: Table<K, V>) {
    && (forall k | k in t.rows :: t.rows[k].id < t.nextId)
    && (forall k1, k2 | k1 in t.rows && k2 in t.rows && k1 != k2 :: t.rows[k1].id != t.rows[k2].id)
  }

  /** One MERGE of the row `(key, columns)`. */
  function Merge<K, V>(t: Table<K, V>, key: K, columns: V): (r: Table<K, V>)
    ensures key in r.rows && r.rows[key].columns == columns
    ensures r.rows.Keys == t.rows.Keys + {key}
    ensures key in t.rows ==> r.rows[key].id == t.rows[key].id && r.nextId == t.nextId
    ensures key !in t.rows ==> r.rows[key].id == t.nextId && r.nextId == t.nextId + 1
    ensures forall k | k in t.rows && k != key :: r.rows[k] == t.rows[k]
    ensures WellFormed(t) ==> WellFormed(r)
  {
    if key in t.rows then Table(t.rows[key := Row(t.rows[key].id, columns)], t.nextId)
    else Table(t.rows[key := Row(t.nextId, columns)], t.nextId + 1)
  }

  /** The MERGEs of a batch of rows, in order. */
  function MergeAll<K, V>(t: Table<K, V>, items: seq<(K, V)>): (r: Table<K, V>)
    ensures t.rows.Keys <= r.rows.Keys && t.nextId <= r.nextId
  {
    if items == [] then t
    else
      var last := items[|items| - 1];
      Merge(MergeAll(t, items[..|items| - 1]), last.0, last.1)
  }

  /** The columns of the last item written under `k`, if any. */
  function LastFor<K(==), V>(items: seq<(K, V)>, k: K): Option<V>
  {
    if items == [] then None
    else if items[|items| - 1].0 == k then Some(items[|items| - 1].1)
    else LastFor(items[..|items| - 1], k)
  }

  /** Merging two batches one after the other is merging their concatenation. */
  lemma {:induction false} MergeAllAppend<K, V>(t: Table<K, V>, a: seq<(K, V)>, b: seq<(K, V)>)
    ensures MergeAll(MergeAll(t, a), b) == MergeAll(t, a + b)
    decreases |b|
  {
    if b != [] {
      MergeAllAppend(t, a, b[..|b| - 1]);
      assert (a + b)[..|a + b| - 1] == a + b[..|b| - 1];
      assert (a + b)[|a + b| - 1] == b[|b| - 1];
    } else {
      assert a + b == a;
    }
  }

  /** Row by row, the outcome of a batch: the last write under a key wins, an existing
      row keeps its id, and rows no item names are untouched. */
  lemma {:induction false} MergeAllAt<K, V>(t: Table<K, V>, items: seq<(K, V)>, k: K)
    ensures k in MergeAll(t, items).rows <==> k in t.rows || LastFor(items, k).Some?
    ensures LastFor(items, k).Some? ==>
              MergeAll(t, items).rows[k].columns == LastFor(items, k).value
    ensures k in t.rows ==> MergeAll(t, items).rows[k].id == t.rows[k].id
    ensures LastFor(items, k).None? && k in t.rows ==> MergeAll(t, items).rows[k] == t.rows[k]
  {
    if items != [] {
      MergeAllAt(t, items[..|items| - 1], k);
    }
  }

  /** The last write under a key is one of the batch's items. */
  lemma {:induction false} LastForSome<K, V>(items: seq<(K, V)>, k: K)
    requires LastFor(items, k).Some?
    ensures exists i | 0 <= i < |items| :: items[i] == (k, LastFor(items, k).value)
  {
    var n := |items| - 1;
    if items[n].0 != k {
      LastForSome(items[..n], k);
      var i :| 0 <= i < n && items[..n][i] == (k, LastFor(items, k).value);
      assert items[i] == items[..n][i];
    }
  }

  /** Every row after a batch is either untouched or holds the columns of an item written
      under its key. */
  lemma MergeAllRowOrigin<K, V>(t: Table<K, V>, items: seq<(K, V)>, k: K)
    requires k in MergeAll(t, items).rows
    ensures || (k in t.rows && MergeAll(t, items).rows[k] == t.rows[k])
            || exists i | 0 <= i < |items| :: items[i] == (k, MergeAll(t, items).rows[k].columns)
  {
    MergeAllAt(t, items, k);
    if LastFor(items, k).Some? {
      LastForSome(items, k);
    }
  }

  /** A batch whose keys all exist already inserts nothing. */
  lemma {:induction false} MergeAllExistingKeys<K, V>(t: Table<K, V>, items: seq<(K, V)>)
    requires forall i | 0 <= i < |items| :: items[i].0 in t.rows
    ensures MergeAll(t, items).nextId == t.nextId
    ensures MergeAll(t, items).rows.Keys == t.rows.Keys
  {
    if items != [] {
      MergeAllExistingKeys(t, items[..|items| - 1]);
    }
  }

  /** Every key a batch writes is present afterwards. */
  lemma {:induction false} MergeAllContainsKeys<K, V>(t: Table<K, V>, items: seq<(K, V)>)
    ensures forall i | 0 <= i < |items| :: items[i].0 in MergeAll(t, items).rows
    ensures t.rows.Keys <= MergeAll(t, items).rows.Keys
  {
    if items != [] {
      MergeAllContainsKeys(t, items[..|items| - 1]);
    }
  }

  /** MERGE keeps the surrogate ids distinct. */
  lemma {:induction false} MergeAllWellFormed<K, V>(t: Table<K, V>, items: seq<(K, V)>)
    requires WellFormed(t)
    ensures WellFormed(MergeAll(t, items))
  {
    if items != [] {
      MergeAllWellFormed(t, items[..|items| - 1]);
    }
  }

  /** Writing the same batch a second time leaves the table as the first write left it. */
  lemma MergeAllIdempotent<K, V>(t: Table<K, V>, items: seq<(K, V)>)
    ensures MergeAll(MergeAll(t, items), items) == MergeAll(t, items)
  {
    var once := MergeAll(t, items);
    var twice := MergeAll(once, items);
    MergeAllContainsKeys(t, items);
    MergeAllExistingKeys(once, items);
    forall k | k in once.rows
      ensures twice.rows[k] == once.rows[k]
    {
      MergeAllAt(once, items, k);
      MergeAllAt(t, items, k);
    }
    assert twice.rows == once.rows;
  }

  /** The table a writer keeps: the rows of one database table. */
  class MergeTable<K(==), V> {
    var rows: map<K, Row<V>>
    var nextId: nat

    function State(): Table<K, V>
      reads this
    {
      Table(rows, nextId)
    }

    constructor (initial: Table<K, V>)
      ensures State() == initial
    {
      rows := initial.rows;
      nextId := initial.nextId;
    }

    /** JdbcBatchItemWriter.write: the MERGE statement once per item of the chunk. */
    method MergeChunk(items: seq<(K, V)>)
      modifies this
      ensures State() == MergeAll(old(State()), items)
    {
      var i := 0;
      while i < |items|
        invariant 0 <= i <= |items|
        invariant State() == MergeAll(old(State()), items[..i])
      {
        var (key, columns) := items[i];
        var t := Merge(State(), key, columns);
        rows, nextId := t.rows, t.nextId;
        assert items[..i + 1][..i] == items[..i];
        i := i + 1;
      }
      assert items[..i] == items;
    }
  }
}
