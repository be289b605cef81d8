/** The incremental data-version counter: one VERSION_COUNT per ENTITY_NAME in the
    DATA_VERSION table, read (a missing row reads as 0), incremented, and written back by an
    UPDATE, or by an INSERT when the UPDATE touched no row. */
module DataVersionService {

  /** The stored count for an entity; a missing row reads as 0. */
  function Counter(counts: map<string, nat>, entity: string): nat {
    if entity in counts then counts[entity] else 0
  }

  /** `UPDATE DATA_VERSION SET VERSION_COUNT = v WHERE ENTITY_NAME = entity`: the number of
      rows it touched and the table it leaves. */
  function Update(counts: map<string, nat>, entity: string, v: nat): (r: (nat, map<string, nat>))
    ensures r.0 == 0 <==> entity !in counts
    ensures r.0 == 0 ==> r.1 == counts
    ensures r.0 != 0 ==> r.1 == counts[entity := v] && r.0 == 1
  {
    if entity in counts then (1, counts[entity := v]) else (0, counts)
  }

  /** `INSERT INTO DATA_VERSION (ENTITY_NAME, VERSION_COUNT) VALUES (entity, v)` into a table
      without a row for the entity. */
  function Insert(counts: map<string, nat>, entity: string, v: nat): (r: map<string, nat>)
    requires entity !in counts
    ensures entity in r && r[entity] == v
    ensures forall e | e in counts :: e in r && r[e] == counts[e]
    ensures forall e | e in r && e != entity :: e in counts
  {
    counts[entity := v]
  }

  /** One call: the value returned and the table left behind. */
  function Next(counts: map<string, nat>, entity: string): (r: (nat, map<string, nat>))
    ensures r.0 > Counter(counts, entity) && Counter(r.1, entity) == r.0
  {
    var v := Counter(counts, entity) + 1;
    (v, counts[entity := v])
  }

  class DataVersionCounter {
    var counts: map<string, nat>

    constructor (initial: map<string, nat>)
      ensures counts == initial
    {
      counts := initial;
    }

    /** Reads the current count, writes back one more by update-or-insert, and returns it. */
    method GetAndIncrementVersion(entity: string) returns (newVersion: nat)
      modifies this
      ensures (newVersion, counts) == Next(old(counts), entity)
    {
      var current: nat := if entity in counts then counts[entity] else 0;
      newVersion := current + 1;
      var (updatedRows, updated) := Update(counts, entity, newVersion);
      counts := updated;
      if updatedRows == 0 {
        counts := Insert(counts, entity, newVersion);
      }
    }
  }

  // ---------------------------------------------------------------------------
  // Properties.
  // ---------------------------------------------------------------------------

  /** One call returns the stored count plus one (1 for a new entity), stores exactly that
      value, and leaves every other entity's row as it was. */
  lemma NextStoresReturnedValue(counts: map<string, nat>, entity: string)
    ensures var (v, counts') := Next(counts, entity);
            && v >= 1
            && (entity !in counts ==> v == 1)
            && (entity in counts ==> v == counts[entity] + 1)
            && Counter(counts', entity) == v
            && (forall e | e != entity :: Counter(counts', e) == Counter(counts, e))
            && counts'.Keys == counts.Keys + {entity}
  {
  }

  /** Occurrences of an entity name in a sequence of requests. */
  function Requests(entities: seq<string>, entity: string): nat
    decreases |entities|
  {
    if entities == [] then 0
    else (if entities[0] == entity then 1 else 0) + Requests(entities[1..], entity)
  }

  /** Successive calls, each seeing the previous call's write: the values returned and the
      final table. */
  function IssueAll(counts: map<string, nat>, entities: seq<string>): (r: (seq<nat>, map<string, nat>))
    ensures |r.0| == |entities|
    decreases |entities|
  {
    if entities == [] then ([], counts)
    else
      var (v, counts') := Next(counts, entities[0]);
      var rest := IssueAll(counts', entities[1..]);
      ([v] + rest.0, rest.1)
  }

  /** Each call returns the count stored before the sequence started, plus one for every
      earlier call for the same entity, plus one; the final count of every entity grows by
      its number of calls. */
  lemma {:induction false} IssuedValues(counts: map<string, nat>, entities: seq<string>)
    ensures forall i | 0 <= i < |entities| ::
              IssueAll(counts, entities).0[i] == Counter(counts, entities[i]) + Requests(entities[..i], entities[i]) + 1
    ensures forall e :: Counter(IssueAll(counts, entities).1, e) == Counter(counts, e) + Requests(entities, e)
    decreases |entities|
  {
    if entities != [] {
      var e0 := entities[0];
      var (v, counts') := Next(counts, e0);
      var tail := entities[1..];
      IssuedValues(counts', tail);
      forall i | 0 <= i < |entities|
        ensures IssueAll(counts, entities).0[i] == Counter(counts, entities[i]) + Requests(entities[..i], entities[i]) + 1
      {
        if i > 0 {
          assert entities[..i][1..] == tail[..i - 1];
          assert IssueAll(counts, entities).0[i] == IssueAll(counts', tail).0[i - 1];
        }
      }
    }
  }

  /** Successive values for one entity rise by exactly one from call to call, and the
      first is the stored count plus one. */
  lemma SuccessiveValuesIncrease(counts: map<string, nat>, entities: seq<string>, i: nat, j: nat)
    requires i < j < |entities| && entities[i] == entities[j]
    ensures IssueAll(counts, entities).0[i] < IssueAll(counts, entities).0[j]
    ensures (forall k | i < k < j :: entities[k] != entities[i]) ==>
              IssueAll(counts, entities).0[j] == IssueAll(counts, entities).0[i] + 1
  {
    IssuedValues(counts, entities);
    RequestsSplit(entities[..j], i, entities[i]);
    assert entities[..j][..i] == entities[..i];
    if forall k | i < k < j :: entities[k] != entities[i] {
      RequestsNone(entities[..j][i + 1..], entities[i]);
    }
  }

  /** Counting the requests of a prefix ending just past index `i`. */
  lemma {:induction false} RequestsSplit(xs: seq<string>, i: nat, e: string)
    requires i < |xs| && xs[i] == e
    ensures Requests(xs, e) == Requests(xs[..i], e) + 1 + Requests(xs[i + 1..], e)
    decreases |xs|
  {
    if i > 0 {
      RequestsSplit(xs[1..], i - 1, e);
      assert xs[..i][1..] == xs[1..][..i - 1];
      assert xs[1..][i..] == xs[i + 1..];
    }
  }

  lemma {:induction false} RequestsNone(xs: seq<string>, e: string)
    requires forall k | 0 <= k < |xs| :: xs[k] != e
    ensures Requests(xs, e) == 0
    decreases |xs|
  {
    if xs != [] {
      RequestsNone(xs[1..], e);
    }
  }
}
