/** The table declared by `create_table` in cassandraBirdsClient.py, as an
    abstract value: partition key `(bird_id, bucket_date)`, clustering column
    `ts` in descending order. A TimeUUID is modelled by its time component,
    and `now()` by a store clock that is later than every stored `ts`. */
module Store {

  /** The partition key `(bird_id, bucket_date)`; a DATE is a day number. */
  datatype Key = Key(birdId: string, bucketDate: int)

  /** One row with all six columns of the table. */
  datatype Row = Row(birdId: string, bucketDate: int, ts: nat, species: string,
                     latitude: real, longitude: real)

  /** Each partition holds its rows newest first; `clock` is what `now()`
      yields next. */
  datatype Table = Table(partitions: map<Key, seq<Row>>, clock: nat)

  function KeyOf(r: Row): Key { Key(r.birdId, r.bucketDate) }

  const Empty: Table := Table(map[], 0)

  /** Clustering order `ts DESC`: strictly decreasing timestamps. */
  predicate NewestFirst(rows: seq<Row>)
  {
    forall i, j :: 0 <= i < j < |rows| ==> rows[i].ts > rows[j].ts
  }

  /** A stored partition is non-empty, ordered, holds only rows of its own
      key, and its newest row (hence every row) is older than the clock. */
  predicate PartitionValid(k: Key, rows: seq<Row>, clock: nat)
  {
    && |rows| > 0
    && NewestFirst(rows)
    && rows[0].ts < clock
    && forall i :: 0 <= i < |rows| ==> KeyOf(rows[i]) == k
  }

  predicate Valid(t: Table)
  {
    forall k :: k in t.partitions ==> PartitionValid(k, t.partitions[k], t.clock)
  }

  lemma {:induction false} EmptyValid()
    ensures Valid(Empty)
  {
  }

  /** The rows of one partition; a partition that was never written is empty. */
  function Partition(t: Table, k: Key): seq<Row>
  {
    if k in t.partitions then t.partitions[k] else []
  }

  /** Places a row by its clustering column; a row with the same `ts` is
      overwritten, as a write to an existing primary key is in CQL. */
  function Upsert(rows: seq<Row>, r: Row): (res: seq<Row>)
    ensures r in res && |res| <= |rows| + 1
  {
    if |rows| == 0 || r.ts > rows[0].ts then [r] + rows
    else if r.ts == rows[0].ts then [r] + rows[1..]
    else [rows[0]] + Upsert(rows[1..], r)
  }

  /** The head of a partition in clustering order is its newest row. */
  lemma {:induction false} HeadIsNewest(rows: seq<Row>)
    requires NewestFirst(rows) && |rows| > 0
    ensures NewestFirst(rows[1..])
    ensures forall x :: x in rows[1..] ==> x.ts < rows[0].ts
    ensures forall x :: x in rows <==> x == rows[0] || x in rows[1..]
  {
    assert rows == [rows[0]] + rows[1..];
    forall x | x in rows[1..] ensures x.ts < rows[0].ts {
      var i :| 0 <= i < |rows[1..]| && rows[1..][i] == x;
      assert rows[i + 1] == x;
    }
  }

  /** A row newer than every row of an ordered partition can go in front. */
  lemma {:induction false} NewerInFront(x: Row, rows: seq<Row>)
    requires NewestFirst(rows)
    requires forall y :: y in rows ==> y.ts < x.ts
    ensures NewestFirst([x] + rows)
  {
    var res := [x] + rows;
    forall i, j | 0 <= i < j < |res| ensures res[i].ts > res[j].ts {
      assert res[j] == rows[j - 1];
      if i == 0 {
        assert rows[j - 1] in rows;
      }
    }
  }

  /** On a partition in clustering order, an upsert keeps the order, and the
      rows afterwards are the new one plus every old row with another `ts`. */
  lemma {:induction false} UpsertKeepsOrder(rows: seq<Row>, r: Row)
    requires NewestFirst(rows)
    ensures NewestFirst(Upsert(rows, r))
    ensures forall x :: x in Upsert(rows, r) <==> x == r || (x in rows && x.ts != r.ts)
  {
    if |rows| == 0 {
    } else if r.ts > rows[0].ts {
      HeadIsNewest(rows);
      NewerInFront(r, rows);
    } else if r.ts == rows[0].ts {
      HeadIsNewest(rows);
      NewerInFront(r, rows[1..]);
    } else {
      HeadIsNewest(rows);
      UpsertKeepsOrder(rows[1..], r);
      NewerInFront(rows[0], Upsert(rows[1..], r));
    }
  }

  /** A write of one row: it lands in its partition and the clock moves past
      its timestamp. */
  function Insert(t: Table, r: Row): (u: Table)
    ensures u.clock == if r.ts < t.clock then t.clock else r.ts + 1
    ensures u.partitions.Keys == t.partitions.Keys + {KeyOf(r)}
  {
    Table(t.partitions[KeyOf(r) := Upsert(Partition(t, KeyOf(r)), r)],
          if r.ts < t.clock then t.clock else r.ts + 1)
  }

  /** A write leaves every other partition as it was. */
  lemma {:induction false} InsertElsewhere(t: Table, r: Row, k: Key)
    requires k != KeyOf(r)
    ensures Partition(Insert(t, r), k) == Partition(t, k)
  {
  }

  /** A write keeps the table valid, and its partition then holds the new row
      and every earlier row with another `ts`. */
  lemma {:induction false} InsertKeepsValid(t: Table, r: Row)
    requires Valid(t)
    ensures Valid(Insert(t, r))
    ensures forall x :: x in Partition(Insert(t, r), KeyOf(r)) <==>
              x == r || (x in Partition(t, KeyOf(r)) && x.ts != r.ts)
  {
    var k := KeyOf(r);
    var rows := Upsert(Partition(t, k), r);
    UpsertKeepsOrder(Partition(t, k), r);
    var u := Insert(t, r);
    assert forall i :: 0 <= i < |rows| ==> rows[i] == r || rows[i] in Partition(t, k);
    if k in t.partitions {
      assert t.partitions[k][0] in t.partitions[k];
      assert forall x :: x in t.partitions[k] ==> x.ts <= t.partitions[k][0].ts by {
        forall x | x in t.partitions[k] ensures x.ts <= t.partitions[k][0].ts {
          var i :| 0 <= i < |t.partitions[k]| && t.partitions[k][i] == x;
        }
      }
    }
    assert rows[0] in rows;
    assert PartitionValid(k, rows, u.clock);
  }

  /** A write stamped with `now()` becomes the newest row of its partition and
      leaves the rest of the partition as it was. */
  lemma {:induction false} InsertNowIsNewest(t: Table, r: Row)
    requires Valid(t) && r.ts == t.clock
    ensures Partition(Insert(t, r), KeyOf(r)) == [r] + Partition(t, KeyOf(r))
    ensures Insert(t, r).clock == t.clock + 1
  {
    var rows := Partition(t, KeyOf(r));
    if |rows| > 0 {
      assert rows[0] in t.partitions[KeyOf(r)];
    }
  }
}
