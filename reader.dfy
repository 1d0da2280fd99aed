/** The position reader, cassandraBirdsTracker.py: the id listing of
    `get_all_bird_ids`, the bounded partition read of `get_info_of_bird`, and
    the polling loop of `track_birds`. The rows of the `SELECT DISTINCT`
    scan, `date.today()` and the table the reader sees in each cycle are
    parameters; the result and trace files are a log of read events. */
module Reader {
  import opened Basics
  import opened Text
  import opened Sequences
  import Store

  /** Increasing under Python's string order, hence sorted and free of
      duplicates. */
  predicate StrictlySorted(s: seq<string>)
  {
    forall i, j :: 0 <= i < j < |s| ==> Below(s[i], s[j])
  }

  lemma {:induction false} SortedDistinct(s: seq<string>)
    requires StrictlySorted(s)
    ensures Distinct(s)
  {
    forall i, j | 0 <= i < j < |s| ensures s[i] != s[j] {
      BelowIrreflexive(s[i]);
    }
  }

  /** Each id below the next one is enough for the whole list to be sorted. */
  lemma {:induction false} ChainSorted(s: seq<string>)
    requires forall i :: 0 <= i < |s| - 1 ==> Below(s[i], s[i + 1])
    ensures StrictlySorted(s)
    decreases |s|
  {
    if |s| > 1 {
      ChainSorted(s[1..]);
      forall j | 1 < j < |s| ensures Below(s[0], s[j]) {
        assert s[1..][0] == s[1] && s[1..][j - 1] == s[j];
        BelowTransitive(s[0], s[1], s[j]);
      }
      forall i, j | 0 < i < j < |s| ensures Below(s[i], s[j]) {
        assert s[1..][i - 1] == s[i] && s[1..][j - 1] == s[j];
      }
    }
  }

  /** Two sorted lists with the same elements are the same list: `sorted` of
      a set depends on the set alone. */
  lemma {:induction false} SortedUnique(a: seq<string>, b: seq<string>)
    requires StrictlySorted(a) && StrictlySorted(b)
    requires forall x :: x in a <==> x in b
    ensures a == b
    decreases |a|
  {
    assert |b| == 0 || b[0] in a;
    if |a| > 0 {
      assert a[0] in b && b[0] in a;
      var i :| 0 <= i < |a| && a[i] == b[0];
      var j :| 0 <= j < |b| && b[j] == a[0];
      if i > 0 && j > 0 {
        BelowAsymmetric(a[0], a[i]);
      }
      assert a[0] == b[0];
      forall x ensures x in a[1..] <==> x in b[1..] {
        if x in a[1..] {
          var k :| 0 <= k < |a[1..]| && a[1..][k] == x;
          assert a[k + 1] == x;
          BelowIrreflexive(a[0]);
          assert x in b;
        }
        if x in b[1..] {
          var k :| 0 <= k < |b[1..]| && b[1..][k] == x;
          assert b[k + 1] == x;
          BelowIrreflexive(b[0]);
          assert x in a;
        }
      }
      SortedUnique(a[1..], b[1..]);
      assert a == [a[0]] + a[1..] && b == [b[0]] + b[1..];
    }
  }

  /** Adds one id to a sorted list of ids, leaving it as it is when the id is
      already there. */
  function InsertSorted(s: seq<string>, x: string): (r: seq<string>)
    ensures forall y :: y in r <==> y in s || y == x
  {
    if |s| == 0 then [x]
    else if x == s[0] then s
    else if Below(x, s[0]) then [x] + s
    else [s[0]] + InsertSorted(s[1..], x)
  }

  lemma {:induction false} InsertSortedKeepsOrder(s: seq<string>, x: string)
    requires StrictlySorted(s)
    ensures StrictlySorted(InsertSorted(s, x))
  {
    if |s| == 0 || x == s[0] {
    } else if Below(x, s[0]) {
      var r := [x] + s;
      forall i, j | 0 <= i < j < |r| ensures Below(r[i], r[j]) {
        if i == 0 && j > 1 {
          BelowTransitive(x, s[0], s[j - 1]);
        }
      }
    } else {
      BelowTotal(x, s[0]);
      var rest := InsertSorted(s[1..], x);
      InsertSortedKeepsOrder(s[1..], x);
      var r := [s[0]] + rest;
      forall i, j | 0 <= i < j < |r| ensures Below(r[i], r[j]) {
        if i == 0 {
          assert rest[j - 1] in rest;
          if rest[j - 1] != x {
            var k :| 0 <= k < |s[1..]| && s[1..][k] == rest[j - 1];
            assert s[k + 1] == rest[j - 1];
          }
        }
      }
    }
  }

  /** `{row.bird_id for row in result}`. */
  function IdSet(scan: seq<Store.Key>): set<string>
  {
    set k | k in scan :: k.birdId
  }

  /** `get_all_bird_ids`: `sorted` of the set of ids in the rows of
      `SELECT DISTINCT bird_id, bucket_date`, whatever order they come in. */
  function GetAllBirdIds(scan: seq<Store.Key>): (ids: seq<string>)
    ensures StrictlySorted(ids)
    ensures forall b :: b in ids <==> b in IdSet(scan)
    decreases |scan|
  {
    if |scan| == 0 then []
    else
      var k := |scan| - 1;
      var before := GetAllBirdIds(scan[..k]);
      assert scan == scan[..k] + [scan[k]];
      assert IdSet(scan) == IdSet(scan[..k]) + {scan[k].birdId};
      InsertSortedKeepsOrder(before, scan[k].birdId);
      InsertSorted(before, scan[k].birdId)
  }

  /** The id list depends only on which ids occur: not on the order of the
      scanned rows, nor on how many `bucket_date` partitions a bird has. */
  lemma {:induction false} IdsIgnoreScanOrder(scan1: seq<Store.Key>, scan2: seq<Store.Key>)
    requires IdSet(scan1) == IdSet(scan2)
    ensures GetAllBirdIds(scan1) == GetAllBirdIds(scan2)
  {
    SortedUnique(GetAllBirdIds(scan1), GetAllBirdIds(scan2));
  }

  /** A scan of a whole table lists every partition key. */
  ghost predicate ScanOf(t: Store.Table, scan: seq<Store.Key>)
  {
    (forall k :: k in scan ==> k in t.partitions) && (forall k :: k in t.partitions ==> k in scan)
  }

  /** Over a table, the id list holds exactly the birds with at least one
      partition, each once. */
  lemma {:induction false} TableIds(t: Store.Table, scan: seq<Store.Key>)
    requires ScanOf(t, scan)
    ensures Distinct(GetAllBirdIds(scan))
    ensures forall b :: b in GetAllBirdIds(scan) <==> exists d :: Store.Key(b, d) in t.partitions
  {
    SortedDistinct(GetAllBirdIds(scan));
    forall b ensures b in IdSet(scan) <==> exists d :: Store.Key(b, d) in t.partitions {
      if b in IdSet(scan) {
        var k :| k in scan && k.birdId == b;
        assert Store.Key(b, k.bucketDate) == k;
      }
      if exists d :: Store.Key(b, d) in t.partitions {
        var d :| Store.Key(b, d) in t.partitions;
        assert Store.Key(b, d) in scan;
      }
    }
  }

  /** `get_info_of_bird`: `SELECT * ... WHERE bird_id = ? AND bucket_date = ?
      LIMIT ?`, the first `limit` rows of one partition in clustering order.
      A `LIMIT` that is not positive is refused. */
  function GetInfoOfBird(t: Store.Table, birdId: string, bucketDate: int, limit: int)
    : (r: Result<seq<Store.Row>>)
    ensures r.Err? <==> limit <= 0
    ensures r.Err? ==> r.error == InvalidLimit
    ensures r.Ok? ==> var rows := Store.Partition(t, Store.Key(birdId, bucketDate));
      && |r.value| <= limit
      && r.value <= rows
      && (|r.value| < limit ==> r.value == rows)
  {
    if limit <= 0 then Err(InvalidLimit)
    else
      var rows := Store.Partition(t, Store.Key(birdId, bucketDate));
      Ok(if limit < |rows| then rows[..limit] else rows)
  }

  /** Every row a read returns belongs to the partition that was asked for. */
  lemma {:induction false} ReadStaysInPartition(t: Store.Table, birdId: string, bucketDate: int, limit: int)
    requires Store.Valid(t)
    ensures var r := GetInfoOfBird(t, birdId, bucketDate, limit);
      r.Ok? ==> forall x :: x in r.value ==> x.birdId == birdId && x.bucketDate == bucketDate
  {
    var r := GetInfoOfBird(t, birdId, bucketDate, limit);
    var key := Store.Key(birdId, bucketDate);
    if r.Ok? {
      forall x | x in r.value ensures x.birdId == birdId && x.bucketDate == bucketDate {
        var i :| 0 <= i < |r.value| && r.value[i] == x;
        assert x == Store.Partition(t, key)[i];
        assert Store.KeyOf(x) == key;
      }
    }
  }

  /** With `ts DESC` clustering, a limit-1 read returns the newest row of the
      partition, or nothing when the partition is empty. */
  lemma {:induction false} LimitOneReturnsNewest(t: Store.Table, birdId: string, bucketDate: int)
    requires Store.Valid(t)
    ensures var rows := Store.Partition(t, Store.Key(birdId, bucketDate));
      var r := GetInfoOfBird(t, birdId, bucketDate, 1);
      && r.Ok?
      && (|rows| == 0 ==> r.value == [])
      && (|rows| > 0 ==> r.value == [rows[0]] && forall x :: x in rows ==> x.ts <= rows[0].ts)
  {
    var rows := Store.Partition(t, Store.Key(birdId, bucketDate));
    if |rows| > 0 {
      Store.HeadIsNewest(rows);
    }
  }

  /** One `get_info_of_bird` call of the polling loop: the partition read,
      whether tracing was requested, and the rows written as one line of the
      result file. */
  datatype ReadEvent = ReadEvent(key: Store.Key, traced: bool, rows: seq<Store.Row>)

  function ReadOf(t: Store.Table, birdId: string, day: int, tracedBird: string): (e: ReadEvent)
    ensures e.key == Store.Key(birdId, day) && (e.traced <==> birdId == tracedBird)
  {
    ReadEvent(Store.Key(birdId, day), birdId == tracedBird, GetInfoOfBird(t, birdId, day, 1).value)
  }

  /** The result line of one read holds the newest row of the partition, or
      nothing when the partition is empty. */
  lemma {:induction false} ReadOfNewest(t: Store.Table, birdId: string, day: int, tracedBird: string)
    requires Store.Valid(t)
    ensures var rows := Store.Partition(t, Store.Key(birdId, day));
      ReadOf(t, birdId, day, tracedBird).rows == if |rows| == 0 then [] else [rows[0]]
  {
    LimitOneReturnsNewest(t, birdId, day);
  }

  /** The inner loop of one cycle: each listed bird, in list order, read once
      with the default limit of one row. */
  function CycleReads(t: Store.Table, ids: seq<string>, days: seq<int>, tracedBird: string)
    : (events: seq<ReadEvent>)
    requires |days| == |ids|
    ensures |events| == |ids|
  {
    seq(|ids|, i requires 0 <= i < |ids| => ReadOf(t, ids[i], days[i], tracedBird))
  }

  lemma {:induction false} CycleReadsStep(t: Store.Table, ids: seq<string>, days: seq<int>,
                                          tracedBird: string, i: nat)
    requires |days| == |ids| && i < |ids|
    ensures CycleReads(t, ids[..i + 1], days[..i + 1], tracedBird)
         == CycleReads(t, ids[..i], days[..i], tracedBird) + [ReadOf(t, ids[i], days[i], tracedBird)]
  {
  }

  /** All cycles of the polling loop, cycle `c` reading the table as it is in
      `tables[c]` on the days in `days[c]`. */
  function TrackingReads(tables: seq<Store.Table>, ids: seq<string>, days: seq<seq<int>>,
                         tracedBird: string): (events: seq<ReadEvent>)
    requires |days| == |tables|
    requires forall c :: 0 <= c < |tables| ==> |days[c]| == |ids|
    ensures forall i :: 0 <= i < |events| ==> events[i].key.birdId in ids
    decreases |tables|
  {
    if |tables| == 0 then []
    else
      var k := |tables| - 1;
      TrackingReads(tables[..k], ids, days[..k], tracedBird) + CycleReads(tables[k], ids, days[k], tracedBird)
  }

  lemma {:induction false} TrackingStep(tables: seq<Store.Table>, ids: seq<string>, days: seq<seq<int>>,
                                        tracedBird: string, c: nat)
    requires |days| == |tables| && c < |tables|
    requires forall c :: 0 <= c < |tables| ==> |days[c]| == |ids|
    ensures TrackingReads(tables[..c + 1], ids, days[..c + 1], tracedBird)
         == TrackingReads(tables[..c], ids, days[..c], tracedBird) + CycleReads(tables[c], ids, days[c], tracedBird)
  {
    assert tables[..c + 1][..c] == tables[..c] && days[..c + 1][..c] == days[..c];
  }

  /** The trace file: one block per traced read, named by its partition. */
  function Traced(events: seq<ReadEvent>): (keys: seq<Store.Key>)
    ensures |keys| <= |events|
    decreases |events|
  {
    if |events| == 0 then []
    else
      var k := |events| - 1;
      Traced(events[..k]) + if events[k].traced then [events[k].key] else []
  }

  lemma {:induction false} TracedAppend(a: seq<ReadEvent>, b: seq<ReadEvent>)
    ensures Traced(a + b) == Traced(a) + Traced(b)
    decreases |b|
  {
    if |b| > 0 {
      var k := |b| - 1;
      var last := if b[k].traced then [b[k].key] else [];
      assert (a + b)[..|a + b| - 1] == a + b[..k];
      assert (a + b)[|a + b| - 1] == b[k];
      assert Traced(a + b) == Traced(a + b[..k]) + last;
      TracedAppend(a, b[..k]);
      assert Traced(b) == Traced(b[..k]) + last;
    } else {
      assert a + b == a;
    }
  }

  /** Within one cycle a bird is traced once for each time it is listed, and
      every trace block belongs to the traced bird. */
  lemma {:induction false} CycleTraces(t: Store.Table, ids: seq<string>, days: seq<int>, tracedBird: string)
    requires |days| == |ids|
    ensures |Traced(CycleReads(t, ids, days, tracedBird))| == multiset(ids)[tracedBird]
    ensures forall key :: key in Traced(CycleReads(t, ids, days, tracedBird)) ==> key.birdId == tracedBird
    decreases |ids|
  {
    if |ids| > 0 {
      var k := |ids| - 1;
      var events := CycleReads(t, ids, days, tracedBird);
      assert events[..k] == CycleReads(t, ids[..k], days[..k], tracedBird);
      CycleTraces(t, ids[..k], days[..k], tracedBird);
      var last := if events[k].traced then [events[k].key] else [];
      assert Traced(events) == Traced(events[..k]) + last;
      assert events[k].key.birdId == ids[k] && (events[k].traced <==> ids[k] == tracedBird);
      assert ids == ids[..k] + [ids[k]];
      assert multiset(ids)[tracedBird] == multiset(ids[..k])[tracedBird] + |last|;
    }
  }

  /** `track_birds` over a sorted id list with the traced bird on it: every
      cycle traces exactly one query, always the traced bird's. */
  lemma {:induction false} OneTracePerCycle(tables: seq<Store.Table>, ids: seq<string>, days: seq<seq<int>>, n: nat)
    requires StrictlySorted(ids) && n < |ids|
    requires |days| == |tables|
    requires forall c :: 0 <= c < |tables| ==> |days[c]| == |ids|
    ensures |Traced(TrackingReads(tables, ids, days, ids[n]))| == |tables|
    ensures forall key :: key in Traced(TrackingReads(tables, ids, days, ids[n])) ==> key.birdId == ids[n]
    decreases |tables|
  {
    if |tables| > 0 {
      var k := |tables| - 1;
      var before := TrackingReads(tables[..k], ids, days[..k], ids[n]);
      var cycle := CycleReads(tables[k], ids, days[k], ids[n]);
      OneTracePerCycle(tables[..k], ids, days[..k], n);
      TracedAppend(before, cycle);
      CycleTraces(tables[k], ids, days[k], ids[n]);
      SortedDistinct(ids);
      DistinctCount(ids, ids[n]);
    }
  }

  /** Every cycle appends one result line per listed bird, so the result file
      ends with cycles x |bird_list| lines; every query is of a listed bird
      on that cycle's day. */
  lemma {:induction false} TrackingShape(tables: seq<Store.Table>, ids: seq<string>, days: seq<seq<int>>,
                                         tracedBird: string)
    requires |days| == |tables|
    requires forall c :: 0 <= c < |tables| ==> |days[c]| == |ids|
    ensures |TrackingReads(tables, ids, days, tracedBird)| == |tables| * |ids|
    ensures forall e :: e in TrackingReads(tables, ids, days, tracedBird) ==> e.key.birdId in ids
    decreases |tables|
  {
    if |tables| > 0 {
      var k := |tables| - 1;
      var before := TrackingReads(tables[..k], ids, days[..k], tracedBird);
      var cycle := CycleReads(tables[k], ids, days[k], tracedBird);
      TrackingShape(tables[..k], ids, days[..k], tracedBird);
      assert |tables| * |ids| == k * |ids| + |ids|;
      forall e | e in cycle ensures e.key.birdId in ids {
        var i :| 0 <= i < |cycle| && cycle[i] == e;
      }
    }
  }

  /** What `track_birds` leaves behind: the bird it traces, every read in
      order (the result file, one line per read), and the number of sleeps. */
  datatype Tracking = Tracking(tracedBird: string, events: seq<ReadEvent>, sleeps: nat)

  /** The inner loop over `bird_list` for one cycle. */
  method ReadCycle(t: Store.Table, ids: seq<string>, days: seq<int>, tracedBird: string)
    returns (events: seq<ReadEvent>)
    requires |days| == |ids|
    ensures events == CycleReads(t, ids, days, tracedBird)
  {
    events := [];
    var i := 0;
    while i < |ids|
      invariant i <= |ids| && events == CycleReads(t, ids[..i], days[..i], tracedBird)
    {
      var rows := GetInfoOfBird(t, ids[i], days[i], 1);
      CycleReadsStep(t, ids, days, tracedBird, i);
      events := events + [ReadEvent(Store.Key(ids[i], days[i]), ids[i] == tracedBird, rows.value)];
      i := i + 1;
    }
    assert ids[..i] == ids && days[..i] == days;
  }

  /** `track_birds`: the id list is read once; with fewer than four ids the
      indexing `bird_list[3]` fails before any cycle; otherwise the fourth id
      is traced, and each cycle sleeps (except the first) and reads every
      listed bird once. */
  method TrackBirds(scan: seq<Store.Key>, tables: seq<Store.Table>, days: seq<seq<int>>)
    returns (r: Result<Tracking>)
    requires |days| == |tables|
    requires forall c :: 0 <= c < |tables| ==> |days[c]| == |GetAllBirdIds(scan)|
    ensures r.Err? <==> |GetAllBirdIds(scan)| < 4
    ensures r.Err? ==> r.error == NotEnoughBirds
    ensures r.Ok? ==> var ids := GetAllBirdIds(scan);
      && r.value.tracedBird == ids[3]
      && r.value.events == TrackingReads(tables, ids, days, ids[3])
      && r.value.sleeps == if |tables| == 0 then 0 else |tables| - 1
  {
    var ids := GetAllBirdIds(scan);
    if |ids| < 4 {
      return Err(NotEnoughBirds);
    }
    var tracedBird := ids[3];
    var events: seq<ReadEvent> := [];
    var sleeps := 0;
    var c := 0;
    while c < |tables|
      invariant c <= |tables|
      invariant events == TrackingReads(tables[..c], ids, days[..c], tracedBird)
      invariant sleeps == if c == 0 then 0 else c - 1
    {
      if c != 0 {
        sleeps := sleeps + 1;
      }
      var cycle := ReadCycle(tables[c], ids, days[c], tracedBird);
      TrackingStep(tables, ids, days, tracedBird, c);
      events := events + cycle;
      c := c + 1;
    }
    assert tables[..c] == tables && days[..c] == days;
    r := Ok(Tracking(tracedBird, events, sleeps));
  }
}
