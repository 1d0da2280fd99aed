/** What the tracker sees of what the simulator wrote, both working on the
    table of `create_table`: a limit-1 read of a bird's partition returns the
    row the last pass wrote for it, and the id listing is the roster. */
module Contract {
  import opened Basics
  import opened Text
  import opened Sequences
  import Store
  import opened Writer
  import opened Reader

  /** A row written with `now()` is what a limit-1 read of its partition
      returns next. */
  lemma {:induction false} NowWriteReadBack(t: Store.Table, r: Store.Row)
    requires Store.Valid(t) && r.ts == t.clock
    ensures GetInfoOfBird(Store.Insert(t, r), r.birdId, r.bucketDate, 1) == Ok([r])
  {
    Store.InsertNowIsNewest(t, r);
    var key := Store.Key(r.birdId, r.bucketDate);
    assert Store.KeyOf(r) == key;
    var rows := Store.Partition(Store.Insert(t, r), key);
    assert rows == [r] + Store.Partition(t, key);
    assert 1 < |rows| || rows == [r];
  }

  /** After a pass over a flock, a limit-1 read of any bird's partition for
      the day it was written returns exactly the row the pass wrote, stamped
      with its place in the pass. */
  lemma {:induction false} PassThenNewestRead(t: Store.Table, bs: seq<Bird>, days: seq<int>, j: nat)
    requires Store.Valid(t) && Flock(bs, |bs|) && |days| == |bs| && j < |bs|
    ensures GetInfoOfBird(WriteAll(t, bs, days), bs[j].birdId, days[j], 1)
         == Ok([RowFor(bs[j], days[j], t.clock + j)])
  {
    FlockDistinct(bs, |bs|);
    forall i | 0 <= i < |bs| && i != j ensures bs[i].birdId != bs[j].birdId {
      assert Ids(bs)[i] == bs[i].birdId && Ids(bs)[j] == bs[j].birdId;
    }
    WriteAllNewest(t, bs, days, j);
    var rows := Store.Partition(WriteAll(t, bs, days), Store.Key(bs[j].birdId, days[j]));
    assert 1 < |rows| || rows == [RowFor(bs[j], days[j], t.clock + j)];
  }

  /** The partitions after a pass: the old ones plus one per bird and day. */
  lemma {:induction false} WriteAllKeys(t: Store.Table, bs: seq<Bird>, days: seq<int>)
    requires |days| == |bs|
    ensures WriteAll(t, bs, days).partitions.Keys
         == t.partitions.Keys + set i | 0 <= i < |bs| :: Store.Key(bs[i].birdId, days[i])
    decreases |bs|
  {
    if |bs| > 0 {
      var k := |bs| - 1;
      WriteAllKeys(t, bs[..k], days[..k]);
      PassKeysStep(bs, days);
    }
  }

  /** The keys of a pass are those of all but its last bird, plus the last. */
  lemma {:induction false} PassKeysStep(bs: seq<Bird>, days: seq<int>)
    requires |days| == |bs| > 0
    ensures var k := |bs| - 1;
      (set i | 0 <= i < |bs| :: Store.Key(bs[i].birdId, days[i]))
        == (set i | 0 <= i < k :: Store.Key(bs[..k][i].birdId, days[..k][i])) + {Store.Key(bs[k].birdId, days[k])}
  {
    var k := |bs| - 1;
    var whole := set i | 0 <= i < |bs| :: Store.Key(bs[i].birdId, days[i]);
    var front := set i | 0 <= i < k :: Store.Key(bs[..k][i].birdId, days[..k][i]);
    forall key | key in whole ensures key in front || key == Store.Key(bs[k].birdId, days[k]) {
      var i :| 0 <= i < |bs| && key == Store.Key(bs[i].birdId, days[i]);
      if i < k {
        assert key == Store.Key(bs[..k][i].birdId, days[..k][i]);
      }
    }
    forall key | key in front ensures key in whole {
      var i :| 0 <= i < k && key == Store.Key(bs[..k][i].birdId, days[..k][i]);
      assert key == Store.Key(bs[i].birdId, days[i]);
    }
  }

  /** Once the simulator has written a pass over its flock into an empty
      table, the tracker lists exactly the roster "bird_1" .. "bird_n", so it
      fails for want of a fourth bird exactly when n < 4. */
  lemma {:induction false} TrackerSeesFlock(bs: seq<Bird>, days: seq<int>, scan: seq<Store.Key>)
    requires Flock(bs, |bs|) && |days| == |bs|
    requires ScanOf(WriteAll(Store.Empty, bs, days), scan)
    ensures forall b :: b in GetAllBirdIds(scan) <==> b in Roster(|bs|)
    ensures |GetAllBirdIds(scan)| == |bs|
  {
    var ids := GetAllBirdIds(scan);
    var u := WriteAll(Store.Empty, bs, days);
    WriteAllKeys(Store.Empty, bs, days);
    TableIds(u, scan);
    forall b ensures b in ids <==> b in Roster(|bs|) {
      if b in ids {
        var d :| Store.Key(b, d) in u.partitions;
        var i :| 0 <= i < |bs| && Store.Key(b, d) == Store.Key(bs[i].birdId, days[i]);
        assert Ids(bs)[i] == b;
        assert b in multiset(Ids(bs));
      }
      if b in Roster(|bs|) {
        assert b in multiset(Roster(|bs|));
        assert b in Ids(bs);
        var i :| 0 <= i < |bs| && Ids(bs)[i] == b;
        assert Store.Key(b, days[i]) in u.partitions;
      }
    }
    RosterFacts(|bs|);
    SortedDistinct(ids);
    DistinctSameElements(ids, Roster(|bs|));
  }

  /** `sorted` of the default roster of ten ids, in Python's string order. */
  const DefaultOrder: seq<string> :=
    ["bird_1", "bird_10", "bird_2", "bird_3", "bird_4", "bird_5", "bird_6", "bird_7", "bird_8", "bird_9"]

  lemma {:induction false} DefaultIds()
    ensures BirdId(1) == "bird_1" && BirdId(2) == "bird_2" && BirdId(3) == "bird_3"
    ensures BirdId(4) == "bird_4" && BirdId(5) == "bird_5" && BirdId(6) == "bird_6"
    ensures BirdId(7) == "bird_7" && BirdId(8) == "bird_8" && BirdId(9) == "bird_9"
    ensures BirdId(10) == "bird_10"
  {
    assert Decimal(10) == Decimal(1) + [DigitChar(0)];
  }

  /** Neighbours of the default order are in Python's string order. */
  lemma {:induction false} DefaultOrderChain()
    ensures forall i :: 0 <= i < 9 ==> Below(DefaultOrder[i], DefaultOrder[i + 1])
  {
    assert forall i :: 0 <= i < 4 ==> Below(DefaultOrder[i], DefaultOrder[i + 1]);
    assert forall i :: 4 <= i < 9 ==> Below(DefaultOrder[i], DefaultOrder[i + 1]);
  }

  /** The default order is sorted and lists the default roster. */
  lemma {:induction false} DefaultOrderSorted()
    ensures StrictlySorted(DefaultOrder)
    ensures forall b :: b in DefaultOrder <==> b in Roster(10)
  {
    DefaultOrderChain();
    ChainSorted(DefaultOrder);
    DefaultIds();
    assert Roster(10) == [BirdId(1), BirdId(2), BirdId(3), BirdId(4), BirdId(5),
                          BirdId(6), BirdId(7), BirdId(8), BirdId(9), BirdId(10)];
  }

  /** With the default ten birds the two scripts trace different birds: the
      simulator traces "bird_4", but the tracker's fourth id in string order
      is "bird_3", since "bird_10" sorts before "bird_2". */
  lemma {:induction false} DefaultRunTracesOtherBird(bs: seq<Bird>, days: seq<int>, scan: seq<Store.Key>)
    requires Flock(bs, 10) && |days| == 10
    requires ScanOf(WriteAll(Store.Empty, bs, days), scan)
    ensures GetAllBirdIds(scan) == DefaultOrder
    ensures GetAllBirdIds(scan)[3] == "bird_3" != TracedBird
  {
    TrackerSeesFlock(bs, days, scan);
    DefaultOrderSorted();
    SortedUnique(GetAllBirdIds(scan), DefaultOrder);
  }
}
