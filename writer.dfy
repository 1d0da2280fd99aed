/** The position writer, `simulate_birds` in cassandraBirdsClient.py: N birds
    with fixed ids and species whose positions advance by `random_step` each
    cycle, every advance written to the table with `insert_into`. Random draws
    (species, initial coordinates, the shuffle, the step deltas) and
    `date.today()` are parameters; sleeps are counted, and the trace file is a
    log of the keys whose insert was traced. */
module Writer {
  import opened Basics
  import opened Text
  import opened Sequences
  import opened RandomWalk
  import Store
  import InsertStatement

  /** The bird whose inserts are traced. */
  const TracedBird: string := "bird_4"

  const SpeciesOptions: seq<string> :=
    ["American Robin", "American Crow", "European Starling", "Mourning Dove", "Rock Pigeon"]

  /** One entry of `birds_info`. */
  datatype Bird = Bird(birdId: string, species: string, latitude: real, longitude: real)

  /** The two draws of one `random_step`. */
  datatype Delta = Delta(dlat: real, dlon: real)

  /** One executed INSERT: the row written and whether tracing was requested. */
  datatype InsertEvent = InsertEvent(row: Store.Row, traced: bool)

  /** `f"bird_{idx}"`. */
  function BirdId(idx: nat): string
  {
    "bird_" + Decimal(idx)
  }

  /** `bird_ids`: "bird_1" .. "bird_n". */
  function Roster(n: nat): (ids: seq<string>)
    ensures |ids| == n
  {
    seq(n, i requires 0 <= i < n => BirdId(i + 1))
  }

  lemma {:induction false} BirdIdInjective(a: nat, b: nat)
    requires BirdId(a) == BirdId(b)
    ensures a == b
  {
    assert Decimal(a) == BirdId(a)[5..];
    assert Decimal(b) == BirdId(b)[5..];
    DecimalInjective(a, b);
  }

  /** Only the fourth generated id is the traced one. */
  lemma {:induction false} TracedIsFourth(idx: nat)
    ensures BirdId(idx) == TracedBird <==> idx == 4
  {
    assert BirdId(4) == TracedBird;
    if BirdId(idx) == TracedBird {
      BirdIdInjective(idx, 4);
    }
  }

  /** The generated ids are pairwise distinct, and "bird_4" is among them
      exactly when at least four birds are simulated. */
  lemma {:induction false} RosterFacts(n: nat)
    ensures Distinct(Roster(n))
    ensures TracedBird in Roster(n) <==> n >= 4
    ensures multiset(Roster(n))[TracedBird] == if n >= 4 then 1 else 0
  {
    var ids := Roster(n);
    forall i, j | 0 <= i < j < n ensures ids[i] != ids[j] {
      if ids[i] == ids[j] {
        BirdIdInjective(i + 1, j + 1);
      }
    }
    if n >= 4 {
      TracedIsFourth(4);
      assert ids[3] == TracedBird;
    }
    if TracedBird in ids {
      var i :| 0 <= i < n && ids[i] == TracedBird;
      TracedIsFourth(i + 1);
    }
    DistinctCount(ids, TracedBird);
  }

  function Ids(bs: seq<Bird>): (ids: seq<string>)
    ensures |ids| == |bs|
  {
    seq(|bs|, i requires 0 <= i < |bs| => bs[i].birdId)
  }

  /** What never changes about a bird: its id and its species. */
  function Tags(bs: seq<Bird>): (tags: seq<(string, string)>)
    ensures |tags| == |bs|
  {
    seq(|bs|, i requires 0 <= i < |bs| => (bs[i].birdId, bs[i].species))
  }

  /** `bird["latitude"], bird["longitude"] = random_step(...)`. */
  function Advance(b: Bird, d: Delta): (r: Bird)
    ensures r.birdId == b.birdId && r.species == b.species
  {
    var pos := RandomStep(b.latitude, b.longitude, d.dlat, d.dlon);
    b.(latitude := pos.0, longitude := pos.1)
  }

  function AdvanceAll(bs: seq<Bird>, ds: seq<Delta>): (r: seq<Bird>)
    requires |ds| == |bs|
    ensures |r| == |bs|
  {
    seq(|bs|, i requires 0 <= i < |bs| => Advance(bs[i], ds[i]))
  }

  lemma {:induction false} AdvanceAllStep(bs: seq<Bird>, ds: seq<Delta>, i: nat)
    requires |ds| == |bs| && i < |bs|
    ensures AdvanceAll(bs[..i + 1], ds[..i + 1]) == AdvanceAll(bs[..i], ds[..i]) + [Advance(bs[i], ds[i])]
  {
  }

  /** Where the simulation keeps every bird: the initial draws put latitude in
      [-180, 180] and longitude in [-90, 90]; later steps keep both here. */
  predicate InSimulationBand(b: Bird)
  {
    -180.0 <= b.latitude <= 180.0 && ValidLongitude(b.longitude)
  }

  /** One step with draws within the default bound takes a bird of the band to
      a geographically valid position, so the band is kept and, after the
      first cycle, every latitude is a real one. */
  lemma {:induction false} AdvanceIntoRange(b: Bird, d: Delta)
    requires InSimulationBand(b)
    requires WithinStep(d.dlat, StepDeg) && WithinStep(d.dlon, StepDeg)
    ensures ValidLatitude(Advance(b, d).latitude) && ValidLongitude(Advance(b, d).longitude)
    ensures InSimulationBand(Advance(b, d))
  {
    StepLandsInRange(b.latitude, b.longitude, d.dlat, d.dlon);
  }

  /** The row `insert_into` writes for a bird. */
  function RowFor(b: Bird, day: int, ts: nat): Store.Row
  {
    Store.Row(b.birdId, day, ts, b.species, b.latitude, b.longitude)
  }

  /** The table after writing the birds in order, each stamped by `now()`. */
  function WriteAll(t: Store.Table, bs: seq<Bird>, days: seq<int>): (u: Store.Table)
    requires |days| == |bs|
    ensures u.clock == t.clock + |bs|
    decreases |bs|
  {
    if |bs| == 0 then t
    else
      var k := |bs| - 1;
      var before := WriteAll(t, bs[..k], days[..k]);
      Store.Insert(before, RowFor(bs[k], days[k], before.clock))
  }

  /** The INSERTs of one pass over the birds: one per bird, in order, with
      consecutive `now()` stamps from `clock`, traced exactly for "bird_4". */
  function InsertEvents(clock: nat, bs: seq<Bird>, days: seq<int>): (evs: seq<InsertEvent>)
    requires |days| == |bs|
    ensures |evs| == |bs|
    decreases |bs|
  {
    if |bs| == 0 then []
    else
      var k := |bs| - 1;
      InsertEvents(clock, bs[..k], days[..k])
        + [InsertEvent(RowFor(bs[k], days[k], clock + k), bs[k].birdId == TracedBird)]
  }

  /** The trace blocks of one pass: the key of each traced insert. */
  function TraceBlocks(bs: seq<Bird>, days: seq<int>): (blocks: seq<Store.Key>)
    requires |days| == |bs|
    ensures |blocks| <= |bs|
    ensures forall i :: 0 <= i < |blocks| ==> blocks[i].birdId == TracedBird
    decreases |bs|
  {
    if |bs| == 0 then []
    else
      var k := |bs| - 1;
      TraceBlocks(bs[..k], days[..k])
        + (if bs[k].birdId == TracedBird then [Store.Key(bs[k].birdId, days[k])] else [])
  }

  /** Extending a pass by one bird: one more INSERT at the next stamp. */
  lemma {:induction false} WriteAllStep(t: Store.Table, bs: seq<Bird>, days: seq<int>, b: Bird, day: int)
    requires |days| == |bs|
    ensures var u := WriteAll(t, bs, days);
      WriteAll(t, bs + [b], days + [day]) == Store.Insert(u, RowFor(b, day, u.clock))
  {
    assert (bs + [b])[..|bs|] == bs && (days + [day])[..|bs|] == days;
  }

  lemma {:induction false} InsertEventsStep(clock: nat, bs: seq<Bird>, days: seq<int>, b: Bird, day: int)
    requires |days| == |bs|
    ensures InsertEvents(clock, bs + [b], days + [day])
         == InsertEvents(clock, bs, days) + [InsertEvent(RowFor(b, day, clock + |bs|), b.birdId == TracedBird)]
  {
    assert (bs + [b])[..|bs|] == bs && (days + [day])[..|bs|] == days;
  }

  lemma {:induction false} TraceBlocksStep(bs: seq<Bird>, days: seq<int>, b: Bird, day: int)
    requires |days| == |bs|
    ensures TraceBlocks(bs + [b], days + [day])
         == TraceBlocks(bs, days) + (if b.birdId == TracedBird then [Store.Key(b.birdId, day)] else [])
  {
    assert (bs + [b])[..|bs|] == bs && (days + [day])[..|bs|] == days;
  }

  /** The i-th INSERT of a pass writes the i-th bird at the i-th stamp from
      `clock`, traced exactly when that bird is "bird_4". */
  lemma {:induction false} InsertEventsAt(clock: nat, bs: seq<Bird>, days: seq<int>, i: nat)
    requires |days| == |bs| && i < |bs|
    ensures InsertEvents(clock, bs, days)[i]
         == InsertEvent(RowFor(bs[i], days[i], clock + i), bs[i].birdId == TracedBird)
    decreases |bs|
  {
    var k := |bs| - 1;
    if i < k {
      InsertEventsAt(clock, bs[..k], days[..k], i);
    }
  }

  /** The bird ids of the rows an insert log wrote, in order. */
  function RowIds(evs: seq<InsertEvent>): (ids: seq<string>)
    ensures |ids| == |evs|
  {
    seq(|evs|, i requires 0 <= i < |evs| => evs[i].row.birdId)
  }

  /** An INSERT whose row holds a geographically valid position. */
  predicate ValidInsert(e: InsertEvent)
  {
    ValidLatitude(e.row.latitude) && ValidLongitude(e.row.longitude)
  }

  /** A pass writes one trace block per occurrence of "bird_4". */
  lemma {:induction false} TraceBlockCount(bs: seq<Bird>, days: seq<int>)
    requires |days| == |bs|
    ensures |TraceBlocks(bs, days)| == multiset(Ids(bs))[TracedBird]
    ensures forall key :: key in TraceBlocks(bs, days) ==> key.birdId == TracedBird
    decreases |bs|
  {
    if |bs| > 0 {
      var k := |bs| - 1;
      TraceBlockCount(bs[..k], days[..k]);
      assert Ids(bs) == Ids(bs[..k]) + [bs[k].birdId];
    }
  }

  /** A pass keeps the table valid. */
  lemma {:induction false} WriteAllKeepsValid(t: Store.Table, bs: seq<Bird>, days: seq<int>)
    requires Store.Valid(t) && |days| == |bs|
    ensures Store.Valid(WriteAll(t, bs, days))
    decreases |bs|
  {
    if |bs| > 0 {
      var k := |bs| - 1;
      WriteAllKeepsValid(t, bs[..k], days[..k]);
      Store.InsertKeepsValid(WriteAll(t, bs[..k], days[..k]), RowFor(bs[k], days[k], t.clock + k));
    }
  }

  /** A partition whose bird is not among the written ones is untouched. */
  lemma {:induction false} WriteAllElsewhere(t: Store.Table, bs: seq<Bird>, days: seq<int>, key: Store.Key)
    requires |days| == |bs|
    requires forall i :: 0 <= i < |bs| ==> bs[i].birdId != key.birdId
    ensures Store.Partition(WriteAll(t, bs, days), key) == Store.Partition(t, key)
    decreases |bs|
  {
    if |bs| > 0 {
      var k := |bs| - 1;
      WriteAllElsewhere(t, bs[..k], days[..k], key);
      Store.InsertElsewhere(WriteAll(t, bs[..k], days[..k]), RowFor(bs[k], days[k], t.clock + k), key);
    }
  }

  /** The last bird of a pass, if no earlier bird shares its id, heads its
      partition afterwards. */
  lemma {:induction false} WriteLastIsNewest(t: Store.Table, bs: seq<Bird>, days: seq<int>)
    requires Store.Valid(t) && |days| == |bs| > 0
    requires forall i :: 0 <= i < |bs| - 1 ==> bs[i].birdId != bs[|bs| - 1].birdId
    ensures var k := |bs| - 1;
      Store.Partition(WriteAll(t, bs, days), Store.Key(bs[k].birdId, days[k]))
        == [RowFor(bs[k], days[k], t.clock + k)] + Store.Partition(t, Store.Key(bs[k].birdId, days[k]))
  {
    var k := |bs| - 1;
    var before := WriteAll(t, bs[..k], days[..k]);
    var row := RowFor(bs[k], days[k], before.clock);
    var key := Store.Key(bs[k].birdId, days[k]);
    assert Store.KeyOf(row) == key;
    assert WriteAll(t, bs, days) == Store.Insert(before, row);
    WriteAllElsewhere(t, bs[..k], days[..k], key);
    assert Store.Partition(before, key) == Store.Partition(t, key);
    WriteAllKeepsValid(t, bs[..k], days[..k]);
    Store.InsertNowIsNewest(before, row);
    assert row == RowFor(bs[k], days[k], t.clock + k);
    assert Store.Partition(WriteAll(t, bs, days), key) == [row] + Store.Partition(t, key);
  }

  /** After a pass in which bird `j` is the only one with its id, the
      partition of its key starts with the row just written for it, in front
      of whatever the partition held before: a LIMIT 1 read returns the new
      position. */
  lemma {:induction false} WriteAllNewest(t: Store.Table, bs: seq<Bird>, days: seq<int>, j: nat)
    requires Store.Valid(t) && |days| == |bs| && j < |bs|
    requires forall i :: 0 <= i < |bs| && i != j ==> bs[i].birdId != bs[j].birdId
    ensures Store.Partition(WriteAll(t, bs, days), Store.Key(bs[j].birdId, days[j]))
         == [RowFor(bs[j], days[j], t.clock + j)] + Store.Partition(t, Store.Key(bs[j].birdId, days[j]))
    decreases |bs|
  {
    var k := |bs| - 1;
    if j == k {
      WriteLastIsNewest(t, bs, days);
    } else {
      var before := WriteAll(t, bs[..k], days[..k]);
      var row := RowFor(bs[k], days[k], before.clock);
      assert WriteAll(t, bs, days) == Store.Insert(before, row);
      WriteAllNewest(t, bs[..k], days[..k], j);
      Store.InsertElsewhere(before, row, Store.Key(bs[j].birdId, days[j]));
    }
  }

  /** What `simulate_birds` keeps about `birds_info` between cycles: the ids
      are "bird_1" .. "bird_n" once each, every species is from the catalogue
      and every bird is in the band. */
  predicate Flock(bs: seq<Bird>, n: nat)
  {
    && |bs| == n
    && multiset(Ids(bs)) == multiset(Roster(n))
    && (forall i :: 0 <= i < n ==> bs[i].species in SpeciesOptions && InSimulationBand(bs[i]))
  }

  /** The birds of a flock have distinct ids, so each of them heads its own
      partition after a pass (`WriteAllNewest`). */
  lemma {:induction false} FlockDistinct(bs: seq<Bird>, n: nat)
    requires Flock(bs, n)
    ensures Distinct(Ids(bs))
  {
    RosterFacts(n);
    DistinctByMultiset(Roster(n), Ids(bs));
  }

  /** A cycle keeps the flock: shuffling only permutes `birds_info`, and
      advancing a bird keeps its id and species and, with draws within the
      default bound, keeps it in the band. */
  lemma {:induction false} CycleKeepsFlock(bs: seq<Bird>, perm: seq<nat>, ds: seq<Delta>)
    requires Flock(bs, |bs|)
    requires IsPermutation(perm, |bs|) && |ds| == |bs|
    requires forall i :: 0 <= i < |bs| ==> WithinStep(ds[i].dlat, StepDeg) && WithinStep(ds[i].dlon, StepDeg)
    ensures Flock(AdvanceAll(Gather(bs, perm), ds), |bs|)
  {
    var next := AdvanceAll(Gather(bs, perm), ds);
    assert Ids(next) == Gather(Ids(bs), perm);
    PermutationKeepsMultiset(Ids(bs), perm);
    forall i | 0 <= i < |bs|
      ensures next[i].species in SpeciesOptions && InSimulationBand(next[i])
    {
      AdvanceIntoRange(bs[perm[i]], ds[i]);
    }
  }

  /** What a cycle guarantees about the birds: every (id, species) pair
      survives and all positions become geographically valid. */
  lemma {:induction false} CycleKeepsRoster(bs: seq<Bird>, perm: seq<nat>, ds: seq<Delta>)
    requires Flock(bs, |bs|)
    requires IsPermutation(perm, |bs|) && |ds| == |bs|
    requires forall i :: 0 <= i < |bs| ==> WithinStep(ds[i].dlat, StepDeg) && WithinStep(ds[i].dlon, StepDeg)
    ensures var next := AdvanceAll(Gather(bs, perm), ds);
      && multiset(Tags(next)) == multiset(Tags(bs))
      && (forall i :: 0 <= i < |bs| ==> ValidLatitude(next[i].latitude) && ValidLongitude(next[i].longitude))
  {
    var next := AdvanceAll(Gather(bs, perm), ds);
    assert Tags(next) == Gather(Tags(bs), perm);
    PermutationKeepsMultiset(Tags(bs), perm);
    forall i | 0 <= i < |bs|
      ensures ValidLatitude(next[i].latitude) && ValidLongitude(next[i].longitude)
    {
      AdvanceIntoRange(bs[perm[i]], ds[i]);
    }
  }

  /** A pass over a flock traces one insert when there are at least four
      birds ("bird_4" is among them exactly once) and none otherwise. */
  lemma {:induction false} FlockTracesOnce(bs: seq<Bird>, days: seq<int>)
    requires Flock(bs, |bs|) && |days| == |bs|
    ensures |TraceBlocks(bs, days)| == if |bs| >= 4 then 1 else 0
  {
    RosterFacts(|bs|);
    TraceBlockCount(bs, days);
  }

  /** The body of the inner loop for one (already advanced) bird: INSERT its
      row stamped by `now()`, requesting a trace only for "bird_4", and write
      a trace block when the insert was traced. */
  method WriteBird(t: Store.Table, bird: Bird, day: int)
    returns (u: Store.Table, event: InsertEvent, block: seq<Store.Key>)
    ensures u == Store.Insert(t, RowFor(bird, day, t.clock)) && u.clock == t.clock + 1
    ensures event == InsertEvent(RowFor(bird, day, t.clock), bird.birdId == TracedBird)
    ensures block == if bird.birdId == TracedBird then [Store.Key(bird.birdId, day)] else []
  {
    var written := InsertStatement.InsertInto(t, bird.birdId, day, bird.latitude,
                                              bird.longitude, bird.species, None);
    u := written.value;
    var traced := bird.birdId == TracedBird;
    event := InsertEvent(RowFor(bird, day, t.clock), traced);
    block := if traced then [Store.Key(bird.birdId, day)] else [];
  }

  /** What the pass has produced after its first `i` birds, one bird further. */
  lemma {:induction false} PassStep(table: Store.Table, done: seq<Bird>, days: seq<int>, i: nat, bird: Bird)
    requires |done| == i < |days|
    ensures days[..i + 1] == days[..i] + [days[i]]
    ensures var u := WriteAll(table, done, days[..i]);
      WriteAll(table, done + [bird], days[..i + 1]) == Store.Insert(u, RowFor(bird, days[i], u.clock))
    ensures InsertEvents(table.clock, done + [bird], days[..i + 1])
         == InsertEvents(table.clock, done, days[..i])
            + [InsertEvent(RowFor(bird, days[i], table.clock + i), bird.birdId == TracedBird)]
    ensures TraceBlocks(done + [bird], days[..i + 1])
         == TraceBlocks(done, days[..i])
            + (if bird.birdId == TracedBird then [Store.Key(bird.birdId, days[i])] else [])
  {
    ExtendedPrefix(days, i);
    WriteAllStep(table, done, days[..i], bird, days[i]);
    InsertEventsStep(table.clock, done, days[..i], bird, days[i]);
    TraceBlocksStep(done, days[..i], bird, days[i]);
  }

  /** What one pass has produced so far: the advanced birds, the table, and
      the INSERTs and trace blocks emitted. */
  datatype Pass = Pass(advanced: seq<Bird>, table: Store.Table,
                       inserts: seq<InsertEvent>, blocks: seq<Store.Key>)

  /** The pass over `birds` after its first `i` birds. */
  function PassAfter(birds: seq<Bird>, deltas: seq<Delta>, days: seq<int>, table: Store.Table,
                     i: nat): (p: Pass)
    requires |deltas| == |birds| && |days| == |birds| && i <= |birds|
    ensures |p.advanced| == i && |p.inserts| == i && p.table.clock == table.clock + i
  {
    var advanced := AdvanceAll(birds[..i], deltas[..i]);
    Pass(advanced, WriteAll(table, advanced, days[..i]),
         InsertEvents(table.clock, advanced, days[..i]), TraceBlocks(advanced, days[..i]))
  }

  /** One iteration of the inner loop: advance bird `i` by its draws and write
      it with `WriteBird`. */
  method WriteNext(birds: seq<Bird>, deltas: seq<Delta>, days: seq<int>, table: Store.Table,
                   i: nat, p: Pass) returns (q: Pass)
    requires |deltas| == |birds| && |days| == |birds| && i < |birds|
    requires p == PassAfter(birds, deltas, days, table, i)
    ensures q == PassAfter(birds, deltas, days, table, i + 1)
  {
    var bird := Advance(birds[i], deltas[i]);
    AdvanceAllStep(birds, deltas, i);
    PassStep(table, p.advanced, days, i, bird);
    var t, event, block := WriteBird(p.table, bird, days[i]);
    q := Pass(p.advanced + [bird], t, p.inserts + [event], p.blocks + block);
    ghost var done, upTo := AdvanceAll(birds[..i + 1], deltas[..i + 1]), days[..i + 1];
    assert done == q.advanced;
    assert p.table.clock == table.clock + i;
    assert event == InsertEvent(RowFor(bird, days[i], table.clock + i), bird.birdId == TracedBird);
    assert q.table == WriteAll(table, done, upTo);
    assert q.inserts == InsertEvents(table.clock, done, upTo);
    assert q.blocks == TraceBlocks(done, upTo);
  }

  /** The inner loop of one cycle: for each bird of the (already shuffled)
      list, in order, advance it and write it. Returns the advanced birds, the
      table, and the INSERTs and trace blocks the pass emitted. */
  method WritePass(birds: seq<Bird>, deltas: seq<Delta>, days: seq<int>, table: Store.Table)
    returns (p: Pass)
    requires |deltas| == |birds| && |days| == |birds|
    ensures p.advanced == AdvanceAll(birds, deltas)
    ensures p.table == WriteAll(table, p.advanced, days)
    ensures p.inserts == InsertEvents(table.clock, p.advanced, days)
    ensures p.blocks == TraceBlocks(p.advanced, days)
  {
    p := Pass([], table, [], []);
    var i := 0;
    while i < |birds|
      invariant i <= |birds| && p == PassAfter(birds, deltas, days, table, i)
    {
      p := WriteNext(birds, deltas, days, table, i, p);
      i := i + 1;
    }
    assert birds[..i] == birds && deltas[..i] == deltas && days[..i] == days;
  }

  /** One cycle on the values of the loop: `random.shuffle(birds_info)` by
      `perm`, then the pass; the flock and the table's validity survive it. */
  method ShuffledPass(flock: seq<Bird>, n: nat, perm: seq<nat>, deltas: seq<Delta>, days: seq<int>,
                      table: Store.Table) returns (p: Pass)
    requires Flock(flock, n) && Store.Valid(table)
    requires IsPermutation(perm, n) && |deltas| == n && |days| == n
    requires forall i :: 0 <= i < n ==>
      WithinStep(deltas[i].dlat, StepDeg) && WithinStep(deltas[i].dlon, StepDeg)
    ensures p.advanced == AdvanceAll(Gather(flock, perm), deltas)
    ensures p.table == WriteAll(table, p.advanced, days)
    ensures p.inserts == InsertEvents(table.clock, p.advanced, days)
    ensures p.blocks == TraceBlocks(p.advanced, days)
    ensures Flock(p.advanced, n) && Store.Valid(p.table)
  {
    p := WritePass(Gather(flock, perm), deltas, days, table);
    CycleKeepsFlock(flock, perm, deltas);
    WriteAllKeepsValid(table, p.advanced, days);
  }

  /** The draws of a run of `n` birds: per cycle a shuffle, one step and
      one `date.today()` per bird. */
  predicate Schedule(n: nat, perms: seq<seq<nat>>, deltas: seq<seq<Delta>>, days: seq<seq<int>>)
  {
    && |deltas| == |perms| && |days| == |perms|
    && forall c :: 0 <= c < |perms| ==> IsPermutation(perms[c], n) && |deltas[c]| == n && |days[c]| == n
  }

  /** Every step draw of a run lies within `step_deg`. */
  predicate Bounded(deltas: seq<seq<Delta>>)
  {
    forall c, i :: 0 <= c < |deltas| && 0 <= i < |deltas[c]| ==>
      WithinStep(deltas[c][i].dlat, StepDeg) && WithinStep(deltas[c][i].dlon, StepDeg)
  }

  /** The state of `simulate_birds` between cycles: `birds_info` in its
      current order, the table, every INSERT executed and every trace block
      written. */
  datatype State = State(birds: seq<Bird>, table: Store.Table,
                         inserts: seq<InsertEvent>, traceBlocks: seq<Store.Key>)

  /** One cycle of the update loop on the simulator's state: shuffle the
      birds, advance each, write the advanced birds in the new order and log
      their INSERTs and trace blocks. */
  function Cycle(s: State, perm: seq<nat>, ds: seq<Delta>, days: seq<int>): (r: State)
    requires IsPermutation(perm, |s.birds|) && |ds| == |s.birds| && |days| == |s.birds|
    ensures |r.birds| == |s.birds|
    ensures r.table.clock == s.table.clock + |s.birds|
    ensures |r.inserts| == |s.inserts| + |s.birds| && r.inserts[..|s.inserts|] == s.inserts
  {
    var next := AdvanceAll(Gather(s.birds, perm), ds);
    State(next, WriteAll(s.table, next, days),
          s.inserts + InsertEvents(s.table.clock, next, days), s.traceBlocks + TraceBlocks(next, days))
  }

  /** The simulator's state after the given cycles of the update loop. */
  function Replay(s: State, perms: seq<seq<nat>>, deltas: seq<seq<Delta>>, days: seq<seq<int>>): (r: State)
    requires Schedule(|s.birds|, perms, deltas, days)
    ensures |r.birds| == |s.birds|
    decreases |perms|
  {
    if |perms| == 0 then s
    else
      var k := |perms| - 1;
      var before := Replay(s, perms[..k], deltas[..k], days[..k]);
      Cycle(before, perms[k], deltas[k], days[k])
  }

  /** One more cycle extends a replay by one `Cycle`. */
  lemma {:induction false} ReplayStep(s: State, perms: seq<seq<nat>>, deltas: seq<seq<Delta>>,
                                      days: seq<seq<int>>, c: nat)
    requires Schedule(|s.birds|, perms, deltas, days) && c < |perms|
    ensures Schedule(|s.birds|, perms[..c], deltas[..c], days[..c])
    ensures Schedule(|s.birds|, perms[..c + 1], deltas[..c + 1], days[..c + 1])
    ensures Replay(s, perms[..c + 1], deltas[..c + 1], days[..c + 1])
         == Cycle(Replay(s, perms[..c], deltas[..c], days[..c]), perms[c], deltas[c], days[c])
  {
    assert perms[..c + 1][..c] == perms[..c] && deltas[..c + 1][..c] == deltas[..c]
        && days[..c + 1][..c] == days[..c];
  }

  /** A non-empty replay is the replay of all but its last cycle, followed by
      that cycle, whose draws fit the flock. */
  lemma {:induction false} ReplayLast(s: State, perms: seq<seq<nat>>, deltas: seq<seq<Delta>>,
                                      days: seq<seq<int>>)
    requires Schedule(|s.birds|, perms, deltas, days) && Bounded(deltas) && |perms| > 0
    ensures var k, n := |perms| - 1, |s.birds|;
      && Schedule(n, perms[..k], deltas[..k], days[..k]) && Bounded(deltas[..k])
      && IsPermutation(perms[k], n) && |deltas[k]| == n && |days[k]| == n
      && (forall i :: 0 <= i < n ==> WithinStep(deltas[k][i].dlat, StepDeg) && WithinStep(deltas[k][i].dlon, StepDeg))
      && Replay(s, perms, deltas, days)
         == Cycle(Replay(s, perms[..k], deltas[..k], days[..k]), perms[k], deltas[k], days[k])
  {
    var k := |perms| - 1;
    assert forall c :: 0 <= c < k ==> deltas[..k][c] == deltas[c];
  }

  /** One cycle of a flock on a valid table keeps the flock with its (id,
      species) pairs and the table valid, and leaves every position valid. */
  lemma {:induction false} CycleOfFlock(s: State, perm: seq<nat>, ds: seq<Delta>, days: seq<int>)
    requires Flock(s.birds, |s.birds|) && Store.Valid(s.table)
    requires IsPermutation(perm, |s.birds|) && |ds| == |s.birds| && |days| == |s.birds|
    requires forall i :: 0 <= i < |s.birds| ==> WithinStep(ds[i].dlat, StepDeg) && WithinStep(ds[i].dlon, StepDeg)
    ensures var r, n := Cycle(s, perm, ds, days), |s.birds|;
      && Flock(r.birds, n) && Store.Valid(r.table)
      && multiset(Tags(r.birds)) == multiset(Tags(s.birds))
      && (forall i :: 0 <= i < n ==> ValidLatitude(r.birds[i].latitude) && ValidLongitude(r.birds[i].longitude))
  {
    var next := AdvanceAll(Gather(s.birds, perm), ds);
    CycleKeepsFlock(s.birds, perm, ds);
    CycleKeepsRoster(s.birds, perm, ds);
    WriteAllKeepsValid(s.table, next, days);
  }

  /** One cycle of a flock writes one INSERT per bird at consecutive stamps
      and appends one trace block, of "bird_4", when there are at least four
      birds. */
  lemma {:induction false} CycleLogs(s: State, perm: seq<nat>, ds: seq<Delta>, days: seq<int>)
    requires Flock(s.birds, |s.birds|)
    requires IsPermutation(perm, |s.birds|) && |ds| == |s.birds| && |days| == |s.birds|
    requires forall i :: 0 <= i < |s.birds| ==> WithinStep(ds[i].dlat, StepDeg) && WithinStep(ds[i].dlon, StepDeg)
    ensures var r, n := Cycle(s, perm, ds, days), |s.birds|;
      && r.table.clock == s.table.clock + n
      && |r.inserts| == |s.inserts| + n
      && |r.traceBlocks| == |s.traceBlocks| + (if n >= 4 then 1 else 0)
      && r.traceBlocks[..|s.traceBlocks|] == s.traceBlocks
      && (forall i :: |s.traceBlocks| <= i < |r.traceBlocks| ==> r.traceBlocks[i].birdId == TracedBird)
  {
    var next := AdvanceAll(Gather(s.birds, perm), ds);
    CycleKeepsFlock(s.birds, perm, ds);
    FlockTracesOnce(next, days);
    TraceBlockCount(next, days);
    var blocks := TraceBlocks(next, days);
    forall i | |s.traceBlocks| <= i < |s.traceBlocks| + |blocks|
      ensures (s.traceBlocks + blocks)[i].birdId == TracedBird
    {
      assert (s.traceBlocks + blocks)[i] == blocks[i - |s.traceBlocks|];
    }
  }

  /** One cycle of a flock appends one INSERT per bird of the roster, each
      exactly once: the i-th new INSERT is stamped `clock + i` with the i-th
      cycle date, holds a valid position, and is traced exactly for
      "bird_4". */
  lemma {:induction false} CycleInserts(s: State, perm: seq<nat>, ds: seq<Delta>, days: seq<int>)
    requires Flock(s.birds, |s.birds|)
    requires IsPermutation(perm, |s.birds|) && |ds| == |s.birds| && |days| == |s.birds|
    requires forall i :: 0 <= i < |s.birds| ==> WithinStep(ds[i].dlat, StepDeg) && WithinStep(ds[i].dlon, StepDeg)
    ensures var r, n, m := Cycle(s, perm, ds, days), |s.birds|, |s.inserts|;
      && multiset(RowIds(r.inserts[m..])) == multiset(Roster(n))
      && forall i :: m <= i < |r.inserts| ==>
           && ValidInsert(r.inserts[i])
           && r.inserts[i].row.ts == s.table.clock + (i - m)
           && r.inserts[i].row.bucketDate == days[i - m]
           && (r.inserts[i].traced <==> r.inserts[i].row.birdId == TracedBird)
  {
    var n, m := |s.birds|, |s.inserts|;
    var next := AdvanceAll(Gather(s.birds, perm), ds);
    var evs := InsertEvents(s.table.clock, next, days);
    var r := Cycle(s, perm, ds, days);
    assert r.inserts[m..] == evs;
    CycleKeepsFlock(s.birds, perm, ds);
    CycleKeepsRoster(s.birds, perm, ds);
    forall i | 0 <= i < n
      ensures evs[i].row.birdId == next[i].birdId
      ensures ValidInsert(evs[i]) && evs[i].row.ts == s.table.clock + i && evs[i].row.bucketDate == days[i]
      ensures evs[i].traced <==> evs[i].row.birdId == TracedBird
    {
      InsertEventsAt(s.table.clock, next, days, i);
    }
    assert RowIds(evs) == Ids(next);
    forall i | m <= i < |r.inserts|
      ensures ValidInsert(r.inserts[i]) && r.inserts[i].row.ts == s.table.clock + (i - m)
      ensures r.inserts[i].row.bucketDate == days[i - m]
      ensures r.inserts[i].traced <==> r.inserts[i].row.birdId == TracedBird
    {
      assert r.inserts[i] == evs[i - m];
    }
  }

  /** Insert logs that extend one another, each extension holding only
      valid positions, compose. */
  lemma {:induction false} InsertLogExtends(first: seq<InsertEvent>, mid: seq<InsertEvent>, last: seq<InsertEvent>)
    requires |first| <= |mid| <= |last|
    requires mid[..|first|] == first && last[..|mid|] == mid
    requires forall i :: |first| <= i < |mid| ==> ValidInsert(mid[i])
    requires forall i :: |mid| <= i < |last| ==> ValidInsert(last[i])
    ensures last[..|first|] == first
    ensures forall i :: |first| <= i < |last| ==> ValidInsert(last[i])
  {
    assert last[..|first|] == last[..|mid|][..|first|];
    forall i | |first| <= i < |mid| ensures ValidInsert(last[i]) {
      assert last[i] == mid[i];
    }
  }

  /** Trace logs that extend one another, each extension holding only
      blocks of "bird_4", compose. */
  lemma {:induction false} TraceLogExtends(first: seq<Store.Key>, mid: seq<Store.Key>, last: seq<Store.Key>)
    requires |first| <= |mid| <= |last|
    requires mid[..|first|] == first && last[..|mid|] == mid
    requires forall i :: |first| <= i < |mid| ==> mid[i].birdId == TracedBird
    requires forall i :: |mid| <= i < |last| ==> last[i].birdId == TracedBird
    ensures last[..|first|] == first
    ensures forall i :: |first| <= i < |last| ==> last[i].birdId == TracedBird
  {
    assert last[..|first|] == last[..|mid|][..|first|];
    forall i | |first| <= i < |mid| ensures last[i].birdId == TracedBird {
      assert last[i] == mid[i];
    }
  }

  /** Over any number of cycles the flock survives with the same (id,
      species) pairs, the table stays valid, and from the first cycle on
      every position is geographically valid. */
  lemma {:induction false} ReplayKeepsFlock(s: State, perms: seq<seq<nat>>, deltas: seq<seq<Delta>>,
                                            days: seq<seq<int>>)
    requires Flock(s.birds, |s.birds|) && Store.Valid(s.table)
    requires Schedule(|s.birds|, perms, deltas, days) && Bounded(deltas)
    ensures var r := Replay(s, perms, deltas, days);
      && Flock(r.birds, |s.birds|) && Store.Valid(r.table)
      && multiset(Tags(r.birds)) == multiset(Tags(s.birds))
      && (|perms| > 0 ==> forall i :: 0 <= i < |s.birds| ==>
            ValidLatitude(r.birds[i].latitude) && ValidLongitude(r.birds[i].longitude))
    decreases |perms|
  {
    if |perms| > 0 {
      var k := |perms| - 1;
      ReplayLast(s, perms, deltas, days);
      ReplayKeepsFlock(s, perms[..k], deltas[..k], days[..k]);
      CycleOfFlock(Replay(s, perms[..k], deltas[..k], days[..k]), perms[k], deltas[k], days[k]);
    }
  }

  lemma {:induction false} MulStep(k: nat, n: nat)
    ensures (k + 1) * n == k * n + n
  {
  }

  /** Over a run, every cycle writes one INSERT per bird with consecutive
      `now()` stamps. */
  lemma {:induction false} ReplayCounts(s: State, perms: seq<seq<nat>>, deltas: seq<seq<Delta>>,
                                        days: seq<seq<int>>)
    requires Schedule(|s.birds|, perms, deltas, days)
    ensures var r, n := Replay(s, perms, deltas, days), |s.birds|;
      && r.table.clock == s.table.clock + |perms| * n
      && |r.inserts| == |s.inserts| + |perms| * n
    decreases |perms|
  {
    if |perms| > 0 {
      var n, k := |s.birds|, |perms| - 1;
      assert Schedule(n, perms[..k], deltas[..k], days[..k]);
      ReplayCounts(s, perms[..k], deltas[..k], days[..k]);
      MulStep(k, n);
    }
  }

  /** Over a run of a flock the trace log only grows, by one block per cycle
      when there are at least four birds, and every block it gains is for
      "bird_4". */
  lemma {:induction false} ReplayTraces(s: State, perms: seq<seq<nat>>, deltas: seq<seq<Delta>>,
                                        days: seq<seq<int>>)
    requires Flock(s.birds, |s.birds|) && Store.Valid(s.table)
    requires Schedule(|s.birds|, perms, deltas, days) && Bounded(deltas)
    ensures var r := Replay(s, perms, deltas, days);
      && |r.traceBlocks| == |s.traceBlocks| + (if |s.birds| >= 4 then |perms| else 0)
      && r.traceBlocks[..|s.traceBlocks|] == s.traceBlocks
      && forall i :: |s.traceBlocks| <= i < |r.traceBlocks| ==> r.traceBlocks[i].birdId == TracedBird
    decreases |perms|
  {
    if |perms| > 0 {
      var k := |perms| - 1;
      ReplayLast(s, perms, deltas, days);
      ReplayTraces(s, perms[..k], deltas[..k], days[..k]);
      ReplayKeepsFlock(s, perms[..k], deltas[..k], days[..k]);
      var before := Replay(s, perms[..k], deltas[..k], days[..k]);
      CycleLogs(before, perms[k], deltas[k], days[k]);
      TraceLogExtends(s.traceBlocks, before.traceBlocks, Replay(s, perms, deltas, days).traceBlocks);
    }
  }

  /** Over a run of a flock the insert log only grows, and every INSERT it
      gains writes a geographically valid position. */
  lemma {:induction false} ReplayInserts(s: State, perms: seq<seq<nat>>, deltas: seq<seq<Delta>>,
                                         days: seq<seq<int>>)
    requires Flock(s.birds, |s.birds|) && Store.Valid(s.table)
    requires Schedule(|s.birds|, perms, deltas, days) && Bounded(deltas)
    ensures var r := Replay(s, perms, deltas, days);
      && |s.inserts| <= |r.inserts|
      && r.inserts[..|s.inserts|] == s.inserts
      && forall i :: |s.inserts| <= i < |r.inserts| ==> ValidInsert(r.inserts[i])
    decreases |perms|
  {
    if |perms| > 0 {
      var k := |perms| - 1;
      ReplayLast(s, perms, deltas, days);
      ReplayInserts(s, perms[..k], deltas[..k], days[..k]);
      var before := Replay(s, perms[..k], deltas[..k], days[..k]);
      assert Flock(before.birds, |s.birds|) by {
        ReplayKeepsFlock(s, perms[..k], deltas[..k], days[..k]);
      }
      CycleInserts(before, perms[k], deltas[k], days[k]);
      InsertLogExtends(s.inserts, before.inserts, Replay(s, perms, deltas, days).inserts);
    }
  }

  /** In one cycle whose dates are all `day`, each bird of the flock gets its
      new row in front of its partition for that day. */
  lemma {:induction false} CyclePartition(s: State, perm: seq<nat>, ds: seq<Delta>, days: seq<int>,
                                          day: int, b: string)
    requires Flock(s.birds, |s.birds|) && Store.Valid(s.table)
    requires IsPermutation(perm, |s.birds|) && |ds| == |s.birds| && |days| == |s.birds|
    requires forall i :: 0 <= i < |s.birds| ==> WithinStep(ds[i].dlat, StepDeg) && WithinStep(ds[i].dlon, StepDeg)
    requires forall i :: 0 <= i < |days| ==> days[i] == day
    requires b in Roster(|s.birds|)
    ensures var rows := Store.Partition(Cycle(s, perm, ds, days).table, Store.Key(b, day));
      |rows| == |Store.Partition(s.table, Store.Key(b, day))| + 1
      && rows[1..] == Store.Partition(s.table, Store.Key(b, day))
  {
    var n := |s.birds|;
    var next := AdvanceAll(Gather(s.birds, perm), ds);
    CycleKeepsFlock(s.birds, perm, ds);
    // the bird appears exactly once in the new order
    assert b in multiset(Ids(next));
    var j :| 0 <= j < n && Ids(next)[j] == b;
    FlockDistinct(next, n);
    forall i | 0 <= i < n && i != j ensures next[i].birdId != next[j].birdId {
      assert Ids(next)[i] == next[i].birdId && Ids(next)[j] == next[j].birdId;
    }
    WriteAllNewest(s.table, next, days, j);
  }

  /** On a run whose dates are all one day, each bird of the flock gains one
      row per cycle in its partition for that day, in front of the rows it
      held before the run. */
  lemma {:induction false} ReplayRowsGrow(s: State, perms: seq<seq<nat>>, deltas: seq<seq<Delta>>,
                                          days: seq<seq<int>>, day: int, b: string)
    requires Flock(s.birds, |s.birds|) && Store.Valid(s.table)
    requires Schedule(|s.birds|, perms, deltas, days) && Bounded(deltas)
    requires forall c, i :: 0 <= c < |days| && 0 <= i < |days[c]| ==> days[c][i] == day
    requires b in Roster(|s.birds|)
    ensures var rows := Store.Partition(Replay(s, perms, deltas, days).table, Store.Key(b, day));
      && |rows| == |perms| + |Store.Partition(s.table, Store.Key(b, day))|
      && rows[|perms|..] == Store.Partition(s.table, Store.Key(b, day))
    decreases |perms|
  {
    if |perms| > 0 {
      var key := Store.Key(b, day);
      var k := |perms| - 1;
      ReplayLast(s, perms, deltas, days);
      ReplayRowsGrow(s, perms[..k], deltas[..k], days[..k], day, b);
      var before := Replay(s, perms[..k], deltas[..k], days[..k]);
      assert Flock(before.birds, |s.birds|) && Store.Valid(before.table) by {
        ReplayKeepsFlock(s, perms[..k], deltas[..k], days[..k]);
      }
      assert forall i :: 0 <= i < |days[k]| ==> days[k][i] == day;
      CyclePartition(before, perms[k], deltas[k], days[k], day, b);
      ConsSuffix(Store.Partition(Replay(s, perms, deltas, days).table, key),
                 Store.Partition(before.table, key), Store.Partition(s.table, key), k);
    }
  }

  /** After k cycles on one day, each bird's partition for that day holds k
      rows more than before the run, newest first, with the earlier rows
      behind the new ones. */
  lemma {:induction false} ReplayPartition(s: State, perms: seq<seq<nat>>, deltas: seq<seq<Delta>>,
                                           days: seq<seq<int>>, day: int, b: string)
    requires Flock(s.birds, |s.birds|) && Store.Valid(s.table)
    requires Schedule(|s.birds|, perms, deltas, days) && Bounded(deltas)
    requires forall c, i :: 0 <= c < |days| && 0 <= i < |days[c]| ==> days[c][i] == day
    requires b in Roster(|s.birds|)
    ensures var rows := Store.Partition(Replay(s, perms, deltas, days).table, Store.Key(b, day));
      && |rows| == |perms| + |Store.Partition(s.table, Store.Key(b, day))|
      && rows[|perms|..] == Store.Partition(s.table, Store.Key(b, day))
      && Store.NewestFirst(rows)
  {
    var key := Store.Key(b, day);
    var r := Replay(s, perms, deltas, days);
    ReplayRowsGrow(s, perms, deltas, days, day, b);
    ReplayKeepsFlock(s, perms, deltas, days);
    assert key in r.table.partitions ==> Store.PartitionValid(key, r.table.partitions[key], r.table.clock);
  }

  /** The state of one run of `simulate_birds`: the bird records it updates in
      place, the table it writes to, and what it has emitted so far. */
  class Simulator {
    /** `number_of_birds`. */
    const count: nat
    /** `birds_info`, in its current (shuffled) order. */
    var birds: seq<Bird>
    var table: Store.Table
    /** Every INSERT executed, in order. */
    var inserts: seq<InsertEvent>
    /** One entry per trace block written to the trace file. */
    var traceBlocks: seq<Store.Key>
    /** Number of `time.sleep(period)` calls. */
    var sleeps: nat

    ghost predicate Valid()
      reads this
    {
      Flock(birds, count) && Store.Valid(table)
    }

    /** The set-up: ids "bird_1" .. "bird_n", each with a species from the
        catalogue and initial coordinates drawn from [-180, 180] x [-90, 90]. */
    constructor (n: nat, speciesChoice: seq<nat>, latitudes: seq<real>, longitudes: seq<real>,
                 t: Store.Table)
      requires |speciesChoice| == n && |latitudes| == n && |longitudes| == n
      requires forall i :: 0 <= i < n ==> speciesChoice[i] < |SpeciesOptions|
      requires forall i :: 0 <= i < n ==> -180.0 <= latitudes[i] <= 180.0
      requires forall i :: 0 <= i < n ==> -90.0 <= longitudes[i] <= 90.0
      requires Store.Valid(t)
      ensures Valid()
      ensures count == n && Ids(birds) == Roster(n)
      ensures forall i :: 0 <= i < n ==>
        birds[i] == Bird(BirdId(i + 1), SpeciesOptions[speciesChoice[i]], latitudes[i], longitudes[i])
      ensures table == t && inserts == [] && traceBlocks == [] && sleeps == 0
    {
      count := n;
      birds := seq(n, i requires 0 <= i < n =>
        Bird(BirdId(i + 1), SpeciesOptions[speciesChoice[i]], latitudes[i], longitudes[i]));
      table := t;
      inserts := [];
      traceBlocks := [];
      sleeps := 0;
      new;
      assert Ids(birds) == Roster(n);
    }

    /** Cycle `idx` of the update loop: sleep unless it is the first, shuffle
        `birds_info` by `perm`, then for each bird in the new order advance it,
        insert its row (tracing "bird_4" only) and write its trace block; then
        sleep again. */
    method UpdateCycle(idx: nat, perm: seq<nat>, deltas: seq<Delta>, days: seq<int>)
      requires Valid()
      requires IsPermutation(perm, count) && |deltas| == count && |days| == count
      requires forall i :: 0 <= i < count ==>
        WithinStep(deltas[i].dlat, StepDeg) && WithinStep(deltas[i].dlon, StepDeg)
      modifies this
      ensures Valid()
      ensures birds == AdvanceAll(Gather(old(birds), perm), deltas)
      ensures table == WriteAll(old(table), birds, days)
      ensures inserts == old(inserts) + InsertEvents(old(table).clock, birds, days)
      ensures traceBlocks == old(traceBlocks) + TraceBlocks(birds, days)
      ensures sleeps == old(sleeps) + (if idx == 0 then 1 else 2)
    {
      // every cycle but the first starts with a sleep
      var naps := if idx == 0 then 0 else 1;
      var pass := ShuffledPass(birds, count, perm, deltas, days, table);
      // and every cycle ends with one
      naps := naps + 1;
      birds, table, sleeps := pass.advanced, pass.table, sleeps + naps;
      inserts, traceBlocks := inserts + pass.inserts, traceBlocks + pass.blocks;
    }

    /** The update loop of `simulate_birds`, one cycle per shuffle drawn:
        the state afterwards is the replay of those cycles from the state
        before (`ReplayKeepsFlock`, `ReplayCounts`, `ReplayInserts`,
        `ReplayTraces` and `ReplayPartition` say what that means for the
        birds, the logs and the table), and the loop
        sleeps twice per cycle except before the first. */
    method Run(perms: seq<seq<nat>>, deltas: seq<seq<Delta>>, days: seq<seq<int>>)
      requires Valid()
      requires Schedule(count, perms, deltas, days) && Bounded(deltas)
      modifies this
      ensures Valid()
      ensures State(birds, table, inserts, traceBlocks)
           == Replay(State(old(birds), old(table), old(inserts), old(traceBlocks)), perms, deltas, days)
      ensures table.clock == old(table.clock) + |perms| * count
      ensures |inserts| == |old(inserts)| + |perms| * count
      ensures |traceBlocks| == |old(traceBlocks)| + (if count >= 4 then |perms| else 0)
      ensures sleeps == old(sleeps) + (if |perms| == 0 then 0 else 2 * |perms| - 1)
    {
      ghost var start, naps := State(birds, table, inserts, traceBlocks), sleeps;
      var c := 0;
      while c < |perms|
        invariant c <= |perms| && Valid()
        invariant Schedule(count, perms[..c], deltas[..c], days[..c])
        invariant State(birds, table, inserts, traceBlocks) == Replay(start, perms[..c], deltas[..c], days[..c])
        invariant sleeps == naps + (if c == 0 then 0 else 2 * c - 1)
      {
        ghost var before := State(birds, table, inserts, traceBlocks);
        UpdateCycle(c, perms[c], deltas[c], days[c]);
        ReplayStep(start, perms, deltas, days, c);
        assert State(birds, table, inserts, traceBlocks) == Cycle(before, perms[c], deltas[c], days[c]);
        c := c + 1;
      }
      assert perms[..c] == perms && deltas[..c] == deltas && days[..c] == days;
      ReplayCounts(start, perms, deltas, days);
      ReplayTraces(start, perms, deltas, days);
    }
  }
}
