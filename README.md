# Cassandra bird tracking, modelled in Dafny

Two scripts share one Cassandra table of bird positions. The table is
partitioned by `(bird_id, bucket_date)` and clustered by a TimeUUID `ts` in
descending order.

- The **simulator** (`cassandraBirdsClient.py`) creates N birds, "bird_1" to
  "bird_N". Each bird has a species and a starting position. In every update
  cycle the simulator shuffles the birds, moves each one by a small bounded
  random step, and inserts the new position with `now()` as the timestamp. It
  asks for a query trace on the inserts of "bird_4" only.
- The **tracker** (`cassandraBirdsTracker.py`) lists the bird ids once, as a
  sorted set taken from a `SELECT DISTINCT` over the partition keys. It traces
  the fourth id of that list. In every polling cycle it reads the newest row of
  each listed bird's partition for today (`LIMIT 1`).

The project models, module by module:

- `Basics`: `Option`, `Result` and the error conditions.
- `Text`: Python's string order, and `str(n)` for the ids.
- `RandomWalk`: `random_step`, meaning the latitude reflection and the
  longitude wrap.
- `Sequences`: shuffles as permutations of indices.
- `Store`: the table as an abstract value. Each partition is a list of rows,
  newest first. A store clock stands for `now()`.
- `InsertStatement`: `insert_into`. It covers the VALUES clause with its `?`
  markers or `now()`, the positional value list with `ts` inserted at index 2,
  and an idealized binding of the list to the markers.
- `Writer`: `simulate_birds`. The class `Simulator` holds the bird records the
  script updates in place, the table, the log of executed inserts, the
  trace-file blocks and a count of sleeps.
- `Reader`: `get_all_bird_ids`, `get_info_of_bird` and the polling loop of
  `track_birds`.
- `Contract`: what the tracker reads of what the simulator wrote.

The model proves these main facts:

- A shuffle-and-step cycle keeps the flock, meaning the same ids with the same
  species, and every stored position is a valid latitude and longitude.
  - The initial positions are drawn with the latitude in [-180, 180] and the
    longitude in [-90, 90]. The latitude range is wider than a valid latitude.
  - Even so, one reflection brings each position into range on its first step,
    and nothing is stored before that step.
- Every cycle inserts each bird of the roster exactly once, with consecutive
  `now()` stamps and a valid position.
- Every cycle traces exactly one insert when "bird_4" exists, and every trace
  block of a run is for "bird_4".
- The update loop's final state is the replay of its cycles from the initial
  state. On a run whose dates are all one day, k cycles add k rows to each
  bird's partition for that day, newest first, in front of the rows it
  already held.
- The sleeps total `2·cycles − 1` for at least one cycle, and 0 for none.
- A limit-1 read of a bird's partition returns the row the last pass wrote for
  that bird.
- After one pass of the simulator into an empty table, the tracker's id list
  is exactly the simulator's roster. A table that still holds rows of other
  birds lists those too.
- With the default ten birds the tracker traces "bird_3", not "bird_4". In
  Python's string order "bird_10" sorts before "bird_2", so the fourth id is
  "bird_3".

The tracker chooses the traced bird with `==` on the ids (value equality), and
the model follows the code in this.

## Model

| member | source | states |
|---|---|---|
| Text.Below | cassandraBirdsTracker.py:27 | Python's `<` on `str`, which `sorted` uses: lexicographic by code point. A proper prefix comes first. Its order properties are `BelowTransitive`, `BelowTotal` and `BelowAsymmetric`. |
| Text.BelowTransitive | cassandraBirdsTracker.py:27 | Python's string order `<` is transitive. |
| Text.BelowTotal | cassandraBirdsTracker.py:27 | Any two different strings are ordered one way or the other, so `sorted` of a set is a strict chain. |
| Text.BelowAsymmetric | cassandraBirdsTracker.py:27 | `a < b` excludes `b < a`. |
| Text.Decimal | cassandraBirdsClient.py:137 | `str(n)` is non-empty, and has one character exactly when n < 10. |
| Text.DecimalInjective | cassandraBirdsClient.py:137 | Different numbers render as different strings, so the formatted ids are distinct. |
| RandomWalk.ReflectLatitude | cassandraBirdsClient.py:116-120 | The reflection leaves a valid latitude alone, and lands in [-90, 90] for any input in [-270, 270]. |
| RandomWalk.WrapLongitude | cassandraBirdsClient.py:121-125 | The wrap moves by at most one 360, leaves a valid longitude alone, and lands in [-180, 180] for any input in [-540, 540]. |
| RandomWalk.RandomStep | cassandraBirdsClient.py:107-127 | The step adds the two draws, then reflects the latitude at the pole it crossed and keeps an in-range longitude. |
| RandomWalk.StepLandsInRange | cassandraBirdsClient.py:113-125 | Inside the band, one step always yields a valid latitude and longitude. |
| RandomWalk.ReflectionLeavesRangeBeyondBand | cassandraBirdsClient.py:117-120 | One reflection is not enough outside the band: 271 comes back as -91. |
| RandomWalk.ZeroStepIsIdentity | cassandraBirdsClient.py:107-127 | A step with both draws zero leaves a valid position unchanged. |
| RandomWalk.AdjustmentsIdempotent | cassandraBirdsClient.py:116-125 | Reflecting or wrapping a second time changes nothing. |
| RandomWalk.ReflectionWithinDelta | cassandraBirdsClient.py:107-120 | From a valid latitude, the reflected latitude is never farther from the start than `step_deg`. |
| Sequences.PermutationKeepsMultiset | cassandraBirdsClient.py:166 | Reordering by a shuffle permutation keeps the multiset of elements. |
| Sequences.DistinctSameElements | cassandraBirdsTracker.py:27 | Two duplicate-free lists with the same members have the same length and multiset. |
| Store.Upsert | cassandraBirdsClient.py:45-47 | Places a row in a partition by its clustering column `ts DESC`. A row with an equal `ts` overwrites the old one, since the primary key is `((bird_id, bucket_date), ts)`. The written row is always present, and the partition grows by at most one row. Order and membership are stated by `UpsertKeepsOrder`. |
| Store.UpsertKeepsOrder | cassandraBirdsClient.py:45-47 | A write keeps a partition in `ts DESC` order. Its rows become the new row plus the old rows with another `ts`, so an equal `ts` overwrites. |
| Store.Insert | cassandraBirdsClient.py:45-47 | A write adds its own partition key to the table, and the clock moves past the row's `ts`. |
| Store.InsertElsewhere | cassandraBirdsClient.py:45 | A write leaves every other partition unchanged. |
| Store.InsertKeepsValid | cassandraBirdsClient.py:45-47 | A write keeps every partition non-empty, ordered, of its own key and older than the clock. |
| Store.InsertNowIsNewest | cassandraBirdsClient.py:93 | A row stamped with `now()` goes to the front of its partition, and the rest of the partition is unchanged. |
| InsertStatement.ValuesClause | cassandraBirdsClient.py:81-96 | The VALUES clause has six slots, one per column. `now()` appears exactly when `ts` is absent, and every other slot is a `?` marker. |
| InsertStatement.ListInsert | cassandraBirdsClient.py:100-101 | `values.insert(2, ts)` puts `ts` at index 2 and shifts the rest, and an index past the end appends. |
| InsertStatement.Parameters | cassandraBirdsClient.py:99-101 | The value list `[bird_id, bucket_date, latitude, longitude, species]` has `ts` inserted at index 2 when it is given. It has 5 or 6 entries, `bird_id` and `bucket_date` lead, and `latitude`, `longitude` and `species` close it. `ParametersMatchMarkers` relates it to the markers. |
| InsertStatement.Bind | cassandraBirdsClient.py:102-104 | Positional binding: each `?` takes the next value and each `now()` takes the store clock. A successful binding yields one value per slot, and every `now()` slot gets the clock. `BindSucceedsIffCountsAgree` says when it succeeds. |
| InsertStatement.Execute | cassandraBirdsClient.py:102-104 | `session.execute` of the prepared INSERT. A value list whose length differs from the `?` count fails with `BindMismatch`, and success implies the counts agree. The only other failure is `ColumnTypeMismatch`. |
| InsertStatement.BindSucceedsIffCountsAgree | cassandraBirdsClient.py:90-104 | Binding succeeds exactly when there is one value per `?`, and then yields one value per column. |
| InsertStatement.BindFromTsColumn | cassandraBirdsClient.py:93-101 | The `ts` slot, either a marker taking `ts` or `now()` taking the clock, binds with the three markers after it in column order. |
| InsertStatement.BindsInColumnOrder | cassandraBirdsClient.py:81-101 | The bound values are `(bird_id, bucket_date, ts or now(), latitude, longitude, species)`, in the order of the column list. |
| InsertStatement.ParametersMatchMarkers | cassandraBirdsClient.py:93-101 | There are 5 values without `ts` and 6 with it, and they always match the number of `?` markers. |
| InsertStatement.InsertInto | cassandraBirdsClient.py:70-104 | `insert_into` always succeeds. It writes the row with the given `ts`, or with `now()` when `ts` is absent. |
| Writer.Roster | cassandraBirdsClient.py:137 | The roster has one id per bird. |
| Writer.BirdIdInjective | cassandraBirdsClient.py:137 | `bird_{idx}` is injective in idx. |
| Writer.TracedIsFourth | cassandraBirdsClient.py:137-138 | "bird_4" is the id of index 4 and of no other index. |
| Writer.RosterFacts | cassandraBirdsClient.py:137-138 | The roster is duplicate-free, and holds "bird_4" exactly once when N ≥ 4 and never otherwise. |
| Writer.Advance | cassandraBirdsClient.py:169-171 | `bird["latitude"], bird["longitude"] = random_step(...)` changes only the position: the bird keeps its id and its species. |
| Writer.AdvanceAll | cassandraBirdsClient.py:167-171 | Every bird of the list is advanced by its own draws, and the list keeps its length. `CycleKeepsFlock` and `CycleKeepsRoster` state what the shuffled, advanced list keeps. |
| Writer.AdvanceIntoRange | cassandraBirdsClient.py:151-171 | From the initial draw band, a step yields a valid position and stays in the band. |
| Writer.WriteAll | cassandraBirdsClient.py:167-182 | A pass of inserts advances the `now()` clock by one per bird. |
| Writer.InsertEvents | cassandraBirdsClient.py:173-182 | The log of one pass has one INSERT per bird. Its contents are stated by `InsertEventsAt`. |
| Writer.InsertEventsAt | cassandraBirdsClient.py:173-182 | The i-th INSERT of a pass writes the i-th bird, with its date, at the i-th `now()` stamp, and it is traced exactly when the bird is "bird_4". |
| Writer.TraceBlocks | cassandraBirdsClient.py:184-189 | The trace blocks of one pass: at most one per bird, and each one is for "bird_4". |
| Writer.TraceBlockCount | cassandraBirdsClient.py:184-189 | A pass writes one trace block per occurrence of "bird_4", each keyed by that bird. |
| Writer.WriteAllKeepsValid | cassandraBirdsClient.py:167-182 | A pass of inserts keeps the table valid. |
| Writer.WriteAllElsewhere | cassandraBirdsClient.py:167-182 | A pass leaves the partitions of birds it does not write unchanged. |
| Writer.WriteLastIsNewest | cassandraBirdsClient.py:173-182 | After a pass, the last bird's row heads its partition. |
| Writer.WriteAllNewest | cassandraBirdsClient.py:167-182 | After a pass over distinct birds, each bird's row, stamped with the clock at its turn, heads its partition. The earlier rows follow it. |
| Writer.FlockDistinct | cassandraBirdsClient.py:137-155 | The ids of a flock are distinct. |
| Writer.CycleKeepsFlock | cassandraBirdsClient.py:166-171 | Shuffling and stepping keeps the ids as the roster, the species in the catalogue and the positions in the band. |
| Writer.CycleKeepsRoster | cassandraBirdsClient.py:166-171 | A cycle keeps the multiset of (id, species) pairs, and every position afterwards is valid. |
| Writer.FlockTracesOnce | cassandraBirdsClient.py:181-189 | A cycle over a flock traces exactly one insert when N ≥ 4, and none otherwise. |
| Writer.Cycle | cassandraBirdsClient.py:163-189 | One cycle on the simulator's state: shuffle, advance every bird, write the advanced birds in the new order, and log their INSERTs and trace blocks. The clock and the insert log grow by N, and the old log is kept as a prefix. What else a cycle keeps is stated by `CycleOfFlock`, `CycleLogs`, `CycleInserts` and `CyclePartition`. |
| Writer.CycleOfFlock | cassandraBirdsClient.py:166-182 | One cycle keeps the flock with its (id, species) pairs and the table valid, and leaves every position valid. |
| Writer.CycleLogs | cassandraBirdsClient.py:166-189 | One cycle advances the clock and the insert log by N, and appends one trace block, of "bird_4", exactly when N ≥ 4. |
| Writer.CycleInserts | cassandraBirdsClient.py:166-182 | A cycle inserts every bird of the roster exactly once: the ids of its new INSERTs have the multiset of the roster. The i-th new INSERT is stamped `clock + i` with the i-th date and holds a valid position, and it is traced exactly for "bird_4". |
| Writer.CyclePartition | cassandraBirdsClient.py:166-182 | In a cycle whose dates are all one day, each bird's partition for that day gains exactly one row, in front of the old rows. |
| Writer.Replay | cassandraBirdsClient.py:160-191 | The simulator's state after a list of cycles: one `Cycle` per shuffle, folded from the initial state. The number of birds stays the same. `Simulator.Run` is proved equal to it, and `ReplayKeepsFlock`, `ReplayCounts`, `ReplayInserts`, `ReplayTraces` and `ReplayPartition` state what it holds. |
| Writer.ReplayKeepsFlock | cassandraBirdsClient.py:160-182 | After any number of cycles the birds are still the flock with the same (id, species) pairs, and the table is valid. After at least one cycle, every position is valid. |
| Writer.ReplayCounts | cassandraBirdsClient.py:160-182 | After k cycles of N birds, the `now()` clock and the insert log have grown by k·N. |
| Writer.ReplayInserts | cassandraBirdsClient.py:160-182 | Over a run, the insert log keeps its old entries, and every INSERT it gains writes a valid latitude and longitude. |
| Writer.ReplayTraces | cassandraBirdsClient.py:160-189 | Over a run, the trace log keeps its old blocks and gains one block per cycle when N ≥ 4, none otherwise. Every block gained is for "bird_4". |
| Writer.ReplayRowsGrow | cassandraBirdsClient.py:160-182 | On one day, k cycles put k new rows in front of each bird's partition for that day. |
| Writer.ReplayPartition | cassandraBirdsClient.py:160-182 | After k cycles on one day, each bird's partition for that day holds k more rows, newest first, with the earlier rows behind them. |
| Writer.WriteBird | cassandraBirdsClient.py:173-189 | One insert: the row with the bird's id, date, position, species and `now()`. It is traced exactly when the id is "bird_4", and then a trace block for its key is written. |
| Writer.WriteNext | cassandraBirdsClient.py:167-189 | One iteration of the inner loop takes the pass state after i birds to the state after i + 1. |
| Writer.WritePass | cassandraBirdsClient.py:167-189 | The inner loop advances every bird, writes every advanced row in order, and logs the inserts and trace blocks. |
| Writer.ShuffledPass | cassandraBirdsClient.py:166-189 | A shuffled pass over a flock writes the advanced birds in shuffle order. It keeps the flock and the table valid. |
| Writer.Simulator.constructor | cassandraBirdsClient.py:137-155 | The set-up gives bird i the id "bird_i", the chosen species and the drawn coordinates, with nothing written yet. |
| Writer.Simulator.UpdateCycle | cassandraBirdsClient.py:163-191 | A cycle shuffles and advances the birds and writes them in the new order. It sleeps once on the first cycle and twice on every later one, and it keeps the flock and the table valid. |
| Writer.Simulator.Run | cassandraBirdsClient.py:160-191 | The update loop: the birds, the table, the insert log and the trace log afterwards are exactly the replay of its cycles from the state before. The clock and insert log grow by N per cycle, and there is one trace block per cycle when N ≥ 4. The loop sleeps 2·cycles − 1 times, or 0 times for no cycles. |
| Reader.SortedDistinct | cassandraBirdsTracker.py:27 | A strictly sorted id list has no duplicates. |
| Reader.ChainSorted | cassandraBirdsTracker.py:27 | A list whose neighbours are in order is strictly sorted. |
| Reader.SortedUnique | cassandraBirdsTracker.py:27 | Two strictly sorted lists with the same members are equal, so `sorted` of a set is determined by the set. |
| Reader.InsertSorted | cassandraBirdsTracker.py:27 | Adding an id to the sorted list adds exactly that id. |
| Reader.InsertSortedKeepsOrder | cassandraBirdsTracker.py:27 | Adding an id keeps the list strictly sorted. |
| Reader.GetAllBirdIds | cassandraBirdsTracker.py:20-28 | The id list is strictly sorted, and holds exactly the ids occurring in the scanned rows. |
| Reader.IdsIgnoreScanOrder | cassandraBirdsTracker.py:22-27 | The id list depends only on which ids the scan returns, not on their order or repetition. |
| Reader.TableIds | cassandraBirdsTracker.py:20-28 | Over a table, the id list is duplicate-free and holds exactly the birds with at least one partition. |
| Reader.GetInfoOfBird | cassandraBirdsTracker.py:31-48 | A read returns a prefix of the partition in clustering order, of at most `limit` rows, and the whole partition when it is shorter. A non-positive `LIMIT` is refused. |
| Reader.ReadStaysInPartition | cassandraBirdsTracker.py:39-45 | Every row a read returns has the requested bird id and date. |
| Reader.LimitOneReturnsNewest | cassandraBirdsTracker.py:36-43 | A read with the default limit 1 returns the newest row of the partition, or nothing for an empty partition. |
| Reader.ReadOf | cassandraBirdsTracker.py:69-88 | One read of the polling loop is of the partition `(bird_id, today)`, and it is traced exactly when the id equals the chosen bird. |
| Reader.ReadOfNewest | cassandraBirdsTracker.py:73-88 | The result line of one read holds the newest row of the partition, or nothing when the partition is empty. |
| Reader.CycleReads | cassandraBirdsTracker.py:69-78 | One cycle performs one read per listed bird. |
| Reader.Traced | cassandraBirdsTracker.py:80-85 | The trace blocks of a list of reads, one per traced read, so there are never more blocks than reads. Their count and owner are stated by `CycleTraces` and `OneTracePerCycle`. |
| Reader.TracedAppend | cassandraBirdsTracker.py:80-85 | The trace log of consecutive reads is the concatenation of their logs. |
| Reader.CycleTraces | cassandraBirdsTracker.py:69-85 | Within a cycle, a bird is traced once per listing, and every trace block is for that bird. |
| Reader.OneTracePerCycle | cassandraBirdsTracker.py:58-85 | With a sorted list, the traced bird `bird_list[3]` gets exactly one trace block per cycle. |
| Reader.TrackingReads | cassandraBirdsTracker.py:65-88 | All reads of the polling loop, cycle after cycle, each one for a listed bird. `TrackingShape` gives the count. |
| Reader.TrackingShape | cassandraBirdsTracker.py:65-88 | The result file has cycles × listed-birds lines, and each one reads a listed bird. |
| Reader.ReadCycle | cassandraBirdsTracker.py:69-88 | The inner loop reads every listed bird in list order, with limit 1, tracing only the chosen bird. |
| Reader.TrackBirds | cassandraBirdsTracker.py:51-88 | Fewer than four ids fail at `bird_list[3]`. Otherwise the fourth id is traced, every cycle reads every listed bird, and there are cycles − 1 sleeps. |
| Contract.NowWriteReadBack | cassandraBirdsTracker.py:36-43 | A row inserted with `now()` is exactly what a limit-1 read of its partition returns. |
| Contract.PassThenNewestRead | cassandraBirdsTracker.py:36-45 | After a simulator pass, a limit-1 read of any bird's partition for its date returns the row the pass wrote for it. |
| Contract.WriteAllKeys | cassandraBirdsClient.py:173-182 | The partitions after a pass are the old ones plus one per (bird, date) written. |
| Contract.TrackerSeesFlock | cassandraBirdsTracker.py:20-28 | After one pass into an empty table, the tracker lists exactly the simulator's roster, one entry per bird. |
| Contract.DefaultIds | cassandraBirdsClient.py:137 | The default ids render as "bird_1" to "bird_10". |
| Contract.DefaultOrderSorted | cassandraBirdsTracker.py:27 | The list "bird_1", "bird_10", "bird_2", …, "bird_9" is strictly sorted, and lists the default roster. |
| Contract.DefaultRunTracesOtherBird | cassandraBirdsTracker.py:57-58 | With ten birds the tracker's list is that order, so it traces "bird_3" while the simulator traces "bird_4". |

## Left out

- The Cassandra driver is not modelled. This covers `Cluster`, `connect`, `prepare`, `shutdown`, `connect_to_cluster` and `main`: they are I/O.
- A failing `session.execute` is not modelled. Unavailable replicas, timeouts or a lost connection raise in the driver and end either script (cassandraBirdsClient.py:104, cassandraBirdsTracker.py:24, cassandraBirdsTracker.py:48). In the model, `InsertInto` always succeeds, and a read with a positive `LIMIT` always returns.
- `create_keyspace`, the replication factor and the consistency levels are not modelled. A single consistent table stands for the replicated cluster.
- `create_table` is not an operation of the model. Its schema is the `Store` datatype, and the `IF NOT EXISTS` statement runs twice with no effect.
- Configuration read from the environment (`load_dotenv`, `os.getenv`) becomes parameters: the bird count and the lists of cycles. These are already integers in the model. `main` passes the raw `os.getenv` strings, so `number_of_birds + 1`, `range(...)` and `time.sleep(...)` would raise `TypeError` as written (cassandraBirdsClient.py:208-210, cassandraBirdsTracker.py:104-105); that failure is not modelled.
- InsertStatement.Bind: binding a value list to the markers is idealized. Each `?` takes the next value and `now()` takes the store clock. A value list whose length does not match the markers fails as `BindMismatch`, and a value of the wrong CQL type fails as `ColumnTypeMismatch`. The driver's own checks and messages are not modelled.
- Randomness becomes parameters. This covers `random.choice` of a species, `random.uniform` for the initial coordinates and the steps, and `random.shuffle`. A shuffle is an index permutation.
- `date.today()` and `datetime.now()` become parameters. They give one bucket date per insert or read, and the file names are not modelled.
- Floating point is not modelled: `float` is a mathematical real, so rounding in the step arithmetic is not captured.
- A TimeUUID is modelled by its time component. `now()` is a store clock that is later than every stored `ts`.
- `time.sleep` is counted, not waited. `tqdm` progress bars are not modelled.
- The trace and result files are logs of events. A trace block is the key of the traced statement, and the events the server reports are not modelled.
- The interleaving of the two scripts against a live cluster is not modelled. The tracker reads one given table per cycle, and the contract lemmas relate it to the tables the simulator produces.
- Writer.Simulator.UpdateCycle: `birds_info` dictionaries are updated in place in the source. The model rebuilds the list of bird values in shuffle order instead, so aliasing of the dictionaries is not captured.
- Reader.GetInfoOfBird: Cassandra rejects a non-positive `LIMIT` at the server. This is modelled as the error `InvalidLimit`.
- Reader.TrackBirds: the `IndexError` raised by `bird_list[3]` on fewer than four ids is modelled as the error `NotEnoughBirds`.
- InsertStatement.ListInsert: only non-negative indices are modelled, since the source inserts at index 2. Python's negative indices are left out.
