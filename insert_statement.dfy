/** The statement built by `insert_into` in cassandraBirdsClient.py: its
    VALUES clause (`?` markers, or `now()` for `ts`), its positional value
    list, and how the driver binds the list to the markers before the row is
    written. */
module InsertStatement {
  import opened Basics
  import Store

  /** The CQL values the statement can carry. */
  datatype Value = Text(text: string) | Day(day: int) | Double(number: real) | TimeUuid(time: nat)

  /** One entry of the VALUES clause: a bind marker `?` or the call `now()`. */
  datatype Slot = Marker | NowCall

  /** The VALUES clause for the column list
      `(bird_id, bucket_date, ts, latitude, longitude, species)`. */
  function ValuesClause(ts: Option<nat>): (slots: seq<Slot>)
    ensures |slots| == 6 && (NowCall in slots <==> ts.None?)
  {
    [Marker, Marker, if ts.None? then NowCall else Marker, Marker, Marker, Marker]
  }

  /** Python's `list.insert(i, x)` for a non-negative index: an index past the
      end appends. */
  function ListInsert<T>(s: seq<T>, i: nat, x: T): (r: seq<T>)
    ensures |r| == |s| + 1
    ensures i <= |s| ==> r[i] == x && r[..i] == s[..i] && r[i + 1..] == s[i..]
    ensures i > |s| ==> r == s + [x]
  {
    if i <= |s| then s[..i] + [x] + s[i..] else s + [x]
  }

  /** The value list: `[bird_id, bucket_date, latitude, longitude, species]`,
      with `ts` inserted at index 2 when it is given. */
  function Parameters(birdId: string, bucketDate: int, latitude: real, longitude: real,
                      species: string, ts: Option<nat>): (values: seq<Value>)
    ensures |values| == if ts.None? then 5 else 6
    ensures values[..2] == [Text(birdId), Day(bucketDate)]
    ensures values[|values| - 3..] == [Double(latitude), Double(longitude), Text(species)]
    ensures ts.Some? ==> values[2] == TimeUuid(ts.value)
  {
    var values := [Text(birdId), Day(bucketDate), Double(latitude), Double(longitude), Text(species)];
    if ts.Some? then ListInsert(values, 2, TimeUuid(ts.value)) else values
  }

  /** The number of `?` markers in a VALUES clause. */
  function Markers(slots: seq<Slot>): nat
  {
    if |slots| == 0 then 0
    else (if slots[0] == Marker then 1 else 0) + Markers(slots[1..])
  }

  /** Positional binding: each `?` takes the next value of the list, each
      `now()` takes the store's clock. */
  function Bind(slots: seq<Slot>, values: seq<Value>, now: nat): (r: Option<seq<Value>>)
    ensures r.Some? ==> |r.value| == |slots|
    ensures r.Some? ==> forall i :: 0 <= i < |slots| && slots[i] == NowCall ==> r.value[i] == TimeUuid(now)
  {
    if |slots| == 0 then
      if |values| == 0 then Some([]) else None
    else if slots[0] == NowCall then
      match Bind(slots[1..], values, now)
      case None => None
      case Some(rest) => Some([TimeUuid(now)] + rest)
    else if |values| == 0 then None
    else
      match Bind(slots[1..], values[1..], now)
      case None => None
      case Some(rest) => Some([values[0]] + rest)
  }

  /** Binding succeeds exactly when the list has one value per `?`, and then
      yields one value per column. */
  lemma {:induction false} BindSucceedsIffCountsAgree(slots: seq<Slot>, values: seq<Value>, now: nat)
    ensures Bind(slots, values, now).Some? <==> Markers(slots) == |values|
    ensures Bind(slots, values, now).Some? ==> |Bind(slots, values, now).value| == |slots|
  {
    if |slots| > 0 {
      if slots[0] == NowCall {
        BindSucceedsIffCountsAgree(slots[1..], values, now);
      } else if |values| > 0 {
        BindSucceedsIffCountsAgree(slots[1..], values[1..], now);
      }
    }
  }

  /** One step of binding: a leading `?` takes the first value. */
  lemma {:induction false} BindMarkerStep(slots: seq<Slot>, values: seq<Value>, now: nat, rest: seq<Value>)
    requires |slots| > 0 && slots[0] == Marker && |values| > 0
    requires Bind(slots[1..], values[1..], now) == Some(rest)
    ensures Bind(slots, values, now) == Some([values[0]] + rest)
  {
  }

  /** One step of binding: a leading `now()` takes the clock and no value. */
  lemma {:induction false} BindNowStep(slots: seq<Slot>, values: seq<Value>, now: nat, rest: seq<Value>)
    requires |slots| > 0 && slots[0] == NowCall
    requires Bind(slots[1..], values, now) == Some(rest)
    ensures Bind(slots, values, now) == Some([TimeUuid(now)] + rest)
  {
  }

  /** The columns from `ts` on: the third slot (a marker taking `ts`, or
      `now()`) and the three markers after it bind in column order. */
  lemma {:induction false} BindFromTsColumn(birdId: string, bucketDate: int, latitude: real, longitude: real,
                                            species: string, ts: Option<nat>, now: nat)
    ensures var values := Parameters(birdId, bucketDate, latitude, longitude, species, ts);
      Bind(ValuesClause(ts)[2..], values[2..], now)
        == Some([TimeUuid(if ts.Some? then ts.value else now), Double(latitude), Double(longitude), Text(species)])
  {
    var clause := ValuesClause(ts);
    var values := Parameters(birdId, bucketDate, latitude, longitude, species, ts);
    var cells := [Text(birdId), Day(bucketDate), TimeUuid(if ts.Some? then ts.value else now),
                  Double(latitude), Double(longitude), Text(species)];
    // the last three columns take the last three values
    var n := |values|;
    assert values[n - 3..] == [Double(latitude), Double(longitude), Text(species)];
    assert values[n - 3] == cells[3] && values[n - 2] == cells[4] && values[n - 1] == cells[5];
    assert clause[6..] == [] && values[n..] == [] && cells[6..] == [];
    assert Bind(clause[6..], values[n..], now) == Some(cells[6..]);
    BindMarkerStep(clause[5..], values[n - 1..], now, cells[6..]);
    assert clause[5..][1..] == clause[6..] && values[n - 1..][1..] == values[n..];
    assert [values[n - 1]] + cells[6..] == cells[5..];
    BindMarkerStep(clause[4..], values[n - 2..], now, cells[5..]);
    assert clause[4..][1..] == clause[5..] && values[n - 2..][1..] == values[n - 1..];
    assert [values[n - 2]] + cells[5..] == cells[4..];
    BindMarkerStep(clause[3..], values[n - 3..], now, cells[4..]);
    assert clause[3..][1..] == clause[4..] && values[n - 3..][1..] == values[n - 2..];
    assert [values[n - 3]] + cells[4..] == cells[3..];
    // the `ts` column: a marker taking `ts`, or `now()`
    assert clause[2..][1..] == clause[3..];
    if ts.Some? {
      BindMarkerStep(clause[2..], values[2..], now, cells[3..]);
      assert values[2..][1..] == values[3..];
    } else {
      assert values[2..] == values[n - 3..];
      BindNowStep(clause[2..], values[2..], now, cells[3..]);
    }
    assert [cells[2]] + cells[3..] == cells[2..];
  }

  /** Binding the value list to the VALUES clause yields the arguments in the
      statement's column order, with the given `ts` or the clock for `now()`
      in the third column. */
  lemma {:induction false} BindsInColumnOrder(birdId: string, bucketDate: int, latitude: real, longitude: real,
                           species: string, ts: Option<nat>, now: nat)
    ensures Bind(ValuesClause(ts), Parameters(birdId, bucketDate, latitude, longitude, species, ts), now)
         == Some([Text(birdId), Day(bucketDate), TimeUuid(if ts.Some? then ts.value else now),
                  Double(latitude), Double(longitude), Text(species)])
  {
    var clause := ValuesClause(ts);
    var values := Parameters(birdId, bucketDate, latitude, longitude, species, ts);
    var cells := [Text(birdId), Day(bucketDate), TimeUuid(if ts.Some? then ts.value else now),
                  Double(latitude), Double(longitude), Text(species)];
    BindFromTsColumn(birdId, bucketDate, latitude, longitude, species, ts, now);
    assert Bind(clause[2..], values[2..], now) == Some(cells[2..]);
    BindMarkerStep(clause[1..], values[1..], now, cells[2..]);
    assert clause[1..][1..] == clause[2..] && values[1..][1..] == values[2..];
    assert [values[1]] + cells[2..] == cells[1..];
    BindMarkerStep(clause, values, now, cells[1..]);
    assert [values[0]] + cells[1..] == cells;
  }

  /** The value list has five entries without `ts` and six with it, `ts`
      sitting at index 2; either way it has exactly as many entries as the
      statement has `?` markers. */
  lemma {:induction false} ParametersMatchMarkers(birdId: string, bucketDate: int, latitude: real, longitude: real,
                               species: string, ts: Option<nat>)
    ensures var values := Parameters(birdId, bucketDate, latitude, longitude, species, ts);
      && |values| == Markers(ValuesClause(ts))
      && |values| == (if ts.None? then 5 else 6)
      && (ts.Some? ==> values[2] == TimeUuid(ts.value))
  {
    var values := Parameters(birdId, bucketDate, latitude, longitude, species, ts);
    BindsInColumnOrder(birdId, bucketDate, latitude, longitude, species, ts, 0);
    BindSucceedsIffCountsAgree(ValuesClause(ts), values, 0);
  }

  /** Reads a bound tuple in the statement's column order back into a row;
      a value of the wrong CQL type is refused. */
  function RowOf(cells: seq<Value>): Option<Store.Row>
  {
    if |cells| == 6 && cells[0].Text? && cells[1].Day? && cells[2].TimeUuid?
       && cells[3].Double? && cells[4].Double? && cells[5].Text?
    then Some(Store.Row(cells[0].text, cells[1].day, cells[2].time, cells[5].text,
                        cells[3].number, cells[4].number))
    else None
  }

  /** Executing a prepared INSERT with a value list. */
  function Execute(t: Store.Table, slots: seq<Slot>, values: seq<Value>): (r: Result<Store.Table>)
    ensures Markers(slots) != |values| ==> r == Err(BindMismatch)
    ensures r.Ok? ==> Markers(slots) == |values|
    ensures r.Err? ==> r.error == BindMismatch || r.error == ColumnTypeMismatch
  {
    BindSucceedsIffCountsAgree(slots, values, t.clock);
    match Bind(slots, values, t.clock)
    case None => Err(BindMismatch)
    case Some(cells) =>
      match RowOf(cells)
      case None => Err(ColumnTypeMismatch)
      case Some(row) => Ok(Store.Insert(t, row))
  }

  /** `insert_into`: whether `ts` is given or left to `now()`, the statement
      binds and every argument reaches its own column. */
  function InsertInto(t: Store.Table, birdId: string, bucketDate: int, latitude: real,
                      longitude: real, species: string, ts: Option<nat>): (r: Result<Store.Table>)
    ensures r == Ok(Store.Insert(t, Store.Row(birdId, bucketDate,
                                              if ts.Some? then ts.value else t.clock,
                                              species, latitude, longitude)))
  {
    BindsInColumnOrder(birdId, bucketDate, latitude, longitude, species, ts, t.clock);
    Execute(t, ValuesClause(ts), Parameters(birdId, bucketDate, latitude, longitude, species, ts))
  }
}
