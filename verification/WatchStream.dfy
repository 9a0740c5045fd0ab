/**
 The watch stream: full and delta messages with bit edges (backend/watch_stream.py), and the
 client's merge of them (frontend/app.js, handleWatchSocketMessage).
 */
module WatchStream {
  import opened Bytes
  import opened BitEdges

  // ---------- values ----------

  // What one watched item showed: its value and whether it is valid.
  datatype Sample<V> = Sample(value: V, valid: bool)

  datatype Row<V> = Row(id: string, sample: Sample<V>)

  datatype Message<V> = Message(full: bool, values: seq<Row<V>>, edges: seq<EdgeRow>, monoMs: real)

  // What the loop sends: a sample, or an error after which it ends.
  datatype Output<V> = SampleSent(message: Message<V>) | ErrorSent

  datatype EdgeRow = EdgeRow(id: string, value: bit, monoMs: real)

  // A dictionary after rows are stored in it one by one: for each id the last row stays.
  function Overlay<V>(known: map<string, Sample<V>>, rows: seq<Row<V>>): (merged: map<string, Sample<V>>)
  {
    if |rows| == 0 then known
    else Overlay(known, rows[..|rows| - 1])[rows[|rows| - 1].id := rows[|rows| - 1].sample]
  }

  function RowMap<V>(rows: seq<Row<V>>): (m: map<string, Sample<V>>)
  {
    Overlay(map[], rows)
  }

  predicate Differs<V(==)>(previous: map<string, Sample<V>>, row: Row<V>)
  {
    row.id !in previous || previous[row.id] != row.sample
  }

  function Changed<V(==)>(previous: map<string, Sample<V>>, rows: seq<Row<V>>): (changed: seq<Row<V>>)
  {
    if |rows| == 0 then []
    else
      var front, last := Changed(previous, rows[..|rows| - 1]), rows[|rows| - 1];
      if Differs(previous, last) then front + [last] else front
  }

  method DiffValues<V(==)>(previous: map<string, Sample<V>>, current: seq<Row<V>>)
    returns (changed: seq<Row<V>>, next: map<string, Sample<V>>)
    ensures changed == Changed(previous, current)
    ensures next == RowMap(current)
  {
    changed, next := [], map[];
    for i := 0 to |current|
      invariant changed == Changed(previous, current[..i])
      invariant next == RowMap(current[..i])
    {
      assert current[..i + 1][..i] == current[..i];
      var row := current[i];
      next := next[row.id := row.sample];
      if row.id !in previous || previous[row.id].value != row.sample.value
          || previous[row.id].valid != row.sample.valid {
        changed := changed + [row];
      }
    }
    assert current[..|current|] == current;
  }

  // ---------- the client ----------

  // Ids of rows that differ from what is known of them.
  function Known<V(==)>(known: map<string, Sample<V>>, rows: seq<Row<V>>): (ids: set<string>)
  {
    if |rows| == 0 then {}
    else
      var front, last := Known(known, rows[..|rows| - 1]), rows[|rows| - 1];
      if last.id in known && known[last.id] != last.sample then front + {last.id} else front
  }

  // Ids of rows that differ from the table as the rows before have left it.
  function Touched<V(==)>(known: map<string, Sample<V>>, rows: seq<Row<V>>): (ids: set<string>)
  {
    if |rows| == 0 then {}
    else
      var front, last := Touched(known, rows[..|rows| - 1]), rows[|rows| - 1];
      if Differs(Overlay(known, rows[..|rows| - 1]), last) then front + {last.id} else front
  }

  // The page's table of watched values.
  class WatchClient<V(==)> {
    var values: map<string, Sample<V>>

    constructor ()
      ensures values == map[]
    {
      values := map[];
    }

    // The ids whose display changes: at a full message those known with another sample, at a delta
    // also those not known before.
    method Receive(message: Message<V>) returns (changed: set<string>)
      modifies this
      ensures values == if message.full then RowMap(message.values) else Overlay(old(values), message.values)
      ensures changed == if message.full then Known(old(values), message.values)
          else Touched(old(values), message.values)
    {
      changed := {};
      if message.full {
        var next: map<string, Sample<V>> := map[];
        for i := 0 to |message.values|
          invariant values == old(values)
          invariant next == RowMap(message.values[..i])
          invariant changed == Known(values, message.values[..i])
        {
          assert message.values[..i + 1][..i] == message.values[..i];
          var row := message.values[i];
          next := next[row.id := row.sample];
          if row.id in values && values[row.id] != row.sample {
            changed := changed + {row.id};
          }
        }
        assert message.values[..|message.values|] == message.values;
        values := next;
      } else {
        for i := 0 to |message.values|
          invariant values == Overlay(old(values), message.values[..i])
          invariant changed == Touched(old(values), message.values[..i])
        {
          assert message.values[..i + 1][..i] == message.values[..i];
          var row := message.values[i];
          if row.id !in values || values[row.id] != row.sample {
            changed := changed + {row.id};
          }
          values := values[row.id := row.sample];
        }
        assert message.values[..|message.values|] == message.values;
      }
    }
  }

  // ---------- edges ----------

  datatype WatchItem = WatchItem(id: string, device: string, address: int, format: string)

  predicate Indexed(item: WatchItem)
  {
    item.format == "bit" && (item.device == "M" || item.device == "IN" || item.device == "OUT")
  }

  function KeyOf(item: WatchItem): (key: Key)
  {
    Key(item.device, item.address)
  }

  // The ids of the bit items that watch a key, in item order.
  function IdsOf(items: seq<WatchItem>, key: Key): (ids: seq<string>)
  {
    if |items| == 0 then []
    else
      var front, last := IdsOf(items[..|items| - 1], key), items[|items| - 1];
      if Indexed(last) && KeyOf(last) == key then front + [last.id] else front
  }

  // Order of the stamps, ties in order of recording.
  predicate Before(a: BitEdge, b: BitEdge)
  {
    a.mono < b.mono || (a.mono == b.mono && a.seqNo <= b.seqNo)
  }

  function Insert(edge: BitEdge, sorted: seq<BitEdge>): (edges: seq<BitEdge>)
    ensures |edges| == |sorted| + 1
  {
    if |sorted| == 0 || Before(edge, sorted[0]) then [edge] + sorted
    else [sorted[0]] + Insert(edge, sorted[1..])
  }

  function Sorted(edges: seq<BitEdge>): (sorted: seq<BitEdge>)
    ensures |sorted| == |edges|
  {
    if |edges| == 0 then [] else Insert(edges[0], Sorted(edges[1..]))
  }

  function RowsOf(edge: BitEdge, ids: seq<string>): (rows: seq<EdgeRow>)
    ensures |rows| == |ids|
  {
    seq(|ids|, i requires 0 <= i < |ids| => EdgeRow(ids[i], edge.value, edge.mono * 1000.0))
  }

  function EdgeRows(edges: seq<BitEdge>, items: seq<WatchItem>): (rows: seq<EdgeRow>)
  {
    if |edges| == 0 then []
    else
      var last := edges[|edges| - 1];
      EdgeRows(edges[..|edges| - 1], items) + RowsOf(last, IdsOf(items, last.key))
  }

  method FormatBitEdges(edges: seq<BitEdge>, items: seq<WatchItem>) returns (payload: seq<EdgeRow>)
    ensures payload == EdgeRows(Sorted(edges), items)
  {
    var index: map<Key, seq<string>> := map[];
    for i := 0 to |items|
      invariant forall key :: IdsOf(items[..i], key) == if key in index then index[key] else []
    {
      assert items[..i + 1][..i] == items[..i];
      var item := items[i];
      if item.format == "bit" && (item.device == "M" || item.device == "IN" || item.device == "OUT") {
        var key := Key(item.device, item.address);
        index := index[key := (if key in index then index[key] else []) + [item.id]];
      }
    }
    assert items[..|items|] == items;
    var sorted := Sorted(edges);
    payload := [];
    for k := 0 to |sorted|
      invariant payload == EdgeRows(sorted[..k], items)
    {
      assert sorted[..k + 1][..k] == sorted[..k];
      var edge := sorted[k];
      if edge.key in index {
        payload := payload + RowsOf(edge, index[edge.key]);
      } else {
        assert payload + RowsOf(edge, []) == payload;
      }
    }
    assert sorted[..|sorted|] == sorted;
  }

  // ---------- the loop ----------

  // A full message about once a second, but not more often than every twentieth.
  function FullEvery(intervalMs: real): (n: nat)
    ensures n >= 20
  {
    var slow := if intervalMs > 1.0 then intervalMs else 1.0;
    var perSecond := (1000.0 / slow).Floor;
    if perSecond > 20 then perSecond else 20
  }

  function SampleTime(now: real, rows: seq<EdgeRow>): (ms: real)
    ensures ms >= now && (forall i :: 0 <= i < |rows| ==> ms >= rows[i].monoMs)
    ensures ms == now || exists i :: 0 <= i < |rows| && rows[i].monoMs == ms
  {
    if |rows| == 0 then now
    else
      var front := SampleTime(now, rows[..|rows| - 1]);
      if rows[|rows| - 1].monoMs > front then rows[|rows| - 1].monoMs else front
  }

  // State of run_watch_loop between two samples.
  datatype Loop<V> = Loop(previous: map<string, Sample<V>>, tick: nat, fullEvery: nat)

  function ForcesFull<V>(loop: Loop<V>): (full: bool)
    requires loop.fullEvery > 0
  {
    loop.tick + 1 == 1 || (loop.tick + 1) % loop.fullEvery == 0 || loop.previous == map[]
  }

  function Tick<V(==)>(loop: Loop<V>, rows: seq<Row<V>>): (result: (Loop<V>, seq<Row<V>>))
    requires loop.fullEvery > 0
  {
    (loop.(previous := RowMap(rows), tick := loop.tick + 1),
     if ForcesFull(loop) then rows else Changed(loop.previous, rows))
  }

  class WatchLoop<V(==)> {
    var previous: map<string, Sample<V>>
    var tick: nat
    const fullEvery: nat

    constructor (intervalMs: real)
      ensures fullEvery == FullEvery(intervalMs) && State() == Loop(map[], 0, FullEvery(intervalMs))
    {
      previous, tick, fullEvery := map[], 0, FullEvery(intervalMs);
    }

    ghost function State(): Loop<V>
      reads this
    {
      Loop(previous, tick, fullEvery)
    }

    // One sample: edges taken first, then the rows read, both without giving way in between. No
    // rows stand for an exception of either.
    method Sample(edges: seq<EdgeRow>, read: Option<seq<Row<V>>>, nowMs: real) returns (sent: Output<V>)
      requires fullEvery > 0
      modifies this
      ensures sent.ErrorSent? <==> read.None?
      ensures read.None? ==> State() == old(State())
      ensures read.Some? ==>
        && State() == Tick(old(State()), read.value).0
        && sent.message.values == Tick(old(State()), read.value).1
        && sent.message.full == (old(tick) == 0 || (old(tick) + 1) % fullEvery == 0 || old(previous) == map[])
        && sent.message.edges == edges && sent.message.monoMs == SampleTime(nowMs, edges)
    {
      if read.None? {
        return ErrorSent;
      }
      tick := tick + 1;
      var full := tick == 1 || tick % fullEvery == 0 || previous == map[];
      var values := read.value;
      if full {
        previous := RowMap(read.value);
      } else {
        values, previous := DiffValues(previous, read.value);
      }
      sent := SampleSent(Message(full, values, edges, SampleTime(nowMs, edges)));
    }
  }
}
