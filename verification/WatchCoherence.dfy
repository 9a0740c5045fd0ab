/** What a client of the watch stream may believe: its table of values, and the edges it replays. */
module WatchCoherence {
  import opened Bytes
  import opened BitEdges
  import opened EdgeSessions
  import opened CellSpec
  import opened EdgeReplay
  import opened WatchStream

  // ---------- values ----------

  lemma {:induction false} OverlayOf<V>(known: map<string, Sample<V>>, rows: seq<Row<V>>)
    ensures Overlay(known, rows) == known + RowMap(rows)
  {
    if |rows| > 0 {
      OverlayOf(known, rows[..|rows| - 1]);
    }
  }

  function Ids<V>(rows: seq<Row<V>>): (ids: set<string>)
  {
    set i | 0 <= i < |rows| :: rows[i].id
  }

  lemma {:induction false} RowMapKeys<V>(rows: seq<Row<V>>)
    ensures RowMap(rows).Keys == Ids(rows)
  {
    if |rows| > 0 {
      var front, last := rows[..|rows| - 1], rows[|rows| - 1];
      RowMapKeys(front);
      assert RowMap(rows) == RowMap(front)[last.id := last.sample];
      IdsSnoc(rows);
    }
  }

  lemma IdsSnoc<V>(rows: seq<Row<V>>)
    requires |rows| > 0
    ensures Ids(rows) == Ids(rows[..|rows| - 1]) + {rows[|rows| - 1].id}
  {
    var front := rows[..|rows| - 1];
    forall id | id in Ids(rows) ensures id in Ids(front) + {rows[|rows| - 1].id} {
      var i :| 0 <= i < |rows| && rows[i].id == id;
      if i < |rows| - 1 {
        assert front[i].id == id;
      }
    }
    forall id | id in Ids(front) ensures id in Ids(rows) {
      var i :| 0 <= i < |front| && front[i].id == id;
      assert rows[i].id == id;
    }
  }

  // The table a client that knew `previous` has after a delta message.
  function AfterDelta<V(==)>(previous: map<string, Sample<V>>, rows: seq<Row<V>>): (table: map<string, Sample<V>>)
  {
    Overlay(previous, Changed(previous, rows))
  }

  // No id has vanished, and an id whose last row repeats the previous sample has no other row
  // that differs from it.
  ghost predicate DeltaSafe<V>(previous: map<string, Sample<V>>, rows: seq<Row<V>>)
  {
    && previous.Keys <= RowMap(rows).Keys
    && (forall i :: 0 <= i < |rows| && rows[i].id in previous && RowMap(rows)[rows[i].id] == previous[rows[i].id] ==>
          rows[i].sample == previous[rows[i].id])
  }

  // One more row: it replaces the sample of its id if it differs from the previous one.
  lemma AfterDeltaSnoc<V>(previous: map<string, Sample<V>>, rows: seq<Row<V>>)
    requires |rows| > 0
    ensures var front, last := AfterDelta(previous, rows[..|rows| - 1]), rows[|rows| - 1];
            AfterDelta(previous, rows) == if Differs(previous, last) then front[last.id := last.sample] else front
  {
    var front, last := Changed(previous, rows[..|rows| - 1]), rows[|rows| - 1];
    if Differs(previous, last) {
      assert (front + [last])[..|front + [last]| - 1] == front;
    }
  }

  lemma {:induction false} DeltaKeys<V>(previous: map<string, Sample<V>>, rows: seq<Row<V>>, id: string)
    ensures id in AfterDelta(previous, rows) <==> id in previous || id in RowMap(rows)
  {
    if |rows| > 0 {
      AfterDeltaSnoc(previous, rows);
      DeltaKeys(previous, rows[..|rows| - 1], id);
    }
  }

  ghost predicate AllRepeat<V>(rows: seq<Row<V>>, id: string, sample: Sample<V>)
  {
    forall i :: 0 <= i < |rows| && rows[i].id == id ==> rows[i].sample == sample
  }

  lemma AllRepeatSnoc<V>(rows: seq<Row<V>>, id: string, sample: Sample<V>)
    requires |rows| > 0
    ensures var last := rows[|rows| - 1];
            AllRepeat(rows, id, sample)
            <==> AllRepeat(rows[..|rows| - 1], id, sample) && (last.id == id ==> last.sample == sample)
  {
  }

  // The old sample is still there exactly if no row of that id differs from it.
  lemma {:induction false} DeltaKept<V>(previous: map<string, Sample<V>>, rows: seq<Row<V>>, id: string)
    requires id in previous
    ensures id in AfterDelta(previous, rows)
    ensures AfterDelta(previous, rows)[id] == previous[id] <==> AllRepeat(rows, id, previous[id])
  {
    DeltaKeys(previous, rows, id);
    if |rows| > 0 {
      AfterDeltaSnoc(previous, rows);
      AllRepeatSnoc(rows, id, previous[id]);
      DeltaKept(previous, rows[..|rows| - 1], id);
    }
  }

  // A last row that differs from the previous sample wins.
  lemma {:induction false} DeltaLast<V>(previous: map<string, Sample<V>>, rows: seq<Row<V>>, id: string)
    requires id in RowMap(rows) && (id !in previous || RowMap(rows)[id] != previous[id])
    ensures id in AfterDelta(previous, rows) && AfterDelta(previous, rows)[id] == RowMap(rows)[id]
  {
    AfterDeltaSnoc(previous, rows);
    if rows[|rows| - 1].id != id {
      DeltaLast(previous, rows[..|rows| - 1], id);
    }
  }

  // A delta leaves the client with exactly the rows' values if and only if it is safe.
  lemma DeltaExact<V>(previous: map<string, Sample<V>>, rows: seq<Row<V>>)
    ensures AfterDelta(previous, rows) == RowMap(rows) <==> DeltaSafe(previous, rows)
  {
    if DeltaSafe(previous, rows) {
      SafeDelta(previous, rows);
    } else {
      UnsafeDelta(previous, rows);
    }
  }

  lemma SafeDelta<V>(previous: map<string, Sample<V>>, rows: seq<Row<V>>)
    requires DeltaSafe(previous, rows)
    ensures AfterDelta(previous, rows) == RowMap(rows)
  {
    var table, truth := AfterDelta(previous, rows), RowMap(rows);
    forall id ensures id in table <==> id in truth {
      DeltaKeys(previous, rows, id);
    }
    forall id | id in truth ensures table[id] == truth[id] {
      if id in previous && truth[id] == previous[id] {
        assert AllRepeat(rows, id, previous[id]);
        DeltaKept(previous, rows, id);
      } else {
        DeltaLast(previous, rows, id);
      }
    }
  }

  lemma UnsafeDelta<V>(previous: map<string, Sample<V>>, rows: seq<Row<V>>)
    requires !DeltaSafe(previous, rows)
    ensures AfterDelta(previous, rows) != RowMap(rows)
  {
    if id :| id in previous.Keys && id !in RowMap(rows).Keys {
      DeltaKeys(previous, rows, id);
    } else {
      var i :| 0 <= i < |rows| && rows[i].id in previous && RowMap(rows)[rows[i].id] == previous[rows[i].id]
            && rows[i].sample != previous[rows[i].id];
      DeltaKept(previous, rows, rows[i].id);
    }
  }

  ghost predicate DistinctIds<V>(rows: seq<Row<V>>)
  {
    forall i, j :: 0 <= i < j < |rows| ==> rows[i].id != rows[j].id
  }

  lemma {:induction false} DistinctLookup<V>(rows: seq<Row<V>>, i: nat)
    requires DistinctIds(rows) && i < |rows|
    ensures rows[i].id in RowMap(rows) && RowMap(rows)[rows[i].id] == rows[i].sample
  {
    if i < |rows| - 1 {
      DistinctLookup(rows[..|rows| - 1], i);
    }
  }

  // The client's table after a list of ticks, from the loop's start.
  function Ticked<V(==)>(loop: Loop<V>, ticks: seq<seq<Row<V>>>): (end: Loop<V>)
    requires loop.fullEvery > 0
    ensures end.fullEvery == loop.fullEvery
  {
    if |ticks| == 0 then loop else Tick(Ticked(loop, ticks[..|ticks| - 1]), ticks[|ticks| - 1]).0
  }

  function Table<V(==)>(loop: Loop<V>, ticks: seq<seq<Row<V>>>): (table: map<string, Sample<V>>)
    requires loop.fullEvery > 0
  {
    if |ticks| == 0 then map[]
    else
      var front, rows := ticks[..|ticks| - 1], ticks[|ticks| - 1];
      var before := Ticked(loop, front);
      if ForcesFull(before) then RowMap(rows) else Overlay(Table(loop, front), Tick(before, rows).1)
  }

  // The same items are read at every tick, and their ids are distinct.
  ghost predicate SameItems<V>(ticks: seq<seq<Row<V>>>, ids: set<string>)
  {
    forall i :: 0 <= i < |ticks| ==>
      DistinctIds(ticks[i]) && Ids(ticks[i]) == ids
  }

  // Watch coherence: with distinct ids, after every tick of every run the client's merged table
  // is exactly the rows read at that tick, and the loop remembers the same.
  lemma {:induction false} ValuesCoherent<V>(fullEvery: nat, ticks: seq<seq<Row<V>>>, ids: set<string>)
    requires fullEvery > 0 && SameItems(ticks, ids) && |ticks| > 0
    ensures var start := Loop(map[], 0, fullEvery);
            && Table(start, ticks) == RowMap(ticks[|ticks| - 1])
            && Ticked(start, ticks).previous == RowMap(ticks[|ticks| - 1])
  {
    var n := |ticks| - 1;
    if n > 0 {
      var front := ticks[..n];
      assert front[n - 1] == ticks[n - 1];
      ValuesCoherent(fullEvery, front, ids);
      SameItemsDelta(ticks[n - 1], ticks[n]);
    } else {
      assert ticks[..0] == [];
    }
  }

  // Between two readings of the same items a delta is exact.
  lemma SameItemsDelta<V>(before: seq<Row<V>>, rows: seq<Row<V>>)
    requires DistinctIds(rows) && Ids(before) == Ids(rows)
    ensures AfterDelta(RowMap(before), rows) == RowMap(rows)
  {
    RowMapKeys(before);
    RowMapKeys(rows);
    forall i | 0 <= i < |rows| ensures rows[i].id in RowMap(rows) && RowMap(rows)[rows[i].id] == rows[i].sample {
      DistinctLookup(rows, i);
    }
    DeltaExact(RowMap(before), rows);
  }

  // Two items of one id: the delta scheme shows the client a value that was not read last.
  lemma DuplicateIdsBreakDeltas(first: Sample<int>, second: Sample<int>)
    requires first != second
    ensures var rows := [Row("a", first), Row("a", second)];
            Table(Loop(map[], 0, 20), [rows, rows]) != RowMap(rows)
  {
    var rows := [Row("a", first), Row("a", second)];
    var start: Loop<int> := Loop(map[], 0, 20);
    var ticks := [rows, rows];
    var one: seq<seq<Row<int>>> := [rows];
    assert ticks[..1] == one;
    assert rows[..1] == [rows[0]];
    assert RowMap(rows)["a"] == second;
    assert RowMap(rows) != map[];
    assert Ticked(start, one) == Loop(RowMap(rows), 1, 20);
    assert Table(start, one) == RowMap(rows);
    assert !DeltaSafe(RowMap(rows), rows) by {
      assert rows[0].sample != RowMap(rows)[rows[0].id];
    }
    DeltaExact(RowMap(rows), rows);
  }

  // After a message exactly the ids it calls changed show another sample than before, if ids are
  // distinct: at a delta all of them, at a full message those that were there before.
  lemma {:induction false} TouchedIds<V>(known: map<string, Sample<V>>, rows: seq<Row<V>>, id: string)
    requires DistinctIds(rows)
    ensures id in Touched(known, rows) <==> id in RowMap(rows) && (id !in known || known[id] != RowMap(rows)[id])
  {
    if |rows| > 0 {
      var front, last := rows[..|rows| - 1], rows[|rows| - 1];
      TouchedIds(known, front, id);
      OverlayOf(known, front);
      NotAmong(rows);
    }
  }

  lemma {:induction false} KnownIds<V>(known: map<string, Sample<V>>, rows: seq<Row<V>>, id: string)
    requires DistinctIds(rows)
    ensures id in Known(known, rows) <==> id in RowMap(rows) && id in known && known[id] != RowMap(rows)[id]
  {
    if |rows| > 0 {
      KnownIds(known, rows[..|rows| - 1], id);
      NotAmong(rows);
    }
  }

  lemma NotAmong<V>(rows: seq<Row<V>>)
    requires DistinctIds(rows) && |rows| > 0
    ensures DistinctIds(rows[..|rows| - 1]) && rows[|rows| - 1].id !in RowMap(rows[..|rows| - 1])
  {
    RowMapKeys(rows[..|rows| - 1]);
  }

  // ---------- which messages are full ----------

  // A full message comes about once a second: as often as whole intervals (of at least one
  // millisecond) fit into a second, but at most at every twentieth tick.
  lemma FullAboutOnceASecond(intervalMs: real)
    ensures var n, slow := FullEvery(intervalMs), if intervalMs > 1.0 then intervalMs else 1.0;
            if slow >= 50.0 then n == 20 else n as real * slow <= 1000.0 < n as real * slow + slow
  {
    var slow := if intervalMs > 1.0 then intervalMs else 1.0;
    var quotient := 1000.0 / slow;
    Quotient(quotient, slow);
    Remainder(quotient, quotient.Floor, slow);
  }

  lemma Quotient(quotient: real, slow: real)
    requires slow > 0.0 && quotient == 1000.0 / slow
    ensures quotient * slow == 1000.0
    ensures slow >= 50.0 ==> quotient <= 20.0
    ensures slow < 50.0 ==> quotient >= 20.0
  {
    if slow >= 50.0 && quotient > 20.0 {
      Larger(quotient - 20.0, slow);
    } else if slow < 50.0 && quotient < 20.0 {
      Larger(20.0 - quotient, slow);
    }
  }

  lemma Larger(difference: real, slow: real)
    requires slow > 0.0 && difference > 0.0
    ensures difference * slow > 0.0
  {
  }

  lemma Remainder(quotient: real, n: int, slow: real)
    requires slow > 0.0 && n as real <= quotient < n as real + 1.0 && quotient * slow == 1000.0
    ensures n as real * slow <= 1000.0 < n as real * slow + slow
  {
    Product(quotient, n as real, slow, 1000.0, n as real * slow);
  }

  lemma Product(a: real, b: real, slow: real, whole: real, part: real)
    requires slow > 0.0 && b <= a < b + 1.0 && a * slow == whole && b * slow == part
    ensures part <= whole < part + slow
  {
    var rest := a - b;
    assert rest * slow == whole - part;
    Larger(1.0 - rest, slow);
    assert (1.0 - rest) * slow == slow - rest * slow;
    if rest > 0.0 {
      Larger(rest, slow);
    }
  }

  lemma NoRowsNoMap<V>(rows: seq<Row<V>>)
    ensures RowMap(rows) == map[] <==> rows == []
  {
    RowMapKeys(rows);
    if |rows| > 0 {
      assert rows[0].id in Ids(rows);
    }
  }

  lemma {:induction false} LoopAfter<V>(fullEvery: nat, ticks: seq<seq<Row<V>>>)
    requires fullEvery > 0
    ensures var loop := Ticked(Loop(map[], 0, fullEvery), ticks);
            && loop.tick == |ticks|
            && loop.previous == if ticks == [] then map[] else RowMap(ticks[|ticks| - 1])
  {
    if |ticks| > 0 {
      LoopAfter(fullEvery, ticks[..|ticks| - 1]);
    }
  }

  // In every run the message of a tick is full exactly at the first tick, at every fullEvery-th,
  // and after a reading without rows; any other carries the rows that differ from the reading
  // before.
  lemma FullTicks<V>(fullEvery: nat, ticks: seq<seq<Row<V>>>, rows: seq<Row<V>>)
    requires fullEvery > 0
    ensures var n, loop := |ticks| + 1, Ticked(Loop(map[], 0, fullEvery), ticks);
            var full := n == 1 || n % fullEvery == 0 || ticks[n - 2] == [];
            && ForcesFull(loop) == full
            && Tick(loop, rows).1 == if full then rows else Changed(RowMap(ticks[n - 2]), rows)
  {
    LoopAfter(fullEvery, ticks);
    if |ticks| > 0 {
      NoRowsNoMap(ticks[|ticks| - 1]);
    }
  }

  // ---------- rows of edges ----------

  // The rows of one edge: one for every bit item that watches its bit, in item order, with the
  // edge's value and its time in milliseconds.
  function RowsOfEdge(edge: BitEdge, items: seq<WatchItem>): (rows: seq<EdgeRow>)
  {
    if |items| == 0 then []
    else
      (if items[0].format == "bit" && items[0].device in {"M", "IN", "OUT"}
          && edge.key == Key(items[0].device, items[0].address)
       then [EdgeRow(items[0].id, edge.value, 1000.0 * edge.mono)] else [])
      + RowsOfEdge(edge, items[1..])
  }

  function RowsOfEdges(edges: seq<BitEdge>, items: seq<WatchItem>): (rows: seq<EdgeRow>)
  {
    if |edges| == 0 then [] else RowsOfEdge(edges[0], items) + RowsOfEdges(edges[1..], items)
  }

  lemma {:induction false} RowsOfEdgeSnoc(edge: BitEdge, items: seq<WatchItem>)
    requires |items| > 0
    ensures RowsOfEdge(edge, items)
        == RowsOfEdge(edge, items[..|items| - 1]) + RowsOfEdge(edge, [items[|items| - 1]])
  {
    if |items| == 1 {
      assert items[..0] == [] && items == [items[0]];
      assert [] + RowsOfEdge(edge, items) == RowsOfEdge(edge, items);
    } else {
      RowsOfEdgeSnoc(edge, items[1..]);
      assert items[1..][..|items| - 2] == items[..|items| - 1][1..];
    }
  }

  lemma {:induction false} IdsGiveRows(edge: BitEdge, items: seq<WatchItem>)
    ensures RowsOf(edge, IdsOf(items, edge.key)) == RowsOfEdge(edge, items)
  {
    if |items| > 0 {
      IdsGiveRows(edge, items[..|items| - 1]);
      RowsOfEdgeSnoc(edge, items);
      assert [items[|items| - 1]][1..] == [];
    }
  }

  lemma {:induction false} RowsOfEdgesSnoc(edges: seq<BitEdge>, items: seq<WatchItem>)
    requires |edges| > 0
    ensures RowsOfEdges(edges, items)
        == RowsOfEdges(edges[..|edges| - 1], items) + RowsOfEdge(edges[|edges| - 1], items)
  {
    if |edges| > 1 {
      RowsOfEdgesSnoc(edges[1..], items);
      assert edges[1..][..|edges| - 2] == edges[..|edges| - 1][1..];
    }
  }

  // The rows of a poll are those of its edges, one edge after the other.
  lemma {:induction false} EdgeRowsAre(edges: seq<BitEdge>, items: seq<WatchItem>)
    ensures EdgeRows(edges, items) == RowsOfEdges(edges, items)
  {
    if |edges| > 0 {
      EdgeRowsAre(edges[..|edges| - 1], items);
      IdsGiveRows(edges[|edges| - 1], items);
      RowsOfEdgesSnoc(edges, items);
    }
  }
}
