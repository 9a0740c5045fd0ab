/** Replaying the edges of the watch stream gives the bits of the device. */
module WatchEdges {
  import opened Bytes
  import opened BitEdges
  import opened EdgeSessions
  import opened CellSpec
  import opened EdgeReplay
  import opened WatchStream
  import ME = MemoryEdges
  import IB = IoBuffers

  // ---------- sorting and one key ----------

  ghost predicate InOrder(edges: seq<BitEdge>)
  {
    forall i, j :: 0 <= i < j < |edges| ==> Before(edges[i], edges[j])
  }

  lemma {:induction false} InsertInOrder(edge: BitEdge, sorted: seq<BitEdge>)
    requires InOrder(sorted)
    ensures InOrder(Insert(edge, sorted))
    ensures forall e :: e in Insert(edge, sorted) <==> e == edge || e in sorted
  {
    if |sorted| > 0 && !Before(edge, sorted[0]) {
      InsertInOrder(edge, sorted[1..]);
      assert sorted == [sorted[0]] + sorted[1..];
      var rest := Insert(edge, sorted[1..]);
      forall j | 0 <= j < |rest| ensures Before(sorted[0], rest[j]) {
        assert rest[j] in rest;
      }
    }
  }

  lemma {:induction false} SortedInOrder(edges: seq<BitEdge>)
    ensures InOrder(Sorted(edges))
    ensures forall e :: e in Sorted(edges) <==> e in edges
  {
    if |edges| > 0 {
      SortedInOrder(edges[1..]);
      InsertInOrder(edges[0], Sorted(edges[1..]));
      assert edges == [edges[0]] + edges[1..];
    }
  }

  lemma {:induction false} SortedAlready(edges: seq<BitEdge>)
    requires InOrder(edges)
    ensures Sorted(edges) == edges
  {
    if |edges| > 0 {
      SortedAlready(edges[1..]);
      InsertFirst(edges[0], edges[1..]);
    }
  }

  lemma OnKeyCons(edge: BitEdge, edges: seq<BitEdge>, key: Key)
    ensures OnKey([edge] + edges, key) == if edge.key == key then [edge] + OnKey(edges, key) else OnKey(edges, key)
  {
    OnKeyConcat([edge], edges, key);
    OnKeySnoc([], edge, key);
    assert [] + [edge] == [edge];
  }

  lemma InsertFirst(edge: BitEdge, own: seq<BitEdge>)
    requires |own| > 0 ==> Before(edge, own[0])
    ensures Insert(edge, own) == [edge] + own
  {
  }

  lemma {:induction false} InsertOnKey(edge: BitEdge, sorted: seq<BitEdge>, key: Key)
    requires InOrder(sorted)
    ensures OnKey(Insert(edge, sorted), key)
         == if edge.key == key then Insert(edge, OnKey(sorted, key)) else OnKey(sorted, key)
  {
    if |sorted| == 0 || Before(edge, sorted[0]) {
      OnKeyCons(edge, sorted, key);
      var own := OnKey(sorted, key);
      if |own| > 0 {
        assert own[0] in sorted;
      }
      InsertFirst(edge, own);
    } else {
      InsertOnKey(edge, sorted[1..], key);
      assert sorted == [sorted[0]] + sorted[1..];
      OnKeyCons(sorted[0], sorted[1..], key);
      OnKeyCons(sorted[0], Insert(edge, sorted[1..]), key);
    }
  }

  // The edges of one key come out sorted among themselves, whatever lies between them.
  lemma {:induction false} SortedOnKey(edges: seq<BitEdge>, key: Key)
    ensures OnKey(Sorted(edges), key) == Sorted(OnKey(edges, key))
  {
    if |edges| > 0 {
      var first, rest := edges[0], edges[1..];
      assert edges == [first] + rest;
      OnKeyCons(first, rest, key);
      SortedOnKey(rest, key);
      SortedInOrder(rest);
      InsertOnKey(first, Sorted(rest), key);
      assert ([first] + OnKey(rest, key))[1..] == OnKey(rest, key);
    }
  }

  // ---------- how far a sort moves edges ----------

  // Sorting moves every edge by an even number of places.
  ghost predicate EvenMoves(own: seq<BitEdge>)
  {
    forall i, j :: 0 <= i < |own| && 0 <= j < |own| && own[i] == Sorted(own)[j] ==> (i - j) % 2 == 0
  }

  ghost predicate Alternating(values: seq<bit>)
  {
    forall i :: 0 <= i < |values| - 1 ==> values[i] != values[i + 1]
  }

  lemma {:induction false} AlternatingParity(values: seq<bit>, i: nat, j: nat)
    requires Alternating(values) && i <= j < |values|
    ensures values[i] == values[j] <==> (j - i) % 2 == 0
  {
    if i < j {
      AlternatingParity(values, i, j - 1);
      assert values[j - 1] != values[j - 1 + 1];
    }
  }

  // Sorting edges of alternating values leaves the values as they were exactly if every edge
  // moves by an even number of places.
  lemma SortKeepsValues(own: seq<BitEdge>)
    requires Alternating(Values(own))
    ensures Values(Sorted(own)) == Values(own) <==> EvenMoves(own)
  {
    var sorted := Sorted(own);
    SortedInOrder(own);
    forall i, j | 0 <= i < |own| && 0 <= j < |own| && own[i] == sorted[j]
      ensures Values(sorted)[j] == Values(own)[j] <==> (i - j) % 2 == 0
    {
      if i <= j {
        AlternatingParity(Values(own), i, j);
      } else {
        AlternatingParity(Values(own), j, i);
      }
    }
    if EvenMoves(own) {
      forall j | 0 <= j < |own| ensures Values(sorted)[j] == Values(own)[j] {
        assert sorted[j] in own;
        var i :| 0 <= i < |own| && own[i] == sorted[j];
        assert (i - j) % 2 == 0;
      }
    }
  }

  lemma {:induction false} SameUpTo(before: bit, a: seq<bit>, b: seq<bit>, after: bit, other: bit, i: nat)
    requires Tracks(before, a, after) && Tracks(before, b, other) && i < |a| == |b|
    ensures a[i] == b[i]
  {
    if i > 0 {
      SameUpTo(before, a, b, after, other, i - 1);
    }
    assert a[i] != Level(before, a, i) && b[i] != Level(before, b, i);
  }

  // Of the lists of one length only one tracks a bit.
  lemma TracksUnique(before: bit, a: seq<bit>, b: seq<bit>, after: bit)
    requires Tracks(before, a, after) && |a| == |b|
    ensures Tracks(before, b, after) <==> a == b
  {
    if Tracks(before, b, after) {
      forall i | 0 <= i < |a| ensures a[i] == b[i] {
        SameUpTo(before, a, b, after, after, i);
      }
    }
  }

  lemma TracksAlternates(before: bit, values: seq<bit>, after: bit)
    requires Tracks(before, values, after)
    ensures Alternating(values)
  {
    forall i | 0 <= i < |values| - 1 ensures values[i] != values[i + 1] {
      assert values[i + 1] != Level(before, values, i + 1);
    }
  }

  // ---------- rows of one item ----------

  function RowValues(rows: seq<EdgeRow>, id: string): (values: seq<bit>)
  {
    if |rows| == 0 then []
    else
      RowValues(rows[..|rows| - 1], id) + if rows[|rows| - 1].id == id then [rows[|rows| - 1].value] else []
  }

  lemma {:induction false} RowValuesConcat(a: seq<EdgeRow>, b: seq<EdgeRow>, id: string)
    ensures RowValues(a + b, id) == RowValues(a, id) + RowValues(b, id)
  {
    if |b| == 0 {
      assert a + b == a;
    } else {
      RowValuesConcat(a, b[..|b| - 1], id);
      FrontOfConcat(a, b);
    }
  }

  ghost predicate DistinctItems(items: seq<WatchItem>)
  {
    forall i, j :: 0 <= i < j < |items| ==> items[i].id != items[j].id
  }

  lemma {:induction false} NoSuchRow(items: seq<WatchItem>, key: Key, edge: BitEdge, id: string)
    requires forall i :: 0 <= i < |items| ==> items[i].id != id
    ensures RowValues(RowsOf(edge, IdsOf(items, key)), id) == []
  {
    if |items| > 0 {
      var front, last := items[..|items| - 1], items[|items| - 1];
      NoSuchRow(front, key, edge, id);
      RowsOfSnoc(edge, IdsOf(front, key), last.id, id);
    }
  }

  lemma RowsOfSnoc(edge: BitEdge, ids: seq<string>, last: string, id: string)
    ensures RowValues(RowsOf(edge, ids + [last]), id)
         == RowValues(RowsOf(edge, ids), id) + if last == id then [edge.value] else []
  {
    assert RowsOf(edge, ids + [last])[..|ids|] == RowsOf(edge, ids);
  }

  // An edge makes one row for an item that watches its key, and none for any other item.
  lemma {:induction false} OneRow(items: seq<WatchItem>, j: nat, edge: BitEdge)
    requires DistinctItems(items) && j < |items| && Indexed(items[j])
    ensures RowValues(RowsOf(edge, IdsOf(items, edge.key)), items[j].id)
         == if edge.key == KeyOf(items[j]) then [edge.value] else []
  {
    var n := |items| - 1;
    var front, last := items[..n], items[n];
    RowsOfSnoc(edge, IdsOf(front, edge.key), last.id, items[j].id);
    if j < n {
      OneRow(front, j, edge);
    } else {
      NoSuchRow(front, edge.key, edge, last.id);
    }
  }

  lemma {:induction false} RowsOfItem(edges: seq<BitEdge>, items: seq<WatchItem>, j: nat)
    requires DistinctItems(items) && j < |items| && Indexed(items[j])
    ensures RowValues(EdgeRows(edges, items), items[j].id) == Values(OnKey(edges, KeyOf(items[j])))
  {
    if |edges| > 0 {
      var front, last := edges[..|edges| - 1], edges[|edges| - 1];
      RowsOfItem(front, items, j);
      OneRow(items, j, last);
      RowValuesConcat(EdgeRows(front, items), RowsOf(last, IdsOf(items, last.key)), items[j].id);
    }
  }

  // ---------- all deliveries ----------

  // The edge rows of all messages so far.
  function DeliveredRows(polls: seq<seq<BitEdge>>, items: seq<WatchItem>): (rows: seq<EdgeRow>)
  {
    if |polls| == 0 then []
    else DeliveredRows(polls[..|polls| - 1], items) + EdgeRows(Sorted(polls[|polls| - 1]), items)
  }

  lemma ValuesConcat(a: seq<BitEdge>, b: seq<BitEdge>)
    ensures Values(a + b) == Values(a) + Values(b)
  {
  }

  lemma AlternatingParts(a: seq<bit>, b: seq<bit>)
    requires Alternating(a + b)
    ensures Alternating(a) && Alternating(b)
  {
    forall i | 0 <= i < |a| - 1 ensures a[i] != a[i + 1] {
      assert (a + b)[i] == a[i] && (a + b)[i + 1] == a[i + 1];
    }
    forall i | 0 <= i < |b| - 1 ensures b[i] != b[i + 1] {
      assert (a + b)[|a| + i] == b[i] && (a + b)[|a| + i + 1] == b[i + 1];
    }
  }

  lemma EqualParts<T>(a: seq<T>, b: seq<T>, c: seq<T>, d: seq<T>)
    requires |a| == |c|
    ensures a + b == c + d <==> a == c && b == d
  {
    if a + b == c + d {
      assert a == (a + b)[..|a|] && b == (a + b)[|a|..] && c == (c + d)[..|a|] && d == (c + d)[|a|..];
    }
  }

  // In every poll the edges of a key move by even numbers of places.
  ghost predicate EvenPolls(polls: seq<seq<BitEdge>>, key: Key)
  {
    forall i :: 0 <= i < |polls| ==> EvenMoves(OnKey(polls[i], key))
  }

  lemma EvenPollsSnoc(polls: seq<seq<BitEdge>>, key: Key)
    requires |polls| > 0
    ensures var n := |polls| - 1;
            EvenPolls(polls, key) <==> EvenPolls(polls[..n], key) && EvenMoves(OnKey(polls[n], key))
  {
    var n := |polls| - 1;
    if EvenPolls(polls[..n], key) && EvenMoves(OnKey(polls[n], key)) {
      forall i | 0 <= i < |polls| ensures EvenMoves(OnKey(polls[i], key)) {
        assert i < n ==> polls[..n][i] == polls[i];
      }
    }
  }

  // The delivered values of an item are those recorded for its key exactly if the sorts of all
  // polls moved its edges by even numbers of places; their number always agrees.
  lemma {:induction false} DeliveredValues(polls: seq<seq<BitEdge>>, items: seq<WatchItem>, j: nat)
    requires DistinctItems(items) && j < |items| && Indexed(items[j])
    requires Alternating(Values(OnKey(Flatten(polls), KeyOf(items[j]))))
    ensures var delivered := RowValues(DeliveredRows(polls, items), items[j].id);
            var recorded := Values(OnKey(Flatten(polls), KeyOf(items[j])));
            |delivered| == |recorded| && (delivered == recorded <==> EvenPolls(polls, KeyOf(items[j])))
  {
    if |polls| > 0 {
      var front, last, key := polls[..|polls| - 1], polls[|polls| - 1], KeyOf(items[j]);
      var before, own := OnKey(Flatten(front), key), OnKey(last, key);
      OnKeyConcat(Flatten(front), last, key);
      ValuesConcat(before, own);
      AlternatingParts(Values(before), Values(own));
      DeliveredValues(front, items, j);
      SortedOnKey(last, key);
      RowsOfItem(Sorted(last), items, j);
      RowValuesConcat(DeliveredRows(front, items), EdgeRows(Sorted(last), items), items[j].id);
      SortKeepsValues(own);
      EvenPollsSnoc(polls, key);
      EqualParts(RowValues(DeliveredRows(front, items), items[j].id), Values(Sorted(own)), Values(before), Values(own));
    }
  }

  // ---------- stamps ----------

  ghost predicate ForwardStamps(edges: seq<BitEdge>)
  {
    forall i, j :: 0 <= i < j < |edges| ==> edges[i].mono <= edges[j].mono
  }

  lemma {:induction false} OnKeyIncreasing(edges: seq<BitEdge>, key: Key)
    requires Increasing(edges)
    ensures Increasing(OnKey(edges, key))
  {
    if |edges| > 0 {
      var front := edges[..|edges| - 1];
      OnKeyIncreasing(front, key);
      forall e | e in OnKey(front, key) ensures e.seqNo < edges[|edges| - 1].seqNo {
        var i :| 0 <= i < |front| && front[i] == e;
        assert edges[i] == e;
      }
    }
  }

  ghost predicate ForwardPolls(polls: seq<seq<BitEdge>>, key: Key)
  {
    forall i :: 0 <= i < |polls| ==> ForwardStamps(OnKey(polls[i], key))
  }

  lemma ForwardIsEven(own: seq<BitEdge>)
    requires Increasing(own) && ForwardStamps(own)
    ensures EvenMoves(own)
  {
    SortedAlready(own);
    StaysEven(own);
  }

  lemma StaysEven(own: seq<BitEdge>)
    requires Increasing(own) && Sorted(own) == own
    ensures EvenMoves(own)
  {
    forall i, j | 0 <= i < |own| && 0 <= j < |own| && own[i] == Sorted(own)[j] ensures (i - j) % 2 == 0 {
      assert own[i].seqNo == own[j].seqNo;
    }
  }

  lemma IncreasingParts(a: seq<BitEdge>, b: seq<BitEdge>)
    requires Increasing(a + b)
    ensures Increasing(a) && Increasing(b)
  {
    forall i, j | 0 <= i < j < |a| ensures a[i].seqNo < a[j].seqNo {
      assert (a + b)[i] == a[i] && (a + b)[j] == a[j];
    }
    forall i, j | 0 <= i < j < |b| ensures b[i].seqNo < b[j].seqNo {
      assert (a + b)[|a| + i] == b[i] && (a + b)[|a| + j] == b[j];
    }
  }

  // Stamps that do not go backwards inside any poll are enough.
  lemma {:induction false} ForwardPollsAreEven(polls: seq<seq<BitEdge>>, key: Key)
    requires Increasing(Flatten(polls)) && ForwardPolls(polls, key)
    ensures EvenPolls(polls, key)
  {
    if |polls| > 0 {
      var n := |polls| - 1;
      IncreasingParts(Flatten(polls[..n]), polls[n]);
      forall i | 0 <= i < n ensures ForwardStamps(OnKey(polls[..n][i], key)) {
        assert polls[..n][i] == polls[i];
      }
      ForwardPollsAreEven(polls[..n], key);
      OnKeyIncreasing(polls[n], key);
      ForwardIsEven(OnKey(polls[n], key));
      EvenPollsSnoc(polls, key);
    }
  }

  lemma ForwardParts(a: seq<BitEdge>, b: seq<BitEdge>)
    requires ForwardStamps(a + b)
    ensures ForwardStamps(a) && ForwardStamps(b)
  {
    forall i, j | 0 <= i < j < |a| ensures a[i].mono <= a[j].mono {
      assert (a + b)[i] == a[i] && (a + b)[j] == a[j];
    }
    forall i, j | 0 <= i < j < |b| ensures b[i].mono <= b[j].mono {
      assert (a + b)[|a| + i] == b[i] && (a + b)[|a| + j] == b[j];
    }
  }

  lemma {:induction false} ForwardThroughout(polls: seq<seq<BitEdge>>, key: Key)
    requires ForwardStamps(OnKey(Flatten(polls), key))
    ensures ForwardPolls(polls, key)
  {
    if |polls| > 0 {
      var n := |polls| - 1;
      OnKeyConcat(Flatten(polls[..n]), polls[n], key);
      ForwardParts(OnKey(Flatten(polls[..n]), key), OnKey(polls[n], key));
      ForwardThroughout(polls[..n], key);
      forall i | 0 <= i < |polls| ensures ForwardStamps(OnKey(polls[i], key)) {
        assert i < n ==> polls[..n][i] == polls[i];
      }
    }
  }

  // With a positive minimum interval the stored stamps of a key never go backwards.
  lemma SpacingKeepsStampsForward(before: Log, keys: set<Key>, events: seq<Event>, key: Key)
    requires key in keys && before.minInterval > 0.0
    ensures ForwardStamps(OnKey(Replay(Start(before, keys), events).history, key))
  {
    var ops := AllOps(events);
    ReplayIsRun(Start(before, keys), events);
    SpacingClosedForm(before, keys, ops, key);
    var own := OnKey(Replay(Start(before, keys), events).history, key);
    forall i, j | 0 <= i < j < |own| ensures own[i].mono <= own[j].mono {
      SpacedAdvances(Times(own), Inputs(ops, key), before.minInterval, i, j);
    }
  }

  lemma SpacedAdvances(stored: seq<real>, ts: seq<real>, d: real, i: nat, j: nat)
    requires Spaced(stored, ts, d) && d > 0.0 && i < j < |ts|
    ensures stored[i] <= stored[j]
  {
    assert SomeAttained(stored[i], ts, d, i);
    var k :| 0 <= k <= i && Attained(stored[i], ts, d, i, k);
    assert stored[j] >= ts[k] + Shift(j - k, d);
    ShiftMonotone(i - k, j - k, d);
  }

  lemma {:induction false} ShiftMonotone(a: nat, b: nat, d: real)
    requires a <= b && d > 0.0
    ensures Shift(a, d) <= Shift(b, d)
  {
    if a < b {
      ShiftMonotone(a, b - 1, d);
    }
  }

  // ---------- the theorem ----------

  // A run whose last event is a sample (its take comes before its rows are read), during which
  // the ring never overflowed between two samples.
  ghost predicate Sampled(before: Log, keys: set<Key>, events: seq<Event>)
  {
    |events| > 0 && events[|events| - 1].Polled? && NeverOverflows(Start(before, keys), AllOps(events))
  }

  lemma SampledDelivers(before: Log, keys: set<Key>, events: seq<Event>)
    requires Sampled(before, keys, events)
    ensures var end := Replay(Start(before, keys), events);
            Consistent(end) && Flatten(end.polls) == end.history
  {
    var end := Replay(Start(before, keys), events);
    ReplayIsRun(Start(before, keys), events);
    NothingLost(before, keys, AllOps(events));
    assert end.cursor == end.log.counter;
    assert end.history[..end.cursor - Base(end)] == end.history;
  }

  lemma SampledIncreases(before: Log, keys: set<Key>, events: seq<Event>)
    requires Sampled(before, keys, events)
    ensures Increasing(Flatten(Replay(Start(before, keys), events).polls))
  {
    SampledDelivers(before, keys, events);
  }

  // If the reported changes track a watched bit, then at every sample the edge rows delivered to
  // the client since the arm, in the order of delivery, alternate and lead from the bit's value
  // at the arm to its value at the sample if and only if in every poll the sort by stamp and
  // number has moved each edge of that bit by an even number of places.
  lemma DeliveredEdgesTrack(before: Log, keys: set<Key>, events: seq<Event>, items: seq<WatchItem>, j: nat,
                            first: bit, last: bit)
    requires Sampled(before, keys, events)
    requires DistinctItems(items) && j < |items| && Indexed(items[j]) && KeyOf(items[j]) in keys
    requires Tracks(first, ValuesOn(AllChanges(events), KeyOf(items[j])), last)
    ensures var polls := Replay(Start(before, keys), events).polls;
            Tracks(first, RowValues(DeliveredRows(polls, items), items[j].id), last)
            <==> EvenPolls(polls, KeyOf(items[j]))
  {
    var end, key := Replay(Start(before, keys), events), KeyOf(items[j]);
    EdgesTrack(before, keys, events, key, first, last);
    SampledDelivers(before, keys, events);
    var recorded := Values(OnKey(end.history, key));
    TracksAlternates(first, recorded, last);
    DeliveredValues(end.polls, items, j);
    TracksUnique(first, recorded, RowValues(DeliveredRows(end.polls, items), items[j].id), last);
  }

  // For the PLC memory: at every sample the client's replay of an item's edges over the bit's
  // value at the arm gives the bit the sample reads, exactly under that condition.
  lemma MemoryWatchCoherent(c: Cells, before: Log, ops: seq<ME.Op>, keys: set<Key>, items: seq<WatchItem>, j: nat)
    requires ME.Possible(c, keys, ops) && Sampled(before, keys, ME.Events(c, ops))
    requires DistinctItems(items) && j < |items| && Indexed(items[j]) && KeyOf(items[j]) in keys
    ensures var polls, key := Replay(Start(before, keys), ME.Events(c, ops)).polls, KeyOf(items[j]);
            Tracks(ME.BitOn(c, key), RowValues(DeliveredRows(polls, items), items[j].id),
                ME.BitOn(ME.After(c, ops), key))
            <==> EvenPolls(polls, key)
  {
    var key := KeyOf(items[j]);
    ME.RunAccounts(c, ops, keys, key);
    DeliveredEdgesTrack(before, keys, ME.Events(c, ops), items, j, ME.BitOn(c, key), ME.BitOn(ME.After(c, ops), key));
  }

  // In particular while the stamps of the bit do not go backwards inside any one poll; between
  // polls they may.
  lemma ForwardPollsCohere(c: Cells, before: Log, ops: seq<ME.Op>, keys: set<Key>, items: seq<WatchItem>, j: nat)
    requires ME.Possible(c, keys, ops) && Sampled(before, keys, ME.Events(c, ops))
    requires DistinctItems(items) && j < |items| && Indexed(items[j]) && KeyOf(items[j]) in keys
    requires ForwardPolls(Replay(Start(before, keys), ME.Events(c, ops)).polls, KeyOf(items[j]))
    ensures var polls, key := Replay(Start(before, keys), ME.Events(c, ops)).polls, KeyOf(items[j]);
            Tracks(ME.BitOn(c, key), RowValues(DeliveredRows(polls, items), items[j].id),
                ME.BitOn(ME.After(c, ops), key))
  {
    SampledIncreases(before, keys, ME.Events(c, ops));
    ForwardPollsAreEven(Replay(Start(before, keys), ME.Events(c, ops)).polls, KeyOf(items[j]));
    MemoryWatchCoherent(c, before, ops, keys, items, j);
  }

  // For the assemblies, whose log always has a positive interval, no condition on the stamps is
  // left.
  lemma AssemblyWatchCoherent(io: IB.Io, before: Log, ops: seq<IB.Op>, keys: set<Key>, items: seq<WatchItem>, j: nat)
    requires before.minInterval > 0.0
    requires IB.Possible(io, keys, ops) && Sampled(before, keys, IB.Events(io, ops))
    requires DistinctItems(items) && j < |items| && Indexed(items[j]) && KeyOf(items[j]) in keys
    ensures var polls, key := Replay(Start(before, keys), IB.Events(io, ops)).polls, KeyOf(items[j]);
            Tracks(IB.BitOn(io, key), RowValues(DeliveredRows(polls, items), items[j].id),
                IB.BitOn(IB.After(io, ops), key))
  {
    var key, events := KeyOf(items[j]), IB.Events(io, ops);
    var polls := Replay(Start(before, keys), events).polls;
    IB.RunAccounts(io, ops, keys, key);
    SpacingKeepsStampsForward(before, keys, events, key);
    SampledDelivers(before, keys, events);
    ForwardThroughout(polls, key);
    SampledIncreases(before, keys, events);
    ForwardPollsAreEven(polls, key);
    DeliveredEdgesTrack(before, keys, events, items, j, IB.BitOn(io, key), IB.BitOn(IB.After(io, ops), key));
  }

  // ---------- where the condition fails, and where it holds although stamps go backwards ----------

  // A bit is set at time 2 and, by a frame that arrived earlier, cleared with time 1; then the
  // log is polled.
  function BackwardRun(address: int): (ops: seq<ME.Op>)
  {
    [ME.SetBit(address, 1, 2.0)] + [ME.SetBit(address, 0, 1.0)] + [ME.Take]
  }

  function BackwardReports(key: Key): (events: seq<Event>)
  {
    [Reported([Change(key, 1)], 2.0)] + [Reported([Change(key, 0)], 1.0)] + [Polled]
  }

  // The edges of this run.
  function Rise(before: Log, key: Key): (edge: BitEdge)
  {
    BitEdge(before.counter + 1, key, 1, 2.0)
  }

  function Fall(before: Log, key: Key): (edge: BitEdge)
  {
    BitEdge(before.counter + 2, key, 0, 1.0)
  }

  lemma EventsSnoc(c: Cells, ops: seq<ME.Op>, op: ME.Op)
    ensures ME.After(c, ops + [op]) == ME.Effects(ME.After(c, ops), op).0
    ensures ME.Events(c, ops + [op]) == ME.Events(c, ops) + [ME.EventOf(ME.After(c, ops), op)]
  {
    assert (ops + [op])[..|ops|] == ops;
  }

  lemma OneEvent(c: Cells, op: ME.Op)
    ensures ME.After(c, [op]) == ME.Effects(c, op).0 && ME.Events(c, [op]) == [ME.EventOf(c, op)]
  {
    assert [op][..0] == [];
  }

  // Setting a bit that changes.
  lemma SetBitReports(c: Cells, address: nat, value: bit, time: real)
    requires address < |c.m| && c.m[address] != value
    ensures ME.EventOf(c, ME.SetBit(address, value, time)) == Reported([Change(Key("M", address), value)], time)
    ensures ME.Effects(c, ME.SetBit(address, value, time)).0 == c.(m := Overwrite(c.m, address, [value]))
  {
    assert [value][..0] == [];
    assert Changes(c.m, address, [value]) == [Change(Key("M", address), value)];
  }

  lemma BackwardEvents(c: Cells, address: nat)
    requires address < |c.m| && c.m[address] == 0
    ensures ME.Events(c, BackwardRun(address)) == BackwardReports(Key("M", address))
    ensures |ME.After(c, BackwardRun(address)).m| == |c.m| && ME.After(c, BackwardRun(address)).m[address] == 0
  {
    var up, down := ME.SetBit(address, 1, 2.0), ME.SetBit(address, 0, 1.0);
    var one := c.(m := Overwrite(c.m, address, [1]));
    OneEvent(c, up);
    SetBitReports(c, address, 1, 2.0);
    EventsSnoc(c, [up], down);
    SetBitReports(one, address, 0, 1.0);
    EventsSnoc(c, [up] + [down], ME.Take);
  }

  lemma ReplaySnoc(s: Session, events: seq<Event>, event: Event)
    ensures Replay(s, events + [event]) == EdgeReplay.Step(Replay(s, events), event)
    ensures AllOps(events + [event]) == AllOps(events) + OpsOf(event)
  {
    assert (events + [event])[..|events|] == events;
  }

  lemma FitsSnoc(s: Session, ops: seq<Op>, op: Op)
    ensures var now := Run(s, ops);
            NeverOverflows(s, ops + [op])
            <==> NeverOverflows(s, ops) && (op.Poll? ==> now.log.counter - now.cursor <= now.log.maxlen)
  {
    assert (ops + [op])[..|ops|] == ops;
  }

  lemma OneReport(s: Session, key: Key, value: bit, time: real)
    ensures Report(s, [Change(key, value)], time) == RecordSession(s, key, value, time)
    ensures Records([Change(key, value)], time) == [Rec(key, value, time)]
  {
    assert [Change(key, value)][..0] == [];
  }

  // One more reported bit on top of a run.
  lemma OneMoreReport(start: Session, events: seq<Event>, key: Key, value: bit, time: real)
    requires NeverOverflows(start, AllOps(events))
    ensures var more := events + [Reported([Change(key, value)], time)];
            && Replay(start, more) == RecordSession(Replay(start, events), key, value, time)
            && NeverOverflows(start, AllOps(more))
  {
    OneReport(Replay(start, events), key, value, time);
    ReplaySnoc(start, events, Reported([Change(key, value)], time));
    FitsSnoc(start, AllOps(events), Rec(key, value, time));
  }

  lemma BothTaken(first: BitEdge, second: BitEdge, cursor: int)
    requires first.seqNo > cursor && second.seqNo > cursor
    ensures After([first, second], cursor) == [first, second]
  {
    assert [first, second][1..] == [second] && [second][1..] == [];
    assert After([second], cursor) == [second];
    assert [first] + [second] == [first, second];
  }

  lemma FirstReport(start: Session, key: Key, value: bit, time: real)
    ensures var up := [Reported([Change(key, value)], time)];
            && Replay(start, up) == RecordSession(start, key, value, time)
            && NeverOverflows(start, AllOps(up))
  {
    var up := [Reported([Change(key, value)], time)];
    assert up[..0] == [];
    OneReport(start, key, value, time);
    OneRecordFits(start, key, value, time);
    assert AllOps(up) == [Rec(key, value, time)];
  }

  lemma OneRecordFits(start: Session, key: Key, value: bit, time: real)
    ensures NeverOverflows(start, [Rec(key, value, time)])
  {
    assert [Rec(key, value, time)][..0] == [];
  }

  lemma BackwardPolls(before: Log, address: int)
    requires before.minInterval <= 0.0 && before.maxlen >= 2
    ensures var key := Key("M", address);
            && Sampled(before, {key}, BackwardReports(key))
            && Replay(Start(before, {key}), BackwardReports(key)).polls == [[Rise(before, key), Fall(before, key)]]
  {
    var key := Key("M", address);
    var start, up := Start(before, {key}), [Reported([Change(key, 1)], 2.0)];
    FirstReport(start, key, 1, 2.0);
    OneMoreReport(start, up, key, 0, 1.0);
    ThenPolled(before, key, up + [Reported([Change(key, 0)], 1.0)]);
  }

  lemma RiseAndFall(before: Log, key: Key)
    requires before.minInterval <= 0.0 && before.maxlen >= 2
    ensures var start := Start(before, {key});
            var two := RecordSession(RecordSession(start, key, 1, 2.0), key, 0, 1.0);
            && two.log.edges == [Rise(before, key), Fall(before, key)]
            && two.log.counter == start.cursor + 2 && two.log.maxlen == before.maxlen
            && two.cursor == start.cursor == before.counter && two.polls == []
  {
  }

  lemma ThenPolled(before: Log, key: Key, events: seq<Event>)
    requires before.minInterval <= 0.0 && before.maxlen >= 2
    requires var start := Start(before, {key});
             && NeverOverflows(start, AllOps(events))
             && Replay(start, events) == RecordSession(RecordSession(start, key, 1, 2.0), key, 0, 1.0)
    ensures Sampled(before, {key}, events + [Polled])
    ensures Replay(Start(before, {key}), events + [Polled]).polls == [[Rise(before, key), Fall(before, key)]]
  {
    var start := Start(before, {key});
    RiseAndFall(before, key);
    BothTaken(Rise(before, key), Fall(before, key), start.cursor);
    ReplayIsRun(start, events);
    ReplaySnoc(start, events, Polled);
    FitsSnoc(start, AllOps(events), Poll);
  }

  // Sorting two edges of which the second is stamped earlier swaps them: an odd move.
  lemma SwapIsOdd(first: BitEdge, second: BitEdge)
    requires second.mono < first.mono
    ensures Sorted([first, second]) == [second, first] && !EvenMoves([first, second])
  {
    assert [first, second][1..] == [second] && [second][1..] == [];
    assert Sorted([second]) == [second];
    assert [second][1..] == [] && Insert(first, []) == [first];
    assert Insert(first, [second]) == [second] + [first];
    var own := [first, second];
    assert Sorted(own) == [second, first];
    assert own[0] == Sorted(own)[1] && (0 - 1) % 2 != 0;
  }

  // In this run of the memory and its log the client is told of the fall before the rise and
  // ends with the bit on, while the bit is off.
  lemma BackwardStampsMislead(c: Cells, before: Log, address: nat, id: string)
    requires address < |c.m| && c.m[address] == 0 && before.minInterval <= 0.0 && before.maxlen >= 2
    ensures var key, items, ops := Key("M", address), [WatchItem(id, "M", address, "bit")], BackwardRun(address);
            var polls := Replay(Start(before, {key}), ME.Events(c, ops)).polls;
            && ME.Possible(c, {key}, ops) && Sampled(before, {key}, ME.Events(c, ops))
            && ME.BitOn(c, key) == ME.BitOn(ME.After(c, ops), key) == 0
            && RowValues(DeliveredRows(polls, items), id) == [0, 1]
            && !Tracks(0, RowValues(DeliveredRows(polls, items), id), 0)
  {
    var key := Key("M", address);
    BackwardEvents(c, address);
    BackwardPolls(before, address);
    BackwardPossible(c, address);
    BackwardRows(Rise(before, key), Fall(before, key), address, id);
  }

  // The rows of one poll with a rise and an earlier stamped fall.
  lemma BackwardRows(rise: BitEdge, fall: BitEdge, address: int, id: string)
    requires rise.key == fall.key == Key("M", address) && rise.value == 1 && fall.value == 0 && fall.mono < rise.mono
    ensures var rows := RowValues(DeliveredRows([[rise, fall]], [WatchItem(id, "M", address, "bit")]), id);
            rows == [0, 1] && !Tracks(0, rows, 0)
  {
    var items := [WatchItem(id, "M", address, "bit")];
    SwapIsOdd(rise, fall);
    OnePoll([rise, fall], items);
    RowsOfItem([fall, rise], items, 0);
    TwoOnKey(fall, rise, Key("M", address));
    assert Values([fall, rise]) == [0, 1];
    assert Level(0, [0, 1], 0) == 0;
  }

  lemma OnePoll(poll: seq<BitEdge>, items: seq<WatchItem>)
    ensures DeliveredRows([poll], items) == EdgeRows(Sorted(poll), items)
  {
    assert [poll][..0] == [] && DeliveredRows([], items) == [];
  }

  lemma TwoOnKey(first: BitEdge, second: BitEdge, key: Key)
    requires first.key == key && second.key == key
    ensures OnKey([first, second], key) == [first, second]
  {
    OnKeySnoc([], first, key);
    OnKeySnoc([first], second, key);
    assert [] + [first] == [first] && [first] + [second] == [first, second];
  }

  lemma PossibleSnoc(c: Cells, keys: set<Key>, ops: seq<ME.Op>, op: ME.Op)
    requires ME.Possible(c, keys, ops) && !op.Clear?
    ensures ME.Possible(c, keys, ops + [op])
  {
    assert (ops + [op])[..|ops|] == ops;
  }

  lemma BackwardPossible(c: Cells, address: int)
    ensures ME.Possible(c, {Key("M", address)}, BackwardRun(address))
  {
    var keys, up, down := {Key("M", address)}, ME.SetBit(address, 1, 2.0), ME.SetBit(address, 0, 1.0);
    assert [up][..0] == [];
    assert ME.Possible(c, keys, [up]);
    PossibleSnoc(c, keys, [up], down);
    PossibleSnoc(c, keys, [up] + [down], ME.Take);
  }

  // Three edges stamped backwards do no harm: the outer two change places, which are two apart.
  lemma ThreeBackwardsAreHarmless(a: BitEdge, b: BitEdge, c: BitEdge)
    requires c.mono < b.mono < a.mono
    ensures Sorted([a, b, c]) == [c, b, a] && EvenMoves([a, b, c])
  {
    var own := [a, b, c];
    assert own[1..] == [b, c];
    SwapIsOdd(b, c);
    assert [c, b][1..] == [b] && [b][1..] == [];
    assert Insert(a, [b]) == [b, a];
    assert Insert(a, [c, b]) == [c] + Insert(a, [b]);
    forall i, j | 0 <= i < 3 && 0 <= j < 3 && own[i] == Sorted(own)[j] ensures (i - j) % 2 == 0 {
      assert i + j == 2;
    }
  }
}
