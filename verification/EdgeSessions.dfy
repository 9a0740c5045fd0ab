/**
 What readers of a BitEdgeLog may rely on between two arms: the bounded log against an
 unbounded one, delivery through cursors, and the spacing of the stored times.
 */
module EdgeSessions {
  import opened Bytes
  import opened BitEdges

  // ---------- any interleaving of record and take ----------

  datatype Op = Rec(key: Key, value: int, mono: real) | Poll

  // history is the reference: every edge recorded since the arm, never evicted.
  // polls holds what each take returned, the cursor being the one the previous take gave back.
  datatype Session = Session(log: Log, history: seq<BitEdge>, cursor: nat, polls: seq<seq<BitEdge>>)

  function Start(before: Log, keys: set<Key>): (s: Session)
  {
    var armed := ArmLog(before, keys);
    Session(armed, [], armed.counter, [])
  }

  function RecordSession(s: Session, key: Key, value: int, mono: real): (next: Session)
  {
    if key !in s.log.watched then s
    else
      var edge := BitEdge(s.log.counter + 1, key, Truth(value), Stamp(s.log, key, mono));
      s.(log := RecordLog(s.log, key, value, mono), history := s.history + [edge])
  }

  function PollSession(s: Session): (next: Session)
  {
    s.(cursor := s.log.counter, polls := s.polls + [After(s.log.edges, s.cursor)])
  }

  function StepSession(s: Session, op: Op): (next: Session)
  {
    match op
    case Rec(key, value, mono) => RecordSession(s, key, value, mono)
    case Poll => PollSession(s)
  }

  function Run(s: Session, ops: seq<Op>): (end: Session)
  {
    if |ops| == 0 then s else StepSession(Run(s, ops[..|ops| - 1]), ops[|ops| - 1])
  }

  // Sequence number of the last edge before the arm.
  ghost function Base(s: Session): int
  {
    s.log.counter - |s.history|
  }

  ghost predicate Consistent(s: Session)
  {
    && |s.history| <= s.log.counter
    && Base(s) <= s.cursor <= s.log.counter
    && (forall i :: 0 <= i < |s.history| ==> s.history[i].seqNo == Base(s) + 1 + i)
    && s.log.edges == Newest(s.history, s.log.maxlen)
  }

  lemma StartConsistent(before: Log, keys: set<Key>)
    ensures Consistent(Start(before, keys))
    ensures Base(Start(before, keys)) == before.counter
  {
  }

  lemma StepConsistent(s: Session, op: Op)
    requires Consistent(s)
    ensures Consistent(StepSession(s, op))
    ensures Base(StepSession(s, op)) == Base(s)
  {
  }

  lemma {:induction false} RunConsistent(s: Session, ops: seq<Op>)
    requires Consistent(s)
    ensures Consistent(Run(s, ops))
    ensures Base(Run(s, ops)) == Base(s)
  {
    if |ops| > 0 {
      RunConsistent(s, ops[..|ops| - 1]);
      StepConsistent(Run(s, ops[..|ops| - 1]), ops[|ops| - 1]);
    }
  }

  lemma {:induction false} AfterAll(edges: seq<BitEdge>, cursor: int)
    requires forall i :: 0 <= i < |edges| ==> edges[i].seqNo > cursor
    ensures After(edges, cursor) == edges
  {
    if |edges| > 0 {
      AfterAll(edges[1..], cursor);
    }
  }

  // On edges with consecutive numbers, a cursor that k of them lie beyond cuts off the last k.
  lemma {:induction false} AfterIsSuffix(edges: seq<BitEdge>, first: int, k: nat)
    requires forall i :: 0 <= i < |edges| ==> edges[i].seqNo == first + i
    requires k <= |edges|
    ensures After(edges, first + |edges| - 1 - k) == edges[|edges| - k..]
  {
    if k == |edges| {
      AfterAll(edges, first + |edges| - 1 - k);
    } else {
      AfterIsSuffix(edges[1..], first + 1, k);
    }
  }

  // A poll returns everything recorded since the previous cursor, in order, except that it has
  // lost exactly the oldest max(0, k - maxlen) of those k edges.
  lemma PollLosesOnlyOldest(s: Session)
    requires Consistent(s)
    ensures var k := s.log.counter - s.cursor;
            var seen := s.history[|s.history| - k..];
            After(s.log.edges, s.cursor) == seen[if k > s.log.maxlen then k - s.log.maxlen else 0..]
  {
    var h, k := s.history, s.log.counter - s.cursor;
    AfterNewest(h, s.log.maxlen, Base(s), s.cursor);
    if k > s.log.maxlen {
      SuffixOfSuffix(h, |h| - k, k - s.log.maxlen);
    } else {
      SuffixOfSuffix(h, |h| - k, 0);
    }
  }

  lemma AfterNewest(history: seq<BitEdge>, maxlen: nat, base: int, cursor: int)
    requires forall i :: 0 <= i < |history| ==> history[i].seqNo == base + 1 + i
    requires base <= cursor <= base + |history|
    ensures var k := base + |history| - cursor;
            After(Newest(history, maxlen), cursor) == history[|history| - if k > maxlen then maxlen else k..]
  {
    var edges, k := Newest(history, maxlen), base + |history| - cursor;
    var dropped := |history| - |edges|;
    assert edges == history[dropped..];
    forall i | 0 <= i < |edges| ensures edges[i].seqNo == base + 1 + dropped + i {
      assert edges[i] == history[dropped + i];
    }
    if k > maxlen {
      AfterAll(edges, cursor);
    } else {
      AfterIsSuffix(edges, base + 1 + dropped, k);
      SuffixOfSuffix(history, dropped, |edges| - k);
    }
  }

  lemma SuffixOfSuffix<T>(s: seq<T>, a: nat, b: nat)
    requires a + b <= |s|
    ensures s[a..][b..] == s[a + b..]
  {
  }

  // ---------- whole runs of polls ----------

  function Flatten(batches: seq<seq<BitEdge>>): (all: seq<BitEdge>)
  {
    if |batches| == 0 then [] else Flatten(batches[..|batches| - 1]) + batches[|batches| - 1]
  }

  ghost predicate Increasing(edges: seq<BitEdge>)
  {
    forall i, j :: 0 <= i < j < |edges| ==> edges[i].seqNo < edges[j].seqNo
  }

  // What has been delivered is in order and lies before the cursor.
  ghost predicate Delivered(s: Session)
  {
    && Consistent(s)
    && Increasing(Flatten(s.polls))
    && (forall e <- Flatten(s.polls) :: e in s.history && e.seqNo <= s.cursor)
  }

  // Later edges behind delivered ones.
  lemma IncreasingConcat(a: seq<BitEdge>, b: seq<BitEdge>, cursor: int)
    requires Increasing(a) && Increasing(b)
    requires (forall e <- a :: e.seqNo <= cursor) && (forall e <- b :: e.seqNo > cursor)
    ensures Increasing(a + b)
  {
  }

  // What a poll takes: increasing, recorded, beyond the old cursor and up to the new one.
  lemma PollTakes(s: Session)
    requires Consistent(s)
    ensures var batch := After(s.log.edges, s.cursor);
            Increasing(batch) && forall e <- batch :: e in s.history && s.cursor < e.seqNo <= s.log.counter
  {
    var h, k := s.history, s.log.counter - s.cursor;
    AfterNewest(h, s.log.maxlen, Base(s), s.cursor);
    var from := |h| - if k > s.log.maxlen then s.log.maxlen else k;
    assert forall i :: 0 <= i < |h| - from ==> h[from..][i] == h[from + i];
  }

  lemma PollDelivered(s: Session)
    requires Delivered(s)
    ensures Delivered(PollSession(s))
  {
    var batch := After(s.log.edges, s.cursor);
    PollTakes(s);
    StepConsistent(s, Poll);
    FlattenSnoc(s.polls, batch);
    IncreasingConcat(Flatten(s.polls), batch, s.cursor);
  }

  lemma StepDelivered(s: Session, op: Op)
    requires Delivered(s)
    ensures Delivered(StepSession(s, op))
  {
    if op.Poll? {
      PollDelivered(s);
    } else {
      StepConsistent(s, op);
      assert forall e :: e in s.history ==> e in StepSession(s, op).history;
    }
  }

  lemma {:induction false} RunDelivered(s: Session, ops: seq<Op>)
    requires Delivered(s)
    ensures Delivered(Run(s, ops))
  {
    if |ops| > 0 {
      RunDelivered(s, ops[..|ops| - 1]);
      StepDelivered(Run(s, ops[..|ops| - 1]), ops[|ops| - 1]);
    }
  }

  // The last edges of a contiguous history are contiguous.
  lemma NewestContiguous(history: seq<BitEdge>, maxlen: nat, counter: int)
    requires forall i :: 0 <= i < |history| ==> history[i].seqNo == counter - |history| + 1 + i
    ensures var ring := Newest(history, maxlen);
            |ring| <= |history| && forall i :: 0 <= i < |ring| ==> ring[i].seqNo == counter - |ring| + 1 + i
  {
    var ring := Newest(history, maxlen);
    forall i | 0 <= i < |ring| ensures ring[i].seqNo == counter - |ring| + 1 + i {
      assert ring[i] == history[|history| - |ring| + i];
    }
  }

  lemma RingContiguous(s: Session)
    requires Consistent(s)
    ensures |s.log.edges| <= s.log.counter
    ensures forall i :: 0 <= i < |s.log.edges| ==> s.log.edges[i].seqNo == s.log.counter - |s.log.edges| + 1 + i
  {
    NewestContiguous(s.history, s.log.maxlen, s.log.counter);
  }

  // Cursor delivery, for every log, every armed set and every interleaving: the ring keeps the
  // newest edges with consecutive numbers ending at the counter, and what the polls have
  // delivered so far is a strictly increasing list of recorded edges (nothing twice, in order).
  lemma CursorDelivery(before: Log, keys: set<Key>, ops: seq<Op>)
    ensures var s := Run(Start(before, keys), ops);
            && Delivered(s)
            && |s.log.edges| <= s.log.counter
            && (forall i :: 0 <= i < |s.log.edges| ==>
                  s.log.edges[i].seqNo == s.log.counter - |s.log.edges| + 1 + i)
  {
    StartConsistent(before, keys);
    RunDelivered(Start(before, keys), ops);
    RingContiguous(Run(Start(before, keys), ops));
  }

  // No poll comes later than maxlen edges after the previous one.
  ghost predicate NeverOverflows(s: Session, ops: seq<Op>)
  {
    |ops| > 0 ==>
      var front := Run(s, ops[..|ops| - 1]);
      && NeverOverflows(s, ops[..|ops| - 1])
      && (ops[|ops| - 1].Poll? ==> front.log.counter - front.cursor <= front.log.maxlen)
  }

  ghost predicate Lossless(s: Session)
  {
    Consistent(s) && Flatten(s.polls) == s.history[..s.cursor - Base(s)]
  }

  lemma FlattenSnoc(batches: seq<seq<BitEdge>>, batch: seq<BitEdge>)
    ensures Flatten(batches + [batch]) == Flatten(batches) + batch
  {
    assert (batches + [batch])[..|batches|] == batches;
  }

  lemma PollLossless(s: Session)
    requires Lossless(s) && s.log.counter - s.cursor <= s.log.maxlen
    ensures Lossless(PollSession(s))
  {
    var k := s.log.counter - s.cursor;
    PollLosesOnlyOldest(s);
    StepConsistent(s, Poll);
    FlattenSnoc(s.polls, After(s.log.edges, s.cursor));
    assert s.history[|s.history| - k..][0..] == s.history[|s.history| - k..];
    assert s.history[..|s.history| - k] + s.history[|s.history| - k..] == s.history;
    assert s.history[..|s.history|] == s.history;
  }

  lemma PrefixStays<T>(s: seq<T>, more: seq<T>, n: nat)
    requires n <= |s|
    ensures (s + more)[..n] == s[..n]
  {
  }

  lemma RecordLossless(s: Session, op: Op)
    requires Lossless(s) && op.Rec?
    ensures Lossless(StepSession(s, op))
  {
    StepConsistent(s, op);
    var next := StepSession(s, op);
    PrefixStays(s.history, next.history[|s.history|..], s.cursor - Base(s));
    assert next.history == s.history + next.history[|s.history|..];
  }

  // Then the polls together have delivered every edge recorded up to the cursor.
  lemma {:induction false} NothingLost(before: Log, keys: set<Key>, ops: seq<Op>)
    requires NeverOverflows(Start(before, keys), ops)
    ensures Lossless(Run(Start(before, keys), ops))
  {
    if |ops| > 0 {
      NothingLost(before, keys, ops[..|ops| - 1]);
      var s := Run(Start(before, keys), ops[..|ops| - 1]);
      if ops[|ops| - 1].Poll? {
        PollLossless(s);
      } else {
        RecordLossless(s, ops[|ops| - 1]);
      }
    }
  }

  // ---------- spacing of the stored times ----------

  function OnKey(edges: seq<BitEdge>, key: Key): (own: seq<BitEdge>)
    ensures forall e <- own :: e in edges && e.key == key
  {
    if |edges| == 0 then []
    else
      var rest := OnKey(edges[..|edges| - 1], key);
      if edges[|edges| - 1].key == key then rest + [edges[|edges| - 1]] else rest
  }

  lemma OnKeySnoc(edges: seq<BitEdge>, edge: BitEdge, key: Key)
    ensures OnKey(edges + [edge], key) == if edge.key == key then OnKey(edges, key) + [edge] else OnKey(edges, key)
  {
    assert (edges + [edge])[..|edges|] == edges;
  }

  lemma {:induction false} OnKeyConcat(a: seq<BitEdge>, b: seq<BitEdge>, key: Key)
    ensures OnKey(a + b, key) == OnKey(a, key) + OnKey(b, key)
  {
    if |b| == 0 {
      assert a + b == a;
    } else {
      var front, last := b[..|b| - 1], b[|b| - 1];
      assert a + b == (a + front) + [last] && b == front + [last];
      OnKeySnoc(a + front, last, key);
      OnKeySnoc(front, last, key);
      OnKeyConcat(a, front, key);
    }
  }

  function Times(edges: seq<BitEdge>): (ts: seq<real>)
    ensures |ts| == |edges|
    ensures forall i :: 0 <= i < |ts| ==> ts[i] == edges[i].mono
  {
    seq(|edges|, i requires 0 <= i < |edges| => edges[i].mono)
  }

  // Times offered for one key, in order.
  function Inputs(ops: seq<Op>, key: Key): (ts: seq<real>)
  {
    if |ops| == 0 then []
    else
      var rest := Inputs(ops[..|ops| - 1], key);
      var op := ops[|ops| - 1];
      if op.Rec? && op.key == key then rest + [op.mono] else rest
  }

  // Entry k is the maximum of ts[j] + (k - j) * d over j <= k.
  ghost predicate Spaced(stored: seq<real>, ts: seq<real>, d: real)
  {
    && |stored| == |ts|
    && (forall k, j :: 0 <= j <= k < |ts| ==> stored[k] >= ts[j] + Shift(k - j, d))
    && (forall k :: 0 <= k < |ts| ==> SomeAttained(stored[k], ts, d, k))
  }

  ghost predicate SomeAttained(time: real, ts: seq<real>, d: real, k: nat)
    requires k < |ts|
  {
    exists j :: 0 <= j <= k && Attained(time, ts, d, k, j)
  }

  ghost predicate Attained(time: real, ts: seq<real>, d: real, k: nat, j: nat)
    requires j <= k < |ts|
  {
    time == ts[j] + Shift(k - j, d)
  }

  // steps * d, added up.
  ghost function Shift(steps: nat, d: real): (total: real)
    ensures total == steps as real * d
  {
    if steps == 0 then 0.0 else Shift(steps - 1, d) + d
  }

  // The interval the log keeps and the last stored time of each watched key.
  ghost predicate Remembers(s: Session, key: Key)
  {
    var own := OnKey(s.history, key);
    (key in s.log.lastMono <==> |own| > 0) && (|own| > 0 ==> s.log.lastMono[key] == own[|own| - 1].mono)
  }

  // One more input t on top of a spaced list.
  lemma SpacedSnoc(stored: seq<real>, ts: seq<real>, d: real, t: real)
    requires Spaced(stored, ts, d) && d > 0.0
    ensures var last := if |stored| > 0 && t < stored[|stored| - 1] + d then stored[|stored| - 1] + d else t;
            Spaced(stored + [last], ts + [t], d)
  {
    var n := |ts|;
    var last := if n > 0 && t < stored[n - 1] + d then stored[n - 1] + d else t;
    var stored', ts' := stored + [last], ts + [t];
    forall k, j | 0 <= j <= k < n + 1
      ensures stored'[k] >= ts'[j] + Shift(k - j, d)
    {
      if k == n && j < n {
        assert stored[n - 1] >= ts[j] + Shift(n - 1 - j, d);
      }
    }
    forall k | 0 <= k < n + 1
      ensures SomeAttained(stored'[k], ts', d, k)
    {
      if k < n {
        assert SomeAttained(stored[k], ts, d, k);
        var j :| 0 <= j <= k && Attained(stored[k], ts, d, k, j);
        assert Attained(stored'[k], ts', d, k, j);
      } else if last == t {
        assert Attained(stored'[n], ts', d, n, n);
      } else {
        assert SomeAttained(stored[n - 1], ts, d, n - 1);
        var j :| 0 <= j <= n - 1 && Attained(stored[n - 1], ts, d, n - 1, j);
        assert Attained(stored'[n], ts', d, n, j);
      }
    }
  }

  ghost predicate StoresSpaced(s: Session, key: Key, ts: seq<real>, d: real)
  {
    && s.log.minInterval == d
    && key in s.log.watched
    && Remembers(s, key)
    && Spaced(Times(OnKey(s.history, key)), ts, d)
  }

  lemma RecordOnKey(s: Session, key: Key, value: int, t: real)
    requires key in s.log.watched
    ensures Times(OnKey(RecordSession(s, key, value, t).history, key))
         == Times(OnKey(s.history, key)) + [Stamp(s.log, key, t)]
    ensures Remembers(RecordSession(s, key, value, t), key)
  {
    var edge := BitEdge(s.log.counter + 1, key, Truth(value), Stamp(s.log, key, t));
    var own := OnKey(s.history, key);
    assert RecordSession(s, key, value, t).history == s.history + [edge];
    OnKeySnoc(s.history, edge, key);
    assert Times(own + [edge]) == Times(own) + [edge.mono];
  }

  lemma RecordSpaced(s: Session, key: Key, ts: seq<real>, d: real, value: int, t: real)
    requires StoresSpaced(s, key, ts, d) && d > 0.0
    ensures StoresSpaced(RecordSession(s, key, value, t), key, ts + [t], d)
  {
    var stored := Times(OnKey(s.history, key));
    SpacedSnoc(stored, ts, d, t);
    RecordOnKey(s, key, value, t);
    assert Stamp(s.log, key, t)
        == if |stored| > 0 && t < stored[|stored| - 1] + d then stored[|stored| - 1] + d else t;
  }

  lemma RecordElsewhere(s: Session, key: Key, other: Key, value: int, t: real)
    requires key != other
    ensures var next := RecordSession(s, other, value, t);
            && OnKey(next.history, key) == OnKey(s.history, key)
            && next.log.minInterval == s.log.minInterval && next.log.watched == s.log.watched
            && (Remembers(s, key) ==> Remembers(next, key))
  {
    var next := RecordSession(s, other, value, t);
    if other in s.log.watched {
      OnKeySnoc(s.history, next.history[|s.history|], key);
    }
  }

  // Spacing closed form, for every run after an arm with a positive interval: the times stored
  // for a watched key are max over j <= k of t_j + (k - j) * d of the times offered for it.
  lemma {:induction false} SpacingClosedForm(before: Log, keys: set<Key>, ops: seq<Op>, key: Key)
    requires key in keys && before.minInterval > 0.0
    ensures StoresSpaced(Run(Start(before, keys), ops), key, Inputs(ops, key), before.minInterval)
  {
    if |ops| > 0 {
      var front, op := ops[..|ops| - 1], ops[|ops| - 1];
      SpacingClosedForm(before, keys, front, key);
      var s := Run(Start(before, keys), front);
      match op
      case Poll =>
      case Rec(k, value, mono) =>
        if k == key {
          RecordSpaced(s, key, Inputs(front, key), before.minInterval, value, mono);
        } else {
          RecordElsewhere(s, key, k, value, mono);
        }
    }
  }

  // The spaced list is never early, keeps gaps of at least d, and is pointwise least among the
  // lists that do.
  lemma {:induction false} SpacedIsLeast(stored: seq<real>, ts: seq<real>, d: real, other: seq<real>)
    requires Spaced(stored, ts, d) && |other| == |ts|
    requires forall i :: 0 <= i < |ts| ==> other[i] >= ts[i]
    requires forall i :: 0 <= i < |ts| - 1 ==> other[i + 1] >= other[i] + d
    ensures forall i :: 0 <= i < |ts| ==> stored[i] >= ts[i]
    ensures forall i :: 0 <= i < |ts| - 1 ==> stored[i + 1] >= stored[i] + d
    ensures forall i :: 0 <= i < |ts| ==> stored[i] <= other[i]
  {
    forall i | 0 <= i < |ts| ensures stored[i] >= ts[i] && stored[i] <= other[i] {
      assert stored[i] >= ts[i] + Shift(i - i, d);
      assert SomeAttained(stored[i], ts, d, i);
      var j :| 0 <= j <= i && Attained(stored[i], ts, d, i, j);
      GapsAddUp(other, d, j, i);
    }
    forall i | 0 <= i < |ts| - 1 ensures stored[i + 1] >= stored[i] + d {
      assert SomeAttained(stored[i], ts, d, i);
      var j :| 0 <= j <= i && Attained(stored[i], ts, d, i, j);
      assert stored[i + 1] >= ts[j] + Shift(i + 1 - j, d);
    }
  }

  lemma {:induction false} GapsAddUp(other: seq<real>, d: real, j: nat, i: nat)
    requires j <= i < |other|
    requires forall k :: 0 <= k < |other| - 1 ==> other[k + 1] >= other[k] + d
    ensures other[i] >= other[j] + Shift(i - j, d)
  {
    if j < i {
      GapsAddUp(other, d, j, i - 1);
    }
  }

  // With no interval the offered times are stored unchanged.
  lemma {:induction false} NoIntervalStoresInputs(before: Log, keys: set<Key>, ops: seq<Op>, key: Key)
    requires key in keys && before.minInterval <= 0.0
    ensures var s := Run(Start(before, keys), ops);
            && s.log.minInterval == before.minInterval && s.log.watched == keys
            && Times(OnKey(s.history, key)) == Inputs(ops, key)
  {
    if |ops| > 0 {
      var front, op := ops[..|ops| - 1], ops[|ops| - 1];
      NoIntervalStoresInputs(before, keys, front, key);
      var s := Run(Start(before, keys), front);
      match op
      case Poll =>
      case Rec(k, value, mono) =>
        if k == key {
          RecordOnKey(s, key, value, mono);
        } else {
          RecordElsewhere(s, key, k, value, mono);
        }
    }
  }
}
