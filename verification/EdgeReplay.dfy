/**
 The logged edges against the bits they report: over every run since an arm, the edges of a
 watched key alternate and end in the current bit.
 */
module EdgeReplay {
  import opened Bytes
  import opened BitEdges
  import opened EdgeSessions
  import opened CellSpec

  // ---------- replaying values ----------

  // The bit after the first n of the edges.
  function Level(before: bit, values: seq<bit>, n: nat): (level: bit)
    requires n <= |values|
  {
    if n == 0 then before else values[n - 1]
  }

  // The values alternate, starting with a change of `before`, and lead to `after`.
  predicate Tracks(before: bit, values: seq<bit>, after: bit)
  {
    && (forall i :: 0 <= i < |values| ==> values[i] != Level(before, values, i))
    && after == Level(before, values, |values|)
  }

  lemma TracksConcat(before: bit, a: seq<bit>, mid: bit, b: seq<bit>, after: bit)
    requires Tracks(before, a, mid) && Tracks(mid, b, after)
    ensures Tracks(before, a + b, after)
  {
    var all := a + b;
    forall i | 0 <= i < |all| ensures all[i] != Level(before, all, i) {
      if i < |a| {
        assert Level(before, all, i) == Level(before, a, i) && all[i] == a[i];
      } else {
        LevelBehind(before, a, b, i);
        assert b[i - |a|] != Level(mid, b, i - |a|);
      }
    }
    LevelBehind(before, a, b, |all|);
  }

  lemma LevelBehind(before: bit, a: seq<bit>, b: seq<bit>, n: nat)
    requires |a| <= n <= |a| + |b|
    ensures Level(before, a + b, n) == Level(Level(before, a, |a|), b, n - |a|)
  {
  }

  function ValuesOn(changes: seq<Change>, key: Key): (values: seq<bit>)
  {
    if |changes| == 0 then []
    else
      var front, last := ValuesOn(changes[..|changes| - 1], key), changes[|changes| - 1];
      if last.key == key then front + [last.value] else front
  }

  lemma ValuesOnSnoc(changes: seq<Change>, change: Change, key: Key)
    ensures ValuesOn(changes + [change], key)
         == ValuesOn(changes, key) + if change.key == key then [change.value] else []
  {
    assert (changes + [change])[..|changes|] == changes;
  }

  lemma {:induction false} ValuesOnConcat(a: seq<Change>, b: seq<Change>, key: Key)
    ensures ValuesOn(a + b, key) == ValuesOn(a, key) + ValuesOn(b, key)
  {
    if |b| == 0 {
      assert a + b == a;
    } else {
      var front, last := b[..|b| - 1], b[|b| - 1];
      ValuesOnConcat(a, front, key);
      assert a + b == (a + front) + [last] && b == front + [last];
      ValuesOnSnoc(a + front, last, key);
      ValuesOnSnoc(front, last, key);
    }
  }

  // ---------- the log's side ----------

  // One batch of reported changes, or a poll, in the life of a log.
  datatype Event = Reported(changes: seq<Change>, time: real) | Polled

  function Report(s: Session, changes: seq<Change>, now: real): (next: Session)
  {
    if |changes| == 0 then s
    else
      var n := |changes| - 1;
      RecordSession(Report(s, changes[..n], now), changes[n].key, changes[n].value, now)
  }

  function Replay(s: Session, events: seq<Event>): (next: Session)
  {
    if |events| == 0 then s
    else Step(Replay(s, events[..|events| - 1]), events[|events| - 1])
  }

  function AllChanges(events: seq<Event>): (changes: seq<Change>)
  {
    if |events| == 0 then [] else AllChanges(events[..|events| - 1]) + ChangesOf(events[|events| - 1])
  }

  // The log inside a session is the log the memory methods maintain.
  lemma {:induction false} ReportLog(s: Session, changes: seq<Change>, now: real)
    ensures Report(s, changes, now).log == RecordChanges(s.log, changes, now)
    ensures Report(s, changes, now).log.watched == s.log.watched
    ensures Report(s, changes, now).log.maxlen == s.log.maxlen
  {
    if |changes| > 0 {
      ReportLog(s, changes[..|changes| - 1], now);
    }
  }

  function Values(edges: seq<BitEdge>): (values: seq<bit>)
    ensures |values| == |edges|
  {
    seq(|edges|, i requires 0 <= i < |edges| => edges[i].value)
  }

  lemma ValuesSnoc(edges: seq<BitEdge>, edge: BitEdge)
    ensures Values(edges + [edge]) == Values(edges) + [edge.value]
  {
  }

  lemma OwnValuesSnoc(edges: seq<BitEdge>, edge: BitEdge, key: Key)
    ensures Values(OnKey(edges + [edge], key))
         == Values(OnKey(edges, key)) + if edge.key == key then [edge.value] else []
  {
    OnKeySnoc(edges, edge, key);
    if edge.key == key {
      ValuesSnoc(OnKey(edges, key), edge);
    } else {
      assert Values(OnKey(edges, key)) + [] == Values(OnKey(edges, key));
    }
  }

  lemma RecordValues(s: Session, change: Change, now: real, key: Key)
    requires key in s.log.watched
    ensures Values(OnKey(RecordSession(s, change.key, change.value, now).history, key))
         == Values(OnKey(s.history, key)) + if change.key == key then [change.value] else []
  {
    if change.key in s.log.watched {
      var edge := BitEdge(s.log.counter + 1, change.key, Truth(change.value), Stamp(s.log, change.key, now));
      OwnValuesSnoc(s.history, edge, key);
    }
  }

  lemma {:induction false} ReportValues(s: Session, changes: seq<Change>, now: real, key: Key)
    requires key in s.log.watched
    ensures Values(OnKey(Report(s, changes, now).history, key))
         == Values(OnKey(s.history, key)) + ValuesOn(changes, key)
  {
    if |changes| > 0 {
      var n := |changes| - 1;
      ReportValues(s, changes[..n], now, key);
      ReportLog(s, changes[..n], now);
      RecordValues(Report(s, changes[..n], now), changes[n], now, key);
    }
  }

  lemma {:induction false} ReportConsistent(s: Session, changes: seq<Change>, now: real)
    requires Consistent(s)
    ensures Consistent(Report(s, changes, now)) && Base(Report(s, changes, now)) == Base(s)
  {
    if |changes| > 0 {
      var n := |changes| - 1;
      ReportConsistent(s, changes[..n], now);
      StepConsistent(Report(s, changes[..n], now), Rec(changes[n].key, changes[n].value, now));
    }
  }

  // What stays fixed between two arms.
  ghost predicate Continues(s: Session, end: Session)
  {
    && Consistent(end) && Base(end) == Base(s)
    && end.log.watched == s.log.watched && end.log.maxlen == s.log.maxlen
  }

  lemma ReportContinues(s: Session, changes: seq<Change>, now: real)
    requires Consistent(s)
    ensures Continues(s, Report(s, changes, now))
  {
    ReportLog(s, changes, now);
    ReportConsistent(s, changes, now);
  }

  function Step(s: Session, event: Event): (next: Session)
  {
    match event
    case Reported(changes, now) => Report(s, changes, now)
    case Polled => PollSession(s)
  }

  function ChangesOf(event: Event): (changes: seq<Change>)
  {
    if event.Reported? then event.changes else []
  }

  lemma StepContinues(s: Session, event: Event)
    requires Consistent(s)
    ensures Continues(s, Step(s, event))
  {
    match event
    case Reported(changes, now) => ReportContinues(s, changes, now);
    case Polled => StepConsistent(s, Poll);
  }

  lemma {:induction false} ReplayContinues(s: Session, events: seq<Event>)
    requires Consistent(s)
    ensures Continues(s, Replay(s, events))
  {
    if |events| > 0 {
      ReplayContinues(s, events[..|events| - 1]);
      StepContinues(Replay(s, events[..|events| - 1]), events[|events| - 1]);
    }
  }

  lemma StepValues(s: Session, event: Event, key: Key)
    requires key in s.log.watched
    ensures Values(OnKey(Step(s, event).history, key))
        == Values(OnKey(s.history, key)) + ValuesOn(ChangesOf(event), key)
  {
    if event.Reported? {
      ReportValues(s, event.changes, event.time, key);
    }
  }

  // Every edge of a watched key recorded since the arm is one of the reported changes, in order.
  lemma {:induction false} ReplayValues(start: Session, events: seq<Event>, key: Key)
    requires key in start.log.watched && Consistent(start) && start.history == []
    ensures Values(OnKey(Replay(start, events).history, key)) == ValuesOn(AllChanges(events), key)
  {
    if |events| > 0 {
      var front, last := events[..|events| - 1], events[|events| - 1];
      ReplayValues(start, front, key);
      ReplayContinues(start, front);
      StepValues(Replay(start, front), last, key);
      ValuesOnConcat(AllChanges(front), ChangesOf(last), key);
    }
  }

  // From an arm on: if the reported changes track a bit, so do the logged edges; and while the
  // ring has evicted nothing it holds all of them.
  lemma EdgesTrack(before: Log, keys: set<Key>, events: seq<Event>, key: Key, first: bit, last: bit)
    requires key in keys && Tracks(first, ValuesOn(AllChanges(events), key), last)
    ensures var end := Replay(Start(before, keys), events);
            && Tracks(first, Values(OnKey(end.history, key)), last)
            && (|end.history| <= end.log.maxlen ==> Tracks(first, Values(OnKey(end.log.edges, key)), last))
  {
    StartConsistent(before, keys);
    ReplayContinues(Start(before, keys), events);
    ReplayValues(Start(before, keys), events, key);
  }

  // ---------- as single records and takes ----------

  function Records(changes: seq<Change>, now: real): (ops: seq<Op>)
    ensures |ops| == |changes|
  {
    seq(|changes|, i requires 0 <= i < |changes| => Rec(changes[i].key, changes[i].value, now))
  }

  function OpsOf(event: Event): (ops: seq<Op>)
  {
    if event.Reported? then Records(event.changes, event.time) else [Poll]
  }

  function AllOps(events: seq<Event>): (ops: seq<Op>)
  {
    if |events| == 0 then [] else AllOps(events[..|events| - 1]) + OpsOf(events[|events| - 1])
  }

  lemma {:induction false} RunConcat(s: Session, a: seq<Op>, b: seq<Op>)
    ensures Run(s, a + b) == Run(Run(s, a), b)
  {
    if |b| == 0 {
      assert a + b == a;
    } else {
      RunConcat(s, a, b[..|b| - 1]);
      FrontOfConcat(a, b);
    }
  }

  lemma {:induction false} ReportIsRun(s: Session, changes: seq<Change>, now: real)
    ensures Report(s, changes, now) == Run(s, Records(changes, now))
  {
    if |changes| > 0 {
      var n := |changes| - 1;
      ReportIsRun(s, changes[..n], now);
      assert Records(changes, now)[..n] == Records(changes[..n], now);
    }
  }

  // Batches and polls are runs of the records and takes of module EdgeSessions.
  lemma {:induction false} ReplayIsRun(s: Session, events: seq<Event>)
    ensures Replay(s, events) == Run(s, AllOps(events))
  {
    if |events| > 0 {
      var front, last := events[..|events| - 1], events[|events| - 1];
      ReplayIsRun(s, front);
      RunConcat(s, AllOps(front), OpsOf(last));
      if last.Reported? {
        ReportIsRun(Replay(s, front), last.changes, last.time);
      } else {
        assert [Poll][..0] == [];
        assert Run(Replay(s, front), [Poll]) == StepSession(Run(Replay(s, front), []), Poll);
      }
    }
  }
}
