/** Edge replay for the PLC memory, over every run of its writing operations. */
module MemoryEdges {
  import opened Bytes
  import opened BitEdges
  import opened EdgeSessions
  import opened CellSpec
  import opened EdgeReplay
  import opened Mc3e
  import opened McProperties
  import DM = DeviceMemory

  function BitOn(c: Cells, key: Key): (b: bit)
  {
    if key.device == "M" && 0 <= key.address < |c.m| then c.m[key.address] else 0
  }

  // ---------- single operations ----------

  lemma {:induction false} ChangesOnKey(area: seq<bit>, head: nat, values: seq<bit>, key: Key)
    requires head + |values| <= |area|
    ensures var after := Overwrite(area, head, values);
            var at := key.address;
            ValuesOn(Changes(area, head, values), key)
            == if key.device == "M" && head <= at < head + |values| && after[at] != area[at] then [after[at]] else []
  {
    if |values| > 0 {
      var n := |values| - 1;
      ChangesOnKey(area, head, values[..n], key);
      if area[head + n] != values[n] {
        ValuesOnSnoc(Changes(area, head, values[..n]), Change(Key("M", head + n), values[n]), key);
      }
    }
  }

  // The reported changes of an operation account for what it did to a bit.
  ghost predicate Accounts(before: Cells, changes: seq<Change>, after: Cells, key: Key)
  {
    Tracks(BitOn(before, key), ValuesOn(changes, key), BitOn(after, key))
  }

  lemma AccountsThen(a: Cells, xs: seq<Change>, b: Cells, ys: seq<Change>, c: Cells, key: Key)
    requires Accounts(a, xs, b, key) && Accounts(b, ys, c, key)
    ensures Accounts(a, xs + ys, c, key)
  {
    ValuesOnConcat(xs, ys, key);
    TracksConcat(BitOn(a, key), ValuesOn(xs, key), BitOn(b, key), ValuesOn(ys, key), BitOn(c, key));
  }

  lemma PutBitsAccounts(c: Cells, head: int, bits: seq<bit>, key: Key)
    ensures var e := PutBits(c, head, bits); Accounts(c, e.changes, e.cells, key)
  {
    if Fits(c.m, head, |bits|) {
      ChangesOnKey(c.m, head, bits, key);
    }
  }

  lemma WriteBitsAccounts(c: Cells, head: int, values: seq<int>, key: Key)
    ensures var e := WriteBits(c, head, values); Accounts(c, e.changes, e.cells, key)
  {
    if AreBits(values) {
      PutBitsAccounts(c, head, values, key);
    }
  }

  lemma {:induction false} WriteBitWordsAccounts(c: Cells, head: int, values: seq<int>, key: Key)
    ensures var e := WriteBitWords(c, head, values); Accounts(c, e.changes, e.cells, key)
    decreases |values|
  {
    if |values| > 0 {
      var n := |values| - 1;
      WriteBitWordsAccounts(c, head, values[..n], key);
      NextGroupAccounts(c, WriteBitWords(c, head, values[..n]), head + n * 16, ToBits(ToU16(values[n]), 16), key);
    }
  }

  lemma NextGroupAccounts(c: Cells, front: Effect, head: int, bits: seq<bit>, key: Key)
    requires Accounts(c, front.changes, front.cells, key)
    ensures var last := PutBits(front.cells, head, bits);
            var e := if !front.ok then front else Effect(last.ok, last.cells, front.changes + last.changes);
            Accounts(c, e.changes, e.cells, key)
  {
    PutBitsThenAccounts(c, front, head, bits, key);
  }

  lemma PutBitsThenAccounts(c: Cells, front: Effect, head: int, bits: seq<bit>, key: Key)
    requires Accounts(c, front.changes, front.cells, key)
    ensures var last := PutBits(front.cells, head, bits);
            Accounts(c, front.changes + last.changes, last.cells, key)
  {
    var last := PutBits(front.cells, head, bits);
    PutBitsAccounts(front.cells, head, bits, key);
    AccountsThen(c, front.changes, front.cells, last.changes, last.cells, key);
  }

  lemma DeviceWriteAccounts(c: Cells, device: Device, head: int, values: seq<int>, key: Key)
    ensures var e := WriteDeviceWords(c, device, head, values); Accounts(c, e.changes, e.cells, key)
  {
    if device.M? {
      WriteBitWordsAccounts(c, head, values, key);
    }
  }

  lemma {:induction false} RandomWriteAccounts(c: Cells, frame: seq<byte>, offset: nat, n: nat, double: bool, key: Key)
    ensures var e := RandomWrite(c, frame, offset, n, double); Accounts(c, e.changes, e.cells, key)
  {
    if n > 0 {
      RandomWriteAccounts(c, frame, offset, n - 1, double, key);
      var front := RandomWrite(c, frame, offset, n - 1, double);
      var at := EntryOffset(offset, n - 1, double);
      EntryAccounts(front.cells, frame, at, double, key);
      var last := WriteEntry(front.cells, frame, at, double);
      AccountsThen(c, front.changes, front.cells, last.changes, last.cells, key);
    }
  }

  lemma EntryAccounts(c: Cells, frame: seq<byte>, at: nat, double: bool, key: Key)
    ensures var e := WriteEntry(c, frame, at, double); Accounts(c, e.changes, e.cells, key)
  {
    var device := ParseDevice(frame, at);
    if device.Some? {
      DeviceWriteAccounts(c, device.value.0, device.value.1, EntryWords(frame, at, double), key);
    }
  }

  lemma RandomAllAccounts(c: Cells, frame: seq<byte>, words: nat, dwords: nat, key: Key)
    ensures var e := RandomWriteAll(c, frame, words, dwords); Accounts(c, e.changes, e.cells, key)
  {
    var first := RandomWrite(c, frame, 17, words, false);
    var at := EntryOffset(17, words, false);
    RandomWriteAccounts(c, frame, 17, words, false, key);
    RandomWriteAccounts(first.cells, frame, at, dwords, true, key);
    var second := RandomWrite(first.cells, frame, at, dwords, true);
    AccountsThen(c, first.changes, first.cells, second.changes, second.cells, key);
  }

  lemma ExecuteAccounts(c: Cells, r: McRequest, key: Key)
    ensures var x := Execute(c, r); Accounts(c, x.changes, x.cells, key)
  {
    if r.command == CMD_BATCH_WRITE {
      if r.subcommand == SUBCMD_WORD && |r.payload| >= 2 * r.points {
        DeviceWriteAccounts(c, r.device, r.head, PayloadWords(r.payload, r.points), key);
      } else if r.subcommand == SUBCMD_BIT && r.device.M? && |r.payload| >= (r.points + 1) / 2 {
        WriteBitsAccounts(c, r.head, UnpackBits(r.payload, r.points), key);
      }
    }
  }

  // Accepted or not, in part or in whole: no frame changes a bit behind the log's back.
  lemma FrameAccounts(c: Cells, frame: seq<byte>, key: Key)
    ensures var x := ExecuteFrame(c, frame); Accounts(c, x.changes, x.cells, key)
  {
    if |frame| >= 17 {
      RandomAllAccounts(c, frame, frame[15], frame[16], key);
    }
    var request := ParseRequest(frame);
    if request.Some? {
      ExecuteAccounts(c, request.value, key);
    }
  }

  lemma {:induction false} FallsOn(order: seq<int>, key: Key)
    requires forall i, j :: 0 <= i < j < |order| ==> order[i] != order[j]
    ensures ValuesOn(DM.Falls(order), key) == if key.device == "M" && key.address in order then [0] else []
  {
    if |order| > 0 {
      var n := |order| - 1;
      FallsOn(order[..n], key);
      assert DM.Falls(order)[..n] == DM.Falls(order[..n]);
      assert order == order[..n] + [order[n]];
    }
  }

  // A clear reports the fall of each watched bit that was on.
  lemma ClearAccounts(c: Cells, order: seq<int>, watched: set<Key>, key: Key)
    requires DM.Enumerates(order, DM.Falling(c, watched)) && key in watched
    ensures Accounts(c, DM.Falls(order), DM.Cleared(c), key)
  {
    FallsOn(order, key);
    if key.device == "M" && 0 <= key.address < |c.m| && c.m[key.address] != 0 {
      assert key.address in DM.Falling(c, watched);
    }
    if key.device == "M" && key.address in order {
      assert key.address in DM.Falling(c, watched);
    }
  }

  // ---------- runs ----------

  // The operations of DeviceMemory that can change a bit, and polls of the log. order is the
  // order in which a clear met the falling bits.
  datatype Op =
    | Frame(frame: seq<byte>, time: real)
    | SetBit(address: int, value: int, time: real)
    | Bits(head: int, values: seq<int>, time: real)
    | Words(head: int, values: seq<int>)
    | Clear(order: seq<int>, time: real)
    | Take

  function Effects(c: Cells, op: Op): (result: (Cells, seq<Change>))
  {
    match op
    case Frame(frame, _) => var x := ExecuteFrame(c, frame); (x.cells, x.changes)
    case SetBit(address, value, _) => var e := WriteBits(c, address, [Truth(value)]); (e.cells, e.changes)
    case Bits(head, values, _) => var e := WriteBits(c, head, values); (e.cells, e.changes)
    case Words(head, values) => (WriteWords(c, head, values).cells, [])
    case Clear(order, _) => (DM.Cleared(c), DM.Falls(order))
    case Take => (c, [])
  }

  function EventOf(c: Cells, op: Op): (event: Event)
  {
    match op
    case Take => Polled
    case Words(_, _) => Reported([], 0.0)
    case _ => Reported(Effects(c, op).1, op.time)
  }

  function After(c: Cells, ops: seq<Op>): (end: Cells)
  {
    if |ops| == 0 then c else Effects(After(c, ops[..|ops| - 1]), ops[|ops| - 1]).0
  }

  function Events(c: Cells, ops: seq<Op>): (events: seq<Event>)
  {
    if |ops| == 0 then []
    else Events(c, ops[..|ops| - 1]) + [EventOf(After(c, ops[..|ops| - 1]), ops[|ops| - 1])]
  }

  // Each clear enumerates exactly the watched bits that are on when it happens.
  ghost predicate Possible(c: Cells, watched: set<Key>, ops: seq<Op>)
  {
    |ops| > 0 ==>
      && Possible(c, watched, ops[..|ops| - 1])
      && (ops[|ops| - 1].Clear? ==>
            DM.Enumerates(ops[|ops| - 1].order, DM.Falling(After(c, ops[..|ops| - 1]), watched)))
  }

  lemma OpAccounts(c: Cells, op: Op, watched: set<Key>, key: Key)
    requires key in watched
    requires op.Clear? ==> DM.Enumerates(op.order, DM.Falling(c, watched))
    ensures Accounts(c, Effects(c, op).1, Effects(c, op).0, key)
  {
    match op
    case Frame(frame, _) => FrameAccounts(c, frame, key);
    case SetBit(address, value, _) => WriteBitsAccounts(c, address, [Truth(value)], key);
    case Bits(head, values, _) => WriteBitsAccounts(c, head, values, key);
    case Words(head, values) =>
    case Clear(order, _) => ClearAccounts(c, order, watched, key);
    case Take =>
  }

  lemma {:induction false} RunAccounts(c: Cells, ops: seq<Op>, watched: set<Key>, key: Key)
    requires key in watched && Possible(c, watched, ops)
    ensures Accounts(c, AllChanges(Events(c, ops)), After(c, ops), key)
  {
    if |ops| > 0 {
      var n := |ops| - 1;
      RunAccounts(c, ops[..n], watched, key);
      var mid, events := After(c, ops[..n]), Events(c, ops[..n]);
      OpAccounts(mid, ops[n], watched, key);
      EventsFront(c, ops);
      var reported := ChangesOf(EventOf(mid, ops[n]));
      assert reported == Effects(mid, ops[n]).1;
      AccountsThen(c, AllChanges(events), mid, reported, After(c, ops), key);
    }
  }

  lemma EventsFront(c: Cells, ops: seq<Op>)
    requires |ops| > 0
    ensures var n := |ops| - 1;
            |Events(c, ops)| == n + 1 && Events(c, ops)[..n] == Events(c, ops[..n])
            && Events(c, ops)[n] == EventOf(After(c, ops[..n]), ops[n])
  {
    EventsLength(c, ops[..|ops| - 1]);
  }

  lemma {:induction false} EventsLength(c: Cells, ops: seq<Op>)
    ensures |Events(c, ops)| == |ops|
  {
    if |ops| > 0 {
      EventsLength(c, ops[..|ops| - 1]);
    }
  }

  // Edge replay for the memory: over every run of frames, bit writes and clears since an arm,
  // with polls anywhere, the recorded edges of a watched M bit alternate, and replaying them
  // over the bit's value at the arm gives its value now; the ring itself holds those edges as
  // long as it has evicted none.
  lemma MemoryEdgeReplay(c: Cells, before: Log, keys: set<Key>, ops: seq<Op>, key: Key)
    requires key in keys && Possible(c, keys, ops)
    ensures var end := Replay(Start(before, keys), Events(c, ops));
            && Tracks(BitOn(c, key), Values(OnKey(end.history, key)), BitOn(After(c, ops), key))
            && (|end.history| <= end.log.maxlen ==>
                  Tracks(BitOn(c, key), Values(OnKey(end.log.edges, key)), BitOn(After(c, ops), key)))
  {
    RunAccounts(c, ops, keys, key);
    EdgesTrack(before, keys, Events(c, ops), key, BitOn(c, key), BitOn(After(c, ops), key));
  }
}
