/**
 The EtherNet/IP assembly buffers (backend/field_network/eip_scanner.py, IoBuffers) and edge
 replay for them: watched bits of both assemblies against the edges their writes report.
 */
module IoBuffers {
  import opened Bytes
  import opened BitEdges
  import opened EdgeSessions
  import opened CellSpec
  import opened EdgeReplay
  import opened DM = DeviceMemory

  // Contents of the two assemblies.
  datatype Io = Io(output: seq<byte>, input: seq<byte>)

  function ByteBits(b: byte): (bits: seq<bit>)
    ensures |bits| == 8
  {
    ToBits(b, 8)
  }

  predicate Covers(bytes: seq<byte>, address: int)
  {
    0 <= address / 8 < |bytes|
  }

  // Bit 0 of byte 0 has address 0; addresses outside the buffer never change.
  function BitAt(bytes: seq<byte>, address: int): (b: bit)
  {
    if Covers(bytes, address) then ByteBits(bytes[address / 8])[address % 8] else 0
  }

  // Eight addresses to a byte, the least significant bit first.
  lemma BitAtWeight(bytes: seq<byte>, address: int)
    ensures BitAt(bytes, address)
         == if 0 <= address < 8 * |bytes| then bytes[address / 8] / WEIGHTS[address % 8] % 2 else 0
  {
    if Covers(bytes, address) {
      ToBitsAt(bytes[address / 8], 8, address % 8);
    }
  }

  function WithBit(b: byte, k: nat, v: bit): (changed: byte)
    requires k < 8
  {
    PowerOfEight();
    BitsValue(ByteBits(b)[k := v])
  }

  lemma PowerOfEight()
    ensures Pow2(8) == 0x100
  {
    assert Pow2(4) == 16;
  }

  // Setting a clear bit adds its weight, clearing a set bit takes it away.
  lemma {:induction false} WeightOfBit(bits: seq<bit>, k: nat)
    requires k < |bits|
    ensures bits[k] == 0 ==> BitsValue(bits[k := 1]) == BitsValue(bits) + Pow2(k)
    ensures bits[k] == 1 ==> BitsValue(bits[k := 0]) == BitsValue(bits) - Pow2(k)
  {
    if k > 0 {
      WeightOfBit(bits[1..], k - 1);
      assert bits[k := 1][1..] == bits[1..][k - 1 := 1];
      assert bits[k := 0][1..] == bits[1..][k - 1 := 0];
    } else {
      assert bits[0 := 1][1..] == bits[1..] == bits[0 := 0][1..];
    }
  }

  // Only the one bit changes.
  lemma WithBitBits(b: byte, k: nat, v: bit)
    requires k < 8
    ensures ByteBits(WithBit(b, k, v)) == ByteBits(b)[k := v]
  {
    ToBitsInverts(ByteBits(b)[k := v]);
  }

  // Watched bits of one assembly that differ between two contents.
  ghost function Toggled(device: string, previous: seq<byte>, incoming: seq<byte>,
                         watched: set<Key>): (addresses: set<int>)
  {
    set k | k in watched && k.device == device && Covers(previous, k.address) && Covers(incoming, k.address)
            && BitAt(previous, k.address) != BitAt(incoming, k.address) :: k.address
  }

  function Flips(device: string, order: seq<int>, incoming: seq<byte>): (changes: seq<Change>)
    ensures |changes| == |order|
  {
    seq(|order|, i requires 0 <= i < |order| => Change(Key(device, order[i]), BitAt(incoming, order[i])))
  }

  lemma FlipsSnoc(device: string, order: seq<int>, address: int, incoming: seq<byte>)
    ensures Flips(device, order + [address], incoming)
         == Flips(device, order, incoming) + [Change(Key(device, address), BitAt(incoming, address))]
  {
  }

  lemma RecordSnoc(log: Log, changes: seq<Change>, change: Change, now: real)
    ensures RecordChanges(log, changes + [change], now)
         == RecordLog(RecordChanges(log, changes, now), change.key, change.value, now)
  {
    assert (changes + [change])[..|changes|] == changes;
  }

  lemma ToggledAll(device: string, previous: seq<byte>, incoming: seq<byte>, watched: set<Key>, all: set<int>)
    requires all == set k | k in watched && k.device == device :: k.address
    ensures (set a | a in all && Covers(previous, a) && Covers(incoming, a) && BitAt(previous, a) != BitAt(incoming, a))
         == Toggled(device, previous, incoming, watched)
  {
    assert forall a :: a in all ==> Key(device, a) in watched;
  }

  class IoBuffers {
    const output: array<byte>
    const input: array<byte>
    const edges: BitEdgeLog
    var inputSeq: nat
    var outputSeq: nat
    var packetsRx: nat
    var packetsTx: nat
    var lastInputAt: real

    constructor (outputSize: nat, inputSize: nat)
      ensures Valid() && fresh(output) && fresh(input) && fresh(edges)
      ensures Contents() == Io(Zeros(outputSize), Zeros(inputSize))
      ensures edges.State() == Log([], 0, {}, map[], 0.0, 16384)
    {
      output := new byte[outputSize](_ => 0);
      input := new byte[inputSize](_ => 0);
      edges := new BitEdgeLog();
      inputSeq, outputSeq, packetsRx, packetsTx, lastInputAt := 0, 0, 0, 0, 0.0;
      new;
      assert output[..] == Zeros(outputSize) && input[..] == Zeros(inputSize);
    }

    // The two assemblies are different buffers.
    ghost predicate Valid()
    {
      output != input
    }

    function Contents(): (io: Io)
      reads output, input
    {
      Io(output[..], input[..])
    }

    // Reports the watched bits that differ, in the order an iteration over the watched set gives.
    method RecordBitChanges(device: string, previous: seq<byte>, incoming: seq<byte>, now: real)
      returns (order: seq<int>)
      modifies edges
      ensures Enumerates(order, Toggled(device, previous, incoming, old(edges.watched)))
      ensures edges.State() == RecordChanges(old(edges.State()), Flips(device, order, incoming), now)
    {
      var all := set k | k in edges.watched && k.device == device :: k.address;
      ghost var log := edges.State();
      ToggledAll(device, previous, incoming, edges.watched, all);
      var pending := all;
      order := [];
      while pending != {}
        invariant pending <= all
        invariant Enumerates(order, Differing(previous, incoming, all - pending))
        invariant edges.State() == RecordChanges(log, Flips(device, order, incoming), now)
        decreases |pending|
      {
        var address :| address in pending;
        DifferingStep(previous, incoming, all, pending, address);
        pending := pending - {address};
        if Covers(previous, address) && Covers(incoming, address) {
          var oldBit, newBit := BitAt(previous, address), BitAt(incoming, address);
          if oldBit != newBit {
            EnumeratesSnoc(order, Differing(previous, incoming, all - pending - {address}), address);
            FlipsSnoc(device, order, address, incoming);
            RecordSnoc(log, Flips(device, order, incoming), Change(Key(device, address), newBit), now);
            order := order + [address];
            edges.Record(Key(device, address), newBit, now);
          }
        }
      }
      assert all - pending == all;
    }

    // false stands for the ValueError of a wrong size.
    method WriteOutput(data: seq<byte>, now: real) returns (ok: bool, order: seq<int>)
      requires Valid()
      modifies output, edges
      ensures ok == (|data| == output.Length)
      ensures Contents() == if ok then old(Contents()).(output := data) else old(Contents())
      ensures Enumerates(order, if ok then Toggled("OUT", old(output[..]), data, old(edges.watched)) else {})
      ensures edges.State() == RecordChanges(old(edges.State()), Flips("OUT", order, data), now)
    {
      if |data| != output.Length {
        return false, [];
      }
      var previous := output[..];
      Fill(output, data);
      order := RecordBitChanges("OUT", previous, data, now);
      ok := true;
    }

    method WriteInput(data: seq<byte>, sequence: Option<int>, arrived: real, clock: real)
      returns (ok: bool, order: seq<int>)
      requires Valid()
      modifies input, edges, this`inputSeq, this`packetsRx, this`lastInputAt
      ensures ok == (|data| == input.Length)
      ensures Contents() == if ok then old(Contents()).(input := data) else old(Contents())
      ensures inputSeq == if ok && sequence.Some? then ToU16(sequence.value) else old(inputSeq)
      ensures packetsRx == old(packetsRx) + if ok then 1 else 0
      ensures lastInputAt == if ok then clock else old(lastInputAt)
      ensures Enumerates(order, if ok then Toggled("IN", old(input[..]), data, old(edges.watched)) else {})
      ensures edges.State() == RecordChanges(old(edges.State()), Flips("IN", order, data), arrived)
    {
      if |data| != input.Length {
        return false, [];
      }
      var previous := input[..];
      Fill(input, data);
      if sequence.Some? {
        inputSeq := ToU16(sequence.value);
      }
      lastInputAt := clock;
      packetsRx := packetsRx + 1;
      order := RecordBitChanges("IN", previous, data, arrived);
      ok := true;
    }

    // Both assemblies to zero; output edges are reported before input edges.
    method Clear(now: real) returns (outOrder: seq<int>, inOrder: seq<int>)
      requires Valid()
      modifies output, input, edges, this`packetsRx, this`packetsTx, this`lastInputAt
      ensures Contents() == Io(Zeros(output.Length), Zeros(input.Length))
      ensures packetsRx == packetsTx == 0 && lastInputAt == 0.0
      ensures Enumerates(outOrder, Toggled("OUT", old(output[..]), output[..], old(edges.watched)))
      ensures Enumerates(inOrder, Toggled("IN", old(input[..]), input[..], old(edges.watched)))
      ensures edges.State() == RecordChanges(old(edges.State()),
                                             Flips("OUT", outOrder, output[..]) + Flips("IN", inOrder, input[..]), now)
    {
      var previousOutput, previousInput := output[..], input[..];
      Fill(output, Zeros(output.Length));
      Fill(input, Zeros(input.Length));
      packetsRx, packetsTx, lastInputAt := 0, 0, 0.0;
      ghost var log := edges.State();
      outOrder := RecordBitChanges("OUT", previousOutput, output[..], now);
      RecordedWatched(log, Flips("OUT", outOrder, output[..]), now);
      inOrder := RecordBitChanges("IN", previousInput, input[..], now);
      RecordChangesConcat(log, Flips("OUT", outOrder, output[..]), Flips("IN", inOrder, input[..]), now);
    }

    // One output bit; false stands for the ValueError of an address outside the assembly.
    method SetOutputBit(address: int, value: int, now: real) returns (ok: bool)
      requires Valid()
      modifies output, edges
      ensures ok == Covers(old(output[..]), address)
      ensures Contents().input == old(Contents().input) && |Contents().output| == |old(Contents().output)|
      ensures forall a :: BitAt(output[..], a) == if ok && a == address then Truth(value) else BitAt(old(output[..]), a)
      ensures edges.State() == if ok && BitAt(old(output[..]), address) != Truth(value)
                               then RecordLog(old(edges.State()), Key("OUT", address), Truth(value), now)
                               else old(edges.State())
    {
      var byteIndex, k := address / 8, address % 8;
      var newBit: bit := if value != 0 then 1 else 0;
      if byteIndex < 0 || byteIndex >= output.Length {
        return false;
      }
      ok := true;
      var oldBit := ByteBits(output[byteIndex])[k];
      if oldBit == newBit {
        return;
      }
      WeightOfBit(ByteBits(output[byteIndex]), k);
      PowerOfEight();
      BitsValueInverts(output[byteIndex], 8);
      ghost var before := output[..];
      WithBitBits(output[byteIndex], k, newBit);
      if newBit == 1 {
        output[byteIndex] := output[byteIndex] as int + Pow2(k);
      } else {
        output[byteIndex] := output[byteIndex] as int - Pow2(k);
      }
      assert output[..] == before[byteIndex := WithBit(before[byteIndex], k, newBit)];
      OneBitChanged(before, address, newBit);
      edges.Record(Key("OUT", address), newBit, now);
    }
  }

  function Differing(previous: seq<byte>, incoming: seq<byte>, addresses: set<int>): (differing: set<int>)
  {
    set a | a in addresses && Covers(previous, a) && Covers(incoming, a) && BitAt(previous, a) != BitAt(incoming, a)
  }

  lemma DifferingStep(previous: seq<byte>, incoming: seq<byte>, all: set<int>, pending: set<int>, address: int)
    requires pending <= all && address in pending
    ensures var met, next := Differing(previous, incoming, all - pending),
                             Differing(previous, incoming, all - (pending - {address}));
            && address !in met
            && next == if address in Differing(previous, incoming, all) then met + {address} else met
    ensures all - (pending - {address}) - {address} == all - pending
  {
  }

  lemma OneBitChanged(before: seq<byte>, address: int, v: bit)
    requires Covers(before, address)
    ensures var i, k := address / 8, address % 8;
            var after := before[i := WithBit(before[i], k, v)];
            forall a :: BitAt(after, a) == if a == address then v else BitAt(before, a)
  {
    var i, k := address / 8, address % 8;
    var after := before[i := WithBit(before[i], k, v)];
    WithBitBits(before[i], k, v);
    forall a ensures BitAt(after, a) == if a == address then v else BitAt(before, a) {
      assert a == 8 * (a / 8) + a % 8;
      assert address == 8 * i + k;
    }
  }

  lemma {:induction false} RecordedWatched(log: Log, changes: seq<Change>, now: real)
    ensures RecordChanges(log, changes, now).watched == log.watched
  {
    if |changes| > 0 {
      RecordedWatched(log, changes[..|changes| - 1], now);
    }
  }

  method Fill(buffer: array<byte>, data: seq<byte>)
    requires |data| == buffer.Length
    modifies buffer
    ensures buffer[..] == data
  {
    forall i | 0 <= i < |data| {
      buffer[i] := data[i];
    }
  }

  // ---------- edge replay ----------

  function BitOn(io: Io, key: Key): (b: bit)
  {
    if key.device == "OUT" then BitAt(io.output, key.address)
    else if key.device == "IN" then BitAt(io.input, key.address)
    else 0
  }

  // The writing operations with the orders their reports took, and polls of the log.
  datatype Op =
    | Output(data: seq<byte>, order: seq<int>, time: real)
    | Input(data: seq<byte>, order: seq<int>, time: real)
    | OutputBit(address: int, value: int, time: real)
    | Cleared(outOrder: seq<int>, inOrder: seq<int>, time: real)
    | Take

  function WithOutputBit(output: seq<byte>, address: int, v: bit): (after: seq<byte>)
  {
    if Covers(output, address) then output[address / 8 := WithBit(output[address / 8], address % 8, v)] else output
  }

  function Effects(io: Io, op: Op): (result: (Io, seq<Change>))
  {
    match op
    case Output(data, order, _) =>
      (if |data| == |io.output| then io.(output := data) else io, Flips("OUT", order, data))
    case Input(data, order, _) => (if |data| == |io.input| then io.(input := data) else io, Flips("IN", order, data))
    case OutputBit(address, value, _) =>
      (io.(output := WithOutputBit(io.output, address, Truth(value))),
       if Covers(io.output, address) && BitAt(io.output, address) != Truth(value)
       then [Change(Key("OUT", address), Truth(value))] else [])
    case Cleared(outOrder, inOrder, _) =>
      (Io(Zeros(|io.output|), Zeros(|io.input|)),
       Flips("OUT", outOrder, Zeros(|io.output|)) + Flips("IN", inOrder, Zeros(|io.input|)))
    case Take => (io, [])
  }

  // The orders are those the methods above can report.
  ghost predicate PossibleOp(io: Io, watched: set<Key>, op: Op)
  {
    match op
    case Output(data, order, _) =>
      Enumerates(order, if |data| == |io.output| then Toggled("OUT", io.output, data, watched) else {})
    case Input(data, order, _) =>
      Enumerates(order, if |data| == |io.input| then Toggled("IN", io.input, data, watched) else {})
    case Cleared(outOrder, inOrder, _) =>
      && Enumerates(outOrder, Toggled("OUT", io.output, Zeros(|io.output|), watched))
      && Enumerates(inOrder, Toggled("IN", io.input, Zeros(|io.input|), watched))
    case _ => true
  }

  lemma {:induction false} FlipsOn(device: string, order: seq<int>, incoming: seq<byte>, key: Key)
    requires forall i, j :: 0 <= i < j < |order| ==> order[i] != order[j]
    ensures ValuesOn(Flips(device, order, incoming), key)
         == if key.device == device && key.address in order then [BitAt(incoming, key.address)] else []
  {
    if |order| > 0 {
      var n := |order| - 1;
      FlipsOn(device, order[..n], incoming, key);
      assert Flips(device, order, incoming)[..n] == Flips(device, order[..n], incoming);
      assert order == order[..n] + [order[n]];
    }
  }

  lemma ReplacedAccounts(device: string, previous: seq<byte>, incoming: seq<byte>, order: seq<int>,
                         watched: set<Key>, key: Key)
    requires |previous| == |incoming| && key in watched && key.device == device
    requires Enumerates(order, Toggled(device, previous, incoming, watched))
    ensures Tracks(BitAt(previous, key.address), ValuesOn(Flips(device, order, incoming), key),
        BitAt(incoming, key.address))
  {
    FlipsOn(device, order, incoming, key);
    if BitAt(previous, key.address) != BitAt(incoming, key.address) {
      assert key.address in Toggled(device, previous, incoming, watched);
    } else {
      assert key.address !in Toggled(device, previous, incoming, watched);
    }
  }

  ghost predicate Accounts(before: Io, changes: seq<Change>, after: Io, key: Key)
  {
    Tracks(BitOn(before, key), ValuesOn(changes, key), BitOn(after, key))
  }

  lemma ClearAccounts(io: Io, op: Op, watched: set<Key>, key: Key)
    requires key in watched && op.Cleared? && PossibleOp(io, watched, op)
    ensures Accounts(io, Effects(io, op).1, Effects(io, op).0, key)
  {
    var outs, ins := Flips("OUT", op.outOrder, Zeros(|io.output|)), Flips("IN", op.inOrder, Zeros(|io.input|));
    ValuesOnConcat(outs, ins, key);
    FlipsOn("OUT", op.outOrder, Zeros(|io.output|), key);
    FlipsOn("IN", op.inOrder, Zeros(|io.input|), key);
    if key.device == "OUT" {
      ReplacedAccounts("OUT", io.output, Zeros(|io.output|), op.outOrder, watched, key);
      assert ValuesOn(outs, key) + [] == ValuesOn(outs, key);
    } else if key.device == "IN" {
      ReplacedAccounts("IN", io.input, Zeros(|io.input|), op.inOrder, watched, key);
      assert [] + ValuesOn(ins, key) == ValuesOn(ins, key);
    }
  }

  lemma OpAccounts(io: Io, op: Op, watched: set<Key>, key: Key)
    requires key in watched && PossibleOp(io, watched, op)
    ensures Accounts(io, Effects(io, op).1, Effects(io, op).0, key)
  {
    match op
    case Output(data, order, _) =>
      FlipsOn("OUT", order, data, key);
      if |data| == |io.output| && key.device == "OUT" {
        ReplacedAccounts("OUT", io.output, data, order, watched, key);
      }
    case Input(data, order, _) =>
      FlipsOn("IN", order, data, key);
      if |data| == |io.input| && key.device == "IN" {
        ReplacedAccounts("IN", io.input, data, order, watched, key);
      }
    case OutputBit(address, value, _) =>
      if Covers(io.output, address) {
        OneBitChanged(io.output, address, Truth(value));
        ValuesOnSnoc([], Change(Key("OUT", address), Truth(value)), key);
        assert [] + [Change(Key("OUT", address), Truth(value))] == [Change(Key("OUT", address), Truth(value))];
      }
    case Cleared(_, _, _) => ClearAccounts(io, op, watched, key);
    case Take =>
  }

  function After(io: Io, ops: seq<Op>): (end: Io)
  {
    if |ops| == 0 then io else Effects(After(io, ops[..|ops| - 1]), ops[|ops| - 1]).0
  }

  function EventOf(io: Io, op: Op): (event: Event)
  {
    if op.Take? then Polled else Reported(Effects(io, op).1, op.time)
  }

  function Events(io: Io, ops: seq<Op>): (events: seq<Event>)
    ensures |events| == |ops|
  {
    if |ops| == 0 then []
    else Events(io, ops[..|ops| - 1]) + [EventOf(After(io, ops[..|ops| - 1]), ops[|ops| - 1])]
  }

  ghost predicate Possible(io: Io, watched: set<Key>, ops: seq<Op>)
  {
    |ops| > 0 ==>
      Possible(io, watched, ops[..|ops| - 1]) && PossibleOp(After(io, ops[..|ops| - 1]), watched, ops[|ops| - 1])
  }

  lemma {:induction false} RunAccounts(io: Io, ops: seq<Op>, watched: set<Key>, key: Key)
    requires key in watched && Possible(io, watched, ops)
    ensures Accounts(io, AllChanges(Events(io, ops)), After(io, ops), key)
  {
    if |ops| > 0 {
      var front, op := ops[..|ops| - 1], ops[|ops| - 1];
      RunAccounts(io, front, watched, key);
      var mid, events := After(io, front), Events(io, front);
      OpAccounts(mid, op, watched, key);
      assert Events(io, ops)[..|front|] == events;
      assert ChangesOf(EventOf(mid, op)) == Effects(mid, op).1;
      ValuesOnConcat(AllChanges(events), Effects(mid, op).1, key);
      TracksConcat(BitOn(io, key), ValuesOn(AllChanges(events), key), BitOn(mid, key),
                   ValuesOn(Effects(mid, op).1, key), BitOn(After(io, ops), key));
    }
  }

  // Edge replay for the assemblies: over every run of packets, output writes, single-bit writes
  // and clears since an arm, the edges of a watched bit alternate and lead from its value at the
  // arm to its value now; the ring holds them all while it has evicted none.
  lemma AssemblyEdgeReplay(io: Io, before: Log, keys: set<Key>, ops: seq<Op>, key: Key)
    requires key in keys && Possible(io, keys, ops)
    ensures var end := Replay(Start(before, keys), Events(io, ops));
            && Tracks(BitOn(io, key), Values(OnKey(end.history, key)), BitOn(After(io, ops), key))
            && (|end.history| <= end.log.maxlen ==>
                  Tracks(BitOn(io, key), Values(OnKey(end.log.edges, key)), BitOn(After(io, ops), key)))
  {
    RunAccounts(io, ops, keys, key);
    EdgesTrack(before, keys, Events(io, ops), key, BitOn(io, key), BitOn(After(io, ops), key));
  }
}
