/**
 The request handler as the server runs it, on the growing memory and its edge log
 (backend/plc_link/mc3e.py), proved against the specification in module Mc3e.
 */
module McServer {
  import opened Bytes
  import opened BitEdges
  import opened CellSpec
  import opened Mc3e
  import DM = DeviceMemory

  type Memory = DM.DeviceMemory

  method PackBitsLoop(values: seq<bit>) returns (packed: seq<byte>)
    ensures packed == PackBits(values)
  {
    var buffer := new byte[(|values| + 1) / 2](_ => 0);
    for index := 0 to |values|
      invariant forall k :: 0 <= k < buffer.Length ==>
        buffer[k] == if 2 * k + 1 < index then PackedByte(values, k)
                     else if 2 * k < index then values[2 * k] as int * 16 else 0
    {
      if index % 2 == 0 {
        buffer[index / 2] := buffer[index / 2] + values[index] as int * 16;
      } else {
        buffer[index / 2] := buffer[index / 2] + values[index];
      }
    }
    packed := buffer[..];
  }

  method UnpackBitsLoop(data: seq<byte>, count: nat) returns (values: seq<bit>)
    requires (count + 1) / 2 <= |data|
    ensures values == UnpackBits(data, count)
  {
    values := [];
    for index := 0 to count
      invariant values == UnpackBits(data, index)
    {
      var b := data[index / 2];
      var shifted: int := if index % 2 == 0 then b / 16 else b;
      values := values + [shifted % 2];
    }
  }

  method ReadDevice(memory: Memory, device: Device, head: int, count: int) returns (words: Option<seq<word>>)
    modifies memory
    ensures memory.Contents() == old(memory.Contents())
    ensures words == ReadDeviceWords(memory.Contents(), device, head, count)
  {
    match device
    case D => words := memory.ReadWords(head, count);
    case M => words := memory.ReadBitWords(head, count);
  }

  method WriteDevice(memory: Memory, device: Device, head: int, values: seq<int>, now: real) returns (ok: bool)
    modifies memory, memory.edges
    ensures var e := WriteDeviceWords(old(memory.Contents()), device, head, values);
            && ok == e.ok && memory.Contents() == e.cells
            && memory.edges.State() == RecordChanges(old(memory.edges.State()), e.changes, now)
  {
    match device
    case D => ok := memory.WriteWords(head, values);
    case M => ok := memory.WriteBitWords(head, values, now);
  }

  method ExecuteBatch(memory: Memory, r: McRequest, now: real) returns (data: Option<seq<byte>>)
    modifies memory, memory.edges
    ensures var x := Execute(old(memory.Contents()), r);
            && data == x.data && memory.Contents() == x.cells
            && memory.edges.State() == RecordChanges(old(memory.edges.State()), x.changes, now)
  {
    if r.command == CMD_BATCH_READ && r.subcommand == SUBCMD_WORD {
      var words := ReadDevice(memory, r.device, r.head, r.points);
      return if words.None? then None else Some(EncodeWords(words.value));
    }
    if r.command == CMD_BATCH_READ && r.subcommand == SUBCMD_BIT {
      if r.device.D? {
        return None;
      }
      var bits := memory.ReadBits(r.head, r.points);
      if bits.None? {
        return None;
      }
      var packed := PackBitsLoop(bits.value);
      return Some(packed);
    }
    if r.command == CMD_BATCH_WRITE && r.subcommand == SUBCMD_WORD {
      if |r.payload| < 2 * r.points {
        return None;
      }
      var ok := WriteDevice(memory, r.device, r.head, PayloadWords(r.payload, r.points), now);
      return if ok then Some([]) else None;
    }
    if r.command == CMD_BATCH_WRITE && r.subcommand == SUBCMD_BIT {
      if r.device.D? || |r.payload| < (r.points + 1) / 2 {
        return None;
      }
      var bits := UnpackBitsLoop(r.payload, r.points);
      var ok := memory.WriteBits(r.head, bits, now);
      return if ok then Some([]) else None;
    }
    return None;
  }

  method ReadOneEntry(memory: Memory, frame: seq<byte>, offset: nat, double: bool)
    returns (data: Option<seq<byte>>)
    modifies memory
    ensures memory.Contents() == old(memory.Contents())
    ensures data == ReadEntry(old(memory.Contents()), frame, offset, double)
  {
    var device := ParseDevice(frame, offset);
    if device.None? {
      return None;
    }
    var words := ReadDevice(memory, device.value.0, device.value.1, Width(double));
    return if words.None? then None else Some(EncodeWords(words.value));
  }

  method ReadEntries(memory: Memory, frame: seq<byte>, offset: nat, n: nat, double: bool)
    returns (data: Option<seq<byte>>)
    modifies memory
    ensures memory.Contents() == old(memory.Contents())
    ensures data == RandomRead(old(memory.Contents()), frame, offset, n, double)
  {
    ghost var c := memory.Contents();
    data := Some([]);
    var at := offset;
    for k := 0 to n
      invariant at == offset + k * 4
      invariant memory.Contents() == c
      invariant data.Some? && data == RandomRead(c, frame, offset, k, double)
    {
      RandomReadStep(c, frame, offset, k, at, double);
      var entry := ReadOneEntry(memory, frame, at, double);
      if entry.None? {
        RandomReadStops(c, frame, offset, k + 1, n, double);
        return None;
      }
      at := at + 4;
      data := Some(data.value + entry.value);
    }
  }

  lemma RandomReadStep(c: Cells, frame: seq<byte>, offset: nat, k: nat, at: nat, double: bool)
    requires at == offset + k * 4
    ensures var front, last := RandomRead(c, frame, offset, k, double), ReadEntry(c, frame, at, double);
            RandomRead(c, frame, offset, k + 1, double)
            == if front.None? || last.None? then None else Some(front.value + last.value)
  {
  }

  lemma {:induction false} RandomReadStops(c: Cells, frame: seq<byte>, offset: nat, k: nat, n: nat, double: bool)
    requires k <= n && RandomRead(c, frame, offset, k, double).None?
    ensures RandomRead(c, frame, offset, n, double).None?
  {
    if k < n {
      RandomReadStops(c, frame, offset, k, n - 1, double);
    }
  }

  method WriteOneEntry(memory: Memory, frame: seq<byte>, offset: nat, double: bool, now: real) returns (ok: bool)
    modifies memory, memory.edges
    ensures var e := WriteEntry(old(memory.Contents()), frame, offset, double);
            && ok == e.ok && memory.Contents() == e.cells
            && memory.edges.State() == RecordChanges(old(memory.edges.State()), e.changes, now)
  {
    if |frame| < offset + 4 + 2 * Width(double) {
      return false;
    }
    var device := ParseDevice(frame, offset);
    if device.None? {
      return false;
    }
    ok := WriteDevice(memory, device.value.0, device.value.1, EntryWords(frame, offset, double), now);
  }

  method WriteEntries(memory: Memory, frame: seq<byte>, offset: nat, n: nat, double: bool, now: real)
    returns (ok: bool)
    modifies memory, memory.edges
    ensures var e := RandomWrite(old(memory.Contents()), frame, offset, n, double);
            && ok == e.ok && memory.Contents() == e.cells
            && memory.edges.State() == RecordChanges(old(memory.edges.State()), e.changes, now)
  {
    ghost var before, log := memory.Contents(), memory.edges.State();
    for k := 0 to n
      invariant var e := RandomWrite(before, frame, offset, k, double);
                && e.ok && memory.Contents() == e.cells
                && memory.edges.State() == RecordChanges(log, e.changes, now)
    {
      var at := EntryOffset(offset, k, double);
      ghost var front := RandomWrite(before, frame, offset, k, double);
      RecordChangesConcat(log, front.changes, WriteEntry(front.cells, frame, at, double).changes, now);
      ok := WriteOneEntry(memory, frame, at, double, now);
      if !ok {
        RandomWriteStops(before, frame, offset, k + 1, n, double);
        return;
      }
    }
    ok := true;
  }

  lemma {:induction false} RandomWriteStops(c: Cells, frame: seq<byte>, offset: nat, k: nat, n: nat, double: bool)
    requires k <= n && !RandomWrite(c, frame, offset, k, double).ok
    ensures RandomWrite(c, frame, offset, n, double) == RandomWrite(c, frame, offset, k, double)
  {
    if k < n {
      RandomWriteStops(c, frame, offset, k, n - 1, double);
    }
  }

  method ExecuteRandomAccess(memory: Memory, frame: seq<byte>, command: word, subcommand: word, now: real)
    returns (data: Option<seq<byte>>)
    modifies memory, memory.edges
    ensures var x := ExecuteRandom(old(memory.Contents()), frame, command, subcommand);
            && data == x.data && memory.Contents() == x.cells
            && memory.edges.State() == RecordChanges(old(memory.edges.State()), x.changes, now)
  {
    if subcommand != SUBCMD_WORD || |frame| < 17 {
      return None;
    }
    var words, dwords := frame[15], frame[16];
    if command == CMD_RANDOM_READ {
      data := ReadAllEntries(memory, frame, words, dwords);
    } else {
      data := WriteRandom(memory, frame, words, dwords, now);
    }
  }

  method WriteRandom(memory: Memory, frame: seq<byte>, words: nat, dwords: nat, now: real)
    returns (data: Option<seq<byte>>)
    modifies memory, memory.edges
    ensures var x := Wrote(RandomWriteAll(old(memory.Contents()), frame, words, dwords));
            && data == x.data && memory.Contents() == x.cells
            && memory.edges.State() == RecordChanges(old(memory.edges.State()), x.changes, now)
  {
    var ok := WriteAllEntries(memory, frame, words, dwords, now);
    data := if ok then Some([]) else None;
  }

  method ReadAllEntries(memory: Memory, frame: seq<byte>, wordN: nat, dwordN: nat) returns (data: Option<seq<byte>>)
    modifies memory
    ensures memory.Contents() == old(memory.Contents())
    ensures data == RandomReadAll(memory.Contents(), frame, wordN, dwordN)
  {
    var words := ReadEntries(memory, frame, 17, wordN, false);
    if words.None? {
      return None;
    }
    var dwords := ReadEntries(memory, frame, 17 + 4 * wordN, dwordN, true);
    return if dwords.None? then None else Some(words.value + dwords.value);
  }

  method WriteAllEntries(memory: Memory, frame: seq<byte>, words: nat, dwords: nat, now: real) returns (ok: bool)
    modifies memory, memory.edges
    ensures var e := RandomWriteAll(old(memory.Contents()), frame, words, dwords);
            && ok == e.ok && memory.Contents() == e.cells
            && memory.edges.State() == RecordChanges(old(memory.edges.State()), e.changes, now)
  {
    ghost var first := RandomWrite(memory.Contents(), frame, 17, words, false);
    ghost var second := RandomWrite(first.cells, frame, EntryOffset(17, words, false), dwords, true);
    RecordChangesConcat(memory.edges.State(), first.changes, second.changes, now);
    ok := WriteEntries(memory, frame, 17, words, false, now);
    if ok {
      ok := WriteEntries(memory, frame, EntryOffset(17, words, false), dwords, true, now);
    }
  }

  // Answers every byte string; nothing escapes as an exception.
  method HandleRequest(memory: Memory, frame: seq<byte>, now: real) returns (response: seq<byte>)
    modifies memory, memory.edges
    ensures var x := ExecuteFrame(old(memory.Contents()), frame);
            && response == Response(frame, x.data)
            && memory.Contents() == x.cells
            && memory.edges.State() == RecordChanges(old(memory.edges.State()), x.changes, now)
  {
    var data: Option<seq<byte>> := None;
    var request := ParseRequest(frame);
    if |frame| >= 15 {
      var command, subcommand := DecodeU16(frame, 11), DecodeU16(frame, 13);
      if command == CMD_RANDOM_READ || command == CMD_RANDOM_WRITE {
        data := ExecuteRandomAccess(memory, frame, command, subcommand, now);
        if data.Some? {
          SameRouting(frame, data.value);
          return BuildResponse(HeaderMeta(frame), 0, data.value);
        }
      } else if request.Some? {
        data := ExecuteBatch(memory, request.value, now);
        if data.Some? {
          return BuildResponse(request.value, 0, data.value);
        }
      }
    }
    var meta := if request.None? then HeaderMeta(frame) else request.value;
    response := BuildResponse(meta, END_ERROR, []);
  }

  // Header and parsed request give an answer the same routing bytes.
  lemma SameRouting(frame: seq<byte>, data: seq<byte>)
    ensures BuildResponse(HeaderMeta(frame), 0, data) == Response(frame, Some(data))
  {
  }
}
