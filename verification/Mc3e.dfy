/**
 The binary MC 3E frames of the simulated PLC (backend/plc_link/mc3e.py): requests, responses,
 and what a request does to the memory. Frame layout and service numbers are those of the
 MELSEC Communication Protocol, QnA-compatible 3E frame, binary code.
 */
module Mc3e {
  import opened Bytes
  import opened CellSpec

  const DEVICE_D: byte := 0xA8
  const DEVICE_M: byte := 0x90
  const CMD_BATCH_READ: word := 0x0401
  const CMD_BATCH_WRITE: word := 0x1401
  const CMD_RANDOM_READ: word := 0x0403
  const CMD_RANDOM_WRITE: word := 0x1402
  const SUBCMD_WORD: word := 0
  const SUBCMD_BIT: word := 1
  const END_ERROR: word := 0xC050

  datatype Device = D | M

  datatype McRequest = McRequest(
    network: byte,
    pc: byte,
    moduleIo: word,
    moduleSta: byte,
    timer: word,
    command: word,
    subcommand: word,
    device: Device,
    head: nat,
    points: word,
    payload: seq<byte>)

  // Python's data[lo:hi].
  function Slice(data: seq<byte>, lo: nat, hi: nat): (part: seq<byte>)
  {
    var end := if hi < |data| then hi else |data|;
    if lo < end then data[lo..end] else []
  }

  // ---------- bit payloads: two points to a byte, the first in the upper nibble ----------

  function PackedByte(values: seq<bit>, k: nat): (b: byte)
    requires 2 * k < |values|
  {
    values[2 * k] as int * 16 + if 2 * k + 1 < |values| then values[2 * k + 1] else 0
  }

  function PackBits(values: seq<bit>): (packed: seq<byte>)
    ensures |packed| == (|values| + 1) / 2
  {
    seq((|values| + 1) / 2, k requires 0 <= k < (|values| + 1) / 2 => PackedByte(values, k))
  }

  function UnpackedBit(data: seq<byte>, i: nat): (b: bit)
    requires i / 2 < |data|
  {
    if i % 2 == 0 then (data[i / 2] / 16) % 2 else data[i / 2] % 2
  }

  function UnpackBits(data: seq<byte>, count: nat): (bits: seq<bit>)
    requires (count + 1) / 2 <= |data|
    ensures |bits| == count
  {
    seq(count, i requires 0 <= i < count => UnpackedBit(data, i))
  }

  // ---------- frames ----------

  function DeviceCode(device: Device): (code: byte)
  {
    if device.D? then DEVICE_D else DEVICE_M
  }

  // Three head bytes and a device code at an offset; None stands for the 0xC050 error.
  function ParseDevice(frame: seq<byte>, offset: nat): (found: Option<(Device, nat)>)
  {
    if |frame| < offset + 4 then None
    else
      var head := frame[offset] + 0x100 * frame[offset + 1] as int + 0x1_0000 * frame[offset + 2] as int;
      if frame[offset + 3] == DEVICE_D then Some((D, head))
      else if frame[offset + 3] == DEVICE_M then Some((M, head))
      else None
  }

  function ParseRequest(frame: seq<byte>): (request: Option<McRequest>)
  {
    if |frame| < 15 || frame[0] != 0x50 || frame[1] != 0x00 then None
    else
      var expected := 9 + DecodeU16(frame, 7);
      var device := ParseDevice(frame, 15);
      if |frame| < expected || device.None? then None
      else Some(McRequest(frame[2], frame[3], DecodeU16(frame, 4), frame[6], DecodeU16(frame, 9),
                          DecodeU16(frame, 11), DecodeU16(frame, 13), device.value.0, device.value.1,
                          DecodeU16(frame, 19), Slice(frame, 21, expected)))
  }

  // Routing fields for an answer to a frame that may be too short to parse.
  function HeaderMeta(frame: seq<byte>): (meta: McRequest)
  {
    McRequest(if |frame| > 2 then frame[2] else 0,
              if |frame| > 3 then frame[3] else 0xFF,
              if |frame| >= 6 then DecodeU16(frame, 4) else 0x3FF,
              if |frame| > 6 then frame[6] else 0,
              0,
              if |frame| >= 13 then DecodeU16(frame, 11) else 0,
              if |frame| >= 15 then DecodeU16(frame, 13) else 0,
              D, 0, 0, [])
  }

  function EncodeHead(head: nat): (bytes: seq<byte>)
    requires head < 0x100_0000
    ensures |bytes| == 3
  {
    [head % 0x100, head / 0x100 % 0x100, head / 0x1_0000]
  }

  // Routing bytes and the length of what follows them.
  function RequestHeader(r: McRequest): (header: seq<byte>)
    ensures |header| == 9
  {
    [0x50, 0x00, r.network, r.pc] + EncodeU16(r.moduleIo) + [r.moduleSta] + EncodeU16(12 + |r.payload|)
  }

  function RequestBody(r: McRequest): (body: seq<byte>)
    requires r.head < 0x100_0000
    ensures |body| == 12 + |r.payload|
  {
    EncodeU16(r.timer) + EncodeU16(r.command) + EncodeU16(r.subcommand)
    + EncodeHead(r.head) + [DeviceCode(r.device)] + EncodeU16(r.points) + r.payload
  }

  // None stands for the OverflowError of a head that does not fit three bytes.
  function BuildRequest(r: McRequest): (frame: Option<seq<byte>>)
  {
    if r.head >= 0x100_0000 then None else Some(RequestHeader(r) + RequestBody(r))
  }

  function BuildResponse(meta: McRequest, endCode: word, data: seq<byte>): (response: seq<byte>)
    ensures |response| == 11 + |data|
  {
    [0xD0, 0x00, meta.network, meta.pc] + EncodeU16(meta.moduleIo) + [meta.moduleSta]
    + EncodeU16(2 + |data|) + EncodeU16(endCode) + data
  }

  // ---------- execution ----------

  // data is the answer of an accepted request; None means end code 0xC050.
  datatype Execution = Execution(data: Option<seq<byte>>, cells: Cells, changes: seq<Change>)

  function ReadDeviceWords(c: Cells, device: Device, head: int, count: int): (words: Option<seq<word>>)
  {
    if device.D? then ReadWords(c, head, count) else ReadBitWords(c, head, count)
  }

  function WriteDeviceWords(c: Cells, device: Device, head: int, values: seq<int>): (e: Effect)
  {
    if device.D? then WriteWords(c, head, values) else WriteBitWords(c, head, values)
  }

  function Answer(c: Cells, data: Option<seq<byte>>): (x: Execution)
  {
    Execution(data, c, [])
  }

  function Wrote(e: Effect): (x: Execution)
  {
    Execution(if e.ok then Some([]) else None, e.cells, e.changes)
  }

  function PayloadWords(payload: seq<byte>, points: nat): (values: seq<word>)
    ensures |values| == points
  {
    seq(points, i requires 0 <= i < points => DecodeU16(payload, 2 * i))
  }

  function Execute(c: Cells, r: McRequest): (x: Execution)
  {
    if r.command == CMD_BATCH_READ && r.subcommand == SUBCMD_WORD then
      var words := ReadDeviceWords(c, r.device, r.head, r.points);
      Answer(c, if words.None? then None else Some(EncodeWords(words.value)))
    else if r.command == CMD_BATCH_READ && r.subcommand == SUBCMD_BIT then
      var bits := ReadBits(c, r.head, r.points);
      Answer(c, if r.device.D? || bits.None? then None else Some(PackBits(bits.value)))
    else if r.command == CMD_BATCH_WRITE && r.subcommand == SUBCMD_WORD then
      if |r.payload| < 2 * r.points then Answer(c, None)
      else Wrote(WriteDeviceWords(c, r.device, r.head, PayloadWords(r.payload, r.points)))
    else if r.command == CMD_BATCH_WRITE && r.subcommand == SUBCMD_BIT then
      if r.device.D? || |r.payload| < (r.points + 1) / 2 then Answer(c, None)
      else Wrote(WriteBits(c, r.head, UnpackBits(r.payload, r.points)))
    else
      Answer(c, None)
  }

  // Words in an entry of a random access: one, or two for a double word.
  function Width(double: bool): (n: nat)
  {
    if double then 2 else 1
  }

  function ReadEntry(c: Cells, frame: seq<byte>, offset: nat, double: bool): (data: Option<seq<byte>>)
  {
    var device := ParseDevice(frame, offset);
    if device.None? then None
    else
      var words := ReadDeviceWords(c, device.value.0, device.value.1, Width(double));
      if words.None? then None else Some(EncodeWords(words.value))
  }

  // The first n entries of a random read whose entries start at an offset.
  function RandomRead(c: Cells, frame: seq<byte>, offset: nat, n: nat, double: bool): (data: Option<seq<byte>>)
    decreases n
  {
    if n == 0 then Some([])
    else
      var front := RandomRead(c, frame, offset, n - 1, double);
      var last := ReadEntry(c, frame, offset + (n - 1) * 4, double);
      if front.None? || last.None? then None else Some(front.value + last.value)
  }

  // Word entries first, then double-word entries.
  function RandomReadAll(c: Cells, frame: seq<byte>, wordN: nat, dwordN: nat): (data: Option<seq<byte>>)
  {
    var words := RandomRead(c, frame, 17, wordN, false);
    var dwords := RandomRead(c, frame, 17 + 4 * wordN, dwordN, true);
    if words.None? || dwords.None? then None else Some(words.value + dwords.value)
  }

  // Where entry k of a random write starts.
  function EntryOffset(offset: nat, k: nat, double: bool): (at: nat)
  {
    if double then offset + 8 * k else offset + 6 * k
  }

  // The 16-bit values of the entry at an offset of a random write.
  function EntryWords(frame: seq<byte>, offset: nat, double: bool): (values: seq<word>)
    ensures |values| == Width(double)
  {
    if double then [DecodeU16(frame, offset + 4), DecodeU16(frame, offset + 6)]
    else [DecodeU16(frame, offset + 4)]
  }

  function WriteEntry(c: Cells, frame: seq<byte>, offset: nat, double: bool): (e: Effect)
  {
    var device := ParseDevice(frame, offset);
    if |frame| < offset + 4 + 2 * Width(double) || device.None? then Effect(false, c, [])
    else WriteDeviceWords(c, device.value.0, device.value.1, EntryWords(frame, offset, double))
  }

  // The first n entries; an error stops the request, the entries before it stay written.
  function RandomWrite(c: Cells, frame: seq<byte>, offset: nat, n: nat, double: bool): (e: Effect)
    decreases n
  {
    if n == 0 then Effect(true, c, [])
    else
      var front := RandomWrite(c, frame, offset, n - 1, double);
      if !front.ok then front
      else
        var last := WriteEntry(front.cells, frame, EntryOffset(offset, n - 1, double), double);
        Effect(last.ok, last.cells, front.changes + last.changes)
  }

  // Word entries first, then double-word entries.
  function RandomWriteAll(c: Cells, frame: seq<byte>, words: nat, dwords: nat): (e: Effect)
  {
    var first := RandomWrite(c, frame, 17, words, false);
    if !first.ok then first
    else
      var second := RandomWrite(first.cells, frame, EntryOffset(17, words, false), dwords, true);
      Effect(second.ok, second.cells, first.changes + second.changes)
  }

  function ExecuteRandom(c: Cells, frame: seq<byte>, command: word, subcommand: word): (x: Execution)
  {
    if subcommand != SUBCMD_WORD || |frame| < 17 then Answer(c, None)
    else if command == CMD_RANDOM_READ then
      Answer(c, RandomReadAll(c, frame, frame[15], frame[16]))
    else
      Wrote(RandomWriteAll(c, frame, frame[15], frame[16]))
  }

  // What handle_request executes for a frame.
  function ExecuteFrame(c: Cells, frame: seq<byte>): (x: Execution)
  {
    if |frame| < 15 then Answer(c, None)
    else
      var command, subcommand := DecodeU16(frame, 11), DecodeU16(frame, 13);
      if command == CMD_RANDOM_READ || command == CMD_RANDOM_WRITE then
        ExecuteRandom(c, frame, command, subcommand)
      else
        var request := ParseRequest(frame);
        if request.None? then Answer(c, None) else Execute(c, request.value)
  }

  // The routing fields of the answer: the parsed request's where there is one.
  function AnswerMeta(frame: seq<byte>): (meta: McRequest)
  {
    var request := ParseRequest(frame);
    if request.None? then HeaderMeta(frame) else request.value
  }

  function Response(frame: seq<byte>, data: Option<seq<byte>>): (response: seq<byte>)
    ensures |response| >= 11
  {
    if data.None? then BuildResponse(AnswerMeta(frame), END_ERROR, [])
    else BuildResponse(AnswerMeta(frame), 0, data.value)
  }
}
