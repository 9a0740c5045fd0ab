/** What requests, responses and the memory promise their users, over all frames and memories. */
module McProperties {
  import opened Bytes
  import opened CellSpec
  import opened Mc3e

  // ---------- responses ----------

  function HandledResponse(c: Cells, frame: seq<byte>): (response: seq<byte>)
  {
    Response(frame, ExecuteFrame(c, frame).data)
  }

  lemma ResponseBytes(meta: McRequest, endCode: word, data: seq<byte>)
    ensures var r := BuildResponse(meta, endCode, data);
            && r[0] == 0xD0 && r[1] == 0x00
            && r[2] == meta.network && r[3] == meta.pc
            && DecodeU16(r, 4) == meta.moduleIo && r[6] == meta.moduleSta
            && DecodeU16(r, 7) == ToU16(2 + |data|)
            && DecodeU16(r, 9) == endCode
            && r[11..] == data
  {
    var r := BuildResponse(meta, endCode, data);
    var io, len, code := EncodeU16(meta.moduleIo), EncodeU16(2 + |data|), EncodeU16(endCode);
    assert r[4] == io[0] && r[5] == io[1];
    assert r[7] == len[0] && r[8] == len[1];
    assert r[9] == code[0] && r[10] == code[1];
  }

  // The routing bytes of a frame; what is missing is that of the own station.
  function Routing(frame: seq<byte>): (bytes: seq<byte>)
  {
    [if |frame| > 2 then frame[2] else 0, if |frame| > 3 then frame[3] else 0xFF,
     if |frame| > 5 then frame[4] else 0xFF, if |frame| > 5 then frame[5] else 0x03,
     if |frame| > 6 then frame[6] else 0]
  }

  lemma RoutingBytes(frame: seq<byte>, data: Option<seq<byte>>)
    ensures Response(frame, data)[2..7] == Routing(frame)
  {
    var r, meta := Response(frame, data), AnswerMeta(frame);
    ResponseBytes(meta, if data.Some? then 0 else END_ERROR, if data.Some? then data.value else []);
    assert meta.moduleIo == if |frame| > 5 then DecodeU16(frame, 4) else 0x3FF;
    assert r[4] as int + 0x100 * r[5] as int == meta.moduleIo;
  }

  lemma ResponseToFrame(frame: seq<byte>, data: Option<seq<byte>>)
    ensures var r := Response(frame, data);
            && r[0] == 0xD0 && r[1] == 0x00
            && (|frame| >= 7 ==> r[2..7] == frame[2..7])
            && r[2..7] == Routing(frame)
            && DecodeU16(r, 9) == (if data.Some? then 0 else 0xC050)
            && r[11..] == (if data.Some? then data.value else [])
            && DecodeU16(r, 7) == ToU16(|r| - 9)
  {
    RoutingBytes(frame, data);
    var r := Response(frame, data);
    var meta := AnswerMeta(frame);
    ResponseBytes(meta, if data.Some? then 0 else END_ERROR, if data.Some? then data.value else []);
    if |frame| >= 7 {
      assert meta.moduleIo == DecodeU16(frame, 4);
      assert r[4] as int + 0x100 * r[5] as int == frame[4] as int + 0x100 * frame[5] as int;
      assert r[4] == frame[4] && r[5] == frame[5];
    }
  }

  // For every byte string: an answer with the response subheader, end code 0 exactly when the
  // request was executed and 0xC050 otherwise, the routing bytes of any frame of at least seven
  // bytes, and the data of an executed request.
  lemma ResponseShape(c: Cells, frame: seq<byte>)
    ensures var r, data := HandledResponse(c, frame), ExecuteFrame(c, frame).data;
            && |r| >= 11 && r[0] == 0xD0 && r[1] == 0x00
            && DecodeU16(r, 9) == (if data.Some? then 0 else 0xC050)
            && (|frame| >= 7 ==> r[2..7] == frame[2..7])
            && r[2..7] == Routing(frame)
            && r[11..] == (if data.Some? then data.value else [])
  {
    ResponseToFrame(frame, ExecuteFrame(c, frame).data);
  }

  lemma {:induction false} ReadBitWordsLength(c: Cells, head: int, count: int)
    ensures ReadBitWords(c, head, count).Some?
        <==> count <= 0 || (0 <= head && head + 16 * count <= |c.m|)
    ensures ReadBitWords(c, head, count).Some? && count >= 0 ==> |ReadBitWords(c, head, count).value| == count
    decreases count
  {
    if count > 0 {
      ReadBitWordsLength(c, head + 16, count - 1);
    }
  }

  // A batch word read of more than 32766 points that lies inside its area.
  predicate OversizedRead(c: Cells, frame: seq<byte>)
  {
    var request := ParseRequest(frame);
    request.Some? && request.value.command == CMD_BATCH_READ && request.value.subcommand == SUBCMD_WORD &&
    request.value.points > 32766 &&
    if request.value.device.D? then request.value.head + request.value.points <= |c.d|
    else request.value.head + 16 * request.value.points <= |c.m|
  }

  lemma {:induction false} RandomReadLength(c: Cells, frame: seq<byte>, offset: nat, n: nat, double: bool)
    ensures var data := RandomRead(c, frame, offset, n, double);
            data.Some? ==> |data.value| == if double then 4 * n else 2 * n
  {
    if n > 0 {
      RandomReadLength(c, frame, offset, n - 1, double);
      EntryLength(c, frame, offset + (n - 1) * 4, double);
    }
  }

  lemma EntryLength(c: Cells, frame: seq<byte>, offset: nat, double: bool)
    ensures var data := ReadEntry(c, frame, offset, double);
            data.Some? ==> |data.value| == if double then 4 else 2
  {
    var device := ParseDevice(frame, offset);
    if device.Some? {
      ReadBitWordsLength(c, device.value.1, Width(double));
    }
  }

  lemma BatchLength(c: Cells, r: McRequest)
    ensures var data := Execute(c, r).data;
            var wordRead := r.command == CMD_BATCH_READ && r.subcommand == SUBCMD_WORD;
            && (data.Some? ==> if wordRead then |data.value| == 2 * r.points else |data.value| <= 0x8000)
            && (wordRead ==> (data.Some? <==> if r.device.D? then r.head + r.points <= |c.d|
                                              else r.points == 0 || r.head + 16 * r.points <= |c.m|))
  {
    ReadBitWordsLength(c, r.head, r.points);
  }

  lemma RandomAllLength(c: Cells, frame: seq<byte>, words: nat, dwords: nat)
    ensures var data := RandomReadAll(c, frame, words, dwords);
            data.Some? ==> |data.value| == 2 * words + 4 * dwords
  {
    RandomReadLength(c, frame, 17, words, false);
    RandomReadLength(c, frame, 17 + 4 * words, dwords, true);
  }

  lemma RandomLength(c: Cells, frame: seq<byte>, command: word, subcommand: word)
    ensures var data := ExecuteRandom(c, frame, command, subcommand).data;
            data.Some? ==> |data.value| <= 0x8000
  {
    if |frame| >= 17 {
      RandomAllLength(c, frame, frame[15], frame[16]);
    }
  }

  lemma DataLength(c: Cells, frame: seq<byte>)
    ensures var data := ExecuteFrame(c, frame).data;
            if OversizedRead(c, frame) then data.Some? && 65534 <= |data.value| <= 131070
            else data.Some? ==> |data.value| <= 65532
  {
    var request := ParseRequest(frame);
    if |frame| >= 15 {
      RandomLength(c, frame, DecodeU16(frame, 11), DecodeU16(frame, 13));
      if request.Some? {
        BatchLength(c, request.value);
      }
    }
  }

  // The length field tells the length of what follows it, with exactly one kind of exception:
  // it has only sixteen bits, and an accepted word read of more than 32766 points overflows it.
  lemma LengthFieldExact(c: Cells, frame: seq<byte>)
    ensures var r := HandledResponse(c, frame);
            DecodeU16(r, 7) == |r| - 9 <==> !OversizedRead(c, frame)
  {
    DataLength(c, frame);
    ResponseToFrame(frame, ExecuteFrame(c, frame).data);
    SixteenBits(|HandledResponse(c, frame)| - 9);
  }

  // Such a read: 32767 words of D from address 0.
  function LongRead(): (r: McRequest)
  {
    McRequest(0, 0xFF, 0x3FF, 0, 4, CMD_BATCH_READ, SUBCMD_WORD, D, 0, 32767, [])
  }

  lemma LongReadOverflows(c: Cells)
    requires |c.d| >= 32767
    ensures var frame := BuildRequest(LongRead()).value;
            && OversizedRead(c, frame)
            && |HandledResponse(c, frame)| - 9 == 65536 && DecodeU16(HandledResponse(c, frame), 7) == 0
  {
    var frame := BuildRequest(LongRead()).value;
    ParsedBack(LongRead());
    LongReadAnswered(c, frame);
    WrappedLength(frame, ExecuteFrame(c, frame).data);
  }

  lemma LongReadAnswered(c: Cells, frame: seq<byte>)
    requires |c.d| >= 32767 && frame == BuildRequest(LongRead()).value
    ensures ExecuteFrame(c, frame).data.Some? && |ExecuteFrame(c, frame).data.value| == 65534
  {
    BuiltFrame(c, LongRead());
    LongReadExecuted(c, LongRead());
  }

  lemma WrappedLength(frame: seq<byte>, data: Option<seq<byte>>)
    requires data.Some? && |data.value| == 65534
    ensures |Response(frame, data)| - 9 == 65536 && DecodeU16(Response(frame, data), 7) == 0
  {
    ResponseToFrame(frame, data);
  }

  lemma ParsedBack(r: McRequest)
    requires r.head < 0x100_0000 && |r.payload| <= 0xFFFF - 12
    ensures ParseRequest(BuildRequest(r).value) == Some(r)
  {
    ParseInvertsBuild(r, []);
    assert BuildRequest(r).value + [] == BuildRequest(r).value;
  }

  lemma LongReadExecuted(c: Cells, r: McRequest)
    requires r == LongRead() && |c.d| >= r.points
    ensures Execute(c, r).data.Some? && |Execute(c, r).data.value| == 2 * r.points
  {
    BatchLength(c, r);
  }

  lemma SixteenBits(n: nat)
    ensures ToU16(n) == n <==> n < 0x1_0000
  {
  }

  // ---------- bit payloads ----------

  // The upper nibble of byte k is point 2k, the lower nibble point 2k + 1 (0 past the end).
  lemma PackedNibbles(values: seq<bit>, k: nat)
    requires k < |PackBits(values)|
    ensures PackBits(values)[k] / 16 == values[2 * k]
    ensures PackBits(values)[k] % 16 == if 2 * k + 1 < |values| then values[2 * k + 1] else 0
  {
  }

  lemma UnpackInvertsPack(values: seq<bit>)
    ensures UnpackBits(PackBits(values), |values|) == values
  {
    var packed := PackBits(values);
    forall i | 0 <= i < |values| ensures UnpackedBit(packed, i) == values[i] {
      PackedNibbles(values, i / 2);
      assert packed[i / 2] % 2 == (packed[i / 2] % 16) % 2;
    }
  }

  // A payload in the form the answers use: nibbles 0 or 1, an unused last nibble 0.
  predicate Canonical(payload: seq<byte>, points: nat)
  {
    && |payload| == (points + 1) / 2
    && forall k :: 0 <= k < |payload| ==>
         payload[k] / 16 <= 1 && payload[k] % 16 <= if 2 * k + 1 < points then 1 else 0
  }

  // Packing what was unpacked gives a payload back exactly if it was canonical.
  lemma PackInvertsUnpack(payload: seq<byte>, points: nat)
    requires |payload| == (points + 1) / 2
    ensures PackBits(UnpackBits(payload, points)) == payload <==> Canonical(payload, points)
  {
    var bits := UnpackBits(payload, points);
    var packed := PackBits(bits);
    if Canonical(payload, points) {
      forall k | 0 <= k < |packed| ensures packed[k] == payload[k] {
        PackedNibbles(bits, k);
        assert bits[2 * k] == payload[k] / 16;
        assert 2 * k + 1 < points ==> bits[2 * k + 1] == payload[k] % 2;
      }
    }
    if packed == payload {
      forall k | 0 <= k < |payload|
        ensures payload[k] / 16 <= 1 && payload[k] % 16 <= if 2 * k + 1 < points then 1 else 0
      {
        PackedNibbles(bits, k);
      }
    }
  }

  // ---------- requests ----------

  lemma HeadRoundTrip(head: nat)
    requires head < 0x100_0000
    ensures var b := EncodeHead(head); b[0] + 0x100 * b[1] as int + 0x1_0000 * b[2] as int == head
  {
  }

  lemma HeaderBytes(r: McRequest)
    ensures var h := RequestHeader(r);
            && h[0] == 0x50 && h[1] == 0x00 && h[2] == r.network && h[3] == r.pc
            && DecodeU16(h, 4) == r.moduleIo && h[6] == r.moduleSta
            && DecodeU16(h, 7) == ToU16(12 + |r.payload|)
  {
    var h, io, len := RequestHeader(r), EncodeU16(r.moduleIo), EncodeU16(12 + |r.payload|);
    assert h[4] == io[0] && h[5] == io[1];
    assert h[7] == len[0] && h[8] == len[1];
  }

  lemma BodyBytes(r: McRequest)
    requires r.head < 0x100_0000
    ensures var b := RequestBody(r);
            && DecodeU16(b, 0) == r.timer && DecodeU16(b, 2) == r.command && DecodeU16(b, 4) == r.subcommand
            && b[6..9] == EncodeHead(r.head) && b[9] == DeviceCode(r.device)
            && DecodeU16(b, 10) == r.points && b[12..] == r.payload
  {
    var b, timer, command := RequestBody(r), EncodeU16(r.timer), EncodeU16(r.command);
    var sub, points := EncodeU16(r.subcommand), EncodeU16(r.points);
    assert b[0] == timer[0] && b[1] == timer[1];
    assert b[2] == command[0] && b[3] == command[1];
    assert b[4] == sub[0] && b[5] == sub[1];
    assert b[10] == points[0] && b[11] == points[1];
  }

  // A word read from a part of a frame.
  lemma DecodeInPart(before: seq<byte>, part: seq<byte>, behind: seq<byte>, k: nat)
    requires k + 2 <= |part|
    ensures DecodeU16(before + part + behind, |before| + k) == DecodeU16(part, k)
  {
    var all := before + part + behind;
    assert all[|before| + k] == part[k] && all[|before| + k + 1] == part[k + 1];
  }

  lemma InHeader(r: McRequest, k: nat)
    requires r.head < 0x100_0000 && k + 2 <= 9
    ensures DecodeU16(BuildRequest(r).value, k) == DecodeU16(RequestHeader(r), k)
  {
    DecodeInPart([], RequestHeader(r), RequestBody(r), k);
    assert [] + RequestHeader(r) == RequestHeader(r);
  }

  lemma InBody(r: McRequest, k: nat)
    requires r.head < 0x100_0000 && k + 2 <= 12 + |r.payload|
    ensures DecodeU16(BuildRequest(r).value, 9 + k) == DecodeU16(RequestBody(r), k)
  {
    DecodeInPart(RequestHeader(r), RequestBody(r), [], k);
    assert RequestHeader(r) + RequestBody(r) + [] == RequestHeader(r) + RequestBody(r);
  }

  lemma BuiltBytes(r: McRequest)
    requires r.head < 0x100_0000
    ensures var f := BuildRequest(r).value;
            && |f| == 21 + |r.payload|
            && f[0] == 0x50 && f[1] == 0x00 && f[2] == r.network && f[3] == r.pc
            && DecodeU16(f, 4) == r.moduleIo && f[6] == r.moduleSta
            && DecodeU16(f, 7) == ToU16(12 + |r.payload|)
            && DecodeU16(f, 9) == r.timer
            && DecodeU16(f, 11) == r.command && DecodeU16(f, 13) == r.subcommand
            && f[15..18] == EncodeHead(r.head) && f[18] == DeviceCode(r.device)
            && DecodeU16(f, 19) == r.points
            && f[21..] == r.payload
  {
    HeaderBytes(r);
    BodyBytes(r);
    InHeader(r, 4);
    InHeader(r, 7);
    InBody(r, 0);
    InBody(r, 2);
    InBody(r, 4);
    InBody(r, 10);
    BodyPart(r);
  }

  lemma BodyPart(r: McRequest)
    requires r.head < 0x100_0000
    ensures var f, b := BuildRequest(r).value, RequestBody(r);
            f[15..18] == b[6..9] && f[18] == b[9] && f[21..] == b[12..]
  {
  }

  lemma DecodeInFront(f: seq<byte>, behind: seq<byte>, k: nat)
    requires k + 2 <= |f|
    ensures DecodeU16(f + behind, k) == DecodeU16(f, k)
  {
  }

  // Parsing recovers every field and the payload of every built request, with or without
  // further bytes behind it.
  lemma ParseInvertsBuild(r: McRequest, behind: seq<byte>)
    requires r.head < 0x100_0000 && |r.payload| <= 0xFFFF - 12
    ensures ParseRequest(BuildRequest(r).value + behind) == Some(r)
  {
    var f := BuildRequest(r).value;
    BuiltBytes(r);
    DecodeInFront(f, behind, 4);
    DecodeInFront(f, behind, 7);
    DecodeInFront(f, behind, 9);
    DecodeInFront(f, behind, 11);
    DecodeInFront(f, behind, 13);
    DecodeInFront(f, behind, 19);
    BuiltDevice(r, behind);
    BuiltPayload(f, behind, |r.payload|);
  }

  lemma BuiltDevice(r: McRequest, behind: seq<byte>)
    requires r.head < 0x100_0000
    ensures ParseDevice(BuildRequest(r).value + behind, 15) == Some((r.device, r.head))
  {
    var f := BuildRequest(r).value;
    var g := f + behind;
    BuiltBytes(r);
    HeadRoundTrip(r.head);
    assert g[15] == f[15..18][0] && g[16] == f[15..18][1] && g[17] == f[15..18][2] && g[18] == f[18];
  }

  lemma BuiltPayload(f: seq<byte>, behind: seq<byte>, n: nat)
    requires |f| == 21 + n
    ensures Slice(f + behind, 21, 21 + n) == f[21..]
  {
  }

  // ---------- word and bit views of M ----------

  // Word i of a read covers the sixteen points from head + 16 i, least significant first.
  lemma {:induction false} ViewsAgree(c: Cells, head: int, count: int, i: nat)
    requires ReadBitWords(c, head, count).Some? && i < count
    ensures |ReadBitWords(c, head, count).value| == count
    ensures var at := head + 16 * i;
            && 0 <= at && at + 16 <= |c.m|
            && ToBits(ReadBitWords(c, head, count).value[i], 16) == c.m[at..at + 16]
    decreases i
  {
    ReadBitWordsLength(c, head, count);
    ReadBitWordsNext(c, head, count);
    if i == 0 {
      ToBitsInverts(c.m[head..head + 16]);
    } else {
      ViewsAgree(c, head + 16, count - 1, i - 1);
    }
  }

  lemma ReadBitWordsNext(c: Cells, head: int, count: int)
    requires count > 0 && ReadBitWords(c, head, count).Some?
    ensures Fits(c.m, head, 16) && ReadBitWords(c, head + 16, count - 1).Some?
    ensures ReadBitWords(c, head, count).value
         == [WordOfBits(c.m[head..head + 16])] + ReadBitWords(c, head + 16, count - 1).value
  {
  }

  function WordBits(value: int): (bits: seq<bit>)
    ensures |bits| == 16
  {
    ToBits(ToU16(value), 16)
  }

  // The bits of all words side by side, sixteen per word.
  function Flat(values: seq<int>): (bits: seq<bit>)
    ensures |bits| == 16 * |values|
  {
    if |values| == 0 then []
    else if |values| == 1 then WordBits(values[0])
    else Flat(values[..|values| - 1]) + WordBits(values[|values| - 1])
  }

  lemma SliceOfFirst<T>(a: seq<T>, b: seq<T>, lo: nat, hi: nat)
    requires lo <= hi <= |a|
    ensures (a + b)[lo..hi] == a[lo..hi]
  {
  }

  lemma {:induction false} FlatPart(values: seq<int>, i: nat)
    requires i < |values|
    ensures Flat(values)[16 * i..16 * i + 16] == WordBits(values[i])
  {
    if |values| > 1 {
      var front, last := values[..|values| - 1], values[|values| - 1];
      if i < |front| {
        FlatPart(front, i);
        SliceOfFirst(Flat(front), WordBits(last), 16 * i, 16 * i + 16);
      } else {
        assert (Flat(front) + WordBits(last))[|Flat(front)|..] == WordBits(last);
      }
    }
  }

  lemma OverwriteTwice<T>(area: seq<T>, head: nat, a: seq<T>, b: seq<T>)
    requires head + |a| + |b| <= |area|
    ensures Overwrite(Overwrite(area, head, a), head + |a|, b) == Overwrite(area, head, a + b)
  {
  }

  lemma OverwritePart<T>(area: seq<T>, head: nat, values: seq<T>, lo: nat, part: seq<T>)
    requires head + |values| <= |area| && lo + |part| <= |values| && values[lo..lo + |part|] == part
    ensures Overwrite(area, head, values)[head + lo..head + lo + |part|] == part
  {
    forall k | 0 <= k < |part| ensures Overwrite(area, head, values)[head + lo + k] == part[k] {
      assert part[k] == values[lo + k];
    }
  }

  // The memory after writing bits side by side from a head.
  ghost predicate WrittenAs(c: Cells, ok: bool, after: Cells, head: int, bits: seq<bit>)
  {
    && |after.m| == |c.m| && after.d == c.d
    && (ok <==> |bits| == 0 || Fits(c.m, head, |bits|))
    && (ok ==> after.m == if |bits| == 0 then c.m else Overwrite(c.m, head, bits))
  }

  // Writing words is writing their bits side by side, up to the first group that does not fit:
  // accepted exactly when the bit write of all of them fits (or there is nothing to write).
  lemma {:induction false} WordWriteIsBitWrite(c: Cells, head: int, values: seq<int>)
    ensures var e := WriteBitWords(c, head, values); WrittenAs(c, e.ok, e.cells, head, Flat(values))
  {
    if |values| == 1 {
      FirstWord(c, head, values);
    } else if |values| > 1 {
      var n := |values| - 1;
      var front := WriteBitWords(c, head, values[..n]);
      WordWriteIsBitWrite(c, head, values[..n]);
      NextWord(c, head, values);
      AppendBits(c, front.ok, front.cells, head, Flat(values[..n]), WordBits(values[n]));
      FlatNext(values);
    }
  }

  lemma FlatNext(values: seq<int>)
    requires |values| > 1
    ensures var n := |values| - 1;
            Flat(values) == Flat(values[..n]) + WordBits(values[n]) && |Flat(values[..n])| == 16 * n
  {
  }

  // A write of bits after an earlier one, if that was accepted.
  predicate PutOk(ok: bool, front: Cells, head: int, bits: seq<bit>)
  {
    ok && PutBits(front, head, bits).ok
  }

  function PutCells(ok: bool, front: Cells, head: int, bits: seq<bit>): (after: Cells)
  {
    if ok then PutBits(front, head, bits).cells else front
  }

  lemma NextWord(c: Cells, head: int, values: seq<int>)
    requires |values| > 1
    ensures var n := |values| - 1;
            var front, all := WriteBitWords(c, head, values[..n]), WriteBitWords(c, head, values);
            && all.ok == PutOk(front.ok, front.cells, head + 16 * n, WordBits(values[n]))
            && all.cells == PutCells(front.ok, front.cells, head + 16 * n, WordBits(values[n]))
  {
  }

  lemma FirstWord(c: Cells, head: int, values: seq<int>)
    requires |values| == 1
    ensures var e := WriteBitWords(c, head, values); WrittenAs(c, e.ok, e.cells, head, WordBits(values[0]))
  {
    assert WriteBitWords(c, head, values[..0]) == Effect(true, c, []);
  }

  // One more group, behind the groups already written.
  lemma PutBehind<T>(before: seq<T>, now: seq<T>, head: int, done: seq<T>, group: seq<T>)
    requires |now| == |before| && |done| > 0
    requires Fits(before, head, |done|) && now == Overwrite(before, head, done)
    ensures Fits(now, head + |done|, |group|) <==> Fits(before, head, |done| + |group|)
    ensures Fits(before, head, |done| + |group|) ==>
      Overwrite(now, head + |done|, group) == Overwrite(before, head, done + group)
  {
    if Fits(before, head, |done| + |group|) {
      OverwriteTwice(before, head, done, group);
    }
  }

  lemma AppendBits(c: Cells, ok: bool, front: Cells, head: int, done: seq<bit>, bits: seq<bit>)
    requires WrittenAs(c, ok, front, head, done) && |done| > 0 && |bits| > 0
    ensures WrittenAs(c, PutOk(ok, front, head + |done|, bits), PutCells(ok, front, head + |done|, bits),
                      head, done + bits)
  {
    if ok {
      PutBehind(c.m, front.m, head, done, bits);
    }
  }

  // ---------- what is written is read back ----------

  lemma SameWord(a: word, b: word)
    requires ToBits(a, 16) == ToBits(ToU16(b), 16)
    ensures a == b
  {
    Pow2Sixteen();
    BitsValueInverts(a, 16);
    BitsValueInverts(ToU16(b), 16);
  }

  lemma ReadAfterBitWords(c: Cells, head: int, values: seq<word>)
    requires WriteBitWords(c, head, values).ok
    ensures ReadBitWords(WriteBitWords(c, head, values).cells, head, |values|) == Some(values)
  {
    var after := WriteBitWords(c, head, values).cells;
    WordWriteIsBitWrite(c, head, values);
    ReadBitWordsLength(after, head, |values|);
    var found := ReadBitWords(after, head, |values|).value;
    forall i | 0 <= i < |values| ensures found[i] == values[i] {
      ReadAfterWordAt(c, after, head, values, i);
    }
    assert found == values;
  }

  lemma ReadAfterWordAt(c: Cells, after: Cells, head: nat, values: seq<word>, i: nat)
    requires head + 16 * |values| <= |c.m| && after.m == Overwrite(c.m, head, Flat(values)) && i < |values|
    ensures ReadBitWords(after, head, |values|).Some? && |ReadBitWords(after, head, |values|).value| == |values|
    ensures ReadBitWords(after, head, |values|).value[i] == values[i]
  {
    ReadBitWordsLength(after, head, |values|);
    ViewsAgree(after, head, |values|, i);
    FlatPart(values, i);
    OverwritePart(c.m, head, Flat(values), 16 * i, WordBits(values[i]));
    SameWord(ReadBitWords(after, head, |values|).value[i], values[i]);
  }

  // Cells outside the written range, and the whole other area, keep their values.
  ghost predicate Elsewhere(before: Cells, after: Cells, device: Device, head: int, length: nat)
  {
    && |after.d| == |before.d| && |after.m| == |before.m|
    && (forall i :: 0 <= i < |before.d| && !(device.D? && head <= i < head + length) ==> after.d[i] == before.d[i])
    && (forall i :: 0 <= i < |before.m| && !(device.M? && head <= i < head + length) ==> after.m[i] == before.m[i])
  }

  lemma ReadAfterDeviceWords(c: Cells, device: Device, head: int, values: seq<word>)
    requires WriteDeviceWords(c, device, head, values).ok
    ensures var e := WriteDeviceWords(c, device, head, values);
            && ReadDeviceWords(e.cells, device, head, |values|) == Some(values)
            && Elsewhere(c, e.cells, device, head, if device.D? then |values| else 16 * |values|)
  {
    match device
    case D =>
      assert ToWords(values) == values;
      OverwritePart(c.d, head, values, 0, values);
    case M =>
      ReadAfterBitWords(c, head, values);
      WordWriteIsBitWrite(c, head, values);
  }

  lemma PayloadRoundTrip(payload: seq<byte>, points: nat)
    requires 2 * points <= |payload|
    ensures EncodeWords(PayloadWords(payload, points)) == payload[..2 * points]
  {
    forall i | 0 <= i < 2 * points ensures EncodeWords(PayloadWords(payload, points))[i] == payload[i] {
      PayloadByte(payload, points, i);
    }
  }

  lemma PayloadByte(payload: seq<byte>, points: nat, i: nat)
    requires 2 * points <= |payload| && i < 2 * points
    ensures EncodeWords(PayloadWords(payload, points))[i] == payload[i]
  {
    var k := i / 2;
    EncodeWordsAt(PayloadWords(payload, points), k);
    assert PayloadWords(payload, points)[k] == payload[2 * k] as int + 0x100 * payload[2 * k + 1] as int;
    assert i == 2 * k || i == 2 * k + 1;
  }

  // The request that reads the range a request has written.
  function ReadBack(w: McRequest): (r: McRequest)
  {
    w.(command := CMD_BATCH_READ, payload := [])
  }

  lemma ExecutedWordWrite(c: Cells, w: McRequest)
    requires w.command == CMD_BATCH_WRITE && w.subcommand == SUBCMD_WORD && Execute(c, w).data.Some?
    ensures var after := Execute(c, w).cells;
            && Execute(after, ReadBack(w)) == Answer(after, Some(w.payload[..2 * w.points]))
            && Elsewhere(c, after, w.device, w.head, if w.device.D? then w.points else 16 * w.points)
  {
    ReadAfterDeviceWords(c, w.device, w.head, PayloadWords(w.payload, w.points));
    PayloadRoundTrip(w.payload, w.points);
  }

  lemma ExecutedBitWrite(c: Cells, w: McRequest)
    requires w.command == CMD_BATCH_WRITE && w.subcommand == SUBCMD_BIT && Execute(c, w).data.Some?
    ensures (w.points + 1) / 2 <= |w.payload|
    ensures var after := Execute(c, w).cells;
            && Execute(after, ReadBack(w)) == Answer(after, Some(PackBits(UnpackBits(w.payload, w.points))))
            && Elsewhere(c, after, w.device, w.head, w.points)
  {
    var bits := UnpackBits(w.payload, w.points);
    var after := Execute(c, w).cells;
    assert after == c.(m := Overwrite(c.m, w.head, bits));
    OverwritePart(c.m, w.head, bits, 0, bits);
    assert ReadBits(after, w.head, w.points) == Some(bits);
  }

  // A batch write request that can be built as a frame.
  predicate Buildable(w: McRequest)
  {
    w.command == CMD_BATCH_WRITE && w.head < 0x100_0000 && |w.payload| <= 0xFFFF - 12
  }

  // An accepted word write followed by a read of the same device, head and points is answered
  // with the payload, and the write touched nothing else.
  lemma WordWriteThenRead(c: Cells, w: McRequest)
    requires Buildable(w) && w.subcommand == SUBCMD_WORD
    requires ExecuteFrame(c, BuildRequest(w).value).data.Some?
    ensures 2 * w.points <= |w.payload|
    ensures var after := ExecuteFrame(c, BuildRequest(w).value).cells;
            && ExecuteFrame(after, BuildRequest(ReadBack(w)).value) == Answer(after, Some(w.payload[..2 * w.points]))
            && Elsewhere(c, after, w.device, w.head, if w.device.D? then w.points else 16 * w.points)
  {
    var after := Execute(c, w).cells;
    BuiltFrame(c, w);
    BuiltFrame(after, ReadBack(w));
    ExecutedWordWrite(c, w);
  }

  // An accepted bit write is read back in canonical form.
  lemma BitWriteThenRead(c: Cells, w: McRequest)
    requires Buildable(w) && w.subcommand == SUBCMD_BIT
    requires ExecuteFrame(c, BuildRequest(w).value).data.Some?
    ensures (w.points + 1) / 2 <= |w.payload|
    ensures var after := ExecuteFrame(c, BuildRequest(w).value).cells;
            var canonical := PackBits(UnpackBits(w.payload, w.points));
            && ExecuteFrame(after, BuildRequest(ReadBack(w)).value) == Answer(after, Some(canonical))
            && Elsewhere(c, after, w.device, w.head, w.points)
  {
    BuiltFrame(c, w);
    BuiltFrame(Execute(c, w).cells, ReadBack(w));
    ExecutedBitWrite(c, w);
  }

  lemma BuiltFrame(c: Cells, r: McRequest)
    requires r.head < 0x100_0000 && |r.payload| <= 0xFFFF - 12
    requires r.command != CMD_RANDOM_READ && r.command != CMD_RANDOM_WRITE
    ensures ExecuteFrame(c, BuildRequest(r).value) == Execute(c, r)
  {
    BuiltBytes(r);
    ParsedBack(r);
  }
}
