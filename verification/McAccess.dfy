/**
 Which requests the simulated PLC accepts, and what the accepted ones read and write, cell by cell
 and byte by byte (backend/plc_link/mc3e.py, memory.py).
 */
module McAccess {
  import opened Bytes
  import opened CellSpec
  import opened Mc3e
  import opened McProperties
  import opened McFailures

  // ---------- words behind a head ----------

  // Sixteen points from an address on show the bits of a word.
  ghost predicate Shows(m: seq<bit>, at: int, value: word)
  {
    0 <= at && at + 16 <= |m| && forall j :: 0 <= j < 16 ==> m[at + j] == BitOf(value, j)
  }

  lemma ShowsBits(m: seq<bit>, at: int, value: word)
    requires 0 <= at && at + 16 <= |m|
    ensures Shows(m, at, value) <==> m[at..at + 16] == ToBits(value, 16)
  {
    forall j | 0 <= j < 16 ensures ToBits(value, 16)[j] == BitOf(value, j) {
      ToBitsAt(value, 16, j);
    }
  }

  // A word behind a head in D, or in sixteen points of M.
  ghost predicate Holds(c: Cells, device: Device, head: int, i: nat, value: word)
  {
    match device
    case D => 0 <= head + i < |c.d| && c.d[head + i] == value
    case M => Shows(c.m, head + 16 * i, value)
  }

  predicate RangeFits(c: Cells, device: Device, head: int, words: nat)
  {
    match device
    case D => 0 <= head && head + words <= |c.d|
    case M => words == 0 || (0 <= head && head + 16 * words <= |c.m|)
  }

  lemma DeviceWordsRead(c: Cells, device: Device, head: int, count: nat)
    ensures var read := ReadDeviceWords(c, device, head, count);
            && (read.Some? <==> RangeFits(c, device, head, count))
            && (read.Some? ==>
                  && |read.value| == count
                  && forall i :: 0 <= i < count ==> Holds(c, device, head, i, read.value[i]))
  {
    if device.M? {
      PointWordsRead(c, head, count);
    }
  }

  lemma PointWordsRead(c: Cells, head: int, count: nat)
    ensures var read := ReadBitWords(c, head, count);
            && (read.Some? <==> count == 0 || (0 <= head && head + 16 * count <= |c.m|))
            && (read.Some? ==>
                  && |read.value| == count
                  && forall i :: 0 <= i < count ==> Shows(c.m, head + 16 * i, read.value[i]))
  {
    ReadBitWordsLength(c, head, count);
    var read := ReadBitWords(c, head, count);
    if read.Some? {
      forall i | 0 <= i < count ensures Shows(c.m, head + 16 * i, read.value[i]) {
        ViewsAgree(c, head, count, i);
        ShowsBits(c.m, head + 16 * i, read.value[i]);
      }
    }
  }

  // ---------- batch access ----------

  // Exactly these byte strings parse: a request subheader, as many bytes as the length field
  // announces and at least a device, which is D or M. The number of points may lie past the end.
  lemma ParsesExactly(frame: seq<byte>)
    ensures ParseRequest(frame).Some?
       <==> && |frame| >= 19 && frame[0] == 0x50 && frame[1] == 0x00
            && |frame| >= 9 + frame[7] as int + 0x100 * frame[8] as int
            && (frame[18] == 0xA8 || frame[18] == 0x90)
    ensures ParseRequest(frame).Some? ==>
      var r := ParseRequest(frame).value;
      && r.command as int == frame[11] as int + 0x100 * frame[12] as int
      && r.subcommand as int == frame[13] as int + 0x100 * frame[14] as int
      && r.head == frame[15] as int + 0x100 * frame[16] as int + 0x1_0000 * frame[17] as int
      && r.device == (if frame[18] == 0xA8 then D else M)
      && r.points as int == (if |frame| > 19 then frame[19] as int else 0)
                            + (if |frame| > 20 then 0x100 * frame[20] as int else 0)
      && (var end := 9 + frame[7] as int + 0x100 * frame[8] as int;
          r.payload == if end > 21 then frame[21..end] else [])
  {
  }

  // A word of an answer or of a payload, low byte first.
  function WordIn(data: seq<byte>, at: nat): (value: word)
    requires at + 2 <= |data|
  {
    data[at] as int + 0x100 * data[at + 1] as int
  }

  lemma EncodedWords(values: seq<word>)
    ensures |EncodeWords(values)| == 2 * |values|
    ensures forall i :: 0 <= i < |values| ==> WordIn(EncodeWords(values), 2 * i) == values[i]
  {
    forall i | 0 <= i < |values| ensures WordIn(EncodeWords(values), 2 * i) == values[i] {
      EncodeWordsAt(values, i);
    }
  }

  // A word read is accepted exactly if the range fits, and answers the words of the range.
  lemma WordReadExact(c: Cells, frame: seq<byte>, r: McRequest)
    requires ParseRequest(frame) == Some(r) && r.command == 0x0401 && r.subcommand == 0
    ensures var x := ExecuteFrame(c, frame);
            && x.cells == c && x.changes == []
            && (x.data.Some? <==> RangeFits(c, r.device, r.head, r.points))
            && (x.data.Some? ==>
                  && |x.data.value| == 2 * r.points
                  && forall i :: 0 <= i < r.points ==> Holds(c, r.device, r.head, i, WordIn(x.data.value, 2 * i)))
  {
    DeviceWordsRead(c, r.device, r.head, r.points);
    var words := ReadDeviceWords(c, r.device, r.head, r.points);
    if words.Some? {
      EncodedWords(words.value);
    }
  }

  // A bit read is accepted exactly for M and a range that fits, and answers two points a byte, the
  // first in the upper half.
  lemma BitReadExact(c: Cells, frame: seq<byte>, r: McRequest)
    requires ParseRequest(frame) == Some(r) && r.command == 0x0401 && r.subcommand == 1
    ensures var x := ExecuteFrame(c, frame);
            && x.cells == c && x.changes == []
            && (x.data.Some? <==> r.device.M? && r.head + r.points <= |c.m|)
            && (x.data.Some? ==>
                  && |x.data.value| == (r.points + 1) / 2
                  && forall i :: 0 <= i < r.points ==>
                       c.m[r.head + i] == if i % 2 == 0 then x.data.value[i / 2] / 16 else x.data.value[i / 2] % 16)
  {
    var bits := ReadBits(c, r.head, r.points);
    if bits.Some? {
      PackedPoints(bits.value);
      assert forall i :: 0 <= i < r.points ==> bits.value[i] == c.m[r.head + i];
    }
  }

  lemma PackedPoints(bits: seq<bit>)
    ensures forall i :: 0 <= i < |bits| ==>
      bits[i] == if i % 2 == 0 then PackBits(bits)[i / 2] / 16 else PackBits(bits)[i / 2] % 16
  {
    forall i | 0 <= i < |bits|
      ensures bits[i] == if i % 2 == 0 then PackBits(bits)[i / 2] / 16 else PackBits(bits)[i / 2] % 16
    {
      PackedNibbles(bits, i / 2);
    }
  }

  // A word write is accepted exactly if the payload has its data and the range fits. Accepted, it
  // leaves the words of the payload in the range and every other cell alone.
  lemma WordWriteExact(c: Cells, frame: seq<byte>, r: McRequest)
    requires ParseRequest(frame) == Some(r) && r.command == 0x1401 && r.subcommand == 0
    ensures var x := ExecuteFrame(c, frame);
            && (x.data.Some? <==> |r.payload| >= 2 * r.points && RangeFits(c, r.device, r.head, r.points))
            && (x.data.Some? ==>
                  && x.data.value == []
                  && (forall i :: 0 <= i < r.points ==>
                        Holds(x.cells, r.device, r.head, i, WordIn(r.payload, 2 * i)))
                  && Elsewhere(c, x.cells, r.device, r.head, if r.device.D? then r.points else 16 * r.points))
  {
    if |r.payload| >= 2 * r.points {
      var values := PayloadWords(r.payload, r.points);
      DeviceWordsWritten(c, r.device, r.head, values);
      assert forall i :: 0 <= i < r.points ==> values[i] == WordIn(r.payload, 2 * i);
    }
  }

  lemma DeviceWordsWritten(c: Cells, device: Device, head: int, values: seq<word>)
    ensures var e := WriteDeviceWords(c, device, head, values);
            && (e.ok <==> RangeFits(c, device, head, |values|))
            && (e.ok ==>
                  && (forall i :: 0 <= i < |values| ==> Holds(e.cells, device, head, i, values[i]))
                  && Elsewhere(c, e.cells, device, head, if device.D? then |values| else 16 * |values|))
  {
    DeviceWriteFits(c, device, head, values);
    if WriteDeviceWords(c, device, head, values).ok {
      ReadAfterDeviceWords(c, device, head, values);
      DeviceWordsRead(WriteDeviceWords(c, device, head, values).cells, device, head, |values|);
    }
  }

  lemma DeviceWriteFits(c: Cells, device: Device, head: int, values: seq<word>)
    ensures WriteDeviceWords(c, device, head, values).ok <==> RangeFits(c, device, head, |values|)
  {
    if device.M? {
      WordWriteIsBitWrite(c, head, values);
    }
  }

  // A bit write is accepted exactly for M, with two points a byte, and for a range that fits.
  lemma BitWriteExact(c: Cells, frame: seq<byte>, r: McRequest)
    requires ParseRequest(frame) == Some(r) && r.command == 0x1401 && r.subcommand == 1
    ensures var x := ExecuteFrame(c, frame);
            && (x.data.Some? <==>
                  r.device.M? && |r.payload| >= (r.points + 1) / 2 && r.head + r.points <= |c.m|)
            && (x.data.Some? ==>
                  && x.data.value == [] && |x.cells.m| == |c.m|
                  && (forall i :: 0 <= i < r.points ==>
                        x.cells.m[r.head + i] == if i % 2 == 0 then r.payload[i / 2] / 16 % 2 else r.payload[i / 2] % 2)
                  && Elsewhere(c, x.cells, M, r.head, r.points))
  {
    BitWriteRuns(c, frame, r);
    if |r.payload| >= (r.points + 1) / 2 {
      UnpackedPoints(r.payload, r.points);
      PointsWritten(c, r.head, UnpackBits(r.payload, r.points));
    }
  }

  lemma BitWriteRuns(c: Cells, frame: seq<byte>, r: McRequest)
    requires ParseRequest(frame) == Some(r) && r.command == 0x1401 && r.subcommand == 1
    ensures ExecuteFrame(c, frame)
         == if r.device.M? && |r.payload| >= (r.points + 1) / 2
            then Wrote(WriteBits(c, r.head, UnpackBits(r.payload, r.points))) else Answer(c, None)
  {
  }

  lemma UnpackedPoints(payload: seq<byte>, points: nat)
    requires |payload| >= (points + 1) / 2
    ensures forall i :: 0 <= i < points ==>
      UnpackBits(payload, points)[i] == if i % 2 == 0 then payload[i / 2] / 16 % 2 else payload[i / 2] % 2
  {
  }

  lemma PointsWritten(c: Cells, head: nat, bits: seq<bit>)
    ensures var e := WriteBits(c, head, bits);
            && (e.ok <==> head + |bits| <= |c.m|)
            && (e.ok ==>
                  && |e.cells.m| == |c.m| && (forall i :: 0 <= i < |bits| ==> e.cells.m[head + i] == bits[i])
                  && Elsewhere(c, e.cells, M, head, |bits|))
  {
  }

  // Nothing else is accepted as a batch access.
  lemma OtherwiseRefused(c: Cells, frame: seq<byte>)
    requires |frame| >= 15 ==> DecodeU16(frame, 11) != 0x0403 && DecodeU16(frame, 11) != 0x1402
    ensures ExecuteFrame(c, frame).data.Some? ==>
      var r := ParseRequest(frame);
      r.Some? && (r.value.command == 0x0401 || r.value.command == 0x1401)
      && (r.value.subcommand == 0 || r.value.subcommand == 1)
  {
  }

  // ---------- random access ----------

  // A device and a head at an offset: three head bytes, low byte first, and the device code.
  predicate NamesDevice(frame: seq<byte>, at: nat, device: Device, head: nat)
  {
    && at + 4 <= |frame|
    && frame[at + 3] == (if device.D? then 0xA8 else 0x90)
    && head == frame[at] as int + 0x100 * frame[at + 1] as int + 0x1_0000 * frame[at + 2] as int
  }

  lemma NamedDevice(frame: seq<byte>, at: nat, device: Device, head: nat)
    ensures ParseDevice(frame, at) == Some((device, head)) <==> NamesDevice(frame, at, device, head)
  {
  }

  // Entry k of a random read: one word for the first entries, two for those behind them.
  ghost predicate EntryReads(c: Cells, frame: seq<byte>, at: nat, words: nat)
  {
    exists device, head: nat :: NamesDevice(frame, at, device, head) && RangeFits(c, device, head, words)
  }

  // The words of an entry stand at a place of the answer.
  ghost predicate EntryAnswered(c: Cells, frame: seq<byte>, at: nat, words: nat, data: seq<byte>, place: nat)
  {
    && place + 2 * words <= |data|
    && exists device, head: nat :: NamesDevice(frame, at, device, head)
          && forall i :: 0 <= i < words ==> Holds(c, device, head, i, WordIn(data, place + 2 * i))
  }

  lemma EntryReadExact(c: Cells, frame: seq<byte>, at: nat, double: bool)
    ensures var data, words := ReadEntry(c, frame, at, double), if double then 2 else 1;
            && (data.Some? <==> EntryReads(c, frame, at, words))
            && (data.Some? ==> |data.value| == 2 * words && EntryAnswered(c, frame, at, words, data.value, 0))
  {
    var found := ParseDevice(frame, at);
    if found.Some? {
      NamedDevice(frame, at, found.value.0, found.value.1);
      OneDevice(frame, at, found.value.0, found.value.1);
      DeviceWordsRead(c, found.value.0, found.value.1, if double then 2 else 1);
      var words := ReadDeviceWords(c, found.value.0, found.value.1, if double then 2 else 1);
      if words.Some? {
        EncodedWords(words.value);
      }
    } else {
      forall device, head: nat ensures !NamesDevice(frame, at, device, head) {
        NamedDevice(frame, at, device, head);
      }
    }
  }

  lemma OneDevice(frame: seq<byte>, at: nat, device: Device, head: nat)
    requires NamesDevice(frame, at, device, head)
    ensures forall d, h: nat :: NamesDevice(frame, at, d, h) ==> d == device && h == head
  {
  }

  lemma AnsweredInFront(c: Cells, frame: seq<byte>, at: nat, words: nat, data: seq<byte>, more: seq<byte>, place: nat)
    requires EntryAnswered(c, frame, at, words, data, place)
    ensures EntryAnswered(c, frame, at, words, data + more, place)
  {
    var device, head: nat :| NamesDevice(frame, at, device, head)
          && forall i :: 0 <= i < words ==> Holds(c, device, head, i, WordIn(data, place + 2 * i));
    forall i | 0 <= i < words ensures Holds(c, device, head, i, WordIn(data + more, place + 2 * i)) {
      assert WordIn(data + more, place + 2 * i) == WordIn(data, place + 2 * i);
    }
  }

  lemma AnsweredBehind(c: Cells, frame: seq<byte>, at: nat, words: nat, front: seq<byte>, data: seq<byte>, place: nat)
    requires EntryAnswered(c, frame, at, words, data, place)
    ensures EntryAnswered(c, frame, at, words, front + data, |front| + place)
  {
    var device, head: nat :| NamesDevice(frame, at, device, head)
          && forall i :: 0 <= i < words ==> Holds(c, device, head, i, WordIn(data, place + 2 * i));
    forall i | 0 <= i < words ensures Holds(c, device, head, i, WordIn(front + data, |front| + place + 2 * i)) {
      assert WordIn(front + data, |front| + place + 2 * i) == WordIn(data, place + 2 * i);
    }
  }

  // Entry k of n has been read, and stands at its place.
  ghost predicate InPlace(c: Cells, frame: seq<byte>, offset: nat, k: nat, double: bool, data: seq<byte>)
  {
    if double then EntryAnswered(c, frame, offset + 4 * k, 2, data, 4 * k)
    else EntryAnswered(c, frame, offset + 4 * k, 1, data, 2 * k)
  }

  ghost predicate AllInPlace(c: Cells, frame: seq<byte>, offset: nat, n: nat, double: bool, data: seq<byte>)
  {
    && |data| == (if double then 4 * n else 2 * n)
    && forall k: nat :: k < n ==> InPlace(c, frame, offset, k, double, data)
  }

  // Entry k of those whose device and head take four bytes each.
  ghost predicate ReadsAt(c: Cells, frame: seq<byte>, offset: nat, k: nat, words: nat)
  {
    EntryReads(c, frame, offset + 4 * k, words)
  }

  ghost predicate AllRead(c: Cells, frame: seq<byte>, offset: nat, n: nat, words: nat)
  {
    forall k: nat :: k < n ==> ReadsAt(c, frame, offset, k, words)
  }

  lemma {:induction false} EntriesReadExact(c: Cells, frame: seq<byte>, offset: nat, n: nat, double: bool)
    ensures var data := RandomRead(c, frame, offset, n, double);
            && (data.Some? <==> AllRead(c, frame, offset, n, if double then 2 else 1))
            && (data.Some? ==> AllInPlace(c, frame, offset, n, double, data.value))
  {
    if n > 0 {
      EntriesReadExact(c, frame, offset, n - 1, double);
      var last := ReadEntry(c, frame, offset + (n - 1) * 4, double);
      EntryReadExact(c, frame, offset + 4 * (n - 1), double);
      EntriesStep(c, frame, offset, n, double, RandomRead(c, frame, offset, n - 1, double), last);
      ReadNext(c, frame, offset, n, double, last);
    }
  }

  lemma ReadNext(c: Cells, frame: seq<byte>, offset: nat, n: nat, double: bool, last: Option<seq<byte>>)
    requires n > 0 && last == ReadEntry(c, frame, offset + (n - 1) * 4, double)
    ensures var front := RandomRead(c, frame, offset, n - 1, double);
            RandomRead(c, frame, offset, n, double)
            == if front.None? || last.None? then None else Some(front.value + last.value)
  {
  }

  lemma EntriesStep(c: Cells, frame: seq<byte>, offset: nat, n: nat, double: bool, front: Option<seq<byte>>,
                    last: Option<seq<byte>>)
    requires n > 0
    requires front.Some? <==> AllRead(c, frame, offset, n - 1, if double then 2 else 1)
    requires front.Some? ==> AllInPlace(c, frame, offset, n - 1, double, front.value)
    requires last.Some? <==> EntryReads(c, frame, offset + 4 * (n - 1), if double then 2 else 1)
    requires last.Some? ==> |last.value| == (if double then 4 else 2)
    requires last.Some? ==>
      EntryAnswered(c, frame, offset + 4 * (n - 1), if double then 2 else 1, last.value, 0)
    ensures AllRead(c, frame, offset, n, if double then 2 else 1) <==> front.Some? && last.Some?
    ensures front.Some? && last.Some? ==> AllInPlace(c, frame, offset, n, double, front.value + last.value)
  {
    AllReadNext(c, frame, offset, n, if double then 2 else 1);
    if front.Some? && last.Some? {
      EntryAppended(c, frame, offset, n, double, front.value, last.value);
    }
  }

  lemma AllReadNext(c: Cells, frame: seq<byte>, offset: nat, n: nat, words: nat)
    requires n > 0
    ensures AllRead(c, frame, offset, n, words)
       <==> AllRead(c, frame, offset, n - 1, words) && EntryReads(c, frame, offset + 4 * (n - 1), words)
  {
    assert ReadsAt(c, frame, offset, n - 1, words) == EntryReads(c, frame, offset + 4 * (n - 1), words);
  }

  lemma EntryAppended(c: Cells, frame: seq<byte>, offset: nat, n: nat, double: bool, front: seq<byte>, last: seq<byte>)
    requires n > 0 && AllInPlace(c, frame, offset, n - 1, double, front)
    requires |last| == (if double then 4 else 2)
    requires EntryAnswered(c, frame, offset + 4 * (n - 1), if double then 2 else 1, last, 0)
    ensures AllInPlace(c, frame, offset, n, double, front + last)
  {
    var words := if double then 2 else 1;
    forall k: nat | k < n ensures InPlace(c, frame, offset, k, double, front + last) {
      if k < n - 1 {
        assert InPlace(c, frame, offset, k, double, front);
        AnsweredInFront(c, frame, offset + 4 * k, words, front, last, if double then 4 * k else 2 * k);
      } else {
        AnsweredBehind(c, frame, offset + 4 * k, words, front, last, 0);
      }
    }
  }

  // A random read names its entries from byte 17 on, four bytes each: as many of one word as byte
  // 15 says, then as many of two words as byte 16 says. It is accepted exactly if every entry
  // names a device and fits, and answers the words of all of them in order.
  lemma RandomReadExact(c: Cells, frame: seq<byte>)
    requires |frame| >= 15 && DecodeU16(frame, 11) == 0x0403
    ensures var x := ExecuteFrame(c, frame);
            && x.cells == c && x.changes == []
            && (x.data.Some? <==>
                  && DecodeU16(frame, 13) == 0 && |frame| >= 17
                  && AllRead(c, frame, 17, frame[15], 1) && AllRead(c, frame, 17 + 4 * frame[15] as int, frame[16], 2))
            && (x.data.Some? ==>
                  && |frame| >= 17 && |x.data.value| == 2 * frame[15] as int + 4 * frame[16] as int
                  && AllInPlace(c, frame, 17, frame[15], false, x.data.value[..2 * frame[15]])
                  && AllInPlace(c, frame, 17 + 4 * frame[15] as int, frame[16], true, x.data.value[2 * frame[15]..]))
  {
    if |frame| >= 17 {
      AllEntriesRead(c, frame, frame[15], frame[16]);
    }
  }

  lemma AllEntriesRead(c: Cells, frame: seq<byte>, words: nat, dwords: nat)
    ensures var data := RandomReadAll(c, frame, words, dwords);
            && (data.Some? <==>
                  AllRead(c, frame, 17, words, 1) && AllRead(c, frame, 17 + 4 * words, dwords, 2))
            && (data.Some? ==>
                  && |data.value| == 2 * words + 4 * dwords
                  && AllInPlace(c, frame, 17, words, false, data.value[..2 * words])
                  && AllInPlace(c, frame, 17 + 4 * words, dwords, true, data.value[2 * words..]))
  {
    EntriesReadExact(c, frame, 17, words, false);
    EntriesReadExact(c, frame, 17 + 4 * words, dwords, true);
    var first, second := RandomRead(c, frame, 17, words, false), RandomRead(c, frame, 17 + 4 * words, dwords, true);
    if first.Some? && second.Some? {
      var both := first.value + second.value;
      assert both[..2 * words] == first.value && both[2 * words..] == second.value;
    }
  }

  predicate SameSizes(a: Cells, b: Cells)
  {
    |a.d| == |b.d| && |a.m| == |b.m|
  }

  // An entry of a random write has all its bytes, names a device, and fits.
  ghost predicate EntryFits(c: Cells, frame: seq<byte>, at: nat, words: nat)
  {
    at + 4 + 2 * words <= |frame| && EntryReads(c, frame, at, words)
  }

  lemma EntryWriteExact(c: Cells, frame: seq<byte>, at: nat, double: bool)
    ensures var e := WriteEntry(c, frame, at, double);
            SameSizes(c, e.cells) && (e.ok <==> EntryFits(c, frame, at, if double then 2 else 1))
  {
    var found := ParseDevice(frame, at);
    if found.Some? {
      var words := EntryWords(frame, at, double);
      NamedDevice(frame, at, found.value.0, found.value.1);
      OneDevice(frame, at, found.value.0, found.value.1);
      DeviceWordsWritten(c, found.value.0, found.value.1, words);
      SizesKept(c, found.value.0, found.value.1, words);
    } else {
      forall device, head: nat ensures !NamesDevice(frame, at, device, head) {
        NamedDevice(frame, at, device, head);
      }
    }
  }

  lemma SizesKept(c: Cells, device: Device, head: int, values: seq<word>)
    ensures SameSizes(c, WriteDeviceWords(c, device, head, values).cells)
  {
    if device.M? {
      WordWriteIsBitWrite(c, head, values);
    }
  }

  // Entry k of those that take six bytes each, or eight with two words.
  ghost predicate FitsAt(c: Cells, frame: seq<byte>, offset: nat, k: nat, double: bool)
  {
    if double then EntryFits(c, frame, offset + 8 * k, 2) else EntryFits(c, frame, offset + 6 * k, 1)
  }

  ghost predicate AllFit(c: Cells, frame: seq<byte>, offset: nat, n: nat, double: bool)
  {
    forall k: nat :: k < n ==> FitsAt(c, frame, offset, k, double)
  }

  lemma FitsAlike(a: Cells, b: Cells, frame: seq<byte>, at: nat, words: nat)
    requires SameSizes(a, b)
    ensures EntryFits(a, frame, at, words) <==> EntryFits(b, frame, at, words)
  {
    forall device, head: nat ensures RangeFits(a, device, head, words) <==> RangeFits(b, device, head, words) {
    }
  }

  lemma {:induction false} EntriesWriteExact(c: Cells, frame: seq<byte>, offset: nat, n: nat, double: bool)
    ensures var e := RandomWrite(c, frame, offset, n, double);
            SameSizes(c, e.cells) && (e.ok <==> AllFit(c, frame, offset, n, double))
  {
    if n > 0 {
      var front, at := RandomWrite(c, frame, offset, n - 1, double), EntryOffset(offset, n - 1, double);
      EntriesWriteExact(c, frame, offset, n - 1, double);
      AllFitNext(c, frame, offset, n, double);
      EntryWriteExact(front.cells, frame, at, double);
      FitsAlike(c, front.cells, frame, at, if double then 2 else 1);
    }
  }

  lemma AllFitNext(c: Cells, frame: seq<byte>, offset: nat, n: nat, double: bool)
    requires n > 0
    ensures AllFit(c, frame, offset, n, double)
       <==> && AllFit(c, frame, offset, n - 1, double)
            && EntryFits(c, frame, offset + (if double then 8 * (n - 1) else 6 * (n - 1)), if double then 2 else 1)
  {
    var at := offset + if double then 8 * (n - 1) else 6 * (n - 1);
    assert FitsAt(c, frame, offset, n - 1, double) == EntryFits(c, frame, at, if double then 2 else 1);
  }

  // Write j of an entry: the word behind its device and head, at the head or one word further.
  ghost predicate EntryWrite(frame: seq<byte>, at: nat, j: nat, w: WordWrite)
    requires at + 6 + 2 * j <= |frame|
  {
    exists device, head: nat :: NamesDevice(frame, at, device, head)
      && w == WordWrite(device, if device.D? then head + j else head + 16 * j, WordIn(frame, at + 4 + 2 * j))
  }

  lemma EntryWritesAre(frame: seq<byte>, at: nat, double: bool)
    requires Decodable(frame, at, double)
    ensures var writes := EntryWrites(frame, at, double);
            && |writes| == (if double then 2 else 1) && at + 4 + 2 * |writes| <= |frame|
            && (forall j: nat :: j < |writes| ==> EntryWrite(frame, at, j, writes[j]))
  {
    var found := ParseDevice(frame, at).value;
    NamedDevice(frame, at, found.0, found.1);
  }

  // The writes of entries that can all be decoded, in order.
  ghost predicate WritesAre(frame: seq<byte>, offset: nat, n: nat, double: bool, writes: seq<WordWrite>)
  {
    && |writes| == (if double then 2 * n else n)
    && offset + (if double then 8 * n else 6 * n) <= |frame|
    && forall k: nat :: k < n ==> WritesAt(frame, offset, k, double, writes)
  }

  // The one write of entry k, or its two.
  ghost predicate WritesAt(frame: seq<byte>, offset: nat, k: nat, double: bool, writes: seq<WordWrite>)
    requires if double then 2 * k + 1 < |writes| && offset + 8 * k + 8 <= |frame|
             else k < |writes| && offset + 6 * k + 6 <= |frame|
  {
    if double then EntryWrite(frame, offset + 8 * k, 0, writes[2 * k])
                   && EntryWrite(frame, offset + 8 * k, 1, writes[2 * k + 1])
    else EntryWrite(frame, offset + 6 * k, 0, writes[k])
  }

  lemma {:induction false} ListedWrites(frame: seq<byte>, offset: nat, n: nat, double: bool)
    requires AllDecodable(frame, offset, n, double) && offset <= |frame|
    ensures WritesAre(frame, offset, n, double, Listed(frame, offset, n, double))
  {
    if n > 0 {
      var at := EntryOffset(offset, n - 1, double);
      ListedWrites(frame, offset, n - 1, double);
      assert Decodable(frame, at, double);
      EntryWritesAre(frame, at, double);
      WritesNext(frame, offset, n, double, Listed(frame, offset, n - 1, double), EntryWrites(frame, at, double));
    }
  }

  lemma WritesNext(frame: seq<byte>, offset: nat, n: nat, double: bool, front: seq<WordWrite>, last: seq<WordWrite>)
    requires n > 0 && WritesAre(frame, offset, n - 1, double, front)
    requires |last| == (if double then 2 else 1)
    requires var at := offset + (if double then 8 * (n - 1) else 6 * (n - 1));
             && at + 4 + 2 * |last| <= |frame|
             && (forall j: nat :: j < |last| ==> EntryWrite(frame, at, j, last[j]))
    ensures WritesAre(frame, offset, n, double, front + last)
  {
    var all := front + last;
    forall k: nat | k < n ensures WritesAt(frame, offset, k, double, all) {
      if k < n - 1 {
        assert WritesAt(frame, offset, k, double, front);
      } else if double {
        assert all[2 * k] == last[0] && all[2 * k + 1] == last[1];
      } else {
        assert all[k] == last[0];
      }
    }
  }

  lemma DecodableEntries(c: Cells, frame: seq<byte>, offset: nat, n: nat, double: bool)
    requires AllFit(c, frame, offset, n, double)
    ensures AllDecodable(frame, offset, n, double)
  {
    forall k | 0 <= k < n ensures Decodable(frame, EntryOffset(offset, k, double), double) {
      var at := EntryOffset(offset, k, double);
      assert FitsAt(c, frame, offset, k, double);
      var device, head: nat :| NamesDevice(frame, at, device, head)
                              && RangeFits(c, device, head, if double then 2 else 1);
      NamedDevice(frame, at, device, head);
    }
  }

  // A random write gives its entries from byte 17 on: as many of a device and one word as byte 15
  // says, then as many of a device and two words as byte 16 says. It is accepted exactly if every
  // entry is complete, names a device and fits; and then its words have been written in order, of
  // two words the first at the head and the second behind it.
  lemma RandomWriteExact(c: Cells, frame: seq<byte>)
    requires |frame| >= 15 && DecodeU16(frame, 11) == 0x1402
    ensures var x := ExecuteFrame(c, frame);
            && (x.data.Some? <==>
                  && DecodeU16(frame, 13) == 0 && |frame| >= 17
                  && AllFit(c, frame, 17, frame[15], false)
                  && AllFit(c, frame, 17 + 6 * frame[15] as int, frame[16], true))
            && (x.data.Some? ==>
                  && x.data.value == [] && x.cells == ApplyWrites(c, Requested(frame))
                  && |frame| >= 17 && RequestedAre(frame, frame[15], frame[16], Requested(frame)))
  {
    RandomWriteRuns(c, frame);
    if |frame| >= 17 && DecodeU16(frame, 13) == 0 {
      AllEntriesWritten(c, frame, frame[15], frame[16]);
      if ExecuteFrame(c, frame).data.Some? {
        AllRequested(c, frame);
        DecodableEntries(c, frame, 17, frame[15], false);
        DecodableEntries(c, frame, 17 + 6 * frame[15] as int, frame[16], true);
        RequestedInOrder(frame, frame[15], frame[16]);
      }
    }
  }

  lemma RandomWriteRuns(c: Cells, frame: seq<byte>)
    requires |frame| >= 15 && DecodeU16(frame, 11) == 0x1402
    ensures var data := ExecuteFrame(c, frame).data;
            && (data.Some? <==>
                  DecodeU16(frame, 13) == 0 && |frame| >= 17 && RandomWriteAll(c, frame, frame[15], frame[16]).ok)
            && (data.Some? ==> data.value == [] && Requested(frame) == RequestedRandom(frame, frame[15], frame[16]))
  {
  }

  lemma AllRequested(c: Cells, frame: seq<byte>)
    requires RandomWriteFrame(frame) && ExecuteFrame(c, frame).data.Some?
    ensures ExecuteFrame(c, frame).cells == ApplyWrites(c, Requested(frame))
  {
    PartialWrites(c, frame);
    assert Requested(frame)[..|Requested(frame)|] == Requested(frame);
  }

  ghost predicate RequestedAre(frame: seq<byte>, words: nat, dwords: nat, writes: seq<WordWrite>)
  {
    && |writes| == words + 2 * dwords
    && WritesAre(frame, 17, words, false, writes[..words])
    && WritesAre(frame, 17 + 6 * words, dwords, true, writes[words..])
  }

  lemma AllEntriesWritten(c: Cells, frame: seq<byte>, words: nat, dwords: nat)
    ensures RandomWriteAll(c, frame, words, dwords).ok
       <==> AllFit(c, frame, 17, words, false) && AllFit(c, frame, 17 + 6 * words, dwords, true)
  {
    var first := RandomWrite(c, frame, 17, words, false);
    EntriesWriteExact(c, frame, 17, words, false);
    if first.ok {
      EntriesWriteExact(first.cells, frame, 17 + 6 * words, dwords, true);
      AllFitAlike(c, first.cells, frame, 17 + 6 * words, dwords, true);
    }
  }

  lemma AllFitAlike(a: Cells, b: Cells, frame: seq<byte>, offset: nat, n: nat, double: bool)
    requires SameSizes(a, b)
    ensures AllFit(a, frame, offset, n, double) <==> AllFit(b, frame, offset, n, double)
  {
    forall k: nat | k < n ensures FitsAt(a, frame, offset, k, double) <==> FitsAt(b, frame, offset, k, double) {
      FitsAlike(a, b, frame, offset + if double then 8 * k else 6 * k, if double then 2 else 1);
    }
  }

  lemma RequestedInOrder(frame: seq<byte>, words: nat, dwords: nat)
    requires |frame| >= 17
    requires AllDecodable(frame, 17, words, false) && AllDecodable(frame, 17 + 6 * words, dwords, true)
    ensures RequestedAre(frame, words, dwords, RequestedRandom(frame, words, dwords))
  {
    ListedWrites(frame, 17, words, false);
    ListedWrites(frame, 17 + 6 * words, dwords, true);
    var first, second := Listed(frame, 17, words, false), Listed(frame, 17 + 6 * words, dwords, true);
    assert (first + second)[..words] == first && (first + second)[words..] == second;
  }

  // What one of the writes does: its word stands where it belongs and nothing else has changed, or
  // nothing at all has changed because it does not fit.
  lemma OneWriteDone(c: Cells, writes: seq<WordWrite>, w: WordWrite)
    ensures var before, after := ApplyWrites(c, writes), ApplyWrites(c, writes + [w]);
            if RangeFits(before, w.device, w.head, 1) then
              && Holds(after, w.device, w.head, 0, w.value)
              && Elsewhere(before, after, w.device, w.head, if w.device.D? then 1 else 16)
            else after == before
  {
    var before := ApplyWrites(c, writes);
    assert (writes + [w])[..|writes|] == writes;
    DeviceWordsWritten(before, w.device, w.head, [w.value]);
    if w.device.M? {
      OneGroup(before, w.head, w.value);
    }
  }
}
