/** What a request that is answered with an error has done to the memory. */
module McFailures {
  import opened Bytes
  import opened CellSpec
  import opened Mc3e
  import opened McProperties

  // One requested 16-bit write.
  datatype WordWrite = WordWrite(device: Device, head: nat, value: word)

  function ApplyWrites(c: Cells, writes: seq<WordWrite>): (after: Cells)
  {
    if |writes| == 0 then c
    else
      var w := writes[|writes| - 1];
      WriteDeviceWords(ApplyWrites(c, writes[..|writes| - 1]), w.device, w.head, [w.value]).cells
  }

  lemma {:induction false} ApplyConcat(c: Cells, a: seq<WordWrite>, b: seq<WordWrite>)
    ensures ApplyWrites(c, a + b) == ApplyWrites(ApplyWrites(c, a), b)
  {
    if |b| == 0 {
      assert a + b == a;
    } else {
      ApplyConcat(c, a, b[..|b| - 1]);
      FrontOfConcat(a, b);
    }
  }

  // Consecutive words from a head: one cell apart in D, sixteen points apart in M.
  function Consecutive(device: Device, head: nat, values: seq<word>): (writes: seq<WordWrite>)
    ensures |writes| == |values|
  {
    seq(|values|, i requires 0 <= i < |values| =>
      WordWrite(device, if device.D? then head + i else head + 16 * i, values[i]))
  }

  lemma ConsecutiveFront(device: Device, head: nat, values: seq<word>)
    requires |values| > 0
    ensures Consecutive(device, head, values)[..|values| - 1] == Consecutive(device, head, values[..|values| - 1])
  {
  }

  lemma {:induction false} AcceptedDWrite(c: Cells, head: nat, values: seq<word>)
    requires Fits(c.d, head, |values|)
    ensures WriteWords(c, head, values).cells == ApplyWrites(c, Consecutive(D, head, values))
  {
    var n := |values| - 1;
    if |values| == 0 {
      assert Overwrite(c.d, head, ToWords(values)) == c.d;
    } else {
      AcceptedDWrite(c, head, values[..n]);
      ConsecutiveFront(D, head, values);
      assert ToWords(values) == ToWords(values[..n]) + ToWords([values[n]]);
      OverwriteTwice(c.d, head, ToWords(values[..n]), ToWords([values[n]]));
    }
  }

  lemma OneGroup(c: Cells, head: int, value: word)
    ensures WriteBitWords(c, head, [value]) == PutBits(c, head, ToBits(ToU16(value), 16))
  {
    WriteBitWordsStep(c, head, [value], 0);
    var last := PutBits(c, head, ToBits(ToU16(value), 16));
    assert [value][..1] == [value];
    assert [] + last.changes == last.changes;
  }

  ghost predicate LeavesPrefix(c: Cells, e: Effect, writes: seq<WordWrite>, k: nat)
  {
    k <= |writes| && e.cells == ApplyWrites(c, writes[..k]) && (e.ok ==> k == |writes|)
  }

  // A later step that starts where the first one ended.
  lemma PrefixThen(c: Cells, a: seq<WordWrite>, e: Effect, b: seq<WordWrite>, k: nat)
    requires LeavesPrefix(ApplyWrites(c, a), e, b, k)
    ensures LeavesPrefix(c, e, a + b, |a| + k)
  {
    ApplyConcat(c, a, b[..k]);
    assert (a + b)[..|a| + k] == a + b[..k];
  }

  lemma OneGroupPrefix(c: Cells, head: nat, value: word) returns (k: nat)
    ensures LeavesPrefix(c, PutBits(c, head, ToBits(ToU16(value), 16)), [WordWrite(M, head, value)], k)
  {
    var write := [WordWrite(M, head, value)];
    OneGroup(c, head, value);
    k := if Fits(c.m, head, 16) then 1 else 0;
    assert write[..1] == write && write[..0] == [];
  }

  lemma AfterGroups(c: Cells, front: Cells, writes: seq<WordWrite>, at: nat, value: word) returns (k: nat)
    requires front == ApplyWrites(c, writes)
    ensures LeavesPrefix(c, PutBits(front, at, ToBits(ToU16(value), 16)), writes + [WordWrite(M, at, value)], k)
  {
    var j := OneGroupPrefix(front, at, value);
    PrefixThen(c, writes, PutBits(front, at, ToBits(ToU16(value), 16)), [WordWrite(M, at, value)], j);
    k := |writes| + j;
  }

  // Groups of an M write are applied one after the other until one does not fit.
  lemma {:induction false} MWritePrefix(c: Cells, head: nat, values: seq<word>) returns (k: nat)
    ensures LeavesPrefix(c, WriteBitWords(c, head, values), Consecutive(M, head, values), k)
  {
    k := 0;
    if |values| > 0 {
      var n := |values| - 1;
      k := MWritePrefix(c, head, values[..n]);
      LastGroup(c, head, values);
      ConsecutiveFront(M, head, values);
      k := ThenGroup(c, WriteBitWords(c, head, values[..n]), WriteBitWords(c, head, values),
                     Consecutive(M, head, values[..n]), head + n * 16, values[n], k);
    }
  }

  // One more group, after those that have left a prefix.
  lemma ThenGroup(c: Cells, front: Effect, all: Effect, writes: seq<WordWrite>, at: nat, value: word, k: nat)
    returns (next: nat)
    requires LeavesPrefix(c, front, writes, k)
    requires !front.ok ==> all == front
    requires front.ok ==> var last := PutBits(front.cells, at, ToBits(ToU16(value), 16));
                          all.ok == last.ok && all.cells == last.cells
    ensures LeavesPrefix(c, all, writes + [WordWrite(M, at, value)], next)
  {
    if front.ok {
      assert writes[..k] == writes;
      next := AfterGroups(c, front.cells, writes, at, value);
    } else {
      assert (writes + [WordWrite(M, at, value)])[..k] == writes[..k];
      next := k;
    }
  }

  lemma LastGroup(c: Cells, head: nat, values: seq<word>)
    requires |values| > 0
    ensures var n := |values| - 1;
            var front, all, writes := WriteBitWords(c, head, values[..n]), WriteBitWords(c, head, values),
                Consecutive(M, head, values);
            && writes == writes[..n] + [WordWrite(M, head + n * 16, values[n])]
            && (!front.ok ==> all == front)
            && (front.ok ==> var last := PutBits(front.cells, head + n * 16, ToBits(ToU16(values[n]), 16));
                             all.ok == last.ok && all.cells == last.cells)
  {
  }

  // A device write that fails in D changes nothing; in M it leaves a prefix of its words.
  lemma DeviceWritePrefix(c: Cells, device: Device, head: nat, values: seq<word>) returns (k: nat)
    ensures LeavesPrefix(c, WriteDeviceWords(c, device, head, values), Consecutive(device, head, values), k)
  {
    match device
    case D =>
      k := 0;
      if Fits(c.d, head, |values|) {
        AcceptedDWrite(c, head, values);
        k := |values|;
        assert Consecutive(D, head, values)[..k] == Consecutive(D, head, values);
      }
    case M =>
      k := MWritePrefix(c, head, values);
  }

  // ---------- random writes ----------

  predicate Decodable(frame: seq<byte>, offset: nat, double: bool)
  {
    |frame| >= offset + 4 + 2 * Width(double) && ParseDevice(frame, offset).Some?
  }

  function EntryWrites(frame: seq<byte>, offset: nat, double: bool): (writes: seq<WordWrite>)
    requires Decodable(frame, offset, double)
  {
    var device := ParseDevice(frame, offset).value;
    Consecutive(device.0, device.1, EntryWords(frame, offset, double))
  }

  predicate AllDecodable(frame: seq<byte>, offset: nat, n: nat, double: bool)
  {
    forall k :: 0 <= k < n ==> Decodable(frame, EntryOffset(offset, k, double), double)
  }

  // The word writes of the entries before the first one that cannot be decoded.
  function Listed(frame: seq<byte>, offset: nat, n: nat, double: bool): (writes: seq<WordWrite>)
  {
    if n == 0 then []
    else
      Listed(frame, offset, n - 1, double)
      + if AllDecodable(frame, offset, n, double)
        then EntryWrites(frame, EntryOffset(offset, n - 1, double), double) else []
  }

  lemma {:induction false} RandomWritePrefix(c: Cells, frame: seq<byte>, offset: nat, n: nat, double: bool)
    returns (k: nat)
    ensures LeavesPrefix(c, RandomWrite(c, frame, offset, n, double), Listed(frame, offset, n, double), k)
    ensures RandomWrite(c, frame, offset, n, double).ok ==> AllDecodable(frame, offset, n, double)
  {
    k := 0;
    if n > 0 {
      k := RandomWritePrefix(c, frame, offset, n - 1, double);
      var front, listed := RandomWrite(c, frame, offset, n - 1, double), Listed(frame, offset, n - 1, double);
      var all := Listed(frame, offset, n, double);
      assert all[..k] == listed[..k];
      if front.ok {
        assert listed[..k] == listed;
        k := EntryPrefix(c, front.cells, frame, offset, n, double);
      }
    }
  }

  lemma DecodedPrefix(front: Cells, frame: seq<byte>, at: nat, double: bool) returns (j: nat)
    requires Decodable(frame, at, double)
    ensures LeavesPrefix(front, WriteEntry(front, frame, at, double), EntryWrites(frame, at, double), j)
  {
    var device := ParseDevice(frame, at).value;
    j := DeviceWritePrefix(front, device.0, device.1, EntryWords(frame, at, double));
  }

  lemma EntryPrefix(c: Cells, front: Cells, frame: seq<byte>, offset: nat, n: nat, double: bool) returns (k: nat)
    requires n > 0 && AllDecodable(frame, offset, n - 1, double)
    requires front == ApplyWrites(c, Listed(frame, offset, n - 1, double))
    ensures var e := WriteEntry(front, frame, EntryOffset(offset, n - 1, double), double);
            && LeavesPrefix(c, e, Listed(frame, offset, n, double), k)
            && (e.ok ==> AllDecodable(frame, offset, n, double))
  {
    if Decodable(frame, EntryOffset(offset, n - 1, double), double) {
      ListedNext(frame, offset, n, double);
      var listed := Listed(frame, offset, n - 1, double);
      k := DecodedEntryPrefix(c, front, frame, EntryOffset(offset, n - 1, double), listed, double);
    } else {
      k := UndecodedPrefix(c, front, frame, offset, n, double);
    }
  }

  lemma ListedNext(frame: seq<byte>, offset: nat, n: nat, double: bool)
    requires n > 0 && AllDecodable(frame, offset, n - 1, double)
    requires Decodable(frame, EntryOffset(offset, n - 1, double), double)
    ensures AllDecodable(frame, offset, n, double)
    ensures Listed(frame, offset, n, double)
         == Listed(frame, offset, n - 1, double) + EntryWrites(frame, EntryOffset(offset, n - 1, double), double)
  {
  }

  lemma DecodedEntryPrefix(c: Cells, front: Cells, frame: seq<byte>, at: nat, listed: seq<WordWrite>, double: bool)
    returns (k: nat)
    requires Decodable(frame, at, double) && front == ApplyWrites(c, listed)
    ensures LeavesPrefix(c, WriteEntry(front, frame, at, double), listed + EntryWrites(frame, at, double), k)
  {
    k := DecodedPrefix(front, frame, at, double);
    PrefixThen(c, listed, WriteEntry(front, frame, at, double), EntryWrites(frame, at, double), k);
    k := |listed| + k;
  }

  lemma UndecodedPrefix(c: Cells, front: Cells, frame: seq<byte>, offset: nat, n: nat, double: bool) returns (k: nat)
    requires n > 0 && !Decodable(frame, EntryOffset(offset, n - 1, double), double)
    requires front == ApplyWrites(c, Listed(frame, offset, n - 1, double))
    ensures var e := WriteEntry(front, frame, EntryOffset(offset, n - 1, double), double);
            !e.ok && LeavesPrefix(c, e, Listed(frame, offset, n, double), k)
  {
    var listed := Listed(frame, offset, n - 1, double);
    assert !AllDecodable(frame, offset, n, double);
    assert listed + [] == listed && listed[..|listed|] == listed;
    k := |listed|;
  }

  // The word writes asked for by a frame that may be executed in part: a word write to M, or a
  // random write (word entries, then double words).
  function Requested(frame: seq<byte>): (writes: seq<WordWrite>)
  {
    if |frame| < 17 then []
    else if DecodeU16(frame, 11) == CMD_RANDOM_WRITE then
      if DecodeU16(frame, 13) != SUBCMD_WORD then []
      else RequestedRandom(frame, frame[15], frame[16])
    else
      var r := ParseRequest(frame);
      if r.Some? && r.value.command == CMD_BATCH_WRITE && r.value.subcommand == SUBCMD_WORD && r.value.device.M?
         && |r.value.payload| >= 2 * r.value.points
      then Consecutive(M, r.value.head, PayloadWords(r.value.payload, r.value.points))
      else []
  }

  function RequestedRandom(frame: seq<byte>, words: nat, dwords: nat): (writes: seq<WordWrite>)
  {
    Listed(frame, 17, words, false)
    + if AllDecodable(frame, 17, words, false) then Listed(frame, EntryOffset(17, words, false), dwords, true) else []
  }

  lemma RandomAllPrefix(c: Cells, frame: seq<byte>, words: nat, dwords: nat) returns (k: nat)
    ensures LeavesPrefix(c, RandomWriteAll(c, frame, words, dwords), RequestedRandom(frame, words, dwords), k)
  {
    k := RandomWritePrefix(c, frame, 17, words, false);
    if RandomWrite(c, frame, 17, words, false).ok {
      k := SecondPhasePrefix(c, frame, words, dwords);
    } else {
      assert RequestedRandom(frame, words, dwords)[..k] == Listed(frame, 17, words, false)[..k];
    }
  }

  lemma SecondPhasePrefix(c: Cells, frame: seq<byte>, words: nat, dwords: nat) returns (k: nat)
    requires RandomWrite(c, frame, 17, words, false).ok
    ensures LeavesPrefix(c, RandomWriteAll(c, frame, words, dwords), RequestedRandom(frame, words, dwords), k)
  {
    var first, listed := RandomWrite(c, frame, 17, words, false), Listed(frame, 17, words, false);
    var i := RandomWritePrefix(c, frame, 17, words, false);
    assert listed[..i] == listed;
    var at := EntryOffset(17, words, false);
    var j := RandomWritePrefix(first.cells, frame, at, dwords, true);
    var second, rest := RandomWrite(first.cells, frame, at, dwords, true), Listed(frame, at, dwords, true);
    PrefixThen(c, listed, second, rest, j);
    k := |listed| + j;
  }

  predicate MWordWrite(frame: seq<byte>)
  {
    var r := ParseRequest(frame);
    r.Some? && r.value.command == CMD_BATCH_WRITE && r.value.subcommand == SUBCMD_WORD && r.value.device.M?
  }

  predicate RandomWriteFrame(frame: seq<byte>)
  {
    |frame| >= 15 && DecodeU16(frame, 11) == CMD_RANDOM_WRITE
  }

  ghost predicate PrefixExecuted(c: Cells, frame: seq<byte>, k: nat)
  {
    k <= |Requested(frame)| && ExecuteFrame(c, frame).cells == ApplyWrites(c, Requested(frame)[..k])
  }

  // Word writes to M and random writes leave exactly the effect of a prefix of their word
  // writes, in order; all of them when the request was accepted.
  lemma PartialWrites(c: Cells, frame: seq<byte>)
    requires MWordWrite(frame) || RandomWriteFrame(frame)
    ensures exists k :: PrefixExecuted(c, frame, k)
    ensures ExecuteFrame(c, frame).data.Some? ==> PrefixExecuted(c, frame, |Requested(frame)|)
  {
    var k := 0;
    if RandomWriteFrame(frame) {
      if |frame| >= 17 && DecodeU16(frame, 13) == SUBCMD_WORD {
        k := RandomAllPrefix(c, frame, frame[15], frame[16]);
      }
    } else {
      k := MWordWritePrefix(c, frame);
    }
    assert PrefixExecuted(c, frame, k);
  }

  lemma MWordWritePrefix(c: Cells, frame: seq<byte>) returns (k: nat)
    requires MWordWrite(frame) && !RandomWriteFrame(frame)
    ensures PrefixExecuted(c, frame, k)
    ensures ExecuteFrame(c, frame).data.Some? ==> k == |Requested(frame)|
  {
    var r := ParseRequest(frame).value;
    k := 0;
    if |r.payload| >= 2 * r.points {
      assert |frame| >= 17;
      k := MWritePrefix(c, r.head, PayloadWords(r.payload, r.points));
    }
  }

  // Any other frame that is answered with an error (a word write to D, a bit write to M, a read,
  // a malformed request) leaves the memory as it was and reports no change.
  lemma FailureChangesNothing(c: Cells, frame: seq<byte>)
    requires ExecuteFrame(c, frame).data.None? && !MWordWrite(frame) && !RandomWriteFrame(frame)
    ensures ExecuteFrame(c, frame).cells == c && ExecuteFrame(c, frame).changes == []
  {
  }
}
