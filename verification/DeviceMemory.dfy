/**
 The growing D and M lists (backend/plc_link/memory.py). Every method is specified on the fixed
 zero-filled areas of module CellSpec, so that growth shows up nowhere: a read leaves Contents()
 as it was, and a write changes it as the specification says.
 */
module DeviceMemory {
  import opened Bytes
  import opened BitEdges
  import opened CellSpec

  // A list as the fixed area it stands for: cells beyond its end read as zero.
  function Padded<T>(area: seq<T>, zero: T): (full: seq<T>)
    ensures |full| == if |area| > MAX_SIZE then |area| else MAX_SIZE
    ensures full[..|area|] == area
    ensures forall i :: |area| <= i < |full| ==> full[i] == zero
  {
    if |area| > MAX_SIZE then area else area + seq(MAX_SIZE - |area|, _ => zero)
  }

  lemma PaddedGrowth<T>(area: seq<T>, zero: T, extra: nat)
    requires |area| + extra <= MAX_SIZE
    ensures Padded(area + seq(extra, _ => zero), zero) == Padded(area, zero)
  {
  }

  lemma PaddedOverwrite<T>(area: seq<T>, zero: T, head: nat, values: seq<T>)
    requires head + |values| <= |area|
    ensures Padded(Overwrite(area, head, values), zero) == Overwrite(Padded(area, zero), head, values)
  {
  }

  // Addresses in the order in which an iteration over a set may yield them.
  ghost predicate Enumerates(order: seq<int>, addresses: set<int>)
  {
    && (forall a :: a in order <==> a in addresses)
    && (forall i, j :: 0 <= i < j < |order| ==> order[i] != order[j])
  }

  // Bits a clear turns off and reports.
  ghost function Falling(c: Cells, watched: set<Key>): (addresses: set<int>)
  {
    set k | k in watched && k.device == "M" && 0 <= k.address < |c.m| && c.m[k.address] != 0 :: k.address
  }

  function Falls(order: seq<int>): (changes: seq<Change>)
    ensures |changes| == |order|
  {
    seq(|order|, i requires 0 <= i < |order| => Change(Key("M", order[i]), 0))
  }

  function Cleared(c: Cells): (zero: Cells)
    ensures |zero.d| == |c.d| && |zero.m| == |c.m|
    ensures forall i :: 0 <= i < |zero.d| ==> zero.d[i] == 0
    ensures forall i :: 0 <= i < |zero.m| ==> zero.m[i] == 0
  {
    Cells(Zeros(|c.d|), Zeros(|c.m|))
  }

  // The words read so far, followed by what the rest of the read yields, are the whole read.
  ghost predicate Continues(found: seq<word>, rest: Option<seq<word>>, whole: Option<seq<word>>)
  {
    whole == if rest.None? then None else Some(found + rest.value)
  }

  lemma ContinuesFromStart(whole: Option<seq<word>>)
    ensures Continues([], whole, whole)
  {
    assert whole.Some? ==> [] + whole.value == whole.value;
  }

  lemma ContinuesNext(c: Cells, at: int, count: int, found: seq<word>, whole: Option<seq<word>>)
    requires count > 0 && CellSpec.ReadBits(c, at, 16).Some?
    requires Continues(found, CellSpec.ReadBitWords(c, at, count), whole)
    ensures Continues(found + [WordOfBits(c.m[at..at + 16])], CellSpec.ReadBitWords(c, at + 16, count - 1), whole)
  {
    var value, rest := WordOfBits(c.m[at..at + 16]), CellSpec.ReadBitWords(c, at + 16, count - 1);
    assert rest.Some? ==> (found + [value]) + rest.value == found + ([value] + rest.value);
  }

  lemma ContinuesToEnd(found: seq<word>, whole: Option<seq<word>>)
    requires Continues(found, Some([]), whole)
    ensures whole == Some(found)
  {
    assert found + [] == found;
  }

  lemma EnumeratesSnoc(order: seq<int>, addresses: set<int>, a: int)
    requires Enumerates(order, addresses) && a !in addresses
    ensures Enumerates(order + [a], addresses + {a})
  {
  }

  lemma FallingMet(m: seq<bit>, c: Cells, watched: set<Key>)
    requires c.m == Padded(m, 0)
    ensures var all := set k | k in watched && k.device == "M" :: k.address;
            (set a | a in all && 0 <= a < |m| && m[a] != 0) == Falling(c, watched)
  {
    var all := set k | k in watched && k.device == "M" :: k.address;
    assert c.m[..|m|] == m;
    forall a | a in all && 0 <= a < |m| && m[a] != 0 ensures a in Falling(c, watched) {
      assert Key("M", a) in watched;
      assert c.m[a] == m[a];
    }
    forall a | a in Falling(c, watched) ensures a in all && 0 <= a < |m| && m[a] != 0 {
      assert Key("M", a) in watched;
      assert a < |m| ==> c.m[a] == c.m[..|m|][a];
    }
  }

  class DeviceMemory {
    var d: seq<word>
    var m: seq<bit>
    const edges: BitEdgeLog

    constructor (dSize: nat := 65536, mSize: nat := 65536)
      ensures fresh(edges)
      ensures edges.State() == Log([], 0, {}, map[], 0.0, 16384)
      ensures forall i :: 0 <= i < |Contents().d| ==> Contents().d[i] == 0
      ensures forall i :: 0 <= i < |Contents().m| ==> Contents().m[i] == 0
      ensures dSize <= 1_048_576 ==> |Contents().d| == 1_048_576
      ensures mSize <= 1_048_576 ==> |Contents().m| == 1_048_576
    {
      d := Zeros(dSize);
      m := Zeros(mSize);
      edges := new BitEdgeLog();
    }

    function Contents(): (c: Cells)
      reads this
    {
      Cells(Padded(d, 0), Padded(m, 0))
    }

    // Grows the D list so that a range exists; false stands for the IndexError.
    method EnsureDRange(head: int, count: int) returns (ok: bool)
      modifies this`d
      ensures ok == Fits(Contents().d, head, count)
      ensures ok ==> head + count <= |d|
      ensures Contents() == old(Contents())
      ensures !ok ==> d == old(d)
    {
      if head < 0 || count < 0 {
        return false;
      }
      var need := head + count;
      if need <= |d| {
        return true;
      }
      if need > MAX_SIZE {
        return false;
      }
      PaddedGrowth(d, 0, need - |d|);
      d := d + Zeros(need - |d|);
      assert d == old(d) + seq(need - |old(d)|, _ => 0);
      return true;
    }

    method EnsureMRange(head: int, count: int) returns (ok: bool)
      modifies this`m
      ensures ok == Fits(Contents().m, head, count)
      ensures ok ==> head + count <= |m|
      ensures Contents() == old(Contents())
      ensures !ok ==> m == old(m)
    {
      if head < 0 || count < 0 {
        return false;
      }
      var need := head + count;
      if need <= |m| {
        return true;
      }
      if need > MAX_SIZE {
        return false;
      }
      PaddedGrowth(m, 0, need - |m|);
      m := m + Zeros(need - |m|);
      assert m == old(m) + seq(need - |old(m)|, _ => 0);
      return true;
    }

    method ReadWords(head: int, count: int) returns (words: Option<seq<word>>)
      modifies this`d
      ensures Contents() == old(Contents())
      ensures words == CellSpec.ReadWords(Contents(), head, count)
    {
      var ok := EnsureDRange(head, count);
      if !ok {
        return None;
      }
      words := Some(d[head..head + count]);
      assert Contents().d[head..head + count] == d[head..head + count];
    }

    method WriteWords(head: int, values: seq<int>) returns (ok: bool)
      modifies this`d
      ensures var e := CellSpec.WriteWords(old(Contents()), head, values);
              ok == e.ok && Contents() == e.cells
    {
      ok := EnsureDRange(head, |values|);
      if !ok {
        return;
      }
      ghost var before := d;
      ghost var words := ToWords(values);
      for offset := 0 to |values|
        invariant d == Overwrite(before, head, words[..offset])
      {
        OverwriteStep(before, head, words, offset);
        d := d[head + offset := ToU16(values[offset])];
      }
      assert words[..|values|] == words;
      PaddedOverwrite(before, 0, head, words);
    }

    method ReadBits(head: int, count: int) returns (bits: Option<seq<bit>>)
      modifies this`m
      ensures Contents() == old(Contents())
      ensures bits == CellSpec.ReadBits(Contents(), head, count)
    {
      var ok := EnsureMRange(head, count);
      if !ok {
        return None;
      }
      bits := Some(m[head..head + count]);
      assert Contents().m[head..head + count] == m[head..head + count];
    }

    method WriteBits(head: int, values: seq<int>, now: real) returns (ok: bool)
      modifies this`m, edges
      ensures var e := CellSpec.WriteBits(old(Contents()), head, values);
              && ok == e.ok && Contents() == e.cells
              && edges.State() == RecordChanges(old(edges.State()), e.changes, now)
    {
      for i := 0 to |values|
        invariant AreBits(values[..i])
      {
        if values[i] != 0 && values[i] != 1 {
          return false;
        }
      }
      assert values[..|values|] == values;
      ok := EnsureMRange(head, |values|);
      if !ok {
        return;
      }
      ghost var before := m;
      ghost var bits: seq<bit> := values;
      var changed := StoreBits(head, values);
      PaddedOverwrite(before, 0, head, bits);
      PaddedChanges(before, head, bits);
      Report(changed, now);
    }

    // The loop that updates the bits and notes which of them changed.
    method StoreBits(head: nat, values: seq<bit>) returns (changed: seq<Change>)
      requires head + |values| <= |m|
      modifies this`m
      ensures m == Overwrite(old(m), head, values)
      ensures changed == Changes(old(m), head, values)
    {
      changed := [];
      for offset := 0 to |values|
        invariant m == Overwrite(old(m), head, values[..offset])
        invariant changed == Changes(old(m), head, values[..offset])
      {
        var address, value := head + offset, values[offset];
        assert values[..offset + 1][..offset] == values[..offset];
        OverwriteStep(old(m), head, values, offset);
        if m[address] != value {
          m := m[address := value];
          changed := changed + [Change(Key("M", address), value)];
        }
      }
      assert values[..|values|] == values;
    }

    // The loop that tells the log, after the memory has been updated.
    method Report(changed: seq<Change>, now: real)
      modifies edges
      ensures edges.State() == RecordChanges(old(edges.State()), changed, now)
    {
      for i := 0 to |changed|
        invariant edges.State() == RecordChanges(old(edges.State()), changed[..i], now)
      {
        assert changed[..i + 1][..i] == changed[..i];
        edges.Record(changed[i].key, changed[i].value, now);
      }
      assert changed[..|changed|] == changed;
    }

    method ReadBitWords(head: int, count: int) returns (words: Option<seq<word>>)
      modifies this`m
      ensures Contents() == old(Contents())
      ensures words == CellSpec.ReadBitWords(Contents(), head, count)
    {
      var found: seq<word> := [];
      var index := 0;
      ghost var whole := CellSpec.ReadBitWords(Contents(), head, count);
      ContinuesFromStart(whole);
      while index < count
        invariant 0 <= index && (count >= 0 ==> index <= count)
        invariant Contents() == old(Contents())
        invariant Continues(found, CellSpec.ReadBitWords(Contents(), head + index * 16, count - index), whole)
      {
        ghost var at := head + index * 16;
        var bits := ReadBits(head + index * 16, 16);
        if bits.None? {
          return None;
        }
        var value := PackWord(bits.value);
        ContinuesNext(Contents(), at, count - index, found, whole);
        found := found + [value];
        index := index + 1;
      }
      ContinuesToEnd(found, whole);
      words := Some(found);
    }

    static method PackWord(bits: seq<bit>) returns (value: word)
      requires |bits| == 16
      ensures value == WordOfBits(bits)
    {
      var packed := 0;
      for bitIndex := 0 to 16
        invariant packed == BitsValue(bits[..bitIndex])
      {
        BitsValueSnoc(bits[..bitIndex], bits[bitIndex]);
        assert bits[..bitIndex + 1] == bits[..bitIndex] + [bits[bitIndex]];
        if bits[bitIndex] != 0 {
          packed := packed + Pow2(bitIndex);
        }
      }
      assert bits[..16] == bits;
      Pow2Sixteen();
      value := packed;
    }

    // write_bits on values that are known to be bits.
    method WriteGroup(head: int, bits: seq<bit>, now: real) returns (ok: bool)
      modifies this`m, edges
      ensures var e := PutBits(old(Contents()), head, bits);
              && ok == e.ok && Contents() == e.cells
              && edges.State() == RecordChanges(old(edges.State()), e.changes, now)
    {
      ok := WriteBits(head, bits, now);
    }

    method WriteBitWords(head: int, values: seq<int>, now: real) returns (ok: bool)
      modifies this`m, edges
      ensures var e := CellSpec.WriteBitWords(old(Contents()), head, values);
              && ok == e.ok && Contents() == e.cells
              && edges.State() == RecordChanges(old(edges.State()), e.changes, now)
    {
      ok := true;
      for index := 0 to |values|
        invariant ok
        invariant var e := CellSpec.WriteBitWords(old(Contents()), head, values[..index]);
                  && e.ok && Contents() == e.cells
                  && edges.State() == RecordChanges(old(edges.State()), e.changes, now)
      {
        NextGroup(old(Contents()), head, values, index, old(edges.State()), now);
        ok := WriteGroup(head + index * 16, ToBits(ToU16(values[index]), 16), now);
        if !ok {
          WriteBitWordsStops(old(Contents()), head, values, index + 1);
          return;
        }
      }
      assert values[..|values|] == values;
    }

    method GetBit(address: int) returns (b: Option<bit>)
      modifies this`m
      ensures Contents() == old(Contents())
      ensures b == if 0 <= address < |Contents().m| then Some(Contents().m[address]) else None
    {
      var ok := EnsureMRange(address, 1);
      b := if ok then Some(m[address]) else None;
      assert Contents().m[..|m|] == m;
    }

    method SetBit(address: int, value: int, now: real) returns (ok: bool)
      modifies this`m, edges
      ensures var e := CellSpec.WriteBits(old(Contents()), address, [Truth(value)]);
              && ok == e.ok && Contents() == e.cells
              && edges.State() == RecordChanges(old(edges.State()), e.changes, now)
    {
      ok := WriteBits(address, [if value != 0 then 1 else 0], now);
    }

    method ReadDword(head: int) returns (value: Option<int>)
      modifies this`d
      ensures Contents() == old(Contents())
      ensures value == if Fits(Contents().d, head, 2)
                       then Some(DwordOf(Contents().d[head], Contents().d[head + 1])) else None
    {
      var words := ReadWords(head, 2);
      if words.None? {
        return None;
      }
      var raw := words.value[1] as int * 0x1_0000 + words.value[0];
      value := Some(if raw >= 0x8000_0000 then raw - 0x1_0000_0000 else raw);
    }

    method WriteDword(head: int, value: int) returns (ok: bool)
      modifies this`d
      ensures var e := CellSpec.WriteWords(old(Contents()), head, DwordToWords(value));
              ok == e.ok && Contents() == e.cells
    {
      var unsigned := value % 0x1_0000_0000;
      ok := WriteWords(head, [unsigned % 0x1_0000, (unsigned / 0x1_0000) % 0x1_0000]);
    }

    // order is the order in which the iteration over the watched set met the falling bits.
    method Clear(now: real) returns (order: seq<int>)
      modifies this, edges
      ensures Contents() == Cleared(old(Contents()))
      ensures Enumerates(order, Falling(old(Contents()), old(edges.watched)))
      ensures edges.State() == RecordChanges(old(edges.State()), Falls(order), now)
    {
      var pending := set k | k in edges.watched && k.device == "M" :: k.address;
      order := [];
      ghost var all := pending;
      while pending != {}
        invariant unchanged(this) && unchanged(edges)
        invariant pending <= all
        invariant Enumerates(order, set a | a in all - pending && 0 <= a < |m| && m[a] != 0)
        decreases |pending|
      {
        var address :| address in pending;
        ghost var met := set a | a in all - pending && 0 <= a < |m| && m[a] != 0;
        pending := pending - {address};
        ghost var next := set a | a in all - pending && 0 <= a < |m| && m[a] != 0;
        if 0 <= address < |m| && m[address] != 0 {
          EnumeratesSnoc(order, met, address);
          assert next == met + {address};
          order := order + [address];
        } else {
          assert next == met;
        }
      }
      FallingMet(m, Contents(), edges.watched);
      assert all - pending == all;
      d := Zeros(|d|);
      m := Zeros(|m|);
      ghost var zero := Cleared(old(Contents()));
      assert Contents().d == zero.d && Contents().m == zero.m;
      Report(Falls(order), now);
    }
  }

  lemma {:induction false} PaddedChanges(area: seq<bit>, head: nat, values: seq<bit>)
    requires head + |values| <= |area|
    ensures Changes(Padded(area, 0), head, values) == Changes(area, head, values)
  {
    if |values| > 0 {
      PaddedChanges(area, head, values[..|values| - 1]);
    }
  }

  // One more group on top of accepted ones: cells and log go on from where those left them.
  lemma NextGroup(c: Cells, head: int, values: seq<int>, k: nat, log: Log, now: real)
    requires k < |values| && CellSpec.WriteBitWords(c, head, values[..k]).ok
    ensures var front, next := CellSpec.WriteBitWords(c, head, values[..k]),
        CellSpec.WriteBitWords(c, head, values[..k + 1]);
            var last := CellSpec.PutBits(front.cells, head + k * 16, ToBits(ToU16(values[k]), 16));
            && next.ok == last.ok && next.cells == last.cells
            && RecordChanges(log, next.changes, now)
                == RecordChanges(RecordChanges(log, front.changes, now), last.changes, now)
  {
    WriteBitWordsStep(c, head, values, k);
    var front := CellSpec.WriteBitWords(c, head, values[..k]);
    var last := CellSpec.PutBits(front.cells, head + k * 16, ToBits(ToU16(values[k]), 16));
    RecordChangesConcat(log, front.changes, last.changes, now);
  }

  // Once a group has failed, the later groups are not attempted.
  lemma {:induction false} WriteBitWordsStops(c: Cells, head: int, values: seq<int>, n: nat)
    requires n <= |values| && !CellSpec.WriteBitWords(c, head, values[..n]).ok
    ensures CellSpec.WriteBitWords(c, head, values) == CellSpec.WriteBitWords(c, head, values[..n])
    decreases |values|
  {
    if n == |values| {
      assert values[..n] == values;
    } else {
      assert values[..|values| - 1][..n] == values[..n];
      WriteBitWordsStops(c, head, values[..|values| - 1], n);
    }
  }
}
