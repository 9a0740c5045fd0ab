/**
 The memory of the simulated PLC as its users may picture it: two fixed, zero-filled areas
 (backend/plc_link/memory.py read as a specification). DeviceMemory refines this.
 */
module CellSpec {
  import opened Bytes
  import opened BitEdges

  const MAX_SIZE: nat := 1_048_576

  datatype Cells = Cells(d: seq<word>, m: seq<bit>)

  // A bit that took a new value, as reported to the edge log.
  datatype Change = Change(key: Key, value: bit)

  // A write that returned (ok) or raised, what the memory holds then, and the reported changes.
  datatype Effect = Effect(ok: bool, cells: Cells, changes: seq<Change>)

  predicate Fits<T>(area: seq<T>, head: int, count: int)
  {
    0 <= head && 0 <= count && head + count <= |area|
  }

  function Overwrite<T>(area: seq<T>, head: nat, values: seq<T>): (next: seq<T>)
    requires head + |values| <= |area|
    ensures |next| == |area|
    ensures forall i {:trigger next[i]} :: 0 <= i < |area| ==>
      next[i] == if head <= i < head + |values| then values[i - head] else area[i]
  {
    seq(|area|, i requires 0 <= i < |area| => if head <= i < head + |values| then values[i - head] else area[i])
  }

  lemma OverwriteStep<T>(area: seq<T>, head: nat, values: seq<T>, k: nat)
    requires head + |values| <= |area| && k < |values|
    ensures Overwrite(area, head, values[..k])[head + k := values[k]] == Overwrite(area, head, values[..k + 1])
  {
  }

  // ---------- words and bits, least significant bit first ----------

  function Pow2(n: nat): (p: nat)
    ensures p > 0
  {
    if n == 0 then 1 else 2 * Pow2(n - 1)
  }

  lemma Pow2Sixteen()
    ensures Pow2(16) == 0x1_0000
  {
    assert Pow2(8) == 0x100;
    assert Pow2(12) == 0x1000;
  }

  function BitsValue(bits: seq<bit>): (v: nat)
    ensures v < Pow2(|bits|)
  {
    if |bits| == 0 then 0 else bits[0] + 2 * BitsValue(bits[1..])
  }

  function ToBits(value: nat, n: nat): (bits: seq<bit>)
    ensures |bits| == n
  {
    if n == 0 then [] else [value % 2] + ToBits(value / 2, n - 1)
  }

  lemma {:induction false} BitsValueInverts(value: nat, n: nat)
    requires value < Pow2(n)
    ensures BitsValue(ToBits(value, n)) == value
  {
    if n > 0 {
      BitsValueInverts(value / 2, n - 1);
    }
  }

  lemma {:induction false} ToBitsInverts(bits: seq<bit>)
    ensures ToBits(BitsValue(bits), |bits|) == bits
  {
    if |bits| > 0 {
      ToBitsInverts(bits[1..]);
    }
  }

  const WEIGHTS: seq<nat> := [1, 2, 4, 8, 16, 32, 64, 128, 256, 512, 1024, 2048, 4096, 8192, 16384, 32768]

  // Bit j of a word, the least significant first.
  function BitOf(value: nat, j: nat): (b: bit)
    requires j < 16
  {
    value / WEIGHTS[j] % 2
  }

  lemma HalfWeightLow(value: nat, j: nat)
    requires 0 < j < 8
    ensures BitOf(value, j) == value / 2 / WEIGHTS[j - 1] % 2
  {
    if j == 1 {
      assert value / 2 / 1 == value / 2;
    } else if j == 2 {
      assert value / 2 / 2 == value / 4;
    } else if j == 3 {
      assert value / 2 / 4 == value / 8;
    } else if j == 4 {
      assert value / 2 / 8 == value / 16;
    } else if j == 5 {
      assert value / 2 / 16 == value / 32;
    } else if j == 6 {
      assert value / 2 / 32 == value / 64;
    } else if j == 7 {
      assert value / 2 / 64 == value / 128;
    }
  }

  lemma HalfWeightHigh(value: nat, j: nat)
    requires 8 <= j < 16
    ensures BitOf(value, j) == value / 2 / WEIGHTS[j - 1] % 2
  {
    if j == 8 {
      assert value / 2 / 128 == value / 256;
    } else if j == 9 {
      assert value / 2 / 256 == value / 512;
    } else if j == 10 {
      assert value / 2 / 512 == value / 1024;
    } else if j == 11 {
      assert value / 2 / 1024 == value / 2048;
    } else if j == 12 {
      assert value / 2 / 2048 == value / 4096;
    } else if j == 13 {
      assert value / 2 / 4096 == value / 8192;
    } else if j == 14 {
      assert value / 2 / 8192 == value / 16384;
    } else if j == 15 {
      assert value / 2 / 16384 == value / 32768;
    }
  }

  lemma {:induction false} ToBitsAt(value: nat, n: nat, j: nat)
    requires j < n <= 16
    ensures ToBits(value, n)[j] == BitOf(value, j)
    decreases j
  {
    if j > 0 {
      if j < 8 {
        HalfWeightLow(value, j);
      } else {
        HalfWeightHigh(value, j);
      }
      ToBitsAt(value / 2, n - 1, j - 1);
    }
  }

  // A bit appended at position k adds 2^k.
  lemma {:induction false} BitsValueSnoc(bits: seq<bit>, b: bit)
    ensures BitsValue(bits + [b]) == BitsValue(bits) + if b == 1 then Pow2(|bits|) else 0
  {
    if |bits| == 0 {
      assert BitsValue([b]) == b;
    } else {
      BitsValueSnoc(bits[1..], b);
      assert (bits + [b])[1..] == bits[1..] + [b];
    }
  }

  // ---------- reads ----------

  function ReadWords(c: Cells, head: int, count: int): (words: Option<seq<word>>)
  {
    if Fits(c.d, head, count) then Some(c.d[head..head + count]) else None
  }

  function ReadBits(c: Cells, head: int, count: int): (bits: Option<seq<bit>>)
  {
    if Fits(c.m, head, count) then Some(c.m[head..head + count]) else None
  }

  function WordOfBits(bits: seq<bit>): (w: word)
    requires |bits| == 16
  {
    Pow2Sixteen();
    BitsValue(bits)
  }

  // Bits in groups of sixteen; a range error in any group is an error of the whole read.
  function ReadBitWords(c: Cells, head: int, count: int): (words: Option<seq<word>>)
    decreases count
  {
    if count <= 0 then Some([])
    else if ReadBits(c, head, 16).None? then None
    else
      var rest := ReadBitWords(c, head + 16, count - 1);
      if rest.None? then None else Some([WordOfBits(c.m[head..head + 16])] + rest.value)
  }

  // ---------- writes ----------

  function Changes(area: seq<bit>, head: nat, values: seq<bit>): (changes: seq<Change>)
    requires head + |values| <= |area|
    decreases |values|
  {
    if |values| == 0 then []
    else
      var n := |values| - 1;
      var front := Changes(area, head, values[..n]);
      if area[head + n] == values[n] then front else front + [Change(Key("M", head + n), values[n])]
  }

  // Exactly the bits that differ are reported, once and by rising address, with their new values.
  lemma {:induction false} ChangesExact(area: seq<bit>, head: nat, values: seq<bit>)
    requires head + |values| <= |area|
    ensures var changes := Changes(area, head, values);
            && (forall i :: 0 <= i < |changes| ==>
                  var a := changes[i].key.address;
                  && changes[i] == Change(Key("M", a), changes[i].value)
                  && head <= a < head + |values| && changes[i].value == values[a - head] != area[a])
            && (forall i, j :: 0 <= i < j < |changes| ==> changes[i].key.address < changes[j].key.address)
            && (forall k :: 0 <= k < |values| && values[k] != area[head + k] ==>
                  Change(Key("M", head + k), values[k]) in changes)
  {
    if |values| > 0 {
      var n := |values| - 1;
      ChangesExact(area, head, values[..n]);
      assert forall k :: 0 <= k < n ==> values[..n][k] == values[k];
    }
  }

  function ToWords(values: seq<int>): (words: seq<word>)
    ensures |words| == |values|
    ensures forall i :: 0 <= i < |words| ==> words[i] == ToU16(values[i])
  {
    seq(|values|, i requires 0 <= i < |values| => ToU16(values[i]))
  }

  function WriteWords(c: Cells, head: int, values: seq<int>): (e: Effect)
  {
    if Fits(c.d, head, |values|) then Effect(true, c.(d := Overwrite(c.d, head, ToWords(values))), [])
    else Effect(false, c, [])
  }

  predicate AreBits(values: seq<int>)
  {
    forall i :: 0 <= i < |values| ==> values[i] == 0 || values[i] == 1
  }

  // A range of the M area takes new bits.
  function PutBits(c: Cells, head: int, bits: seq<bit>): (e: Effect)
  {
    if Fits(c.m, head, |bits|) then Effect(true, c.(m := Overwrite(c.m, head, bits)), Changes(c.m, head, bits))
    else Effect(false, c, [])
  }

  function WriteBits(c: Cells, head: int, values: seq<int>): (e: Effect)
  {
    if AreBits(values) then PutBits(c, head, values) else Effect(false, c, [])
  }

  // Sixteen bits at a time: when a later group does not fit, the earlier ones stay written.
  function WriteBitWords(c: Cells, head: int, values: seq<int>): (e: Effect)
    decreases |values|
  {
    if |values| == 0 then Effect(true, c, [])
    else
      var n := |values| - 1;
      var front := WriteBitWords(c, head, values[..n]);
      if !front.ok then front
      else
        var last := PutBits(front.cells, head + n * 16, ToBits(ToU16(values[n]), 16));
        Effect(last.ok, last.cells, front.changes + last.changes)
  }

  lemma WriteBitWordsStep(c: Cells, head: int, values: seq<int>, k: nat)
    requires k < |values|
    ensures var front := WriteBitWords(c, head, values[..k]);
            var last := PutBits(front.cells, head + k * 16, ToBits(ToU16(values[k]), 16));
            WriteBitWords(c, head, values[..k + 1])
            == if !front.ok then front else Effect(last.ok, last.cells, front.changes + last.changes)
  {
    assert values[..k + 1][..k] == values[..k];
  }

  // ---------- the log beside the memory ----------

  function RecordChanges(log: Log, changes: seq<Change>, now: real): (next: Log)
  {
    if |changes| == 0 then log
    else
      var n := |changes| - 1;
      RecordLog(RecordChanges(log, changes[..n], now), changes[n].key, changes[n].value, now)
  }

  lemma {:induction false} RecordChangesConcat(log: Log, a: seq<Change>, b: seq<Change>, now: real)
    ensures RecordChanges(log, a + b, now) == RecordChanges(RecordChanges(log, a, now), b, now)
  {
    if |b| == 0 {
      assert a + b == a;
    } else {
      RecordChangesConcat(log, a, b[..|b| - 1], now);
      FrontOfConcat(a, b);
    }
  }
}
