/**
 How the Field Network client reaches its command and response areas inside the assemblies
 (backend/field_network/client.py). Its handshake is module Handshake with clears off.
 */
module FieldNetworkClient {
  import opened Bytes
  import opened CellSpec
  import opened Layout
  import DM = DeviceMemory
  import BitEdges
  import Handshake
  import IO = IoBuffers

  // An assembly as little-endian words; a last odd byte belongs to none.
  function Words(bytes: seq<byte>): (words: seq<word>)
    ensures |words| == |bytes| / 2
  {
    seq(|bytes| / 2, i requires 0 <= i < |bytes| / 2 => bytes[2 * i] as int + 0x100 * bytes[2 * i + 1] as int)
  }

  function PutWord(bytes: seq<byte>, index: nat, value: word): (next: seq<byte>)
    requires 2 * index + 1 < |bytes|
    ensures |next| == |bytes|
  {
    bytes[2 * index := value % 0x100][2 * index + 1 := value / 0x100 % 0x100]
  }

  lemma PutWordWords(bytes: seq<byte>, index: nat, value: word)
    requires 2 * index + 1 < |bytes|
    ensures Words(PutWord(bytes, index, value)) == Words(bytes)[index := value]
  {
    var next := PutWord(bytes, index, value);
    forall i | 0 <= i < |bytes| / 2 ensures Words(next)[i] == Words(bytes)[index := value][i] {
      if i != index {
        assert next[2 * i] == bytes[2 * i] && next[2 * i + 1] == bytes[2 * i + 1];
      }
    }
  }

  // The command area of a layout inside the scanner-to-device assembly.
  function Area(layout: AssemblyLayout, output: seq<byte>): (area: seq<word>)
    requires 0 <= layout.CommandWord() && 0 <= layout.commandWords && layout.OutputBytes() == |output|
    ensures |area| == layout.commandWords
  {
    Words(output)[layout.CommandWord()..]
  }

  // Reserved words and input ports, which share the assembly with the command area.
  function BeforeArea(layout: AssemblyLayout, output: seq<byte>): (words: seq<word>)
    requires 0 <= layout.CommandWord() && 0 <= layout.commandWords && layout.OutputBytes() == |output|
  {
    Words(output)[..layout.CommandWord()]
  }

  lemma OverwriteTail(words: seq<word>, at: nat, area: seq<word>)
    requires at + |area| == |words|
    ensures Overwrite(words, at, area)[..at] == words[..at] && Overwrite(words, at, area)[at..] == area
  {
  }

  lemma OverwriteTrigger(words: seq<word>, at: nat, value: word)
    requires at + 2 <= |words|
    ensures Overwrite(words, at, [value, 0])[..at] == words[..at]
    ensures Overwrite(words, at, [value, 0])[at..] == Handshake.WithTrigger(words[at..], value)
  {
  }

  class FieldNetworkClient {
    const buffers: IO.IoBuffers
    const layout: AssemblyLayout

    constructor (layout: AssemblyLayout, buffers: IO.IoBuffers)
      ensures this.layout == layout && this.buffers == buffers
    {
      this.layout, this.buffers := layout, buffers;
    }

    // The settings have been built and validated against the sizes of the assemblies.
    ghost predicate Valid()
    {
      && buffers.Valid()
      && BuildLayout(layout.esiPorts, layout.esoPorts, layout.commandWords, layout.responseWords, layout.resultWords)
         == Some(layout)
      && FitsSizes(layout, buffers.input.Length, buffers.output.Length)
    }

    // Rewrites a range of words of the output assembly. A range that does not fit changes
    // nothing, since the changes are made in a copy.
    method WriteOutputRegion(wordIndex: nat, words: seq<int>, now: real) returns (ok: bool, order: seq<int>)
      requires buffers.Valid()
      modifies buffers.output, buffers.edges
      ensures ok == (|words| == 0 || wordIndex + |words| <= buffers.output.Length / 2)
      ensures !ok ==> order == [] && buffers.output[..] == old(buffers.output[..])
      ensures ok && |words| == 0 ==> buffers.output[..] == old(buffers.output[..])
      ensures ok && |words| > 0 ==>
        Words(buffers.output[..]) == Overwrite(Words(old(buffers.output[..])), wordIndex, ToWords(words))
      ensures ok ==> forall k :: 0 <= k < |words| ==>
        buffers.output[2 * (wordIndex + k)] as int + 0x100 * buffers.output[2 * (wordIndex + k) + 1] as int
        == words[k] % 0x1_0000
      ensures forall i :: 0 <= i < buffers.output.Length && !(2 * wordIndex <= i < 2 * (wordIndex + |words|)) ==>
        buffers.output[i] == old(buffers.output[i])
      ensures buffers.edges.State()
           == CellSpec.RecordChanges(old(buffers.edges.State()), IO.Flips("OUT", order, buffers.output[..]), now)
      ensures DM.Enumerates(order,
          IO.Toggled("OUT", old(buffers.output[..]), buffers.output[..], old(buffers.edges.watched)))
    {
      ghost var before := buffers.output[..];
      ghost var values := ToWords(words);
      var buf: seq<byte> := buffers.output[..];
      for offset := 0 to |words|
        invariant |buf| == |before| && unchanged(buffers.output) && unchanged(buffers.edges)
        invariant offset > 0 ==> wordIndex + offset <= |before| / 2
        invariant offset == 0 ==> buf == before
        invariant offset > 0 ==> Words(buf) == Overwrite(Words(before), wordIndex, values[..offset])
        invariant forall i :: 0 <= i < |buf| && !(2 * wordIndex <= i < 2 * (wordIndex + offset)) ==> buf[i] == before[i]
      {
        var pos := (wordIndex + offset) * 2;
        if pos + 1 >= |buf| {
          NothingToggled(before, buffers.edges.watched);
          return false, [];
        }
        var unsigned := ToU16(words[offset]);
        RewriteNext(before, buf, wordIndex, values, offset);
        var low: byte, high: byte := unsigned % 0x100, unsigned / 0x100 % 0x100;
        buf := buf[pos := low];
        buf := buf[pos + 1 := high];
      }
      assert values[..|words|] == values;
      if |words| > 0 {
        RewrittenBytes(before, buf, wordIndex, words);
      }
      ok, order := buffers.WriteOutput(buf, now);
    }

    method WriteCommand(words: seq<word>, now: real)
      requires Valid() && |words| == layout.commandWords
      modifies buffers.output, buffers.edges
      ensures Area(layout, buffers.output[..]) == words
      ensures BeforeArea(layout, buffers.output[..]) == BeforeArea(layout, old(buffers.output[..]))
    {
      SameWords(words);
      OverwriteTail(Words(buffers.output[..]), layout.CommandWord(), words);
      var _, _ := WriteOutputRegion(layout.CommandWord(), words, now);
    }

    // Trigger on or off: the rest of the command area and the input ports stay as they are.
    method WriteTrigger(value: bit, now: real)
      requires Valid()
      modifies buffers.output, buffers.edges
      ensures Area(layout, buffers.output[..]) == Handshake.WithTrigger(Area(layout, old(buffers.output[..])), value)
      ensures BeforeArea(layout, buffers.output[..]) == BeforeArea(layout, old(buffers.output[..]))
    {
      SameWords([value, 0]);
      OverwriteTrigger(Words(buffers.output[..]), layout.CommandWord(), value);
      WriteOutputDword(layout.CommandWord(), value, now);
    }

    method WriteOutputDword(wordIndex: nat, value: int, now: real)
      requires buffers.Valid() && wordIndex + 2 <= buffers.output.Length / 2
      modifies buffers.output, buffers.edges
      ensures Words(buffers.output[..])
          == Overwrite(Words(old(buffers.output[..])), wordIndex, ToWords(DwordToWords(value)))
    {
      var unsigned := value % 0x1_0000_0000;
      var _, _ := WriteOutputRegion(wordIndex, [unsigned % 0x1_0000, (unsigned / 0x1_0000) % 0x1_0000], now);
    }

    // None stands for the ProtocolError of a read past the input assembly.
    method ReadInputDword(wordIndex: nat) returns (value: Option<int>)
      ensures var words := Words(buffers.input[..]);
              value == if wordIndex + 1 < |words| then Some(DwordOf(words[wordIndex], words[wordIndex + 1])) else None
      ensures value.Some? ==>
        && 2 * wordIndex + 4 <= buffers.input.Length && -0x8000_0000 <= value.value < 0x8000_0000
        && value.value % 0x1_0000_0000
           == buffers.input[2 * wordIndex] as int + 0x100 * buffers.input[2 * wordIndex + 1] as int
              + 0x1_0000 * buffers.input[2 * wordIndex + 2] as int
              + 0x100_0000 * buffers.input[2 * wordIndex + 3] as int
    {
      var data := buffers.input[..];
      var pos := wordIndex * 2;
      if pos + 3 >= |data| {
        return None;
      }
      var low := data[pos] as int + data[pos + 1] as int * 0x100;
      var high := data[pos + 2] as int + data[pos + 3] as int * 0x100;
      var raw := high * 0x1_0000 + low;
      value := Some(if raw >= 0x8000_0000 then raw - 0x1_0000_0000 else raw);
    }
  }

  // One more word of a rewritten range.
  lemma RewriteNext(before: seq<byte>, buf: seq<byte>, wordIndex: nat, values: seq<word>, k: nat)
    requires k < |values| && |buf| == |before| && 2 * (wordIndex + k) + 1 < |before|
    requires if k == 0 then buf == before else Words(buf) == Overwrite(Words(before), wordIndex, values[..k])
    ensures wordIndex + k + 1 <= |before| / 2
    ensures Words(PutWord(buf, wordIndex + k, values[k])) == Overwrite(Words(before), wordIndex, values[..k + 1])
  {
    assert Overwrite(Words(before), wordIndex, values[..0]) == Words(before);
    PutWordWords(buf, wordIndex + k, values[k]);
    assert values[..k + 1][..k] == values[..k];
    OverwriteStep(Words(before), wordIndex, values[..k + 1], k);
  }

  // The rewritten words stand in their bytes, low byte first.
  lemma RewrittenBytes(before: seq<byte>, after: seq<byte>, wordIndex: nat, words: seq<int>)
    requires |after| == |before| && wordIndex + |words| <= |before| / 2
    requires Words(after) == Overwrite(Words(before), wordIndex, ToWords(words))
    ensures forall k :: 0 <= k < |words| ==>
      after[2 * (wordIndex + k)] as int + 0x100 * after[2 * (wordIndex + k) + 1] as int == words[k] % 0x1_0000
  {
    forall k | 0 <= k < |words|
      ensures after[2 * (wordIndex + k)] as int + 0x100 * after[2 * (wordIndex + k) + 1] as int == words[k] % 0x1_0000
    {
      assert Words(after)[wordIndex + k] == ToWords(words)[k];
    }
  }

  lemma SameWords(words: seq<word>)
    ensures ToWords(words) == words
  {
  }

  lemma NothingToggled(bytes: seq<byte>, watched: set<BitEdges.Key>)
    ensures IO.Toggled("OUT", bytes, bytes, watched) == {}
  {
  }
}
