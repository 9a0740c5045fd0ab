/**
 Parameters as words of the command area (backend/plc_link/commands.py) and the readers that
 recover them: integers as double words, NUL-terminated strings in whole double words.
 */
module Packing {
  import opened Bytes

  // The settings' byte order, and the number of characters a text has in their encoding.
  datatype Coding = Coding(highLow: bool, length: seq<byte> -> nat)

  // ---------- bytes in words ----------

  function PairOf(first: byte, second: byte, coding: Coding): (w: word)
  {
    if coding.highLow then first as int * 0x100 + second else second as int * 0x100 + first
  }

  function Paired(raw: seq<byte>, coding: Coding): (words: seq<word>)
    requires |raw| % 2 == 0
    ensures |words| == |raw| / 2
  {
    seq(|raw| / 2, i requires 0 <= i < |raw| / 2 => PairOf(raw[2 * i], raw[2 * i + 1], coding))
  }

  function ByteOf(words: seq<word>, coding: Coding, i: nat): (b: byte)
    requires i < 2 * |words|
  {
    if (i % 2 == 0) == coding.highLow then words[i / 2] / 0x100 else words[i / 2] % 0x100
  }

  function Unpaired(words: seq<word>, coding: Coding): (raw: seq<byte>)
    ensures |raw| == 2 * |words|
  {
    seq(2 * |words|, i requires 0 <= i < 2 * |words| => ByteOf(words, coding, i))
  }

  lemma UnpairedInverts(raw: seq<byte>, coding: Coding)
    requires |raw| % 2 == 0
    ensures Unpaired(Paired(raw, coding), coding) == raw
  {
    var words := Paired(raw, coding);
    forall i | 0 <= i < |raw| ensures ByteOf(words, coding, i) == raw[i] {
      assert words[i / 2] == PairOf(raw[2 * (i / 2)], raw[2 * (i / 2) + 1], coding);
    }
  }

  // ---------- strings ----------

  // A string takes this many double words, its terminator included.
  function Quads(length: nat): (n: nat)
    ensures length < 4 * n <= length + 4
  {
    (length + 4) / 4
  }

  lemma QuadIsEven(n: nat)
    ensures 4 * n % 2 == 0 && 4 * n / 2 == 2 * n
  {
  }

  function Terminated(text: seq<byte>): (raw: seq<byte>)
    ensures |raw| == 4 * Quads(|text|)
    ensures |raw| % 2 == 0 && |raw| / 2 == 2 * Quads(|text|)
  {
    QuadIsEven(Quads(|text|));
    text + Zeros(4 * Quads(|text|) - |text|)
  }

  function PackString(text: seq<byte>, coding: Coding): (words: seq<word>)
    ensures |words| == 2 * Quads(|text|)
  {
    Paired(Terminated(text), coding)
  }

  lemma PairedSnoc(raw: seq<byte>, index: nat, coding: Coding)
    requires index % 2 == 0 && index + 2 <= |raw|
    ensures Paired(raw[..index + 2], coding)
        == Paired(raw[..index], coding) + [PairOf(raw[index], raw[index + 1], coding)]
  {
  }

  lemma PairedConcat(raw: seq<byte>, coding: Coding)
    requires |raw| % 2 == 0
    ensures Paired(raw + [0, 0], coding) == Paired(raw, coding) + [0]
  {
  }

  method PackStringLoop(text: seq<byte>, coding: Coding) returns (words: seq<word>)
    ensures words == PackString(text, coding)
  {
    var raw := text + [0];
    if |raw| % 2 != 0 {
      raw := raw + [0];
    }
    words := [];
    var index := 0;
    while index < |raw|
      invariant index % 2 == 0 && index <= |raw|
      invariant words == Paired(raw[..index], coding)
    {
      PairedSnoc(raw, index, coding);
      words := words + [PairOf(raw[index], raw[index + 1], coding)];
      index := index + 2;
    }
    assert raw[..index] == raw;
    if |words| % 2 != 0 {
      words := words + [0];
      PairedConcat(raw, coding);
      raw := raw + [0, 0];
    }
    assert raw == Terminated(text);
  }

  predicate NulFree(text: seq<byte>)
  {
    forall i :: 0 <= i < |text| ==> text[i] != 0
  }

  // Position of the first zero byte, or the length.
  function FirstNul(raw: seq<byte>): (n: nat)
    ensures n <= |raw|
    ensures NulFree(raw[..n])
    ensures n < |raw| ==> raw[n] == 0
  {
    if |raw| == 0 || raw[0] == 0 then 0
    else
      var n := 1 + FirstNul(raw[1..]);
      assert forall i :: 1 <= i < n ==> raw[i] == raw[1..][..n - 1][i - 1];
      n
  }

  lemma FirstNulAt(raw: seq<byte>, n: nat)
    requires n < |raw| && raw[n] == 0 && NulFree(raw[..n])
    ensures FirstNul(raw) == n
  {
  }

  function DecodeString(words: seq<word>, coding: Coding): (text: seq<byte>)
  {
    var raw := Unpaired(words, coding);
    raw[..FirstNul(raw)]
  }

  method DecodeStringLoop(words: seq<word>, coding: Coding) returns (text: seq<byte>)
    ensures text == DecodeString(words, coding)
  {
    var raw: seq<byte> := [];
    for i := 0 to |words|
      invariant raw == Unpaired(words[..i], coding)
    {
      var high, low := words[i] / 0x100, words[i] % 0x100;
      if coding.highLow {
        raw := raw + [high, low];
      } else {
        raw := raw + [low, high];
      }
      assert raw == Unpaired(words[..i + 1], coding);
    }
    assert words[..|words|] == words;
    var terminator := 0;
    while terminator < |raw| && raw[terminator] != 0
      invariant terminator <= |raw| && NulFree(raw[..terminator])
    {
      terminator := terminator + 1;
    }
    if terminator < |raw| {
      FirstNulAt(raw, terminator);
    } else {
      NoNul(raw);
    }
    text := raw[..terminator];
  }

  lemma NoNul(raw: seq<byte>)
    requires NulFree(raw[..|raw|])
    ensures FirstNul(raw) == |raw|
  {
    assert raw[..|raw|] == raw;
  }

  lemma UnpacksTo(text: seq<byte>, coding: Coding)
    ensures Unpaired(PackString(text, coding), coding) == Terminated(text)
  {
    UnpairedInverts(Terminated(text), coding);
  }

  lemma FirstNulTerminated(text: seq<byte>)
    ensures FirstNul(Terminated(text)) == |text| <==> NulFree(text)
    ensures Terminated(text)[..|text|] == text
  {
    if NulFree(text) {
      FirstNulAt(Terminated(text), |text|);
    }
  }

  // Decoding gives back exactly the texts without a NUL, in both byte orders.
  lemma DecodeInvertsPack(text: seq<byte>, coding: Coding)
    ensures DecodeString(PackString(text, coding), coding) == text <==> NulFree(text)
    ensures |PackString(text, coding)| == 2 * ((|text| + 1 + 3) / 4)
  {
    UnpacksTo(text, coding);
    FirstNulTerminated(text);
    var n := FirstNul(Terminated(text));
    assert Terminated(text)[..n] == text ==> n == |text|;
  }

  // Where the bytes of a text are: two to a word, the first of them in the upper or the lower half
  // as the byte order says, and zeros behind the text.
  lemma PackedBytes(text: seq<byte>, coding: Coding, k: nat)
    requires k < |PackString(text, coding)|
    ensures var first := if 2 * k < |text| then text[2 * k] as int else 0;
            var second := if 2 * k + 1 < |text| then text[2 * k + 1] as int else 0;
            PackString(text, coding)[k] == if coding.highLow then 0x100 * first + second else 0x100 * second + first
  {
  }

  // ---------- reading ----------

  function ReadInt(words: seq<word>): (read: Option<(int, seq<word>)>)
  {
    if |words| < 2 then None else Some((DwordOf(words[0], words[1]), words[2..]))
  }

  // A NUL-terminated string at the front, and the words behind its last double word.
  function ReadString(words: seq<word>, coding: Coding): (read: Option<(seq<byte>, seq<word>)>)
    ensures read.Some? ==> NulFree(read.value.0) && |read.value.1| < |words|
  {
    var raw := Unpaired(words, coding);
    var n := FirstNul(raw);
    if n == |raw| || 2 * Quads(n) > |words| then None
    else Some((raw[..n], words[2 * Quads(n)..]))
  }

  lemma ReadIntInverts(value: int, rest: seq<word>)
    ensures ReadInt(DwordToWords(value) + rest) == Some((Wrap32(value), rest))
  {
    DwordRoundTrip(value);
    assert (DwordToWords(value) + rest)[2..] == rest;
  }

  lemma UnpairedFront(words: seq<word>, rest: seq<word>, coding: Coding)
    ensures Unpaired(words + rest, coding)[..2 * |words|] == Unpaired(words, coding)
  {
    forall i | 0 <= i < 2 * |words| ensures ByteOf(words + rest, coding, i) == ByteOf(words, coding, i) {
      assert (words + rest)[i / 2] == words[i / 2];
    }
  }

  // The end of a string is found in its own bytes, whatever follows them.
  lemma FirstNulInFront(raw: seq<byte>, text: seq<byte>, m: nat)
    requires |text| < m <= |raw| && raw[..m] == Terminated(text) && NulFree(text)
    ensures FirstNul(raw) == |text| && raw[..|text|] == text
  {
    assert raw[..|text|] == raw[..m][..|text|] == text;
    assert raw[|text|] == raw[..m][|text|];
    FirstNulAt(raw, |text|);
  }

  lemma ReadStringInverts(text: seq<byte>, coding: Coding, rest: seq<word>)
    requires NulFree(text)
    ensures ReadString(PackString(text, coding) + rest, coding) == Some((text, rest))
  {
    var packed := PackString(text, coding);
    UnpacksTo(text, coding);
    UnpairedFront(packed, rest, coding);
    FirstNulInFront(Unpaired(packed + rest, coding), text, 2 * |packed|);
    assert (packed + rest)[|packed|..] == rest;
  }

  // ---------- lists of parameters ----------

  datatype Field = IntField(value: int) | TextField(text: seq<byte>)

  function PackField(field: Field, coding: Coding): (words: seq<word>)
  {
    match field
    case IntField(value) => DwordToWords(value)
    case TextField(text) => PackString(text, coding)
  }

  function PackFields(fields: seq<Field>, coding: Coding): (words: seq<word>)
  {
    if |fields| == 0 then [] else PackField(fields[0], coding) + PackFields(fields[1..], coding)
  }

  // What an area can tell of a field: an integer only modulo 2^32.
  function Stored(field: Field): (stored: Field)
  {
    if field.IntField? then IntField(Wrap32(field.value)) else field
  }

  function StoredAll(fields: seq<Field>): (stored: seq<Field>)
    ensures |stored| == |fields|
  {
    seq(|fields|, i requires 0 <= i < |fields| => Stored(fields[i]))
  }

  predicate Readable(fields: seq<Field>)
  {
    forall i :: 0 <= i < |fields| && fields[i].TextField? ==> NulFree(fields[i].text)
  }

  function Shape(fields: seq<Field>): (shape: seq<bool>)
    ensures |shape| == |fields|
  {
    seq(|fields|, i requires 0 <= i < |fields| => fields[i].TextField?)
  }

  // Reads fields of known kinds (true for a text).
  function ReadFields(words: seq<word>, shape: seq<bool>, coding: Coding): (read: Option<(seq<Field>, seq<word>)>)
    decreases |shape|
  {
    if |shape| == 0 then Some(([], words))
    else if shape[0] then
      var text := ReadString(words, coding);
      if text.None? then None
      else
        var later := ReadFields(text.value.1, shape[1..], coding);
        if later.None? then None else Some(([TextField(text.value.0)] + later.value.0, later.value.1))
    else
      var number := ReadInt(words);
      if number.None? then None
      else
        var later := ReadFields(number.value.1, shape[1..], coding);
        if later.None? then None else Some(([IntField(number.value.0)] + later.value.0, later.value.1))
  }

  // One field off the front, then the rest.
  lemma ReadFirst(field: Field, later: seq<word>, shape: seq<bool>, coding: Coding, read: seq<Field>, rest: seq<word>)
    requires field.TextField? ==> NulFree(field.text)
    requires ReadFields(later, shape, coding) == Some((read, rest))
    ensures ReadFields(PackField(field, coding) + later, [field.TextField?] + shape, coding)
        == Some(([Stored(field)] + read, rest))
  {
    assert ([field.TextField?] + shape)[1..] == shape;
    match field
    case IntField(value) => ReadIntInverts(value, later);
    case TextField(text) => ReadStringInverts(text, coding, later);
  }

  lemma FieldsFront(fields: seq<Field>)
    requires |fields| > 0
    ensures Shape(fields) == [fields[0].TextField?] + Shape(fields[1..])
    ensures StoredAll(fields) == [Stored(fields[0])] + StoredAll(fields[1..])
  {
  }

  lemma PackFieldsFront(fields: seq<Field>, coding: Coding, rest: seq<word>)
    requires |fields| > 0
    ensures PackFields(fields, coding) + rest == PackField(fields[0], coding) + (PackFields(fields[1..], coding) + rest)
  {
    Associative(PackField(fields[0], coding), PackFields(fields[1..], coding), rest);
  }

  lemma Associative<T>(a: seq<T>, b: seq<T>, c: seq<T>)
    ensures (a + b) + c == a + (b + c)
  {
  }

  // Whatever follows, the fields come back: integers as stored, texts in full.
  lemma {:induction false} ReadFieldsInverts(fields: seq<Field>, coding: Coding, rest: seq<word>)
    requires Readable(fields)
    ensures ReadFields(PackFields(fields, coding) + rest, Shape(fields), coding) == Some((StoredAll(fields), rest))
  {
    if |fields| == 0 {
      assert [] + rest == rest;
    } else {
      FieldsFront(fields);
      PackFieldsFront(fields, coding, rest);
      ReadFieldsInverts(fields[1..], coding, rest);
      ReadFirst(fields[0], PackFields(fields[1..], coding) + rest, Shape(fields[1..]), coding, StoredAll(fields[1..]),
          rest);
    }
  }

  lemma {:induction false} PackFieldsConcat(a: seq<Field>, b: seq<Field>, coding: Coding)
    ensures PackFields(a + b, coding) == PackFields(a, coding) + PackFields(b, coding)
  {
    if |a| == 0 {
      assert a + b == b;
    } else {
      assert (a + b)[1..] == a[1..] + b;
      PackFieldsConcat(a[1..], b, coding);
    }
  }
}
