/**
 Readers of the command area. What they recover shows what a command area determines, and that
 two different commands of one code never have the same area.
 */
module CommandReading {
  import opened Bytes
  import opened Packing
  import opened Commands

  // ---------- whole areas ----------

  // A successful build fills the area exactly, with trigger 0 and the code in front.
  lemma BuiltArea(code: int, payload: Payload, coding: Coding, areaSize: nat)
    requires BuildCommandWords(code, payload, coding, areaSize).Some?
    ensures var words := BuildCommandWords(code, payload, coding, areaSize).value;
            && |words| == areaSize && areaSize >= 4
            && DwordOf(words[0], words[1]) == 0 && words[0] == 0 && words[1] == 0
            && DwordOf(words[2], words[3]) == Wrap32(code)
            && words[4..] == PackPayload(code, payload, coding).value
                             + Zeros(areaSize - 4 - |PackPayload(code, payload, coding).value|)
  {
    var packed := PackPayload(code, payload, coding).value;
    var words := BuildCommandWords(code, payload, coding, areaSize).value;
    DwordRoundTrip(code);
    assert words[4..] == packed + Zeros(areaSize - 4 - |packed|);
  }

  // ---------- OCV ----------

  function ReadPairs(words: seq<word>, coding: Coding): (read: Option<(seq<Pair>, seq<word>)>)
    decreases |words|
  {
    var position := ReadInt(words);
    if position.None? then None
    else if position.value.0 == 0 then Some(([], position.value.1))
    else
      var chars := ReadString(position.value.1, coding);
      if chars.None? then None
      else
        var later := ReadPairs(chars.value.1, coding);
        if later.None? then None
        else Some(([Pair(position.value.0, chars.value.0)] + later.value.0, later.value.1))
  }

  function BlockShape(replace: bool): (shape: seq<bool>)
  {
    if replace then [false, false] else [false, false, false, true]
  }

  // Fields that a code does not transmit are read as 0 and empty.
  function ReadBlock(words: seq<word>, replace: bool, coding: Coding): (read: Option<(OcvBlock, seq<word>)>)
  {
    var fields := ReadFields(words, BlockShape(replace), coding);
    if fields.None? || |fields.value.0| < 2 || !fields.value.0[0].IntField? || !fields.value.0[1].IntField? then None
    else
      var pairs := ReadPairs(fields.value.1, coding);
      var f := fields.value.0;
      if pairs.None? then None
      else if replace then Some((OcvBlock(f[0].value, f[1].value, 0, [], [], pairs.value.0), pairs.value.1))
      else if |f| == 4 && f[2].IntField? && f[3].TextField?
        then Some((OcvBlock(f[0].value, f[1].value, f[2].value, f[3].text, pairs.value.0, []), pairs.value.1))
      else None
  }

  function ReadBlocks(words: seq<word>, n: nat, replace: bool, coding: Coding): (blocks: Option<seq<OcvBlock>>)
    decreases n
  {
    if n == 0 then Some([])
    else
      var first := ReadBlock(words, replace, coding);
      if first.None? then None
      else
        var later := ReadBlocks(first.value.1, n - 1, replace, coding);
        if later.None? then None else Some([first.value.0] + later.value)
  }

  function ReadInts(words: seq<word>, n: nat): (read: Option<(seq<int>, seq<word>)>)
    ensures read.Some? ==> |read.value.0| == n
    decreases n
  {
    if n == 0 then Some(([], words))
    else
      var first := ReadInt(words);
      if first.None? then None
      else
        var later := ReadInts(first.value.1, n - 1);
        if later.None? then None else Some(([first.value.0] + later.value.0, later.value.1))
  }

  // The arguments of an OCV command from the words behind its code.
  function ReadOcv(code: int, words: seq<word>, coding: Coding): (arguments: Option<OcvArguments>)
  {
    var task := code in OCV_TASK;
    var header := ReadInts(words, if task then 6 else 4);
    if header.None? then None
    else
      var h := if task then header.value.0[2..] else header.value.0;
      if h[3] < 0 then None
      else
        var blocks := ReadBlocks(header.value.1, h[3], code in OCV_REPLACE, coding);
        if blocks.None? then None
        else Some(OcvArguments(if task then header.value.0[0] else 0, if task then header.value.0[1] else 0,
                               h[0], h[1], h[2], blocks.value))
  }

  // ---------- what a command determines ----------

  function StoredPairs(pairs: seq<Pair>): (stored: seq<Pair>)
    ensures |stored| == |pairs|
  {
    seq(|pairs|, i requires 0 <= i < |pairs| => Pair(Wrap32(pairs[i].position), pairs[i].chars))
  }

  function StoredBlock(b: OcvBlock, replace: bool): (stored: OcvBlock)
  {
    if replace then OcvBlock(Wrap32(b.number), Wrap32(b.enabled), 0, [], [], StoredPairs(b.replacements))
    else OcvBlock(Wrap32(b.number), Wrap32(b.enabled), Wrap32(b.font), b.text, StoredPairs(b.additions), [])
  }

  function StoredBlocks(blocks: seq<OcvBlock>, replace: bool): (stored: seq<OcvBlock>)
    ensures |stored| == |blocks|
  {
    seq(|blocks|, i requires 0 <= i < |blocks| => StoredBlock(blocks[i], replace))
  }

  // The transmitted part of the arguments: integers modulo 2^32, and only what the code sends.
  function StoredOcv(code: int, a: OcvArguments): (stored: OcvArguments)
  {
    OcvArguments(if code in OCV_TASK then Wrap32(a.group) else 0, if code in OCV_TASK then Wrap32(a.task) else 0,
                 Wrap32(a.camera), Wrap32(a.line), if code in OCV_MULTI then Wrap32(a.multi) else 0,
                 StoredBlocks(a.blocks, code in OCV_REPLACE))
  }

  predicate PairsPlain(pairs: seq<Pair>)
  {
    forall i :: 0 <= i < |pairs| ==> Wrap32(pairs[i].position) != 0 && NulFree(pairs[i].chars)
  }

  predicate BlockPlain(b: OcvBlock, replace: bool)
  {
    PairsPlain(BlockPairs(b, replace)) && (!replace ==> NulFree(b.text))
  }

  // No transmitted position is 0 in the area and no transmitted text contains a NUL.
  predicate Plain(code: int, a: OcvArguments)
  {
    forall i :: 0 <= i < |a.blocks| ==> BlockPlain(a.blocks[i], code in OCV_REPLACE)
  }

  // One pair in front of others.
  lemma ReadOnePair(pair: Pair, coding: Coding, later: seq<word>)
    requires Wrap32(pair.position) != 0 && NulFree(pair.chars)
    ensures var rest := ReadPairs(later, coding);
            ReadPairs(PackPair(pair, coding) + later, coding)
            == if rest.None? then None
               else Some(([Pair(Wrap32(pair.position), pair.chars)] + rest.value.0, rest.value.1))
  {
    var behind := PackString(pair.chars, coding) + later;
    assert PackPair(pair, coding) + later == DwordToWords(pair.position) + behind;
    ReadIntInverts(pair.position, behind);
    ReadStringInverts(pair.chars, coding, later);
  }

  lemma {:induction false} ReadPairsInverts(pairs: seq<Pair>, coding: Coding, rest: seq<word>)
    requires PairsPlain(pairs)
    ensures ReadPairs(PackPairs(pairs, coding) + rest, coding) == Some((StoredPairs(pairs), rest))
    decreases |pairs|
  {
    if |pairs| == 0 {
      ReadIntInverts(0, rest);
    } else {
      PairsFront(pairs, coding, rest);
      ReadPairsInverts(pairs[1..], coding, rest);
      ReadOnePair(pairs[0], coding, PackPairs(pairs[1..], coding) + rest);
    }
  }

  lemma PairsFront(pairs: seq<Pair>, coding: Coding, rest: seq<word>)
    requires |pairs| > 0
    ensures PackPairs(pairs, coding) + rest == PackPair(pairs[0], coding) + (PackPairs(pairs[1..], coding) + rest)
    ensures StoredPairs(pairs) == [Pair(Wrap32(pairs[0].position), pairs[0].chars)] + StoredPairs(pairs[1..])
  {
    Associative(PackPair(pairs[0], coding), PackPairs(pairs[1..], coding), rest);
  }

  lemma ReadBlockInverts(b: OcvBlock, replace: bool, coding: Coding, rest: seq<word>)
    requires BlockPlain(b, replace)
    ensures ReadBlock(PackBlock(b, replace, coding) + rest, replace, coding) == Some((StoredBlock(b, replace), rest))
  {
    var fields, pairs := BlockFields(b, replace), PackPairs(BlockPairs(b, replace), coding);
    Associative(PackFields(fields, coding), pairs, rest);
    assert Shape(fields) == BlockShape(replace);
    ReadFieldsInverts(fields, coding, pairs + rest);
    ReadPairsInverts(BlockPairs(b, replace), coding, rest);
  }

  lemma BlocksFront(blocks: seq<OcvBlock>, replace: bool, coding: Coding, rest: seq<word>)
    requires |blocks| > 0
    ensures PackBlocks(blocks, replace, coding) + rest
         == PackBlock(blocks[0], replace, coding) + (PackBlocks(blocks[1..], replace, coding) + rest)
  {
    Associative(PackBlock(blocks[0], replace, coding), PackBlocks(blocks[1..], replace, coding), rest);
  }

  lemma StoredBlocksFront(blocks: seq<OcvBlock>, replace: bool)
    requires |blocks| > 0
    ensures StoredBlocks(blocks, replace) == [StoredBlock(blocks[0], replace)] + StoredBlocks(blocks[1..], replace)
  {
  }

  // One block in front of others.
  lemma ReadOneBlock(b: OcvBlock, n: nat, replace: bool, coding: Coding, later: seq<word>)
    requires BlockPlain(b, replace)
    ensures var rest := ReadBlocks(later, n, replace, coding);
            ReadBlocks(PackBlock(b, replace, coding) + later, n + 1, replace, coding)
            == if rest.None? then None else Some([StoredBlock(b, replace)] + rest.value)
  {
    ReadBlockInverts(b, replace, coding, later);
  }

  lemma {:induction false} ReadBlocksInverts(blocks: seq<OcvBlock>, replace: bool, coding: Coding, rest: seq<word>)
    requires forall i :: 0 <= i < |blocks| ==> BlockPlain(blocks[i], replace)
    ensures ReadBlocks(PackBlocks(blocks, replace, coding) + rest, |blocks|, replace, coding)
        == Some(StoredBlocks(blocks, replace))
  {
    if |blocks| > 0 {
      BlocksFront(blocks, replace, coding, rest);
      StoredBlocksFront(blocks, replace);
      ReadBlocksInverts(blocks[1..], replace, coding, rest);
      ReadOneBlock(blocks[0], |blocks| - 1, replace, coding, PackBlocks(blocks[1..], replace, coding) + rest);
    }
  }

  function WrapAll(numbers: seq<int>): (wrapped: seq<int>)
    ensures |wrapped| == |numbers|
  {
    seq(|numbers|, i requires 0 <= i < |numbers| => Wrap32(numbers[i]))
  }

  lemma {:induction false} ReadIntsInverts(numbers: seq<int>, coding: Coding, rest: seq<word>)
    ensures ReadInts(PackFields(Ints(numbers), coding) + rest, |numbers|) == Some((WrapAll(numbers), rest))
  {
    if |numbers| == 0 {
      assert [] + rest == rest;
    } else {
      var later := PackFields(Ints(numbers[1..]), coding) + rest;
      assert Ints(numbers)[1..] == Ints(numbers[1..]);
      assert PackFields(Ints(numbers), coding) + rest == DwordToWords(numbers[0]) + later;
      ReadIntInverts(numbers[0], later);
      ReadIntsInverts(numbers[1..], coding, rest);
      assert WrapAll(numbers) == [Wrap32(numbers[0])] + WrapAll(numbers[1..]);
    }
  }

  lemma SmallNumber(n: int)
    requires 0 <= n < 1000
    ensures Wrap32(n) == n
  {
  }

  lemma PlainOcvReadBack(code: int, a: OcvArguments, coding: Coding, rest: seq<word>)
    requires PackOcv(code, a, coding).Some? && Plain(code, a)
    ensures ReadOcv(code, PackOcv(code, a, coding).value + rest, coding) == Some(StoredOcv(code, a))
  {
    var header, replace := OcvHeader(code, a), code in OCV_REPLACE;
    var blocks := PackBlocks(a.blocks, replace, coding);
    Associative(PackFields(Ints(header), coding), blocks, rest);
    ReadIntsInverts(header, coding, blocks + rest);
    SmallNumber(|a.blocks|);
    HeaderStored(code, a);
    ReadBlocksInverts(a.blocks, replace, coding, rest);
  }

  lemma HeaderStored(code: int, a: OcvArguments)
    requires 0 <= |a.blocks| <= 20
    ensures var w, s := WrapAll(OcvHeader(code, a)), StoredOcv(code, a);
            && |w| == (if code in OCV_TASK then 6 else 4)
            && (var h := if code in OCV_TASK then w[2..] else w;
                h == [s.camera, s.line, s.multi, |a.blocks|])
            && (code in OCV_TASK ==> w[0] == s.group && w[1] == s.task)
  {
    SmallNumber(|a.blocks|);
    SmallNumber(0);
  }

  // What the reader yields never has a position 0 or a text with a NUL.
  lemma {:induction false} ReadPairsPlain(words: seq<word>, coding: Coding)
    requires ReadPairs(words, coding).Some?
    ensures forall i :: 0 <= i < |ReadPairs(words, coding).value.0| ==>
              ReadPairs(words, coding).value.0[i].position != 0 && NulFree(ReadPairs(words, coding).value.0[i].chars)
    decreases |words|
  {
    var position := ReadInt(words);
    if position.value.0 != 0 {
      ReadPairsPlain(ReadString(position.value.1, coding).value.1, coding);
    }
  }

  ghost predicate ReadPlain(b: OcvBlock, replace: bool)
  {
    && (forall i :: 0 <= i < |BlockPairs(b, replace)| ==>
          BlockPairs(b, replace)[i].position != 0 && NulFree(BlockPairs(b, replace)[i].chars))
    && (!replace ==> NulFree(b.text))
  }

  lemma {:induction false} ReadFieldsPlain(words: seq<word>, shape: seq<bool>, coding: Coding)
    requires ReadFields(words, shape, coding).Some?
    ensures Readable(ReadFields(words, shape, coding).value.0)
    decreases |shape|
  {
    if |shape| > 0 {
      if shape[0] {
        ReadFieldsPlain(ReadString(words, coding).value.1, shape[1..], coding);
      } else {
        ReadFieldsPlain(ReadInt(words).value.1, shape[1..], coding);
      }
    }
  }

  lemma ReadBlockPlain(words: seq<word>, replace: bool, coding: Coding)
    requires ReadBlock(words, replace, coding).Some?
    ensures ReadPlain(ReadBlock(words, replace, coding).value.0, replace)
  {
    var fields := ReadFields(words, BlockShape(replace), coding);
    ReadFieldsPlain(words, BlockShape(replace), coding);
    ReadPairsPlain(fields.value.1, coding);
  }

  lemma {:induction false} ReadBlocksPlain(words: seq<word>, n: nat, replace: bool, coding: Coding)
    requires ReadBlocks(words, n, replace, coding).Some?
    ensures forall i :: 0 <= i < |ReadBlocks(words, n, replace, coding).value| ==>
              ReadPlain(ReadBlocks(words, n, replace, coding).value[i], replace)
    decreases n
  {
    if n > 0 {
      ReadBlockPlain(words, replace, coding);
      ReadBlocksPlain(ReadBlock(words, replace, coding).value.1, n - 1, replace, coding);
    }
  }

  lemma StoredPlain(code: int, a: OcvArguments)
    requires forall i :: 0 <= i < |a.blocks| ==> ReadPlain(StoredOcv(code, a).blocks[i], code in OCV_REPLACE)
    ensures Plain(code, a)
  {
    var replace := code in OCV_REPLACE;
    forall i | 0 <= i < |a.blocks| ensures BlockPlain(a.blocks[i], replace) {
      var stored := StoredOcv(code, a).blocks[i];
      assert stored == StoredBlock(a.blocks[i], replace);
      assert BlockPairs(stored, replace) == StoredPairs(BlockPairs(a.blocks[i], replace));
      forall j | 0 <= j < |BlockPairs(a.blocks[i], replace)|
        ensures Wrap32(BlockPairs(a.blocks[i], replace)[j].position) != 0
            && NulFree(BlockPairs(a.blocks[i], replace)[j].chars)
      {
        assert BlockPairs(stored, replace)[j].position != 0;
      }
    }
  }

  // An OCV command is read back from its area, whatever pads it, if and only if no position is 0
  // and no text contains a NUL.
  lemma OcvReadBack(code: int, a: OcvArguments, coding: Coding, rest: seq<word>)
    requires PackOcv(code, a, coding).Some?
    ensures ReadOcv(code, PackOcv(code, a, coding).value + rest, coding) == Some(StoredOcv(code, a)) <==> Plain(code, a)
  {
    if Plain(code, a) {
      PlainOcvReadBack(code, a, coding, rest);
    }
    var words := PackOcv(code, a, coding).value + rest;
    var read := ReadOcv(code, words, coding);
    if read == Some(StoredOcv(code, a)) {
      var header := ReadInts(words, if code in OCV_TASK then 6 else 4).value;
      var n := (if code in OCV_TASK then header.0[2..] else header.0)[3];
      ReadBlocksPlain(header.1, n, code in OCV_REPLACE, coding);
      StoredPlain(code, a);
    }
  }

  // Injectivity: two plain OCV commands of one code with the same area, in areas of any size,
  // transmit the same arguments, block by block.
  lemma OcvInjective(code: int, a: OcvInput, b: OcvInput, coding: Coding, sizeA: nat, sizeB: nat)
    requires BuildCommandWords(code, Ocv(a), coding, sizeA).Some?
    requires BuildCommandWords(code, Ocv(a), coding, sizeA) == BuildCommandWords(code, Ocv(b), coding, sizeB)
    requires Plain(code, OcvOf(code, a).value) && Plain(code, OcvOf(code, b).value)
    ensures StoredOcv(code, OcvOf(code, a).value) == StoredOcv(code, OcvOf(code, b).value)
  {
    BuiltOcvRead(code, a, coding, sizeA);
    BuiltOcvRead(code, b, coding, sizeB);
  }

  lemma BuiltOcvRead(code: int, input: OcvInput, coding: Coding, areaSize: nat)
    requires BuildCommandWords(code, Ocv(input), coding, areaSize).Some? && Plain(code, OcvOf(code, input).value)
    ensures OcvOf(code, input).Some? && areaSize >= 4
    ensures ReadOcv(code, BuildCommandWords(code, Ocv(input), coding, areaSize).value[4..], coding)
         == Some(StoredOcv(code, OcvOf(code, input).value))
  {
    BuiltArea(code, Ocv(input), coding, areaSize);
    var arguments := OcvOf(code, input).value;
    PlainOcvReadBack(code, arguments, coding, Zeros(areaSize - 4 - |PackOcv(code, arguments, coding).value|));
  }

  // With a position 0 it fails, for every command that adds characters and has a further block
  // and four words of room: a last pair (0, "") disappears in the padding.
  lemma ZeroPositionCollides(input: OcvInput, last: OcvBlock, coding: Coding, code: int, areaSize: nat)
    requires code !in OCV_REPLACE && last.additions == [] && coding.length([]) == 0
    requires var one := input.(additional := input.additional + [last]);
             && OcvOf(code, one).Some? && PackOcv(code, OcvOf(code, one).value, coding).Some?
             && |PackOcv(code, OcvOf(code, one).value, coding).value| + 8 <= areaSize
    ensures var one := input.(additional := input.additional + [last]);
            var two := input.(additional := input.additional + [last.(additions := [Pair(0, [])])]);
            && BuildCommandWords(code, Ocv(one), coding, areaSize).Some?
            && BuildCommandWords(code, Ocv(one), coding, areaSize)
                == BuildCommandWords(code, Ocv(two), coding, areaSize)
  {
    var longer := last.(additions := [Pair(0, [])]);
    var one, two := input.(additional := input.additional + [last]), input.(additional := input.additional + [longer]);
    var a, b := OcvOf(code, one).value, OcvOf(code, two).value;
    var blocks := [a.blocks[0]] + input.additional;
    assert a.blocks == blocks + [last] && b.blocks == blocks + [longer];
    LongerByZeros(code, a, blocks, last, coding);
    assert b == a.(blocks := blocks + [longer]);
    PaddedAlike(PackOcv(code, a, coding).value, areaSize - 4, DwordToWords(0) + DwordToWords(code));
  }

  lemma LongerByZeros(code: int, a: OcvArguments, blocks: seq<OcvBlock>, last: OcvBlock, coding: Coding)
    requires code !in OCV_REPLACE && last.additions == [] && coding.length([]) == 0
    requires a.blocks == blocks + [last] && PackOcv(code, a, coding).Some?
    ensures var b := a.(blocks := blocks + [last.(additions := [Pair(0, [])])]);
            PackOcv(code, b, coding) == Some(PackOcv(code, a, coding).value + Zeros(4))
  {
    var b := a.(blocks := blocks + [last.(additions := [Pair(0, [])])]);
    LastBlockEnds(blocks, last, coding);
    StillFits(blocks, last, coding);
    assert OcvHeader(code, a) == OcvHeader(code, b);
    Associative(PackFields(Ints(OcvHeader(code, a)), coding), PackBlocks(a.blocks, false, coding), Zeros(4));
  }

  lemma PaddedAlike(first: seq<word>, size: nat, header: seq<word>)
    requires |first| + 4 <= size
    ensures header + (first + Zeros(4)) + Zeros(size - |first + Zeros(4)|) == header + first + Zeros(size - |first|)
  {
    assert Zeros(4) + Zeros(size - |first| - 4) == Zeros(size - |first|);
  }

  lemma StillFits(blocks: seq<OcvBlock>, last: OcvBlock, coding: Coding)
    requires coding.length([]) == 0
    requires forall i :: 0 <= i < |blocks + [last]| ==> BlockFits((blocks + [last])[i], false, coding)
    ensures var more := blocks + [last.(additions := [Pair(0, [])])];
            forall i :: 0 <= i < |more| ==> BlockFits(more[i], false, coding)
  {
    var more := blocks + [last.(additions := [Pair(0, [])])];
    forall i | 0 <= i < |more| ensures BlockFits(more[i], false, coding) {
      assert BlockFits((blocks + [last])[i], false, coding);
    }
  }

  // An empty pair at position 0 in the last block adds four zeros behind everything else.
  lemma {:induction false} LastBlockEnds(blocks: seq<OcvBlock>, last: OcvBlock, coding: Coding)
    requires last.additions == []
    ensures PackBlocks(blocks + [last.(additions := [Pair(0, [])])], false, coding)
         == PackBlocks(blocks + [last], false, coding) + Zeros(4)
  {
    var longer := last.(additions := [Pair(0, [])]);
    if |blocks| == 0 {
      assert [] + [last] == [last] && [] + [longer] == [longer];
      OneBlock(last, coding);
      OneBlock(longer, coding);
      EmptyPair(coding);
      Associative(PackFields(BlockFields(last, false), coding), PackPairs([], coding), Zeros(4));
    } else {
      LastBlockEnds(blocks[1..], last, coding);
      assert (blocks + [last])[1..] == blocks[1..] + [last] && (blocks + [longer])[1..] == blocks[1..] + [longer];
      Associative(PackBlock(blocks[0], false, coding), PackBlocks(blocks[1..] + [last], false, coding), Zeros(4));
    }
  }

  // What a user may enter: camera 1, line 1, block 1 with the text "A", and the additional block
  // ",BL2" or ",BL2,FM0".
  function Entered(additions: seq<Pair>): (input: OcvInput)
  {
    var first := FirstBlock(Given(1), Blank, Blank, ['A' as int], Blank, [], Blank, []);
    OcvInput(Blank, Blank, Given(1), Given(1), Blank, first, [OcvBlock(2, 1, 0, [], additions, [])])
  }

  lemma TwoEntriesCollide(coding: Coding)
    requires forall text :: coding.length(text) <= |text|
    ensures Entered([]) != Entered([Pair(0, [])])
    ensures BuildCommandWords(34000, Ocv(Entered([])), coding, 64).Some?
    ensures BuildCommandWords(34000, Ocv(Entered([])), coding, 64)
        == BuildCommandWords(34000, Ocv(Entered([Pair(0, [])])), coding, 64)
  {
    var input, last := Entered([]).(additional := []), Entered([]).additional[0];
    EnteredTwice();
    EnteredFits(coding);
    ZeroPositionCollides(input, last, coding, 34000, 64);
  }

  lemma EnteredTwice()
    ensures Entered([]) != Entered([Pair(0, [])])
    ensures var input, last := Entered([]).(additional := []), Entered([]).additional[0];
            && input.(additional := input.additional + [last]) == Entered([])
            && input.(additional := input.additional + [last.(additions := [Pair(0, [])])]) == Entered([Pair(0, [])])
  {
    var input, last := Entered([]).(additional := []), Entered([]).additional[0];
    var longer := last.(additions := [Pair(0, [])]);
    assert input.additional + [last] == [last] && input.additional + [longer] == [longer];
    assert Entered([Pair(0, [])]).additional[0].additions == [Pair(0, [])] && last.additions == [];
  }

  lemma EnteredFits(coding: Coding)
    requires forall text :: coding.length(text) <= |text|
    ensures OcvOf(34000, Entered([])).Some?
    ensures var packed := PackOcv(34000, OcvOf(34000, Entered([])).value, coding); packed.Some? && |packed.value| == 28
  {
    var a := OcvOf(34000, Entered([])).value;
    assert a.blocks == [OcvBlock(1, 1, 0, ['A' as int], [], []), OcvBlock(2, 1, 0, [], [], [])];
    TwoBlocksPacked(34000, a, coding);
  }

  lemma TwoBlocksPacked(code: int, a: OcvArguments, coding: Coding)
    requires forall text :: coding.length(text) <= |text|
    requires code == 34000 && |a.blocks| == 2 && a.blocks[0].additions == [] && a.blocks[1].additions == []
    requires |a.blocks[0].text| <= 1 && |a.blocks[1].text| <= 1
    ensures var packed := PackOcv(code, a, coding); packed.Some? && |packed.value| == 28
  {
    assert BlockFits(a.blocks[0], false, coding) && BlockFits(a.blocks[1], false, coding);
    IntsLength(OcvHeader(code, a), coding);
    TwoBlocksLength(a.blocks, coding);
  }

  lemma {:induction false} IntsLength(numbers: seq<int>, coding: Coding)
    ensures |PackFields(Ints(numbers), coding)| == 2 * |numbers|
  {
    if |numbers| > 0 {
      assert Ints(numbers)[1..] == Ints(numbers[1..]);
      IntsLength(numbers[1..], coding);
    }
  }

  lemma TwoBlocksLength(blocks: seq<OcvBlock>, coding: Coding)
    requires |blocks| == 2 && blocks[0].additions == [] && blocks[1].additions == []
    requires |blocks[0].text| <= 1 && |blocks[1].text| <= 1
    ensures |PackBlocks(blocks, false, coding)| == 20
  {
    BlockLength(blocks[0], coding);
    BlockLength(blocks[1], coding);
    assert blocks[1..] == [blocks[1]] && [blocks[1]][1..] == [];
    assert PackBlocks([blocks[1]], false, coding) == PackBlock(blocks[1], false, coding) + [];
  }

  lemma BlockLength(block: OcvBlock, coding: Coding)
    requires block.additions == [] && |block.text| <= 1
    ensures |PackBlock(block, false, coding)| == 10
  {
    var ints, text := [IntField(block.number), IntField(block.enabled), IntField(block.font)], TextField(block.text);
    assert BlockFields(block, false) == ints + [text];
    PackFieldsConcat(ints, [text], coding);
    IntsLength([block.number, block.enabled, block.font], coding);
    assert Ints([block.number, block.enabled, block.font]) == ints;
    assert PackFields([text], coding) == PackString(block.text, coding) + [];
  }

  lemma OneBlock(block: OcvBlock, coding: Coding)
    ensures PackBlocks([block], false, coding)
         == PackFields(BlockFields(block, false), coding) + PackPairs(block.additions, coding)
  {
    assert [block][1..] == [];
    assert PackBlock(block, false, coding) + [] == PackBlock(block, false, coding);
  }

  lemma EmptyPair(coding: Coding)
    ensures PackPairs([Pair(0, [])], coding) == PackPairs([], coding) + Zeros(4)
  {
    assert [Pair(0, [])][1..] == [];
    assert Terminated([]) == Zeros(4);
    assert PackString([], coding) == Zeros(2);
    assert DwordToWords(0) == Zeros(2);
    assert Zeros(2) + Zeros(2) + Zeros(2) == Zeros(2) + Zeros(4);
  }

  // ---------- export and import ----------

  // What a transfer's words tell: its kind and variant, the integers of that kind, the path.
  datatype Told = Told(kind: int, numeric: bool, numbers: seq<int>, path: seq<byte>)

  function ReadTransfer(words: seq<word>, keyCount: (int, bool) -> nat, coding: Coding): (told: Option<Told>)
  {
    var kind := ReadInt(words);
    if kind.None? then None
    else
      var numeric := kind.value.0 >= 100;
      var plain := if numeric then kind.value.0 - 100 else kind.value.0;
      var numbers := ReadInts(kind.value.1, keyCount(plain, numeric));
      if numbers.None? then None
      else
        var path := ReadString(numbers.value.1, coding);
        if path.None? then None else Some(Told(plain, numeric, numbers.value.0, path.value.0))
  }

  function ImportCount(kind: int, numeric: bool): (n: nat)
  {
    if kind in IMPORT_FIELDS then |ImportKeys(kind, numeric)| else 0
  }

  function ExportCount(kind: int, numeric: bool): (n: nat)
  {
    if kind in EXPORT_FIELDS then |ExportKeys(kind)| else 0
  }

  lemma TransferReadBack(kind: int, numeric: bool, numbers: seq<int>, path: seq<byte>, keyCount: (int, bool) -> nat,
                         coding: Coding, rest: seq<word>)
    requires 0 <= kind < 100 && |numbers| == keyCount(kind, numeric) && NulFree(path)
    ensures var fields := Ints([if numeric then kind + 100 else kind] + numbers) + [TextField(path)];
            ReadTransfer(PackFields(fields, coding) + rest, keyCount, coding)
            == Some(Told(kind, numeric, WrapAll(numbers), path))
  {
    var word := if numeric then kind + 100 else kind;
    var text := PackString(path, coding);
    var behind := PackFields(Ints(numbers), coding) + (text + rest);
    TransferWords(word, numbers, path, coding, rest);
    ReadIntInverts(word, behind);
    ReadIntsInverts(numbers, coding, text + rest);
    ReadStringInverts(path, coding, rest);
    SmallNumber(word);
    Assemble(DwordToWords(word) + behind, word, behind, WrapAll(numbers), text + rest, path, keyCount, coding);
  }

  lemma Assemble(words: seq<word>, word: int, behind: seq<word>, numbers: seq<int>, last: seq<word>, path: seq<byte>,
                 keyCount: (int, bool) -> nat, coding: Coding)
    requires ReadInt(words) == Some((word, behind))
    requires var numeric := word >= 100;
             ReadInts(behind, keyCount(if numeric then word - 100 else word, numeric)) == Some((numbers, last))
    requires ReadString(last, coding).Some? && ReadString(last, coding).value.0 == path
    ensures ReadTransfer(words, keyCount, coding)
         == Some(Told(if word >= 100 then word - 100 else word, word >= 100, numbers, path))
  {
  }

  lemma TransferWords(word: int, numbers: seq<int>, path: seq<byte>, coding: Coding, rest: seq<word>)
    ensures PackFields(Ints([word] + numbers) + [TextField(path)], coding) + rest
         == DwordToWords(word) + (PackFields(Ints(numbers), coding) + (PackString(path, coding) + rest))
  {
    var all := Ints([word] + numbers) + [TextField(path)];
    assert all[0] == IntField(word) && all[1..] == Ints(numbers) + [TextField(path)];
    PackFieldsConcat(Ints(numbers), [TextField(path)], coding);
    assert PackFields([TextField(path)], coding) == PackString(path, coding) + [];
    Regroup(DwordToWords(word), PackFields(Ints(numbers), coding), PackString(path, coding), rest);
  }

  lemma Regroup(a: seq<word>, b: seq<word>, c: seq<word>, d: seq<word>)
    ensures (a + (b + c)) + d == a + (b + (c + d))
  {
  }

  lemma KindsBelowHundred(kind: int)
    ensures kind in IMPORT_FIELDS || kind in EXPORT_FIELDS ==> 0 <= kind < 100
  {
  }

  // The words of an import determine its kind, its numeric variant, every integer that kind
  // sends (modulo 2^32) and the path.
  lemma ImportReadBack(t: Transfer, coding: Coding, rest: seq<word>)
    requires PackImport(t, coding).Some? && NulFree(t.path)
    ensures ReadTransfer(PackImport(t, coding).value + rest, ImportCount, coding)
         == Some(Told(t.kind, UsesNumeric(t), WrapAll(Numbers(t.numbers, ImportKeys(t.kind, UsesNumeric(t)))), t.path))
  {
    KindsBelowHundred(t.kind);
    TransferReadBack(t.kind, UsesNumeric(t), Numbers(t.numbers, ImportKeys(t.kind, UsesNumeric(t))), t.path,
                     ImportCount, coding, rest);
  }

  lemma ExportReadBack(t: Transfer, coding: Coding, rest: seq<word>)
    requires PackExport(t, coding).Some? && NulFree(t.path)
    ensures ReadTransfer(PackExport(t, coding).value + rest, ExportCount, coding)
         == Some(Told(t.kind, false, WrapAll(Numbers(t.numbers, ExportKeys(t.kind))), t.path))
  {
    KindsBelowHundred(t.kind);
    TransferReadBack(t.kind, false, Numbers(t.numbers, ExportKeys(t.kind)), t.path, ExportCount, coding, rest);
  }

  // ---------- standard commands ----------

  // A standard command's parameters come back in catalogue order, by the kinds its specification
  // gives them.
  lemma StandardReadBack(spec: Spec, arguments: map<string, Argument>, coding: Coding, rest: seq<word>)
    requires StandardValues(spec, arguments).Some? && Readable(StandardValues(spec, arguments).value)
    ensures var fields := StandardValues(spec, arguments).value;
            && |fields| == |spec.params|
            && Shape(fields) == TextShape(spec, spec.params)
            && ReadFields(PackFields(fields, coding) + rest, TextShape(spec, spec.params), coding)
            == Some((StoredAll(fields), rest))
  {
    StandardShape(spec, Effective(spec, arguments).value, spec.params);
    ReadFieldsInverts(StandardValues(spec, arguments).value, coding, rest);
  }

  function TextShape(spec: Spec, keys: seq<string>): (shape: seq<bool>)
    ensures |shape| == |keys|
  {
    seq(|keys|, i requires 0 <= i < |keys| => keys[i] in spec.stringParams || keys[i] in spec.blankStrings)
  }

  lemma {:induction false} StandardShape(spec: Spec, arguments: map<string, Argument>, keys: seq<string>)
    requires StandardFields(spec, arguments, keys).Some?
    ensures var fields := StandardFields(spec, arguments, keys).value;
            |fields| == |keys| && Shape(fields) == TextShape(spec, keys)
  {
    if |keys| > 0 {
      var n := |keys| - 1;
      StandardShape(spec, arguments, keys[..n]);
      var front, last := StandardFields(spec, arguments, keys[..n]).value,
          StandardField(spec, arguments, keys[n]).value;
      assert Shape(front + [last]) == Shape(front) + [last.TextField?];
      assert TextShape(spec, keys) == TextShape(spec, keys[..n]) + [TextShape(spec, keys)[n]];
    }
  }
}
