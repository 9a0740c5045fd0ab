/** The packers as they run: appending to one shared word list (backend/plc_link/commands.py). */
module CommandWords {
  import opened Bytes
  import opened Packing
  import opened Commands

  class WordList {
    var words: seq<word>

    constructor ()
      ensures words == []
    {
      words := [];
    }

    method AppendInt(value: int)
      modifies this
      ensures words == old(words) + DwordToWords(value)
    {
      words := words + DwordToWords(value);
    }

    // false stands for the ProtocolError of a text over its limit.
    method AppendStr(text: seq<byte>, coding: Coding, limit: Option<nat>) returns (ok: bool)
      modifies this
      ensures ok == !(limit.Some? && coding.length(text) > limit.value)
      ensures words == old(words) + if ok then PackString(text, coding) else []
    {
      if limit.Some? && coding.length(text) > limit.value {
        return false;
      }
      var packed := PackStringLoop(text, coding);
      words := words + packed;
      return true;
    }

    method AppendInts(numbers: seq<int>, ghost coding: Coding)
      modifies this
      ensures words == old(words) + PackFields(Ints(numbers), coding)
    {
      for i := 0 to |numbers|
        invariant words == old(words) + PackFields(Ints(numbers[..i]), coding)
      {
        NumberSnoc(numbers[..i], numbers[i], coding);
        assert numbers[..i] + [numbers[i]] == numbers[..i + 1];
        Associative(old(words), PackFields(Ints(numbers[..i]), coding), DwordToWords(numbers[i]));
        AppendInt(numbers[i]);
      }
      assert numbers[..|numbers|] == numbers;
    }

    method AppendPair(pair: Pair, limit: nat, coding: Coding) returns (ok: bool)
      modifies this
      ensures ok == (coding.length(pair.chars) <= limit)
      ensures ok ==> words == old(words) + PackPair(pair, coding)
    {
      if coding.length(pair.chars) > limit {
        return false;
      }
      AppendInt(pair.position);
      ok := AppendStr(pair.chars, coding, Some(limit));
      Associative(old(words), DwordToWords(pair.position), PackString(pair.chars, coding));
    }

    method PackPairList(pairs: seq<Pair>, limit: nat, coding: Coding) returns (ok: bool)
      modifies this
      ensures ok == PairsFit(pairs, limit, coding)
      ensures ok ==> words == old(words) + PackPairs(pairs, coding)
    {
      for i := 0 to |pairs|
        invariant forall j :: 0 <= j < i ==> coding.length(pairs[j].chars) <= limit
        invariant words + PackPairs(pairs[i..], coding) == old(words) + PackPairs(pairs, coding)
      {
        assert pairs[i..][1..] == pairs[i + 1..];
        Associative(words, PackPair(pairs[i], coding), PackPairs(pairs[i + 1..], coding));
        ok := AppendPair(pairs[i], limit, coding);
        if !ok {
          return;
        }
      }
      AppendInt(0);
      ok := true;
    }

    method PackOcvBlock(block: OcvBlock, replace: bool, coding: Coding) returns (ok: bool)
      modifies this
      ensures ok == BlockFits(block, replace, coding)
      ensures ok ==> words == old(words) + PackBlock(block, replace, coding)
    {
      ghost var start := words;
      ghost var fields := [IntField(block.number), IntField(block.enabled)];
      AppendInt(block.number);
      AppendInt(block.enabled);
      TwoFields(fields[0], fields[1], coding);
      Associative(start, DwordToWords(block.number), DwordToWords(block.enabled));
      if replace {
        assert BlockFields(block, replace) == fields;
        ok := PackPairList(block.replacements, 63, coding);
      } else {
        AppendInt(block.font);
        ok := AppendStr(block.text, coding, Some(25));
        if !ok {
          return;
        }
        ghost var more := [IntField(block.font), TextField(block.text)];
        TwoFields(more[0], more[1], coding);
        PackFieldsConcat(fields, more, coding);
        Associative(start + PackFields(fields, coding), DwordToWords(block.font), PackString(block.text, coding));
        Associative(start, PackFields(fields, coding), PackFields(more, coding));
        ok := PackPairList(block.additions, 62, coding);
      }
      Associative(start, PackFields(BlockFields(block, replace), coding),
          PackPairs(BlockPairs(block, replace), coding));
    }

    method PackBlockList(blocks: seq<OcvBlock>, replace: bool, coding: Coding) returns (ok: bool)
      modifies this
      ensures ok == forall i :: 0 <= i < |blocks| ==> BlockFits(blocks[i], replace, coding)
      ensures ok ==> words == old(words) + PackBlocks(blocks, replace, coding)
    {
      for i := 0 to |blocks|
        invariant forall j :: 0 <= j < i ==> BlockFits(blocks[j], replace, coding)
        invariant words + PackBlocks(blocks[i..], replace, coding) == old(words) + PackBlocks(blocks, replace, coding)
      {
        assert blocks[i..][1..] == blocks[i + 1..];
        Associative(words, PackBlock(blocks[i], replace, coding), PackBlocks(blocks[i + 1..], replace, coding));
        ok := PackOcvBlock(blocks[i], replace, coding);
        if !ok {
          return;
        }
      }
      assert words + [] == words;
      ok := true;
    }

    method PackOcv(code: int, arguments: OcvArguments, coding: Coding) returns (ok: bool)
      modifies this
      ensures ok == Commands.PackOcv(code, arguments, coding).Some?
      ensures ok ==> words == old(words) + Commands.PackOcv(code, arguments, coding).value
    {
      AppendInts(OcvHeader(code, arguments), coding);
      if !(1 <= |arguments.blocks| <= 20) {
        return false;
      }
      ok := PackBlockList(arguments.blocks, code in OCV_REPLACE, coding);
      Associative(old(words), PackFields(Ints(OcvHeader(code, arguments)), coding),
            PackBlocks(arguments.blocks, code in OCV_REPLACE, coding));
    }

    method PackExport(t: Transfer, coding: Coding) returns (ok: bool)
      modifies this
      ensures ok == Commands.PackExport(t, coding).Some?
      ensures ok ==> words == old(words) + Commands.PackExport(t, coding).value
    {
      if t.kind !in EXPORT_FIELDS || |t.path| == 0 {
        return false;
      }
      var numbers := [t.kind] + Numbers(t.numbers, ExportKeys(t.kind));
      AppendInts(numbers, coding);
      TextAtEnd(Ints(numbers), t.path, coding);
      Associative(old(words), PackFields(Ints(numbers), coding), PackString(t.path, coding));
      ok := AppendStr(t.path, coding, Some(200));
    }

    method PackImport(t: Transfer, coding: Coding) returns (ok: bool)
      modifies this
      ensures ok == Commands.PackImport(t, coding).Some?
      ensures ok ==> words == old(words) + Commands.PackImport(t, coding).value
    {
      if t.kind !in IMPORT_FIELDS || |t.path| == 0 {
        return false;
      }
      var numeric := t.numericMode && t.kind in NUMERIC_KINDS;
      ghost var start, numbers := words, [if numeric then t.kind + 100 else t.kind];
      AppendNumber(if numeric then t.kind + 100 else t.kind, start, [], coding);
      AppendNumber(Number(t.numbers, "progress"), start, numbers, coding);
      numbers := numbers + [Number(t.numbers, "progress")];
      AppendImportFields(IMPORT_FIELDS[t.kind], numeric, t.numbers, start, numbers, coding);
      ghost var all := ImportInts(t);
      ImportIntsParts(t);
      TextAtEnd(Ints(all), t.path, coding);
      Associative(start, PackFields(Ints(all), coding), PackString(t.path, coding));
      ok := AppendStr(t.path, coding, Some(256));
    }

    // The integers of a kind; the numeric adjustment only in numeric mode.
    method AppendImportFields(keys: seq<string>, numeric: bool, given: map<string, int>,
                              ghost start: seq<word>, ghost before: seq<int>, ghost coding: Coding)
      requires words == start + PackFields(Ints(before), coding)
      modifies this
      ensures words == start + PackFields(Ints(before + Numbers(given, FieldKeys(keys, numeric))), coding)
    {
      ghost var numbers, all := before, before + Numbers(given, FieldKeys(keys, numeric));
      for i := 0 to |keys|
        invariant words == start + PackFields(Ints(numbers), coding)
        invariant all == numbers + Numbers(given, FieldKeys(keys[i..], numeric))
      {
        assert keys[i..][1..] == keys[i + 1..];
        FieldKeysStep(keys[i..], numeric, given);
        ghost var later := Numbers(given, FieldKeys(keys[i + 1..], numeric));
        if keys[i] == NUMERIC && !numeric {
          assert [] + later == later;
          continue;
        }
        var value := Number(given, if keys[i] == NUMERIC then "numeric_adjust" else keys[i]);
        Associative(numbers, [value], later);
        AppendNumber(value, start, numbers, coding);
        numbers := numbers + [value];
      }
      assert all == numbers;
    }

    // One more integer behind those appended since a start.
    method AppendNumber(value: int, ghost start: seq<word>, ghost numbers: seq<int>, ghost coding: Coding)
      requires words == start + PackFields(Ints(numbers), coding)
      modifies this
      ensures words == start + PackFields(Ints(numbers + [value]), coding)
    {
      NumberSnoc(numbers, value, coding);
      Associative(start, PackFields(Ints(numbers), coding), DwordToWords(value));
      AppendInt(value);
    }

    method AppendField(field: Field, ghost start: seq<word>, ghost fields: seq<Field>, coding: Coding)
      requires words == start + PackFields(fields, coding)
      modifies this
      ensures words == start + PackFields(fields + [field], coding)
    {
      FieldSnoc(fields, field, coding);
      Associative(start, PackFields(fields, coding), PackField(field, coding));
      match field
      case IntField(value) => AppendInt(value);
      case TextField(text) => var _ := AppendStr(text, coding, None);
    }

    // The packer of the command's kind.
    method PackPayload(code: int, payload: Payload, coding: Coding) returns (ok: bool)
      modifies this
      ensures ok == Commands.PackPayload(code, payload, coding).Some?
      ensures ok ==> words == old(words) + Commands.PackPayload(code, payload, coding).value
    {
      match payload {
        case Ocv(input) =>
          var arguments := OcvOf(code, input);
          if arguments.None? {
            return false;
          }
          ok := PackOcv(code, arguments.value, coding);
        case Export(input) =>
          var t := TransferOf(input, true);
          if t.None? {
            return false;
          }
          ok := PackExport(t.value, coding);
        case Import(input) =>
          var t := TransferOf(input, false);
          if t.None? {
            return false;
          }
          ok := PackImport(t.value, coding);
        case Standard(spec, arguments) =>
          ok := PackStandard(spec, arguments, coding);
      }
    }

    method PackStandard(spec: Spec, arguments: map<string, Argument>, coding: Coding) returns (ok: bool)
      modifies this
      ensures ok == StandardValues(spec, arguments).Some?
      ensures ok ==> words == old(words) + PackFields(StandardValues(spec, arguments).value, coding)
    {
      var values := Effective(spec, arguments);
      if values.None? {
        return false;
      }
      ghost var fields: seq<Field> := [];
      assert old(words) + [] == old(words) && PackFields(fields, coding) == [];
      for i := 0 to |spec.params|
        invariant StandardFields(spec, values.value, spec.params[..i]) == Some(fields)
        invariant words == old(words) + PackFields(fields, coding)
      {
        StandardSnoc(spec, values.value, spec.params, i);
        var field := StandardField(spec, values.value, spec.params[i]);
        if field.None? {
          StandardStops(spec, values.value, i + 1);
          return false;
        }
        AppendField(field.value, old(words), fields, coding);
        fields := fields + [field.value];
      }
      assert spec.params[..|spec.params|] == spec.params;
      ok := true;
    }
  }

  lemma FieldSnoc(fields: seq<Field>, field: Field, coding: Coding)
    ensures PackFields(fields + [field], coding) == PackFields(fields, coding) + PackField(field, coding)
  {
    PackFieldsConcat(fields, [field], coding);
    assert PackFields([field], coding) == PackField(field, coding) + [];
  }

  lemma NumberSnoc(numbers: seq<int>, value: int, coding: Coding)
    ensures PackFields(Ints(numbers + [value]), coding) == PackFields(Ints(numbers), coding) + DwordToWords(value)
  {
    assert Ints(numbers + [value]) == Ints(numbers) + [IntField(value)];
    FieldSnoc(Ints(numbers), IntField(value), coding);
  }

  lemma TwoFields(first: Field, second: Field, coding: Coding)
    ensures PackFields([first, second], coding) == PackField(first, coding) + PackField(second, coding)
  {
    FieldSnoc([first], second, coding);
    FieldSnoc([], first, coding);
    assert [first] + [second] == [first, second] && [] + [first] == [first];
    assert [] + PackField(first, coding) == PackField(first, coding);
  }

  // Keys of an import's own integers, the numeric one kept only where it is used.
  function FieldKeys(keys: seq<string>, numeric: bool): (own: seq<string>)
  {
    if numeric then Renamed(keys, NUMERIC, "numeric_adjust") else Without(keys, NUMERIC)
  }

  function ImportInts(t: Transfer): (numbers: seq<int>)
    requires t.kind in IMPORT_FIELDS
  {
    [if UsesNumeric(t) then t.kind + 100 else t.kind] + Numbers(t.numbers, ImportKeys(t.kind, UsesNumeric(t)))
  }

  lemma ImportIntsParts(t: Transfer)
    requires t.kind in IMPORT_FIELDS
    ensures ImportInts(t) == [if UsesNumeric(t) then t.kind + 100 else t.kind] + [Number(t.numbers, "progress")]
                             + Numbers(t.numbers, FieldKeys(IMPORT_FIELDS[t.kind], UsesNumeric(t)))
  {
    NumbersCons(t.numbers, "progress", FieldKeys(IMPORT_FIELDS[t.kind], UsesNumeric(t)));
  }

  lemma NumbersCons(given: map<string, int>, key: string, keys: seq<string>)
    ensures Numbers(given, [key] + keys) == [Number(given, key)] + Numbers(given, keys)
  {
  }

  lemma FieldKeysStep(keys: seq<string>, numeric: bool, numbers: map<string, int>)
    requires |keys| > 0
    ensures Numbers(numbers, FieldKeys(keys, numeric))
         == (if keys[0] != NUMERIC then [Number(numbers, keys[0])]
             else if numeric then [Number(numbers, "numeric_adjust")] else [])
            + Numbers(numbers, FieldKeys(keys[1..], numeric))
  {
    var own, later := FieldKeys(keys, numeric), FieldKeys(keys[1..], numeric);
    assert (keys[0] == NUMERIC && !numeric) || own[1..] == later;
  }

  lemma TextAtEnd(fields: seq<Field>, text: seq<byte>, coding: Coding)
    ensures PackFields(fields + [TextField(text)], coding) == PackFields(fields, coding) + PackString(text, coding)
  {
    FieldSnoc(fields, TextField(text), coding);
  }

  lemma StandardSnoc(spec: Spec, arguments: map<string, Argument>, keys: seq<string>, i: nat)
    requires i < |keys|
    ensures var front, last := StandardFields(spec, arguments, keys[..i]), StandardField(spec, arguments, keys[i]);
            StandardFields(spec, arguments, keys[..i + 1])
            == if front.None? || last.None? then None else Some(front.value + [last.value])
  {
    assert keys[..i + 1][..i] == keys[..i];
  }

  lemma {:induction false} StandardStops(spec: Spec, arguments: map<string, Argument>, n: nat)
    requires n <= |spec.params| && StandardFields(spec, arguments, spec.params[..n]).None?
    ensures StandardFields(spec, arguments, spec.params).None?
  {
    StandardStopsAt(spec, arguments, spec.params, n);
  }

  lemma {:induction false} StandardStopsAt(spec: Spec, arguments: map<string, Argument>, keys: seq<string>, n: nat)
    requires n <= |keys| && StandardFields(spec, arguments, keys[..n]).None?
    ensures StandardFields(spec, arguments, keys).None?
    decreases |keys|
  {
    if n == |keys| {
      assert keys[..n] == keys;
    } else {
      assert keys[..|keys| - 1][..n] == keys[..n];
      StandardStopsAt(spec, arguments, keys[..|keys| - 1], n);
    }
  }

  // None stands for a ProtocolError: a packer's, or that of data too large for the area. A
  // standard command's code is its specification's.
  method BuildCommandWords(code: int, payload: Payload, coding: Coding, areaSize: nat)
    returns (built: Option<seq<word>>)
    ensures built == Commands.BuildCommandWords(code, payload, coding, areaSize)
  {
    var list := new WordList();
    list.AppendInt(0);
    list.AppendInt(code);
    ghost var header := DwordToWords(0) + DwordToWords(code);
    assert list.words == header;
    var ok := list.PackPayload(code, payload, coding);
    if !ok || |list.words| > areaSize {
      return None;
    }
    built := Some(list.words + Zeros(areaSize - |list.words|));
  }
}
