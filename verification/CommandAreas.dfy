/**
 The command area parameter by parameter, in terms of what was entered: which entries are refused,
 and which words the accepted ones become (backend/plc_link/commands.py).
 */
module CommandAreas {
  import opened Bytes
  import opened Packing
  import opened Commands

  // Parts of an area one behind the other.
  function Glued(parts: seq<seq<word>>): (words: seq<word>)
  {
    if |parts| == 0 then [] else parts[0] + Glued(parts[1..])
  }

  lemma {:induction false} GluedConcat(a: seq<seq<word>>, b: seq<seq<word>>)
    ensures Glued(a + b) == Glued(a) + Glued(b)
  {
    if |a| == 0 {
      assert a + b == b;
    } else {
      assert (a + b)[1..] == a[1..] + b;
      GluedConcat(a[1..], b);
      Associative(a[0], Glued(a[1..]), Glued(b));
    }
  }

  lemma GluedOne(part: seq<word>)
    ensures Glued([part]) == part
  {
    assert [part][1..] == [];
    assert part + [] == part;
  }

  lemma GluedTwo(a: seq<word>, b: seq<word>)
    ensures Glued([a, b]) == a + b
  {
    GluedOne(b);
    assert [a, b][1..] == [b];
  }

  // Double words of a list of integers.
  function Dwords(numbers: seq<int>): (parts: seq<seq<word>>)
    ensures |parts| == |numbers|
  {
    seq(|numbers|, i requires 0 <= i < |numbers| => DwordToWords(numbers[i]))
  }

  lemma {:induction false} IntsGlued(numbers: seq<int>, coding: Coding)
    ensures PackFields(Ints(numbers), coding) == Glued(Dwords(numbers))
  {
    if |numbers| > 0 {
      assert Ints(numbers)[1..] == Ints(numbers[1..]);
      assert Dwords(numbers)[1..] == Dwords(numbers[1..]);
      IntsGlued(numbers[1..], coding);
    }
  }

  // An area of a given size: trigger 0, the code, the parameters, zeros.
  function Area(code: int, parameters: seq<word>, size: nat): (words: Option<seq<word>>)
  {
    if 4 + |parameters| > size then None
    else Some(DwordToWords(0) + DwordToWords(code) + parameters + Zeros(size - 4 - |parameters|))
  }

  // ---------- OCV ----------

  // Position and characters, pair by pair.
  function PairParts(pairs: seq<Pair>, coding: Coding): (parts: seq<seq<word>>)
    ensures |parts| == |pairs|
  {
    seq(|pairs|, i requires 0 <= i < |pairs| => DwordToWords(pairs[i].position) + PackString(pairs[i].chars, coding))
  }

  // A block: number, state, font and text unless it replaces, its pairs, and a final 0.
  function BlockWords(number: int, enabled: int, font: int, text: seq<byte>, pairs: seq<Pair>, replace: bool,
                      coding: Coding): (words: seq<word>)
  {
    DwordToWords(number) + DwordToWords(enabled)
    + (if replace then [] else DwordToWords(font) + PackString(text, coding))
    + Glued(PairParts(pairs, coding)) + DwordToWords(0)
  }

  function FurtherParts(blocks: seq<OcvBlock>, replace: bool, coding: Coding): (parts: seq<seq<word>>)
    ensures |parts| == |blocks|
  {
    seq(|blocks|, i requires 0 <= i < |blocks| =>
      BlockWords(blocks[i].number, blocks[i].enabled, blocks[i].font, blocks[i].text,
                 if replace then blocks[i].replacements else blocks[i].additions, replace, coding))
  }

  function Value(entry: Entry, default: int): (value: int)
  {
    if entry.Given? then entry.value else default
  }

  // The one pair the first block may have.
  function EnteredPair(position: Entry, chars: seq<byte>): (pairs: seq<Pair>)
  {
    if position.Given? then [Pair(position.value, chars)] else []
  }

  // A position needs characters, at most so many; a blank one is no pair.
  predicate PairEnterable(position: Entry, chars: seq<byte>)
  {
    position.Blank? || (position.Given? && chars != [])
  }

  predicate Short(pairs: seq<Pair>, limit: nat, coding: Coding)
  {
    forall i :: 0 <= i < |pairs| ==> coding.length(pairs[i].chars) <= limit
  }

  predicate FirstEnterable(b: FirstBlock, replace: bool, coding: Coding)
  {
    && b.number.Given? && !b.enabled.NotANumber? && !b.font.NotANumber?
    && PairEnterable(b.addPosition, b.addChars) && PairEnterable(b.replacePosition, b.replaceChars)
    && (b.enabled != Given(0) ==> if replace then b.replacePosition.Given? else b.text != [])
    && if replace then b.replacePosition.Given? ==> coding.length(b.replaceChars) <= 63
       else coding.length(b.text) <= 25 && (b.addPosition.Given? ==> coding.length(b.addChars) <= 62)
  }

  // What must be entered for an OCV command. Group and task count for three codes, the number of
  // a multiple check for two.
  predicate OcvEnterable(code: int, i: OcvInput, coding: Coding)
  {
    && i.camera.Given? && i.line.Given?
    && (code in {34001, 34003, 34005} ==> i.group.Given? && i.task.Given?)
    && (code in {34000, 34001} ==> !i.multi.NotANumber?)
    && FirstEnterable(i.first, code in {34004, 34005}, coding)
    && |i.additional| <= 19
    && (forall k :: 0 <= k < |i.additional| ==>
          if code in {34004, 34005} then Short(i.additional[k].replacements, 63, coding)
          else coding.length(i.additional[k].text) <= 25 && Short(i.additional[k].additions, 62, coding))
  }

  lemma {:induction false} PairsGlued(pairs: seq<Pair>, coding: Coding)
    ensures PackPairs(pairs, coding) == Glued(PairParts(pairs, coding)) + DwordToWords(0)
  {
    if |pairs| == 0 {
      assert [] + DwordToWords(0) == DwordToWords(0);
    } else {
      assert PairParts(pairs, coding)[1..] == PairParts(pairs[1..], coding);
      PairsGlued(pairs[1..], coding);
      Associative(PackPair(pairs[0], coding), Glued(PairParts(pairs[1..], coding)), DwordToWords(0));
    }
  }

  lemma FieldsGlued(b: OcvBlock, replace: bool, coding: Coding)
    ensures PackFields(BlockFields(b, replace), coding)
         == DwordToWords(b.number) + DwordToWords(b.enabled)
            + if replace then [] else DwordToWords(b.font) + PackString(b.text, coding)
  {
    var first, second := [IntField(b.number), IntField(b.enabled)], [IntField(b.font), TextField(b.text)];
    TwoPacked(first[0], first[1], coding);
    if !replace {
      PackFieldsConcat(first, second, coding);
      TwoPacked(second[0], second[1], coding);
    } else {
      assert first + [] == first;
    }
  }

  lemma TwoPacked(a: Field, b: Field, coding: Coding)
    ensures PackFields([a, b], coding) == PackField(a, coding) + PackField(b, coding)
  {
    OnePacked(a, coding);
    OnePacked(b, coding);
    assert [a, b][1..] == [b];
  }

  lemma OnePacked(field: Field, coding: Coding)
    ensures PackFields([field], coding) == PackField(field, coding)
  {
    assert [field][1..] == [];
    assert PackField(field, coding) + [] == PackField(field, coding);
  }

  lemma BlockGlued(b: OcvBlock, replace: bool, coding: Coding)
    ensures PackBlock(b, replace, coding)
         == BlockWords(b.number, b.enabled, b.font, b.text, if replace then b.replacements else b.additions, replace,
                       coding)
  {
    FieldsGlued(b, replace, coding);
    PairsGlued(BlockPairs(b, replace), coding);
    Associative(PackFields(BlockFields(b, replace), coding), Glued(PairParts(BlockPairs(b, replace), coding)),
                DwordToWords(0));
  }

  lemma {:induction false} BlocksGlued(blocks: seq<OcvBlock>, replace: bool, coding: Coding)
    ensures PackBlocks(blocks, replace, coding) == Glued(FurtherParts(blocks, replace, coding))
  {
    if |blocks| > 0 {
      assert FurtherParts(blocks, replace, coding)[1..] == FurtherParts(blocks[1..], replace, coding);
      BlockGlued(blocks[0], replace, coding);
      BlocksGlued(blocks[1..], replace, coding);
    }
  }

  // The numbers in front: group and task for three codes, camera, line, the number of a multiple
  // check or 0, and the number of blocks.
  function OcvNumbers(code: int, i: OcvInput): (numbers: seq<int>)
  {
    (if code in {34001, 34003, 34005} then [Value(i.group, 0), Value(i.task, 0)] else [])
    + [Value(i.camera, 0), Value(i.line, 0), if code in {34000, 34001} then Value(i.multi, 0) else 0,
       1 + |i.additional|]
  }

  function OcvParameters(code: int, i: OcvInput, coding: Coding): (words: seq<word>)
  {
    var replace, b := code in {34004, 34005}, i.first;
    var pairs := if replace then EnteredPair(b.replacePosition, b.replaceChars)
                 else EnteredPair(b.addPosition, b.addChars);
    Glued(Dwords(OcvNumbers(code, i)))
    + BlockWords(Value(b.number, 0), Value(b.enabled, 1), Value(b.font, 0), b.text, pairs, replace, coding)
    + Glued(FurtherParts(i.additional, replace, coding))
  }

  // An OCV command is built exactly if its entries are enterable and fit, and then its area holds
  // them in this order: the numbers, the first block (enabled and without a font unless entered
  // otherwise), the further blocks.
  lemma OcvWords(code: int, i: OcvInput, coding: Coding, areaSize: nat)
    ensures BuildCommandWords(code, Ocv(i), coding, areaSize)
         == if OcvEnterable(code, i, coding) then Area(code, OcvParameters(code, i, coding), areaSize) else None
  {
    OcvAccepted(code, i, coding);
    if OcvEnterable(code, i, coding) {
      OcvPacked(code, i, coding);
    }
  }

  // The first block as its entries give it.
  function FirstOf(b: FirstBlock): (block: OcvBlock)
  {
    OcvBlock(Value(b.number, 0), Value(b.enabled, 1), Value(b.font, 0), b.text,
             EnteredPair(b.addPosition, b.addChars), EnteredPair(b.replacePosition, b.replaceChars))
  }

  lemma FirstBlockTaken(b: FirstBlock, replace: bool, coding: Coding)
    ensures FirstEnterable(b, replace, coding)
       <==> PrimaryBlock(b, replace).Some? && BlockFits(FirstOf(b), replace, coding)
    ensures PrimaryBlock(b, replace).Some? ==> PrimaryBlock(b, replace).value == FirstOf(b)
  {
    OnePairFits(b.addPosition, b.addChars, 62, coding);
    OnePairFits(b.replacePosition, b.replaceChars, 63, coding);
  }

  lemma OnePairFits(position: Entry, chars: seq<byte>, limit: nat, coding: Coding)
    ensures PairsFit(EnteredPair(position, chars), limit, coding)
       <==> (position.Given? ==> coding.length(chars) <= limit)
  {
    if position.Given? {
      assert EnteredPair(position, chars)[0].chars == chars;
    }
  }

  lemma OcvAccepted(code: int, i: OcvInput, coding: Coding)
    ensures OcvEnterable(code, i, coding) <==> OcvOf(code, i).Some? && PackOcv(code, OcvOf(code, i).value, coding).Some?
  {
    var replace := code in OCV_REPLACE;
    FirstBlockTaken(i.first, replace, coding);
    if OcvOf(code, i).Some? {
      var blocks := OcvOf(code, i).value.blocks;
      assert blocks == [FirstOf(i.first)] + i.additional;
      BlocksFitAlike(FirstOf(i.first), i.additional, replace, coding);
    }
  }

  lemma BlocksFitAlike(first: OcvBlock, more: seq<OcvBlock>, replace: bool, coding: Coding)
    ensures var blocks := [first] + more;
            (exists k :: 0 <= k < |blocks| && !BlockFits(blocks[k], replace, coding))
            <==> !BlockFits(first, replace, coding)
                 || exists k :: 0 <= k < |more| && !BlockFits(more[k], replace, coding)
  {
    var blocks := [first] + more;
    assert blocks[0] == first;
    if k :| 0 <= k < |more| && !BlockFits(more[k], replace, coding) {
      assert blocks[k + 1] == more[k];
    }
  }

  lemma OcvPacked(code: int, i: OcvInput, coding: Coding)
    requires OcvEnterable(code, i, coding)
    ensures OcvOf(code, i).Some?
    ensures PackOcv(code, OcvOf(code, i).value, coding) == Some(OcvParameters(code, i, coding))
  {
    OcvAccepted(code, i, coding);
    var replace, a := code in OCV_REPLACE, OcvOf(code, i).value;
    FirstBlockTaken(i.first, replace, coding);
    assert a.blocks == [FirstOf(i.first)] + i.additional;
    assert OcvHeader(code, a) == OcvNumbers(code, i);
    IntsGlued(OcvNumbers(code, i), coding);
    FirstThenFurther(FirstOf(i.first), i.additional, replace, coding);
    Associative(Glued(Dwords(OcvNumbers(code, i))), PackBlock(FirstOf(i.first), replace, coding),
                Glued(FurtherParts(i.additional, replace, coding)));
    BlockGlued(FirstOf(i.first), replace, coding);
  }

  lemma FirstThenFurther(first: OcvBlock, more: seq<OcvBlock>, replace: bool, coding: Coding)
    ensures PackBlocks([first] + more, replace, coding)
         == PackBlock(first, replace, coding) + Glued(FurtherParts(more, replace, coding))
  {
    assert ([first] + more)[1..] == more;
    BlocksGlued(more, replace, coding);
  }

  // ---------- export and import ----------

  // What is sent of an argument that may be left out.
  function Entered(numbers: map<string, Entry>, key: string): (value: int)
  {
    if key in numbers then Value(numbers[key], 0) else 0
  }

  function EnteredAll(numbers: map<string, Entry>, keys: seq<string>): (values: seq<int>)
    ensures |values| == |keys|
  {
    seq(|keys|, i requires 0 <= i < |keys| => Entered(numbers, keys[i]))
  }

  predicate AllNumbers(numbers: map<string, Entry>, keys: seq<string>)
  {
    forall k :: 0 <= k < |keys| && keys[k] in numbers ==> !numbers[keys[k]].NotANumber?
  }

  // One more key in front, if it is sent.
  function Then(sent: bool, key: string, later: seq<string>): (keys: seq<string>)
  {
    if sent then [key] + later else later
  }

  // The integers of an export behind kind, progress and version: for each argument, the kinds
  // that send it.
  function ExportOrder(kind: int): (keys: seq<string>)
  {
    Then(kind in {3, 4, 7, 9, 12, 16}, "group",
    Then(kind in {4, 7, 9, 12, 16}, "task",
    Then(kind in {0, 3, 4, 7, 9}, "image_save",
    Then(kind in {4, 7, 9}, "image_format",
    Then(kind in {0, 3, 4, 7}, "shared_light",
    Then(kind in {0, 3, 4, 7}, "history",
    Then(kind in {0, 3, 4, 7, 9}, "inspect_folder",
    Then(kind in {4, 7, 9}, "inspect_folder_number",
    Then(kind == 10, "csv_convert",
    Then(kind == 15, "display_number",
    Then(kind == 16, "inspect_specified",
    Then(kind == 16, "inspect_specified_number", []))))))))))))
  }

  // The same for an import, behind kind and progress, with a key for the numeric adjustment.
  function ImportSlots(kind: int, numeric: bool, key: string): (keys: seq<string>)
  {
    Then(kind in {3, 4, 7, 9, 12, 16}, "group",
    Then(kind in {4, 7, 9, 12, 16}, "task",
    Then(kind in {0, 3, 4, 7, 9}, "delete_images",
    Then(kind in {0, 3, 4, 7, 9}, "delete_inspect",
    Then(kind == 16, "delete_inspect_specified",
    LastSlots(kind, numeric, key))))))
  }

  function LastSlots(kind: int, numeric: bool, key: string): (keys: seq<string>)
  {
    Then(kind in {0, 3, 4, 7}, "keep_capture",
    Then(kind in {0, 3, 4, 7}, "shared_light",
    Then(kind in {0, 7}, "include_3d",
    Then(numeric && kind in {0, 3, 4, 7}, key,
    Then(kind in {0, 7}, "include_system", [])))))
  }

  // The numeric adjustment only in numeric mode.
  function ImportOrder(kind: int, numeric: bool): (keys: seq<string>)
  {
    ImportSlots(kind, numeric, "numeric_adjust")
  }

  predicate ExportKind(kind: int)
  {
    0 <= kind <= 17 && kind != 8
  }

  predicate ImportKind(kind: int)
  {
    0 <= kind <= 17 && kind != 8 && kind != 10
  }

  lemma KindsKnown(kind: int)
    ensures kind in EXPORT_FIELDS <==> ExportKind(kind)
    ensures kind in IMPORT_FIELDS <==> ImportKind(kind)
  {
  }

  // A list taken apart from the front.
  lemma Suffixes(keys: seq<string>)
    ensures keys[0..] == keys && keys[|keys|..] == []
    ensures forall j {:trigger keys[j..]} :: 0 <= j < |keys| ==> keys[j..] == [keys[j]] + keys[j + 1..]
  {
  }

  lemma PlainExports(kind: int)
    requires kind in {1, 2, 5, 6, 11, 13, 14, 17}
    ensures EXPORT_FIELDS[kind] == ExportOrder(kind)
  {
  }

  lemma PlainImports(kind: int)
    requires kind in {1, 2, 5, 6, 11, 13, 14, 15, 17}
    ensures IMPORT_FIELDS[kind] == ImportSlots(kind, true, NUMERIC)
  {
  }

  lemma ExportsOfAll(kind: int)
    requires kind in {0, 3}
    ensures EXPORT_FIELDS[kind] == ExportOrder(kind)
  {
    Suffixes(EXPORT_FIELDS[kind]);
  }

  lemma ExportsOfTasks(kind: int)
    requires kind in {4, 7}
    ensures EXPORT_FIELDS[kind] == ExportOrder(kind)
  {
    Eight("group", "task", "image_save", "image_format", "shared_light", "history", "inspect_folder",
          "inspect_folder_number");
  }

  lemma Eight(a: string, b: string, c: string, d: string, e: string, f: string, g: string, h: string)
    ensures [a] + ([b] + ([c] + ([d] + ([e] + ([f] + ([g] + ([h] + []))))))) == [a, b, c, d, e, f, g, h]
  {
  }

  lemma ExportsOfParts(kind: int)
    requires kind in {9, 10, 12, 15, 16}
    ensures EXPORT_FIELDS[kind] == ExportOrder(kind)
  {
    Suffixes(EXPORT_FIELDS[kind]);
  }

  lemma ImportsOfAll(kind: int)
    requires kind in {0, 3}
    ensures IMPORT_FIELDS[kind] == ImportSlots(kind, true, NUMERIC)
  {
    Suffixes(IMPORT_FIELDS[kind]);
  }

  lemma ImportsOfTasks(kind: int)
    requires kind in {4, 7}
    ensures IMPORT_FIELDS[kind] == ImportSlots(kind, true, NUMERIC)
  {
    Suffixes(IMPORT_FIELDS[kind]);
  }

  lemma ImportsOfParts(kind: int)
    requires kind in {9, 12, 16}
    ensures IMPORT_FIELDS[kind] == ImportSlots(kind, true, NUMERIC)
  {
    Suffixes(IMPORT_FIELDS[kind]);
  }

  lemma ThenChanged(sent: bool, key: string, later: seq<string>, name: string)
    ensures Without(Then(sent, key, later), NUMERIC) == Then(sent && key != NUMERIC, key, Without(later, NUMERIC))
    ensures Renamed(Then(sent, key, later), NUMERIC, name)
         == Then(sent, if key == NUMERIC then name else key, Renamed(later, NUMERIC, name))
  {
    assert ([key] + later)[1..] == later;
    assert [] + Without(later, NUMERIC) == Without(later, NUMERIC);
  }

  lemma LastSlotsChanged(kind: int)
    ensures Without(LastSlots(kind, true, NUMERIC), NUMERIC) == LastSlots(kind, false, "numeric_adjust")
    ensures Renamed(LastSlots(kind, true, NUMERIC), NUMERIC, "numeric_adjust")
         == LastSlots(kind, true, "numeric_adjust")
  {
    var name := "numeric_adjust";
    var k10 := Then(kind in {0, 7}, "include_system", []);
    var k9 := Then(kind in {0, 3, 4, 7}, NUMERIC, k10);
    var k8 := Then(kind in {0, 7}, "include_3d", k9);
    var k7 := Then(kind in {0, 3, 4, 7}, "shared_light", k8);
    ThenChanged(kind in {0, 7}, "include_system", [], name);
    ThenChanged(kind in {0, 3, 4, 7}, NUMERIC, k10, name);
    ThenChanged(kind in {0, 7}, "include_3d", k9, name);
    ThenChanged(kind in {0, 3, 4, 7}, "shared_light", k8, name);
    ThenChanged(kind in {0, 3, 4, 7}, "keep_capture", k7, name);
  }

  // Where the numeric adjustment goes, its key is put in or it is left out.
  lemma NumericSlot(kind: int)
    ensures Without(ImportSlots(kind, true, NUMERIC), NUMERIC) == ImportSlots(kind, false, "numeric_adjust")
    ensures Renamed(ImportSlots(kind, true, NUMERIC), NUMERIC, "numeric_adjust")
         == ImportSlots(kind, true, "numeric_adjust")
  {
    var name, k6 := "numeric_adjust", LastSlots(kind, true, NUMERIC);
    var k5 := Then(kind == 16, "delete_inspect_specified", k6);
    var k4 := Then(kind in {0, 3, 4, 7, 9}, "delete_inspect", k5);
    var k3 := Then(kind in {0, 3, 4, 7, 9}, "delete_images", k4);
    var k2 := Then(kind in {4, 7, 9, 12, 16}, "task", k3);
    LastSlotsChanged(kind);
    ThenChanged(kind == 16, "delete_inspect_specified", k6, name);
    ThenChanged(kind in {0, 3, 4, 7, 9}, "delete_inspect", k5, name);
    ThenChanged(kind in {0, 3, 4, 7, 9}, "delete_images", k4, name);
    ThenChanged(kind in {4, 7, 9, 12, 16}, "task", k3, name);
    ThenChanged(kind in {3, 4, 7, 9, 12, 16}, "group", k2, name);
  }

  // The tables of the two packers, read the other way round: by argument instead of by kind.
  lemma TablesByArgument(kind: int, numeric: bool)
    ensures kind in EXPORT_FIELDS <==> ExportKind(kind)
    ensures kind in IMPORT_FIELDS <==> ImportKind(kind)
    ensures ExportKind(kind) ==>
      ExportKeys(kind) == ["progress", "version_major", "version_minor", "version_sub"] + ExportOrder(kind)
    ensures ImportKind(kind) ==>
      ImportKeys(kind, numeric && kind in {0, 3, 4, 7}) == ["progress"] + ImportOrder(kind, numeric)
  {
    KindsKnown(kind);
    if ExportKind(kind) {
      ExportTable(kind);
    }
    if ImportKind(kind) {
      ImportTable(kind);
      NumericSlot(kind);
    }
  }

  lemma ExportTable(kind: int)
    requires ExportKind(kind)
    ensures kind in EXPORT_FIELDS && EXPORT_FIELDS[kind] == ExportOrder(kind)
  {
    if kind in {0, 3} {
      ExportsOfAll(kind);
    } else if kind in {4, 7} {
      ExportsOfTasks(kind);
    } else if kind in {9, 10, 12, 15, 16} {
      ExportsOfParts(kind);
    } else {
      PlainExports(kind);
    }
  }

  lemma ImportTable(kind: int)
    requires ImportKind(kind)
    ensures kind in IMPORT_FIELDS && IMPORT_FIELDS[kind] == ImportSlots(kind, true, NUMERIC)
  {
    if kind in {0, 3} {
      ImportsOfAll(kind);
    } else if kind in {4, 7} {
      ImportsOfTasks(kind);
    } else if kind in {9, 12, 16} {
      ImportsOfParts(kind);
    } else {
      PlainImports(kind);
    }
  }

  // An export is built exactly if its kind is known, no argument it sends is anything but a
  // number or left out, and its folder is given, short enough and fits: the kind, the arguments
  // in order (0 where left out), the folder.
  lemma ExportWords(code: int, i: TransferInput, coding: Coding, areaSize: nat)
    ensures var keys := ["progress", "version_major", "version_minor", "version_sub"]
                        + if i.kind.Given? then ExportOrder(i.kind.value) else [];
            BuildCommandWords(code, Export(i), coding, areaSize)
            == if i.kind.Given? && ExportKind(i.kind.value) && AllNumbers(i.numbers, keys)
                  && i.path != [] && coding.length(i.path) <= 200
               then Area(code, DwordToWords(i.kind.value) + Glued(Dwords(EnteredAll(i.numbers, keys)))
                               + PackString(i.path, coding), areaSize)
               else None
  {
    PayloadInArea(code, Export(i), coding, areaSize);
    if i.kind.Given? {
      TablesByArgument(i.kind.value, i.numericMode);
    }
    if i.kind.Given? && i.kind.value in EXPORT_FIELDS {
      ExportPacked(code, i, coding);
    } else {
      UnknownKind(code, i, coding);
    }
  }

  lemma UnknownKind(code: int, i: TransferInput, coding: Coding)
    ensures !(i.kind.Given? && i.kind.value in EXPORT_FIELDS) ==> PackPayload(code, Export(i), coding).None?
    ensures !(i.kind.Given? && i.kind.value in IMPORT_FIELDS) ==> PackPayload(code, Import(i), coding).None?
  {
  }

  // A transfer as it is taken, unless one of the keys of its kind is no number.
  function TakenTransfer(i: TransferInput): (t: Transfer)
    requires i.kind.Given?
  {
    Transfer(i.kind.value, i.numericMode, GivenNumbers(i.numbers), i.path)
  }

  lemma ExportTaken(i: TransferInput)
    requires i.kind.Given? && i.kind.value in EXPORT_FIELDS
    ensures TransferOf(i, true)
         == if AllNumbers(i.numbers, ExportKeys(i.kind.value)) then Some(TakenTransfer(i)) else None
  {
  }

  lemma ImportTaken(i: TransferInput)
    requires i.kind.Given? && i.kind.value in IMPORT_FIELDS
    ensures TransferOf(i, false)
         == if AllNumbers(i.numbers, ImportKeys(i.kind.value, i.numericMode && i.kind.value in {0, 3, 4, 7}))
            then Some(TakenTransfer(i)) else None
  {
  }

  lemma NumbersEntered(numbers: map<string, Entry>, keys: seq<string>)
    ensures Numbers(GivenNumbers(numbers), keys) == EnteredAll(numbers, keys)
  {
  }

  // A kind in front of other integers, and a path behind them.
  lemma TransferGlued(kind: int, numbers: seq<int>, path: seq<byte>, coding: Coding)
    ensures PackFields(Ints([kind] + numbers) + [TextField(path)], coding)
         == DwordToWords(kind) + Glued(Dwords(numbers)) + PackString(path, coding)
  {
    var all := [kind] + numbers;
    IntsGlued(all, coding);
    assert Dwords(all)[1..] == Dwords(numbers);
    PackFieldsConcat(Ints(all), [TextField(path)], coding);
    OnePacked(TextField(path), coding);
  }

  lemma ExportPacked(code: int, i: TransferInput, coding: Coding)
    requires i.kind.Given? && i.kind.value in EXPORT_FIELDS
    ensures var keys := ExportKeys(i.kind.value);
            PackPayload(code, Export(i), coding)
            == if AllNumbers(i.numbers, keys) && i.path != [] && coding.length(i.path) <= 200
               then Some(DwordToWords(i.kind.value) + Glued(Dwords(EnteredAll(i.numbers, keys)))
                         + PackString(i.path, coding))
               else None
  {
    ExportTaken(i);
    NumbersEntered(i.numbers, ExportKeys(i.kind.value));
    TransferGlued(i.kind.value, EnteredAll(i.numbers, ExportKeys(i.kind.value)), i.path, coding);
  }

  // An import likewise. In numeric mode, the kinds that adjust numerically are sent with 100 added
  // and with the adjustment in its place.
  lemma ImportWords(code: int, i: TransferInput, coding: Coding, areaSize: nat)
    ensures var keys := ["progress"] + if i.kind.Given? then ImportOrder(i.kind.value, i.numericMode) else [];
            BuildCommandWords(code, Import(i), coding, areaSize)
            == if i.kind.Given? && ImportKind(i.kind.value) && AllNumbers(i.numbers, keys)
                  && i.path != [] && coding.length(i.path) <= 256
               then
                 var kind := if i.numericMode && i.kind.value in {0, 3, 4, 7} then i.kind.value + 100
                             else i.kind.value;
                 Area(code, DwordToWords(kind) + Glued(Dwords(EnteredAll(i.numbers, keys)))
                            + PackString(i.path, coding), areaSize)
               else None
  {
    PayloadInArea(code, Import(i), coding, areaSize);
    if i.kind.Given? {
      TablesByArgument(i.kind.value, i.numericMode);
    }
    if i.kind.Given? && i.kind.value in IMPORT_FIELDS {
      ImportPacked(code, i, coding);
    } else {
      UnknownKind(code, i, coding);
    }
  }

  lemma ImportPacked(code: int, i: TransferInput, coding: Coding)
    requires i.kind.Given? && i.kind.value in IMPORT_FIELDS
    ensures var numeric := i.numericMode && i.kind.value in {0, 3, 4, 7};
            var keys := ImportKeys(i.kind.value, numeric);
            PackPayload(code, Import(i), coding)
            == if AllNumbers(i.numbers, keys) && i.path != [] && coding.length(i.path) <= 256
               then Some(DwordToWords(if numeric then i.kind.value + 100 else i.kind.value)
                         + Glued(Dwords(EnteredAll(i.numbers, keys))) + PackString(i.path, coding))
               else None
  {
    var numeric := i.numericMode && i.kind.value in {0, 3, 4, 7};
    var keys := ImportKeys(i.kind.value, numeric);
    ImportTaken(i);
    ImportGlued(TakenTransfer(i), coding);
    NumbersEntered(i.numbers, keys);
  }

  lemma ImportGlued(t: Transfer, coding: Coding)
    requires t.kind in IMPORT_FIELDS
    ensures var numeric := t.numericMode && t.kind in {0, 3, 4, 7};
            PackImport(t, coding)
            == if t.path != [] && coding.length(t.path) <= 256
               then Some(DwordToWords(if numeric then t.kind + 100 else t.kind)
                         + Glued(Dwords(Numbers(t.numbers, ImportKeys(t.kind, numeric)))) + PackString(t.path, coding))
               else None
  {
    var numeric := t.numericMode && t.kind in {0, 3, 4, 7};
    TransferGlued(if numeric then t.kind + 100 else t.kind, Numbers(t.numbers, ImportKeys(t.kind, numeric)), t.path,
                  coding);
  }

  // ---------- commands in catalogue order ----------

  // The number of a folder: 1 to 9 by digits, or by its letter's place.
  predicate FolderIs(a: Argument, number: int)
  {
    if IsDigits(a.upper) && a.asInt.Some? && 1 <= a.asInt.value <= 9 then number == a.asInt.value
    else 1 <= number <= 9 && a.upper == ["BFLMIOSTH"[number - 1] as int]
  }

  lemma FolderCodeMeans(a: Argument, number: int)
    ensures FolderCode(a) == Some(number) <==> FolderIs(a, number)
  {
    if |a.upper| == 1 && a.upper[0] in FOLDER_CODE {
      assert a.upper == [a.upper[0]];
    }
  }

  function FolderArgument(arguments: map<string, Argument>): (folder: Argument)
  {
    if "folder" in arguments then arguments["folder"] else NoArgument
  }

  // What is sent for a parameter: the folder as its number where the command asks for that, else
  // the argument given, else the default, else an empty text where one is allowed.
  ghost predicate InEffect(spec: Spec, arguments: map<string, Argument>, key: string, a: Argument)
  {
    if spec.folderAsCode && key == "folder" then
      exists n :: FolderIs(FolderArgument(arguments), n)
                  && a == Argument(['0' as int + n], ['0' as int + n], Some(n), Some(n as real))
    else if key in arguments && arguments[key].text != [] then a == arguments[key]
    else if key in spec.defaults then a == spec.defaults[key]
    else key in spec.blankStrings && a.text == [] && a.asInt.None? && a.asReal.None?
  }

  // Its words: a text, thousandths rounded half to even for x and y, an integer otherwise.
  ghost predicate SentAs(spec: Spec, key: string, a: Argument, words: seq<word>, coding: Coding)
  {
    if key in spec.stringParams || key in spec.blankStrings then words == PackString(a.text, coding)
    else if key == "x" || key == "y" then
      a.asReal.Some? && exists n: int :: NearestThousandth(n, a.asReal.value) && words == DwordToWords(n)
    else a.asInt.Some? && words == DwordToWords(a.asInt.value)
  }

  predicate NearestThousandth(n: int, r: real)
  {
    && r * 1000.0 - 0.5 <= n as real <= r * 1000.0 + 0.5
    && (r * 1000.0 - 0.5 == n as real || n as real == r * 1000.0 + 0.5 ==> n % 2 == 0)
  }

  // One part for every parameter; a folder to be sent as its number must have one.
  ghost predicate StandardParts(spec: Spec, arguments: map<string, Argument>, parts: seq<seq<word>>, coding: Coding)
  {
    && HasFolder(spec, arguments)
    && |parts| == |spec.params|
    && forall k :: 0 <= k < |parts| ==> PartIs(spec, arguments, spec.params[k], parts[k], coding)
  }

  ghost predicate HasFolder(spec: Spec, arguments: map<string, Argument>)
  {
    spec.folderAsCode ==> exists n :: FolderIs(FolderArgument(arguments), n)
  }

  ghost predicate PartIs(spec: Spec, arguments: map<string, Argument>, key: string, words: seq<word>, coding: Coding)
  {
    exists a :: InEffect(spec, arguments, key, a) && SentAs(spec, key, a, words, coding)
  }

  lemma NearestIsOne(m: int, n: int, r: real)
    requires NearestThousandth(m, r) && NearestThousandth(n, r)
    ensures m == n
  {
  }

  lemma SentAlike(spec: Spec, key: string, a: Argument, words: seq<word>, coding: Coding)
    ensures SentAs(spec, key, a, words, coding) <==>
            var text := key in spec.stringParams || key in spec.blankStrings;
            if text then words == PackField(TextField(a.text), coding)
            else if key == "x" || key == "y" then
              a.asReal.Some? && words == PackField(IntField(RoundHalfEven(a.asReal.value * 1000.0)), coding)
            else a.asInt.Some? && words == PackField(IntField(a.asInt.value), coding)
  {
    if a.asReal.Some? {
      var n := RoundHalfEven(a.asReal.value * 1000.0);
      assert NearestThousandth(n, a.asReal.value);
      forall m | NearestThousandth(m, a.asReal.value) ensures m == n {
        NearestIsOne(m, n, a.asReal.value);
      }
    }
  }

  // The argument the packer takes for a key is the one in effect.
  lemma RawInEffect(spec: Spec, arguments: map<string, Argument>, key: string)
    requires Commands.Effective(spec, arguments).Some?
    ensures var raw := RawArgument(spec, Commands.Effective(spec, arguments).value, key);
            if raw.Some? then InEffect(spec, arguments, key, raw.value)
            else forall a :: !InEffect(spec, arguments, key, a)
  {
    if spec.folderAsCode {
      var folder := FolderArgument(arguments);
      FolderCodeMeans(folder, FolderCode(folder).value);
    }
  }

  // Nothing but an unused upper-case form can differ between two arguments in effect.
  lemma OneInEffect(spec: Spec, arguments: map<string, Argument>, key: string, a: Argument, b: Argument)
    requires InEffect(spec, arguments, key, a) && InEffect(spec, arguments, key, b)
    ensures a.text == b.text && a.asInt == b.asInt && a.asReal == b.asReal
  {
    if spec.folderAsCode && key == "folder" {
      var folder := FolderArgument(arguments);
      FolderCodeMeans(folder, a.asInt.value);
      FolderCodeMeans(folder, b.asInt.value);
    }
  }

  lemma FieldIsPart(spec: Spec, arguments: map<string, Argument>, key: string, words: seq<word>, coding: Coding)
    requires Commands.Effective(spec, arguments).Some?
    ensures var field := StandardField(spec, Commands.Effective(spec, arguments).value, key);
            PartIs(spec, arguments, key, words, coding) <==> field.Some? && PackField(field.value, coding) == words
  {
    var raw := RawArgument(spec, Commands.Effective(spec, arguments).value, key);
    RawInEffect(spec, arguments, key);
    if raw.Some? {
      SentAlike(spec, key, raw.value, words, coding);
      forall a | InEffect(spec, arguments, key, a)
        ensures SentAs(spec, key, a, words, coding) <==> SentAs(spec, key, raw.value, words, coding)
      {
        OneInEffect(spec, arguments, key, a, raw.value);
        SentAlike(spec, key, a, words, coding);
      }
    }
  }

  lemma FolderNeeded(spec: Spec, arguments: map<string, Argument>)
    ensures Commands.Effective(spec, arguments).Some? <==> HasFolder(spec, arguments)
  {
    var folder := FolderArgument(arguments);
    if FolderCode(folder).Some? {
      FolderCodeMeans(folder, FolderCode(folder).value);
    }
    if spec.folderAsCode && HasFolder(spec, arguments) {
      var n :| FolderIs(folder, n);
      FolderCodeMeans(folder, n);
    }
  }

  ghost predicate PartsOf(spec: Spec, arguments: map<string, Argument>, keys: seq<string>, parts: seq<seq<word>>,
                          coding: Coding)
  {
    |parts| == |keys| && forall k :: 0 <= k < |parts| ==> PartIs(spec, arguments, keys[k], parts[k], coding)
  }

  lemma LastPart(spec: Spec, arguments: map<string, Argument>, keys: seq<string>, parts: seq<seq<word>>, coding: Coding)
    requires |keys| > 0 && PartsOf(spec, arguments, keys, parts, coding)
    ensures var n := |keys| - 1;
            && PartsOf(spec, arguments, keys[..n], parts[..n], coding)
            && PartIs(spec, arguments, keys[n], parts[n], coding) && parts == parts[..n] + [parts[n]]
  {
  }

  // The fields packed one after the other are parts of their keys, and there are no other parts.
  lemma {:induction false} FieldsAreParts(spec: Spec, arguments: map<string, Argument>, keys: seq<string>,
                                          parts: seq<seq<word>>, coding: Coding)
    requires Commands.Effective(spec, arguments).Some? && PartsOf(spec, arguments, keys, parts, coding)
    ensures var fields := StandardFields(spec, Commands.Effective(spec, arguments).value, keys);
            fields.Some? && PackFields(fields.value, coding) == Glued(parts)
    decreases |keys|
  {
    if |keys| > 0 {
      var n, effective := |keys| - 1, Commands.Effective(spec, arguments).value;
      LastPart(spec, arguments, keys, parts, coding);
      FieldIsPart(spec, arguments, keys[n], parts[n], coding);
      FieldsAreParts(spec, arguments, keys[..n], parts[..n], coding);
      OneMorePart(StandardFields(spec, effective, keys[..n]).value, StandardField(spec, effective, keys[n]).value,
                  parts[..n], coding);
    }
  }

  lemma OneMorePart(front: seq<Field>, last: Field, parts: seq<seq<word>>, coding: Coding)
    requires PackFields(front, coding) == Glued(parts)
    ensures PackFields(front + [last], coding) == Glued(parts + [PackField(last, coding)])
  {
    PackFieldsConcat(front, [last], coding);
    OnePacked(last, coding);
    GluedConcat(parts, [PackField(last, coding)]);
    GluedOne(PackField(last, coding));
  }

  lemma {:induction false} PartsFromFields(spec: Spec, arguments: map<string, Argument>, keys: seq<string>,
                                           coding: Coding) returns (parts: seq<seq<word>>)
    requires Commands.Effective(spec, arguments).Some?
    requires StandardFields(spec, Commands.Effective(spec, arguments).value, keys).Some?
    ensures PartsOf(spec, arguments, keys, parts, coding)
    decreases |keys|
  {
    parts := [];
    if |keys| > 0 {
      var n := |keys| - 1;
      var last := StandardField(spec, Commands.Effective(spec, arguments).value, keys[n]).value;
      var front := PartsFromFields(spec, arguments, keys[..n], coding);
      FieldIsPart(spec, arguments, keys[n], PackField(last, coding), coding);
      parts := front + [PackField(last, coding)];
      PartsSnoc(spec, arguments, keys, front, PackField(last, coding), coding);
    }
  }

  lemma PartsSnoc(spec: Spec, arguments: map<string, Argument>, keys: seq<string>, front: seq<seq<word>>,
                  part: seq<word>, coding: Coding)
    requires |keys| > 0 && PartsOf(spec, arguments, keys[..|keys| - 1], front, coding)
    requires PartIs(spec, arguments, keys[|keys| - 1], part, coding)
    ensures PartsOf(spec, arguments, keys, front + [part], coding)
  {
  }

  lemma BuiltFromParts(code: int, spec: Spec, arguments: map<string, Argument>, parts: seq<seq<word>>,
                       coding: Coding, areaSize: nat)
    requires StandardParts(spec, arguments, parts, coding)
    ensures BuildCommandWords(code, Standard(spec, arguments), coding, areaSize) == Area(code, Glued(parts), areaSize)
  {
    PackedFromParts(spec, arguments, parts, coding);
    StandardInArea(code, spec, arguments, coding, areaSize);
  }

  lemma PackedFromParts(spec: Spec, arguments: map<string, Argument>, parts: seq<seq<word>>, coding: Coding)
    requires StandardParts(spec, arguments, parts, coding)
    ensures StandardValues(spec, arguments).Some?
    ensures PackFields(StandardValues(spec, arguments).value, coding) == Glued(parts)
  {
    FolderNeeded(spec, arguments);
    FieldsAreParts(spec, arguments, spec.params, parts, coding);
  }

  lemma StandardInArea(code: int, spec: Spec, arguments: map<string, Argument>, coding: Coding, areaSize: nat)
    ensures var fields := StandardValues(spec, arguments);
            BuildCommandWords(code, Standard(spec, arguments), coding, areaSize)
            == if fields.None? then None else Area(code, PackFields(fields.value, coding), areaSize)
  {
    StandardPayload(code, spec, arguments, coding);
    PayloadInArea(code, Standard(spec, arguments), coding, areaSize);
  }

  lemma StandardPayload(code: int, spec: Spec, arguments: map<string, Argument>, coding: Coding)
    ensures var fields := StandardValues(spec, arguments);
            PackPayload(code, Standard(spec, arguments), coding)
            == if fields.None? then None else Some(PackFields(fields.value, coding))
  {
  }

  lemma PayloadInArea(code: int, payload: Payload, coding: Coding, areaSize: nat)
    ensures var packed := PackPayload(code, payload, coding);
            BuildCommandWords(code, payload, coding, areaSize)
            == if packed.None? then None else Area(code, packed.value, areaSize)
  {
  }

  lemma PartsOfBuilt(code: int, spec: Spec, arguments: map<string, Argument>, coding: Coding, areaSize: nat)
    returns (parts: seq<seq<word>>)
    requires BuildCommandWords(code, Standard(spec, arguments), coding, areaSize).Some?
    ensures StandardParts(spec, arguments, parts, coding)
  {
    FolderNeeded(spec, arguments);
    parts := PartsFromFields(spec, arguments, spec.params, coding);
  }

  // A command in catalogue order is built exactly if every parameter has a part and all fit, and
  // then its area holds these parts in catalogue order.
  lemma StandardWords(code: int, spec: Spec, arguments: map<string, Argument>, coding: Coding, areaSize: nat,
                      words: seq<word>)
    ensures BuildCommandWords(code, Standard(spec, arguments), coding, areaSize) == Some(words)
        <==> exists parts :: StandardParts(spec, arguments, parts, coding)
                             && Area(code, Glued(parts), areaSize) == Some(words)
  {
    if BuildCommandWords(code, Standard(spec, arguments), coding, areaSize) == Some(words) {
      var parts := PartsOfBuilt(code, spec, arguments, coding, areaSize);
      BuiltFromParts(code, spec, arguments, parts, coding, areaSize);
    }
    if parts :| StandardParts(spec, arguments, parts, coding) && Area(code, Glued(parts), areaSize) == Some(words) {
      BuiltFromParts(code, spec, arguments, parts, coding, areaSize);
    }
  }
}
