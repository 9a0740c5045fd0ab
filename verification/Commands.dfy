/**
 The command area of a PLCLINK command (backend/plc_link/commands.py): the packers as word lists,
 and their errors.
 */
module Commands {
  import opened Bytes
  import opened Packing

  // ---------- arguments ----------

  // An argument that is to be an integer, as int() finds it.
  datatype Entry = Blank | NotANumber | Given(value: int)

  // A blank argument takes a default; what is no number is an error.
  function Optional(entry: Entry, default: int): (value: Option<int>)
  {
    match entry
    case Blank => Some(default)
    case NotANumber => None
    case Given(value) => Some(value)
  }

  // ---------- OCV ----------

  datatype Pair = Pair(position: int, chars: seq<byte>)

  datatype OcvBlock = OcvBlock(
    number: int,
    enabled: int,
    font: int,
    text: seq<byte>,
    additions: seq<Pair>,
    replacements: seq<Pair>)

  datatype OcvArguments = OcvArguments(
    group: int, task: int, camera: int, line: int, multi: int, blocks: seq<OcvBlock>)

  // The arguments of the first block. Further blocks come parsed.
  datatype FirstBlock = FirstBlock(
    number: Entry,
    enabled: Entry,
    font: Entry,
    text: seq<byte>,
    addPosition: Entry,
    addChars: seq<byte>,
    replacePosition: Entry,
    replaceChars: seq<byte>)

  datatype OcvInput = OcvInput(
    group: Entry, task: Entry, camera: Entry, line: Entry, multi: Entry, first: FirstBlock, additional: seq<OcvBlock>)

  // No pair without a position; a position needs characters.
  function FirstPairs(position: Entry, chars: seq<byte>): (pairs: Option<seq<Pair>>)
  {
    match position
    case Blank => Some([])
    case NotANumber => None
    case Given(value) => if chars == [] then None else Some([Pair(value, chars)])
  }

  // A block that is enabled needs its text, or the position it replaces. Unlike a further block it
  // never has a pair without characters.
  function PrimaryBlock(b: FirstBlock, replace: bool): (block: Option<OcvBlock>)
    ensures block.Some? ==>
      && |block.value.additions| <= 1
          && (forall i :: 0 <= i < |block.value.additions| ==> |block.value.additions[i].chars| > 0)
      && |block.value.replacements| <= 1
      && (forall i :: 0 <= i < |block.value.replacements| ==> |block.value.replacements[i].chars| > 0)
      && (block.value.enabled == 0 || (if replace then |block.value.replacements| == 1 else |block.value.text| > 0))
  {
    var enabled, font := Optional(b.enabled, 1), Optional(b.font, 0);
    var additions, replacements := FirstPairs(b.addPosition, b.addChars), FirstPairs(b.replacePosition, b.replaceChars);
    if enabled.None? || font.None? || additions.None? || replacements.None? || !b.number.Given? then None
    else if enabled.value != 0 && (if replace then b.replacePosition.Blank? else b.text == []) then None
    else Some(OcvBlock(b.number.value, enabled.value, font.value, b.text, additions.value, replacements.value))
  }

  // Group and task, and the number of a multiple check, count only for the codes that send them.
  function OcvOf(code: int, i: OcvInput): (arguments: Option<OcvArguments>)
  {
    var first := PrimaryBlock(i.first, code in OCV_REPLACE);
    var multi := if code in OCV_MULTI then Optional(i.multi, 0) else Some(0);
    if code in OCV_TASK && (!i.group.Given? || !i.task.Given?) then None
    else if !i.camera.Given? || !i.line.Given? || multi.None? || first.None? then None
    else
      var group, task := if code in OCV_TASK then i.group.value else 0, if code in OCV_TASK then i.task.value else 0;
      Some(OcvArguments(group, task, i.camera.value, i.line.value, multi.value, [first.value] + i.additional))
  }

  const OCV_TASK := {34001, 34003, 34005}
  const OCV_MULTI := {34000, 34001}
  const OCV_REPLACE := {34004, 34005}

  function PackPair(pair: Pair, coding: Coding): (words: seq<word>)
  {
    DwordToWords(pair.position) + PackString(pair.chars, coding)
  }

  // The list ends with a position 0.
  function PackPairs(pairs: seq<Pair>, coding: Coding): (words: seq<word>)
  {
    if |pairs| == 0 then DwordToWords(0) else PackPair(pairs[0], coding) + PackPairs(pairs[1..], coding)
  }

  // What a block starts with; a replacing command has neither font nor text.
  function BlockFields(block: OcvBlock, replace: bool): (fields: seq<Field>)
  {
    [IntField(block.number), IntField(block.enabled)]
    + if replace then [] else [IntField(block.font), TextField(block.text)]
  }

  function BlockPairs(block: OcvBlock, replace: bool): (pairs: seq<Pair>)
  {
    if replace then block.replacements else block.additions
  }

  function PackBlock(block: OcvBlock, replace: bool, coding: Coding): (words: seq<word>)
  {
    PackFields(BlockFields(block, replace), coding) + PackPairs(BlockPairs(block, replace), coding)
  }

  function PackBlocks(blocks: seq<OcvBlock>, replace: bool, coding: Coding): (words: seq<word>)
  {
    if |blocks| == 0 then [] else PackBlock(blocks[0], replace, coding) + PackBlocks(blocks[1..], replace, coding)
  }

  function OcvHeader(code: int, arguments: OcvArguments): (numbers: seq<int>)
  {
    (if code in OCV_TASK then [arguments.group, arguments.task] else [])
    + [arguments.camera, arguments.line, if code in OCV_MULTI then arguments.multi else 0, |arguments.blocks|]
  }

  function Ints(numbers: seq<int>): (fields: seq<Field>)
    ensures |fields| == |numbers|
  {
    seq(|numbers|, i requires 0 <= i < |numbers| => IntField(numbers[i]))
  }

  // Limits are in characters.
  predicate PairsFit(pairs: seq<Pair>, limit: nat, coding: Coding)
  {
    forall i :: 0 <= i < |pairs| ==> coding.length(pairs[i].chars) <= limit
  }

  predicate BlockFits(block: OcvBlock, replace: bool, coding: Coding)
  {
    if replace then PairsFit(block.replacements, 63, coding)
    else coding.length(block.text) <= 25 && PairsFit(block.additions, 62, coding)
  }

  // None stands for the ProtocolError of a text that is too long or a wrong number of blocks.
  function PackOcv(code: int, arguments: OcvArguments, coding: Coding): (words: Option<seq<word>>)
  {
    var replace, blocks := code in OCV_REPLACE, arguments.blocks;
    if !(1 <= |blocks| <= 20) || exists i :: 0 <= i < |blocks| && !BlockFits(blocks[i], replace, coding) then None
    else Some(PackFields(Ints(OcvHeader(code, arguments)), coding) + PackBlocks(blocks, replace, coding))
  }

  // ---------- export and import ----------

  const EXPORT_FIELDS: map<int, seq<string>> := map[
    0 := ["image_save", "shared_light", "history", "inspect_folder"],
    1 := [],
    2 := [],
    3 := ["group", "image_save", "shared_light", "history", "inspect_folder"],
    4 := ["group", "task", "image_save", "image_format", "shared_light", "history", "inspect_folder",
        "inspect_folder_number"],
    5 := [],
    6 := [],
    7 := ["group", "task", "image_save", "image_format", "shared_light", "history", "inspect_folder",
        "inspect_folder_number"],
    9 := ["group", "task", "image_save", "image_format", "inspect_folder", "inspect_folder_number"],
    10 := ["csv_convert"],
    11 := [],
    12 := ["group", "task"],
    13 := [],
    14 := [],
    15 := ["display_number"],
    16 := ["group", "task", "inspect_specified", "inspect_specified_number"],
    17 := []]

  const NUMERIC := "__numeric__"

  const IMPORT_FIELDS: map<int, seq<string>> := map[
    0 := ["delete_images", "delete_inspect", "keep_capture", "shared_light", "include_3d", NUMERIC, "include_system"],
    1 := [],
    2 := [],
    3 := ["group", "delete_images", "delete_inspect", "keep_capture", "shared_light", NUMERIC],
    4 := ["group", "task", "delete_images", "delete_inspect", "keep_capture", "shared_light", NUMERIC],
    5 := [],
    6 := [],
    7 := ["group", "task", "delete_images", "delete_inspect", "keep_capture", "shared_light", "include_3d", NUMERIC,
          "include_system"],
    9 := ["group", "task", "delete_images", "delete_inspect"],
    11 := [],
    12 := ["group", "task"],
    13 := [],
    14 := [],
    15 := [],
    16 := ["group", "task", "delete_inspect_specified"],
    17 := []]

  const NUMERIC_KINDS := {0, 3, 4, 7}

  // A transfer as it is asked for; path is the folder or file path.
  datatype TransferInput = TransferInput(kind: Entry, numericMode: bool, numbers: map<string, Entry>, path: seq<byte>)

  // numbers holds the integer arguments that are given.
  datatype Transfer = Transfer(kind: int, numericMode: bool, numbers: map<string, int>, path: seq<byte>)

  function Number(numbers: map<string, int>, key: string): (value: int)
  {
    if key in numbers then numbers[key] else 0
  }

  function Numbers(numbers: map<string, int>, keys: seq<string>): (values: seq<int>)
    ensures |values| == |keys|
  {
    seq(|keys|, i requires 0 <= i < |keys| => Number(numbers, keys[i]))
  }

  // Keys of the integers of an export, in order, behind the kind.
  function ExportKeys(kind: int): (keys: seq<string>)
    requires kind in EXPORT_FIELDS
  {
    ["progress", "version_major", "version_minor", "version_sub"] + EXPORT_FIELDS[kind]
  }

  function UsesNumeric(t: Transfer): (uses: bool)
  {
    t.numericMode && t.kind in NUMERIC_KINDS
  }

  function Without(keys: seq<string>, key: string): (rest: seq<string>)
  {
    if |keys| == 0 then []
    else (if keys[0] == key then [] else [keys[0]]) + Without(keys[1..], key)
  }

  function Renamed(keys: seq<string>, key: string, name: string): (renamed: seq<string>)
  {
    if |keys| == 0 then [] else [if keys[0] == key then name else keys[0]] + Renamed(keys[1..], key, name)
  }

  // Keys of the integers of an import behind the kind; the numeric one only where it is used.
  function ImportKeys(kind: int, numeric: bool): (keys: seq<string>)
    requires kind in IMPORT_FIELDS
  {
    ["progress"] + if numeric then Renamed(IMPORT_FIELDS[kind], NUMERIC, "numeric_adjust")
                   else Without(IMPORT_FIELDS[kind], NUMERIC)
  }

  function ExportFieldList(t: Transfer): (fields: seq<Field>)
    requires t.kind in EXPORT_FIELDS
  {
    Ints([t.kind] + Numbers(t.numbers, ExportKeys(t.kind))) + [TextField(t.path)]
  }

  function ImportFieldList(t: Transfer): (fields: seq<Field>)
    requires t.kind in IMPORT_FIELDS
  {
    Ints([if UsesNumeric(t) then t.kind + 100 else t.kind] + Numbers(t.numbers, ImportKeys(t.kind, UsesNumeric(t))))
    + [TextField(t.path)]
  }

  function GivenNumbers(numbers: map<string, Entry>): (given: map<string, int>)
  {
    map key | key in numbers && numbers[key].Given? :: numbers[key].value
  }

  predicate AnyNotANumber(numbers: map<string, Entry>, keys: seq<string>)
  {
    exists k :: 0 <= k < |keys| && keys[k] in numbers && numbers[keys[k]].NotANumber?
  }

  // None stands for the ProtocolError of a missing or unknown kind or of an entry that is no number.
  function TransferOf(i: TransferInput, exporting: bool): (transfer: Option<Transfer>)
  {
    if !i.kind.Given? then None
    else if (if exporting then i.kind.value !in EXPORT_FIELDS else i.kind.value !in IMPORT_FIELDS) then None
    else
      var t := Transfer(i.kind.value, i.numericMode, GivenNumbers(i.numbers), i.path);
      var keys := if exporting then ExportKeys(t.kind) else ImportKeys(t.kind, UsesNumeric(t));
      if AnyNotANumber(i.numbers, keys) then None else Some(t)
  }

  function PackExport(t: Transfer, coding: Coding): (words: Option<seq<word>>)
  {
    if t.kind !in EXPORT_FIELDS || |t.path| == 0 || coding.length(t.path) > 200 then None
    else Some(PackFields(ExportFieldList(t), coding))
  }

  function PackImport(t: Transfer, coding: Coding): (words: Option<seq<word>>)
  {
    if t.kind !in IMPORT_FIELDS || |t.path| == 0 || coding.length(t.path) > 256 then None
    else Some(PackFields(ImportFieldList(t), coding))
  }

  // ---------- commands in catalogue order ----------

  // An argument as text, stripped and in upper case, and as int() and float() find it.
  datatype Argument = Argument(text: seq<byte>, upper: seq<byte>, asInt: Option<int>, asReal: Option<real>)

  datatype Spec = Spec(
    code: int,
    folderAsCode: bool,
    params: seq<string>,
    stringParams: set<string>,
    blankStrings: set<string>,
    defaults: map<string, Argument>)

  // round(): to the nearest integer, ties to the even one.
  function RoundHalfEven(r: real): (n: int)
    ensures r - 0.5 <= n as real <= r + 0.5
    ensures n as real == r - 0.5 || n as real == r + 0.5 ==> n % 2 == 0
  {
    var floor := r.Floor;
    var rest := r - floor as real;
    if rest < 0.5 then floor
    else if rest > 0.5 then floor + 1
    else if floor % 2 == 0 then floor
    else floor + 1
  }

  const NoArgument := Argument([], [], None, None)

  const FOLDER_CODE: map<int, int> := map[
    'B' as int := 1, 'F' as int := 2, 'L' as int := 3, 'M' as int := 4, 'I' as int := 5,
    'O' as int := 6, 'S' as int := 7, 'T' as int := 8, 'H' as int := 9]

  predicate IsDigits(text: seq<byte>)
  {
    |text| > 0 && forall i :: 0 <= i < |text| ==> '0' as int <= text[i] <= '9' as int
  }

  // A folder by number or letter.
  function FolderCode(a: Argument): (code: Option<int>)
  {
    if IsDigits(a.upper) && a.asInt.Some? && 1 <= a.asInt.value <= 9 then a.asInt
    else if |a.upper| == 1 && a.upper[0] in FOLDER_CODE then Some(FOLDER_CODE[a.upper[0]])
    else None
  }

  // The arguments a standard command packs: where its folder goes as a code, the code instead.
  function Effective(spec: Spec, arguments: map<string, Argument>): (effective: Option<map<string, Argument>>)
  {
    if !spec.folderAsCode then Some(arguments)
    else
      var code := FolderCode(if "folder" in arguments then arguments["folder"] else NoArgument);
      if code.None? then None
      else
        var digit := ['0' as int + code.value % 10];
        Some(arguments["folder" := Argument(digit, digit, code, Some(code.value as real))])
  }

  // The given argument, else the default, else an empty text where that is allowed.
  function RawArgument(spec: Spec, arguments: map<string, Argument>, key: string): (raw: Option<Argument>)
  {
    if key in arguments && |arguments[key].text| > 0 then Some(arguments[key])
    else if key in spec.defaults then Some(spec.defaults[key])
    else if key in spec.blankStrings then Some(NoArgument)
    else None
  }

  // Texts as they are, x and y in thousandths, everything else as integers; None is an error.
  function StandardField(spec: Spec, arguments: map<string, Argument>, key: string): (field: Option<Field>)
  {
    var raw := RawArgument(spec, arguments, key);
    if raw.None? then None
    else if key in spec.stringParams || key in spec.blankStrings then Some(TextField(raw.value.text))
    else if key == "x" || key == "y" then
      if raw.value.asReal.None? then None else Some(IntField(RoundHalfEven(raw.value.asReal.value * 1000.0)))
    else if raw.value.asInt.None? then None
    else Some(IntField(raw.value.asInt.value))
  }

  function StandardFields(spec: Spec, arguments: map<string, Argument>, keys: seq<string>): (fields: Option<seq<Field>>)
  {
    if |keys| == 0 then Some([])
    else
      var front := StandardFields(spec, arguments, keys[..|keys| - 1]);
      var last := StandardField(spec, arguments, keys[|keys| - 1]);
      if front.None? || last.None? then None else Some(front.value + [last.value])
  }

  function StandardValues(spec: Spec, arguments: map<string, Argument>): (fields: Option<seq<Field>>)
  {
    var effective := Effective(spec, arguments);
    if effective.None? then None else StandardFields(spec, effective.value, spec.params)
  }

  // ---------- the whole area ----------

  datatype Payload =
    | Ocv(ocv: OcvInput)
    | Export(transfer: TransferInput)
    | Import(transfer: TransferInput)
    | Standard(spec: Spec, arguments: map<string, Argument>)

  function PackPayload(code: int, payload: Payload, coding: Coding): (words: Option<seq<word>>)
  {
    match payload
    case Ocv(input) =>
      var arguments := OcvOf(code, input);
      if arguments.None? then None else PackOcv(code, arguments.value, coding)
    case Export(input) =>
      var t := TransferOf(input, true);
      if t.None? then None else PackExport(t.value, coding)
    case Import(input) =>
      var t := TransferOf(input, false);
      if t.None? then None else PackImport(t.value, coding)
    case Standard(spec, arguments) =>
      var fields := StandardValues(spec, arguments);
      if fields.None? then None else Some(PackFields(fields.value, coding))
  }

  // Trigger 0, the code, the parameters, and zeros up to the size of the area.
  function BuildCommandWords(code: int, payload: Payload, coding: Coding, areaSize: nat): (words: Option<seq<word>>)
  {
    var packed := PackPayload(code, payload, coding);
    if packed.None? || 4 + |packed.value| > areaSize then None
    else Some(DwordToWords(0) + DwordToWords(code) + packed.value + Zeros(areaSize - 4 - |packed.value|))
  }
}
