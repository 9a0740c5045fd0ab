/**
 Word offsets inside the Field Network assemblies, and the layout suggested for given assembly
 sizes (backend/field_network/layout.py).
 */
module Layout {
  import opened Bytes

  const STATUS_WORDS := 2
  const RESERVED_WORDS := 2
  const VALID_IO_PORTS := [0, 32, 64, 96, 128]

  datatype AssemblyLayout = AssemblyLayout(
    esiPorts: int, esoPorts: int, commandWords: int, responseWords: int, resultWords: int)
  {
    function EsoWord(): int { STATUS_WORDS }
    function ResultWord(): int { EsoWord() + esoPorts / 16 }
    function ResponseWord(): int { ResultWord() + resultWords }
    function InputWords(): int { ResponseWord() + responseWords }
    function InputBytes(): int { InputWords() * 2 }
    function EsiWord(): int { RESERVED_WORDS }
    function CommandWord(): int { EsiWord() + esiPorts / 16 }
    function OutputWords(): int { CommandWord() + commandWords }
    function OutputBytes(): int { OutputWords() * 2 }
  }

  // None stands for the ProtocolError of a size out of rule.
  function BuildLayout(esiPorts: int, esoPorts: int, commandWords: int, responseWords: int, resultWords: int)
    : (layout: Option<AssemblyLayout>)
  {
    if esiPorts !in VALID_IO_PORTS || esoPorts !in VALID_IO_PORTS then None
    else if commandWords < 4 || commandWords % 2 != 0 then None
    else if responseWords < 4 || responseWords % 2 != 0 then None
    else if resultWords < 0 || resultWords % 2 != 0 then None
    else Some(AssemblyLayout(esiPorts, esoPorts, commandWords, responseWords, resultWords))
  }

  predicate FitsSizes(layout: AssemblyLayout, inputBytes: int, outputBytes: int)
  {
    layout.InputBytes() == inputBytes && layout.OutputBytes() == outputBytes
  }

  // The regions of a built layout follow one another without gap or overlap, and fill the
  // assemblies to the last word.
  lemma RegionsAreAdjacent(layout: AssemblyLayout)
    requires BuildLayout(layout.esiPorts, layout.esoPorts, layout.commandWords, layout.responseWords,
        layout.resultWords)
          == Some(layout)
    ensures 2 == layout.EsoWord() <= layout.ResultWord() <= layout.ResponseWord()
    ensures layout.InputBytes() / 2 - layout.ResponseWord() == layout.responseWords >= 4
    ensures layout.ResponseWord() - layout.ResultWord() == layout.resultWords
    ensures 16 * (layout.ResultWord() - layout.EsoWord()) == layout.esoPorts
    ensures 2 == layout.EsiWord() <= layout.CommandWord()
    ensures 16 * (layout.CommandWord() - layout.EsiWord()) == layout.esiPorts
    ensures layout.OutputBytes() / 2 - layout.CommandWord() == layout.commandWords >= 4
  {
  }

  // ---------- candidates ----------

  function Abs(x: int): (a: nat)
  {
    if x < 0 then -x else x
  }

  function Min(a: int, b: int): (m: int)
  {
    if a < b then a else b
  }

  datatype Out = Out(score: int, esiPorts: int, command: int)

  datatype In = In(score: int, esoPorts: int, result: int, response: int)

  predicate IsOut(outWords: int, preferred: int, c: Out)
  {
    && c.esiPorts in VALID_IO_PORTS
    && c.command == outWords - RESERVED_WORDS - c.esiPorts / 16
    && c.command >= 4 && c.command % 2 == 0
    && c.score == Abs(c.command - preferred)
  }

  // Response sizes that are tried, the preferred one first.
  function Responses(preferred: int): (sizes: seq<int>)
  {
    [preferred, 64, 32, 16, 8, 4]
  }

  predicate IsIn(inWords: int, preferred: int, esiPorts: int, c: In)
  {
    && c.esoPorts in VALID_IO_PORTS
    && c.response in Responses(preferred)
    && c.response % 2 == 0 && c.result >= 0 && c.result % 2 == 0
    && c.response + c.result == inWords - STATUS_WORDS - c.esoPorts / 16 >= 4
    && c.score == InScore(preferred, esiPorts, c.esoPorts, c.result, c.response)
  }

  function InScore(preferred: int, esiPorts: int, esoPorts: int, result: int, response: int): (score: int)
  {
    var sameIo := if esoPorts == esiPorts then 0 else 10;
    Abs(response - preferred) + Min(Abs(result - 238), Abs(result - 240)) + sameIo
  }

  // The order in which tuples are sorted.
  predicate OutBefore(a: Out, b: Out)
  {
    a.score < b.score
    || (a.score == b.score && (a.esiPorts < b.esiPorts || (a.esiPorts == b.esiPorts && a.command <= b.command)))
  }

  predicate InBefore(a: In, b: In)
  {
    a.score < b.score
    || (a.score == b.score
        && (a.esoPorts < b.esoPorts
            || (a.esoPorts == b.esoPorts
                && (a.result < b.result || (a.result == b.result && a.response <= b.response)))))
  }

  // First element of a list after sorting it.
  method FirstOut(candidates: seq<Out>) returns (first: Out)
    requires |candidates| > 0
    ensures first in candidates && forall c :: c in candidates ==> OutBefore(first, c)
  {
    first := candidates[0];
    for i := 1 to |candidates|
      invariant first in candidates && forall j :: 0 <= j < i ==> OutBefore(first, candidates[j])
    {
      if !OutBefore(first, candidates[i]) {
        first := candidates[i];
      }
    }
  }

  method FirstIn(candidates: seq<In>) returns (first: In)
    requires |candidates| > 0
    ensures first in candidates && forall c :: c in candidates ==> InBefore(first, c)
  {
    first := candidates[0];
    for i := 1 to |candidates|
      invariant first in candidates && forall j :: 0 <= j < i ==> InBefore(first, candidates[j])
    {
      if !InBefore(first, candidates[i]) {
        first := candidates[i];
      }
    }
  }

  method OutCandidates(outWords: int, preferred: int) returns (candidates: seq<Out>)
    ensures forall c :: c in candidates <==> IsOut(outWords, preferred, c)
  {
    candidates := [];
    for i := 0 to |VALID_IO_PORTS|
      invariant forall c :: c in candidates <==> IsOut(outWords, preferred, c) && c.esiPorts in VALID_IO_PORTS[..i]
    {
      var esiPorts := VALID_IO_PORTS[i];
      assert VALID_IO_PORTS[..i + 1] == VALID_IO_PORTS[..i] + [esiPorts];
      var command := outWords - RESERVED_WORDS - esiPorts / 16;
      if command >= 4 && command % 2 == 0 {
        candidates := candidates + [Out(Abs(command - preferred), esiPorts, command)];
      }
    }
    assert VALID_IO_PORTS[..|VALID_IO_PORTS|] == VALID_IO_PORTS;
  }

  method InCandidates(inWords: int, preferred: int, esiPorts: int) returns (candidates: seq<In>)
    ensures forall c :: c in candidates <==> IsIn(inWords, preferred, esiPorts, c)
  {
    candidates := [];
    for i := 0 to |VALID_IO_PORTS|
      invariant forall c :: c in candidates <==>
        IsIn(inWords, preferred, esiPorts, c) && c.esoPorts in VALID_IO_PORTS[..i]
    {
      var esoPorts := VALID_IO_PORTS[i];
      assert VALID_IO_PORTS[..i + 1] == VALID_IO_PORTS[..i] + [esoPorts];
      var remain := inWords - STATUS_WORDS - esoPorts / 16;
      if remain >= 4 {
        var own := OfPorts(inWords, preferred, esiPorts, esoPorts);
        candidates := candidates + own;
      }
    }
    assert VALID_IO_PORTS[..|VALID_IO_PORTS|] == VALID_IO_PORTS;
  }

  // The inner loop, over the response sizes for one number of output ports.
  method OfPorts(inWords: int, preferred: int, esiPorts: int, esoPorts: int) returns (own: seq<In>)
    requires esoPorts in VALID_IO_PORTS && inWords - STATUS_WORDS - esoPorts / 16 >= 4
    ensures forall c :: c in own <==> IsIn(inWords, preferred, esiPorts, c) && c.esoPorts == esoPorts
  {
    own := [];
    var sizes, remain := Responses(preferred), inWords - STATUS_WORDS - esoPorts / 16;
    for k := 0 to |sizes|
      invariant forall c :: c in own <==>
        IsIn(inWords, preferred, esiPorts, c) && c.esoPorts == esoPorts && c.response in sizes[..k]
    {
      var response := sizes[k];
      assert sizes[..k + 1] == sizes[..k] + [response];
      var result := remain - response;
      if response <= remain && response % 2 == 0 && result >= 0 && result % 2 == 0 {
        own := own + [In(InScore(preferred, esiPorts, esoPorts, result, response), esoPorts, result, response)];
      }
    }
    assert sizes[..|sizes|] == sizes;
  }

  // ---------- the suggestion ----------

  predicate SizesFit(inputBytes: int, outputBytes: int)
  {
    inputBytes % 4 == 0 && outputBytes % 4 == 0 && inputBytes >= 12 && outputBytes >= 12
  }

  predicate WordsFit(inWords: int, outWords: int)
  {
    inWords % 2 == 0 && outWords % 2 == 0 && inWords >= 6 && outWords >= 6
  }

  ghost predicate LeastOut(outWords: int, preferred: int, out: Out)
  {
    IsOut(outWords, preferred, out) && forall c :: IsOut(outWords, preferred, c) ==> OutBefore(out, c)
  }

  ghost predicate LeastIn(inWords: int, preferred: int, esiPorts: int, chosen: In)
  {
    IsIn(inWords, preferred, esiPorts, chosen)
    && forall c :: IsIn(inWords, preferred, esiPorts, c) ==> InBefore(chosen, c)
  }

  function OutOf(layout: AssemblyLayout, preferred: int): (c: Out)
  {
    Out(Abs(layout.commandWords - preferred), layout.esiPorts, layout.commandWords)
  }

  function InOf(layout: AssemblyLayout, preferred: int): (c: In)
  {
    var score := InScore(preferred, layout.esiPorts, layout.esoPorts, layout.resultWords, layout.responseWords);
    In(score, layout.esoPorts, layout.resultWords, layout.responseWords)
  }

  // The layout whose choices come first among all candidates: ports and command words by their
  // distance from the preferred command size, then the input side by its score.
  ghost predicate IsSuggestion(
    layout: AssemblyLayout, inWords: int, outWords: int, preferredCommand: int, preferredResponse: int)
  {
    && LeastOut(outWords, preferredCommand, OutOf(layout, preferredCommand))
    && LeastIn(inWords, preferredResponse, layout.esiPorts, InOf(layout, preferredResponse))
  }

  lemma OutCandidateExists(outWords: int, preferred: int)
    requires outWords >= 6 && outWords % 2 == 0
    ensures IsOut(outWords, preferred, Out(Abs(outWords - 2 - preferred), 0, outWords - 2))
  {
  }

  lemma InCandidateExists(inWords: int, preferred: int, esiPorts: int)
    requires inWords >= 6 && inWords % 2 == 0
    ensures IsIn(inWords, preferred, esiPorts,
                 In(InScore(preferred, esiPorts, 0, inWords - 6, 4), 0, inWords - 6, 4))
  {
  }

  lemma OutIsEven(outWords: int, preferred: int, c: Out)
    requires IsOut(outWords, preferred, c)
    ensures outWords % 2 == 0 && outWords >= 6
  {
    assert c.esiPorts / 16 % 2 == 0 && c.esiPorts / 16 >= 0;
  }

  lemma InIsEven(inWords: int, preferred: int, esiPorts: int, c: In)
    requires IsIn(inWords, preferred, esiPorts, c)
    ensures inWords % 2 == 0 && inWords >= 6
  {
    assert c.esoPorts / 16 % 2 == 0 && c.esoPorts / 16 >= 0;
  }

  lemma ResponseIsLarge(inWords: int, preferred: int, esiPorts: int, c: In)
    requires IsIn(inWords, preferred, esiPorts, c)
    requires preferred >= 4 || preferred % 2 != 0
    ensures c.response >= 4
  {
  }

  // Halving a size of either parity.
  lemma HalfSize(size: int)
    ensures size % 2 == 0 ==> 2 * (size / 2) == size
    ensures size % 4 == 0 <==> size % 2 == 0 && size / 2 % 2 == 0
    ensures size % 2 == 0 ==> (size >= 12 <==> size / 2 >= 6)
  {
    var q, r := size / 4, size % 4;
    assert size / 2 == 2 * q + r / 2;
  }

  // The sizes of a candidate are the sizes it was made for.
  lemma OutWordsAgree(layout: AssemblyLayout, outWords: int, preferred: int)
    requires IsOut(outWords, preferred, OutOf(layout, preferred))
    ensures layout.OutputWords() == outWords && layout.esiPorts in VALID_IO_PORTS
    ensures layout.commandWords >= 4 && layout.commandWords % 2 == 0
  {
  }

  lemma InWordsAgree(layout: AssemblyLayout, inWords: int, preferred: int)
    requires IsIn(inWords, preferred, layout.esiPorts, InOf(layout, preferred))
    ensures layout.InputWords() == inWords && layout.esoPorts in VALID_IO_PORTS
    ensures layout.resultWords >= 0 && layout.resultWords % 2 == 0 && layout.responseWords % 2 == 0
  {
  }

  // A suggestion has exactly the given sizes, so validating it against them cannot fail, and
  // building it fails only for a response below four words.
  lemma SuggestionFits(layout: AssemblyLayout, inWords: int, outWords: int, preferredCommand: int,
                       preferredResponse: int)
    requires IsSuggestion(layout, inWords, outWords, preferredCommand, preferredResponse)
    ensures WordsFit(inWords, outWords)
    ensures FitsSizes(layout, 2 * inWords, 2 * outWords)
    ensures BuildLayout(layout.esiPorts, layout.esoPorts, layout.commandWords, layout.responseWords, layout.resultWords)
         == if layout.responseWords >= 4 then Some(layout) else None
    ensures preferredResponse >= 4 || preferredResponse % 2 != 0 ==> layout.responseWords >= 4
  {
    OutIsEven(outWords, preferredCommand, OutOf(layout, preferredCommand));
    InIsEven(inWords, preferredResponse, layout.esiPorts, InOf(layout, preferredResponse));
    OutWordsAgree(layout, outWords, preferredCommand);
    InWordsAgree(layout, inWords, preferredResponse);
    if preferredResponse >= 4 || preferredResponse % 2 != 0 {
      ResponseIsLarge(inWords, preferredResponse, layout.esiPorts, InOf(layout, preferredResponse));
    }
  }

  // There is only one.
  lemma SuggestionIsUnique(
    a: AssemblyLayout, b: AssemblyLayout, inWords: int, outWords: int, preferredCommand: int, preferredResponse: int)
    requires IsSuggestion(a, inWords, outWords, preferredCommand, preferredResponse)
    requires IsSuggestion(b, inWords, outWords, preferredCommand, preferredResponse)
    ensures a == b
  {
    assert OutBefore(OutOf(a, preferredCommand), OutOf(b, preferredCommand));
    assert OutBefore(OutOf(b, preferredCommand), OutOf(a, preferredCommand));
    assert a.esiPorts == b.esiPorts;
    assert InBefore(InOf(a, preferredResponse), InOf(b, preferredResponse));
    assert InBefore(InOf(b, preferredResponse), InOf(a, preferredResponse));
  }

  // ---------- what is suggested, in terms of the sizes ----------

  function Apart(a: int, b: int): (distance: int)
  {
    if a < b then b - a else a - b
  }

  // What counts against a division of the input side: how far the response is from the preferred
  // size, how far the result is from 238 or from 240 words, and 10 for numbers of ports that
  // differ.
  function Against(l: AssemblyLayout, preferredResponse: int): (n: int)
  {
    Apart(l.responseWords, preferredResponse)
    + (if Apart(l.resultWords, 238) < Apart(l.resultWords, 240) then Apart(l.resultWords, 238)
       else Apart(l.resultWords, 240))
    + if l.esoPorts == l.esiPorts then 0 else 10
  }

  // The layouts that fill assemblies of these sizes with one of the six response sizes.
  predicate Possible(l: AssemblyLayout, inWords: int, outWords: int, preferredResponse: int)
  {
    && l.esiPorts in {0, 32, 64, 96, 128} && l.esoPorts in {0, 32, 64, 96, 128}
    && l.commandWords == outWords - 2 - l.esiPorts / 16 >= 4 && l.commandWords % 2 == 0
    && l.responseWords in {preferredResponse, 64, 32, 16, 8, 4} && l.responseWords % 2 == 0
    && l.resultWords >= 0 && l.resultWords % 2 == 0
    && l.responseWords + l.resultWords == inWords - 2 - l.esoPorts / 16 >= 4
  }

  // No other layout of these sizes has a command nearer to the preferred size, or as near with
  // fewer input ports; and among those with its input ports none has less against it, or as much
  // with fewer output ports, or with as many and a smaller result.
  lemma SuggestionIsBest(s: AssemblyLayout, l: AssemblyLayout, inWords: int, outWords: int, preferredCommand: int,
                         preferredResponse: int)
    requires IsSuggestion(s, inWords, outWords, preferredCommand, preferredResponse)
    requires Possible(l, inWords, outWords, preferredResponse)
    ensures Possible(s, inWords, outWords, preferredResponse)
    ensures var mine, other := Apart(s.commandWords, preferredCommand), Apart(l.commandWords, preferredCommand);
            mine < other || (mine == other && s.esiPorts <= l.esiPorts)
    ensures l.esiPorts == s.esiPorts ==>
      var mine, other := Against(s, preferredResponse), Against(l, preferredResponse);
      mine < other || (mine == other && (s.esoPorts < l.esoPorts
                                         || (s.esoPorts == l.esoPorts && s.resultWords <= l.resultWords)))
  {
    PossibleIsCandidate(l, inWords, outWords, preferredCommand, preferredResponse);
    CandidateIsPossible(s, inWords, outWords, preferredCommand, preferredResponse);
    assert OutBefore(OutOf(s, preferredCommand), OutOf(l, preferredCommand));
    if l.esiPorts == s.esiPorts {
      assert InBefore(InOf(s, preferredResponse), InOf(l, preferredResponse));
    }
  }

  lemma PossibleIsCandidate(l: AssemblyLayout, inWords: int, outWords: int, preferredCommand: int,
                            preferredResponse: int)
    requires Possible(l, inWords, outWords, preferredResponse)
    ensures IsOut(outWords, preferredCommand, OutOf(l, preferredCommand))
    ensures IsIn(inWords, preferredResponse, l.esiPorts, InOf(l, preferredResponse))
    ensures OutOf(l, preferredCommand).score == Apart(l.commandWords, preferredCommand)
    ensures InOf(l, preferredResponse).score == Against(l, preferredResponse)
  {
    var sizes := Responses(preferredResponse);
    assert sizes[0] == preferredResponse && sizes[1] == 64 && sizes[2] == 32 && sizes[3] == 16 && sizes[4] == 8
        && sizes[5] == 4;
  }

  lemma CandidateIsPossible(s: AssemblyLayout, inWords: int, outWords: int, preferredCommand: int,
                            preferredResponse: int)
    requires IsOut(outWords, preferredCommand, OutOf(s, preferredCommand))
    requires IsIn(inWords, preferredResponse, s.esiPorts, InOf(s, preferredResponse))
    ensures Possible(s, inWords, outWords, preferredResponse)
    ensures OutOf(s, preferredCommand).score == Apart(s.commandWords, preferredCommand)
    ensures InOf(s, preferredResponse).score == Against(s, preferredResponse)
  {
  }

  // A layout of the kind the scores favour: as many input as output ports, 238 or 240 result
  // words, command and response of the preferred sizes.
  predicate Customary(l: AssemblyLayout, preferredCommand: int, preferredResponse: int)
  {
    && BuildLayout(l.esiPorts, l.esoPorts, l.commandWords, l.responseWords, l.resultWords) == Some(l)
    && l.esoPorts == l.esiPorts && (l.resultWords == 238 || l.resultWords == 240)
    && l.commandWords == preferredCommand && l.responseWords == preferredResponse
  }

  // Such a layout is recovered from its sizes alone.
  lemma SuggestionRecovers(s: AssemblyLayout, l: AssemblyLayout, preferredCommand: int, preferredResponse: int)
    requires Customary(l, preferredCommand, preferredResponse)
    requires IsSuggestion(s, l.InputWords(), l.OutputWords(), preferredCommand, preferredResponse)
    ensures s == l
  {
    SuggestionIsBest(s, l, l.InputWords(), l.OutputWords(), preferredCommand, preferredResponse);
    assert s.commandWords == l.commandWords && s.esiPorts / 16 == l.esiPorts / 16;
    assert Against(s, preferredResponse) == 0;
  }

  // ---------- the choice in closed form, for a small preferred response ----------

  // The numbers of ports that leave four words, 0, 32, 64 and so on.
  function Choices(words: int): (n: nat)
    requires words >= 6
    ensures 1 <= n <= |VALID_IO_PORTS|
  {
    if words >= 14 then 5 else (words - 6) / 2 + 1
  }

  // Where a list has its first minimum.
  function FirstMinimum(costs: seq<int>): (k: nat)
    requires |costs| > 0
    ensures k < |costs|
    ensures forall i :: 0 <= i < |costs| ==> costs[k] <= costs[i] && (i < k ==> costs[k] < costs[i])
  {
    if |costs| == 1 then 0
    else
      var front := FirstMinimum(costs[..|costs| - 1]);
      if costs[|costs| - 1] < costs[front] then |costs| - 1 else front
  }

  // Words left for the command, or for result and response, beside 32 k ports.
  function Remaining(words: int, k: nat): (n: int)
  {
    words - 2 - 2 * k
  }

  function OutCosts(outWords: int, preferred: int): (costs: seq<int>)
    requires outWords >= 6
    ensures |costs| == Choices(outWords)
  {
    seq(Choices(outWords), k requires 0 <= k < Choices(outWords) => Abs(Remaining(outWords, k) - preferred))
  }

  // The input ports: as many as bring the command nearest to its preferred size.
  function InputPorts(outWords: int, preferred: int): (ports: int)
    requires outWords >= 6
  {
    32 * FirstMinimum(OutCosts(outWords, preferred))
  }

  // What a number of output ports costs when the response takes its preferred size.
  function Cost(inWords: int, preferred: int, esiPorts: int, k: nat): (cost: int)
  {
    InScore(preferred, esiPorts, 32 * k, Remaining(inWords, k) - preferred, preferred)
  }

  function InCosts(inWords: int, preferred: int, esiPorts: int): (costs: seq<int>)
    requires inWords >= 6
    ensures |costs| == Choices(inWords)
  {
    seq(Choices(inWords), k requires 0 <= k < Choices(inWords) => Cost(inWords, preferred, esiPorts, k))
  }

  function OutputChoice(inWords: int, outWords: int, preferredCommand: int, preferredResponse: int): (k: nat)
    requires inWords >= 6 && outWords >= 6
    ensures k < Choices(inWords)
  {
    FirstMinimum(InCosts(inWords, preferredResponse, InputPorts(outWords, preferredCommand)))
  }

  // The preferred response is even and below four words, and result and response together get
  // fewer than 244 words, so that no larger response is as good.
  predicate TooSmallAPreference(inWords: int, outWords: int, preferredCommand: int, preferredResponse: int)
    requires WordsFit(inWords, outWords)
  {
    && preferredResponse < 4 && preferredResponse % 2 == 0
    && Remaining(inWords, OutputChoice(inWords, outWords, preferredCommand, preferredResponse)) < 244
  }

  // Whatever is preferred: always below 492 input bytes, never from 508 on.
  lemma TooSmallBounds(inWords: int, outWords: int, preferredCommand: int, preferredResponse: int)
    requires WordsFit(inWords, outWords) && preferredResponse < 4 && preferredResponse % 2 == 0
    ensures 2 * inWords < 492 ==> TooSmallAPreference(inWords, outWords, preferredCommand, preferredResponse)
    ensures 2 * inWords >= 508 ==> !TooSmallAPreference(inWords, outWords, preferredCommand, preferredResponse)
  {
  }

  lemma PortsAreChoices(words: int, ports: int) returns (k: nat)
    requires words >= 6 && words % 2 == 0
    requires ports in VALID_IO_PORTS && words - 2 - ports / 16 >= 4
    ensures k < Choices(words) && ports == 32 * k && words - 2 - ports / 16 == Remaining(words, k)
  {
    k := ports / 32;
  }

  lemma ChoicesArePorts(words: int, k: nat)
    requires words >= 6 && words % 2 == 0 && k < Choices(words)
    ensures 32 * k in VALID_IO_PORTS && words - 2 - (32 * k) / 16 == Remaining(words, k) >= 4
  {
    assert k == 0 || k == 1 || k == 2 || k == 3 || k == 4;
  }

  // The output side of a suggestion.
  lemma SuggestedInputPorts(outWords: int, preferred: int, out: Out)
    requires outWords >= 6 && outWords % 2 == 0 && LeastOut(outWords, preferred, out)
    ensures out.esiPorts == InputPorts(outWords, preferred)
  {
    var costs := OutCosts(outWords, preferred);
    var best := FirstMinimum(costs);
    var k := OutAtChoice(outWords, preferred, out);
    var c := ChoiceIsOut(outWords, preferred, best);
    FirstOfCosts(costs, best, k, out, c);
  }

  lemma OutAtChoice(outWords: int, preferred: int, out: Out) returns (k: nat)
    requires outWords >= 6 && outWords % 2 == 0 && IsOut(outWords, preferred, out)
    ensures k < Choices(outWords) && out.esiPorts == 32 * k && out.score == OutCosts(outWords, preferred)[k]
  {
    k := PortsAreChoices(outWords, out.esiPorts);
  }

  lemma ChoiceIsOut(outWords: int, preferred: int, k: nat) returns (c: Out)
    requires outWords >= 6 && outWords % 2 == 0 && k < Choices(outWords)
    ensures IsOut(outWords, preferred, c) && c.esiPorts == 32 * k && c.score == OutCosts(outWords, preferred)[k]
  {
    ChoicesArePorts(outWords, k);
    c := Out(OutCosts(outWords, preferred)[k], 32 * k, Remaining(outWords, k));
  }

  lemma FirstOfCosts(costs: seq<int>, best: nat, k: nat, out: Out, c: Out)
    requires k < |costs| && best < |costs| && best == FirstMinimum(costs)
    requires out.score == costs[k] && out.esiPorts == 32 * k && c.score == costs[best] && c.esiPorts == 32 * best
    requires OutBefore(out, c)
    ensures k == best
  {
  }

  // No other response is better than the preferred one beside the same ports, and it is as good
  // only if it leaves the result 240 words or more.
  lemma PreferredIsBest(inWords: int, preferred: int, esiPorts: int, c: In, k: nat)
    requires inWords % 2 == 0 && preferred < 4 && preferred % 2 == 0
    requires IsIn(inWords, preferred, esiPorts, c) && c.esoPorts == 32 * k
    ensures Cost(inWords, preferred, esiPorts, k) <= c.score
    ensures Cost(inWords, preferred, esiPorts, k) == c.score <==> c.response == preferred || c.result >= 240
  {
    assert c.esoPorts / 16 == 2 * k;
    assert c.result == Remaining(inWords, k) - c.response;
    assert c.response >= preferred;
  }

  // A response of the preferred size, and one of four words, beside 32 k ports.
  lemma TwoCandidates(inWords: int, preferred: int, esiPorts: int, k: nat)
    requires inWords >= 6 && inWords % 2 == 0 && preferred < 4 && preferred % 2 == 0 && k < Choices(inWords)
    ensures var rem := Remaining(inWords, k);
            && IsIn(inWords, preferred, esiPorts,
                In(Cost(inWords, preferred, esiPorts, k), 32 * k, rem - preferred, preferred))
            && IsIn(inWords, preferred, esiPorts,
                    In(InScore(preferred, esiPorts, 32 * k, rem - 4, 4), 32 * k, rem - 4, 4))
  {
    ChoicesArePorts(inWords, k);
  }

  // The input side of a suggestion, for an even preference below four.
  lemma SuggestedResponse(inWords: int, preferred: int, esiPorts: int, chosen: In)
    requires inWords >= 6 && inWords % 2 == 0 && preferred < 4 && preferred % 2 == 0
    requires LeastIn(inWords, preferred, esiPorts, chosen)
    ensures var best := FirstMinimum(InCosts(inWords, preferred, esiPorts));
            chosen.esoPorts == 32 * best && (chosen.response < 4 <==> Remaining(inWords, best) < 244)
  {
    var best := FirstMinimum(InCosts(inWords, preferred, esiPorts));
    var rem := Remaining(inWords, best);
    TwoCandidates(inWords, preferred, esiPorts, best);
    var small := In(Cost(inWords, preferred, esiPorts, best), 32 * best, rem - preferred, preferred);
    var four := In(InScore(preferred, esiPorts, 32 * best, rem - 4, 4), 32 * best, rem - 4, 4);
    SuggestedOutputPorts(inWords, preferred, esiPorts, chosen);
    PreferredIsBest(inWords, preferred, esiPorts, chosen, best);
    PreferredIsBest(inWords, preferred, esiPorts, four, best);
    ChosenResponse(chosen, small, four, preferred, rem);
  }

  // Its ports are the first that cost least.
  lemma SuggestedOutputPorts(inWords: int, preferred: int, esiPorts: int, chosen: In)
    requires inWords >= 6 && inWords % 2 == 0 && preferred < 4 && preferred % 2 == 0
    requires LeastIn(inWords, preferred, esiPorts, chosen)
    ensures chosen.esoPorts == 32 * FirstMinimum(InCosts(inWords, preferred, esiPorts))
  {
    var costs := InCosts(inWords, preferred, esiPorts);
    var best := FirstMinimum(costs);
    var k := PortsAreChoices(inWords, chosen.esoPorts);
    PreferredIsBest(inWords, preferred, esiPorts, chosen, k);
    TwoCandidates(inWords, preferred, esiPorts, best);
    var small := In(costs[best], 32 * best, Remaining(inWords, best) - preferred, preferred);
    FirstOfInCosts(costs, best, k, chosen, small);
  }

  lemma FirstOfInCosts(costs: seq<int>, best: nat, k: nat, chosen: In, small: In)
    requires k < |costs| && best < |costs| && best == FirstMinimum(costs)
    requires costs[k] <= chosen.score && chosen.esoPorts == 32 * k && small.score == costs[best]
        && small.esoPorts == 32 * best
    requires InBefore(chosen, small)
    ensures k == best
  {
  }

  // Between the preferred response and one of four words, both beside the same ports.
  lemma ChosenResponse(chosen: In, small: In, four: In, preferred: int, rem: int)
    requires preferred < 4 && chosen.esoPorts == small.esoPorts == four.esoPorts
    requires chosen.response + chosen.result == rem && (chosen.response == preferred || chosen.response >= 4)
    requires small.response == preferred && small.result == rem - preferred && four.response == 4
        && four.result == rem - 4
    requires small.score <= chosen.score
        && (small.score == chosen.score <==> chosen.response == preferred || chosen.result >= 240)
    requires small.score <= four.score && (small.score == four.score <==> four.result >= 240)
    requires InBefore(chosen, small) && InBefore(chosen, four)
    ensures chosen.response < 4 <==> rem < 244
  {
  }

  lemma TooSmallExactly(l: AssemblyLayout, inWords: int, outWords: int, preferredCommand: int, preferredResponse: int)
    requires WordsFit(inWords, outWords) && IsSuggestion(l, inWords, outWords, preferredCommand, preferredResponse)
    ensures l.responseWords < 4 <==> TooSmallAPreference(inWords, outWords, preferredCommand, preferredResponse)
  {
    if preferredResponse < 4 && preferredResponse % 2 == 0 {
      SuggestedInputPorts(outWords, preferredCommand, OutOf(l, preferredCommand));
      SuggestedResponse(inWords, preferredResponse, l.esiPorts, InOf(l, preferredResponse));
    } else {
      ResponseIsLarge(inWords, preferredResponse, l.esiPorts, InOf(l, preferredResponse));
    }
  }

  // A layout is suggested exactly for sizes that are multiples of 4 and at least 12 bytes, unless
  // the preferred response (64 by default) is too small. It is the first of all candidates.
  method SuggestLayout(inputBytes: int, outputBytes: int, preferredCommand: int := 64, preferredResponse: int := 64)
    returns (layout: Option<AssemblyLayout>)
    ensures SizesFit(inputBytes, outputBytes) ==> WordsFit(inputBytes / 2, outputBytes / 2)
    ensures layout.Some? <==>
      && SizesFit(inputBytes, outputBytes)
      && !TooSmallAPreference(inputBytes / 2, outputBytes / 2, preferredCommand, preferredResponse)
    ensures layout.Some? ==>
      && IsSuggestion(layout.value, inputBytes / 2, outputBytes / 2, preferredCommand, preferredResponse)
      && FitsSizes(layout.value, inputBytes, outputBytes)
    ensures forall l {:trigger Customary(l, preferredCommand, preferredResponse)} ::
      Customary(l, preferredCommand, preferredResponse) && FitsSizes(l, inputBytes, outputBytes) ==>
        layout == Some(l)
  {
    HalfSizes(inputBytes, outputBytes);
    layout := None;
    if inputBytes % 2 == 0 && outputBytes % 2 == 0 {
      layout := SuggestForWords(inputBytes / 2, outputBytes / 2, preferredCommand, preferredResponse);
    }
    forall l {:trigger Customary(l, preferredCommand, preferredResponse)}
      | Customary(l, preferredCommand, preferredResponse) && FitsSizes(l, inputBytes, outputBytes)
      ensures layout == Some(l)
    {
      CustomarySizes(l, preferredCommand, preferredResponse);
      LargeEnough(l.InputWords(), l.OutputWords(), preferredCommand, preferredResponse);
      SuggestionRecovers(layout.value, l, preferredCommand, preferredResponse);
    }
  }

  // The sizes of a customary layout fit.
  lemma CustomarySizes(l: AssemblyLayout, preferredCommand: int, preferredResponse: int)
    requires Customary(l, preferredCommand, preferredResponse)
    ensures WordsFit(l.InputWords(), l.OutputWords()) && SizesFit(l.InputBytes(), l.OutputBytes())
    ensures l.InputBytes() / 2 == l.InputWords() && l.OutputBytes() / 2 == l.OutputWords()
  {
    var words := l.esiPorts / 16;
    assert words == 0 || words == 2 || words == 4 || words == 6 || words == 8;
    Doubled(l.InputWords());
    Doubled(l.OutputWords());
  }

  lemma Doubled(words: int)
    ensures 2 * words / 2 == words
    ensures words % 2 == 0 ==> 2 * words % 4 == 0
  {
  }

  lemma LargeEnough(inWords: int, outWords: int, preferredCommand: int, preferredResponse: int)
    requires WordsFit(inWords, outWords) && preferredResponse >= 4
    ensures !TooSmallAPreference(inWords, outWords, preferredCommand, preferredResponse)
  {
  }

  lemma HalfSizes(inputBytes: int, outputBytes: int)
    ensures SizesFit(inputBytes, outputBytes)
        <==> inputBytes % 2 == 0 && outputBytes % 2 == 0 && WordsFit(inputBytes / 2, outputBytes / 2)
    ensures inputBytes % 2 == 0 ==> 2 * (inputBytes / 2) == inputBytes
    ensures outputBytes % 2 == 0 ==> 2 * (outputBytes / 2) == outputBytes
  {
    HalfSize(inputBytes);
    HalfSize(outputBytes);
  }

  method SuggestForWords(inWords: int, outWords: int, preferredCommand: int, preferredResponse: int)
    returns (layout: Option<AssemblyLayout>)
    ensures layout.Some? <==>
      WordsFit(inWords, outWords) && !TooSmallAPreference(inWords, outWords, preferredCommand, preferredResponse)
    ensures layout.Some? ==>
      && IsSuggestion(layout.value, inWords, outWords, preferredCommand, preferredResponse)
      && FitsSizes(layout.value, 2 * inWords, 2 * outWords)
  {
    if inWords < 6 || outWords < 6 {
      return None;
    }
    var outCandidates := OutCandidates(outWords, preferredCommand);
    if |outCandidates| == 0 {
      if outWords % 2 == 0 {
        OutCandidateExists(outWords, preferredCommand);
      }
      return None;
    }
    var out := FirstOut(outCandidates);
    OutIsEven(outWords, preferredCommand, out);
    layout := SuggestInput(out, inWords, outWords, preferredCommand, preferredResponse);
  }

  method SuggestInput(out: Out, inWords: int, outWords: int, preferredCommand: int, preferredResponse: int)
    returns (layout: Option<AssemblyLayout>)
    requires inWords >= 6 && outWords >= 6 && outWords % 2 == 0 && LeastOut(outWords, preferredCommand, out)
    ensures layout.Some? <==>
      WordsFit(inWords, outWords) && !TooSmallAPreference(inWords, outWords, preferredCommand, preferredResponse)
    ensures layout.Some? ==>
      && IsSuggestion(layout.value, inWords, outWords, preferredCommand, preferredResponse)
      && FitsSizes(layout.value, 2 * inWords, 2 * outWords)
  {
    var inCandidates := InCandidates(inWords, preferredResponse, out.esiPorts);
    if |inCandidates| == 0 {
      if inWords % 2 == 0 {
        InCandidateExists(inWords, preferredResponse, out.esiPorts);
      }
      return None;
    }
    var chosen := FirstIn(inCandidates);
    InIsEven(inWords, preferredResponse, out.esiPorts, chosen);
    layout := BuildChosen(out, chosen, inWords, outWords, preferredCommand, preferredResponse);
  }

  // Builds the layout of the first candidates and validates it.
  method BuildChosen(out: Out, chosen: In, inWords: int, outWords: int, preferredCommand: int, preferredResponse: int)
    returns (layout: Option<AssemblyLayout>)
    requires WordsFit(inWords, outWords)
    requires LeastOut(outWords, preferredCommand, out) && LeastIn(inWords, preferredResponse, out.esiPorts, chosen)
    ensures layout.Some? <==> !TooSmallAPreference(inWords, outWords, preferredCommand, preferredResponse)
    ensures layout.Some? ==>
      && IsSuggestion(layout.value, inWords, outWords, preferredCommand, preferredResponse)
      && FitsSizes(layout.value, 2 * inWords, 2 * outWords)
  {
    ghost var choice := AssemblyLayout(out.esiPorts, chosen.esoPorts, out.command, chosen.response, chosen.result);
    assert OutOf(choice, preferredCommand) == out && InOf(choice, preferredResponse) == chosen;
    SuggestionFits(choice, inWords, outWords, preferredCommand, preferredResponse);
    TooSmallExactly(choice, inWords, outWords, preferredCommand, preferredResponse);
    layout := BuildLayout(out.esiPorts, chosen.esoPorts, out.command, chosen.response, chosen.result);
    if layout.Some? && !FitsSizes(layout.value, 2 * inWords, 2 * outWords) {
      layout := None;
    }
  }
}
