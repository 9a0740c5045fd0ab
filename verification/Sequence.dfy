/**
 Card sequences and what running them means (backend/engine.py): the effect of every card on the
 engine's state and event trace, with stops and loop breaks as signals.
 */
module Sequence {
  import opened Bytes

  datatype Source =
    | Literal(value: string)
    | LastResponse
    | LastStatus
    | CardResponse(cardId: string)
    | CardStatus(cardId: string)
    | Port(query: string)

  datatype Operator = Equals | Contains | NotContains

  datatype Condition = Condition(onStatus: bool, operator: Operator, value: string)

  datatype CommandCard = CommandCard(
    code: string,
    arguments: map<string, string>,
    variables: seq<(string, string)>,
    ignoreResponse: bool)

  datatype Step =
    | Command(id: string, card: CommandCard)
    | Delay(id: string, milliseconds: int)
    | Break(id: string)
    | Note(id: string, text: string)
    | Variable(id: string, name: string, source: Source)
    | If(id: string, condition: Condition, thenSteps: seq<Step>, elseSteps: seq<Step>)
    | Loop(id: string, count: int, body: seq<Step>)

  datatype CommandResult = CommandResult(status: string, responses: seq<string>)

  // What lies outside the engine. device answers a command sent at a time (None: it raises),
  // external reads a port or result area (None: it raises), and from time stopAt on the stop
  // event is set.
  datatype World = World(
    catalog: set<string>,
    localIo: set<string>,
    upper: string -> string,
    strip: string -> string,
    accepts: (string, map<string, string>) -> bool,
    device: (nat, string, map<string, string>, bool) -> Option<CommandResult>,
    external: (nat, string) -> Option<string>,
    stopAt: Option<nat>)

  datatype Event =
    | SequenceStarted
    | SequenceStopped
    | SequenceCompleted
    | StepStarted(index: nat, step: Step)
    | StepCompleted(index: nat, step: Step)
    | LoopBroken(index: nat, step: Step)
    | Noted(index: nat, step: Step)
    | Stored(index: nat, step: Step, value: string)
    | Checked(step: Step, matched: bool)
    | Iterated(step: Step, iteration: int)
    | Sent(index: nat, step: Step)
    | Received(index: nat, step: Step, response: string)

  datatype Stamped = Stamped(time: nat, event: Event)

  // The engine's fields. Every await (an event handed over, a command, a sleep) takes one tick.
  datatype State = State(
    trace: seq<Stamped>,
    clock: nat,
    stepNumber: nat,
    lastResult: Option<CommandResult>,
    lastResponse: string,
    variables: map<string, string>,
    cards: map<string, CommandResult>)

  datatype Reason = MisplacedBreak | Protocol

  // How running some cards ended: SequenceStopped, LoopBreak and ProtocolError are exceptions.
  datatype Signal = Normal | BreakOut | StopOut | Failed(reason: Reason)

  predicate Stopped(w: World, time: nat)
  {
    w.stopAt.Some? && time >= w.stopAt.value
  }

  function Emit(st: State, event: Event): (next: State)
  {
    st.(trace := st.trace + [Stamped(st.clock, event)], clock := st.clock + 1)
  }

  // ---------- leaf cards ----------

  function ResolveArguments(w: World, arguments: map<string, string>, variables: seq<(string, string)>,
                            known: map<string, string>): (resolved: Option<map<string, string>>)
  {
    if |variables| == 0 then Some(arguments)
    else
      var front := ResolveArguments(w, arguments, variables[..|variables| - 1], known);
      var key, name := variables[|variables| - 1].0, w.strip(variables[|variables| - 1].1);
      if front.None? then None
      else if name == "" then front
      else if name !in known then None
      else Some(front.value[key := known[name]])
  }

  function ShowResponses(st: State, index: nat, step: Step, responses: seq<string>): (next: State)
  {
    if |responses| == 0 then st
    else
      var response := responses[|responses| - 1];
      Emit(ShowResponses(st, index, step, responses[..|responses| - 1]).(lastResponse := response),
           Received(index, step, response))
  }

  function Remember(st: State, id: string, result: CommandResult): (next: State)
  {
    st.(lastResult := Some(result), cards := if id == "" then st.cards else st.cards[id := result])
  }

  predicate Refused(status: string)
  {
    status == "NK" || status == "ER"
  }

  function RunCommand(w: World, step: Step, index: nat, st: State): (result: (State, Signal))
    requires step.Command?
  {
    var code := w.upper(step.card.code);
    var arguments := ResolveArguments(w, step.card.arguments, step.card.variables, st.variables);
    if code !in w.catalog || arguments.None? || !w.accepts(code, arguments.value) then (st, Failed(Protocol))
    else
      var sent := Emit(st, Sent(index, step));
      var local := code in w.localIo;
      var reply := w.device(sent.clock, code, arguments.value, !local && step.card.ignoreResponse);
      var waited := sent.(clock := sent.clock + 1);
      if reply.None? then (waited, Failed(Protocol))
      else
        var shown := ShowResponses(Remember(waited, step.id, reply.value), index, step, reply.value.responses);
        if Refused(reply.value.status) && (local || !step.card.ignoreResponse) then (shown, Failed(Protocol))
        else (shown, Normal)
  }

  function Sleep(w: World, remaining: int, st: State): (result: (State, Signal))
    decreases remaining
  {
    if remaining <= 0 then (st, Normal)
    else if Stopped(w, st.clock) then (st, StopOut)
    else Sleep(w, remaining - (if remaining < 100 then remaining else 100), st.(clock := st.clock + 1))
  }

  function LastOf(responses: seq<string>): (last: string)
  {
    if |responses| == 0 then "" else responses[|responses| - 1]
  }

  function NonEmpty(text: string): (value: Option<string>)
  {
    if text == "" then None else Some(text)
  }

  function ReadSource(w: World, source: Source, st: State): (value: Option<string>)
  {
    match source
    case Literal(value) => Some(value)
    case LastResponse => NonEmpty(w.strip(st.lastResponse))
    case LastStatus => if st.lastResult.None? then None else NonEmpty(st.lastResult.value.status)
    case CardResponse(id) =>
      if id !in st.cards then None
      else NonEmpty(if |st.cards[id].responses| == 0 then "" else w.strip(LastOf(st.cards[id].responses)))
    case CardStatus(id) => if id !in st.cards then None else Some(st.cards[id].status)
    case Port(query) => w.external(st.clock, query)
  }

  function StoreVariable(w: World, step: Step, index: nat, st: State): (result: (State, Signal))
    requires step.Variable?
  {
    var name, value := w.strip(step.name), ReadSource(w, step.source, st);
    if name == "" || value.None? then (st, Failed(Protocol))
    else (Emit(st.(variables := st.variables[name := value.value]), Stored(index, step, value.value)), Normal)
  }

  predicate IsLeaf(step: Step)
  {
    step.Command? || step.Delay? || step.Note? || step.Variable?
  }

  function RunLeaf(w: World, step: Step, index: nat, st: State): (result: (State, Signal))
    requires IsLeaf(step)
  {
    match step
    case Command(_, _) => RunCommand(w, step, index, st)
    case Delay(_, milliseconds) => Sleep(w, milliseconds, st)
    case Note(_, _) => (Emit(st, Noted(index, step)), Normal)
    case Variable(_, _, _) => StoreVariable(w, step, index, st)
  }

  // ---------- conditions ----------

  function JoinLines(lines: seq<string>): (text: string)
  {
    if |lines| == 0 then ""
    else if |lines| == 1 then lines[0]
    else JoinLines(lines[..|lines| - 1]) + "\n" + lines[|lines| - 1]
  }

  predicate Occurs(part: string, text: string)
  {
    exists i :: 0 <= i <= |text| - |part| && OccursAt(part, text, i)
  }

  predicate OccursAt(part: string, text: string, i: nat)
    requires i + |part| <= |text|
  {
    text[i..i + |part|] == part
  }

  function Observed(c: Condition, st: State): (text: string)
  {
    if st.lastResult.None? then ""
    else if c.onStatus then st.lastResult.value.status
    else JoinLines(st.lastResult.value.responses)
  }

  predicate Matches(c: Condition, st: State)
  {
    match c.operator
    case Equals => Observed(c, st) == c.value
    case Contains => Occurs(c.value, Observed(c, st))
    case NotContains => !Occurs(c.value, Observed(c, st))
  }

  // ---------- structured cards ----------

  function Begin(st: State, step: Step): (next: State)
  {
    Emit(st.(stepNumber := st.stepNumber + 1), StepStarted(st.stepNumber + 1, step))
  }

  function RunSteps(w: World, steps: seq<Step>, depth: nat, st: State): (result: (State, Signal))
    decreases steps, 0, 0
  {
    if |steps| == 0 then (st, Normal)
    else
      var first := RunStep(w, steps[0], depth, st);
      if first.1 != Normal then first else RunSteps(w, steps[1..], depth, first.0)
  }

  // A card that ended normally is completed; otherwise its signal goes on outwards.
  function Complete(result: (State, Signal), index: nat, step: Step): (completed: (State, Signal))
  {
    if result.1 == Normal then (Emit(result.0, StepCompleted(index, step)), Normal) else result
  }

  // depth is the loop nesting around the card.
  function RunStep(w: World, step: Step, depth: nat, st: State): (result: (State, Signal))
    decreases step, 2, 0
  {
    if Stopped(w, st.clock) then (st, StopOut)
    else
      var index, begun := st.stepNumber + 1, Begin(st, step);
      match step
      case Break(_) =>
        if depth == 0 then (begun, Failed(MisplacedBreak))
        else (Emit(Emit(begun, LoopBroken(index, step)), StepCompleted(index, step)), BreakOut)
      case If(_, condition, thenSteps, elseSteps) =>
        var checked := Emit(begun, Checked(step, Matches(condition, begun)));
        Complete(RunSteps(w, if Matches(condition, begun) then thenSteps else elseSteps, depth, checked), index, step)
      case Loop(_, _, _) => Complete(RunLoop(w, step, 1, depth + 1, begun), index, step)
      case _ => Complete(RunLeaf(w, step, index, begun), index, step)
  }

  // The iterations from one on. A break out of the body ends the loop normally.
  function RunLoop(w: World, step: Step, iteration: int, depth: nat, st: State): (result: (State, Signal))
    requires step.Loop?
    decreases step, 1, if iteration <= step.count then step.count - iteration + 1 else 0
  {
    if iteration > step.count then (st, Normal)
    else if Stopped(w, st.clock) then (st, StopOut)
    else
      var body := RunSteps(w, step.body, depth, Emit(st, Iterated(step, iteration)));
      match body.1
      case Normal => RunLoop(w, step, iteration + 1, depth, body.0)
      case BreakOut => (body.0, Normal)
      case _ => body
  }

  // What the card at hand comes to, by kind.
  lemma LeafCard(w: World, step: Step, depth: nat, st: State)
    requires IsLeaf(step) && !Stopped(w, st.clock)
    ensures var index := st.stepNumber + 1;
            RunStep(w, step, depth, st) == Complete(RunLeaf(w, step, index, Begin(st, step)), index, step)
  {
  }

  lemma LoopCard(w: World, step: Step, depth: nat, st: State)
    requires step.Loop? && !Stopped(w, st.clock)
    ensures RunStep(w, step, depth, st)
         == Complete(RunLoop(w, step, 1, depth + 1, Begin(st, step)), st.stepNumber + 1, step)
  {
  }

  // How a whole run ends; an error leaves run() as an exception, after which no event follows.
  datatype Outcome = Completed | StoppedByUser | Error(reason: Reason) | EscapedBreak

  function Reset(st: State): (next: State)
  {
    st.(stepNumber := 0, lastResponse := "", variables := map[], cards := map[])
  }

  function Run(w: World, steps: seq<Step>, st: State): (result: (State, Outcome))
  {
    var body := RunSteps(w, steps, 0, Emit(Reset(st), SequenceStarted));
    match body.1
    case Normal => (Emit(body.0, SequenceCompleted), Completed)
    case StopOut => (Emit(body.0, SequenceStopped), StoppedByUser)
    case BreakOut => (body.0, EscapedBreak)
    case Failed(reason) => (body.0, Error(reason))
  }

  // ---------- the page's static check ----------

  predicate FindOrphanBreak(steps: seq<Step>, insideLoop: bool)
    decreases steps, 0
  {
    |steps| > 0 && (OrphanIn(steps[0], insideLoop) || FindOrphanBreak(steps[1..], insideLoop))
  }

  predicate OrphanIn(step: Step, insideLoop: bool)
    decreases step, 1
  {
    match step
    case Break(_) => !insideLoop
    case Loop(_, _, body) => FindOrphanBreak(body, true)
    case If(_, _, thenSteps, elseSteps) =>
      FindOrphanBreak(thenSteps, insideLoop) || FindOrphanBreak(elseSteps, insideLoop)
    case _ => false
  }
}
