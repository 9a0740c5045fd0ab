/** The engine with its fields and its exceptions (backend/engine.py), proved to do what module Sequence says. */
module SequenceEngine {
  import opened Bytes
  import S = Sequence

  class SequenceEngine {
    const world: S.World
    var trace: seq<S.Stamped>
    var clock: nat
    var lastResult: Option<S.CommandResult>
    var stepNumber: nat
    var loopDepth: nat
    var lastResponse: string
    var variables: map<string, string>
    var cardResults: map<string, S.CommandResult>

    constructor (world: S.World)
      ensures this.world == world && loopDepth == 0
      ensures State() == S.State([], 0, 0, None, "", map[], map[])
    {
      this.world := world;
      trace, clock, lastResult, stepNumber, loopDepth := [], 0, None, 0, 0;
      lastResponse, variables, cardResults := "", map[], map[];
    }

    function State(): S.State
      reads this
    {
      S.State(trace, clock, stepNumber, lastResult, lastResponse, variables, cardResults)
    }

    method OnEvent(event: S.Event)
      modifies this`trace, this`clock
      ensures State() == S.Emit(old(State()), event)
    {
      trace := trace + [S.Stamped(clock, event)];
      clock := clock + 1;
    }

    method RunCommand(step: S.Step, index: nat) returns (signal: S.Signal)
      requires step.Command?
      modifies this
      ensures (State(), signal) == S.RunCommand(world, step, index, old(State()))
      ensures loopDepth == old(loopDepth)
    {
      var code := world.upper(step.card.code);
      if code !in world.catalog {
        return S.Failed(S.Protocol);
      }
      var arguments := ResolveArguments(step.card);
      if arguments.None? || !world.accepts(code, arguments.value) {
        return S.Failed(S.Protocol);
      }
      OnEvent(S.Sent(index, step));
      var local := code in world.localIo;
      var reply := world.device(clock, code, arguments.value, !local && step.card.ignoreResponse);
      clock := clock + 1;
      if reply.None? {
        return S.Failed(S.Protocol);
      }
      RememberResult(step.id, reply.value);
      ShowResponses(index, step, reply.value.responses);
      if S.Refused(reply.value.status) && (local || !step.card.ignoreResponse) {
        return S.Failed(S.Protocol);
      }
      return S.Normal;
    }

    method RememberResult(id: string, result: S.CommandResult)
      modifies this`lastResult, this`cardResults
      ensures State() == S.Remember(old(State()), id, result)
    {
      lastResult := Some(result);
      if id != "" {
        cardResults := cardResults[id := result];
      }
    }

    method ResolveArguments(card: S.CommandCard) returns (resolved: Option<map<string, string>>)
      ensures resolved == S.ResolveArguments(world, card.arguments, card.variables, variables)
    {
      var found := card.arguments;
      for i := 0 to |card.variables|
        invariant S.ResolveArguments(world, card.arguments, card.variables[..i], variables) == Some(found)
      {
        assert card.variables[..i + 1][..i] == card.variables[..i];
        var name := world.strip(card.variables[i].1);
        if name != "" {
          if name !in variables {
            ResolveStops(card.variables, i + 1, card.arguments);
            return None;
          }
          found := found[card.variables[i].0 := variables[name]];
        }
      }
      assert card.variables[..|card.variables|] == card.variables;
      resolved := Some(found);
    }

    lemma {:induction false} ResolveStops(names: seq<(string, string)>, n: nat, arguments: map<string, string>)
      requires n <= |names| && S.ResolveArguments(world, arguments, names[..n], variables).None?
      ensures S.ResolveArguments(world, arguments, names, variables).None?
      decreases |names|
    {
      if n == |names| {
        assert names[..n] == names;
      } else {
        assert names[..|names| - 1][..n] == names[..n];
        ResolveStops(names[..|names| - 1], n, arguments);
      }
    }

    method ShowResponses(index: nat, step: S.Step, responses: seq<string>)
      modifies this`trace, this`clock, this`lastResponse
      ensures State() == S.ShowResponses(old(State()), index, step, responses)
    {
      for i := 0 to |responses|
        invariant State() == S.ShowResponses(old(State()), index, step, responses[..i])
      {
        assert responses[..i + 1][..i] == responses[..i];
        lastResponse := responses[i];
        OnEvent(S.Received(index, step, responses[i]));
      }
      assert responses[..|responses|] == responses;
    }

    method RunDelay(milliseconds: int) returns (signal: S.Signal)
      modifies this`clock
      ensures (State(), signal) == S.Sleep(world, milliseconds, old(State()))
    {
      var remaining := milliseconds;
      while remaining > 0
        invariant S.Sleep(world, remaining, State()) == S.Sleep(world, milliseconds, old(State()))
      {
        if S.Stopped(world, clock) {
          return S.StopOut;
        }
        var interval := if remaining < 100 then remaining else 100;
        clock := clock + 1;
        remaining := remaining - interval;
      }
      signal := S.Normal;
    }

    method StoreVariable(step: S.Step, index: nat) returns (signal: S.Signal)
      requires step.Variable?
      modifies this
      ensures (State(), signal) == S.StoreVariable(world, step, index, old(State()))
      ensures loopDepth == old(loopDepth)
    {
      var name := world.strip(step.name);
      if name == "" {
        return S.Failed(S.Protocol);
      }
      var value := S.ReadSource(world, step.source, State());
      if value.None? {
        return S.Failed(S.Protocol);
      }
      variables := variables[name := value.value];
      OnEvent(S.Stored(index, step, value.value));
      signal := S.Normal;
    }

    // loop_depth is back at its value on every way out, also when an exception passes through.
    method RunSteps(steps: seq<S.Step>) returns (signal: S.Signal)
      modifies this
      ensures (State(), signal) == S.RunSteps(world, steps, old(loopDepth), old(State()))
      ensures loopDepth == old(loopDepth)
      decreases steps, 0, 0
    {
      for i := 0 to |steps|
        invariant loopDepth == old(loopDepth)
        invariant S.RunSteps(world, steps[i..], loopDepth, State())
               == S.RunSteps(world, steps, loopDepth, old(State()))
      {
        assert steps[i..][1..] == steps[i + 1..];
        signal := RunStep(steps[i]);
        if signal != S.Normal {
          return;
        }
      }
      signal := S.Normal;
    }

    method RunStep(step: S.Step) returns (signal: S.Signal)
      modifies this
      ensures (State(), signal) == S.RunStep(world, step, old(loopDepth), old(State()))
      ensures loopDepth == old(loopDepth)
      decreases step, 2, 0
    {
      if S.Stopped(world, clock) {
        return S.StopOut;
      }
      stepNumber := stepNumber + 1;
      var current := stepNumber;
      OnEvent(S.StepStarted(current, step));
      match step {
        case Break(_) =>
          if loopDepth == 0 {
            return S.Failed(S.MisplacedBreak);
          }
          OnEvent(S.LoopBroken(current, step));
          OnEvent(S.StepCompleted(current, step));
          return S.BreakOut;
        case Command(_, _) => signal := RunCommand(step, current);
        case Delay(_, milliseconds) => signal := RunDelay(milliseconds);
        case Note(_, _) =>
          OnEvent(S.Noted(current, step));
          signal := S.Normal;
        case Variable(_, _, _) => signal := StoreVariable(step, current);
        case If(_, _, _, _) => signal := RunIf(step);
        case Loop(_, _, _) => signal := RunLoop(step);
      }
      if signal == S.Normal {
        OnEvent(S.StepCompleted(current, step));
      }
    }

    method RunIf(step: S.Step) returns (signal: S.Signal)
      requires step.If?
      modifies this
      ensures var matched := S.Matches(step.condition, old(State()));
              (State(), signal) == S.RunSteps(world, if matched then step.thenSteps else step.elseSteps, old(loopDepth),
                                              S.Emit(old(State()), S.Checked(step, matched)))
      ensures loopDepth == old(loopDepth)
      decreases step, 1, 0
    {
      var matched := S.Matches(step.condition, State());
      OnEvent(S.Checked(step, matched));
      signal := RunSteps(if matched then step.thenSteps else step.elseSteps);
    }

    method RunLoop(step: S.Step) returns (signal: S.Signal)
      requires step.Loop?
      modifies this
      ensures (State(), signal) == S.RunLoop(world, step, 1, old(loopDepth) + 1, old(State()))
      ensures loopDepth == old(loopDepth)
      decreases step, 1, 0
    {
      loopDepth := loopDepth + 1;
      var iteration := 1;
      signal := S.Normal;
      while iteration <= step.count && signal == S.Normal
        invariant loopDepth == old(loopDepth) + 1
        invariant signal == S.Normal ==>
          S.RunLoop(world, step, iteration, loopDepth, State()) == S.RunLoop(world, step, 1, loopDepth, old(State()))
        invariant signal != S.Normal ==>
          (State(), if signal == S.BreakOut then S.Normal else signal)
              == S.RunLoop(world, step, 1, loopDepth, old(State()))
        decreases step.count - iteration, signal == S.Normal
      {
        if S.Stopped(world, clock) {
          signal := S.StopOut;
        } else {
          OnEvent(S.Iterated(step, iteration));
          signal := RunSteps(step.body);
          if signal == S.Normal {
            iteration := iteration + 1;
          }
        }
      }
      if signal == S.BreakOut {
        signal := S.Normal;
      }
      loopDepth := loopDepth - 1;
    }

    method Run(steps: seq<S.Step>) returns (outcome: S.Outcome)
      requires loopDepth == 0
      modifies this
      ensures (State(), outcome) == S.Run(world, steps, old(State()))
      ensures loopDepth == 0
    {
      stepNumber := 0;
      lastResponse, variables, cardResults := "", map[], map[];
      OnEvent(S.SequenceStarted);
      var signal := RunSteps(steps);
      match signal
      case StopOut =>
        OnEvent(S.SequenceStopped);
        outcome := S.StoppedByUser;
      case Normal =>
        OnEvent(S.SequenceCompleted);
        outcome := S.Completed;
      case BreakOut => outcome := S.EscapedBreak;
      case Failed(reason) => outcome := S.Error(reason);
    }
  }

  // ---------- positions of cards on the page ----------

  // Cards in page order, each structured card before its contents, both branches included.
  function Cards(steps: seq<S.Step>): (cards: seq<S.Step>)
    decreases steps, 0
  {
    if |steps| == 0 then [] else CardsOf(steps[0]) + Cards(steps[1..])
  }

  function CardsOf(step: S.Step): (cards: seq<S.Step>)
    decreases step, 1
  {
    match step
    case If(_, _, thenSteps, elseSteps) => [step] + (Cards(thenSteps) + Cards(elseSteps))
    case Loop(_, _, body) => [step] + Cards(body)
    case _ => [step]
  }

  // Position of every id; of cards with the same id the last one counts.
  function Positions(cards: seq<S.Step>): (positions: map<string, nat>)
  {
    if |cards| == 0 then map[]
    else
      var front, last := Positions(cards[..|cards| - 1]), cards[|cards| - 1];
      if last.id == "" then front else front[last.id := |cards|]
  }

  class StepIndexer {
    var positions: map<string, nat>
    var counter: nat
    ghost var seen: seq<S.Step>

    constructor ()
      ensures Valid() && seen == []
    {
      positions, counter, seen := map[], 0, [];
    }

    ghost predicate Valid()
      reads this
    {
      counter == |seen| && positions == Positions(seen)
    }

    method Walk(items: seq<S.Step>)
      requires Valid()
      modifies this
      ensures Valid() && seen == old(seen) + Cards(items)
      decreases items, 0
    {
      for i := 0 to |items|
        invariant Valid() && seen + Cards(items[i..]) == old(seen) + Cards(items)
      {
        assert items[i..][1..] == items[i + 1..];
        WalkOne(items[i]);
      }
      assert seen + [] == seen;
    }

    method WalkOne(step: S.Step)
      requires Valid()
      modifies this
      ensures Valid() && seen == old(seen) + CardsOf(step)
      decreases step, 1
    {
      counter := counter + 1;
      if step.id != "" {
        positions := positions[step.id := counter];
      }
      assert (seen + [step])[..|seen|] == seen;
      seen := seen + [step];
      match step
      case If(_, _, thenSteps, elseSteps) =>
        ghost var entered := seen;
        Walk(thenSteps);
        Walk(elseSteps);
        assert (entered + Cards(thenSteps)) + Cards(elseSteps) == entered + (Cards(thenSteps) + Cards(elseSteps));
        CardJoins(old(seen), step, Cards(thenSteps) + Cards(elseSteps));
      case Loop(_, _, body) =>
        Walk(body);
        CardJoins(old(seen), step, Cards(body));
      case _ =>
    }

    static lemma CardJoins(before: seq<S.Step>, step: S.Step, inner: seq<S.Step>)
      ensures (before + [step]) + inner == before + ([step] + inner)
    {
    }
  }

  method IndexStepPositions(steps: seq<S.Step>) returns (positions: map<string, nat>, total: nat)
    ensures total == |Cards(steps)| && positions == Positions(Cards(steps))
  {
    var indexer := new StepIndexer();
    indexer.Walk(steps);
    assert [] + Cards(steps) == Cards(steps);
    return indexer.positions, indexer.counter;
  }

  lemma {:induction false} CardsJoin(a: seq<S.Step>, b: seq<S.Step>)
    ensures Cards(a + b) == Cards(a) + Cards(b)
  {
    if |a| == 0 {
      assert a + b == b;
    } else {
      assert (a + b)[1..] == a[1..] + b;
      CardsJoin(a[1..], b);
      assert CardsOf(a[0]) + (Cards(a[1..]) + Cards(b)) == (CardsOf(a[0]) + Cards(a[1..])) + Cards(b);
    }
  }

  // In page order the cards before a structured card come first, then the card itself, its then
  // branch, its else branch or its body, and the cards behind it.
  lemma StructuredInPageOrder(before: seq<S.Step>, step: S.Step, behind: seq<S.Step>)
    requires step.If? || step.Loop?
    ensures Cards(before + [step] + behind)
         == Cards(before) + [step]
            + (if step.If? then Cards(step.thenSteps) + Cards(step.elseSteps) else Cards(step.body)) + Cards(behind)
  {
    CardsJoin(before + [step], behind);
    CardsJoin(before, [step]);
    OneCard(step);
    var inner := if step.If? then Cards(step.thenSteps) + Cards(step.elseSteps) else Cards(step.body);
    CardInFront(Cards(before), step, inner);
  }

  lemma OneCard(step: S.Step)
    ensures Cards([step]) == CardsOf(step)
  {
    assert [step][1..] == [];
    assert CardsOf(step) + [] == CardsOf(step);
  }

  lemma CardInFront(before: seq<S.Step>, step: S.Step, inner: seq<S.Step>)
    ensures before + ([step] + inner) == before + [step] + inner
  {
  }

  // Exactly the ids of cards have positions, blank ones excepted; of several cards with one id it is
  // the last one's, counted from one.
  lemma {:induction false} PositionsExact(cards: seq<S.Step>, id: string)
    ensures id in Positions(cards) <==> id != "" && exists k :: 0 <= k < |cards| && cards[k].id == id
    ensures id in Positions(cards) ==>
      var p := Positions(cards)[id];
      1 <= p <= |cards| && cards[p - 1].id == id && forall k :: p <= k < |cards| ==> cards[k].id != id
  {
    if |cards| > 0 {
      var front, last := cards[..|cards| - 1], cards[|cards| - 1];
      PositionsExact(front, id);
      assert forall k :: 0 <= k < |front| ==> front[k] == cards[k];
      if last.id == id {
        assert cards[|cards| - 1].id == id;
      }
    }
  }

  // With distinct ids the position of a card is its place in page order, counted from one.
  lemma {:induction false} PositionsInPageOrder(cards: seq<S.Step>, k: nat)
    requires k < |cards| && cards[k].id != ""
    requires forall i, j :: 0 <= i < j < |cards| && cards[i].id != "" ==> cards[i].id != cards[j].id
    ensures cards[k].id in Positions(cards) && Positions(cards)[cards[k].id] == k + 1
  {
    if k < |cards| - 1 {
      PositionsInPageOrder(cards[..|cards| - 1], k);
    }
  }
}
