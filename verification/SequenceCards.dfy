/**
 What each kind of card does, told from outside the interpreter: events, times, fields and signal
 in terms of the card, the world and the state before it.
 */
module SequenceCards {
  import opened Bytes
  import opened Sequence
  import opened SequenceProperties

  // No stop is set yet.
  predicate GoingOn(w: World, time: nat)
  {
    w.stopAt.Some? ==> time < w.stopAt.value
  }

  // Events handed over one after the other, each taking one tick.
  function Told(st: State, events: seq<Event>): (after: State)
  {
    st.(trace := st.trace + seq(|events|, i requires 0 <= i < |events| => Stamped(st.clock + i, events[i])),
        clock := st.clock + |events|)
  }

  lemma ToldNothing(st: State)
    ensures Told(st, []) == st
  {
    assert st.trace + [] == st.trace;
  }

  lemma ToldNext(st: State, events: seq<Event>, event: Event)
    ensures Told(st, events + [event]) == Emit(Told(st, events), event)
  {
    var all := events + [event];
    assert seq(|all|, i requires 0 <= i < |all| => Stamped(st.clock + i, all[i]))
        == seq(|events|, i requires 0 <= i < |events| => Stamped(st.clock + i, events[i]))
           + [Stamped(st.clock + |events|, event)];
  }

  lemma ToldOne(st: State, event: Event)
    ensures Told(st, [event]) == Emit(st, event)
  {
    ToldNothing(st);
    ToldNext(st, [], event);
    assert [] + [event] == [event];
  }

  lemma ToldTwo(st: State, first: Event, second: Event)
    ensures Told(st, [first, second]) == Emit(Emit(st, first), second)
  {
    ToldOne(st, first);
    ToldNext(st, [first], second);
    assert [first] + [second] == [first, second];
  }

  // A card that has been numbered and announced.
  function Started(st: State, step: Step): (begun: State)
  {
    Told(st.(stepNumber := st.stepNumber + 1), [StepStarted(st.stepNumber + 1, step)])
  }

  // How a card ends whose contents have ended with a signal.
  function Closed(result: (State, Signal), index: nat, step: Step): (closed: (State, Signal))
  {
    if result.1 == Normal then (Told(result.0, [StepCompleted(index, step)]), Normal) else result
  }

  lemma StartedBegins(st: State, step: Step)
    ensures Started(st, step) == Begin(st, step)
  {
    ToldOne(st.(stepNumber := st.stepNumber + 1), StepStarted(st.stepNumber + 1, step));
  }

  lemma ClosedCompletes(result: (State, Signal), index: nat, step: Step)
    ensures Closed(result, index, step) == Complete(result, index, step)
  {
    ToldOne(result.0, StepCompleted(index, step));
  }

  // ---------- lists of cards, and stops ----------

  // Cards run one after the other, and the first signal ends the list.
  lemma {:induction false} CardsInTurn(w: World, a: seq<Step>, b: seq<Step>, depth: nat, st: State)
    ensures RunSteps(w, a + b, depth, st)
        == if RunSteps(w, a, depth, st).1 != Normal then RunSteps(w, a, depth, st)
           else RunSteps(w, b, depth, RunSteps(w, a, depth, st).0)
  {
    if |a| == 0 {
      assert a + b == b;
    } else {
      assert (a + b)[1..] == a[1..] + b;
      CardsInTurn(w, a[1..], b, depth, RunStep(w, a[0], depth, st).0);
    }
  }

  // No card begins once stop is set: it ends the list and leaves everything as it was.
  lemma StoppedBeforeCard(w: World, step: Step, rest: seq<Step>, depth: nat, st: State)
    requires w.stopAt.Some? && w.stopAt.value <= st.clock
    ensures RunSteps(w, [step] + rest, depth, st) == (st, StopOut)
  {
  }

  // ---------- If cards ----------

  // Lines joined by line feeds, told from the front.
  function Joined(lines: seq<string>): (text: string)
  {
    if |lines| == 0 then "" else if |lines| == 1 then lines[0] else lines[0] + "\n" + Joined(lines[1..])
  }

  lemma {:induction false} JoinedAlike(lines: seq<string>)
    ensures JoinLines(lines) == Joined(lines)
  {
    if |lines| == 2 {
      assert lines[..1] == [lines[0]] && lines[1..] == [lines[1]];
    } else if |lines| > 2 {
      JoinedAlike(lines[..|lines| - 1]);
      JoinedSnoc(lines);
    }
  }

  lemma {:induction false} JoinedSnoc(lines: seq<string>)
    requires |lines| > 1
    ensures Joined(lines) == Joined(lines[..|lines| - 1]) + "\n" + lines[|lines| - 1]
  {
    var front, last := lines[..|lines| - 1], lines[|lines| - 1];
    if |lines| == 2 {
      assert lines[1..] == [last] && front == [lines[0]];
    } else {
      JoinedSnoc(lines[1..]);
      assert lines[1..][..|lines| - 2] == front[1..];
      var head, mid := lines[0] + "\n", Joined(front[1..]);
      assert head + (mid + "\n" + last) == (head + mid) + "\n" + last;
    }
  }

  // What an If card looks at: "" without a result, else the status or the joined responses.
  function Seen(c: Condition, last: Option<CommandResult>): (text: string)
  {
    match last
    case None => ""
    case Some(result) => if c.onStatus then result.status else Joined(result.responses)
  }

  lemma OccursMeans(part: string, text: string)
    ensures Occurs(part, text) <==> exists a, b :: text == a + part + b
  {
    if Occurs(part, text) {
      var i :| 0 <= i <= |text| - |part| && OccursAt(part, text, i);
      assert text == text[..i] + part + text[i + |part|..];
    }
    if a, b :| text == a + part + b {
      assert OccursAt(part, text, |a|);
    }
  }

  // The then branch runs exactly if the text is the value (equals), contains it (contains), or
  // does not (not contains); the else branch otherwise. Nothing but the branch itself follows the
  // condition event.
  lemma IfBranches(w: World, step: Step, depth: nat, st: State)
    requires step.If? && GoingOn(w, st.clock)
    ensures var text, value := Seen(step.condition, st.lastResult), step.condition.value;
            var matched := match step.condition.operator
              case Equals => text == value
              case Contains => exists a, b :: text == a + value + b
              case NotContains => !exists a, b :: text == a + value + b;
            var checked := Told(Started(st, step), [Checked(step, matched)]);
            RunStep(w, step, depth, st)
            == Closed(RunSteps(w, if matched then step.thenSteps else step.elseSteps, depth, checked),
                      st.stepNumber + 1, step)
  {
    StartedBegins(st, step);
    if st.lastResult.Some? {
      JoinedAlike(st.lastResult.value.responses);
    }
    var matched := Matches(step.condition, Begin(st, step));
    OccursMeans(step.condition.value, Seen(step.condition, st.lastResult));
    ToldOne(Begin(st, step), Checked(step, matched));
    var branch := if matched then step.thenSteps else step.elseSteps;
    ClosedCompletes(RunSteps(w, branch, depth, Emit(Begin(st, step), Checked(step, matched))), st.stepNumber + 1, step);
  }

  // ---------- Break, Note and Delay cards ----------

  lemma BreakCard(w: World, step: Step, depth: nat, st: State)
    requires step.Break? && GoingOn(w, st.clock)
    ensures var begun, index := Started(st, step), st.stepNumber + 1;
            RunStep(w, step, depth, st)
            == if depth == 0 then (begun, Failed(MisplacedBreak))
               else (Told(begun, [LoopBroken(index, step), StepCompleted(index, step)]), BreakOut)
  {
    StartedBegins(st, step);
    ToldTwo(Begin(st, step), LoopBroken(st.stepNumber + 1, step), StepCompleted(st.stepNumber + 1, step));
  }

  lemma NoteCard(w: World, step: Step, depth: nat, st: State)
    requires step.Note? && GoingOn(w, st.clock)
    ensures var index := st.stepNumber + 1;
            RunStep(w, step, depth, st)
            == (Told(Started(st, step), [Noted(index, step), StepCompleted(index, step)]), Normal)
  {
    StartedBegins(st, step);
    ToldTwo(Begin(st, step), Noted(st.stepNumber + 1, step), StepCompleted(st.stepNumber + 1, step));
  }

  // Sleeps of a delay: one for each tenth of a second begun.
  function Slices(milliseconds: int): (n: nat)
  {
    if milliseconds <= 0 then 0 else (milliseconds + 99) / 100
  }

  lemma {:induction false} SleepTicks(w: World, remaining: int, st: State)
    ensures var n := Slices(remaining);
            Sleep(w, remaining, st)
            == if n == 0 || GoingOn(w, st.clock + n - 1) then (st.(clock := st.clock + n), Normal)
               else (st.(clock := if st.clock < w.stopAt.value then w.stopAt.value else st.clock), StopOut)
    decreases remaining
  {
    if remaining > 0 && !Stopped(w, st.clock) {
      var slice := if remaining < 100 then remaining else 100;
      assert Slices(remaining) == Slices(remaining - slice) + 1;
      SleepTicks(w, remaining - slice, st.(clock := st.clock + 1));
    }
  }

  // A delay sleeps once per tenth of a second begun and then completes, unless stop is set before
  // one of the sleeps: then it ends there and then.
  lemma DelayCard(w: World, step: Step, depth: nat, st: State)
    requires step.Delay? && GoingOn(w, st.clock)
    ensures var begun, n, index := Started(st, step), Slices(step.milliseconds), st.stepNumber + 1;
            RunStep(w, step, depth, st)
            == if n == 0 || GoingOn(w, begun.clock + n - 1)
               then (Told(begun.(clock := begun.clock + n), [StepCompleted(index, step)]), Normal)
               else (begun.(clock := if begun.clock < w.stopAt.value then w.stopAt.value else begun.clock), StopOut)
  {
    var begun := Begin(st, step);
    StartedBegins(st, step);
    SleepTicks(w, step.milliseconds, begun);
    ClosedCompletes(Sleep(w, step.milliseconds, begun), st.stepNumber + 1, step);
  }

  // ---------- Variable cards ----------

  // The value a variable card stores, if it can be read.
  ghost predicate Readable(w: World, source: Source, st: State, value: string)
  {
    match source
    case Literal(text) => value == text
    case LastResponse => value == w.strip(st.lastResponse) && value != ""
    case LastStatus => st.lastResult.Some? && value == st.lastResult.value.status && value != ""
    case CardStatus(id) => id in st.cards && value == st.cards[id].status
    case CardResponse(id) =>
      id in st.cards && |st.cards[id].responses| > 0 && value != ""
      && value == w.strip(st.cards[id].responses[|st.cards[id].responses| - 1])
    case Port(query) => w.external(st.clock, query) == Some(value)
  }

  // It stores that value under its stripped name, which must not be blank, or fails without
  // storing anything.
  lemma VariableCard(w: World, step: Step, depth: nat, st: State, value: string)
    requires step.Variable? && GoingOn(w, st.clock)
    ensures var begun, index, name := Started(st, step), st.stepNumber + 1, w.strip(step.name);
            && (name != "" && Readable(w, step.source, begun, value) ==>
                  RunStep(w, step, depth, st)
                  == (Told(begun.(variables := st.variables[name := value]),
                           [Stored(index, step, value), StepCompleted(index, step)]), Normal))
            && (name == "" || (forall v :: !Readable(w, step.source, begun, v)) ==>
                  RunStep(w, step, depth, st) == (begun, Failed(Protocol)))
  {
    var begun, index, name := Begin(st, step), st.stepNumber + 1, w.strip(step.name);
    StartedBegins(st, step);
    ReadSourceMeans(w, step.source, begun, value);
    ToldTwo(begun.(variables := st.variables[name := value]), Stored(index, step, value), StepCompleted(index, step));
    if ReadSource(w, step.source, begun).Some? {
      ReadSourceMeans(w, step.source, begun, ReadSource(w, step.source, begun).value);
    }
  }

  lemma ReadSourceMeans(w: World, source: Source, st: State, value: string)
    ensures ReadSource(w, source, st) == Some(value) <==> Readable(w, source, st, value)
  {
  }

  // ---------- Command cards ----------

  // A variable is named, and its name is not blank.
  predicate Named(w: World, variables: seq<(string, string)>, i: nat)
    requires i < |variables|
  {
    w.strip(variables[i].1) != ""
  }

  // The last named variable for a key.
  predicate DecidesKey(w: World, variables: seq<(string, string)>, i: nat, key: string)
    requires i < |variables|
  {
    && Named(w, variables, i) && variables[i].0 == key
    && forall j :: i < j < |variables| ==> !(Named(w, variables, j) && variables[j].0 == key)
  }

  // Arguments fail exactly for a named variable that is not known. Otherwise a key takes the value
  // of the last variable named for it, and every other argument stays as entered.
  lemma {:induction false} ArgumentsResolved(w: World, arguments: map<string, string>,
                                             variables: seq<(string, string)>, known: map<string, string>)
    ensures var resolved := ResolveArguments(w, arguments, variables, known);
            && (resolved.None? <==>
                  exists i :: 0 <= i < |variables| && Named(w, variables, i) && w.strip(variables[i].1) !in known)
            && (resolved.Some? ==>
                  && (forall i :: 0 <= i < |variables| && Named(w, variables, i) ==>
                        w.strip(variables[i].1) in known && variables[i].0 in resolved.value)
                  && (forall i, key :: 0 <= i < |variables| && DecidesKey(w, variables, i, key) ==>
                        resolved.value[key] == known[w.strip(variables[i].1)])
                  && (forall key ::
                        (forall i :: 0 <= i < |variables| && Named(w, variables, i) ==> variables[i].0 != key) ==>
                        (key in resolved.value <==> key in arguments)
                        && (key in arguments ==> resolved.value[key] == arguments[key])))
  {
    if |variables| > 0 {
      var n := |variables| - 1;
      ArgumentsResolved(w, arguments, variables[..n], known);
      LastVariable(w, arguments, variables, known);
    }
  }

  lemma LastVariable(w: World, arguments: map<string, string>, variables: seq<(string, string)>,
                     known: map<string, string>)
    requires |variables| > 0
    ensures var front, n := variables[..|variables| - 1], |variables| - 1;
            && (forall i :: 0 <= i < n ==> Named(w, variables, i) == Named(w, front, i))
            && (forall i, key :: 0 <= i < n && DecidesKey(w, variables, i, key) ==> DecidesKey(w, front, i, key))
  {
  }

  // The answers as they are shown, one event each.
  function Shown(index: nat, step: Step, responses: seq<string>): (events: seq<Event>)
    ensures |events| == |responses|
  {
    seq(|responses|, i requires 0 <= i < |responses| => Received(index, step, responses[i]))
  }

  lemma {:induction false} ShownAlike(st: State, index: nat, step: Step, responses: seq<string>)
    ensures ShowResponses(st, index, step, responses)
        == Told(st, Shown(index, step, responses))
           .(lastResponse := if responses == [] then st.lastResponse else responses[|responses| - 1])
  {
    if |responses| == 0 {
      ToldNothing(st);
    } else {
      var front, last := responses[..|responses| - 1], responses[|responses| - 1];
      ShownAlike(st, index, step, front);
      assert Shown(index, step, responses) == Shown(index, step, front) + [Received(index, step, last)];
      ToldNext(st, Shown(index, step, front), Received(index, step, last));
    }
  }

  // The command is refused before it is sent: unknown, an unknown variable, or its arguments.
  predicate Unsendable(w: World, card: CommandCard, known: map<string, string>)
  {
    var arguments := ResolveArguments(w, card.arguments, card.variables, known);
    w.upper(card.code) !in w.catalog || arguments.None? || !w.accepts(w.upper(card.code), arguments.value)
  }

  // The result is kept as the last one and under the card's id, every response is shown and the
  // last one kept; NK and ER fail the card, unless the response is to be ignored and the command
  // goes to the device.
  function Taken(waited: State, index: nat, step: Step, result: CommandResult): (after: State)
    requires step.Command?
  {
    Told(waited, Shown(index, step, result.responses))
    .(lastResult := Some(result),
      lastResponse := if result.responses == [] then waited.lastResponse
                      else result.responses[|result.responses| - 1],
      cards := if step.id == "" then waited.cards else waited.cards[step.id := result])
  }

  lemma CommandCardRuns(w: World, step: Step, depth: nat, st: State)
    requires step.Command? && GoingOn(w, st.clock)
    ensures var begun, index, card := Started(st, step), st.stepNumber + 1, step.card;
            var code, local := w.upper(card.code), w.upper(card.code) in w.localIo;
            var sent := Told(begun, [Sent(index, step)]);
            if Unsendable(w, card, st.variables) then RunStep(w, step, depth, st) == (begun, Failed(Protocol))
            else
              var arguments := ResolveArguments(w, card.arguments, card.variables, st.variables).value;
              match w.device(st.clock + 2, code, arguments, card.ignoreResponse && !local)
              case None => RunStep(w, step, depth, st) == (sent.(clock := sent.clock + 1), Failed(Protocol))
              case Some(result) =>
                var after := Taken(sent.(clock := sent.clock + 1), index, step, result);
                RunStep(w, step, depth, st)
                == if (result.status == "NK" || result.status == "ER") && !(card.ignoreResponse && !local)
                   then (after, Failed(Protocol))
                   else (Told(after, [StepCompleted(index, step)]), Normal)
  {
    var begun, index := Begin(st, step), st.stepNumber + 1;
    LeafCard(w, step, depth, st);
    StartedBegins(st, step);
    CommandRuns(w, step, index, begun);
    ClosedCompletes(RunCommand(w, step, index, begun), index, step);
  }

  lemma CommandRuns(w: World, step: Step, index: nat, begun: State)
    requires step.Command?
    ensures var card := step.card;
            var code, local := w.upper(card.code), w.upper(card.code) in w.localIo;
            var sent := Told(begun, [Sent(index, step)]);
            if Unsendable(w, card, begun.variables) then
              RunCommand(w, step, index, begun) == (begun, Failed(Protocol))
            else
              var arguments := ResolveArguments(w, card.arguments, card.variables, begun.variables).value;
              match w.device(begun.clock + 1, code, arguments, card.ignoreResponse && !local)
              case None => RunCommand(w, step, index, begun) == (sent.(clock := sent.clock + 1), Failed(Protocol))
              case Some(result) =>
                var after := Taken(sent.(clock := sent.clock + 1), index, step, result);
                RunCommand(w, step, index, begun)
                == (after, if (result.status == "NK" || result.status == "ER") && !(card.ignoreResponse && !local)
                           then Failed(Protocol) else Normal)
  {
    ToldOne(begun, Sent(index, step));
    if !Unsendable(w, step.card, begun.variables) {
      var code, local := w.upper(step.card.code), w.upper(step.card.code) in w.localIo;
      var arguments := ResolveArguments(w, step.card.arguments, step.card.variables, begun.variables).value;
      var reply := w.device(begun.clock + 1, code, arguments, step.card.ignoreResponse && !local);
      var waited := Emit(begun, Sent(index, step)).(clock := begun.clock + 2);
      if reply.Some? {
        ReplyTaken(waited, index, step, reply.value);
      }
    }
  }

  lemma ReplyTaken(waited: State, index: nat, step: Step, result: CommandResult)
    requires step.Command?
    ensures ShowResponses(Remember(waited, step.id, result), index, step, result.responses)
         == Taken(waited, index, step, result)
  {
    ShownAlike(Remember(waited, step.id, result), index, step, result.responses);
  }

  // ---------- Loop cards ----------

  // A loop that has run its body k times is cut short by a stop that is set before the next
  // iteration, and by a body that stops or fails.
  lemma LoopCutShort(w: World, step: Step, depth: nat, st: State, k: nat)
    requires step.Loop? && k < step.count && AfterRuns(w, step, depth, st, k).Some?
    ensures var before := AfterRuns(w, step, depth, st, k).value;
            if !GoingOn(w, before.clock) then RunLoop(w, step, 1, depth, st) == (before, StopOut)
            else
              var run := RunSteps(w, step.body, depth, Told(before, [Iterated(step, k + 1)]));
              run.1 != Normal && run.1 != BreakOut ==> RunLoop(w, step, 1, depth, st) == run
  {
    var before := AfterRuns(w, step, depth, st, k).value;
    LoopUnrolls(w, step, depth, st, k);
    ToldOne(before, Iterated(step, k + 1));
  }

  // ---------- whole runs ----------

  // A run starts at number 0 with no variables, no remembered cards and no last response, but
  // with the last result of the run before; and it ends as its cards end.
  lemma WholeRun(w: World, steps: seq<Step>, st: State)
    ensures var cleared := State(st.trace, st.clock, 0, st.lastResult, "", map[], map[]);
            var body := RunSteps(w, steps, 0, Told(cleared, [SequenceStarted]));
            Run(w, steps, st) == match body.1
              case Normal => (Told(body.0, [SequenceCompleted]), Completed)
              case StopOut => (Told(body.0, [SequenceStopped]), StoppedByUser)
              case BreakOut => (body.0, EscapedBreak)
              case Failed(reason) => (body.0, Error(reason))
  {
    var start := Emit(Reset(st), SequenceStarted);
    ToldOne(Reset(st), SequenceStarted);
    ToldOne(RunSteps(w, steps, 0, start).0, SequenceCompleted);
    ToldOne(RunSteps(w, steps, 0, start).0, SequenceStopped);
  }
}
