/** The events of a run nest like brackets, except where a break jumps out of If cards. */
module SequenceNesting {
  import opened Bytes
  import opened Sequence
  import M = SequenceMachine

  // A started card that has not been left, by number.
  datatype Open = Open(index: nat, step: Step)

  // Open cards, innermost last; breaking from a loop_break until its loop completes.
  datatype Nest = Nest(open: seq<Open>, breaking: bool)

  function PopIfs(open: seq<Open>): (rest: seq<Open>)
  {
    if |open| > 0 && open[|open| - 1].step.If? then PopIfs(open[..|open| - 1]) else open
  }

  predicate Innermost(open: seq<Open>, index: nat, step: Step)
  {
    |open| > 0 && open[|open| - 1] == Open(index, step)
  }

  // The events a well-nested trace may go on with. While a break is under way only the break
  // card itself and then its loop may complete, and the loop takes away the If cards in between.
  function Follow(nest: Nest, event: Event): (next: Option<Nest>)
  {
    var open := nest.open;
    match event
    case StepStarted(index, step) => if nest.breaking then None else Some(Nest(open + [Open(index, step)], false))
    case LoopBroken(index, step) =>
      if !nest.breaking && step.Break? && Innermost(open, index, step) then Some(Nest(open, true)) else None
    case StepCompleted(index, step) =>
      if nest.breaking && step.Loop? then
        var rest := PopIfs(open);
        if Innermost(rest, index, step) then Some(Nest(rest[..|rest| - 1], false)) else None
      else if Innermost(open, index, step) && (nest.breaking ==> step.Break?) then
        Some(Nest(open[..|open| - 1], nest.breaking))
      else None
    case Checked(step, _) => if !nest.breaking && |open| > 0 && open[|open| - 1].step == step then Some(nest) else None
    case Iterated(step, _) => if !nest.breaking && |open| > 0 && open[|open| - 1].step == step then Some(nest) else None
    case Noted(index, step) => if !nest.breaking && Innermost(open, index, step) then Some(nest) else None
    case Stored(index, step, _) => if !nest.breaking && Innermost(open, index, step) then Some(nest) else None
    case Sent(index, step) => if !nest.breaking && Innermost(open, index, step) then Some(nest) else None
    case Received(index, step, _) => if !nest.breaking && Innermost(open, index, step) then Some(nest) else None
    case SequenceStarted => if open == [] && !nest.breaking then Some(nest) else None
    case SequenceCompleted => if open == [] && !nest.breaking then Some(nest) else None
    case SequenceStopped => if !nest.breaking then Some(nest) else None
  }

  // The nesting after the events from a position on; None when they do not nest.
  function NestOf(trace: seq<Stamped>, from: nat): (nest: Option<Nest>)
  {
    if |trace| <= from then Some(Nest([], false))
    else
      var front := NestOf(trace[..|trace| - 1], from);
      if front.None? then None else Follow(front.value, trace[|trace| - 1].event)
  }

  ghost predicate At(st: State, from: nat, open: seq<Open>)
  {
    from <= |st.trace| && NestOf(st.trace, from) == Some(Nest(open, false))
  }

  lemma EmitNest(st: State, from: nat, event: Event)
    requires from <= |st.trace|
    ensures NestOf(Emit(st, event).trace, from)
         == if NestOf(st.trace, from).None? then None else Follow(NestOf(st.trace, from).value, event)
  {
    assert Emit(st, event).trace[..|st.trace|] == st.trace;
  }

  // A break is under way, and above the given cards only If cards are open.
  ghost predicate BreakingFrom(st: State, from: nat, open: seq<Open>, inner: seq<Open>)
  {
    && from <= |st.trace|
    && NestOf(st.trace, from) == Some(Nest(open + inner, true))
    && (forall i :: 0 <= i < |inner| ==> inner[i].step.If?)
  }

  ghost predicate Leaves(result: (State, Signal), from: nat, open: seq<Open>)
  {
    match result.1
    case Normal => At(result.0, from, open)
    case BreakOut => exists inner :: BreakingFrom(result.0, from, open, inner)
    case _ => exists inner :: At(result.0, from, open + inner)
  }

  // As Leaves, but a loop that was broken still has its break under way.
  ghost predicate LeavesLoop(result: (State, Signal), from: nat, open: seq<Open>)
  {
    match result.1
    case Normal => At(result.0, from, open) || exists inner :: BreakingFrom(result.0, from, open, inner)
    case BreakOut => false
    case _ => exists inner :: At(result.0, from, open + inner)
  }

  // ---------- leaf cards ----------

  lemma {:induction false} ResponsesNest(st: State, from: nat, open: seq<Open>, index: nat, step: Step,
                                         responses: seq<string>)
    requires At(st, from, open) && Innermost(open, index, step)
    ensures At(ShowResponses(st, index, step, responses), from, open)
  {
    if |responses| > 0 {
      var n := |responses| - 1;
      ResponsesNest(st, from, open, index, step, responses[..n]);
      EmitNest(ShowResponses(st, index, step, responses[..n]), from, Received(index, step, responses[n]));
    }
  }

  lemma {:induction false} SleepNest(w: World, remaining: int, st: State)
    ensures Sleep(w, remaining, st).0.trace == st.trace
    decreases remaining
  {
    if remaining > 0 && !Stopped(w, st.clock) {
      SleepNest(w, remaining - (if remaining < 100 then remaining else 100), st.(clock := st.clock + 1));
    }
  }

  lemma CommandNest(w: World, step: Step, index: nat, st: State, from: nat, open: seq<Open>)
    requires step.Command? && At(st, from, open) && Innermost(open, index, step)
    ensures At(RunCommand(w, step, index, st).0, from, open)
  {
    EmitNest(st, from, Sent(index, step));
    var sent := Emit(st, Sent(index, step));
    var waited := sent.(clock := sent.clock + 1);
    var arguments := ResolveArguments(w, step.card.arguments, step.card.variables, st.variables);
    if arguments.Some? {
      var code := w.upper(step.card.code);
      var reply := w.device(sent.clock, code, arguments.value, code !in w.localIo && step.card.ignoreResponse);
      if reply.Some? {
        ResponsesNest(Remember(waited, step.id, reply.value), from, open, index, step, reply.value.responses);
      }
    }
  }

  lemma LeafNest(w: World, step: Step, index: nat, st: State, from: nat, open: seq<Open>)
    requires IsLeaf(step) && At(st, from, open) && Innermost(open, index, step)
    ensures At(RunLeaf(w, step, index, st).0, from, open)
  {
    match step
    case Command(_, _) => CommandNest(w, step, index, st, from, open);
    case Delay(_, milliseconds) => SleepNest(w, milliseconds, st);
    case Note(_, _) => EmitNest(st, from, Noted(index, step));
    case Variable(_, _, source) =>
      var value := ReadSource(w, source, st);
      if value.Some? {
        EmitNest(st.(variables := st.variables[w.strip(step.name) := value.value]), from,
            Stored(index, step, value.value));
      }
  }

  // ---------- structured cards ----------

  lemma StartNest(step: Step, st: State, from: nat, open: seq<Open>)
    requires At(st, from, open)
    ensures At(Begin(st, step), from, open + [Open(st.stepNumber + 1, step)])
  {
    EmitNest(st.(stepNumber := st.stepNumber + 1), from, StepStarted(st.stepNumber + 1, step));
  }

  // A card other than a loop whose contents have been left.
  lemma CompleteNest(result: (State, Signal), index: nat, step: Step, from: nat, open: seq<Open>)
    requires Leaves(result, from, open + [Open(index, step)]) && (result.1 == BreakOut ==> step.If?)
    ensures Leaves(Complete(result, index, step), from, open)
  {
    var card := [Open(index, step)];
    if result.1 == Normal {
      EmitNest(result.0, from, StepCompleted(index, step));
      assert (open + card)[..|open|] == open;
    } else if result.1 == BreakOut {
      var inner :| BreakingFrom(result.0, from, open + card, inner);
      assert (open + card) + inner == open + (card + inner);
      assert BreakingFrom(result.0, from, open, card + inner);
    } else {
      var inner :| At(result.0, from, (open + card) + inner);
      assert (open + card) + inner == open + (card + inner);
      assert At(result.0, from, open + (card + inner));
    }
  }

  lemma {:induction false} PopIfsOnly(open: seq<Open>, inner: seq<Open>)
    requires |open| > 0 && !open[|open| - 1].step.If?
    requires forall i :: 0 <= i < |inner| ==> inner[i].step.If?
    ensures PopIfs(open + inner) == open
  {
    if |inner| == 0 {
      assert open + inner == open;
    } else {
      assert (open + inner)[..|open + inner| - 1] == open + inner[..|inner| - 1];
      PopIfsOnly(open, inner[..|inner| - 1]);
    }
  }

  lemma CompleteLoopNest(result: (State, Signal), index: nat, step: Step, from: nat, open: seq<Open>)
    requires step.Loop? && LeavesLoop(result, from, open + [Open(index, step)])
    ensures Leaves(Complete(result, index, step), from, open)
  {
    var card := [Open(index, step)];
    if result.1 == Normal {
      EmitNest(result.0, from, StepCompleted(index, step));
      assert (open + card)[..|open|] == open;
      if !At(result.0, from, open + card) {
        var inner :| BreakingFrom(result.0, from, open + card, inner);
        PopIfsOnly(open + card, inner);
      }
    } else {
      CompleteNest(result, index, step, from, open);
    }
  }

  lemma BreakNest(step: Step, index: nat, begun: State, from: nat, open: seq<Open>)
    requires step.Break? && At(begun, from, open + [Open(index, step)])
    ensures Leaves((Emit(Emit(begun, LoopBroken(index, step)), StepCompleted(index, step)), BreakOut), from, open)
  {
    var card := [Open(index, step)];
    EmitNest(begun, from, LoopBroken(index, step));
    var broken := Emit(begun, LoopBroken(index, step));
    EmitNest(broken, from, StepCompleted(index, step));
    assert (open + card)[..|open|] == open && open + [] == open;
    assert BreakingFrom(Emit(broken, StepCompleted(index, step)), from, open, []);
  }

  lemma {:induction false} StepsNest(w: World, steps: seq<Step>, depth: nat, st: State, from: nat, open: seq<Open>)
    requires At(st, from, open)
    ensures Leaves(RunSteps(w, steps, depth, st), from, open)
    decreases steps, 0, 0
  {
    if |steps| > 0 {
      StepNest(w, steps[0], depth, st, from, open);
      var first := RunStep(w, steps[0], depth, st);
      if first.1 == Normal {
        StepsNest(w, steps[1..], depth, first.0, from, open);
      }
    }
  }

  lemma {:induction false} StepNest(w: World, step: Step, depth: nat, st: State, from: nat, open: seq<Open>)
    requires At(st, from, open)
    ensures Leaves(RunStep(w, step, depth, st), from, open)
    decreases step, 3, 0
  {
    if Stopped(w, st.clock) {
      AtLeaves((st, StopOut), from, open);
    } else {
      match step
      case Break(_) => BreakCardNest(w, step, depth, st, from, open);
      case If(_, _, _, _) => IfCardNest(w, step, depth, st, from, open);
      case Loop(_, _, _) => LoopCardNest(w, step, depth, st, from, open);
      case _ => LeafCardNest(w, step, depth, st, from, open);
    }
  }

  lemma {:induction false} IfCardNest(w: World, step: Step, depth: nat, st: State, from: nat, open: seq<Open>)
    requires step.If? && At(st, from, open) && !Stopped(w, st.clock)
    ensures Leaves(RunStep(w, step, depth, st), from, open)
    decreases step, 2, 0
  {
    StartNest(step, st, from, open);
    BranchNest(w, step, st.stepNumber + 1, depth, Begin(st, step), from, open);
  }

  lemma BreakCardNest(w: World, step: Step, depth: nat, st: State, from: nat, open: seq<Open>)
    requires step.Break? && At(st, from, open) && !Stopped(w, st.clock)
    ensures Leaves(RunStep(w, step, depth, st), from, open)
  {
    var index, begun := st.stepNumber + 1, Begin(st, step);
    StartNest(step, st, from, open);
    if depth > 0 {
      BreakNest(step, index, begun, from, open);
    } else {
      assert At(begun, from, open + [Open(index, step)]);
    }
  }

  lemma {:induction false} LoopCardNest(w: World, step: Step, depth: nat, st: State, from: nat, open: seq<Open>)
    requires step.Loop? && At(st, from, open) && !Stopped(w, st.clock)
    ensures Leaves(RunStep(w, step, depth, st), from, open)
    decreases step, 2, 0
  {
    var index, begun := st.stepNumber + 1, Begin(st, step);
    LoopCard(w, step, depth, st);
    StartNest(step, st, from, open);
    LoopNest(w, step, 1, depth + 1, begun, from, open + [Open(index, step)]);
    CompleteLoopNest(RunLoop(w, step, 1, depth + 1, begun), index, step, from, open);
  }

  lemma LeafCardNest(w: World, step: Step, depth: nat, st: State, from: nat, open: seq<Open>)
    requires IsLeaf(step) && At(st, from, open) && !Stopped(w, st.clock)
    ensures Leaves(RunStep(w, step, depth, st), from, open)
  {
    var index, begun := st.stepNumber + 1, Begin(st, step);
    var done := RunLeaf(w, step, index, begun);
    LeafCard(w, step, depth, st);
    StartNest(step, st, from, open);
    LeafNest(w, step, index, begun, from, open + [Open(index, step)]);
    M.LeafSignals(w, step, index, begun);
    AtLeaves(done, from, open + [Open(index, step)]);
    CompleteNest(done, index, step, from, open);
  }

  lemma AtLeaves(done: (State, Signal), from: nat, open: seq<Open>)
    requires At(done.0, from, open) && done.1 != BreakOut
    ensures Leaves(done, from, open)
  {
    assert open + [] == open;
    assert At(done.0, from, open + []);
  }

  lemma {:induction false} BranchNest(w: World, step: Step, index: nat, depth: nat, begun: State, from: nat,
                                      open: seq<Open>)
    requires step.If? && At(begun, from, open + [Open(index, step)])
    ensures var matched := Matches(step.condition, begun);
            Leaves(Complete(RunSteps(w, if matched then step.thenSteps else step.elseSteps, depth,
                                     Emit(begun, Checked(step, matched))), index, step), from, open)
    decreases step, 1, 0
  {
    var matched, inside := Matches(step.condition, begun), open + [Open(index, step)];
    var branch, checked := if matched then step.thenSteps else step.elseSteps, Emit(begun, Checked(step, matched));
    EmitNest(begun, from, Checked(step, matched));
    StepsNest(w, branch, depth, checked, from, inside);
    CompleteNest(RunSteps(w, branch, depth, checked), index, step, from, open);
  }

  lemma {:induction false} LoopNest(w: World, step: Step, iteration: int, depth: nat, st: State, from: nat,
                                    open: seq<Open>)
    requires step.Loop? && At(st, from, open) && |open| > 0 && open[|open| - 1].step == step
    ensures LeavesLoop(RunLoop(w, step, iteration, depth, st), from, open)
    decreases step, 1, if iteration <= step.count then step.count - iteration + 1 else 0
  {
    if iteration <= step.count {
      if Stopped(w, st.clock) {
        assert open + [] == open;
        assert At(st, from, open + []);
      } else {
        var begun := Emit(st, Iterated(step, iteration));
        EmitNest(st, from, Iterated(step, iteration));
        StepsNest(w, step.body, depth, begun, from, open);
        var body := RunSteps(w, step.body, depth, begun);
        if body.1 == Normal {
          LoopNest(w, step, iteration + 1, depth, body.0, from, open);
        }
      }
    }
  }

  // ---------- whole runs ----------

  // Started and completed events of every run nest; a completed run leaves nothing open.
  lemma RunsNest(w: World, steps: seq<Step>, st: State)
    ensures var result, from := Run(w, steps, st), |st.trace|;
            && NestOf(result.0.trace, from).Some?
            && (result.1 == Completed ==> NestOf(result.0.trace, from) == Some(Nest([], false)))
  {
    var from, start := |st.trace|, Emit(Reset(st), SequenceStarted);
    EmitNest(Reset(st), from, SequenceStarted);
    StepsNest(w, steps, 0, start, from, []);
    M.NoEscape(w, steps, 0, start);
    var body := RunSteps(w, steps, 0, start);
    if body.1 != Normal {
      var inner :| At(body.0, from, [] + inner);
    }
    EmitNest(body.0, from, SequenceCompleted);
    EmitNest(body.0, from, SequenceStopped);
  }

  // ---------- what nesting says about single cards ----------

  ghost predicate CompletedLater(trace: seq<Stamped>, i: nat, index: nat, step: Step)
  {
    exists j :: i < j < |trace| && trace[j].event == StepCompleted(index, step)
  }

  ghost predicate BrokenLater(trace: seq<Stamped>, i: nat)
  {
    exists j :: i < j < |trace| && trace[j].event.LoopBroken?
  }

  // A started card is still open, or was completed, or is an If card with a later loop_break.
  ghost predicate Settled(trace: seq<Stamped>, open: seq<Open>, i: nat)
    requires i < |trace| && trace[i].event.StepStarted?
  {
    var index, step := trace[i].event.index, trace[i].event.step;
    Open(index, step) in open || CompletedLater(trace, i, index, step) || (step.If? && BrokenLater(trace, i))
  }

  lemma {:induction false} PopIfsKeeps(open: seq<Open>, card: Open)
    requires card in open && !card.step.If?
    ensures card in PopIfs(open)
  {
    if open[|open| - 1].step.If? {
      PopIfsKeeps(open[..|open| - 1], card);
    }
  }

  lemma StillLater(trace: seq<Stamped>, last: Stamped, i: nat, index: nat, step: Step)
    ensures CompletedLater(trace, i, index, step) ==> CompletedLater(trace + [last], i, index, step)
    ensures BrokenLater(trace, i) ==> BrokenLater(trace + [last], i)
  {
    if j :| i < j < |trace| && trace[j].event == StepCompleted(index, step) {
      assert (trace + [last])[j] == trace[j];
    }
    if j :| i < j < |trace| && trace[j].event.LoopBroken? {
      assert (trace + [last])[j] == trace[j];
    }
  }

  // One more event settles what it takes off the open cards.
  lemma SettledStep(front: seq<Stamped>, last: Stamped, before: Nest, after: Nest, i: nat)
    requires Follow(before, last.event) == Some(after)
    requires i < |front| && front[i].event.StepStarted? && Settled(front, before.open, i)
    requires before.breaking ==> BrokenLater(front, i)
    ensures (front + [last])[i] == front[i] && Settled(front + [last], after.open, i)
  {
    var index, step, trace := front[i].event.index, front[i].event.step, front + [last];
    StillLater(front, last, i, index, step);
    if Open(index, step) in before.open && last.event.StepCompleted? {
      if last.event == StepCompleted(index, step) {
        assert trace[|front|].event == StepCompleted(index, step);
      } else if before.breaking && last.event.step.Loop? {
        if !step.If? {
          PopIfsKeeps(before.open, Open(index, step));
        }
      }
    }
  }

  lemma {:induction false} AllSettled(trace: seq<Stamped>, from: nat)
    requires NestOf(trace, from).Some?
    ensures forall i :: from <= i < |trace| && trace[i].event.StepStarted? ==>
              && Settled(trace, NestOf(trace, from).value.open, i)
              && (NestOf(trace, from).value.breaking ==> BrokenLater(trace, i))
  {
    if |trace| > from {
      var front, last := trace[..|trace| - 1], trace[|trace| - 1];
      AllSettled(front, from);
      var before, after := NestOf(front, from).value, NestOf(trace, from).value;
      assert trace == front + [last];
      forall i | from <= i < |trace| && trace[i].event.StepStarted?
        ensures Settled(trace, after.open, i) && (after.breaking ==> BrokenLater(trace, i))
      {
        if i < |front| {
          assert front[i] == trace[i];
          SettledStep(front, last, before, after, i);
          StillLater(front, last, i, trace[i].event.index, trace[i].event.step);
          if last.event.LoopBroken? {
            assert trace[|front|].event.LoopBroken?;
          }
        }
      }
    }
  }

  // In a completed run every started card is completed, except If cards that a break jumped out of.
  lemma CompletedRunsSettle(w: World, steps: seq<Step>, st: State)
    requires Run(w, steps, st).1 == Completed
    ensures var trace := Run(w, steps, st).0.trace;
            forall i :: |st.trace| <= i < |trace| && trace[i].event.StepStarted? ==>
              || CompletedLater(trace, i, trace[i].event.index, trace[i].event.step)
              || (trace[i].event.step.If? && BrokenLater(trace, i))
  {
    RunsNest(w, steps, st);
    AllSettled(Run(w, steps, st).0.trace, |st.trace|);
    var trace := Run(w, steps, st).0.trace;
    forall i | |st.trace| <= i < |trace| && trace[i].event.StepStarted?
      ensures CompletedLater(trace, i, trace[i].event.index, trace[i].event.step)
           || (trace[i].event.step.If? && BrokenLater(trace, i))
    {
      assert Settled(trace, [], i);
    }
  }
}
