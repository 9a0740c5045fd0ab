/** Properties of every run of every card sequence. */
module SequenceProperties {
  import opened Bytes
  import opened Sequence
  import M = SequenceMachine

  // ---------- loops ----------

  function BodyRun(w: World, step: Step, iteration: int, depth: nat, st: State): (result: (State, Signal))
    requires step.Loop?
  {
    RunSteps(w, step.body, depth, Emit(st, Iterated(step, iteration)))
  }

  // The state after k successive runs of the body, if each of them began and ended normally.
  function AfterRuns(w: World, step: Step, depth: nat, st: State, k: nat): (end: Option<State>)
    requires step.Loop?
  {
    if k == 0 then Some(st)
    else
      var before := AfterRuns(w, step, depth, st, k - 1);
      if before.None? || Stopped(w, before.value.clock) then None
      else
        var run := BodyRun(w, step, k, depth, before.value);
        if run.1 == Normal then Some(run.0) else None
  }

  lemma {:induction false} LoopUnrolls(w: World, step: Step, depth: nat, st: State, k: nat)
    requires step.Loop? && k <= step.count && AfterRuns(w, step, depth, st, k).Some?
    ensures RunLoop(w, step, 1, depth, st) == RunLoop(w, step, k + 1, depth, AfterRuns(w, step, depth, st, k).value)
  {
    if k > 0 {
      LoopUnrolls(w, step, depth, st, k - 1);
    }
  }

  // k runs of the body ended normally, and then either the count was used up, or one more run
  // was cut short by a break that belongs to this loop.
  ghost predicate EndsAfter(w: World, step: Step, depth: nat, st: State, k: nat, end: State)
    requires step.Loop?
  {
    var before := AfterRuns(w, step, depth, st, k);
    before.Some? &&
    if k >= step.count then (k == 0 || k == step.count) && end == before.value
    else !Stopped(w, before.value.clock) && BodyRun(w, step, k + 1, depth, before.value) == (end, BreakOut)
  }

  // A loop that ends normally has run its body count times in succession, cut at the first
  // break; and whenever the runs of the body go that way, the loop ends normally in that state.
  lemma LoopIsRepetition(w: World, step: Step, depth: nat, st: State, end: State)
    requires step.Loop?
    ensures RunLoop(w, step, 1, depth, st) == (end, Normal) <==> exists k: nat :: EndsAfter(w, step, depth, st, k, end)
  {
    if k: nat :| EndsAfter(w, step, depth, st, k, end) {
      if k <= step.count {
        LoopUnrolls(w, step, depth, st, k);
      }
    }
    if RunLoop(w, step, 1, depth, st) == (end, Normal) {
      var k := FindEnd(w, step, depth, st, 0);
      assert EndsAfter(w, step, depth, st, k, end);
    }
  }

  lemma {:induction false} FindEnd(w: World, step: Step, depth: nat, st: State, k: nat) returns (last: nat)
    requires step.Loop? && RunLoop(w, step, 1, depth, st).1 == Normal
    requires AfterRuns(w, step, depth, st, k).Some? && (k == 0 || k <= step.count)
    ensures EndsAfter(w, step, depth, st, last, RunLoop(w, step, 1, depth, st).0)
    decreases if k < step.count then step.count - k else 0
  {
    var before := AfterRuns(w, step, depth, st, k).value;
    last := k;
    if k < step.count {
      LoopUnrolls(w, step, depth, st, k);
      if BodyRun(w, step, k + 1, depth, before).1 == Normal {
        last := FindEnd(w, step, depth, st, k + 1);
      }
    } else if k > 0 {
      LoopUnrolls(w, step, depth, st, k);
    }
  }

  // ---------- breaks ----------

  // If the page's static check finds no orphan, no run of any list at that nesting raises the
  // misplaced-break error.
  lemma {:induction false} CheckedSteps(w: World, steps: seq<Step>, depth: nat, st: State)
    requires !FindOrphanBreak(steps, depth > 0)
    ensures RunSteps(w, steps, depth, st).1 != Failed(MisplacedBreak)
    decreases steps, 0, 0
  {
    if |steps| > 0 {
      CheckedStep(w, steps[0], depth, st);
      CheckedSteps(w, steps[1..], depth, RunStep(w, steps[0], depth, st).0);
    }
  }

  lemma {:induction false} CheckedStep(w: World, step: Step, depth: nat, st: State)
    requires !OrphanIn(step, depth > 0)
    ensures RunStep(w, step, depth, st).1 != Failed(MisplacedBreak)
    decreases step, 2, 0
  {
    var index, begun := st.stepNumber + 1, Begin(st, step);
    match step
    case If(_, condition, thenSteps, elseSteps) =>
      var matched := Matches(condition, begun);
      CheckedSteps(w, if matched then thenSteps else elseSteps, depth, Emit(begun, Checked(step, matched)));
    case Loop(_, _, _) => CheckedLoop(w, step, 1, depth + 1, begun);
    case Break(_) =>
    case _ => M.LeafSignals(w, step, index, begun);
  }

  lemma {:induction false} CheckedLoop(w: World, step: Step, iteration: int, depth: nat, st: State)
    requires step.Loop? && depth > 0 && !FindOrphanBreak(step.body, true)
    ensures RunLoop(w, step, iteration, depth, st).1 != Failed(MisplacedBreak)
    decreases step, 1, if iteration <= step.count then step.count - iteration + 1 else 0
  {
    if iteration <= step.count && !Stopped(w, st.clock) {
      CheckedSteps(w, step.body, depth, Emit(st, Iterated(step, iteration)));
      CheckedLoop(w, step, iteration + 1, depth, BodyRun(w, step, iteration, depth, st).0);
    }
  }

  // Cards of a list that are in none of its loops, at any depth of If cards.
  function OutsideLoops(steps: seq<Step>): (cards: seq<Step>)
    decreases steps, 0
  {
    if |steps| == 0 then [] else OutsideLoop(steps[0]) + OutsideLoops(steps[1..])
  }

  function OutsideLoop(step: Step): (cards: seq<Step>)
    decreases step, 1
  {
    [step] + if step.If? then OutsideLoops(step.thenSteps) + OutsideLoops(step.elseSteps) else []
  }

  ghost predicate HasBreak(cards: seq<Step>)
  {
    exists i :: 0 <= i < |cards| && cards[i].Break?
  }

  lemma EitherHasBreak(a: seq<Step>, b: seq<Step>)
    ensures HasBreak(a + b) <==> HasBreak(a) || HasBreak(b)
  {
    if i :| 0 <= i < |a| && a[i].Break? {
      assert (a + b)[i].Break?;
    }
    if i :| 0 <= i < |b| && b[i].Break? {
      assert (a + b)[|a| + i].Break?;
    }
  }

  // The check objects exactly to lists with a break outside all loops, unless they are in a loop.
  lemma {:induction false} OrphanExactly(steps: seq<Step>, insideLoop: bool)
    ensures FindOrphanBreak(steps, insideLoop) <==> !insideLoop && HasBreak(OutsideLoops(steps))
    decreases steps, 0
  {
    if |steps| > 0 {
      OrphanCard(steps[0], insideLoop);
      OrphanExactly(steps[1..], insideLoop);
      EitherHasBreak(OutsideLoop(steps[0]), OutsideLoops(steps[1..]));
    }
  }

  lemma {:induction false} OrphanCard(step: Step, insideLoop: bool)
    ensures OrphanIn(step, insideLoop) <==> !insideLoop && HasBreak(OutsideLoop(step))
    decreases step, 1
  {
    EitherHasBreak([step], if step.If? then OutsideLoops(step.thenSteps) + OutsideLoops(step.elseSteps) else []);
    match step
    case If(_, _, thenSteps, elseSteps) =>
      OrphanExactly(thenSteps, insideLoop);
      OrphanExactly(elseSteps, insideLoop);
      EitherHasBreak(OutsideLoops(thenSteps), OutsideLoops(elseSteps));
    case Loop(_, _, body) => OrphanExactly(body, true);
    case Break(_) => assert [step][0].Break?;
    case _ =>
  }

  // A loop-break exception never leaves run(), on any program; and on a program that passes the
  // static check no run fails for a misplaced break.
  lemma BreaksStayInside(w: World, steps: seq<Step>, st: State)
    ensures Run(w, steps, st).1 != EscapedBreak
    ensures !FindOrphanBreak(steps, false) ==> Run(w, steps, st).1 != Error(MisplacedBreak)
  {
    var start := Emit(Reset(st), SequenceStarted);
    M.NoEscape(w, steps, 0, start);
    if !FindOrphanBreak(steps, false) {
      CheckedSteps(w, steps, 0, start);
    }
  }

  // ---------- stops ----------

  // Stamps are the clock, so they increase; and no card starts at a time at which stop is set.
  ghost predicate Orderly(w: World, st: State)
  {
    && (forall i :: 0 <= i < |st.trace| ==> st.trace[i].time < st.clock)
    && (forall i, j :: 0 <= i < j < |st.trace| ==> st.trace[i].time < st.trace[j].time)
    && (forall i :: 0 <= i < |st.trace| && st.trace[i].event.StepStarted? ==> !Stopped(w, st.trace[i].time))
  }

  lemma EmitOrderly(w: World, st: State, event: Event)
    requires Orderly(w, st) && (event.StepStarted? ==> !Stopped(w, st.clock))
    ensures Orderly(w, Emit(st, event))
  {
  }

  lemma {:induction false} ResponsesOrderly(w: World, st: State, index: nat, step: Step, responses: seq<string>)
    requires Orderly(w, st)
    ensures Orderly(w, ShowResponses(st, index, step, responses))
  {
    if |responses| > 0 {
      ResponsesOrderly(w, st, index, step, responses[..|responses| - 1]);
      EmitOrderly(w, ShowResponses(st, index, step, responses[..|responses| - 1]),
                  Received(index, step, responses[|responses| - 1]));
    }
  }

  lemma {:induction false} SleepTrace(w: World, remaining: int, st: State)
    ensures Sleep(w, remaining, st).0.trace == st.trace && Sleep(w, remaining, st).0.clock >= st.clock
    decreases remaining
  {
    if remaining > 0 && !Stopped(w, st.clock) {
      SleepTrace(w, remaining - (if remaining < 100 then remaining else 100), st.(clock := st.clock + 1));
    }
  }

  lemma CommandOrderly(w: World, step: Step, index: nat, st: State)
    requires step.Command? && Orderly(w, st)
    ensures Orderly(w, RunCommand(w, step, index, st).0)
  {
    var sent := Emit(st, Sent(index, step));
    EmitOrderly(w, st, Sent(index, step));
    var waited := sent.(clock := sent.clock + 1);
    assert Orderly(w, waited);
    var arguments := ResolveArguments(w, step.card.arguments, step.card.variables, st.variables);
    if arguments.Some? {
      var code := w.upper(step.card.code);
      var reply := w.device(sent.clock, code, arguments.value, code !in w.localIo && step.card.ignoreResponse);
      if reply.Some? {
        ResponsesOrderly(w, Remember(waited, step.id, reply.value), index, step, reply.value.responses);
      }
    }
  }

  lemma LeafOrderly(w: World, step: Step, index: nat, st: State)
    requires IsLeaf(step) && Orderly(w, st)
    ensures Orderly(w, RunLeaf(w, step, index, st).0)
  {
    match step
    case Command(_, _) => CommandOrderly(w, step, index, st);
    case Delay(_, milliseconds) => SleepTrace(w, milliseconds, st);
    case Note(_, _) => EmitOrderly(w, st, Noted(index, step));
    case Variable(_, _, _) =>
  }

  lemma {:induction false} StepsOrderly(w: World, steps: seq<Step>, depth: nat, st: State)
    requires Orderly(w, st)
    ensures Orderly(w, RunSteps(w, steps, depth, st).0)
    decreases steps, 0, 0
  {
    if |steps| > 0 {
      StepOrderly(w, steps[0], depth, st);
      StepsOrderly(w, steps[1..], depth, RunStep(w, steps[0], depth, st).0);
    }
  }

  lemma CompleteOrderly(w: World, result: (State, Signal), index: nat, step: Step)
    requires Orderly(w, result.0)
    ensures Orderly(w, Complete(result, index, step).0)
  {
    EmitOrderly(w, result.0, StepCompleted(index, step));
  }

  lemma BeginOrderly(w: World, step: Step, st: State)
    requires Orderly(w, st) && !Stopped(w, st.clock)
    ensures Orderly(w, Begin(st, step))
  {
    assert Orderly(w, st.(stepNumber := st.stepNumber + 1));
    EmitOrderly(w, st.(stepNumber := st.stepNumber + 1), StepStarted(st.stepNumber + 1, step));
  }

  lemma BreakOrderly(w: World, step: Step, index: nat, begun: State)
    requires Orderly(w, begun)
    ensures Orderly(w, Emit(Emit(begun, LoopBroken(index, step)), StepCompleted(index, step)))
  {
    EmitOrderly(w, begun, LoopBroken(index, step));
    EmitOrderly(w, Emit(begun, LoopBroken(index, step)), StepCompleted(index, step));
  }

  lemma {:induction false} StepOrderly(w: World, step: Step, depth: nat, st: State)
    requires Orderly(w, st)
    ensures Orderly(w, RunStep(w, step, depth, st).0)
    decreases step, 3, 0
  {
    if !Stopped(w, st.clock) {
      match step
      case Break(_) => BreakCardOrderly(w, step, depth, st);
      case If(_, _, _, _) => IfOrderly(w, step, depth, st);
      case Loop(_, _, _) => LoopCardOrderly(w, step, depth, st);
      case _ => LeafCardOrderly(w, step, depth, st);
    }
  }

  lemma BreakCardOrderly(w: World, step: Step, depth: nat, st: State)
    requires step.Break? && Orderly(w, st) && !Stopped(w, st.clock)
    ensures Orderly(w, RunStep(w, step, depth, st).0)
  {
    BeginOrderly(w, step, st);
    BreakOrderly(w, step, st.stepNumber + 1, Begin(st, step));
  }

  lemma LeafCardOrderly(w: World, step: Step, depth: nat, st: State)
    requires IsLeaf(step) && Orderly(w, st) && !Stopped(w, st.clock)
    ensures Orderly(w, RunStep(w, step, depth, st).0)
  {
    var index, begun := st.stepNumber + 1, Begin(st, step);
    LeafCard(w, step, depth, st);
    BeginOrderly(w, step, st);
    LeafOrderly(w, step, index, begun);
    CompleteOrderly(w, RunLeaf(w, step, index, begun), index, step);
  }

  lemma {:induction false} IfOrderly(w: World, step: Step, depth: nat, st: State)
    requires step.If? && Orderly(w, st) && !Stopped(w, st.clock)
    ensures Orderly(w, RunStep(w, step, depth, st).0)
    decreases step, 2, 0
  {
    var index, begun := st.stepNumber + 1, Begin(st, step);
    var matched := Matches(step.condition, begun);
    var checked, branch := Emit(begun, Checked(step, matched)), if matched then step.thenSteps else step.elseSteps;
    BeginOrderly(w, step, st);
    EmitOrderly(w, begun, Checked(step, matched));
    StepsOrderly(w, branch, depth, checked);
    CompleteOrderly(w, RunSteps(w, branch, depth, checked), index, step);
  }

  lemma {:induction false} LoopCardOrderly(w: World, step: Step, depth: nat, st: State)
    requires step.Loop? && Orderly(w, st) && !Stopped(w, st.clock)
    ensures Orderly(w, RunStep(w, step, depth, st).0)
    decreases step, 2, 0
  {
    var index, begun := st.stepNumber + 1, Begin(st, step);
    LoopCard(w, step, depth, st);
    BeginOrderly(w, step, st);
    LoopOrderly(w, step, 1, depth + 1, begun);
    CompleteOrderly(w, RunLoop(w, step, 1, depth + 1, begun), index, step);
  }

  lemma {:induction false} LoopOrderly(w: World, step: Step, iteration: int, depth: nat, st: State)
    requires step.Loop? && Orderly(w, st)
    ensures Orderly(w, RunLoop(w, step, iteration, depth, st).0)
    decreases step, 1, if iteration <= step.count then step.count - iteration + 1 else 0
  {
    if iteration <= step.count && !Stopped(w, st.clock) {
      EmitOrderly(w, st, Iterated(step, iteration));
      StepsOrderly(w, step.body, depth, Emit(st, Iterated(step, iteration)));
      LoopOrderly(w, step, iteration + 1, depth, BodyRun(w, step, iteration, depth, st).0);
    }
  }

  // Once stop is set no further card starts: no start follows any event stamped at or after the
  // time of the stop, nor is itself stamped so late.
  lemma NoStartAfterStop(w: World, steps: seq<Step>, st: State)
    requires Orderly(w, st)
    ensures var trace := Run(w, steps, st).0.trace;
            forall i, j :: 0 <= i <= j < |trace| && Stopped(w, trace[i].time) ==> !trace[j].event.StepStarted?
  {
    var start := Emit(Reset(st), SequenceStarted);
    EmitOrderly(w, Reset(st), SequenceStarted);
    StepsOrderly(w, steps, 0, start);
    var body := RunSteps(w, steps, 0, start).0;
    EmitOrderly(w, body, SequenceCompleted);
    EmitOrderly(w, body, SequenceStopped);
    OrderlyStarts(w, Run(w, steps, st).0);
  }

  lemma OrderlyStarts(w: World, end: State)
    requires Orderly(w, end)
    ensures forall i, j :: 0 <= i <= j < |end.trace| && Stopped(w, end.trace[i].time) ==>
      !end.trace[j].event.StepStarted?
  {
    forall i, j | 0 <= i <= j < |end.trace| && Stopped(w, end.trace[i].time)
      ensures !end.trace[j].event.StepStarted?
    {
      assert end.trace[i].time <= end.trace[j].time;
    }
  }
}
