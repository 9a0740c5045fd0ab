/**
 A second account of running cards: a machine with an explicit stack and no exceptions, no depth
 counter and no recursion. A break drops the stack down to the nearest loop. The engine's
 recursive, exception-driven interpreter is proved to do exactly what this machine does.
 */
module SequenceMachine {
  import opened Bytes
  import opened Sequence

  // What is left to do, innermost first.
  datatype Frame =
    | Block(rest: seq<Step>)
    | Finish(index: nat, step: Step)
    | Again(step: Step, iteration: int)

  datatype Status = Running | Halted(signal: Signal)

  datatype Config = Config(stack: seq<Frame>, st: State, status: Status)

  // Loops entered and not yet left.
  function OpenLoops(stack: seq<Frame>): (n: nat)
  {
    if |stack| == 0 then 0 else (if stack[0].Again? then 1 else 0) + OpenLoops(stack[1..])
  }

  // The stack below the nearest open loop.
  function DropToLoop(stack: seq<Frame>): (below: seq<Frame>)
    ensures |below| <= |stack|
  {
    if |stack| == 0 then []
    else if stack[0].Again? then stack[1..]
    else DropToLoop(stack[1..])
  }

  function Enter(w: World, step: Step, below: seq<Frame>, st: State): (next: Config)
  {
    var index, begun := st.stepNumber + 1, Begin(st, step);
    match step
    case Break(_) =>
      if OpenLoops(below) == 0 then Config(below, begun, Halted(Failed(MisplacedBreak)))
      else Config(DropToLoop(below), Emit(Emit(begun, LoopBroken(index, step)), StepCompleted(index, step)), Running)
    case If(_, condition, thenSteps, elseSteps) =>
      var matched := Matches(condition, begun);
      Config([Block(if matched then thenSteps else elseSteps), Finish(index, step)] + below,
             Emit(begun, Checked(step, matched)), Running)
    case Loop(_, _, _) => Config([Again(step, 1), Finish(index, step)] + below, begun, Running)
    case _ =>
      var done := RunLeaf(w, step, index, begun);
      if done.1 == Normal then Config([Finish(index, step)] + below, done.0, Running)
      else Config(below, done.0, Halted(done.1))
  }

  // One transition; a halted machine stays as it is.
  function Next(w: World, c: Config): (next: Config)
  {
    if c.status.Halted? then c
    else if |c.stack| == 0 then c.(status := Halted(Normal))
    else
      var below := c.stack[1..];
      match c.stack[0]
      case Finish(index, step) => Config(below, Emit(c.st, StepCompleted(index, step)), Running)
      case Block(rest) =>
        if |rest| == 0 then Config(below, c.st, Running)
        else if Stopped(w, c.st.clock) then c.(status := Halted(StopOut))
        else Enter(w, rest[0], [Block(rest[1..])] + below, c.st)
      case Again(step, iteration) =>
        if !step.Loop? || iteration > step.count then Config(below, c.st, Running)
        else if Stopped(w, c.st.clock) then c.(status := Halted(StopOut))
        else
          var inside := [Block(step.body), Again(step, iteration + 1)] + below;
          Config(inside, Emit(c.st, Iterated(step, iteration)), Running)
  }

  function Iterate<T>(step: T -> T, start: T, n: nat): (end: T)
  {
    if n == 0 then start else step(Iterate(step, start, n - 1))
  }

  function Stepper(w: World): (step: Config -> Config)
  {
    (c: Config) => Next(w, c)
  }

  // Some number of transitions leads from a to b.
  ghost predicate Reaches(w: World, a: Config, b: Config)
  {
    exists n: nat :: Iterate(Stepper(w), a, n) == b
  }

  lemma {:induction false} IterateAdds<T>(step: T -> T, start: T, m: nat, n: nat)
    ensures Iterate(step, start, m + n) == Iterate(step, Iterate(step, start, m), n)
  {
    if n > 0 {
      IterateAdds(step, start, m, n - 1);
    }
  }

  lemma ReachesThen(w: World, a: Config, b: Config, c: Config)
    requires Reaches(w, a, b) && Reaches(w, b, c)
    ensures Reaches(w, a, c)
  {
    var m: nat :| Iterate(Stepper(w), a, m) == b;
    var n: nat :| Iterate(Stepper(w), b, n) == c;
    IterateAdds(Stepper(w), a, m, n);
  }

  lemma OneStep(w: World, a: Config)
    ensures Reaches(w, a, Next(w, a))
  {
    assert Iterate(Stepper(w), a, 0) == a;
    assert Iterate(Stepper(w), a, 1) == Next(w, a);
  }

  // Where a run that ended with a signal leaves the machine.
  ghost predicate Arrives(w: World, from: Config, below: seq<Frame>, result: (State, Signal))
  {
    match result.1
    case Normal => Reaches(w, from, Config(below, result.0, Running))
    case BreakOut => Reaches(w, from, Config(DropToLoop(below), result.0, Running))
    case _ => HaltsWith(w, from, result)
  }

  ghost predicate HaltsWith(w: World, from: Config, result: (State, Signal))
  {
    exists stack :: Reaches(w, from, Config(stack, result.0, Halted(result.1)))
  }

  lemma ArrivesAfter(w: World, from: Config, mid: Config, below: seq<Frame>, result: (State, Signal))
    requires Reaches(w, from, mid) && Arrives(w, mid, below, result)
    ensures Arrives(w, from, below, result)
  {
    match result.1
    case Normal => ReachesThen(w, from, mid, Config(below, result.0, Running));
    case BreakOut => ReachesThen(w, from, mid, Config(DropToLoop(below), result.0, Running));
    case _ =>
      var stack :| Reaches(w, mid, Config(stack, result.0, Halted(result.1)));
      ReachesThen(w, from, mid, Config(stack, result.0, Halted(result.1)));
  }

  // ---------- the interpreter refines the machine ----------

  // Running cards with the loop depth of the stack below is what the machine does on a block.
  lemma {:induction false} BlockRefines(w: World, steps: seq<Step>, below: seq<Frame>, st: State)
    ensures Arrives(w, Config([Block(steps)] + below, st, Running), below, RunSteps(w, steps, OpenLoops(below), st))
    decreases steps, 0, 0
  {
    var from := Config([Block(steps)] + below, st, Running);
    OneStep(w, from);
    assert from.stack[1..] == below;
    if |steps| == 0 {
      assert Next(w, from) == Config(below, st, Running);
    } else {
      var behind := [Block(steps[1..])] + below;
      assert behind[1..] == below;
      var first := RunStep(w, steps[0], OpenLoops(behind), st);
      CardRefines(w, steps[0], behind, from, st);
      if first.1 == Normal {
        BlockRefines(w, steps[1..], below, first.0);
        ArrivesAfter(w, from, Config(behind, first.0, Running), below,
            RunSteps(w, steps[1..], OpenLoops(below), first.0));
      }
    }
  }

  // The machine, about to enter a card, ends up where running the card leads.
  lemma {:induction false} CardRefines(w: World, step: Step, below: seq<Frame>, from: Config, st: State)
    requires from.status == Running && from.st == st && |from.stack| > 0
    requires Next(w, from)
          == if Stopped(w, st.clock) then from.(status := Halted(StopOut)) else Enter(w, step, below, st)
    ensures Arrives(w, from, below, RunStep(w, step, OpenLoops(below), st))
    decreases step, 3, 0
  {
    OneStep(w, from);
    if Stopped(w, st.clock) {
      assert Reaches(w, from, Config(from.stack, st, Halted(StopOut)));
    } else {
      var index, begun := st.stepNumber + 1, Begin(st, step);
      match step {
        case Break(_) =>
          if OpenLoops(below) == 0 {
            assert Reaches(w, from, Config(below, begun, Halted(Failed(MisplacedBreak))));
          }
        case If(_, condition, thenSteps, elseSteps) =>
          var matched := Matches(condition, begun);
          var branch := if matched then thenSteps else elseSteps;
          var checked := Emit(begun, Checked(step, matched));
          FinishedRefines(w, Next(w, from), branch, index, step, below, checked);
          ArrivesAfter(w, from, Next(w, from), below,
              Complete(RunSteps(w, branch, OpenLoops(below), checked), index, step));
        case Loop(_, _, _) =>
          LoopCardRefines(w, step, index, below, begun);
          ArrivesAfter(w, from, Next(w, from), below,
              Complete(RunLoop(w, step, 1, OpenLoops(below) + 1, begun), index, step));
        case _ => LeafRefines(w, step, below, from, st);
      }
    }
  }

  lemma LeafRefines(w: World, step: Step, below: seq<Frame>, from: Config, st: State)
    requires IsLeaf(step) && !Stopped(w, st.clock)
    requires from.status == Running && Next(w, from) == Enter(w, step, below, st)
    ensures Arrives(w, from, below, RunStep(w, step, OpenLoops(below), st))
  {
    var index, begun := st.stepNumber + 1, Begin(st, step);
    var done := RunLeaf(w, step, index, begun);
    OneStep(w, from);
    LeafSignals(w, step, index, begun);
    if done.1 == Normal {
      FinishStep(w, Next(w, from), index, step, below, done.0);
      ArrivesAfter(w, from, Next(w, from), below, Complete(done, index, step));
    } else {
      assert Reaches(w, from, Config(below, done.0, Halted(done.1)));
    }
  }

  lemma {:induction false} SleepSignals(w: World, remaining: int, st: State)
    ensures Sleep(w, remaining, st).1 == Normal || Sleep(w, remaining, st).1 == StopOut
    decreases remaining
  {
    if remaining > 0 && !Stopped(w, st.clock) {
      SleepSignals(w, remaining - (if remaining < 100 then remaining else 100), st.(clock := st.clock + 1));
    }
  }

  // No leaf breaks a loop.
  lemma LeafSignals(w: World, step: Step, index: nat, st: State)
    requires IsLeaf(step)
    ensures RunLeaf(w, step, index, st).1 != BreakOut && RunLeaf(w, step, index, st).1 != Failed(MisplacedBreak)
  {
    if step.Delay? {
      SleepSignals(w, step.milliseconds, st);
    }
  }

  lemma FinishStep(w: World, c: Config, index: nat, step: Step, below: seq<Frame>, st: State)
    requires c == Config([Finish(index, step)] + below, st, Running)
    ensures Reaches(w, c, Config(below, Emit(st, StepCompleted(index, step)), Running))
  {
    assert c.stack[1..] == below;
    OneStep(w, c);
  }

  // A branch followed by the completion of its card.
  lemma {:induction false} FinishedRefines(w: World, c: Config, branch: seq<Step>, index: nat, step: Step,
                                           below: seq<Frame>, st: State)
    requires c == Config([Block(branch), Finish(index, step)] + below, st, Running)
    ensures Arrives(w, c, below, Complete(RunSteps(w, branch, OpenLoops(below), st), index, step))
    decreases branch, 1, 0
  {
    var behind := [Finish(index, step)] + below;
    assert behind[1..] == below;
    assert c.stack == [Block(branch)] + behind;
    BlockRefines(w, branch, behind, st);
    var result := RunSteps(w, branch, OpenLoops(behind), st);
    if result.1 == Normal {
      FinishStep(w, Config(behind, result.0, Running), index, step, below, result.0);
      ArrivesAfter(w, c, Config(behind, result.0, Running), below, Complete(result, index, step));
    }
  }

  lemma {:induction false} LoopCardRefines(w: World, step: Step, index: nat, below: seq<Frame>, st: State)
    requires step.Loop?
    ensures Arrives(w, Config([Again(step, 1), Finish(index, step)] + below, st, Running), below,
                    Complete(RunLoop(w, step, 1, OpenLoops(below) + 1, st), index, step))
    decreases step, 2, 0, 0
  {
    var behind := [Finish(index, step)] + below;
    assert behind[1..] == below;
    var from := Config([Again(step, 1)] + behind, st, Running);
    assert from.stack == [Again(step, 1), Finish(index, step)] + below;
    LoopRefines(w, step, 1, behind, st);
    var result := RunLoop(w, step, 1, OpenLoops(behind) + 1, st);
    LoopSignals(w, step, 1, OpenLoops(behind) + 1, st);
    if result.1 == Normal {
      FinishStep(w, Config(behind, result.0, Running), index, step, below, result.0);
      ArrivesAfter(w, from, Config(behind, result.0, Running), below, Complete(result, index, step));
    }
  }

  // A loop never hands a break on.
  lemma {:induction false} LoopSignals(w: World, step: Step, iteration: int, depth: nat, st: State)
    requires step.Loop?
    ensures RunLoop(w, step, iteration, depth, st).1 != BreakOut
    decreases if iteration <= step.count then step.count - iteration + 1 else 0
  {
    if iteration <= step.count && !Stopped(w, st.clock) {
      var body := RunSteps(w, step.body, depth, Emit(st, Iterated(step, iteration)));
      if body.1 == Normal {
        LoopSignals(w, step, iteration + 1, depth, body.0);
      }
    }
  }

  lemma {:induction false} LoopRefines(w: World, step: Step, iteration: int, below: seq<Frame>, st: State)
    requires step.Loop?
    ensures Arrives(w, Config([Again(step, iteration)] + below, st, Running), below,
                    RunLoop(w, step, iteration, OpenLoops(below) + 1, st))
    decreases step, 1, if iteration <= step.count then step.count - iteration + 1 else 0, 0
  {
    var from := Config([Again(step, iteration)] + below, st, Running);
    assert from.stack[1..] == below;
    OneStep(w, from);
    if iteration <= step.count {
      if Stopped(w, st.clock) {
        assert Reaches(w, from, Config(from.stack, st, Halted(StopOut)));
      } else {
        IterationRefines(w, step, iteration, below, st);
        ArrivesAfter(w, from, Next(w, from), below, RunLoop(w, step, iteration, OpenLoops(below) + 1, st));
      }
    }
  }

  // One iteration that has begun, and the iterations after it.
  lemma {:induction false} IterationRefines(w: World, step: Step, iteration: int, below: seq<Frame>, st: State)
    requires step.Loop? && iteration <= step.count && !Stopped(w, st.clock)
    ensures Arrives(w, Config([Block(step.body), Again(step, iteration + 1)] + below,
        Emit(st, Iterated(step, iteration)), Running),
                    below, RunLoop(w, step, iteration, OpenLoops(below) + 1, st))
    decreases step, 1, step.count - iteration, 1
  {
    var begun, behind := Emit(st, Iterated(step, iteration)), [Again(step, iteration + 1)] + below;
    assert behind[1..] == below;
    var from := Config([Block(step.body)] + behind, begun, Running);
    assert from.stack == [Block(step.body), Again(step, iteration + 1)] + below;
    BlockRefines(w, step.body, behind, begun);
    var body := RunSteps(w, step.body, OpenLoops(behind), begun);
    if body.1 == Normal {
      LoopRefines(w, step, iteration + 1, below, body.0);
      ArrivesAfter(w, from, Config(behind, body.0, Running), below,
          RunLoop(w, step, iteration + 1, OpenLoops(below) + 1, body.0));
    }
  }

  // The refinement: for every program, world and state, the machine started on the cards alone
  // halts in exactly the state and with exactly the signal of the interpreter.
  lemma InterpreterRefinesMachine(w: World, steps: seq<Step>, st: State)
    ensures HaltsWith(w, Config([Block(steps)], st, Running), RunSteps(w, steps, 0, st))
  {
    var from, result := Config([Block(steps)], st, Running), RunSteps(w, steps, 0, st);
    assert [Block(steps)] + [] == [Block(steps)];
    BlockRefines(w, steps, [], st);
    NoEscape(w, steps, 0, st);
    if result.1 == Normal {
      OneStep(w, Config([], result.0, Running));
      ReachesThen(w, from, Config([], result.0, Running), Config([], result.0, Halted(Normal)));
    }
  }

  // A break leaves a list of cards only inside a loop.
  lemma {:induction false} NoEscape(w: World, steps: seq<Step>, depth: nat, st: State)
    ensures depth == 0 ==> RunSteps(w, steps, depth, st).1 != BreakOut
    decreases steps, 0
  {
    if |steps| > 0 {
      NoEscapeCard(w, steps[0], depth, st);
      NoEscape(w, steps[1..], depth, RunStep(w, steps[0], depth, st).0);
    }
  }

  lemma {:induction false} NoEscapeCard(w: World, step: Step, depth: nat, st: State)
    ensures depth == 0 ==> RunStep(w, step, depth, st).1 != BreakOut
    decreases step, 1
  {
    var index, begun := st.stepNumber + 1, Begin(st, step);
    match step
    case If(_, condition, thenSteps, elseSteps) =>
      var checked := Emit(begun, Checked(step, Matches(condition, begun)));
      NoEscape(w, thenSteps, depth, checked);
      NoEscape(w, elseSteps, depth, checked);
    case Loop(_, _, _) => LoopSignals(w, step, 1, depth + 1, begun);
    case Break(_) =>
    case _ => LeafSignals(w, step, index, begun);
  }
}
