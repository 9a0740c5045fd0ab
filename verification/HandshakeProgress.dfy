/** Progress of the handshake: nothing waits for ever, and every call of every conforming run can be completed. */
module HandshakeProgress {
  import opened Bytes
  import opened Handshake

  // An area full of words that begins with the double word 1 or 8.
  predicate FullAnswer(config: Config, answer: seq<word>)
  {
    |answer| == config.responseSize && |answer| >= 2 && answer[1] == 0 && (answer[0] == 1 || answer[0] == 8)
  }

  // All commands have been called, and nothing is pending.
  predicate Done(config: Config, s: Sys)
  {
    s.pc == Idle && s.task == NoTask && s.called == |config.commands|
  }

  // ---------- work left ----------

  // Steps until the client is idle; issuing counts less, since the command to be issued is still
  // among those not called.
  function ClientLeft(pc: ClientPc): (n: nat)
  {
    match pc
    case WaitOn => 18
    case LowerOn => 17
    case WaitResponse => 16
    case WaitOff => 15
    case LowerOff => 14
    case Reading => 13
    case Idle => 12
    case AwaitTask => 11
    case Clearing => 10
    case Setting => 9
    case Unbusy => 8
    case Raising => 7
  }

  function TaskLeft(task: TaskPc): (n: nat)
  {
    match task
    case TaskWaitOn => 3
    case TaskLower => 2
    case TaskWaitOff => 1
    case NoTask => 0
  }

  function DeviceTotal(config: Config): (n: nat)
  {
    config.commandSize + config.responseSize + 6
  }

  function DeviceLeft(config: Config, s: Sys): (n: int)
  {
    match s.device
    case Ready => if |s.latched| < s.called then DeviceTotal(config) else 0
    case Latching(part) => config.commandSize - |part| + config.responseSize + 5
    case Latched => config.responseSize + 4
    case Busy => config.responseSize + 3
    case Answering(answer, done) => |answer| - done + 2
    case AwaitOff => 1
  }

  // The work of a command that has not been called.
  function PerCommand(config: Config): (n: nat)
  {
    DeviceTotal(config) + 12
  }

  function Uncalled(config: Config, called: nat): (n: nat)
    requires called <= |config.commands|
  {
    (|config.commands| - called) * PerCommand(config)
  }

  lemma OneFewer(config: Config, called: nat)
    requires called < |config.commands|
    ensures Uncalled(config, called + 1) + PerCommand(config) == Uncalled(config, called)
  {
  }

  function Work(config: Config, s: Sys): (n: int)
    requires config.Valid() && Shaped(config, s)
  {
    Uncalled(config, s.called) + ClientLeft(s.pc) + TaskLeft(s.task) + DeviceLeft(config, s)
  }

  lemma WorkIsPositive(config: Config, s: Sys)
    requires config.Valid() && Shaped(config, s) && Inv(config, s)
    ensures Work(config, s) >= 0
  {
  }

  // ---------- every step that changes anything works some of it off ----------

  lemma ClientWorks(config: Config, s: Sys)
    requires config.Valid() && Shaped(config, s) && Inv(config, s) && ClientStep(config, s) != s
    ensures Shaped(config, ClientStep(config, s)) && Work(config, ClientStep(config, s)) < Work(config, s)
  {
    if s.pc == Raising {
      RaisingWorks(config, s);
    } else {
      OtherwiseWorks(config, s);
    }
  }

  lemma RaisingWorks(config: Config, s: Sys)
    requires config.Valid() && Shaped(config, s) && Inv(config, s) && s.pc == Raising
    ensures Shaped(config, ClientStep(config, s)) && Work(config, ClientStep(config, s)) < Work(config, s)
  {
    OneFewer(config, s.called);
  }

  // Every other step leaves the device and the number of calls alone.
  lemma OtherwiseWorks(config: Config, s: Sys)
    requires config.Valid() && Shaped(config, s) && s.pc != Raising && ClientStep(config, s) != s
    ensures var next := ClientStep(config, s);
            && Shaped(config, next) && next.called == s.called && next.task == s.task && next.device == s.device
            && next.latched == s.latched && ClientLeft(next.pc) < ClientLeft(s.pc)
            && Work(config, next) < Work(config, s)
  {
  }

  lemma TaskWorks(config: Config, s: Sys)
    requires config.Valid() && Shaped(config, s) && Inv(config, s) && TaskStep(s) != s
    ensures Shaped(config, TaskStep(s)) && Work(config, TaskStep(s)) < Work(config, s)
  {
  }

  lemma DeviceWorks(config: Config, s: Sys, answer: seq<word>)
    requires config.Valid() && Shaped(config, s) && Inv(config, s) && DeviceStep(s, answer) != s
    ensures Shaped(config, DeviceStep(s, answer)) && Work(config, DeviceStep(s, answer)) < Work(config, s)
  {
    DeviceLess(config, s, answer);
    DeviceLeaves(config, s, answer);
  }

  lemma DeviceLess(config: Config, s: Sys, answer: seq<word>)
    requires config.Valid() && Shaped(config, s) && DeviceInv(config, s) && DeviceStep(s, answer) != s
    requires s.device == Ready ==> (Dword(s.area) == 1 <==> TriggerOn(s))
    ensures DeviceLeft(config, DeviceStep(s, answer)) < DeviceLeft(config, s)
  {
  }

  lemma StepWorks(config: Config, s: Sys, action: Action)
    requires config.Valid() && Shaped(config, s) && Inv(config, s)
    requires action.Client? || action.Task? || action.Device?
    requires Step(config, s, action) != s
    ensures Shaped(config, Step(config, s, action)) && Work(config, Step(config, s, action)) < Work(config, s)
  {
    match action
    case Client => ClientWorks(config, s);
    case Task => TaskWorks(config, s);
    case Device(answer) => DeviceWorks(config, s, answer);
  }

  // ---------- and some step always changes something ----------

  // While the device has a command it has not answered to the end, and the trigger is where the
  // device waits for it, the device moves.
  lemma DeviceMoves(config: Config, s: Sys, answer: seq<word>)
    requires config.Valid() && Shaped(config, s) && Inv(config, s) && FullAnswer(config, answer)
    requires if s.device == Ready then TriggerOn(s) else s.device == AwaitOff ==> !TriggerOn(s)
    ensures DeviceStep(s, answer) != s
  {
  }

  lemma TaskOrDeviceMoves(config: Config, s: Sys, answer: seq<word>)
    requires config.Valid() && Shaped(config, s) && Inv(config, s) && FullAnswer(config, answer) && s.task != NoTask
    ensures TaskStep(s) != s || DeviceStep(s, answer) != s
  {
    if TaskStep(s) == s {
      DeviceMoves(config, s, answer);
    }
  }

  lemma WaitingMoves(config: Config, s: Sys, answer: seq<word>)
    requires config.Valid() && Shaped(config, s) && Inv(config, s) && FullAnswer(config, answer) && Waiting(s.pc)
    ensures ClientStep(config, s) != s || DeviceStep(s, answer) != s
  {
    if ClientStep(config, s) == s {
      DeviceMoves(config, s, answer);
    }
  }

  lemma SomethingMoves(config: Config, s: Sys, answer: seq<word>) returns (action: Action)
    requires config.Valid() && Shaped(config, s) && Inv(config, s) && FullAnswer(config, answer) && !Done(config, s)
    ensures (action == Client || action == Task || action == Device(answer)) && Step(config, s, action) != s
  {
    if ClientStep(config, s) != s {
      return Client;
    } else if s.task != NoTask {
      TaskOrDeviceMoves(config, s, answer);
      return if TaskStep(s) != s then Task else Device(answer);
    } else if Waiting(s.pc) {
      WaitingMoves(config, s, answer);
      return Device(answer);
    } else {
      assert false;
    }
  }

  // ---------- whole runs ----------

  lemma RunSnoc(config: Config, actions: seq<Action>, action: Action)
    requires config.Valid()
    ensures Run(config, actions + [action]) == Step(config, Run(config, actions), action)
  {
    assert (actions + [action])[..|actions|] == actions;
  }

  // Steps of a run that changed something.
  function Effective(config: Config, actions: seq<Action>): (n: nat)
    requires config.Valid()
  {
    if |actions| == 0 then 0
    else
      var front := actions[..|actions| - 1];
      Effective(config, front) + if Run(config, actions) == Run(config, front) then 0 else 1
  }

  // A conforming run changes something only so often: from some step on, a run that keeps giving
  // every party its turn has nothing left that moves, and by SomethingMoves it is done.
  lemma {:induction false} EffectiveBounded(config: Config, actions: seq<Action>)
    requires config.Valid() && Conforming(actions)
    ensures Effective(config, actions) + Work(config, Run(config, actions)) <= Work(config, Initial(config))
    ensures Effective(config, actions) <= Work(config, Initial(config))
  {
    RunKeeps(config, actions);
    WorkIsPositive(config, Run(config, actions));
    if |actions| > 0 {
      var front, last := actions[..|actions| - 1], actions[|actions| - 1];
      EffectiveBounded(config, front);
      RunKeeps(config, front);
      assert Run(config, actions) == Step(config, Run(config, front), last);
      if Run(config, actions) != Run(config, front) {
        StepWorks(config, Run(config, front), last);
      }
    }
  }

  // The answers given, and the one being written.
  function Decided(s: Sys): (answers: seq<seq<word>>)
  {
    s.answers + if s.device.Answering? then [s.device.answer] else []
  }

  // Further decisions of a device that from now on answers the same to every command.
  ghost predicate GoesOnWith(before: Sys, after: Sys, answer: seq<word>)
  {
    && |Decided(before)| <= |Decided(after)|
    && (forall i :: 0 <= i < |Decided(before)| ==> Decided(after)[i] == Decided(before)[i])
    && (forall i :: |Decided(before)| <= i < |Decided(after)| ==> Decided(after)[i] == answer)
  }

  lemma StepDecides(config: Config, s: Sys, action: Action, answer: seq<word>)
    requires config.Valid() && Shaped(config, s)
    requires action == Client || action == Task || action == Device(answer)
    ensures GoesOnWith(s, Step(config, s, action), answer)
  {
    match action {
      case Client => assert Decided(Step(config, s, action)) == Decided(s);
      case Task => assert Decided(Step(config, s, action)) == Decided(s);
      case Device(_) => DeviceDecides(s, answer);
    }
  }

  lemma DeviceDecides(s: Sys, answer: seq<word>)
    requires |s.area| >= 2
    ensures GoesOnWith(s, DeviceStep(s, answer), answer)
  {
  }

  lemma GoesOnThen(a: Sys, b: Sys, c: Sys, answer: seq<word>)
    requires GoesOnWith(a, b, answer) && GoesOnWith(b, c, answer)
    ensures GoesOnWith(a, c, answer)
  {
  }

  // Every conforming run can be continued to one in which every call has returned, and was
  // latched and answered once, with any answer the device may give from now on.
  lemma {:induction false} RunsComplete(config: Config, actions: seq<Action>, answer: seq<word>)
    returns (all: seq<Action>)
    requires config.Valid() && Conforming(actions) && FullAnswer(config, answer)
    ensures |actions| <= |all| && all[..|actions|] == actions && Conforming(all)
    ensures var s := Run(config, all);
            Done(config, s) && |s.latched| == |s.answers| == |s.results| == |config.commands|
    ensures GoesOnWith(Run(config, actions), Run(config, all), answer)
    decreases Work(config, Run(config, actions))
  {
    RunKeeps(config, actions);
    var s := Run(config, actions);
    if Done(config, s) {
      ExactlyOnce(config, actions);
      all := actions;
    } else {
      var action := SomethingMoves(config, s, answer);
      StepWorks(config, s, action);
      RunSnoc(config, actions, action);
      RunKeeps(config, actions + [action]);
      WorkIsPositive(config, Run(config, actions + [action]));
      StepDecides(config, s, action, answer);
      all := RunsComplete(config, actions + [action], answer);
      GoesOnThen(s, Run(config, actions + [action]), Run(config, all), answer);
      assert all[..|actions|] == all[..|actions + [action]|][..|actions|];
    }
  }

  // What a waiting call returns is what the device wrote: for every waiting command a conforming
  // run has not decided yet, and for either result, the run can be completed so that this very
  // call returns it, AK for 1 and NK for 8, with the words of the answer.
  lemma EitherResultIsReturned(config: Config, actions: seq<Action>, answer: seq<word>, i: nat)
    returns (all: seq<Action>)
    requires config.Valid() && Conforming(actions)
    requires |answer| == config.responseSize && answer[1] == 0 && (answer[0] == 1 || answer[0] == 8)
    requires i < |config.commands| && !config.commands[i].ignore && |Decided(Run(config, actions))| <= i
    ensures |actions| <= |all| && all[..|actions|] == actions && Conforming(all)
    ensures var s := Run(config, all);
            && |s.results| == |s.answers| == |config.commands| && s.answers[i] == answer
            && s.results[i] == (if answer[0] == 8 then NK(answer) else AK(answer))
  {
    all := RunsComplete(config, actions, answer);
    ExactlyOnce(config, all);
    var s := Run(config, all);
    assert Decided(s)[i] == answer;
    NothingUnderWay(config, all);
  }

  lemma NothingUnderWay(config: Config, actions: seq<Action>)
    requires config.Valid() && Conforming(actions) && Done(config, Run(config, actions))
    ensures Decided(Run(config, actions)) == Run(config, actions).answers
  {
    RunKeeps(config, actions);
  }
}
