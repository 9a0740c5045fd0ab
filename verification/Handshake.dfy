/**
 The trigger / BUSY / response handshake between the client and the device
 (backend/plc_link/client.py and backend/field_network/client.py) as a transition system. The
 client's steps are its single memory accesses, so the device and the background task of an
 ignored command may step between any two of them.
 */
module Handshake {
  import opened Bytes

  datatype Command = Command(words: seq<word>, ignore: bool)

  // clears: PLCLINK clears the response area and BUSY before a command, Field Network does not.
  datatype Config = Config(commands: seq<Command>, clears: bool, commandSize: nat, responseSize: nat)
  {
    // Every build yields the full command area with trigger 0.
    predicate Valid()
    {
      && commandSize >= 4 && responseSize >= 4
      && forall i :: 0 <= i < |commands| ==>
           |commands[i].words| == commandSize && commands[i].words[0] == 0 && commands[i].words[1] == 0
    }
  }

  // Where send_command stands. Clearing to Raising are the writes that issue a command.
  datatype ClientPc =
    | Idle | AwaitTask | Clearing | Setting | Unbusy | Raising
    | WaitOn | LowerOn | WaitResponse | WaitOff | LowerOff | Reading

  // The background completion of an ignored command.
  datatype TaskPc = NoTask | TaskWaitOn | TaskLower | TaskWaitOff

  // The device: it sees the trigger, latches the area word by word, sets BUSY, writes its answer
  // word by word, and clears BUSY once the trigger is off.
  datatype DevicePc =
    | Ready | Latching(part: seq<word>) | Latched | Busy | Answering(answer: seq<word>, done: nat) | AwaitOff

  datatype Result = AK(response: seq<word>) | NK(response: seq<word>) | Ignored | Raised

  datatype Sys = Sys(
    area: seq<word>,
    busy: bit,
    response: seq<word>,
    pc: ClientPc,
    task: TaskPc,
    device: DevicePc,
    called: nat,
    results: seq<Result>,
    latched: seq<seq<word>>,
    answers: seq<seq<word>>)

  function Initial(config: Config): (s: Sys)
  {
    Sys(Zeros(config.commandSize), 0, Zeros(config.responseSize), Idle, NoTask, Ready, 0, [], [], [])
  }

  function Dword(area: seq<word>): (v: int)
    requires |area| >= 2
  {
    DwordOf(area[0], area[1])
  }

  function WithTrigger(area: seq<word>, value: word): (next: seq<word>)
    requires |area| >= 2
    ensures |next| == |area|
  {
    area[0 := value][1 := 0]
  }

  predicate IsResult(code: int)
  {
    code == 1 || code == 8
  }

  // What the device answers, whatever the client waits for: result 1 or 8 in the first double word.
  predicate IsAnswer(answer: seq<word>)
  {
    |answer| >= 2 && (Dword(answer) == 1 || Dword(answer) == 8)
  }

  // The result read back: AK for 1, NK for 8, an exception for anything else.
  function ReadResult(response: seq<word>): (result: Result)
    requires |response| >= 2
  {
    if Dword(response) == 1 then AK(response) else if Dword(response) == 8 then NK(response) else Raised
  }

  // Fail is a timeout or a lost connection found while waiting, Refuse a call without a
  // connection, Reject a command that cannot be built, World anything a device may do to BUSY and
  // to the response area, and Device(answer) a conforming device's next step.
  datatype Action =
    | Client | Fail | Refuse | Reject
    | Task | TaskFail
    | Device(answer: seq<word>)
    | World(busy: bit, response: seq<word>)

  predicate Shaped(config: Config, s: Sys)
  {
    && |s.area| == config.commandSize && |s.response| == config.responseSize
    && s.called <= |config.commands|
    && (Waiting(s.pc) ==> s.called > 0)
    && (s.pc == AwaitTask || Issuing(s.pc) ==> s.called < |config.commands|)
  }

  function ClientStep(config: Config, s: Sys): (next: Sys)
    requires config.Valid() && Shaped(config, s)
  {
    match s.pc
    case Idle => if s.called < |config.commands| then s.(pc := AwaitTask) else s
    case AwaitTask => if s.task == NoTask then s.(pc := if config.clears then Clearing else Setting) else s
    case Clearing => s.(response := Zeros(config.responseSize), pc := Setting)
    case Setting => s.(area := config.commands[s.called].words, pc := if config.clears then Unbusy else Raising)
    case Unbusy => s.(busy := 0, pc := Raising)
    case Raising =>
      var raised := s.(area := WithTrigger(s.area, 1), called := s.called + 1);
      if config.commands[s.called].ignore
      then raised.(task := TaskWaitOn, results := s.results + [Ignored], pc := Idle)
      else raised.(pc := WaitOn)
    case WaitOn => if s.busy == 1 then s.(pc := LowerOn) else s
    case LowerOn => s.(area := WithTrigger(s.area, 0), pc := WaitResponse)
    case WaitResponse => if IsResult(Dword(s.response)) then s.(pc := WaitOff) else s
    case WaitOff => if s.busy == 0 then s.(pc := LowerOff) else s
    case LowerOff => s.(area := WithTrigger(s.area, 0), pc := Reading)
    case Reading => s.(results := s.results + [ReadResult(s.response)], pc := Idle)
  }

  function TaskStep(s: Sys): (next: Sys)
    requires |s.area| >= 2
  {
    match s.task
    case NoTask => s
    case TaskWaitOn => if s.busy == 1 then s.(task := TaskLower) else s
    case TaskLower => s.(area := WithTrigger(s.area, 0), task := TaskWaitOff)
    case TaskWaitOff => if s.busy == 0 then s.(task := NoTask) else s
  }

  // A conforming device; the answer matters only where it starts to answer.
  function DeviceStep(s: Sys, answer: seq<word>): (next: Sys)
    requires |s.area| >= 2
  {
    match s.device
    case Ready => if Dword(s.area) == 1 then s.(device := Latching([])) else s
    case Latching(part) =>
      if |part| < |s.area| then s.(device := Latching(part + [s.area[|part|]]))
      else s.(device := Latched, latched := s.latched + [part])
    case Latched => s.(busy := 1, device := Busy)
    case Busy =>
      if |answer| == |s.response| && IsAnswer(answer)
      then s.(device := Answering(answer, 0)) else s
    case Answering(a, done) =>
      if done < |a| && done < |s.response|
      then s.(response := s.response[done := a[done]], device := Answering(a, done + 1))
      else s.(device := AwaitOff, answers := s.answers + [a])
    case AwaitOff => if Dword(s.area) == 0 then s.(busy := 0, device := Ready) else s
  }

  function Step(config: Config, s: Sys, action: Action): (next: Sys)
    requires config.Valid() && Shaped(config, s)
  {
    match action
    case Client => ClientStep(config, s)
    case Fail =>
      if s.pc == WaitOn || s.pc == WaitResponse || s.pc == WaitOff
      then s.(area := WithTrigger(s.area, 0), results := s.results + [Raised], pc := Idle) else s
    case Refuse =>
      if s.pc == Idle && s.called < |config.commands|
      then s.(called := s.called + 1, results := s.results + [Raised]) else s
    case Reject =>
      if s.pc == AwaitTask && s.task == NoTask
      then s.(called := s.called + 1, results := s.results + [Raised], pc := Idle) else s
    case Task => TaskStep(s)
    case TaskFail =>
      if s.task == TaskWaitOn || s.task == TaskWaitOff then s.(area := WithTrigger(s.area, 0), task := NoTask) else s
    case Device(answer) => DeviceStep(s, answer)
    case World(busy, response) =>
      if |response| == config.responseSize then s.(busy := busy, response := response) else s
  }

  lemma StepShaped(config: Config, s: Sys, action: Action)
    requires config.Valid() && Shaped(config, s)
    ensures Shaped(config, Step(config, s, action))
  {
  }

  function Run(config: Config, actions: seq<Action>): (s: Sys)
    requires config.Valid()
    ensures Shaped(config, s)
  {
    if |actions| == 0 then Initial(config)
    else
      var s := Run(config, actions[..|actions| - 1]);
      StepShaped(config, s, actions[|actions| - 1]);
      Step(config, s, actions[|actions| - 1])
  }

  // ---------- runs from any state ----------

  function RunFrom(config: Config, s: Sys, actions: seq<Action>): (end: Sys)
    requires config.Valid() && Shaped(config, s)
    ensures Shaped(config, end)
  {
    if |actions| == 0 then s
    else
      var before := RunFrom(config, s, actions[..|actions| - 1]);
      StepShaped(config, before, actions[|actions| - 1]);
      Step(config, before, actions[|actions| - 1])
  }

  lemma {:induction false} RunFromRun(config: Config, a: seq<Action>, b: seq<Action>)
    requires config.Valid()
    ensures Run(config, a + b) == RunFrom(config, Run(config, a), b)
  {
    if |b| == 0 {
      assert a + b == a;
    } else {
      RunFromRun(config, a, b[..|b| - 1]);
      FrontOfConcat(a, b);
    }
  }

  // Timeouts, lost connections, refusals and rejected commands at will, but no other hand on BUSY
  // and the response area than the device's.
  predicate Undisturbed(actions: seq<Action>)
  {
    forall i :: 0 <= i < |actions| ==> !actions[i].World?
  }

  // ---------- exactly once ----------

  // No timeout, no lost connection, and a device that conforms.
  predicate Conforming(actions: seq<Action>)
  {
    forall i :: 0 <= i < |actions| ==> actions[i].Client? || actions[i].Task? || actions[i].Device?
  }

  // The words a device finds in the area while the trigger of command i is on.
  function Issued(config: Config, i: nat): (words: seq<word>)
    requires config.Valid() && i < |config.commands|
  {
    WithTrigger(config.commands[i].words, 1)
  }

  // The trigger is on exactly from raising it to lowering it.
  predicate TriggerOn(s: Sys)
  {
    s.pc == WaitOn || s.pc == LowerOn || s.task == TaskWaitOn || s.task == TaskLower
  }

  predicate Issuing(pc: ClientPc)
  {
    pc == Clearing || pc == Setting || pc == Unbusy || pc == Raising
  }

  predicate Waiting(pc: ClientPc)
  {
    pc == WaitOn || pc == LowerOn || pc == WaitResponse || pc == WaitOff || pc == LowerOff || pc == Reading
  }

  // Where the current command's handshake is, as seen from the device.
  predicate DeviceInv(config: Config, s: Sys)
    requires config.Valid() && Shaped(config, s)
  {
    var k, d, a := s.called, |s.latched|, |s.answers|;
    match s.device
    case Ready => s.busy == 0 && a == d && d == (if TriggerOn(s) then k - 1 else k)
    case Latching(part) =>
      s.busy == 0 && a == d == k - 1 && TriggerOn(s) && |part| <= |s.area| && part == s.area[..|part|]
    case Latched => s.busy == 0 && d == k && a == k - 1 && TriggerOn(s)
    case Busy => s.busy == 1 && d == k && a == k - 1
    case Answering(answer, done) =>
      && s.busy == 1 && d == k && a == k - 1
      && |answer| == |s.response| && IsAnswer(answer)
      && done <= |answer| && s.response[..done] == answer[..done]
    case AwaitOff => s.busy == 1 && d == k && a == k && k > 0 && s.response == s.answers[k - 1]
  }

  // The client has seen BUSY on for the command at hand, or is done with it.
  predicate SeenInv(config: Config, s: Sys)
    requires config.Valid() && Shaped(config, s)
  {
    var k := s.called;
    && (s.pc == LowerOn || s.pc == WaitResponse || s.pc == WaitOff || s.task == TaskLower || s.task == TaskWaitOff ==>
          |s.latched| == k && (s.busy == 1 || (s.device == Ready && |s.answers| == k)))
    && (s.pc == LowerOn || s.task == TaskLower ==> s.busy == 1)
    && ((s.pc == LowerOff || s.pc == Reading || Issuing(s.pc)
         || ((s.pc == Idle || s.pc == AwaitTask) && s.task == NoTask)) ==>
          s.device == Ready && |s.answers| == k)
    && (s.device == Ready && Waiting(s.pc) && |s.answers| == k ==> s.response == s.answers[k - 1])
  }

  // What the command area holds, and how many calls have returned.
  predicate AreaInv(config: Config, s: Sys)
    requires config.Valid() && Shaped(config, s)
  {
    var k := s.called;
    && (Waiting(s.pc) ==> !config.commands[k - 1].ignore)
    && |s.results| == (if Waiting(s.pc) then k - 1 else k)
    && (TriggerOn(s) ==> k > 0 && s.area == Issued(config, k - 1))
    && ((s.pc == Unbusy || s.pc == Raising) ==> s.area == config.commands[k].words)
  }

  predicate ClientInv(config: Config, s: Sys)
    requires config.Valid() && Shaped(config, s)
  {
    SeenInv(config, s) && AreaInv(config, s)
  }

  // What the device has latched and answered, and what the calls have returned.
  predicate HistoryInv(config: Config, s: Sys)
    requires config.Valid() && Shaped(config, s)
  {
    && |s.latched| <= s.called && |s.answers| <= |s.latched| && |s.results| <= s.called
    && (forall i :: 0 <= i < |s.latched| ==> s.latched[i] == Issued(config, i))
    && (forall i :: 0 <= i < |s.answers| ==> |s.answers[i]| == config.responseSize && IsAnswer(s.answers[i]))
    && (forall i :: 0 <= i < |s.results| ==> Answered(config.commands[i], s.results[i], s.answers, i))
  }

  // Call i has returned what the device answered to command i.
  predicate Answered(command: Command, result: Result, answers: seq<seq<word>>, i: nat)
  {
    if command.ignore then result == Ignored
    else i < |answers| && |answers[i]| >= 2 && result == ReadResult(answers[i])
  }

  ghost predicate Inv(config: Config, s: Sys)
    requires config.Valid() && Shaped(config, s)
  {
    Disciplined(config, s) && DeviceInv(config, s) && ClientInv(config, s) && HistoryInv(config, s)
  }

  lemma {:induction false} InitialInv(config: Config)
    requires config.Valid()
    ensures Inv(config, Initial(config))
  {
  }

  lemma ClientKeepsDevice(config: Config, s: Sys)
    requires config.Valid() && Shaped(config, s) && Inv(config, s)
    ensures var next := ClientStep(config, s); Shaped(config, next) && DeviceInv(config, next)
  {
    if Waiting(s.pc) {
      WaitingKeepsDevice(config, s);
    } else {
      IssuingKeepsDevice(config, s);
    }
  }

  lemma WaitingKeepsDevice(config: Config, s: Sys)
    requires config.Valid() && Shaped(config, s) && Inv(config, s) && Waiting(s.pc)
    ensures var next := ClientStep(config, s); Shaped(config, next) && DeviceInv(config, next)
  {
  }

  lemma IssuingKeepsDevice(config: Config, s: Sys)
    requires config.Valid() && Shaped(config, s) && Inv(config, s) && !Waiting(s.pc)
    ensures var next := ClientStep(config, s); Shaped(config, next) && DeviceInv(config, next)
  {
  }

  lemma ClientKeepsClient(config: Config, s: Sys)
    requires config.Valid() && Shaped(config, s) && Inv(config, s)
    ensures var next := ClientStep(config, s); Shaped(config, next) && ClientInv(config, next)
  {
    ClientKeepsArea(config, s);
    if Waiting(s.pc) {
      WaitingKeepsSeen(config, s);
    } else {
      IssuingKeepsSeen(config, s);
    }
  }

  lemma ClientKeepsArea(config: Config, s: Sys)
    requires config.Valid() && Shaped(config, s) && Disciplined(config, s) && AreaInv(config, s)
    ensures var next := ClientStep(config, s); Shaped(config, next) && AreaInv(config, next)
  {
    if Waiting(s.pc) {
      WaitingKeepsArea(config, s);
    }
  }

  lemma WaitingKeepsArea(config: Config, s: Sys)
    requires config.Valid() && Shaped(config, s) && Disciplined(config, s) && AreaInv(config, s) && Waiting(s.pc)
    ensures var next := ClientStep(config, s); Shaped(config, next) && AreaInv(config, next)
  {
  }

  lemma WaitingKeepsSeen(config: Config, s: Sys)
    requires config.Valid() && Shaped(config, s) && Inv(config, s) && Waiting(s.pc)
    ensures var next := ClientStep(config, s); Shaped(config, next) && SeenInv(config, next)
  {
  }

  lemma IssuingKeepsSeen(config: Config, s: Sys)
    requires config.Valid() && Shaped(config, s) && Inv(config, s) && !Waiting(s.pc)
    ensures var next := ClientStep(config, s); Shaped(config, next) && SeenInv(config, next)
  {
  }

  lemma ClientKeepsHistory(config: Config, s: Sys)
    requires config.Valid() && Shaped(config, s) && Inv(config, s)
    ensures var next := ClientStep(config, s); Shaped(config, next) && HistoryInv(config, next)
  {
    if s.pc == Reading || s.pc == Raising {
      ResultKeepsHistory(config, s);
    } else {
      SameHistory(config, s);
    }
  }

  lemma SameHistory(config: Config, s: Sys)
    requires config.Valid() && Shaped(config, s) && HistoryInv(config, s) && s.pc != Reading && s.pc != Raising
    ensures var next := ClientStep(config, s);
            && Shaped(config, next) && next.called == s.called && next.results == s.results
            && next.latched == s.latched && next.answers == s.answers && HistoryInv(config, next)
  {
  }

  // The steps that add a result, or the command it will belong to.
  lemma ResultKeepsHistory(config: Config, s: Sys)
    requires config.Valid() && Shaped(config, s) && Inv(config, s) && (s.pc == Reading || s.pc == Raising)
    ensures var next := ClientStep(config, s); Shaped(config, next) && HistoryInv(config, next)
  {
    var next := ClientStep(config, s);
    assert next.answers == s.answers && next.latched == s.latched;
    forall i | 0 <= i < |next.results| ensures Answered(config.commands[i], next.results[i], s.answers, i) {
      if i < |s.results| {
        assert Answered(config.commands[i], s.results[i], s.answers, i);
      }
    }
  }

  lemma TaskKeepsDevice(config: Config, s: Sys)
    requires config.Valid() && Shaped(config, s) && Inv(config, s)
    ensures var next := TaskStep(s); Shaped(config, next) && DeviceInv(config, next)
  {
  }

  lemma TaskKeepsClient(config: Config, s: Sys)
    requires config.Valid() && Shaped(config, s) && Inv(config, s)
    ensures var next := TaskStep(s); Shaped(config, next) && ClientInv(config, next)
  {
  }

  lemma TaskKeepsHistory(config: Config, s: Sys)
    requires config.Valid() && Shaped(config, s) && Inv(config, s)
    ensures var next := TaskStep(s); Shaped(config, next) && HistoryInv(config, next)
  {
    var next := TaskStep(s);
    assert next.answers == s.answers && next.latched == s.latched && next.results == s.results;
    forall i | 0 <= i < |s.results| ensures Answered(config.commands[i], next.results[i], next.answers, i) {
      assert Answered(config.commands[i], s.results[i], s.answers, i);
    }
  }

  lemma DeviceKeepsDevice(config: Config, s: Sys, answer: seq<word>)
    requires config.Valid() && Shaped(config, s) && Inv(config, s)
    ensures var next := DeviceStep(s, answer); Shaped(config, next) && DeviceInv(config, next)
  {
    if s.device.Answering? {
      AnsweringKeepsDevice(config, s, answer);
    } else if s.device.Latching? {
      LatchingKeepsDevice(config, s, answer);
    }
  }

  lemma LatchingKeepsDevice(config: Config, s: Sys, answer: seq<word>)
    requires config.Valid() && Shaped(config, s) && Inv(config, s) && s.device.Latching?
    ensures var next := DeviceStep(s, answer); Shaped(config, next) && DeviceInv(config, next)
  {
    var n := |s.device.part|;
    if n < |s.area| {
      assert s.area[..n] + [s.area[n]] == s.area[..n + 1];
    }
  }

  lemma AnsweringKeepsDevice(config: Config, s: Sys, answer: seq<word>)
    requires config.Valid() && Shaped(config, s) && Inv(config, s) && s.device.Answering?
    ensures var next := DeviceStep(s, answer); Shaped(config, next) && DeviceInv(config, next)
  {
    var a, done := s.device.answer, s.device.done;
    if done < |a| {
      assert s.response[done := a[done]][..done + 1] == a[..done + 1];
    } else {
      assert s.response[..done] == s.response && a[..done] == a;
    }
  }

  lemma DeviceKeepsClient(config: Config, s: Sys, answer: seq<word>)
    requires config.Valid() && Shaped(config, s) && Inv(config, s)
    ensures var next := DeviceStep(s, answer); Shaped(config, next) && ClientInv(config, next)
  {
    DeviceKeepsArea(config, s, answer);
    DeviceKeepsSeen(config, s, answer);
  }

  lemma DeviceKeepsArea(config: Config, s: Sys, answer: seq<word>)
    requires config.Valid() && Shaped(config, s) && AreaInv(config, s)
    ensures var next := DeviceStep(s, answer); Shaped(config, next) && AreaInv(config, next)
  {
    DeviceLeaves(config, s, answer);
    SameArea(config, s, DeviceStep(s, answer));
  }

  lemma DeviceLeaves(config: Config, s: Sys, answer: seq<word>)
    requires config.Valid() && Shaped(config, s)
    ensures var next := DeviceStep(s, answer);
            && Shaped(config, next) && next.area == s.area && next.pc == s.pc && next.task == s.task
            && next.called == s.called && next.results == s.results
  {
  }

  lemma SameArea(config: Config, s: Sys, next: Sys)
    requires config.Valid() && Shaped(config, s) && Shaped(config, next) && AreaInv(config, s)
    requires next.area == s.area && next.pc == s.pc && next.task == s.task
    requires next.called == s.called && next.results == s.results
    ensures AreaInv(config, next)
  {
  }

  lemma DeviceKeepsSeen(config: Config, s: Sys, answer: seq<word>)
    requires config.Valid() && Shaped(config, s) && Disciplined(config, s) && DeviceInv(config, s) && SeenInv(config, s)
    ensures var next := DeviceStep(s, answer); Shaped(config, next) && SeenInv(config, next)
  {
  }

  lemma DeviceKeepsHistory(config: Config, s: Sys, answer: seq<word>)
    requires config.Valid() && Shaped(config, s) && Inv(config, s)
    ensures var next := DeviceStep(s, answer); Shaped(config, next) && HistoryInv(config, next)
  {
    if s.device.Answering? {
      AnsweringKeepsHistory(config, s, answer);
    }
  }

  lemma AnsweringKeepsHistory(config: Config, s: Sys, answer: seq<word>)
    requires config.Valid() && Shaped(config, s) && Inv(config, s) && s.device.Answering?
    ensures var next := DeviceStep(s, answer); Shaped(config, next) && HistoryInv(config, next)
  {
    var next := DeviceStep(s, answer);
    forall i | 0 <= i < |s.results| ensures Answered(config.commands[i], s.results[i], next.answers, i) {
      AnsweredStays(config.commands[i], s.results[i], s.answers, s.device.answer, i);
    }
  }

  lemma AnsweredStays(command: Command, result: Result, answers: seq<seq<word>>, more: seq<word>, i: nat)
    requires Answered(command, result, answers, i)
    ensures Answered(command, result, answers + [more], i)
  {
  }

  lemma StepKeeps(config: Config, s: Sys, action: Action)
    requires config.Valid() && Shaped(config, s) && Inv(config, s)
    requires action.Client? || action.Task? || action.Device?
    ensures Shaped(config, Step(config, s, action)) && Inv(config, Step(config, s, action))
  {
    StepDisciplined(config, s, action);
    match action
    case Client =>
      ClientKeepsDevice(config, s);
      ClientKeepsClient(config, s);
      ClientKeepsHistory(config, s);
    case Task =>
      TaskKeepsDevice(config, s);
      TaskKeepsClient(config, s);
      TaskKeepsHistory(config, s);
    case Device(answer) =>
      DeviceKeepsDevice(config, s, answer);
      DeviceKeepsClient(config, s, answer);
      DeviceKeepsHistory(config, s, answer);
  }

  lemma {:induction false} RunKeeps(config: Config, actions: seq<Action>)
    requires config.Valid() && Conforming(actions)
    ensures Inv(config, Run(config, actions))
  {
    if |actions| == 0 {
      InitialInv(config);
    } else {
      var front := actions[..|actions| - 1];
      RunKeeps(config, front);
      StepKeeps(config, Run(config, front), actions[|actions| - 1]);
    }
  }

  // Exactly once, in every interleaving with a conforming device and without timeouts, whether or
  // not ignored commands are mixed in, and for both transports: the device has latched the issued
  // commands each once, in order, with exactly the words built for them (all of them, or all but
  // the one at hand); every waiting call has returned AK or NK as the device's answer to that
  // very command says, which begins with the double word 1 or 8; and between calls, with no
  // ignored command pending, every issued command has been latched and answered.
  lemma ExactlyOnce(config: Config, actions: seq<Action>)
    requires config.Valid() && Conforming(actions)
    ensures var s := Run(config, actions);
            && s.called - 1 <= |s.latched| <= s.called
            && (forall i :: 0 <= i < |s.latched| ==> s.latched[i] == Issued(config, i))
            && |s.results| <= s.called
            && (forall i :: 0 <= i < |s.results| && config.commands[i].ignore ==> s.results[i] == Ignored)
            && (forall i :: 0 <= i < |s.results| && !config.commands[i].ignore ==>
                  && i < |s.answers| && i < |s.latched| && |s.answers[i]| >= 2 && s.answers[i][1] == 0
                  && (s.answers[i][0] == 1 || s.answers[i][0] == 8)
                  && s.results[i] == (if s.answers[i][0] == 1 then AK(s.answers[i]) else NK(s.answers[i])))
            && (s.pc == Idle && s.task == NoTask ==> |s.latched| == |s.answers| == |s.results| == s.called)
  {
    RunKeeps(config, actions);
    var s := Run(config, actions);
    forall i | 0 <= i < |s.results| && !config.commands[i].ignore
      ensures i < |s.answers| && i < |s.latched| && |s.answers[i]| >= 2 && s.answers[i][1] == 0
      ensures s.answers[i][0] == 1 || s.answers[i][0] == 8
      ensures s.results[i] == (if s.answers[i][0] == 1 then AK(s.answers[i]) else NK(s.answers[i]))
    {
      assert Answered(config.commands[i], s.results[i], s.answers, i);
    }
    forall i | 0 <= i < |s.results| && config.commands[i].ignore ensures s.results[i] == Ignored {
      assert Answered(config.commands[i], s.results[i], s.answers, i);
    }
  }

  // ---------- trigger discipline, against any device ----------

  // What holds whatever the device does and however calls fail.
  predicate Disciplined(config: Config, s: Sys)
    requires config.Valid() && Shaped(config, s)
  {
    && s.area[1] == 0 && Dword(s.area) == (if TriggerOn(s) then 1 else 0)
    && (s.task != NoTask ==> s.pc == Idle || s.pc == AwaitTask)
  }

  lemma StepDisciplined(config: Config, s: Sys, action: Action)
    requires config.Valid() && Shaped(config, s) && Disciplined(config, s)
    ensures Shaped(config, Step(config, s, action)) && Disciplined(config, Step(config, s, action))
  {
    if action == Client {
      ClientDisciplined(config, s);
    }
  }

  lemma ClientDisciplined(config: Config, s: Sys)
    requires config.Valid() && Shaped(config, s) && Disciplined(config, s)
    ensures Shaped(config, ClientStep(config, s)) && Disciplined(config, ClientStep(config, s))
  {
  }

  lemma {:induction false} RunDisciplined(config: Config, actions: seq<Action>)
    requires config.Valid()
    ensures Disciplined(config, Run(config, actions))
  {
    if |actions| > 0 {
      RunDisciplined(config, actions[..|actions| - 1]);
      StepDisciplined(config, Run(config, actions[..|actions| - 1]), actions[|actions| - 1]);
    }
  }

  // The step that lets a waiting call return or raise.
  predicate EndsWaitingCall(config: Config, s: Sys, action: Action)
    requires config.Valid() && Shaped(config, s)
  {
    var next := Step(config, s, action);
    |next.results| > |s.results| && next.called > 0 && !config.commands[next.called - 1].ignore
  }

  lemma RestUnchanged(config: Config, s: Sys, action: Action)
    requires config.Valid() && Shaped(config, s) && Disciplined(config, s)
    ensures var next := Step(config, s, action);
            |next.area| == |s.area| && (Dword(s.area) == 1 || Dword(next.area) == 1 ==> next.area[2..] == s.area[2..])
  {
    assert WithTrigger(s.area, 0)[2..] == s.area[2..] && WithTrigger(s.area, 1)[2..] == s.area[2..];
  }

  lemma TriggerAfterCall(config: Config, s: Sys, action: Action)
    requires config.Valid() && Shaped(config, s) && Disciplined(config, s) && EndsWaitingCall(config, s, action)
    ensures Shaped(config, Step(config, s, action))
    ensures Dword(Step(config, s, action).area) == 0
        <==> !(action.Refuse? && (s.task == TaskWaitOn || s.task == TaskLower))
  {
    StepDisciplined(config, s, action);
  }

  // In every run, with any device, any timeouts and any lost connections:
  // the rest of the command area does not change while the trigger is on;
  // while a command is being written, the trigger of every earlier command is off and no ignored
  // command is pending; and after a waiting call has returned or raised the trigger is 0, except
  // exactly when the call was refused for want of a connection while an ignored command still
  // had its trigger on.
  lemma TriggerDiscipline(config: Config, actions: seq<Action>, action: Action)
    requires config.Valid()
    ensures var s := Run(config, actions);
            var next := Step(config, s, action);
            && |next.area| == |s.area|
            && (Dword(s.area) == 1 || Dword(next.area) == 1 ==> next.area[2..] == s.area[2..])
            && (Issuing(s.pc) ==> Dword(s.area) == 0 && s.task == NoTask)
            && (EndsWaitingCall(config, s, action) ==>
                  (Dword(next.area) == 0 <==> !(action.Refuse? && (s.task == TaskWaitOn || s.task == TaskLower))))
  {
    RunDisciplined(config, actions);
    var s := Run(config, actions);
    RestUnchanged(config, s, action);
    if EndsWaitingCall(config, s, action) {
      TriggerAfterCall(config, s, action);
    }
  }
}
