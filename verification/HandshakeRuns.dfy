/**
 Runs that show what can go wrong: a call refused while an ignored command still holds the trigger,
 and a call that takes the answer to an earlier one, since the echoed command code is never
 compared.
 */
module HandshakeRuns {
  import opened Bytes
  import opened Handshake

  // Some undisturbed steps lead from s to t.
  ghost predicate Reaches(config: Config, s: Sys, t: Sys)
    requires config.Valid() && Shaped(config, s)
  {
    exists actions :: Undisturbed(actions) && RunFrom(config, s, actions) == t
  }

  lemma ReachesItself(config: Config, s: Sys)
    requires config.Valid() && Shaped(config, s)
    ensures Reaches(config, s, s)
  {
    assert Undisturbed([]) && RunFrom(config, s, []) == s;
  }

  lemma ReachesNext(config: Config, s: Sys, t: Sys, action: Action)
    requires config.Valid() && Shaped(config, s) && Shaped(config, t) && Reaches(config, s, t) && !action.World?
    ensures Shaped(config, Step(config, t, action)) && Reaches(config, s, Step(config, t, action))
  {
    StepShaped(config, t, action);
    var actions :| Undisturbed(actions) && RunFrom(config, s, actions) == t;
    assert (actions + [action])[..|actions|] == actions;
    assert Undisturbed(actions + [action]);
  }

  lemma ReachesClient(config: Config, s: Sys, t: Sys, u: Sys)
    requires config.Valid() && Shaped(config, s) && Shaped(config, t) && Reaches(config, s, t)
    requires u == ClientStep(config, t)
    ensures Shaped(config, u) && Reaches(config, s, u)
  {
    ReachesNext(config, s, t, Client);
  }

  lemma ReachesDevice(config: Config, s: Sys, t: Sys, answer: seq<word>, u: Sys)
    requires config.Valid() && Shaped(config, s) && Shaped(config, t) && Reaches(config, s, t)
    requires u == DeviceStep(t, answer)
    ensures Shaped(config, u) && Reaches(config, s, u)
  {
    ReachesNext(config, s, t, Device(answer));
  }

  lemma ReachesRun(config: Config, t: Sys) returns (actions: seq<Action>)
    requires config.Valid() && Reaches(config, Initial(config), t)
    ensures Undisturbed(actions) && Run(config, actions) == t
  {
    actions :| Undisturbed(actions) && RunFrom(config, Initial(config), actions) == t;
    RunFromRun(config, [], actions);
    assert [] + actions == actions;
  }

  // The state in which an idle client has just issued its next command.
  function AfterIssue(config: Config, s: Sys): (next: Sys)
    requires config.Valid() && Shaped(config, s) && s.called < |config.commands|
  {
    var cleared := if config.clears then s.(response := Zeros(config.responseSize), busy := 0) else s;
    var raised := cleared.(area := WithTrigger(config.commands[s.called].words, 1), called := s.called + 1);
    if config.commands[s.called].ignore then raised.(task := TaskWaitOn, results := s.results + [Ignored], pc := Idle)
    else raised.(pc := WaitOn)
  }

  // Idle, the client waits for no task and clears the response where it is to.
  lemma ReachesSetting(config: Config, start: Sys, s: Sys)
    requires config.Valid() && Shaped(config, start) && Shaped(config, s) && Reaches(config, start, s)
    requires s.pc == Idle && s.task == NoTask && s.called < |config.commands|
    ensures var cleared := if config.clears then s.(response := Zeros(config.responseSize)) else s;
            Shaped(config, cleared.(pc := Setting)) && Reaches(config, start, cleared.(pc := Setting))
  {
    var waiting := s.(pc := AwaitTask);
    ReachesClient(config, start, s, waiting);
    if config.clears {
      var clearing := s.(pc := Clearing);
      ReachesClient(config, start, waiting, clearing);
      ReachesClient(config, start, clearing, s.(response := Zeros(config.responseSize), pc := Setting));
    } else {
      ReachesClient(config, start, waiting, s.(pc := Setting));
    }
  }

  lemma ReachesRaising(config: Config, start: Sys, s: Sys)
    requires config.Valid() && Shaped(config, start) && Shaped(config, s) && Reaches(config, start, s)
    requires s.pc == Setting
    ensures var words, busy := config.commands[s.called].words, if config.clears then 0 else s.busy;
            var raising := s.(area := words, busy := busy, pc := Raising);
            Shaped(config, raising) && Reaches(config, start, raising)
  {
    var written := s.(area := config.commands[s.called].words);
    if config.clears {
      ReachesClient(config, start, s, written.(pc := Unbusy));
      ReachesClient(config, start, written.(pc := Unbusy), written.(busy := 0, pc := Raising));
    } else {
      ReachesClient(config, start, s, written.(pc := Raising));
    }
  }

  lemma ReachesIssue(config: Config, start: Sys, s: Sys)
    requires config.Valid() && Shaped(config, start) && Shaped(config, s) && Reaches(config, start, s)
    requires s.pc == Idle && s.task == NoTask && s.called < |config.commands|
    ensures Shaped(config, AfterIssue(config, s)) && Reaches(config, start, AfterIssue(config, s))
  {
    var cleared := if config.clears then s.(response := Zeros(config.responseSize)) else s;
    ReachesSetting(config, start, s);
    ReachesRaising(config, start, cleared.(pc := Setting));
    var words, busy := config.commands[s.called].words, if config.clears then 0 else s.busy;
    ReachesClient(config, start, cleared.(area := words, busy := busy, pc := Raising), AfterIssue(config, s));
  }

  // The exception does occur: an ignored command is issued, the connection is lost before the
  // device reacts, and the next call is refused while the trigger is still on.
  lemma RefusedCallLeavesTrigger(config: Config) returns (actions: seq<Action>)
    requires config.Valid() && |config.commands| == 2 && config.commands[0].ignore && !config.commands[1].ignore
    ensures var s := Run(config, actions);
            Undisturbed(actions) && EndsWaitingCall(config, s, Refuse) && Dword(Step(config, s, Refuse).area) == 1
  {
    var start := Initial(config);
    ReachesItself(config, start);
    ReachesIssue(config, start, start);
    actions := ReachesRun(config, AfterIssue(config, start));
    RefusedWithTrigger(config, AfterIssue(config, start));
  }

  // An ignored command has been issued, and a waiting one comes next.
  lemma RefusedWithTrigger(config: Config, s: Sys)
    requires config.Valid() && Shaped(config, s) && s.pc == Idle && Dword(s.area) == 1
    requires s.called < |config.commands| && !config.commands[s.called].ignore
    ensures EndsWaitingCall(config, s, Refuse) && Dword(Step(config, s, Refuse).area) == 1
  {
  }

  // ---------- a stale answer ----------

  lemma LatchStep(s: Sys, n: nat)
    requires 2 <= |s.area| && n < |s.area|
    ensures DeviceStep(s.(device := Latching(s.area[..n])), []) == s.(device := Latching(s.area[..n + 1]))
  {
    assert s.area[..n] + [s.area[n]] == s.area[..n + 1];
  }

  // A device that has seen the trigger latches the whole area.
  lemma {:induction false} ReachesLatching(config: Config, start: Sys, s: Sys, n: nat)
    requires config.Valid() && Shaped(config, start) && Shaped(config, s) && n <= config.commandSize
    requires s.device == Latching([]) && Reaches(config, start, s)
    ensures Reaches(config, start, s.(device := Latching(s.area[..n])))
  {
    if n > 0 {
      ReachesLatching(config, start, s, n - 1);
      LatchStep(s, n - 1);
      ReachesDevice(config, start, s.(device := Latching(s.area[..n - 1])), [], s.(device := Latching(s.area[..n])));
    }
  }

  lemma ReachesLatched(config: Config, start: Sys, s: Sys)
    requires config.Valid() && Shaped(config, start) && Shaped(config, s) && Reaches(config, start, s)
    requires s.device == Ready && Dword(s.area) == 1
    ensures var t := s.(device := Latched, latched := s.latched + [s.area]);
            Shaped(config, t) && Reaches(config, start, t)
  {
    var seen := s.(device := Latching([]));
    ReachesDevice(config, start, s, [], seen);
    ReachesLatching(config, start, seen, config.commandSize);
    assert s.area[..config.commandSize] == s.area;
    ReachesDevice(config, start, s.(device := Latching(s.area)), [],
        s.(device := Latched, latched := s.latched + [s.area]));
  }

  function PartAnswered(s: Sys, answer: seq<word>, n: nat): (t: Sys)
    requires n <= |s.response| == |answer|
  {
    s.(response := answer[..n] + s.response[n..], device := Answering(answer, n))
  }

  lemma NextWord(s: seq<word>, answer: seq<word>, n: nat)
    requires n < |s| == |answer|
    ensures (answer[..n] + s[n..])[n := answer[n]] == answer[..n + 1] + s[n + 1..]
  {
  }

  lemma AnswerStep(s: Sys, answer: seq<word>, n: nat)
    requires |s.area| >= 2 && n < |s.response| == |answer|
    ensures DeviceStep(PartAnswered(s, answer, n), answer) == PartAnswered(s, answer, n + 1)
  {
    NextWord(s.response, answer, n);
  }

  lemma {:induction false} ReachesPartAnswered(config: Config, start: Sys, s: Sys, answer: seq<word>, n: nat)
    requires config.Valid() && Shaped(config, start) && Shaped(config, s) && |answer| == config.responseSize
    requires n <= config.responseSize && s.device == Answering(answer, 0) && Reaches(config, start, s)
    ensures Shaped(config, PartAnswered(s, answer, n)) && Reaches(config, start, PartAnswered(s, answer, n))
  {
    if n == 0 {
      assert answer[..0] + s.response[0..] == s.response;
    } else {
      ReachesPartAnswered(config, start, s, answer, n - 1);
      AnswerStep(s, answer, n - 1);
      ReachesDevice(config, start, PartAnswered(s, answer, n - 1), answer, PartAnswered(s, answer, n));
    }
  }

  // A busy device writes its whole answer and waits for the trigger to go off.
  lemma ReachesAnswered(config: Config, start: Sys, s: Sys, answer: seq<word>)
    requires config.Valid() && Shaped(config, start) && Shaped(config, s) && Reaches(config, start, s)
    requires s.device == Busy && |answer| == config.responseSize && IsAnswer(answer)
    ensures var t := s.(response := answer, device := AwaitOff, answers := s.answers + [answer]);
            Shaped(config, t) && Reaches(config, start, t)
  {
    var n := config.responseSize;
    var started := s.(device := Answering(answer, 0));
    ReachesDevice(config, start, s, answer, started);
    ReachesPartAnswered(config, start, started, answer, n);
    assert answer[..n] + s.response[n..] == answer;
    ReachesDevice(config, start, PartAnswered(started, answer, n), answer,
                  s.(response := answer, device := AwaitOff, answers := s.answers + [answer]));
  }

  // The client sees BUSY come on and lowers the trigger.
  lemma ReachesLowered(config: Config, start: Sys, s: Sys)
    requires config.Valid() && Shaped(config, start) && Shaped(config, s) && Reaches(config, start, s)
    requires s.pc == WaitOn && s.device == Latched
    ensures var t := s.(busy := 1, device := Busy, area := WithTrigger(s.area, 0), pc := WaitResponse);
            Shaped(config, t) && Reaches(config, start, t)
  {
    var busy := s.(busy := 1, device := Busy);
    ReachesDevice(config, start, s, [], busy);
    ReachesClient(config, start, busy, busy.(pc := LowerOn));
    ReachesClient(config, start, busy.(pc := LowerOn), busy.(area := WithTrigger(s.area, 0), pc := WaitResponse));
  }

  // The client finds an answer, sees BUSY go off, and returns what it reads.
  lemma ReachesReturn(config: Config, start: Sys, s: Sys)
    requires config.Valid() && Shaped(config, start) && Shaped(config, s) && Reaches(config, start, s)
    requires s.pc == WaitResponse && s.device == AwaitOff && Dword(s.area) == 0 && IsResult(Dword(s.response))
    ensures Reaches(config, start, s.(busy := 0, device := Ready, area := WithTrigger(s.area, 0),
                                      results := s.results + [ReadResult(s.response)], pc := Idle))
  {
    ReachesOff(config, start, s);
    ReachesReading(config, start, s.(pc := WaitOff, busy := 0, device := Ready));
    var lowered := s.(busy := 0, device := Ready, area := WithTrigger(s.area, 0), pc := Reading);
    ReachesClient(config, start, lowered, lowered.(results := s.results + [ReadResult(s.response)], pc := Idle));
  }

  lemma ReachesReading(config: Config, start: Sys, s: Sys)
    requires config.Valid() && Shaped(config, start) && Shaped(config, s) && Reaches(config, start, s)
    requires s.pc == WaitOff && s.busy == 0
    ensures var t := s.(area := WithTrigger(s.area, 0), pc := Reading); Shaped(config, t) && Reaches(config, start, t)
  {
    ReachesClient(config, start, s, s.(pc := LowerOff));
    ReachesClient(config, start, s.(pc := LowerOff), s.(area := WithTrigger(s.area, 0), pc := Reading));
  }

  lemma ReachesOff(config: Config, start: Sys, s: Sys)
    requires config.Valid() && Shaped(config, start) && Shaped(config, s) && Reaches(config, start, s)
    requires s.pc == WaitResponse && s.device == AwaitOff && Dword(s.area) == 0 && IsResult(Dword(s.response))
    ensures var off := s.(pc := WaitOff, busy := 0, device := Ready); Shaped(config, off) && Reaches(config, start, off)
  {
    ReachesClient(config, start, s, s.(pc := WaitOff));
    ReachesDevice(config, start, s.(pc := WaitOff), [], s.(pc := WaitOff, busy := 0, device := Ready));
  }

  // The first command has been latched, but BUSY is not yet on, when its call times out.
  lemma FirstTimesOut(config: Config) returns (s: Sys)
    requires config.Valid() && |config.commands| == 2 && !config.commands[0].ignore
    ensures Shaped(config, s) && Reaches(config, Initial(config), s)
    ensures s.pc == Idle && s.task == NoTask && s.device == Latched && s.called == 1
    ensures s.latched == [Issued(config, 0)] && s.answers == [] && s.results == [Raised]
  {
    var start := Initial(config);
    ReachesItself(config, start);
    ReachesIssue(config, start, start);
    var issued := AfterIssue(config, start);
    ReachesLatched(config, start, issued);
    s := issued.(device := Latched, latched := issued.latched + [issued.area]);
    ReachesNext(config, start, s, Fail);
    s := Step(config, s, Fail);
  }

  // On either transport and for any two waiting commands: a run with one timeout and a conforming
  // device in which the second call returns the answer to the first command. The second command
  // was never latched.
  lemma StaleAnswer(config: Config, answer: seq<word>) returns (actions: seq<Action>)
    requires config.Valid() && |config.commands| == 2 && !config.commands[0].ignore && !config.commands[1].ignore
    requires |answer| == config.responseSize && IsAnswer(answer)
    ensures Undisturbed(actions)
    ensures var end := Run(config, actions);
            && end.latched == [Issued(config, 0)] && end.answers == [answer]
            && end.results == [Raised, if answer[0] == 1 then AK(answer) else NK(answer)]
  {
    actions := StaleRun(config, answer);
    AnswerRead(answer);
  }

  lemma AnswerRead(answer: seq<word>)
    requires IsAnswer(answer)
    ensures ReadResult(answer) == if answer[0] == 1 then AK(answer) else NK(answer)
  {
  }

  lemma StaleRun(config: Config, answer: seq<word>) returns (actions: seq<Action>)
    requires config.Valid() && |config.commands| == 2 && !config.commands[0].ignore && !config.commands[1].ignore
    requires |answer| == config.responseSize && IsAnswer(answer)
    ensures Undisturbed(actions)
    ensures var end := Run(config, actions);
            && end.latched == [Issued(config, 0)] && end.answers == [answer]
            && end.results == [Raised, ReadResult(answer)]
  {
    var s := SecondWaits(config);
    var start := Initial(config);
    ReachesAnswered(config, start, s, answer);
    s := s.(response := answer, device := AwaitOff, answers := s.answers + [answer]);
    ReachesReturn(config, start, s);
    s := s.(busy := 0, device := Ready, area := WithTrigger(s.area, 0),
            results := s.results + [ReadResult(s.response)], pc := Idle);
    actions := ReachesRun(config, s);
  }

  // Then the second command is issued, and the device, still at the first, sets BUSY.
  lemma SecondWaits(config: Config) returns (s: Sys)
    requires config.Valid() && |config.commands| == 2 && !config.commands[0].ignore && !config.commands[1].ignore
    ensures Shaped(config, s) && Reaches(config, Initial(config), s)
    ensures s.pc == WaitResponse && s.task == NoTask && s.device == Busy && Dword(s.area) == 0
    ensures s.latched == [Issued(config, 0)] && s.answers == [] && s.results == [Raised]
  {
    var start := Initial(config);
    s := FirstTimesOut(config);
    ReachesIssue(config, start, s);
    s := AfterIssue(config, s);
    ReachesLowered(config, start, s);
    s := s.(busy := 1, device := Busy, area := WithTrigger(s.area, 0), pc := WaitResponse);
  }
}
