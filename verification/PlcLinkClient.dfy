/**
 The PLCLINK client over its device memory (backend/plc_link/client.py), and a conforming device
 that shares the memory. Every method is proved to take steps of module Handshake, so what is
 proved there about all runs holds of the cells the client leaves behind. All writers share one
 event loop: between two sleeps of the client nobody else runs.
 */
module PlcLinkClient {
  import opened Bytes
  import opened CellSpec
  import opened Handshake
  import DM = DeviceMemory

  datatype Settings = Settings(
    commandAddress: nat, commandSize: nat, responseAddress: nat, responseSize: nat, busyAddress: nat)
  {
    // What backend/models.py validates.
    predicate Valid()
    {
      && 4 <= commandSize <= 512 && commandSize % 2 == 0
      && 4 <= responseSize <= 512 && responseSize % 2 == 0
      && commandAddress <= 65535 && responseAddress <= 65535 && busyAddress <= 65535
      && (commandAddress + commandSize <= responseAddress || responseAddress + responseSize <= commandAddress)
    }
  }

  // A whole memory, and the areas of a state that fit the settings.
  predicate Fitting(settings: Settings, rest: Cells, s: Sys)
  {
    && settings.Valid() && |rest.d| == MAX_SIZE && |rest.m| == MAX_SIZE
    && |s.area| == settings.commandSize && |s.response| == settings.responseSize
  }

  // The memory that shows state s, all other cells being those of rest.
  function Placed(settings: Settings, rest: Cells, s: Sys): (c: Cells)
    requires Fitting(settings, rest, s)
    ensures |c.d| == MAX_SIZE && |c.m| == MAX_SIZE
  {
    Cells(Overwrite(Overwrite(rest.d, settings.commandAddress, s.area), settings.responseAddress, s.response),
          rest.m[settings.busyAddress := s.busy])
  }

  lemma PlacedReads(settings: Settings, rest: Cells, s: Sys)
    requires Fitting(settings, rest, s)
    ensures var c := Placed(settings, rest, s);
            && c.m[settings.busyAddress] == s.busy
            && (forall i :: 0 <= i < |s.area| ==> c.d[settings.commandAddress + i] == s.area[i])
            && (forall i :: 0 <= i < |s.response| ==> c.d[settings.responseAddress + i] == s.response[i])
            && c.d[settings.responseAddress..settings.responseAddress + settings.responseSize] == s.response
  {
  }

  // Writing the whole area, or a value over its trigger, is writing that part of the state.
  lemma PlacedArea(settings: Settings, rest: Cells, s: Sys, words: seq<word>)
    requires Fitting(settings, rest, s) && |words| == |s.area|
    ensures var c := Placed(settings, rest, s);
            c.(d := Overwrite(c.d, settings.commandAddress, words)) == Placed(settings, rest, s.(area := words))
  {
    var c, next := Placed(settings, rest, s), Placed(settings, rest, s.(area := words));
    assert Overwrite(c.d, settings.commandAddress, words) == next.d;
  }

  lemma PlacedTrigger(settings: Settings, rest: Cells, s: Sys, value: word)
    requires Fitting(settings, rest, s)
    ensures var c := Placed(settings, rest, s);
            c.(d := Overwrite(c.d, settings.commandAddress, [value, 0]))
            == Placed(settings, rest, s.(area := WithTrigger(s.area, value)))
  {
    var c, next := Placed(settings, rest, s), Placed(settings, rest, s.(area := WithTrigger(s.area, value)));
    assert Overwrite(c.d, settings.commandAddress, [value, 0]) == next.d;
  }

  lemma PlacedResponse(settings: Settings, rest: Cells, s: Sys, words: seq<word>)
    requires Fitting(settings, rest, s) && |words| == |s.response|
    ensures var c := Placed(settings, rest, s);
            c.(d := Overwrite(c.d, settings.responseAddress, words)) == Placed(settings, rest, s.(response := words))
  {
    var c, next := Placed(settings, rest, s), Placed(settings, rest, s.(response := words));
    assert Overwrite(c.d, settings.responseAddress, words) == next.d;
  }

  lemma PlacedResponseWord(settings: Settings, rest: Cells, s: Sys, k: nat, value: word)
    requires Fitting(settings, rest, s) && k < |s.response|
    ensures var c := Placed(settings, rest, s);
            c.(d := Overwrite(c.d, settings.responseAddress + k, [value]))
            == Placed(settings, rest, s.(response := s.response[k := value]))
  {
    var c, next := Placed(settings, rest, s), Placed(settings, rest, s.(response := s.response[k := value]));
    assert Overwrite(c.d, settings.responseAddress + k, [value]) == next.d;
  }

  lemma PlacedBusy(settings: Settings, rest: Cells, s: Sys, value: bit)
    requires Fitting(settings, rest, s)
    ensures var c := Placed(settings, rest, s);
            c.(m := Overwrite(c.m, settings.busyAddress, [value])) == Placed(settings, rest, s.(busy := value))
  {
    var c, next := Placed(settings, rest, s), Placed(settings, rest, s.(busy := value));
    assert Overwrite(c.m, settings.busyAddress, [value]) == next.m;
  }

  lemma WordsAreThemselves(words: seq<word>)
    ensures ToWords(words) == words
  {
  }

  // ---------- the shared areas ----------

  // The named areas of the device memory; ghost rest holds every other cell.
  class Areas {
    const settings: Settings
    const memory: DM.DeviceMemory
    ghost const rest: Cells

    constructor (settings: Settings)
      requires settings.Valid()
      ensures this.settings == settings && fresh(memory) && fresh(memory.edges)
      ensures forall s: Sys {:trigger Shows(s)} ::
        s.area == Zeros(settings.commandSize) && s.response == Zeros(settings.responseSize) && s.busy == 0 ==> Shows(s)
    {
      this.settings := settings;
      memory := new DM.DeviceMemory();
      rest := Cells(Zeros(MAX_SIZE), Zeros(MAX_SIZE));
      new;
      assert memory.Contents().d == rest.d && memory.Contents().m == rest.m;
      forall s: Sys {:trigger Shows(s)}
        | s.area == Zeros(settings.commandSize) && s.response == Zeros(settings.responseSize) && s.busy == 0
        ensures Shows(s)
      {
        assert Placed(settings, rest, s).d == rest.d && Placed(settings, rest, s).m == rest.m;
      }
    }

    ghost predicate Shows(s: Sys)
      reads memory
    {
      Fitting(settings, rest, s) && memory.Contents() == Placed(settings, rest, s)
    }

    method Trigger(ghost s: Sys) returns (value: int)
      requires Shows(s)
      modifies memory`d
      ensures Shows(s) && value == Dword(s.area)
    {
      PlacedReads(settings, rest, s);
      var read := memory.ReadDword(settings.commandAddress);
      value := read.value;
    }

    method WriteTrigger(ghost s: Sys, value: bit)
      requires Shows(s)
      modifies memory`d
      ensures Shows(s.(area := WithTrigger(s.area, value)))
    {
      PlacedTrigger(settings, rest, s, value);
      assert DwordToWords(value) == [value, 0];
      WordsAreThemselves([value, 0]);
      var _ := memory.WriteDword(settings.commandAddress, value);
    }

    method CommandWord(ghost s: Sys, k: nat) returns (value: word)
      requires Shows(s) && k < settings.commandSize
      modifies memory`d
      ensures Shows(s) && value == s.area[k]
    {
      PlacedReads(settings, rest, s);
      var read := memory.ReadWords(settings.commandAddress + k, 1);
      value := read.value[0];
    }

    method WriteCommand(ghost s: Sys, words: seq<word>)
      requires Shows(s) && |words| == settings.commandSize
      modifies memory`d
      ensures Shows(s.(area := words))
    {
      PlacedArea(settings, rest, s, words);
      WordsAreThemselves(words);
      var _ := memory.WriteWords(settings.commandAddress, words);
    }

    method ResponseCode(ghost s: Sys) returns (code: int)
      requires Shows(s)
      modifies memory`d
      ensures Shows(s) && code == Dword(s.response)
    {
      PlacedReads(settings, rest, s);
      var read := memory.ReadDword(settings.responseAddress);
      code := read.value;
    }

    method Response(ghost s: Sys) returns (words: seq<word>)
      requires Shows(s)
      modifies memory`d
      ensures Shows(s) && words == s.response
    {
      PlacedReads(settings, rest, s);
      var read := memory.ReadWords(settings.responseAddress, settings.responseSize);
      words := read.value;
    }

    method WriteResponse(ghost s: Sys, words: seq<word>)
      requires Shows(s) && |words| == settings.responseSize
      modifies memory`d
      ensures Shows(s.(response := words))
    {
      PlacedResponse(settings, rest, s, words);
      WordsAreThemselves(words);
      var _ := memory.WriteWords(settings.responseAddress, words);
    }

    method WriteResponseWord(ghost s: Sys, k: nat, value: word)
      requires Shows(s) && k < settings.responseSize
      modifies memory`d
      ensures Shows(s.(response := s.response[k := value]))
    {
      PlacedResponseWord(settings, rest, s, k, value);
      WordsAreThemselves([value]);
      var _ := memory.WriteWords(settings.responseAddress + k, [value]);
    }

    method Busy(ghost s: Sys) returns (busy: bit)
      requires Shows(s)
      modifies memory`m
      ensures Shows(s) && busy == s.busy
    {
      PlacedReads(settings, rest, s);
      var read := memory.GetBit(settings.busyAddress);
      busy := read.value;
    }

    method WriteBusy(ghost s: Sys, value: bit, now: real)
      requires Shows(s)
      modifies memory`m, memory.edges
      ensures Shows(s.(busy := value))
    {
      PlacedBusy(settings, rest, s, value);
      var _ := memory.SetBit(settings.busyAddress, value, now);
    }
  }

  // ---------- the device ----------

  // What the device side does while the client sleeps: a step of a conforming device, or any
  // change of BUSY and of the response area.
  datatype Move =
    | Conform(answer: seq<word>)
    | Interfere(busy: bit, response: seq<word>)

  function ActionOf(move: Move): (action: Action)
  {
    match move
    case Conform(answer) => Device(answer)
    case Interfere(busy, response) => World(busy, response)
  }

  function ActionsOf(moves: seq<Move>): (actions: seq<Action>)
    ensures |actions| == |moves|
    ensures forall i :: 0 <= i < |moves| ==> actions[i] == ActionOf(moves[i])
  {
    seq(|moves|, i requires 0 <= i < |moves| => ActionOf(moves[i]))
  }

  lemma NextAction(before: seq<Action>, moves: seq<Move>, i: nat)
    requires i < |moves|
    ensures before + ActionsOf(moves[..i]) + [ActionOf(moves[i])] == before + ActionsOf(moves[..i + 1])
  {
    assert ActionsOf(moves[..i + 1]) == ActionsOf(moves[..i]) + [ActionOf(moves[i])];
  }

  class PlcDevice {
    const areas: Areas
    var stage: DevicePc
    var latched: seq<seq<word>>
    var answers: seq<seq<word>>

    constructor (areas: Areas)
      ensures this.areas == areas && stage == Ready && latched == [] && answers == []
    {
      this.areas := areas;
      stage, latched, answers := Ready, [], [];
    }

    ghost predicate At(s: Sys)
      reads this, areas.memory
    {
      areas.Shows(s) && stage == s.device && latched == s.latched && answers == s.answers
    }

    // The device over the memory is the device of the transition system.
    method Step(ghost s: Sys, answer: seq<word>, now: real)
      requires At(s)
      modifies this, areas.memory, areas.memory.edges
      ensures At(DeviceStep(s, answer))
    {
      match stage {
        case Ready =>
          var trigger := areas.Trigger(s);
          if trigger == 1 {
            stage := Latching([]);
          }
        case Latching(part) =>
          if |part| < areas.settings.commandSize {
            var next := areas.CommandWord(s, |part|);
            stage := Latching(part + [next]);
          } else {
            stage, latched := Latched, latched + [part];
          }
        case Latched =>
          areas.WriteBusy(s, 1, now);
          stage := DevicePc.Busy;
        case Busy =>
          if |answer| == areas.settings.responseSize && IsAnswer(answer) {
            stage := Answering(answer, 0);
          }
        case Answering(a, done) =>
          if done < |a| && done < areas.settings.responseSize {
            areas.WriteResponseWord(s, done, a[done]);
            stage := Answering(a, done + 1);
          } else {
            stage, answers := DevicePc.AwaitOff, answers + [a];
          }
        case AwaitOff =>
          var trigger := areas.Trigger(s);
          if trigger == 0 {
            areas.WriteBusy(s, 0, now);
            stage := Ready;
          }
      }
    }

    method Take(ghost config: Config, ghost s: Sys, move: Move, now: real)
      requires At(s) && config.Valid() && Shaped(config, s)
      modifies this, areas.memory, areas.memory.edges
      ensures At(Handshake.Step(config, s, ActionOf(move)))
    {
      match move {
        case Conform(answer) =>
          Step(s, answer, now);
        case Interfere(busy, response) =>
          if |response| == areas.settings.responseSize {
            areas.WriteBusy(s, busy, now);
            areas.WriteResponse(s.(busy := busy), response);
          }
      }
    }
  }

  // ---------- the client ----------

  // One sleep of a polling loop: what happens meanwhile, and whether the loop, on waking without
  // what it waits for, finds its deadline passed or the connection lost.
  datatype Turn = Turn(moves: seq<Move>, now: real, gone: bool)

  // A conforming device, no timeout and no lost connection.
  predicate Calm(turns: seq<Turn>)
  {
    forall i :: 0 <= i < |turns| ==> !turns[i].gone && Conforms(turns[i].moves)
  }

  predicate Conforms(moves: seq<Move>)
  {
    forall i :: 0 <= i < |moves| ==> moves[i].Conform?
  }

  lemma RunSnoc(config: Config, actions: seq<Action>, action: Action)
    requires config.Valid()
    ensures Run(config, actions + [action]) == Handshake.Step(config, Run(config, actions), action)
  {
    assert (actions + [action])[..|actions|] == actions;
  }

  // Only what others may change has changed.
  predicate OutsideOnly(before: Sys, after: Sys)
  {
    && after.area == before.area && after.pc == before.pc && after.task == before.task
    && after.called == before.called && after.results == before.results
  }

  lemma MoveOutsideOnly(config: Config, s: Sys, move: Move)
    requires config.Valid() && Shaped(config, s)
    ensures OutsideOnly(s, Handshake.Step(config, s, ActionOf(move)))
  {
    match move {
      case Conform(answer) =>
      case Interfere(busy, response) =>
    }
  }

  predicate SameButMoves(before: Sys, after: Sys)
  {
    && after.called == before.called && after.results == before.results && after.task == before.task
    && after.area == before.area
  }

  predicate Extends(before: seq<Action>, after: seq<Action>)
  {
    |before| <= |after| && after[..|before|] == before
  }

  // No call has been turned down since.
  predicate Tried(before: seq<Action>, after: seq<Action>)
  {
    Extends(before, after) && forall i :: |before| <= i < |after| ==> !after[i].Refuse? && !after[i].Reject?
  }

  // The history has grown, and by nothing but conforming steps where the time was calm.
  predicate Grown(before: seq<Action>, after: seq<Action>, calm: bool)
  {
    Tried(before, after) && (calm && Conforming(before) ==> Conforming(after))
  }

  lemma ExtendsOn(a: seq<Action>, b: seq<Action>, c: seq<Action>)
    requires Extends(a, b) && Extends(b, c)
    ensures Extends(a, c)
    ensures Tried(a, b) && Tried(b, c) ==> Tried(a, c)
  {
    assert c[..|a|] == c[..|b|][..|a|];
  }

  lemma GrownOn(a: seq<Action>, b: seq<Action>, c: seq<Action>, calm: bool)
    requires Grown(a, b, calm) && Grown(b, c, calm)
    ensures Grown(a, c, calm)
  {
    ExtendsOn(a, b, c);
  }

  lemma GrownByMoves(before: seq<Action>, moves: seq<Move>)
    ensures Grown(before, before + ActionsOf(moves), Conforms(moves))
  {
  }

  // ---------- what a call comes to ----------

  function AfterMoves(config: Config, s: Sys, moves: seq<Move>): (after: Sys)
    requires config.Valid() && Shaped(config, s)
    ensures Shaped(config, after)
  {
    RunFrom(config, s, ActionsOf(moves))
  }

  // A waiting client at one of its sleeps, or behind the last.
  type Point = (Sys, nat)

  // It takes every step it can, and sleeps only where it can take none; then its deadline must not
  // have passed, nor the connection be lost.
  ghost predicate Follows(config: Config, turns: seq<Turn>, a: Point, b: Point)
    requires config.Valid()
  {
    && Shaped(config, a.0) && Waiting(a.0.pc) && a.1 <= |turns|
    && if ClientStep(config, a.0) != a.0 then b == (ClientStep(config, a.0), a.1)
       else a.1 < |turns| && !turns[a.1].gone && b == (AfterMoves(config, a.0, turns[a.1].moves), a.1 + 1)
  }

  ghost predicate FollowsAt(config: Config, turns: seq<Turn>, path: seq<Point>, k: nat)
    requires config.Valid()
  {
    k + 1 < |path| && Follows(config, turns, path[k], path[k + 1])
  }

  ghost predicate Path(config: Config, turns: seq<Turn>, path: seq<Point>, first: Point, last: Point)
    requires config.Valid()
  {
    && |path| > 0 && path[0] == first && path[|path| - 1] == last
    && forall k: nat :: k + 1 < |path| ==> FollowsAt(config, turns, path, k)
  }

  ghost predicate Leads(config: Config, turns: seq<Turn>, first: Point, last: Point)
    requires config.Valid()
  {
    exists path :: Path(config, turns, path, first, last)
  }

  // The call has returned, or nothing is left to it but to give up.
  predicate AtEnd(config: Config, turns: seq<Turn>, p: Point)
    requires config.Valid() && Shaped(config, p.0)
  {
    p.1 <= |turns| && (Waiting(p.0.pc) ==> ClientStep(config, p.0) == p.0 && (p.1 == |turns| || turns[p.1].gone))
  }

  // Giving up lowers the trigger and raises.
  function Closed(s: Sys): (after: Sys)
    requires |s.area| >= 2
  {
    if !Waiting(s.pc) then s else s.(area := WithTrigger(s.area, 0), results := s.results + [Raised], pc := Idle)
  }

  // What a waiting call comes to from a state and a sleep on.
  ghost predicate CallEnds(config: Config, turns: seq<Turn>, first: Point, s: Sys, used: nat)
    requires config.Valid()
  {
    exists end: Sys :: EndsAs(config, turns, first, end, s, used)
  }

  ghost predicate EndsAs(config: Config, turns: seq<Turn>, first: Point, end: Sys, s: Sys, used: nat)
    requires config.Valid()
  {
    && Shaped(config, end) && Leads(config, turns, first, (end, used)) && AtEnd(config, turns, (end, used))
    && s == Closed(end)
  }

  // What issuing a command in a state comes to: the area holds its words with the trigger on, the
  // response and BUSY are cleared, and a waiting call goes on from there.
  ghost predicate CallDone(config: Config, s: Sys, words: seq<word>, ignore: bool, turns: seq<Turn>, from: nat,
                           after: Sys, used: nat)
    requires config.Valid() && |words| >= 2
  {
    var issued := s.(area := WithTrigger(words, 1), response := Zeros(config.responseSize), busy := 0,
                     called := s.called + 1);
    if ignore then after == issued.(task := TaskWaitOn, results := s.results + [Ignored], pc := Idle) && used == from
    else CallEnds(config, turns, (issued.(pc := WaitOn), from), after, used)
  }

  lemma LeadsItself(config: Config, turns: seq<Turn>, p: Point)
    requires config.Valid()
    ensures Leads(config, turns, p, p)
  {
    assert Path(config, turns, [p], p, p);
  }

  lemma LeadsOn(config: Config, turns: seq<Turn>, first: Point, p: Point, next: Point)
    requires config.Valid() && Leads(config, turns, first, p) && Follows(config, turns, p, next)
    ensures Leads(config, turns, first, next)
  {
    var path :| Path(config, turns, path, first, p);
    var longer := path + [next];
    forall k: nat | k + 1 < |longer| ensures FollowsAt(config, turns, longer, k) {
      if k + 1 < |path| {
        assert FollowsAt(config, turns, path, k);
      }
    }
    assert Path(config, turns, longer, first, next);
  }

  // A client step, and a sleep, of a waiting client.
  lemma LeadsByStep(config: Config, turns: seq<Turn>, first: Point, s: Sys, used: nat, next: Sys)
    requires config.Valid() && Leads(config, turns, first, (s, used)) && used <= |turns|
    requires Shaped(config, s) && Waiting(s.pc) && next == ClientStep(config, s) && next != s
    ensures Leads(config, turns, first, (next, used))
  {
    LeadsOn(config, turns, first, (s, used), (next, used));
  }

  lemma LeadsBySleep(config: Config, turns: seq<Turn>, first: Point, s: Sys, used: nat, next: Sys)
    requires config.Valid() && Leads(config, turns, first, (s, used)) && used < |turns| && !turns[used].gone
    requires Shaped(config, s) && Waiting(s.pc) && ClientStep(config, s) == s
    requires next == AfterMoves(config, s, turns[used].moves)
    ensures Leads(config, turns, first, (next, used + 1))
  {
    LeadsOn(config, turns, first, (s, used), (next, used + 1));
  }

  // Two ways on from a point are the same up to the shorter one's end.
  lemma {:induction false} OneWay(config: Config, turns: seq<Turn>, a: seq<Point>, b: seq<Point>, first: Point,
                                  p: Point, q: Point, k: nat)
    requires config.Valid() && Path(config, turns, a, first, p) && Path(config, turns, b, first, q)
    requires k < |a| && k < |b|
    ensures a[k] == b[k]
  {
    if k > 0 {
      OneWay(config, turns, a, b, first, p, q, k - 1);
      assert FollowsAt(config, turns, a, k - 1) && FollowsAt(config, turns, b, k - 1);
    }
  }

  lemma NoWayOn(config: Config, turns: seq<Turn>, p: Point, next: Point)
    requires config.Valid() && Shaped(config, p.0) && AtEnd(config, turns, p)
    ensures !Follows(config, turns, p, next)
  {
  }

  // From every state and every script there is at most one end: a call that ends as described
  // cannot have ended in any other way.
  lemma OneOutcome(config: Config, turns: seq<Turn>, first: Point, s: Sys, used: nat, t: Sys, slept: nat)
    requires config.Valid() && CallEnds(config, turns, first, s, used) && CallEnds(config, turns, first, t, slept)
    ensures s == t && used == slept
  {
    var end :| EndsAs(config, turns, first, end, s, used);
    var other :| EndsAs(config, turns, first, other, t, slept);
    var a :| Path(config, turns, a, first, (end, used));
    var b :| Path(config, turns, b, first, (other, slept));
    ShorterIsWhole(config, turns, a, b, first, (end, used), (other, slept));
    ShorterIsWhole(config, turns, b, a, first, (other, slept), (end, used));
    OneWay(config, turns, a, b, first, (end, used), (other, slept), |a| - 1);
  }

  // A path to an end is at least as long as any other path from its start.
  lemma ShorterIsWhole(config: Config, turns: seq<Turn>, a: seq<Point>, b: seq<Point>, first: Point, p: Point, q: Point)
    requires config.Valid() && Path(config, turns, a, first, p) && Path(config, turns, b, first, q)
    requires Shaped(config, p.0) && AtEnd(config, turns, p)
    ensures |b| <= |a|
  {
    if |b| > |a| {
      OneWay(config, turns, a, b, first, p, q, |a| - 1);
      assert FollowsAt(config, turns, b, |a| - 1);
      NoWayOn(config, turns, p, b[|a|]);
    }
  }

  function TaskStepsLeft(task: TaskPc): (n: nat)
  {
    match task
    case TaskWaitOn => 3
    case TaskLower => 2
    case TaskWaitOff => 1
    case NoTask => 0
  }

  // The background completion does what it can without sleeping.
  function AdvanceTask(s: Sys): (next: Sys)
    requires |s.area| >= 2
    ensures |next.area| == |s.area|
    decreases TaskStepsLeft(s.task)
  {
    if TaskStep(s) == s then s else AdvanceTask(TaskStep(s))
  }

  // One wake-up of the background completion; gone, it gives up with the trigger lowered.
  function Resumed(s: Sys, gone: bool): (next: Sys)
    requires |s.area| >= 2
  {
    var now := AdvanceTask(s);
    if gone && now.task != NoTask then now.(area := WithTrigger(now.area, 0), task := NoTask) else now
  }

  lemma TaskMoves(s: Sys)
    requires |s.area| >= 2 && TaskStep(s) != s
    ensures AdvanceTask(s) == AdvanceTask(TaskStep(s))
  {
  }

  lemma TaskStays(s: Sys)
    requires |s.area| >= 2 && TaskStep(s) == s
    ensures AdvanceTask(s) == s
  {
  }

  // The cases of a wake-up: nothing is waited for, BUSY off is, or BUSY on is.
  lemma ResumedOff(s: Sys, gone: bool)
    requires |s.area| >= 2 && s.task == TaskWaitOff
    ensures Resumed(s, gone) == if s.busy == 0 then s.(task := NoTask)
                                else if gone then s.(area := WithTrigger(s.area, 0), task := NoTask) else s
  {
    if s.busy == 0 {
      TaskMoves(s);
      TaskStays(s.(task := NoTask));
    } else {
      TaskStays(s);
    }
  }

  lemma ResumedOn(s: Sys, gone: bool)
    requires |s.area| >= 2 && s.task == TaskWaitOn
    ensures var lowered := s.(area := WithTrigger(s.area, 0), task := TaskWaitOff);
            Resumed(s, gone) == if s.busy == 1 then Resumed(lowered, gone)
                                else if gone then s.(area := WithTrigger(s.area, 0), task := NoTask) else s
  {
    if s.busy == 1 {
      TaskMoves(s);
      TaskMoves(s.(task := TaskLower));
    } else {
      TaskStays(s);
    }
  }

  lemma ResumedNot(s: Sys, gone: bool)
    requires |s.area| >= 2 && s.task == NoTask
    ensures Resumed(s, gone) == s
  {
    TaskStays(s);
  }

  lemma {:induction false} AdvanceTaskShaped(config: Config, s: Sys)
    requires config.Valid() && Shaped(config, s)
    ensures Shaped(config, AdvanceTask(s)) && |AdvanceTask(s).area| == |s.area|
    decreases TaskStepsLeft(s.task)
  {
    if TaskStep(s) != s {
      AdvanceTaskShaped(config, TaskStep(s));
    }
  }

  // Waiting for the background completion: the state without it, and the sleeps behind it.
  function AwaitedFrom(config: Config, s: Sys, turns: seq<Turn>, from: nat): (end: (Sys, nat))
    requires config.Valid() && Shaped(config, s) && from <= |turns|
    decreases |turns| - from
  {
    if s.task == NoTask then (s, from)
    else if from == |turns| then (Resumed(s, true), from)
    else
      var slept := AfterMoves(config, s, turns[from].moves);
      AdvanceTaskShaped(config, slept);
      AwaitedFrom(config, Resumed(slept, turns[from].gone), turns, from + 1)
  }

  class PlcLinkClient {
    const areas: Areas
    const device: PlcDevice
    // The background task of an ignored command, at the point where it sleeps.
    var ignoreTask: TaskPc
    // The calls to come, the steps taken so far, and the state they lead to.
    ghost const config: Config
    ghost var actions: seq<Action>
    ghost var s: Sys

    ghost predicate Valid()
      reads this, areas.memory, device
    {
      && device.areas == areas
      && config.Valid() && config.clears && Shaped(config, s) && s == Run(config, actions)
      && device.At(s) && ignoreTask == s.task
    }

    constructor (settings: Settings, ghost commands: seq<Command>)
      requires settings.Valid() && Config(commands, true, settings.commandSize, settings.responseSize).Valid()
      ensures Valid() && fresh(areas) && fresh(areas.memory) && fresh(areas.memory.edges) && fresh(device)
      ensures config == Config(commands, true, settings.commandSize, settings.responseSize)
      ensures actions == [] && ignoreTask == NoTask && s == Initial(config)
    {
      var named := new Areas(settings);
      areas := named;
      device := new PlcDevice(named);
      ignoreTask := NoTask;
      config := Config(commands, true, settings.commandSize, settings.responseSize);
      actions := [];
      s := Initial(Config(commands, true, settings.commandSize, settings.responseSize));
    }

    // A step has been taken; the memory already shows where it leads.
    ghost method Took(action: Action, next: Sys)
      requires config.Valid() && Shaped(config, s) && s == Run(config, actions)
      requires next == Handshake.Step(config, s, action)
      modifies this`actions, this`s
      ensures actions == old(actions) + [action] && s == next
      ensures Shaped(config, s) && s == Run(config, actions)
    {
      RunSnoc(config, actions, action);
      StepShaped(config, s, action);
      actions, s := actions + [action], next;
    }

    // ----- while the client sleeps -----

    method MoveOnce(move: Move, now: real)
      requires Valid()
      modifies this`actions, this`s, device, areas.memory, areas.memory.edges
      ensures Valid() && actions == old(actions) + [ActionOf(move)] && OutsideOnly(old(s), s)
    {
      MoveOutsideOnly(config, s, move);
      device.Take(config, s, move, now);
      Took(ActionOf(move), Handshake.Step(config, s, ActionOf(move)));
    }

    method Sleep(moves: seq<Move>, now: real)
      requires Valid()
      modifies this`actions, this`s, device, areas.memory, areas.memory.edges
      ensures Valid() && actions == old(actions) + ActionsOf(moves) && OutsideOnly(old(s), s)
      ensures s == AfterMoves(config, old(s), moves)
      ensures Grown(old(actions), actions, Conforms(moves))
    {
      assert ActionsOf(moves[..0]) == [];
      for i := 0 to |moves|
        invariant Valid() && actions == old(actions) + ActionsOf(moves[..i]) && OutsideOnly(old(s), s)
      {
        NextAction(old(actions), moves, i);
        MoveOnce(moves[i], now);
      }
      assert moves[..|moves|] == moves;
      GrownByMoves(old(actions), moves);
      RunFromRun(config, old(actions), ActionsOf(moves));
    }

    // ----- the background completion of an ignored command -----

    method IgnoredSees(expected: bit) returns (seen: bool)
      requires Valid() && s.task == (if expected == 1 then TaskWaitOn else TaskWaitOff)
      modifies this, areas.memory`m
      ensures Valid() && seen == (old(s).busy == expected)
      ensures s == if seen then old(s).(task := if expected == 1 then TaskLower else NoTask) else old(s)
      ensures actions == old(actions) + if seen then [Task] else []
    {
      var busy := areas.Busy(s);
      seen := busy == expected;
      if seen {
        var after := if expected == 1 then TaskLower else NoTask;
        Took(Task, s.(task := after));
        ignoreTask := after;
      }
    }

    method IgnoredLowers()
      requires Valid() && s.task == TaskLower
      modifies this, areas.memory`d
      ensures Valid() && s == old(s).(area := WithTrigger(old(s).area, 0), task := TaskWaitOff)
      ensures actions == old(actions) + [Task]
    {
      areas.WriteTrigger(s, 0);
      Took(Task, s.(area := WithTrigger(s.area, 0), task := TaskWaitOff));
      ignoreTask := TaskWaitOff;
    }

    method IgnoredGivesUp()
      requires Valid() && (s.task == TaskWaitOn || s.task == TaskWaitOff)
      modifies this, areas.memory`d
      ensures Valid() && s == old(s).(area := WithTrigger(old(s).area, 0), task := NoTask)
      ensures actions == old(actions) + [TaskFail]
    {
      areas.WriteTrigger(s, 0);
      Took(TaskFail, s.(area := WithTrigger(s.area, 0), task := NoTask));
      ignoreTask := NoTask;
    }

    // _complete_ignored_command, from one sleep to the next.
    method ResumeIgnored(gone: bool)
      requires Valid() && s.task != TaskLower
      modifies this, areas.memory
      ensures Valid() && s.task != TaskLower && (gone ==> s.task == NoTask)
      ensures s == Resumed(old(s), gone)
      ensures s.pc == old(s).pc && s.called == old(s).called && s.results == old(s).results
      ensures Grown(old(actions), actions, !gone)
    {
      if ignoreTask == NoTask {
        ResumedNot(s, gone);
      } else if ignoreTask == TaskWaitOn {
        ResumedOn(s, gone);
        ResumeWaitOn(gone);
      }
      ghost var resumed := actions;
      if ignoreTask == TaskWaitOff {
        ResumedOff(s, gone);
        var seen := IgnoredSees(0);
        if !seen && gone {
          IgnoredGivesUp();
        }
      }
      GrownOn(old(actions), resumed, actions, !gone);
    }

    // Still waiting for BUSY on.
    method ResumeWaitOn(gone: bool)
      requires Valid() && s.task == TaskWaitOn
      modifies this, areas.memory
      ensures Valid() && (s.task == TaskWaitOff || s.task == if gone then NoTask else TaskWaitOn)
      ensures s.task == TaskWaitOff ==>
        old(s).busy == 1 && s == old(s).(area := WithTrigger(old(s).area, 0), task := TaskWaitOff)
      ensures s.task != TaskWaitOff ==>
        && old(s).busy == 0
        && s == if gone then old(s).(area := WithTrigger(old(s).area, 0), task := NoTask) else old(s)
      ensures s.pc == old(s).pc && s.called == old(s).called && s.results == old(s).results
      ensures Grown(old(actions), actions, !gone)
    {
      var seen := IgnoredSees(1);
      ghost var polled := actions;
      if seen {
        IgnoredLowers();
      } else if gone {
        IgnoredGivesUp();
      }
      GrownOn(old(actions), polled, actions, !gone);
    }

    // _await_ignore_task. Turns that run out stand for a deadline that passes.
    method AwaitIgnoreTask(turns: seq<Turn>) returns (used: nat)
      requires Valid() && s.task != TaskLower
      modifies this, device, areas.memory, areas.memory.edges
      ensures Valid() && s.task == NoTask && used <= |turns|
      ensures (s, used) == AwaitedFrom(config, old(s), turns, 0)
      ensures s.pc == old(s).pc && s.called == old(s).called && s.results == old(s).results
      ensures Grown(old(actions), actions, Calm(turns) && used < |turns|)
    {
      used := 0;
      while ignoreTask != NoTask && used < |turns|
        invariant Valid() && s.task != TaskLower && used <= |turns|
        invariant AwaitedFrom(config, s, turns, used) == AwaitedFrom(config, old(s), turns, 0)
        invariant s.pc == old(s).pc && s.called == old(s).called && s.results == old(s).results
        invariant Grown(old(actions), actions, Calm(turns))
        decreases |turns| - used
      {
        ghost var before := actions;
        Sleep(turns[used].moves, turns[used].now);
        ghost var slept := actions;
        ResumeIgnored(turns[used].gone);
        GrownOn(before, slept, actions, Calm(turns));
        GrownOn(old(actions), before, actions, Calm(turns));
        used := used + 1;
      }
      if ignoreTask != NoTask {
        ghost var before := actions;
        ResumeIgnored(true);
        GrownOn(old(actions), before, actions, false);
      }
    }

    // ----- one poll of the waiting client -----

    method Sees(expected: bit) returns (seen: bool)
      requires Valid() && s.pc == if expected == 1 then WaitOn else WaitOff
      modifies this`actions, this`s, areas.memory`m
      ensures Valid() && seen == (old(s).busy == expected)
      ensures s == if seen then old(s).(pc := if expected == 1 then LowerOn else LowerOff) else old(s)
      ensures s == ClientStep(config, old(s)) && (seen <==> s != old(s))
      ensures Grown(old(actions), actions, true)
    {
      var busy := areas.Busy(s);
      seen := busy == expected;
      if seen {
        Took(Client, s.(pc := if expected == 1 then LowerOn else LowerOff));
      }
    }

    method SeesResult() returns (seen: bool)
      requires Valid() && s.pc == WaitResponse
      modifies this`actions, this`s, areas.memory`d
      ensures Valid()
      ensures seen == (old(s).response[1] == 0 && (old(s).response[0] == 1 || old(s).response[0] == 8))
      ensures s == if seen then old(s).(pc := WaitOff) else old(s)
      ensures s == ClientStep(config, old(s)) && (seen <==> s != old(s))
      ensures Grown(old(actions), actions, true)
    {
      var code := areas.ResponseCode(s);
      seen := code == 1 || code == 8;
      if seen {
        Took(Client, s.(pc := WaitOff));
      }
    }

    method Lowers(ghost turns: seq<Turn>, ghost used: nat, ghost first: Point)
      requires Valid() && (s.pc == LowerOn || s.pc == LowerOff) && used <= |turns|
      requires Leads(config, turns, first, (s, used))
      modifies this`actions, this`s, areas.memory`d
      ensures Valid() && Grown(old(actions), actions, true)
      ensures s == old(s).(area := WithTrigger(old(s).area, 0),
                           pc := if old(s).pc == LowerOn then WaitResponse else Reading)
      ensures Leads(config, turns, first, (s, used))
    {
      areas.WriteTrigger(s, 0);
      ghost var next := s.(area := WithTrigger(s.area, 0), pc := if s.pc == LowerOn then WaitResponse else Reading);
      LeadsByStep(config, turns, first, s, used, next);
      Took(Client, next);
    }

    // The finally clause, when a wait has raised.
    method GivesUp()
      requires Valid() && (s.pc == WaitOn || s.pc == WaitResponse || s.pc == WaitOff)
      modifies this`actions, this`s, areas.memory`d
      ensures Valid() && Tried(old(actions), actions)
      ensures s == old(s).(area := WithTrigger(old(s).area, 0), results := old(s).results + [Raised], pc := Idle)
    {
      areas.WriteTrigger(s, 0);
      Took(Fail, s.(area := WithTrigger(s.area, 0), results := s.results + [Raised], pc := Idle));
    }

    // ----- the waiting loops -----

    // What a wait leaves: it ends in the state that has seen what it waits for, or gives up
    // without having moved.
    twostate predicate Waited(found: bool, next: ClientPc, turns: seq<Turn>, from: nat, used: nat)
      reads this, device, areas.memory
    {
      && Valid() && from <= used <= |turns|
      && s.pc == (if found then next else old(s).pc)
      && SameButMoves(old(s), s)
      && Grown(old(actions), actions, Calm(turns))
    }

    // One round of polling for BUSY: found, or slept through once, or given up.
    method RoundBit(expected: bit, turns: seq<Turn>, used: nat, ghost began: seq<Action>, ghost first: Point)
      returns (found: bool, next: nat)
      requires Valid() && s.pc == (if expected == 1 then WaitOn else WaitOff) && used <= |turns|
      requires Grown(began, actions, Calm(turns))
      requires Leads(config, turns, first, (s, used))
      modifies this`actions, this`s, device, areas.memory, areas.memory.edges
      ensures Valid() && Grown(began, actions, Calm(turns)) && SameButMoves(old(s), s)
      ensures used <= next <= |turns| && next <= used + 1 && (next > used ==> !found)
      ensures Leads(config, turns, first, (s, next))
      ensures s.pc == if found then (if expected == 1 then LowerOn else LowerOff) else old(s).pc
      ensures next == used ==> found == (s.busy == expected)
      ensures next == used && !found ==> used == |turns| || turns[used].gone
    {
      ghost var before, polled := actions, s;
      found := Sees(expected);
      GrownOn(began, before, actions, Calm(turns));
      next := if !found && used < |turns| && !turns[used].gone then used + 1 else used;
      if found {
        LeadsByStep(config, turns, first, polled, used, s);
      }
      if next > used {
        before := actions;
        Sleep(turns[used].moves, turns[used].now);
        GrownOn(began, before, actions, Calm(turns));
        LeadsBySleep(config, turns, first, polled, used, s);
      }
    }

    method WaitBit(expected: bit, turns: seq<Turn>, from: nat, ghost first: Point) returns (found: bool, used: nat)
      requires Valid() && s.pc == (if expected == 1 then WaitOn else WaitOff) && from <= |turns|
      requires Leads(config, turns, first, (s, from))
      modifies this`actions, this`s, device, areas.memory, areas.memory.edges
      ensures Waited(found, if expected == 1 then LowerOn else LowerOff, turns, from, used)
      ensures Leads(config, turns, first, (s, used))
      ensures found == (s.busy == expected)
      ensures !found ==> used == |turns| || turns[used].gone
    {
      used := from;
      ghost var began, start := actions, s;
      while true
        invariant Valid() && from <= used <= |turns| && s.pc == start.pc && SameButMoves(start, s)
        invariant Grown(began, actions, Calm(turns)) && Leads(config, turns, first, (s, used))
        decreases |turns| - used
      {
        var next;
        found, next := RoundBit(expected, turns, used, began, first);
        if next == used {
          return;
        }
        used := next;
      }
    }

    // The same for the result.
    method RoundResult(turns: seq<Turn>, used: nat, ghost began: seq<Action>, ghost first: Point)
      returns (found: bool, next: nat)
      requires Valid() && s.pc == WaitResponse && used <= |turns| && Grown(began, actions, Calm(turns))
      requires Leads(config, turns, first, (s, used))
      modifies this`actions, this`s, device, areas.memory, areas.memory.edges
      ensures Valid() && Grown(began, actions, Calm(turns)) && SameButMoves(old(s), s)
      ensures used <= next <= |turns| && next <= used + 1 && (next > used ==> !found)
      ensures Leads(config, turns, first, (s, next))
      ensures s.pc == if found then WaitOff else old(s).pc
      ensures next == used ==> found == (s.response[1] == 0 && (s.response[0] == 1 || s.response[0] == 8))
      ensures next == used && !found ==> used == |turns| || turns[used].gone
    {
      ghost var before, polled := actions, s;
      found := SeesResult();
      GrownOn(began, before, actions, Calm(turns));
      next := if !found && used < |turns| && !turns[used].gone then used + 1 else used;
      if found {
        LeadsByStep(config, turns, first, polled, used, s);
      }
      if next > used {
        before := actions;
        Sleep(turns[used].moves, turns[used].now);
        GrownOn(began, before, actions, Calm(turns));
        LeadsBySleep(config, turns, first, polled, used, s);
      }
    }

    method WaitResponseReady(turns: seq<Turn>, from: nat, ghost first: Point) returns (found: bool, used: nat)
      requires Valid() && s.pc == WaitResponse && from <= |turns|
      requires Leads(config, turns, first, (s, from))
      modifies this`actions, this`s, device, areas.memory, areas.memory.edges
      ensures Waited(found, WaitOff, turns, from, used)
      ensures Leads(config, turns, first, (s, used))
      ensures found == (s.response[1] == 0 && (s.response[0] == 1 || s.response[0] == 8))
      ensures !found ==> used == |turns| || turns[used].gone
    {
      used := from;
      ghost var began, start := actions, s;
      while true
        invariant Valid() && from <= used <= |turns| && s.pc == start.pc && SameButMoves(start, s)
        invariant Grown(began, actions, Calm(turns)) && Leads(config, turns, first, (s, used))
        decreases |turns| - used
      {
        var next;
        found, next := RoundResult(turns, used, began, first);
        if next == used {
          return;
        }
        used := next;
      }
    }

    // ----- one call -----

    method Begins()
      requires Valid() && s.pc == Idle && s.called < |config.commands|
      modifies this`actions, this`s
      ensures Valid() && s == old(s).(pc := AwaitTask) && Grown(old(actions), actions, true)
    {
      Took(Client, s.(pc := AwaitTask));
    }

    method Refuses()
      requires Valid() && s.pc == Idle && s.called < |config.commands|
      modifies this`actions, this`s
      ensures Valid() && Extends(old(actions), actions)
      ensures s == old(s).(called := old(s).called + 1, results := old(s).results + [Raised])
    {
      Took(Refuse, s.(called := s.called + 1, results := s.results + [Raised]));
    }

    method Rejects()
      requires Valid() && s.pc == AwaitTask && s.task == NoTask
      modifies this`actions, this`s
      ensures Valid() && Extends(old(actions), actions)
      ensures s == old(s).(called := old(s).called + 1, results := old(s).results + [Raised], pc := Idle)
    {
      Took(Reject, s.(called := s.called + 1, results := s.results + [Raised], pc := Idle));
    }

    // Clears the response.
    method ClearsResponse()
      requires Valid() && s.pc == AwaitTask && s.task == NoTask
      modifies this`actions, this`s, areas.memory`d
      ensures Valid() && Grown(old(actions), actions, true)
      ensures s == old(s).(response := Zeros(config.responseSize), pc := Setting)
    {
      Took(Client, s.(pc := Clearing));
      areas.WriteResponse(s, Zeros(areas.settings.responseSize));
      Took(Client, s.(response := Zeros(config.responseSize), pc := Setting));
    }

    // Clears the response, sets the command with its trigger off, and clears BUSY.
    method SetsCommand(words: seq<word>, now: real)
      requires Valid() && s.pc == AwaitTask && s.task == NoTask
      requires words == config.commands[s.called].words
      modifies this`actions, this`s, areas.memory, areas.memory.edges
      ensures Valid() && Grown(old(actions), actions, true)
      ensures s == old(s).(response := Zeros(config.responseSize), area := words, busy := 0, pc := Raising)
    {
      ClearsResponse();
      ghost var cleared := actions;
      areas.WriteCommand(s, words);
      Took(Client, s.(area := words, pc := Unbusy));
      areas.WriteBusy(s, 0, now);
      Took(Client, s.(busy := 0, pc := Raising));
      GrownOn(old(actions), cleared, actions, true);
    }

    method Raises(ignore: bool)
      requires Valid() && s.pc == Raising && s.task == NoTask && ignore == config.commands[s.called].ignore
      modifies this, areas.memory`d
      ensures Valid() && Grown(old(actions), actions, true)
      ensures var raised := old(s).(area := WithTrigger(old(s).area, 1), called := old(s).called + 1);
              s == if ignore then raised.(task := TaskWaitOn, results := old(s).results + [Ignored], pc := Idle)
                   else raised.(pc := WaitOn)
    {
      areas.WriteTrigger(s, 1);
      var raised := s.(area := WithTrigger(s.area, 1), called := s.called + 1);
      if ignore {
        Took(Client, raised.(task := TaskWaitOn, results := s.results + [Ignored], pc := Idle));
        ignoreTask := TaskWaitOn;
      } else {
        Took(Client, raised.(pc := WaitOn));
      }
    }

    method Returns(ghost turns: seq<Turn>, ghost used: nat, ghost first: Point) returns (result: Result)
      requires Valid() && s.pc == Reading && used <= |turns| && Leads(config, turns, first, (s, used))
      modifies this`actions, this`s, areas.memory`d
      ensures Valid() && Grown(old(actions), actions, true)
      ensures var r := old(s).response;
              result == (if r[1] == 0 && r[0] == 1 then AK(r) else if r[1] == 0 && r[0] == 8 then NK(r) else Raised)
      ensures s == old(s).(results := old(s).results + [result], pc := Idle)
      ensures Leads(config, turns, first, (s, used))
    {
      var response := areas.Response(s);
      result := ReadResult(response);
      LeadsByStep(config, turns, first, s, used, s.(results := s.results + [result], pc := Idle));
      Took(Client, s.(results := s.results + [result], pc := Idle));
    }

    // The answer, and then the end of BUSY.
    method WaitForAnswer(turns: seq<Turn>, from: nat, ghost first: Point) returns (found: bool, used: nat)
      requires Valid() && s.pc == WaitResponse && from <= |turns| && Leads(config, turns, first, (s, from))
      modifies this`actions, this`s, device, areas.memory, areas.memory.edges
      ensures Valid() && from <= used <= |turns|
      ensures if found then s.pc == LowerOff else s.pc == WaitResponse || s.pc == WaitOff
      ensures Leads(config, turns, first, (s, used))
      ensures !found ==> ClientStep(config, s) == s
      ensures s.called == old(s).called && s.results == old(s).results && s.task == old(s).task
      ensures Grown(old(actions), actions, Calm(turns)) && (!found ==> used == |turns| || turns[used].gone)
    {
      found, used := WaitResponseReady(turns, from, first);
      if found {
        ghost var answered := actions;
        found, used := WaitBit(0, turns, used, first);
        ExtendsOn(old(actions), answered, actions);
      }
    }

    // The part inside try.
    method WaitForCompletion(turns: seq<Turn>, from: nat, ghost first: Point) returns (found: bool, used: nat)
      requires Valid() && s.pc == WaitOn && from <= |turns| && Leads(config, turns, first, (s, from))
      modifies this`actions, this`s, device, areas.memory, areas.memory.edges
      ensures Valid() && from <= used <= |turns|
      ensures if found then s.pc == LowerOff else s.pc == WaitOn || s.pc == WaitResponse || s.pc == WaitOff
      ensures Leads(config, turns, first, (s, used))
      ensures !found ==> ClientStep(config, s) == s
      ensures s.called == old(s).called && s.results == old(s).results && s.task == old(s).task
      ensures Grown(old(actions), actions, Calm(turns)) && (!found ==> used == |turns| || turns[used].gone)
    {
      found, used := WaitBit(1, turns, from, first);
      if found {
        ghost var seen := actions;
        Lowers(turns, used, first);
        ghost var lowered := actions;
        found, used := WaitForAnswer(turns, used, first);
        GrownOn(seen, lowered, actions, Calm(turns));
        GrownOn(old(actions), seen, actions, Calm(turns));
      }
    }

    // The whole of a waiting call behind the trigger: try, finally, and the result.
    method Completes(turns: seq<Turn>, from: nat) returns (result: Result, used: nat)
      requires Valid() && s.pc == WaitOn && s.task == NoTask && from <= |turns|
      modifies this`actions, this`s, device, areas.memory, areas.memory.edges
      ensures Valid() && s.pc == Idle && s.task == NoTask && from <= used <= |turns|
      ensures CallEnds(config, turns, (old(s), from), s, used)
      ensures s.called == old(s).called && s.results == old(s).results + [result]
      ensures s.area[0] == 0 && s.area[1] == 0
      ensures result.AK? ==> result.response == s.response && s.response[0] == 1 && s.response[1] == 0
      ensures result.NK? ==> result.response == s.response && s.response[0] == 8 && s.response[1] == 0
      ensures Grown(old(actions), actions, Calm(turns) && used < |turns|)
    {
      var found;
      ghost var first: Point := (s, from);
      LeadsItself(config, turns, first);
      found, used := WaitForCompletion(turns, from, first);
      ghost var waited, end := actions, s;
      if found {
        result := LowersAndReturns(turns, used, first);
        end := s;
      } else {
        GivesUp();
        result := Raised;
      }
      assert EndsAs(config, turns, first, end, s, used);
      GrownOn(old(actions), waited, actions, Calm(turns) && used < |turns|);
    }

    method LowersAndReturns(ghost turns: seq<Turn>, ghost used: nat, ghost first: Point) returns (result: Result)
      requires Valid() && s.pc == LowerOff && used <= |turns| && Leads(config, turns, first, (s, used))
      modifies this`actions, this`s, areas.memory`d
      ensures Valid() && Grown(old(actions), actions, true)
      ensures var r := old(s).response;
              result == (if r[1] == 0 && r[0] == 1 then AK(r) else if r[1] == 0 && r[0] == 8 then NK(r) else Raised)
      ensures s == old(s).(area := WithTrigger(old(s).area, 0), results := old(s).results + [result], pc := Idle)
      ensures Leads(config, turns, first, (s, used))
    {
      Lowers(turns, used, first);
      ghost var lowered := actions;
      result := Returns(turns, used, first);
      ExtendsOn(old(actions), lowered, actions);
    }

    method Issues(words: seq<word>, ignore: bool, turns: seq<Turn>, from: nat, now: real)
      returns (result: Result, used: nat)
      requires Valid() && s.pc == AwaitTask && s.task == NoTask && from <= |turns|
      requires config.commands[s.called] == Command(words, ignore)
      modifies this, device, areas.memory, areas.memory.edges
      ensures Valid() && s.pc == Idle && from <= used <= |turns|
      ensures s.called == old(s).called + 1 && s.results == old(s).results + [result]
      ensures if ignore then result == Ignored && s.area == WithTrigger(words, 1) && s.task == TaskWaitOn
              else s.area[0] == 0 && s.area[1] == 0 && s.task == NoTask
      ensures CallDone(config, old(s), words, ignore, turns, from, s, used)
      ensures Grown(old(actions), actions, Calm(turns) && (!ignore ==> used < |turns|))
    {
      SetsCommand(words, now);
      ghost var before := actions;
      Raises(ignore);
      ExtendsOn(old(actions), before, actions);
      if ignore {
        return Ignored, from;
      }
      before := actions;
      result, used := Completes(turns, from);
      ExtendsOn(old(actions), before, actions);
    }

    // send_command. Without words, the command could not be built. Whatever the device does, a
    // waiting call that found a connection leaves the trigger 0 and no task behind, an ignored
    // one leaves the trigger on over exactly the words built, and a refused call touches nothing.
    method SendCommand(connected: bool, words: Option<seq<word>>, ignore: bool, turns: seq<Turn>, now: real)
      returns (result: Result, used: nat)
      requires Valid() && s.pc == Idle && s.task != TaskLower
      requires s.called < |config.commands| && ignore == config.commands[s.called].ignore
      requires words.Some? ==> words.value == config.commands[s.called].words
      modifies this, device, areas.memory, areas.memory.edges
      ensures Valid() && s.pc == Idle && s.task != TaskLower && used <= |turns|
      ensures s.called == old(s).called + 1 && s.results == old(s).results + [result]
      ensures Extends(old(actions), actions)
      ensures !connected ==> result == Raised && areas.memory.Contents() == old(areas.memory.Contents())
      ensures connected ==>
        && Shaped(config, old(s).(pc := AwaitTask))
        && var (ready, slept) := AwaitedFrom(config, old(s).(pc := AwaitTask), turns, 0);
           if words.None? then s == ready.(called := ready.called + 1, results := ready.results + [Raised], pc := Idle)
           else slept <= |turns| && CallDone(config, ready, words.value, ignore, turns, slept, s, used)
      ensures connected && (words.None? || !ignore) ==> s.area[0] == 0 && s.area[1] == 0 && s.task == NoTask
      ensures connected && words.Some? ==> Tried(old(actions), actions)
      ensures connected && words.Some? && ignore ==>
        result == Ignored && s.area == WithTrigger(words.value, 1) && s.task == TaskWaitOn
      ensures connected && words.Some? && Calm(turns) && used < |turns| && Conforming(old(actions)) ==>
        Conforming(actions)
    {
      used := 0;
      if !connected {
        Refuses();
        return Raised, used;
      }
      Begins();
      ghost var before := actions;
      used := AwaitIgnoreTask(turns);
      ExtendsOn(old(actions), before, actions);
      before := actions;
      if words.None? {
        TriggerIsOff();
        Rejects();
        result := Raised;
      } else {
        result, used := Issues(words.value, ignore, turns, used, now);
      }
      ExtendsOn(old(actions), before, actions);
    }

    // Without a task, and with the client still waiting for one, the trigger is off.
    lemma TriggerIsOff()
      requires Valid() && s.pc == AwaitTask && s.task == NoTask
      ensures s.area[0] == 0 && s.area[1] == 0
    {
      RunDisciplined(config, actions);
    }

    // As long as the device has conformed and nothing has timed out, a waiting call has returned
    // the answer the device gave to this very command, and the device has latched every command
    // once, with the words built for it.
    lemma LastCallIsAnswered()
      requires Valid() && Conforming(actions) && s.pc == Idle && s.task == NoTask && s.called > 0
      requires !config.commands[s.called - 1].ignore
      ensures |device.latched| == |device.answers| == |s.results| == s.called
      ensures forall i :: 0 <= i < s.called ==> device.latched[i] == Issued(config, i)
      ensures |device.answers[s.called - 1]| >= 2
      ensures var answer := device.answers[s.called - 1];
              && answer[1] == 0 && (answer[0] == 1 || answer[0] == 8)
              && s.results[s.called - 1] == (if answer[0] == 1 then AK(answer) else NK(answer))
    {
      ExactlyOnce(config, actions);
    }
  }
}
