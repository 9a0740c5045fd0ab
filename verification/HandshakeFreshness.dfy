/**
 Freshness after timeouts: exactly when a call returns the answer to its own command although
 earlier calls have timed out, been refused or been rejected.
 */
module HandshakeFreshness {
  import opened Bytes
  import opened Handshake

  // ---------- what survives timeouts ----------

  predicate Prepared(config: Config, s: Sys)
    requires config.Valid() && Shaped(config, s)
  {
    && Disciplined(config, s)
    && (s.pc == Unbusy || s.pc == Raising ==> s.area == config.commands[s.called].words)
    && (s.device == Ready || s.device.Latching? || s.device == Latched ==> s.busy == 0)
  }

  lemma StepPrepared(config: Config, s: Sys, action: Action)
    requires config.Valid() && Shaped(config, s) && Prepared(config, s) && !action.World?
    ensures Shaped(config, Step(config, s, action)) && Prepared(config, Step(config, s, action))
  {
    StepDisciplined(config, s, action);
    match action {
      case Client => ClientPrepared(config, s);
      case Device(answer) => DevicePrepared(config, s, answer);
      case _ =>
    }
  }

  lemma ClientPrepared(config: Config, s: Sys)
    requires config.Valid() && Shaped(config, s) && Prepared(config, s)
    ensures Shaped(config, ClientStep(config, s)) && Prepared(config, ClientStep(config, s))
  {
    ClientDisciplined(config, s);
  }

  lemma DevicePrepared(config: Config, s: Sys, answer: seq<word>)
    requires config.Valid() && Shaped(config, s) && Prepared(config, s)
    ensures Shaped(config, DeviceStep(s, answer)) && Prepared(config, DeviceStep(s, answer))
  {
    DeviceLeaves(config, s, answer);
  }

  lemma {:induction false} RunPrepared(config: Config, actions: seq<Action>)
    requires config.Valid() && Undisturbed(actions)
    ensures Prepared(config, Run(config, actions))
  {
    if |actions| > 0 {
      RunPrepared(config, actions[..|actions| - 1]);
      StepPrepared(config, Run(config, actions[..|actions| - 1]), actions[|actions| - 1]);
    }
  }

  // ---------- the same state with an orderly past ----------

  function Okay(config: Config): (answer: seq<word>)
    requires config.Valid()
    ensures |answer| == config.responseSize && Dword(answer) == 1
  {
    [1] + Zeros(config.responseSize - 1)
  }

  // As if the first n commands had been latched and answered.
  function Rebased(config: Config, s: Sys, n: nat): (t: Sys)
    requires config.Valid() && Shaped(config, s) && n <= s.called
  {
    s.(latched := seq(n, i requires 0 <= i < n => Issued(config, i)),
       answers := seq(n, _ => Okay(config)),
       results := seq(if Waiting(s.pc) then n else s.called, i requires 0 <= i < s.called =>
         if config.commands[i].ignore then Ignored else ReadResult(Okay(config))))
  }

  // The device can take up command k, now raised: it is ready, or has latched so far what it
  // would have latched of this command.
  predicate TakesUp(config: Config, s: Sys, k: nat)
    requires config.Valid() && k < |config.commands|
  {
    s.device == Ready || (s.device.Latching? && Begins(s.device.part, Issued(config, k)))
  }

  predicate Begins(part: seq<word>, whole: seq<word>)
  {
    |part| <= |whole| && part == whole[..|part|]
  }

  lemma RebasedInv(config: Config, before: Sys)
    requires config.Valid() && Shaped(config, before) && Prepared(config, before) && before.pc == Raising
    requires TakesUp(config, before, before.called)
    ensures var s := ClientStep(config, before);
            && Shaped(config, s) && s.called == before.called + 1
            && Shaped(config, Rebased(config, s, before.called)) && Inv(config, Rebased(config, s, before.called))
  {
    var s := ClientStep(config, before);
    var t := Rebased(config, s, before.called);
    ClientDisciplined(config, before);
    RebasedHistory(config, s, before.called);
    assert s.area == Issued(config, before.called);
  }

  lemma RebasedHistory(config: Config, s: Sys, n: nat)
    requires config.Valid() && Shaped(config, s) && s.called == n + 1
    requires if config.commands[n].ignore then s.pc == Idle else s.pc == WaitOn
    ensures Shaped(config, Rebased(config, s, n)) && HistoryInv(config, Rebased(config, s, n))
  {
    var t := Rebased(config, s, n);
    forall i | 0 <= i < |t.results| ensures Answered(config.commands[i], t.results[i], t.answers, i) {
    }
  }

  // x has gone on from x0 as y has from y0: the same but for the histories before.
  ghost predicate Parallel(x0: Sys, y0: Sys, x: Sys, y: Sys)
  {
    && x == y.(latched := x.latched, answers := x.answers, results := x.results)
    && SameGrowth(x0.latched, y0.latched, x.latched, y.latched)
    && SameGrowth(x0.answers, y0.answers, x.answers, y.answers)
    && SameGrowth(x0.results, y0.results, x.results, y.results)
  }

  ghost predicate SameGrowth<T>(x0: seq<T>, y0: seq<T>, x: seq<T>, y: seq<T>)
  {
    |y0| <= |y| && y[..|y0|] == y0 && x == x0 + y[|y0|..]
  }

  lemma GrowthOn<T>(x0: seq<T>, y0: seq<T>, x: seq<T>, y: seq<T>, more: seq<T>)
    requires SameGrowth(x0, y0, x, y)
    ensures SameGrowth(x0, y0, x + more, y + more)
  {
    assert (y + more)[..|y0|] == y[..|y0|];
    assert (y + more)[|y0|..] == y[|y0|..] + more;
  }

  function Tail<T>(before: seq<T>, after: seq<T>): (more: seq<T>)
    requires |before| <= |after|
  {
    after[|before|..]
  }

  // A step appends to the histories and never reads them.
  ghost predicate Appends(x: Sys, y: Sys, nx: Sys, ny: Sys)
  {
    && |y.latched| <= |ny.latched| && |y.answers| <= |ny.answers| && |y.results| <= |ny.results|
    && ny.latched == y.latched + Tail(y.latched, ny.latched)
    && ny.answers == y.answers + Tail(y.answers, ny.answers)
    && ny.results == y.results + Tail(y.results, ny.results)
    && nx == ny.(latched := x.latched + Tail(y.latched, ny.latched),
                 answers := x.answers + Tail(y.answers, ny.answers),
                 results := x.results + Tail(y.results, ny.results))
  }

  lemma ClientAppends(config: Config, x: Sys, y: Sys)
    requires config.Valid() && Shaped(config, x) && Shaped(config, y)
    requires x == y.(latched := x.latched, answers := x.answers, results := x.results)
    ensures Appends(x, y, ClientStep(config, x), ClientStep(config, y))
  {
  }

  lemma DeviceAppends(config: Config, x: Sys, y: Sys, answer: seq<word>)
    requires config.Valid() && Shaped(config, x) && Shaped(config, y)
    requires x == y.(latched := x.latched, answers := x.answers, results := x.results)
    ensures Appends(x, y, DeviceStep(x, answer), DeviceStep(y, answer))
  {
    match y.device {
      case Latching(part) => LatchAppends(config, x, y, answer);
      case Answering(_, _) => AnswerAppends(config, x, y, answer);
      case _ =>
    }
  }

  lemma LatchAppends(config: Config, x: Sys, y: Sys, answer: seq<word>)
    requires config.Valid() && Shaped(config, x) && Shaped(config, y) && y.device.Latching?
    requires x == y.(latched := x.latched, answers := x.answers, results := x.results)
    ensures Appends(x, y, DeviceStep(x, answer), DeviceStep(y, answer))
  {
  }

  lemma AnswerAppends(config: Config, x: Sys, y: Sys, answer: seq<word>)
    requires config.Valid() && Shaped(config, x) && Shaped(config, y) && y.device.Answering?
    requires x == y.(latched := x.latched, answers := x.answers, results := x.results)
    ensures Appends(x, y, DeviceStep(x, answer), DeviceStep(y, answer))
  {
  }

  lemma StepAppends(config: Config, x: Sys, y: Sys, action: Action)
    requires config.Valid() && Shaped(config, x) && Shaped(config, y)
    requires x == y.(latched := x.latched, answers := x.answers, results := x.results)
    requires action.Client? || action.Task? || action.Device?
    ensures Appends(x, y, Step(config, x, action), Step(config, y, action))
  {
    match action
    case Client => ClientAppends(config, x, y);
    case Task =>
    case Device(answer) => DeviceAppends(config, x, y, answer);
  }

  lemma StepParallel(config: Config, x0: Sys, y0: Sys, x: Sys, y: Sys, action: Action)
    requires config.Valid() && Shaped(config, x) && Shaped(config, y) && Parallel(x0, y0, x, y)
    requires action.Client? || action.Task? || action.Device?
    ensures Parallel(x0, y0, Step(config, x, action), Step(config, y, action))
  {
    var ny := Step(config, y, action);
    StepAppends(config, x, y, action);
    GrowthOn(x0.latched, y0.latched, x.latched, y.latched, Tail(y.latched, ny.latched));
    GrowthOn(x0.answers, y0.answers, x.answers, y.answers, Tail(y.answers, ny.answers));
    GrowthOn(x0.results, y0.results, x.results, y.results, Tail(y.results, ny.results));
  }

  lemma {:induction false} RunsParallel(config: Config, x0: Sys, y0: Sys, actions: seq<Action>)
    requires config.Valid() && Shaped(config, x0) && Shaped(config, y0) && Parallel(x0, y0, x0, y0)
    requires Inv(config, y0) && Conforming(actions)
    ensures Parallel(x0, y0, RunFrom(config, x0, actions), RunFrom(config, y0, actions))
    ensures Inv(config, RunFrom(config, y0, actions))
  {
    if |actions| > 0 {
      var front, last := actions[..|actions| - 1], actions[|actions| - 1];
      RunsParallel(config, x0, y0, front);
      StepParallel(config, x0, y0, RunFrom(config, x0, front), RunFrom(config, y0, front), last);
      StepKeeps(config, RunFrom(config, y0, front), last);
    }
  }

  // ---------- freshness ----------

  // The call at hand is about to return the answer to its own command: since it was raised, the
  // device has latched just this command, with its own words, and what it has answered is what
  // the call will read.
  ghost predicate FreshNow(config: Config, s: Sys, e: Sys)
    requires config.Valid() && s.called < |config.commands|
  {
    && |e.latched| == |s.latched| + 1 && |e.answers| == |s.answers| + 1
    && e.latched[|s.latched|] == Issued(config, s.called) && e.response == e.answers[|s.answers|]
  }

  // Whatever has timed out, been refused or been rejected before: a waiting call that comes to its
  // end without a timeout of its own returns the answer to its own command if and only if the
  // device could take up this command when it was raised.
  lemma FreshExactly(config: Config, before: seq<Action>, actions: seq<Action>)
    requires config.Valid() && Undisturbed(before) && Conforming(actions)
    requires Run(config, before).pc == Raising
    requires var s := Run(config, before);
             && !config.commands[s.called].ignore && Shaped(config, ClientStep(config, s))
             && var e := RunFrom(config, ClientStep(config, s), actions);
                e.pc == Reading && e.called == s.called + 1
    ensures var s := Run(config, before);
            FreshNow(config, s, RunFrom(config, ClientStep(config, s), actions)) <==> TakesUp(config, s, s.called)
  {
    var s := Run(config, before);
    RunPrepared(config, before);
    if TakesUp(config, s, s.called) {
      TakenUpIsFresh(config, s, actions);
    } else {
      NotTakenUpIsStale(config, s, actions);
    }
  }

  lemma TakenUpIsFresh(config: Config, s: Sys, actions: seq<Action>)
    requires config.Valid() && Shaped(config, s) && Prepared(config, s) && s.pc == Raising
    requires TakesUp(config, s, s.called) && !config.commands[s.called].ignore && Conforming(actions)
    requires Shaped(config, ClientStep(config, s))
    requires var e := RunFrom(config, ClientStep(config, s), actions); e.pc == Reading && e.called == s.called + 1
    ensures FreshNow(config, s, RunFrom(config, ClientStep(config, s), actions))
  {
    var raised, k := ClientStep(config, s), s.called;
    var t := Rebased(config, raised, k);
    RebasedInv(config, s);
    StartsParallel(raised, t);
    RunsParallel(config, raised, t, actions);
    var x, y := RunFrom(config, raised, actions), RunFrom(config, t, actions);
    LastEntries(config, y);
    SameEntry(raised.latched, t.latched, x.latched, y.latched, 0);
    SameEntry(raised.answers, t.answers, x.answers, y.answers, 0);
  }

  // What the invariant says of a call that is about to return.
  lemma LastEntries(config: Config, y: Sys)
    requires config.Valid() && Shaped(config, y) && Inv(config, y) && y.pc == Reading
    ensures var k := y.called - 1;
            && |y.latched| == |y.answers| == k + 1
            && y.latched[k] == Issued(config, k) && y.response == y.answers[k]
  {
  }

  // ---------- and where it is lost ----------

  // The call at hand, or a later one, as long as the trigger on is answered by no fresh latch.
  ghost predicate NoLatch(config: Config, s: Sys, e: Sys)
    requires config.Valid() && Shaped(config, e)
  {
    && Disciplined(config, e) && e.called >= s.called + 1
    && (e.called == s.called + 1 && Waiting(e.pc) ==>
          && |e.latched| == |s.latched| && !e.device.Latching?
          && (e.device == Ready ==> !TriggerOn(e)))
  }

  lemma NoLatchStep(config: Config, s: Sys, e: Sys, action: Action)
    requires config.Valid() && Shaped(config, e) && NoLatch(config, s, e)
    requires action.Client? || action.Task? || action.Device?
    ensures Shaped(config, Step(config, e, action)) && NoLatch(config, s, Step(config, e, action))
  {
    StepDisciplined(config, e, action);
  }

  // The device had begun to latch other words.
  ghost predicate OtherWords(s: Sys, part: seq<word>, e: Sys)
  {
    && |s.latched| <= |e.latched|
    && (|e.latched| == |s.latched| ==> e.device.Latching? && Begins(part, e.device.part))
    && (|e.latched| > |s.latched| ==> Begins(part, e.latched[|s.latched|]))
  }

  lemma OtherWordsStep(config: Config, s: Sys, part: seq<word>, e: Sys, action: Action)
    requires config.Valid() && Shaped(config, e) && OtherWords(s, part, e)
    requires action.Client? || action.Task? || action.Device?
    ensures OtherWords(s, part, Step(config, e, action))
  {
  }

  lemma {:induction false} NoLatchRun(config: Config, s: Sys, e: Sys, actions: seq<Action>)
    requires config.Valid() && Shaped(config, e) && NoLatch(config, s, e) && Conforming(actions)
    ensures NoLatch(config, s, RunFrom(config, e, actions))
  {
    if |actions| > 0 {
      NoLatchRun(config, s, e, actions[..|actions| - 1]);
      NoLatchStep(config, s, RunFrom(config, e, actions[..|actions| - 1]), actions[|actions| - 1]);
    }
  }

  lemma {:induction false} OtherWordsRun(config: Config, s: Sys, part: seq<word>, e: Sys, actions: seq<Action>)
    requires config.Valid() && Shaped(config, e) && OtherWords(s, part, e) && Conforming(actions)
    ensures OtherWords(s, part, RunFrom(config, e, actions))
  {
    if |actions| > 0 {
      OtherWordsRun(config, s, part, e, actions[..|actions| - 1]);
      OtherWordsStep(config, s, part, RunFrom(config, e, actions[..|actions| - 1]), actions[|actions| - 1]);
    }
  }

  lemma NotTakenUpIsStale(config: Config, s: Sys, actions: seq<Action>)
    requires config.Valid() && Shaped(config, s) && Prepared(config, s) && s.pc == Raising
    requires !TakesUp(config, s, s.called) && !config.commands[s.called].ignore && Conforming(actions)
    requires Shaped(config, ClientStep(config, s))
    requires var e := RunFrom(config, ClientStep(config, s), actions); e.pc == Reading && e.called == s.called + 1
    ensures !FreshNow(config, s, RunFrom(config, ClientStep(config, s), actions))
  {
    var raised := ClientStep(config, s);
    if s.device.Latching? {
      OtherWordsRun(config, s, s.device.part, raised, actions);
    } else {
      ClientDisciplined(config, s);
      NoLatchRun(config, s, raised, actions);
    }
  }

  // ---------- and from then on ----------

  // Call m since a command was raised, if it has returned and waited, returned the answer to its
  // own command.
  ghost predicate FreshSince(config: Config, s: Sys, end: Sys, m: nat)
    requires config.Valid()
  {
    |s.results| + m < |end.results| ==>
      s.called + m < |config.commands| && (!config.commands[s.called + m].ignore ==> Fresh(config, s, end, m))
  }

  ghost predicate Fresh(config: Config, s: Sys, end: Sys, m: nat)
    requires config.Valid()
  {
    && s.called + m < |config.commands|
    && |s.results| + m < |end.results| && |s.answers| + m < |end.answers| && |s.latched| + m < |end.latched|
    && |end.answers[|s.answers| + m]| >= 2
    && end.latched[|s.latched| + m] == Issued(config, s.called + m)
    && end.results[|s.results| + m] == ReadResult(end.answers[|s.answers| + m])
  }

  // Once the device has taken up a command, this call and every later one is fresh while nothing
  // times out again.
  lemma FreshOnwards(config: Config, before: seq<Action>, actions: seq<Action>, m: nat)
    requires config.Valid() && Undisturbed(before) && Conforming(actions)
    requires Run(config, before).pc == Raising
    requires TakesUp(config, Run(config, before), Run(config, before).called)
    ensures var s := Run(config, before);
            && Shaped(config, ClientStep(config, s))
            && FreshSince(config, s, RunFrom(config, ClientStep(config, s), actions), m)
  {
    RunPrepared(config, before);
    FreshFrom(config, Run(config, before), actions, m);
  }

  lemma FreshFrom(config: Config, s: Sys, actions: seq<Action>, m: nat)
    requires config.Valid() && Shaped(config, s) && Prepared(config, s) && s.pc == Raising && Conforming(actions)
    requires TakesUp(config, s, s.called)
    ensures Shaped(config, ClientStep(config, s))
    ensures FreshSince(config, s, RunFrom(config, ClientStep(config, s), actions), m)
  {
    var raised := ClientStep(config, s);
    var t := Rebased(config, raised, s.called);
    RebasedInv(config, s);
    StartsParallel(raised, t);
    RunsParallel(config, raised, t, actions);
    var x, y := RunFrom(config, raised, actions), RunFrom(config, t, actions);
    var first := if config.commands[s.called].ignore then 1 else 0;
    if |s.results| + m < |x.results| && m >= first {
      FreshInParallel(config, s, raised, t, x, y, m, first);
    }
  }

  lemma StartsParallel(s: Sys, t: Sys)
    requires s == t.(latched := s.latched, answers := s.answers, results := s.results)
    ensures Parallel(s, t, s, t)
  {
    assert t.latched[|t.latched|..] == [] && t.answers[|t.answers|..] == [] && t.results[|t.results|..] == [];
  }

  lemma SameEntry<T>(x0: seq<T>, y0: seq<T>, x: seq<T>, y: seq<T>, m: nat)
    requires SameGrowth(x0, y0, x, y)
    ensures |x| - |x0| == |y| - |y0|
    ensures |y0| + m < |y| ==> x[|x0| + m] == y[|y0| + m]
  {
  }

  lemma FreshInParallel(config: Config, s: Sys, raised: Sys, t: Sys, x: Sys, y: Sys, m: nat, first: nat)
    requires config.Valid() && Shaped(config, y) && HistoryInv(config, y) && m >= first
    requires SameGrowth(raised.latched, t.latched, x.latched, y.latched)
    requires SameGrowth(raised.answers, t.answers, x.answers, y.answers)
    requires SameGrowth(raised.results, t.results, x.results, y.results)
    requires raised.latched == s.latched && raised.answers == s.answers && |t.latched| == |t.answers| == s.called
    requires |t.results| == s.called + first && |raised.results| == |s.results| + first
    requires |s.results| + m < |x.results|
    ensures FreshSince(config, s, x, m)
  {
    SameEntry(raised.results, t.results, x.results, y.results, m - first);
    SameEntry(s.latched, t.latched, x.latched, y.latched, m);
    SameEntry(s.answers, t.answers, x.answers, y.answers, m);
    FreshEntry(config, s, x, y, m);
  }

  // Entry m behind s is entry s.called + m of an orderly history.
  lemma FreshEntry(config: Config, s: Sys, x: Sys, y: Sys, m: nat)
    requires config.Valid() && Shaped(config, y) && HistoryInv(config, y) && s.called + m < |y.results|
    requires |s.results| + m < |x.results| && x.results[|s.results| + m] == y.results[s.called + m]
    requires |x.latched| - |s.latched| == |y.latched| - s.called && |x.answers| - |s.answers| == |y.answers| - s.called
    requires s.called + m < |y.latched| ==> x.latched[|s.latched| + m] == y.latched[s.called + m]
    requires s.called + m < |y.answers| ==> x.answers[|s.answers| + m] == y.answers[s.called + m]
    ensures FreshSince(config, s, x, m)
  {
    AnsweredAt(config, y, s.called + m);
  }

  // Call i of an orderly history.
  lemma AnsweredAt(config: Config, y: Sys, i: nat)
    requires config.Valid() && Shaped(config, y) && HistoryInv(config, y) && i < |y.results|
    ensures i < |config.commands|
    ensures !config.commands[i].ignore ==>
      && i < |y.answers| && i < |y.latched| && |y.answers[i]| >= 2
      && y.latched[i] == Issued(config, i) && y.results[i] == ReadResult(y.answers[i])
  {
    assert Answered(config.commands[i], y.results[i], y.answers, i);
  }
}
