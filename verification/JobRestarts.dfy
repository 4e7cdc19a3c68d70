/** How runs end in the job protocol, and what a restart finds and makes of them. */
module JobRestarts {

  import opened Wrappers
  import opened Jobs
  import opened JobProtocol
  import opened JobStops
  import opened JobKills

  // ---------- Winning a slot ----------

  /** Sets the row's next slot. */
  predicate SetsSlot(s: Sys, step: Step, slot: Time) {
    Enabled(s, step) && ((step.Claim? && step.slot == slot) || (step.Edit? && step.slot == slot))
  }

  predicate SlotIs(s: Sys, slot: Time) { s.row.Some? ==> s.row.value.nextRun == slot }

  lemma WorkerStepKeepsSlot(s: Sys, step: Step, slot: Time)
    requires SlotIs(s, slot) && ByWorker(step)
    ensures SlotIs(Take(s, step), slot)
  {
    WorkersRarelyWrite(s, step);
  }

  lemma OtherStepKeepsSlot(s: Sys, step: Step, slot: Time)
    requires SlotIs(s, slot) && !ByWorker(step) && !step.Claim? && !step.Edit?
    ensures SlotIs(Take(s, step), slot)
  {
  }

  lemma {:induction false} SlotStays(s: Sys, run: seq<Step>, slot: Time)
    requires SlotIs(s, slot) && forall i :: 0 <= i < |run| ==> !run[i].Claim? && !run[i].Edit?
    ensures SlotIs(Exec(s, run), slot)
    decreases |run|
  {
    if run != [] {
      if ByWorker(run[0]) {
        WorkerStepKeepsSlot(s, run[0], slot);
      } else {
        OtherStepKeepsSlot(s, run[0], slot);
      }
      SlotStays(Take(s, run[0]), run[1..], slot);
    }
  }

  /** Whatever runs, retries, stops and crashes, only a claimer that names the slot the
      last claim or edit left can win: of the racers for one slot the first. */
  lemma {:induction false} SlotIsWonIff(s: Sys, set_: Step, slot: Time, run: seq<Step>, claim: Step)
    requires SetsSlot(s, set_, slot) && claim.Claim?
    requires forall i :: 0 <= i < |run| ==> !run[i].Claim? && !run[i].Edit?
    ensures Enabled(Exec(Take(s, set_), run), claim)
       <==> Exec(Take(s, set_), run).row.Some? && claim.expected == slot
  {
    SlotStays(Take(s, set_), run, slot);
  }

  // ---------- The end of a run ----------

  /** What a run writes of its end: its outcome and its release only while it holds the
      row, or by id if it has no token; a refusal or a skip always. Nothing else moves. */
  lemma EndWrites(s: Sys, w: nat, lastError: Option<string>)
    requires w < |s.workers| && s.row.Some?
    ensures var row, token := s.row.value, s.workers[w].token;
            && (s.workers[w].ran ==>
                  Take(s, Record(w, lastError)).row
                  == Some(if token.None? || row.token == token then row.(lastError := lastError) else row))
            && (!s.kind.Script? && At(s, w, Popped) ==>
                  Take(s, Complain(w, lastError)).row == Some(row.(lastError := lastError)))
            && (At(s, w, Popped) ==>
                  Take(s, Clear(w)).row
                  == Some(if token.Some? && row.token == token then row.(running := false, token := None, attempt := 0)
                          else row))
  {
  }

  /** A ticket is filed whatever stops and closes came before. */
  lemma {:induction false} TicketRunsRegardless(s: Sys, run: seq<Step>, w: nat)
    requires s.kind.Ticket? && At(s, w, Snapped)
    requires forall i :: 0 <= i < |run| ==> Elsewhere(run[i], w, s.workers[w].proc)
    ensures var s' := Take(Exec(s, run), Bind(w)); At(s', w, Popped) && s'.workers[w].ran
  {
    RunLeavesWorker(s, run, w);
    KindIsKept(s, run);
  }

  /** How many steps of its own a worker has left, at most. */
  function Rank(pc: Pc): nat {
    match pc
    case Won => 9
    case Snapped => 8
    case Bound => 7
    case EventClear => 6
    case Started => 5
    case Registered => 4
    case Watched => 3
    case Leaving => 2
    case Popped => 1
    case Done => 0
  }

  /** A step that moves its worker on. */
  predicate Moves(step: Step) { ByWorker(step) && !step.WritePid? && !step.Record? && !step.Complain? }

  lemma ArrivalAdvances(s: Sys, step: Step)
    requires Enabled(s, step) && (step.Reread? || step.Bind?)
    ensures |Take(s, step).workers| == |s.workers|
    ensures !Take(s, step).workers[step.w].pc.Done?
    ensures Rank(Take(s, step).workers[step.w].pc) < Rank(s.workers[step.w].pc)
  {
  }

  lemma CheckAdvances(s: Sys, step: Step)
    requires Enabled(s, step) && (step.CheckEvent? || step.CheckClaim?)
    ensures |Take(s, step).workers| == |s.workers|
    ensures !Take(s, step).workers[step.w].pc.Done?
    ensures Rank(Take(s, step).workers[step.w].pc) < Rank(s.workers[step.w].pc)
  {
  }

  lemma LateStepAdvances(s: Sys, step: Step)
    requires Enabled(s, step) && Moves(step) && !Arrives(step)
    ensures |Take(s, step).workers| == |s.workers|
    ensures Take(s, step).workers[step.w].pc.Done? ==> step.Clear?
    ensures Rank(Take(s, step).workers[step.w].pc) < Rank(s.workers[step.w].pc)
  {
  }

  /** Only scripts have a process to register and to watch. */
  predicate Scripted(kind: Kind, w: Worker) { w.pc in {Registered, Watched} ==> kind.Script? }

  predicate AllScripted(s: Sys) { forall w :: 0 <= w < |s.workers| ==> Scripted(s.kind, s.workers[w]) }

  lemma ArrivingKeepsScripted(s: Sys, step: Step)
    requires AllScripted(s) && Arrives(step)
    ensures AllScripted(Take(s, step))
  {
    OtherWorkersStay(s, step);
  }

  lemma WorkerStepKeepsScripted(s: Sys, step: Step)
    requires AllScripted(s) && ByWorker(step) && !Arrives(step)
    ensures AllScripted(Take(s, step))
  {
    OtherWorkersStay(s, step);
    assert Enabled(s, step) ==> Scripted(s.kind, s.workers[step.w]);
  }

  lemma OtherStepKeepsScripted(s: Sys, step: Step)
    requires AllScripted(s) && !ByWorker(step)
    ensures AllScripted(Take(s, step))
  {
    var s' := Take(s, step);
    forall w | 0 <= w < |s'.workers| ensures Scripted(s'.kind, s'.workers[w]) {
      assert w < |s.workers| ==> Scripted(s.kind, s.workers[w]);
    }
  }

  lemma {:induction false} AllScriptedHolds(s: Sys, run: seq<Step>)
    requires AllScripted(s)
    ensures AllScripted(Exec(s, run))
    decreases |run|
  {
    if run != [] {
      if Arrives(run[0]) {
        ArrivingKeepsScripted(s, run[0]);
      } else if ByWorker(run[0]) {
        WorkerStepKeepsScripted(s, run[0]);
      } else {
        OtherStepKeepsScripted(s, run[0]);
      }
      AllScriptedHolds(Take(s, run[0]), run[1..]);
    }
  }

  /** The worker's own next step; a launch comes to nothing. */
  function Next(s: Sys, w: nat): Step
    requires w < |s.workers| && s.workers[w].pc != Done
  {
    match s.workers[w].pc
    case Won => Reread(w, None)
    case Snapped => Bind(w)
    case Bound => CheckEvent(w)
    case EventClear => CheckClaim(w)
    case Started => if s.kind.Script? then LaunchFail(w) else End(w)
    case Registered => OnStart(w)
    case Watched => End(w)
    case Leaving => Pop(w)
    case Popped => Clear(w)
  }

  lemma StepAdvances(s: Sys, step: Step)
    requires Enabled(s, step) && Moves(step)
    ensures |Take(s, step).workers| == |s.workers|
    ensures Take(s, step).workers[step.w].pc.Done? ==> step.Clear?
    ensures Rank(Take(s, step).workers[step.w].pc) < Rank(s.workers[step.w].pc)
  {
    if step.Reread? || step.Bind? {
      ArrivalAdvances(s, step);
    } else if Arrives(step) {
      CheckAdvances(s, step);
    } else {
      LateStepAdvances(s, step);
    }
  }

  lemma NextIsThere(s: Sys, w: nat)
    requires w < |s.workers| && s.workers[w].pc != Done && Scripted(s.kind, s.workers[w])
    ensures Enabled(s, Next(s, w)) && Moves(Next(s, w)) && Next(s, w).w == w
    ensures Next(s, w).Clear? <==> s.workers[w].pc.Popped?
  {
  }

  /** Released: it is done, and the row is not held under its token. */
  predicate LetsGo(s: Sys, w: nat) {
    At(s, w, Done) && (s.row.Some? ==> !Owns(s.workers[w].token, s.row.value))
  }

  predicate OwnSteps(run: seq<Step>, w: nat) { forall i :: 0 <= i < |run| ==> Moves(run[i]) && run[i].w == w }

  lemma {:induction false} FinishesFrom(s: Sys, w: nat) returns (run: seq<Step>)
    requires AllScripted(s) && w < |s.workers| && !s.workers[w].pc.Done?
    ensures OwnSteps(run, w) && |run| <= Rank(s.workers[w].pc) && LetsGo(Exec(s, run), w)
    decreases Rank(s.workers[w].pc)
  {
    var step := Next(s, w);
    NextIsThere(s, w);
    StepAdvances(s, step);
    AllScriptedHolds(s, [step]);
    ExecOne(s, [], step);
    assert [] + [step] == [step];
    var rest := [];
    if At(s, w, Popped) {
      LastStepLetsGo(s, w);
    } else {
      rest := FinishesFrom(Take(s, step), w);
    }
    run := [step] + rest;
    assert run[0] == step && run[1..] == rest;
  }

  lemma LastStepLetsGo(s: Sys, w: nat)
    requires At(s, w, Popped)
    ensures LetsGo(Take(s, Clear(w)), w)
  {
  }

  /** No worker is ever stuck: in every reachable state its own steps, nine at most, take
      it to its end, and leave no claim of its behind. */
  lemma {:induction false} WorkersFinish(s0: Sys, before: seq<Step>, w: nat) returns (run: seq<Step>)
    requires Initial(s0) && w < |Exec(s0, before).workers| && !Exec(s0, before).workers[w].pc.Done?
    ensures OwnSteps(run, w) && |run| <= 9 && LetsGo(Exec(Exec(s0, before), run), w)
  {
    AllScriptedHolds(s0, before);
    run := FinishesFrom(Exec(s0, before), w);
  }

  // ---------- A process dies ----------

  /** A stop dies with its process: it raises, kills and drops nothing more. */
  lemma {:induction false} DeadStopDoesNothing(s: Sys, p: int, run: seq<Step>, k: nat)
    requires k < |s.stoppers| && s.stoppers[k].proc == p
    ensures var s' := Exec(Take(s, Crash(p)), run);
            && k < |s'.stoppers|
            && !Enabled(s', Look(k)) && !Enabled(s', Raise(k)) && !Enabled(s', Kill(k)) && !Enabled(s', DropMark(k))
  {
    CrashFinishes(s, p, k);
    FinishedStays(Take(s, Crash(p)), run, k);
    FinishedIsOver(Exec(Take(s, Crash(p)), run), k);
  }

  lemma CrashFinishes(s: Sys, p: int, k: nat)
    requires k < |s.stoppers| && s.stoppers[k].proc == p
    ensures StopAt(Take(s, Crash(p)), k, Finished)
  {
  }

  lemma FinishedIsOver(s: Sys, k: nat)
    requires StopAt(s, k, Finished)
    ensures !Enabled(s, Look(k)) && !Enabled(s, Raise(k)) && !Enabled(s, Kill(k)) && !Enabled(s, DropMark(k))
  {
  }

  lemma StopperStepKeepsFinished(s: Sys, step: Step, k: nat)
    requires StopAt(s, k, Finished) && ByStopper(step)
    ensures StopAt(Take(s, step), k, Finished)
  {
  }

  lemma {:induction false} FinishedStays(s: Sys, run: seq<Step>, k: nat)
    requires StopAt(s, k, Finished)
    ensures StopAt(Exec(s, run), k, Finished)
    decreases |run|
  {
    if run != [] {
      if ByStopper(run[0]) {
        StopperStepKeepsFinished(s, run[0], k);
      } else if !run[0].Crash? {
        StoppersStay(s, run[0]);
      }
      FinishedStays(Take(s, run[0]), run[1..], k);
    }
  }

  /** Every event raised, published or found has been made. */
  predicate RaisedIssued(s: Sys) {
    && EventsIssued(s) && (forall e :: e in s.raised ==> e < s.events)
    && forall k :: 0 <= k < |s.stoppers| && s.stoppers[k].ev.Some? ==> s.stoppers[k].ev.value < s.events
  }

  lemma LookKeepsRaised(s: Sys, step: Step)
    requires RaisedIssued(s) && (step.AskStop? || step.Look?)
    ensures RaisedIssued(Take(s, step))
  {
  }

  lemma RaiseKeepsRaised(s: Sys, step: Step)
    requires RaisedIssued(s) && (step.Raise? || step.Kill? || step.DropMark?)
    ensures RaisedIssued(Take(s, step))
  {
  }

  lemma StopperStepKeepsRaised(s: Sys, step: Step)
    requires RaisedIssued(s) && ByStopper(step)
    ensures RaisedIssued(Take(s, step))
  {
    if step.AskStop? || step.Look? {
      LookKeepsRaised(s, step);
    } else {
      RaiseKeepsRaised(s, step);
    }
  }

  lemma OtherStepKeepsRaised(s: Sys, step: Step)
    requires RaisedIssued(s) && !ByStopper(step)
    ensures RaisedIssued(Take(s, step))
  {
    StepKeepsIssued(s, step);
    OnlyRaisesRaise(s, step);
    if !step.Crash? {
      StoppersStay(s, step);
    }
  }

  lemma OnlyRaisesRaise(s: Sys, step: Step)
    requires !ByStopper(step)
    ensures Take(s, step).raised == s.raised
  {
  }

  lemma {:induction false} RaisedIssuedHolds(s: Sys, run: seq<Step>)
    requires RaisedIssued(s)
    ensures RaisedIssued(Exec(s, run))
    decreases |run|
  {
    if run != [] {
      if ByStopper(run[0]) {
        StopperStepKeepsRaised(s, run[0]);
      } else {
        OtherStepKeepsRaised(s, run[0]);
      }
      RaisedIssuedHolds(Take(s, run[0]), run[1..]);
    }
  }

  // ---------- The retry ----------

  /** A process in which nothing of the job is left. */
  predicate Blank(s: Sys, p: int) { p !in s.stop && p !in s.agents && p !in s.procs }

  /** What the steps that follow leave alone. */
  predicate SameAround(s: Sys, s': Sys) {
    s'.kind == s.kind && s'.row == s.row && s'.raised == s.raised && s'.stop == s.stop && s'.agents == s.agents
    && s'.procs == s.procs && s'.events == s.events
  }

  lemma RetryWins(s: Sys, p: int, n: nat)
    requires n == |s.workers| && s.row.Some? && s.row.value.token.Some? && Enabled(s, Retry(p, s.row.value.attempt))
    ensures var s', row := Take(s, Retry(p, s.row.value.attempt)), s.row.value;
            && |s'.workers| == n + 1 && s'.workers[n] == NewWorker(p)
            && s'.row == Some(row.(attempt := row.attempt + 1)) && s'.retried == s.retried + [row.token.value]
            && SameAround(s.(row := s'.row), s')
  {
  }

  lemma RereadFinds(s: Sys, w: nat)
    requires At(s, w, Won) && s.row.Some?
    ensures var s' := Take(s, Reread(w, None));
            && w < |s'.workers| && s'.workers[w] == s.workers[w].(pc := Snapped, token := s.row.value.token)
            && SameAround(s, s')
  {
  }

  lemma BindsFresh(s: Sys, w: nat)
    requires At(s, w, Snapped) && !s.kind.Ticket? && Blank(s, s.workers[w].proc)
    ensures var s' := Take(s, Bind(w));
            && w < |s'.workers| && s'.workers[w] == s.workers[w].(pc := Bound, ev := s.events)
            && s'.row == s.row && s'.raised == s.raised
  {
  }

  lemma Starts(s: Sys, w: nat)
    requires At(s, w, Bound) && s.workers[w].ev !in s.raised
    requires s.row.Some? && s.row.value.running && s.row.value.token == s.workers[w].token
    ensures var s1 := Take(s, CheckEvent(w)); var s2 := Take(s1, CheckClaim(w));
            && At(s2, w, Started) && s2.workers[w] == s.workers[w].(pc := Started, ran := true) && s2.row == s.row
  {
    EventLeads(s, w);
    assert Take(s, CheckEvent(w)).row == s.row;
  }

  /** In every reachable state: a run in flight whose claim was not retried yet can, after
      its process has died, be retried in that process, and left alone it runs, under the
      claim it was won by, whatever stops had reached the process that died. */
  lemma {:induction false} RetriedRunStarts(s0: Sys, before: seq<Step>, p: int)
    requires Initial(s0) && !s0.kind.Ticket?
    requires var d := Exec(s0, before);
             d.row.Some? && d.row.value.running && d.row.value.token.GetOr(0) !in d.retried
    ensures var d := Exec(s0, before);
            var n, a := |d.workers|, d.row.value.attempt;
            var s := Take(Take(Take(Take(d, Crash(p)), Retry(p, a)), Reread(n, None)), Bind(n));
            var s' := Take(Take(s, CheckEvent(n)), CheckClaim(n));
            && At(s', n, Started) && s'.workers[n].ran && s'.workers[n].token == d.row.value.token
            && s'.row == Some(d.row.value.(attempt := 2))
  {
    var d := Exec(s0, before);
    RetryIsOwedIff(s0, before, p, 0);
    InvHolds(s0, before);
    RaisedIssuedHolds(s0, before);
    KindIsKept(s0, before);
    var n, a := |d.workers|, d.row.value.attempt;
    var s1 := Take(d, Crash(p));
    assert Enabled(s1, Retry(p, a)) && Blank(s1, p) && SameBut(d, s1);
    RetryWins(s1, p, n);
    var s2 := Take(s1, Retry(p, a));
    RereadFinds(s2, n);
    var s3 := Take(s2, Reread(n, None));
    BindsFresh(s3, n);
    Starts(Take(s3, Bind(n)), n);
  }

  predicate SameBut(d: Sys, s: Sys) {
    s.row == d.row && |s.workers| == |d.workers| && s.raised == d.raised && s.events == d.events && s.kind == d.kind
  }

  // ---------- The script that outlived its process ----------

  /** A stop finds a reattached script, and the event its watch waits on, if and only if
      nothing of that process has dropped them since. */
  lemma {:induction false} ReattachedIsFoundIff(s0: Sys, before: seq<Step>, p: int, attempt: int, pid: int, since: seq<Step>,
                                                k: nat)
    requires Initial(s0) && Enabled(Exec(s0, before), Reattach(p, attempt, pid))
    requires NoneRegister(Take(Exec(s0, before), Reattach(p, attempt, pid)), since, p, pid)
    requires var s2 := Exec(Take(Exec(s0, before), Reattach(p, attempt, pid)), since);
             StopAt(s2, k, Asked) && s2.stoppers[k].proc == p
    ensures var s1 := Take(Exec(s0, before), Reattach(p, attempt, pid));
            var found := Take(Exec(s1, since), Look(k)).stoppers[k];
            && (pid in found.pids <==> NoneDropPids(s1, since, p))
            && (found.ev == Some(EventOf(Exec(s0, before), p)) <==> NoneUnpublish(s1, since, p))
  {
    var s := Exec(s0, before);
    var s1 := Take(s, Reattach(p, attempt, pid));
    IssuedHolds(s0, before);
    StepKeepsIssued(s, Reattach(p, attempt, pid));
    ReattachPublishes(s, p, attempt, pid);
    PidStaysIff(s1, since, p, pid);
    StaysPublishedIff(s1, since, p, EventOf(s, p));
  }

  lemma ReattachPublishes(s: Sys, p: int, attempt: int, pid: int)
    requires EventsIssued(s) && Enabled(s, Reattach(p, attempt, pid))
    ensures var s1 := Take(s, Reattach(p, attempt, pid));
            pid in Pids(s1, p) && Publishes(s1, p, EventOf(s, p)) && EventOf(s, p) < s1.events
  {
  }
}
