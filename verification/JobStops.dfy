/** What a stop achieves in the job protocol: nothing starts after it, an agent
    hears of it, a script dies of it. */
module JobStops {

  import opened Wrappers
  import opened Jobs
  import opened JobProtocol

  // ---------- Stopping before the start check ----------

  /** Has its snapshot and has not passed the start check. */
  predicate BeforeStart(s: Sys, w: nat) {
    At(s, w, Snapped) || At(s, w, Bound) || At(s, w, EventClear)
  }

  /** Its claim is gone and it has not run: it never will. */
  predicate Doomed(s: Sys, w: nat) {
    && !s.kind.Ticket? && w < |s.workers| && !s.workers[w].ran
    && s.workers[w].pc !in {Won, Started, Registered, Watched}
    && s.workers[w].token.Some? && Superseded(s, s.workers[w].token.value)
  }

  /** What of it depends on the worker alone. */
  predicate Idle(s: Sys, w: nat, t: Token) {
    && !s.kind.Ticket? && w < |s.workers| && !s.workers[w].ran
    && s.workers[w].pc !in {Won, Started, Registered, Watched} && s.workers[w].token == Some(t)
  }

  lemma WorkerStepKeepsIdle(s: Sys, step: Step, w: nat, t: Token)
    requires Idle(s, w, t) && Superseded(s, t) && ByWorker(step)
    ensures Idle(Take(s, step), w, t)
  {
    OtherWorkersStay(s, step);
    if step.w == w {
      if Arrives(step) {
        EarlyStepKeepsIdle(s, step, w, t);
      } else {
        LateStepKeepsIdle(s, step, w, t);
      }
    }
  }

  lemma EarlyStepKeepsIdle(s: Sys, step: Step, w: nat, t: Token)
    requires Idle(s, w, t) && Superseded(s, t) && Arrives(step) && step.w == w
    ensures Idle(Take(s, step), w, t)
  {
  }

  lemma LateStepKeepsIdle(s: Sys, step: Step, w: nat, t: Token)
    requires Idle(s, w, t) && ByWorker(step) && !Arrives(step) && step.w == w
    ensures Idle(Take(s, step), w, t)
  {
  }

  lemma OtherStepKeepsIdle(s: Sys, step: Step, w: nat, t: Token)
    requires Idle(s, w, t) && !ByWorker(step)
    ensures Idle(Take(s, step), w, t)
  {
  }

  lemma StepKeepsDoomed(s: Sys, step: Step, w: nat)
    requires Doomed(s, w)
    ensures Doomed(Take(s, step), w)
  {
    var t := s.workers[w].token.value;
    StepKeepsSuperseded(s, step, t);
    if ByWorker(step) {
      WorkerStepKeepsIdle(s, step, w, t);
    } else {
      OtherStepKeepsIdle(s, step, w, t);
    }
  }

  lemma {:induction false} DoomedForGood(s: Sys, run: seq<Step>, w: nat)
    requires Doomed(s, w)
    ensures Doomed(Exec(s, run), w)
    decreases |run|
  {
    if run != [] {
      StepKeepsDoomed(s, run[0], w);
      DoomedForGood(Take(s, run[0]), run[1..], w);
    }
  }

  predicate TokensIssued(s: Sys) {
    forall w :: 0 <= w < |s.workers| && s.workers[w].token.Some? ==> s.workers[w].token.value < s.claims
  }

  predicate NoneRanEarly(s: Sys) {
    forall w :: 0 <= w < |s.workers| && s.workers[w].pc in {Won, Snapped, Bound, EventClear} ==> !s.workers[w].ran
  }

  predicate WorkersInv(s: Sys) { TokensIssued(s) && NoneRanEarly(s) }

  lemma WorkerStepKeepsTokens(s: Sys, step: Step)
    requires RowInv(s) && TokensIssued(s)
    requires ByWorker(step)
    ensures TokensIssued(Take(s, step))
  {
  }

  lemma OtherStepKeepsTokens(s: Sys, step: Step)
    requires RowInv(s) && TokensIssued(s)
    requires !ByWorker(step)
    ensures TokensIssued(Take(s, step))
  {
  }

  lemma StepKeepsTokens(s: Sys, step: Step)
    requires RowInv(s) && TokensIssued(s)
    ensures TokensIssued(Take(s, step))
  {
    if ByWorker(step) {
      WorkerStepKeepsTokens(s, step);
    } else {
      OtherStepKeepsTokens(s, step);
    }
  }

  lemma WorkerStepRunsNoneEarly(s: Sys, step: Step)
    requires NoneRanEarly(s) && ByWorker(step)
    ensures NoneRanEarly(Take(s, step))
  {
    OtherWorkersStay(s, step);
    assert Enabled(s, step) ==> !(s.workers[step.w].pc in {Won, Snapped, Bound, EventClear} && s.workers[step.w].ran);
  }

  lemma OtherStepRunsNoneEarly(s: Sys, step: Step)
    requires NoneRanEarly(s) && !ByWorker(step)
    ensures NoneRanEarly(Take(s, step))
  {
  }

  lemma StepRunsNoneEarly(s: Sys, step: Step)
    requires NoneRanEarly(s)
    ensures NoneRanEarly(Take(s, step))
  {
    if ByWorker(step) {
      WorkerStepRunsNoneEarly(s, step);
    } else {
      OtherStepRunsNoneEarly(s, step);
    }
  }

  lemma {:induction false} WorkersInvHolds(s: Sys, run: seq<Step>)
    requires RowInv(s) && WorkersInv(s)
    ensures RowInv(Exec(s, run)) && WorkersInv(Exec(s, run))
    decreases |run|
  {
    if run != [] {
      StepKeepsRow(s, run[0]);
      StepKeepsTokens(s, run[0]);
      StepRunsNoneEarly(s, run[0]);
      WorkersInvHolds(Take(s, run[0]), run[1..]);
    }
  }

  /** A stop whose mark-dropping comes after the worker re-read its tokened row and
      before its start check makes that worker run nothing, whatever came before
      and whatever follows. */
  lemma {:induction false} StopBeforeStartRunsNothing(s0: Sys, before: seq<Step>, k: nat, w: nat, after: seq<Step>)
    requires Initial(s0) && !s0.kind.Ticket?
    requires BeforeStart(Exec(s0, before), w) && Exec(s0, before).workers[w].token.Some?
    requires StopAt(Exec(s0, before), k, Killed)
    ensures var s := Exec(Take(Exec(s0, before), DropMark(k)), after);
            w < |s.workers| && !s.workers[w].ran
  {
    WorkersInvHolds(s0, before);
    KindIsKept(s0, before);
    DoomedForGood(Take(Exec(s0, before), DropMark(k)), after, w);
  }

  lemma {:induction false} KindIsKept(s: Sys, run: seq<Step>)
    ensures Exec(s, run).kind == s.kind
    decreases |run|
  {
    if run != [] {
      KindIsKept(Take(s, run[0]), run[1..]);
    }
  }

  // ---------- The start check, and the stop it misses ----------

  /** Not the worker's own step, nor the death of its process. */
  predicate Elsewhere(step: Step, w: nat, proc: int) {
    !(ByWorker(step) && step.w == w) && step != Crash(proc)
  }

  lemma StepLeavesWorker(s: Sys, step: Step, w: nat)
    requires w < |s.workers| && Elsewhere(step, w, s.workers[w].proc)
    ensures w < |Take(s, step).workers| && Take(s, step).workers[w] == s.workers[w]
  {
    if ByWorker(step) {
      OtherWorkersStay(s, step);
    }
  }

  lemma {:induction false} RunLeavesWorker(s: Sys, run: seq<Step>, w: nat)
    requires w < |s.workers| && forall i :: 0 <= i < |run| ==> Elsewhere(run[i], w, s.workers[w].proc)
    ensures w < |Exec(s, run).workers| && Exec(s, run).workers[w] == s.workers[w]
    decreases |run|
  {
    if run != [] {
      StepLeavesWorker(s, run[0], w);
      RunLeavesWorker(Take(s, run[0]), run[1..], w);
    }
  }

  /** Bind, with `p` the worker's process: a busy agent's slot is skipped. */
  lemma BindLeads(s: Sys, w: nat)
    requires At(s, w, Snapped) && !s.kind.Ticket?
    ensures var s', a := Take(s, Bind(w)), s.workers[w];
            && s'.kind == s.kind && w < |s'.workers|
            && s'.workers[w] == if s.kind.Agent? && a.proc in s.agents then a.(pc := Popped)
                                else a.(pc := Bound, ev := EventOf(s, a.proc))
  {
  }

  lemma EventLeads(s: Sys, w: nat)
    requires At(s, w, Bound)
    ensures var s', a := Take(s, CheckEvent(w)), s.workers[w];
            && s'.kind == s.kind && w < |s'.workers|
            && s'.workers[w] == a.(pc := if a.ev in s.raised then Leaving else EventClear)
  {
  }

  lemma ClaimLeads(s: Sys, w: nat)
    requires At(s, w, EventClear)
    ensures var s', a := Take(s, CheckClaim(w)), s.workers[w];
            && w < |s'.workers|
            && s'.workers[w].ran == (a.ran || StillHeld(s.row, a.token))
  {
  }

  /** The start check, whatever other threads do between its parts: a worker runs if and
      only if its process was free when it bound its event, that event was clear when it
      looked, and its claim was held when it checked, which no token means it is. */
  lemma {:induction false} StartCheck(s: Sys, w: nat, between: seq<Step>, later: seq<Step>)
    requires At(s, w, Snapped) && !s.workers[w].ran && !s.kind.Ticket?
    requires forall i :: 0 <= i < |between| ==> Elsewhere(between[i], w, s.workers[w].proc)
    requires forall i :: 0 <= i < |later| ==> Elsewhere(later[i], w, s.workers[w].proc)
    ensures var p, atEvent := s.workers[w].proc, Exec(Take(s, Bind(w)), between);
            var atClaim := Exec(Take(atEvent, CheckEvent(w)), later);
            var s' := Take(atClaim, CheckClaim(w));
            && w < |s'.workers|
            && s'.workers[w].ran == (!(s.kind.Agent? && p in s.agents) && EventOf(s, p) !in atEvent.raised
                                     && StillHeld(atClaim.row, s.workers[w].token))
  {
    var bound := Take(s, Bind(w));
    var atEvent := Exec(bound, between);
    BindLeads(s, w);
    RunLeavesWorker(bound, between, w);
    CheckLeads(atEvent, w, later);
  }

  lemma {:induction false} CheckLeads(s: Sys, w: nat, later: seq<Step>)
    requires (At(s, w, Bound) || At(s, w, Popped)) && !s.workers[w].ran
    requires forall i :: 0 <= i < |later| ==> Elsewhere(later[i], w, s.workers[w].proc)
    ensures var atClaim := Exec(Take(s, CheckEvent(w)), later);
            var s' := Take(atClaim, CheckClaim(w));
            && w < |s'.workers|
            && s'.workers[w].ran == (s.workers[w].pc.Bound? && s.workers[w].ev !in s.raised
                                     && StillHeld(atClaim.row, s.workers[w].token))
  {
    var looked := Take(s, CheckEvent(w));
    if At(s, w, Bound) {
      EventLeads(s, w);
    }
    RunLeavesWorker(looked, later, w);
    var atClaim := Exec(looked, later);
    if At(atClaim, w, EventClear) {
      ClaimLeads(atClaim, w);
    }
  }

  /** A claimer has no token before it re-reads its row. */
  predicate WonHaveNone(s: Sys) { forall w :: 0 <= w < |s.workers| && s.workers[w].pc.Won? ==> s.workers[w].token.None? }

  lemma WorkerStepKeepsWon(s: Sys, step: Step)
    requires WonHaveNone(s) && ByWorker(step)
    ensures WonHaveNone(Take(s, step))
  {
    OtherWorkersStay(s, step);
  }

  lemma OtherStepKeepsWon(s: Sys, step: Step)
    requires WonHaveNone(s) && !ByWorker(step)
    ensures WonHaveNone(Take(s, step))
  {
  }

  lemma {:induction false} WonHaveNoneHolds(s: Sys, run: seq<Step>)
    requires WonHaveNone(s)
    ensures WonHaveNone(Exec(s, run))
    decreases |run|
  {
    if run != [] {
      if ByWorker(run[0]) {
        WorkerStepKeepsWon(s, run[0]);
      } else {
        OtherStepKeepsWon(s, run[0]);
      }
      WonHaveNoneHolds(Take(s, run[0]), run[1..]);
    }
  }

  /** Neither the row nor the worker has a token. */
  predicate NoTokens(s: Sys, w: nat) {
    w < |s.workers| && s.workers[w].token.None? && s.row.Some? && s.row.value.token.None?
  }

  lemma WorkerStepKeepsNone(s: Sys, step: Step, w: nat)
    requires NoTokens(s, w) && ByWorker(step)
    ensures NoTokens(Take(s, step), w)
  {
    OtherWorkersStay(s, step);
    WorkersRarelyWrite(s, step);
  }

  lemma OtherStepKeepsNone(s: Sys, step: Step, w: nat)
    requires NoTokens(s, w) && !ByWorker(step) && !step.Claim?
    ensures Take(s, step).row.None? || NoTokens(Take(s, step), w)
  {
  }

  lemma {:induction false} ClosedForGood(s: Sys, run: seq<Step>)
    requires s.row.None?
    ensures Exec(s, run).row.None?
    decreases |run|
  {
    if run != [] {
      if ByWorker(run[0]) {
        WorkerStepKeepsClosed(s, run[0]);
      }
      ClosedForGood(Take(s, run[0]), run[1..]);
    }
  }

  lemma WorkerStepKeepsClosed(s: Sys, step: Step)
    requires s.row.None? && ByWorker(step)
    ensures Take(s, step).row.None?
  {
    WorkersRarelyWrite(s, step);
  }

  /** With no new claim, a row that is still there gives out no token. */
  lemma {:induction false} NoTokenComes(s: Sys, run: seq<Step>, w: nat)
    requires NoTokens(s, w) && forall i :: 0 <= i < |run| ==> !run[i].Claim?
    ensures Exec(s, run).row.None? || NoTokens(Exec(s, run), w)
    decreases |run|
  {
    if run != [] {
      if ByWorker(run[0]) {
        WorkerStepKeepsNone(s, run[0], w);
      } else {
        OtherStepKeepsNone(s, run[0], w);
      }
      if Take(s, run[0]).row.None? {
        ClosedForGood(Take(s, run[0]), run[1..]);
      } else {
        NoTokenComes(Take(s, run[0]), run[1..], w);
      }
    }
  }

  predicate NotStarted(s: Sys, w: nat) { At(s, w, Won) || BeforeStart(s, w) }

  /** After a stop has dropped the mark, a worker that had not started by then passes its
      start check if and only if it has no token, or it re-read its row after the stop and
      holds the claim it found there. */
  lemma {:induction false} StopIsMissedIff(s0: Sys, before: seq<Step>, k: nat, w: nat, between: seq<Step>)
    requires Initial(s0) && !s0.kind.Ticket?
    requires StopAt(Exec(s0, before), k, Killed) && NotStarted(Exec(s0, before), w)
    requires At(Exec(Take(Exec(s0, before), DropMark(k)), between), w, EventClear)
    ensures var d := Exec(s0, before);
            var c := Exec(Take(d, DropMark(k)), between);
            var s' := Take(c, CheckClaim(w));
            && w < |s'.workers|
            && (s'.workers[w].ran
                <==> c.workers[w].token.None? || (d.workers[w].pc.Won? && StillHeld(c.row, c.workers[w].token)))
  {
    var d := Exec(s0, before);
    var s := Take(d, DropMark(k));
    var c := Exec(s, between);
    WorkersInvHolds(s0, before);
    DroppingKeeps(d, k);
    WorkersInvHolds(s, between);
    ClaimLeads(c, w);
    if !d.workers[w].pc.Won? {
      SnapshotIsKept(s, between, w);
      if d.workers[w].token.Some? {
        SupersededForGood(s, between, d.workers[w].token.value);
      }
    }
  }

  lemma DroppingKeeps(d: Sys, k: nat)
    requires RowInv(d) && WorkersInv(d) && StopAt(d, k, Killed)
    ensures var s := Take(d, DropMark(k));
            && RowInv(s) && WorkersInv(s) && s.workers == d.workers && s.claims == d.claims
            && (s.row.Some? <==> d.row.Some?) && (s.row.Some? ==> s.row.value.token.None?)
  {
  }

  /** With no new claim in between and the row still there, the stop is missed if and only
      if, when it dropped the mark, the worker had no token: it had not yet re-read its
      row, or had found none there. */
  lemma {:induction false} StopIsMissedIffTokenless(s0: Sys, before: seq<Step>, k: nat, w: nat, between: seq<Step>)
    requires Initial(s0) && !s0.kind.Ticket?
    requires StopAt(Exec(s0, before), k, Killed) && NotStarted(Exec(s0, before), w)
    requires At(Exec(Take(Exec(s0, before), DropMark(k)), between), w, EventClear)
    requires Exec(Take(Exec(s0, before), DropMark(k)), between).row.Some?
    requires forall i :: 0 <= i < |between| ==> !between[i].Claim?
    ensures var d := Exec(s0, before);
            var s' := Take(Exec(Take(d, DropMark(k)), between), CheckClaim(w));
            && w < |s'.workers|
            && (s'.workers[w].ran <==> d.workers[w].token.None?)
            && (d.workers[w].pc.Won? ==> d.workers[w].token.None?)
  {
    var d := Exec(s0, before);
    var s := Take(d, DropMark(k));
    StopIsMissedIff(s0, before, k, w, between);
    WorkersInvHolds(s0, before);
    WonHaveNoneHolds(s0, before);
    DroppingKeeps(d, k);
    if d.workers[w].token.None? {
      if s.row.None? {
        ClosedForGood(s, between);
      }
      NoTokenComes(s, between, w);
    } else {
      SnapshotIsKept(s, between, w);
    }
  }

  // ---------- One agent worker per process ----------

  predicate Active(w: Worker) { w.pc in {Bound, EventClear, Started, Leaving} }

  /** An active worker's process is marked, and publishes that worker's event. */
  predicate Published(s: Sys) {
    forall w :: 0 <= w < |s.workers| && Active(s.workers[w]) ==>
      var p := s.workers[w].proc;
      p in s.agents && p in s.stop && s.stop[p] == s.workers[w].ev
  }

  predicate OnePerProcess(s: Sys) {
    forall v, w :: 0 <= v < w < |s.workers| && Active(s.workers[v]) && Active(s.workers[w]) ==>
      s.workers[v].proc != s.workers[w].proc
  }

  predicate AgentInv(s: Sys) { Published(s) && OnePerProcess(s) }

  lemma WorkerStepKeepsPublished(s: Sys, step: Step)
    requires s.kind.Agent? && AgentInv(s)
    requires ByWorker(step)
    ensures Published(Take(s, step))
  {
  }

  lemma OtherStepKeepsPublished(s: Sys, step: Step)
    requires s.kind.Agent? && AgentInv(s)
    requires !ByWorker(step)
    ensures Published(Take(s, step))
  {
  }

  lemma StepKeepsPublished(s: Sys, step: Step)
    requires s.kind.Agent? && AgentInv(s)
    ensures Published(Take(s, step))
  {
    if ByWorker(step) {
      WorkerStepKeepsPublished(s, step);
    } else {
      OtherStepKeepsPublished(s, step);
    }
  }

  lemma WorkerStepKeepsOnePerProcess(s: Sys, step: Step)
    requires s.kind.Agent? && AgentInv(s)
    requires ByWorker(step)
    ensures OnePerProcess(Take(s, step))
  {
    OtherWorkersStay(s, step);
    if Enabled(s, step) && !step.Bind? {
      FewerActive(s, step);
    }
  }

  /** Only by binding does a worker become active. */
  lemma FewerActive(s: Sys, step: Step)
    requires s.kind.Agent? && ByWorker(step) && !step.Bind? && Enabled(s, step)
    ensures var a, b := s.workers[step.w], Take(s, step).workers[step.w];
            b.proc == a.proc && (Active(b) ==> Active(a))
  {
  }

  lemma OtherStepKeepsOnePerProcess(s: Sys, step: Step)
    requires s.kind.Agent? && AgentInv(s)
    requires !ByWorker(step)
    ensures OnePerProcess(Take(s, step))
  {
  }

  lemma StepKeepsOnePerProcess(s: Sys, step: Step)
    requires s.kind.Agent? && AgentInv(s)
    ensures OnePerProcess(Take(s, step))
  {
    if ByWorker(step) {
      WorkerStepKeepsOnePerProcess(s, step);
    } else {
      OtherStepKeepsOnePerProcess(s, step);
    }
  }

  lemma {:induction false} OneAgentPerProcess(s: Sys, run: seq<Step>)
    requires s.kind.Agent? && AgentInv(s)
    ensures AgentInv(Exec(s, run))
    decreases |run|
  {
    if run != [] {
      StepKeepsPublished(s, run[0]);
      StepKeepsOnePerProcess(s, run[0]);
      KindIsKept(s, [run[0]]);
      OneAgentPerProcess(Take(s, run[0]), run[1..]);
    }
  }

  predicate Signals(s: Sys, k: nat, ev: nat) {
    k < |s.stoppers| && (ev in s.raised || (s.stoppers[k].pc.Looked? && s.stoppers[k].ev == Some(ev))
                         || s.stoppers[k].pc.Finished?)
  }

  lemma StopperStepKeepsSignals(s: Sys, step: Step, k: nat, ev: nat)
    requires Signals(s, k, ev) && ByStopper(step)
    ensures Signals(Take(s, step), k, ev)
  {
  }

  lemma OtherStepKeepsSignals(s: Sys, step: Step, k: nat, ev: nat)
    requires Signals(s, k, ev) && !ByStopper(step) && !ByWorker(step)
    ensures Signals(Take(s, step), k, ev)
  {
  }

  lemma WorkerStepKeepsSignals(s: Sys, step: Step, k: nat, ev: nat)
    requires Signals(s, k, ev) && ByWorker(step)
    ensures Signals(Take(s, step), k, ev)
  {
  }

  lemma {:induction false} SignalArrives(s: Sys, run: seq<Step>, k: nat, ev: nat)
    requires Signals(s, k, ev)
    ensures Signals(Exec(s, run), k, ev)
    decreases |run|
  {
    if run != [] {
      if ByStopper(run[0]) {
        StopperStepKeepsSignals(s, run[0], k, ev);
      } else if ByWorker(run[0]) {
        WorkerStepKeepsSignals(s, run[0], k, ev);
      } else {
        OtherStepKeepsSignals(s, run[0], k, ev);
      }
      SignalArrives(Take(s, run[0]), run[1..], k, ev);
    }
  }

  /** A stop that looks while an agent worker of its process is active raises that
      worker's own event: it is raised by the time the stop sends its kills. */
  lemma {:induction false} StopReachesTheAgent(s0: Sys, before: seq<Step>, k: nat, w: nat, after: seq<Step>)
    requires Initial(s0) && s0.kind.Agent?
    requires var s := Exec(s0, before);
             && w < |s.workers| && Active(s.workers[w])
             && StopAt(s, k, Asked) && s.stoppers[k].proc == s.workers[w].proc
    ensures var s := Exec(s0, before); var s' := Exec(Take(s, Look(k)), after);
            k < |s'.stoppers| && (s'.stoppers[k].pc in {Signalled, Killed} ==> s.workers[w].ev in s'.raised)
  {
    OneAgentPerProcess(s0, before);
    SignalArrives(Take(Exec(s0, before), Look(k)), after, k, Exec(s0, before).workers[w].ev);
  }

  // ---------- Killing a script ----------

  /** Raised before the script's own look, or already killed, or never launched, or its
      process died. */
  predicate KillPending(s: Sys, w: nat) {
    && w < |s.workers| && s.workers[w].ev in s.raised
    && (s.workers[w].pc in {Started, Registered, Done} || s.workers[w].pid in s.killed
        || (s.workers[w].pc in {Leaving, Popped} && s.workers[w].pid == 0))
  }

  lemma LaunchKeepsKillPending(s: Sys, step: Step, w: nat)
    requires KillPending(s, w) && s.kind.Script?
    requires s.workers[w].pc in {Started, Registered, Watched, Leaving, Popped, Done}
    requires (step.Register? || step.WritePid? || step.OnStart?) && step.w == w
    ensures KillPending(Take(s, step), w)
    ensures Take(s, step).workers[w].pc in {Started, Registered, Watched, Leaving, Popped, Done}
  {
  }

  lemma OwnStepKeepsKillPending(s: Sys, step: Step, w: nat)
    requires KillPending(s, w) && s.kind.Script?
    requires s.workers[w].pc in {Started, Registered, Watched, Leaving, Popped, Done}
    requires ByWorker(step) && step.w == w && !step.Register? && !step.WritePid? && !step.OnStart?
    ensures KillPending(Take(s, step), w)
    ensures Take(s, step).workers[w].pc in {Started, Registered, Watched, Leaving, Popped, Done}
  {
  }

  lemma WorkerStepKeepsKillPending(s: Sys, step: Step, w: nat)
    requires KillPending(s, w) && s.kind.Script?
    requires s.workers[w].pc in {Started, Registered, Watched, Leaving, Popped, Done}
    requires ByWorker(step)
    ensures KillPending(Take(s, step), w)
    ensures Take(s, step).workers[w].pc in {Started, Registered, Watched, Leaving, Popped, Done}
  {
    OtherWorkersStay(s, step);
    if step.w == w {
      if step.Register? || step.WritePid? || step.OnStart? {
        LaunchKeepsKillPending(s, step, w);
      } else {
        OwnStepKeepsKillPending(s, step, w);
      }
    }
  }

  lemma StopperStepKeepsKillPending(s: Sys, step: Step, w: nat)
    requires KillPending(s, w) && s.kind.Script?
    requires s.workers[w].pc in {Started, Registered, Watched, Leaving, Popped, Done}
    requires ByStopper(step)
    ensures KillPending(Take(s, step), w)
    ensures Take(s, step).workers[w].pc in {Started, Registered, Watched, Leaving, Popped, Done}
  {
  }

  lemma OtherStepKeepsKillPending(s: Sys, step: Step, w: nat)
    requires KillPending(s, w) && s.kind.Script?
    requires s.workers[w].pc in {Started, Registered, Watched, Leaving, Popped, Done}
    requires !ByWorker(step) && !ByStopper(step)
    ensures KillPending(Take(s, step), w)
    ensures Take(s, step).workers[w].pc in {Started, Registered, Watched, Leaving, Popped, Done}
  {
  }

  lemma StepKeepsKillPending(s: Sys, step: Step, w: nat)
    requires KillPending(s, w) && s.kind.Script?
    requires s.workers[w].pc in {Started, Registered, Watched, Leaving, Popped, Done}
    ensures KillPending(Take(s, step), w)
    ensures Take(s, step).workers[w].pc in {Started, Registered, Watched, Leaving, Popped, Done}
  {
    if ByWorker(step) {
      WorkerStepKeepsKillPending(s, step, w);
    } else if ByStopper(step) {
      StopperStepKeepsKillPending(s, step, w);
    } else {
      OtherStepKeepsKillPending(s, step, w);
    }
  }

  lemma {:induction false} RaisedScriptIsKilled(s: Sys, run: seq<Step>, w: nat)
    requires KillPending(s, w) && s.kind.Script?
    requires s.workers[w].pc in {Started, Registered, Watched, Leaving, Popped, Done}
    ensures KillPending(Exec(s, run), w)
    decreases |run|
  {
    if run != [] {
      StepKeepsKillPending(s, run[0], w);
      KindIsKept(s, [run[0]]);
      RaisedScriptIsKilled(Take(s, run[0]), run[1..], w);
    }
  }

  /** A script whose stop event is set before its own look at it is killed by the
      time that look is over. */
  lemma {:induction false} StoppedScriptIsKilled(s: Sys, run: seq<Step>, w: nat)
    requires s.kind.Script? && (At(s, w, Started) || At(s, w, Registered)) && s.workers[w].ev in s.raised
    ensures At(Exec(s, run), w, Watched) ==> Exec(s, run).workers[w].pid in Exec(s, run).killed
  {
    RaisedScriptIsKilled(s, run, w);
  }
}
