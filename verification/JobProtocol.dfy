/** Every interleaving of claims, restarts, stops, closes and crashes around one
    job, over any number of processes. A step is what one thread does atomically:
    a store transaction, a locked block, or one event operation. Jobs share
    nothing with each other, so one row is enough. */
module JobProtocol {

  import opened Wrappers
  import opened Jobs

  /** Where a dispatched run is.
      Won: holds a won claim or retry. Snapped: has re-read the row. Bound: has
      bound its stop event; its thread runs. EventClear: saw the event clear.
      Started: the work runs. Registered: its script's pid is published.
      Watched: past the script's own look at the event. Leaving: over, or turned
      away. Popped: left the process's tables. */
  datatype Pc = Won | Snapped | Bound | EventClear | Started | Registered | Watched | Leaving | Popped | Done

  datatype Worker = Worker(
    proc: int, pc: Pc, token: Option<Token>, ev: nat, pid: int,
    ran: bool, sawSet: bool)

  datatype StopPc = Asked | Looked | Signalled | Killed | Finished

  /** `ev` and `pids` are what its look found; `sent` once it has killed those pids. */
  datatype Stopper = Stopper(proc: int, pc: StopPc, ev: Option<nat>, pids: set<int>, sent: bool)

  datatype Sys = Sys(
    kind: Kind,
    row: Option<Job>,
    claims: nat,            // claims won; the next one's token
    retried: seq<Token>,    // the claims a bump was won for, in order
    workers: seq<Worker>,
    stoppers: seq<Stopper>,
    stop: map<int, nat>,    // process -> the published stop event
    events: nat,            // events made so far
    raised: set<nat>,       // events that are set
    procs: map<int, set<int>>,  // process -> published script pids
    agents: set<int>,       // processes whose agent worker is running
    killed: set<int>,       // pids sent a kill
    swept: set<int>)        // those among them a restarted process sent it to

  datatype Step =
    | Claim(proc: int, expected: Time, now: Time, slot: Time)
    | Retry(proc: int, expected: int)
    | Reattach(proc: int, expected: int, pid: int)
    | WatchEnd(proc: int, token: Option<Token>)
    | Sweep(pid: int)
    | Release
    | Reread(w: nat, stale: Option<Token>)
    | Bind(w: nat)
    | CheckEvent(w: nat)
    | CheckClaim(w: nat)
    | LaunchFail(w: nat)
    | Register(w: nat, pid: int)
    | WritePid(w: nat)
    | OnStart(w: nat)
    | Record(w: nat, lastError: Option<string>)
    | Complain(w: nat, lastError: Option<string>)
    | End(w: nat)
    | Pop(w: nat)
    | Clear(w: nat)
    | AskStop(proc: int)
    | Look(k: nat)
    | Raise(k: nat)
    | Kill(k: nat)
    | DropMark(k: nat)
    | Crash(proc: int)
    | Close
    | Edit(enabled: bool, slot: Time)

  function NewWorker(proc: int): Worker { Worker(proc, Won, None, 0, 0, false, false) }

  predicate At(s: Sys, w: nat, pc: Pc) { w < |s.workers| && s.workers[w].pc == pc }

  predicate StopAt(s: Sys, k: nat, pc: StopPc) { k < |s.stoppers| && s.stoppers[k].pc == pc }

  function Move(s: Sys, w: nat, pc: Pc): Sys
    requires w < |s.workers|
  {
    s.(workers := s.workers[w := s.workers[w].(pc := pc)])
  }

  predicate Enabled(s: Sys, step: Step) {
    match step
    case Claim(_, expected, _, _) => s.row.Some? && s.row.value.nextRun == expected
    case Retry(_, expected) => expected <= 1 && s.row.Some? && Bumps(s.row.value, expected)
    case Reattach(_, expected, _) => s.kind.Script? && expected <= 1 && s.row.Some? && Bumps(s.row.value, expected)
    case WatchEnd(_, _) => s.kind.Script?
    case Sweep(_) => s.kind.Script?
    case Release => s.row.Some? && Releases(s.row.value)
    case Reread(w, stale) => At(s, w, Won) && (stale.Some? ==> stale.value < s.claims)
    case Bind(w) => At(s, w, Snapped)
    case CheckEvent(w) => At(s, w, Bound)
    case CheckClaim(w) => At(s, w, EventClear)
    case LaunchFail(w) => s.kind.Script? && At(s, w, Started)
    case Register(w, _) => s.kind.Script? && At(s, w, Started)
    case WritePid(w) => At(s, w, Registered) && s.row.Some?
    case OnStart(w) => At(s, w, Registered)
    case Record(w, _) => w < |s.workers| && s.workers[w].ran && s.row.Some?
    case Complain(w, _) => !s.kind.Script? && At(s, w, Popped) && s.row.Some?
    case End(w) => At(s, w, if s.kind.Script? then Watched else Started)
    case Pop(w) => At(s, w, Leaving)
    case Clear(w) => At(s, w, Popped)
    case AskStop(_) => true
    case Look(k) => StopAt(s, k, Asked)
    case Raise(k) => StopAt(s, k, Looked)
    case Kill(k) => StopAt(s, k, Signalled)
    case DropMark(k) => StopAt(s, k, Killed)
    case Crash(_) => true
    case Close => s.row.Some?
    case Edit(_, _) => s.row.Some?
  }

  /** The process's published event, made on first use. */
  function EventOf(s: Sys, proc: int): nat { if proc in s.stop then s.stop[proc] else s.events }

  /** The pids the process publishes. */
  function Pids(s: Sys, proc: int): set<int> { if proc in s.procs then s.procs[proc] else {} }

  function Apply(s: Sys, step: Step): Sys
    requires Enabled(s, step)
  {
    match step
    // fire: the compare-and-swap won. (A lost one writes nothing.)
    case Claim(proc, _, now, slot) =>
      s.(row := Some(Claimed(s.row.value, now, slot, None, s.claims)),
         claims := s.claims + 1, workers := s.workers + [NewWorker(proc)])
    // resume_inflight: a bump won, then a dispatch, or a watch on a live script.
    case Retry(proc, expected) =>
      s.(row := Some(Bumped(s.row.value, expected)), retried := s.retried + [s.row.value.token.GetOr(0)],
         workers := s.workers + [NewWorker(proc)])
    case Reattach(proc, expected, pid) =>
      s.(row := Some(Bumped(s.row.value, expected)), retried := s.retried + [s.row.value.token.GetOr(0)],
         stop := s.stop[proc := EventOf(s, proc)], events := if proc in s.stop then s.events else s.events + 1,
         procs := s.procs[proc := Pids(s, proc) + {pid}])
    case WatchEnd(proc, token) =>
      s.(row := if s.row.Some? then Some(Cleared(s.row.value, token)) else None,
         stop := s.stop - {proc}, procs := s.procs - {proc})
    // resume_inflight and the watch kill a script that an earlier process left.
    case Sweep(pid) => s.(killed := s.killed + {pid}, swept := s.swept + {pid})
    case Release => s.(row := Some(Released(s.row.value, Some("already retried"))))
    // store.get(id) or job: a deleted row leaves the firer its older snapshot.
    case Reread(w, stale) =>
      var token := if s.row.Some? then s.row.value.token else stale;
      s.(workers := s.workers[w := s.workers[w].(pc := Snapped, token := token)])
    case Bind(w) =>
      var p := s.workers[w].proc;
      if s.kind.Ticket? then
        // A ticket job files its ticket at once and checks nothing.
        s.(workers := s.workers[w := s.workers[w].(pc := Popped, ran := true)])
      else if s.kind.Agent? && p in s.agents then
        // The previous run is still going: this slot is skipped.
        Move(s, w, Popped)
      else
        s.(stop := s.stop[p := EventOf(s, p)], events := if p in s.stop then s.events else s.events + 1,
           agents := if s.kind.Agent? then s.agents + {p} else s.agents,
           workers := s.workers[w := s.workers[w].(pc := Bound, ev := EventOf(s, p))])
    case CheckEvent(w) => Move(s, w, if s.workers[w].ev in s.raised then Leaving else EventClear)
    case CheckClaim(w) =>
      if StillHeld(s.row, s.workers[w].token)
      then s.(workers := s.workers[w := s.workers[w].(pc := Started, ran := true)])
      else Move(s, w, Leaving)
    // run_script: no process came of it, so there is no pid.
    case LaunchFail(w) => s.(workers := s.workers[w := s.workers[w].(pc := Leaving, pid := 0)])
    case Register(w, pid) =>
      var p := s.workers[w].proc;
      s.(procs := s.procs[p := Pids(s, p) + {pid}],
         workers := s.workers[w := s.workers[w].(pc := Registered, pid := pid)])
    // The write that may follow _still_this_job; the look came earlier.
    case WritePid(w) => s.(row := Some(s.row.value.(pid := Some(s.workers[w].pid))))
    case OnStart(w) =>
      var set_ := s.workers[w].ev in s.raised;
      s.(workers := s.workers[w := s.workers[w].(pc := Watched, sawSet := set_)],
         killed := if set_ then s.killed + {s.workers[w].pid} else s.killed)
    // The conditional write of _record_last_error; its own look came earlier.
    case Record(w, lastError) => s.(row := Some(Recorded(s.row.value, s.workers[w].token, lastError)))
    // A refused ticket or a skipped run is written by id.
    case Complain(_, lastError) => s.(row := Some(s.row.value.(lastError := lastError)))
    case End(w) => Move(s, w, Leaving)
    case Pop(w) =>
      var p := s.workers[w].proc;
      Move(s, w, Popped).(stop := s.stop - {p}, agents := s.agents - {p},
                          procs := if s.workers[w].ran then s.procs - {p} else s.procs)
    case Clear(w) =>
      Move(s, w, Done).(row := if s.row.Some? then Some(Cleared(s.row.value, s.workers[w].token)) else None)
    // request_stop
    case AskStop(proc) => s.(stoppers := s.stoppers + [Stopper(proc, Asked, None, {}, false)])
    case Look(k) =>
      var p := s.stoppers[k].proc;
      s.(stoppers := s.stoppers[k := Stopper(p, Looked, if p in s.stop then Some(s.stop[p]) else None,
                                             Pids(s, p), false)])
    case Raise(k) =>
      s.(raised := if s.stoppers[k].ev.Some? then s.raised + {s.stoppers[k].ev.value} else s.raised,
         stoppers := s.stoppers[k := s.stoppers[k].(pc := Signalled)])
    case Kill(k) =>
      s.(killed := s.killed + s.stoppers[k].pids,
         stoppers := s.stoppers[k := s.stoppers[k].(pc := Killed, sent := true)])
    case DropMark(k) =>
      s.(row := if s.row.Some? then Some(Stopped(s.row.value)) else None,
         stoppers := s.stoppers[k := s.stoppers[k].(pc := Finished)])
    // A process dies: its threads stop where they are and its memory goes.
    case Crash(proc) =>
      s.(workers := seq(|s.workers|, i requires 0 <= i < |s.workers| =>
           if s.workers[i].proc == proc then s.workers[i].(pc := Done) else s.workers[i]),
         stoppers := seq(|s.stoppers|, i requires 0 <= i < |s.stoppers| =>
           if s.stoppers[i].proc == proc then s.stoppers[i].(pc := Finished) else s.stoppers[i]),
         stop := s.stop - {proc}, procs := s.procs - {proc}, agents := s.agents - {proc})
    case Close => s.(row := None)
    case Edit(enabled, slot) => s.(row := Some(s.row.value.(enabled := enabled, nextRun := slot)))
  }

  function Take(s: Sys, step: Step): Sys { if Enabled(s, step) then Apply(s, step) else s }

  function Exec(s: Sys, run: seq<Step>): Sys
    decreases |run|
  {
    if run == [] then s else Exec(Take(s, run[0]), run[1..])
  }

  lemma {:induction false} ExecSplit(s: Sys, a: seq<Step>, b: seq<Step>)
    ensures Exec(s, a + b) == Exec(Exec(s, a), b)
    decreases |a|
  {
    if a == [] {
      assert a + b == b;
    } else {
      assert (a + b)[1..] == a[1..] + b;
      ExecSplit(Take(s, a[0]), a[1..], b);
    }
  }

  lemma ExecOne(s: Sys, run: seq<Step>, step: Step)
    ensures Exec(s, run + [step]) == Take(Exec(s, run), step)
  {
    ExecSplit(s, run, [step]);
    assert [step][1..] == [];
    assert Exec(Take(Exec(s, run), step), []) == Take(Exec(s, run), step);
  }

  predicate Initial(s: Sys) {
    && (s.row.Some? ==> !s.row.value.running && s.row.value.token.None? && s.row.value.attempt == 0)
    && s.claims == 0 && s.retried == [] && s.workers == [] && s.stoppers == []
    && s.stop == map[] && s.raised == {} && s.procs == map[] && s.agents == {}
    && s.killed == {} && s.swept == {}
  }

  /** A step of a worker's own, after its dispatch. */
  predicate ByWorker(step: Step) {
    step.Reread? || step.Bind? || step.CheckEvent? || step.CheckClaim? || step.LaunchFail? || step.Register? || step.WritePid?
    || step.OnStart? || step.Record? || step.Complain? || step.End? || step.Pop? || step.Clear?
  }

  /** One of a worker's first steps, up to the running work. */
  predicate Arrives(step: Step) { step.Reread? || step.Bind? || step.CheckEvent? || step.CheckClaim? }

  predicate ByStopper(step: Step) { step.AskStop? || step.Look? || step.Raise? || step.Kill? || step.DropMark? }

  /** A worker's step leaves the other workers, and all stoppers, as they were. */
  lemma OtherWorkersStay(s: Sys, step: Step)
    requires ByWorker(step)
    ensures var s' := Take(s, step);
            && |s'.workers| == |s.workers| && s'.kind == s.kind && s'.stoppers == s.stoppers
            && forall w :: 0 <= w < |s.workers| && w != step.w ==> s'.workers[w] == s.workers[w]
  {
    if Arrives(step) {
      OthersStayWhileOneArrives(s, step);
    }
  }

  lemma OthersStayWhileOneArrives(s: Sys, step: Step)
    requires Arrives(step)
    ensures var s' := Take(s, step);
            && |s'.workers| == |s.workers| && s'.kind == s.kind && s'.stoppers == s.stoppers
            && forall w :: 0 <= w < |s.workers| && w != step.w ==> s'.workers[w] == s.workers[w]
  {
  }

  // ---------- The row ----------

  predicate RowInv(s: Sys) {
    s.row.Some? ==> Sound(s.row.value) && (s.row.value.token.Some? ==> s.row.value.token.value < s.claims)
  }

  /** A run in flight is on its first attempt exactly when its claim has not been
      retried, and no claim was retried twice. */
  predicate RetryInv(s: Sys) {
    && (forall t :: t in s.retried ==> t < s.claims)
    && (s.row.Some? && s.row.value.running ==>
          (s.row.value.attempt == 1 <==> s.row.value.token.GetOr(0) !in s.retried))
    && (forall i, j :: 0 <= i < j < |s.retried| ==> s.retried[i] != s.retried[j])
  }

  predicate OnFirstAttempt(s: Sys) { s.row.Some? && s.row.value.attempt == 1 }

  /** A claim pays for its dispatch and, while on its first attempt, for one retry. */
  predicate CountInv(s: Sys) {
    && |s.retried| + (if OnFirstAttempt(s) then 1 else 0) <= s.claims
    && |s.workers| <= s.claims + |s.retried|
  }

  predicate Inv(s: Sys) { RowInv(s) && RetryInv(s) && CountInv(s) }

  /** Only these of a worker's steps write the row, and none of them the claims or
      the retries. */
  lemma WorkersRarelyWrite(s: Sys, step: Step)
    requires ByWorker(step)
    ensures Take(s, step).claims == s.claims && Take(s, step).retried == s.retried
    ensures !(step.WritePid? || step.Record? || step.Complain? || step.Clear?) ==> Take(s, step).row == s.row
  {
  }

  lemma WorkerStepKeepsRow(s: Sys, step: Step)
    requires RowInv(s)
    requires ByWorker(step)
    ensures RowInv(Take(s, step))
  {
    WorkersRarelyWrite(s, step);
  }

  lemma OtherStepKeepsRow(s: Sys, step: Step)
    requires RowInv(s)
    requires !ByWorker(step)
    ensures RowInv(Take(s, step))
  {
  }

  lemma StepKeepsRow(s: Sys, step: Step)
    requires RowInv(s)
    ensures RowInv(Take(s, step))
  {
    if ByWorker(step) {
      WorkerStepKeepsRow(s, step);
    } else {
      OtherStepKeepsRow(s, step);
    }
  }

  lemma WorkerStepKeepsRetries(s: Sys, step: Step)
    requires RowInv(s) && RetryInv(s)
    requires ByWorker(step)
    ensures RetryInv(Take(s, step))
  {
    WorkersRarelyWrite(s, step);
  }

  lemma OtherStepKeepsRetries(s: Sys, step: Step)
    requires RowInv(s) && RetryInv(s)
    requires !ByWorker(step)
    ensures RetryInv(Take(s, step))
  {
  }

  lemma StepKeepsRetries(s: Sys, step: Step)
    requires RowInv(s) && RetryInv(s)
    ensures RetryInv(Take(s, step))
  {
    if ByWorker(step) {
      WorkerStepKeepsRetries(s, step);
    } else {
      OtherStepKeepsRetries(s, step);
    }
  }

  lemma WorkerStepKeepsCounts(s: Sys, step: Step)
    requires RowInv(s) && CountInv(s) && ByWorker(step)
    ensures CountInv(Take(s, step))
  {
    WorkersRarelyWrite(s, step);
  }

  lemma OtherStepKeepsCounts(s: Sys, step: Step)
    requires RowInv(s) && CountInv(s) && !ByWorker(step)
    ensures CountInv(Take(s, step))
  {
  }

  lemma StepKeepsCounts(s: Sys, step: Step)
    requires RowInv(s) && CountInv(s)
    ensures CountInv(Take(s, step))
  {
    if ByWorker(step) {
      WorkerStepKeepsCounts(s, step);
    } else {
      OtherStepKeepsCounts(s, step);
    }
  }

  lemma {:induction false} InvHolds(s: Sys, run: seq<Step>)
    requires Inv(s)
    ensures Inv(Exec(s, run))
    decreases |run|
  {
    if run != [] {
      StepKeepsRow(s, run[0]);
      StepKeepsRetries(s, run[0]);
      StepKeepsCounts(s, run[0]);
      InvHolds(Take(s, run[0]), run[1..]);
    }
  }

  /** Every reachable row is sound. */
  lemma {:induction false} ReachableRowsAreSound(s: Sys, run: seq<Step>)
    requires Initial(s)
    ensures Exec(s, run).row.Some? ==> Sound(Exec(s, run).row.value)
  {
    InvHolds(s, run);
  }

  /** A retry is won at most once per claim, of an issued token, and no more than
      twice as many runs are dispatched as claims were won. */
  lemma {:induction false} RetriedOnce(s: Sys, run: seq<Step>)
    requires Initial(s)
    ensures var s' := Exec(s, run);
            && (forall i, j :: 0 <= i < j < |s'.retried| ==> s'.retried[i] != s'.retried[j])
            && (forall t :: t in s'.retried ==> t < s'.claims)
            && |s'.workers| <= 2 * s'.claims
  {
    InvHolds(s, run);
  }

  /** Every run in flight is owed one retry: a process can win it exactly as long
      as the run's claim has not been retried, and give the run up from then on. */
  lemma {:induction false} RetryIsOwedIff(s: Sys, run: seq<Step>, proc: int, pid: int)
    requires Initial(s)
    ensures var s' := Exec(s, run);
            s'.row.Some? && s'.row.value.running ==>
              var row := s'.row.value;
              && row.token.Some?
              && (row.attempt == 1 <==> row.token.value !in s'.retried)
              && (Enabled(s', Retry(proc, row.attempt)) <==> row.token.value !in s'.retried)
              && (Enabled(s', Reattach(proc, row.attempt, pid)) <==> s'.kind.Script? && row.token.value !in s'.retried)
              && (Enabled(s', Release) <==> row.token.value in s'.retried)
  {
    InvHolds(s, run);
  }

  // ---------- Superseded claims ----------

  /** Issued, and no longer the row's. */
  predicate Superseded(s: Sys, t: Token) {
    t < s.claims && (s.row.Some? ==> s.row.value.token != Some(t))
  }

  lemma WorkerStepKeepsSuperseded(s: Sys, step: Step, t: Token)
    requires Superseded(s, t) && ByWorker(step)
    ensures Superseded(Take(s, step), t)
  {
  }

  lemma OtherStepKeepsSuperseded(s: Sys, step: Step, t: Token)
    requires Superseded(s, t) && !ByWorker(step)
    ensures Superseded(Take(s, step), t)
  {
  }

  lemma StepKeepsSuperseded(s: Sys, step: Step, t: Token)
    requires Superseded(s, t)
    ensures Superseded(Take(s, step), t)
  {
    if ByWorker(step) {
      WorkerStepKeepsSuperseded(s, step, t);
    } else {
      OtherStepKeepsSuperseded(s, step, t);
    }
  }

  lemma {:induction false} SupersededForGood(s: Sys, run: seq<Step>, t: Token)
    requires Superseded(s, t)
    ensures Superseded(Exec(s, run), t)
    decreases |run|
  {
    if run != [] {
      StepKeepsSuperseded(s, run[0], t);
      SupersededForGood(Take(s, run[0]), run[1..], t);
    }
  }

  /** Once it has its snapshot a worker keeps its process and token. */
  predicate Keeps(s: Sys, s': Sys, w: nat) {
    && w < |s.workers| <= |s'.workers| && !s'.workers[w].pc.Won?
    && s'.workers[w].token == s.workers[w].token && s'.workers[w].proc == s.workers[w].proc
  }

  lemma EarlyStepKeepsSnapshot(s: Sys, step: Step, w: nat)
    requires w < |s.workers| && !s.workers[w].pc.Won?
    requires Arrives(step) && step.w == w
    ensures Keeps(s, Take(s, step), w)
  {
  }

  lemma LateStepKeepsSnapshot(s: Sys, step: Step, w: nat)
    requires w < |s.workers| && !s.workers[w].pc.Won?
    requires ByWorker(step) && !Arrives(step) && step.w == w
    ensures Keeps(s, Take(s, step), w)
  {
  }

  lemma WorkerStepKeepsSnapshot(s: Sys, step: Step, w: nat)
    requires w < |s.workers| && !s.workers[w].pc.Won?
    requires ByWorker(step)
    ensures Keeps(s, Take(s, step), w)
  {
    OtherWorkersStay(s, step);
    if step.w == w {
      if Arrives(step) {
        EarlyStepKeepsSnapshot(s, step, w);
      } else {
        LateStepKeepsSnapshot(s, step, w);
      }
    }
  }

  lemma OtherStepKeepsSnapshot(s: Sys, step: Step, w: nat)
    requires w < |s.workers| && !s.workers[w].pc.Won?
    requires !ByWorker(step)
    ensures Keeps(s, Take(s, step), w)
  {
  }

  lemma StepKeepsSnapshot(s: Sys, step: Step, w: nat)
    requires w < |s.workers| && !s.workers[w].pc.Won?
    ensures Keeps(s, Take(s, step), w)
  {
    if ByWorker(step) {
      WorkerStepKeepsSnapshot(s, step, w);
    } else {
      OtherStepKeepsSnapshot(s, step, w);
    }
  }

  lemma {:induction false} SnapshotIsKept(s: Sys, run: seq<Step>, w: nat)
    requires w < |s.workers| && !s.workers[w].pc.Won?
    ensures Keeps(s, Exec(s, run), w)
    decreases |run|
  {
    if run != [] {
      StepKeepsSnapshot(s, run[0], w);
      SnapshotIsKept(Take(s, run[0]), run[1..], w);
    }
  }

  /** A worker whose claim was superseded changes nothing through `clear_run` or
      `_record_last_error`, however much later it gets there. */
  lemma {:induction false} SupersededWritesNothing(s: Sys, run: seq<Step>, w: nat, lastError: Option<string>)
    requires w < |s.workers| && !s.workers[w].pc.Won? && s.workers[w].token.Some?
    requires Superseded(s, s.workers[w].token.value)
    ensures Take(Exec(s, run), Clear(w)).row == Exec(s, run).row
    ensures Take(Exec(s, run), Record(w, lastError)).row == Exec(s, run).row
  {
    SupersededForGood(s, run, s.workers[w].token.value);
    SnapshotIsKept(s, run, w);
  }
}
