/** Which scripts a stop kills: exactly the pids its look found, those that saw the event
    raised at their own look, and those a restart swept up; and what a look finds. */
module JobKills {

  import opened Wrappers
  import opened Jobs
  import opened JobProtocol
  import opened JobStops

  // ---------- Who killed a pid ----------

  predicate PastItsLook(w: Worker) { w.pc in {Watched, Leaving, Popped, Done} }

  predicate SentAt(s: Sys, k: nat, pid: int) { k < |s.stoppers| && s.stoppers[k].sent && pid in s.stoppers[k].pids }

  predicate SawAt(s: Sys, w: nat, pid: int) { w < |s.workers| && s.workers[w].sawSet && s.workers[w].pid == pid }

  /** A stop that found the pid sent its kills, or the script's own look saw the event
      raised, or a restarted process killed it. */
  predicate KilledBy(s: Sys, pid: int) {
    || pid in s.swept
    || (exists k :: 0 <= k < |s.stoppers| && SentAt(s, k, pid))
    || (exists w :: 0 <= w < |s.workers| && SawAt(s, w, pid))
  }

  predicate StoppersDid(s: Sys) {
    forall k :: 0 <= k < |s.stoppers| && s.stoppers[k].sent ==>
      s.stoppers[k].pc in {Killed, Finished} && s.stoppers[k].pids <= s.killed
  }

  predicate WorkersDid(s: Sys) {
    forall w :: 0 <= w < |s.workers| && s.workers[w].sawSet ==>
      PastItsLook(s.workers[w]) && s.workers[w].pid in s.killed
  }

  predicate Accounted(s: Sys) { s.swept <= s.killed && forall pid :: pid in s.killed ==> KilledBy(s, pid) }

  predicate KillInv(s: Sys) { StoppersDid(s) && WorkersDid(s) && Accounted(s) }

  /** No kill that was sent is taken back. */
  predicate Persists(s: Sys, s': Sys) {
    && |s.stoppers| <= |s'.stoppers| && |s.workers| <= |s'.workers| && s.swept <= s'.swept
    && (forall k :: 0 <= k < |s.stoppers| && s.stoppers[k].sent ==>
          s'.stoppers[k].sent && s'.stoppers[k].pids == s.stoppers[k].pids)
    && (forall w :: 0 <= w < |s.workers| && s.workers[w].sawSet ==>
          s'.workers[w].sawSet && s'.workers[w].pid == s.workers[w].pid)
  }

  lemma KilledByPersists(s: Sys, s': Sys, pid: int)
    requires Persists(s, s') && KilledBy(s, pid)
    ensures KilledBy(s', pid)
  {
    if pid !in s.swept {
      if k :| 0 <= k < |s.stoppers| && SentAt(s, k, pid) {
        assert SentAt(s', k, pid);
      } else {
        var w :| 0 <= w < |s.workers| && SawAt(s, w, pid);
        assert SawAt(s', w, pid);
      }
    }
  }

  /** Only these add to the killed. */
  predicate Kills(step: Step) { step.OnStart? || step.Kill? || step.Sweep? }

  lemma KillsAreRare(s: Sys, step: Step)
    requires !Kills(step)
    ensures Take(s, step).killed == s.killed && Take(s, step).swept == s.swept
  {
    if ByWorker(step) && !Arrives(step) {
      WorkersRarelyKill(s, step);
    }
  }

  lemma WorkersRarelyKill(s: Sys, step: Step)
    requires ByWorker(step) && !Arrives(step) && !Kills(step)
    ensures Take(s, step).killed == s.killed && Take(s, step).swept == s.swept
  {
  }

  lemma StoppersStay(s: Sys, step: Step)
    requires !ByStopper(step)
    ensures var s' := Take(s, step);
            && |s'.stoppers| == |s.stoppers|
            && forall k :: 0 <= k < |s.stoppers| ==>
                 && s'.stoppers[k].sent == s.stoppers[k].sent && s'.stoppers[k].pids == s.stoppers[k].pids
                 && s'.stoppers[k].ev == s.stoppers[k].ev && s'.stoppers[k].proc == s.stoppers[k].proc
                 && (s'.stoppers[k].pc == s.stoppers[k].pc || s'.stoppers[k].pc.Finished?)
  {
    if ByWorker(step) {
      OtherWorkersStay(s, step);
    }
  }

  lemma WorkersStay(s: Sys, step: Step)
    requires !ByWorker(step)
    ensures var s' := Take(s, step);
            && |s'.workers| >= |s.workers|
            && forall w :: 0 <= w < |s'.workers| ==>
                 if w < |s.workers| then s'.workers[w] == s.workers[w] || s'.workers[w] == s.workers[w].(pc := Done)
                 else !s'.workers[w].sawSet
  {
  }

  /** Past its look a worker keeps its pid and what it saw. */
  lemma OwnLookStays(s: Sys, step: Step)
    requires ByWorker(step) && !step.OnStart? && Enabled(s, step)
    ensures var a, b := s.workers[step.w], Take(s, step).workers[step.w];
            b.sawSet == a.sawSet && (PastItsLook(a) ==> PastItsLook(b) && b.pid == a.pid)
  {
    if Arrives(step) {
      OwnLookStaysEarly(s, step);
    }
  }

  lemma OwnLookStaysEarly(s: Sys, step: Step)
    requires Arrives(step) && Enabled(s, step)
    ensures var a, b := s.workers[step.w], Take(s, step).workers[step.w];
            !PastItsLook(a) && b.sawSet == a.sawSet
  {
  }

  lemma WorkerStepKeepsKills(s: Sys, step: Step)
    requires KillInv(s) && ByWorker(step) && !step.OnStart?
    ensures KillInv(Take(s, step))
  {
    if Enabled(s, step) {
      var s' := Take(s, step);
      KillsAreRare(s, step);
      OtherWorkersStay(s, step);
      OwnLookStays(s, step);
      SameKills(s, s');
    }
  }

  lemma SameKills(s: Sys, s': Sys)
    requires KillInv(s) && Persists(s, s') && s'.killed == s.killed && s'.swept == s.swept
    requires StoppersDid(s') && WorkersDid(s')
    ensures KillInv(s')
  {
    forall pid | pid in s'.killed ensures KilledBy(s', pid) {
      KilledByPersists(s, s', pid);
    }
  }

  lemma LookKeepsKills(s: Sys, w: nat)
    requires KillInv(s)
    ensures KillInv(Take(s, OnStart(w)))
  {
    if Enabled(s, OnStart(w)) {
      var s' := Take(s, OnStart(w));
      assert Persists(s, s');
      forall pid | pid in s'.killed ensures KilledBy(s', pid) {
        if pid in s.killed {
          KilledByPersists(s, s', pid);
        } else {
          assert SawAt(s', w, pid);
        }
      }
    }
  }

  lemma KillKeepsKills(s: Sys, k: nat)
    requires KillInv(s)
    ensures KillInv(Take(s, Kill(k)))
  {
    if Enabled(s, Kill(k)) {
      var s' := Take(s, Kill(k));
      assert Persists(s, s');
      forall pid | pid in s'.killed ensures KilledBy(s', pid) {
        if pid in s.killed {
          KilledByPersists(s, s', pid);
        } else {
          assert SentAt(s', k, pid);
        }
      }
    }
  }

  lemma SweepKeepsKills(s: Sys, pid: int)
    requires KillInv(s)
    ensures KillInv(Take(s, Sweep(pid)))
  {
    var s' := Take(s, Sweep(pid));
    forall other | other in s'.killed ensures KilledBy(s', other) {
      if other in s.killed {
        KilledByPersists(s, s', other);
      }
    }
  }

  lemma StopperStepKeepsKills(s: Sys, step: Step)
    requires KillInv(s) && ByStopper(step) && !step.Kill?
    ensures KillInv(Take(s, step))
  {
    KillsAreRare(s, step);
    StopperStepPersists(s, step);
    SameKills(s, Take(s, step));
  }

  lemma StopperStepPersists(s: Sys, step: Step)
    requires KillInv(s) && ByStopper(step) && !step.Kill?
    ensures var s' := Take(s, step); Persists(s, s') && StoppersDid(s') && WorkersDid(s')
  {
  }

  lemma OtherStepKeepsKills(s: Sys, step: Step)
    requires KillInv(s) && !ByWorker(step) && !ByStopper(step) && !step.Sweep?
    ensures KillInv(Take(s, step))
  {
    KillsAreRare(s, step);
    StoppersStay(s, step);
    WorkersStay(s, step);
    SameKills(s, Take(s, step));
  }

  lemma StepKeepsKills(s: Sys, step: Step)
    requires KillInv(s)
    ensures KillInv(Take(s, step))
  {
    match step {
      case OnStart(w) => LookKeepsKills(s, w);
      case Kill(k) => KillKeepsKills(s, k);
      case Sweep(pid) => SweepKeepsKills(s, pid);
      case _ =>
        if ByWorker(step) {
          WorkerStepKeepsKills(s, step);
        } else if ByStopper(step) {
          StopperStepKeepsKills(s, step);
        } else {
          OtherStepKeepsKills(s, step);
        }
    }
  }

  lemma {:induction false} KillInvHolds(s: Sys, run: seq<Step>)
    requires KillInv(s)
    ensures KillInv(Exec(s, run))
    decreases |run|
  {
    if run != [] {
      StepKeepsKills(s, run[0]);
      KillInvHolds(Take(s, run[0]), run[1..]);
    }
  }

  /** In every reachable state the killed pids are exactly those. */
  lemma {:induction false} KilledIff(s0: Sys, run: seq<Step>, pid: int)
    requires Initial(s0)
    ensures pid in Exec(s0, run).killed <==> KilledBy(Exec(s0, run), pid)
  {
    KillInvHolds(s0, run);
    var s := Exec(s0, run);
    if pid !in s.swept && KilledBy(s, pid) {
      if k :| 0 <= k < |s.stoppers| && SentAt(s, k, pid) {
      } else {
        var w :| 0 <= w < |s.workers| && SawAt(s, w, pid);
      }
    }
  }

  // ---------- What a look found, and what a script saw ----------

  /** The run taken apart at its step `i`. */
  lemma ExecAt(s: Sys, run: seq<Step>, i: nat)
    requires i < |run|
    ensures Exec(s, run) == Exec(Take(Exec(s, run[..i]), run[i]), run[i + 1..])
  {
    assert run == run[..i] + run[i..];
    ExecSplit(s, run[..i], run[i..]);
    assert run[i..][0] == run[i] && run[i..][1..] == run[i + 1..];
  }

  predicate Found(s: Sys, k: nat, pids: set<int>) {
    k < |s.stoppers| && !s.stoppers[k].pc.Asked? && s.stoppers[k].pids == pids
  }

  lemma StopperStepKeepsFound(s: Sys, step: Step, k: nat, pids: set<int>)
    requires Found(s, k, pids) && ByStopper(step)
    ensures Found(Take(s, step), k, pids)
  {
  }

  lemma {:induction false} FoundStays(s: Sys, run: seq<Step>, k: nat, pids: set<int>)
    requires Found(s, k, pids)
    ensures Found(Exec(s, run), k, pids)
    decreases |run|
  {
    if run != [] {
      if ByStopper(run[0]) {
        StopperStepKeepsFound(s, run[0], k, pids);
      } else {
        StoppersStay(s, run[0]);
      }
      FoundStays(Take(s, run[0]), run[1..], k, pids);
    }
  }

  predicate Looked(s: Sys, w: nat, pid: int, saw: bool) {
    w < |s.workers| && PastItsLook(s.workers[w]) && s.workers[w].pid == pid && s.workers[w].sawSet == saw
  }

  lemma StepKeepsLooked(s: Sys, step: Step, w: nat, pid: int, saw: bool)
    requires Looked(s, w, pid, saw)
    ensures Looked(Take(s, step), w, pid, saw)
  {
    if !ByWorker(step) {
      WorkersStay(s, step);
    } else if Enabled(s, step) {
      OtherWorkersStay(s, step);
      if !step.OnStart? {
        OwnLookStays(s, step);
      }
    }
  }

  lemma {:induction false} LookedStays(s: Sys, run: seq<Step>, w: nat, pid: int, saw: bool)
    requires Looked(s, w, pid, saw)
    ensures Looked(Exec(s, run), w, pid, saw)
    decreases |run|
  {
    if run != [] {
      StepKeepsLooked(s, run[0], w, pid, saw);
      LookedStays(Take(s, run[0]), run[1..], w, pid, saw);
    }
  }

  /** A stop kills every pid that its process publishes when it looks: once it has sent
      its kills the pid is killed, whatever came before and whatever comes between. */
  lemma {:induction false} StopKillsPublishedScript(s0: Sys, before: seq<Step>, k: nat, pid: int, after: seq<Step>)
    requires Initial(s0) && StopAt(Exec(s0, before), k, Asked)
    requires var s := Exec(s0, before); pid in Pids(s, s.stoppers[k].proc)
    ensures var s' := Exec(Take(Exec(s0, before), Look(k)), after);
            k < |s'.stoppers| && (s'.stoppers[k].sent ==> pid in s'.killed)
  {
    var s := Exec(s0, before);
    KillInvHolds(s0, before);
    StepKeepsKills(s, Look(k));
    KillInvHolds(Take(s, Look(k)), after);
    FoundStays(Take(s, Look(k)), after, k, Pids(s, s.stoppers[k].proc));
  }

  /** Of the kills in `s`, `k` alone may have sent one to the pid, and `w` alone may have
      had it killed at its own look. */
  predicate OnlyThese(s: Sys, k: nat, w: nat, pid: int) {
    && pid !in s.swept
    && (forall other :: 0 <= other < |s.stoppers| && other != k ==> !SentAt(s, other, pid))
    && (forall other :: 0 <= other < |s.workers| && other != w ==> !SawAt(s, other, pid))
  }

  /** A script survives a completed stop if and only if its pid was unpublished when the
      stop looked, and the event unraised when the script itself looked. */
  lemma {:induction false} SurvivesItsStopIff(s0: Sys, run: seq<Step>, i: nat, k: nat, j: nat, w: nat, pid: int)
    requires Initial(s0) && i < |run| && j < |run|
    requires run[i] == Look(k) && Enabled(Exec(s0, run[..i]), Look(k))
    requires run[j] == OnStart(w) && Enabled(Exec(s0, run[..j]), OnStart(w))
    requires Exec(s0, run[..j]).workers[w].pid == pid && OnlyThese(Exec(s0, run), k, w, pid)
    requires k < |Exec(s0, run).stoppers| && Exec(s0, run).stoppers[k].sent
    ensures var atLook, atStart := Exec(s0, run[..i]), Exec(s0, run[..j]);
            pid !in Exec(s0, run).killed
            <==> pid !in Pids(atLook, atLook.stoppers[k].proc) && atStart.workers[w].ev !in atStart.raised
  {
    var atLook, atStart := Exec(s0, run[..i]), Exec(s0, run[..j]);
    LookFound(s0, run, i, k);
    ScriptSaw(s0, run, j, w);
    KilledIff(s0, run, pid);
    OnlyTheseKill(Exec(s0, run), k, w, pid);
  }

  lemma LookFound(s0: Sys, run: seq<Step>, i: nat, k: nat)
    requires i < |run| && run[i] == Look(k) && Enabled(Exec(s0, run[..i]), Look(k))
    ensures var s := Exec(s0, run[..i]); Found(Exec(s0, run), k, Pids(s, s.stoppers[k].proc))
  {
    var s := Exec(s0, run[..i]);
    ExecAt(s0, run, i);
    FoundStays(Take(s, Look(k)), run[i + 1..], k, Pids(s, s.stoppers[k].proc));
  }

  lemma ScriptSaw(s0: Sys, run: seq<Step>, j: nat, w: nat)
    requires j < |run| && run[j] == OnStart(w) && Enabled(Exec(s0, run[..j]), OnStart(w))
    ensures var s := Exec(s0, run[..j]); Looked(Exec(s0, run), w, s.workers[w].pid, s.workers[w].ev in s.raised)
  {
    var s := Exec(s0, run[..j]);
    ExecAt(s0, run, j);
    LookedStays(Take(s, OnStart(w)), run[j + 1..], w, s.workers[w].pid, s.workers[w].ev in s.raised);
  }

  lemma OnlyTheseKill(s: Sys, k: nat, w: nat, pid: int)
    requires OnlyThese(s, k, w, pid) && k < |s.stoppers| && w < |s.workers|
    ensures KilledBy(s, pid) <==> SentAt(s, k, pid) || SawAt(s, w, pid)
  {
  }

  // ---------- What a process publishes ----------

  /** Takes the process's stop event away: a run of it is popped, its watch ends, or it
      dies. */
  predicate Unpublishes(s: Sys, step: Step, p: int) {
    && Enabled(s, step)
    && match step
       case Pop(w) => s.workers[w].proc == p
       case WatchEnd(proc, _) => proc == p
       case Crash(proc) => proc == p
       case _ => false
  }

  predicate NoneUnpublish(s: Sys, run: seq<Step>, p: int)
    decreases |run|
  {
    run == [] || (!Unpublishes(s, run[0], p) && NoneUnpublish(Take(s, run[0]), run[1..], p))
  }

  predicate EventsIssued(s: Sys) { forall p :: p in s.stop ==> s.stop[p] < s.events }

  predicate Publishes(s: Sys, p: int, ev: nat) { p in s.stop && s.stop[p] == ev }

  predicate Changes(step: Step) { step.Bind? || step.Reattach? || step.WatchEnd? || step.Pop? || step.Crash? }

  /** Only these change what is published as a stop event. */
  lemma EventsRarelyChange(s: Sys, step: Step)
    requires !Changes(step)
    ensures Take(s, step).stop == s.stop && Take(s, step).events == s.events
  {
  }

  lemma StepKeepsIssued(s: Sys, step: Step)
    requires EventsIssued(s)
    ensures EventsIssued(Take(s, step)) && s.events <= Take(s, step).events
  {
    if !Changes(step) {
      EventsRarelyChange(s, step);
    }
  }

  lemma {:induction false} IssuedHolds(s: Sys, run: seq<Step>)
    requires EventsIssued(s)
    ensures EventsIssued(Exec(s, run))
    decreases |run|
  {
    if run != [] {
      StepKeepsIssued(s, run[0]);
      IssuedHolds(Take(s, run[0]), run[1..]);
    }
  }

  lemma StepPublishesIff(s: Sys, step: Step, p: int, ev: nat)
    requires EventsIssued(s) && ev < s.events
    ensures Publishes(Take(s, step), p, ev) <==> Publishes(s, p, ev) && !Unpublishes(s, step, p)
  {
    if !Changes(step) {
      EventsRarelyChange(s, step);
    }
  }

  /** A published event stays published if and only if no run of its process was popped
      since, no watch of it ended and it did not die: it is never published again. */
  lemma {:induction false} StaysPublishedIff(s: Sys, run: seq<Step>, p: int, ev: nat)
    requires EventsIssued(s) && ev < s.events
    ensures Publishes(Exec(s, run), p, ev) <==> Publishes(s, p, ev) && NoneUnpublish(s, run, p)
    decreases |run|
  {
    if run != [] {
      StepPublishesIff(s, run[0], p, ev);
      StepKeepsIssued(s, run[0]);
      StaysPublishedIff(Take(s, run[0]), run[1..], p, ev);
    }
  }

  /** The same of the pids, which a run that was turned away leaves. */
  predicate DropsPids(s: Sys, step: Step, p: int) { Unpublishes(s, step, p) && (step.Pop? ==> s.workers[step.w].ran) }

  predicate NoneDropPids(s: Sys, run: seq<Step>, p: int)
    decreases |run|
  {
    run == [] || (!DropsPids(s, run[0], p) && NoneDropPids(Take(s, run[0]), run[1..], p))
  }

  predicate Registers(s: Sys, step: Step, p: int, pid: int) {
    && Enabled(s, step)
    && match step
       case Register(w, other) => s.workers[w].proc == p && other == pid
       case Reattach(proc, _, other) => proc == p && other == pid
       case _ => false
  }

  predicate NoneRegister(s: Sys, run: seq<Step>, p: int, pid: int)
    decreases |run|
  {
    run == [] || (!Registers(s, run[0], p, pid) && NoneRegister(Take(s, run[0]), run[1..], p, pid))
  }

  lemma PidsRarelyChange(s: Sys, step: Step)
    requires !step.Register? && !step.Reattach? && !step.WatchEnd? && !step.Pop? && !step.Crash?
    ensures Take(s, step).procs == s.procs
  {
    if ByWorker(step) && !Arrives(step) {
      WorkersLeavePids(s, step);
    }
  }

  lemma WorkersLeavePids(s: Sys, step: Step)
    requires ByWorker(step) && !Arrives(step) && !step.Register? && !step.Pop?
    ensures Take(s, step).procs == s.procs
  {
  }

  lemma StepKeepsPidIff(s: Sys, step: Step, p: int, pid: int)
    requires !Registers(s, step, p, pid)
    ensures pid in Pids(Take(s, step), p) <==> pid in Pids(s, p) && !DropsPids(s, step, p)
  {
    if !step.Register? && !step.Reattach? && !step.WatchEnd? && !step.Pop? && !step.Crash? {
      PidsRarelyChange(s, step);
    }
  }

  lemma {:induction false} PidStaysIff(s: Sys, run: seq<Step>, p: int, pid: int)
    requires NoneRegister(s, run, p, pid)
    ensures pid in Pids(Exec(s, run), p) <==> pid in Pids(s, p) && NoneDropPids(s, run, p)
    decreases |run|
  {
    if run != [] {
      StepKeepsPidIff(s, run[0], p, pid);
      PidStaysIff(Take(s, run[0]), run[1..], p, pid);
    }
  }

  /** A stop that looks after the script was registered, and after whatever else the
      process did since, finds the pid if and only if no run of that process that did its
      work has been popped since, no watch of it ended and it did not die. */
  lemma {:induction false} LookFindsPidIff(s: Sys, w: nat, pid: int, since: seq<Step>, k: nat)
    requires Enabled(s, Register(w, pid))
    requires NoneRegister(Take(s, Register(w, pid)), since, s.workers[w].proc, pid)
    requires var s2 := Exec(Take(s, Register(w, pid)), since);
             StopAt(s2, k, Asked) && s2.stoppers[k].proc == s.workers[w].proc
    ensures var s1 := Take(s, Register(w, pid));
            pid in Take(Exec(s1, since), Look(k)).stoppers[k].pids <==> NoneDropPids(s1, since, s.workers[w].proc)
  {
    PidStaysIff(Take(s, Register(w, pid)), since, s.workers[w].proc, pid);
  }

  /** Likewise its event, for a run that bound it: the stop raises the run's own event if
      and only if nothing has unpublished it since. */
  lemma {:induction false} LookFindsEventIff(s0: Sys, before: seq<Step>, w: nat, since: seq<Step>, k: nat)
    requires Initial(s0) && Enabled(Exec(s0, before), Bind(w)) && At(Take(Exec(s0, before), Bind(w)), w, Bound)
    requires var s1 := Take(Exec(s0, before), Bind(w)); var s2 := Exec(s1, since);
             StopAt(s2, k, Asked) && s2.stoppers[k].proc == s1.workers[w].proc
    ensures var s1 := Take(Exec(s0, before), Bind(w));
            Take(Exec(s1, since), Look(k)).stoppers[k].ev == Some(s1.workers[w].ev)
            <==> NoneUnpublish(s1, since, s1.workers[w].proc)
  {
    var s := Exec(s0, before);
    var s1 := Take(s, Bind(w));
    IssuedHolds(s0, before);
    StepKeepsIssued(s, Bind(w));
    BindPublishes(s, w);
    StaysPublishedIff(s1, since, s1.workers[w].proc, s1.workers[w].ev);
  }

  lemma BindPublishes(s: Sys, w: nat)
    requires EventsIssued(s) && Enabled(s, Bind(w)) && At(Take(s, Bind(w)), w, Bound)
    ensures var s1 := Take(s, Bind(w));
            Publishes(s1, s1.workers[w].proc, s1.workers[w].ev) && s1.workers[w].ev < s1.events
  {
  }

  /** A script that its own look let through is killed by a later stop if and only if no
      other run of its process was popped before that stop looked. */
  lemma {:induction false} LaterStopKillsIff(s0: Sys, before: seq<Step>, w: nat, pid: int, since: seq<Step>, k: nat,
                                             after: seq<Step>)
    requires Initial(s0) && Enabled(Exec(s0, before), Register(w, pid))
    requires var s := Exec(s0, before); var s1 := Take(s, Register(w, pid));
             && NoneRegister(s1, since, s.workers[w].proc, pid)
             && StopAt(Exec(s1, since), k, Asked) && Exec(s1, since).stoppers[k].proc == s.workers[w].proc
    requires var s' := Exec(Take(Exec(Take(Exec(s0, before), Register(w, pid)), since), Look(k)), after);
             && k < |s'.stoppers| && s'.stoppers[k].sent && w < |s'.workers|
             && OnlyThese(s', k, w, pid) && !SawAt(s', w, pid)
    ensures var s := Exec(s0, before); var s1 := Take(s, Register(w, pid));
            var s' := Exec(Take(Exec(s1, since), Look(k)), after);
            pid in s'.killed <==> NoneDropPids(s1, since, s.workers[w].proc)
  {
    var s := Exec(s0, before);
    var s1 := Take(s, Register(w, pid));
    var s2 := Exec(s1, since);
    var s3 := Take(s2, Look(k));
    var s' := Exec(s3, after);
    LookFindsPidIff(s, w, pid, since, k);
    FoundStays(s3, after, k, s3.stoppers[k].pids);
    FourParts(s0, before, Register(w, pid), since, Look(k), after);
    KilledIff(s0, before + [Register(w, pid)] + since + [Look(k)] + after, pid);
    OnlyTheseKill(s', k, w, pid);
  }

  lemma FourParts(s0: Sys, a: seq<Step>, x: Step, b: seq<Step>, y: Step, c: seq<Step>)
    ensures Exec(s0, a + [x] + b + [y] + c) == Exec(Take(Exec(Take(Exec(s0, a), x), b), y), c)
  {
    ExecSplit(s0, a + [x] + b + [y], c);
    ExecOne(s0, a + [x] + b, y);
    ExecSplit(s0, a + [x], b);
    ExecOne(s0, a, x);
  }
}
