/** Whose pid the row shows: the pid a run wrote is the current claim's own exactly while
    the claim it wrote under is still held. */
module JobPids {

  import opened Wrappers
  import opened Jobs
  import opened JobProtocol
  import opened JobStops

  // ---------- Until when a claim is held ----------

  predicate Holds(s: Sys, t: Token) { s.row.Some? && s.row.value.token == Some(t) }

  /** A new claim, a release, a stop's mark, a close, or an end that owns the claim. */
  predicate EndsClaim(s: Sys, step: Step, t: Token) {
    && Enabled(s, step)
    && match step
       case Claim(_, _, _, _) => true
       case Release => true
       case DropMark(_) => true
       case Close => true
       case Clear(w) => s.workers[w].token == Some(t)
       case WatchEnd(_, token) => token == Some(t)
       case _ => false
  }

  predicate NoneEnds(s: Sys, run: seq<Step>, t: Token)
    decreases |run|
  {
    run == [] || (!EndsClaim(s, run[0], t) && NoneEnds(Take(s, run[0]), run[1..], t))
  }

  lemma WorkerStepHoldsIff(s: Sys, step: Step, t: Token)
    requires Holds(s, t) && ByWorker(step)
    ensures Holds(Take(s, step), t) <==> !EndsClaim(s, step, t)
  {
    WorkersRarelyWrite(s, step);
  }

  lemma StepHoldsIff(s: Sys, step: Step, t: Token)
    requires Holds(s, t) && t < s.claims
    ensures Holds(Take(s, step), t) <==> !EndsClaim(s, step, t)
  {
    if ByWorker(step) {
      WorkerStepHoldsIff(s, step, t);
    }
  }

  lemma ClaimsGrow(s: Sys, step: Step)
    ensures s.claims <= Take(s, step).claims
  {
    if ByWorker(step) {
      WorkersRarelyWrite(s, step);
    }
  }

  /** A claim is held until one of those ends it, and never again. */
  lemma {:induction false} HeldUntilEnded(s: Sys, run: seq<Step>, t: Token)
    requires t < s.claims
    ensures Holds(Exec(s, run), t) <==> Holds(s, t) && NoneEnds(s, run, t)
    decreases |run|
  {
    if !Holds(s, t) {
      SupersededForGood(s, run, t);
    } else if run != [] {
      StepHoldsIff(s, run[0], t);
      ClaimsGrow(s, run[0]);
      HeldUntilEnded(Take(s, run[0]), run[1..], t);
    }
  }

  // ---------- Until when a pid is shown ----------

  predicate Shows(s: Sys, pid: int) { s.row.Some? && s.row.value.pid == Some(pid) }

  /** Only a stop's mark and a close take the row's pid away. */
  predicate Erases(s: Sys, step: Step) { Enabled(s, step) && (step.DropMark? || step.Close?) }

  predicate NoneErase(s: Sys, run: seq<Step>)
    decreases |run|
  {
    run == [] || (!Erases(s, run[0]) && NoneErase(Take(s, run[0]), run[1..]))
  }

  predicate Writes(s: Sys, step: Step) { Enabled(s, step) && step.WritePid? }

  predicate NoneWrite(s: Sys, run: seq<Step>)
    decreases |run|
  {
    run == [] || (!Writes(s, run[0]) && NoneWrite(Take(s, run[0]), run[1..]))
  }

  lemma WorkerStepShows(s: Sys, step: Step, pid: int)
    requires !Writes(s, step) && ByWorker(step)
    ensures Shows(Take(s, step), pid) <==> Shows(s, pid)
  {
    WorkersRarelyWrite(s, step);
  }

  lemma StepShowsIff(s: Sys, step: Step, pid: int)
    requires !Writes(s, step)
    ensures Shows(Take(s, step), pid) <==> Shows(s, pid) && !Erases(s, step)
  {
    if ByWorker(step) {
      WorkerStepShows(s, step, pid);
    }
  }

  lemma {:induction false} ShownUntilErased(s: Sys, run: seq<Step>, pid: int)
    requires NoneWrite(s, run)
    ensures Shows(Exec(s, run), pid) <==> Shows(s, pid) && NoneErase(s, run)
    decreases |run|
  {
    if run != [] {
      StepShowsIff(s, run[0], pid);
      ShownUntilErased(Take(s, run[0]), run[1..], pid);
    }
  }

  /** While the claim is held, what erases the pid ends the claim as well. */
  lemma {:induction false} ErasingEnds(s: Sys, run: seq<Step>, t: Token)
    requires t < s.claims && Holds(s, t) && NoneEnds(s, run, t)
    ensures NoneErase(s, run)
    decreases |run|
  {
    if run != [] {
      StepHoldsIff(s, run[0], t);
      ClaimsGrow(s, run[0]);
      ErasingEnds(Take(s, run[0]), run[1..], t);
    }
  }

  // ---------- Whose it is ----------

  /** Until another pid is written: the pid that a run wrote is the current claim's own
      if and only if its claim was still held at the write, whatever the look before it
      said, and nothing has ended that claim since. It is shown all the same, under a
      later claim or none, if and only if no stop's mark and no close has come since. */
  lemma {:induction false} OwnPidIff(s0: Sys, before: seq<Step>, w: nat, t: Token, since: seq<Step>)
    requires Initial(s0) && Enabled(Exec(s0, before), WritePid(w)) && Exec(s0, before).workers[w].token == Some(t)
    requires NoneWrite(Take(Exec(s0, before), WritePid(w)), since)
    ensures var s := Exec(s0, before);
            var s1 := Take(s, WritePid(w));
            var s', pid := Exec(s1, since), s.workers[w].pid;
            && (Shows(s', pid) && Holds(s', t) <==> Holds(s, t) && NoneEnds(s1, since, t))
            && (Shows(s', pid) && !Holds(s', t) <==> NoneErase(s1, since) && !(Holds(s, t) && NoneEnds(s1, since, t)))
  {
    var s := Exec(s0, before);
    var s1 := Take(s, WritePid(w));
    WorkersInvHolds(s0, before);
    ShownUntilErased(s1, since, s.workers[w].pid);
    HeldUntilEnded(s1, since, t);
    if Holds(s1, t) && NoneEnds(s1, since, t) {
      ErasingEnds(s1, since, t);
    }
  }
}
