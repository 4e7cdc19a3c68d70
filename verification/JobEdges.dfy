/** What the job protocol does not rule out: reachable states, each with the
    shortest way there. */
module JobEdges {

  import opened Wrappers
  import opened Jobs
  import opened JobProtocol

  ghost predicate Reaches(s: Sys, s': Sys) {
    exists run :: Exec(s, run) == s'
  }

  lemma Then(s: Sys, s': Sys, step: Step)
    requires Reaches(s, s')
    ensures Reaches(s, Take(s', step))
  {
    var run :| Exec(s, run) == s';
    ExecOne(s, run, step);
  }

  lemma Here(s: Sys)
    ensures Reaches(s, s)
  {
    assert Exec(s, []) == s;
  }

  /** One enabled job, due at 60, and nothing in flight. */
  function Fresh(kind: Kind): Sys {
    Sys(kind, Some(Job(kind, "* * * * *", true, None, 60, None, None, false, None, 0, None)),
        0, [], [], [], map[], 0, {}, map[], {}, {}, {})
  }

  // ---------- Pieces of runs ----------

  /** Process 0 claims the slot. */
  lemma Claims(s0: Sys, s: Sys) returns (s': Sys)
    requires Reaches(s0, s) && s.row.Some?
    ensures Reaches(s0, s')
    ensures s' == s.(row := s'.row, claims := s.claims + 1, workers := s.workers + [NewWorker(0)])
    ensures s'.row.Some? && s'.row.value.running && s'.row.value.token == Some(s.claims)
  {
    var step := Claim(0, s.row.value.nextRun, 60, 120);
    Then(s0, s, step);
    s' := Take(s, step);
  }

  lemma Rereads(s0: Sys, s: Sys, w: nat) returns (s': Sys)
    requires Reaches(s0, s) && At(s, w, Won) && s.row.Some?
    ensures Reaches(s0, s')
    ensures s' == s.(workers := s.workers[w := s.workers[w].(pc := Snapped, token := s.row.value.token)])
  {
    Then(s0, s, Reread(w, None));
    s' := Take(s, Reread(w, None));
  }

  /** Binds and passes the start check. */
  lemma Starts(s0: Sys, s: Sys, w: nat) returns (s': Sys)
    requires Reaches(s0, s) && At(s, w, Snapped) && !s.workers[w].ran && !s.kind.Ticket?
    requires s.workers[w].proc !in s.agents && EventOf(s, s.workers[w].proc) !in s.raised
    requires StillHeld(s.row, s.workers[w].token)
    ensures Reaches(s0, s')
    ensures var p, ev := s.workers[w].proc, EventOf(s, s.workers[w].proc);
            s' == s.(stop := s.stop[p := ev], events := s'.events, agents := s'.agents,
                     workers := s.workers[w := s.workers[w].(pc := Started, ev := ev, ran := true)])
    ensures s.kind.Script? ==> s'.agents == s.agents
  {
    Then(s0, s, Bind(w));
    var s1 := Take(s, Bind(w));
    Then(s0, s1, CheckEvent(w));
    var s2 := Take(s1, CheckEvent(w));
    Then(s0, s2, CheckClaim(w));
    s' := Take(s2, CheckClaim(w));
  }

  lemma Registers(s0: Sys, s: Sys, w: nat, pid: int) returns (s': Sys)
    requires Reaches(s0, s) && s.kind.Script? && At(s, w, Started)
    ensures Reaches(s0, s')
    ensures s' == s.(procs := s'.procs, workers := s.workers[w := s.workers[w].(pc := Registered, pid := pid)])
  {
    Then(s0, s, Register(w, pid));
    s' := Take(s, Register(w, pid));
  }

  lemma PassesItsLook(s0: Sys, s: Sys, w: nat) returns (s': Sys)
    requires Reaches(s0, s) && At(s, w, Registered) && s.workers[w].ev !in s.raised
    ensures Reaches(s0, s')
    ensures s' == s.(workers := s.workers[w := s.workers[w].(pc := Watched, sawSet := false)])
  {
    Then(s0, s, OnStart(w));
    s' := Take(s, OnStart(w));
  }

  /** Asks for a stop and reads what process 0 publishes. */
  lemma Looks(s0: Sys, s: Sys) returns (s': Sys)
    requires Reaches(s0, s)
    ensures Reaches(s0, s')
    ensures s' == s.(stoppers := s.stoppers + [Stopper(0, Looked, if 0 in s.stop then Some(s.stop[0]) else None,
                                                       Pids(s, 0), false)])
  {
    var k := |s.stoppers|;
    Then(s0, s, AskStop(0));
    var s1 := Take(s, AskStop(0));
    Then(s0, s1, Look(k));
    s' := Take(s1, Look(k));
  }

  lemma RaisesAndKills(s0: Sys, s: Sys, k: nat) returns (s': Sys)
    requires Reaches(s0, s) && StopAt(s, k, Looked) && s.stoppers[k].pids == {}
    ensures Reaches(s0, s')
    ensures var ev := s.stoppers[k].ev;
            s' == s.(raised := if ev.Some? then s.raised + {ev.value} else s.raised,
                     stoppers := s.stoppers[k := s.stoppers[k].(pc := Killed, sent := true)])
  {
    Then(s0, s, Raise(k));
    var s1 := Take(s, Raise(k));
    Then(s0, s1, Kill(k));
    s' := Take(s1, Kill(k));
    assert s'.killed == s.killed;
  }

  /** The rest of a stop that found no pid. */
  lemma Finishes(s0: Sys, s: Sys, k: nat) returns (s': Sys)
    requires Reaches(s0, s) && StopAt(s, k, Looked) && s.stoppers[k].pids == {} && s.row.Some?
    ensures Reaches(s0, s')
    ensures var ev := s.stoppers[k].ev;
            s' == s.(row := Some(Stopped(s.row.value)), raised := if ev.Some? then s.raised + {ev.value} else s.raised,
                     stoppers := s.stoppers[k := s.stoppers[k].(pc := Finished, sent := true)])
  {
    var s1 := RaisesAndKills(s0, s, k);
    Then(s0, s1, DropMark(k));
    s' := Take(s1, DropMark(k));
  }

  // ---------- The edges ----------

  /** A stop between the claim and the re-read leaves the firer a row without a
      token, which counts as held: the run the user stopped goes ahead. */
  lemma StopBeforeRereadIsMissed(kind: Kind) returns (s: Sys)
    requires !kind.Ticket?
    ensures Reaches(Fresh(kind), s)
    ensures |s.workers| == 1 && s.workers[0].ran && s.workers[0].token.None?
    ensures |s.stoppers| == 1 && s.stoppers[0].pc.Finished?
  {
    var s0 := Fresh(kind);
    Here(s0);
    s := Claims(s0, s0);
    s := Looks(s0, s);
    s := Finishes(s0, s, 0);
    s := Rereads(s0, s, 0);
    s := Starts(s0, s, 0);
  }

  /** A script's claim, up to the running work. */
  lemma StartsScript(s0: Sys, s: Sys) returns (s': Sys)
    requires Reaches(s0, s) && s.kind.Script? && s.row.Some? && s.raised == {} && 0 !in s.agents
    ensures Reaches(s0, s')
    ensures var ev := EventOf(s, 0);
            s' == s.(row := s'.row, claims := s.claims + 1, stop := s.stop[0 := ev], events := s'.events,
                     workers := s.workers + [Worker(0, Started, Some(s.claims), ev, 0, true, false)])
    ensures s'.row.Some? && s'.row.value.running && s'.row.value.token == Some(s.claims)
  {
    var w := |s.workers|;
    s' := Claims(s0, s);
    s' := Rereads(s0, s', w);
    s' := Starts(s0, s', w);
  }

  /** A stop that looks for pids before the script's is published, and raises the
      event after the script's own look, kills nothing. */
  lemma ScriptSlipsThroughTheGap() returns (s: Sys)
    ensures Reaches(Fresh(Script), s)
    ensures |s.workers| == 1 && s.workers[0].pc.Watched? && s.workers[0].ev in s.raised
    ensures |s.stoppers| == 1 && s.stoppers[0].pc.Finished? && s.killed == {}
  {
    var s0 := Fresh(Script);
    Here(s0);
    s := StartsScript(s0, s0);
    s := Looks(s0, s);
    s := Registers(s0, s, 0, 7);
    s := PassesItsLook(s0, s, 0);
    s := Finishes(s0, s, 0);
  }

  lemma EndsAndPops(s0: Sys, s: Sys, w: nat) returns (s': Sys)
    requires Reaches(s0, s) && s.kind.Script? && At(s, w, Watched) && s.workers[w].proc == 0 && s.workers[w].ran
    ensures Reaches(s0, s')
    ensures s' == s.(stop := s.stop - {0}, procs := s.procs - {0}, agents := s.agents - {0},
                     workers := s.workers[w := s.workers[w].(pc := Popped)])
  {
    Then(s0, s, End(w));
    var s1 := Take(s, End(w));
    Then(s0, s1, Pop(w));
    s' := Take(s1, Pop(w));
  }

  /** Two runs of one script overlap in a process; the first to finish takes both
      runs' event and pids with it, and a later stop neither raises nor kills. */
  lemma OverlappingScriptOutlivesItsStop() returns (s: Sys)
    ensures Reaches(Fresh(Script), s)
    ensures |s.workers| == 2 && s.workers[1].pc.Watched?
    ensures |s.stoppers| == 1 && s.stoppers[0].pc.Finished? && s.raised == {} && s.killed == {}
  {
    var s0 := Fresh(Script);
    s := TwoScripts();
    s := EndsAndPops(s0, s, 0);
    s := Looks(s0, s);
    s := Finishes(s0, s, 0);
  }

  lemma TwoScripts() returns (s: Sys)
    ensures Reaches(Fresh(Script), s)
    ensures |s.workers| == 2 && s.workers[0].pc.Watched? && s.workers[1].pc.Watched?
    ensures s.workers[0].proc == 0 && s.workers[0].ran
    ensures s.kind.Script? && s.row.Some? && s.stoppers == [] && s.raised == {} && s.killed == {}
  {
    var s0 := Fresh(Script);
    Here(s0);
    s := StartsScript(s0, s0);
    s := Registers(s0, s, 0, 7);
    s := PassesItsLook(s0, s, 0);
    s := StartsScript(s0, s);
    s := Registers(s0, s, 1, 8);
    s := PassesItsLook(s0, s, 1);
  }

  /** The pid a worker writes after its look can land on a newer claim's row. */
  lemma LatePidLandsOnANewerClaim() returns (s: Sys)
    ensures Reaches(Fresh(Script), s)
    ensures s.row.Some? && s.row.value.token == Some(1) && s.row.value.pid == Some(7)
    ensures |s.workers| == 2 && s.workers[0].token == Some(0) && s.workers[0].pid == 7
  {
    var s0 := Fresh(Script);
    Here(s0);
    s := StartsScript(s0, s0);
    s := Registers(s0, s, 0, 7);
    s := Claims(s0, s);
    Then(s0, s, WritePid(0));
    s := Take(s, WritePid(0));
  }

  /** A run's pid outlives the run: the next claim carries it from the start. */
  lemma ClaimCarriesAnOldPid() returns (s: Sys)
    ensures Reaches(Fresh(Script), s)
    ensures s.row.Some? && s.row.value.running && s.row.value.pid == Some(7)
    ensures |s.workers| == 2 && s.workers[0].pc.Done? && s.workers[1].pc.Won?
  {
    var s0 := Fresh(Script);
    Here(s0);
    s := StartsScript(s0, s0);
    s := Registers(s0, s, 0, 7);
    s := WritesPid(s0, s, 0);
    s := PassesItsLook(s0, s, 0);
    s := EndsAndPops(s0, s, 0);
    s := ClearsRow(s0, s, 0);
    s := ClaimKeepsPid(s0, s);
  }

  lemma WritesPid(s0: Sys, s: Sys, w: nat) returns (s': Sys)
    requires Reaches(s0, s) && At(s, w, Registered) && s.row.Some?
    ensures Reaches(s0, s') && s' == s.(row := Some(s.row.value.(pid := Some(s.workers[w].pid))))
  {
    Then(s0, s, WritePid(w));
    s' := Take(s, WritePid(w));
  }

  lemma ClearsRow(s0: Sys, s: Sys, w: nat) returns (s': Sys)
    requires Reaches(s0, s) && At(s, w, Popped) && s.row.Some?
    ensures Reaches(s0, s')
    ensures s' == s.(row := Some(Cleared(s.row.value, s.workers[w].token)),
                     workers := s.workers[w := s.workers[w].(pc := Done)])
  {
    Then(s0, s, Clear(w));
    s' := Take(s, Clear(w));
  }

  lemma ClaimKeepsPid(s0: Sys, s: Sys) returns (s': Sys)
    requires Reaches(s0, s) && s.row.Some?
    ensures Reaches(s0, s') && s'.workers == s.workers + [NewWorker(0)]
    ensures s'.row.Some? && s'.row.value.running && s'.row.value.pid == s.row.value.pid
  {
    var step := Claim(0, s.row.value.nextRun, 60, 120);
    Then(s0, s, step);
    s' := Take(s, step);
  }
}
