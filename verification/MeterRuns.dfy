/** Whole runs of the request meter: any sends, turns, snapshots and late failures,
    on a clock that does not go back. The meter stores no history; what it reports
    is proved to be what the history would give. */
module MeterRuns {

  import opened Wrappers
  import opened Totals
  import opened MeterRing
  import opened MeterBuckets
  import M = MeterSessions
  import opened CallMeter

  datatype Event =
    | Send(sent: Sent, sid: string, bound: Option<nat>)
    | Settle(send: nat, reason: string, now: real)
    | Turn(sid: string)
    | Look(sid: string, now: real)

  /** The meter, and the history it stands for: what was sent, how it was billed,
      which sends failed and which of those were charged to a reported minute. */
  datatype Run = Run(
    m: Meter,
    sends: seq<Sent>,
    billed: seq<M.Billed>,
    settled: set<nat>,
    charged: set<nat>,
    turns: set<(string, nat)>,
    clock: real,
    trimmed: real)

  function Start(clock: real): Run { Run(ZERO, [], [], {}, {}, {}, clock, clock) }

  /** Each token is settled at most once, and turns are bound by their own session. */
  predicate Legal(r: Run, e: Event) {
    match e
    case Send(s, sid, bound) => s.ts >= r.clock && (bound.Some? ==> (sid, bound.value) in r.turns)
    case Settle(i, _, now) => i < |r.sends| && i < |r.billed| && i !in r.settled && now >= r.clock
    case Turn(_) => true
    case Look(_, now) => now >= r.clock
  }

  function Step(r: Run, e: Event): Run
    requires Legal(r, e)
  {
    match e
    case Send(s, sid, bound) =>
      var (m, stamp) := Recorded(r.m, s, sid, bound);
      r.(m := m, sends := r.sends + [s], billed := r.billed + [M.Billed(sid, stamp)], clock := s.ts, trimmed := s.ts)
    case Settle(i, reason, now) =>
      r.(m := Settled(r.m, r.sends[i].ts, r.billed[i].sid, r.billed[i].stamp, reason, now),
         settled := r.settled + {i},
         charged := if OutOfHistory(r.sends[i].ts, now) then r.charged else r.charged + {i},
         clock := now)
    case Turn(sid) =>
      var (sessions, epoch) := M.ResetTurn(r.m.sessions, sid);
      r.(m := r.m.(sessions := sessions), turns := if epoch.Some? then r.turns + {(sid, epoch.value)} else r.turns)
    case Look(sid, now) =>
      r.(m := Viewed(r.m, sid, now), clock := now, trimmed := now)
  }

  ghost predicate Reaches(from: Run, events: seq<Event>, to: Run) {
    if events == [] then to == from
    else
      var n := |events| - 1;
      exists mid :: Reaches(from, events[..n], mid) && Legal(mid, events[n]) && to == Step(mid, events[n])
  }

  function Stamps(sends: seq<Sent>): (r: seq<real>)
    ensures |r| == |sends| && forall i :: 0 <= i < |sends| ==> r[i] == sends[i].ts
  {
    if sends == [] then [] else Stamps(sends[..|sends| - 1]) + [sends[|sends| - 1].ts]
  }

  lemma StampsAppend(sends: seq<Sent>, s: Sent)
    ensures Stamps(sends + [s]) == Stamps(sends) + [s.ts]
  {
    assert (sends + [s])[..|sends|] == sends;
  }

  // ---------- What every step keeps ----------

  ghost predicate TotalsAgree(r: Run) {
    && r.m.total == |r.sends| == |r.billed|
    && r.m.failTotal == |r.settled|
    && Indices(r.settled, r.sends)
    && r.charged <= r.settled
  }

  ghost predicate RingOk(ring: seq<real>, droppedAt: real, stamps: seq<real>, trimmed: real) {
    && Sorted(stamps) && (forall i :: 0 <= i < |stamps| ==> stamps[i] <= trimmed)
    && RingIs(ring, stamps, trimmed - WINDOW_S)
    && DropsNoted(stamps, droppedAt, trimmed)
  }

  ghost predicate RingAgrees(m: Meter, stamps: seq<real>, trimmed: real) {
    RingOk(m.recent, m.droppedAt, stamps, trimmed)
  }

  ghost predicate Agrees(r: Run) {
    && TotalsAgree(r)
    && r.trimmed <= r.clock
    && RingAgrees(r.m, Stamps(r.sends), r.trimmed)
    && FailsBounded(r.m.recentFail, Stamps(r.sends), r.settled)
    && Faithful(r.m.buckets, r.sends, r.charged, r.clock)
  }

  lemma TrimAgrees(m: Meter, stamps: seq<real>, trimmed: real, now: real)
    requires RingAgrees(m, stamps, trimmed) && trimmed <= now
    ensures RingAgrees(Trimmed(m, now), stamps, now)
  {
    TrimKeepsRing(m.recent, stamps, trimmed - WINDOW_S, now - WINDOW_S);
  }

  lemma TrimKeepsFails(m: Meter, stamps: seq<real>, settled: set<nat>, now: real)
    requires FailsBounded(m.recentFail, stamps, settled)
    ensures FailsBounded(Trimmed(m, now).recentFail, stamps, settled)
  {
    var k := TrimHeadIs(m.recentFail, now - WINDOW_S);
    SuffixBounded(m.recentFail, k, stamps, settled);
  }

  lemma SortedAppend(stamps: seq<real>, ts: real)
    requires Sorted(stamps) && forall i :: 0 <= i < |stamps| ==> stamps[i] <= ts
    ensures Sorted(stamps + [ts]) && forall i :: 0 <= i < |stamps + [ts]| ==> (stamps + [ts])[i] <= ts
  {
  }

  lemma RingPush(ring: seq<real>, droppedAt: real, stamps: seq<real>, ts: real)
    requires RingOk(ring, droppedAt, stamps, ts)
    ensures RingOk(Push(ring, ts), DroppedAt(ring, droppedAt, ts), stamps + [ts], ts)
  {
    SortedAppend(stamps, ts);
    PushKeepsRing(ring, stamps, ts, ts - WINDOW_S);
    RecordNotesDrops(ring, stamps, droppedAt, ts);
  }

  lemma SendRing(m: Meter, stamps: seq<real>, trimmed: real, s: Sent, sid: string, bound: Option<nat>)
    requires RingAgrees(m, stamps, trimmed) && trimmed <= s.ts
    ensures RingAgrees(Recorded(m, s, sid, bound).0, stamps + [s.ts], s.ts)
  {
    var t := Trimmed(m, s.ts);
    TrimAgrees(m, stamps, trimmed, s.ts);
    RingPush(t.recent, m.droppedAt, stamps, s.ts);
  }

  lemma SendFails(m: Meter, stamps: seq<real>, settled: set<nat>, s: Sent, sid: string, bound: Option<nat>)
    requires FailsBounded(m.recentFail, stamps, settled)
    ensures FailsBounded(Recorded(m, s, sid, bound).0.recentFail, stamps + [s.ts], settled)
  {
    TrimKeepsFails(m, stamps, settled, s.ts);
    SendKeepsFails(Trimmed(m, s.ts).recentFail, stamps, settled, s.ts);
  }

  lemma SendAgrees(r: Run, s: Sent, sid: string, bound: Option<nat>)
    requires Agrees(r) && Legal(r, Send(s, sid, bound))
    ensures Agrees(Step(r, Send(s, sid, bound)))
  {
    StampsAppend(r.sends, s);
    SendRing(r.m, Stamps(r.sends), r.trimmed, s, sid, bound);
    SendFails(r.m, Stamps(r.sends), r.settled, s, sid, bound);
    FaithfulLater(r.m.buckets, r.sends, r.charged, r.clock, s.ts);
    SendStaysFaithful(r.m.buckets, r.sends, r.charged, s);
  }

  lemma FailsLater(fails: seq<real>, stamps: seq<real>, settled: set<nat>, i: nat)
    requires FailsBounded(fails, stamps, settled) && i !in settled
    ensures FailsBounded(fails, stamps, settled + {i})
  {
    forall c ensures AtOrAfter(fails, c) <= SettledSince(stamps, settled + {i}, c) {
      SettleOne(stamps, settled, i, c);
    }
  }

  lemma SettleAgrees(r: Run, i: nat, reason: string, now: real)
    requires Agrees(r) && Legal(r, Settle(i, reason, now))
    ensures Agrees(Step(r, Settle(i, reason, now)))
  {
    FaithfulLater(r.m.buckets, r.sends, r.charged, r.clock, now);
    if OutOfHistory(r.sends[i].ts, now) {
      FailsLater(r.m.recentFail, Stamps(r.sends), r.settled, i);
    } else {
      ReportedSettleAgrees(r, i, reason, now);
    }
  }

  lemma ReportedSettleAgrees(r: Run, i: nat, reason: string, now: real)
    requires Agrees(r) && Legal(r, Settle(i, reason, now)) && !OutOfHistory(r.sends[i].ts, now)
    requires Faithful(r.m.buckets, r.sends, r.charged, now)
    ensures Agrees(Step(r, Settle(i, reason, now)))
  {
    FailKeepsFails(r.m.recentFail, Stamps(r.sends), r.settled, i, now);
    FailStaysFaithful(r.m.buckets, r.sends, r.charged, i, reason, now);
  }

  lemma LookAgrees(r: Run, sid: string, now: real)
    requires Agrees(r) && Legal(r, Look(sid, now))
    ensures Agrees(Step(r, Look(sid, now)))
  {
    TrimAgrees(r.m, Stamps(r.sends), r.trimmed, now);
    TrimKeepsFails(r.m, Stamps(r.sends), r.settled, now);
    FaithfulLater(r.m.buckets, r.sends, r.charged, r.clock, now);
    PruneStaysFaithful(r.m.buckets, r.sends, r.charged, now);
  }

  lemma StepAgrees(r: Run, e: Event)
    requires Agrees(r) && Legal(r, e)
    ensures Agrees(Step(r, e))
  {
    match e
    case Send(s, sid, bound) => SendAgrees(r, s, sid, bound);
    case Settle(i, reason, now) => SettleAgrees(r, i, reason, now);
    case Turn(_) =>
    case Look(sid, now) => LookAgrees(r, sid, now);
  }

  lemma {:induction false} RunAgrees(clock: real, events: seq<Event>, r: Run)
    requires Reaches(Start(clock), events, r)
    ensures Agrees(r)
  {
    if events != [] {
      var n := |events| - 1;
      var mid :| Reaches(Start(clock), events[..n], mid) && Legal(mid, events[n]) && r == Step(mid, events[n]);
      RunAgrees(clock, events[..n], mid);
      StepAgrees(mid, events[n]);
    } else {
      assert Total<int>(map[]) == 0;
    }
  }

  // ---------- The reports ----------

  function Reported(r: Run, now: real): Run
    requires now >= r.clock
  {
    Step(r, Look(M.NOBODY, now))
  }

  /** After any run, a snapshot's totals are those of every send and failure ever
      made, and its rate counts the sends of the true last 60 seconds: up to the
      ring's 20000, and exactly once no loss is as young as 60 seconds. */
  lemma RateCountsTheHistory(clock: real, events: seq<Event>, r: Run, now: real)
    requires Reaches(Start(clock), events, r) && now >= r.clock
    ensures var m := Reported(r, now).m;
            var lastMinute := AtOrAfter(Stamps(r.sends), now - WINDOW_S);
            && m.total == |r.sends| && m.failTotal == |r.settled|
            && |m.recent| == Least(lastMinute, RECENT_MAX)
            && (now - m.droppedAt > WINDOW_S ==> |m.recent| == lastMinute)
  {
    RunAgrees(clock, events, r);
    TrimmedRate(r.m, Stamps(r.sends), r.trimmed, now);
  }

  /** After any run, a snapshot shows a rate short of the true one with the floor flag down
      if and only if more than the ring's 20000 sends are in the last 60 seconds and the
      last loss is exactly that old, or is dated at the clock's zero. */
  lemma FlagMissesAfterEveryRunIff(clock: real, events: seq<Event>, r: Run, now: real)
    requires Reaches(Start(clock), events, r) && now >= r.clock
    ensures var m, count := Reported(r, now).m, AtOrAfter(Stamps(r.sends), now - WINDOW_S);
            !Flagged(m.droppedAt, now) && |m.recent| < count
            <==> count > RECENT_MAX && (now - m.droppedAt == WINDOW_S || m.droppedAt == 0.0)
  {
    RunAgrees(clock, events, r);
    TrimmedFlag(r.m, Stamps(r.sends), r.trimmed, now);
  }

  lemma TrimmedFlag(m: Meter, stamps: seq<real>, trimmed: real, now: real)
    requires RingAgrees(m, stamps, trimmed) && trimmed <= now
    ensures var count := AtOrAfter(stamps, now - WINDOW_S);
            !Flagged(m.droppedAt, now) && |Trimmed(m, now).recent| < count
            <==> count > RECENT_MAX && (now - m.droppedAt == WINDOW_S || m.droppedAt == 0.0)
  {
    TrimAgrees(m, stamps, trimmed, now);
    FlagMissesIff(Trimmed(m, now).recent, stamps, m.droppedAt, now);
  }

  lemma TrimmedRate(m: Meter, stamps: seq<real>, trimmed: real, now: real)
    requires RingAgrees(m, stamps, trimmed) && trimmed <= now
    ensures var lastMinute := AtOrAfter(stamps, now - WINDOW_S);
            && |Trimmed(m, now).recent| == Least(lastMinute, RECENT_MAX)
            && (now - m.droppedAt > WINDOW_S ==> |Trimmed(m, now).recent| == lastMinute)
  {
    TrimAgrees(m, stamps, trimmed, now);
    RateIsExact(Trimmed(m, now).recent, stamps, m.droppedAt, now);
  }

  /** After any run, every reported minute and window counts the history's sends and
      charged failures of those whole minutes, and splits them by label. */
  lemma WindowsCountEveryRun(clock: real, events: seq<Event>, r: Run, now: real, minutes: nat)
    requires Reaches(Start(clock), events, r) && now >= r.clock && 1 <= minutes <= BUCKETS
    ensures var bs := Reported(r, now).m.buckets;
            && SentSince(bs, FirstOf(now, minutes)) == |ChosenSince(r.sends, AllOf(r.sends), FirstOf(now, minutes))|
            && FailedSince(bs, FirstOf(now, minutes)) == |ChosenSince(r.sends, r.charged, FirstOf(now, minutes))|
            && CountsAgree(bs, r.sends, r.charged, First(now))
            && LabelsAgree(bs, r.sends, First(now))
  {
    RunAgrees(clock, events, r);
    LookAgrees(r, M.NOBODY, now);
    WindowsCountTheHistory(Reported(r, now).m.buckets, r.sends, r.charged, now, minutes);
  }

  /** After any run, failures are a subset of requests in every number shown. */
  lemma FailuresNeverExceedRequests(clock: real, events: seq<Event>, r: Run, now: real, w: Windows)
    requires Reaches(Start(clock), events, r) && now >= r.clock
    requires var m := Reported(r, now).m; Shows(w, m.recent, m.recentFail, m.buckets, now)
    ensures var m := Reported(r, now).m;
            && m.failTotal <= m.total
            && w.failedPerMinute <= w.perMinute
            && w.failed15m <= w.last15m && w.failed60m <= w.last60m
            && forall k :: k >= First(now) ==> FailedAt(m.buckets, k) <= SentAt(m.buckets, k)
  {
    RunAgrees(clock, events, r);
    LookAgrees(r, M.NOBODY, now);
    var bs := Reported(r, now).m.buckets;
    SubsetSize(r.settled, AllOf(r.sends));
    SizeOfAll(r.sends);
    FailuresTrimmed(r.m, Stamps(r.sends), r.settled, r.trimmed, now);
    ShownFailures(w, Trimmed(r.m, now).recent, Trimmed(r.m, now).recentFail, bs, r.sends, r.charged, now);
  }

  lemma ShownFailures(w: Windows, recent: seq<real>, recentFail: seq<real>, bs: Buckets, sends: seq<Sent>,
                      charged: set<nat>, now: real)
    requires Shows(w, recent, recentFail, bs, now) && Faithful(bs, sends, charged, now) && |recentFail| <= |recent|
    ensures w.failedPerMinute <= w.perMinute && w.failed15m <= w.last15m && w.failed60m <= w.last60m
    ensures forall k :: k >= First(now) ==> FailedAt(bs, k) <= SentAt(bs, k)
  {
    WindowFailures(bs, sends, charged, now, 15, Minute(now) - 14);
    WindowFailures(bs, sends, charged, now, BUCKETS, Minute(now) - 59);
  }

  lemma WindowFailures(bs: Buckets, sends: seq<Sent>, charged: set<nat>, now: real, minutes: nat, first: int)
    requires Faithful(bs, sends, charged, now) && 1 <= minutes <= BUCKETS && first == FirstOf(now, minutes)
    ensures forall k :: k >= First(now) ==> FailedAt(bs, k) <= SentAt(bs, k)
    ensures FailedSince(bs, first) <= SentSince(bs, first)
  {
    FailuresWithinRequests(bs, sends, charged, now, minutes);
  }

  lemma {:induction false} SizeOfAll(sends: seq<Sent>)
    ensures |AllOf(sends)| == |sends|
  {
    if sends != [] {
      var n := |sends| - 1;
      SizeOfAll(sends[..n]);
      assert AllOf(sends) == AllOf(sends[..n]) + {n};
    } else {
      assert AllOf(sends) == {};
    }
  }

  lemma FailuresTrimmed(m: Meter, stamps: seq<real>, settled: set<nat>, trimmed: real, now: real)
    requires RingAgrees(m, stamps, trimmed) && FailsBounded(m.recentFail, stamps, settled) && trimmed <= now
    ensures |Trimmed(m, now).recentFail| <= |Trimmed(m, now).recent|
  {
    TrimAgrees(m, stamps, trimmed, now);
    FailRateWithinRate(Trimmed(m, now).recent, m.recentFail, stamps, settled, now);
  }

  // ---------- Sessions in the same runs ----------

  function SidOf(r: Run, e: Event): string
    requires Legal(r, e)
  {
    match e case Send(_, sid, _) => sid case Settle(i, _, _) => r.billed[i].sid case Turn(sid) => sid case Look(sid, _) => sid
  }

  /** The part of a run the session table sees. */
  function SessionsOf(r: Run): M.Sys { M.Sys(r.m.sessions, r.billed, r.charged, r.turns) }

  ghost predicate ReachesWith(from: Run, events: seq<Event>, ids: set<string>, to: Run) {
    if events == [] then to == from
    else
      var n := |events| - 1;
      exists mid :: ReachesWith(from, events[..n], ids, mid) && Legal(mid, events[n])
                 && M.Among(SidOf(mid, events[n]), ids) && to == Step(mid, events[n])
  }

  lemma SessionStep(sys: M.Sys, e: M.Event, ids: set<string>)
    requires M.Agrees(sys, ids) && M.Legal(sys, e) && M.Among(M.SidOf(sys, e), ids) && |ids| <= M.MAX_SESSIONS
    ensures M.Agrees(M.Step(sys, e), ids)
  {
    if M.SidOf(sys, e) == M.NOBODY {
      M.NobodyAgrees(sys, e, ids);
    } else {
      M.StepAgrees(sys, e, ids);
    }
  }

  /** A run's step is a step of its session table, or leaves its counts alone. */
  lemma SessionsFollow(r: Run, e: Event, ids: set<string>)
    requires Agrees(r) && Legal(r, e) && M.Among(SidOf(r, e), ids) && |ids| <= M.MAX_SESSIONS
    requires M.Agrees(SessionsOf(r), ids)
    ensures M.Agrees(SessionsOf(Step(r, e)), ids)
  {
    match e
    case Send(_, sid, bound) => SessionStep(SessionsOf(r), M.Send(sid, bound), ids);
    case Settle(i, _, now) =>
      if !OutOfHistory(r.sends[i].ts, now) {
        SessionStep(SessionsOf(r), M.Fail(i), ids);
      }
    case Turn(sid) => SessionStep(SessionsOf(r), M.Reset(sid), ids);
    case Look(sid, _) =>
      if sid != M.NOBODY && sid in r.m.sessions.slots {
        M.TouchAgrees(SessionsOf(r), sid, ids);
      }
  }

  lemma {:induction false} SessionsAgree(clock: real, events: seq<Event>, ids: set<string>, r: Run)
    requires ReachesWith(Start(clock), events, ids, r) && |ids| <= M.MAX_SESSIONS
    ensures Agrees(r) && M.Agrees(SessionsOf(r), ids)
  {
    if events == [] {
      RunAgrees(clock, [], r);
    } else {
      var n := |events| - 1;
      var mid :| ReachesWith(Start(clock), events[..n], ids, mid) && Legal(mid, events[n])
                 && M.Among(SidOf(mid, events[n]), ids) && r == Step(mid, events[n]);
      SessionsAgree(clock, events[..n], ids, mid);
      StepAgrees(mid, events[n]);
      SessionsFollow(mid, events[n], ids);
    }
  }

  /** After any run over at most 200 sessions, what a snapshot shows of one is the
      count of its own sends and charged failures, in all and in its current turn. */
  lemma SessionViewCountsTheHistory(clock: real, events: seq<Event>, ids: set<string>, r: Run, sid: string)
    requires ReachesWith(Start(clock), events, ids, r) && |ids| <= M.MAX_SESSIONS && sid in r.m.sessions.slots
    ensures var slot := M.SlotFor(r.billed, r.charged, sid, r.m.sessions.slots[sid].epoch);
            var view := ViewOf(r.m.sessions, sid);
            && view == SessionView(slot.turn, slot.total, slot.turnFailed, slot.failed)
            && view.turnFailed <= view.turn <= view.session
            && view.turnFailed <= view.sessionFailed <= view.session
  {
    SessionsAgree(clock, events, ids, r);
  }
}
