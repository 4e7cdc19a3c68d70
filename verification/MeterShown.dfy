/** What the snapshots show after any run of the meter, number by number, as counts of the
    history that nobody stores. */
module MeterShown {

  import opened Wrappers
  import opened MeterRing
  import opened MeterBuckets
  import opened MeterFails
  import M = MeterSessions
  import opened CallMeter
  import opened MeterRuns

  // ---------- Failures ----------

  /** A failure of a send in the reported history was charged to its minute. */
  ghost predicate ChargedIfReported(r: Run) {
    forall i :: i in r.settled && i < |r.sends| && Minute(r.sends[i].ts) >= First(r.clock) ==> i in r.charged
  }

  ghost predicate FailuresKept(r: Run) {
    FailsExact(r.m.recentFail, Stamps(r.sends), r.settled, r.clock) && ChargedIfReported(r)
  }

  lemma OldIsPast(ts: real, now: real)
    requires OutOfHistory(ts, now)
    ensures now - ts >= WINDOW_S
  {
    assert Minute(ts) <= Minute(now) - 60;
  }

  lemma ChargedLater(r: Run, later: Run)
    requires ChargedIfReported(r) && later.settled == r.settled && later.charged == r.charged && r.clock <= later.clock
    requires Indices(r.settled, r.sends) && r.sends <= later.sends
    ensures ChargedIfReported(later)
  {
    MinuteMonotone(r.clock, later.clock);
  }

  lemma SendKeepsList(fails: seq<real>, stamps: seq<real>, settled: set<nat>, clock: real, ts: real)
    requires FailsExact(fails, stamps, settled, clock) && clock <= ts && |stamps| !in settled
    ensures FailsExact(TrimHead(fails, ts - WINDOW_S), stamps + [ts], settled, ts)
  {
    ExactLater(fails, stamps, settled, clock, ts);
    TrimKeepsExact(fails, stamps, settled, ts);
    SendKeepsExact(TrimHead(fails, ts - WINDOW_S), stamps, settled, ts, ts);
  }

  /** What a send changes of what failures are judged by. */
  lemma SendIs(r: Run, s: Sent, sid: string, bound: Option<nat>)
    requires Legal(r, Send(s, sid, bound))
    ensures var later := Step(r, Send(s, sid, bound));
            && later.sends == r.sends + [s] && later.settled == r.settled && later.charged == r.charged
            && later.clock == s.ts && later.m.recentFail == TrimHead(r.m.recentFail, s.ts - WINDOW_S)
  {
  }

  lemma SendKeepsFailures(r: Run, s: Sent, sid: string, bound: Option<nat>, later: Run)
    requires TotalsAgree(r) && FailuresKept(r) && r.clock <= s.ts
    requires later.sends == r.sends + [s] && later.settled == r.settled && later.charged == r.charged
    requires later.clock == s.ts && later.m.recentFail == TrimHead(r.m.recentFail, s.ts - WINDOW_S)
    ensures FailuresKept(later)
  {
    StampsAppend(r.sends, s);
    SendKeepsList(r.m.recentFail, Stamps(r.sends), r.settled, r.clock, s.ts);
    ChargedLater(r, later);
  }

  lemma SettleKeepsFailures(r: Run, i: nat, reason: string, now: real)
    requires Agrees(r) && FailuresKept(r) && Legal(r, Settle(i, reason, now))
    ensures FailuresKept(Step(r, Settle(i, reason, now)))
  {
    var stamps, ts := Stamps(r.sends), r.sends[i].ts;
    ExactLater(r.m.recentFail, stamps, r.settled, r.clock, now);
    MinuteMonotone(r.clock, now);
    if OutOfHistory(ts, now) {
      OldIsPast(ts, now);
      OldKeepsExact(r.m.recentFail, stamps, r.settled, i, now);
    } else {
      NoteKeepsExact(r.m.recentFail, stamps, r.settled, i, now);
    }
  }

  lemma LookKeepsFailures(r: Run, sid: string, now: real)
    requires Agrees(r) && FailuresKept(r) && Legal(r, Look(sid, now))
    ensures FailuresKept(Step(r, Look(sid, now)))
  {
    ExactLater(r.m.recentFail, Stamps(r.sends), r.settled, r.clock, now);
    TrimKeepsExact(r.m.recentFail, Stamps(r.sends), r.settled, now);
    ChargedLater(r, Step(r, Look(sid, now)));
  }

  lemma {:induction false} FailuresAreKept(clock: real, events: seq<Event>, r: Run)
    requires Reaches(Start(clock), events, r)
    ensures Agrees(r) && FailuresKept(r)
  {
    RunAgrees(clock, events, r);
    if events != [] {
      var n := |events| - 1;
      var mid :| Reaches(Start(clock), events[..n], mid) && Legal(mid, events[n]) && r == Step(mid, events[n]);
      FailuresAreKept(clock, events[..n], mid);
      match events[n]
      case Send(s, sid, bound) =>
        SendIs(mid, s, sid, bound);
        SendKeepsFailures(mid, s, sid, bound, r);
      case Settle(i, reason, now) => SettleKeepsFailures(mid, i, reason, now);
      case Turn(_) =>
      case Look(sid, now) => LookKeepsFailures(mid, sid, now);
    } else {
      NothingFailed(clock);
    }
  }

  lemma NothingFailed(clock: real)
    ensures FailsExact([], [], {}, clock)
  {
    forall cutoff, strict | Recent(cutoff, strict, clock) ensures CountsAt([], [], {}, cutoff, strict) {
    }
  }

  // ---------- The numbers ----------

  /** The sends of the minutes from `first` on, and of them those that failed. */
  function SentFrom(sends: seq<Sent>, first: int): set<nat> {
    set i: nat | i < |sends| && Minute(sends[i].ts) >= first
  }

  function FailedFrom(sends: seq<Sent>, settled: set<nat>, first: int): set<nat> {
    set i: nat | i < |sends| && i in settled && Minute(sends[i].ts) >= first
  }

  lemma WindowShown(r: Run, bs: Buckets, now: real, minutes: nat, first: int)
    requires FailuresKept(r) && TotalsAgree(r) && now >= r.clock && Faithful(bs, r.sends, r.charged, now)
    requires 1 <= minutes <= BUCKETS && first == FirstOf(now, minutes)
    ensures SentSince(bs, first) == |SentFrom(r.sends, first)|
    ensures FailedSince(bs, first) == |FailedFrom(r.sends, r.settled, first)|
  {
    WindowsCountTheHistory(bs, r.sends, r.charged, now, minutes);
    assert ChosenSince(r.sends, AllOf(r.sends), first) == SentFrom(r.sends, first);
    ChargedAreFailed(r, now, first);
  }

  lemma ChargedAreFailed(r: Run, now: real, first: int)
    requires ChargedIfReported(r) && TotalsAgree(r) && now >= r.clock && first >= First(now)
    ensures ChosenSince(r.sends, r.charged, first) == FailedFrom(r.sends, r.settled, first)
  {
    MinuteMonotone(r.clock, now);
  }

  /** After any run, what a snapshot shows: of the last 60 seconds the sends, up to 20000;
      of the current minute and the 14, and the 59, before it every send, and every send
      that has failed. */
  lemma SnapshotsCountTheHistory(clock: real, events: seq<Event>, r: Run, now: real, w: Windows)
    requires Reaches(Start(clock), events, r) && now >= r.clock
    requires var m := Reported(r, now).m; Shows(w, m.recent, m.recentFail, m.buckets, now)
    ensures w.perMinute == Least(AtOrAfter(Stamps(r.sends), now - 60.0), 20000)
    ensures w.last15m == |SentFrom(r.sends, Minute(now) - 14)|
    ensures w.last60m == |SentFrom(r.sends, Minute(now) - 59)|
    ensures w.failed15m == |FailedFrom(r.sends, r.settled, Minute(now) - 14)|
    ensures w.failed60m == |FailedFrom(r.sends, r.settled, Minute(now) - 59)|
  {
    FailuresAreKept(clock, events, r);
    TrimmedRate(r.m, Stamps(r.sends), r.trimmed, now);
    LookAgrees(r, M.NOBODY, now);
    var bs := Reported(r, now).m.buckets;
    WindowShown(r, bs, now, 15, Minute(now) - 14);
    WindowShown(r, bs, now, BUCKETS, Minute(now) - 59);
  }

  /** And the failed sends of the last 60 seconds, up to 20000, one that is exactly 60
      seconds old if it was known to have failed before. */
  lemma FailedPerMinuteCountsTheHistory(clock: real, events: seq<Event>, r: Run, now: real, w: Windows)
    requires Reaches(Start(clock), events, r) && now >= r.clock
    requires var m := Reported(r, now).m; Shows(w, m.recent, m.recentFail, m.buckets, now)
    ensures var stamps, cut := Stamps(r.sends), now - 60.0;
            && Least(FailedLater(stamps, r.settled, cut, true), 20000) <= w.failedPerMinute
            && w.failedPerMinute <= Least(SettledSince(stamps, r.settled, cut), 20000)
            && ((forall i :: 0 <= i < |stamps| && i in r.settled ==> stamps[i] != cut) ==>
                  w.failedPerMinute == Least(SettledSince(stamps, r.settled, cut), 20000))
            && forall cutoff :: cutoff > cut ==>
                 AtOrAfter(Reported(r, now).m.recentFail, cutoff) == Least(SettledSince(stamps, r.settled, cutoff), 20000)
  {
    FailuresAreKept(clock, events, r);
    ListIsShown(r.m.recentFail, Stamps(r.sends), r.settled, r.clock, now, Reported(r, now).m.recentFail);
  }

  lemma ListIsShown(fails: seq<real>, stamps: seq<real>, settled: set<nat>, clock: real, now: real, shown: seq<real>)
    requires FailsExact(fails, stamps, settled, clock) && FailsBounded(fails, stamps, settled) && clock <= now
    requires shown == TrimHead(fails, now - WINDOW_S)
    ensures Least(FailedLater(stamps, settled, now - 60.0, true), 20000) <= |shown|
    ensures |shown| <= Least(SettledSince(stamps, settled, now - 60.0), 20000)
    ensures (forall i :: 0 <= i < |stamps| && i in settled ==> stamps[i] != now - 60.0) ==>
              |shown| == Least(SettledSince(stamps, settled, now - 60.0), 20000)
    ensures forall cutoff :: cutoff > now - 60.0 ==>
              AtOrAfter(shown, cutoff) == Least(SettledSince(stamps, settled, cutoff), 20000)
  {
    ExactLater(fails, stamps, settled, clock, now);
    FailRateIsExact(fails, stamps, settled, now);
  }

  /** A minute is sixty seconds of the clock, and a bucket's key its number. */
  lemma MinuteIs(ts: real)
    ensures Minute(ts) as real * 60.0 <= ts < Minute(ts) as real * 60.0 + 60.0
  {
  }

  // ---------- Losses ----------

  /** What is noted as a loss was one: a send that came when the ring was full. */
  ghost predicate LossIsReal(stamps: seq<real>, droppedAt: real) {
    droppedAt == 0.0
    || exists n :: 0 <= n < |stamps| && stamps[n] == droppedAt && AtOrAfter(stamps[..n], droppedAt - WINDOW_S) >= RECENT_MAX
  }

  lemma LossStaysReal(stamps: seq<real>, ts: real, droppedAt: real)
    requires LossIsReal(stamps, droppedAt)
    ensures LossIsReal(stamps + [ts], droppedAt)
  {
    if droppedAt != 0.0 {
      var n :| 0 <= n < |stamps| && stamps[n] == droppedAt && AtOrAfter(stamps[..n], droppedAt - WINDOW_S) >= RECENT_MAX;
      assert (stamps + [ts])[n] == droppedAt && (stamps + [ts])[..n] == stamps[..n];
    }
  }

  lemma PushKeepsLoss(ring: seq<real>, droppedAt: real, stamps: seq<real>, ts: real)
    requires RingIs(ring, stamps, ts - WINDOW_S) && LossIsReal(stamps, droppedAt)
    ensures LossIsReal(stamps + [ts], DroppedAt(ring, droppedAt, ts))
  {
    LossStaysReal(stamps, ts, droppedAt);
    assert (stamps + [ts])[|stamps|] == ts && (stamps + [ts])[..|stamps|] == stamps;
  }

  lemma SendKeepsLoss(m: Meter, stamps: seq<real>, trimmed: real, s: Sent, sid: string, bound: Option<nat>)
    requires RingAgrees(m, stamps, trimmed) && trimmed <= s.ts && LossIsReal(stamps, m.droppedAt)
    ensures LossIsReal(stamps + [s.ts], Recorded(m, s, sid, bound).0.droppedAt)
  {
    var ring := Trimmed(m, s.ts).recent;
    TrimAgrees(m, stamps, trimmed, s.ts);
    PushKeepsLoss(ring, m.droppedAt, stamps, s.ts);
  }

  lemma {:induction false} LossesAreReal(clock: real, events: seq<Event>, r: Run)
    requires Reaches(Start(clock), events, r)
    ensures LossIsReal(Stamps(r.sends), r.m.droppedAt)
  {
    if events != [] {
      var n := |events| - 1;
      var mid :| Reaches(Start(clock), events[..n], mid) && Legal(mid, events[n]) && r == Step(mid, events[n]);
      LossesAreReal(clock, events[..n], mid);
      RunAgrees(clock, events[..n], mid);
      match events[n]
      case Send(s, sid, bound) =>
        StampsAppend(mid.sends, s);
        SendKeepsLoss(mid.m, Stamps(mid.sends), mid.trimmed, s, sid, bound);
      case _ =>
    }
  }

  /** After any run the floor flag is up only within 60 seconds of a real loss. */
  lemma FlagMeansLoss(clock: real, events: seq<Event>, r: Run, now: real)
    requires Reaches(Start(clock), events, r) && now >= r.clock && Flagged(Reported(r, now).m.droppedAt, now)
    ensures exists n :: 0 <= n < |r.sends| && now - r.sends[n].ts < 60.0
                     && AtOrAfter(Stamps(r.sends)[..n], r.sends[n].ts - 60.0) >= 20000
  {
    LossesAreReal(clock, events, r);
    var stamps, droppedAt := Stamps(r.sends), r.m.droppedAt;
    var n :| 0 <= n < |stamps| && stamps[n] == droppedAt && AtOrAfter(stamps[..n], droppedAt - WINDOW_S) >= RECENT_MAX;
    assert r.sends[n].ts == droppedAt;
  }
}
