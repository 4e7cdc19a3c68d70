/** The request meter itself: `call_meter.py` and the reading half of
    `_meter_report.py`. A class over the meter's variables, each method proved to be
    the corresponding step of the value `Meter`. */
module CallMeter {

  import opened Wrappers
  import opened Totals
  import opened MeterRing
  import opened MeterBuckets
  import opened MeterSessions

  datatype Meter = Meter(
    total: nat,
    failTotal: nat,
    recent: seq<real>,
    droppedAt: real,
    recentFail: seq<real>,
    buckets: Buckets,
    sessions: Sessions)

  const ZERO := Meter(0, 0, [], 0.0, [], map[], EMPTY)

  function Trimmed(m: Meter, now: real): Meter {
    m.(recent := TrimHead(m.recent, now - WINDOW_S), recentFail := TrimHead(m.recentFail, now - WINDOW_S))
  }

  /** A send counted in the totals and the windows. */
  function Counted(m: Meter, s: Sent): Meter {
    var ring := TrimHead(m.recent, s.ts - WINDOW_S);
    Meter(m.total + 1, m.failTotal, Push(ring, s.ts), DroppedAt(ring, m.droppedAt, s.ts),
          TrimHead(m.recentFail, s.ts - WINDOW_S), BumpSend(m.buckets, s), m.sessions)
  }

  function Recorded(m: Meter, s: Sent, sid: string, bound: Option<nat>): (r: (Meter, Option<nat>)) {
    var (sessions, stamp) := Bill(m.sessions, sid, bound);
    (Counted(m, s).(sessions := sessions), stamp)
  }

  /** A failure of the send at `ts`: too old for every reported minute, it is only in
      the lifetime total. */
  function Settled(m: Meter, ts: real, sid: string, stamp: Option<nat>, reason: string, now: real): Meter {
    var at := if ts > now then now else ts;
    var counted := m.(failTotal := m.failTotal + 1);
    if OutOfHistory(at, now) then counted
    else counted.(recentFail := NoteFail(m.recentFail, at, now), buckets := BumpFail(m.buckets, at, reason),
                  sessions := FailSession(m.sessions, sid, stamp))
  }

  function Viewed(m: Meter, sid: string, now: real): Meter {
    Trimmed(m, now).(buckets := Prune(m.buckets, now),
                     sessions := if sid != NOBODY && sid in m.sessions.slots then Touch(m.sessions, sid) else m.sessions)
  }

  lemma RecordedIs(m: Meter, s: Sent, sid: string, bound: Option<nat>, r: Meter, stamp: Option<nat>)
    requires r.total == m.total + 1 && r.failTotal == m.failTotal
    requires r.recent == Push(TrimHead(m.recent, s.ts - WINDOW_S), s.ts)
    requires r.droppedAt == DroppedAt(TrimHead(m.recent, s.ts - WINDOW_S), m.droppedAt, s.ts)
    requires r.recentFail == TrimHead(m.recentFail, s.ts - WINDOW_S)
    requires r.buckets == BumpSend(m.buckets, s)
    requires (r.sessions, stamp) == Bill(m.sessions, sid, bound)
    ensures (r, stamp) == Recorded(m, s, sid, bound)
  {
  }

  /** No failure more in any minute after the current one. */
  ghost predicate NoneAhead(before: Buckets, after: Buckets, now: real) {
    forall k :: k > Minute(now) ==> FailedAt(after, k) <= FailedAt(before, k)
  }

  lemma FailsNoneAhead(bs: Buckets, at: real, reason: string, now: real)
    requires at <= now
    ensures NoneAhead(bs, bs, now) && NoneAhead(bs, BumpFail(bs, at, reason), now)
  {
    MinuteMonotone(at, now);
  }

  lemma SettledIs(m: Meter, ts: real, sid: string, stamp: Option<nat>, reason: string, now: real, r: Meter)
    requires r.total == m.total && r.failTotal == m.failTotal + 1 && r.recent == m.recent && r.droppedAt == m.droppedAt
    requires var at := if ts > now then now else ts;
             if OutOfHistory(at, now)
             then r.recentFail == m.recentFail && r.buckets == m.buckets && r.sessions == m.sessions
             else && r.recentFail == NoteFail(m.recentFail, at, now) && r.buckets == BumpFail(m.buckets, at, reason)
                  && r.sessions == FailSession(m.sessions, sid, stamp)
    ensures r == Settled(m, ts, sid, stamp, reason, now)
  {
  }

  // ---------- Sorted-list library calls ----------

  /** bisect.bisect_left. */
  method BisectLeft(s: seq<real>, x: real) returns (i: nat)
    requires Sorted(s)
    ensures i <= |s|
    ensures forall k :: 0 <= k < i ==> s[k] < x
    ensures forall k :: i <= k < |s| ==> s[k] >= x
  {
    i := 0;
    var hi := |s|;
    while i < hi
      invariant i <= hi <= |s|
      invariant forall k :: 0 <= k < i ==> s[k] < x
      invariant forall k :: hi <= k < |s| ==> s[k] >= x
    {
      var mid := (i + hi) / 2;
      if s[mid] < x { i := mid + 1; } else { hi := mid; }
    }
  }

  /** bisect.insort: insert to the right of equals. */
  method InsertSorted(s: seq<real>, x: real) returns (r: seq<real>)
    requires Sorted(s)
    ensures r == Insort(s, x) && Sorted(r)
  {
    var lo, hi := 0, |s|;
    while lo < hi
      invariant 0 <= lo <= hi <= |s|
      invariant forall k :: 0 <= k < lo ==> s[k] <= x
      invariant forall k :: hi <= k < |s| ==> x < s[k]
    {
      var mid := (lo + hi) / 2;
      if x < s[mid] { hi := mid; } else { lo := mid + 1; }
    }
    r := s[..lo] + [x] + s[lo..];
    InsortIs(s, x, lo);
    InsortSorted(s, x);
  }

  lemma {:induction false} TrimIsDrop(s: seq<real>, cutoff: real, i: nat)
    requires i <= |s| && (forall k :: 0 <= k < i ==> s[k] < cutoff) && (i < |s| ==> s[i] >= cutoff)
    ensures TrimHead(s, cutoff) == s[i..]
  {
    if i > 0 {
      TrimIsDrop(s[1..], cutoff, i - 1);
      assert s[1..][i - 1..] == s[i..];
    }
  }

  lemma SuffixSorted(s: seq<real>, k: nat)
    requires Sorted(s) && k <= |s|
    ensures Sorted(s[k..])
  {
  }

  datatype SessionView = SessionView(turn: nat, session: nat, turnFailed: nat, sessionFailed: nat)

  datatype Windows = Windows(perMinute: nat, last15m: nat, last60m: nat, failedPerMinute: nat, failed15m: nat, failed60m: nat)

  function ViewOf(s: Sessions, sid: string): SessionView {
    if sid != NOBODY && sid in s.slots
    then SessionView(s.slots[sid].turn, s.slots[sid].total, s.slots[sid].turnFailed, s.slots[sid].failed)
    else SessionView(0, 0, 0, 0)
  }

  /** What the snapshots report of a trimmed meter at `now`: the sends and failures of the
      last 60 seconds, and those of the current minute and the 14, or 59, before it. */
  ghost predicate Shows(w: Windows, recent: seq<real>, recentFail: seq<real>, bs: Buckets, now: real) {
    && w.perMinute == |recent| && w.failedPerMinute == |recentFail|
    && w.last15m == SentSince(bs, Minute(now) - 14) && w.failed15m == FailedSince(bs, Minute(now) - 14)
    && w.last60m == SentSince(bs, Minute(now) - 59) && w.failed60m == FailedSince(bs, Minute(now) - 59)
  }

  class Meters {
    var total: nat
    var failTotal: nat
    var recent: seq<real>
    var droppedAt: real
    var recentFail: seq<real>
    var buckets: Buckets
    var order: seq<string>
    var slots: map<string, Slot>

    ghost function Table(): Sessions
      reads `order, `slots
    {
      Sessions(order, slots)
    }

    ghost function Value(): Meter
      reads this
    {
      Meter(total, failTotal, recent, droppedAt, recentFail, buckets, Table())
    }

    ghost predicate TableOk()
      reads `order, `slots
    {
      Ordered(Table()) && |order| <= MAX_SESSIONS
    }

    ghost predicate Valid()
      reads `recentFail, `order, `slots
    {
      Sorted(recentFail) && TableOk()
    }

    constructor ()
      ensures Valid() && Value() == ZERO
    {
      total, failTotal, recent, droppedAt := 0, 0, [], 0.0;
      recentFail, buckets, order, slots := [], map[], [], map[];
    }

    /** Both 60-second windows lose their aged-out heads. */
    method TrimRecentLocked(now: real)
      requires Sorted(recentFail)
      modifies `recent, `recentFail
      ensures Sorted(recentFail)
      ensures recent == TrimHead(old(recent), now - WINDOW_S)
      ensures recentFail == TrimHead(old(recentFail), now - WINDOW_S)
    {
      var cutoff := now - WINDOW_S;
      while recent != [] && recent[0] < cutoff
        invariant TrimHead(recent, cutoff) == TrimHead(old(recent), cutoff)
        invariant recentFail == old(recentFail)
        decreases |recent|
      {
        recent := recent[1..];
      }
      var i := BisectLeft(recentFail, cutoff);
      TrimIsDrop(recentFail, cutoff, i);
      SuffixSorted(recentFail, i);
      if i > 0 {
        recentFail := recentFail[i..];
      }
    }

    /** The minute's bucket, made if missing; too many minutes, the oldest go. */
    method EnsureBucketLocked(key: int)
      modifies `buckets
      ensures buckets == WithBucket(old(buckets), key)
    {
      if key !in buckets {
        buckets := buckets[key := NEW_BUCKET];
        while |buckets| > BUCKETS + 1
          invariant Evict(buckets) == Evict(old(buckets)[key := NEW_BUCKET])
          decreases |buckets|
        {
          var least := LeastKey(buckets);
          assert (buckets - {least}).Keys == buckets.Keys - {least};
          buckets := buckets - {least};
        }
      }
    }

    method BumpBucketLocked(s: Sent)
      modifies `buckets
      ensures buckets == BumpSend(old(buckets), s)
    {
      var key := Minute(s.ts);
      EnsureBucketLocked(key);
      if key in buckets {
        buckets := buckets[key := CountSend(buckets[key], s)];
      }
    }

    method BumpFailBucketLocked(ts: real, reason: string)
      modifies `buckets
      ensures buckets == BumpFail(old(buckets), ts, reason)
    {
      var key := Minute(ts);
      EnsureBucketLocked(key);
      if key in buckets {
        buckets := buckets[key := CountFail(buckets[key], reason)];
      }
    }

    /** The session's slot, made if missing, and the newest either way. */
    method FetchSlot(sid: string)
      requires TableOk()
      modifies `order, `slots
      ensures TableOk() && Table() == Touch(old(Table()), sid) && sid in slots
    {
      TouchKeepsOrder(Table(), sid);
      if sid !in slots {
        slots := slots[sid := NEW_SLOT];
        order := order + [sid];
        while |order| > MAX_SESSIONS
          invariant EvictOldest(Table()) == Touch(old(Table()), sid)
          decreases |order|
        {
          slots := slots - {order[0]};
          order := order[1..];
        }
      } else {
        order := Others(order, sid) + [sid];
      }
    }

    method BillSessionLocked(sid: string, bound: Option<nat>) returns (stamp: Option<nat>)
      requires TableOk() && sid != NOBODY
      modifies `order, `slots
      ensures TableOk() && (Table(), stamp) == Bill(old(Table()), sid, bound)
    {
      FetchSlot(sid);
      var slot := slots[sid];
      slot := slot.(total := slot.total + 1);
      stamp := bound;
      if bound.None? || bound.value == slot.epoch {
        slot := slot.(turn := slot.turn + 1);
        stamp := Some(slot.epoch);
      }
      slots := slots[sid := slot];
    }

    method BillIfKnown(sid: string, bound: Option<nat>) returns (stamp: Option<nat>)
      requires TableOk()
      modifies `order, `slots
      ensures TableOk() && (Table(), stamp) == Bill(old(Table()), sid, bound)
    {
      stamp := bound;
      if sid != NOBODY {
        stamp := BillSessionLocked(sid, bound);
      }
    }

    /** The ring's append; a full ring loses its oldest, and the loss is noted. */
    method AppendRecent(ts: real)
      modifies `recent, `droppedAt
      ensures recent == Push(old(recent), ts)
      ensures droppedAt == DroppedAt(old(recent), old(droppedAt), ts)
    {
      if |recent| >= RECENT_MAX {
        droppedAt := ts;
        recent := recent[1..];
      }
      recent := recent + [ts];
    }

    /** Everything a send counts in but its session. */
    method CountLocked(s: Sent)
      requires Sorted(recentFail)
      modifies `total, `recent, `droppedAt, `recentFail, `buckets
      ensures Sorted(recentFail)
      ensures total == old(total) + 1
      ensures recent == Push(TrimHead(old(recent), s.ts - WINDOW_S), s.ts)
      ensures droppedAt == DroppedAt(TrimHead(old(recent), s.ts - WINDOW_S), old(droppedAt), s.ts)
      ensures recentFail == TrimHead(old(recentFail), s.ts - WINDOW_S)
      ensures buckets == BumpSend(old(buckets), s)
    {
      TrimRecentLocked(s.ts);
      AppendRecent(s.ts);
      BumpBucketLocked(s);
      total := total + 1;
    }

    /** One request went out. The stamps are never before the ring's newest. */
    method Record(s: Sent, sid: string, bound: Option<nat>) returns (stamp: Option<nat>)
      requires Valid()
      modifies `total, `recent, `droppedAt, `recentFail, `buckets, `order, `slots
      ensures Valid() && (Value(), stamp) == Recorded(old(Value()), s, sid, bound)
      ensures total == old(total) + 1
      ensures recent == Push(TrimHead(old(recent), s.ts - WINDOW_S), s.ts)
      ensures droppedAt == DroppedAt(TrimHead(old(recent), s.ts - WINDOW_S), old(droppedAt), s.ts)
      ensures recentFail == TrimHead(old(recentFail), s.ts - WINDOW_S)
      ensures buckets == BumpSend(old(buckets), s)
      ensures (Table(), stamp) == Bill(old(Table()), sid, bound)
    {
      CountLocked(s);
      stamp := BillIfKnown(sid, bound);
      RecordedIs(old(Value()), s, sid, bound, Value(), stamp);
    }

    method RecordWindowFail(ts: real, now: real, reason: string) returns (reported: bool)
      requires Sorted(recentFail)
      modifies `recentFail, `buckets
      ensures Sorted(recentFail) && reported == !OutOfHistory(ts, now)
      ensures recentFail == if reported then NoteFail(old(recentFail), ts, now) else old(recentFail)
      ensures buckets == if reported then BumpFail(old(buckets), ts, reason) else old(buckets)
    {
      if Minute(ts) < Minute(now) - (BUCKETS - 1) {
        return false;
      }
      if now - ts < WINDOW_S {
        recentFail := InsertSorted(recentFail, ts);
        if |recentFail| > RECENT_MAX {
          SuffixSorted(recentFail, |recentFail| - RECENT_MAX);
          recentFail := recentFail[|recentFail| - RECENT_MAX..];
        }
      }
      BumpFailBucketLocked(ts, reason);
      return true;
    }

    method ChargeFailure(sid: string, stamp: Option<nat>)
      requires TableOk() && sid in slots
      modifies `slots
      ensures TableOk()
      ensures slots == old(slots)[sid := Lose(old(slots)[sid], stamp == Some(old(slots)[sid].epoch))]
    {
      var slot := slots[sid];
      slot := slot.(failed := slot.failed + 1);
      if stamp.Some? && stamp.value == slot.epoch {
        slot := slot.(turnFailed := slot.turnFailed + 1);
      }
      slots := slots[sid := slot];
    }

    method RecordSessionFail(sid: string, stamp: Option<nat>)
      requires TableOk()
      modifies `order, `slots
      ensures TableOk() && Table() == FailSession(old(Table()), sid, stamp)
      ensures if sid != NOBODY && sid in old(slots) then order != [] && order[|order| - 1] == sid
              else Table() == old(Table())
    {
      if sid == NOBODY || sid !in slots {
        return;
      }
      TouchKeepsOrder(Table(), sid);
      FetchSlot(sid);
      ChargeFailure(sid, stamp);
    }

    /** A failure too old for every reported minute goes no further. */
    method SettleLocked(at: real, now: real, reason: string, sid: string, stamp: Option<nat>)
      requires Valid()
      modifies `recentFail, `buckets, `order, `slots
      ensures Valid()
      ensures if OutOfHistory(at, now)
              then recentFail == old(recentFail) && buckets == old(buckets) && Table() == old(Table())
              else && recentFail == NoteFail(old(recentFail), at, now) && buckets == BumpFail(old(buckets), at, reason)
                   && Table() == FailSession(old(Table()), sid, stamp)
    {
      var reported := RecordWindowFail(at, now, reason);
      if reported {
        RecordSessionFail(sid, stamp);
      }
    }

    /** The request sent at `ts`, billed to `sid` and stamped `stamp`, failed; a session
        named by the caller is charged in place of the one billed. */
    method RecordFailure(ts: real, sid: string, stamp: Option<nat>, reason: string, named: Option<string>, now: real)
      requires Valid()
      modifies this
      ensures Valid() && Value() == Settled(old(Value()), ts, named.GetOr(sid), stamp, reason, now)
      ensures failTotal == old(failTotal) + 1 && total == old(total) && recent == old(recent)
      ensures NoneAhead(old(buckets), buckets, now)
    {
      var at := if ts > now then now else ts;
      failTotal := failTotal + 1;
      FailsNoneAhead(buckets, at, reason, now);
      SettleLocked(at, now, reason, named.GetOr(sid), stamp);
      SettledIs(old(Value()), ts, named.GetOr(sid), stamp, reason, now, Value());
    }

    method TurnReset(sid: string) returns (epoch: Option<nat>)
      requires TableOk()
      modifies `order, `slots
      ensures TableOk() && (Table(), epoch) == ResetTurn(old(Table()), sid)
    {
      if sid == NOBODY {
        return None;
      }
      FetchSlot(sid);
      var slot := slots[sid];
      slot := slot.(turn := 0, turnFailed := 0, epoch := slot.epoch + 1);
      slots := slots[sid := slot];
      return Some(slot.epoch);
    }

    method PruneBucketsLocked(now: real)
      modifies `buckets
      ensures buckets == Prune(old(buckets), now)
      ensures forall k :: k in buckets <==> k in old(buckets) && k >= Minute(now) - 60
    {
      var oldest := Minute(now) - BUCKETS;
      var stale := set k | k in buckets && k < oldest;
      while |stale| > 0
        invariant stale <= buckets.Keys && forall k :: k in stale ==> k < oldest
        invariant forall k :: k in old(buckets) && k !in stale && k >= oldest ==> k in buckets
        invariant forall k :: k in buckets ==> k in old(buckets) && buckets[k] == old(buckets)[k] && (k in stale || k >= oldest)
        decreases |stale|
      {
        ghost var some := Pick(stale);
        var k :| k in stale;
        buckets := buckets - {k};
        stale := stale - {k};
      }
      assert stale == {};
      var kept := Prune(old(buckets), now);
      assert forall k :: k in buckets <==> k in kept;
      assert buckets == kept;
    }

    /** Sends and failures of the last `minutes` whole minutes, the current one
        included. */
    method BucketSumsLocked(now: real, minutes: nat) returns (n: nat, f: nat)
      ensures n == SentSince(buckets, FirstOf(now, minutes)) && f == FailedSince(buckets, FirstOf(now, minutes))
    {
      var first := Minute(now) - (minutes - 1);
      var ns := map k | k in buckets && k >= first :: buckets[k].n;
      var fs := map k | k in buckets && k >= first :: buckets[k].f;
      n := SumOf(ns);
      f := SumOf(fs);
    }

    /** Sends and failures of each of the last sixty minutes, oldest first. */
    method SeriesLocked(now: real) returns (n: seq<nat>, f: seq<nat>)
      ensures |n| == BUCKETS && |f| == BUCKETS
      ensures forall j :: 0 <= j < BUCKETS ==> n[j] == SentAt(buckets, First(now) + j) && f[j] == FailedAt(buckets, First(now) + j)
    {
      var first := Minute(now) - (BUCKETS - 1);
      n, f := [], [];
      while |n| < BUCKETS
        invariant |n| == |f| <= BUCKETS
        invariant forall j :: 0 <= j < |n| ==> n[j] == SentAt(buckets, first + j) && f[j] == FailedAt(buckets, first + j)
      {
        n, f := n + [SentAt(buckets, first + |n|)], f + [FailedAt(buckets, first + |n|)];
      }
    }

    method WindowsLocked(now: real) returns (w: Windows)
      requires Sorted(recentFail)
      modifies `recent, `recentFail, `buckets
      ensures Sorted(recentFail)
      ensures recent == TrimHead(old(recent), now - WINDOW_S)
      ensures recentFail == TrimHead(old(recentFail), now - WINDOW_S)
      ensures buckets == Prune(old(buckets), now)
      ensures Shows(w, recent, recentFail, buckets, now)
    {
      PruneBucketsLocked(now);
      TrimRecentLocked(now);
      var n15, f15 := BucketSumsLocked(now, 15);
      var n60, f60 := BucketSumsLocked(now, BUCKETS);
      w := Windows(|recent|, n15, n60, |recentFail|, f15, f60);
    }

    /** Counts of this turn, this session and the process, and the rates. */
    method Snapshot(sid: string, now: real) returns (view: SessionView, all: nat, failed: nat, w: Windows)
      requires Valid()
      modifies this
      ensures Valid() && Value() == Viewed(old(Value()), sid, now)
      ensures view == ViewOf(old(Table()), sid) && all == old(total) && failed == old(failTotal)
      ensures if sid != NOBODY && sid in old(slots) then order != [] && order[|order| - 1] == sid
              else Table() == old(Table())
      ensures Shows(w, recent, recentFail, buckets, now)
    {
      view := SessionView(0, 0, 0, 0);
      if sid != NOBODY && sid in slots {
        TouchKeepsOrder(Table(), sid);
        FetchSlot(sid);
        view := SessionView(slots[sid].turn, slots[sid].total, slots[sid].turnFailed, slots[sid].failed);
      }
      w := WindowsLocked(now);
      all, failed := total, failTotal;
    }

    /** The machine-wide meter, with the series and whether the rate is only a floor. */
    method GlobalSnapshot(now: real) returns (w: Windows, rateCapped: bool, n: seq<nat>, f: seq<nat>)
      requires Valid()
      modifies this
      ensures Valid() && Value() == Viewed(old(Value()), NOBODY, now)
      ensures Shows(w, recent, recentFail, buckets, now)
      ensures rateCapped <==> Flagged(droppedAt, now)
      ensures |n| == BUCKETS && |f| == BUCKETS
      ensures forall j :: 0 <= j < BUCKETS ==> n[j] == SentAt(buckets, First(now) + j) && f[j] == FailedAt(buckets, First(now) + j)
    {
      w := WindowsLocked(now);
      rateCapped := if droppedAt != 0.0 then now - droppedAt < WINDOW_S else false;
      n, f := SeriesLocked(now);
    }
  }

  method SumOf(m: map<int, nat>) returns (sum: nat)
    ensures sum == Total(m)
  {
    sum := 0;
    var rest := m;
    while |rest| > 0
      invariant sum + Total(rest) == Total(m)
      decreases |rest|
    {
      ghost var some := Pick(rest.Keys);
      var k :| k in rest;
      TotalWithout(rest, k);
      assert (rest - {k}).Keys == rest.Keys - {k};
      sum := sum + rest[k];
      rest := rest - {k};
    }
  }
}
