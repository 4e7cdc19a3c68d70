/** The request meter's exact 60-second window: a bounded ring of send stamps and
    a sorted list of failure stamps (`_trim_recent_locked`, `record`,
    `_record_window_fail`). */
module MeterRing {

  const RECENT_MAX: nat := 20000
  const WINDOW_S := 60.0

  predicate Sorted(s: seq<real>) { forall i, j :: 0 <= i < j < |s| ==> s[i] <= s[j] }

  /** Pop the aged-out head. */
  function TrimHead(s: seq<real>, cutoff: real): seq<real> {
    if s != [] && s[0] < cutoff then TrimHead(s[1..], cutoff) else s
  }

  /** What goes is the longest aged-out prefix. */
  lemma {:induction false} TrimHeadIs(s: seq<real>, cutoff: real) returns (k: nat)
    ensures k <= |s| && TrimHead(s, cutoff) == s[k..]
    ensures forall i :: 0 <= i < k ==> s[i] < cutoff
    ensures k < |s| ==> s[k] >= cutoff
  {
    k := 0;
    if s != [] && s[0] < cutoff {
      var n := TrimHeadIs(s[1..], cutoff);
      k := n + 1;
      assert s[1..][n..] == s[k..];
      assert forall i :: 0 < i < k ==> s[i] == s[1..][i - 1];
    }
  }

  /** A deque of at most RECENT_MAX: the oldest falls off. */
  function Push(ring: seq<real>, ts: real): (r: seq<real>)
    ensures |r| <= if |ring| < RECENT_MAX then |ring| + 1 else |ring|
  {
    (if |ring| >= RECENT_MAX then ring[1..] else ring) + [ts]
  }

  /** bisect.insort: after its equals. */
  function Insort(s: seq<real>, ts: real): (r: seq<real>)
    ensures |r| == |s| + 1
  {
    if s == [] || s[|s| - 1] <= ts then s + [ts] else Insort(s[..|s| - 1], ts) + [s[|s| - 1]]
  }

  function KeepLast(s: seq<real>, m: nat): seq<real> { if |s| <= m then s else s[|s| - m..] }

  lemma {:induction false} InsortIs(s: seq<real>, ts: real, k: nat)
    requires k <= |s|
    requires forall i :: 0 <= i < k ==> s[i] <= ts
    requires forall i :: k <= i < |s| ==> ts < s[i]
    ensures Insort(s, ts) == s[..k] + [ts] + s[k..]
  {
    if k < |s| {
      var n := |s| - 1;
      InsortIs(s[..n], ts, k);
      assert s[k..] == s[..n][k..] + [s[n]];
    } else {
      assert s[..k] == s && s[k..] == [];
    }
  }

  lemma InsertionPoint(s: seq<real>, ts: real) returns (k: nat)
    requires Sorted(s)
    ensures k <= |s|
    ensures forall i :: 0 <= i < k ==> s[i] <= ts
    ensures forall i :: k <= i < |s| ==> ts < s[i]
  {
    k := |s|;
    while k > 0 && s[k - 1] > ts
      invariant k <= |s| && forall i :: k <= i < |s| ==> ts < s[i]
    {
      k := k - 1;
    }
  }

  /** The insertion point keeps everything before it and shifts the rest. */
  lemma InsortAt(s: seq<real>, ts: real) returns (k: nat)
    requires Sorted(s)
    ensures k <= |s| && Insort(s, ts) == s[..k] + [ts] + s[k..]
    ensures forall i :: 0 <= i < k ==> s[i] <= ts
    ensures forall i :: k <= i < |s| ==> ts < s[i]
  {
    k := InsertionPoint(s, ts);
    InsortIs(s, ts, k);
  }

  lemma InsortSorted(s: seq<real>, ts: real)
    requires Sorted(s)
    ensures Sorted(Insort(s, ts))
  {
    var k := InsortAt(s, ts);
  }

  // ---------- The ring against the history ----------

  /** How many of the stamps are at or after `cutoff`. */
  function AtOrAfter(stamps: seq<real>, cutoff: real): nat {
    if stamps == [] then 0
    else AtOrAfter(stamps[..|stamps| - 1], cutoff) + if stamps[|stamps| - 1] >= cutoff then 1 else 0
  }

  lemma {:induction false} AtOrAfterConcat(a: seq<real>, b: seq<real>, cutoff: real)
    ensures AtOrAfter(a + b, cutoff) == AtOrAfter(a, cutoff) + AtOrAfter(b, cutoff)
  {
    if b == [] {
      assert a + b == a;
    } else {
      assert (a + b)[..|a + b| - 1] == a + b[..|b| - 1];
      AtOrAfterConcat(a, b[..|b| - 1], cutoff);
    }
  }

  lemma {:induction false} AllAtOrAfter(s: seq<real>, cutoff: real)
    requires forall i :: 0 <= i < |s| ==> s[i] >= cutoff
    ensures AtOrAfter(s, cutoff) == |s|
  {
    if s != [] {
      AllAtOrAfter(s[..|s| - 1], cutoff);
    }
  }

  lemma {:induction false} NoneAtOrAfter(s: seq<real>, cutoff: real)
    requires forall i :: 0 <= i < |s| ==> s[i] < cutoff
    ensures AtOrAfter(s, cutoff) == 0
  {
    if s != [] {
      NoneAtOrAfter(s[..|s| - 1], cutoff);
    }
  }

  /** The sends of the true window are the last of a history in order. */
  lemma {:induction false} WindowIsSuffix(sends: seq<real>, cutoff: real)
    requires Sorted(sends)
    ensures AtOrAfter(sends, cutoff) <= |sends|
    ensures forall i :: 0 <= i < |sends| ==> (sends[i] >= cutoff <==> i >= |sends| - AtOrAfter(sends, cutoff))
  {
    if sends != [] {
      var n := |sends| - 1;
      WindowIsSuffix(sends[..n], cutoff);
      if n > 0 {
        assert sends[..n][n - 1] == sends[n - 1] <= sends[n];
      }
    }
  }

  function Least(a: nat, b: nat): nat { if a <= b then a else b }

  /** The ring is the newest of the history's last 60 seconds: all of them, or as
      many as it holds. */
  predicate RingIs(ring: seq<real>, sends: seq<real>, cutoff: real) {
    && |ring| <= |sends| && ring == sends[|sends| - |ring|..]
    && |ring| == Least(AtOrAfter(sends, cutoff), RECENT_MAX)
  }

  lemma FewerLater(sends: seq<real>, cutoff: real, later: real)
    requires Sorted(sends) && cutoff <= later
    ensures AtOrAfter(sends, later) <= AtOrAfter(sends, cutoff)
  {
    WindowIsSuffix(sends, cutoff);
    WindowIsSuffix(sends, later);
    var n := AtOrAfter(sends, later);
    assert n > 0 ==> sends[|sends| - n] >= later;
  }

  lemma Boundary(sends: seq<real>, k: nat, cutoff: real)
    requires Sorted(sends) && k <= |sends|
    ensures k > 0 && sends[k - 1] < cutoff ==> AtOrAfter(sends, cutoff) <= |sends| - k
    ensures k < |sends| && sends[k] >= cutoff ==> AtOrAfter(sends, cutoff) >= |sends| - k
    ensures AtOrAfter(sends, cutoff) <= |sends|
  {
    WindowIsSuffix(sends, cutoff);
  }

  /** A suffix of a history in order, trimmed, is the history's window cut to it. */
  lemma TrimmedLength(sends: seq<real>, d: nat, later: real)
    requires Sorted(sends) && d <= |sends|
    ensures |TrimHead(sends[d..], later)| == Least(|sends| - d, AtOrAfter(sends, later))
  {
    var n := TrimHeadIs(sends[d..], later);
    Boundary(sends, d + n, later);
    if n > 0 {
      assert sends[d..][n - 1] == sends[d + n - 1];
    }
  }

  /** Trimming at a later instant. */
  lemma TrimKeepsRing(ring: seq<real>, sends: seq<real>, cutoff: real, later: real)
    requires RingIs(ring, sends, cutoff) && Sorted(sends) && cutoff <= later
    ensures RingIs(TrimHead(ring, later), sends, later)
  {
    FewerLater(sends, cutoff, later);
    TrimmedLength(sends, |sends| - |ring|, later);
    var n := TrimHeadIs(ring, later);
  }

  lemma {:induction false} PushKeepsRing(ring: seq<real>, sends: seq<real>, ts: real, cutoff: real)
    requires RingIs(ring, sends, cutoff) && cutoff <= ts
    ensures RingIs(Push(ring, ts), sends + [ts], cutoff)
  {
    AtOrAfterConcat(sends, [ts], cutoff);
    AllAtOrAfter([ts], cutoff);
    var n := |Push(ring, ts)|;
    assert (sends + [ts])[|sends| + 1 - n..] == sends[|sends| + 1 - n..] + [ts];
  }

  /** An eviction happened no longer ago than any window the ring cannot hold. */
  ghost predicate DropsNoted(sends: seq<real>, droppedAt: real, now: real) {
    forall c :: c >= now - WINDOW_S && AtOrAfter(sends, c) > RECENT_MAX ==> droppedAt >= c
  }

  function DroppedAt(ring: seq<real>, droppedAt: real, ts: real): real {
    if |ring| >= RECENT_MAX then ts else droppedAt
  }

  lemma RecordNotesDrops(ring: seq<real>, sends: seq<real>, droppedAt: real, ts: real)
    requires Sorted(sends + [ts]) && RingIs(ring, sends, ts - WINDOW_S) && DropsNoted(sends, droppedAt, ts)
    ensures DropsNoted(sends + [ts], DroppedAt(ring, droppedAt, ts), ts)
  {
    assert Sorted(sends) by {
      assert sends == (sends + [ts])[..|sends|];
    }
    forall c | c >= ts - WINDOW_S && AtOrAfter(sends + [ts], c) > RECENT_MAX
      ensures DroppedAt(ring, droppedAt, ts) >= c
    {
      AtOrAfterConcat(sends, [ts], c);
      assert AtOrAfter([ts], c) <= 1;
      FewerLater(sends, ts - WINDOW_S, c);
      WindowIsSuffix(sends + [ts], c);
      assert (sends + [ts])[|sends|] >= c;
    }
  }

  /** The reported rate is the true 60-second count, or the ring's size if that is
      less; and it is exact once no eviction is as young as 60 seconds. */
  lemma RateIsExact(ring: seq<real>, sends: seq<real>, droppedAt: real, now: real)
    requires Sorted(sends) && RingIs(ring, sends, now - WINDOW_S) && DropsNoted(sends, droppedAt, now)
    ensures |ring| == AtOrAfter(sends, now - WINDOW_S) <==> AtOrAfter(sends, now - WINDOW_S) <= RECENT_MAX
    ensures now - droppedAt > WINDOW_S ==> |ring| == AtOrAfter(sends, now - WINDOW_S)
  {
  }

  // ---------- The capped flag at exactly 60 seconds ----------

  /** `rate_capped`: is the reported rate only a floor? */
  predicate Flagged(droppedAt: real, now: real) { droppedAt != 0.0 && now - droppedAt < WINDOW_S }

  /** The rate is short with the flag down if and only if the ring cannot hold the last 60
      seconds and the last loss is exactly that old, or is dated at the clock's zero,
      which the flag takes for none. */
  lemma FlagMissesIff(ring: seq<real>, sends: seq<real>, droppedAt: real, now: real)
    requires Sorted(sends) && RingIs(ring, sends, now - WINDOW_S) && DropsNoted(sends, droppedAt, now)
    ensures var count := AtOrAfter(sends, now - WINDOW_S);
            !Flagged(droppedAt, now) && |ring| < count
            <==> count > RECENT_MAX && (now - droppedAt == WINDOW_S || droppedAt == 0.0)
  {
    RateIsExact(ring, sends, droppedAt, now);
  }

  function Repeat(ts: real, n: nat): (r: seq<real>)
    ensures |r| == n && forall i :: 0 <= i < n ==> r[i] == ts
  {
    if n == 0 then [] else Repeat(ts, n - 1) + [ts]
  }

  /** The ring and its last loss after `n` sends at the one instant `ts`. */
  function Burst(ts: real, n: nat): (seq<real>, real) {
    if n == 0 then ([], 0.0)
    else
      var (ring, droppedAt) := Burst(ts, n - 1);
      var trimmed := TrimHead(ring, ts - WINDOW_S);
      (Push(trimmed, ts), DroppedAt(trimmed, droppedAt, ts))
  }

  lemma {:induction false} BurstIs(ts: real, n: nat)
    ensures Burst(ts, n).0 == Repeat(ts, Least(n, RECENT_MAX))
    ensures n > RECENT_MAX ==> Burst(ts, n).1 == ts
  {
    if n > 0 {
      BurstIs(ts, n - 1);
      var m := Least(n - 1, RECENT_MAX);
      if n > RECENT_MAX {
        assert Repeat(ts, m)[1..] + [ts] == Repeat(ts, RECENT_MAX);
      }
    }
  }

  /** `rate_capped` reads the loss as too old from 60 seconds on, the window drops a
      send only after them: at that one instant the flag is down and the count short. */
  lemma CappedFlagMissesTheBoundary(ts: real, n: nat)
    requires n > RECENT_MAX
    ensures var (ring, droppedAt) := Burst(ts, n);
            var now := droppedAt + WINDOW_S;
            && !(now - droppedAt < WINDOW_S)
            && |TrimHead(ring, now - WINDOW_S)| < AtOrAfter(Repeat(ts, n), now - WINDOW_S)
  {
    BurstIs(ts, n);
    AllAtOrAfter(Repeat(ts, n), ts);
  }

  // ---------- Failures of the last 60 seconds ----------

  /** How many sends at or after `cutoff` have been settled as failed. */
  function SettledSince(sends: seq<real>, settled: set<nat>, cutoff: real): nat {
    if sends == [] then 0
    else
      var n := |sends| - 1;
      SettledSince(sends[..n], settled, cutoff) + if n in settled && sends[n] >= cutoff then 1 else 0
  }

  lemma {:induction false} SettledAreSends(sends: seq<real>, settled: set<nat>, cutoff: real)
    ensures SettledSince(sends, settled, cutoff) <= AtOrAfter(sends, cutoff)
  {
    if sends != [] {
      SettledAreSends(sends[..|sends| - 1], settled, cutoff);
    }
  }

  lemma {:induction false} SettleOne(sends: seq<real>, settled: set<nat>, i: nat, cutoff: real)
    requires i !in settled
    ensures SettledSince(sends, settled + {i}, cutoff)
         == SettledSince(sends, settled, cutoff) + if i < |sends| && sends[i] >= cutoff then 1 else 0
  {
    if sends != [] {
      SettleOne(sends[..|sends| - 1], settled, i, cutoff);
    }
  }

  /** The list never holds more late-enough stamps than sends failed. */
  ghost predicate FailsBounded(fails: seq<real>, sends: seq<real>, settled: set<nat>) {
    && Sorted(fails) && |fails| <= RECENT_MAX
    && forall c :: AtOrAfter(fails, c) <= SettledSince(sends, settled, c)
  }

  lemma SuffixBounded(fails: seq<real>, k: nat, sends: seq<real>, settled: set<nat>)
    requires FailsBounded(fails, sends, settled) && k <= |fails|
    ensures FailsBounded(fails[k..], sends, settled)
  {
    forall c ensures AtOrAfter(fails[k..], c) <= SettledSince(sends, settled, c) {
      assert fails == fails[..k] + fails[k..];
      AtOrAfterConcat(fails[..k], fails[k..], c);
    }
  }

  lemma SendKeepsFails(fails: seq<real>, sends: seq<real>, settled: set<nat>, ts: real)
    requires FailsBounded(fails, sends, settled)
    ensures FailsBounded(fails, sends + [ts], settled)
  {
    forall c ensures AtOrAfter(fails, c) <= SettledSince(sends + [ts], settled, c) {
      assert (sends + [ts])[..|sends|] == sends;
    }
  }

  lemma InsortCounts(fails: seq<real>, ts: real, c: real)
    requires Sorted(fails)
    ensures AtOrAfter(Insort(fails, ts), c) == AtOrAfter(fails, c) + if ts >= c then 1 else 0
  {
    var k := InsortAt(fails, ts);
    assert fails == fails[..k] + fails[k..];
    AtOrAfterConcat(fails[..k], fails[k..], c);
    AtOrAfterConcat(fails[..k] + [ts], fails[k..], c);
    AtOrAfterConcat(fails[..k], [ts], c);
  }

  /** The list after a failure of the send at `ts` settles at `now`. */
  function NoteFail(fails: seq<real>, ts: real, now: real): seq<real> {
    if now - ts < WINDOW_S then KeepLast(Insort(fails, ts), RECENT_MAX) else fails
  }

  lemma OneMoreFail(fails: seq<real>, sends: seq<real>, settled: set<nat>, i: nat)
    requires FailsBounded(fails, sends, settled) && i < |sends| && i !in settled
    ensures Sorted(Insort(fails, sends[i]))
    ensures forall c :: AtOrAfter(Insort(fails, sends[i]), c) <= SettledSince(sends, settled + {i}, c)
    ensures forall c :: AtOrAfter(fails, c) <= SettledSince(sends, settled + {i}, c)
  {
    InsortSorted(fails, sends[i]);
    forall c
      ensures AtOrAfter(Insort(fails, sends[i]), c) <= SettledSince(sends, settled + {i}, c)
      ensures AtOrAfter(fails, c) <= SettledSince(sends, settled + {i}, c)
    {
      SettleOne(sends, settled, i, c);
      InsortCounts(fails, sends[i], c);
    }
  }

  lemma FewerInSuffix(s: seq<real>, k: nat, c: real)
    requires k <= |s|
    ensures AtOrAfter(s[k..], c) <= AtOrAfter(s, c)
  {
    assert s == s[..k] + s[k..];
    AtOrAfterConcat(s[..k], s[k..], c);
  }

  lemma KeepLastBounded(s: seq<real>, sends: seq<real>, settled: set<nat>)
    requires Sorted(s) && forall c :: AtOrAfter(s, c) <= SettledSince(sends, settled, c)
    ensures FailsBounded(KeepLast(s, RECENT_MAX), sends, settled)
  {
    if |s| > RECENT_MAX {
      var k := |s| - RECENT_MAX;
      forall c ensures AtOrAfter(s[k..], c) <= SettledSince(sends, settled, c) {
        FewerInSuffix(s, k, c);
      }
    }
  }

  lemma FailKeepsFails(fails: seq<real>, sends: seq<real>, settled: set<nat>, i: nat, now: real)
    requires FailsBounded(fails, sends, settled) && i < |sends| && i !in settled
    ensures FailsBounded(NoteFail(fails, sends[i], now), sends, settled + {i})
  {
    OneMoreFail(fails, sends, settled, i);
    KeepLastBounded(Insort(fails, sends[i]), sends, settled + {i});
  }

  /** In the exact window too, failures are never more than requests. */
  lemma FailRateWithinRate(ring: seq<real>, fails: seq<real>, sends: seq<real>, settled: set<nat>, now: real)
    requires RingIs(ring, sends, now - WINDOW_S) && FailsBounded(fails, sends, settled)
    ensures |TrimHead(fails, now - WINDOW_S)| <= |ring|
  {
    var cutoff := now - WINDOW_S;
    var k := TrimHeadIs(fails, cutoff);
    var r := fails[k..];
    SuffixBounded(fails, k, sends, settled);
    assert forall i :: 0 <= i < |r| ==> r[0] <= r[i];
    AllAtOrAfter(r, cutoff);
    SettledAreSends(sends, settled, cutoff);
  }
}
