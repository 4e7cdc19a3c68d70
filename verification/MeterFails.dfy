/** The meter's list of failure stamps against the history: of the last 60 seconds it
    holds every failed send, or as many as it may. */
module MeterFails {

  import opened MeterRing

  // ---------- Counting past a cutoff ----------

  /** Past the cutoff: later than it, or not before it. */
  predicate Past(ts: real, cutoff: real, strict: bool) { if strict then ts > cutoff else ts >= cutoff }

  /** Whatever is past the cutoff is less than 60 seconds old at `now`. */
  predicate Recent(cutoff: real, strict: bool, now: real) {
    if strict then cutoff >= now - WINDOW_S else cutoff > now - WINDOW_S
  }

  function Later(stamps: seq<real>, cutoff: real, strict: bool): nat {
    if stamps == [] then 0
    else Later(stamps[..|stamps| - 1], cutoff, strict) + if Past(stamps[|stamps| - 1], cutoff, strict) then 1 else 0
  }

  /** How many of the failed sends are past the cutoff. */
  function FailedLater(sends: seq<real>, settled: set<nat>, cutoff: real, strict: bool): nat {
    if sends == [] then 0
    else
      var n := |sends| - 1;
      FailedLater(sends[..n], settled, cutoff, strict) + if n in settled && Past(sends[n], cutoff, strict) then 1 else 0
  }

  lemma {:induction false} LaterIsAtOrAfter(stamps: seq<real>, cutoff: real)
    ensures Later(stamps, cutoff, false) == AtOrAfter(stamps, cutoff)
    ensures Later(stamps, cutoff, true) <= AtOrAfter(stamps, cutoff)
  {
    if stamps != [] {
      LaterIsAtOrAfter(stamps[..|stamps| - 1], cutoff);
    }
  }

  lemma {:induction false} FailedLaterIsSettledSince(sends: seq<real>, settled: set<nat>, cutoff: real)
    ensures FailedLater(sends, settled, cutoff, false) == SettledSince(sends, settled, cutoff)
    ensures FailedLater(sends, settled, cutoff, true) <= SettledSince(sends, settled, cutoff)
  {
    if sends != [] {
      FailedLaterIsSettledSince(sends[..|sends| - 1], settled, cutoff);
    }
  }

  /** Strictly later and not before come to the same if nothing failed at the cutoff. */
  lemma {:induction false} NoneAtTheCutoff(sends: seq<real>, settled: set<nat>, cutoff: real)
    requires forall i :: 0 <= i < |sends| && i in settled ==> sends[i] != cutoff
    ensures FailedLater(sends, settled, cutoff, true) == SettledSince(sends, settled, cutoff)
  {
    if sends != [] {
      NoneAtTheCutoff(sends[..|sends| - 1], settled, cutoff);
    }
  }

  lemma {:induction false} LaterConcat(a: seq<real>, b: seq<real>, cutoff: real, strict: bool)
    ensures Later(a + b, cutoff, strict) == Later(a, cutoff, strict) + Later(b, cutoff, strict)
  {
    if b == [] {
      assert a + b == a;
    } else {
      assert (a + b)[..|a + b| - 1] == a + b[..|b| - 1];
      LaterConcat(a, b[..|b| - 1], cutoff, strict);
    }
  }

  lemma {:induction false} NoneLater(s: seq<real>, cutoff: real, strict: bool)
    requires forall i :: 0 <= i < |s| ==> !Past(s[i], cutoff, strict)
    ensures Later(s, cutoff, strict) == 0
  {
    if s != [] {
      NoneLater(s[..|s| - 1], cutoff, strict);
    }
  }

  lemma {:induction false} AllLater(s: seq<real>, cutoff: real, strict: bool)
    requires forall i :: 0 <= i < |s| ==> Past(s[i], cutoff, strict)
    ensures Later(s, cutoff, strict) == |s|
  {
    if s != [] {
      AllLater(s[..|s| - 1], cutoff, strict);
    }
  }

  lemma {:induction false} SettleOneLater(sends: seq<real>, settled: set<nat>, i: nat, cutoff: real, strict: bool)
    requires i !in settled
    ensures FailedLater(sends, settled + {i}, cutoff, strict)
         == FailedLater(sends, settled, cutoff, strict) + if i < |sends| && Past(sends[i], cutoff, strict) then 1 else 0
  {
    if sends != [] {
      SettleOneLater(sends[..|sends| - 1], settled, i, cutoff, strict);
    }
  }

  // ---------- The list is exact ----------

  ghost predicate CountsAt(fails: seq<real>, sends: seq<real>, settled: set<nat>, cutoff: real, strict: bool) {
    Later(fails, cutoff, strict) == Least(FailedLater(sends, settled, cutoff, strict), RECENT_MAX)
  }

  /** Past every cutoff of the last 60 seconds it holds as many stamps as sends failed, up
      to its size. */
  ghost predicate FailsExact(fails: seq<real>, sends: seq<real>, settled: set<nat>, now: real) {
    && Sorted(fails) && |fails| <= RECENT_MAX
    && forall cutoff, strict :: Recent(cutoff, strict, now) ==> CountsAt(fails, sends, settled, cutoff, strict)
  }

  lemma ExactLater(fails: seq<real>, sends: seq<real>, settled: set<nat>, now: real, later: real)
    requires FailsExact(fails, sends, settled, now) && now <= later
    ensures FailsExact(fails, sends, settled, later)
  {
    forall cutoff, strict | Recent(cutoff, strict, later) ensures CountsAt(fails, sends, settled, cutoff, strict) {
      assert Recent(cutoff, strict, now);
    }
  }

  lemma TrimKeepsExact(fails: seq<real>, sends: seq<real>, settled: set<nat>, now: real)
    requires FailsExact(fails, sends, settled, now)
    ensures FailsExact(TrimHead(fails, now - WINDOW_S), sends, settled, now)
  {
    var k := TrimHeadIs(fails, now - WINDOW_S);
    forall cutoff, strict | Recent(cutoff, strict, now) ensures CountsAt(fails[k..], sends, settled, cutoff, strict) {
      assert fails == fails[..k] + fails[k..];
      LaterConcat(fails[..k], fails[k..], cutoff, strict);
      NoneLater(fails[..k], cutoff, strict);
    }
  }

  lemma SendKeepsExact(fails: seq<real>, sends: seq<real>, settled: set<nat>, ts: real, now: real)
    requires FailsExact(fails, sends, settled, now) && |sends| !in settled
    ensures FailsExact(fails, sends + [ts], settled, now)
  {
    forall cutoff, strict | Recent(cutoff, strict, now) ensures CountsAt(fails, sends + [ts], settled, cutoff, strict) {
      assert (sends + [ts])[..|sends|] == sends;
      assert CountsAt(fails, sends, settled, cutoff, strict);
    }
  }

  lemma InsortCountsLater(fails: seq<real>, ts: real, cutoff: real, strict: bool)
    requires Sorted(fails)
    ensures Later(Insort(fails, ts), cutoff, strict)
         == Later(fails, cutoff, strict) + if Past(ts, cutoff, strict) then 1 else 0
  {
    var k := InsortAt(fails, ts);
    assert fails == fails[..k] + fails[k..];
    LaterConcat(fails[..k], fails[k..], cutoff, strict);
    LaterConcat(fails[..k] + [ts], fails[k..], cutoff, strict);
    LaterConcat(fails[..k], [ts], cutoff, strict);
  }

  /** Cut to its size, an ordered list loses no stamp past the cutoff that fits. */
  lemma KeepLastCounts(s: seq<real>, cutoff: real, strict: bool)
    requires Sorted(s) && |s| <= RECENT_MAX + 1
    ensures Later(KeepLast(s, RECENT_MAX), cutoff, strict) == Least(Later(s, cutoff, strict), RECENT_MAX)
  {
    if |s| > RECENT_MAX {
      assert s == [s[0]] + s[1..];
      LaterConcat([s[0]], s[1..], cutoff, strict);
      if Past(s[0], cutoff, strict) {
        AllLater(s[1..], cutoff, strict);
      } else {
        LaterAtMost(s[1..], cutoff, strict);
      }
    } else {
      LaterAtMost(s, cutoff, strict);
    }
  }

  lemma {:induction false} LaterAtMost(s: seq<real>, cutoff: real, strict: bool)
    ensures Later(s, cutoff, strict) <= |s|
  {
    if s != [] {
      LaterAtMost(s[..|s| - 1], cutoff, strict);
    }
  }

  lemma NotedCounts(fails: seq<real>, sends: seq<real>, settled: set<nat>, i: nat, now: real, cutoff: real, strict: bool)
    requires FailsExact(fails, sends, settled, now) && i < |sends| && i !in settled && Recent(cutoff, strict, now)
    ensures CountsAt(NoteFail(fails, sends[i], now), sends, settled + {i}, cutoff, strict)
  {
    assert CountsAt(fails, sends, settled, cutoff, strict);
    SettleOneLater(sends, settled, i, cutoff, strict);
    if now - sends[i] < WINDOW_S {
      InsortSorted(fails, sends[i]);
      InsortCountsLater(fails, sends[i], cutoff, strict);
      KeepLastCounts(Insort(fails, sends[i]), cutoff, strict);
    }
  }

  /** A failure noted keeps the list exact. */
  lemma NoteKeepsExact(fails: seq<real>, sends: seq<real>, settled: set<nat>, i: nat, now: real)
    requires FailsExact(fails, sends, settled, now) && i < |sends| && i !in settled
    ensures FailsExact(NoteFail(fails, sends[i], now), sends, settled + {i}, now)
  {
    InsortSorted(fails, sends[i]);
    forall cutoff, strict | Recent(cutoff, strict, now)
      ensures CountsAt(NoteFail(fails, sends[i], now), sends, settled + {i}, cutoff, strict)
    {
      NotedCounts(fails, sends, settled, i, now, cutoff, strict);
    }
  }

  /** So does one of a send that is 60 seconds old, noted or not. */
  lemma OldKeepsExact(fails: seq<real>, sends: seq<real>, settled: set<nat>, i: nat, now: real)
    requires FailsExact(fails, sends, settled, now) && i < |sends| && i !in settled && now - sends[i] >= WINDOW_S
    ensures FailsExact(fails, sends, settled + {i}, now)
  {
    forall cutoff, strict | Recent(cutoff, strict, now) ensures CountsAt(fails, sends, settled + {i}, cutoff, strict) {
      assert CountsAt(fails, sends, settled, cutoff, strict);
      SettleOneLater(sends, settled, i, cutoff, strict);
    }
  }

  /** The reported number: the failed sends of the last 60 seconds, up to the list's size.
      One that is exactly 60 seconds old is counted if it was known to have failed before
      it came of age. */
  lemma FailRateIsExact(fails: seq<real>, sends: seq<real>, settled: set<nat>, now: real)
    requires FailsExact(fails, sends, settled, now) && FailsBounded(fails, sends, settled)
    ensures var shown := TrimHead(fails, now - WINDOW_S);
            && Least(FailedLater(sends, settled, now - WINDOW_S, true), RECENT_MAX) <= |shown|
            && |shown| <= Least(SettledSince(sends, settled, now - WINDOW_S), RECENT_MAX)
            && (forall cutoff :: cutoff > now - WINDOW_S ==>
                  AtOrAfter(shown, cutoff) == Least(SettledSince(sends, settled, cutoff), RECENT_MAX))
            && ((forall i :: 0 <= i < |sends| && i in settled ==> sends[i] != now - WINDOW_S) ==>
                  |shown| == Least(SettledSince(sends, settled, now - WINDOW_S), RECENT_MAX))
  {
    var shown, cut := TrimHead(fails, now - WINDOW_S), now - WINDOW_S;
    TrimKeepsExact(fails, sends, settled, now);
    var k := TrimHeadIs(fails, cut);
    SuffixBounded(fails, k, sends, settled);
    assert forall i :: 0 <= i < |shown| ==> shown[0] <= shown[i];
    AllAtOrAfter(shown, cut);
    assert CountsAt(shown, sends, settled, cut, true);
    LaterAtMost(shown, cut, true);
    if forall i :: 0 <= i < |sends| && i in settled ==> sends[i] != cut {
      NoneAtTheCutoff(sends, settled, cut);
    }
    forall cutoff | cutoff > cut
      ensures AtOrAfter(shown, cutoff) == Least(SettledSince(sends, settled, cutoff), RECENT_MAX)
    {
      assert CountsAt(shown, sends, settled, cutoff, false);
      LaterIsAtOrAfter(shown, cutoff);
      FailedLaterIsSettledSince(sends, settled, cutoff);
    }
  }
}
