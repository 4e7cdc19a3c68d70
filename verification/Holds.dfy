/** Server-imposed holds: the shared table of `_shared_window_holds.py` and the
    in-process copy of `_rate_holds.py`. Instants are real numbers; a clock may
    be read at any value. */
module Holds {

  import opened Wrappers

  type Key = string

  const ANY: Key := ""
  const DEFAULT_CAP_S := 60.0
  const MAX_HOLD_S := 3600.0

  function Min(a: real, b: real): real { if a < b then a else b }

  function Max(a: real, b: real): real { if a < b then b else a }

  /** The widest a hold may be: proportional, and never over an hour. */
  function Cap(cap: Option<real>): (c: real)
    ensures 5.0 < c <= MAX_HOLD_S
    ensures cap.Some? && 0.0 < cap.value <= MAX_HOLD_S ==> cap.value <= c
    ensures cap.Some? && 0.0 < cap.value ==> c == MAX_HOLD_S || c - 5.0 == cap.value + cap.value / 2.0
    ensures cap.None? || cap.value <= 0.0 ==> c == 95.0
  {
    var c := if cap.None? || cap.value <= 0.0 then DEFAULT_CAP_S else cap.value;
    Min(c * 1.5 + 5.0, MAX_HOLD_S)
  }

  /** SELECT MAX(until) over the keys that have a row. */
  function MaxUntil(holds: map<Key, real>, keys: seq<Key>): (m: Option<real>)
    ensures m.None? <==> forall k :: k in keys ==> k !in holds
    ensures m.Some? ==> exists k :: k in keys && k in holds && holds[k] == m.value
    ensures m.Some? ==> forall k :: k in keys && k in holds ==> holds[k] <= m.value
  {
    if keys == [] then None
    else
      var n := |keys| - 1;
      var m := MaxUntil(holds, keys[..n]);
      if keys[n] !in holds then m
      else if m.None? || m.value < holds[keys[n]] then Some(holds[keys[n]])
      else m
  }

  /** The rows no clock step can have produced. */
  function Believable(holds: map<Key, real>, bound: real): map<Key, real> {
    map k | k in holds && holds[k] <= bound :: holds[k]
  }

  /** `left` is the longest believable hold of `keys`, clamped to [0, cap]. */
  ghost predicate IsHoldLeft(left: real, holds: map<Key, real>, keys: seq<Key>, now: real, cap: real) {
    && 0.0 <= left <= cap
    && (forall k :: k in keys && k in holds && holds[k] <= now + cap ==> holds[k] - now <= left)
    && (left > 0.0 ==> exists k :: k in keys && k in holds && holds[k] <= now + cap && holds[k] - now == left)
  }

  lemma HoldLeftIsUnique(a: real, b: real, holds: map<Key, real>, keys: seq<Key>, now: real, cap: real)
    requires IsHoldLeft(a, holds, keys, now, cap) && IsHoldLeft(b, holds, keys, now, cap)
    ensures a == b
  {
    if a > 0.0 {
      var k :| k in keys && k in holds && holds[k] <= now + cap && holds[k] - now == a;
    }
    if b > 0.0 {
      var k :| k in keys && k in holds && holds[k] <= now + cap && holds[k] - now == b;
    }
  }

  /** The later of an instant and the key's row, neither counted beyond `bound`. */
  function Longer(holds: map<Key, real>, key: Key, until: real, bound: real): (r: real)
    ensures r <= bound
    ensures key !in holds ==> r == until || until > r == bound
    ensures key in holds && holds[key] <= bound && until <= bound ==> r >= until && r >= holds[key] && r in {until, holds[key]}
    ensures (key in holds && holds[key] > bound) || until > bound ==> r == bound
  {
    Min(bound, if key in holds then Max(holds[key], until) else until)
  }

  /** The shared table. */
  class SharedHolds {
    var holds: map<Key, real>

    constructor ()
      ensures holds == map[]
    {
      holds := map[];
    }

    /** Clamped on write, so a row no clock could have written cannot win. A
        believable hold is never shortened; what is written never passes the cap. */
    method SetHold(key: Key, untilTs: real, cap: Option<real>, now: real)
      modifies this
      ensures key in holds && holds[key] <= now + Cap(cap)
      ensures key in old(holds) && old(holds)[key] <= now + Cap(cap) ==> holds[key] >= old(holds)[key]
      ensures holds[key] >= Min(untilTs, now + Cap(cap))
      ensures holds[key] in {untilTs, now + Cap(cap)} || (key in old(holds) && holds[key] == old(holds)[key])
      ensures holds == Apply(old(holds), Set(key, untilTs, now), Cap(cap))
    {
      var lim := Cap(cap);
      var until := Min(untilTs, now + lim);
      if key in holds {
        until := Max(Min(holds[key], now + lim), until);
      }
      holds := holds[key := until];
    }

    /** Exact for every table, however poisoned; rows beyond the cap are dropped
        only when one of them was about to be believed. */
    method HoldLeft(keys: seq<Key>, now: real, cap: Option<real>) returns (left: real)
      modifies this
      ensures IsHoldLeft(left, old(holds), keys, now, Cap(cap))
      ensures holds == Apply(old(holds), Read(keys, now), Cap(cap))
      ensures holds == if exists k :: k in keys && k in old(holds) && old(holds)[k] > now + Cap(cap)
                       then Believable(old(holds), now + Cap(cap)) else old(holds)
      ensures IsHoldLeft(left, holds, keys, now, Cap(cap))
    {
      var longest := MaxUntil(holds, keys);
      if longest.None? {
        return 0.0;
      }
      left := longest.value - now;
      if left > Cap(cap) {
        left := DropPoisonedHold(keys, now, cap);
        return;
      }
      left := Max(0.0, left);
    }

    method DropPoisonedHold(keys: seq<Key>, now: real, cap: Option<real>) returns (left: real)
      modifies this
      ensures holds == Believable(old(holds), now + Cap(cap))
      ensures forall k :: k in holds <==> k in old(holds) && old(holds)[k] <= now + Cap(cap)
      ensures forall k :: k in holds ==> holds[k] == old(holds)[k]
      ensures IsHoldLeft(left, old(holds), keys, now, Cap(cap))
    {
      holds := Believable(holds, now + Cap(cap));
      var longest := MaxUntil(holds, keys);
      if longest.None? {
        return 0.0;
      }
      left := Max(0.0, Min(longest.value - now, Cap(cap)));
    }
  }

  // ---------- Runs of several processes over one table ----------

  datatype Event =
    | Set(key: Key, until: real, now: real)
    | Read(keys: seq<Key>, now: real)

  /** What `SharedHolds` leaves, given the cap every process reads in Settings. */
  function Apply(holds: map<Key, real>, e: Event, cap: real): map<Key, real> {
    match e
    case Set(key, until, now) =>
      holds[key := Longer(holds, key, until, now + cap)]
    case Read(keys, now) =>
      var longest := MaxUntil(holds, keys);
      if longest.Some? && longest.value - now > cap then Believable(holds, now + cap) else holds
  }

  function ApplyAll(holds: map<Key, real>, run: seq<Event>, cap: real): map<Key, real> {
    if run == [] then holds else Apply(ApplyAll(holds, run[..|run| - 1], cap), run[|run| - 1], cap)
  }

  /** Clocks that disagree by at most `slack`, read by `later`. */
  predicate ClocksAgree(run: seq<Event>, now: real, later: real, slack: real) {
    && now <= later + slack
    && (forall i :: 0 <= i < |run| ==> now <= run[i].now + slack && run[i].now <= later + slack)
    && (forall i, j :: 0 <= i < j < |run| ==> run[i].now <= run[j].now + slack)
  }

  /** No server answer holds a caller longer than `most`. */
  predicate AtMost(run: seq<Event>, most: real) {
    forall i :: 0 <= i < |run| && run[i].Set? ==> run[i].until <= run[i].now + most
  }

  /** A hold of `until`, noted at `now`, and what ran until it was read at `later`. */
  datatype Story = Story(start: map<Key, real>, key: Key, until: real, now: real, run: seq<Event>, later: real)

  /** Nothing in the story holds longer than `most`, and its clocks agree. */
  predicate Earned(s: Story, most: real, slack: real, cap: real) {
    && s.until <= s.now + most
    && (s.key in s.start ==> Min(s.start[s.key], s.now + cap) <= s.now + most)
    && ClocksAgree(s.run, s.now, s.later, slack) && AtMost(s.run, most)
  }

  function Noted(s: Story, cap: real): map<Key, real> { Apply(s.start, Set(s.key, s.until, s.now), cap) }

  function Left(s: Story, cap: real): map<Key, real> { ApplyAll(Noted(s, cap), s.run, cap) }

  /** The reader is held at least until `until`, and believes the row that says so. */
  predicate Binds(s: Story, cap: real) {
    s.key in Left(s, cap) && s.until <= Left(s, cap)[s.key] <= s.later + cap
  }

  predicate Kept(holds: map<Key, real>, key: Key, least: real, most: real) {
    key in holds && least <= holds[key] <= most
  }

  lemma SetKeeps(holds: map<Key, real>, key: Key, least: real, e: Event, top: real, cap: real)
    requires e.Set? && Kept(holds, key, least, top) && least <= e.now + cap && e.until <= top
    ensures Kept(Apply(holds, e, cap), key, least, top)
  {
  }

  lemma ReadKeeps(holds: map<Key, real>, key: Key, least: real, e: Event, top: real, cap: real)
    requires e.Read? && Kept(holds, key, least, top) && holds[key] <= e.now + cap
    ensures Kept(Apply(holds, e, cap), key, least, top)
  {
  }

  /** Up to its last event a story is one too, whether read then or at its end. */
  lemma EarnedBefore(s: Story, most: real, slack: real, cap: real)
    requires s.run != [] && Earned(s, most, slack, cap)
    ensures var e, front := s.run[|s.run| - 1], s.run[..|s.run| - 1];
            && Earned(s.(run := front, later := e.now), most, slack, cap) && Earned(s.(run := front), most, slack, cap)
            && e.now <= s.later + slack && s.now <= e.now + slack && (e.Set? ==> e.until <= e.now + most)
  {
  }

  /** A hold one process earned binds every other until it ends, whatever holds are
      written and read in between, if the longest hold leaves the cap a margin that
      covers what the clocks disagree by. */
  lemma {:induction false} EarnedHoldBinds(s: Story, most: real, slack: real, cap: real)
    requires Earned(s, most, slack, cap) && 0.0 <= slack && most + slack <= cap
    ensures Kept(Left(s, cap), s.key, s.until, s.later + most + slack) && Binds(s, cap)
    decreases |s.run|
  {
    if s.run != [] {
      var e, front := s.run[|s.run| - 1], s.run[..|s.run| - 1];
      var read, last := s.(run := front, later := e.now), s.(run := front);
      EarnedBefore(s, most, slack, cap);
      EarnedHoldBinds(read, most, slack, cap);
      EarnedHoldBinds(last, most, slack, cap);
      if e.Set? {
        SetKeeps(Left(last, cap), s.key, s.until, e, s.later + most + slack, cap);
      } else {
        ReadKeeps(Left(last, cap), s.key, s.until, e, s.later + most + slack, cap);
      }
    }
  }

  /** Without that margin a reader whose clock is behind deletes the hold, whatever else
      the table holds. */
  lemma ReaderBehindDropsTheHold(start: map<Key, real>, key: Key, now: real, most: real, slack: real, cap: real)
    requires most <= cap < most + slack
    ensures key !in Apply(Apply(start, Set(key, now + most, now), cap), Read([key], now - slack), cap)
  {
    var holds := Apply(start, Set(key, now + most, now), cap);
    assert key in [key];
    assert holds[key] >= now + most;
    assert MaxUntil(holds, [key]) == Some(holds[key]);
  }

  /** Every earned hold binds if and only if the longest leaves the cap that margin. */
  lemma EveryHoldBindsIff(most: real, slack: real, cap: real)
    requires 0.0 <= slack
    ensures (forall s: Story :: Earned(s, most, slack, cap) ==> Binds(s, cap)) <==> most + slack <= cap
  {
    if most + slack <= cap {
      forall s: Story | Earned(s, most, slack, cap) ensures Binds(s, cap) {
        EarnedHoldBinds(s, most, slack, cap);
      }
    } else if most > cap {
      var s := Story(map[], "", most, 0.0, [], 0.0);
      assert Earned(s, most, slack, cap) && !Binds(s, cap);
    } else {
      var s := Story(map[], "", most, 0.0, [Read([""], -slack)], -slack);
      assert s.run[..0] == [];
      ReaderBehindDropsTheHold(map[], "", 0.0, most, slack, cap);
      assert Left(s, cap) == Apply(ApplyAll(Noted(s, cap), s.run[..0], cap), s.run[0], cap);
      assert Earned(s, most, slack, cap) && !Binds(s, cap);
    }
  }

  /** What a process may note under `ceiling` (HoldFor) is at most `ceiling`, so its
      holds bind exactly within the margin the shared cap adds: five seconds and half the
      ceiling, less near the hour, and none at a ceiling of an hour. */
  lemma HoldsUnderACeilingBindIff(ceiling: real, slack: real)
    requires 0.0 <= slack && 0.0 < ceiling <= MAX_HOLD_S
    ensures var cap := Cap(Some(ceiling));
            && ((forall s: Story :: Earned(s, ceiling, slack, cap) ==> Binds(s, cap)) <==> slack <= cap - ceiling)
            && cap - ceiling == Min(ceiling * 0.5 + 5.0, MAX_HOLD_S - ceiling)
  {
    EveryHoldBindsIff(ceiling, slack, Cap(Some(ceiling)));
  }

  // ---------- The copy inside one process ----------

  function KeyOf(provider: Option<Key>): Key { provider.GetOr(ANY) }

  function HoldFor(retryAfter: real, holdCap: real): (h: real)
    ensures h <= holdCap
    ensures 0.0 < retryAfter <= holdCap ==> h == retryAfter
    ensures 0.0 < holdCap < retryAfter ==> h == holdCap
    ensures retryAfter <= 0.0 ==> h == 60.0 || h == holdCap < 60.0
  {
    Min(if retryAfter > 0.0 then retryAfter else 60.0, holdCap)
  }

  class ProcessHolds {
    var sends: seq<real>
    var holds: map<Key, real>
    const shared: SharedHolds

    constructor (shared: SharedHolds)
      ensures sends == [] && holds == map[] && this.shared == shared
    {
      sends, holds, this.shared := [], map[], shared;
    }

    /** Drop the aged-out prefix; of stamps in order, that is every aged-out one. */
    method TrimLocked(now: real)
      modifies this`sends
      ensures exists k :: 0 <= k <= |old(sends)| && sends == old(sends)[k..]
                       && forall i :: 0 <= i < k ==> old(sends)[i] <= now - 60.0
      ensures sends != [] ==> sends[0] > now - 60.0
      ensures (forall i, j :: 0 <= i < j < |old(sends)| ==> old(sends)[i] <= old(sends)[j])
          ==> forall t :: t in sends ==> t > now - 60.0
    {
      var cut := now - 60.0;
      var i := 0;
      while i < |sends| && sends[i] <= cut
        invariant 0 <= i <= |sends|
        invariant forall j :: 0 <= j < i ==> sends[j] <= cut
      {
        i := i + 1;
      }
      if i > 0 {
        sends := sends[i..];
      }
    }

    /** Never shortens what this process already knows, and tells the machine. */
    method NoteRateLimited(retryAfter: real, provider: Option<Key>, holdCap: real, wall: real, mono: real)
      requires holdCap >= 1.0
      modifies this`holds, shared
      ensures var key, hold := KeyOf(provider), HoldFor(retryAfter, holdCap);
              && holds == old(holds)[key := Max(if key in old(holds) then old(holds)[key] else 0.0, mono + hold)]
              && holds[key] >= mono + hold
              && shared.holds
                 == old(shared.holds)[key := Longer(old(shared.holds), key, wall + hold, wall + Cap(Some(holdCap)))]
              && shared.holds[key] >= wall + Min(hold, Cap(Some(holdCap)))
    {
      var hold := HoldFor(retryAfter, holdCap);
      var key := KeyOf(provider);
      shared.SetHold(key, wall + hold, Some(holdCap), wall);
      holds := holds[key := Max(if key in holds then holds[key] else 0.0, mono + hold)];
    }

    method HoldLeftLocked(now: real, provider: Option<Key>) returns (left: real)
      ensures left >= 0.0
      ensures forall k :: k in {ANY, KeyOf(provider)} && k in holds ==> holds[k] - now <= left
      ensures left > 0.0 ==> exists k :: k in {ANY, KeyOf(provider)} && k in holds && holds[k] - now == left
    {
      left := 0.0;
      var keys := {ANY, KeyOf(provider)};
      var todo := keys;
      while todo != {}
        invariant left >= 0.0 && todo <= keys
        invariant forall k :: k in keys - todo && k in holds ==> holds[k] - now <= left
        invariant left > 0.0 ==> exists k :: k in keys && k in holds && holds[k] - now == left
        decreases todo
      {
        var key :| key in todo;
        todo := todo - {key};
        if key in holds {
          left := Max(left, holds[key] - now);
        }
      }
      left := Max(0.0, left);
    }

    /** The longer of what this process knows and what the machine knows. */
    method HeldFor(provider: Option<Key>, holdCap: real, wall: real, mono: real) returns (left: real)
      requires holdCap >= 1.0
      modifies shared
      ensures forall k :: k in {ANY, KeyOf(provider)} && k in holds ==> holds[k] - mono <= left
      ensures shared.holds
           == if exists k :: (&& k in [ANY, KeyOf(provider)] && k in old(shared.holds)
                              && old(shared.holds)[k] > wall + Cap(Some(holdCap)))
              then Believable(old(shared.holds), wall + Cap(Some(holdCap))) else old(shared.holds)
      ensures exists s :: (
        && IsHoldLeft(s, old(shared.holds), [ANY, KeyOf(provider)], wall, Cap(Some(holdCap)))
        && s <= left
        && (left > s ==> exists k :: k in {ANY, KeyOf(provider)} && k in holds && holds[k] - mono == left))
    {
      var mine := HoldLeftLocked(mono, provider);
      var theirs := shared.HoldLeft([ANY, KeyOf(provider)], wall, Some(holdCap));
      left := Max(mine, theirs);
      assert theirs <= left;
    }
  }
}
