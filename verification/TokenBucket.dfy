/** The token bucket of `_rate_settings.py`, in exact real arithmetic. */
module TokenBucket {

  const MIN_RATE := 0.000000001

  function Max(a: real, b: real): real { if a < b then b else a }

  function Min(a: real, b: real): real { if a < b then a else b }

  datatype State = State(capacity: real, rate: real, tokens: real, last: real)

  /** What the clock's move to `now` refills; going back refills nothing. */
  function Gain(last: real, now: real, rate: real): real { Max(0.0, now - last) * rate }

  function Filled(capacity: real, tokens: real, gain: real): real { Min(capacity, tokens + gain) }

  function Refilled(s: State, now: real): real { Filled(s.capacity, s.tokens, Gain(s.last, now, s.rate)) }

  function Take(s: State, n: real, now: real): (State, real) {
    var tokens := Refilled(s, now);
    if tokens >= n then (s.(tokens := tokens - n, last := now), 0.0)
    else (s.(tokens := tokens, last := now), (n - tokens) / Max(s.rate, MIN_RATE))
  }

  class Bucket {
    const capacity: real
    const rate: real
    var tokens: real
    var last: real

    function Value(): State
      reads this
    {
      State(capacity, rate, tokens, last)
    }

    /** Full at birth, refilled once a minute. */
    constructor (perMinute: real, now: real)
      ensures Value() == State(perMinute, perMinute / 60.0, perMinute, now)
    {
      capacity, rate, tokens, last := perMinute, perMinute / 60.0, perMinute, now;
    }

    method Drain(n: real, now: real) returns (wait: real)
      modifies this
      ensures (Value(), wait) == Take(old(Value()), n, now)
      ensures last == now
      ensures var gain := if now > old(last) then (now - old(last)) * rate else 0.0;
              var had := if old(tokens) + gain > capacity then capacity else old(tokens) + gain;
              if had >= n then tokens == had - n && wait == 0.0
              else tokens == had && wait == (n - had) / if rate > MIN_RATE then rate else MIN_RATE
    {
      tokens := Min(capacity, tokens + Gain(last, now, rate));
      last := now;
      assert tokens == Refilled(old(Value()), now);
      if tokens >= n {
        tokens := tokens - n;
        return 0.0;
      }
      var deficit := n - tokens;
      wait := deficit / Max(rate, MIN_RATE);
    }
  }

  // ---------- Runs under arbitrary clock readings ----------

  datatype Request = Request(n: real, now: real)

  predicate Sound(s: State) {
    0.0 <= s.tokens <= s.capacity && 0.0 <= s.rate
  }

  /** A request and what the clock had refilled by then. */
  datatype Turn = Turn(n: real, gain: real)

  function Turns(rate: real, last: real, run: seq<Request>): (t: seq<Turn>)
    ensures |t| == |run|
    ensures forall i :: 0 <= i < |run| ==> t[i].n == run[i].n
  {
    if run == [] then []
    else
      var n := |run| - 1;
      Turns(rate, last, run[..n]) + [Turn(run[n].n, Gain(if n == 0 then last else run[n - 1].now, run[n].now, rate))]
  }

  function Held(capacity: real, tokens: real, turns: seq<Turn>): real {
    if turns == [] then tokens
    else
      var n := |turns| - 1;
      var tokens' := Filled(capacity, Held(capacity, tokens, turns[..n]), turns[n].gain);
      if tokens' >= turns[n].n then tokens' - turns[n].n else tokens'
  }

  /** Tokens handed out: a refused request drains nothing. */
  function Spent(capacity: real, tokens: real, turns: seq<Turn>): real {
    if turns == [] then 0.0
    else
      var n := |turns| - 1;
      var tokens' := Filled(capacity, Held(capacity, tokens, turns[..n]), turns[n].gain);
      Spent(capacity, tokens, turns[..n]) + if tokens' >= turns[n].n then turns[n].n else 0.0
  }

  function Gained(turns: seq<Turn>): real {
    if turns == [] then 0.0 else Gained(turns[..|turns| - 1]) + turns[|turns| - 1].gain
  }

  function After(s: State, run: seq<Request>): State {
    s.(tokens := Held(s.capacity, s.tokens, Turns(s.rate, s.last, run)),
       last := if run == [] then s.last else run[|run| - 1].now)
  }

  function Drained(s: State, run: seq<Request>): real {
    Spent(s.capacity, s.tokens, Turns(s.rate, s.last, run))
  }

  /** `After` is the run of the transitions that `Bucket.Drain` makes. */
  lemma {:induction false} AfterIsTakes(s: State, run: seq<Request>, r: Request)
    ensures After(s, []) == s
    ensures After(s, run + [r]) == Take(After(s, run), r.n, r.now).0
    ensures Drained(s, run + [r]) == Drained(s, run) + if Take(After(s, run), r.n, r.now).0.tokens
                                       == Refilled(After(s, run), r.now) then 0.0 else r.n
  {
    assert (run + [r])[..|run|] == run;
    var t := Turns(s.rate, s.last, run + [r]);
    assert t[..|run|] == Turns(s.rate, s.last, run);
  }

  /** The sum of the clock's forward moves. */
  function ForwardTime(last: real, run: seq<Request>): real {
    if run == [] then 0.0
    else
      var n := |run| - 1;
      ForwardTime(last, run[..n]) + Max(0.0, run[n].now - if n == 0 then last else run[n - 1].now)
  }

  /** The refill of a clock's forward move, as a function of its length. */
  function RefillOf(rate: real): real -> real { t => t * rate }

  function Moved(last: real, run: seq<Request>): real
    requires run != []
  {
    Max(0.0, run[|run| - 1].now - if |run| == 1 then last else run[|run| - 2].now)
  }

  function Refills(f: real -> real, last: real, run: seq<Request>): real {
    if run == [] then 0.0 else Refills(f, last, run[..|run| - 1]) + f(Moved(last, run))
  }

  /** `f` of the whole time is the sum of `f` of the moves. */
  ghost predicate AddsAlong(f: real -> real, last: real, run: seq<Request>) {
    if run == [] then f(0.0) == 0.0
    else
      var before := run[..|run| - 1];
      AddsAlong(f, last, before) && f(ForwardTime(last, run)) == f(ForwardTime(last, before)) + f(Moved(last, run))
  }

  lemma {:induction false} RefillsAdd(f: real -> real, last: real, run: seq<Request>)
    requires AddsAlong(f, last, run)
    ensures Refills(f, last, run) == f(ForwardTime(last, run))
  {
    if run != [] {
      RefillsAdd(f, last, run[..|run| - 1]);
    }
  }

  lemma RefillSplits(rate: real, time: real, moved: real, both: real)
    requires both == time + moved
    ensures RefillOf(rate)(both) == RefillOf(rate)(time) + RefillOf(rate)(moved)
  {
  }

  lemma {:induction false} RefillAddsAlong(rate: real, last: real, run: seq<Request>)
    ensures AddsAlong(RefillOf(rate), last, run)
  {
    if run != [] {
      var before := run[..|run| - 1];
      RefillAddsAlong(rate, last, before);
      RefillSplits(rate, ForwardTime(last, before), Moved(last, run), ForwardTime(last, run));
    }
  }

  lemma {:induction false} GainsAreRefills(rate: real, last: real, run: seq<Request>)
    ensures Gained(Turns(rate, last, run)) == Refills(RefillOf(rate), last, run)
  {
    if run != [] {
      var n := |run| - 1;
      GainsAreRefills(rate, last, run[..n]);
      assert Turns(rate, last, run)[..n] == Turns(rate, last, run[..n]);
    }
  }

  lemma {:induction false} GainedIsRefill(rate: real, last: real, run: seq<Request>)
    ensures Gained(Turns(rate, last, run)) == RefillOf(rate)(ForwardTime(last, run))
  {
    GainsAreRefills(rate, last, run);
    RefillAddsAlong(rate, last, run);
    RefillsAdd(RefillOf(rate), last, run);
  }

  lemma {:induction false} GainsAreNatural(rate: real, last: real, run: seq<Request>)
    requires rate >= 0.0
    ensures forall t :: t in Turns(rate, last, run) ==> t.gain >= 0.0
  {
    if run != [] {
      var n := |run| - 1;
      GainsAreNatural(rate, last, run[..n]);
      MulMonotone(0.0, Max(0.0, run[n].now - if n == 0 then last else run[n - 1].now), rate);
    }
  }

  lemma {:induction false} Conservation(capacity: real, tokens: real, turns: seq<Turn>)
    requires 0.0 <= tokens <= capacity
    requires forall t :: t in turns ==> t.n >= 0.0 && t.gain >= 0.0
    ensures 0.0 <= Held(capacity, tokens, turns) <= capacity
    ensures Spent(capacity, tokens, turns) + Held(capacity, tokens, turns) <= tokens + Gained(turns)
  {
    if turns != [] {
      assert turns[|turns| - 1] in turns;
      Conservation(capacity, tokens, turns[..|turns| - 1]);
    }
  }

  /** No refill on the way is cut at the capacity. */
  predicate NeverFills(capacity: real, tokens: real, turns: seq<Turn>) {
    if turns == [] then true
    else
      var n := |turns| - 1;
      && NeverFills(capacity, tokens, turns[..n])
      && Held(capacity, tokens, turns[..n]) + turns[n].gain <= capacity
  }

  /** Nothing is lost if and only if nothing overflows: only then is what was handed
      out and is left all that was there and was refilled. */
  lemma {:induction false} NothingLostIff(capacity: real, tokens: real, turns: seq<Turn>)
    requires 0.0 <= tokens <= capacity
    requires forall t :: t in turns ==> t.n >= 0.0 && t.gain >= 0.0
    ensures Spent(capacity, tokens, turns) + Held(capacity, tokens, turns) == tokens + Gained(turns)
       <==> NeverFills(capacity, tokens, turns)
  {
    if turns != [] {
      var before := turns[..|turns| - 1];
      assert turns[|turns| - 1] in turns;
      NothingLostIff(capacity, tokens, before);
      Conservation(capacity, tokens, before);
    }
  }

  /** In every run, whatever the clock reads, the bucket is never overdrawn nor
      over its capacity, and no more leaves than it held and the clock's forward
      moves refilled. */
  lemma {:induction false} NeverOverdrawn(s: State, run: seq<Request>)
    requires Sound(s) && forall i :: 0 <= i < |run| ==> run[i].n >= 0.0
    ensures Sound(After(s, run))
    ensures Drained(s, run) + After(s, run).tokens <= s.tokens + RefillOf(s.rate)(ForwardTime(s.last, run))
    ensures Drained(s, run) <= s.capacity + RefillOf(s.rate)(ForwardTime(s.last, run))
  {
    GainedIsRefill(s.rate, s.last, run);
    GainsAreNatural(s.rate, s.last, run);
    Conservation(s.capacity, s.tokens, Turns(s.rate, s.last, run));
  }

  lemma DivideBack(a: real, b: real)
    requires b > 0.0
    ensures a / b * b == a
  {
  }

  lemma MulMonotone(a: real, b: real, c: real)
    requires a <= b && 0.0 <= c
    ensures a * c <= b * c
    ensures a < b && 0.0 < c ==> a * c < b * c
  {
  }

  /** A refused request for no more than the capacity succeeds when retried at
      `later` if and only if the bucket has refilled by then; the returned wait is
      that moment exactly when the rate is at least the least rate. */
  lemma WaitIsExact(s: State, n: real, now: real, later: real)
    requires Sound(s) && n <= s.capacity && now <= later && s.rate >= MIN_RATE
    requires Take(s, n, now).1 > 0.0
    ensures Take(Take(s, n, now).0, n, later).1 == 0.0 <==> later - now >= Take(s, n, now).1
  {
    var tokens, wait := Refilled(s, now), Take(s, n, now).1;
    DivideBack(n - tokens, s.rate);
    if later - now >= wait {
      MulMonotone(wait, later - now, s.rate);
    } else {
      MulMonotone(later - now, wait, s.rate);
      DividePositive(n - Refilled(s.(tokens := tokens, last := now), later), s.rate);
    }
  }

  lemma DividePositive(a: real, b: real)
    requires a > 0.0 && b > 0.0
    ensures a / b > 0.0
  {
  }

  /** Waiting exactly what was returned, undisturbed, is enough if and only if the
      request fits the bucket and the floor in the divisor did not cut the wait. */
  lemma WaitSuffices(s: State, n: real, now: real)
    requires Sound(s) && Refilled(s, now) < n
    ensures Take(Take(s, n, now).0, n, now + Take(s, n, now).1).1 == 0.0
       <==> n <= s.capacity && s.rate >= MIN_RATE
  {
    var tokens, wait := Refilled(s, now), Take(s, n, now).1;
    var floor := Max(s.rate, MIN_RATE);
    DividePositive(n - tokens, floor);
    if n > s.capacity {
      DividePositive(n - Refilled(s.(tokens := tokens, last := now), now + wait), floor);
    } else if s.rate >= MIN_RATE {
      WaitIsExact(s, n, now, now + wait);
    } else {
      SlowBucketIsRefusedAgain(s, n, now);
    }
  }

  /** Below the least rate the floor in the divisor cuts the wait short. */
  lemma SlowBucketIsRefusedAgain(s: State, n: real, now: real)
    requires Sound(s) && 0.0 <= s.rate < MIN_RATE
    requires Refilled(s, now) < n
    ensures Take(Take(s, n, now).0, n, now + Take(s, n, now).1).1 > 0.0
  {
    var tokens := Refilled(s, now);
    var wait := (n - tokens) / MIN_RATE;
    SlowGain(n - tokens, s.rate, now);
    Refusal(s.(tokens := tokens, last := now), n, now + wait);
  }

  lemma SlowGain(deficit: real, rate: real, now: real)
    requires deficit > 0.0 && 0.0 <= rate < MIN_RATE
    ensures Gain(now, now + deficit / MIN_RATE, rate) < deficit
  {
    var wait := deficit / MIN_RATE;
    DividePositive(deficit, MIN_RATE);
    DivideBack(deficit, MIN_RATE);
    MulMonotone2(wait, rate, MIN_RATE);
  }

  lemma Refusal(s: State, n: real, now: real)
    requires Refilled(s, now) < n
    ensures Take(s, n, now).1 > 0.0
  {
    DividePositive(n - Refilled(s, now), Max(s.rate, MIN_RATE));
  }

  lemma MulMonotone2(a: real, b: real, c: real)
    requires 0.0 < a && b < c
    ensures a * b < a * c
  {
  }
}
