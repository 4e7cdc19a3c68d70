/** Which firers win a slot: racing ticks, run-now and replicas over one row. */
module JobSlots {

  import opened Wrappers
  import opened Jobs

  /** A cron is its set of slots; `next` is the least one after an instant. */
  ghost predicate IsSchedule(slots: iset<Time>, next: Time -> Time) {
    forall t :: next(t) in slots && t < next(t) && forall s :: s in slots && t < s ==> next(t) <= s
  }

  /** `Fire`: a firer that read the slot `expected` and the clock `now`, in any
      order and however long before. `Other`: any write that keeps the slot. */
  datatype Op =
    | Fire(expected: Time, now: Time)
    | Other(row: Job)

  predicate Wins(j: Job, op: Op) { op.Fire? && j.nextRun == op.expected }

  function Step(j: Job, op: Op, next: Time -> Time, token: Token): Job {
    match op
    case Fire(expected, now) => if Wins(j, op) then Claimed(j, now, next(now), None, token) else j
    case Other(row) => if row.nextRun == j.nextRun then row else j
  }

  /** The row after the run; each operation's index serves as its fresh token. */
  function After(j: Job, run: seq<Op>, next: Time -> Time): Job {
    if run == [] then j else var n := |run| - 1; Step(After(j, run[..n], next), run[n], next, n)
  }

  predicate WinsAt(j: Job, run: seq<Op>, next: Time -> Time, i: nat) {
    i < |run| && Wins(After(j, run[..i], next), run[i])
  }

  predicate AllDue(run: seq<Op>) {
    forall i :: 0 <= i < |run| && run[i].Fire? ==> run[i].expected <= run[i].now
  }

  predicate ClockForward(run: seq<Op>) {
    forall i, j :: 0 <= i < j < |run| && run[i].Fire? && run[j].Fire? ==> run[i].now <= run[j].now
  }

  /** From a won fire on, the slot stays past its clock reading. */
  lemma {:induction false} SlotStaysPast(j: Job, run: seq<Op>, slots: iset<Time>, next: Time -> Time, i: nat, k: nat)
    requires IsSchedule(slots, next) && (AllDue(run) || ClockForward(run))
    requires i < k <= |run| && WinsAt(j, run, next, i)
    ensures After(j, run[..k], next).nextRun >= next(run[i].now)
    decreases k
  {
    var n := k - 1;
    assert run[..k][..n] == run[..n];
    if n > i {
      SlotStaysPast(j, run, slots, next, i, n);
      var row := After(j, run[..n], next);
      if Wins(row, run[n]) {
        assert next(run[i].now) > run[i].now && next(run[n].now) > run[n].now;
      }
    }
  }

  /** Of due firers, under any clocks, slots strictly increase along the wins, so
      each slot has one winner, and a cron slot lies between two wins. */
  lemma DueSlotsIncrease(j: Job, run: seq<Op>, slots: iset<Time>, next: Time -> Time, a: nat, b: nat)
    requires IsSchedule(slots, next) && AllDue(run)
    requires a < b && WinsAt(j, run, next, a) && WinsAt(j, run, next, b)
    ensures run[a].expected < run[b].expected
    ensures next(run[a].now) in slots && run[a].now < next(run[a].now) <= run[b].now
  {
    SlotStaysPast(j, run, slots, next, a, b);
    assert run[a].now < next(run[a].now);
  }

  /** With run-now in the mix and a clock that does not go back: a slot won while
      due is never won again, and a due win later than any win has a cron slot
      after that win's instant. */
  lemma DueSlotIsSpent(j: Job, run: seq<Op>, slots: iset<Time>, next: Time -> Time, a: nat, b: nat)
    requires IsSchedule(slots, next) && ClockForward(run)
    requires a < b && WinsAt(j, run, next, a) && WinsAt(j, run, next, b)
    ensures run[a].expected <= run[a].now ==> run[a].expected < run[b].expected
    ensures run[b].expected <= run[b].now ==>
      next(run[a].now) in slots && run[a].now < next(run[a].now) <= run[b].now
  {
    SlotStaysPast(j, run, slots, next, a, b);
    assert run[a].now < next(run[a].now);
  }

  /** The second of two firers of one slot, right after the first has won, wins too if
      and only if the next slot is that slot: run-now at an instant whose next slot is the
      row's own leaves it in place. */
  lemma SlotIsSpentIff(j: Job, slots: iset<Time>, next: Time -> Time, first: Op, second: Op, token: Token)
    requires IsSchedule(slots, next) && first.Fire? && second.Fire?
    requires first.expected == second.expected && Wins(j, first)
    ensures Wins(Step(j, first, next, token), second) <==> next(first.now) == first.expected
    ensures first.expected <= first.now ==> !Wins(Step(j, first, next, token), second)
  {
    assert next(first.now) > first.now;
  }

  /** From a win on, the slot is the cron's. */
  lemma {:induction false} SlotIsScheduled(j: Job, run: seq<Op>, slots: iset<Time>, next: Time -> Time, i: nat, k: nat)
    requires IsSchedule(slots, next) && i < k <= |run| && WinsAt(j, run, next, i)
    ensures After(j, run[..k], next).nextRun in slots
    decreases k
  {
    var n := k - 1;
    assert run[..k][..n] == run[..n];
    if n > i {
      SlotIsScheduled(j, run, slots, next, i, n);
    }
  }

  /** The slot `first` wins is won again after `rest`, the clock never going back. */
  predicate WonAgain(j: Job, first: Op, rest: seq<Op>, next: Time -> Time, b: nat)
    requires first.Fire?
  {
    var run := [first] + rest;
    ClockForward(run) && 0 < b && WinsAt(j, run, next, b) && run[b].expected == first.expected
  }

  lemma WonAgainIsEarly(j: Job, slots: iset<Time>, next: Time -> Time, first: Op, rest: seq<Op>, b: nat)
    requires IsSchedule(slots, next) && first.Fire? && Wins(j, first) && WonAgain(j, first, rest, next, b)
    ensures first.expected in slots && first.now < first.expected
  {
    var run := [first] + rest;
    assert run[..0] == [];
    DueSlotIsSpent(j, run, slots, next, 0, b);
    SlotIsScheduled(j, run, slots, next, 0, b);
  }

  /** A run-now long before the slot, and another just before it: the first leaves a slot
      on the way, the second brings the won one back. */
  function BackAgain(first: Op, next: Time -> Time): seq<Op>
    requires first.Fire?
  {
    [Fire(next(first.now), first.expected - 1), Fire(first.expected, first.expected - 1)]
  }

  lemma EarlyIsWonAgain(j: Job, slots: iset<Time>, next: Time -> Time, first: Op)
    requires IsSchedule(slots, next) && first.Fire? && Wins(j, first)
    requires first.expected in slots && first.now < first.expected
    ensures WonAgain(j, first, BackAgain(first, next), next, 2)
  {
    var rest := BackAgain(first, next);
    var run := [first] + rest;
    assert next(first.expected - 1) == first.expected;
    assert run[..0] == [] && run[..1] == [first] && run[..1][..0] == [] && run[..2] == [first, rest[0]] && run[..2][..1] == run[..1];
    assert After(j, run[..1], next) == Step(After(j, run[..0], next), first, next, 0);
    assert After(j, run[..2], next) == Step(After(j, run[..1], next), rest[0], next, 1);
  }

  /** Over whole runs with a clock that does not go back: a won slot can be won again if
      and only if it is one of the cron's and was won before its time, by a run-now. */
  lemma SlotCanBeWonAgainIff(j: Job, slots: iset<Time>, next: Time -> Time, first: Op)
    requires IsSchedule(slots, next) && first.Fire? && Wins(j, first)
    ensures (exists rest, b :: WonAgain(j, first, rest, next, b))
       <==> first.expected in slots && first.now < first.expected
  {
    if first.expected in slots && first.now < first.expected {
      EarlyIsWonAgain(j, slots, next, first);
    }
    if rest, b :| WonAgain(j, first, rest, next, b) {
      WonAgainIsEarly(j, slots, next, first, rest, b);
    }
  }

  /** The cron slots that separate the wins at the indices `wins`. */
  function Separators(run: seq<Op>, wins: seq<nat>, next: Time -> Time): (s: seq<Time>)
    requires forall i :: 0 <= i < |wins| ==> wins[i] < |run| && run[wins[i]].Fire?
    ensures |s| == if wins == [] then 0 else |wins| - 1
    ensures forall i :: 0 <= i < |s| ==> s[i] == next(run[wins[i]].now)
  {
    if |wins| <= 1 then [] else seq(|wins| - 1, i requires 0 <= i < |wins| - 1 => next(run[wins[i]].now))
  }

  /** A backlog collapses: `n` wins of due firers take `n - 1` distinct cron slots
      between the first and the last, however many slots passed unseen. */
  lemma BacklogCollapses(j: Job, run: seq<Op>, slots: iset<Time>, next: Time -> Time, wins: seq<nat>)
    requires IsSchedule(slots, next) && AllDue(run)
    requires forall i :: 0 <= i < |wins| ==> wins[i] < |run| && run[wins[i]].Fire? && WinsAt(j, run, next, wins[i])
    requires forall i, k :: 0 <= i < k < |wins| ==> wins[i] < wins[k]
    ensures var s := Separators(run, wins, next);
            && (forall i :: 0 <= i < |s| ==> s[i] in slots && run[wins[i]].now < s[i] <= run[wins[i + 1]].now)
            && (forall i, k :: 0 <= i < k < |s| ==> s[i] < s[k])
  {
    var s := Separators(run, wins, next);
    forall i | 0 <= i < |s| ensures s[i] in slots && run[wins[i]].now < s[i] <= run[wins[i + 1]].now {
      DueSlotsIncrease(j, run, slots, next, wins[i], wins[i + 1]);
    }
    forall i, k | 0 <= i < k < |s| ensures s[i] < s[k] {
      DueSlotsIncrease(j, run, slots, next, wins[i], wins[k]);
      assert s[k] > run[wins[k]].now;
    }
  }
}
