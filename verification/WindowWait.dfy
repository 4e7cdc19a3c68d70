/** The wait a denied take returns, both ceilings considered. */
module WindowWait {

  import opened Wrappers
  import opened SharedWindow
  import opened WindowHistory

  /** Neither ceiling is overrun. */
  predicate WithinCeilings(rows: seq<Row>, limit: int, want: Option<Category>) {
    limit <= 0 || |Select(rows, want)| <= limit
  }

  /** A window that is not overrun frees a slot exactly when its wait is over. */
  lemma OneWaitIsExact(rows: seq<Row>, limit: int, want: Option<Category>, now: real, later: real)
    requires forall r :: r in rows ==> Live(r, now)
    requires now <= later && WithinCeilings(rows, limit, want)
    ensures Room(Prune(rows, later), limit, want) <==> later - now >= WaitOf(rows, limit, want, now)
  {
    var sel := Select(rows, want);
    FilterPasses(rows, Counts(want));
    FilterCommutes(rows, LiveAt(later), Counts(want));
    if Room(rows, limit, want) {
      assert |Prune(sel, later)| <= |sel|;
    } else {
      SomeAgesOutIff(sel, now, later);
    }
  }

  /** However overrun a window is: it loses its first row exactly when its wait is over. */
  lemma FullWindowShrinksIff(rows: seq<Row>, limit: int, want: Option<Category>, now: real, later: real, r: Row)
    requires forall q :: q in rows ==> Live(q, now)
    requires now <= later && OldestOfFull(rows, limit, want, r)
    ensures |Select(Prune(rows, later), want)| < |Select(rows, want)| <==> later - now >= r.ts + 60.0 - now
  {
    FilterPasses(rows, Counts(want));
    FilterCommutes(rows, LiveAt(later), Counts(want));
    OldestIsMin(rows, limit, want);
    SomeAgesOutIff(Select(rows, want), now, later);
  }

  lemma SomeAgesOutIff(sel: seq<Row>, now: real, later: real)
    requires sel != [] && now <= later && forall r :: r in sel ==> Live(r, now)
    ensures |Prune(sel, later)| < |sel| <==> later - now >= MinTs(sel) + WINDOW_S - now
  {
    if later - now >= MinTs(sel) + WINDOW_S - now {
      var r :| r in sel && r.ts == MinTs(sel);
      var i :| 0 <= i < |sel| && sel[i] == r;
      FilterLoses(sel, LiveAt(later), i);
    } else {
      FilterAll(sel, LiveAt(later));
    }
  }

  /** Every take in the run names the category's own ceiling. */
  predicate FixedCeilings(ops: seq<Op>, ceiling: Category -> int) {
    forall i :: 0 <= i < |ops| ==> ops[i].Take? && ops[i].catLimit == ceiling(ops[i].cat)
  }

  lemma {:induction false} TakesNeverOverrun(ops: seq<Op>, limit: int, ceiling: Category -> int, cat: Category)
    requires FixedCeilings(ops, ceiling)
    ensures WithinCeilings(Table(ops, limit), limit, None)
    ensures WithinCeilings(Table(ops, limit), ceiling(cat), Some(cat))
  {
    if ops != [] {
      var n := |ops| - 1;
      var t, op := Table(ops[..n], limit), ops[n];
      TakesNeverOverrun(ops[..n], limit, ceiling, cat);
      FilterCommutes(t, LiveAt(op.now), Counts(Some(cat)));
      FilterAppend(Prune(t, op.now), Row(op.now, op.cat), Counts(Some(cat)));
    }
  }

  /** Denied takes, of any category, by clocks that read from `now` to `later`. */
  predicate DeniedBetween(before: seq<Op>, limit: int, retries: seq<Op>, now: real, later: real) {
    forall i :: 0 <= i < |retries| ==>
      retries[i].Take? && now <= retries[i].now <= later && !Answer(Table(before + retries[..i], limit), limit, retries[i])
  }

  /** A denied take only prunes, which a later prune does anyway. */
  lemma RetriesDoNotDisturb(rows: seq<Row>, limit: int, now: real, retry: Op, later: real)
    requires forall r :: r in rows ==> r.ts <= now + FUTURE_SLACK_S
    requires retry.Take? && now <= retry.now <= later && !Answer(rows, limit, retry)
    ensures Prune(Step(rows, limit, retry), later) == Prune(rows, later)
    ensures forall r :: r in Step(rows, limit, retry) ==> r in rows
  {
    PruneCompose(rows, retry.now, later);
    FilterPasses(rows, LiveAt(retry.now));
  }

  lemma {:induction false} RetriesLeaveTheRows(before: seq<Op>, limit: int, retries: seq<Op>, now: real, later: real)
    requires forall r :: r in Table(before, limit) ==> r.ts <= now + FUTURE_SLACK_S
    requires DeniedBetween(before, limit, retries, now, later)
    ensures Prune(Table(before + retries, limit), later) == Prune(Table(before, limit), later)
    ensures forall r :: r in Table(before + retries, limit) ==> r.ts <= now + FUTURE_SLACK_S
    decreases |retries|
  {
    if retries == [] {
      assert before + retries == before;
    } else {
      var front, last := retries[..|retries| - 1], retries[|retries| - 1];
      LastDenied(before, limit, retries, now, later);
      RetriesLeaveTheRows(before, limit, front, now, later);
      RetriesDoNotDisturb(Table(before + front, limit), limit, now, last, later);
      OneOpMore(before, retries, limit);
    }
  }

  lemma LastDenied(before: seq<Op>, limit: int, retries: seq<Op>, now: real, later: real)
    requires DeniedBetween(before, limit, retries, now, later) && retries != []
    ensures var front, last := retries[..|retries| - 1], retries[|retries| - 1];
            && DeniedBetween(before, limit, front, now, later)
            && last.Take? && now <= last.now <= later && !Answer(Table(before + front, limit), limit, last)
  {
    var front := retries[..|retries| - 1];
    forall i | 0 <= i < |front|
      ensures front[i].Take? && now <= front[i].now <= later && !Answer(Table(before + front[..i], limit), limit, front[i])
    {
      assert front[..i] == retries[..i];
    }
  }

  lemma OneOpMore(before: seq<Op>, more: seq<Op>, limit: int)
    requires more != []
    ensures Table(before + more, limit) == Step(Table(before + more[..|more| - 1], limit), limit, more[|more| - 1])
  {
    assert (before + more)[..|before + more| - 1] == before + more[..|more| - 1];
  }

  lemma DeniedOnceIsExact(before: seq<Op>, limit: int, ceiling: Category -> int, op: Op, later: real)
    requires FixedCeilings(before, ceiling) && op.Take? && op.catLimit == ceiling(op.cat) && op.now <= later
    requires !Answer(Table(before, limit), limit, op)
    ensures var live := Prune(Table(before, limit), op.now);
            (Admits(Prune(live, later), limit, op.cat, op.catLimit)
             <==> later - op.now >= BindingWait(live, limit, op.cat, op.catLimit, op.now))
  {
    var rows := Prune(Table(before, limit), op.now);
    FilterPasses(Table(before, limit), LiveAt(op.now));
    assert (before + [op])[..|before|] == before;
    TakesNeverOverrun(before + [op], limit, ceiling, op.cat);
    OneWaitIsExact(rows, limit, None, op.now, later);
    OneWaitIsExact(rows, op.catLimit, Some(op.cat), op.now, later);
  }

  /** After takes alone under fixed ceilings, whatever the clock read, a denied take
      returns an exact wait: tried again at `later`, after any number of denied takes of
      any category in between, it is admitted if and only if the wait is over. */
  lemma {:induction false} DeniedWaitIsExact(before: seq<Op>, limit: int, ceiling: Category -> int, op: Op,
                                             retries: seq<Op>, later: real)
    requires FixedCeilings(before, ceiling) && op.Take? && op.catLimit == ceiling(op.cat) && op.now <= later
    requires !Answer(Table(before, limit), limit, op)
    requires DeniedBetween(before + [op], limit, retries, op.now, later)
    ensures var live := Prune(Table(before, limit), op.now);
            (Answer(Table(before + [op] + retries, limit), limit, op.(now := later))
             <==> later - op.now >= BindingWait(live, limit, op.cat, op.catLimit, op.now))
  {
    DeniedOnceIsExact(before, limit, ceiling, op, later);
    FilterPasses(Table(before, limit), LiveAt(op.now));
    assert (before + [op])[..|before|] == before;
    RetriesLeaveTheRows(before + [op], limit, retries, op.now, later);
  }
}
