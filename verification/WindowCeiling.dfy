/** What the shared window's ceilings grant across clock steps. */
module WindowCeiling {

  import opened Wrappers
  import opened SharedWindow
  import opened WindowHistory

  /** A `take` at true time `truth` by a clock that is `offset` ahead of it. */
  datatype Call = Call(truth: real, offset: real, cat: Category, catLimit: int) {
    function Reading(): real { truth + offset }
    function AsTake(): Op { Op.Take(Reading(), cat, catLimit) }
  }

  /** The table after the calls, whatever was in it before them. */
  function After(start: seq<Row>, calls: seq<Call>, limit: int): seq<Row> {
    if calls == [] then start
    else Step(After(start, calls[..|calls| - 1], limit), limit, calls[|calls| - 1].AsTake())
  }

  predicate Wins(start: seq<Row>, calls: seq<Call>, limit: int, i: nat)
    requires i < |calls|
  {
    Answer(After(start, calls[..i], limit), limit, calls[i].AsTake())
  }

  /** How many of the calls `want` counts were granted. */
  function Granted(start: seq<Row>, calls: seq<Call>, limit: int, want: Option<Category>): nat {
    if calls == [] then 0
    else
      var n := |calls| - 1;
      Granted(start, calls[..n], limit, want)
      + if Passes(Row(calls[n].Reading(), calls[n].cat), Counts(want)) && Wins(start, calls, limit, n) then 1 else 0
  }

  function ClockSteps(calls: seq<Call>): nat {
    if |calls| <= 1 then 0
    else
      var n := |calls| - 1;
      ClockSteps(calls[..n]) + if calls[n].offset != calls[n - 1].offset then 1 else 0
  }

  predicate Within60s(calls: seq<Call>) {
    && (forall i, j :: 0 <= i < j < |calls| ==> calls[i].truth <= calls[j].truth)
    && (forall i, j :: 0 <= i < j < |calls| ==> calls[j].truth - calls[i].truth < WINDOW_S)
  }

  /** `bound` is the ceiling `want` is held to on every call it counts. */
  predicate CeilingIs(calls: seq<Call>, limit: int, want: Option<Category>, bound: int) {
    && bound >= 1
    && (want.None? ==> limit == bound)
    && (want.Some? ==> forall i :: 0 <= i < |calls| && calls[i].cat == want.value ==> calls[i].catLimit == bound)
  }

  /** Stamps of grants at true times `first` to `last` under one offset. */
  predicate StampedIn(rows: seq<Row>, first: real, last: real, offset: real) {
    forall r :: r in rows ==> first <= r.ts - offset <= last
  }

  /** A transaction under the same offset prunes none of them. */
  lemma SegmentSurvives(head: seq<Row>, tail: seq<Row>, first: real, last: real, c: Call)
    requires StampedIn(tail, first, last, c.offset)
    requires last <= c.truth && c.truth - first < WINDOW_S
    ensures Prune(head + tail, c.Reading()) == Prune(head, c.Reading()) + tail
  {
    FilterConcat(head, tail, LiveAt(c.Reading()));
    FilterAll(tail, LiveAt(c.Reading()));
  }

  /** One take whose window already holds `tail`. */
  lemma SegmentGrows(rows: seq<Row>, head: seq<Row>, tail: seq<Row>, limit: int, c: Call,
                     want: Option<Category>, bound: int)
    returns (tail': seq<Row>)
    requires Prune(rows, c.Reading()) == head + tail
    requires CeilingIs([c], limit, want, bound) && |Select(tail, want)| <= bound
    ensures Step(rows, limit, c.AsTake()) == head + tail'
    ensures |Select(tail', want)| <= bound
    ensures |Select(tail', want)| == |Select(tail, want)|
      + if Passes(Row(c.Reading(), c.cat), Counts(want)) && Answer(rows, limit, c.AsTake()) then 1 else 0
    ensures forall r :: r in tail' ==> r in tail || r.ts == c.Reading()
  {
    var r := Row(c.Reading(), c.cat);
    FilterConcat(head, tail, Counts(want));
    FilterAppend(tail, r, Counts(want));
    tail' := tail;
    if Answer(rows, limit, c.AsTake()) {
      tail' := tail + [r];
      assert head + tail' == head + tail + [r];
      assert c == [c][0];
      assert Room(head + tail, limit, None) && Room(head + tail, c.catLimit, Some(c.cat));
    }
  }

  lemma Prefix(calls: seq<Call>, limit: int, want: Option<Category>, bound: int)
    requires |calls| > 1 && Within60s(calls) && CeilingIs(calls, limit, want, bound)
    ensures var n := |calls| - 1;
            && Within60s(calls[..n]) && CeilingIs(calls[..n], limit, want, bound)
            && CeilingIs([calls[n]], limit, want, bound)
            && calls[n - 1].truth <= calls[n].truth && calls[n].truth - calls[0].truth < WINDOW_S
  {
  }

  /** What the calls may be granted: a full window a segment, save the last. */
  function Budget(calls: seq<Call>, bound: int): int {
    if |calls| <= 1 then 0
    else
      var n := |calls| - 1;
      Budget(calls[..n], bound) + if calls[n].offset != calls[n - 1].offset then bound else 0
  }

  lemma OneMore(k: int, bound: int)
    ensures (k + 1) * bound == k * bound + bound
  {
  }

  lemma {:induction false} BudgetIsSteps(calls: seq<Call>, bound: int)
    ensures Budget(calls, bound) == ClockSteps(calls) * bound
  {
    if |calls| > 1 {
      BudgetIsSteps(calls[..|calls| - 1], bound);
      OneMore(ClockSteps(calls[..|calls| - 1]), bound);
    }
  }

  lemma FirstCall(start: seq<Row>, calls: seq<Call>, limit: int, want: Option<Category>, bound: int)
    requires |calls| == 1 && CeilingIs(calls, limit, want, bound)
    ensures calls == [calls[0]] && Granted(start, calls[..0], limit, want) == 0 && Budget(calls, bound) == 0
  {
  }

  /** The rows granted since the last clock step are still the table's tail. */
  lemma {:induction false} SinceLastStep(start: seq<Row>, calls: seq<Call>, limit: int,
                                         want: Option<Category>, bound: int)
    returns (head: seq<Row>, tail: seq<Row>)
    requires calls != [] && Within60s(calls) && CeilingIs(calls, limit, want, bound)
    ensures After(start, calls, limit) == head + tail
    ensures |Select(tail, want)| <= bound
    ensures StampedIn(tail, calls[0].truth, calls[|calls| - 1].truth, calls[|calls| - 1].offset)
    ensures Granted(start, calls, limit, want) <= Budget(calls, bound) + |Select(tail, want)|
    decreases |calls|, 1
  {
    var n := |calls| - 1;
    var c := calls[n];
    head, tail := BeforeLast(start, calls, limit, want, bound);
    tail := SegmentGrows(After(start, calls[..n], limit), head, tail, limit, c, want, bound);
  }

  /** The same once the last call has pruned, before it takes. */
  lemma {:induction false} BeforeLast(start: seq<Row>, calls: seq<Call>, limit: int,
                                      want: Option<Category>, bound: int)
    returns (head: seq<Row>, tail: seq<Row>)
    requires calls != [] && Within60s(calls) && CeilingIs(calls, limit, want, bound)
    ensures var n := |calls| - 1;
            && CeilingIs([calls[n]], limit, want, bound)
            && Prune(After(start, calls[..n], limit), calls[n].Reading()) == head + tail
            && |Select(tail, want)| <= bound
            && StampedIn(tail, calls[0].truth, calls[n].truth, calls[n].offset)
            && Granted(start, calls[..n], limit, want) <= Budget(calls, bound) + |Select(tail, want)|
    decreases |calls|, 0
  {
    var n := |calls| - 1;
    var c, before := calls[n], calls[..n];
    var rows := After(start, before, limit);
    head, tail := Prune(rows, c.Reading()), [];
    if n > 0 {
      Prefix(calls, limit, want, bound);
      var h, s := SinceLastStep(start, before, limit, want, bound);
      if calls[n - 1].offset == c.offset {
        SegmentSurvives(h, s, calls[0].truth, calls[n - 1].truth, c);
        head, tail := Prune(h, c.Reading()), s;
      }
    } else {
      FirstCall(start, calls, limit, want, bound);
    }
  }

  /** Takes alone, from any table: with `k` clock steps inside less than 60
      seconds of true time at most `(k + 1) * limit` sends are granted, hence
      `limit` with no step; and the same for each category and its own ceiling. */
  lemma {:induction false} CeilingAcrossClockSteps(start: seq<Row>, calls: seq<Call>, limit: int,
                                want: Option<Category>, bound: int)
    requires Within60s(calls) && CeilingIs(calls, limit, want, bound)
    ensures Granted(start, calls, limit, want) <= (ClockSteps(calls) + 1) * bound
  {
    if calls != [] {
      var _, _ := SinceLastStep(start, calls, limit, want, bound);
    }
    BudgetIsSteps(calls, bound);
    OneMore(ClockSteps(calls), bound);
  }

  lemma CallAppend(start: seq<Row>, calls: seq<Call>, c: Call, limit: int)
    ensures After(start, calls + [c], limit) == Step(After(start, calls, limit), limit, c.AsTake())
    ensures Granted(start, calls + [c], limit, None)
         == Granted(start, calls, limit, None) + if Answer(After(start, calls, limit), limit, c.AsTake()) then 1 else 0
  {
    assert (calls + [c])[..|calls|] == calls;
  }

  // ---------- The bound is met ----------

  lemma {:induction false} FilterNone(rows: seq<Row>, t: Test)
    requires forall r :: r in rows ==> !Passes(r, t)
    ensures Filter(rows, t) == []
  {
    if rows != [] {
      FilterNone(rows[..|rows| - 1], t);
    }
  }

  predicate AllAt(calls: seq<Call>, truth: real) { forall i :: 0 <= i < |calls| ==> calls[i].truth == truth }

  /** `calls`, all at one instant of true time, take `k` clock steps, are granted
      `granted` and leave nothing older than the clock's last step. */
  predicate Exhausts(calls: seq<Call>, limit: nat, k: nat, granted: nat, truth: real, offset: real) {
    && calls != [] && AllAt(calls, truth) && calls[|calls| - 1].offset == offset && ClockSteps(calls) == k
    && Granted([], calls, limit, None) == granted
    && forall r :: r in After([], calls, limit) ==> r.ts == truth + offset
  }

  lemma CallMore(calls: seq<Call>, c: Call, limit: int)
    requires c.catLimit == 0 && |Prune(After([], calls, limit), c.Reading())| < limit
    ensures Granted([], calls + [c], limit, None) == Granted([], calls, limit, None) + 1
    ensures After([], calls + [c], limit) == Prune(After([], calls, limit), c.Reading()) + [Row(c.Reading(), c.cat)]
    ensures ClockSteps(calls + [c])
         == ClockSteps(calls) + if calls != [] && calls[|calls| - 1].offset != c.offset then 1 else 0
  {
    CallAppend([], calls, c, limit);
    assert (calls + [c])[..|calls|] == calls;
  }

  /** One more of the calls that all read the same instant. */
  lemma CallAgain(calls: seq<Call>, c: Call, limit: nat, held: nat) returns (out: seq<Call>)
    requires c.catLimit == 0 && AllAt(calls, c.truth)
    requires |Prune(After([], calls, limit), c.Reading())| == held < limit
    requires forall r :: r in Prune(After([], calls, limit), c.Reading()) ==> r.ts == c.Reading()
    ensures out != [] && AllAt(out, c.truth) && out[|out| - 1] == c
    ensures Granted([], out, limit, None) == Granted([], calls, limit, None) + 1
    ensures |After([], out, limit)| == held + 1 && forall r :: r in After([], out, limit) ==> r.ts == c.Reading()
    ensures ClockSteps(out) == ClockSteps(calls) + if calls != [] && calls[|calls| - 1].offset != c.offset then 1 else 0
  {
    CallMore(calls, c, limit);
    out := calls + [c];
  }

  /** The same call `m` times over fills the window that far, once what it held has aged
      out. */
  lemma {:induction false} Burst(calls: seq<Call>, c: Call, limit: nat, m: nat) returns (out: seq<Call>)
    requires c.catLimit == 0 && 1 <= m <= limit && AllAt(calls, c.truth)
    requires forall r :: r in After([], calls, limit) ==> !Live(r, c.Reading())
    ensures out != [] && AllAt(out, c.truth) && out[|out| - 1] == c
    ensures Granted([], out, limit, None) == Granted([], calls, limit, None) + m
    ensures |After([], out, limit)| == m && forall r :: r in After([], out, limit) ==> r.ts == c.Reading()
    ensures ClockSteps(out) == ClockSteps(calls) + if calls != [] && calls[|calls| - 1].offset != c.offset then 1 else 0
    decreases m
  {
    if m == 1 {
      FilterNone(After([], calls, limit), LiveAt(c.Reading()));
      out := CallAgain(calls, c, limit, 0);
    } else {
      var some := Burst(calls, c, limit, m - 1);
      FilterAll(After([], some, limit), LiveAt(c.Reading()));
      out := CallAgain(some, c, limit, m - 1);
    }
  }

  lemma StepForward(calls: seq<Call>, limit: nat, k: nat, granted: nat, truth: real, offset: real, c: Call)
    returns (out: seq<Call>)
    requires Exhausts(calls, limit, k, granted, truth, offset) && limit >= 1
    requires c.truth == truth && c.catLimit == 0 && c.offset >= offset + WINDOW_S
    ensures Exhausts(out, limit, k + 1, granted + limit, truth, c.offset)
  {
    out := Burst(calls, c, limit, limit);
  }

  function Windows(k: nat, limit: nat): nat { if k == 0 then limit else Windows(k - 1, limit) + limit }

  lemma {:induction false} WindowsIs(k: nat, limit: nat)
    ensures Windows(k, limit) == (k + 1) * limit
  {
    if k > 0 {
      WindowsIs(k - 1, limit);
      OneMore(k, limit);
    }
  }

  lemma {:induction false} Bursts(limit: nat, k: nat, cat: Category, truth: real, offset: real, step: real)
    returns (calls: seq<Call>, last: real)
    requires limit >= 1 && step >= WINDOW_S
    ensures Exhausts(calls, limit, k, Windows(k, limit), truth, last)
    decreases k
  {
    if k == 0 {
      last := offset;
      calls := Burst([], Call(truth, offset, cat, 0), limit, limit);
    } else {
      var before, was := Bursts(limit, k - 1, cat, truth, offset, step);
      last := was + step;
      calls := StepForward(before, limit, k - 1, Windows(k - 1, limit), truth, was, Call(truth, last, cat, 0));
    }
  }

  /** The bound is met for every ceiling and every number of clock steps: each step
      forward by a window's length lets another full window through at once. */
  lemma {:induction false} StepsMultiplyTheWindow(limit: nat, k: nat, cat: Category, truth: real, offset: real, step: real)
    returns (calls: seq<Call>)
    requires limit >= 1 && step >= WINDOW_S
    ensures Within60s(calls) && CeilingIs(calls, limit, None, limit) && ClockSteps(calls) == k
    ensures Granted([], calls, limit, None) == (k + 1) * limit
  {
    var last;
    calls, last := Bursts(limit, k, cat, truth, offset, step);
    WindowsIs(k, limit);
  }
}
