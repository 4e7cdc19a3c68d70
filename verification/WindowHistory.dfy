/** Runs of the shared window's transactions against a limiter that forgets no
    send. Transactions are serialised, so a run is any interleaving of processes. */
module WindowHistory {

  import opened Wrappers
  import opened SharedWindow

  datatype Op =
    | Take(now: real, cat: Category, catLimit: int)
    | Force(now: real, cat: Category)

  function Answer(rows: seq<Row>, limit: int, op: Op): bool {
    op.Force? || Admits(Prune(rows, op.now), limit, op.cat, op.catLimit)
  }

  /** What one transaction leaves in the table, as `Window` proves. */
  function Step(rows: seq<Row>, limit: int, op: Op): seq<Row> {
    var live := Prune(rows, op.now);
    match op
    case Take(now, cat, _) => if Answer(rows, limit, op) then live + [Row(now, cat)] else live
    case Force(now, cat) => KeepNewest(live + [Row(now, cat)], ClampSize(limit))
  }

  function Table(ops: seq<Op>, limit: int): seq<Row> {
    if ops == [] then [] else Step(Table(ops[..|ops| - 1], limit), limit, ops[|ops| - 1])
  }

  function Answers(ops: seq<Op>, limit: int): (r: seq<bool>)
    ensures |r| == |ops|
  {
    if ops == [] then []
    else
      var n := |ops| - 1;
      Answers(ops[..n], limit) + [Answer(Table(ops[..n], limit), limit, ops[n])]
  }

  /** Every send ever made, by a limiter that forgets none. */
  function History(ops: seq<Op>, limit: int): seq<Row> {
    if ops == [] then []
    else
      var n := |ops| - 1;
      var h := History(ops[..n], limit);
      if Answer(h, limit, ops[n]) then h + [Row(ops[n].now, ops[n].cat)] else h
  }

  function FullAnswers(ops: seq<Op>, limit: int): (r: seq<bool>)
    ensures |r| == |ops|
  {
    if ops == [] then []
    else
      var n := |ops| - 1;
      FullAnswers(ops[..n], limit) + [Answer(History(ops[..n], limit), limit, ops[n])]
  }

  predicate ClockForward(ops: seq<Op>) {
    forall i, j :: 0 <= i < j < |ops| ==> ops[i].now <= ops[j].now
  }

  lemma LaterToo(rows: seq<Row>, now: real, later: real)
    requires NotAfter(rows, now) && now <= later
    ensures NotAfter(rows, later)
  {
  }

  lemma SortedAppend(rows: seq<Row>, r: Row)
    requires Sorted(rows) && NotAfter(rows, r.ts)
    ensures Sorted(rows + [r]) && NotAfter(rows + [r], r.ts)
  {
  }

  lemma {:induction false} HistoryInOrder(ops: seq<Op>, limit: int)
    requires ClockForward(ops)
    ensures Sorted(History(ops, limit))
    ensures ops != [] ==> NotAfter(History(ops, limit), ops[|ops| - 1].now)
    ensures ops == [] ==> History(ops, limit) == []
  {
    if ops != [] {
      var n := |ops| - 1;
      var h := History(ops[..n], limit);
      HistoryInOrder(ops[..n], limit);
      if n > 0 {
        LaterToo(h, ops[n - 1].now, ops[n].now);
      }
      SortedAppend(h, Row(ops[n].now, ops[n].cat));
    }
  }

  /** With a clock that does not go back and a ceiling of at least one, the table
      is the newest `limit` of the sends in the last 60 seconds, and every call is
      answered as the full history would answer it. */
  lemma {:induction false} TableRefinesHistory(ops: seq<Op>, limit: int)
    requires limit >= 1 && ClockForward(ops)
    ensures TableIsNewest(ops, limit)
    ensures Answers(ops, limit) == FullAnswers(ops, limit)
  {
    if ops != [] {
      var n := |ops| - 1;
      var before := ops[..n];
      var op := ops[n];
      TableRefinesHistory(before, limit);
      OneTransaction(before, limit, op);
    }
  }

  predicate TableIsNewest(ops: seq<Op>, limit: int) {
    limit >= 1 && (ops != [] ==>
      Table(ops, limit) == Newest(Prune(History(ops, limit), ops[|ops| - 1].now), limit))
  }

  /** A later transaction prunes the table to the newest of the later window. */
  lemma NextPrune(ops: seq<Op>, limit: int, now: real)
    requires ClockForward(ops) && TableIsNewest(ops, limit)
    requires ops != [] ==> ops[|ops| - 1].now <= now
    ensures Sorted(History(ops, limit)) && NotAfter(History(ops, limit), now)
    ensures Prune(Table(ops, limit), now) == Newest(Prune(History(ops, limit), now), limit)
  {
    var h := History(ops, limit);
    HistoryInOrder(ops, limit);
    if ops != [] {
      var prev := ops[|ops| - 1].now;
      var k := CutPoint(h, prev);
      assert Sorted(h[k..]) && NotAfter(h[k..], now);
      PruneNewest(h[k..], limit, now);
      PruneCompose(h, prev, now);
    }
  }

  lemma SortedWithNewest(rows: seq<Row>, r: Row)
    requires Sorted(rows) && NotAfter(rows, r.ts)
    ensures Sorted(Prune(rows, r.ts) + [r])
  {
    var k := CutPoint(rows, r.ts);
  }

  lemma SortedDrop(rows: seq<Row>, d: nat)
    requires Sorted(rows) && d <= |rows|
    ensures Sorted(rows[d..])
  {
  }

  lemma NewestAppend(live: seq<Row>, r: Row, limit: nat)
    requires limit >= 1
    ensures var d := if |live| <= limit then 0 else |live| - limit;
            && Newest(live, limit) + [r] == (live + [r])[d..]
            && Newest((live + [r])[d..], limit) == Newest(live + [r], limit)
  {
    var d := if |live| <= limit then 0 else |live| - limit;
    if |live| >= limit {
      SliceOfSlice(live + [r], d, 1);
    }
  }

  lemma TrimAfterForce(live: seq<Row>, r: Row, limit: nat)
    requires limit >= 1 && Sorted(live + [r])
    ensures KeepNewest(Newest(live, limit) + [r], limit) == Newest(live + [r], limit)
  {
    var d := if |live| <= limit then 0 else |live| - limit;
    NewestAppend(live, r, limit);
    SortedDrop(live + [r], d);
    KeepNewestSorted((live + [r])[d..], limit);
  }

  lemma OneTransaction(ops: seq<Op>, limit: int, op: Op)
    requires ClockForward(ops) && TableIsNewest(ops, limit)
    requires ops != [] ==> ops[|ops| - 1].now <= op.now
    ensures var h := History(ops, limit); var t := Table(ops, limit);
            && Answer(t, limit, op) == Answer(h, limit, op)
            && Step(t, limit, op)
               == Newest(Prune(if Answer(h, limit, op) then h + [Row(op.now, op.cat)] else h, op.now), limit)
  {
    var h, t := History(ops, limit), Table(ops, limit);
    NextPrune(ops, limit, op.now);
    var live := Prune(h, op.now);
    var r := Row(op.now, op.cat);
    FilterAppend(h, r, LiveAt(op.now));
    if op.Force? {
      SortedWithNewest(h, r);
      TrimAfterForce(live, r, limit);
    } else {
      AnswersAgree(live, limit, op);
      assert |live| < limit ==> Prune(t, op.now) == live && Newest(live + [r], limit) == live + [r];
    }
  }

  /** The newest `limit` rows have room exactly when all of them do. */
  lemma AnswersAgree(live: seq<Row>, limit: nat, op: Op)
    requires limit >= 1 && op.Take?
    ensures Admits(Newest(live, limit), limit, op.cat, op.catLimit) <==> Admits(live, limit, op.cat, op.catLimit)
    ensures Admits(live, limit, op.cat, op.catLimit) ==> |live| < limit
  {
  }

  lemma RunAppend(ops: seq<Op>, op: Op, limit: int)
    ensures Table(ops + [op], limit) == Step(Table(ops, limit), limit, op)
    ensures Answers(ops + [op], limit) == Answers(ops, limit) + [Answer(Table(ops, limit), limit, op)]
    ensures var h := History(ops, limit);
            && FullAnswers(ops + [op], limit) == FullAnswers(ops, limit) + [Answer(h, limit, op)]
            && History(ops + [op], limit) == if Answer(h, limit, op) then h + [Row(op.now, op.cat)] else h
  {
    assert (ops + [op])[..|ops|] == ops;
  }

  /** Two forced sends, then a category ceiling of two. */
  function ForcedTwice(): seq<Op> {
    [Force(0.0, "compaction")] + [Force(0.0, "compaction")] + [Op.Take(0.0, "compaction", 2)]
  }

  lemma ForcedSteps(limit: int)
    requires limit < 1
    ensures var f, r := Force(0.0, "compaction"), Row(0.0, "compaction");
            Step([], limit, f) == [r] && Step([r], limit, f) == [r]
  {
    var r := Row(0.0, "compaction");
    FilterAll([r], LiveAt(0.0));
    assert [] + [r] == [r] && [r] + [r] == [r, r];
    var k := OldestIndex([r, r]);
    assert [r, r][..k] + [r, r][k + 1..] == [r];
  }

  lemma CategoryCeilingOfTwo(limit: int)
    requires limit < 1
    ensures var t, r := Op.Take(0.0, "compaction", 2), Row(0.0, "compaction");
            Answer([r], limit, t) && !Answer([r, r], limit, t)
  {
    var r := Row(0.0, "compaction");
    FilterAll([r], LiveAt(0.0));
    FilterAll([r, r], LiveAt(0.0));
    FilterAll([r], Counts(Some("compaction")));
    FilterAll([r, r], Counts(Some("compaction")));
  }

  lemma ForcedTwiceTables(limit: int)
    requires limit < 1
    ensures var twice, r := [Force(0.0, "compaction")] + [Force(0.0, "compaction")], Row(0.0, "compaction");
            Table(twice, limit) == [r] && History(twice, limit) == [r, r]
  {
    var f, r := Force(0.0, "compaction"), Row(0.0, "compaction");
    ForcedSteps(limit);
    assert [] + [f] == [f] && [] + [r] == [r] && [r] + [r] == [r, r];
    RunAppend([], f, limit);
    RunAppend([f], f, limit);
    assert Table([f], limit) == [r] && History([f], limit) == [r];
  }

  lemma ForcedTwiceIsAdmitted(limit: int)
    requires limit < 1
    ensures Answers(ForcedTwice(), limit) != FullAnswers(ForcedTwice(), limit)
  {
    var f, t := Force(0.0, "compaction"), Op.Take(0.0, "compaction", 2);
    ForcedTwiceTables(limit);
    CategoryCeilingOfTwo(limit);
    RunAppend([f] + [f], t, limit);
    assert Answers(ForcedTwice(), limit)[2] && !FullAnswers(ForcedTwice(), limit)[2];
  }

  /** The ceiling of zero is exactly where the refinement stops: `Force` then
      trims the table to one row while the category ceiling still reads it. */
  lemma RefinementNeedsACeiling(limit: int)
    ensures (forall ops | ClockForward(ops) :: Answers(ops, limit) == FullAnswers(ops, limit))
       <==> limit >= 1
  {
    if limit >= 1 {
      forall ops | ClockForward(ops) ensures Answers(ops, limit) == FullAnswers(ops, limit) {
        TableRefinesHistory(ops, limit);
      }
    } else {
      ForcedTwiceIsAdmitted(limit);
      assert ClockForward(ForcedTwice());
    }
  }

  lemma MinOfSorted(rows: seq<Row>)
    requires rows != [] && Sorted(rows)
    ensures MinTs(rows) == rows[0].ts
  {
    var m := MinTs(rows);
    var r :| r in rows && r.ts == m;
    assert rows[0] in rows;
  }

  lemma FallsBelow(rows: seq<Row>, limit: nat, now: real)
    requires Sorted(rows) && NotAfter(rows, now) && 1 <= limit <= |rows|
    ensures |Prune(rows, now)| < limit <==> now >= rows[|rows| - limit].ts + WINDOW_S
  {
    var k := CutPoint(rows, now);
    assert Live(rows[|rows| - limit], now) <==> k <= |rows| - limit;
  }

  lemma WaitOnHistory(rows: seq<Row>, table: seq<Row>, limit: nat, now: real, later: real)
    requires Sorted(rows) && NotAfter(rows, now) && now <= later && limit >= 1
    requires table == Newest(Prune(rows, now), limit) && |table| >= limit
    ensures |Prune(rows, later)| < limit <==> later - now >= MinTs(table) + WINDOW_S - now
  {
    FullTable(rows, table, limit, now);
    LaterToo(rows, now, later);
    FallsBelow(rows, limit, later);
  }

  lemma FullTable(rows: seq<Row>, table: seq<Row>, limit: nat, now: real)
    requires Sorted(rows) && NotAfter(rows, now) && limit >= 1
    requires table == Newest(Prune(rows, now), limit) && |table| >= limit
    ensures |rows| >= limit && table == rows[|rows| - limit..] && MinTs(table) == rows[|rows| - limit].ts
  {
    var k := CutPoint(rows, now);
    NewestFull(rows, limit, k);
    SortedDrop(rows, |rows| - limit);
    MinOfSorted(rows[|rows| - limit..]);
  }

  lemma NewestFull(rows: seq<Row>, limit: nat, k: nat)
    requires k <= |rows| && limit >= 1 && |Newest(rows[k..], limit)| >= limit
    ensures |rows| >= limit && Newest(rows[k..], limit) == rows[|rows| - limit..]
  {
    NewestIs(rows, limit, k, if |rows| <= limit then 0 else |rows| - limit);
  }

  /** The wait a full window reports is when the full history falls below the
      ceiling, to the instant. */
  lemma {:induction false} GlobalWaitIsExact(ops: seq<Op>, limit: int, later: real)
    requires limit >= 1 && ClockForward(ops) && ops != []
    requires ops[|ops| - 1].now <= later
    requires |Table(ops, limit)| >= limit
    ensures |Prune(History(ops, limit), later)| < limit
       <==> later - ops[|ops| - 1].now >= WaitOf(Table(ops, limit), limit, None, ops[|ops| - 1].now)
  {
    HistoryInOrder(ops, limit);
    TableRefinesHistory(ops, limit);
    WaitOnHistory(History(ops, limit), Table(ops, limit), limit, ops[|ops| - 1].now, later);
  }
}
