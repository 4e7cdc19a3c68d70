/** The rate ceiling's sliding window, shared by every process of the machine.

    The `sends` table is a sequence of rows in rowid order, which is insertion
    order. `Window` is the store: each method is one committed transaction. */
module SharedWindow {

  import opened Wrappers

  type Category = string

  datatype Row = Row(ts: real, cat: Category)

  const WINDOW_S := 60.0
  const FUTURE_SLACK_S := 1.0

  /** What a query's WHERE clause asks of a row. */
  datatype Test = LiveAt(now: real) | Counts(want: Option<Category>)

  /** `LiveAt`: neither aged out nor stamped impossibly far in the future.
      `Counts`: of the wanted category, or any row when none is named. */
  predicate Passes(r: Row, t: Test) {
    match t
    case LiveAt(now) => now - WINDOW_S < r.ts <= now + FUTURE_SLACK_S
    case Counts(want) => want.None? || r.cat == want.value
  }

  function Filter(rows: seq<Row>, t: Test): (r: seq<Row>)
    ensures |r| <= |rows|
    ensures t == Counts(None) ==> r == rows
  {
    if rows == [] then []
    else
      var n := |rows| - 1;
      var r := Filter(rows[..n], t);
      if Passes(rows[n], t) then r + [rows[n]] else r
  }

  predicate Live(r: Row, now: real) { Passes(r, LiveAt(now)) }

  function Prune(rows: seq<Row>, now: real): seq<Row> { Filter(rows, LiveAt(now)) }

  function Select(rows: seq<Row>, want: Option<Category>): seq<Row> { Filter(rows, Counts(want)) }

  function MinTs(rows: seq<Row>): (m: real)
    requires rows != []
    ensures exists r :: r in rows && r.ts == m
    ensures forall r :: r in rows ==> m <= r.ts
  {
    var n := |rows| - 1;
    if n == 0 then rows[0].ts
    else
      var m := MinTs(rows[..n]);
      if rows[n].ts < m then rows[n].ts else m
  }

  predicate Room(rows: seq<Row>, limit: int, want: Option<Category>) {
    limit <= 0 || |Select(rows, want)| < limit
  }

  /** Both ceilings at once: the machine's and the category's. */
  predicate Admits(rows: seq<Row>, limit: int, cat: Category, catLimit: int) {
    Room(rows, limit, None) && Room(rows, catLimit, Some(cat))
  }

  /** Seconds until `want`'s window frees a slot; 0 when it is not full. */
  function WaitOf(rows: seq<Row>, limit: int, want: Option<Category>, now: real): real {
    if Room(rows, limit, want) then 0.0 else MinTs(Select(rows, want)) + WINDOW_S - now
  }

  function BindingWait(rows: seq<Row>, limit: int, cat: Category, catLimit: int, now: real): real {
    var g := WaitOf(rows, limit, None, now);
    var c := WaitOf(rows, catLimit, Some(cat), now);
    if g < c then c else g
  }

  /** `r` is the oldest row of `want`'s window, and that is full. */
  ghost predicate OldestOfFull(rows: seq<Row>, limit: int, want: Option<Category>, r: Row) {
    && !Room(rows, limit, want) && r in rows && Passes(r, Counts(want))
    && forall q :: q in rows && Passes(q, Counts(want)) ==> r.ts <= q.ts
  }

  /** The wait of a refused take: the oldest row of one full window is 60 seconds old by
      then, and so is that of any other. */
  ghost predicate IsWait(wait: real, rows: seq<Row>, limit: int, cat: Category, catLimit: int, now: real) {
    && ((exists r :: OldestOfFull(rows, limit, None, r) && wait == r.ts + 60.0 - now)
        || exists r :: OldestOfFull(rows, catLimit, Some(cat), r) && wait == r.ts + 60.0 - now)
    && (forall r :: OldestOfFull(rows, limit, None, r) ==> r.ts + 60.0 - now <= wait)
    && (forall r :: OldestOfFull(rows, catLimit, Some(cat), r) ==> r.ts + 60.0 - now <= wait)
  }

  /** The index the trim deletes next: least stamp, lowest rowid among equals. */
  function OldestIndex(rows: seq<Row>): (k: nat)
    requires rows != []
    ensures k < |rows|
    ensures forall i :: 0 <= i < |rows| ==> rows[k].ts <= rows[i].ts
    ensures forall i :: 0 <= i < k ==> rows[k].ts < rows[i].ts
  {
    var n := |rows| - 1;
    if n == 0 then 0
    else
      var k := OldestIndex(rows[..n]);
      if rows[n].ts < rows[k].ts then n else k
  }

  /** Everything ranked after the `m` newest stamps is deleted. */
  function KeepNewest(rows: seq<Row>, m: nat): (r: seq<Row>)
    ensures |r| == if |rows| <= m then |rows| else m
  {
    if |rows| <= m then rows
    else
      var k := OldestIndex(rows);
      KeepNewest(rows[..k] + rows[k + 1..], m)
  }

  function ClampSize(limit: int): nat {
    if limit < 1 then 1 else limit
  }

  // ---------- The store ----------

  class Window {
    var sends: seq<Row>

    constructor ()
      ensures sends == []
    {
      sends := [];
    }

    /** Sends in the window, of every category or of one; changes nothing. */
    method Count(now: real, want: Option<Category>) returns (n: nat)
      ensures n == |Select(Prune(sends, now), want)|
    {
      n := 0;
      for i := 0 to |sends|
        invariant n == |Select(Prune(sends[..i], now), want)|
      {
        CountOneMore(sends, i, now, want);
        if Live(sends[i], now) && Passes(sends[i], Counts(want)) {
          n := n + 1;
        }
      }
      assert sends[..|sends|] == sends;
    }

    method Take(limit: int, now: real, cat: Category, catLimit: int)
      returns (claimed: bool, wait: real)
      modifies this
      ensures var live := Prune(old(sends), now);
              && claimed == Admits(live, limit, cat, catLimit)
              && sends == (if claimed then live + [Row(now, cat)] else live)
              && wait == (if claimed then 0.0 else BindingWait(live, limit, cat, catLimit, now))
      ensures !claimed ==> IsWait(wait, sends, limit, cat, catLimit, now)
      ensures claimed || 0.0 < wait <= WINDOW_S + FUTURE_SLACK_S
    {
      sends := Prune(sends, now);
      FilterPasses(old(sends), LiveAt(now));
      var globalOk, catOk := Ceilings(limit, cat, catLimit);
      if globalOk && catOk {
        sends := sends + [Row(now, cat)];
        return true, 0.0;
      }
      wait := WaitFor(limit, globalOk, cat, catLimit, catOk, now);
      claimed := false;
    }

    /** Is there room under each ceiling? A ceiling of zero is none. */
    method Ceilings(limit: int, cat: Category, catLimit: int) returns (globalOk: bool, catOk: bool)
      ensures globalOk == Room(sends, limit, None) && catOk == Room(sends, catLimit, Some(cat))
    {
      var n := |sends|;
      var nc := if catLimit > 0 then |Select(sends, Some(cat))| else 0;
      globalOk := limit <= 0 || n < limit;
      catOk := catLimit <= 0 || nc < catLimit;
    }

    /** Seconds until every full window frees a slot: the later of the two. */
    method WaitFor(limit: int, globalOk: bool, cat: Category, catLimit: int, catOk: bool, now: real)
      returns (wait: real)
      requires forall r :: r in sends ==> Live(r, now)
      requires globalOk == Room(sends, limit, None) && catOk == Room(sends, catLimit, Some(cat))
      requires !(globalOk && catOk)
      ensures wait == BindingWait(sends, limit, cat, catLimit, now)
      ensures IsWait(wait, sends, limit, cat, catLimit, now)
      ensures 0.0 < wait <= WINDOW_S + FUTURE_SLACK_S
    {
      FilterPasses(sends, Counts(Some(cat)));
      wait := 0.0;
      if !globalOk {
        wait := MinTs(sends) + WINDOW_S - now;
      }
      if !catOk {
        var catWait := MinTs(Select(sends, Some(cat))) + WINDOW_S - now;
        if wait < catWait {
          wait := catWait;
        }
      }
      BindingWaitIs(sends, limit, cat, catLimit, now);
    }

    /** Count a send that leaves whatever the window says, and trim. */
    method Force(limit: int, now: real, cat: Category)
      modifies this
      ensures sends == KeepNewest(Prune(old(sends), now) + [Row(now, cat)], ClampSize(limit))
    {
      sends := Prune(sends, now);
      sends := sends + [Row(now, cat)];
      Trim(ClampSize(limit));
    }

    /** Delete all but the `m` newest stamps. */
    method Trim(m: nat)
      modifies this
      ensures sends == KeepNewest(old(sends), m)
    {
      while |sends| > m
        invariant KeepNewest(sends, m) == KeepNewest(old(sends), m)
      {
        var k := OldestIndex(sends);
        sends := sends[..k] + sends[k + 1..];
      }
    }
  }

  // ---------- What is counted, and how long a full window waits ----------

  /** The live rows of the wanted category, by their places. */
  function LiveOf(rows: seq<Row>, now: real, want: Option<Category>): set<nat> {
    set i: nat | i < |rows| && now - 60.0 < rows[i].ts <= now + 1.0 && (want.None? || rows[i].cat == want.value)
  }

  /** A count is of the rows stamped in the last 60 seconds, or at most one ahead. */
  lemma {:induction false} CountIsLiveRows(rows: seq<Row>, now: real, want: Option<Category>)
    ensures |Select(Prune(rows, now), want)| == |LiveOf(rows, now, want)|
  {
    if rows != [] {
      var n := |rows| - 1;
      CountIsLiveRows(rows[..n], now, want);
      CountOneMore(rows, n, now, want);
      assert rows[..n + 1] == rows;
      LiveOfSnoc(rows, now, want);
    } else {
      assert LiveOf(rows, now, want) == {};
    }
  }

  lemma LiveOfSnoc(rows: seq<Row>, now: real, want: Option<Category>)
    requires rows != []
    ensures var n := |rows| - 1;
            |LiveOf(rows, now, want)| == |LiveOf(rows[..n], now, want)|
              + if Live(rows[n], now) && Passes(rows[n], Counts(want)) then 1 else 0
  {
    var n := |rows| - 1;
    assert LiveOf(rows, now, want) == LiveOf(rows[..n], now, want)
             + if Live(rows[n], now) && Passes(rows[n], Counts(want)) then {n} else {};
  }

  /** A take is admitted if and only if fewer rows than the ceiling are live, of the
      machine and of the category, a ceiling of zero being none. */
  lemma AdmittedIff(rows: seq<Row>, limit: int, cat: Category, catLimit: int, now: real)
    ensures Admits(Prune(rows, now), limit, cat, catLimit)
       <==> ((limit <= 0 || |LiveOf(rows, now, None)| < limit)
             && (catLimit <= 0 || |LiveOf(rows, now, Some(cat))| < catLimit))
  {
    CountIsLiveRows(rows, now, None);
    CountIsLiveRows(rows, now, Some(cat));
  }

  /** Pruning keeps the live rows, all of them, in their order. */
  lemma {:induction false} PruneKeeps(rows: seq<Row>, now: real)
    ensures forall r :: r in Prune(rows, now) <==> r in rows && now - 60.0 < r.ts <= now + 1.0
    ensures (forall r :: r in rows ==> now - 60.0 < r.ts <= now + 1.0) ==> Prune(rows, now) == rows
  {
    FilterKeeps(rows, LiveAt(now));
    if forall r :: r in rows ==> Live(r, now) {
      FilterAll(rows, LiveAt(now));
    }
  }

  lemma {:induction false} FilterKeeps(rows: seq<Row>, t: Test)
    ensures forall r :: r in Filter(rows, t) <==> r in rows && Passes(r, t)
  {
    if rows != [] {
      var n := |rows| - 1;
      FilterKeeps(rows[..n], t);
      assert forall r :: r in rows <==> r in rows[..n] || r == rows[n];
    }
  }

  lemma OldestIsMin(rows: seq<Row>, limit: int, want: Option<Category>)
    requires !Room(rows, limit, want)
    ensures Select(rows, want) != []
    ensures exists r :: OldestOfFull(rows, limit, want, r) && r.ts == MinTs(Select(rows, want))
    ensures forall r :: OldestOfFull(rows, limit, want, r) ==> r.ts == MinTs(Select(rows, want))
  {
    var sel := Select(rows, want);
    FilterKeeps(rows, Counts(want));
    assert |sel| > 0;
    var m := MinTs(sel);
    var r :| r in sel && r.ts == m;
    assert OldestOfFull(rows, limit, want, r);
  }

  lemma BindingWaitIs(rows: seq<Row>, limit: int, cat: Category, catLimit: int, now: real)
    requires forall r :: r in rows ==> Live(r, now)
    requires !Room(rows, limit, None) || !Room(rows, catLimit, Some(cat))
    ensures IsWait(BindingWait(rows, limit, cat, catLimit, now), rows, limit, cat, catLimit, now)
  {
    if !Room(rows, limit, None) {
      OldestIsMin(rows, limit, None);
      FilterPasses(rows, Counts(None));
    }
    if !Room(rows, catLimit, Some(cat)) {
      OldestIsMin(rows, catLimit, Some(cat));
      FilterPasses(rows, Counts(Some(cat)));
    }
  }

  /** That leaves one possible wait. */
  lemma WaitIsUnique(a: real, b: real, rows: seq<Row>, limit: int, cat: Category, catLimit: int, now: real)
    requires IsWait(a, rows, limit, cat, catLimit, now) && IsWait(b, rows, limit, cat, catLimit, now)
    ensures a == b
  {
  }

  // ---------- Facts about filtering ----------

  lemma {:induction false} FilterPasses(rows: seq<Row>, t: Test)
    ensures forall r :: r in Filter(rows, t) ==> Passes(r, t) && r in rows
  {
    if rows != [] {
      FilterPasses(rows[..|rows| - 1], t);
    }
  }

  lemma FilterAppend(rows: seq<Row>, r: Row, t: Test)
    ensures Filter(rows + [r], t) == if Passes(r, t) then Filter(rows, t) + [r] else Filter(rows, t)
  {
    assert (rows + [r])[..|rows|] == rows;
  }

  lemma CountOneMore(rows: seq<Row>, i: nat, now: real, want: Option<Category>)
    requires i < |rows|
    ensures |Select(Prune(rows[..i + 1], now), want)|
         == |Select(Prune(rows[..i], now), want)| + if Live(rows[i], now) && Passes(rows[i], Counts(want)) then 1 else 0
  {
    assert rows[..i + 1] == rows[..i] + [rows[i]];
    FilterAppend(rows[..i], rows[i], LiveAt(now));
    FilterAppend(Prune(rows[..i], now), rows[i], Counts(want));
  }

  lemma Unsnoc(a: seq<Row>, b: seq<Row>)
    requires b != []
    ensures a + b == (a + b[..|b| - 1]) + [b[|b| - 1]]
  {
  }

  lemma {:induction false} FilterConcat(a: seq<Row>, b: seq<Row>, t: Test)
    ensures Filter(a + b, t) == Filter(a, t) + Filter(b, t)
  {
    if b == [] {
      assert a + b == a;
    } else {
      var n := |b| - 1;
      var joined := a + b[..n];
      FilterConcat(a, b[..n], t);
      Unsnoc(a, b);
      FilterAppend(joined, b[n], t);
    }
  }

  lemma {:induction false} FilterAll(rows: seq<Row>, t: Test)
    requires forall r :: r in rows ==> Passes(r, t)
    ensures Filter(rows, t) == rows
  {
    if rows != [] {
      FilterAll(rows[..|rows| - 1], t);
    }
  }

  lemma {:induction false} FilterLoses(rows: seq<Row>, t: Test, i: nat)
    requires i < |rows| && !Passes(rows[i], t)
    ensures |Filter(rows, t)| < |rows|
  {
    var n := |rows| - 1;
    if i < n {
      FilterLoses(rows[..n], t, i);
    }
  }

  /** Pruning and selecting commute. */
  lemma {:induction false} FilterCommutes(rows: seq<Row>, t: Test, u: Test)
    ensures Filter(Filter(rows, t), u) == Filter(Filter(rows, u), t)
  {
    if rows != [] {
      var n := |rows| - 1;
      FilterCommutes(rows[..n], t, u);
      FilterAppend(Filter(rows[..n], t), rows[n], u);
      FilterAppend(Filter(rows[..n], u), rows[n], t);
    }
  }

  /** The prunes of two transactions amount to the later one. */
  lemma {:induction false} PruneCompose(rows: seq<Row>, now: real, later: real)
    requires now <= later
    requires forall r :: r in rows ==> r.ts <= now + FUTURE_SLACK_S
    ensures Prune(Prune(rows, now), later) == Prune(rows, later)
  {
    if rows != [] {
      var n := |rows| - 1;
      PruneCompose(rows[..n], now, later);
      FilterAppend(Prune(rows[..n], now), rows[n], LiveAt(later));
    }
  }

  /** A live suffix behind a dead prefix is what pruning leaves. */
  lemma {:induction false} PruneByCut(rows: seq<Row>, now: real, k: nat)
    requires k <= |rows|
    requires forall i :: 0 <= i < k ==> !Live(rows[i], now)
    requires forall i :: k <= i < |rows| ==> Live(rows[i], now)
    ensures Prune(rows, now) == rows[k..]
  {
    if rows != [] {
      var n := |rows| - 1;
      if k <= n {
        PruneByCut(rows[..n], now, k);
        assert rows[k..] == rows[..n][k..] + [rows[n]];
      } else {
        PruneByCut(rows[..n], now, n);
      }
    }
  }

  predicate Sorted(rows: seq<Row>) {
    forall i, j :: 0 <= i < j < |rows| ==> rows[i].ts <= rows[j].ts
  }

  predicate NotAfter(rows: seq<Row>, now: real) {
    forall i :: 0 <= i < |rows| ==> rows[i].ts <= now
  }

  lemma {:induction false} CutPoint(rows: seq<Row>, now: real) returns (k: nat)
    requires Sorted(rows) && NotAfter(rows, now)
    ensures k <= |rows|
    ensures forall i :: 0 <= i < |rows| ==> (Live(rows[i], now) <==> k <= i)
    ensures Prune(rows, now) == rows[k..]
  {
    k := 0;
    while k < |rows| && !Live(rows[k], now)
      invariant k <= |rows|
      invariant forall i :: 0 <= i < k ==> !Live(rows[i], now)
    {
      k := k + 1;
    }
    PruneByCut(rows, now, k);
  }

  function Newest(rows: seq<Row>, m: nat): seq<Row> {
    if |rows| <= m then rows else rows[|rows| - m..]
  }

  lemma OldestOfSorted(rows: seq<Row>)
    requires rows != [] && Sorted(rows)
    ensures OldestIndex(rows) == 0 && Sorted(rows[1..])
    ensures rows[..0] + rows[1..] == rows[1..]
  {
    assert rows[OldestIndex(rows)].ts >= rows[0].ts;
  }

  lemma NewestOfTail(rows: seq<Row>, m: nat)
    requires |rows| > m
    ensures Newest(rows[1..], m) == Newest(rows, m)
  {
  }

  /** On rows stamped in order, the trim keeps exactly the last `m`. */
  lemma {:induction false} KeepNewestSorted(rows: seq<Row>, m: nat)
    requires Sorted(rows)
    ensures KeepNewest(rows, m) == Newest(rows, m)
    decreases |rows|
  {
    if |rows| > m {
      OldestOfSorted(rows);
      NewestOfTail(rows, m);
      KeepNewestSorted(rows[1..], m);
    }
  }

  lemma WithoutOldest(rows: seq<Row>, m: nat) returns (rest: seq<Row>, oldest: Row)
    requires |rows| > m
    ensures |rest| < |rows| && KeepNewest(rows, m) == KeepNewest(rest, m)
    ensures multiset(rows) == multiset(rest) + multiset{oldest}
    ensures forall r :: r in multiset(rows) ==> oldest.ts <= r.ts
  {
    var k := OldestIndex(rows);
    rest, oldest := rows[..k] + rows[k + 1..], rows[k];
    assert rows == rows[..k] + [rows[k]] + rows[k + 1..];
    forall r | r in multiset(rows) ensures rows[k].ts <= r.ts {
      var i :| 0 <= i < |rows| && rows[i] == r;
    }
  }

  lemma OneMoreDropped(rows: multiset<Row>, rest: multiset<Row>, oldest: Row, kept: multiset<Row>, later: multiset<Row>)
    requires rows == rest + multiset{oldest} && rest == kept + later
    requires forall r :: r in rows ==> oldest.ts <= r.ts
    requires forall d, k :: d in later && k in kept ==> d.ts <= k.ts
    ensures rows == kept + (later + multiset{oldest})
    ensures forall d, k :: d in later + multiset{oldest} && k in kept ==> d.ts <= k.ts
  {
    forall d, k | d in later + multiset{oldest} && k in kept ensures d.ts <= k.ts {
      assert d in later || d == oldest;
      assert k in rows;
    }
  }

  /** In any order: what the trim deletes is no newer than anything it keeps. */
  lemma {:induction false} KeepNewestSplits(rows: seq<Row>, m: nat) returns (dropped: multiset<Row>)
    ensures multiset(rows) == multiset(KeepNewest(rows, m)) + dropped
    ensures forall d, k :: d in dropped && k in multiset(KeepNewest(rows, m)) ==> d.ts <= k.ts
    decreases |rows|
  {
    if |rows| <= m {
      dropped := multiset{};
    } else {
      var rest, oldest := WithoutOldest(rows, m);
      var later := KeepNewestSplits(rest, m);
      OneMoreDropped(multiset(rows), multiset(rest), oldest, multiset(KeepNewest(rest, m)), later);
      dropped := later + multiset{oldest};
    }
  }

  lemma SliceOfSlice(rows: seq<Row>, a: nat, b: nat)
    requires a + b <= |rows|
    ensures rows[a..][b..] == rows[a + b..]
  {
  }

  lemma PruneTail(rows: seq<Row>, now: real, k: nat, d: nat)
    requires k <= |rows| && d <= |rows|
    requires forall i :: 0 <= i < |rows| ==> (Live(rows[i], now) <==> k <= i)
    ensures Prune(rows[d..], now) == rows[if k < d then d else k..]
  {
    var c := if k < d then 0 else k - d;
    forall i | 0 <= i < |rows| - d ensures Live(rows[d..][i], now) <==> c <= i {
      assert rows[d..][i] == rows[d + i];
    }
    PruneByCut(rows[d..], now, c);
    SliceOfSlice(rows, d, c);
  }

  lemma PruneNewest(rows: seq<Row>, m: nat, now: real)
    requires Sorted(rows) && NotAfter(rows, now)
    ensures Prune(Newest(rows, m), now) == Newest(Prune(rows, now), m)
  {
    var k := CutPoint(rows, now);
    var d := if |rows| <= m then 0 else |rows| - m;
    PruneTail(rows, now, k, d);
    NewestIs(rows, m, k, d);
  }

  lemma NewestIs(rows: seq<Row>, m: nat, k: nat, d: nat)
    requires k <= |rows| && d == if |rows| <= m then 0 else |rows| - m
    ensures Newest(rows, m) == rows[d..]
    ensures Newest(rows[k..], m) == rows[if k < d then d else k..]
  {
    if k < d {
      SliceOfSlice(rows, k, d - k);
    }
  }
}
