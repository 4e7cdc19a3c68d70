/** One process's tick, run without interference: `fire`, `_dispatch` and `tick`
    of `jobs/scheduler.py`. What interference can do is in `JobProtocol`. */
module JobScheduler {

  import opened Wrappers
  import opened Jobs
  import opened JobStore

  /** A dispatch: the job and the claim it was dispatched under. */
  type Dispatch = (int, Option<Token>)

  function Put(jobs: map<int, Job>, id: int, row: Option<Job>): map<int, Job> {
    if row.Some? then jobs[id := row.value] else jobs - {id}
  }

  function Lookup(jobs: map<int, Job>, id: int): Option<Job> {
    if id in jobs then Some(jobs[id]) else None
  }

  /** Does firing the snapshot `j` win the slot of `row`? */
  predicate Wins(row: Option<Job>, j: Job, now: Time, slot: Option<Time>) {
    !Expired(j, now) && slot.Some? && row.Some? && row.value.nextRun == j.nextRun
  }

  /** An agent job whose previous run is still going consumes its slot unrun. */
  predicate Skips(row: Job, id: int, running: set<int>) { row.kind.Agent? && id in running }

  /** The row once a won claim has been dispatched. */
  function Launched(row: Job, id: int, running: set<int>, accepted: bool): Job {
    match row.kind
    case Script => row
    case Agent => if id in running then Idle(row).(lastError := Some("skipped")) else row
    case Ticket => Idle(row).(lastError := if accepted then None else Some("refused"))
  }

  /** The row of a run found in flight at startup: retried once, unless its script
      outlived the restart and is only watched; retried before, given up. */
  function Resumed(row: Job, id: int, running: set<int>, accepted: bool, alive: bool): Job {
    if row.attempt >= 2 then Released(row, Some("already retried"))
    else if row.kind.Script? && alive then Bumped(row, row.attempt)
    else Launched(Bumped(row, row.attempt), id, running, accepted)
  }

  /** Counted as retried, even if it is then skipped. */
  predicate Retries(row: Job, alive: bool) { row.attempt < 2 && !(row.kind.Script? && alive) }

  predicate Redispatches(row: Job, id: int, running: set<int>, alive: bool) {
    Retries(row, alive) && !Skips(row, id, running)
  }

  /** A script alive at its second restart is killed. */
  predicate IsKilled(row: Job, alive: bool) { row.attempt >= 2 && row.kind.Script? && alive }

  /** However often the process restarts, a claimed run is dispatched once more at
      most: what one restart leaves running the next gives up. */
  lemma TwoRestartsRunOnce(row: Job, id: int, running: set<int>, accepted: bool, alive: bool,
                           later: set<int>, again: bool)
    requires Sound(row) && row.running
    ensures var once := Resumed(row, id, running, accepted, alive);
            && Sound(once)
            && !(once.running && Redispatches(once, id, later, again))
            && (once.running ==> !Resumed(once, id, later, accepted, again).running)
            && once.nextRun == row.nextRun
  {
  }

  /** The row is in flight exactly when something other than a ticket has just been
      dispatched, and then under the row's own token. */
  ghost predicate LeftInFlight(id: int, row: Job, token: Option<Token>, before: seq<Dispatch>, after: seq<Dispatch>) {
    && (row.running <==> !row.kind.Ticket? && after != before)
    && (row.running ==> row.token == token && after == before + [(id, token)])
  }

  /** A run that firing leaves in flight, and whose process then dies, is dispatched
      by the next process under the same token, unless its script outlived the
      crash; and the process after that ends it undispatched. */
  lemma FiredRunIsRetriedOnce(row: Job, id: int, now: Time, slot: Time, token: Token, running: set<int>,
                              accepted: bool, alive: bool, again: bool)
    ensures var left := Launched(Claimed(row, now, slot, None, token), id, running, accepted);
            var once := Resumed(left, id, {}, accepted, alive);
            var twice := Resumed(once, id, {}, accepted, again);
            && (left.running <==> !row.kind.Ticket? && !(row.kind.Agent? && id in running))
            && (left.running ==>
                  && left.token == Some(token) && left.nextRun == slot && left.lastRun == Some(now)
                  && (Redispatches(left, id, {}, alive) <==> !(row.kind.Script? && alive))
                  && once.running && once.token == Some(token)
                  && !Redispatches(once, id, {}, again) && !twice.running && twice.token.None?
                  && (IsKilled(once, again) <==> row.kind.Script? && again)
                  && twice.nextRun == slot && twice.enabled == row.enabled)
  {
  }

  ghost predicate IsInflightList(rows: seq<(int, Job)>, before: map<int, Job>) {
    && Ordered(rows)
    && forall id, j :: (id, j) in rows <==> id in before && j == before[id] && j.running
  }

  /** The runs dispatched again, in order, each under the token it was found with. */
  ghost function Resends(rows: seq<(int, Job)>, was: set<int>, alive: int -> bool): seq<Dispatch> {
    if rows == [] then []
    else
      var n := |rows| - 1;
      Resends(rows[..n], was, alive)
      + if Redispatches(rows[n].1, rows[n].0, was, alive(rows[n].0)) then [(rows[n].0, rows[n].1.token)] else []
  }

  /** A dispatch is among them exactly when its run is, and is due its retry. */
  lemma {:induction false} ResendsHold(rows: seq<(int, Job)>, was: set<int>, alive: int -> bool, d: Dispatch)
    ensures d in Resends(rows, was, alive) <==>
            exists k :: && 0 <= k < |rows| && d == (rows[k].0, rows[k].1.token)
                        && Redispatches(rows[k].1, rows[k].0, was, alive(rows[k].0))
  {
    if rows != [] {
      var n := |rows| - 1;
      ResendsHold(rows[..n], was, alive, d);
      if k :| && 0 <= k < n && d == (rows[..n][k].0, rows[..n][k].1.token)
              && Redispatches(rows[..n][k].1, rows[..n][k].0, was, alive(rows[..n][k].0)) {
        assert rows[k] == rows[..n][k];
      }
    }
  }

  /** Each once: the jobs come in the order of their ids. */
  lemma {:induction false} ResendsAscend(rows: seq<(int, Job)>, was: set<int>, alive: int -> bool)
    requires Ordered(rows)
    ensures forall i, j :: 0 <= i < j < |Resends(rows, was, alive)| ==>
              Resends(rows, was, alive)[i].0 < Resends(rows, was, alive)[j].0
  {
    if rows != [] {
      var n := |rows| - 1;
      ResendsAscend(rows[..n], was, alive);
      forall d | d in Resends(rows[..n], was, alive) ensures d.0 < rows[n].0 {
        ResendsHold(rows[..n], was, alive, d);
      }
    }
  }

  /** A fresh process dispatches a run once, under its own token, exactly when it is
      on its first attempt and its script did not outlive the old process. */
  lemma ResumedExactlyOnce(rows: seq<(int, Job)>, before: map<int, Job>, alive: int -> bool, id: int, token: Option<Token>)
    requires IsInflightList(rows, before) && (forall i :: i in before ==> Sound(before[i]))
    ensures (id, token) in Resends(rows, {}, alive) <==>
            && id in before && before[id].running && before[id].token == token && before[id].attempt == 1
            && !(before[id].kind.Script? && alive(id))
    ensures forall i, j :: 0 <= i < j < |Resends(rows, {}, alive)| ==>
              Resends(rows, {}, alive)[i] != Resends(rows, {}, alive)[j]
  {
    ResendsHold(rows, {}, alive, (id, token));
    ResendsAscend(rows, {}, alive);
    if id in before && before[id].running {
      assert (id, before[id]) in rows;
    }
    if k :| 0 <= k < |rows| && (id, token) == (rows[k].0, rows[k].1.token) {
      assert rows[k] in rows;
      assert (id, rows[k].1) in rows;
    }
  }

  /** Two restarts after a claim, over the whole table: the first dispatches the run
      again, under its token, unless its script is alive; the second never does, and
      leaves the job idle for its next slot. */
  lemma ResumedByTheFirstRestartOnly(jobs: map<int, Job>, rows: seq<(int, Job)>, alive: int -> bool,
                                     after: map<int, Job>, later: seq<(int, Job)>, again: int -> bool,
                                     accepts: int -> bool, id: int, token: Token)
    requires IsInflightList(rows, jobs) && IsInflightList(later, after)
    requires (forall i :: i in jobs ==> Sound(jobs[i])) && (forall i :: i in after ==> Sound(after[i]))
    requires jobs.Keys == after.Keys
    requires forall i :: i in jobs && jobs[i].running ==> after[i] == Resumed(jobs[i], i, {}, accepts(i), alive(i))
    requires id in jobs && jobs[id].running && jobs[id].token == Some(token) && jobs[id].attempt == 1
    ensures (id, Some(token)) in Resends(rows, {}, alive) <==> !(jobs[id].kind.Script? && alive(id))
    ensures forall t :: (id, t) !in Resends(later, {}, again)
    ensures var last := Resumed(after[id], id, {}, accepts(id), again(id));
            after[id].running ==> !last.running && last.token.None? && last.nextRun == jobs[id].nextRun
  {
    ResumedExactlyOnce(rows, jobs, alive, id, Some(token));
    forall t ensures (id, t) !in Resends(later, {}, again) {
      ResumedExactlyOnce(later, after, again, id, t);
    }
  }

  class Scheduler {
    const store: Store
    /** The next slot of a cron after an instant. */
    const next: Cron
    /** Whether the ticket system accepts a job's ticket. */
    const accepts: int -> bool
    /** Agent jobs whose worker is running in this process. */
    var running: set<int>
    var dispatched: seq<Dispatch>
    /** Jobs asked to stop, and jobs whose script was killed, in order. */
    var stopped: seq<int>
    var killed: seq<int>

    constructor (store: Store, next: Cron, accepts: int -> bool)
      ensures this.store == store && this.next == next && this.accepts == accepts
      ensures running == {} && dispatched == [] && stopped == [] && killed == []
    {
      this.store, this.next, this.accepts := store, next, accepts;
      running, dispatched, stopped, killed := {}, [], [], [];
    }

    ghost predicate Valid()
      reads this, store
    {
      store.Valid() && IsCron(next)
    }

    method Dispatch(id: int, j: Job) returns (ok: bool)
      requires Valid() && id in store.jobs && store.jobs[id] == j && j.running
      modifies `running, `dispatched, store`jobs
      ensures Valid()
      ensures store.jobs == old(store.jobs)[id := Launched(j, id, old(running), accepts(id))]
      ensures dispatched == old(dispatched) + if Skips(j, id, old(running)) then [] else [(id, j.token)]
      ensures running == old(running) + if j.kind.Agent? then {id} else {}
      ensures ok == if j.kind.Ticket? then accepts(id) else !Skips(j, id, old(running))
      ensures dispatched == old(dispatched) <==> j.kind.Agent? && id in old(running)
      ensures LeftInFlight(id, store.jobs[id], j.token, old(dispatched), dispatched)
      ensures store.jobs[id].lastError
           == if j.kind.Ticket? then (if accepts(id) then None else Some("refused"))
              else if j.kind.Agent? && id in old(running) then Some("skipped") else j.lastError
    {
      match j.kind {
        case Script =>
          dispatched := dispatched + [(id, j.token)];
          ok := true;
        case Agent =>
          if id in running {
            var _ := store.UpdateIfToken(id, None, Some("skipped"));
            var _ := store.ClearRun(id, j.token);
            return false;
          }
          running := running + {id};
          dispatched := dispatched + [(id, j.token)];
          ok := true;
        case Ticket =>
          dispatched := dispatched + [(id, j.token)];
          ok := accepts(id);
          if ok {
            var _ := store.UpdateIfToken(id, j.token, None);
          } else {
            var _ := store.UpdateIfToken(id, None, Some("refused"));
          }
          var _ := store.ClearRun(id, j.token);
      }
    }

    /** Stop the worker, if any, then drop the row. */
    method CloseJob(id: int)
      requires Valid()
      modifies `stopped, store`jobs
      ensures Valid() && store.jobs == old(store.jobs) - {id} && stopped == old(stopped) + [id]
    {
      stopped := stopped + [id];
      var _ := store.Delete(id);
    }

    /** Advance, then dispatch: the slot is consumed before anything runs. */
    method Fire(id: int, j: Job, now: Time) returns (fired: bool)
      requires Valid()
      modifies `running, `dispatched, `stopped, store
      ensures Valid()
      ensures stopped == old(stopped) + if Expired(j, now) then [id] else []
      ensures var row, slot := Lookup(old(store.jobs), id), next(j.cron, now);
        if Wins(row, j, now, slot) then
          var claimed := Claimed(row.value, now, slot.value, None, old(store.issued));
          && store.jobs == old(store.jobs)[id := Launched(claimed, id, old(running), accepts(id))]
          && dispatched == old(dispatched)
             + (if Skips(claimed, id, old(running)) then [] else [(id, Some(old(store.issued)))])
          && running == old(running) + (if claimed.kind.Agent? then {id} else {})
          && (fired == if claimed.kind.Ticket? then accepts(id) else !Skips(claimed, id, old(running)))
          && LeftInFlight(id, store.jobs[id], Some(old(store.issued)), old(dispatched), dispatched)
        else
          && !fired && dispatched == old(dispatched) && running == old(running)
          && store.jobs == (
               if Expired(j, now) then old(store.jobs) - {id}
               else if slot.None? && row.Some? then
                 old(store.jobs)[id := row.value.(enabled := false, lastError := Some("unschedulable cron"))]
               else old(store.jobs))
    {
      if Expired(j, now) {
        CloseJob(id);
        return false;
      }
      var slot := next(j.cron, now);
      if slot.None? {
        store.Disable(id, Some("unschedulable cron"));
        return false;
      }
      var won := store.Claim(id, j.nextRun, now, slot.value, None);
      if !won {
        return false;
      }
      var reread := store.Get(id);
      fired := Dispatch(id, reread.GetOr(j));
    }

    /** Every job whose end has passed is stopped and closed, once, by id. */
    method CloseExpired(now: Time) returns (ghost ended: seq<(int, Job)>)
      requires Valid()
      modifies `stopped, store`jobs
      ensures Valid()
      ensures store.jobs == Live(old(store.jobs), now)
      ensures Ordered(ended)
      ensures forall id, j :: (id, j) in ended <==> id in old(store.jobs) && j == old(store.jobs)[id] && Expired(j, now)
      ensures stopped == old(stopped) + JobIds(ended)
    {
      ghost var before, was := store.jobs, stopped;
      var rows := store.ExpiredJobs(now);
      ended := rows;
      for i := 0 to |rows|
        invariant Valid() && store.jobs == before - JobIdSet(rows[..i])
        invariant stopped == was + JobIds(rows[..i])
      {
        JobIdsAppend(rows, i);
        CloseJob(rows[i].0);
      }
      assert rows[..|rows|] == rows;
      WithoutExpired(before, rows, now);
    }

    lemma WithoutExpired(before: map<int, Job>, rows: seq<(int, Job)>, now: Time)
      requires forall id, j :: (id, j) in rows <==> id in before && j == before[id] && Expired(j, now)
      ensures before - JobIdSet(rows) == Live(before, now)
    {
      forall id | id in before ensures id in JobIdSet(rows) <==> Expired(before[id], now) {
        if Expired(before[id], now) {
          assert (id, before[id]) in rows;
        }
        if id in JobIdSet(rows) {
          var k :| 0 <= k < |rows| && rows[k].0 == id;
          assert rows[k] in rows;
          assert (id, rows[k].1) in rows;
        }
      }
    }

    /** Close what has ended, then fire everything due, each job at most once.
        Afterwards nothing is due at `now`: however long the backlog, a job fires
        once and its next slot is the cron's first after `now`. */
    method Tick(now: Time) returns (fired: nat, ghost due: seq<(int, Job)>)
      requires Valid()
      modifies `running, `dispatched, `stopped, store
      ensures Valid()
      ensures old(stopped) <= stopped
      ensures forall id :: id in stopped[|old(stopped)|..] <==> id in old(store.jobs) && Expired(old(store.jobs)[id], now)
      ensures var live := Live(old(store.jobs), now);
        && IsDueList(due, live, now)
        && store.jobs.Keys == live.Keys
        && (forall id :: id in live ==> !Due(store.jobs[id], now) && !Expired(store.jobs[id], now))
        && (forall id :: id in live && !Due(live[id], now) ==> store.jobs[id] == live[id])
        && (forall id :: id in live && Due(live[id], now) ==> Settled(live[id], store.jobs[id], now))
      ensures |dispatched| >= |old(dispatched)| && dispatched[..|old(dispatched)|] == old(dispatched)
      ensures Ids(dispatched[|old(dispatched)|..]) == Fires(due, now, old(running))
      ensures fired == Successes(due, now, old(running))
    {
      ghost var ended := CloseExpired(now);
      EndedAre(old(store.jobs), ended, now);
      fired, due := FireDue(now);
    }

    /** The dispatching half of a tick, over jobs none of which has ended. */
    method FireDue(now: Time) returns (fired: nat, ghost due: seq<(int, Job)>)
      requires Valid() && forall id :: id in store.jobs ==> !Expired(store.jobs[id], now)
      modifies `running, `dispatched, `stopped, store
      ensures Valid() && stopped == old(stopped)
      ensures IsDueList(due, old(store.jobs), now) && FiredUpTo(due, |due|, old(store.jobs), store.jobs, now)
      ensures forall id :: id in old(store.jobs) ==> !Due(store.jobs[id], now) && !Expired(store.jobs[id], now)
      ensures forall id :: id in old(store.jobs) && Due(old(store.jobs)[id], now) ==>
                Settled(old(store.jobs)[id], store.jobs[id], now)
      ensures old(dispatched) <= dispatched
      ensures Ids(dispatched[|old(dispatched)|..]) == Fires(due, now, old(running))
      ensures fired == Successes(due, now, old(running))
    {
      fired := 0;
      var rows := store.DueJobs(now);
      due := rows;
      ghost var live, was := store.jobs, running;
      for i := 0 to |rows|
        invariant Valid() && due == rows && IsDueList(due, live, now)
        invariant FiredUpTo(due, i, live, store.jobs, now)
        invariant SentUpTo(due, i, now, was, old(dispatched)) && fired == Successes(due[..i], now, was)
        invariant stopped == old(stopped)
      {
        OneMoreSuccess(rows, i, now, was);
        var ok := FireNext(rows, i, now, live, was, old(dispatched));
        if ok {
          fired := fired + 1;
        }
      }
      assert due[..|due|] == due;
      AllFired(due, live, store.jobs, now);
    }

    lemma OneMoreSuccess(due: seq<(int, Job)>, i: nat, now: Time, was: set<int>)
      requires i < |due|
      ensures Successes(due[..i + 1], now, was)
              == Successes(due[..i], now, was) + (if Succeeds(due[i].1, due[i].0, now, was) then 1 else 0)
    {
      assert due[..i + 1][..i] == due[..i];
    }

    lemma EndedAre(before: map<int, Job>, ended: seq<(int, Job)>, now: Time)
      requires forall id, j :: (id, j) in ended <==> id in before && j == before[id] && Expired(j, now)
      ensures forall id :: id in JobIds(ended) <==> id in before && Expired(before[id], now)
    {
      forall id ensures id in JobIds(ended) <==> id in before && Expired(before[id], now) {
        if id in before && Expired(before[id], now) {
          assert (id, before[id]) in ended;
          var k :| 0 <= k < |ended| && ended[k] == (id, before[id]);
          assert JobIds(ended)[k] == id;
        }
        if id in JobIds(ended) {
          var k :| 0 <= k < |ended| && JobIds(ended)[k] == id;
          assert ended[k] in ended;
          assert (id, ended[k].1) in ended;
        }
      }
    }

    method FireNext(due: seq<(int, Job)>, i: nat, now: Time,
                    ghost live: map<int, Job>, ghost was: set<int>, ghost start: seq<Dispatch>) returns (ok: bool)
      requires Valid() && i < |due| && IsDueList(due, live, now)
      requires FiredUpTo(due, i, live, store.jobs, now) && SentUpTo(due, i, now, was, start)
      modifies `running, `dispatched, `stopped, store
      ensures stopped == old(stopped)
      ensures Valid() && FiredUpTo(due, i + 1, live, store.jobs, now) && SentUpTo(due, i + 1, now, was, start)
      ensures ok <==> Succeeds(due[i].1, due[i].0, now, was)
    {
      ghost var jobs, sent := store.jobs, dispatched;
      assert due[i] in due;
      ok := Fire(due[i].0, due[i].1, now);
      FiredOneMore(due, i, live, jobs, store.jobs, now);
      SentOneMore(due, i, now, was, start, sent, dispatched);
    }

    /** `after` has the one dispatch more, if there was one. */
    lemma SentOneMore(due: seq<(int, Job)>, i: nat, now: Time, was: set<int>, start: seq<Dispatch>,
                      sent: seq<Dispatch>, after: seq<Dispatch>)
      requires i < |due| && start <= sent && Ids(sent[|start|..]) == Fires(due[..i], now, was)
      requires if MustFire(due[i].1, due[i].0, now, was)
               then |after| == |sent| + 1 && after == sent + [after[|sent|]] && after[|sent|].0 == due[i].0
               else after == sent
      ensures start <= after && Ids(after[|start|..]) == Fires(due[..i + 1], now, was)
    {
      assert due[..i + 1][..i] == due[..i];
      if MustFire(due[i].1, due[i].0, now, was) {
        IdsAppend(sent[|start|..], after[|sent|]);
        assert after[|start|..] == sent[|start|..] + [after[|sent|]];
      }
    }

    /** Retry each run that died with the process, once, in order. */
    method ResumeInflight(alive: int -> bool) returns (n: nat, ghost rows: seq<(int, Job)>)
      requires Valid()
      modifies `running, `dispatched, `killed, store`jobs
      ensures Valid() && Ordered(rows)
      ensures forall id, j :: (id, j) in rows <==> id in old(store.jobs) && j == old(store.jobs)[id] && j.running
      ensures store.jobs.Keys == old(store.jobs).Keys
      ensures forall id :: id in old(store.jobs) && !old(store.jobs)[id].running ==> store.jobs[id] == old(store.jobs)[id]
      ensures forall id :: id in old(store.jobs) && old(store.jobs)[id].running ==>
                store.jobs[id] == Resumed(old(store.jobs)[id], id, old(running), accepts(id), alive(id))
      ensures old(dispatched) <= dispatched
      ensures dispatched == old(dispatched) + Resends(rows, old(running), alive)
      ensures n == RetriedOf(rows, alive) && killed == old(killed) + KilledOf(rows, alive)
    {
      var inflight := store.InflightJobs();
      rows := inflight;
      ghost var before, was, start, hurt := store.jobs, running, dispatched, killed;
      n := 0;
      for i := 0 to |inflight|
        invariant Valid() && rows == inflight && CountedUpTo(rows, i, n, hurt, alive)
        invariant ResumedUpTo(rows, i, before, store.jobs, was, alive)
        invariant ResentUpTo(rows, i, was, start, alive)
      {
        var retried := ResumeCounted(inflight, i, alive, n, before, was, start, hurt);
        if retried {
          n := n + 1;
        }
      }
      assert rows[..|rows|] == rows;
      AllResumed(rows, before, store.jobs, was, alive);
    }

    lemma AllResumed(rows: seq<(int, Job)>, before: map<int, Job>, jobs: map<int, Job>, was: set<int>, alive: int -> bool)
      requires ResumedUpTo(rows, |rows|, before, jobs, was, alive)
      ensures forall id :: id in before && before[id].running ==>
                jobs[id] == Resumed(before[id], id, was, accepts(id), alive(id))
    {
      forall id | id in before && before[id].running
        ensures jobs[id] == Resumed(before[id], id, was, accepts(id), alive(id))
      {
        assert (id, before[id]) in rows;
      }
    }

    lemma OneMoreResumed(rows: seq<(int, Job)>, i: nat, alive: int -> bool)
      requires i < |rows|
      ensures var job, living := rows[i].1, alive(rows[i].0);
              && RetriedOf(rows[..i + 1], alive) == RetriedOf(rows[..i], alive) + (if Retries(job, living) then 1 else 0)
              && KilledOf(rows[..i + 1], alive)
                 == KilledOf(rows[..i], alive) + (if IsKilled(job, living) then [rows[i].0] else [])
    {
      assert rows[..i + 1][..i] == rows[..i];
    }

    /** One run in flight: given up, watched, or dispatched again. */
    method ResumeOne(id: int, job: Job, alive: bool) returns (retried: bool)
      requires Valid() && id in store.jobs && store.jobs[id] == job && job.running
      modifies `running, `dispatched, `killed, store`jobs
      ensures Valid() && retried == Retries(job, alive)
      ensures killed == old(killed) + if IsKilled(job, alive) then [id] else []
      ensures store.jobs == old(store.jobs)[id := Resumed(job, id, old(running), accepts(id), alive)]
      ensures dispatched == old(dispatched)
                            + if Redispatches(job, id, old(running), alive) then [(id, job.token)] else []
      ensures old(running) <= running <= old(running) + {id}
      ensures job.attempt >= 2 ==> !store.jobs[id].running && store.jobs[id].lastError == Some("already retried")
    {
      if job.attempt >= 2 {
        if job.kind.Script? && alive {
          killed := killed + [id];
        }
        var _ := store.ReleaseRetried(id, Some("already retried"));
        return false;
      }
      var won := store.BumpInflight(id, job.attempt);
      if !won || (job.kind.Script? && alive) {
        return false;
      }
      var reread := store.Get(id);
      var _ := Dispatch(id, reread.GetOr(job));
      retried := true;
    }

    method ResumeNext(rows: seq<(int, Job)>, i: nat, alive: int -> bool,
                      ghost before: map<int, Job>, ghost was: set<int>, ghost start: seq<Dispatch>) returns (retried: bool)
      requires Valid() && i < |rows| && IsInflightList(rows, before)
      requires ResumedUpTo(rows, i, before, store.jobs, was, alive) && ResentUpTo(rows, i, was, start, alive)
      modifies `running, `dispatched, `killed, store`jobs
      ensures Valid() && retried == Retries(rows[i].1, alive(rows[i].0))
      ensures killed == old(killed) + if IsKilled(rows[i].1, alive(rows[i].0)) then [rows[i].0] else []
      ensures ResumedUpTo(rows, i + 1, before, store.jobs, was, alive) && ResentUpTo(rows, i + 1, was, start, alive)
    {
      ghost var jobs, sent := store.jobs, dispatched;
      assert rows[i] in rows;
      var id, job := rows[i].0, rows[i].1;
      assert (id, job) in rows;
      retried := ResumeOne(id, job, alive(id));
      ResumedOneMore(rows, i, before, jobs, store.jobs, was, alive);
      ResentOneMore(rows, i, was, start, sent, dispatched, alive);
    }

    lemma ResentOneMore(rows: seq<(int, Job)>, i: nat, was: set<int>, start: seq<Dispatch>, sent: seq<Dispatch>,
                        after: seq<Dispatch>, alive: int -> bool)
      requires i < |rows| && sent == start + Resends(rows[..i], was, alive)
      requires after == sent + if Redispatches(rows[i].1, rows[i].0, was, alive(rows[i].0))
                               then [(rows[i].0, rows[i].1.token)] else []
      ensures after == start + Resends(rows[..i + 1], was, alive)
    {
      assert rows[..i + 1][..i] == rows[..i];
    }

    method ResumeCounted(rows: seq<(int, Job)>, i: nat, alive: int -> bool, ghost n: nat, ghost before: map<int, Job>,
                         ghost was: set<int>, ghost start: seq<Dispatch>, ghost hurt: seq<int>) returns (retried: bool)
      requires Valid() && i < |rows| && IsInflightList(rows, before) && CountedUpTo(rows, i, n, hurt, alive)
      requires ResumedUpTo(rows, i, before, store.jobs, was, alive) && ResentUpTo(rows, i, was, start, alive)
      modifies `running, `dispatched, `killed, store`jobs
      ensures Valid() && CountedUpTo(rows, i + 1, if retried then n + 1 else n, hurt, alive)
      ensures ResumedUpTo(rows, i + 1, before, store.jobs, was, alive) && ResentUpTo(rows, i + 1, was, start, alive)
    {
      OneMoreResumed(rows, i, alive);
      retried := ResumeNext(rows, i, alive, before, was, start);
    }

    /** `n` retried and `killed` since `hurt`, of the first `i` rows. */
    ghost predicate CountedUpTo(rows: seq<(int, Job)>, i: nat, n: nat, hurt: seq<int>, alive: int -> bool)
      requires i <= |rows|
      reads this
    {
      n == RetriedOf(rows[..i], alive) && killed == hurt + KilledOf(rows[..i], alive)
    }

    ghost function RetriedOf(rows: seq<(int, Job)>, alive: int -> bool): nat {
      if rows == [] then 0
      else
        var n := |rows| - 1;
        RetriedOf(rows[..n], alive) + if Retries(rows[n].1, alive(rows[n].0)) then 1 else 0
    }

    ghost function KilledOf(rows: seq<(int, Job)>, alive: int -> bool): seq<int> {
      if rows == [] then []
      else
        var n := |rows| - 1;
        KilledOf(rows[..n], alive) + if IsKilled(rows[n].1, alive(rows[n].0)) then [rows[n].0] else []
    }

    ghost predicate ResentUpTo(rows: seq<(int, Job)>, i: nat, was: set<int>, start: seq<Dispatch>, alive: int -> bool)
      requires i <= |rows|
      reads this
    {
      && dispatched == start + Resends(rows[..i], was, alive)
      && was <= running
      && forall k :: i <= k < |rows| && rows[k].0 in running ==> rows[k].0 in was
    }

    ghost predicate ResumedUpTo(rows: seq<(int, Job)>, i: nat, before: map<int, Job>, jobs: map<int, Job>,
                                was: set<int>, alive: int -> bool)
      requires i <= |rows|
    {
      && IsInflightList(rows, before) && jobs.Keys == before.Keys
      && (forall k :: 0 <= k < i ==> (
            && rows[k] in rows
            && jobs[rows[k].0] == Resumed(rows[k].1, rows[k].0, was, accepts(rows[k].0), alive(rows[k].0))))
      && (forall k :: i <= k < |rows| ==> rows[k] in rows && jobs[rows[k].0] == rows[k].1)
      && (forall id :: id in before && !before[id].running ==> jobs[id] == before[id])
    }

    lemma ResumedOneMore(rows: seq<(int, Job)>, i: nat, before: map<int, Job>, jobs: map<int, Job>,
                         after: map<int, Job>, was: set<int>, alive: int -> bool)
      requires i < |rows| && ResumedUpTo(rows, i, before, jobs, was, alive)
      requires rows[i] in rows && rows[i].0 in after && after == jobs[rows[i].0 := after[rows[i].0]]
      requires after[rows[i].0] == Resumed(rows[i].1, rows[i].0, was, accepts(rows[i].0), alive(rows[i].0))
      ensures ResumedUpTo(rows, i + 1, before, after, was, alive)
    {
    }

    /** What has been dispatched since `start`, when `was` were running. */
    ghost predicate SentUpTo(due: seq<(int, Job)>, i: nat, now: Time, was: set<int>, start: seq<Dispatch>)
      requires i <= |due|
      reads this
    {
      && start <= dispatched
      && Ids(dispatched[|start|..]) == Fires(due[..i], now, was)
      && was <= running
      && forall k :: i <= k < |due| && due[k].0 in running ==> due[k].0 in was
    }

    ghost function Live(jobs: map<int, Job>, now: Time): map<int, Job> {
      map id | id in jobs && !Expired(jobs[id], now) :: jobs[id]
    }

    ghost predicate IsDueList(due: seq<(int, Job)>, live: map<int, Job>, now: Time) {
      && Ordered(due)
      && (forall id :: id in live ==> !Expired(live[id], now))
      && forall id, j :: (id, j) in due <==> id in live && j == live[id] && Due(j, now)
    }

    ghost predicate MustFire(j: Job, id: int, now: Time, running: set<int>) {
      next(j.cron, now).Some? && !Skips(j, id, running)
    }

    /** A ticket that was refused was dispatched, and did not succeed. */
    ghost predicate Succeeds(j: Job, id: int, now: Time, running: set<int>) {
      MustFire(j, id, now, running) && (j.kind.Ticket? ==> accepts(id))
    }

    ghost function Successes(due: seq<(int, Job)>, now: Time, running: set<int>): nat {
      if due == [] then 0
      else
        var n := |due| - 1;
        Successes(due[..n], now, running) + if Succeeds(due[n].1, due[n].0, now, running) then 1 else 0
    }

    /** The due jobs that are dispatched, in order. */
    ghost function Fires(due: seq<(int, Job)>, now: Time, running: set<int>): seq<int> {
      if due == [] then []
      else
        var n := |due| - 1;
        Fires(due[..n], now, running) + if MustFire(due[n].1, due[n].0, now, running) then [due[n].0] else []
    }

    ghost predicate Settled(j: Job, after: Job, now: Time) {
      && after.expires == j.expires
      && match next(j.cron, now)
         case Some(slot) => slot > now && after.nextRun == slot && after.lastRun == Some(now)
         case None => !after.enabled
    }

    ghost predicate FiredUpTo(due: seq<(int, Job)>, i: nat, live: map<int, Job>, jobs: map<int, Job>, now: Time)
      requires i <= |due| && IsDueList(due, live, now)
    {
      && jobs.Keys == live.Keys
      && (forall k :: 0 <= k < i ==> due[k] in due && Settled(due[k].1, jobs[due[k].0], now))
      && (forall k :: i <= k < |due| ==> due[k] in due && jobs[due[k].0] == due[k].1)
      && (forall id :: id in live && !Due(live[id], now) ==> jobs[id] == live[id])
    }

    lemma AllFired(due: seq<(int, Job)>, live: map<int, Job>, jobs: map<int, Job>, now: Time)
      requires IsCron(next) && IsDueList(due, live, now) && FiredUpTo(due, |due|, live, jobs, now)
      ensures forall id :: id in live ==> !Due(jobs[id], now) && !Expired(jobs[id], now)
      ensures forall id :: id in live && Due(live[id], now) ==> Settled(live[id], jobs[id], now)
    {
      forall id | id in live && Due(live[id], now) ensures Settled(live[id], jobs[id], now) {
        assert (id, live[id]) in due;
      }
    }

    lemma FiredOneMore(due: seq<(int, Job)>, i: nat, live: map<int, Job>,
                       before: map<int, Job>, after: map<int, Job>, now: Time)
      requires i < |due| && IsDueList(due, live, now) && FiredUpTo(due, i, live, before, now)
      requires due[i] in due && due[i].0 in after && after == before[due[i].0 := after[due[i].0]]
      requires Settled(due[i].1, after[due[i].0], now)
      ensures FiredUpTo(due, i + 1, live, after, now)
    {
    }
  }

  function JobIds(rows: seq<(int, Job)>): (r: seq<int>)
    ensures |r| == |rows| && forall i :: 0 <= i < |r| ==> r[i] == rows[i].0
  {
    seq(|rows|, i requires 0 <= i < |rows| => rows[i].0)
  }

  function JobIdSet(rows: seq<(int, Job)>): set<int> { set k | 0 <= k < |rows| :: rows[k].0 }

  lemma JobIdsAppend(rows: seq<(int, Job)>, i: nat)
    requires i < |rows|
    ensures JobIds(rows[..i + 1]) == JobIds(rows[..i]) + [rows[i].0]
    ensures JobIdSet(rows[..i + 1]) == JobIdSet(rows[..i]) + {rows[i].0}
  {
    var more := rows[..i + 1];
    assert forall k :: 0 <= k < i ==> more[k] == rows[..i][k];
    assert more[i] == rows[i];
    forall id | id in JobIdSet(rows[..i]) ensures id in JobIdSet(more) {
      var k :| 0 <= k < i && rows[..i][k].0 == id;
      assert more[k].0 == id;
    }
    assert more[i].0 in JobIdSet(more);
  }

  function Ids(d: seq<Dispatch>): seq<int> {
    seq(|d|, i requires 0 <= i < |d| => d[i].0)
  }

  lemma IdsAppend(d: seq<Dispatch>, x: Dispatch)
    ensures Ids(d + [x]) == Ids(d) + [x.0]
  {
  }
}
