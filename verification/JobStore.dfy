/** The jobs table. Each method is one transaction. */
module JobStore {

  import opened Wrappers
  import opened Jobs

  ghost predicate Ordered(rows: seq<(int, Job)>)
  {
    forall i, j :: 0 <= i < j < |rows| ==> rows[i].0 < rows[j].0
  }

  lemma {:induction false} LeastExists(ids: set<int>, x: int) returns (m: int)
    requires x in ids
    ensures m in ids && forall y :: y in ids ==> m <= y
    decreases ids
  {
    m := x;
    assert forall y :: y in ids ==> y == x || y in ids - {x};
    if y :| y in ids - {x} {
      var least := LeastExists(ids - {x}, y);
      if least < x {
        m := least;
      }
    }
  }

  class Store {
    var jobs: map<int, Job>
    /** How many claim tokens have been drawn; each is drawn once. */
    var issued: nat

    ghost predicate Valid()
      reads this
    {
      && (forall id :: id in jobs ==> Sound(jobs[id]))
      && (forall id :: id in jobs && jobs[id].token.Some? ==> jobs[id].token.value < issued)
      && (forall a, b :: a in jobs && b in jobs && a != b && jobs[a].token.Some? ==> jobs[a].token != jobs[b].token)
    }

    constructor ()
      ensures Valid() && jobs == map[] && issued == 0
    {
      jobs, issued := map[], 0;
    }

    method Get(id: int) returns (row: Option<Job>)
      ensures row == if id in jobs then Some(jobs[id]) else None
    {
      row := if id in jobs then Some(jobs[id]) else None;
    }

    /** Compare-and-swap: only a racer whose slot is still the row's slot wins,
        and its token is one no claim held before. */
    method Claim(id: int, expected: Time, now: Time, nextRun: Time, lastError: Option<string>) returns (won: bool)
      requires Valid()
      modifies this
      ensures Valid() && issued == old(issued) + 1
      ensures won <==> id in old(jobs) && old(jobs)[id].nextRun == expected
      ensures won ==> jobs == old(jobs)[id := old(jobs)[id].(
                running := true, token := Some(old(issued)), attempt := 1,
                lastRun := Some(now), nextRun := nextRun, lastError := lastError)]
      ensures !won ==> jobs == old(jobs)
    {
      var token := issued;
      issued := issued + 1;
      won := id in jobs && jobs[id].nextRun == expected;
      if won {
        jobs := jobs[id := Claimed(jobs[id], now, nextRun, lastError, token)];
      }
    }

    method ClearRun(id: int, token: Option<Token>) returns (won: bool)
      requires Valid()
      modifies this`jobs
      ensures Valid()
      ensures won <==> id in old(jobs) && token.Some? && old(jobs)[id].token == token
      ensures jobs == if won
                      then old(jobs)[id := old(jobs)[id].(running := false, token := None, attempt := 0)] else old(jobs)
    {
      if token.None? {
        return false;
      }
      won := id in jobs && jobs[id].token == token;
      if won {
        jobs := jobs[id := Idle(jobs[id])];
      }
    }

    /** A superseded token writes nothing; no token writes by id. */
    method UpdateIfToken(id: int, token: Option<Token>, lastError: Option<string>) returns (won: bool)
      requires Valid()
      modifies this`jobs
      ensures Valid()
      ensures won <==> id in old(jobs) && (token.None? || old(jobs)[id].token == token)
      ensures jobs == if won then old(jobs)[id := old(jobs)[id].(lastError := lastError)] else old(jobs)
    {
      won := id in jobs && (token.None? || jobs[id].token == token);
      if won {
        jobs := jobs[id := jobs[id].(lastError := lastError)];
      }
    }

    /** One process wins the startup retry. */
    method BumpInflight(id: int, expected: int) returns (won: bool)
      requires Valid()
      modifies this`jobs
      ensures expected < 2 ==> Valid()
      ensures won <==> id in old(jobs) && old(jobs)[id].running && old(jobs)[id].attempt == expected
      ensures jobs == if won then old(jobs)[id := old(jobs)[id].(attempt := expected + 1)] else old(jobs)
    {
      won := id in jobs && jobs[id].running && jobs[id].attempt == expected;
      if won {
        jobs := jobs[id := jobs[id].(attempt := expected + 1)];
      }
    }

    method ReleaseRetried(id: int, lastError: Option<string>) returns (won: bool)
      requires Valid()
      modifies this`jobs
      ensures Valid()
      ensures won <==> id in old(jobs) && old(jobs)[id].running && old(jobs)[id].attempt >= 2
      ensures jobs == if won
                      then old(jobs)[id := old(jobs)[id].(
                        running := false, token := None, attempt := 0, lastError := lastError)] else old(jobs)
    {
      won := id in jobs && jobs[id].running && jobs[id].attempt >= 2;
      if won {
        jobs := jobs[id := Idle(jobs[id]).(lastError := lastError)];
      }
    }

    method Disable(id: int, lastError: Option<string>)
      requires Valid()
      modifies this`jobs
      ensures Valid()
      ensures jobs == if id in old(jobs)
                      then old(jobs)[id := old(jobs)[id].(enabled := false, lastError := lastError)] else old(jobs)
    {
      if id in jobs {
        jobs := jobs[id := jobs[id].(enabled := false, lastError := lastError)];
      }
    }

    method Delete(id: int) returns (deleted: bool)
      requires Valid()
      modifies this`jobs
      ensures Valid() && jobs == old(jobs) - {id}
      ensures deleted <==> id in old(jobs)
    {
      deleted := id in jobs;
      jobs := jobs - {id};
    }

    /** The rows of `ids`, ORDER BY id. */
    method InOrder(ids: set<int>) returns (rows: seq<(int, Job)>)
      requires ids <= jobs.Keys
      ensures Ordered(rows)
      ensures forall id, j :: (id, j) in rows <==> id in ids && j == jobs[id]
    {
      rows := [];
      var todo := ids;
      while todo != {}
        invariant todo <= ids && Ordered(rows)
        invariant forall id, j :: (id, j) in rows <==> id in ids - todo && j == jobs[id]
        invariant forall r, id :: r in rows && id in todo ==> r.0 < id
        decreases todo
      {
        ghost var least := LeastExists(todo, Pick(todo));
        var id :| id in todo && forall x :: x in todo ==> id <= x;
        rows := rows + [(id, jobs[id])];
        todo := todo - {id};
      }
    }

    method DueJobs(now: Time) returns (rows: seq<(int, Job)>)
      ensures Ordered(rows)
      ensures forall id, j :: (id, j) in rows <==> id in jobs && j == jobs[id] && j.enabled && j.nextRun <= now
    {
      rows := InOrder(set id | id in jobs && Due(jobs[id], now));
    }

    /** Disabled jobs included: a paused loop is still one nobody closed. */
    method ExpiredJobs(now: Time) returns (rows: seq<(int, Job)>)
      ensures Ordered(rows)
      ensures forall id, j :: (id, j) in rows <==>
                id in jobs && j == jobs[id] && j.expires.Some? && j.expires.value <= now
    {
      rows := InOrder(set id | id in jobs && Expired(jobs[id], now));
    }

    method InflightJobs() returns (rows: seq<(int, Job)>)
      ensures Ordered(rows)
      ensures forall id, j :: (id, j) in rows <==> id in jobs && j == jobs[id] && j.running
    {
      rows := InOrder(set id | id in jobs && jobs[id].running);
    }
  }
}
