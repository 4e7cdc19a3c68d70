/** The parsed-file caches in front of the config files: `model_registry._load` and
    `_save` (stamp: modification time, size and inode) and `_filecache.read_json` and
    `write_json` (modification time only). */
module ConfigCache {

  import opened Wrappers

  type Rows = seq<string>

  /** One published version of the file: its stat stamp, and its rows if it parses. */
  datatype Version = Missing | File(stamp: nat, rows: Option<Rows>)

  /** The registry answers a missing or corrupt file with no rows and caches that
      too; the file cache answers None and caches nothing. */
  datatype Kind = Registry | FileCache

  function StampOf(v: Version): Option<nat> { if v.Missing? then None else Some(v.stamp) }

  /** What a load of this version returns. */
  function Answer(kind: Kind, v: Version): Option<Rows> {
    match v
    case Missing => if kind.Registry? then Some([]) else None
    case File(_, rows) => if kind.Registry? then Some(rows.GetOr([])) else rows
  }

  // ---------- Loads, saves and evictions in any interleaving ----------

  /** A stamp of None matches no file: the cache is empty. */
  datatype Cache = Cache(stamp: Option<nat>, rows: Rows)

  datatype Phase = Called | Stamped | Missed | Parsed | Returned

  /** A load in progress: the version current when it was called, the stamp it took
      and when, what it parsed, and the version current when it returned. */
  datatype Load = Load(phase: Phase, called: nat, statted: nat, stamp: Option<nat>, answer: Option<Rows>, returned: nat)

  datatype Sys = Sys(history: seq<Version>, cache: Cache, loads: seq<Load>)

  datatype Event =
    | Publish(v: Version)
    | Clear
    | Call
    | Stat(l: nat)
    | Check(l: nat)
    | Read(l: nat)
    | Put(l: nat)

  function Start(first: Version): Sys { Sys([first], Cache(None, []), []) }

  function Now(s: Sys): nat
    requires |s.history| > 0
  {
    |s.history| - 1
  }

  predicate InPhase(s: Sys, l: nat, phase: Phase) { l < |s.loads| && s.loads[l].phase == phase }

  predicate Legal(s: Sys, e: Event) {
    && |s.history| > 0
    && match e
       case Stat(l) => InPhase(s, l, Called)
       case Check(l) => InPhase(s, l, Stamped)
       case Read(l) => InPhase(s, l, Missed)
       case Put(l) => InPhase(s, l, Parsed)
       case _ => true
  }

  function With(s: Sys, l: nat, load: Load): Sys
    requires l < |s.loads|
  {
    s.(loads := s.loads[l := load])
  }

  function Return(s: Sys, l: nat, answer: Option<Rows>): Sys
    requires l < |s.loads| && |s.history| > 0
  {
    With(s, l, s.loads[l].(phase := Returned, answer := answer, returned := Now(s)))
  }

  function Step(kind: Kind, s: Sys, e: Event): Sys
    requires Legal(s, e)
  {
    match e
    case Publish(v) => s.(history := s.history + [v])
    case Clear => s.(cache := s.cache.(stamp := None))
    case Call => s.(loads := s.loads + [Load(Called, Now(s), Now(s), None, None, Now(s))])
    case Stat(l) =>
      var v := s.history[Now(s)];
      if v.Missing? && kind.FileCache? then Return(s.(cache := s.cache.(stamp := None)), l, None)
      else With(s, l, s.loads[l].(phase := Stamped, statted := Now(s), stamp := StampOf(v)))
    case Check(l) =>
      if s.loads[l].stamp.Some? && s.cache.stamp == s.loads[l].stamp then Return(s, l, Some(s.cache.rows))
      else With(s, l, s.loads[l].(phase := Missed))
    case Read(l) =>
      var answer := Answer(kind, s.history[Now(s)]);
      if answer.None? then Return(s, l, None)
      else With(s, l, s.loads[l].(phase := Parsed, answer := answer))
    case Put(l) =>
      Return(s.(cache := Cache(s.loads[l].stamp, s.loads[l].answer.GetOr([]))), l, s.loads[l].answer)
  }

  /** Some version from the `lo`th to the `hi`th has this answer. */
  ghost predicate Between(kind: Kind, history: seq<Version>, lo: nat, hi: nat, answer: Option<Rows>) {
    exists u: nat :: lo <= u <= hi && u < |history| && Answer(kind, history[u]) == answer
  }

  /** Versions `i` and `j` share a stamp, and what could be parsed after `i` and before
      `j`, at `u`, is not what `j` holds. */
  predicate Clash(kind: Kind, history: seq<Version>, i: nat, u: nat, j: nat) {
    && i <= u < j < |history| && history[i].File? && history[j].File? && history[i].stamp == history[j].stamp
    && Answer(kind, history[u]).Some? && Answer(kind, history[u]) != Answer(kind, history[j])
  }

  ghost predicate Coherent(kind: Kind, history: seq<Version>) {
    forall i: nat, u: nat, j: nat :: !Clash(kind, history, i, u, j)
  }

  lemma CoherentBefore(kind: Kind, history: seq<Version>, more: seq<Version>)
    requires Coherent(kind, more) && history <= more
    ensures Coherent(kind, history)
  {
    forall i: nat, u: nat, j: nat ensures !Clash(kind, history, i, u, j) {
      assert !Clash(kind, more, i, u, j);
    }
  }

  /** Every publication of the file has a stamp of its own. */
  predicate OwnStamps(history: seq<Version>) {
    forall i, j :: 0 <= i < j < |history| && history[i].File? && history[j].File? ==> history[i].stamp != history[j].stamp
  }

  lemma OwnStampsCohere(kind: Kind, history: seq<Version>)
    requires OwnStamps(history)
    ensures Coherent(kind, history)
  {
  }

  ghost predicate CacheOk(kind: Kind, s: Sys) {
    s.cache.stamp.Some? ==>
      exists w: nat :: w < |s.history| && StampOf(s.history[w]) == s.cache.stamp
                    && Between(kind, s.history, w, |s.history|, Some(s.cache.rows))
  }

  ghost predicate LoadOk(kind: Kind, history: seq<Version>, load: Load) {
    && load.called <= load.statted < |history|
    && ((load.phase == Stamped || load.phase == Missed || load.phase == Parsed) ==>
          load.stamp == StampOf(history[load.statted]))
    && (load.phase == Parsed ==>
          load.answer.Some? && Between(kind, history, load.statted, |history|, load.answer))
    && (load.phase == Returned ==>
          load.returned < |history| && Between(kind, history, load.called, load.returned, load.answer))
  }

  ghost predicate Ok(kind: Kind, s: Sys) {
    && |s.history| > 0 && Coherent(kind, s.history)
    && CacheOk(kind, s)
    && forall l :: 0 <= l < |s.loads| ==> LoadOk(kind, s.history, s.loads[l])
  }

  lemma BetweenGrows(kind: Kind, history: seq<Version>, more: seq<Version>, lo: nat, hi: nat, answer: Option<Rows>, lo': nat, hi': nat)
    requires Between(kind, history, lo, hi, answer) && history <= more
    requires lo' <= lo && (hi <= hi' || |history| <= hi' + 1)
    ensures Between(kind, more, lo', hi', answer)
  {
  }

  /** A hit is an answer of some version since the call: parsed since then, or the same
      as what the load statted. */
  lemma HitIsCurrent(kind: Kind, s: Sys, l: nat)
    requires Ok(kind, s) && InPhase(s, l, Stamped)
    requires s.loads[l].stamp.Some? && s.cache.stamp == s.loads[l].stamp
    ensures Between(kind, s.history, s.loads[l].called, Now(s), Some(s.cache.rows))
  {
    var w: nat :| w < |s.history| && StampOf(s.history[w]) == s.cache.stamp
                  && Between(kind, s.history, w, |s.history|, Some(s.cache.rows));
    var u: nat :| w <= u < |s.history| && Answer(kind, s.history[u]) == Some(s.cache.rows);
    assert LoadOk(kind, s.history, s.loads[l]);
    if u < s.loads[l].called {
      assert !Clash(kind, s.history, w, u, s.loads[l].statted);
      assert Answer(kind, s.history[s.loads[l].statted]) == Some(s.cache.rows);
    }
  }

  lemma CurrentIsBetween(kind: Kind, s: Sys, lo: nat)
    requires |s.history| > 0 && lo <= Now(s)
    ensures Between(kind, s.history, lo, Now(s), Answer(kind, s.history[Now(s)]))
    ensures Between(kind, s.history, lo, |s.history|, Answer(kind, s.history[Now(s)]))
  {
  }

  lemma PublishOk(kind: Kind, s: Sys, v: Version)
    requires Ok(kind, s) && Coherent(kind, s.history + [v])
    ensures Ok(kind, Step(kind, s, Publish(v)))
  {
    var more := s.history + [v];
    if s.cache.stamp.Some? {
      var w: nat :| w < |s.history| && StampOf(s.history[w]) == s.cache.stamp
                    && Between(kind, s.history, w, |s.history|, Some(s.cache.rows));
      BetweenGrows(kind, s.history, more, w, |s.history|, Some(s.cache.rows), w, |more|);
      assert more[w] == s.history[w];
    }
    forall l | 0 <= l < |s.loads| ensures LoadOk(kind, more, s.loads[l]) {
      LoadGrows(kind, s.history, v, s.loads[l]);
    }
  }

  lemma LoadGrows(kind: Kind, history: seq<Version>, v: Version, load: Load)
    requires LoadOk(kind, history, load)
    ensures LoadOk(kind, history + [v], load)
  {
    var more := history + [v];
    if load.phase == Parsed {
      BetweenGrows(kind, history, more, load.statted, |history|, load.answer, load.statted, |more|);
    } else if load.phase == Returned {
      BetweenGrows(kind, history, more, load.called, load.returned, load.answer, load.called, load.returned);
    }
  }

  lemma PutOk(kind: Kind, s: Sys, l: nat)
    requires Ok(kind, s) && Legal(s, Put(l))
    ensures Ok(kind, Step(kind, s, Put(l)))
  {
    var load := s.loads[l];
    assert LoadOk(kind, s.history, load);
    BetweenGrows(kind, s.history, s.history, load.statted, |s.history|, load.answer, load.called, Now(s));
  }

  lemma StatOk(kind: Kind, s: Sys, l: nat)
    requires Ok(kind, s) && Legal(s, Stat(l))
    ensures Ok(kind, Step(kind, s, Stat(l)))
  {
    assert LoadOk(kind, s.history, s.loads[l]);
    CurrentIsBetween(kind, s, s.loads[l].called);
  }

  lemma CheckOk(kind: Kind, s: Sys, l: nat)
    requires Ok(kind, s) && Legal(s, Check(l))
    ensures Ok(kind, Step(kind, s, Check(l)))
  {
    assert LoadOk(kind, s.history, s.loads[l]);
    if s.loads[l].stamp.Some? && s.cache.stamp == s.loads[l].stamp {
      HitIsCurrent(kind, s, l);
    }
  }

  lemma ReadOk(kind: Kind, s: Sys, l: nat)
    requires Ok(kind, s) && Legal(s, Read(l))
    ensures Ok(kind, Step(kind, s, Read(l)))
  {
    assert LoadOk(kind, s.history, s.loads[l]);
    CurrentIsBetween(kind, s, s.loads[l].called);
    CurrentIsBetween(kind, s, s.loads[l].statted);
  }

  lemma StepOk(kind: Kind, s: Sys, e: Event)
    requires Ok(kind, s) && Legal(s, e) && Coherent(kind, Step(kind, s, e).history)
    ensures Ok(kind, Step(kind, s, e))
  {
    match e
    case Publish(v) => PublishOk(kind, s, v);
    case Clear =>
    case Call =>
    case Stat(l) => StatOk(kind, s, l);
    case Check(l) => CheckOk(kind, s, l);
    case Read(l) => ReadOk(kind, s, l);
    case Put(l) => PutOk(kind, s, l);
  }

  ghost predicate Reaches(kind: Kind, from: Sys, events: seq<Event>, to: Sys) {
    if events == [] then to == from
    else
      var n := |events| - 1;
      exists mid :: Reaches(kind, from, events[..n], mid) && Legal(mid, events[n]) && to == Step(kind, mid, events[n])
  }

  lemma StepHistory(kind: Kind, s: Sys, e: Event)
    requires Legal(s, e)
    ensures s.history <= Step(kind, s, e).history
  {
  }

  lemma {:induction false} RunOk(kind: Kind, first: Version, events: seq<Event>, s: Sys)
    requires Reaches(kind, Start(first), events, s) && Coherent(kind, s.history)
    ensures Ok(kind, s)
  {
    if events != [] {
      var n := |events| - 1;
      var mid :| Reaches(kind, Start(first), events[..n], mid) && Legal(mid, events[n]) && s == Step(kind, mid, events[n]);
      StepHistory(kind, mid, events[n]);
      CoherentBefore(kind, mid.history, s.history);
      RunOk(kind, first, events[..n], mid);
      StepOk(kind, mid, events[n]);
    }
  }

  /** With a stamp per publication (OwnStampsCohere), and as long as no versions clash,
      any interleaving of cached loads, saves by this or any process, and evictions is
      linearizable: every load returns what the file held at some instant between its
      call and its return. */
  lemma LoadsAreLinearizable(kind: Kind, first: Version, events: seq<Event>, s: Sys, l: nat)
    requires Reaches(kind, Start(first), events, s) && Coherent(kind, s.history) && InPhase(s, l, Returned)
    ensures exists u :: s.loads[l].called <= u <= s.loads[l].returned && u < |s.history|
                     && Answer(kind, s.history[u]) == s.loads[l].answer
  {
    RunOk(kind, first, events, s);
    assert LoadOk(kind, s.history, s.loads[l]);
  }

  // ---------- When versions clash ----------

  ghost predicate Reachable(kind: Kind, first: Version, s: Sys) {
    exists events :: Reaches(kind, Start(first), events, s)
  }

  lemma Then(kind: Kind, first: Version, s: Sys, e: Event)
    requires Reachable(kind, first, s) && Legal(s, e)
    ensures Reachable(kind, first, Step(kind, s, e))
  {
    var events :| Reaches(kind, Start(first), events, s);
    assert (events + [e])[..|events|] == events;
    assert Reaches(kind, Start(first), events + [e], Step(kind, s, e));
  }

  /** Saves one after the other, each of which drops the cache entry as it should. */
  lemma {:induction false} Saves(kind: Kind, history: seq<Version>, s: Sys, n: nat) returns (s': Sys)
    requires history != [] && 0 < |s.history| <= n <= |history| && s.history == history[..|s.history|]
    requires Reachable(kind, history[0], s)
    ensures Reachable(kind, history[0], s') && s'.history == history[..n] && s'.loads == s.loads
    ensures s.cache.stamp.None? ==> s'.cache == s.cache
    decreases n - |s.history|
  {
    s' := s;
    if |s.history| < n {
      var v := history[|s.history|];
      Then(kind, history[0], s, Publish(v));
      var s1 := Step(kind, s, Publish(v));
      Then(kind, history[0], s1, Clear);
      s' := Saves(kind, history, Step(kind, s1, Clear), n);
    }
  }

  /** The first load, over an empty cache, up to finding it empty. */
  lemma MissSteps(kind: Kind, s: Sys)
    requires |s.history| > 0 && s.history[Now(s)].File? && s.cache == Cache(None, []) && s.loads == []
    ensures var s1 := Step(kind, s, Call); var s2 := Step(kind, s1, Stat(0)); var n := Now(s);
            Step(kind, s2, Check(0)) == s.(loads := [Load(Missed, n, n, Some(s.history[n].stamp), None, n)])
  {
  }

  /** A load is called on version `i`, takes its stamp and finds the cache empty. */
  lemma Misses(kind: Kind, history: seq<Version>, i: nat) returns (s: Sys)
    requires i < |history| && history[i].File?
    ensures Reachable(kind, history[0], s)
    ensures s == Sys(history[..i + 1], Cache(None, []), [Load(Missed, i, i, Some(history[i].stamp), None, i)])
  {
    var first := history[0];
    assert Reaches(kind, Start(first), [], Start(first));
    var s0 := Saves(kind, history, Start(first), i + 1);
    MissSteps(kind, s0);
    Then(kind, first, s0, Call);
    var s1 := Step(kind, s0, Call);
    Then(kind, first, s1, Stat(0));
    Then(kind, first, Step(kind, s1, Stat(0)), Check(0));
    s := Step(kind, Step(kind, s1, Stat(0)), Check(0));
  }

  lemma Parses(kind: Kind, first: Version, s: Sys) returns (s': Sys)
    requires Reachable(kind, first, s) && |s.history| > 0 && |s.loads| == 1 && InPhase(s, 0, Missed)
    requires Answer(kind, s.history[Now(s)]).Some?
    ensures Reachable(kind, first, s')
    ensures s' == s.(loads := [s.loads[0].(phase := Parsed, answer := Answer(kind, s.history[Now(s)]))])
  {
    Then(kind, first, s, Read(0));
    s' := Step(kind, s, Read(0));
  }

  lemma Fills(kind: Kind, first: Version, s: Sys) returns (s': Sys)
    requires Reachable(kind, first, s) && |s.history| > 0 && |s.loads| == 1 && InPhase(s, 0, Parsed)
    ensures Reachable(kind, first, s') && s'.history == s.history && |s'.loads| == 1
    ensures s'.cache == Cache(s.loads[0].stamp, s.loads[0].answer.GetOr([]))
  {
    Then(kind, first, s, Put(0));
    s' := Step(kind, s, Put(0));
  }

  /** It parses version `u`, and fills the cache only after version `j` is saved. */
  lemma FillsLate(kind: Kind, history: seq<Version>, i: nat, u: nat, j: nat) returns (s: Sys)
    requires i <= u < j < |history| && history[i].File? && Answer(kind, history[u]).Some?
    ensures Reachable(kind, history[0], s) && s.history == history[..j + 1] && |s.loads| == 1
    ensures s.cache == Cache(Some(history[i].stamp), Answer(kind, history[u]).value)
  {
    var first := history[0];
    var missed := Misses(kind, history, i);
    var saved := Saves(kind, history, missed, u + 1);
    var parsed := Parses(kind, first, saved);
    var late := Saves(kind, history, parsed, j + 1);
    s := Fills(kind, first, late);
  }

  /** A load called after that is answered from the cache. */
  lemma ClashIsServed(kind: Kind, history: seq<Version>, i: nat, u: nat, j: nat) returns (s: Sys)
    requires Clash(kind, history, i, u, j)
    ensures Reachable(kind, history[0], s) && s.history == history && InPhase(s, 1, Returned)
    ensures s.loads[1].called == s.loads[1].returned == j && s.loads[1].answer == Answer(kind, history[u])
  {
    s := FillsLate(kind, history, i, u, j);
    s := Hits(kind, history[0], s);
    s := Saves(kind, history, s, |history|);
    assert history[..|history|] == history;
  }

  lemma HitSteps(kind: Kind, s: Sys)
    requires |s.history| > 0 && |s.loads| == 1
    requires s.history[Now(s)].File? && s.cache.stamp == Some(s.history[Now(s)].stamp)
    ensures var s1 := Step(kind, s, Call); var s2 := Step(kind, s1, Stat(1)); var n := Now(s);
            Step(kind, s2, Check(1))
            == s.(loads := s.loads + [Load(Returned, n, n, s.cache.stamp, Some(s.cache.rows), n)])
  {
    var s2 := Step(kind, Step(kind, s, Call), Stat(1));
    assert s2.loads == s.loads + [Load(Stamped, Now(s), Now(s), s.cache.stamp, None, Now(s))];
  }

  lemma Hits(kind: Kind, first: Version, s: Sys) returns (s': Sys)
    requires Reachable(kind, first, s) && |s.history| > 0 && |s.loads| == 1
    requires s.history[Now(s)].File? && s.cache.stamp == Some(s.history[Now(s)].stamp)
    ensures Reachable(kind, first, s') && s'.history == s.history && InPhase(s', 1, Returned)
    ensures s'.loads[1].called == s'.loads[1].returned == Now(s) && s'.loads[1].answer == Some(s.cache.rows)
  {
    HitSteps(kind, s);
    Then(kind, first, s, Call);
    var s1 := Step(kind, s, Call);
    Then(kind, first, s1, Stat(1));
    Then(kind, first, Step(kind, s1, Stat(1)), Check(1));
    s' := Step(kind, Step(kind, s1, Stat(1)), Check(1));
  }

  ghost predicate Linearized(kind: Kind, s: Sys) {
    forall l :: 0 <= l < |s.loads| && s.loads[l].phase == Returned ==>
      Between(kind, s.history, s.loads[l].called, s.loads[l].returned, s.loads[l].answer)
  }

  /** Over this history of the file every interleaving is linearizable if and only if no
      versions clash, even if every save drops the cache entry. */
  lemma LinearizableIff(kind: Kind, history: seq<Version>)
    requires history != []
    ensures (forall s :: Reachable(kind, history[0], s) && s.history == history ==> Linearized(kind, s))
       <==> Coherent(kind, history)
  {
    if Coherent(kind, history) {
      forall s | Reachable(kind, history[0], s) && s.history == history ensures Linearized(kind, s) {
        var events :| Reaches(kind, Start(history[0]), events, s);
        forall l | 0 <= l < |s.loads| && s.loads[l].phase == Returned
          ensures Between(kind, s.history, s.loads[l].called, s.loads[l].returned, s.loads[l].answer)
        {
          LoadsAreLinearizable(kind, history[0], events, s, l);
        }
      }
    } else {
      var i: nat, u: nat, j: nat :| Clash(kind, history, i, u, j);
      var s := ClashIsServed(kind, history, i, u, j);
      assert !Linearized(kind, s);
    }
  }

  /** So a stamp of modification time alone does not make a save visible within one tick
      of the clock: a load called after the save has returned, with nothing else going
      on, is answered with the rows the save replaced. */
  lemma SharedStampServesOldRows(stamp: nat, was: Rows, rows: Rows) returns (s: Sys, l: nat)
    requires was != rows
    ensures Reachable(FileCache, File(stamp, Some(was)), s) && InPhase(s, l, Returned)
    ensures s.history == [File(stamp, Some(was)), File(stamp, Some(rows))]
    ensures s.loads[l].called == s.loads[l].returned == 1 && s.loads[l].answer == Some(was)
    ensures !Between(FileCache, s.history, s.loads[l].called, s.loads[l].returned, s.loads[l].answer)
  {
    l := 1;
    s := ClashIsServed(FileCache, [File(stamp, Some(was)), File(stamp, Some(rows))], 0, 0, 1);
  }

  /** Undisturbed, a load called after a save and its eviction returns what was saved,
      whatever the stamp: it finds the cache empty and parses the file. */
  lemma SaveIsSeen(kind: Kind, s: Sys, v: Version)
    requires |s.history| > 0
    ensures var called := Step(kind, Step(kind, Step(kind, s, Publish(v)), Clear), Call);
            var l := |s.loads|;
            var statted := Step(kind, called, Stat(l));
            if v.Missing? && kind.FileCache? then InPhase(statted, l, Returned) && statted.loads[l].answer == None
            else
              var missed := Step(kind, statted, Check(l));
              && InPhase(missed, l, Missed)
              && (Answer(kind, v).Some? ==>
                    var s' := Step(kind, Step(kind, missed, Read(l)), Put(l));
                    InPhase(s', l, Returned) && s'.loads[l].answer == Answer(kind, v)
                    && s'.cache == Cache(StampOf(v), Answer(kind, v).value))
              && (Answer(kind, v).None? ==>
                    var s' := Step(kind, missed, Read(l));
                    InPhase(s', l, Returned) && s'.loads[l].answer.None? && s'.cache == missed.cache)
  {
  }

  /** The file cache forgets a file it finds missing: should the file come back, even under
      its old stamp, the next load parses it. */
  lemma MissingIsForgotten(s: Sys, l: nat)
    requires |s.history| > 0 && InPhase(s, l, Called) && s.history[Now(s)].Missing?
    ensures var s' := Step(FileCache, s, Stat(l));
            InPhase(s', l, Returned) && s'.loads[l].answer.None? && s'.cache.stamp.None?
  {
  }

  // ---------- The code itself, one thread at a time ----------

  /** The cached file; another process may replace it between two calls. */
  class CachedFile {
    const kind: Kind
    var file: Version
    var cache: Cache
    /** How often a load has opened the file. */
    var opens: nat

    /** A cache entry whose stamp is the file's holds the file's rows. */
    ghost predicate Valid()
      reads this
    {
      cache.stamp.Some? && cache.stamp == StampOf(file) ==> Answer(kind, file) == Some(cache.rows)
    }

    constructor (kind: Kind, file: Version)
      ensures Valid() && this.kind == kind && this.file == file && opens == 0
    {
      this.kind, this.file, cache, opens := kind, file, Cache(None, []), 0;
    }

    /** `_load` and `read_json`: one stat, then the cache or the file. An unchanged file
        that parsed is opened once; the registry remembers a corrupt one as no rows. */
    method Load() returns (answer: Option<Rows>)
      requires Valid()
      modifies `cache, `opens
      ensures Valid() && answer == Answer(kind, file)
      ensures answer == if file.File? && file.rows.Some? then file.rows
                        else if kind.Registry? then Some([]) else None
      ensures var hit := file.File? && old(cache).stamp == Some(file.stamp);
              var asks := !hit && !(file.Missing? && kind.FileCache?);
              && opens == old(opens) + (if asks then 1 else 0)
              && cache == if asks && answer.Some? then Cache(StampOf(file), answer.value)
                          else if file.Missing? && kind.FileCache? then old(cache).(stamp := None) else old(cache)
      ensures file.File? && answer.Some? ==> cache.stamp == Some(file.stamp)
    {
      var stamp := StampOf(file);
      if stamp.None? && kind.FileCache? {
        cache := cache.(stamp := None);
        return None;
      }
      if cache.stamp == stamp && stamp.Some? {
        return Some(cache.rows);
      }
      opens := opens + 1;
      var rows := if file.File? then file.rows else None;
      match rows
      case Some(r) =>
        cache := Cache(stamp, r);
        return rows;
      case None =>
        if kind.FileCache? {
          return None;
        }
        cache := Cache(stamp, []);
        return Some([]);
    }

    /** `_save` and `write_json`: publish, then forget the stamp. */
    method Save(stamp: nat, rows: Rows)
      modifies `file, `cache
      ensures Valid() && file == File(stamp, Some(rows)) && cache.stamp.None?
    {
      file := File(stamp, Some(rows));
      cache := cache.(stamp := None);
    }

    /** Another process publishes: the cache stays right unless the new version has the
        stamp it holds, and other rows. */
    method Replaced(v: Version)
      requires Valid()
      modifies `file
      ensures file == v
      ensures Valid() <==> cache.stamp.None? || StampOf(v) != cache.stamp || Answer(kind, v) == Some(cache.rows)
    {
      file := v;
    }
  }
}
