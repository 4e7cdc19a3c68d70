/** Which session and turn a request is billed to: `_meter_keys.py` and the
    session half of `call_meter.py`. At most 200 sessions are remembered, least
    recently used out first. */
module MeterSessions {

  import opened Wrappers
  import opened Totals

  const MAX_SESSIONS: nat := 200

  /** The session of an unattributed call: None and the empty string are one key. */
  const NOBODY: string := ""

  datatype Slot = Slot(total: nat, turn: nat, epoch: nat, failed: nat, turnFailed: nat)

  const NEW_SLOT := Slot(0, 0, 0, 0, 0)

  /** An ordered dictionary: `order` lists the keys of `slots`, oldest first. */
  datatype Sessions = Sessions(order: seq<string>, slots: map<string, Slot>)

  const EMPTY := Sessions([], map[])

  predicate Distinct<T(==)>(s: seq<T>) { forall i, j :: 0 <= i < j < |s| ==> s[i] != s[j] }

  ghost predicate Ordered(s: Sessions) {
    && Distinct(s.order)
    && forall sid :: sid in s.slots <==> sid in s.order
  }

  function Others(order: seq<string>, sid: string): (r: seq<string>)
    ensures |r| <= |order|
    ensures forall x :: x in r <==> x in order && x != sid
  {
    if order == [] then []
    else
      var n := |order| - 1;
      Others(order[..n], sid) + if order[n] == sid then [] else [order[n]]
  }

  function EvictOldest(s: Sessions): (r: Sessions)
    ensures |r.order| <= MAX_SESSIONS
    decreases |s.order|
  {
    if |s.order| > MAX_SESSIONS
    then EvictOldest(Sessions(s.order[1..], s.slots - {s.order[0]}))
    else s
  }

  /** The table once `sid`'s slot has been fetched: present and newest. */
  function Touch(s: Sessions, sid: string): Sessions {
    if sid in s.slots then Sessions(Others(s.order, sid) + [sid], s.slots)
    else EvictOldest(Sessions(s.order + [sid], s.slots[sid := NEW_SLOT]))
  }

  function With(s: Sessions, sid: string, slot: Slot): Sessions { s.(slots := s.slots[sid := slot]) }

  // ---------- Shape ----------

  lemma {:induction false} OthersDistinct(order: seq<string>, sid: string)
    requires Distinct(order)
    ensures Distinct(Others(order, sid))
  {
    if order != [] {
      var n := |order| - 1;
      OthersDistinct(order[..n], sid);
      var r := Others(order[..n], sid);
      forall k | 0 <= k < |r| ensures r[k] != order[n] {
        assert r[k] in order[..n];
      }
    }
  }

  lemma {:induction false} DistinctWithout(order: seq<string>, sid: string)
    requires sid in order
    ensures |Others(order, sid)| < |order|
  {
    var n := |order| - 1;
    if order[n] != sid {
      assert sid in order[..n];
      DistinctWithout(order[..n], sid);
    }
  }

  lemma {:induction false} EvictKeepsOrder(s: Sessions)
    requires Ordered(s)
    ensures Ordered(EvictOldest(s))
    ensures EvictOldest(s).order == s.order[|s.order| - |EvictOldest(s).order|..]
    ensures forall x :: x in EvictOldest(s).slots ==> x in s.slots && EvictOldest(s).slots[x] == s.slots[x]
    ensures |EvictOldest(s).order| == if |s.order| <= MAX_SESSIONS then |s.order| else MAX_SESSIONS
    decreases |s.order|
  {
    if |s.order| > MAX_SESSIONS {
      var t := Sessions(s.order[1..], s.slots - {s.order[0]});
      assert Ordered(t) by {
        assert Distinct(t.order);
        assert s.order == [s.order[0]] + t.order;
        forall k | 0 <= k < |t.order| ensures t.order[k] != s.order[0] {
          assert t.order[k] == s.order[k + 1];
        }
      }
      EvictKeepsOrder(t);
    }
  }

  lemma AppendKeepsOrder(order: seq<string>, sid: string)
    requires Distinct(order) && sid !in order
    ensures Distinct(order + [sid])
    ensures forall x :: x in order + [sid] <==> x in order || x == sid
  {
  }

  lemma TouchOld(s: Sessions, sid: string)
    requires Ordered(s) && sid in s.slots
    ensures Ordered(Touch(s, sid)) && |Touch(s, sid).order| <= |s.order|
  {
    OthersDistinct(s.order, sid);
    AppendKeepsOrder(Others(s.order, sid), sid);
    DistinctWithout(s.order, sid);
  }

  lemma NewestStays(s: Sessions)
    requires Ordered(s) && s.order != []
    ensures var t := EvictOldest(s);
            && t.order != [] && t.order[|t.order| - 1] == s.order[|s.order| - 1]
            && s.order[|s.order| - 1] in t.slots
  {
    EvictKeepsOrder(s);
    var t := EvictOldest(s);
    assert t.order[|t.order| - 1] == s.order[|s.order| - 1];
    assert t.order[|t.order| - 1] in t.order;
  }

  lemma TouchFresh(s: Sessions, sid: string)
    requires Ordered(s) && sid !in s.slots
    ensures var t := Touch(s, sid);
            && Ordered(t) && |t.order| <= MAX_SESSIONS
            && |t.order| > 0 && t.order[|t.order| - 1] == sid && sid in t.slots && t.slots[sid] == NEW_SLOT
            && (forall x :: x in t.slots && x != sid ==> x in s.slots && t.slots[x] == s.slots[x])
  {
    var grown := Sessions(s.order + [sid], s.slots[sid := NEW_SLOT]);
    GrownIsOrdered(s, sid, grown);
    EvictionKeeps(grown, EvictOldest(grown));
  }

  lemma GrownIsOrdered(s: Sessions, sid: string, grown: Sessions)
    requires Ordered(s) && sid !in s.slots && grown == Sessions(s.order + [sid], s.slots[sid := NEW_SLOT])
    ensures Ordered(grown)
  {
    AppendKeepsOrder(s.order, sid);
  }

  lemma EvictionKeeps(s: Sessions, t: Sessions)
    requires Ordered(s) && s.order != [] && t == EvictOldest(s)
    ensures Ordered(t) && |t.order| <= MAX_SESSIONS && t.order != []
    ensures t.order[|t.order| - 1] == s.order[|s.order| - 1] && s.order[|s.order| - 1] in t.slots
    ensures forall x :: x in t.slots ==> x in s.slots && t.slots[x] == s.slots[x]
  {
    EvictKeepsOrder(s);
    NewestStays(s);
  }

  /** Fetching a slot leaves the table ordered, within its bound, with `sid` newest
      and every other slot either evicted or as it was. */
  lemma TouchKeepsOrder(s: Sessions, sid: string)
    requires Ordered(s) && |s.order| <= MAX_SESSIONS
    ensures var t := Touch(s, sid);
            && Ordered(t) && |t.order| <= MAX_SESSIONS
            && |t.order| > 0 && t.order[|t.order| - 1] == sid && sid in t.slots
            && (forall x :: x in t.slots && x != sid ==> x in s.slots && t.slots[x] == s.slots[x])
            && t.slots[sid] == (if sid in s.slots then s.slots[sid] else NEW_SLOT)
  {
    if sid in s.slots {
      TouchOld(s, sid);
    } else {
      TouchFresh(s, sid);
    }
  }

  lemma {:induction false} DistinctFits(s: seq<string>, ids: set<string>)
    requires Distinct(s) && forall i :: 0 <= i < |s| ==> s[i] in ids
    ensures |s| <= |ids|
  {
    if s != [] {
      DistinctFits(s[..|s| - 1], ids - {s[|s| - 1]});
    }
  }

  /** While no more than 200 sessions exist, none is ever evicted. */
  lemma TouchEvictsNone(s: Sessions, sid: string, ids: set<string>)
    requires Ordered(s) && s.slots.Keys <= ids && sid in ids && |ids| <= MAX_SESSIONS
    ensures |s.order| <= MAX_SESSIONS
    ensures Touch(s, sid).slots == if sid in s.slots then s.slots else s.slots[sid := NEW_SLOT]
  {
    DistinctFits(s.order, ids);
    if sid !in s.slots {
      DistinctFits(s.order + [sid], ids);
    }
  }

  // ---------- Billing ----------

  /** Charge one send: to the session always, to its turn when the caller is bound
      to no turn or to the current one. The second result stamps the send. */
  function Bill(s: Sessions, sid: string, bound: Option<nat>): (r: (Sessions, Option<nat>)) {
    if sid == NOBODY then (s, bound)
    else
      var t := Touch(s, sid);
      var slot := if sid in t.slots then t.slots[sid] else NEW_SLOT;
      var mine := bound.GetOr(slot.epoch) == slot.epoch;
      (With(t, sid, slot.(total := slot.total + 1, turn := slot.turn + if mine then 1 else 0)),
       Some(bound.GetOr(slot.epoch)))
  }

  function Lose(slot: Slot, inTurn: bool): Slot {
    slot.(failed := slot.failed + 1, turnFailed := slot.turnFailed + if inTurn then 1 else 0)
  }

  /** Only a session still known is charged, and its turn only on a real match. */
  function FailSession(s: Sessions, sid: string, stamp: Option<nat>): Sessions {
    if sid == NOBODY || sid !in s.slots then s
    else
      var t := Touch(s, sid);
      With(t, sid, Lose(t.slots[sid], stamp == Some(t.slots[sid].epoch)))
  }

  function ResetTurn(s: Sessions, sid: string): (r: (Sessions, Option<nat>)) {
    if sid == NOBODY then (s, None)
    else
      var t := Touch(s, sid);
      var slot := if sid in t.slots then t.slots[sid] else NEW_SLOT;
      (With(t, sid, slot.(turn := 0, turnFailed := 0, epoch := slot.epoch + 1)), Some(slot.epoch + 1))
  }

  // ---------- Every interleaving of turns, late sends and late failures ----------

  datatype Billed = Billed(sid: string, stamp: Option<nat>)

  datatype Event =
    | Send(sid: string, bound: Option<nat>)
    | Fail(send: nat)
    | Reset(sid: string)

  /** The table, with the history it stands for: the sends and their stamps, which
      of them failed, and which turns each session has been given. */
  datatype Sys = Sys(table: Sessions, sends: seq<Billed>, failed: set<nat>, turns: set<(string, nat)>)

  const START := Sys(EMPTY, [], {}, {})

  /** A send is bound to no turn or to one its own session was given, however long
      ago; a failure is of a send not failed before. */
  predicate Legal(sys: Sys, e: Event) {
    match e
    case Send(sid, bound) => bound.Some? ==> (sid, bound.value) in sys.turns
    case Fail(i) => i < |sys.sends| && i !in sys.failed
    case Reset(_) => true
  }

  function Step(sys: Sys, e: Event): Sys
    requires Legal(sys, e)
  {
    match e
    case Send(sid, bound) =>
      var (table, stamp) := Bill(sys.table, sid, bound);
      sys.(table := table, sends := sys.sends + [Billed(sid, stamp)])
    case Fail(i) =>
      sys.(table := FailSession(sys.table, sys.sends[i].sid, sys.sends[i].stamp), failed := sys.failed + {i})
    case Reset(sid) =>
      var (table, epoch) := ResetTurn(sys.table, sid);
      sys.(table := table, turns := if epoch.Some? then sys.turns + {(sid, epoch.value)} else sys.turns)
  }

  function SidOf(sys: Sys, e: Event): string
    requires Legal(sys, e)
  {
    match e case Send(sid, _) => sid case Fail(i) => sys.sends[i].sid case Reset(sid) => sid
  }

  predicate Among(sid: string, ids: set<string>) { sid == NOBODY || sid in ids }

  /** `to` follows `from` by legal steps that touch only the sessions `ids`. */
  ghost predicate Reaches(from: Sys, events: seq<Event>, ids: set<string>, to: Sys) {
    if events == [] then to == from
    else
      var n := |events| - 1;
      exists mid :: Reaches(from, events[..n], ids, mid) && Legal(mid, events[n])
                 && Among(SidOf(mid, events[n]), ids) && to == Step(mid, events[n])
  }

  /** What one send adds to its session's slot, in the session's turn `epoch`. */
  function Tally(slot: Slot, b: Billed, sid: string, epoch: nat, lost: bool): Slot {
    if b.sid != sid then slot
    else
      var inTurn := b.stamp == Some(epoch);
      slot.(total := slot.total + 1, turn := slot.turn + if inTurn then 1 else 0,
            failed := slot.failed + if lost then 1 else 0, turnFailed := slot.turnFailed + if inTurn && lost then 1 else 0)
  }

  /** The slot a session should have: a count over the whole history. */
  function SlotFor(sends: seq<Billed>, failed: set<nat>, sid: string, epoch: nat): (r: Slot)
    ensures r.epoch == epoch
    ensures r.turnFailed <= r.turn <= r.total && r.turnFailed <= r.failed <= r.total
  {
    if sends == [] then Slot(0, 0, epoch, 0, 0)
    else
      var n := |sends| - 1;
      Tally(SlotFor(sends[..n], failed, sid, epoch), sends[n], sid, epoch, n in failed)
  }

  /** Every slot equals the count over the history. */
  ghost predicate SlotsAgree(sys: Sys) {
    forall sid :: sid in sys.table.slots ==>
      sys.table.slots[sid] == SlotFor(sys.sends, sys.failed, sid, sys.table.slots[sid].epoch)
  }

  predicate Remembers(slots: map<string, Slot>, b: Billed) {
    b.sid == NOBODY || (b.sid in slots && b.stamp.Some? && b.stamp.value <= slots[b.sid].epoch)
  }

  ghost predicate Remembered(sys: Sys) {
    && (forall i :: 0 <= i < |sys.sends| ==> Remembers(sys.table.slots, sys.sends[i]))
    && (forall sid, e: nat :: (sid, e) in sys.turns ==> Remembers(sys.table.slots, Billed(sid, Some(e))))
    && (forall i :: i in sys.failed ==> i < |sys.sends|)
  }

  ghost predicate Agrees(sys: Sys, ids: set<string>) {
    Ordered(sys.table) && sys.table.slots.Keys <= ids - {NOBODY} && Remembered(sys) && SlotsAgree(sys)
  }

  lemma TallySend(sends: seq<Billed>, failed: set<nat>, b: Billed, sid: string, epoch: nat)
    requires |sends| !in failed
    ensures SlotFor(sends + [b], failed, sid, epoch) == Tally(SlotFor(sends, failed, sid, epoch), b, sid, epoch, false)
  {
    assert (sends + [b])[..|sends|] == sends;
  }

  lemma {:induction false} TallyFail(sends: seq<Billed>, failed: set<nat>, i: nat, sid: string, epoch: nat)
    requires i !in failed
    ensures var slot := SlotFor(sends, failed, sid, epoch);
            SlotFor(sends, failed + {i}, sid, epoch)
            == if i < |sends| && sends[i].sid == sid then Lose(slot, sends[i].stamp == Some(epoch)) else slot
  {
    if sends != [] {
      TallyFail(sends[..|sends| - 1], failed, i, sid, epoch);
    }
  }

  /** A turn nothing was sent in yet counts nothing; the session's totals stay. */
  lemma {:induction false} NewTurn(sends: seq<Billed>, failed: set<nat>, sid: string, was: nat, epoch: nat)
    requires forall i :: 0 <= i < |sends| && sends[i].sid == sid ==> sends[i].stamp != Some(epoch)
    ensures var slot := SlotFor(sends, failed, sid, was);
            SlotFor(sends, failed, sid, epoch) == Slot(slot.total, 0, epoch, slot.failed, 0)
  {
    if sends != [] {
      NewTurn(sends[..|sends| - 1], failed, sid, was, epoch);
    }
  }

  lemma {:induction false} NeverSent(sends: seq<Billed>, failed: set<nat>, sid: string)
    requires forall i :: 0 <= i < |sends| ==> sends[i].sid != sid
    ensures SlotFor(sends, failed, sid, 0) == NEW_SLOT
  {
    if sends != [] {
      NeverSent(sends[..|sends| - 1], failed, sid);
    }
  }

  /** The system once the slot of `e` has been fetched. */
  function Fetched(sys: Sys, sid: string): Sys { sys.(table := Touch(sys.table, sid)) }

  function AfterSend(sys: Sys, sid: string, stamp: nat): Sys
    requires sid in sys.table.slots
  {
    var slot := sys.table.slots[sid];
    var b := Billed(sid, Some(stamp));
    sys.(table := With(sys.table, sid, Tally(slot, b, sid, slot.epoch, false)), sends := sys.sends + [b])
  }

  function AfterFail(sys: Sys, i: nat): Sys
    requires i < |sys.sends| && sys.sends[i].sid in sys.table.slots
  {
    var slot := sys.table.slots[sys.sends[i].sid];
    sys.(table := With(sys.table, sys.sends[i].sid, Lose(slot, sys.sends[i].stamp == Some(slot.epoch))),
         failed := sys.failed + {i})
  }

  function AfterReset(sys: Sys, sid: string): Sys
    requires sid in sys.table.slots
  {
    var slot := sys.table.slots[sid];
    sys.(table := With(sys.table, sid, slot.(turn := 0, turnFailed := 0, epoch := slot.epoch + 1)),
         turns := sys.turns + {(sid, slot.epoch + 1)})
  }

  /** A slot just fetched agrees with the history, even one just made. */
  lemma TouchAgrees(sys: Sys, sid: string, ids: set<string>)
    requires Agrees(sys, ids) && sid in ids - {NOBODY} && |ids| <= MAX_SESSIONS
    ensures Agrees(sys.(table := Touch(sys.table, sid)), ids)
    ensures sid in Touch(sys.table, sid).slots
  {
    TouchEvictsNone(sys.table, sid, ids);
    TouchKeepsOrder(sys.table, sid);
    if sid !in sys.table.slots {
      forall i | 0 <= i < |sys.sends| ensures sys.sends[i].sid != sid {
        assert Remembers(sys.table.slots, sys.sends[i]);
      }
      NeverSent(sys.sends, sys.failed, sid);
    }
  }

  lemma SendAgrees(sys: Sys, sid: string, stamp: nat, ids: set<string>)
    requires Agrees(sys, ids) && sid in sys.table.slots && stamp <= sys.table.slots[sid].epoch
    ensures Agrees(AfterSend(sys, sid, stamp), ids)
  {
    forall x | x in sys.table.slots {
      TallySend(sys.sends, sys.failed, Billed(sid, Some(stamp)), x, sys.table.slots[x].epoch);
    }
  }

  lemma FailAgrees(sys: Sys, i: nat, ids: set<string>)
    requires Agrees(sys, ids) && i < |sys.sends| && i !in sys.failed && sys.sends[i].sid in sys.table.slots
    ensures Agrees(AfterFail(sys, i), ids)
  {
    forall x | x in sys.table.slots {
      TallyFail(sys.sends, sys.failed, i, x, sys.table.slots[x].epoch);
    }
  }

  lemma ResetAgrees(sys: Sys, sid: string, ids: set<string>)
    requires Agrees(sys, ids) && sid in sys.table.slots
    ensures Agrees(AfterReset(sys, sid), ids)
  {
    var epoch := sys.table.slots[sid].epoch;
    forall i | 0 <= i < |sys.sends| && sys.sends[i].sid == sid ensures sys.sends[i].stamp != Some(epoch + 1) {
      assert Remembers(sys.table.slots, sys.sends[i]);
    }
    NewTurn(sys.sends, sys.failed, sid, epoch, epoch + 1);
  }

  lemma StepIs(sys: Sys, e: Event)
    requires Legal(sys, e) && SidOf(sys, e) in Touch(sys.table, SidOf(sys, e)).slots && SidOf(sys, e) != NOBODY
    ensures match e
            case Send(sid, bound) =>
              Step(sys, e) == AfterSend(Fetched(sys, sid), sid, bound.GetOr(Touch(sys.table, sid).slots[sid].epoch))
            case Fail(i) => sys.sends[i].sid in sys.table.slots ==> Step(sys, e) == AfterFail(Fetched(sys, sys.sends[i].sid), i)
            case Reset(sid) => Step(sys, e) == AfterReset(Fetched(sys, sid), sid)
  {
  }

  lemma NobodyAgrees(sys: Sys, e: Event, ids: set<string>)
    requires Agrees(sys, ids) && Legal(sys, e) && SidOf(sys, e) == NOBODY
    ensures Agrees(Step(sys, e), ids)
  {
    match e
    case Send(_, bound) =>
      forall x | x in sys.table.slots {
        TallySend(sys.sends, sys.failed, Billed(NOBODY, bound), x, sys.table.slots[x].epoch);
      }
    case Fail(i) =>
      forall x | x in sys.table.slots {
        TallyFail(sys.sends, sys.failed, i, x, sys.table.slots[x].epoch);
      }
    case Reset(_) =>
  }

  lemma StepAgrees(sys: Sys, e: Event, ids: set<string>)
    requires Agrees(sys, ids) && Legal(sys, e) && |ids| <= MAX_SESSIONS
    requires SidOf(sys, e) in ids - {NOBODY}
    ensures Agrees(Step(sys, e), ids)
  {
    var sid := SidOf(sys, e);
    var fetched := Fetched(sys, sid);
    TouchAgrees(sys, sid, ids);
    StepIs(sys, e);
    match e
    case Send(_, bound) =>
      assert bound.Some? ==> Remembers(fetched.table.slots, Billed(sid, bound));
      SendAgrees(fetched, sid, bound.GetOr(fetched.table.slots[sid].epoch), ids);
    case Fail(i) =>
      assert Remembers(sys.table.slots, sys.sends[i]);
      FailAgrees(fetched, i, ids);
    case Reset(_) =>
      ResetAgrees(fetched, sid, ids);
  }

  lemma {:induction false} RunAgrees(events: seq<Event>, ids: set<string>, sys: Sys)
    requires Reaches(START, events, ids, sys) && |ids| <= MAX_SESSIONS
    ensures Agrees(sys, ids)
  {
    if events != [] {
      var n := |events| - 1;
      var mid :| Reaches(START, events[..n], ids, mid) && Legal(mid, events[n])
                 && Among(SidOf(mid, events[n]), ids) && sys == Step(mid, events[n]);
      RunAgrees(events[..n], ids, mid);
      if SidOf(mid, events[n]) == NOBODY {
        NobodyAgrees(mid, events[n], ids);
      } else {
        StepAgrees(mid, events[n], ids);
      }
    }
  }

  /** What the meter tells the user of a session is consistent. */
  predicate Consistent(slot: Slot) {
    slot.turnFailed <= slot.turn <= slot.total && slot.turnFailed <= slot.failed <= slot.total
  }

  ghost predicate Reachable(ids: set<string>, sys: Sys) {
    exists events :: Reaches(START, events, ids, sys)
  }

  /** With at most 200 sessions, after any interleaving of turns, abandoned threads
      and late failures: every session that sent has a slot, the slot counts its
      history exactly, and so its failures are a subset of its requests. */
  lemma SlotsCountTheHistory(ids: set<string>, sys: Sys)
    requires Reachable(ids, sys) && |ids| <= MAX_SESSIONS
    ensures forall i :: 0 <= i < |sys.sends| && sys.sends[i].sid != NOBODY ==> sys.sends[i].sid in sys.table.slots
    ensures forall sid :: sid in sys.table.slots ==>
              && sys.table.slots[sid] == SlotFor(sys.sends, sys.failed, sid, sys.table.slots[sid].epoch)
              && Consistent(sys.table.slots[sid])
  {
    var events :| Reaches(START, events, ids, sys);
    RunAgrees(events, ids, sys);
    forall i | 0 <= i < |sys.sends| && sys.sends[i].sid != NOBODY ensures sys.sends[i].sid in sys.table.slots {
      assert Remembers(sys.table.slots, sys.sends[i]);
    }
  }

  // ---------- Exactly 200 ----------

  lemma ReachStep(ids: set<string>, sys: Sys, e: Event)
    requires Reachable(ids, sys) && Legal(sys, e) && Among(SidOf(sys, e), ids)
    ensures Reachable(ids, Step(sys, e))
  {
    var events :| Reaches(START, events, ids, sys);
    var more := events + [e];
    assert more[..|events|] == events;
    assert Reaches(START, more, ids, Step(sys, e));
  }

  lemma {:induction false} SomeOf(ids: set<string>, n: nat) returns (names: seq<string>)
    requires n <= |ids|
    ensures |names| == n && Distinct(names) && forall i :: 0 <= i < n ==> names[i] in ids
  {
    if n == 0 {
      names := [];
    } else {
      var x := Pick(ids);
      var rest := SomeOf(ids - {x}, n - 1);
      names := rest + [x];
    }
  }

  lemma TouchNew(s: Sessions, sid: string)
    requires Ordered(s) && sid !in s.slots && |s.order| <= MAX_SESSIONS
    ensures Ordered(Touch(s, sid)) && sid in Touch(s, sid).slots && Touch(s, sid).slots[sid] == NEW_SLOT
    ensures Touch(s, sid).order == if |s.order| < MAX_SESSIONS then s.order + [sid] else s.order[1..] + [sid]
  {
    AppendKeepsOrder(s.order, sid);
    TouchKeepsOrder(s, sid);
    EvictKeepsOrder(Sessions(s.order + [sid], s.slots[sid := NEW_SLOT]));
  }

  lemma NewSession(sys: Sys, sid: string)
    requires Ordered(sys.table) && sid !in sys.table.slots && |sys.table.order| <= MAX_SESSIONS && sid != NOBODY
    ensures var t := Step(sys, Send(sid, None));
            && Ordered(t.table) && sid in t.table.slots
            && t.table.slots[sid] == Slot(1, 1, 0, 0, 0)
            && t.sends == sys.sends + [Billed(sid, Some(0))]
            && t.table.order == if |sys.table.order| < MAX_SESSIONS then sys.table.order + [sid]
                                else sys.table.order[1..] + [sid]
  {
    TouchNew(sys.table, sid);
    StepIs(sys, Send(sid, None));
  }

  lemma SendTwice(sid: string, ids: set<string>) returns (sys: Sys)
    requires sid in ids && sid != NOBODY
    ensures Reachable(ids, sys) && Ordered(sys.table) && sys.table.order == [sid] && sys.failed == {}
    ensures sys.sends == [Billed(sid, Some(0)), Billed(sid, Some(0))]
  {
    assert Reaches(START, [], ids, START);
    NewSession(START, sid);
    ReachStep(ids, START, Send(sid, None));
    var once := Step(START, Send(sid, None));
    ReachStep(ids, once, Send(sid, None));
    sys := Step(once, Send(sid, None));
    TouchKeepsOrder(once.table, sid);
    StepIs(once, Send(sid, None));
    assert once.table.order == [sid];
    assert Others([sid], sid) == [];
  }

  /** One session sends twice, then `k - 1` others once each. */
  lemma {:induction false} Fill(names: seq<string>, k: nat, ids: set<string>) returns (sys: Sys)
    requires Distinct(names) && forall i :: 0 <= i < |names| ==> names[i] in ids && names[i] != NOBODY
    requires 1 <= k <= |names| && k <= MAX_SESSIONS
    ensures Reachable(ids, sys) && Ordered(sys.table) && sys.table.order == names[..k]
    ensures sys.failed == {} && |sys.sends| >= 2
    ensures sys.sends[0] == Billed(names[0], Some(0)) && sys.sends[1] == Billed(names[0], Some(0))
  {
    if k == 1 {
      sys := SendTwice(names[0], ids);
    } else {
      var before := Fill(names, k - 1, ids);
      var sid := names[k - 1];
      assert sid !in names[..k - 1];
      NewSession(before, sid);
      ReachStep(ids, before, Send(sid, None));
      sys := Step(before, Send(sid, None));
    }
  }

  lemma FailTwice(sys: Sys, sid: string)
    requires Ordered(sys.table) && |sys.table.order| <= MAX_SESSIONS
    requires sid in sys.table.slots && sys.table.slots[sid] == Slot(1, 1, 0, 0, 0) && sid != NOBODY
    requires sys.failed == {} && |sys.sends| >= 2 && sys.sends[0] == Billed(sid, Some(0)) && sys.sends[1] == Billed(sid, Some(0))
    ensures var t := Step(Step(sys, Fail(0)), Fail(1));
            sid in t.table.slots && t.table.slots[sid] == Slot(1, 1, 0, 2, 2)
  {
  }

  /** A 201st session puts the first one out; its next send starts it afresh. */
  lemma Forgotten(names: seq<string>, ids: set<string>) returns (sys: Sys)
    requires Distinct(names) && |names| == MAX_SESSIONS + 1 && forall i :: 0 <= i < |names| ==> names[i] in ids && names[i] != NOBODY
    ensures Reachable(ids, sys) && Ordered(sys.table) && |sys.table.order| <= MAX_SESSIONS
    ensures names[0] in sys.table.slots && sys.table.slots[names[0]] == Slot(1, 1, 0, 0, 0)
    ensures sys.failed == {} && |sys.sends| >= 2
    ensures sys.sends[0] == Billed(names[0], Some(0)) && sys.sends[1] == Billed(names[0], Some(0))
  {
    var full := Fill(names, MAX_SESSIONS, ids);
    var last := names[MAX_SESSIONS];
    assert last !in names[..MAX_SESSIONS];
    NewSession(full, last);
    ReachStep(ids, full, Send(last, None));
    var evicted := Step(full, Send(last, None));
    assert evicted.table.order == names[1..];
    assert names[0] !in names[1..];
    NewSession(evicted, names[0]);
    ReachStep(ids, evicted, Send(names[0], None));
    sys := Step(evicted, Send(names[0], None));
  }

  lemma EvictionBreaksTheCounts(ids: set<string>) returns (sys: Sys, sid: string)
    requires NOBODY !in ids && |ids| > MAX_SESSIONS
    ensures Reachable(ids, sys) && sid in sys.table.slots && !Consistent(sys.table.slots[sid])
  {
    var names := SomeOf(ids, MAX_SESSIONS + 1);
    sid := names[0];
    var again := Forgotten(names, ids);
    FailTwice(again, sid);
    ReachStep(ids, again, Fail(0));
    ReachStep(ids, Step(again, Fail(0)), Fail(1));
    sys := Step(Step(again, Fail(0)), Fail(1));
  }

  /** An evicted session restarts at epoch 0, so its old failures land on a slot
      that never counted their sends: 200 sessions are the exact limit. */
  lemma ConsistentIffFewSessions(ids: set<string>)
    requires NOBODY !in ids
    ensures (forall sys, sid :: Reachable(ids, sys) && sid in sys.table.slots ==> Consistent(sys.table.slots[sid]))
        <==> |ids| <= MAX_SESSIONS
  {
    if |ids| <= MAX_SESSIONS {
      forall sys, sid | Reachable(ids, sys) && sid in sys.table.slots ensures Consistent(sys.table.slots[sid]) {
        SlotsCountTheHistory(ids, sys);
      }
    } else {
      var sys, sid := EvictionBreaksTheCounts(ids);
    }
  }

  /** A turn is bound by its number alone, so a send can carry a turn another session
      was given. If it is one ahead of its own session's, the failure that settles
      in that next turn is one more than the turn ever sent. */
  lemma ForeignTurnBreaksTheCounts(s: Sessions, sid: string, foreign: nat)
    requires sid in s.slots && sid != NOBODY
    ensures var epoch := s.slots[sid].epoch;
            var (billed, stamp) := Bill(s, sid, Some(foreign));
            var (next, turn) := ResetTurn(billed, sid);
            var failed := FailSession(next, sid, stamp).slots[sid];
            turn == Some(epoch + 1) && (failed.turnFailed <= failed.turn <==> foreign != epoch + 1)
  {
  }
}
