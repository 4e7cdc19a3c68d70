/** `_atomic.write_bytes`: stage in a file of one's own, write, sync, rename; unlink
    on failure. Any number of writers in any interleaving, and power losses. */
module AtomicPublish {

  import opened Wrappers

  type Body = seq<char>

  /** A file's bytes: what was written, and how much of it has reached the disk. */
  datatype Bytes = Bytes(written: Body, synced: nat)

  datatype Phase = Writing | Synced | Published | Failed

  datatype Writer = Writer(body: Body, temp: nat, phase: Phase)

  /** The published file and the staged files beside it; since the last power loss, what
      has been the published file and which staged names were renamed or unlinked. */
  datatype Disk = Disk(target: Option<Bytes>, temps: map<nat, Bytes>, writers: seq<Writer>, past: seq<Option<Bytes>>,
                       gone: map<nat, Bytes>)

  function OnDisk(body: Body): Bytes { Bytes(body, |body|) }

  function Fresh(first: Option<Body>): Disk {
    var target := if first.Some? then Some(OnDisk(first.value)) else None;
    Disk(target, map[], [], [target], map[])
  }

  datatype Event =
    | Stage(body: Body, temp: nat)
    | Write(w: nat, upTo: nat)
    | Sync(w: nat)
    | Replace(w: nat)
    | Fail(w: nat, unlinked: bool)
    | PowerLoss(kept: nat, target: Option<Bytes>, temps: map<nat, Bytes>)

  predicate InPhase(d: Disk, w: nat, phase: Phase) { w < |d.writers| && d.writers[w].phase == phase }

  /** What a power loss may leave of a file: a part no shorter than what was synced. */
  predicate Survives(left: Bytes, file: Bytes) {
    && file.synced <= |left.written| <= |file.written|
    && left == OnDisk(file.written[..|left.written|])
  }

  /** May writer `w` rename now? With `fsync`, as written: once its bytes are synced. */
  predicate MayReplace(d: Disk, w: nat, fsync: bool) {
    && w < |d.writers| && d.writers[w].temp in d.temps
    && (d.writers[w].phase == Synced
        || (!fsync && d.writers[w].phase == Writing && d.temps[d.writers[w].temp].written == d.writers[w].body))
  }

  /** A staged file that a power loss leaves was there, or its renaming or unlinking is
      undone. */
  predicate Returns(left: map<nat, Bytes>, d: Disk, t: nat)
    requires t in left
  {
    (t in d.temps && Survives(left[t], d.temps[t])) || (t in d.gone && Survives(left[t], d.gone[t]))
  }

  /** mkstemp never hands out a name in use; a power loss leaves the published file in
      some state it has had, and of each file what survives, if any. The directory is
      not synced, so a staged name may be lost, or come back. */
  predicate Legal(d: Disk, e: Event, fsync: bool) {
    match e
    case Stage(_, temp) => temp !in d.temps
    case Write(w, upTo) =>
      && InPhase(d, w, Writing) && d.writers[w].temp in d.temps
      && |d.temps[d.writers[w].temp].written| <= upTo <= |d.writers[w].body|
    case Sync(w) =>
      && InPhase(d, w, Writing) && d.writers[w].temp in d.temps
      && d.temps[d.writers[w].temp].written == d.writers[w].body
    case Replace(w) => MayReplace(d, w, fsync)
    case Fail(w, _) => InPhase(d, w, Writing) || InPhase(d, w, Synced)
    case PowerLoss(kept, target, temps) =>
      && kept < |d.past|
      && target.Some? == d.past[kept].Some? && (target.Some? ==> Survives(target.value, d.past[kept].value))
      && forall t :: t in temps ==> Returns(temps, d, t)
  }

  function WithPhase(d: Disk, w: nat, phase: Phase): seq<Writer>
    requires w < |d.writers|
  {
    d.writers[w := d.writers[w].(phase := phase)]
  }

  function Step(d: Disk, e: Event, fsync: bool): Disk
    requires Legal(d, e, fsync)
  {
    match e
    case Stage(body, temp) =>
      d.(temps := d.temps[temp := OnDisk([])], writers := d.writers + [Writer(body, temp, Writing)])
    case Write(w, upTo) =>
      var temp := d.writers[w].temp;
      d.(temps := d.temps[temp := d.temps[temp].(written := d.writers[w].body[..upTo])])
    case Sync(w) =>
      var temp := d.writers[w].temp;
      d.(temps := d.temps[temp := OnDisk(d.temps[temp].written)], writers := WithPhase(d, w, Synced))
    case Replace(w) =>
      var temp := d.writers[w].temp;
      var file := Some(d.temps[temp]);
      Disk(file, d.temps - {temp}, WithPhase(d, w, Published), d.past + [file], d.gone[temp := d.temps[temp]])
    case Fail(w, unlinked) =>
      var temp := d.writers[w].temp;
      d.(temps := if unlinked then d.temps - {temp} else d.temps, writers := WithPhase(d, w, Failed),
         gone := if unlinked && temp in d.temps then d.gone[temp := d.temps[temp]] else d.gone)
    case PowerLoss(_, target, temps) =>
      Disk(target, temps, [], [target], map[])
  }

  ghost predicate Reaches(from: Disk, events: seq<Event>, fsync: bool, to: Disk) {
    if events == [] then to == from
    else
      var n := |events| - 1;
      exists mid :: Reaches(from, events[..n], fsync, mid) && Legal(mid, events[n], fsync) && to == Step(mid, events[n], fsync)
  }

  predicate Live(w: Writer) { w.phase == Writing || w.phase == Synced }

  /** A live writer's staged file: part of its body, and all of it on disk once synced. */
  predicate OwnFile(w: Writer, temps: map<nat, Bytes>) {
    Live(w) ==>
      && w.temp in temps && temps[w.temp].written <= w.body
      && (w.phase == Synced ==> temps[w.temp] == OnDisk(w.body))
  }

  /** Each live writer has a staged file of its own. */
  predicate StagedOk(d: Disk) {
    && (forall i :: 0 <= i < |d.writers| ==> OwnFile(d.writers[i], d.temps))
    && (forall i, j :: 0 <= i < j < |d.writers| && Live(d.writers[i]) && Live(d.writers[j]) ==>
          d.writers[i].temp != d.writers[j].temp)
  }

  predicate Asked(bodies: set<Body>, first: Option<Body>, body: Body) {
    first == Some(body) || body in bodies
  }

  /** Whole and on disk: what was there, or some writer's body. */
  predicate Safe(bodies: set<Body>, first: Option<Body>, file: Option<Bytes>) {
    if file.None? then first.None?
    else Asked(bodies, first, file.value.written) && file.value == OnDisk(file.value.written)
  }

  predicate Whole(d: Disk, bodies: set<Body>, first: Option<Body>) {
    && |d.past| > 0 && Safe(bodies, first, d.target)
    && (forall i :: 0 <= i < |d.past| ==> Safe(bodies, first, d.past[i]))
    && (forall i :: 0 <= i < |d.writers| ==> d.writers[i].body in bodies)
  }

  function Bodies(events: seq<Event>): set<Body> { set e | e in events && e.Stage? :: e.body }

  lemma WriterStepKeepsStaged(d: Disk, e: Event, fsync: bool)
    requires StagedOk(d) && Legal(d, e, fsync) && (e.Write? || e.Sync?)
    ensures StagedOk(Step(d, e, fsync))
  {
  }

  lemma StagingKeepsStaged(d: Disk, e: Event, fsync: bool)
    requires StagedOk(d) && Legal(d, e, fsync) && e.Stage?
    ensures StagedOk(Step(d, e, fsync))
  {
  }

  lemma EndingKeepsStaged(d: Disk, e: Event, fsync: bool)
    requires StagedOk(d) && Legal(d, e, fsync) && (e.Replace? || e.Fail? || e.PowerLoss?)
    ensures StagedOk(Step(d, e, fsync))
  {
  }

  lemma StepKeepsStaged(d: Disk, e: Event, fsync: bool)
    requires StagedOk(d) && Legal(d, e, fsync)
    ensures StagedOk(Step(d, e, fsync))
  {
    match e
    case Stage(_, _) => StagingKeepsStaged(d, e, fsync);
    case Write(_, _) => WriterStepKeepsStaged(d, e, fsync);
    case Sync(_) => WriterStepKeepsStaged(d, e, fsync);
    case Replace(_) => EndingKeepsStaged(d, e, fsync);
    case Fail(_, _) => EndingKeepsStaged(d, e, fsync);
    case PowerLoss(_, _, _) => EndingKeepsStaged(d, e, fsync);
  }

  /** A whole file that is on disk comes through a power loss as it is. */
  lemma SafeSurvives(bodies: set<Body>, first: Option<Body>, left: Bytes, file: Bytes)
    requires Safe(bodies, first, Some(file)) && Survives(left, file)
    ensures left == file
  {
    assert file.written[..|file.written|] == file.written;
  }

  lemma StepKeepsWhole(d: Disk, e: Event, bodies: set<Body>, first: Option<Body>)
    requires StagedOk(d) && Legal(d, e, true) && Whole(d, bodies, first) && (e.Stage? ==> e.body in bodies)
    ensures Whole(Step(d, e, true), bodies, first)
  {
    if e.PowerLoss? && e.target.Some? {
      SafeSurvives(bodies, first, e.target.value, d.past[e.kept].value);
    }
    if e.Replace? {
      assert OwnFile(d.writers[e.w], d.temps);
    }
  }

  lemma WholeGrows(d: Disk, fewer: set<Body>, bodies: set<Body>, first: Option<Body>)
    requires Whole(d, fewer, first) && fewer <= bodies
    ensures Whole(d, bodies, first)
  {
  }

  lemma {:induction false} RunKeepsWhole(first: Option<Body>, events: seq<Event>, d: Disk)
    requires Reaches(Fresh(first), events, true, d)
    ensures StagedOk(d) && Whole(d, Bodies(events), first)
  {
    if events != [] {
      var n := |events| - 1;
      var mid :| Reaches(Fresh(first), events[..n], true, mid) && Legal(mid, events[n], true) && d == Step(mid, events[n], true);
      RunKeepsWhole(first, events[..n], mid);
      WholeGrows(mid, Bodies(events[..n]), Bodies(events), first);
      StepKeepsStaged(mid, events[n], true);
      StepKeepsWhole(mid, events[n], Bodies(events), first);
    }
  }

  /** A reader finds the file as it first was, or exactly one body that some writer was
      asked to publish. */
  ghost predicate OneWholeBody(d: Disk, events: seq<Event>, first: Option<Body>) {
    if d.target.None? then first.None?
    else first == Some(d.target.value.written) || exists e :: e in events && e.Stage? && e.body == d.target.value.written
  }

  /** Whatever the writers, failures and power losses, with the sync before the rename
      readers see one whole body. */
  lemma ReadersSeeOneWholeBody(first: Option<Body>, events: seq<Event>, d: Disk)
    requires Reaches(Fresh(first), events, true, d)
    ensures OneWholeBody(d, events, first)
  {
    RunKeepsWhole(first, events, d);
  }

  // ---------- What the sync is for ----------

  lemma Then(first: Option<Body>, events: seq<Event>, d: Disk, e: Event)
    requires Reaches(Fresh(first), events, false, d) && Legal(d, e, false)
    ensures Reaches(Fresh(first), events + [e], false, Step(d, e, false))
  {
    assert (events + [e])[..|events|] == events;
  }

  lemma WrittenUnsynced(body: Body) returns (d: Disk)
    ensures Reaches(Fresh(None), [Stage(body, 0)] + [Write(0, |body|)], false, d)
    ensures d == Disk(None, map[0 := Bytes(body, 0)], [Writer(body, 0, Writing)], [None], map[])
  {
    d := Fresh(None);
    Then(None, [], d, Stage(body, 0));
    assert [] + [Stage(body, 0)] == [Stage(body, 0)];
    d := Step(d, Stage(body, 0), false);
    Then(None, [Stage(body, 0)], d, Write(0, |body|));
    assert body[..|body|] == body;
    d := Step(d, Write(0, |body|), false);
  }

  lemma PublishedUnsynced(body: Body) returns (d: Disk)
    ensures Reaches(Fresh(None), [Stage(body, 0)] + [Write(0, |body|)] + [Replace(0)], false, d)
    ensures d == Disk(Some(Bytes(body, 0)), map[], [Writer(body, 0, Published)], [None, Some(Bytes(body, 0))],
                    map[0 := Bytes(body, 0)])
  {
    d := WrittenUnsynced(body);
    Then(None, [Stage(body, 0)] + [Write(0, |body|)], d, Replace(0));
    d := Step(d, Replace(0), false);
    assert d.temps == map[];
  }

  /** Renamed unsynced, a body can be cut anywhere by a power loss, down to nothing. */
  lemma UnsyncedBodyIsTorn(body: Body, m: nat) returns (events: seq<Event>, d: Disk)
    requires m < |body|
    ensures Reaches(Fresh(None), events, false, d) && d.target == Some(OnDisk(body[..m]))
    ensures !OneWholeBody(d, events, None)
  {
    var before := [Stage(body, 0)] + [Write(0, |body|)] + [Replace(0)];
    d := PublishedUnsynced(body);
    var loss := PowerLoss(1, Some(OnDisk(body[..m])), map[]);
    assert Legal(d, loss, false);
    Then(None, before, d, loss);
    events, d := before + [loss], Step(d, loss, false);
    forall e | e in events && e.Stage? ensures e.body != body[..m] {
      assert e == Stage(body, 0);
    }
  }

  /** So the sync before the rename is exactly what the guarantee rests on. */
  lemma WholeIffSynced(fsync: bool)
    ensures (forall first, events, d :: Reaches(Fresh(first), events, fsync, d) ==> OneWholeBody(d, events, first)) <==> fsync
  {
    if fsync {
      forall first, events, d | Reaches(Fresh(first), events, fsync, d) ensures OneWholeBody(d, events, first) {
        ReadersSeeOneWholeBody(first, events, d);
      }
    } else {
      var events, d := UnsyncedBodyIsTorn("a", 0);
    }
  }

  // ---------- No litter ----------

  /** Every failure could unlink its file, and the power stayed on. */
  predicate Tidy(e: Event) { (e.Fail? ==> e.unlinked) && !e.PowerLoss? }

  predicate NoLitter(d: Disk) {
    forall t :: t in d.temps ==> exists i :: 0 <= i < |d.writers| && Owns(d.writers[i], t)
  }

  predicate Owns(w: Writer, t: nat) { Live(w) && w.temp == t }

  lemma StageKeepsTidy(d: Disk, e: Event)
    requires NoLitter(d) && Legal(d, e, true) && e.Stage?
    ensures NoLitter(Step(d, e, true))
  {
    var after := Step(d, e, true);
    forall t | t in after.temps ensures exists i :: 0 <= i < |after.writers| && Owns(after.writers[i], t) {
      if t == e.temp {
        assert Owns(after.writers[|d.writers|], t);
      } else {
        var i :| 0 <= i < |d.writers| && Owns(d.writers[i], t);
        assert after.writers[i] == d.writers[i];
      }
    }
  }

  lemma StillOwned(d: Disk, w: nat, phase: Phase, t: nat)
    requires w < |d.writers| && exists i :: 0 <= i < |d.writers| && Owns(d.writers[i], t)
    requires (phase == Writing || phase == Synced) || d.writers[w].temp != t
    requires Live(d.writers[w])
    ensures exists i :: 0 <= i < |d.writers| && Owns(WithPhase(d, w, phase)[i], t)
  {
    var i :| 0 <= i < |d.writers| && Owns(d.writers[i], t);
    assert Owns(WithPhase(d, w, phase)[i], t);
  }

  lemma WriterKeepsTidy(d: Disk, e: Event)
    requires NoLitter(d) && Legal(d, e, true) && Tidy(e) && !e.Stage? && !e.Write?
    ensures NoLitter(Step(d, e, true))
  {
    var after := Step(d, e, true);
    forall t | t in after.temps ensures exists i :: 0 <= i < |after.writers| && Owns(after.writers[i], t) {
      StillOwned(d, e.w, if e.Sync? then Synced else if e.Replace? then Published else Failed, t);
    }
  }

  lemma StepKeepsTidy(d: Disk, e: Event)
    requires NoLitter(d) && Legal(d, e, true) && Tidy(e)
    ensures NoLitter(Step(d, e, true))
  {
    match e
    case Stage(_, _) => StageKeepsTidy(d, e);
    case Write(_, _) =>
    case _ => WriterKeepsTidy(d, e);
  }

  /** Once every writer has published or failed, no staged file is left. */
  lemma {:induction false} FinishedWritersLeaveNothing(first: Option<Body>, events: seq<Event>, d: Disk)
    requires Reaches(Fresh(first), events, true, d) && forall e :: e in events ==> Tidy(e)
    ensures NoLitter(d)
    ensures (forall i :: 0 <= i < |d.writers| ==> !Live(d.writers[i])) ==> d.temps == map[]
  {
    if events != [] {
      var n := |events| - 1;
      var mid :| Reaches(Fresh(first), events[..n], true, mid) && Legal(mid, events[n], true) && d == Step(mid, events[n], true);
      FinishedWritersLeaveNothing(first, events[..n], mid);
      assert events[n] in events;
      StepKeepsTidy(mid, events[n]);
    }
  }

  // ---------- One writer, as written ----------

  /** The effects of `write_bytes` that can raise, in order. */
  datatype Effect = Chmod | WriteAll | Fsync | Rename

  class Directory {
    var target: Option<Bytes>
    var temps: map<nat, Bytes>

    constructor (target: Option<Bytes>)
      ensures this.target == target && temps == map[]
    {
      this.target, temps := target, map[];
    }

    /** Publish `body`, or leave the file as it was; either way without litter,
        unless a failure's own unlink failed. What is renamed is on the disk. A
        write that fails may leave some of the body in the staged file. */
    method WriteBytes(body: Body, temp: nat, fails: Option<Effect>, partly: nat, unlinks: bool) returns (ok: bool)
      requires temp !in temps && partly <= |body|
      modifies this
      ensures ok <==> fails.None?
      ensures target == if ok then Some(OnDisk(body)) else old(target)
      ensures ok || unlinks ==> temps == old(temps)
      ensures !ok && !unlinks ==> temp in temps && temps - {temp} == old(temps) && temps[temp].written <= body
    {
      ghost var before := temps;
      assert fails.Some? ==> fails.value.Chmod? || fails.value.WriteAll? || fails.value.Fsync? || fails.value.Rename?;
      temps := temps[temp := OnDisk([])];
      ok := fails != Some(Chmod);
      if ok {
        ok := fails != Some(WriteAll);
        temps := temps[temp := Bytes(if ok then body else body[..partly], 0)];
      }
      if ok {
        ok := fails != Some(Fsync);
      }
      if ok {
        temps := temps[temp := OnDisk(body)];
        ok := fails != Some(Rename);
      }
      if ok {
        target := Some(temps[temp]);
      }
      assert temps - {temp} == before;
      if ok || unlinks {
        temps := temps - {temp};
      }
    }
  }
}
