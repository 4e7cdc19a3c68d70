/** The request meter's minute buckets: `_meter_report.py`. A bucket counts the
    sends and failures of one wall minute and splits them by label. */
module MeterBuckets {

  import opened Wrappers
  import opened Totals

  const BUCKETS: nat := 60
  const LABELS_PER_BUCKET: nat := 40
  const LABEL_MAX: nat := 64
  const OVERFLOW: string := "\U{2026}other"

  type Labels = map<string, nat>

  datatype Bucket = Bucket(n: nat, f: nat, roles: Labels, provs: Labels, models: Labels, fails: Labels)

  const NEW_BUCKET := Bucket(0, 0, map[], map[], map[], map[])

  function Minute(ts: real): int { (ts / 60.0).Floor }

  function Clip(name: string): (r: string)
    ensures r <= name && |r| == if |name| <= 64 then |name| else 64
  {
    if |name| <= LABEL_MAX then name else name[..LABEL_MAX]
  }

  function CountOf(labels: Labels, v: string): nat { if v in labels then labels[v] else 0 }

  function AddLabel(labels: Labels, v: string): Labels {
    var slot := if v in labels || |labels| < LABELS_PER_BUCKET then v else OVERFLOW;
    labels[slot := CountOf(labels, slot) + 1]
  }

  function AddIfNamed(labels: Labels, name: string): Labels {
    if name == "" then labels else AddLabel(labels, Clip(name))
  }

  /** A label table of `total` counted labels, bounded whatever the labels were. */
  ghost predicate LabelsOk(labels: Labels, total: nat) {
    && |labels| <= LABELS_PER_BUCKET + 1
    && (|labels| == LABELS_PER_BUCKET + 1 ==> OVERFLOW in labels)
    && Total(labels) == total
  }

  lemma AddLabelOk(labels: Labels, v: string, total: nat)
    requires LabelsOk(labels, total)
    ensures LabelsOk(AddLabel(labels, v), total + 1)
  {
    var slot := if v in labels || |labels| < LABELS_PER_BUCKET then v else OVERFLOW;
    var more := labels[slot := CountOf(labels, slot) + 1];
    TotalSet(labels, slot, CountOf(labels, slot) + 1);
    assert more.Keys == labels.Keys + {slot};
    assert |more| == |more.Keys| && |labels| == |labels.Keys|;
  }

  /** How often `v` is among the names. */
  function Times(names: seq<string>, v: string): nat {
    if names == [] then 0
    else Times(names[..|names| - 1], v) + if names[|names| - 1] == v then 1 else 0
  }

  function TimesIn(names: seq<string>, among: set<string>): nat {
    if names == [] then 0
    else TimesIn(names[..|names| - 1], among) + if names[|names| - 1] in among then 1 else 0
  }

  /** The table of these names, in the order they came: a listed name was counted every
      time, and an unlisted one found the table full. */
  ghost predicate Tallies(labels: Labels, names: seq<string>) {
    && LabelsOk(labels, |names|)
    && forall v :: v != OVERFLOW ==>
         if v in labels then labels[v] == Times(names, v)
         else Times(names, v) > 0 ==> |labels| >= LABELS_PER_BUCKET
  }

  /** Every label is counted once more, under its own name or the overflow's, and there
      are never more than 41 names. */
  lemma AddLabelTallies(labels: Labels, names: seq<string>, v: string)
    requires Tallies(labels, names)
    ensures Tallies(AddLabel(labels, v), names + [v])
  {
    AddLabelOk(labels, v, |names|);
    assert (names + [v])[..|names|] == names;
    var more := AddLabel(labels, v);
    assert more.Keys >= labels.Keys;
    SubsetSize(labels.Keys, more.Keys);
    assert |more| == |more.Keys| && |labels| == |labels.Keys|;
  }

  lemma {:induction false} OneNameMore(names: seq<string>, among: set<string>, v: string)
    requires v in among
    ensures TimesIn(names, among) == Times(names, v) + TimesIn(names, among - {v})
  {
    if names != [] {
      OneNameMore(names[..|names| - 1], among, v);
    }
  }

  lemma {:induction false} NoName(names: seq<string>)
    ensures TimesIn(names, {}) == 0
  {
    if names != [] {
      NoName(names[..|names| - 1]);
    }
  }

  lemma {:induction false} TotalTimes(m: Labels, names: seq<string>)
    requires forall v :: v in m ==> m[v] == Times(names, v)
    ensures Total(m) == TimesIn(names, m.Keys)
    decreases |m.Keys|
  {
    if m.Keys == {} {
      NoName(names);
    } else {
      var v := Pick(m.Keys);
      assert (m - {v}).Keys == m.Keys - {v};
      TotalTimes(m - {v}, names);
      OneNameMore(names, m.Keys, v);
    }
  }

  /** The overflow's count is exactly what the listed names leave of all the labels. */
  lemma OverflowTakesTheRest(labels: Labels, names: seq<string>)
    requires Tallies(labels, names)
    ensures CountOf(labels, OVERFLOW) == |names| - TimesIn(names, labels.Keys - {OVERFLOW})
  {
    TotalSet(labels, OVERFLOW, 0);
    assert (labels - {OVERFLOW}).Keys == labels.Keys - {OVERFLOW};
    TotalTimes(labels - {OVERFLOW}, names);
  }

  // ---------- The buckets ----------

  type Buckets = map<int, Bucket>

  function SentAt(bs: Buckets, k: int): nat { if k in bs then bs[k].n else 0 }

  function FailedAt(bs: Buckets, k: int): nat { if k in bs then bs[k].f else 0 }

  function LeastKey(bs: Buckets): (k: int)
    requires |bs| > 0
    ensures k in bs && forall x :: x in bs ==> k <= x
  {
    LeastKeyExists(bs.Keys, Pick(bs.Keys));
    var k :| k in bs && forall x :: x in bs ==> k <= x;
    k
  }

  lemma {:induction false} LeastKeyExists(keys: set<int>, x: int)
    requires x in keys
    ensures exists m :: m in keys && forall y :: y in keys ==> m <= y
    decreases keys
  {
    assert forall y :: y in keys ==> y == x || y in keys - {x};
    if y :| y in keys - {x} {
      LeastKeyExists(keys - {x}, y);
      var m :| m in keys - {x} && forall y :: y in keys - {x} ==> m <= y;
      assert forall z :: z in keys ==> (if m < x then m else x) <= z;
    }
  }

  /** Oldest minutes out, by key. */
  function Evict(bs: Buckets): (r: Buckets)
    ensures |r| <= BUCKETS + 1
    ensures r.Keys <= bs.Keys && forall k :: k in r ==> r[k] == bs[k]
    decreases |bs|
  {
    if |bs| <= BUCKETS + 1 then bs
    else
      var k := LeastKey(bs);
      assert (bs - {k}).Keys == bs.Keys - {k};
      Evict(bs - {k})
  }

  function WithBucket(bs: Buckets, key: int): Buckets {
    if key in bs then bs else Evict(bs[key := NEW_BUCKET])
  }

  datatype Sent = Sent(ts: real, role: string, provider: string, model: string)

  function CountSend(b: Bucket, s: Sent): Bucket {
    b.(n := b.n + 1, roles := AddIfNamed(b.roles, s.role), provs := AddIfNamed(b.provs, s.provider),
       models := AddIfNamed(b.models, s.model))
  }

  function CountFail(b: Bucket, reason: string): Bucket {
    b.(f := b.f + 1, fails := AddLabel(b.fails, if reason == "" then "error" else Clip(reason)))
  }

  /** A bucket evicted on arrival is counted in by nobody. */
  function BumpSend(bs: Buckets, s: Sent): Buckets {
    var key := Minute(s.ts);
    var bs' := WithBucket(bs, key);
    if key in bs' then bs'[key := CountSend(bs'[key], s)] else bs'
  }

  function BumpFail(bs: Buckets, ts: real, reason: string): Buckets {
    var key := Minute(ts);
    var bs' := WithBucket(bs, key);
    if key in bs' then bs'[key := CountFail(bs'[key], reason)] else bs'
  }

  function Prune(bs: Buckets, now: real): Buckets {
    map k | k in bs && k >= Minute(now) - BUCKETS :: bs[k]
  }

  /** Is `ts` old enough to be in no reported minute? */
  predicate OutOfHistory(ts: real, now: real) { Minute(ts) < Minute(now) - (BUCKETS - 1) }

  // ---------- Against the full history ----------

  datatype Field = Role | Provider | Model

  function NameOf(s: Sent, field: Field): string {
    match field case Role => s.role case Provider => s.provider case Model => s.model
  }

  function TableOf(b: Bucket, field: Field): Labels {
    match field case Role => b.roles case Provider => b.provs case Model => b.models
  }

  /** Indices of the sends of minute `k`, and of those that failed. */
  function SentIn(sends: seq<Sent>, k: int): set<nat> {
    set i: nat | i < |sends| && Minute(sends[i].ts) == k
  }

  function FailedIn(sends: seq<Sent>, charged: set<nat>, k: int): set<nat> {
    set i: nat | i < |sends| && i in charged && Minute(sends[i].ts) == k
  }

  /** The labels sent in minute `k`, in order. */
  function LabelsIn(sends: seq<Sent>, field: Field, k: int): seq<string> {
    if sends == [] then []
    else
      var n := |sends| - 1;
      LabelsIn(sends[..n], field, k)
      + if Minute(sends[n].ts) == k && NameOf(sends[n], field) != "" then [Clip(NameOf(sends[n], field))] else []
  }

  predicate NoneNewer(bs: Buckets, newest: int) { forall k :: k in bs ==> k <= newest }

  ghost predicate CountsAgree(bs: Buckets, sends: seq<Sent>, charged: set<nat>, first: int) {
    && (forall k :: k >= first ==> SentAt(bs, k) == |SentIn(sends, k)|)
    && (forall k :: k >= first ==> FailedAt(bs, k) == |FailedIn(sends, charged, k)|)
  }

  ghost predicate LabelsAgree(bs: Buckets, sends: seq<Sent>, first: int) {
    && (forall k, field :: k >= first && k in bs ==>
          Tallies(TableOf(bs[k], field), LabelsIn(sends, field, k)))
    && (forall k :: k >= first && k in bs ==> LabelsOk(bs[k].fails, bs[k].f))
  }

  /** The first minute any window reads. */
  function First(now: real): int { Minute(now) - (BUCKETS - 1) }

  ghost predicate Faithful(bs: Buckets, sends: seq<Sent>, charged: set<nat>, now: real) {
    && NoneNewer(bs, Minute(now))
    && (forall i :: 0 <= i < |sends| ==> sends[i].ts <= now)
    && CountsAgree(bs, sends, charged, First(now))
    && LabelsAgree(bs, sends, First(now))
    && (forall k :: k !in bs && k >= First(now) ==> SentIn(sends, k) == {})
  }

  /** Eviction takes only minutes no window reads any more. */
  lemma {:induction false} EvictSparesTheWindow(bs: Buckets, newest: int)
    requires NoneNewer(bs, newest)
    ensures forall k :: k in bs && k > newest - BUCKETS - 1 ==> k in Evict(bs)
    decreases |bs|
  {
    if |bs| > BUCKETS + 1 {
      var least := LeastKey(bs);
      SizeOfRange(bs.Keys, least, newest);
      assert (bs - {least}).Keys == bs.Keys - {least};
      EvictSparesTheWindow(bs - {least}, newest);
    }
  }

  lemma MinuteMonotone(a: real, b: real)
    requires a <= b
    ensures Minute(a) <= Minute(b)
  {
  }

  /** Later clocks read fewer minutes. */
  lemma FaithfulLater(bs: Buckets, sends: seq<Sent>, charged: set<nat>, now: real, later: real)
    requires Faithful(bs, sends, charged, now) && now <= later
    ensures Faithful(bs, sends, charged, later)
  {
    MinuteMonotone(now, later);
  }

  lemma {:induction false} NoneSentNoLabels(sends: seq<Sent>, field: Field, k: int)
    requires SentIn(sends, k) == {}
    ensures LabelsIn(sends, field, k) == []
  {
    if sends != [] {
      var n := |sends| - 1;
      assert n !in SentIn(sends, k);
      assert SentIn(sends[..n], k) <= SentIn(sends, k);
      NoneSentNoLabels(sends[..n], field, k);
    }
  }

  /** What a minute's bucket, made if missing, displaces: nothing a window reads. */
  lemma WithBucketKeeps(bs: Buckets, newest: int, key: int)
    requires NoneNewer(bs, newest) && newest - BUCKETS < key <= newest
    ensures var bs' := WithBucket(bs, key);
            && key in bs' && NoneNewer(bs', newest)
            && (forall k :: k in bs' ==> bs'[k] == if k in bs then bs[k] else NEW_BUCKET)
            && (forall k :: k in bs' ==> k in bs || k == key)
            && (forall k :: k in bs && k > newest - BUCKETS - 1 ==> k in bs')
  {
    if key !in bs {
      EvictSparesTheWindow(bs[key := NEW_BUCKET], newest);
    }
  }

  lemma NothingSentNothingNoted(sends: seq<Sent>, k: int)
    requires SentIn(sends, k) == {}
    ensures forall field :: LabelsIn(sends, field, k) == []
    ensures Total<string>(map[]) == 0
  {
    forall field ensures LabelsIn(sends, field, k) == [] {
      NoneSentNoLabels(sends, field, k);
    }
  }

  lemma WithBucketFaithful(bs: Buckets, sends: seq<Sent>, charged: set<nat>, now: real, key: int)
    requires Faithful(bs, sends, charged, now) && First(now) <= key <= Minute(now)
    ensures var bs' := WithBucket(bs, key);
            && key in bs' && NoneNewer(bs', Minute(now))
            && CountsAgree(bs', sends, charged, First(now)) && LabelsAgree(bs', sends, First(now))
            && (forall k :: k !in bs' && k >= First(now) ==> SentIn(sends, k) == {})
  {
    if key !in bs {
      WithBucketKeeps(bs, Minute(now), key);
      NothingSentNothingNoted(sends, key);
    }
  }

  predicate Indices(charged: set<nat>, sends: seq<Sent>) { forall i :: i in charged ==> i < |sends| }

  lemma SentAppend(sends: seq<Sent>, s: Sent, charged: set<nat>, k: int)
    requires Indices(charged, sends)
    ensures |SentIn(sends + [s], k)| == |SentIn(sends, k)| + if Minute(s.ts) == k then 1 else 0
    ensures FailedIn(sends + [s], charged, k) == FailedIn(sends, charged, k)
  {
    assert SentIn(sends + [s], k) == SentIn(sends, k) + if Minute(s.ts) == k then {|sends|} else {};
  }

  lemma LabelsAppend(sends: seq<Sent>, s: Sent, field: Field, k: int)
    ensures LabelsIn(sends + [s], field, k)
         == if Minute(s.ts) == k && NameOf(s, field) != "" then LabelsIn(sends, field, k) + [Clip(NameOf(s, field))]
            else LabelsIn(sends, field, k)
  {
    assert (sends + [s])[..|sends|] == sends;
  }

  lemma SendCounts(bs: Buckets, sends: seq<Sent>, charged: set<nat>, s: Sent, first: int)
    requires CountsAgree(bs, sends, charged, first) && Minute(s.ts) in bs && Indices(charged, sends)
    ensures CountsAgree(bs[Minute(s.ts) := CountSend(bs[Minute(s.ts)], s)], sends + [s], charged, first)
  {
    forall k {
      SentAppend(sends, s, charged, k);
    }
  }

  lemma SendLabels(bs: Buckets, sends: seq<Sent>, s: Sent, first: int)
    requires LabelsAgree(bs, sends, first) && Minute(s.ts) in bs
    ensures LabelsAgree(bs[Minute(s.ts) := CountSend(bs[Minute(s.ts)], s)], sends + [s], first)
  {
    var key := Minute(s.ts);
    var bs' := bs[key := CountSend(bs[key], s)];
    forall k, field | k >= first && k in bs'
      ensures Tallies(TableOf(bs'[k], field), LabelsIn(sends + [s], field, k))
    {
      LabelsAppend(sends, s, field, k);
      if k == key && NameOf(s, field) != "" {
        AddLabelTallies(TableOf(bs[k], field), LabelsIn(sends, field, k), Clip(NameOf(s, field)));
      }
    }
  }

  /** One send keeps every reported minute equal to the count of the history. */
  lemma SendStaysFaithful(bs: Buckets, sends: seq<Sent>, charged: set<nat>, s: Sent)
    requires Faithful(bs, sends, charged, s.ts) && Indices(charged, sends)
    ensures Faithful(BumpSend(bs, s), sends + [s], charged, s.ts)
  {
    var key := Minute(s.ts);
    var with := WithBucket(bs, key);
    WithBucketFaithful(bs, sends, charged, s.ts, key);
    SendCounts(with, sends, charged, s, First(s.ts));
    SendLabels(with, sends, s, First(s.ts));
    forall k | k !in with && k >= First(s.ts) ensures SentIn(sends + [s], k) == {} {
      SentAppend(sends, s, charged, k);
    }
  }

  lemma FailCounts(bs: Buckets, sends: seq<Sent>, charged: set<nat>, i: nat, reason: string, first: int)
    requires CountsAgree(bs, sends, charged, first) && i < |sends| && i !in charged && Minute(sends[i].ts) in bs
    ensures CountsAgree(bs[Minute(sends[i].ts) := CountFail(bs[Minute(sends[i].ts)], reason)], sends, charged + {i}, first)
  {
    forall k
      ensures |FailedIn(sends, charged + {i}, k)|
           == |FailedIn(sends, charged, k)| + if k == Minute(sends[i].ts) then 1 else 0
    {
      assert FailedIn(sends, charged + {i}, k)
          == FailedIn(sends, charged, k) + if k == Minute(sends[i].ts) then {i} else {};
    }
  }

  lemma FailLabels(bs: Buckets, sends: seq<Sent>, key: int, reason: string, first: int)
    requires LabelsAgree(bs, sends, first) && key in bs && key >= first
    ensures LabelsAgree(bs[key := CountFail(bs[key], reason)], sends, first)
  {
    AddLabelOk(bs[key].fails, if reason == "" then "error" else Clip(reason), bs[key].f);
    var bs' := bs[key := CountFail(bs[key], reason)];
    forall k, field | k >= first && k in bs'
      ensures Tallies(TableOf(bs'[k], field), LabelsIn(sends, field, k))
    {
      assert TableOf(bs'[k], field) == TableOf(bs[k], field);
    }
  }

  /** One charged failure likewise. */
  lemma FailStaysFaithful(bs: Buckets, sends: seq<Sent>, charged: set<nat>, i: nat, reason: string, now: real)
    requires Faithful(bs, sends, charged, now) && i < |sends| && i !in charged
    requires !OutOfHistory(sends[i].ts, now)
    ensures Faithful(BumpFail(bs, sends[i].ts, reason), sends, charged + {i}, now)
  {
    var key := Minute(sends[i].ts);
    MinuteMonotone(sends[i].ts, now);
    var with := WithBucket(bs, key);
    WithBucketFaithful(bs, sends, charged, now, key);
    FailCounts(with, sends, charged, i, reason, First(now));
    FailLabels(with, sends, key, reason, First(now));
  }

  lemma PruneStaysFaithful(bs: Buckets, sends: seq<Sent>, charged: set<nat>, now: real)
    requires Faithful(bs, sends, charged, now)
    ensures Faithful(Prune(bs, now), sends, charged, now)
  {
  }

  // ---------- What the windows report ----------

  /** `sum(b["n"] for k, b in buckets if k >= first)`, and the same of failures. */
  ghost function SentSince(bs: Buckets, first: int): nat {
    Total(map k | k in bs && k >= first :: bs[k].n)
  }

  ghost function FailedSince(bs: Buckets, first: int): nat {
    Total(map k | k in bs && k >= first :: bs[k].f)
  }

  function FirstOf(now: real, minutes: nat): int { Minute(now) - (minutes - 1) }

  /** Those of `chosen` sent in one of the minutes `keys`. */
  function ChosenIn(sends: seq<Sent>, chosen: set<nat>, keys: set<int>): set<nat> {
    set i: nat | i < |sends| && i in chosen && Minute(sends[i].ts) in keys
  }

  function ChosenSince(sends: seq<Sent>, chosen: set<nat>, first: int): set<nat> {
    set i: nat | i < |sends| && i in chosen && Minute(sends[i].ts) >= first
  }

  function AllOf(sends: seq<Sent>): set<nat> { set i: nat | i < |sends| && sends[i] == sends[i] }

  lemma {:induction false} TotalCounts(m: map<int, nat>, sends: seq<Sent>, chosen: set<nat>)
    requires forall k :: k in m ==> m[k] == |FailedIn(sends, chosen, k)|
    ensures Total(m) == |ChosenIn(sends, chosen, m.Keys)|
    decreases |m.Keys|
  {
    if m.Keys == {} {
      assert ChosenIn(sends, chosen, m.Keys) == {};
    } else {
      var k := Pick(m.Keys);
      assert (m - {k}).Keys == m.Keys - {k};
      TotalCounts(m - {k}, sends, chosen);
      assert ChosenIn(sends, chosen, m.Keys) == FailedIn(sends, chosen, k) + ChosenIn(sends, chosen, m.Keys - {k});
      assert FailedIn(sends, chosen, k) !! ChosenIn(sends, chosen, m.Keys - {k});
    }
  }

  /** `last_15m`, `last_60m` and every window between count the full history's sends
      of those whole minutes, and the failures charged to them. */
  lemma WindowsCountTheHistory(bs: Buckets, sends: seq<Sent>, charged: set<nat>, now: real, minutes: nat)
    requires Faithful(bs, sends, charged, now) && 1 <= minutes <= BUCKETS
    ensures SentSince(bs, FirstOf(now, minutes)) == |ChosenSince(sends, AllOf(sends), FirstOf(now, minutes))|
    ensures FailedSince(bs, FirstOf(now, minutes)) == |ChosenSince(sends, charged, FirstOf(now, minutes))|
  {
    var first := FirstOf(now, minutes);
    var n := map k | k in bs && k >= first :: bs[k].n;
    var f := map k | k in bs && k >= first :: bs[k].f;
    forall k | k in n ensures n[k] == |FailedIn(sends, AllOf(sends), k)| && f[k] == |FailedIn(sends, charged, k)| {
      assert SentAt(bs, k) == n[k] && FailedAt(bs, k) == f[k];
      assert FailedIn(sends, AllOf(sends), k) == SentIn(sends, k);
    }
    TotalCounts(n, sends, AllOf(sends));
    TotalCounts(f, sends, charged);
    forall i: nat | i < |sends| && Minute(sends[i].ts) >= first ensures Minute(sends[i].ts) in n.Keys {
      assert i in SentIn(sends, Minute(sends[i].ts));
    }
    assert ChosenIn(sends, AllOf(sends), n.Keys) == ChosenSince(sends, AllOf(sends), first);
    assert ChosenIn(sends, charged, f.Keys) == ChosenSince(sends, charged, first);
  }

  /** Failures are a subset of requests in every reported minute and window. */
  lemma FailuresWithinRequests(bs: Buckets, sends: seq<Sent>, charged: set<nat>, now: real, minutes: nat)
    requires Faithful(bs, sends, charged, now) && 1 <= minutes <= BUCKETS
    ensures forall k :: k >= First(now) ==> FailedAt(bs, k) <= SentAt(bs, k)
    ensures FailedSince(bs, FirstOf(now, minutes)) <= SentSince(bs, FirstOf(now, minutes))
  {
    var first := FirstOf(now, minutes);
    WindowsCountTheHistory(bs, sends, charged, now, minutes);
    SubsetSize(ChosenSince(sends, charged, first), ChosenSince(sends, AllOf(sends), first));
    forall k | k >= First(now) ensures FailedAt(bs, k) <= SentAt(bs, k) {
      SubsetSize(FailedIn(sends, charged, k), SentIn(sends, k));
    }
  }
}
