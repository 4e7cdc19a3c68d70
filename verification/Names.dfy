/** The order Python sorts names by, and a set of names in that order. */
module Names {

  import opened Wrappers

  /** a <= b, character by character. */
  predicate Precedes(a: string, b: string) {
    a == "" || (b != "" && (a[0] < b[0] || (a[0] == b[0] && Precedes(a[1..], b[1..]))))
  }

  /** Alike up to some place, and `a` lower there. */
  ghost predicate Differ(a: string, b: string) {
    exists k :: 0 <= k < |a| && k < |b| && a[..k] == b[..k] && a[k] < b[k]
  }

  /** The first place where the two differ, and both go on, decides; failing that the
      shorter comes first. */
  lemma {:induction false} PrecedesIff(a: string, b: string)
    ensures Precedes(a, b) <==> a <= b || Differ(a, b)
  {
    if a != "" && b != "" {
      if a[0] == b[0] {
        PrecedesIff(a[1..], b[1..]);
        TailsDiffer(a, b);
      } else {
        HeadsDiffer(a, b);
      }
    }
  }

  lemma HeadsDiffer(a: string, b: string)
    requires a != "" && b != "" && a[0] != b[0]
    ensures Differ(a, b) <==> a[0] < b[0]
  {
    assert a[..0] == b[..0];
    assert forall k :: 0 < k < |a| && k < |b| ==> a[..k][0] == a[0] && b[..k][0] == b[0];
  }

  lemma TailsDiffer(a: string, b: string)
    requires a != "" && b != "" && a[0] == b[0]
    ensures a <= b <==> a[1..] <= b[1..]
    ensures Differ(a, b) <==> Differ(a[1..], b[1..])
  {
    if k :| 0 <= k < |a| && k < |b| && a[..k] == b[..k] && a[k] < b[k] {
      var i := k - 1;
      assert a[..k] == [a[0]] + a[1..][..i] && b[..k] == [b[0]] + b[1..][..i];
      assert a[1..][..i] == a[..k][1..] && b[1..][..i] == b[..k][1..];
      assert a[1..][i] < b[1..][i];
    }
    if k :| 0 <= k < |a[1..]| && k < |b[1..]| && a[1..][..k] == b[1..][..k] && a[1..][k] < b[1..][k] {
      assert a[..k + 1] == [a[0]] + a[1..][..k] && b[..k + 1] == [b[0]] + b[1..][..k];
    }
  }

  lemma {:induction false} Total(a: string, b: string)
    ensures Precedes(a, b) || Precedes(b, a)
  {
    if a != "" && b != "" && a[0] == b[0] {
      Total(a[1..], b[1..]);
    }
  }

  lemma {:induction false} Antisymmetric(a: string, b: string)
    requires Precedes(a, b) && Precedes(b, a)
    ensures a == b
  {
    if a != "" && b != "" {
      Antisymmetric(a[1..], b[1..]);
      assert a == [a[0]] + a[1..] && b == [b[0]] + b[1..];
    }
  }

  lemma {:induction false} Transitive(a: string, b: string, c: string)
    requires Precedes(a, b) && Precedes(b, c)
    ensures Precedes(a, c)
  {
    if a != "" && a[0] == b[0] && b[0] == c[0] {
      Transitive(a[1..], b[1..], c[1..]);
    }
  }

  ghost predicate IsFirst(x: string, s: set<string>) { x in s && forall y :: y in s ==> Precedes(x, y) }

  lemma {:induction false} FirstExists(s: set<string>, x: string) returns (m: string)
    requires x in s
    ensures IsFirst(m, s)
    decreases |s|
  {
    var rest := s - {x};
    m := x;
    Total(x, x);
    assert forall y :: y in s ==> y == x || y in rest;
    if rest != {} {
      var n := FirstExists(rest, Pick(rest));
      Total(n, x);
      if Precedes(n, x) {
        m := n;
      } else {
        forall y | y in rest ensures Precedes(x, y) {
          Transitive(x, n, y);
        }
      }
    }
  }

  lemma SomeFirst(s: set<string>)
    requires s != {}
    ensures exists m :: IsFirst(m, s)
  {
    var m := FirstExists(s, Pick(s));
  }

  ghost function First(s: set<string>): (m: string)
    requires s != {}
    ensures IsFirst(m, s)
  {
    SomeFirst(s);
    var m :| IsFirst(m, s);
    m
  }

  /** sorted(s). */
  ghost function Ascending(s: set<string>): (r: seq<string>)
    ensures |r| == |s| && forall x :: x in r <==> x in s
    decreases |s|
  {
    if s == {} then [] else [First(s)] + Ascending(s - {First(s)})
  }

  predicate InOrder(r: seq<string>) { forall i, j :: 0 <= i < j < |r| ==> Precedes(r[i], r[j]) && r[i] != r[j] }

  lemma {:induction false} AscendingInOrder(s: set<string>)
    ensures InOrder(Ascending(s))
    decreases |s|
  {
    if s != {} {
      var m := First(s);
      AscendingInOrder(s - {m});
      FirstLeads(m, Ascending(s - {m}), s);
    }
  }

  lemma FirstLeads(m: string, rest: seq<string>, s: set<string>)
    requires IsFirst(m, s) && InOrder(rest) && forall x :: x in rest <==> x in s - {m}
    ensures InOrder([m] + rest)
  {
    forall j | 0 <= j < |rest| ensures Precedes(m, rest[j]) && m != rest[j] {
      assert rest[j] in rest;
    }
  }

  /** There is one such order: any arrangement of the set in order is `Ascending`. */
  lemma {:induction false} OnlyOneOrder(r: seq<string>, s: set<string>)
    requires InOrder(r) && forall x :: x in r <==> x in s
    ensures r == Ascending(s)
    decreases |s|
  {
    if r == [] {
      assert s == {};
    } else {
      assert r[0] in s;
      var m := First(s);
      assert m in r;
      var k :| 0 <= k < |r| && r[k] == m;
      if k > 0 {
        Antisymmetric(r[0], m);
      }
      var t := s - {m};
      assert r == [m] + r[1..];
      forall x ensures x in r[1..] <==> x in t {
        if x in r[1..] {
          var j :| 0 <= j < |r| - 1 && r[1..][j] == x;
          assert r[0] != r[j + 1];
        }
      }
      OnlyOneOrder(r[1..], t);
    }
  }

  /** sorted() of a duplicate-free list, by insertion. */
  method Sort(names: seq<string>) returns (r: seq<string>)
    requires forall i, j :: 0 <= i < j < |names| ==> names[i] != names[j]
    ensures r == Ascending(set x | x in names)
  {
    r := [];
    for i := 0 to |names|
      invariant InOrder(r) && forall x :: x in r <==> x in names[..i]
    {
      var k := Place(r, names[i]);
      InsertInOrder(r, names[i], k);
      r := r[..k] + [names[i]] + r[k..];
      assert names[..i + 1] == names[..i] + [names[i]];
    }
    assert names[..|names|] == names;
    OnlyOneOrder(r, set x | x in names);
  }

  method Place(r: seq<string>, x: string) returns (k: nat)
    requires InOrder(r) && x !in r
    ensures k <= |r|
    ensures forall j :: 0 <= j < k ==> Precedes(r[j], x)
    ensures forall j :: k <= j < |r| ==> Precedes(x, r[j])
  {
    k := 0;
    while k < |r| && Precedes(r[k], x)
      invariant k <= |r| && forall j :: 0 <= j < k ==> Precedes(r[j], x)
    {
      k := k + 1;
    }
    forall j | k <= j < |r| ensures Precedes(x, r[j]) {
      Total(x, r[k]);
      if j > k {
        Transitive(x, r[k], r[j]);
      }
    }
  }

  lemma InsertInOrder(r: seq<string>, x: string, k: nat)
    requires InOrder(r) && x !in r && k <= |r|
    requires forall j :: 0 <= j < k ==> Precedes(r[j], x)
    requires forall j :: k <= j < |r| ==> Precedes(x, r[j])
    ensures var t := r[..k] + [x] + r[k..];
            InOrder(t) && forall y :: y in t <==> y in r || y == x
  {
    var t := r[..k] + [x] + r[k..];
    forall i, j | 0 <= i < j < |t| ensures Precedes(t[i], t[j]) && t[i] != t[j] {
      if i < k < j {
        assert t[i] == r[i] && t[j] == r[j - 1];
      }
    }
    assert r == r[..k] + r[k..];
  }
}
