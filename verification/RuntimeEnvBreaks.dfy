/** What values that hold line separators do to `runtime.env`: the writer breaks lines
    where the loader does not (`RuntimeEnv`), so the next save of any key cuts them, and
    what is cut off stands as lines of its own. */
module RuntimeEnvBreaks {

  import opened Wrappers
  import opened RuntimeEnv

  // ---------- Cutting ----------

  /** The lines the writer makes of one it wrote. */
  function Pieces(line: string): seq<string> { Split(line + "\n", IsBreak) }

  function Cut(lines: seq<string>): seq<string> { if lines == [] then [] else Pieces(lines[0]) + Cut(lines[1..]) }

  ghost predicate NoReturns(line: string) { forall i :: 0 <= i < |line| ==> line[i] != '\r' && line[i] != '\n' }

  lemma {:induction false} SplitOne(line: string, c: char, rest: string, breaks: char -> bool)
    requires Unbroken(line, breaks) && breaks(c)
    ensures Split(line + [c] + rest, breaks) == [line] + Split(rest, breaks)
  {
    var text := line + [c] + rest;
    FindIs(text, breaks, |line|);
    assert text[..|line|] == line && text[|line| + 1..] == rest;
  }

  /** A text up to a separator, that, and the rest. */
  lemma {:induction false} SplitAfter(line: string, c: char, tail: string, text: string)
    requires Unbroken(line, IsBreak) && IsBreak(c) && text == line + [c] + tail
    ensures Split(text, IsBreak) == [line] + Split(tail, IsBreak)
  {
    SplitOne(line, c, tail, IsBreak);
  }

  lemma {:induction false} Decomposed(value: string) returns (front: string, c: char, tail: string)
    requires Find(value, IsBreak) < |value|
    ensures value == front + [c] + tail && front == value[..Find(value, IsBreak)] && |tail| < |value|
    ensures Unbroken(front, IsBreak) && IsBreak(c)
  {
    var n := Find(value, IsBreak);
    front, c, tail := value[..n], value[n], value[n + 1..];
  }

  lemma {:induction false} PieceAndRest(front: string, c: char, tail: string)
    requires Unbroken(front, IsBreak) && IsBreak(c)
    ensures Pieces(front + [c] + tail) == [front] + Pieces(tail)
  {
    SplitAfter(front, c, tail + "\n", front + [c] + tail + "\n");
  }

  lemma {:induction false} UnbrokenPiece(line: string)
    requires Unbroken(line, IsBreak)
    ensures Pieces(line) == [line]
  {
    SplitAfter(line, '\n', "", line + "\n");
  }

  lemma {:induction false} UnbrokenIff(line: string)
    ensures Find(line, IsBreak) == |line| ==> Unbroken(line, IsBreak) && line[..|line|] == line
  {
  }

  lemma {:induction false} Regroup(front: string, c: char, tail: string, rest: string)
    ensures (front + [c] + tail) + "\n" + rest == front + [c] + (tail + "\n" + rest)
  {
  }

  lemma {:induction false} OneMore(line: string, a: seq<string>, b: seq<string>)
    ensures [line] + (a + b) == ([line] + a) + b
  {
  }

  lemma {:induction false} BrokenAppend(front: string, c: char, tail: string, rest: string)
    requires Unbroken(front, IsBreak) && IsBreak(c)
    requires Split(tail + "\n" + rest, IsBreak) == Pieces(tail) + Split(rest, IsBreak)
    ensures Split((front + [c] + tail) + "\n" + rest, IsBreak) == Pieces(front + [c] + tail) + Split(rest, IsBreak)
  {
    PieceAndRest(front, c, tail);
    Regroup(front, c, tail, rest);
    SplitAfter(front, c, tail + "\n" + rest, (front + [c] + tail) + "\n" + rest);
    OneMore(front, Pieces(tail), Split(rest, IsBreak));
  }

  lemma {:induction false} SplitAppend(a: string, rest: string)
    ensures Split(a + "\n" + rest, IsBreak) == Pieces(a) + Split(rest, IsBreak)
    decreases |a|
  {
    if Find(a, IsBreak) == |a| {
      UnbrokenPiece(a);
      SplitAfter(a, '\n', rest, a + "\n" + rest);
    } else {
      var front, c, tail := Decomposed(a);
      SplitAppend(tail, rest);
      BrokenAppend(front, c, tail, rest);
    }
  }

  lemma {:induction false} SplitIsCut(lines: seq<string>)
    ensures Split(Joined(lines), IsBreak) == Cut(lines)
  {
    if lines != [] {
      SplitAppend(lines[0], Joined(lines[1..]));
      SplitIsCut(lines[1..]);
    }
  }

  lemma {:induction false} PiecesAreUnbroken(line: string)
    ensures forall i :: 0 <= i < |Pieces(line)| ==> Unbroken(Pieces(line)[i], IsBreak)
  {
    SplitsAreUnbroken(line + "\n", IsBreak);
  }

  /** A written line loses to its first piece all after its value's first separator. */
  lemma {:induction false} LinePieces(key: string, value: string)
    requires IsName(key)
    ensures Pieces(value) != []
    ensures Pieces(Line(key, value)) == [Line(key, value[..Find(value, IsBreak)])] + Pieces(value)[1..]
  {
    if Find(value, IsBreak) == |value| {
      UnbrokenIff(value);
      LineUnbroken(key, value);
      UnbrokenPiece(value);
      UnbrokenPiece(Line(key, value));
    } else {
      var front, c, tail := Decomposed(value);
      LineUnbroken(key, front);
      PieceAndRest(front, c, tail);
      PieceAndRest(Line(key, front), c, tail);
      assert Line(key, value) == Line(key, front) + [c] + tail;
    }
  }

  // ---------- Any saves at all ----------

  ghost predicate AllPlain(lines: seq<string>) { forall i :: 0 <= i < |lines| ==> NoReturns(lines[i]) }

  /** The lines of the file as last written: each save first cuts the lines before it. */
  function Written(calls: seq<Call>): seq<string> {
    if calls == [] then []
    else
      var c := calls[|calls| - 1];
      var before := Written(calls[..|calls| - 1]);
      if KeyOf(c.key) == "" then before else Upsert(Cut(before), KeyOf(c.key), OneLine(c.value))
  }

  lemma {:induction false} FileReads(lines: seq<string>)
    requires AllPlain(lines)
    ensures LinesOf(Some(Joined(lines))) == Cut(lines)
    ensures Split(Translated(Joined(lines)), IsNewline) == lines
  {
    JoinedNoReturns(lines);
    TranslatedPlain(Joined(lines));
    SplitIsCut(lines);
    ReadersDisagreeIffBroken(lines);
  }

  lemma {:induction false} CutIsPlain(lines: seq<string>)
    ensures AllPlain(Cut(lines)) && forall i :: 0 <= i < |Cut(lines)| ==> Unbroken(Cut(lines)[i], IsBreak)
  {
    if lines != [] {
      PiecesAreUnbroken(lines[0]);
      CutIsPlain(lines[1..]);
    }
  }

  lemma {:induction false} UpsertHas(lines: seq<string>, key: string, value: string, line: string)
    requires line in Upsert(lines, key, value)
    ensures line in lines || line == Line(key, value)
  {
    if lines != [] && !SetsKey(lines[0], key) && line != lines[0] {
      UpsertHas(lines[1..], key, value, line);
    }
  }

  lemma {:induction false} UpsertIsPlain(lines: seq<string>, key: string, value: string)
    requires AllPlain(lines) && IsName(key) && NoReturns(value)
    ensures AllPlain(Upsert(lines, key, value)) && Upsert(lines, key, value) != []
  {
    forall i | 0 <= i < |Upsert(lines, key, value)| ensures NoReturns(Upsert(lines, key, value)[i]) {
      UpsertHas(lines, key, value, Upsert(lines, key, value)[i]);
    }
  }

  /** After any saves of any values the file holds these lines, and they are what the
      loader reads, one by one. */
  lemma {:induction false} RunIsWritten(calls: seq<Call>, env: Env)
    ensures AllPlain(Written(calls))
    ensures Run(calls) == if Written(calls) == [] then None else Some(Joined(Written(calls)))
    ensures Loaded(env, Run(calls)) == AppliedAll(env, ParsedAll(Written(calls)), KeepPg(env)).env
  {
    if calls != [] {
      var n := |calls| - 1;
      var key, before := KeyOf(calls[n].key), Written(calls[..n]);
      RunIsWritten(calls[..n], env);
      if key != "" {
        WriteOnce(before, key, OneLine(calls[n].value));
        WrittenLoads(Upsert(Cut(before), key, OneLine(calls[n].value)), env);
      }
    }
  }

  lemma {:induction false} WrittenLoads(lines: seq<string>, env: Env)
    requires AllPlain(lines)
    ensures Loaded(env, Some(Joined(lines))) == AppliedAll(env, ParsedAll(lines), KeepPg(env)).env
  {
    FileReads(lines);
  }

  lemma {:induction false} WriteOnce(before: seq<string>, key: string, value: string)
    requires AllPlain(before) && IsName(key) && NoReturns(value)
    ensures LinesOf(if before == [] then None else Some(Joined(before))) == Cut(before)
    ensures AllPlain(Upsert(Cut(before), key, value)) && Upsert(Cut(before), key, value) != []
  {
    FileReads(before);
    CutIsPlain(before);
    UpsertIsPlain(Cut(before), key, value);
  }

  // ---------- Whether a value survives ----------

  function NonSpaces(s: string): nat {
    if s == "" then 0 else NonSpaces(s[..|s| - 1]) + if IsSpace(s[|s| - 1]) then 0 else 1
  }

  lemma {:induction false} NonSpacesConcat(a: string, b: string)
    ensures NonSpaces(a + b) == NonSpaces(a) + NonSpaces(b)
  {
    if b == "" {
      assert a + b == a;
    } else {
      assert (a + b)[..|a + b| - 1] == a + b[..|b| - 1];
      NonSpacesConcat(a, b[..|b| - 1]);
    }
  }

  lemma {:induction false} NonSpacesNone(s: string)
    ensures NonSpaces(s) == 0 <==> forall i :: 0 <= i < |s| ==> IsSpace(s[i])
  {
    if s != "" {
      var front := s[..|s| - 1];
      NonSpacesNone(front);
      assert forall i :: 0 <= i < |front| ==> front[i] == s[i];
    }
  }

  lemma {:induction false} StripRightCounts(s: string)
    ensures NonSpaces(StripRight(s)) == NonSpaces(s)
  {
    if s != "" && IsSpace(s[|s| - 1]) {
      StripRightCounts(s[..|s| - 1]);
    }
  }

  lemma {:induction false} StripLeftCounts(s: string)
    ensures NonSpaces(StripLeft(s)) == NonSpaces(s)
  {
    if s != "" && IsSpace(s[0]) {
      assert s == [s[0]] + s[1..];
      NonSpacesConcat([s[0]], s[1..]);
      NonSpacesNone([s[0]]);
      StripLeftCounts(s[1..]);
    }
  }

  lemma {:induction false} StripCounts(s: string)
    ensures NonSpaces(Strip(s)) == NonSpaces(s)
  {
    StripRightCounts(s);
    StripLeftCounts(StripRight(s));
  }

  lemma {:induction false} StripRightDrops(s: string, n: nat)
    requires n <= |s| && forall i :: n <= i < |s| ==> IsSpace(s[i])
    ensures StripRight(s) == StripRight(s[..n])
  {
    if n < |s| {
      StripRightDrops(s[..|s| - 1], n);
      assert s[..|s| - 1][..n] == s[..n];
    } else {
      assert s[..n] == s;
    }
  }

  /** Cut short, a value is stripped to the same if and only if only space is lost. */
  lemma {:induction false} SameStrippedIff(s: string, n: nat)
    requires n <= |s|
    ensures Strip(s[..n]) == Strip(s) <==> forall i :: n <= i < |s| ==> IsSpace(s[i])
  {
    if forall i :: n <= i < |s| ==> IsSpace(s[i]) {
      StripRightDrops(s, n);
    } else {
      assert s == s[..n] + s[n..];
      NonSpacesConcat(s[..n], s[n..]);
      var i :| n <= i < |s| && !IsSpace(s[i]);
      assert s[n..][i - n] == s[i];
      NonSpacesNone(s[n..]);
      StripCounts(s);
      StripCounts(s[..n]);
    }
  }

  lemma {:induction false} CutConcat(a: seq<string>, b: seq<string>)
    ensures Cut(a + b) == Cut(a) + Cut(b)
  {
    if a == [] {
      assert a + b == b;
    } else {
      assert (a + b)[1..] == a[1..] + b;
      CutConcat(a[1..], b);
    }
  }

  lemma {:induction false} CutUnbroken(lines: seq<string>)
    requires forall i :: 0 <= i < |lines| ==> Unbroken(lines[i], IsBreak)
    ensures Cut(lines) == lines
  {
    if lines != [] {
      UnbrokenPiece(lines[0]);
      CutUnbroken(lines[1..]);
    }
  }

  lemma {:induction false} CutOne(line: string)
    ensures Cut([line]) == Pieces(line)
  {
    assert [line][1..] == [];
  }

  /** Where the saved line was, its value's first piece is left. */
  lemma {:induction false} CutAt(lines: seq<string>, key: string, value: string, pos: nat)
    requires IsName(key) && pos <= |lines| && forall i :: 0 <= i < pos ==> Unbroken(lines[i], IsBreak)
    requires pos < |lines| && lines[pos] == Line(key, value)
    ensures var cut := Cut(lines);
            pos < |cut| && cut[..pos] == lines[..pos] && cut[pos] == Line(key, value[..Find(value, IsBreak)])
  {
    var rest := lines[pos..];
    assert lines == lines[..pos] + rest;
    CutConcat(lines[..pos], rest);
    CutUnbroken(lines[..pos]);
    LinePieces(key, value);
  }

  lemma {:induction false} PlaceExists(lines: seq<string>, key: string) returns (pos: nat)
    ensures IsPlace(lines, key, pos)
  {
    pos := 0;
    while pos < |lines| && !SetsKey(lines[pos], key)
      invariant pos <= |lines| && forall j :: 0 <= j < pos ==> !SetsKey(lines[j], key)
    {
      pos := pos + 1;
    }
  }

  /** Over any file: the next save of another key cuts the saved line at its value's first
      separator, and of the lines above rewrites at most its own. */
  lemma {:induction false} NextSaveCutsTheLine(lines: seq<string>, key: string, value: string, pos: nat, other: string, next: string)
    requires IsName(key) && IsName(other) && key != other && IsPlace(lines, key, pos)
    requires forall i :: 0 <= i < |lines| ==> Unbroken(lines[i], IsBreak)
    ensures var twice := Upsert(Cut(Upsert(lines, key, value)), other, next);
            && pos < |twice| && twice[pos] == Line(key, value[..Find(value, IsBreak)])
            && forall i :: 0 <= i < pos ==>
                 twice[i] == if IsPlace(lines, other, i) then Line(other, next) else lines[i]
  {
    var once := Upsert(lines, key, value);
    UpsertAt(lines, key, value, pos);
    CutAt(once, key, value, pos);
    SetsKeyIff(key, value[..Find(value, IsBreak)], other);
    OneLineChanges(Cut(once), lines, other, next, pos);
  }

  lemma {:induction false} OneLineChanges(cut: seq<string>, lines: seq<string>, other: string, next: string, pos: nat)
    requires pos < |cut| && pos <= |lines| && cut[..pos] == lines[..pos] && !SetsKey(cut[pos], other)
    ensures var twice := Upsert(cut, other, next);
            && pos < |twice| && twice[pos] == cut[pos]
            && forall i :: 0 <= i < pos ==>
                 twice[i] == if IsPlace(lines, other, i) then Line(other, next) else lines[i]
  {
    assert forall i :: 0 <= i < pos ==> cut[i] == cut[..pos][i] == lines[..pos][i] == lines[i];
    var at := PlaceExists(cut, other);
    UpsertAt(cut, other, next, at);
    assert at != pos;
    forall i | 0 <= i < pos ensures i == at <==> IsPlace(lines, other, i) {
    }
  }

  lemma {:induction false} TwoSaves(env: Env, rawKey: string, rawValue: string, other: string, next: string)
    requires KeyOf(rawKey) != "" && KeyOf(other) != ""
    ensures var calls := [Call(rawKey, rawValue), Call(other, next)];
            && Run(calls) == Persisted(Persisted(None, rawKey, rawValue), other, next)
            && Written(calls) == Upsert(Pieces(Line(KeyOf(rawKey), OneLine(rawValue))), KeyOf(other), OneLine(next))
            && Loaded(env, Run(calls)) == AppliedAll(env, ParsedAll(Written(calls)), KeepPg(env)).env
  {
    var c, d := Call(rawKey, rawValue), Call(other, next);
    assert [c, d][..1] == [c] && [c][..0] == [];
    RunIsWritten([c, d], env);
    assert Written([c]) == Upsert(Cut([]), KeyOf(rawKey), OneLine(rawValue)) == [Line(KeyOf(rawKey), OneLine(rawValue))];
    CutOne(Line(KeyOf(rawKey), OneLine(rawValue)));
    assert Run([c]) == Persisted(Run([]), rawKey, rawValue);
  }

  lemma {:induction false} UpsertPassesBy(lines: seq<string>, key: string, value: string, i: nat)
    requires i < |lines| && forall j :: 0 <= j <= i ==> !SetsKey(lines[j], key)
    ensures i < |Upsert(lines, key, value)| && Upsert(lines, key, value)[i] == lines[i]
  {
    var at := PlaceExists(lines, key);
    UpsertAt(lines, key, value, at);
  }

  /** After the next save of any other key a value is restored only up to its first
      separator; so it survives if and only if no NUL comes before that and nothing but
      space after. (A NUL before it ends the load.) */
  lemma {:induction false} NextSaveCutsTheValue(env: Env, rawKey: string, rawValue: string, other: string, next: string)
    requires KeyOf(rawKey) != "" && KeyOf(other) != "" && KeyOf(other) != KeyOf(rawKey)
    requires KeyOf(rawKey) !in env && Restored(KeyOf(rawKey), KeepPg(env))
    ensures var key, v := KeyOf(rawKey), OneLine(rawValue);
            var n, out := Find(v, IsBreak), Loaded(env, Persisted(Persisted(None, rawKey, rawValue), other, next));
            && (if HasNul(v[..n]) then out == env else key in out && out[key] == Strip(v[..n]))
            && (key in out && out[key] == Strip(v) <==> !HasNul(v[..n]) && forall i :: n <= i < |v| ==> IsSpace(v[i]))
  {
    var key, v := KeyOf(rawKey), OneLine(rawValue);
    var n := Find(v, IsBreak);
    var lines := Upsert(Pieces(Line(key, v)), KeyOf(other), OneLine(next));
    TwoSaves(env, rawKey, rawValue, other, next);
    LinePieces(key, v);
    SetsKeyIff(key, v[..n], KeyOf(other));
    UpsertPassesBy(Pieces(Line(key, v)), KeyOf(other), OneLine(next), 0);
    FirstLineWins(env, lines, key, v[..n]);
    SameStrippedIff(v, n);
  }

  // ---------- Settings nobody saved ----------

  /** The key the loader may set on reading this line. */
  function KeyRead(line: string, keepPg: bool): Option<string> {
    var parsed := Parsed(line);
    if parsed.Some? && Restored(parsed.value.key, keepPg) then Some(parsed.value.key) else None
  }

  /** What a separator cuts off of the value is a setting of its own. */
  predicate Smuggles(value: string, keepPg: bool) {
    exists i :: 1 <= i < |Pieces(value)| && KeyRead(Pieces(value)[i], keepPg).Some?
  }

  predicate IsSaved(calls: seq<Call>, key: string) { exists i :: 0 <= i < |calls| && KeyOf(calls[i].key) == key }

  predicate Known(calls: seq<Call>, line: string, keepPg: bool) {
    KeyRead(line, keepPg).Some? ==> IsSaved(calls, KeyRead(line, keepPg).value)
  }

  /** The file holds no setting but of saved keys. */
  predicate OnlySaved(calls: seq<Call>, keepPg: bool) { forall i :: 0 <= i < |Written(calls)| ==> Known(calls, Written(calls)[i], keepPg) }

  /** Nor will it when its lines have been cut. */
  predicate Harmless(calls: seq<Call>, line: string, keepPg: bool) {
    Known(calls, line, keepPg) && forall i :: 0 <= i < |Pieces(line)| ==> Known(calls, Pieces(line)[i], keepPg)
  }

  predicate AllHarmless(calls: seq<Call>, lines: seq<string>, keepPg: bool) {
    forall i :: 0 <= i < |lines| ==> Harmless(calls, lines[i], keepPg)
  }

  lemma {:induction false} CutIsHarmless(calls: seq<Call>, lines: seq<string>, keepPg: bool)
    requires AllHarmless(calls, lines, keepPg)
    ensures AllHarmless(calls, Cut(lines), keepPg)
  {
    if lines != [] {
      PiecesAreUnbroken(lines[0]);
      forall i | 0 <= i < |Pieces(lines[0])| ensures Harmless(calls, Pieces(lines[0])[i], keepPg) {
        UnbrokenPiece(Pieces(lines[0])[i]);
        assert Harmless(calls, lines[0], keepPg);
      }
      CutIsHarmless(calls, lines[1..], keepPg);
    }
  }

  lemma {:induction false} LineIsHarmless(calls: seq<Call>, key: string, value: string, keepPg: bool)
    requires IsName(key) && IsSaved(calls, key) && !Smuggles(value, keepPg)
    ensures Harmless(calls, Line(key, value), keepPg)
  {
    OwnLineParses(key, value);
    LinePieces(key, value);
    OwnLineParses(key, value[..Find(value, IsBreak)]);
    forall i | 0 <= i < |Pieces(Line(key, value))| ensures Known(calls, Pieces(Line(key, value))[i], keepPg) {
      assert i > 0 ==> Pieces(Line(key, value))[i] == Pieces(value)[i];
    }
  }

  lemma {:induction false} MoreSaved(calls: seq<Call>, more: seq<Call>, line: string, keepPg: bool)
    requires calls <= more && Harmless(calls, line, keepPg)
    ensures Harmless(more, line, keepPg)
  {
    forall key | IsSaved(calls, key) ensures IsSaved(more, key) {
      var i :| 0 <= i < |calls| && KeyOf(calls[i].key) == key;
      assert more[i] == calls[i];
    }
  }

  lemma {:induction false} UpsertIsHarmless(calls: seq<Call>, lines: seq<string>, key: string, value: string, keepPg: bool)
    requires AllHarmless(calls, lines, keepPg) && Harmless(calls, Line(key, value), keepPg)
    ensures AllHarmless(calls, Upsert(lines, key, value), keepPg)
  {
    forall i | 0 <= i < |Upsert(lines, key, value)| ensures Harmless(calls, Upsert(lines, key, value)[i], keepPg) {
      UpsertHas(lines, key, value, Upsert(lines, key, value)[i]);
    }
  }

  lemma {:induction false} WrittenIsHarmless(calls: seq<Call>, keepPg: bool)
    requires forall i :: 0 <= i < |calls| ==> !SmugglesOnceSaved(calls[i].value, keepPg)
    ensures AllHarmless(calls, Written(calls), keepPg)
  {
    if calls != [] {
      var n := |calls| - 1;
      var c, before := calls[n], Written(calls[..n]);
      WrittenIsHarmless(calls[..n], keepPg);
      forall i | 0 <= i < |before| ensures Harmless(calls, before[i], keepPg) {
        MoreSaved(calls[..n], calls, before[i], keepPg);
      }
      if KeyOf(c.key) != "" {
        CutIsHarmless(calls, before, keepPg);
        assert IsSaved(calls, KeyOf(c.key));
        LineIsHarmless(calls, KeyOf(c.key), OneLine(c.value), keepPg);
        UpsertIsHarmless(calls, Cut(before), KeyOf(c.key), OneLine(c.value), keepPg);
      }
    }
  }

  lemma {:induction false} NamesAlone()
    ensures KeyOf("A") == "A" && KeyOf("B") == "B"
  {
    assert "A"[1..] == "" && "B"[1..] == "";
  }

  /** Saved twice under one key a value leaves all its pieces in the file. */
  lemma {:induction false} SavedAgain(key: string, raw: string)
    requires KeyOf(key) == key != ""
    ensures Pieces(OneLine(raw)) != []
    ensures Written(Twice(key, raw)) == [Line(key, OneLine(raw))] + Pieces(OneLine(raw))[1..]
  {
    var v := OneLine(raw);
    TwoSaves(map[], key, raw, key, raw);
    LinePieces(key, v);
    UpsertFirst(key, v[..Find(v, IsBreak)], Pieces(v)[1..], v);
  }

  lemma {:induction false} Shifted(line: string, pieces: seq<string>, i: nat)
    requires 1 <= i < |pieces|
    ensures i < |[line] + pieces[1..]| && ([line] + pieces[1..])[i] == pieces[i]
  {
  }

  lemma {:induction false} UpsertFirst(key: string, front: string, rest: seq<string>, value: string)
    requires IsName(key)
    ensures Upsert([Line(key, front)] + rest, key, value) == [Line(key, value)] + rest
  {
    SetsKeyIff(key, front, key);
    var lines := [Line(key, front)] + rest;
    assert lines[0] == Line(key, front) && lines[1..] == rest;
  }

  lemma {:induction false} OtherThan(foreign: string) returns (key: string)
    ensures KeyOf(key) == key != "" && key != foreign
  {
    NamesAlone();
    key := if foreign == "A" then "B" else "A";
  }

  /** Two saves of the value under one key. */
  function Twice(key: string, raw: string): (calls: seq<Call>)
    ensures |calls| == 2 && forall i :: 0 <= i < 2 ==> calls[i] == Call(key, raw)
  {
    [Call(key, raw), Call(key, raw)]
  }

  lemma {:induction false} SmugglesOnceSavedAgain(raw: string, keepPg: bool) returns (key: string, i: nat)
    requires SmugglesOnceSaved(raw, keepPg)
    ensures KeyOf(key) == key && IsName(key) && i < |Written(Twice(key, raw))|
    ensures KeyRead(Written(Twice(key, raw))[i], keepPg).Some?
    ensures KeyRead(Written(Twice(key, raw))[i], keepPg).value != key
  {
    var pieces := Pieces(OneLine(raw));
    i :| 1 <= i < |pieces| && KeyRead(pieces[i], keepPg).Some?;
    key := OtherThan(KeyRead(pieces[i], keepPg).value);
    SavedAgain(key, raw);
    Shifted(Line(key, OneLine(raw)), pieces, i);
  }

  ghost predicate From(calls: seq<Call>, values: iset<string>) {
    forall i :: 0 <= i < |calls| ==> calls[i].value in values
  }

  /** Of the value as it is written. */
  predicate SmugglesOnceSaved(raw: string, keepPg: bool) { Smuggles(OneLine(raw), keepPg) }

  /** Whatever values may be saved, in any order and under any keys: the file never holds
      a setting of a key nobody saved if and only if none of the values smuggles one. */
  lemma {:induction false} OnlySavedKeysIff(values: iset<string>, keepPg: bool)
    ensures (forall calls :: From(calls, values) ==> OnlySaved(calls, keepPg))
       <==> (forall raw :: raw in values ==> !SmugglesOnceSaved(raw, keepPg))
  {
    if forall raw :: raw in values ==> !SmugglesOnceSaved(raw, keepPg) {
      forall calls | From(calls, values) ensures OnlySaved(calls, keepPg) {
        NoneSmuggles(calls, keepPg);
      }
    } else {
      var raw :| raw in values && SmugglesOnceSaved(raw, keepPg);
      var calls := SomeSmuggles(values, raw, keepPg);
    }
  }

  lemma {:induction false} SomeSmuggles(values: iset<string>, raw: string, keepPg: bool) returns (calls: seq<Call>)
    requires raw in values && SmugglesOnceSaved(raw, keepPg)
    ensures From(calls, values) && !OnlySaved(calls, keepPg)
  {
    var key, i := SmugglesOnceSavedAgain(raw, keepPg);
    calls := Twice(key, raw);
    OneKeySaved(calls, key, KeyRead(Written(calls)[i], keepPg).value);
    assert !Known(calls, Written(calls)[i], keepPg);
  }

  lemma {:induction false} OneKeySaved(calls: seq<Call>, key: string, other: string)
    requires KeyOf(key) == key != other && forall i :: 0 <= i < |calls| ==> calls[i].key == key
    ensures !IsSaved(calls, other)
  {
  }

  lemma {:induction false} NoneSmuggles(calls: seq<Call>, keepPg: bool)
    requires forall i :: 0 <= i < |calls| ==> !SmugglesOnceSaved(calls[i].value, keepPg)
    ensures OnlySaved(calls, keepPg)
  {
    WrittenIsHarmless(calls, keepPg);
    assert forall i :: 0 <= i < |Written(calls)| ==> Harmless(calls, Written(calls)[i], keepPg);
  }

  /** What is restored was then in the environment or saved. */
  lemma {:induction false} OnlySavedKeysAreRestored(calls: seq<Call>, env: Env, key: string)
    requires forall i :: 0 <= i < |calls| ==> !SmugglesOnceSaved(calls[i].value, KeepPg(env))
    requires key in Loaded(env, Run(calls))
    ensures key in env || IsSaved(calls, key)
  {
    var parsed := ParsedAll(Written(calls));
    RunIsWritten(calls, env);
    NoneSmuggles(calls, KeepPg(env));
    FirstSettingWins(env, parsed, KeepPg(env), key);
    var i := SettingIndex(parsed, key);
    if key !in env {
      assert parsed[i] == Parsed(Written(calls)[i]);
      assert Known(calls, Written(calls)[i], KeepPg(env));
    }
  }

  // ---------- Without NULs the loader applies what the file holds ----------

  lemma {:induction false} PartHasNone(s: string, i: nat, j: nat)
    requires i <= j <= |s| && !HasNul(s)
    ensures !HasNul(s[i..j])
  {
    assert forall k :: 0 <= k < j - i ==> s[i..j][k] == s[i + k];
  }

  lemma {:induction false} PiecesHaveNone(line: string)
    requires !HasNul(line)
    ensures forall i :: 0 <= i < |Pieces(line)| ==> !HasNul(Pieces(line)[i])
    decreases |line|
  {
    if Find(line, IsBreak) == |line| {
      UnbrokenIff(line);
      UnbrokenPiece(line);
    } else {
      var front, c, tail := Decomposed(line);
      assert tail == line[|front| + 1..|line|] && front == line[0..|front|];
      PartHasNone(line, 0, |front|);
      PartHasNone(line, |front| + 1, |line|);
      PiecesHaveNone(tail);
      PieceAndRest(front, c, tail);
    }
  }

  lemma {:induction false} NotRefused(line: string)
    requires !HasNul(line)
    ensures Parsed(line).Some? ==> !Refused(Parsed(line).value)
  {
    var s := Strip(line);
    var eq := Find(s, IsEquals);
    StripKeepsNul(line);
    if eq < |s| {
      PartHasNone(s, 0, eq);
      PartHasNone(s, eq + 1, |s|);
      StripKeepsNul(s[..eq]);
      StripKeepsNul(s[eq + 1..]);
      assert s[0..eq] == s[..eq] && s[eq + 1..|s|] == s[eq + 1..];
    }
  }

  lemma {:induction false} ReadIsLoaded(lines: seq<string>, i: nat)
    requires forall j :: 0 <= j < |lines| ==> !HasNul(lines[j])
    requires i < |lines| && KeyRead(lines[i], false).Some?
    ensures KeyRead(lines[i], false).value in AppliedAll(map[], ParsedAll(lines), false).env
  {
    var parsed, key := ParsedAll(lines), KeyRead(lines[i], false).value;
    FirstSettingWins(map[], parsed, false, key);
    assert Sets(parsed[i], key);
    forall j: nat ensures !Stops(map[], parsed, false, j) {
      if j < |parsed| {
        NotRefused(lines[j]);
      }
    }
  }

  lemma {:induction false} RestHasNone(line: string, pieces: seq<string>)
    requires !HasNul(line) && pieces != [] && forall j :: 0 <= j < |pieces| ==> !HasNul(pieces[j])
    ensures var lines := [line] + pieces[1..]; forall j :: 0 <= j < |lines| ==> !HasNul(lines[j])
  {
    var lines := [line] + pieces[1..];
    assert forall j :: 1 <= j < |lines| ==> lines[j] == pieces[j];
  }

  lemma {:induction false} LineHasNone(key: string, raw: string)
    requires IsName(key) && !HasNul(raw)
    ensures !HasNul(OneLine(raw)) && !HasNul(Line(key, OneLine(raw)))
  {
    assert forall i :: 0 <= i < |key| ==> IsNameChar(key[i]);
  }

  lemma {:induction false} WrittenTwiceHasNone(key: string, raw: string)
    requires KeyOf(key) == key && IsName(key) && !HasNul(raw)
    ensures var written := Written(Twice(key, raw)); forall j :: 0 <= j < |written| ==> !HasNul(written[j])
  {
    LineHasNone(key, raw);
    PiecesHaveNone(OneLine(raw));
    SavedAgain(key, raw);
    RestHasNone(Line(key, OneLine(raw)), Pieces(OneLine(raw)));
  }

  /** Values without NULs, into an environment that has nothing yet: only saved keys are
      ever restored if and only if none of the values smuggles a setting. */
  lemma {:induction false} OnlySavedKeysAreRestoredIff(values: iset<string>)
    requires forall raw :: raw in values ==> !HasNul(raw)
    ensures (forall calls, key :: From(calls, values) && key in Loaded(map[], Run(calls)) ==> IsSaved(calls, key))
       <==> (forall raw :: raw in values ==> !SmugglesOnceSaved(raw, false))
  {
    if forall raw :: raw in values ==> !SmugglesOnceSaved(raw, false) {
      forall calls, key | From(calls, values) && key in Loaded(map[], Run(calls)) ensures IsSaved(calls, key) {
        OnlySavedKeysAreRestored(calls, map[], key);
      }
    } else {
      var raw :| raw in values && SmugglesOnceSaved(raw, false);
      var calls, key := SomeIsRestored(values, raw);
    }
  }

  lemma {:induction false} SomeIsRestored(values: iset<string>, raw: string) returns (calls: seq<Call>, key: string)
    requires raw in values && SmugglesOnceSaved(raw, false) && !HasNul(raw)
    ensures From(calls, values) && key in Loaded(map[], Run(calls)) && !IsSaved(calls, key)
  {
    var saved, i := SmugglesOnceSavedAgain(raw, false);
    calls := Twice(saved, raw);
    key := KeyRead(Written(calls)[i], false).value;
    OneKeySaved(calls, saved, key);
    WrittenTwiceHasNone(saved, raw);
    ReadIsLoaded(Written(calls), i);
    RunIsWritten(calls, map[]);
  }

  lemma {:induction false} TwoLinesLead(env: Env, parsed: seq<Option<Setting>>, key: string, value: string, name: string, w: string)
    requires |parsed| >= 2 && IsName(key) && IsName(name) && key != name
    requires parsed[0] == Some(Setting(key, Strip(value))) && parsed[1] == Some(Setting(name, Strip(w)))
    requires name !in env && Restored(name, KeepPg(env))
    ensures var out := AppliedAll(env, parsed, KeepPg(env)).env;
            && (name in out <==> !Refuses(env, Setting(key, value)) && !HasNul(w))
            && (name in out ==> out[name] == Strip(w))
  {
    FirstSettingWins(env, parsed, KeepPg(env), name);
    assert Sets(parsed[1], name) && !Sets(parsed[0], name);
    assert SettingIndex(parsed, name) == 1;
    OwnSettingRefused(key, value);
    OwnSettingRefused(name, w);
    StopsByMore(env, parsed, KeepPg(env), 1);
    StopsByMore(env, parsed, KeepPg(env), 0);
  }

  /** A setting smuggled in behind the first separator is restored after the next save of
      any other key, if no NUL prevents it: `name`, which nobody saved. */
  lemma {:induction false} SmuggledSettingIsRestored(env: Env, rawKey: string, rawValue: string, front: string, c: char, name: string,
                                  w: string, other: string, next: string)
    requires OneLine(rawValue) == front + [c] + Line(name, w) && Unbroken(front, IsBreak) && IsBreak(c)
    requires KeyOf(rawKey) != "" && KeyOf(other) != "" && IsName(name)
    requires KeyOf(rawKey) != name && KeyOf(other) != name && KeyOf(other) != KeyOf(rawKey)
    requires name !in env && Restored(name, KeepPg(env))
    ensures var out := Loaded(env, Persisted(Persisted(None, rawKey, rawValue), other, next));
            var first := w[..Find(w, IsBreak)];
            && (name in out <==> !Refuses(env, Setting(KeyOf(rawKey), front)) && !HasNul(first))
            && (name in out ==> out[name] == Strip(first))
  {
    var key, v := KeyOf(rawKey), OneLine(rawValue);
    var first := w[..Find(w, IsBreak)];
    var lines := Pieces(Line(key, v));
    SmuggledPieces(key, v, front, c, name, w);
    TwoSaves(env, rawKey, rawValue, other, next);
    TwoLinesStay(lines, key, front, name, first, KeyOf(other), OneLine(next));
    TwoLinesLead(env, ParsedAll(Upsert(lines, KeyOf(other), OneLine(next))), key, front, name, first);
  }

  lemma {:induction false} TwoLinesStay(lines: seq<string>, key: string, front: string, name: string, first: string,
                                        other: string, next: string)
    requires IsName(key) && IsName(name) && IsName(other) && other != key && other != name
    requires |lines| >= 2 && lines[0] == Line(key, front) && lines[1] == Line(name, first)
    ensures var parsed := ParsedAll(Upsert(lines, other, next));
            && |parsed| >= 2
            && parsed[0] == Some(Setting(key, Strip(front))) && parsed[1] == Some(Setting(name, Strip(first)))
  {
    SetsKeyIff(key, front, other);
    SetsKeyIff(name, first, other);
    UpsertPassesBy(lines, other, next, 0);
    UpsertPassesBy(lines, other, next, 1);
    OwnLineParses(key, front);
    OwnLineParses(name, first);
  }

  lemma {:induction false} SmuggledPieces(key: string, v: string, front: string, c: char, name: string, w: string)
    requires v == front + [c] + Line(name, w) && Unbroken(front, IsBreak) && IsBreak(c) && IsName(key) && IsName(name)
    ensures var lines := Pieces(Line(key, v));
            |lines| >= 2 && lines[0] == Line(key, front) && lines[1] == Line(name, w[..Find(w, IsBreak)])
  {
    FindIs(v, IsBreak, |front|);
    LinePieces(key, v);
    assert v[..|front|] == front;
    PieceAndRest(front, c, Line(name, w));
    LinePieces(name, w);
  }
}
