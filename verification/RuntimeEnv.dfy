/** runtime.env: the KEY=VALUE upsert writer (`_shared._persist_env`) and the loader
    written apart from it (`_startup._load_runtime_env`). */
module RuntimeEnv {

  import opened Wrappers

  // ---------- Lines ----------

  /** Where str.splitlines breaks. */
  predicate IsBreak(c: char) {
    c == '\n' || c == '\r' || '\U{0b}' <= c <= '\U{0c}' || '\U{1c}' <= c <= '\U{1e}' || c == '\U{85}'
    || c == '\U{2028}' || c == '\U{2029}'
  }

  /** Where a text file read line by line breaks, once its newlines are translated. */
  predicate IsNewline(c: char) { c == '\n' }

  /** Universal newlines: what a text-mode read returns for the characters on disk. */
  function Translated(text: string): string {
    if text == "" then ""
    else if text[0] == '\r' then
      ['\n'] + Translated(if |text| > 1 && text[1] == '\n' then text[2..] else text[1..])
    else [text[0]] + Translated(text[1..])
  }

  /** The first place of `s` that satisfies `p`, or its length. */
  function Find<T>(s: seq<T>, p: T -> bool): (i: nat)
    ensures i <= |s| && (i < |s| ==> p(s[i]))
    ensures forall j :: 0 <= j < i ==> !p(s[j])
  {
    if s == [] || p(s[0]) then 0 else 1 + Find(s[1..], p)
  }

  lemma {:induction false} FindIs<T>(s: seq<T>, p: T -> bool, i: nat)
    requires i <= |s| && (i < |s| ==> p(s[i])) && forall j :: 0 <= j < i ==> !p(s[j])
    ensures Find(s, p) == i
  {
    if i > 0 {
      FindIs(s[1..], p, i - 1);
    }
  }

  function Split(text: string, breaks: char -> bool): seq<string>
    decreases |text|
  {
    if text == "" then []
    else
      var i := Find(text, breaks);
      if i == |text| then [text] else [text[..i]] + Split(text[i + 1..], breaks)
  }

  /** `"\n".join(lines) + "\n"`, for one line or more. */
  function Joined(lines: seq<string>): string {
    if lines == [] then "" else lines[0] + "\n" + Joined(lines[1..])
  }

  ghost predicate Unbroken(line: string, breaks: char -> bool) { forall i :: 0 <= i < |line| ==> !breaks(line[i]) }

  lemma {:induction false} SplitsAreUnbroken(text: string, breaks: char -> bool)
    ensures forall i :: 0 <= i < |Split(text, breaks)| ==> Unbroken(Split(text, breaks)[i], breaks)
    decreases |text|
  {
    if text != "" {
      var i := Find(text, breaks);
      if i < |text| {
        SplitsAreUnbroken(text[i + 1..], breaks);
      }
    }
  }

  lemma {:induction false} UnbrokenLinesSplit(lines: seq<string>, breaks: char -> bool)
    requires breaks('\n') && forall i :: 0 <= i < |lines| ==> Unbroken(lines[i], breaks)
    ensures Split(Joined(lines), breaks) == lines
  {
    if lines != [] {
      var text := Joined(lines);
      var n := |lines[0]|;
      assert text == lines[0] + ("\n" + Joined(lines[1..]));
      assert text[..n] == lines[0] && text[n] == '\n' && text[n + 1..] == Joined(lines[1..]);
      FindIs(text, breaks, n);
      UnbrokenLinesSplit(lines[1..], breaks);
    }
  }

  /** Lines come back from the file as they were written exactly when none of them
      holds a character the reader breaks at. */
  lemma LinesSurviveIffUnbroken(lines: seq<string>, breaks: char -> bool)
    requires breaks('\n')
    ensures Split(Joined(lines), breaks) == lines <==> forall i :: 0 <= i < |lines| ==> Unbroken(lines[i], breaks)
  {
    SplitsAreUnbroken(Joined(lines), breaks);
    if forall i :: 0 <= i < |lines| ==> Unbroken(lines[i], breaks) {
      UnbrokenLinesSplit(lines, breaks);
    }
  }

  // ---------- The writer ----------

  predicate IsNameChar(c: char) { 'a' <= c <= 'z' || 'A' <= c <= 'Z' || '0' <= c <= '9' || c == '_' }

  function KeyOf(raw: string): (key: string)
    ensures forall i :: 0 <= i < |key| ==> IsNameChar(key[i])
  {
    if raw == "" then "" else (if IsNameChar(raw[0]) then [raw[0]] else "") + KeyOf(raw[1..])
  }

  /** A name is kept exactly as it is if and only if it has name characters only. */
  lemma {:induction false} NamesAreKept(raw: string)
    ensures KeyOf(raw) == raw <==> forall i :: 0 <= i < |raw| ==> IsNameChar(raw[i])
  {
    if raw != "" && forall i :: 0 <= i < |raw| ==> IsNameChar(raw[i]) {
      NamesAreKept(raw[1..]);
      assert raw == [raw[0]] + raw[1..];
    }
  }

  /** Characters are dropped one by one, whatever stands around them. */
  lemma {:induction false} KeyOfJoined(a: string, b: string)
    ensures KeyOf(a + b) == KeyOf(a) + KeyOf(b)
  {
    if a == "" {
      assert a + b == b;
    } else {
      assert (a + b)[1..] == a[1..] + b;
      KeyOfJoined(a[1..], b);
    }
  }

  function OneLine(raw: string): (value: string)
    ensures |value| == |raw|
    ensures forall i :: 0 <= i < |raw| ==> value[i] == if raw[i] == '\r' || raw[i] == '\n' then ' ' else raw[i]
  {
    if raw == "" then ""
    else [if raw[0] == '\r' || raw[0] == '\n' then ' ' else raw[0]] + OneLine(raw[1..])
  }

  function Line(key: string, value: string): string { key + "=" + value }

  predicate SetsKey(line: string, key: string) { key + "=" <= line }

  function Upsert(lines: seq<string>, key: string, value: string): seq<string> {
    if lines == [] then [Line(key, value)]
    else if SetsKey(lines[0], key) then [Line(key, value)] + lines[1..]
    else [lines[0]] + Upsert(lines[1..], key, value)
  }

  /** The first line that sets the key is replaced; failing that, one is added. */
  lemma {:induction false} UpsertAt(lines: seq<string>, key: string, value: string, i: nat)
    requires i <= |lines| && (i < |lines| ==> SetsKey(lines[i], key))
    requires forall j :: 0 <= j < i ==> !SetsKey(lines[j], key)
    ensures Upsert(lines, key, value)
         == if i < |lines| then lines[i := Line(key, value)] else lines + [Line(key, value)]
  {
    if i > 0 {
      UpsertAt(lines[1..], key, value, i - 1);
    }
  }

  function LinesOf(file: Option<string>): seq<string> {
    match file case None => [] case Some(text) => Split(Translated(text), IsBreak)
  }

  function Persisted(file: Option<string>, rawKey: string, rawValue: string): Option<string> {
    var key := KeyOf(rawKey);
    if key == "" then file else Some(Joined(Upsert(LinesOf(file), key, OneLine(rawValue))))
  }

  // ---------- The loader ----------

  /** What str.strip removes. */
  predicate IsSpace(c: char) {
    '\U{09}' <= c <= '\U{0d}' || '\U{1c}' <= c <= '\U{20}' || c == '\U{85}' || c == '\U{a0}' || c == '\U{1680}'
    || '\U{2000}' <= c <= '\U{200a}' || c == '\U{2028}' || c == '\U{2029}' || c == '\U{202f}' || c == '\U{205f}'
    || c == '\U{3000}'
  }

  function StripLeft(s: string): string { if s != "" && IsSpace(s[0]) then StripLeft(s[1..]) else s }

  function StripRight(s: string): string {
    if s != "" && IsSpace(s[|s| - 1]) then StripRight(s[..|s| - 1]) else s
  }

  function Strip(s: string): string { StripLeft(StripRight(s)) }

  predicate IsEquals(c: char) { c == '=' }

  datatype Setting = Setting(key: string, value: string)

  /** A line as the loader reads it; comments, blanks and lines without `=` are
      nothing. */
  function Parsed(line: string): Option<Setting> {
    var s := Strip(line);
    var eq := Find(s, IsEquals);
    if s == "" || s[0] == '#' || eq == |s| then None else Some(Setting(Strip(s[..eq]), Strip(s[eq + 1..])))
  }

  const DB_KEYS: set<string> := {
    "AIFORGE_PG_URL", "AIFORGE_DSN", "AIFORGE_FORCE_PG", "AIFORGE_PGMEM_DSN",
    "AIFORGE_NEO4J_URI", "NEO4J_URI", "AIFORGE_NEO4J_USER",
    "AIFORGE_NEO4J_PASSWORD", "AIFORGE_NEO4J_PASS",
    "AIFORGE_REQUIRE_DATA_BACKEND", "AIFORGE_MEMORY_BACKEND"
  }

  type Env = map<string, string>

  predicate Restored(key: string, keepPg: bool) { key != "" && (keepPg || key !in DB_KEYS) }

  predicate HasNul(text: string) { exists i :: 0 <= i < |text| && text[i] == '\0' }

  /** os.environ raises on a name or a value that holds a NUL. */
  predicate Refused(s: Setting) { HasNul(s.key) || HasNul(s.value) }

  /** The environment so far, and whether an assignment has ended the load. */
  datatype Progress = Progress(env: Env, raised: bool)

  function Applied(p: Progress, parsed: Option<Setting>, keepPg: bool): Progress {
    match parsed
    case None => p
    case Some(s) =>
      if p.raised || !Restored(s.key, keepPg) || s.key in p.env then p
      else if Refused(s) then p.(raised := true)
      else p.(env := p.env[s.key := s.value])
  }

  function AppliedAll(env: Env, parsed: seq<Option<Setting>>, keepPg: bool): Progress {
    if parsed == [] then Progress(env, false)
    else Applied(AppliedAll(env, parsed[..|parsed| - 1], keepPg), parsed[|parsed| - 1], keepPg)
  }

  function ParsedAll(lines: seq<string>): (r: seq<Option<Setting>>)
    ensures |r| == |lines| && forall i :: 0 <= i < |r| ==> r[i] == Parsed(lines[i])
  {
    if lines == [] then [] else ParsedAll(lines[..|lines| - 1]) + [Parsed(lines[|lines| - 1])]
  }

  predicate KeepPg(env: Env) { "AIFORGE_KEEP_PG" in env && env["AIFORGE_KEEP_PG"] == "1" }

  function Loaded(env: Env, file: Option<string>): Env {
    match file
    case None => env
    case Some(text) => AppliedAll(env, ParsedAll(Split(Translated(text), IsNewline)), KeepPg(env)).env
  }

  lemma AppliedMore(env: Env, parsed: seq<Option<Setting>>, i: nat, keepPg: bool)
    requires i < |parsed|
    ensures AppliedAll(env, parsed[..i + 1], keepPg) == Applied(AppliedAll(env, parsed[..i], keepPg), parsed[i], keepPg)
  {
    assert parsed[..i + 1][..i] == parsed[..i];
  }

  lemma {:induction false} RaisedStays(env: Env, parsed: seq<Option<Setting>>, i: nat, keepPg: bool)
    requires i <= |parsed| && AppliedAll(env, parsed[..i], keepPg).raised
    ensures AppliedAll(env, parsed, keepPg) == AppliedAll(env, parsed[..i], keepPg)
  {
    if i < |parsed| {
      var n := |parsed| - 1;
      assert parsed[..n][..i] == parsed[..i];
      RaisedStays(env, parsed[..n], i, keepPg);
    } else {
      assert parsed[..i] == parsed;
    }
  }

  // ---------- In place ----------

  class RuntimeEnvFile {
    var file: Option<string>

    constructor ()
      ensures file == None
    {
      file := None;
    }

    method PersistEnv(rawKey: string, rawValue: string)
      modifies this
      ensures file == Persisted(old(file), rawKey, rawValue)
      ensures IsName(rawKey) ==> file == Some(Joined(Upsert(LinesOf(old(file)), rawKey, OneLine(rawValue))))
    {
      NamesAreKept(rawKey);
      var key := KeyOf(rawKey);
      if key == "" {
        return;
      }
      var value := OneLine(rawValue);
      var lines: seq<string> := [];
      if file.Some? {
        lines := Split(Translated(file.value), IsBreak);
      }
      var i := 0;
      while i < |lines| && !SetsKey(lines[i], key)
        invariant i <= |lines| && forall j :: 0 <= j < i ==> !SetsKey(lines[j], key)
      {
        i := i + 1;
      }
      UpsertAt(lines, key, value, i);
      if i < |lines| {
        lines := lines[i := Line(key, value)];
      } else {
        lines := lines + [Line(key, value)];
      }
      file := Some(Joined(lines));
    }

    /** One line; false if the environment refused it. */
    method ApplyRuntimeEnvLine(env: Env, line: string, keepPg: bool) returns (more: Env, ok: bool)
      ensures Progress(more, !ok) == Applied(Progress(env, false), Parsed(line), keepPg)
    {
      more, ok := env, true;
      var parsed := Parsed(line);
      if parsed.None? {
        return;
      }
      var key, value := parsed.value.key, parsed.value.value;
      if key in DB_KEYS && !keepPg {
        return;
      }
      if key != "" && key !in env {
        ok := !Refused(parsed.value);
        if ok {
          more := env[key := value];
        }
      }
    }

    /** Line by line; a refused assignment ends the load where it stands. */
    method LoadRuntimeEnv(env: Env) returns (more: Env)
      ensures more == Loaded(env, file)
    {
      if file.None? {
        return env;
      }
      var lines := Split(Translated(file.value), IsNewline);
      ghost var parsed := ParsedAll(lines);
      more := env;
      for i := 0 to |lines|
        invariant AppliedAll(env, parsed[..i], KeepPg(env)) == Progress(more, false)
      {
        AppliedMore(env, parsed, i, KeepPg(env));
        var next, ok := ApplyRuntimeEnvLine(more, lines[i], KeepPg(env));
        if !ok {
          RaisedStays(env, parsed, i + 1, KeepPg(env));
          return next;
        }
        more := next;
      }
      assert parsed[..|lines|] == parsed;
    }
  }

  // ---------- What is written is what is read ----------

  ghost predicate IsName(key: string) { key != "" && forall i :: 0 <= i < |key| ==> IsNameChar(key[i]) }

  lemma {:induction false} TranslatedPlain(text: string)
    requires forall i :: 0 <= i < |text| ==> text[i] != '\r'
    ensures Translated(text) == text
  {
    if text != "" {
      TranslatedPlain(text[1..]);
    }
  }

  lemma {:induction false} JoinedPlain(lines: seq<string>)
    requires forall i :: 0 <= i < |lines| ==> Unbroken(lines[i], IsBreak)
    ensures forall i :: 0 <= i < |Joined(lines)| ==> Joined(lines)[i] != '\r'
  {
    if lines != [] {
      assert Unbroken(lines[0], IsBreak);
      JoinedPlain(lines[1..]);
    }
  }

  lemma LinesSplitBothWays(lines: seq<string>)
    requires forall i :: 0 <= i < |lines| ==> Unbroken(lines[i], IsBreak)
    ensures Translated(Joined(lines)) == Joined(lines)
    ensures Split(Joined(lines), IsBreak) == lines && Split(Joined(lines), IsNewline) == lines
  {
    JoinedPlain(lines);
    TranslatedPlain(Joined(lines));
    UnbrokenLinesSplit(lines, IsBreak);
    forall i | 0 <= i < |lines| ensures Unbroken(lines[i], IsNewline) {
      assert Unbroken(lines[i], IsBreak);
    }
    UnbrokenLinesSplit(lines, IsNewline);
  }

  /** The writer and the loader both read back the lines the writer wrote, if these
      hold no character only the writer breaks at. */
  lemma LinesReadBack(env: Env, lines: seq<string>)
    requires forall i :: 0 <= i < |lines| ==> Unbroken(lines[i], IsBreak)
    ensures LinesOf(Some(Joined(lines))) == lines
    ensures Loaded(env, Some(Joined(lines))) == AppliedAll(env, ParsedAll(lines), KeepPg(env)).env
  {
    LinesSplitBothWays(lines);
  }

  /** They disagree on a line exactly when it holds such a character: the loader still
      restores the whole value, the next write cuts it there. */
  lemma ReadersDisagreeIffBroken(lines: seq<string>)
    requires forall i :: 0 <= i < |lines| ==> forall j :: 0 <= j < |lines[i]| ==> lines[i][j] != '\r' && lines[i][j] != '\n'
    ensures Split(Translated(Joined(lines)), IsNewline) == lines
    ensures LinesOf(Some(Joined(lines))) != lines <==> exists i :: 0 <= i < |lines| && !Unbroken(lines[i], IsBreak)
  {
    JoinedNoReturns(lines);
    TranslatedPlain(Joined(lines));
    forall i | 0 <= i < |lines| ensures Unbroken(lines[i], IsNewline) {
    }
    UnbrokenLinesSplit(lines, IsNewline);
    LinesSurviveIffUnbroken(lines, IsBreak);
  }

  lemma {:induction false} JoinedNoReturns(lines: seq<string>)
    requires forall i :: 0 <= i < |lines| ==> forall j :: 0 <= j < |lines[i]| ==> lines[i][j] != '\r' && lines[i][j] != '\n'
    ensures forall i :: 0 <= i < |Joined(lines)| ==> Joined(lines)[i] != '\r'
  {
    if lines != [] {
      assert forall j :: 0 <= j < |lines[0]| ==> lines[0][j] != '\r';
      JoinedNoReturns(lines[1..]);
    }
  }

  // ---------- Stripping ----------

  lemma {:induction false} StripRightIs(s: string) returns (n: nat)
    ensures n <= |s| && StripRight(s) == s[..n] && (n > 0 ==> !IsSpace(s[n - 1]))
    ensures forall i :: n <= i < |s| ==> IsSpace(s[i])
  {
    n := |s|;
    if s != "" && IsSpace(s[|s| - 1]) {
      n := StripRightIs(s[..|s| - 1]);
      assert s[..|s| - 1][..n] == s[..n];
    }
  }

  lemma {:induction false} StripRightTo(s: string, n: nat)
    requires n <= |s| && (n > 0 ==> !IsSpace(s[n - 1])) && forall i :: n <= i < |s| ==> IsSpace(s[i])
    ensures StripRight(s) == s[..n]
  {
    if n < |s| {
      StripRightTo(s[..|s| - 1], n);
      assert s[..|s| - 1][..n] == s[..n];
    }
  }

  lemma NotSpaces(key: string)
    requires IsName(key)
    ensures forall i :: 0 <= i < |key| ==> !IsSpace(key[i]) && key[i] != '=' && key[i] != '#'
    ensures Strip(key) == key
  {
    StripRightTo(key, |key|);
  }

  lemma NulFirstOrLater(s: string)
    requires s != ""
    ensures HasNul(s) <==> s[0] == '\0' || HasNul(s[1..])
    ensures HasNul(s) <==> s[|s| - 1] == '\0' || HasNul(s[..|s| - 1])
  {
    if i :| 0 <= i < |s| && s[i] == '\0' {
      assert i > 0 ==> s[1..][i - 1] == '\0';
      assert i < |s| - 1 ==> s[..|s| - 1][i] == '\0';
    }
  }

  lemma {:induction false} StripRightKeepsNul(s: string)
    ensures HasNul(StripRight(s)) <==> HasNul(s)
  {
    if s != "" && IsSpace(s[|s| - 1]) {
      NulFirstOrLater(s);
      StripRightKeepsNul(s[..|s| - 1]);
    }
  }

  lemma {:induction false} StripLeftKeepsNul(s: string)
    ensures HasNul(StripLeft(s)) <==> HasNul(s)
  {
    if s != "" && IsSpace(s[0]) {
      NulFirstOrLater(s);
      StripLeftKeepsNul(s[1..]);
    }
  }

  /** Stripping removes no NUL and adds none. */
  lemma StripKeepsNul(s: string)
    ensures HasNul(Strip(s)) <==> HasNul(s)
  {
    StripRightKeepsNul(s);
    StripLeftKeepsNul(StripRight(s));
  }

  lemma OwnSettingRefused(key: string, value: string)
    requires IsName(key)
    ensures Refused(Setting(key, Strip(value))) <==> HasNul(value)
  {
    StripKeepsNul(value);
    assert forall i :: 0 <= i < |key| ==> IsNameChar(key[i]);
  }

  lemma OwnLineStrips(key: string, value: string) returns (s: string, n: nat)
    requires IsName(key)
    ensures n <= |value| && s == Strip(Line(key, value)) == Line(key, value[..n])
    ensures StripRight(value) == value[..n] && StripRight(value[..n]) == value[..n]
  {
    NotSpaces(key);
    var line := Line(key, value);
    n := StripRightIs(value);
    StripRightTo(value[..n], n);
    StripRightTo(line, |key| + 1 + n);
    s := Line(key, value[..n]);
    assert line[..|key| + 1 + n] == s;
  }

  /** A line the writer wrote is read as its key and its value, stripped. */
  lemma OwnLineParses(key: string, value: string)
    requires IsName(key)
    ensures Parsed(Line(key, value)) == Some(Setting(key, Strip(value)))
  {
    var s, n := OwnLineStrips(key, value);
    NotSpaces(key);
    assert s[..|key|] == key && s[|key|] == '=' && s[|key| + 1..] == value[..n];
    FindIs(s, IsEquals, |key|);
  }

  // ---------- The loaded environment ----------

  predicate Sets(parsed: Option<Setting>, key: string) { parsed.Some? && parsed.value.key == key }

  /** The first line the loader reads as this key, or the number of lines. */
  function SettingIndex(parsed: seq<Option<Setting>>, key: string): (i: nat)
    ensures i <= |parsed| && (i < |parsed| ==> Sets(parsed[i], key))
    ensures forall j :: 0 <= j < i ==> !Sets(parsed[j], key)
  {
    if parsed == [] || Sets(parsed[0], key) then 0 else 1 + SettingIndex(parsed[1..], key)
  }

  lemma SettingIndexPrefix(parsed: seq<Option<Setting>>, n: nat, key: string)
    requires n <= |parsed|
    ensures SettingIndex(parsed, key) < n ==> SettingIndex(parsed[..n], key) == SettingIndex(parsed, key)
    ensures SettingIndex(parsed, key) >= n ==> SettingIndex(parsed[..n], key) == n
  {
    var i, m := SettingIndex(parsed, key), SettingIndex(parsed[..n], key);
    assert m < n ==> Sets(parsed[..n][m], key) && parsed[..n][m] == parsed[m];
    assert i < n ==> Sets(parsed[..n][i], key);
  }

  /** Line `i` is the first to set its key, the environment lacks the key, and refuses
      the setting: the load ends there. */
  predicate Stops(env: Env, parsed: seq<Option<Setting>>, keepPg: bool, i: nat) {
    && i < |parsed| && parsed[i].Some? && Refused(parsed[i].value)
    && Restored(parsed[i].value.key, keepPg) && parsed[i].value.key !in env
    && forall j :: 0 <= j < i ==> !Sets(parsed[j], parsed[i].value.key)
  }

  predicate StopsBy(env: Env, parsed: seq<Option<Setting>>, keepPg: bool, n: nat) {
    exists i :: 0 <= i < n && Stops(env, parsed, keepPg, i)
  }

  lemma StopsByPrefix(env: Env, parsed: seq<Option<Setting>>, more: seq<Option<Setting>>, keepPg: bool, n: nat)
    requires n <= |parsed| && n <= |more| && parsed[..n] == more[..n]
    ensures StopsBy(env, parsed, keepPg, n) <==> StopsBy(env, more, keepPg, n)
  {
    assert forall i :: 0 <= i < n ==> parsed[..n][i] == parsed[i] && more[..n][i] == more[i];
    forall i | 0 <= i < n ensures Stops(env, parsed, keepPg, i) <==> Stops(env, more, keepPg, i) {
    }
  }

  /** What the load leaves of `key`. */
  ghost predicate LoadLeaves(env: Env, parsed: seq<Option<Setting>>, keepPg: bool, key: string) {
    var p, i := AppliedAll(env, parsed, keepPg), SettingIndex(parsed, key);
    && (p.raised <==> StopsBy(env, parsed, keepPg, |parsed|))
    && if key in env then key in p.env && p.env[key] == env[key]
       else if i < |parsed| && Restored(key, keepPg) && !StopsBy(env, parsed, keepPg, i + 1)
       then key in p.env && p.env[key] == parsed[i].value.value
       else key !in p.env
  }

  lemma StopsByMore(env: Env, parsed: seq<Option<Setting>>, keepPg: bool, n: nat)
    ensures StopsBy(env, parsed, keepPg, n + 1) <==> StopsBy(env, parsed, keepPg, n) || Stops(env, parsed, keepPg, n)
  {
  }

  /** The last line raises if and only if it is refused, and so ends the load. */
  lemma LastLineRaises(env: Env, parsed: seq<Option<Setting>>, keepPg: bool)
    requires parsed != []
    requires var before, last := parsed[..|parsed| - 1], parsed[|parsed| - 1];
             && (AppliedAll(env, before, keepPg).raised <==> StopsBy(env, before, keepPg, |before|))
             && (last.Some? ==> LoadLeaves(env, before, keepPg, last.value.key))
    ensures AppliedAll(env, parsed, keepPg).raised <==> StopsBy(env, parsed, keepPg, |parsed|)
  {
    var n := |parsed| - 1;
    StopsByPrefix(env, parsed, parsed[..n], keepPg, n);
    StopsByMore(env, parsed, keepPg, n);
    if parsed[n].Some? {
      assert SettingIndex(parsed[..n], parsed[n].value.key) == n
        <==> forall j :: 0 <= j < n ==> !Sets(parsed[..n][j], parsed[n].value.key);
      assert forall j :: 0 <= j < n ==> parsed[..n][j] == parsed[j];
    }
  }

  lemma StopsByKey(env: Env, parsed: seq<Option<Setting>>, keepPg: bool, key: string)
    ensures var n, i := |parsed| - 1, SettingIndex(parsed, key);
            parsed != [] && i < n ==>
              && SettingIndex(parsed[..n], key) == i && parsed[..n][i] == parsed[i]
              && (StopsBy(env, parsed, keepPg, i + 1) <==> StopsBy(env, parsed[..n], keepPg, i + 1))
  {
    var n, i := |parsed| - 1, SettingIndex(parsed, key);
    if parsed != [] && i < n {
      SettingIndexPrefix(parsed, n, key);
      assert parsed[..n][..i + 1] == parsed[..i + 1];
      StopsByPrefix(env, parsed, parsed[..n], keepPg, i + 1);
    }
  }

  lemma LastLineKey(env: Env, parsed: seq<Option<Setting>>, keepPg: bool, key: string)
    requires parsed != []
    requires LoadLeaves(env, parsed[..|parsed| - 1], keepPg, key)
    requires AppliedAll(env, parsed, keepPg).raised <==> StopsBy(env, parsed, keepPg, |parsed|)
    ensures LoadLeaves(env, parsed, keepPg, key)
  {
    var n := |parsed| - 1;
    SettingIndexPrefix(parsed, n, key);
    StopsByKey(env, parsed, keepPg, key);
  }

  /** The first line to set a key wins, unless the environment had it already, or it is
      not to be restored, or the load ended at or above that line. */
  lemma {:induction false} FirstSettingWins(env: Env, parsed: seq<Option<Setting>>, keepPg: bool, key: string)
    ensures LoadLeaves(env, parsed, keepPg, key)
  {
    if parsed != [] {
      var n := |parsed| - 1;
      FirstSettingWins(env, parsed[..n], keepPg, key);
      if parsed[n].Some? {
        FirstSettingWins(env, parsed[..n], keepPg, parsed[n].value.key);
      }
      LastLineRaises(env, parsed, keepPg);
      LastLineKey(env, parsed, keepPg, key);
    }
  }

  /** Where the writer puts a key. */
  predicate IsPlace(lines: seq<string>, key: string, pos: nat) {
    && pos <= |lines| && (pos < |lines| ==> SetsKey(lines[pos], key))
    && forall j :: 0 <= j < pos ==> !SetsKey(lines[j], key)
  }

  /** Does the load end before or at the line that gives the key, once `value` has been
      saved at `pos`? */
  predicate EndsFirst(env: Env, parsed: seq<Option<Setting>>, keepPg: bool, key: string, value: string, pos: nat) {
    var i := SettingIndex(parsed, key);
    if i < pos then StopsBy(env, parsed, keepPg, i + 1)
    else StopsBy(env, parsed, keepPg, pos) || HasNul(value)
  }

  /** After a save over any file at all, a key that the environment lacks and that is to
      be restored is restored if and only if no line applied up to the one that gives it
      is refused for a NUL. What gives it is the saved line, and its value the saved one,
      stripped - unless a line above is also read as that key, as `KEY = old` is: then
      that line wins. */
  lemma SaveTakesEffectUnlessShadowed(env: Env, file: Option<string>, rawKey: string, rawValue: string, pos: nat)
    requires KeyOf(rawKey) != "" && Unbroken(OneLine(rawValue), IsBreak)
    requires IsPlace(LinesOf(file), KeyOf(rawKey), pos)
    requires KeyOf(rawKey) !in env && Restored(KeyOf(rawKey), KeepPg(env))
    ensures var key, value, parsed := KeyOf(rawKey), OneLine(rawValue), ParsedAll(LinesOf(file));
            var out, i := Loaded(env, Persisted(file, rawKey, rawValue)), SettingIndex(parsed, key);
            && (key in out <==> !EndsFirst(env, parsed, KeepPg(env), key, value, pos))
            && (key in out ==> out[key] == if i < pos then parsed[i].value.value else Strip(value))
  {
    if file.Some? {
      SplitsAreUnbroken(Translated(file.value), IsBreak);
    }
    SaveOverLines(env, LinesOf(file), KeyOf(rawKey), OneLine(rawValue), pos);
  }

  lemma SaveOverLines(env: Env, lines: seq<string>, key: string, value: string, pos: nat)
    requires IsName(key) && Unbroken(value, IsBreak) && IsPlace(lines, key, pos)
    requires key !in env && Restored(key, KeepPg(env))
    requires forall i :: 0 <= i < |lines| ==> Unbroken(lines[i], IsBreak)
    ensures var parsed := ParsedAll(lines);
            var out, i := Loaded(env, Some(Joined(Upsert(lines, key, value)))), SettingIndex(parsed, key);
            && (key in out <==> !EndsFirst(env, parsed, KeepPg(env), key, value, pos))
            && (key in out ==> out[key] == if i < pos then parsed[i].value.value else Strip(value))
  {
    UpsertUnbroken(lines, key, value, pos);
    LinesReadBack(env, Upsert(lines, key, value));
    UpsertSets(lines, key, value, pos);
    SavedLineWins(env, ParsedAll(lines), ParsedAll(Upsert(lines, key, value)), key, value, pos);
  }

  lemma SavedLineWins(env: Env, was: seq<Option<Setting>>, now: seq<Option<Setting>>, key: string, value: string,
                      pos: nat)
    requires IsName(key) && key !in env && Restored(key, KeepPg(env))
    requires pos <= |was| && pos < |now| && was[..pos] == now[..pos] && now[pos] == Some(Setting(key, Strip(value)))
    requires SettingIndex(now, key) == var i := SettingIndex(was, key); if i < pos then i else pos
    requires SettingIndex(was, key) < pos ==> now[SettingIndex(was, key)] == was[SettingIndex(was, key)]
    ensures var out, i := AppliedAll(env, now, KeepPg(env)).env, SettingIndex(was, key);
            && (key in out <==> !EndsFirst(env, was, KeepPg(env), key, value, pos))
            && (key in out ==> out[key] == if i < pos then was[i].value.value else Strip(value))
  {
    var i := SettingIndex(was, key);
    FirstSettingWins(env, now, KeepPg(env), key);
    if i < pos {
      EarlierLineStops(env, was, now, KeepPg(env), i, pos);
    } else {
      SavedLineEnds(env, was, now, KeepPg(env), key, value, pos);
    }
  }

  lemma UpsertSets(lines: seq<string>, key: string, value: string, pos: nat)
    requires IsName(key) && IsPlace(lines, key, pos)
    ensures var was, now := ParsedAll(lines), ParsedAll(Upsert(lines, key, value));
            && pos < |now| && was[..pos] == now[..pos] && now[pos] == Some(Setting(key, Strip(value)))
            && SettingIndex(now, key) == (var i := SettingIndex(was, key); if i < pos then i else pos)
            && (SettingIndex(was, key) < pos ==> now[SettingIndex(was, key)] == was[SettingIndex(was, key)])
  {
    UpsertAt(lines, key, value, pos);
    OwnLineParses(key, value);
    var was, now := ParsedAll(lines), ParsedAll(Upsert(lines, key, value));
    assert was[..pos] == now[..pos];
    assert now[pos] == Some(Setting(key, Strip(value)));
    SettingIndexAfter(was, now, key, pos);
  }

  /** The loader ends at the saved line exactly for a NUL in what was saved. */
  lemma SavedLineStops(env: Env, now: seq<Option<Setting>>, keepPg: bool, key: string, value: string, pos: nat)
    requires IsName(key) && key !in env && Restored(key, keepPg)
    requires pos < |now| && now[pos] == Some(Setting(key, Strip(value))) && SettingIndex(now, key) == pos
    ensures Stops(env, now, keepPg, pos) <==> HasNul(value)
  {
    OwnSettingRefused(key, value);
    assert forall j :: 0 <= j < pos ==> !Sets(now[j], key);
  }

  lemma EarlierLineStops(env: Env, was: seq<Option<Setting>>, now: seq<Option<Setting>>, keepPg: bool, i: nat,
                         pos: nat)
    requires i < pos <= |was| && pos <= |now| && was[..pos] == now[..pos]
    ensures StopsBy(env, now, keepPg, i + 1) <==> StopsBy(env, was, keepPg, i + 1)
  {
    PrefixOfPrefix(was, now, i + 1, pos);
    StopsByPrefix(env, was, now, keepPg, i + 1);
  }

  lemma SavedLineEnds(env: Env, was: seq<Option<Setting>>, now: seq<Option<Setting>>, keepPg: bool, key: string,
                      value: string, pos: nat)
    requires IsName(key) && key !in env && Restored(key, keepPg)
    requires pos <= |was| && pos < |now| && was[..pos] == now[..pos] && now[pos] == Some(Setting(key, Strip(value)))
    requires SettingIndex(now, key) == pos
    ensures StopsBy(env, now, keepPg, pos + 1) <==> StopsBy(env, was, keepPg, pos) || HasNul(value)
  {
    StopsByPrefix(env, was, now, keepPg, pos);
    SavedLineStops(env, now, keepPg, key, value, pos);
    StopsByMore(env, now, keepPg, pos);
  }

  lemma PrefixOfPrefix<T>(a: seq<T>, b: seq<T>, m: nat, n: nat)
    requires m <= n <= |a| && n <= |b| && a[..n] == b[..n]
    ensures a[..m] == b[..m]
  {
    assert a[..m] == a[..n][..m] && b[..m] == b[..n][..m];
  }

  lemma LineUnbroken(key: string, value: string)
    requires IsName(key) && Unbroken(value, IsBreak)
    ensures Unbroken(Line(key, value), IsBreak)
  {
  }

  lemma UpsertUnbroken(lines: seq<string>, key: string, value: string, pos: nat)
    requires IsName(key) && Unbroken(value, IsBreak) && IsPlace(lines, key, pos)
    requires forall i :: 0 <= i < |lines| ==> Unbroken(lines[i], IsBreak)
    ensures forall i :: 0 <= i < |Upsert(lines, key, value)| ==> Unbroken(Upsert(lines, key, value)[i], IsBreak)
  {
    UpsertAt(lines, key, value, pos);
    LineUnbroken(key, value);
  }

  lemma SettingIndexAfter(was: seq<Option<Setting>>, now: seq<Option<Setting>>, key: string, pos: nat)
    requires pos <= |was| && pos < |now| && now[..pos] == was[..pos] && Sets(now[pos], key)
    ensures SettingIndex(now, key) == var i := SettingIndex(was, key); if i < pos then i else pos
    ensures SettingIndex(was, key) < pos ==> now[SettingIndex(was, key)] == was[SettingIndex(was, key)]
  {
    SettingIndexPrefix(was, pos, key);
    SettingIndexPrefix(now, pos, key);
    var i := SettingIndex(was, key);
    assert i < pos ==> now[..pos][i] == was[..pos][i];
  }

  // ---------- Files the writer made ----------

  datatype Call = Call(key: string, value: string)

  function Run(calls: seq<Call>): Option<string> {
    if calls == [] then None
    else
      var c := calls[|calls| - 1];
      Persisted(Run(calls[..|calls| - 1]), c.key, c.value)
  }

  /** The settings a run leaves, in the order they were first made. */
  function KeyIndex(settings: seq<Setting>, key: string): (i: nat)
    ensures i <= |settings| && (i < |settings| ==> settings[i].key == key)
    ensures forall j :: 0 <= j < i ==> settings[j].key != key
  {
    if settings == [] || settings[0].key == key then 0 else 1 + KeyIndex(settings[1..], key)
  }

  function Put(settings: seq<Setting>, key: string, value: string): seq<Setting> {
    var i := KeyIndex(settings, key);
    if i < |settings| then settings[i := Setting(key, value)] else settings + [Setting(key, value)]
  }

  function Settings(calls: seq<Call>): seq<Setting> {
    if calls == [] then []
    else
      var c := calls[|calls| - 1];
      var before := Settings(calls[..|calls| - 1]);
      if KeyOf(c.key) == "" then before else Put(before, KeyOf(c.key), OneLine(c.value))
  }

  function LastValue(calls: seq<Call>, key: string): Option<string> {
    if calls == [] then None
    else
      var c := calls[|calls| - 1];
      if KeyOf(c.key) == key then Some(OneLine(c.value)) else LastValue(calls[..|calls| - 1], key)
  }

  function Lines(settings: seq<Setting>): (r: seq<string>)
    ensures |r| == |settings| && forall i :: 0 <= i < |r| ==> r[i] == Line(settings[i].key, settings[i].value)
  {
    if settings == [] then []
    else Lines(settings[..|settings| - 1]) + [Line(settings[|settings| - 1].key, settings[|settings| - 1].value)]
  }

  ghost predicate Kept(settings: seq<Setting>) {
    && (forall i :: 0 <= i < |settings| ==> IsName(settings[i].key) && Unbroken(settings[i].value, IsBreak))
    && forall i, j :: 0 <= i < j < |settings| ==> settings[i].key != settings[j].key
  }

  /** No value holds a line separator other than the two the writer replaces. */
  ghost predicate Plain(calls: seq<Call>) {
    forall i :: 0 <= i < |calls| ==> Unbroken(OneLine(calls[i].value), IsBreak)
  }

  lemma LongerKeyDiffers(key: string, value: string, other: string)
    requires IsName(key) && IsName(other) && |key| != |other|
    ensures !SetsKey(Line(key, value), other)
  {
    var line, start := Line(key, value), other + "=";
    NotSpaces(key);
    NotSpaces(other);
    if |key| < |other| {
      assert line[|key|] == '=' && start[|key|] == other[|key|];
    } else {
      assert line[|other|] == key[|other|] && start[|other|] == '=';
    }
  }

  lemma SetsKeyIff(key: string, value: string, other: string)
    requires IsName(key) && IsName(other)
    ensures SetsKey(Line(key, value), other) <==> key == other
  {
    var line := Line(key, value);
    if |key| != |other| {
      LongerKeyDiffers(key, value, other);
    } else if other + "=" <= line {
      assert (other + "=")[..|other|] == other && line[..|key|] == key;
      assert line[..|other|] == (other + "=")[..|other|];
    }
  }

  lemma PutKeeps(settings: seq<Setting>, key: string, value: string)
    requires Kept(settings) && IsName(key) && Unbroken(value, IsBreak)
    ensures Kept(Put(settings, key, value))
  {
  }

  /** A new setting goes last; an old one changes where it is; the others and the
      order stay. */
  lemma PutIsUpsert(settings: seq<Setting>, key: string, value: string)
    requires Kept(settings) && IsName(key)
    ensures Upsert(Lines(settings), key, value) == Lines(Put(settings, key, value))
  {
    var i := KeyIndex(settings, key);
    forall j | 0 <= j < |settings| ensures SetsKey(Lines(settings)[j], key) <==> settings[j].key == key {
      SetsKeyIff(settings[j].key, settings[j].value, key);
    }
    UpsertAt(Lines(settings), key, value, i);
  }

  lemma {:induction false} SettingsUnbroken(settings: seq<Setting>)
    requires Kept(settings)
    ensures forall i :: 0 <= i < |settings| ==> Unbroken(Lines(settings)[i], IsBreak)
  {
    forall i | 0 <= i < |settings| ensures Unbroken(Lines(settings)[i], IsBreak) {
      LineUnbroken(settings[i].key, settings[i].value);
    }
  }

  lemma {:induction false} FileHoldsTheSettings(calls: seq<Call>)
    requires Plain(calls)
    ensures Kept(Settings(calls))
    ensures Run(calls) == if Settings(calls) == [] then None else Some(Joined(Lines(Settings(calls))))
  {
    if calls != [] {
      var n := |calls| - 1;
      FileHoldsTheSettings(calls[..n]);
      var before := Settings(calls[..n]);
      SettingsUnbroken(before);
      LinesReadBack(map[], Lines(before));
      if KeyOf(calls[n].key) != "" {
        PutKeeps(before, KeyOf(calls[n].key), OneLine(calls[n].value));
        PutIsUpsert(before, KeyOf(calls[n].key), OneLine(calls[n].value));
      }
    }
  }

  lemma {:induction false} SettingsHoldTheLast(calls: seq<Call>, key: string)
    requires key != ""
    ensures var settings := Settings(calls);
            var i := KeyIndex(settings, key);
            LastValue(calls, key) == if i < |settings| then Some(settings[i].value) else None
  {
    if calls != [] {
      var n := |calls| - 1;
      SettingsHoldTheLast(calls[..n], key);
      PutThenLook(Settings(calls[..n]), KeyOf(calls[n].key), OneLine(calls[n].value), key);
    }
  }

  lemma PutThenLook(settings: seq<Setting>, key: string, value: string, other: string)
    ensures var after := Put(settings, key, value);
            var i, k := KeyIndex(settings, other), KeyIndex(after, other);
            if other == key then k < |after| && after[k].value == value
            else (i < |settings| <==> k < |after|) && (i < |settings| ==> after[k] == settings[i])
  {
    var after := Put(settings, key, value);
    var at, i, k := KeyIndex(settings, key), KeyIndex(settings, other), KeyIndex(after, other);
    if other == key {
      assert after[at] == Setting(key, value);
    } else {
      assert forall j :: 0 <= j < |settings| && j != at ==> after[j] == settings[j];
    }
  }

  /** A setting the load applies, and the environment refuses. */
  predicate Refuses(env: Env, s: Setting) { Restored(s.key, KeepPg(env)) && s.key !in env && HasNul(s.value) }

  /** Does the load of a file the writer made get past its first `n` settings? */
  predicate GetsPast(env: Env, settings: seq<Setting>, n: nat) {
    n <= |settings| && forall j :: 0 <= j < n ==> !Refuses(env, settings[j])
  }

  /** From a file the writer made, after any saves of values free of exotic line
      separators: a key that the environment lacks and that is to be restored gets the
      last value saved under it, stripped, if and only if no applied setting at or above
      its line holds a NUL; lines are in the order the keys were first saved. The
      environment's own keys and the database keys are left alone; nothing else appears. */
  lemma {:induction false} SavedSettingsAreRestored(calls: seq<Call>, env: Env, key: string)
    requires Plain(calls)
    ensures var settings := Settings(calls);
            RestoresLast(env, Loaded(env, Run(calls)), key, LastValue(calls, key),
                         GetsPast(env, settings, KeyIndex(settings, key) + 1))
  {
    var out, settings, last := Loaded(env, Run(calls)), Settings(calls), LastValue(calls, key);
    assert SettingLeaves(env, out, settings, key) by {
      WrittenFileLoads(calls, env, key);
    }
    assert IsLast(settings, key, last) by {
      if key != "" {
        SettingsHoldTheLast(calls, key);
      }
    }
    SettingIsLast(env, out, settings, key, last);
  }

  /** `out` has of `key` what `env` had; failing that the value last saved, if the key is
      to be restored and the load gets past its line; failing that nothing. */
  ghost predicate RestoresLast(env: Env, out: Env, key: string, last: Option<string>, getsPast: bool) {
    if key in env then key in out && out[key] == env[key]
    else if Restored(key, KeepPg(env)) && last.Some? && getsPast then key in out && out[key] == Strip(last.value)
    else key !in out
  }

  predicate IsLast(settings: seq<Setting>, key: string, last: Option<string>) {
    key == "" || last == var k := KeyIndex(settings, key); if k < |settings| then Some(settings[k].value) else None
  }

  lemma {:induction false} SettingIsLast(env: Env, out: Env, settings: seq<Setting>, key: string, last: Option<string>)
    requires SettingLeaves(env, out, settings, key)
    requires IsLast(settings, key, last)
    ensures RestoresLast(env, out, key, last, GetsPast(env, settings, KeyIndex(settings, key) + 1))
  {
  }

  lemma {:induction false} WrittenFileLoads(calls: seq<Call>, env: Env, key: string)
    requires Plain(calls)
    ensures SettingLeaves(env, Loaded(env, Run(calls)), Settings(calls), key)
  {
    var settings := Settings(calls);
    FileHoldsTheSettings(calls);
    SettingsUnbroken(settings);
    LinesReadBack(env, Lines(settings));
    SettingsParsed(settings);
    SettingsLoad(env, settings, ParsedAll(Lines(settings)), key);
  }

  /** What a load of these settings, written one to a line, leaves of a key. */
  ghost predicate SettingLeaves(env: Env, out: Env, settings: seq<Setting>, key: string) {
    var k := KeyIndex(settings, key);
    if key in env then key in out && out[key] == env[key]
    else if Restored(key, KeepPg(env)) && k < |settings| && GetsPast(env, settings, k + 1)
    then key in out && out[key] == Strip(settings[k].value)
    else key !in out
  }

  lemma {:induction false} SettingsLoad(env: Env, settings: seq<Setting>, parsed: seq<Option<Setting>>, key: string)
    requires Kept(settings) && |parsed| == |settings|
    requires forall i :: 0 <= i < |settings| ==> parsed[i] == Some(Setting(settings[i].key, Strip(settings[i].value)))
    ensures SettingLeaves(env, AppliedAll(env, parsed, KeepPg(env)).env, settings, key)
  {
    var k := KeyIndex(settings, key);
    FirstSettingWins(env, parsed, KeepPg(env), key);
    SameIndex(settings, parsed, key);
    if k < |settings| {
      StopsIffSomeRefuses(env, settings, parsed, k + 1);
    }
    LineIsSetting(env, settings, parsed, key, k);
  }

  lemma {:induction false} LineIsSetting(env: Env, settings: seq<Setting>, parsed: seq<Option<Setting>>, key: string, k: nat)
    requires LoadLeaves(env, parsed, KeepPg(env), key)
    requires |parsed| == |settings| && SettingIndex(parsed, key) == KeyIndex(settings, key) == k
    requires k < |settings| ==> parsed[k] == Some(Setting(settings[k].key, Strip(settings[k].value)))
    requires k < |settings| ==> (StopsBy(env, parsed, KeepPg(env), k + 1) <==> !GetsPast(env, settings, k + 1))
    ensures SettingLeaves(env, AppliedAll(env, parsed, KeepPg(env)).env, settings, key)
  {
  }

  lemma {:induction false} SameIndex(settings: seq<Setting>, parsed: seq<Option<Setting>>, key: string)
    requires |parsed| == |settings|
    requires forall i :: 0 <= i < |settings| ==> parsed[i] == Some(Setting(settings[i].key, Strip(settings[i].value)))
    ensures SettingIndex(parsed, key) == KeyIndex(settings, key)
  {
    var i, k := SettingIndex(parsed, key), KeyIndex(settings, key);
    assert i < |settings| ==> settings[i].key == key;
    assert k < |settings| ==> Sets(parsed[k], key);
  }

  lemma {:induction false} StopsIffRefuses(env: Env, settings: seq<Setting>, parsed: seq<Option<Setting>>, j: nat)
    requires Kept(settings) && |parsed| == |settings| && j < |settings|
    requires forall i :: 0 <= i < |settings| ==> parsed[i] == Some(Setting(settings[i].key, Strip(settings[i].value)))
    ensures Stops(env, parsed, KeepPg(env), j) <==> Refuses(env, settings[j])
  {
    OwnSettingRefused(settings[j].key, settings[j].value);
    assert parsed[j].value == Setting(settings[j].key, Strip(settings[j].value));
    assert forall i :: 0 <= i < j ==> parsed[i].value.key == settings[i].key != settings[j].key;
  }

  lemma {:induction false} StopsIffSomeRefuses(env: Env, settings: seq<Setting>, parsed: seq<Option<Setting>>, n: nat)
    requires Kept(settings) && |parsed| == |settings| && n <= |settings|
    requires forall i :: 0 <= i < |settings| ==> parsed[i] == Some(Setting(settings[i].key, Strip(settings[i].value)))
    ensures StopsBy(env, parsed, KeepPg(env), n) <==> !GetsPast(env, settings, n)
  {
    forall j: nat | j < n ensures Stops(env, parsed, KeepPg(env), j) <==> Refuses(env, settings[j]) {
      StopsIffRefuses(env, settings, parsed, j);
    }
  }

  /** Every saved key comes back if and only if no applied one was last saved with a
      NUL in its value. */
  lemma {:induction false} AllSettingsRestoredIff(calls: seq<Call>, env: Env)
    requires Plain(calls)
    ensures var out := Loaded(env, Run(calls));
            (forall key :: Applies(calls, env, key) ==> key in out && out[key] == Strip(LastValue(calls, key).value))
            <==> (forall key :: Applies(calls, env, key) ==> !HasNul(LastValue(calls, key).value))
  {
    var out, settings := Loaded(env, Run(calls)), Settings(calls);
    if forall key :: Applies(calls, env, key) ==> !HasNul(LastValue(calls, key).value) {
      NothingRefused(calls, env);
      forall key | Applies(calls, env, key) ensures key in out && out[key] == Strip(LastValue(calls, key).value) {
        SavedSettingsAreRestored(calls, env, key);
        SettingsHoldTheLast(calls, key);
      }
    } else {
      var key :| Applies(calls, env, key) && HasNul(LastValue(calls, key).value);
      SavedSettingsAreRestored(calls, env, key);
      SettingsHoldTheLast(calls, key);
      assert Refuses(env, settings[KeyIndex(settings, key)]);
    }
  }

  /** Saved, to be restored, and not the environment's own. */
  predicate Applies(calls: seq<Call>, env: Env, key: string) {
    key !in env && Restored(key, KeepPg(env)) && LastValue(calls, key).Some?
  }

  lemma {:induction false} NothingRefused(calls: seq<Call>, env: Env)
    requires Plain(calls)
    requires forall key :: Applies(calls, env, key) ==> !HasNul(LastValue(calls, key).value)
    ensures GetsPast(env, Settings(calls), |Settings(calls)|)
  {
    var settings := Settings(calls);
    FileHoldsTheSettings(calls);
    forall j | 0 <= j < |settings| ensures !Refuses(env, settings[j]) {
      SettingsHoldTheLast(calls, settings[j].key);
      assert KeyIndex(settings, settings[j].key) == j;
    }
  }

  lemma {:induction false} SettingsParsed(settings: seq<Setting>)
    requires Kept(settings)
    ensures var parsed := ParsedAll(Lines(settings));
            forall i :: 0 <= i < |settings| ==> parsed[i] == Some(Setting(settings[i].key, Strip(settings[i].value)))
  {
    var parsed := ParsedAll(Lines(settings));
    forall i | 0 <= i < |settings|
      ensures parsed[i] == Some(Setting(settings[i].key, Strip(settings[i].value)))
    {
      OwnLineParses(settings[i].key, settings[i].value);
    }
  }

  // ---------- Where it fails ----------

  lemma FirstLineWins(env: Env, lines: seq<string>, key: string, value: string)
    requires lines != [] && lines[0] == Line(key, value) && IsName(key) && key !in env && Restored(key, KeepPg(env))
    ensures var out := AppliedAll(env, ParsedAll(lines), KeepPg(env)).env;
            if HasNul(value) then out == env else key in out && out[key] == Strip(value)
  {
    OwnLineParses(key, value);
    OwnSettingRefused(key, value);
    FirstParsedWins(env, ParsedAll(lines), Setting(key, Strip(value)));
  }

  lemma FirstParsedWins(env: Env, parsed: seq<Option<Setting>>, s: Setting)
    requires parsed != [] && parsed[0] == Some(s) && s.key !in env && Restored(s.key, KeepPg(env))
    ensures var out := AppliedAll(env, parsed, KeepPg(env)).env;
            if Refused(s) then out == env else s.key in out && out[s.key] == s.value
  {
    if Refused(s) {
      FirstRaises(env, parsed, s);
    } else {
      FirstSettingWins(env, parsed, KeepPg(env), s.key);
      assert SettingIndex(parsed, s.key) == 0;
    }
  }

  lemma FirstRaises(env: Env, parsed: seq<Option<Setting>>, s: Setting)
    requires parsed != [] && parsed[0] == Some(s) && s.key !in env && Restored(s.key, KeepPg(env)) && Refused(s)
    ensures AppliedAll(env, parsed, KeepPg(env)) == Progress(env, true)
  {
    var one := parsed[..1];
    assert one[..0] == [];
    assert AppliedAll(env, one, KeepPg(env)) == Applied(AppliedAll(env, [], KeepPg(env)), one[0], KeepPg(env));
    RaisedStays(env, parsed, 1, KeepPg(env));
  }

  /** A value with a NUL ends the load: saved first, it is lost and so is every key
      saved after it. */
  lemma NulEndsTheLoad(rawKey: string, rawValue: string, other: string, value: string)
    requires KeyOf(rawKey) != "" && HasNul(rawValue) && Unbroken(OneLine(rawValue), IsBreak)
    requires KeyOf(other) != "" && KeyOf(other) != KeyOf(rawKey) && Unbroken(OneLine(value), IsBreak)
    requires Restored(KeyOf(rawKey), false)
    ensures Loaded(map[], Persisted(Persisted(None, rawKey, rawValue), other, value)) == map[]
  {
    var key, first := KeyOf(rawKey), Line(KeyOf(rawKey), OneLine(rawValue));
    var i :| 0 <= i < |rawValue| && rawValue[i] == '\0';
    assert OneLine(rawValue)[i] == '\0';
    LineUnbroken(key, OneLine(rawValue));
    LinesReadBack(map[], [first]);
    SetsKeyIff(key, OneLine(rawValue), KeyOf(other));
    UpsertUnbroken([first], KeyOf(other), OneLine(value), 1);
    LinesReadBack(map[], Upsert([first], KeyOf(other), OneLine(value)));
    FirstLineWins(map[], Upsert([first], KeyOf(other), OneLine(value)), key, OneLine(rawValue));
  }

  function SpacedLine(key: string, value: string): string { key + " =" + value }

  lemma SpacedLineStrips(key: string, value: string) returns (s: string, n: nat)
    requires IsName(key)
    ensures n <= |value| && s == Strip(SpacedLine(key, value)) == SpacedLine(key, value[..n])
    ensures StripRight(value) == value[..n] && StripRight(value[..n]) == value[..n]
  {
    NotSpaces(key);
    var line := SpacedLine(key, value);
    n := StripRightIs(value);
    StripRightTo(value[..n], n);
    StripRightTo(line, |key| + 2 + n);
    s := SpacedLine(key, value[..n]);
    assert line[..|key| + 2 + n] == s;
  }

  lemma SpacedLineParses(key: string, value: string)
    requires IsName(key)
    ensures Parsed(SpacedLine(key, value)) == Some(Setting(key, Strip(value)))
  {
    var s, n := SpacedLineStrips(key, value);
    NotSpaces(key);
    assert s[..|key| + 1] == key + " " && s[|key| + 1] == '=' && s[|key| + 2..] == value[..n];
    FindIs(s, IsEquals, |key| + 1);
    StripRightTo(key + " ", |key|);
    assert (key + " ")[..|key|] == key;
  }

  lemma SpacedLineIsNotSet(key: string, value: string)
    ensures !SetsKey(SpacedLine(key, value), key)
  {
    assert (key + "=")[|key|] != SpacedLine(key, value)[|key|];
  }

  lemma SpacedLineUnbroken(key: string, value: string)
    requires IsName(key) && Unbroken(value, IsBreak)
    ensures Unbroken(SpacedLine(key, value), IsBreak)
  {
    assert SpacedLine(key, value) == key + (" =" + value);
  }

  lemma SpacedLineAlone(key: string, value: string)
    requires IsName(key)
    ensures IsPlace([SpacedLine(key, value)], key, 1)
    ensures var parsed := ParsedAll([SpacedLine(key, value)]);
            SettingIndex(parsed, key) == 0 && parsed[0] == Some(Setting(key, Strip(value)))
  {
    SpacedLineIsNotSet(key, value);
    SpacedLineParses(key, value);
    assert Sets(ParsedAll([SpacedLine(key, value)])[0], key);
  }

  /** A line set by hand with a space before its `=` is not the writer's to replace,
      yet is the first the loader reads: the save never takes effect. (With a NUL in the
      line by hand, nothing in the file does.) */
  lemma HandSpacedLineShadowsTheSave(rawKey: string, rawValue: string, byHand: string)
    requires KeyOf(rawKey) != "" && Unbroken(OneLine(rawValue), IsBreak) && Unbroken(byHand, IsBreak)
    requires Restored(KeyOf(rawKey), false)
    ensures var key, file := KeyOf(rawKey), Some(Joined([SpacedLine(KeyOf(rawKey), byHand)]));
            var out := Loaded(map[], Persisted(file, rawKey, rawValue));
            && (key in out <==> !HasNul(byHand))
            && (key in out ==> out[key] == Strip(byHand))
  {
    var key, lines := KeyOf(rawKey), [SpacedLine(KeyOf(rawKey), byHand)];
    SpacedLineAlone(key, byHand);
    SpacedLineUnbroken(key, byHand);
    LinesReadBack(map[], lines);
    SaveOverLines(map[], lines, key, OneLine(rawValue), 1);
    SpacedLineStops(ParsedAll(lines), key, byHand);
  }

  lemma SpacedLineStops(parsed: seq<Option<Setting>>, key: string, byHand: string)
    requires IsName(key) && Restored(key, false)
    requires |parsed| == 1 && parsed[0] == Some(Setting(key, Strip(byHand)))
    ensures SettingIndex(parsed, key) == 0 && (StopsBy(map[], parsed, false, 1) <==> HasNul(byHand))
  {
    assert Sets(parsed[0], key);
    SavedLineStops(map[], parsed, false, key, byHand, 0);
    StopsByMore(map[], parsed, false, 0);
  }
}
