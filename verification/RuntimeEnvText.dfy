/** What the writer and the loader of runtime.env make of single characters: names,
    surrounding space, comments, and the newlines of an editor. */
module RuntimeEnvText {

  import opened RuntimeEnv
  import opened Wrappers

  // ---------- Names ----------

  /** Of a single character the ASCII letters, the digits and the underscore are kept;
      by `KeyOfJoined` so it is of each character of a name. */
  lemma OneCharKey(c: char)
    ensures KeyOf([c])
         == if 'A' <= c <= 'Z' || 'a' <= c <= 'z' || '0' <= c <= '9' || c == '_' then [c] else ""
  {
    assert [c][1..] == "";
  }

  // ---------- Space ----------

  ghost predicate Blank(s: string) { forall i :: 0 <= i < |s| ==> IsSpace(s[i]) }

  /** Nothing to strip at either end. */
  ghost predicate Trim(s: string) { s != "" ==> !IsSpace(s[0]) && !IsSpace(s[|s| - 1]) }

  lemma {:induction false} StripLeftDrops(before: string, text: string)
    requires Blank(before) && (text != "" ==> !IsSpace(text[0]))
    ensures StripLeft(before + text) == text
  {
    if before == "" {
      assert before + text == text;
    } else {
      assert (before + text)[1..] == before[1..] + text;
      StripLeftDrops(before[1..], text);
    }
  }

  /** Exactly the surrounding space goes. */
  lemma StripIs(before: string, text: string, after: string)
    requires Blank(before) && Trim(text) && Blank(after)
    ensures Strip(before + text + after) == text
  {
    var s := before + text + after;
    if text == "" {
      StripRightTo(s, 0);
      assert s[..0] == "";
    } else {
      var n := |before + text|;
      assert s[n - 1] == text[|text| - 1];
      StripRightTo(s, n);
      assert s[..n] == before + text;
      StripLeftDrops(before, text);
    }
  }

  // ---------- Lines ----------

  /** A comment, a blank line, and a line without `=` are nothing to the loader. */
  lemma NotASetting(before: string, text: string, after: string)
    requires Blank(before) && Trim(text) && Blank(after)
    requires text != "" && text[0] != '#' ==> forall i :: 0 <= i < |text| ==> text[i] != '='
    ensures Parsed(before + text + after) == None
  {
    StripIs(before, text, after);
    if text != "" && text[0] != '#' {
      FindIs(text, IsEquals, |text|);
    }
  }

  /** Any other line is read as the key before its first `=` and the value after it,
      space around either ignored. */
  lemma SettingIs(a: string, key: string, b: string, c: string, value: string, d: string)
    requires Blank(a) && Blank(b) && Blank(c) && Blank(d) && Trim(key) && Trim(value)
    requires key != "" && key[0] != '#' && forall i :: 0 <= i < |key| ==> key[i] != '='
    ensures Parsed(a + key + b + "=" + c + value + d) == Some(Setting(key, value))
  {
    var line := a + key + b + "=" + c + value + d;
    var head := key + b;
    StripIs("", key, b);
    assert "" + key + b == head;
    StripIs(c, value, "");
    assert c + value + "" == c + value;
    assert forall i :: 0 <= i < |head| ==> !IsEquals(head[i]) by {
      SpacesAreNotEquals(b);
    }
    if value == "" {
      SettingSplits(line, a, head, "", c + value + d);
    } else {
      SettingSplits(line, a, head, c + value, d);
    }
    StripIs("", "", "");
    assert "" + "" + "" == "";
  }

  lemma SpacesAreNotEquals(s: string)
    requires Blank(s)
    ensures forall i :: 0 <= i < |s| ==> s[i] != '='
  {
    forall i | 0 <= i < |s| ensures s[i] != '=' {
      assert IsSpace(s[i]);
    }
  }

  lemma SettingSplits(line: string, a: string, head: string, tail: string, d: string)
    requires Blank(a) && Blank(d) && head != "" && !IsSpace(head[0]) && head[0] != '#'
    requires tail != "" ==> !IsSpace(tail[|tail| - 1])
    requires forall i :: 0 <= i < |head| ==> !IsEquals(head[i])
    requires line == a + (head + "=" + tail) + d
    ensures Parsed(line) == Some(Setting(Strip(head), Strip(tail)))
  {
    var s := head + "=" + tail;
    assert s[|s| - 1] == if tail == "" then '=' else tail[|tail| - 1];
    StripIs(a, s, d);
    FindIs(s, IsEquals, |head|);
    assert s[..|head|] == head && s[|head| + 1..] == tail;
  }

  // ---------- Newlines ----------

  function JoinedBy(lines: seq<string>, newline: string): string {
    if lines == [] then "" else lines[0] + newline + JoinedBy(lines[1..], newline)
  }

  lemma {:induction false} TranslatedHead(line: string, rest: string)
    requires forall i :: 0 <= i < |line| ==> line[i] != '\r'
    ensures Translated(line + rest) == line + Translated(rest)
  {
    if line == "" {
      assert line + rest == rest;
    } else {
      assert (line + rest)[1..] == line[1..] + rest;
      TranslatedHead(line[1..], rest);
    }
  }

  /** A file is read as the same lines whether they end in LF, CR LF or CR. */
  lemma {:induction false} AnyNewlineReads(lines: seq<string>, newline: string)
    requires newline in {"\n", "\r\n", "\r"}
    requires forall i :: 0 <= i < |lines| ==> Unbroken(lines[i], IsBreak)
    ensures Translated(JoinedBy(lines, newline)) == Joined(lines)
    ensures LinesOf(Some(JoinedBy(lines, newline))) == lines
  {
    if lines != [] {
      AnyNewlineReads(lines[1..], newline);
      NewlineReads(lines, newline);
    }
    UnbrokenLinesSplit(lines, IsBreak);
  }

  lemma NewlineReads(lines: seq<string>, newline: string)
    requires newline in {"\n", "\r\n", "\r"} && lines != []
    requires forall i :: 0 <= i < |lines| ==> Unbroken(lines[i], IsBreak)
    requires Translated(JoinedBy(lines[1..], newline)) == Joined(lines[1..])
    ensures Translated(JoinedBy(lines, newline)) == Joined(lines)
  {
    var rest := JoinedBy(lines[1..], newline);
    NewlineTranslates(newline, rest, lines);
    assert Unbroken(lines[0], IsBreak);
    FirstLineReads(lines[0], newline, rest, Joined(lines[1..]));
  }

  lemma FirstLineReads(line: string, newline: string, rest: string, read: string)
    requires Unbroken(line, IsBreak) && Translated(newline + rest) == "\n" + read
    ensures Translated(line + newline + rest) == line + "\n" + read
  {
    assert line + newline + rest == line + (newline + rest);
    TranslatedHead(line, newline + rest);
    assert line + ("\n" + read) == line + "\n" + read;
  }

  lemma NewlineTranslates(newline: string, rest: string, lines: seq<string>)
    requires newline in {"\n", "\r\n", "\r"} && lines != [] && rest == JoinedBy(lines[1..], newline)
    requires forall i :: 0 <= i < |lines| ==> Unbroken(lines[i], IsBreak)
    ensures Translated(newline + rest) == "\n" + Translated(rest)
  {
    if newline == "\r\n" {
      assert (newline + rest)[2..] == rest;
    } else {
      assert (newline + rest)[1..] == rest;
      if newline == "\r" && rest != "" {
        assert Unbroken(lines[1], IsBreak);
        assert rest[0] == if lines[1] == "" then '\r' else lines[1][0];
      }
    }
  }

  // ---------- One save ----------

  /** Saving a name into a new file and loading that: the environment gains exactly the
      name with its value, stripped - unless it has the name already, the name is a
      database key it does not keep, or the value holds a NUL. */
  lemma SavedNameIsRestored(env: Env, key: string, value: string)
    requires IsName(key) && Unbroken(OneLine(value), IsBreak)
    ensures var keeps := "AIFORGE_KEEP_PG" in env && env["AIFORGE_KEEP_PG"] == "1";
            Loaded(env, Persisted(None, key, value))
            == if key in env || (key in DB_KEYS && !keeps) || '\0' in value then env
               else env[key := Strip(OneLine(value))]
  {
    NamesAreKept(key);
    var line := Line(key, OneLine(value));
    LineUnbroken(key, OneLine(value));
    LinesReadBack(env, [line]);
    OwnLineParses(key, OneLine(value));
    OwnSettingRefused(key, OneLine(value));
    assert HasNul(OneLine(value)) <==> '\0' in value by {
      if '\0' in value {
        var i :| 0 <= i < |value| && value[i] == '\0';
        assert OneLine(value)[i] == '\0';
      }
    }
    var parsed := ParsedAll([line]);
    assert parsed[..0] == [];
    assert AppliedAll(env, parsed, KeepPg(env)) == Applied(Progress(env, false), parsed[0], KeepPg(env));
  }
}
