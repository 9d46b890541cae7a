/**
 * The environment-template check run before a build: each `.env.example`
 * file is read line by line, the variable names it declares are collected
 * into a set, and the required names absent from that set are reported. The
 * run fails when a file is missing or lacks a required name; both files are
 * always checked.
 */
module EnvCheck {
  import opened Wrappers
  import opened Js

  /** A template file: its path, the last segment of the path, and its text when it exists. */
  datatype EnvFile = EnvFile(path: string, basename: string, contents: Option<string>)

  const BackendRequired: seq<string> := ["JWT_SECRET", "DB_HOST", "DB_USER", "DB_PASSWORD", "DB_NAME"]
  const FrontendRequired: seq<string> := ["VITE_API_URL"]

  /** `contents.split(/\r?\n/)`: pieces between line feeds, a carriage return right before a line feed going with it. */
  function SplitLines(s: string): (lines: seq<string>)
    ensures |lines| >= 1
    ensures forall i :: 0 <= i < |lines| ==> '\n' !in lines[i]
    decreases |s|
  {
    if s == [] then [""]
    else if s[0] == '\n' then [""] + SplitLines(s[1..])
    else if |s| >= 2 && s[0] == '\r' && s[1] == '\n' then [""] + SplitLines(s[2..])
    else
      var t := SplitLines(s[1..]);
      assert forall i :: 1 <= i < |t| ==> ([[s[0]] + t[0]] + t[1..])[i] == t[i];
      [[s[0]] + t[0]] + t[1..]
  }

  /** A text without carriage returns is its lines joined by line feeds. */
  lemma {:induction false} SplitLinesRestores(s: string)
    requires '\r' !in s
    ensures Join(SplitLines(s), "\n") == s
    decreases |s|
  {
    if s != [] {
      var t := SplitLines(s[1..]);
      assert Join(t, "\n") == s[1..] by {
        assert forall c :: c in s[1..] ==> c in s;
        SplitLinesRestores(s[1..]);
      }
      assert s[0] != '\r' by {
        assert s[0] in s;
      }
      if s[0] == '\n' {
        assert Join(SplitLines(s), "\n") == "\n" + Join(t, "\n") by {
          assert SplitLines(s) == [""] + t;
          assert ([""] + t)[1..] == t;
        }
      } else {
        var p := [[s[0]] + t[0]] + t[1..];
        assert Join(SplitLines(s), "\n") == [s[0]] + Join(t, "\n") by {
          assert SplitLines(s) == p;
          if |t| > 1 {
            assert p[1..] == t[1..];
          }
        }
      }
      assert s == [s[0]] + s[1..];
    }
  }

  /** What `String.prototype.trim` removes: white space and line terminators. */
  predicate IsSpace(c: char) {
    c == '\t' || c == '\n' || c == '\U{000B}' || c == '\U{000C}' || c == '\r' || c == ' '
    || c == '\U{00A0}' || c == '\U{1680}' || ('\U{2000}' <= c <= '\U{200A}')
    || c == '\U{2028}' || c == '\U{2029}' || c == '\U{202F}' || c == '\U{205F}'
    || c == '\U{3000}' || c == '\U{FEFF}'
  }

  /** The text with its leading white space removed. */
  function TrimStart(s: string): (r: string)
    ensures |r| <= |s| && r == s[|s| - |r|..]
    ensures forall i :: 0 <= i < |s| - |r| ==> IsSpace(s[i])
    ensures r == [] || !IsSpace(r[0])
  {
    if s != [] && IsSpace(s[0]) then TrimStart(s[1..]) else s
  }

  /** The text with its trailing white space removed. */
  function TrimEnd(s: string): (r: string)
    ensures |r| <= |s| && r == s[..|r|]
    ensures forall i :: |r| <= i < |s| ==> IsSpace(s[i])
    ensures r == [] || !IsSpace(r[|r| - 1])
  {
    if s != [] && IsSpace(s[|s| - 1]) then TrimEnd(s[..|s| - 1]) else s
  }

  /** `line.trim()`. */
  function Trim(s: string): string {
    TrimEnd(TrimStart(s))
  }

  /** `s.indexOf(c)`: the first index holding `c`, or -1. */
  function IndexOf(s: string, c: char): (r: int)
    ensures -1 <= r < |s|
    ensures r == -1 <==> c !in s
    ensures r >= 0 ==> s[r] == c && c !in s[..r]
  {
    if s == [] then -1
    else if s[0] == c then 0
    else
      var r := IndexOf(s[1..], c);
      assert s[1..][..if r < 0 then 0 else r] == s[1..1 + (if r < 0 then 0 else r)];
      assert forall x :: x in s ==> x == s[0] || x in s[1..];
      if r == -1 then -1 else r + 1
  }

  /** The name one line of the template declares, if any. */
  function KeyOfLine(line: string): (k: Option<string>)
    ensures k.Some? ==> k.value != "" && '=' !in k.value
  {
    var t := Trim(line);
    if t == "" || t[0] == '#' then None
    else
      var eq := IndexOf(t, '=');
      if eq > 0 then Some(t[..eq]) else None
  }

  /**
   * A line declares a name exactly when, once trimmed, it is not a comment and
   * has an `=` after its first character; the name is the non-empty text
   * before the first `=`, starting with neither white space nor `#`.
   */
  lemma {:induction false} KeyOfLineSpec(line: string)
    ensures var t := Trim(line);
            KeyOfLine(line).Some? <==> t != [] && t[0] != '#' && t[0] != '=' && '=' in t
    ensures var t := Trim(line);
            KeyOfLine(line).Some? ==>
              var k := KeyOfLine(line).value;
              k != [] && k + "=" <= t && '=' !in k && k[0] != '#' && !IsSpace(k[0])
  {
    KeyOfLineDeclares(line);
    if KeyOfLine(line).Some? {
      KeyOfLineName(line);
    }
  }

  /** When a trimmed line declares a name. */
  lemma {:induction false} KeyOfLineDeclares(line: string)
    ensures var t := Trim(line);
            KeyOfLine(line).Some? <==> t != [] && t[0] != '#' && t[0] != '=' && '=' in t
  {
    var t := Trim(line);
    if t != [] && t[0] != '#' && t[0] != '=' && '=' in t {
      assert IndexOf(t, '=') != 0;
    }
  }

  /** The declared name: the text before the first `=` of the trimmed line. */
  lemma {:induction false} KeyOfLineName(line: string)
    requires KeyOfLine(line).Some?
    ensures var t := Trim(line);
            var k := KeyOfLine(line).value;
            k + "=" <= t && k[0] != '#' && !IsSpace(k[0])
  {
    var t0 := TrimStart(line);
    var t := TrimEnd(t0);
    var k := KeyOfLine(line).value;
    var eq := IndexOf(t, '=');
    assert k == t[..eq];
    assert k + "=" == t[..eq + 1];
    assert k[0] == t0[0] by {
      assert t == t0[..|t|];
    }
  }

  /** What each line declares, line by line. */
  function Declared(lines: seq<string>): (r: seq<Option<string>>)
    ensures |r| == |lines|
    ensures forall i :: 0 <= i < |lines| ==> r[i] == KeyOfLine(lines[i])
  {
    seq(|lines|, i requires 0 <= i < |lines| => KeyOfLine(lines[i]))
  }

  /** The names present in a sequence of optional names. */
  function NameSet(names: seq<Option<string>>): set<string> {
    if names == [] then {}
    else
      var last := names[|names| - 1];
      NameSet(names[..|names| - 1]) + (if last.Some? then {last.value} else {})
  }

  /** A name is in the set exactly when it occurs in the sequence. */
  lemma {:induction false} NameSetMembership(names: seq<Option<string>>, k: string)
    ensures k in NameSet(names) <==> Some(k) in names
    decreases |names|
  {
    if names != [] {
      var init := names[..|names| - 1];
      NameSetMembership(init, k);
      assert names == init + [names[|names| - 1]];
    }
  }

  /** Extending a prefix by one more optional name adds that name, if any. */
  lemma {:induction false} NameSetPrefixStep(names: seq<Option<string>>, i: nat)
    requires i < |names|
    ensures NameSet(names[..i + 1]) ==
      NameSet(names[..i]) + (if names[i].Some? then {names[i].value} else {})
  {
    assert names[..i + 1][..i] == names[..i];
  }

  /** The names the template declares. */
  function KeysOf(lines: seq<string>): set<string> {
    NameSet(Declared(lines))
  }

  /** A name is among the template's names exactly when some line declares it. */
  lemma {:induction false} KeysOfMembership(lines: seq<string>, k: string)
    ensures k in KeysOf(lines) <==> exists i :: 0 <= i < |lines| && KeyOfLine(lines[i]) == Some(k)
  {
    NameSetMembership(Declared(lines), k);
    if Some(k) in Declared(lines) {
      var i :| 0 <= i < |lines| && Declared(lines)[i] == Some(k);
      assert KeyOfLine(lines[i]) == Some(k);
    }
  }

  /** The `forEach` over the lines: every declared name is added to the set. */
  method CollectKeys(lines: seq<string>) returns (found: set<string>)
    ensures found == KeysOf(lines)
  {
    ghost var declared := Declared(lines);
    found := {};
    var i := 0;
    while i < |lines|
      invariant 0 <= i <= |lines|
      invariant found == NameSet(declared[..i])
    {
      var key := KeyOfLine(lines[i]);
      assert key == declared[i];
      NameSetPrefixStep(declared, i);
      if key.Some? {
        found := found + {key.value};
      }
      i := i + 1;
    }
    assert declared[..i] == declared;
  }

  /** `parseEnvExample`: nothing for a missing file, else the set of declared names. */
  method ParseEnvExample(contents: Option<string>) returns (keys: Option<set<string>>)
    ensures contents.None? ==> keys == None
    ensures contents.Some? ==> keys == Some(KeysOf(SplitLines(contents.value)))
  {
    if contents.None? {
      return None;
    }
    var found := CollectKeys(SplitLines(contents.value));
    keys := Some(found);
  }

  /** `required.filter(k => !keys.has(k))`. */
  function Missing(required: seq<string>, keys: set<string>): (r: seq<string>)
    ensures |r| <= |required|
    ensures forall k :: k in r <==> k in required && k !in keys
  {
    if required == [] then []
    else (if required[0] in keys then [] else [required[0]]) + Missing(required[1..], keys)
  }

  /**
   * The filter keeps the required order: the names missing from a
   * concatenation are those missing from each part, in turn, and a single
   * name is kept exactly when it is absent.
   */
  lemma {:induction false} MissingAppend(a: seq<string>, b: seq<string>, keys: set<string>)
    ensures Missing(a + b, keys) == Missing(a, keys) + Missing(b, keys)
    decreases |a|
  {
    if a == [] {
      assert a + b == b;
    } else {
      assert (a + b)[1..] == a[1..] + b;
      MissingAppend(a[1..], b, keys);
    }
  }

  lemma {:induction false} MissingSingle(k: string, keys: set<string>)
    ensures Missing([k], keys) == if k in keys then [] else [k]
  {
    assert [k][1..] == [];
  }

  /** The report line and verdict of one file. */
  datatype Report = Report(ok: bool, line: string)

  /**
   * The console line for one template: the path when the file is missing,
   * otherwise the base name with either a success note or the missing names
   * in the order they are required.
   */
  predicate ReportsOn(file: EnvFile, required: seq<string>, line: string) {
    && (file.contents.None? ==> line == "Missing file: " + file.path)
    && (file.contents.Some? ==>
          var missing := Missing(required, KeysOf(SplitLines(file.contents.value)));
          line == if missing == [] then file.basename + " contains required keys."
                  else file.basename + " missing required keys: " + Join(missing, ", "))
  }

  /** `ensureKeysExist`: a missing file or missing names fail, with the line written to the console. */
  method EnsureKeysExist(file: EnvFile, required: seq<string>) returns (report: Report)
    ensures report.ok <==> file.contents.Some?
                           && forall k :: k in required ==> k in KeysOf(SplitLines(file.contents.value))
    ensures ReportsOn(file, required, report.line)
  {
    var keys := ParseEnvExample(file.contents);
    if keys.None? {
      return Report(false, "Missing file: " + file.path);
    }
    var missing := Missing(required, keys.value);
    if |missing| > 0 {
      assert missing[0] in missing;
      return Report(false, file.basename + " missing required keys: " + Join(missing, ", "));
    }
    return Report(true, file.basename + " contains required keys.");
  }

  /**
   * The script: the backend and the frontend templates are both checked and
   * reported, and the exit code is 1 unless both pass.
   */
  method ValidateEnv(backend: EnvFile, frontend: EnvFile) returns (exitCode: int, log: seq<string>)
    ensures exitCode == 0 <==>
              backend.contents.Some?
              && (forall k :: k in BackendRequired ==> k in KeysOf(SplitLines(backend.contents.value)))
              && frontend.contents.Some?
              && (forall k :: k in FrontendRequired ==> k in KeysOf(SplitLines(frontend.contents.value)))
    ensures exitCode == 0 || exitCode == 1
    ensures |log| == if exitCode == 0 then 3 else 2
    ensures ReportsOn(backend, BackendRequired, log[0]) && ReportsOn(frontend, FrontendRequired, log[1])
    ensures exitCode == 0 ==> log[2] == "env validation passed"
  {
    var ok := true;
    var r1 := EnsureKeysExist(backend, BackendRequired);
    ok := r1.ok && ok;
    var r2 := EnsureKeysExist(frontend, FrontendRequired);
    ok := r2.ok && ok;
    log := [r1.line, r2.line];
    if !ok {
      return 1, log;
    }
    log := log + ["env validation passed"];
    exitCode := 0;
  }

  /** Leading white space before a non-space character is dropped. */
  lemma {:induction false} TrimStartSkips(spaces: string, s: string)
    requires forall i :: 0 <= i < |spaces| ==> IsSpace(spaces[i])
    requires s == [] || !IsSpace(s[0])
    ensures TrimStart(spaces + s) == s
    decreases |spaces|
  {
    if spaces == [] {
      assert spaces + s == s;
    } else {
      assert (spaces + s)[1..] == spaces[1..] + s;
      TrimStartSkips(spaces[1..], s);
    }
  }

  /** The first index holding `c` is the one with no `c` before it. */
  lemma {:induction false} IndexOfAt(s: string, c: char, j: nat)
    requires j < |s| && s[j] == c && c !in s[..j]
    ensures IndexOf(s, c) == j
  {
    var r := IndexOf(s, c);
    forall i | 0 <= i < j ensures s[i] != c {
      assert s[..j][i] == s[i];
    }
    forall i | 0 <= i < r ensures s[i] != c {
      assert s[..r][i] == s[i];
    }
  }

  /**
   * White space before the `=` stays in the name: `DB_HOST =x` declares
   * `DB_HOST ` and not `DB_HOST`.
   */
  lemma {:induction false} SpaceBeforeEqualsKept(name: string, value: string)
    requires name != [] && !IsSpace(name[0]) && name[0] != '#' && '=' !in name
    ensures KeyOfLine(name + " =" + value) == Some(name + " ")
  {
    var line := name + " =" + value;
    var e := |name| + 1;
    assert line[e] == '=';
    assert TrimStart(line) == line by {
      TrimStartSkips("", line);
    }
    var t := Trim(line);
    assert |t| > e && t == line[..|t|] by {
      assert !IsSpace(line[e]);
    }
    assert t[..e] == name + " ";
    IndexOfAt(t, '=', e);
  }

  /** A commented-out declaration declares nothing, whatever white space comes before the `#`. */
  lemma {:induction false} CommentedLineIgnored(spaces: string, rest: string)
    requires forall i :: 0 <= i < |spaces| ==> IsSpace(spaces[i])
    ensures KeyOfLine(spaces + "#" + rest) == None
  {
    var s := spaces + ("#" + rest);
    assert spaces + "#" + rest == s;
    TrimStartSkips(spaces, "#" + rest);
    var t := Trim(s);
    assert t == ("#" + rest)[..|t|];
    assert !IsSpace('#');
  }
}
