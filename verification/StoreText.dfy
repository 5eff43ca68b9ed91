/** The text of the learned-domains file: how it is written and how it is read back. */
module StoreText {

  /** The white space that is trimmed around a line. */
  predicate IsSpace(c: char) {
    || c in "\t\n\r "
    || c as int in {0x0B, 0x0C, 0x85, 0xA0, 0x1680, 0x2028, 0x2029, 0x202F, 0x205F, 0x3000}
    || 0x2000 <= c as int <= 0x200A
  }

  function TrimLeft(s: string): string {
    if s != "" && IsSpace(s[0]) then TrimLeft(s[1..]) else s
  }

  function TrimRight(s: string): string {
    if s != "" && IsSpace(s[|s| - 1]) then TrimRight(s[..|s| - 1]) else s
  }

  function Trim(s: string): string {
    TrimRight(TrimLeft(s))
  }

  /** The end of the first line. */
  function LineEnd(text: string): (i: nat)
    ensures i <= |text| && '\n' !in text[..i] && (i < |text| ==> text[i] == '\n')
  {
    if text == "" || text[0] == '\n' then 0
    else
      var i := LineEnd(text[1..]);
      assert text[..i + 1] == [text[0]] + text[1..][..i];
      i + 1
  }

  /** What one line of the file contributes. Blank lines and comments contribute nothing. */
  function Entry(line: string): set<string> {
    var t := Trim(line);
    if t == "" || t[0] == '#' then {} else {t}
  }

  /** The names a file holds. */
  function Load(text: string): set<string> {
    if text == "" then {}
    else
      var i := LineEnd(text);
      Entry(text[..i]) + (if i < |text| then Load(text[i + 1..]) else {})
  }

  method ReadAll(text: string) returns (names: set<string>)
    ensures names == Load(text)
  {
    names := {};
    var rest := text;
    while rest != ""
      invariant names + Load(rest) == Load(text)
      decreases |rest|
    {
      var i := LineEnd(rest);
      var line := Trim(rest[..i]);
      if line != "" && line[0] != '#' {
        names := names + {line};
      }
      rest := if i < |rest| then rest[i + 1..] else "";
    }
  }

  /** One name as it is written. */
  function Line(name: string): string {
    name + "\n"
  }

  function Print(names: seq<string>): string {
    if names == [] then "" else Line(names[0]) + Print(names[1..])
  }

  /** What follows the last newline. */
  function LastLine(text: string): (line: string)
    ensures '\n' !in line
  {
    var i := LineEnd(text);
    if i < |text| then LastLine(text[i + 1..]) else assert text[..i] == text; text
  }

  ghost predicate Blank(s: string) {
    forall i :: 0 <= i < |s| ==> IsSpace(s[i])
  }

  /** The last line is terminated, or at least blank: lines can be appended to the text. */
  ghost predicate Appendable(text: string) {
    Blank(LastLine(text))
  }

  /** The names that survive a round trip through the file. */
  ghost predicate Clean(name: string) {
    && name != "" && '\n' !in name
    && !IsSpace(name[0]) && !IsSpace(name[|name| - 1]) && name[0] != '#'
  }

  lemma {:induction false} FirstLineOf(t: string, u: string)
    requires '\n' !in t
    ensures LineEnd(t + "\n" + u) == |t|
  {
    var all := t + "\n" + u;
    if t != "" {
      assert all[0] == t[0] && all[1..] == t[1..] + "\n" + u;
      FirstLineOf(t[1..], u);
    }
  }

  lemma LoadLine(t: string, u: string)
    requires '\n' !in t
    ensures Load(t + "\n" + u) == Entry(t) + Load(u)
  {
    var all := t + "\n" + u;
    FirstLineOf(t, u);
    assert all[..|t|] == t && all[|t| + 1..] == u;
  }

  lemma {:induction false} TrimLeftBlank(t: string, u: string)
    ensures Blank(t) ==> TrimLeft(t + u) == TrimLeft(u)
    ensures !Blank(t) ==> TrimLeft(t) != "" && TrimLeft(t + u) == TrimLeft(t) + u
  {
    if t == "" {
      assert t + u == u;
    } else if IsSpace(t[0]) {
      assert t == [t[0]] + t[1..] && (t + u)[1..] == t[1..] + u;
      TrimLeftBlank(t[1..], u);
    }
  }

  lemma EntryAfterBlank(t: string, line: string)
    requires Blank(t)
    ensures Entry(t + line) == Entry(line)
  {
    TrimLeftBlank(t, line);
  }

  lemma LineAfterBlank(t: string, line: string, rest: string)
    requires Blank(t) && '\n' !in t && '\n' !in line
    ensures Load(t + (line + "\n" + rest)) == Load(line + "\n" + rest)
  {
    EntryAfterBlank(t, line);
    LoadLine(line, rest);
    LoadLine(t + line, rest);
    assert t + (line + "\n" + rest) == (t + line) + "\n" + rest;
  }

  /** Blank space before the first line changes nothing. */
  lemma LoadAfterBlank(t: string, u: string)
    requires Blank(t) && '\n' !in t
    ensures Load(t + u) == Load(u)
  {
    var i := LineEnd(u);
    assert u[..i] == u || u == u[..i] + "\n" + u[i + 1..];
    if i < |u| {
      LineAfterBlank(t, u[..i], u[i + 1..]);
    } else {
      EntryAfterBlank(t, u);
      LoadLastLine(u);
      LoadLastLine(t + u);
    }
  }

  lemma LoadLastLine(t: string)
    requires '\n' !in t
    ensures Load(t) == Entry(t)
  {
    assert LineEnd(t) == |t| && t[..|t|] == t;
  }

  /** Appending to a file whose last line is terminated or blank adds names and disturbs none. */
  lemma {:induction false} AppendIsUnion(t: string, u: string)
    requires Appendable(t)
    ensures Load(t + u) == Load(t) + Load(u)
    decreases |t|
  {
    var i := LineEnd(t);
    if i < |t| {
      var line, rest := t[..i], t[i + 1..];
      assert t == line + "\n" + rest && t + u == line + "\n" + (rest + u);
      LoadLine(line, rest);
      LoadLine(line, rest + u);
      AppendIsUnion(rest, u);
    } else {
      assert t[..i] == t;
      LoadAfterBlank(t, u);
      LoadAfterBlank(t, "");
      assert t + "" == t;
    }
  }

  /** A name appended to an unfinished line runs into it. */
  lemma JoinedNameIsLost(t: string, x: string)
    requires '\n' !in t && !Blank(t) && Clean(x)
    ensures x !in Load(t + Line(x))
  {
    assert t + Line(x) == (t + x) + "\n" + "";
    LoadLine(t + x, "");
    TrimLeftBlank(t, x);
    var joined := TrimLeft(t) + x;
    assert joined[|joined| - 1] == x[|x| - 1];
    assert TrimRight(joined) == joined;
  }

  lemma {:induction false} UnfinishedLineTakesName(t: string, x: string)
    requires Clean(x) && x !in Load(t) && !Appendable(t)
    ensures x !in Load(t + Line(x))
    decreases |t|
  {
    var i := LineEnd(t);
    if i < |t| {
      var line, rest := t[..i], t[i + 1..];
      assert t == line + "\n" + rest && t + Line(x) == line + "\n" + (rest + Line(x));
      LoadLine(line, rest);
      LoadLine(line, rest + Line(x));
      UnfinishedLineTakesName(rest, x);
    } else {
      assert t[..i] == t;
      JoinedNameIsLost(t, x);
    }
  }

  /** A new name appended to a file is there afterwards exactly when the file's last line was
      terminated or blank. */
  lemma AppendedNameArrives(t: string, x: string)
    requires Clean(x) && x !in Load(t)
    ensures x in Load(t + Line(x)) <==> Appendable(t)
  {
    if Appendable(t) {
      AppendIsUnion(t, Line(x));
      LineRoundTrip(x);
    } else {
      UnfinishedLineTakesName(t, x);
    }
  }

  lemma {:induction false} TrimLeftSuffix(s: string)
    ensures |TrimLeft(s)| <= |s| && TrimLeft(s) == s[|s| - |TrimLeft(s)|..]
    ensures TrimLeft(s) != "" ==> !IsSpace(TrimLeft(s)[0])
  {
    if s != "" && IsSpace(s[0]) {
      TrimLeftSuffix(s[1..]);
    }
  }

  lemma {:induction false} TrimRightPrefix(s: string)
    ensures TrimRight(s) <= s
    ensures TrimRight(s) != "" ==> !IsSpace(TrimRight(s)[|TrimRight(s)| - 1])
  {
    if s != "" && IsSpace(s[|s| - 1]) {
      TrimRightPrefix(s[..|s| - 1]);
    }
  }

  lemma EntryIsClean(line: string)
    requires '\n' !in line
    ensures forall x :: x in Entry(line) ==> Clean(x)
    ensures Clean(line) <==> Entry(line) == {line}
  {
    TrimLeftSuffix(line);
    TrimRightPrefix(TrimLeft(line));
  }

  /** Everything read from a file is clean. */
  lemma {:induction false} LoadIsClean(text: string, x: string)
    requires x in Load(text)
    ensures Clean(x)
  {
    var i := LineEnd(text);
    EntryIsClean(text[..i]);
    if x !in Entry(text[..i]) {
      LoadIsClean(text[i + 1..], x);
    }
  }

  /** Writing a name and reading it back gives the name, exactly when the name is clean. */
  lemma LineRoundTrip(name: string)
    ensures Load(Line(name)) == {name} <==> Clean(name)
  {
    if '\n' in name {
      forall x | x in Load(Line(name))
        ensures x != name
      {
        LoadIsClean(Line(name), x);
      }
    } else {
      assert Line(name) == name + "\n" + "";
      LoadLine(name, "");
      EntryIsClean(name);
    }
  }

  /** The store can append to what it has written. */
  lemma {:induction false} LinesAreAppendable(t: string, name: string)
    ensures LastLine(t + Line(name)) == ""
    decreases |t + name|
  {
    var all := t + Line(name);
    var i := LineEnd(all);
    assert all[|all| - 1] == '\n';
    if i < |t| {
      assert all[i + 1..] == t[i + 1..] + Line(name);
      LinesAreAppendable(t[i + 1..], name);
    } else if i < |all| - 1 {
      assert all[i + 1..] == "" + Line(all[i + 1..|all| - 1]);
      LinesAreAppendable("", all[i + 1..|all| - 1]);
    }
  }

  lemma {:induction false} PrintIsAppendable(names: seq<string>)
    ensures Appendable(Print(names))
  {
    if names != [] {
      var before := Print(names[..|names| - 1]);
      PrintLast(names);
      LinesAreAppendable(before, names[|names| - 1]);
    }
  }

  lemma {:induction false} PrintLast(names: seq<string>)
    requires names != []
    ensures Print(names) == Print(names[..|names| - 1]) + Line(names[|names| - 1])
  {
    if |names| > 1 {
      PrintLast(names[1..]);
      assert names[1..][..|names| - 2] == names[..|names| - 1][1..];
    }
  }

  /** A printed list reads back as the union of its lines. */
  lemma {:induction false} LoadPrint(names: seq<string>, x: string)
    ensures x in Load(Print(names)) <==> exists i :: 0 <= i < |names| && x in Load(Line(names[i]))
  {
    if names != [] {
      LinesAreAppendable("", names[0]);
      assert "" + Line(names[0]) == Line(names[0]);
      AppendIsUnion(Line(names[0]), Print(names[1..]));
      LoadPrint(names[1..], x);
      if x in Load(Print(names[1..])) {
        var i :| 0 <= i < |names[1..]| && x in Load(Line(names[1..][i]));
        assert names[i + 1] == names[1..][i];
      }
      if i :| 0 <= i < |names| && x in Load(Line(names[i])) {
        if i > 0 {
          assert names[1..][i - 1] == names[i];
        }
      }
    }
  }

  /** Reading after printing is the identity on sets of clean names. */
  lemma PrintRoundTrip(names: seq<string>)
    requires forall n :: n in names ==> Clean(n)
    ensures Load(Print(names)) == set n | n in names
  {
    forall n | n in names
      ensures Load(Line(n)) == {n}
    {
      LineRoundTrip(n);
    }
    forall x
      ensures x in Load(Print(names)) <==> x in names
    {
      LoadPrint(names, x);
      if x in names {
        var i :| 0 <= i < |names| && names[i] == x;
        assert x in Load(Line(names[i]));
      }
    }
  }
}
