/** Setting variables in an env file (Upsert and Key in internal/envfile/upsert.go). */
module EnvFile {
  import opened Strings

  datatype Var = Var(key: string, value: string)

  const EXPORT := "export"

  /** A blank follows "export", a tab too. */
  predicate Exported(s: string) {
    |s| > |EXPORT| && s[..|EXPORT|] == EXPORT && s[|EXPORT|] in {' ', '\t'}
  }

  function Assigned(rest: string): string {
    var i := IndexOf(rest, '=');
    if i == |rest| then "" else TrimSpace(rest[..i])
  }

  /** The key that line assigns to, "" when it assigns to none. */
  function Key(line: string): string {
    var trimmed := TrimSpace(line);
    if trimmed == "" || trimmed[0] == '#' then ""
    else Assigned(if Exported(trimmed) then trimmed[|EXPORT|..] else trimmed)
  }

  /**
   What it is: with blanks around it aside, the line is no comment, and has key before its first "=", with blanks aside
   and after an "export" that a blank follows, if there is one.
   */
  lemma KeyMeans(line: string, key: string)
    requires key != ""
    ensures Key(line) == key
       <==> exists name, rest ::
              && '=' !in name && TrimSpace(name) == key && !("#" <= TrimSpace(line))
              && TrimSpace(line)
                 == (if "export " <= TrimSpace(line) || "export\t" <= TrimSpace(line) then "export" else "")
                    + (name + ['='] + rest)
  {
    var t := TrimSpace(line);
    var word := if "export " <= t || "export\t" <= t then "export" else "";
    ExportedMeans(t);
    hide TrimSpace, Exported, Assigned, IndexOf;
    var after := t[|word|..];
    assert Key(line) == if t == "" || t[0] == '#' then "" else Assigned(after);
    if Key(line) == key {
      var name, rest := AssignedFrom(after);
      assert t == word + (name + ['='] + rest);
    }
    if name, rest :| '=' !in name && TrimSpace(name) == key && !("#" <= t) && t == word + (name + ['='] + rest) {
      assert after == name + ['='] + rest;
      AssignedTo(name, rest);
    }
  }

  function Line(v: Var): string {
    v.key + "=" + v.value
  }

  lemma LineOf(v: Var)
    ensures Line(v) == v.key + "=" + v.value
  {
  }

  /** A key that its own line sets. */
  predicate WellFormed(v: Var) {
    v.key != "" && Key(Line(v)) == v.key
  }

  /** Which those are: trimmed ones, without "=", that neither start a comment nor are exported. */
  lemma KeyIsWellFormed(v: Var)
    ensures WellFormed(v) <==>
              v.key != "" && '=' !in v.key && TrimSpace(v.key) == v.key && v.key[0] != '#' && !Exported(v.key)
  {
    Trims(v.key);
    if v.key != "" && TrimSpace(v.key) == v.key {
      TrimmedLine(v);
    }
    if WellFormed(v) {
      KeyIsTrimmed(Line(v));
    }
  }

  lemma KeyIsTrimmed(line: string)
    ensures '=' !in Key(line) && TrimSpace(Key(line)) == Key(line)
  {
    var trimmed := TrimSpace(line);
    var rest := if Exported(trimmed) then trimmed[|EXPORT|..] else trimmed;
    var i := IndexOf(rest, '=');
    Trims(rest[..i]);
    Trims(TrimSpace(rest[..i]));
    assert TrimSpace("") == "";
  }

  lemma AssignedTo(rest: string, tail: string)
    requires '=' !in rest
    ensures Assigned(rest + ['='] + tail) == TrimSpace(rest)
  {
    IndexIn(rest, '=', tail);
    assert rest[..|rest|] == rest && (rest + ['='] + tail)[..|rest|] == rest;
  }

  /** What is not assigned to nothing is, before its first "=". */
  lemma AssignedFrom(after: string) returns (name: string, rest: string)
    requires Assigned(after) != ""
    ensures '=' !in name && after == name + ['='] + rest && TrimSpace(name) == Assigned(after)
  {
    hide TrimSpace;
    var i := IndexOf(after, '=');
    name, rest := after[..i], after[i + 1..];
  }

  lemma ExportedMeans(t: string)
    ensures Exported(t) <==> "export " <= t || "export\t" <= t
  {
    if Exported(t) {
      assert t[..7] == "export" + [t[6]];
    }
  }

  lemma ExportedPart(key: string, tail: string)
    ensures Exported(key + ['='] + tail) <==> Exported(key)
    ensures Exported(key) ==> (key + ['='] + tail)[|EXPORT|..] == key[|EXPORT|..] + ['='] + tail
  {
    var line := key + ['='] + tail;
    assert line[|key|] == '=';
    assert |key| < |EXPORT| <= |line| ==> line[..|EXPORT|][|key|] == '=';
  }

  /** What the line of a trimmed key sets. */
  lemma TrimmedLine(v: Var)
    requires v.key != "" && !IsSpace(v.key[0]) && !IsSpace(v.key[|v.key| - 1])
    ensures v.key[0] == '#' ==> Key(Line(v)) == ""
    ensures v.key[0] != '#' && '=' !in v.key && !Exported(v.key) ==> Key(Line(v)) == TrimSpace(v.key)
    ensures v.key[0] != '#' && '=' !in v.key && Exported(v.key) ==> |Key(Line(v))| < |v.key|
  {
    assert !IsSpace('=');
    hide IsSpace, TrimSpace, Assigned, Exported;
    var n := TrimEnd(Line(v), |v.key|);
    var tail := Line(v)[..n][|v.key| + 1..];
    assert TrimSpace(Line(v)) == v.key + ['='] + tail;
    ExportedPart(v.key, tail);
    if '=' !in v.key {
      if Exported(v.key) {
        ExportedRest(v.key);
        AssignedTo(v.key[|EXPORT|..], tail);
        Trims(v.key[|EXPORT|..]);
      } else {
        AssignedTo(v.key, tail);
      }
    }
  }

  lemma ExportedRest(key: string)
    requires Exported(key)
    ensures |EXPORT| <= |key| && |key[|EXPORT|..]| < |key|
  {
  }

  // ---------- What becomes of the lines ----------

  predicate Sets(lines: seq<string>, key: string) {
    exists line <- lines :: Key(line) == key
  }

  /** Lines with those that set v.key replaced: the first by v's line, the others by nothing. */
  function Replaced(lines: seq<string>, v: Var): seq<string> {
    if lines == [] then []
    else
      var before, line := lines[..|lines| - 1], lines[|lines| - 1];
      Replaced(before, v) + if Key(line) != v.key then [line] else if Sets(before, v.key) then [] else [Line(v)]
  }

  function Set(lines: seq<string>, v: Var): seq<string> {
    if Sets(lines, v.key) then Replaced(lines, v) else lines + [Line(v)]
  }

  function SetAll(lines: seq<string>, vars: seq<Var>): seq<string> {
    if vars == [] then lines else Set(SetAll(lines, vars[..|vars| - 1]), vars[|vars| - 1])
  }

  /** The loop of Upsert over the lines, for one variable: what it keeps it moves to the front of the same array. */
  method Rewrite(a: array<string>, n: nat, v: Var) returns (kept: nat, found: bool)
    requires n <= a.Length
    modifies a
    ensures kept <= n && a[..kept] == Replaced(old(a[..n]), v) && found == Sets(old(a[..n]), v.key)
    ensures a[n..] == old(a[n..])
  {
    hide Key, Sets, Replaced, Line;
    ghost var lines := a[..n];
    kept, found := 0, false;
    assert lines[..0] == [];
    NoLines(v);
    for i := 0 to n
      invariant kept <= i && a[..kept] == Replaced(lines[..i], v) && found == Sets(lines[..i], v.key)
      invariant a[i..n] == lines[i..] && a[n..] == old(a[n..])
    {
      var line := a[i];
      assert line == a[i..n][0] == lines[i];
      OneMoreLine(lines, i, v);
      if Key(line) != v.key {
        a[kept] := line;
        kept := kept + 1;
        assert a[..kept] == Replaced(lines[..i + 1], v);
        continue;
      }
      if !found {
        a[kept] := Line(v);
        kept := kept + 1;
        found := true;
        assert a[..kept] == Replaced(lines[..i + 1], v);
      }
    }
    assert lines[..n] == lines;
  }

  lemma NoLines(v: Var)
    ensures Replaced([], v) == [] == With([], v.key) && !Sets([], v.key)
  {
  }

  lemma OneMoreLine(lines: seq<string>, i: nat, v: Var)
    requires i < |lines|
    ensures Sets(lines[..i + 1], v.key) <==> Sets(lines[..i], v.key) || Key(lines[i]) == v.key
    ensures Replaced(lines[..i + 1], v)
         == Replaced(lines[..i], v) + if Key(lines[i]) != v.key then [lines[i]]
                                      else if Sets(lines[..i], v.key) then [] else [Line(v)]
  {
    assert lines[..i + 1] == lines[..i] + [lines[i]] && lines[..i + 1][..i] == lines[..i];
  }

  /**
   One variable more: its line takes the place of the first that sets its key, the others that do go, and without any
   it is put at the end.
   */
  lemma SetAllMeans(lines: seq<string>, vars: seq<Var>, v: Var, before: seq<string>, line: string, after: seq<string>)
    requires SetAll(lines, vars) == before + [line] + after && forall l <- before :: Key(l) != v.key
    ensures Key(line) == v.key ==>
              SetAll(lines, vars + [v]) == before + [v.key + "=" + v.value] + Outside(after, {v.key})
    ensures Key(line) != v.key && after == [] ==>
              SetAll(lines, vars + [v]) == before + [line] + [v.key + "=" + v.value]
  {
    assert (vars + [v])[..|vars|] == vars;
    hide SetAll;
    var all := SetAll(lines, vars);
    assert line in all;
    if Key(line) == v.key {
      ReplacedFirst(before, line, after, v);
    } else if after == [] {
      assert all == before + [line];
    }
  }

  lemma FirstSets(before: seq<string>, line: string, after: seq<string>, key: string)
    requires Key(line) == key
    ensures Sets(before + [line] + after, key)
  {
    hide Key;
    assert line in before + [line] + after;
  }

  lemma {:induction false} ReplacedFirst(before: seq<string>, line: string, after: seq<string>, v: Var)
    requires Key(line) == v.key && forall l <- before :: Key(l) != v.key
    ensures Replaced(before + [line] + after, v) == before + [Line(v)] + Outside(after, {v.key})
  {
    hide Key, Line;
    if after == [] {
      NothingReplaced(before, v);
      assert before + [line] + after == before + [line] && (before + [line])[..|before|] == before;
    } else {
      hide Replaced, Outside, Sets;
      var n := |after| - 1;
      var first := before + [line] + after[..n];
      assert before + [line] + after == first + [after[n]] && after == after[..n] + [after[n]];
      ReplacedFirst(before, line, after[..n], v);
      ReplacedSnoc(first, after[n], v);
      OneMore(after[..n], after[n], v.key, {v.key});
      FirstSets(before, line, after[..n], v.key);
    }
  }

  /** The first variables set in a file of no lines are its lines, in order. */
  lemma {:induction false} AppendsInOrder(vars: seq<Var>)
    requires forall i, j | 0 <= i < j < |vars| :: Key(Line(vars[i])) != vars[j].key
    ensures |SetAll([], vars)| == |vars|
    ensures forall i | 0 <= i < |vars| :: SetAll([], vars)[i] == vars[i].key + "=" + vars[i].value
  {
    hide Key;
    if vars != [] {
      AppendsInOrder(vars[..|vars| - 1]);
    }
  }

  /** The lines of Upsert, for all variables. */
  method UpsertLines(lines: seq<string>, vars: seq<Var>) returns (out: seq<string>)
    ensures out == SetAll(lines, vars)
  {
    hide Set, Replaced, Sets;
    // Room for a line appended for each variable.
    var a := new string[|lines| + |vars|](i requires 0 <= i < |lines| + |vars| => if i < |lines| then lines[i] else "");
    var n: nat := |lines|;
    assert a[..n] == lines && vars[..0] == [];
    for i := 0 to |vars|
      invariant n <= |lines| + i && a.Length == |lines| + |vars| && fresh(a)
      invariant a[..n] == SetAll(lines, vars[..i])
    {
      n := SetOne(a, n, vars[i]);
      assert vars[..i + 1][..i] == vars[..i];
    }
    assert vars[..|vars|] == vars;
    out := a[..n];
  }

  method SetOne(a: array<string>, n: nat, v: Var) returns (m: nat)
    requires n < a.Length
    modifies a
    ensures m <= n + 1 && a[..m] == Set(old(a[..n]), v)
  {
    ghost var lines := a[..n];
    var found;
    m, found := Rewrite(a, n, v);
    if !found {
      NothingReplaced(lines, v);
      a[m] := Line(v);
      m := m + 1;
      assert a[..m] == lines + [Line(v)];
    }
  }

  lemma {:induction false} NothingReplaced(lines: seq<string>, v: Var)
    requires !Sets(lines, v.key)
    ensures Replaced(lines, v) == lines
  {
    if lines != [] {
      var before, line := lines[..|lines| - 1], lines[|lines| - 1];
      assert lines == before + [line] && line in lines;
      NothingReplaced(before, v);
    }
  }

  // ---------- What it promises ----------

  /** The lines that set key, in order. */
  function With(lines: seq<string>, key: string): seq<string> {
    if lines == [] then []
    else With(lines[..|lines| - 1], key) + if Key(lines[|lines| - 1]) == key then [lines[|lines| - 1]] else []
  }

  /** The lines that set none of keys, in order. */
  function Outside(lines: seq<string>, keys: set<string>): seq<string> {
    if lines == [] then []
    else Outside(lines[..|lines| - 1], keys) + if Key(lines[|lines| - 1]) in keys then [] else [lines[|lines| - 1]]
  }

  function Keys(vars: seq<Var>): set<string> {
    set v | v in vars :: v.key
  }

  lemma OneMore(lines: seq<string>, line: string, key: string, keys: set<string>)
    ensures With(lines + [line], key) == With(lines, key) + if Key(line) == key then [line] else []
    ensures Outside(lines + [line], keys) == Outside(lines, keys) + if Key(line) in keys then [] else [line]
    ensures Sets(lines + [line], key) <==> Sets(lines, key) || Key(line) == key
  {
    assert (lines + [line])[..|lines|] == lines;
  }

  lemma {:induction false} ReplacedOnce(lines: seq<string>, v: Var)
    requires WellFormed(v)
    ensures With(Replaced(lines, v), v.key) == if Sets(lines, v.key) then [Line(v)] else []
  {
    hide Key, Line, WellFormed, Replaced, With, Sets;
    if lines == [] {
      NoLines(v);
    } else {
      var before, line := lines[..|lines| - 1], lines[|lines| - 1];
      ReplacedOnce(before, v);
      assert before + [line] == lines;
      ReplacedNext(before, line, v);
    }
  }

  lemma ReplacedSnoc(before: seq<string>, line: string, v: Var)
    ensures Replaced(before + [line], v)
         == Replaced(before, v) + if Key(line) != v.key then [line] else if Sets(before, v.key) then [] else [Line(v)]
  {
    assert (before + [line])[..|before|] == before;
  }

  lemma ReplacedNext(before: seq<string>, line: string, v: Var)
    requires WellFormed(v) && With(Replaced(before, v), v.key) == if Sets(before, v.key) then [Line(v)] else []
    ensures With(Replaced(before + [line], v), v.key) == if Sets(before + [line], v.key) then [Line(v)] else []
  {
    hide Key, Line, WellFormed, With, Sets, Replaced;
    var r := Replaced(before, v);
    OwnKey(v);
    ReplacedSnoc(before, line, v);
    OneMore(before, line, v.key, {});
    OneMore(r, line, v.key, {});
    OneMore(r, Line(v), v.key, {});
    assert r + [] == r;
  }

  lemma OwnKey(v: Var)
    requires WellFormed(v)
    ensures Key(Line(v)) == v.key
  {
  }

  lemma {:induction false} ReplacedKeeps(lines: seq<string>, v: Var, key: string, keys: set<string>)
    requires WellFormed(v) && key != v.key && v.key in keys
    ensures With(Replaced(lines, v), key) == With(lines, key)
    ensures Outside(Replaced(lines, v), keys) == Outside(lines, keys)
  {
    hide Key, Line, WellFormed;
    if lines != [] {
      var n := |lines| - 1;
      var before, line := lines[..n], lines[n];
      ReplacedKeeps(before, v, key, keys);
      OneMore(before, line, key, keys);
      assert before + [line] == lines;
      OneMore(Replaced(before, v), line, key, keys);
      OneMore(Replaced(before, v), Line(v), key, keys);
      OwnKey(v);
      assert Replaced(before, v) + [] == Replaced(before, v);
    }
  }

  lemma {:induction false} ReplacedStays(lines: seq<string>, v: Var)
    requires With(lines, v.key) == if Sets(lines, v.key) then [Line(v)] else []
    ensures Replaced(lines, v) == lines
  {
    hide Key, Line;
    if lines != [] {
      var n := |lines| - 1;
      var before, line := lines[..n], lines[n];
      assert before + [line] == lines;
      OneMore(before, line, v.key, {});
      HasWith(before, v.key);
      ReplacedStays(before, v);
    }
  }

  lemma {:induction false} HasWith(lines: seq<string>, key: string)
    ensures Sets(lines, key) <==> With(lines, key) != []
  {
    hide Key;
    if lines != [] {
      HasWith(lines[..|lines| - 1], key);
      OneMore(lines[..|lines| - 1], lines[|lines| - 1], key, {});
      assert lines[..|lines| - 1] + [lines[|lines| - 1]] == lines;
    }
  }

  /** One variable: its key is then set by one line alone, and the lines with other keys stay as they were. */
  lemma SetOnce(lines: seq<string>, v: Var, key: string, keys: set<string>)
    requires WellFormed(v) && v.key in keys
    ensures With(Set(lines, v), v.key) == [Line(v)] && Outside(Set(lines, v), keys) == Outside(lines, keys)
    ensures key != v.key ==> With(Set(lines, v), key) == With(lines, key)
  {
    hide Key, Line, Replaced, WellFormed;
    ReplacedOnce(lines, v);
    HasWith(lines, v.key);
    OwnKey(v);
    OneMore(lines, Line(v), v.key, keys);
    OneMore(lines, Line(v), key, keys);
    ReplacedKeeps(lines, v, if key == v.key then v.key + "'" else key, keys);
  }

  /** A line that carries the value already is left where it is. */
  lemma SetStays(lines: seq<string>, v: Var)
    requires With(lines, v.key) == [Line(v)]
    ensures Set(lines, v) == lines
  {
    hide Key, Line, Replaced;
    HasWith(lines, v.key);
    ReplacedStays(lines, v);
  }

  predicate Distinct(vars: seq<Var>) {
    && (forall v <- vars :: WellFormed(v))
    && forall i, j | 0 <= i < j < |vars| :: vars[i].key != vars[j].key
  }

  /** Each key ends with exactly one line, carrying its value. */
  lemma {:induction false} KeysSetOnce(lines: seq<string>, vars: seq<Var>, i: nat)
    requires Distinct(vars) && i < |vars|
    ensures With(SetAll(lines, vars), vars[i].key) == [vars[i].key + "=" + vars[i].value]
  {
    hide Set, WellFormed, With;
    var n := |vars| - 1;
    var v := vars[n];
    SetOnce(SetAll(lines, vars[..n]), v, vars[i].key, {v.key});
    if i < n {
      assert vars[..n][i] == vars[i];
      KeysSetOnce(lines, vars[..n], i);
    }
  }

  /** The lines that set no key given, comments and blank lines among them, stay as they were and in order. */
  lemma {:induction false} OthersStay(lines: seq<string>, vars: seq<Var>, keys: set<string>)
    requires Distinct(vars) && Keys(vars) <= keys
    ensures Outside(SetAll(lines, vars), keys) == Outside(lines, keys)
  {
    hide Set, WellFormed, Outside;
    if vars != [] {
      var n := |vars| - 1;
      var v := vars[n];
      assert v in vars && v.key in Keys(vars);
      SetOnce(SetAll(lines, vars[..n]), v, v.key, keys);
      assert Keys(vars[..n]) <= Keys(vars);
      OthersStay(lines, vars[..n], keys);
    }
  }

  lemma {:induction false} AlreadySet(lines: seq<string>, vars: seq<Var>)
    requires forall v <- vars :: With(lines, v.key) == [Line(v)]
    ensures SetAll(lines, vars) == lines
  {
    hide Set, With, Line;
    if vars != [] {
      AlreadySet(lines, vars[..|vars| - 1]);
      SetStays(lines, vars[|vars| - 1]);
    }
  }

  /** Setting the same variables again changes no line. */
  lemma SetTwice(lines: seq<string>, vars: seq<Var>)
    requires Distinct(vars)
    ensures SetAll(SetAll(lines, vars), vars) == SetAll(lines, vars)
  {
    hide SetAll, With, Line, WellFormed;
    forall v | v in vars
      ensures With(SetAll(lines, vars), v.key) == [Line(v)]
    {
      var i :| 0 <= i < |vars| && vars[i] == v;
      KeysSetOnce(lines, vars, i);
      LineOf(v);
    }
    AlreadySet(SetAll(lines, vars), vars);
  }

  // ---------- The file ----------

  /** The lines of the file, those of header when there is none or it is empty. */
  function FileLines(data: string, header: seq<string>): seq<string> {
    if data != "" then SplitLines(TrimRight(data, {'\n'})) else header
  }

  /** What Upsert writes. */
  function Text(data: string, vars: seq<Var>, header: seq<string>): string {
    JoinLines(SetAll(FileLines(data, header), vars)) + "\n"
  }

  method Upsert(data: string, vars: seq<Var>, header: seq<string>) returns (text: string)
    ensures text == Text(data, vars, header)
  {
    var lines := FileLines(data, header);
    lines := UpsertLines(lines, vars);
    text := JoinLines(lines) + "\n";
  }

  /**
   What is written for a file of these lines, whatever line breaks end it, or for none from the header: the lines with
   the variables set, and a line break.
   */
  lemma TextMeans(data: string, lines: seq<string>, n: nat, vars: seq<Var>, header: seq<string>)
    requires lines != [] && NoBreaks(lines) && (|lines| > 1 ==> lines[|lines| - 1] != "")
    requires data == JoinLines(lines) + seq(n, _ => '\n')
    ensures data != "" ==> Text(data, vars, header) == Join(SetAll(lines, vars), "\n") + "\n"
    ensures Text("", vars, header) == Join(SetAll(header, vars), "\n") + "\n"
  {
    hide SetAll;
    EndBreaks(JoinLines(lines), n);
    TrimsBlank(lines);
    assert DropBlank(lines) == lines;
    JoinSplits(lines, '\n');
  }

  lemma {:induction false} EndBreaks(text: string, n: nat)
    ensures TrimRight(text + seq(n, _ => '\n'), {'\n'}) == TrimRight(text, {'\n'})
  {
    var all := text + seq(n, _ => '\n');
    if n == 0 {
      assert all == text;
    } else {
      assert all[..|all| - 1] == text + seq(n - 1, _ => '\n');
      EndBreaks(text, n - 1);
    }
  }

  /** The header and the variables have no line breaks. */
  predicate OneLiners(vars: seq<Var>, header: seq<string>) {
    NoBreaks(header) && forall v <- vars :: '\n' !in Line(v)
  }

  predicate NoBreaks(lines: seq<string>) {
    forall line <- lines :: '\n' !in line
  }

  lemma {:induction false} SetAllNoBreaks(lines: seq<string>, vars: seq<Var>)
    requires NoBreaks(lines) && forall v <- vars :: '\n' !in Line(v)
    ensures NoBreaks(SetAll(lines, vars)) && (vars != [] || lines != [] ==> SetAll(lines, vars) != [])
  {
    hide Key, Line;
    if vars != [] {
      var n := |vars| - 1;
      SetAllNoBreaks(lines, vars[..n]);
      ReplacedNoBreaks(SetAll(lines, vars[..n]), vars[n]);
    }
  }

  lemma {:induction false} ReplacedNoBreaks(lines: seq<string>, v: Var)
    requires NoBreaks(lines) && '\n' !in Line(v)
    ensures NoBreaks(Replaced(lines, v)) && (lines != [] ==> Replaced(lines, v) != [])
  {
    hide Key, Line;
    if lines != [] {
      ReplacedNoBreaks(lines[..|lines| - 1], v);
      if |lines| > 1 {
        assert lines[..|lines| - 1] != [];
      }
    }
  }

  /** Without the blank lines at its end, but for a first line. */
  function DropBlank(lines: seq<string>): (kept: seq<string>)
    ensures |kept| <= |lines|
  {
    if |lines| > 1 && lines[|lines| - 1] == "" then DropBlank(lines[..|lines| - 1]) else lines
  }

  lemma {:induction false} TrimsBlank(lines: seq<string>)
    requires lines != [] && NoBreaks(lines)
    ensures TrimRight(JoinLines(lines), {'\n'}) == JoinLines(DropBlank(lines))
    ensures DropBlank(lines) != [] && NoBreaks(DropBlank(lines))
    ensures DropBlank(lines) != lines ==> |JoinLines(DropBlank(lines))| < |JoinLines(lines)|
  {
    var n := |lines| - 1;
    assert lines[n] != "" ==> lines[n][|lines[n]| - 1] in lines[n];
    if n > 0 {
      JoinLast(lines, "\n");
      if lines[n] == "" {
        TrimsBlank(lines[..n]);
        assert JoinLines(lines)[..|JoinLines(lines)| - 1] == JoinLines(lines[..n]);
      } else {
        assert JoinLines(lines)[|JoinLines(lines)| - 1] == lines[n][|lines[n]| - 1];
      }
    }
  }

  lemma {:induction false} DropBlankKeeps(lines: seq<string>, key: string)
    requires key != ""
    ensures With(DropBlank(lines), key) == With(lines, key)
  {
    if |lines| > 1 && lines[|lines| - 1] == "" {
      DropBlankKeeps(lines[..|lines| - 1], key);
    }
  }

  /** Read again, the lines written are there but for blank ones at the end. */
  lemma ReadBack(lines: seq<string>, header: seq<string>)
    requires lines != [] && NoBreaks(lines)
    ensures FileLines(JoinLines(lines) + "\n", header) == DropBlank(lines)
  {
    var text := JoinLines(lines) + "\n";
    assert text[..|text| - 1] == JoinLines(lines);
    TrimsBlank(lines);
    JoinSplits(DropBlank(lines), '\n');
  }

  /** And they still set each variable. */
  lemma StillSet(before: seq<string>, vars: seq<Var>)
    requires Distinct(vars)
    ensures SetAll(DropBlank(SetAll(before, vars)), vars) == DropBlank(SetAll(before, vars))
  {
    hide Key, SetAll, With, Line, DropBlank;
    var lines := SetAll(before, vars);
    forall v | v in vars
      ensures With(DropBlank(lines), v.key) == [Line(v)]
    {
      var i :| 0 <= i < |vars| && vars[i] == v;
      KeysSetOnce(before, vars, i);
      LineOf(v);
      DropBlankKeeps(lines, v.key);
    }
    AlreadySet(DropBlank(lines), vars);
  }

  lemma SameText(a: string, b: string)
    ensures a + "\n" == b + "\n" <==> a == b
  {
    assert (a + "\n")[..|a|] == a && (b + "\n")[..|b|] == b;
  }

  // ---------- The last line written ----------

  /** Without the lines that set one of keys which a line before sets. */
  function NoRepeats(lines: seq<string>, keys: set<string>): seq<string> {
    if lines == [] then []
    else
      var before, line := lines[..|lines| - 1], lines[|lines| - 1];
      NoRepeats(before, keys) + if Key(line) in keys && Sets(before, Key(line)) then [] else [line]
  }

  lemma NoRepeatsSnoc(lines: seq<string>, line: string, keys: set<string>)
    ensures NoRepeats(lines + [line], keys)
         == NoRepeats(lines, keys) + if Key(line) in keys && Sets(lines, Key(line)) then [] else [line]
    ensures NoRepeats([], keys) == []
  {
    assert (lines + [line])[..|lines|] == lines;
  }

  lemma {:induction false} NoRepeatsSets(lines: seq<string>, keys: set<string>, key: string)
    ensures Sets(NoRepeats(lines, keys), key) <==> Sets(lines, key)
  {
    hide Key, Sets, NoRepeats;
    NoRepeatsSnoc([], "", keys);
    if lines != [] {
      var n := |lines| - 1;
      var before, line := lines[..n], lines[n];
      assert before + [line] == lines;
      NoRepeatsSets(before, keys, key);
      OneMore(before, line, key, keys);
      OneMore(NoRepeats(before, keys), line, key, keys);
      NoRepeatsSnoc(before, line, keys);
      assert NoRepeats(before, keys) + [] == NoRepeats(before, keys);
    }
  }

  lemma {:induction false} NoRepeatsMore(lines: seq<string>, keys: set<string>, key: string)
    requires key !in keys
    ensures NoRepeats(lines, keys + {key}) == NoRepeats(NoRepeats(lines, keys), {key})
  {
    hide Key, Sets, NoRepeats;
    NoRepeatsSnoc([], "", keys);
    NoRepeatsSnoc([], "", keys + {key});
    NoRepeatsSnoc([], "", {key});
    if lines != [] {
      var n := |lines| - 1;
      var before, line := lines[..n], lines[n];
      assert before + [line] == lines;
      NoRepeatsMore(before, keys, key);
      NoRepeatsSets(before, keys, key);
      NoRepeatsSnoc(before, line, keys);
      NoRepeatsSnoc(before, line, keys + {key});
      NoRepeatsSnoc(NoRepeats(before, keys), line, {key});
      assert NoRepeats(before, keys) + [] == NoRepeats(before, keys);
    }
  }

  /** Two lists of lines that differ at most in what is assigned to keys. */
  predicate SameLines(a: seq<string>, b: seq<string>, keys: set<string>) {
    && |a| == |b|
    && forall i | 0 <= i < |a| :: a[i] == b[i] || (Key(a[i]) == Key(b[i]) && Key(a[i]) in keys)
  }

  lemma SameLinesSet(a: seq<string>, b: seq<string>, keys: set<string>, key: string)
    requires SameLines(a, b, keys)
    ensures Sets(a, key) <==> Sets(b, key)
  {
    hide Key;
    if line :| line in a && Key(line) == key {
      var i :| 0 <= i < |a| && a[i] == line;
      assert Key(b[i]) == key;
    }
    if line :| line in b && Key(line) == key {
      var i :| 0 <= i < |b| && b[i] == line;
      assert Key(a[i]) == key;
    }
  }

  lemma {:induction false} ReplacedLines(a: seq<string>, b: seq<string>, keys: set<string>, v: Var)
    requires SameLines(a, b, keys) && v.key !in keys && WellFormed(v)
    ensures SameLines(Replaced(a, v), NoRepeats(b, {v.key}), keys + {v.key})
  {
    hide Key, Sets, Line, WellFormed, Replaced, NoRepeats;
    NoLines(v);
    NoRepeatsSnoc([], "", {v.key});
    if a != [] {
      var n := |a| - 1;
      ReplacedLines(a[..n], b[..n], keys, v);
      assert a[..n] + [a[n]] == a && b[..n] + [b[n]] == b;
      SameLinesSet(a[..n], b[..n], keys, v.key);
      ReplacedSnoc(a[..n], a[n], v);
      NoRepeatsSnoc(b[..n], b[n], {v.key});
      OwnKey(v);
    }
  }

  /** When every variable is set already, the lines written are those there, without the repeats. */
  lemma {:induction false} SetAllLines(lines: seq<string>, vars: seq<Var>)
    requires Distinct(vars) && forall v <- vars :: Sets(lines, v.key)
    ensures SameLines(SetAll(lines, vars), NoRepeats(lines, Keys(vars)), Keys(vars))
  {
    hide Key, Sets, Line, WellFormed, Replaced, NoRepeats;
    if vars == [] {
      NothingRepeats(lines);
      assert Keys(vars) == {};
    } else {
      var n := |vars| - 1;
      var v := vars[n];
      SetAllLines(lines, vars[..n]);
      assert Keys(vars) == Keys(vars[..n]) + {v.key};
      assert v.key !in Keys(vars[..n]);
      NoRepeatsMore(lines, Keys(vars[..n]), v.key);
      NoRepeatsSets(lines, Keys(vars[..n]), v.key);
      SameLinesSet(SetAll(lines, vars[..n]), NoRepeats(lines, Keys(vars[..n])), Keys(vars[..n]), v.key);
      ReplacedLines(SetAll(lines, vars[..n]), NoRepeats(lines, Keys(vars[..n])), Keys(vars[..n]), v);
    }
  }

  lemma {:induction false} NothingRepeats(lines: seq<string>)
    ensures NoRepeats(lines, {}) == lines
  {
    hide Key, Sets;
    if lines != [] {
      NothingRepeats(lines[..|lines| - 1]);
    }
  }

  lemma {:induction false} StaysSet(lines: seq<string>, vars: seq<Var>, key: string)
    requires Distinct(vars) && key !in Keys(vars)
    ensures Sets(SetAll(lines, vars), key) <==> Sets(lines, key)
  {
    hide Set, WellFormed, With, Line, Sets, Key;
    HasWith(lines, key);
    HasWith(SetAll(lines, vars), key);
    if vars != [] {
      var n := |vars| - 1;
      assert vars[n].key in Keys(vars) && Keys(vars[..n]) <= Keys(vars);
      StaysSet(lines, vars[..n], key);
      SetOnce(SetAll(lines, vars[..n]), vars[n], key, {vars[n].key});
      HasWith(SetAll(lines, vars[..n]), key);
    }
  }

  lemma LastReplaced(lines: seq<string>, v: Var)
    requires lines != [] && Key(lines[|lines| - 1]) != v.key
    ensures Replaced(lines, v) != [] && Replaced(lines, v)[|Replaced(lines, v)| - 1] == lines[|lines| - 1]
  {
  }

  /** When one is not, the last line is that of a variable. */
  lemma {:induction false} LastIsSet(lines: seq<string>, vars: seq<Var>) returns (w: Var)
    requires Distinct(vars) && exists v <- vars :: !Sets(lines, v.key)
    ensures w in vars && SetAll(lines, vars) != [] && SetAll(lines, vars)[|SetAll(lines, vars)| - 1] == Line(w)
  {
    hide Key, Sets, Line, WellFormed, Replaced;
    var n := |vars| - 1;
    var v := vars[n];
    assert v.key !in Keys(vars[..n]);
    StaysSet(lines, vars[..n], v.key);
    if !Sets(lines, v.key) {
      w := v;
    } else {
      w := LastIsSet(lines, vars[..n]);
      OwnKey(w);
      assert w in vars[..n] && w.key in Keys(vars[..n]);
      LastReplaced(SetAll(lines, vars[..n]), v);
    }
  }

  /** Whether the lines of Upsert end with a blank one, told from the lines it is given. */
  predicate EndsBlank(lines: seq<string>, vars: seq<Var>) {
    var left := NoRepeats(lines, Keys(vars));
    (forall v <- vars :: Sets(lines, v.key)) && |left| > 1 && left[|left| - 1] == ""
  }

  lemma EndsBlankTells(lines: seq<string>, vars: seq<Var>)
    requires Distinct(vars)
    ensures var out := SetAll(lines, vars); EndsBlank(lines, vars) <==> |out| > 1 && out[|out| - 1] == ""
  {
    hide SetAll, NoRepeats, Sets;
    var out, left := SetAll(lines, vars), NoRepeats(lines, Keys(vars));
    if forall v <- vars :: Sets(lines, v.key) {
      SetAllLines(lines, vars);
      if |out| > 0 {
        var n := |out| - 1;
        EmptyLine();
        assert out[n] == left[n] || (Key(out[n]) == Key(left[n]) && Key(out[n]) in Keys(vars));
        assert "" !in Keys(vars);
      }
    } else {
      var w := LastIsSet(lines, vars);
    }
  }

  /**
   A second run changes the file that a first one left exactly when the file set every variable before, and what it
   had, but for later copies of their keys, was more than one line and ended with a blank one: copies that follow
   blank lines are dropped, and so those lines are at the end, where the next run drops them.
   */
  lemma FileSetTwice(data: string, vars: seq<Var>, header: seq<string>)
    requires Distinct(vars) && OneLiners(vars, header)
    ensures Text(Text(data, vars, header), vars, header) != Text(data, vars, header)
            <==> EndsBlank(FileLines(data, header), vars)
  {
    hide SetAll, WellFormed, SplitLines, TrimRight, JoinLines, FileLines, EndsBlank;
    var lines := SetAll(FileLines(data, header), vars);
    EndsBlankTells(FileLines(data, header), vars);
    LinesNoBreaks(data, header);
    SetAllNoBreaks(FileLines(data, header), vars);
    if lines == [] {
      NothingWritten(vars, header);
      assert Text(data, vars, header) == "\n" && vars == [];
    } else {
      ReadBack(lines, header);
      StillSet(FileLines(data, header), vars);
      SameText(JoinLines(DropBlank(lines)), JoinLines(lines));
      TrimsBlank(lines);
      assert DropBlank(lines) == lines <==> |lines| <= 1 || lines[|lines| - 1] != "";
    }
  }

  lemma LinesNoBreaks(data: string, header: seq<string>)
    requires NoBreaks(header)
    ensures NoBreaks(FileLines(data, header))
  {
  }

  /** Nothing to write makes a file of one line break, which stays. */
  lemma NothingWritten(vars: seq<Var>, header: seq<string>)
    ensures JoinLines([]) == "" == JoinLines([""]) && FileLines("\n", header) == [""]
    ensures vars == [] ==> SetAll([""], vars) == [""]
  {
    assert "\n"[..0] == "" && ("" + "\n") == "\n";
  }

  /** Such a file: two copies of a key with a blank line between them. */
  lemma BlankLeftAtEnd(first: string, last: string, v: Var)
    requires WellFormed(v) && Key(first) == v.key == Key(last) && NoBreaks([first, "", last])
    ensures SetAll(FileLines(JoinLines([first, "", last]) + "\n", []), [v]) == [Line(v), ""]
  {
    var lines := [first, "", last];
    assert Key("") == "" && last != "" by {
      EmptyLine();
    }
    hide Key, Line, JoinLines;
    ReadBack(lines, []);
    SetsThree(lines, v);
    assert [v][..0] == [];
  }

  lemma EmptyLine()
    ensures Key("") == ""
  {
  }

  lemma SetsThree(lines: seq<string>, v: Var)
    requires |lines| == 3 && Key(lines[0]) == v.key == Key(lines[2]) && Key(lines[1]) != v.key
    ensures Set(lines, v) == [Line(v), lines[1]]
  {
    hide Key, Line;
    assert lines[..1] == [lines[0]] && lines[..2] == [lines[0], lines[1]] && lines[..0] == [] && lines[..3] == lines;
    OneMoreLine(lines, 0, v);
    OneMoreLine(lines, 1, v);
    OneMoreLine(lines, 2, v);
  }
}
