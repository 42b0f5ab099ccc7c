/** `config_read` of Simulator/core/config.c, not in query mode: each variable takes its value from
    the first source that defines it. */
module Config {
  import opened Layout
  import opened TextLines
  import opened ConfigLines
  import opened ConfigReader

  /** `MAX_CONFIG_VALUE` */
  const MAX_VALUE: nat := 2048
  const BUFSIZE: nat := MAX_VALUE + 128

  datatype Value = Value(text: string, appSpecific: bool, fromEnv: bool)

  type Values = seq<Option<Value>>

  /** `strncpy` into a value */
  function Clip(text: string): string
  {
    if |text| > MAX_VALUE then text[..MAX_VALUE] else text
  }

  /** The line gives a value to variable `name`: the name is followed by an equals sign, and has none inside. */
  predicate Defines(name: string, line: string)
  {
    name <= line && FirstOf(line, '=') == |name| < |line|
  }

  predicate Malformed(name: string, line: string)
  {
    name <= line && !Defines(name, line)
  }

  predicate AnyMalformed(names: seq<string>, line: string)
  {
    exists i :: 0 <= i < |names| && Malformed(names[i], line)
  }

  function Given(name: string, line: string): string
    requires Defines(name, line)
  {
    Clip(line[|name| + 1..])
  }

  /** `process_config_line` without `overwrite`, for one variable */
  function ProcessedOne(name: string, v: Option<Value>, line: string, app: bool): Option<Value>
  {
    if v.None? && Defines(name, line) then Some(Value(Given(name, line), app, false)) else v
  }

  function Processed(names: seq<string>, vals: Values, line: string, app: bool): (r: Values)
    requires |vals| == |names|
    ensures |r| == |vals| && forall i | 0 <= i < |r| :: r[i] == ProcessedOne(names[i], vals[i], line, app)
  {
    seq(|vals|, i requires 0 <= i < |vals| => ProcessedOne(names[i], vals[i], line, app))
  }

  function ProcessedAll(names: seq<string>, vals: Values, lines: seq<string>, app: bool): (r: Values)
    requires |vals| == |names|
    ensures |r| == |vals|
    decreases |lines|
  {
    if lines == [] then vals else ProcessedAll(names, Processed(names, vals, lines[0], app), lines[1..], app)
  }

  /** Blank lines and comments are skipped. */
  predicate Counts(line: string)
  {
    line != [] && line[0] != '#'
  }

  function Relevant(lines: seq<string>): seq<string>
  {
    if lines == [] then [] else (if Counts(lines[0]) then [lines[0]] else []) + Relevant(lines[1..])
  }

  // ----- the meaning

  /** The value in the first line that gives one. */
  function FirstGiven(name: string, lines: seq<string>): Option<string>
  {
    if lines == [] then None
    else if Defines(name, lines[0]) then Some(Given(name, lines[0]))
    else FirstGiven(name, lines[1..])
  }

  function Preferred(v: Option<Value>, text: Option<string>, app: bool, env: bool): Option<Value>
  {
    if v.Some? then v else if text.Some? then Some(Value(text.value, app, env)) else None
  }

  /** A variable that has a value keeps it; another takes the first value the lines give. */
  lemma {:induction false} FirstWins(names: seq<string>, vals: Values, lines: seq<string>, app: bool, i: nat)
    requires |vals| == |names| && i < |names|
    ensures ProcessedAll(names, vals, lines, app)[i] == Preferred(vals[i], FirstGiven(names[i], lines), app, false)
    decreases |lines|
  {
    if lines != [] { FirstWins(names, Processed(names, vals, lines[0], app), lines[1..], app, i); }
  }

  // ----- the meaning in terms of what stands in a file

  /** The line begins with the name and an equals sign. */
  predicate Names(name: string, line: string)
  {
    name + "=" <= line
  }

  lemma DefinesMeaning(name: string, line: string)
    requires '=' !in name
    ensures Defines(name, line) <==> Names(name, line)
  {
    if Names(name, line) {
      forall j | 0 <= j < |name| ensures line[j] != '=' {
        assert line[j] == (name + "=")[j] == name[j] && name[j] in name;
      }
      assert line[|name|] == (name + "=")[|name|];
      assert name == (name + "=")[..|name|] == line[..|name|];
      FirstIs(line, '=', |name|);
    }
  }

  /** `text` is `v`, or its first 2048 characters if there are more. */
  predicate CutTo(text: string, v: string)
  {
    text <= v && |text| == if |v| > 2048 then 2048 else |v|
  }

  /** The line `name=v` gives the value `v`. */
  lemma GivenMeaning(name: string, v: string)
    requires '=' !in name
    ensures Defines(name, name + "=" + v) && CutTo(Given(name, name + "=" + v), v)
  {
    var line := name + "=" + v;
    assert name + "=" <= line;
    DefinesMeaning(name, line);
    assert line[|name| + 1..] == v;
  }

  /** The first of the lines that is about the variable is `name=v`. */
  ghost predicate FirstGives(name: string, lines: seq<string>, v: string)
  {
    exists k :: 0 <= k < |lines| && lines[k] == name + "=" + v && NoneNames(name, lines[..k])
  }

  predicate NoneNames(name: string, lines: seq<string>)
  {
    forall j | 0 <= j < |lines| :: !Names(name, lines[j])
  }

  lemma {:induction false} FirstGivenMeaning(name: string, lines: seq<string>)
    requires '=' !in name
    ensures FirstGiven(name, lines).None? <==> NoneNames(name, lines)
  {
    if lines != [] {
      DefinesMeaning(name, lines[0]);
      FirstGivenMeaning(name, lines[1..]);
      assert forall j | 1 <= j < |lines| :: lines[j] == lines[1..][j - 1];
    }
  }

  lemma {:induction false} FirstGivenIs(name: string, lines: seq<string>, k: nat, v: string)
    requires '=' !in name && k < |lines| && lines[k] == name + "=" + v && NoneNames(name, lines[..k])
    ensures FirstGiven(name, lines).Some? && CutTo(FirstGiven(name, lines).value, v)
    decreases k
  {
    if k == 0 {
      GivenMeaning(name, v);
    } else {
      assert lines[..k][0] == lines[0];
      DefinesMeaning(name, lines[0]);
      assert lines[1..][..k - 1] == lines[..k][1..];
      FirstGivenIs(name, lines[1..], k - 1, v);
    }
  }

  predicate Is(x: Option<Value>, v: string, app: bool, env: bool)
  {
    x.Some? && CutTo(x.value.text, v) && x.value.appSpecific == app && x.value.fromEnv == env
  }

  /** The first line about a variable in the application's file decides, whatever the other sources hold;
      without one the first in the default file; and without that the environment. */
  ghost predicate Precedence(name: string, x: Option<Value>, app: seq<string>, default: seq<string>,
    env: string -> Option<string>)
  {
    && (forall v | FirstGives(name, app, v) :: Is(x, v, true, false))
    && (NoneNames(name, app) ==> forall v | FirstGives(name, default, v) :: Is(x, v, false, false))
    && (NoneNames(name, app) && NoneNames(name, default) ==>
          match env(name) case Some(v) => Is(x, v, false, true) case None => x.None?)
  }

  lemma FinalPrecedence(name: string, app: Option<string>, default: Option<string>, env: string -> Option<string>)
    requires '=' !in name
    ensures Precedence(name, Final(name, app, default, env), LinesOf(app), LinesOf(default), env)
  {
    var a, d := LinesOf(app), LinesOf(default);
    FirstGivenMeaning(name, a);
    FirstGivenMeaning(name, d);
    forall v | FirstGives(name, a, v) ensures Is(Final(name, app, default, env), v, true, false) {
      var k :| 0 <= k < |a| && a[k] == name + "=" + v && NoneNames(name, a[..k]);
      FirstGivenIs(name, a, k, v);
    }
    if NoneNames(name, a) {
      forall v | FirstGives(name, d, v) ensures Is(Final(name, app, default, env), v, false, false) {
        var k :| 0 <= k < |d| && d[k] == name + "=" + v && NoneNames(name, d[..k]);
        FirstGivenIs(name, d, k, v);
      }
    }
  }

  /** A line is malformed exactly if it begins with the name of a variable and no equals sign follows. */
  lemma MalformedMeaning(names: seq<string>, line: string)
    requires forall i | 0 <= i < |names| :: '=' !in names[i]
    ensures AnyMalformed(names, line) <==> exists i :: 0 <= i < |names| && names[i] <= line && !Names(names[i], line)
  {
    forall i | 0 <= i < |names| ensures Defines(names[i], line) <==> Names(names[i], line) {
      DefinesMeaning(names[i], line);
    }
  }

  lemma {:induction false} RelevantConcat(a: seq<string>, b: seq<string>)
    ensures Relevant(a + b) == Relevant(a) + Relevant(b)
    decreases |a|
  {
    if a == [] {
      assert a + b == b;
    } else {
      assert (a + b)[1..] == a[1..] + b;
      RelevantConcat(a[1..], b);
      RelevantCons(a[0], a[1..]);
      RelevantCons(a[0], a[1..] + b);
      assert [a[0]] + a[1..] == a && [a[0]] + (a[1..] + b) == a + b;
    }
  }

  /** Of a file made of lines, those count that are neither empty nor begin with a number sign, in their
      order. */
  lemma FileLinesMeaning(before: seq<string>, l: string, after: seq<string>)
    requires var ls := before + [l] + after;
      Unbroken(ls) && forall k | 0 <= k < |ls| :: |ls[k]| < BUFSIZE - 1 && (ls[k] == [] || ls[k][|ls[k]| - 1] != '\r')
    ensures FileLines(Joined(before + [l] + after)) ==
      Relevant(before) + (if l == [] || l[0] == '#' then [] else [l]) + Relevant(after)
  {
    PlainFile(BUFSIZE - 1, before + [l] + after);
    RelevantConcat(before + [l], after);
    RelevantConcat(before, [l]);
    RelevantCons(l, []);
    assert [l] + [] == [l];
  }

  // ----- what a reader of a value sees

  function Flag(b: bool): char
  {
    if b then 1 as char else '\0'
  }

  /** The bytes of a value: `strncpy` fills its array up with zeros, and the flags follow. */
  function Stored(text: string, app: bool, env: bool): string
  {
    Clip(text) + seq(MAX_VALUE - |Clip(text)|, _ => '\0') + [Flag(true), Flag(app), Flag(env)]
  }

  /** The text that a pointer to these bytes stands for. */
  function Terminated(bytes: string): string
  {
    bytes[..FirstOf(bytes, '\0')]
  }

  lemma StoredEnd(text: string, app: bool, env: bool, i: nat)
    requires '\0' !in text && !(app && env)
    requires i == if |text| < MAX_VALUE then |text| else MAX_VALUE + if app then 2 else 1
    ensures Terminated(Stored(text, app, env)) ==
      Clip(text) + if |text| < MAX_VALUE then [] else Stored(text, app, env)[MAX_VALUE..i]
  {
    var bytes := Stored(text, app, env);
    forall j | 0 <= j < i ensures bytes[j] != '\0' {
      if j < |Clip(text)| { assert bytes[j] == text[j] && text[j] in text; }
    }
    FirstIs(bytes, '\0', i);
    assert bytes[..MAX_VALUE] == Clip(text) + seq(MAX_VALUE - |Clip(text)|, _ => '\0');
  }

  /** A reader gets the value, cut to its limit, exactly if the text given is shorter than the limit.
      Otherwise nothing ends the text in the array, and the reader takes the flags behind it along. */
  lemma ReadBackExactly(text: string, app: bool, env: bool)
    requires '\0' !in text && !(app && env)
    ensures Terminated(Stored(text, app, env)) == Clip(text) <==> |text| < MAX_VALUE
    ensures |text| >= MAX_VALUE ==> |Terminated(Stored(text, app, env))| > MAX_VALUE
  {
    StoredEnd(text, app, env, if |text| < MAX_VALUE then |text| else MAX_VALUE + if app then 2 else 1);
  }

  /** The shortest such text */
  lemma LongValueRunsOn(text: string)
    requires text == seq(MAX_VALUE, _ => 'a')
    ensures Terminated(Stored(text, false, true)) == text + [1 as char]
  {
    StoredEnd(text, false, true, MAX_VALUE + 1);
  }

  // ----- the program

  method FindEquals(line: string) returns (i: nat)
    ensures i == FirstOf(line, '=')
  {
    i := 0;
    while i < |line| && line[i] != '='
      invariant 0 <= i <= |line| && forall j | 0 <= j < i :: line[j] != '='
    {
      i := i + 1;
    }
    FirstIs(line, '=', i);
  }

  /** `process_config_line`. A line that names a variable but gives no value is fatal. */
  method ProcessLine(names: seq<string>, vals: array<Option<Value>>, line: string, app: bool) returns (fatal: bool)
    requires vals.Length == |names|
    modifies vals
    ensures fatal <==> AnyMalformed(names, line)
    ensures !fatal ==> vals[..] == Processed(names, old(vals[..]), line, app)
  {
    ghost var was := vals[..];
    fatal := false;
    var i := 0;
    while i < |names|
      invariant 0 <= i <= |names| && forall j | 0 <= j < i :: !Malformed(names[j], line)
      invariant forall j | 0 <= j < vals.Length ::
        vals[j] == if j < i then ProcessedOne(names[j], was[j], line, app) else was[j]
    {
      if names[i] <= line {
        var k := FindEquals(line);
        if k == |line| || k != |names[i]| {
          assert Malformed(names[i], line);
          fatal := true;
          return;
        } else if vals[i].None? {
          vals[i] := Some(Value(Clip(line[k + 1..]), app, false));
        }
      }
      i := i + 1;
    }
  }

  predicate SomeMalformed(names: seq<string>, lines: seq<string>)
  {
    exists k :: 0 <= k < |lines| && AnyMalformed(names, lines[k])
  }

  lemma MalformedCons(names: seq<string>, l: string, ls: seq<string>)
    ensures SomeMalformed(names, [l] + ls) <==> AnyMalformed(names, l) || SomeMalformed(names, ls)
  {
    if AnyMalformed(names, l) { assert ([l] + ls)[0] == l; }
    if SomeMalformed(names, ls) {
      var k :| 0 <= k < |ls| && AnyMalformed(names, ls[k]);
      assert ([l] + ls)[k + 1] == ls[k];
    }
  }

  lemma ProcessedCons(names: seq<string>, vals: Values, l: string, ls: seq<string>, app: bool)
    requires |vals| == |names|
    ensures ProcessedAll(names, vals, [l] + ls, app) == ProcessedAll(names, Processed(names, vals, l, app), ls, app)
  {
    assert ([l] + ls)[1..] == ls;
  }

  lemma RelevantCons(l: string, ls: seq<string>)
    ensures Relevant([l] + ls) == (if Counts(l) then [l] else []) + Relevant(ls)
  {
    assert ([l] + ls)[1..] == ls;
  }

  /** The lines of a file that count. */
  function FileLines(file: string): seq<string>
  {
    Relevant(Fresh(BUFSIZE - 1, file))
  }

  /** What is left to do with the lines `ls`. */
  ghost predicate Remaining(names: seq<string>, was: Values, vals: Values, all: seq<string>, ls: seq<string>, app: bool)
  {
    && |was| == |vals| == |names|
    && ProcessedAll(names, was, all, app) == ProcessedAll(names, vals, Relevant(ls), app)
    && (SomeMalformed(names, all) <==> SomeMalformed(names, Relevant(ls)))
  }

  lemma RemainingStep(names: seq<string>, was: Values, vals: Values, all: seq<string>, l: string, ls: seq<string>,
    app: bool)
    requires Remaining(names, was, vals, all, [l] + ls, app)
    ensures !Counts(l) ==> Remaining(names, was, vals, all, ls, app)
    ensures Counts(l) && AnyMalformed(names, l) ==> SomeMalformed(names, all)
    ensures Counts(l) && !AnyMalformed(names, l) ==> Remaining(names, was, Processed(names, vals, l, app), all, ls, app)
  {
    RelevantCons(l, ls);
    if Counts(l) {
      ProcessedCons(names, vals, l, Relevant(ls), app);
      MalformedCons(names, l, Relevant(ls));
    } else {
      assert [] + Relevant(ls) == Relevant(ls);
    }
  }

  /** One line of a file */
  method HandleLine(names: seq<string>, vals: array<Option<Value>>, line: string, app: bool) returns (fatal: bool)
    requires vals.Length == |names|
    modifies vals
    ensures fatal <==> Counts(line) && AnyMalformed(names, line)
    ensures !fatal ==> vals[..] == if Counts(line) then Processed(names, old(vals[..]), line, app) else old(vals[..])
  {
    fatal := false;
    if line != [] && line[0] != '#' {
      fatal := ProcessLine(names, vals, line, app);
    }
  }

  /** `read_config_file` */
  method ReadFile(names: seq<string>, vals: array<Option<Value>>, file: string, app: bool) returns (fatal: bool)
    requires vals.Length == |names|
    modifies vals
    ensures fatal <==> SomeMalformed(names, FileLines(file))
    ensures !fatal ==> vals[..] == ProcessedAll(names, old(vals[..]), FileLines(file), app)
  {
    ghost var was, all := vals[..], FileLines(file);
    fatal := false;
    var reader := new Reader(file, BUFSIZE);
    var line := reader.NextLine();
    while line.Some?
      invariant line.Some? ==> reader.Valid() && fresh(reader) && fresh(reader.buf)
      invariant line.Some? ==> Remaining(names, was, vals[..], all, [line.value] + reader.Pending(), app)
      invariant line.None? ==> Remaining(names, was, vals[..], all, [], app)
      decreases line.Some?, if line.Some? then reader.Measure() else 0
    {
      RemainingStep(names, was, vals[..], all, line.value, reader.Pending(), app);
      fatal := HandleLine(names, vals, line.value, app);
      if fatal {
        return;
      }
      line := reader.NextLine();
    }
  }

  /** `set_config_from_env` */
  method SetFromEnv(names: seq<string>, vals: array<Option<Value>>, env: string -> Option<string>)
    requires vals.Length == |names|
    modifies vals
    ensures forall i | 0 <= i < |names| :: vals[i] == FromEnv(names[i], old(vals[i]), env)
  {
    var i := 0;
    while i < |names|
      invariant 0 <= i <= |names|
      invariant forall j | 0 <= j < vals.Length ::
        vals[j] == if j < i then FromEnv(names[j], old(vals[j]), env) else old(vals[j])
    {
      if vals[i].None? {
        var e := env(names[i]);
        if e.Some? {
          vals[i] := Some(Value(Clip(e.value), false, true));
        }
      }
      i := i + 1;
    }
  }

  function FromEnv(name: string, v: Option<Value>, env: string -> Option<string>): Option<Value>
  {
    Preferred(v, match env(name) case Some(t) => Some(Clip(t)) case None => None, false, true)
  }

  function LinesOf(file: Option<string>): seq<string>
  {
    if file.Some? then FileLines(file.value) else []
  }

  /** The value of a variable: from the application's file, else from the default file, else from
      the environment. */
  function Final(name: string, app: Option<string>, default: Option<string>,
    env: string -> Option<string>): Option<Value>
  {
    var v1 := Preferred(None, FirstGiven(name, LinesOf(app)), true, false);
    var v2 := Preferred(v1, FirstGiven(name, LinesOf(default)), false, false);
    FromEnv(name, v2, env)
  }

  /** `config_read` for the current process, once the files are open */
  method ReadConfig(names: seq<string>, vals: array<Option<Value>>, app: Option<string>, default: Option<string>,
    env: string -> Option<string>)
      returns (fatal: bool)
    requires vals.Length == |names| && forall i | 0 <= i < vals.Length :: vals[i].None?
    modifies vals
    ensures fatal <==> SomeMalformed(names, LinesOf(app)) || SomeMalformed(names, LinesOf(default))
    ensures !fatal ==> forall i | 0 <= i < |names| :: vals[i] == Final(names[i], app, default, env)
    ensures !fatal ==> forall i | 0 <= i < |names| && '=' !in names[i] ::
      Precedence(names[i], vals[i], LinesOf(app), LinesOf(default), env)
  {
    fatal := false;
    ghost var v0 := vals[..];
    if app.Some? {
      fatal := ReadFile(names, vals, app.value, true);
      if fatal {
        return;
      }
    }
    ghost var v1 := vals[..];
    if default.Some? {
      fatal := ReadFile(names, vals, default.value, false);
      if fatal {
        return;
      }
    }
    Sources(names, v0, v1, vals[..], LinesOf(app), LinesOf(default));
    SetFromEnv(names, vals, env);
    forall i | 0 <= i < |names| && '=' !in names[i]
      ensures Precedence(names[i], Final(names[i], app, default, env), LinesOf(app), LinesOf(default), env)
    {
      FinalPrecedence(names[i], app, default, env);
    }
  }

  lemma Sources(names: seq<string>, v0: Values, v1: Values, v2: Values, app: seq<string>, default: seq<string>)
    requires |v0| == |names| && v1 == ProcessedAll(names, v0, app, true)
    requires v2 == ProcessedAll(names, v1, default, false)
    ensures forall i | 0 <= i < |names| ::
      v2[i] == Preferred(Preferred(v0[i], FirstGiven(names[i], app), true, false), FirstGiven(names[i], default), false,
        false)
  {
    forall i: nat | i < |names| ensures v2[i] ==
      Preferred(Preferred(v0[i], FirstGiven(names[i], app), true, false), FirstGiven(names[i], default), false, false) {
      FirstWins(names, v0, app, true, i);
      FirstWins(names, v1, default, false, i);
    }
  }
}
