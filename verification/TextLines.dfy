/** Text as complete lines and an unfinished rest. */
module TextLines {
  /** `strchr(s, c)`: the position of the first `c`, or the length of the text. */
  function FirstOf(s: string, c: char): (i: nat)
    ensures i <= |s| && (i < |s| ==> s[i] == c) && forall j | 0 <= j < i :: s[j] != c
  {
    if s == [] || s[0] == c then 0 else 1 + FirstOf(s[1..], c)
  }

  lemma {:induction false} FirstIs(s: string, c: char, i: nat)
    requires i <= |s| && (i < |s| ==> s[i] == c) && forall j | 0 <= j < i :: s[j] != c
    ensures FirstOf(s, c) == i
  {
    if i > 0 { FirstIs(s[1..], c, i - 1); }
  }

  /** The position of the first newline, or the length of the text. */
  function FirstBreak(s: string): (i: nat)
    ensures i <= |s| && (i < |s| ==> s[i] == '\n') && forall j | 0 <= j < i :: s[j] != '\n'
  {
    FirstOf(s, '\n')
  }

  /** The lines that are finished by a newline, without it. */
  function Lines(s: string): (ls: seq<string>)
    decreases |s|
  {
    var i := FirstBreak(s);
    if i == |s| then [] else [s[..i]] + Lines(s[i + 1..])
  }

  /** What follows the last newline. */
  function Rest(s: string): (r: string)
    ensures FirstBreak(r) == |r|
    decreases |s|
  {
    var i := FirstBreak(s);
    if i == |s| then s else Rest(s[i + 1..])
  }

  lemma BreakIs(s: string, i: nat)
    requires i <= |s| && (i < |s| ==> s[i] == '\n') && forall j | 0 <= j < i :: s[j] != '\n'
    ensures FirstBreak(s) == i
  {
    FirstIs(s, '\n', i);
  }

  /** Reading on after a piece of text is reading on after its unfinished rest. */
  lemma {:induction false} LinesConcat(a: string, b: string)
    ensures Lines(a + b) == Lines(a) + Lines(Rest(a) + b) && Rest(a + b) == Rest(Rest(a) + b)
    decreases |a|
  {
    var i := FirstBreak(a);
    if i < |a| {
      BreakIs(a + b, i);
      assert (a + b)[..i] == a[..i];
      assert (a + b)[i + 1..] == a[i + 1..] + b;
      LinesConcat(a[i + 1..], b);
    }
  }

  /** Lines, each with its newline, one after the other. */
  function Joined(ls: seq<string>): string
  {
    if ls == [] then [] else ls[0] + ['\n'] + Joined(ls[1..])
  }

  ghost predicate Unbroken(ls: seq<string>)
  {
    forall k | 0 <= k < |ls| :: FirstBreak(ls[k]) == |ls[k]|
  }

  lemma {:induction false} LinesJoin(s: string)
    ensures Joined(Lines(s)) + Rest(s) == s
    decreases |s|
  {
    var i := FirstBreak(s);
    if i < |s| {
      var t := s[i + 1..];
      LinesJoin(t);
      Uncons(s[..i], Lines(t));
      Glue(s, i, Joined(Lines(t)), Rest(t));
    }
  }

  lemma Uncons(l: string, ls: seq<string>)
    ensures Joined([l] + ls) == l + ['\n'] + Joined(ls)
  {
    assert ([l] + ls)[1..] == ls;
  }

  lemma Glue(s: string, i: nat, a: string, b: string)
    requires i < |s| && s[i] == '\n' && a + b == s[i + 1..]
    ensures s[..i] + ['\n'] + a + b == s
  {
    assert s[..i] + ['\n'] + a + b == s[..i] + ['\n'] + (a + b);
  }

  lemma {:induction false} LinesUnbroken(s: string)
    ensures Unbroken(Lines(s))
    decreases |s|
  {
    var i := FirstBreak(s);
    if i < |s| {
      BreakIs(s[..i], i);
      LinesUnbroken(s[i + 1..]);
    }
  }

  lemma {:induction false} LinesOfJoined(ls: seq<string>, rest: string)
    requires Unbroken(ls) && FirstBreak(rest) == |rest|
    ensures Lines(Joined(ls) + rest) == ls && Rest(Joined(ls) + rest) == rest
    decreases |ls|
  {
    var s := Joined(ls) + rest;
    if ls == [] {
      assert s == rest;
    } else {
      var l, t := ls[0], Joined(ls[1..]) + rest;
      assert s == l + ['\n'] + t;
      BreakIs(s, |l|);
      assert s[..|l|] == l && s[|l| + 1..] == t;
      LinesOfJoined(ls[1..], rest);
    }
  }

  lemma LineEnds(l: string)
    requires FirstBreak(l) == |l|
    ensures Lines(l + ['\n']) == [l] && Rest(l + ['\n']) == []
  {
    assert Joined([l]) + [] == l + ['\n'];
    LinesOfJoined([l], []);
  }

  /** Lines and rest are the only way of writing a text as lines, each with its newline, and a rest
      without one. */
  lemma LinesMeaning(s: string, ls: seq<string>, rest: string)
    ensures Unbroken(ls) && FirstBreak(rest) == |rest| && Joined(ls) + rest == s <==> ls == Lines(s) && rest == Rest(s)
  {
    LinesJoin(s);
    LinesUnbroken(s);
    if Unbroken(ls) && FirstBreak(rest) == |rest| { LinesOfJoined(ls, rest); }
  }

  /** Cutting after the last newline separates the two. */
  lemma CutAtLast(s: string, k: nat)
    requires k < |s| && s[k] == '\n' && forall j | k < j < |s| :: s[j] != '\n'
    ensures Rest(s) == s[k + 1..] && Lines(s[..k + 1]) == Lines(s) && Rest(s[..k + 1]) == []
  {
    var a, b := s[..k + 1], s[k + 1..];
    assert s == a + b;
    LinesConcat(a, b);
    EndsBroken(a);
    BreakIs(b, |b|);
    assert [] + b == b;
    assert Lines(b) == [];
    assert Lines(a) + [] == Lines(a);
  }

  lemma {:induction false} EndsBroken(s: string)
    requires s != [] && s[|s| - 1] == '\n'
    ensures Rest(s) == []
    decreases |s|
  {
    var i := FirstBreak(s);
    if i + 1 < |s| { EndsBroken(s[i + 1..]); }
  }

  lemma NoBreak(s: string)
    requires forall j | 0 <= j < |s| :: s[j] != '\n'
    ensures Lines(s) == [] && Rest(s) == s
  {
    BreakIs(s, |s|);
  }
}
