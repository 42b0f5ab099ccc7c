/** The lines that the shifting window of `read_config_file` (Simulator/core/config.c) delivers. */
module ConfigLines {
  import opened Arithmetic
  import opened TextLines

  /** A carriage return before the newline is dropped. */
  function Chomp(l: string): string
  {
    if l != [] && l[|l| - 1] == '\r' then l[..|l| - 1] else l
  }

  /** Exactly one carriage return goes, and only from the end. */
  lemma ChompMeaning(l: string)
    ensures Chomp(l + ['\r']) == l
    ensures Chomp(l) == l <==> l == [] || l[|l| - 1] != '\r'
  {
  }

  /** A buffer full of text without a newline counts as a line. Its carriage return is dropped only
      if it stands at the very end of the buffer. */
  function Cut(size: nat, win: string): string
  {
    if |win| == size then Chomp(win) else win
  }

  function Chomped(ls: seq<string>): seq<string>
  {
    if ls == [] then [] else [Chomp(ls[0])] + Chomped(ls[1..])
  }

  // ----- the window: `size` bytes, of which `win` is not processed yet; `more` is unread

  /** The buffer is filled from the beginning. */
  function Fresh(size: nat, more: string): seq<string>
    requires size > 0
    decreases |more|, 1
  {
    if more == [] then []
    else
      var r := Min(size, |more|);
      Filled(size, more[..r], more[r..])
  }

  /** The buffer holds `win`, which starts with a line. */
  function Filled(size: nat, win: string, more: string): seq<string>
    requires size > 0 && win != []
    decreases |win| + |more|, 0
  {
    var i := FirstBreak(win);
    if i < |win| then [Chomp(win[..i])] + Next(size, win[i + 1..], more, |win|)
    else [Cut(size, win)] + Fresh(size, more)
  }

  /** A line has been taken off. The buffer holds `total` bytes in all; if no newline is left, the
      rest is moved to the front and the room behind it is filled. */
  function Next(size: nat, win: string, more: string, total: nat): seq<string>
    requires size > 0 && |win| < total
    decreases |win| + |more|, 1
  {
    var i := FirstBreak(win);
    if i < |win| then [Chomp(win[..i])] + Next(size, win[i + 1..], more, total)
    else
      var r := Min(total - |win|, |more|);
      if r == 0 then [] else Filled(size, win + more[..r], more[r..])
  }

  // ----- exactly what is delivered

  /** How much of the text is unread when its lines `ls` have been taken off, starting with `w` bytes
      in the window and `m` behind it. */
  function Unread(size: nat, w: nat, m: nat, ls: seq<string>): nat
    decreases |ls|
  {
    if ls == [] then m
    else
      var n := |ls[0]| + 1;
      if n <= w then Unread(size, w - n, m, ls[1..])
      else
        var r := if w <= size then Min(size - w, m) else 0;
        Unread(size, if n <= w + r then w + r - n else 0, m - r, ls[1..])
  }

  /** Lines and rest fit into the window. */
  ghost predicate Short(size: nat, text: string)
  {
    (forall k | 0 <= k < |Lines(text)| :: |Lines(text)[k]| < size) && |Rest(text)| <= size
  }

  /** An unfinished last line is delivered if part of it is unread when its turn comes. */
  function Tail(size: nat, rest: string, left: nat): seq<string>
  {
    if rest != [] && left > 0 then [Cut(size, rest)] else []
  }

  lemma ShortAfter(size: nat, text: string)
    requires Short(size, text) && FirstBreak(text) < |text|
    ensures var i := FirstBreak(text); var t := text[i + 1..];
      && Lines(text) == [text[..i]] + Lines(t) && Rest(text) == Rest(t) && Short(size, t) && i < size
  {
    var i := FirstBreak(text);
    var t := text[i + 1..];
    assert Lines(text)[0] == text[..i];
    forall k | 0 <= k < |Lines(t)| ensures |Lines(t)[k]| < size {
      assert Lines(text)[k + 1] == Lines(t)[k];
    }
  }

  /** What is delivered when all lines fit into the window. */
  function Expected(size: nat, w: nat, m: nat, ls: seq<string>, rest: string): seq<string>
  {
    Chomped(ls) + Tail(size, rest, Unread(size, w, m, ls))
  }

  lemma ChompedCons(l: string, ls: seq<string>)
    ensures Chomped([l] + ls) == [Chomp(l)] + Chomped(ls)
  {
    assert ([l] + ls)[1..] == ls;
  }

  lemma UnreadCons(size: nat, w: nat, m: nat, l: string, ls: seq<string>)
    requires |l| < w
    ensures Unread(size, w, m, [l] + ls) == Unread(size, w - (|l| + 1), m, ls)
  {
    assert ([l] + ls)[1..] == ls;
  }

  lemma UnreadFill(size: nat, w: nat, m: nat, w': nat, m': nat, ls: seq<string>)
    requires w <= size && w' == w + Min(size - w, m) && w' + m' == w + m && ls != [] && w <= |ls[0]| < w'
    ensures Unread(size, w', m', ls) == Unread(size, w, m, ls)
  {
  }

  lemma Regroup(a: seq<string>, b: seq<string>, c: seq<string>)
    ensures a + b + c == a + (b + c)
  {
  }

  /** Taking the first line off. */
  lemma ExpectedCons(size: nat, w: nat, m: nat, l: string, ls: seq<string>, rest: string)
    requires |l| < w
    ensures Expected(size, w, m, [l] + ls, rest) == [Chomp(l)] + Expected(size, w - (|l| + 1), m, ls, rest)
  {
    ChompedCons(l, ls);
    UnreadCons(size, w, m, l, ls);
    Regroup([Chomp(l)], Chomped(ls), Tail(size, rest, Unread(size, w, m, [l] + ls)));
  }

  lemma ExpectedStep(size: nat, w: nat, m: nat, text: string, l: string, t: string)
    requires Short(size, text) && FirstBreak(text) < w && FirstBreak(text) < |text|
    requires l == text[..FirstBreak(text)] && t == text[FirstBreak(text) + 1..]
    ensures Short(size, t)
    ensures Expected(size, w, m, Lines(text), Rest(text)) == [Chomp(l)] +
      Expected(size, w - (|l| + 1), m, Lines(t), Rest(t))
  {
    ShortAfter(size, text);
    ExpectedCons(size, w, m, l, Lines(t), Rest(text));
  }

  /** Filling the window up does not change what is to be expected. */
  lemma ExpectedFill(size: nat, w: nat, m: nat, w': nat, m': nat, text: string)
    requires w <= size && w + m == |text| && w <= FirstBreak(text) < w' && w' == w + Min(size - w, m)
    requires w' + m' == |text|
    ensures Expected(size, w', m', Lines(text), Rest(text)) == Expected(size, w, m, Lines(text), Rest(text))
  {
    assert |Lines(text)[0]| == FirstBreak(text);
    UnreadFill(size, w, m, w', m', Lines(text));
  }

  lemma BreakInFront(win: string, more: string)
    requires FirstBreak(win) < |win|
    ensures var i := FirstBreak(win);
      FirstBreak(win + more) == i && (win + more)[..i] == win[..i] && (win + more)[i + 1..] == win[i + 1..] + more
  {
    BreakIs(win + more, FirstBreak(win));
  }

  /** Taking the first line off the window. */
  lemma StepIn(size: nat, win: string, more: string)
    requires Short(size, win + more) && FirstBreak(win) < |win|
    ensures var i := FirstBreak(win); var win' := win[i + 1..];
      && Short(size, win' + more)
      && Awaited(size, win, more) == [Chomp(win[..i])] + Awaited(size, win', more)
  {
    BreakInFront(win, more);
    var i := FirstBreak(win);
    ExpectedStep(size, |win|, |more|, win + more, win[..i], win[i + 1..] + more);
  }

  /** What is delivered from a window and what follows it. */
  function Awaited(size: nat, win: string, more: string): seq<string>
  {
    Expected(size, |win|, |more|, Lines(win + more), Rest(win + more))
  }

  lemma NextStep(size: nat, win: string, more: string, total: nat, win': string)
    requires |win| < total && size > 0 && FirstBreak(win) < |win| && win' == win[FirstBreak(win) + 1..]
    requires Short(size, win + more)
    requires Next(size, win', more, total) == Awaited(size, win', more)
    ensures Next(size, win, more, total) == Awaited(size, win, more)
  {
    StepIn(size, win, more);
  }

  lemma FilledStep(size: nat, win: string, more: string)
    requires size > 0 && FirstBreak(win) < |win|
    ensures var i := FirstBreak(win);
      Filled(size, win, more) == [Chomp(win[..i])] + Next(size, win[i + 1..], more, |win|)
  {
  }

  lemma NextStop(size: nat, win: string, total: nat)
    requires size > 0 && |win| < total && FirstBreak(win) == |win|
    ensures Next(size, win, [], total) == Awaited(size, win, [])
  {
    assert win + [] == win;
  }

  lemma {:induction false} NextExact(size: nat, win: string, more: string, total: nat)
    requires |win| < total <= size && (total == size || more == []) && Short(size, win + more)
    ensures Next(size, win, more, total) == Awaited(size, win, more)
    decreases |win| + |more|, 2
  {
    var i := FirstBreak(win);
    if i < |win| {
      StepIn(size, win, more);
      NextExact(size, win[i + 1..], more, total);
      NextStep(size, win, more, total, win[i + 1..]);
    } else if more == [] {
      NextStop(size, win, total);
    } else {
      RefillExact(size, win, more, Min(total - |win|, |more|));
    }
  }

  /** A window just filled that has a newline. */
  lemma {:induction false} FilledExact(size: nat, win: string, more: string)
    requires |win| <= size && (|win| == size || more == []) && Short(size, win + more) && FirstBreak(win) < |win|
    ensures Filled(size, win, more) == Awaited(size, win, more)
    decreases |win| + |more|, 0
  {
    FilledStep(size, win, more);
    StepIn(size, win, more);
    NextExact(size, win[FirstBreak(win) + 1..], more, |win|);
  }

  lemma BreakWithin(win: string, win': string, text: string)
    requires win <= text && win' <= text && FirstBreak(win) == |win| && FirstBreak(win') < |win'|
    ensures |win| <= FirstBreak(text) < |win'|
  {
    BreakBehind(win, text);
    BreakIs(text, FirstBreak(win'));
  }

  lemma AwaitedIs(size: nat, win: string, more: string, text: string)
    requires text == win + more
    ensures Awaited(size, win, more) == Expected(size, |win|, |more|, Lines(text), Rest(text))
  {
  }

  /** Filling the window up does not change what is delivered. */
  lemma FillIn(size: nat, win: string, more: string, win': string, more': string, text: string)
    requires |win| < size && text == win' + more' == win + more && |win'| == |win| + Min(size - |win|, |more|)
    requires FirstBreak(win) == |win| && FirstBreak(win') < |win'|
    ensures Awaited(size, win', more') == Awaited(size, win, more)
  {
    BreakWithin(win, win', text);
    AwaitedIs(size, win, more, text);
    AwaitedIs(size, win', more', text);
    ExpectedFill(size, |win|, |more|, |win'|, |more'|, text);
  }

  /** A window just filled that has none. */
  lemma FilledTail(size: nat, win: string, more: string, w: nat, m: nat)
    requires 0 < |win| <= size && (|win| == size || more == []) && Short(size, win + more) && FirstBreak(win) == |win|
    requires m > 0
    ensures win + more == win && Filled(size, win, more) == Expected(size, w, m, Lines(win), Rest(win))
  {
    NoBreakFits(size, win, more);
    assert win + more == win;
    assert Fresh(size, []) == [];
  }

  lemma {:induction false} RefillExact(size: nat, win: string, more: string, r: nat)
    requires |win| < size && more != [] && r == Min(size - |win|, |more|) && FirstBreak(win) == |win|
    requires Short(size, win + more)
    ensures Filled(size, win + more[..r], more[r..]) == Awaited(size, win, more)
    decreases |win| + |more|, 1
  {
    var win', more' := win + more[..r], more[r..];
    Resplit(win, more, r);
    if FirstBreak(win') < |win'| {
      FilledExact(size, win', more');
      FillIn(size, win, more, win', more', win + more);
    } else {
      FilledTail(size, win', more', |win|, |more|);
    }
  }

  lemma Resplit(win: string, more: string, r: nat)
    requires r <= |more|
    ensures win + more[..r] + more[r..] == win + more
  {
  }

  lemma BreakBehind(win: string, text: string)
    requires win <= text && FirstBreak(win) == |win|
    ensures |win| <= FirstBreak(text)
  {
    forall k | 0 <= k < |win| ensures text[k] != '\n' {
      assert text[k] == win[k];
    }
  }

  /** A full window without a newline cannot be when everything fits. */
  lemma NoBreakFits(size: nat, win: string, more: string)
    requires Short(size, win + more) && FirstBreak(win) == |win| && (|win| == size || more == [])
    ensures more == [] && Lines(win) == [] && Rest(win) == win
  {
    var text := win + more;
    BreakBehind(win, text);
    if FirstBreak(text) < |text| { ShortAfter(size, text); }
  }

  lemma FreshFilled(size: nat, s: string, win: string, more: string)
    requires size > 0 && |win| == Min(size, |s|) && s == win + more && Short(size, s) && FirstBreak(win) < |win|
    ensures Filled(size, win, more) == Expected(size, 0, |s|, Lines(s), Rest(s))
  {
    FilledExact(size, win, more);
    AwaitedIs(size, win, more, s);
    BreakWithin([], win, s);
    ExpectedFill(size, 0, |s|, |win|, |more|, s);
  }

  /** All that is delivered, if lines and rest fit into the window. */
  lemma FreshExact(size: nat, s: string)
    requires size > 0 && Short(size, s)
    ensures Fresh(size, s) == Expected(size, 0, |s|, Lines(s), Rest(s))
  {
    if s != [] {
      var r := Min(size, |s|);
      var win, more := s[..r], s[r..];
      assert win + more == s;
      if FirstBreak(win) < |win| {
        FreshFilled(size, s, win, more);
      } else {
        FilledTail(size, win, more, 0, |s|);
      }
    }
  }

  /** From a file whose lines are all finished and fit into the buffer, exactly its lines are
      delivered. */
  lemma LinesDelivered(size: nat, s: string)
    requires size > 0 && Short(size, s) && Rest(s) == []
    ensures Fresh(size, s) == Chomped(Lines(s))
  {
    FreshExact(size, s);
    assert Chomped(Lines(s)) + [] == Chomped(Lines(s));
  }

  lemma {:induction false} ChompedSame(ls: seq<string>)
    requires forall k | 0 <= k < |ls| :: ls[k] == [] || ls[k][|ls[k]| - 1] != '\r'
    ensures Chomped(ls) == ls
  {
    if ls != [] {
      ChompMeaning(ls[0]);
      ChompedSame(ls[1..]);
    }
  }

  /** A file that consists of the lines `ls`, each followed by a newline, is delivered as these lines. */
  lemma PlainFile(size: nat, ls: seq<string>)
    requires size > 0 && Unbroken(ls)
    requires forall k | 0 <= k < |ls| :: |ls[k]| < size && (ls[k] == [] || ls[k][|ls[k]| - 1] != '\r')
    ensures Fresh(size, Joined(ls)) == ls
  {
    LinesOfJoined(ls, []);
    assert Joined(ls) + [] == Joined(ls);
    LinesDelivered(size, Joined(ls));
    ChompedSame(ls);
  }

  /** An unfinished last line is delivered exactly if the window that holds its beginning does not
      hold its end, or if it is the only line. */
  lemma LastLineRule(size: nat, s: string)
    requires size > 0 && Short(size, s) && Rest(s) != []
    ensures Fresh(size, s) == Chomped(Lines(s)) +
      (if Unread(size, 0, |s|, Lines(s)) > 0 then [Cut(size, Rest(s))] else [])
    ensures |s| <= size ==> (Unread(size, 0, |s|, Lines(s)) > 0 <==> Lines(s) == [])
  {
    FreshExact(size, s);
    if |s| <= size && Lines(s) != [] { NothingUnread(size, |s|, Lines(s)); }
  }

  lemma NothingUnread(size: nat, m: nat, ls: seq<string>)
    requires m <= size && ls != []
    ensures Unread(size, 0, m, ls) == 0
  {
    AllRead(size, if |ls[0]| + 1 <= m then m - (|ls[0]| + 1) else 0, ls[1..]);
  }

  lemma {:induction false} AllRead(size: nat, w: nat, ls: seq<string>)
    ensures Unread(size, w, 0, ls) == 0
    decreases |ls|
  {
    if ls != [] { AllRead(size, if |ls[0]| + 1 <= w then w - (|ls[0]| + 1) else 0, ls[1..]); }
  }

  /** So the same last line is delivered from one file and lost from another. */
  lemma LastLineLost(size: nat)
    requires size >= 7
    ensures Fresh(size, "B=2") == ["B=2"] && Fresh(size, "A=1\nB=2") == ["A=1"]
  {
    BreakIs("B=2", 3);
    var s := "A=1\nB=2";
    BreakIs(s, 3);
    assert s[..3] == "A=1" && s[4..] == "B=2" && s[..7] == s;
    assert Chomp("A=1") == "A=1";
    assert Next(size, "B=2", [], 7) == [];
    assert Fresh(size, []) == [];
    assert "B=2"[..3] == "B=2" && Cut(size, "B=2") == "B=2";
  }
}
