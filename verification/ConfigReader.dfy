/** `read_config_file` of Simulator/core/config.c on a regular file: one buffer, moved and refilled
    in place. */
module ConfigReader {
  import opened Layout
  import opened Arithmetic
  import opened TextLines
  import opened ConfigLines

  class Reader {
    const file: string
    /** The buffer. Its last byte is kept for the terminator of a text that fills it. */
    const buf: array<char>
    var fpos: nat
    /** The end of the current line: none yet, a newline, or the last byte of the buffer. */
    var newline: Option<nat>
    var bufread: nat

    ghost predicate Valid()
      reads this, buf
    {
      && buf.Length >= 2 && fpos <= |file| && bufread < buf.Length
      && (newline.Some? && newline.value != buf.Length - 1 ==> newline.value < bufread)
    }

    predicate AtStart()
      reads this
    {
      newline.None? || newline.value == buf.Length - 1
    }

    /** The lines still to be delivered. */
    ghost function Pending(): seq<string>
      requires Valid()
      reads this, buf
    {
      if AtStart() then Fresh(buf.Length - 1, file[fpos..])
      else Next(buf.Length - 1, buf[newline.value + 1..bufread], file[fpos..], bufread)
    }

    ghost function Measure(): nat
      requires Valid()
      reads this, buf
    {
      |file| - fpos + if AtStart() then 0 else bufread - newline.value - 1
    }

    constructor (file: string, bufsize: nat)
      requires bufsize >= 2
      ensures Valid() && this.file == file && fresh(buf) && buf.Length == bufsize
      ensures Pending() == Fresh(bufsize - 1, file)
    {
      this.file := file;
      buf := new char[bufsize](_ => '\0');
      fpos, newline, bufread := 0, None, 0;
      new;
      assert file[0..] == file;
    }

    /** `os_read` on a regular file: as much as is wanted and left. */
    method OsRead(at: nat, want: nat) returns (r: nat)
      requires fpos <= |file| && at + want <= buf.Length
      modifies this`fpos, buf
      ensures r == Min(want, |file| - old(fpos)) && fpos == old(fpos) + r
      ensures buf[..at] == old(buf[..at]) && buf[at..at + r] == file[old(fpos)..fpos]
    {
      r := if want < |file| - fpos then want else |file| - fpos;
      var k := 0;
      while k < r
        invariant 0 <= k <= r && fpos == old(fpos)
        invariant buf[..at] == old(buf[..at]) && buf[at..at + k] == file[fpos..fpos + k]
      {
        buf[at + k] := file[fpos + k];
        k := k + 1;
      }
      fpos := fpos + r;
    }

    /** `memmove` to the front of the buffer */
    method MoveDown(from: nat, len: nat)
      requires from + len <= buf.Length
      modifies buf
      ensures buf[..len] == old(buf[from..from + len])
    {
      ghost var was := buf[..];
      var k := 0;
      while k < len
        invariant 0 <= k <= len && buf[..k] == was[from..from + k]
        invariant forall i | k <= i < buf.Length :: buf[i] == was[i]
      {
        buf[k] := buf[from + k];
        k := k + 1;
      }
    }

    /** `strchr` for a newline in the text of the buffer */
    method FindNewline(from: nat) returns (i: Option<nat>)
      requires from <= bufread < buf.Length
      ensures i.Some? ==> from <= i.value < bufread && i.value - from == FirstBreak(buf[from..bufread])
      ensures i.None? ==> FirstBreak(buf[from..bufread]) == bufread - from
    {
      var k := from;
      while k < bufread && buf[k] != '\n'
        invariant from <= k <= bufread && forall j | from <= j < k :: buf[j] != '\n'
      {
        k := k + 1;
      }
      BreakIs(buf[from..bufread], k - from);
      i := if k < bufread then Some(k) else None;
    }

    /** The line between `line` and a newline, without a carriage return at its end */
    method LineText(line: nat, end: nat) returns (text: string)
      requires line <= end < buf.Length
      ensures text == Chomp(buf[line..end])
    {
      text := if end > line && buf[end - 1] == '\r' then buf[line..end - 1] else buf[line..end];
    }

    method ReadToStart() returns (r: nat)
      requires fpos <= |file| && buf.Length >= 2
      modifies this`fpos, buf
      ensures r == Min(buf.Length - 1, |file| - old(fpos)) && fpos == old(fpos) + r
      ensures buf[..r] == [] + file[old(fpos)..fpos]
    {
      r := OsRead(0, buf.Length - 1);
      assert buf[..r] == buf[0..r];
    }

    /** Filling the buffer from its beginning */
    method ReadFresh(ghost goal: seq<string>) returns (ok: bool)
      requires Valid() && AtStart()
      requires Refilled(buf.Length - 1, [], file, fpos, Min(buf.Length - 1, |file| - fpos), goal)
      modifies this`fpos, this`newline, this`bufread, buf
      ensures fpos <= |file|
      ensures !ok ==> goal == []
      ensures ok ==>
        && Ready() && goal == Filled(buf.Length - 1, buf[..bufread], file[fpos..])
        && |file| - fpos + bufread == old(Measure())
    {
      newline := None;
      var r := ReadToStart();
      ok := r > 0;
      if ok {
        bufread := r;
      }
      LookAgain(ok);
    }

    /** The buffer has just been filled; `newline` is the first newline in it. */
    ghost predicate Ready()
      reads this, buf
    {
      && 0 < bufread < buf.Length
      && (if newline.Some? then newline.value == FirstBreak(buf[..bufread]) < bufread
        else FirstBreak(buf[..bufread]) == bufread)
    }

    /** The rest of the text is moved to the front, and the room behind it is filled. */
    method ShiftAndRead(line: nat, ghost goal: seq<string>) returns (ok: bool)
      requires Valid() && !AtStart() && line == newline.value + 1
      requires Refilled(buf.Length - 1, buf[line..bufread], file, fpos, Min(line, |file| - fpos), goal)
      modifies this`fpos, this`newline, this`bufread, buf
      ensures fpos <= |file| && bufread < buf.Length
      ensures !ok ==> goal == []
      ensures ok ==>
        && Ready() && goal == Filled(buf.Length - 1, buf[..bufread], file[fpos..])
        && |file| - fpos + bufread <= old(Measure())
    {
      var len := bufread - line;
      var r := Refill(line, len);
      ok := r > 0;
      bufread := len + r;
      LookAgain(ok);
    }

    method LookAgain(ok: bool)
      requires ok ==> 0 < bufread < buf.Length
      modifies this`newline
      ensures ok ==> Ready()
    {
      if ok {
        newline := FindNewline(0);
        assert buf[0..bufread] == buf[..bufread];
      }
    }

    method Refill(line: nat, len: nat) returns (r: nat)
      requires fpos <= |file| && line + len < buf.Length
      modifies this`fpos, buf
      ensures r == Min(line, |file| - old(fpos)) && fpos == old(fpos) + r
      ensures buf[..len + r] == old(buf[line..line + len]) + file[old(fpos)..fpos]
    {
      MoveDown(line, len);
      r := OsRead(len, line);
      assert buf[..len + r] == buf[..len] + buf[len..len + r];
    }

    /** The first line of a buffer just filled; a buffer without a newline is one line. */
    method TakeFirst() returns (text: string)
      requires buf.Length >= 2 && fpos <= |file| && Ready()
      modifies this`newline
      ensures Valid() && Filled(buf.Length - 1, buf[..bufread], file[fpos..]) == [text] + Pending()
      ensures Measure() < |file| - fpos + bufread
    {
      if newline.None? {
        newline := Some(buf.Length - 1);
        if bufread == buf.Length - 1 {
          text := LineText(0, bufread);
        } else {
          text := buf[0..bufread];
        }
        assert buf[0..bufread] == buf[..bufread];
      } else {
        text := LineText(0, newline.value);
        assert buf[0..newline.value] == buf[..bufread][..newline.value];
        assert buf[newline.value + 1..bufread] == buf[..bufread][newline.value + 1..];
      }
    }

    method LineFromStart() returns (text: Option<string>)
      requires Valid() && AtStart()
      modifies this`fpos, this`newline, this`bufread, buf
      ensures text.None? ==> old(Pending()) == []
      ensures text.Some? ==> Valid() && old(Pending()) == [text.value] + Pending() && Measure() < old(Measure())
    {
      text := None;
      FreshRefill(buf.Length - 1, file, fpos, Min(buf.Length - 1, |file| - fpos));
      var ok := ReadFresh(Pending());
      if ok {
        var l := TakeFirst();
        text := Some(l);
      }
    }

    lemma FirstPending(line: nat, found: nat)
      requires Valid() && !AtStart() && line == newline.value + 1 && line <= found < bufread
      requires found - line == FirstBreak(buf[line..bufread])
      ensures Pending() == [Chomp(buf[line..found])] +
        Next(buf.Length - 1, buf[found + 1..bufread], file[fpos..], bufread)
    {
      var win, k := buf[line..bufread], found - line;
      var l, win' := buf[line..found], buf[found + 1..bufread];
      assert Pending() == Next(buf.Length - 1, win, file[fpos..], bufread);
      assert l == win[..k] && win' == win[k + 1..];
      NextInside(buf.Length - 1, win, l, win', file[fpos..], bufread);
    }

    method LineInBuffer(line: nat, found: nat) returns (text: string)
      requires Valid() && !AtStart() && line == newline.value + 1 && line <= found < bufread
      requires found - line == FirstBreak(buf[line..bufread])
      modifies this`newline
      ensures Valid() && old(Pending()) == [text] + Pending() && Measure() < old(Measure())
    {
      ghost var rest := Next(buf.Length - 1, buf[found + 1..bufread], file[fpos..], bufread);
      FirstPending(line, found);
      text := LineText(line, found);
      newline := Some(found);
      assert Pending() == rest;
    }

    method LineByShift(line: nat) returns (text: Option<string>)
      requires Valid() && !AtStart() && line == newline.value + 1 && FirstBreak(buf[line..bufread]) == bufread - line
      modifies this`fpos, this`newline, this`bufread, buf
      ensures text.None? ==> old(Pending()) == []
      ensures text.Some? ==> Valid() && old(Pending()) == [text.value] + Pending() && Measure() < old(Measure())
    {
      ghost var goal := Next(buf.Length - 1, buf[line..bufread], file[fpos..], bufread);
      assert goal == Pending();
      NextRefill(buf.Length - 1, buf[line..bufread], file, fpos, bufread, Min(line, |file| - fpos));
      text := ShiftedLine(line, goal);
    }

    method ShiftedLine(line: nat, ghost goal: seq<string>) returns (text: Option<string>)
      requires Valid() && !AtStart() && line == newline.value + 1
      requires Refilled(buf.Length - 1, buf[line..bufread], file, fpos, Min(line, |file| - fpos), goal)
      modifies this`fpos, this`newline, this`bufread, buf
      ensures text.None? ==> goal == []
      ensures text.Some? ==> Valid() && goal == [text.value] + Pending() && Measure() < old(Measure())
    {
      text := None;
      var ok := ShiftAndRead(line, goal);
      if ok {
        var l := TakeFirst();
        text := Some(l);
      }
    }

    /** One round of the loop: the next line of the file, if there is one */
    method NextLine() returns (text: Option<string>)
      requires Valid()
      modifies this`fpos, this`newline, this`bufread, buf
      ensures text.None? ==> old(Pending()) == []
      ensures text.Some? ==> Valid() && old(Pending()) == [text.value] + Pending() && Measure() < old(Measure())
    {
      if AtStart() {
        text := LineFromStart();
      } else {
        var line := newline.value + 1;
        var found := FindNewline(line);
        if found.Some? {
          var l := LineInBuffer(line, found.value);
          text := Some(l);
        } else {
          text := LineByShift(line);
        }
      }
    }

    /** `read_config_file` up to the processing of the lines */
    method ReadAll() returns (lines: seq<string>)
      requires Valid()
      modifies this`fpos, this`newline, this`bufread, buf
      ensures lines == old(Pending())
    {
      lines := [];
      var text := NextLine();
      while text.Some?
        invariant text.Some? ==> Valid() && lines + [text.value] + Pending() == old(Pending())
        invariant text.None? ==> lines == old(Pending())
        decreases text.Some?, if text.Some? then Measure() else 0
      {
        lines := lines + [text.value];
        text := NextLine();
      }
    }
  }

  /** What is to be delivered when `r` more bytes come into the window. */
  ghost predicate Refilled(size: nat, win: string, file: string, fpos: nat, r: nat, goal: seq<string>)
  {
    && size > 0 && fpos + r <= |file|
    && (if r == 0 then goal == [] else goal == Filled(size, win + file[fpos..fpos + r], file[fpos + r..]))
  }

  lemma FreshRefill(size: nat, file: string, fpos: nat, r: nat)
    requires size > 0 && fpos <= |file| && r == Min(size, |file| - fpos)
    ensures Refilled(size, [], file, fpos, r, Fresh(size, file[fpos..]))
  {
    var more := file[fpos..];
    assert more[..r] == file[fpos..fpos + r] == [] + file[fpos..fpos + r] && more[r..] == file[fpos + r..];
  }

  lemma NextRefill(size: nat, win: string, file: string, fpos: nat, total: nat, r: nat)
    requires size > 0 && fpos <= |file| && |win| < total && FirstBreak(win) == |win|
    requires r == Min(total - |win|, |file| - fpos)
    ensures Refilled(size, win, file, fpos, r, Next(size, win, file[fpos..], total))
  {
    var more := file[fpos..];
    assert more[..r] == file[fpos..fpos + r] && more[r..] == file[fpos + r..];
  }

  lemma NextInside(size: nat, win: string, l: string, win': string, more: string, total: nat)
    requires size > 0 && |win| < total && |l| == FirstBreak(win) < |win| && l == win[..|l|] && win' == win[|l| + 1..]
    ensures Next(size, win, more, total) == [Chomp(l)] + Next(size, win', more, total)
  {
  }
}
