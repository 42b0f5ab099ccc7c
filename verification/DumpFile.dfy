/** The proc file of PageTables/Guest/dump_pagetables.c in user mode: what a reader gets, however the
    reading is cut into pieces. */
module DumpFile {
  import opened Layout
  import opened PageTables
  import opened PageDump

  /** -1UL, the position of a file that has been read to its end. */
  const END: nat := 0xFFFF_FFFF_FFFF_FFFF

  /** `TASK_SIZE_MAX` */
  function TaskSizeMax(five: bool): (s: nat)
    ensures s % PAGE == 0 && PAGE < s && s + Size(five, 0) < END
  {
    (if five then 0x100_0000_0000_0000 else 0x8000_0000_0000) - PAGE
  }

  datatype Text = Header(pid: int) | Row(line: Line)

  function Rows(l: seq<Line>): seq<Text>
  {
    seq(|l|, i requires 0 <= i < |l| => Row(l[i]))
  }

  /** The text of the pages below page `n`. */
  function TextTo(t: Tables, pid: int, n: nat): seq<Text>
  {
    [Header(pid)] + Rows(Dump(t, n))
  }

  /** What is printed at position `pos`. */
  function Shown(t: Tables, pid: int, pos: nat): seq<Text>
  {
    (if pos == 0 then [Header(pid)] else []) + Rows(LineOf(LineAt(t, pos)))
  }

  /** What a reader has when the file stands at `pos`. */
  ghost predicate Delivered(t: Tables, pid: int, pos: nat, out: seq<Text>)
  {
    if pos == END then out == TextTo(t, pid, TaskSizeMax(t.five) / PAGE)
    else pos < TaskSizeMax(t.five) && Landing(t, pos) && out == if pos == 0 then [] else TextTo(t, pid, pos / PAGE)
  }

  /** Whatever a reader has is a beginning of the whole text. */
  lemma DeliveredPrefix(t: Tables, pid: int, pos: nat, out: seq<Text>)
    requires Delivered(t, pid, pos, out)
    ensures out <= TextTo(t, pid, TaskSizeMax(t.five) / PAGE)
  {
    if pos != END && pos != 0 {
      ExhaustivePrefix((a: nat) => LineAt(t, a), pos / PAGE, TaskSizeMax(t.five) / PAGE);
    }
  }

  /** Whoever has read to the end has the header and then, in increasing order of address, the line of
      every page that is mapped below the limit, and no other line. */
  lemma WholeDump(t: Tables, pid: int, out: seq<Text>) returns (d: seq<Line>)
    requires Delivered(t, pid, END, out)
    ensures out == [Header(pid)] + Rows(d) && ShowsAll(t, TaskSizeMax(t.five) / PAGE, d)
  {
    d := Dump(t, TaskSizeMax(t.five) / PAGE);
    DumpMeaning(t, TaskSizeMax(t.five) / PAGE);
  }

  lemma RowsAppend(t: Tables, pid: int, k: nat, n: nat, l: seq<Line>)
    requires Dump(t, n) == Dump(t, k) + l
    ensures TextTo(t, pid, n) == TextTo(t, pid, k) + Rows(l)
  {
  }

  lemma ShownUpTo(t: Tables, pid: int, pos: nat, n: nat, out: seq<Text>)
    requires pos != END && Delivered(t, pid, pos, out) && pos / PAGE < n && n * PAGE <= pos + Step(t, pos)
    ensures out + Shown(t, pid, pos) == TextTo(t, pid, n)
  {
    SkipTo(t, pos, n);
    RowsAppend(t, pid, pos / PAGE, n, LineOf(LineAt(t, pos)));
    if pos == 0 {
      assert TextTo(t, pid, 0) == [Header(pid)];
    }
  }

  /** Committing what was shown at `pos` brings the file to the next landing or to its end. */
  lemma Advance(t: Tables, pid: int, pos: nat, out: seq<Text>)
    requires pos != END && Delivered(t, pid, pos, out)
    ensures var next := pos + Step(t, pos);
      Delivered(t, pid, if next >= TaskSizeMax(t.five) then END else next, out + Shown(t, pid, pos))
  {
    LandingStep(t, pos);
    var limit, next := TaskSizeMax(t.five), pos + Step(t, pos);
    var n := if next >= limit then limit / PAGE else next / PAGE;
    ShownUpTo(t, pid, pos, n, out);
  }

  class File {
    const t: Tables
    const pid: int
    /** `*pos`, kept between reads */
    var pos: nat
    /** `*spos`, while a read is going on */
    var spos: Option<nat>
    /** printed at `pos`, not yet accepted by the reader's buffer */
    var buffer: seq<Text>
    var out: seq<Text>
    ghost var shown: bool

    ghost predicate Valid()
      reads this
    {
      && FramesNamed(t) && Delivered(t, pid, pos, out)
      && (if shown then pos != END && spos == Some(pos + Step(t, pos)) && buffer == Shown(t, pid, pos)
          else buffer == [] && (spos.Some? ==> pos != END && spos.value == pos))
    }

    constructor (t: Tables, pid: int)
      requires FramesNamed(t)
      ensures Valid() && out == [] && pos == 0 && this.t == t && this.pid == pid
    {
      this.t, this.pid := t, pid;
      pos, spos, buffer, out, shown := 0, None, [], [], false;
      new;
      StartLands(t);
    }

    /** `pt_seq_start` */
    method Start() returns (more: bool)
      requires Valid() && spos.None?
      modifies this`spos
      ensures Valid() && (more <==> pos != END) && (more <==> spos.Some?)
    {
      more := pos != END;
      if more {
        spos := Some(pos);
      }
    }

    /** `pt_seq_show` */
    method Show()
      requires Valid() && spos.Some? && !shown
      modifies this`spos, this`buffer, this`shown
      ensures Valid() && shown
    {
      var addr := spos.value;
      if addr == 0 {
        buffer := buffer + [Header(pid)];
      }
      var line, next := TableWalker(t, addr);
      ShownIs(t, pid, addr);
      if line.Some? {
        buffer := buffer + [Row(line.value)];
      }
      spos := Some(next % 0x1_0000_0000_0000_0000);
      shown := true;
    }

    /** `pt_seq_next`, called when what was shown fitted into the reader's buffer */
    method Next() returns (more: bool)
      requires Valid() && spos.Some? && shown
      modifies this`spos, this`pos, this`buffer, this`out, this`shown
      ensures Valid() && out == old(out) + old(buffer)
      ensures if more then pos > old(pos) && spos == Some(pos) && !shown else pos == END && spos.None?
    {
      Advance(t, pid, pos, out);
      out, buffer, shown := out + buffer, [], false;
      var sposv := spos.value;
      more := !(sposv <= pos || sposv >= TaskSizeMax(t.five));
      if more {
        pos := sposv;
      } else {
        pos, spos := END, None;
      }
    }

    /** `pt_seq_stop`: the read ends, and what did not fit is dropped. */
    method Stop()
      requires Valid()
      modifies this`spos, this`buffer, this`shown
      ensures Valid() && spos.None?
    {
      spos, buffer, shown := None, [], false;
    }

    /** One read: `room` records fit, and the next, if there is one, is shown and dropped. */
    method Read(room: nat) returns (atEnd: bool)
      requires Valid() && spos.None?
      modifies this`spos, this`pos, this`buffer, this`out, this`shown
      ensures Valid() && spos.None? && (atEnd <==> pos == END) && old(pos) <= pos && old(out) <= out
      ensures if room == 0 then pos == old(pos) else old(pos) < pos || pos == END
    {
      var more := Start();
      var n := 0;
      while more && n < room
        invariant Valid() && n <= room && (more <==> pos != END) && (more <==> spos.Some?) && !shown
        invariant old(pos) <= pos && (n > 0 ==> old(pos) < pos) && old(out) <= out && (n == 0 ==> pos == old(pos))
      {
        Show();
        more := Next();
        n := n + 1;
      }
      if more {
        Show();
      }
      Stop();
      atEnd := !more;
    }

    /** A reader that does not give up comes to the end and has the whole text, whatever its reads
        are: `stalls(n)` of them into which nothing fits come before the `n`th into which something
        fits, namely `room(n) + 1` records. */
    method ReadAll(room: nat -> nat, stalls: nat -> nat)
      requires Valid() && spos.None?
      modifies this`spos, this`pos, this`buffer, this`out, this`shown
      ensures Valid() && pos == END && out == TextTo(t, pid, TaskSizeMax(t.five) / PAGE)
    {
      var atEnd := false;
      var n := 0;
      while !atEnd
        invariant Valid() && spos.None? && (atEnd ==> pos == END)
        decreases !atEnd, END - pos
      {
        ghost var at := pos;
        for i := 0 to stalls(n)
          invariant Valid() && spos.None? && pos == at
        {
          var ended := Read(0);
        }
        atEnd := Read(room(n) + 1);
        n := n + 1;
      }
    }
  }

  lemma StartLands(t: Tables)
    ensures Landing(t, 0)
  {
  }

  lemma ShownIs(t: Tables, pid: int, addr: nat)
    requires addr < TaskSizeMax(t.five)
    ensures Shown(t, pid, addr) == (if addr == 0 then [Header(pid)] else []) +
      (if LineAt(t, addr).Some? then [Row(LineAt(t, addr).value)] else [])
    ensures (addr + Step(t, addr)) % 0x1_0000_0000_0000_0000 == addr + Step(t, addr)
  {
  }
}
