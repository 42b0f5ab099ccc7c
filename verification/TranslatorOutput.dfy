/** The output file of PageTables/Host/host_gpa_translator.c: a header and then every entry, however
    the reading is cut into pieces. */
module TranslatorOutput {
  import opened Layout
  import opened Translator

  datatype Row = Header(pid: int) | Entry(item: Item)

  /** What the iterator hands to `output_show`: the marker for the header, or an entry. */
  datatype Cursor = Marker | EntryAt(i: nat)

  /** The text of the file up to position `n`. */
  function TextTo(pid: int, items: seq<Item>, n: nat): (rows: seq<Row>)
    requires n <= |items| + 1
    ensures |rows| == n && forall k | 0 <= k < n :: rows[k] == if k == 0 then Header(pid) else Entry(items[k - 1])
  {
    seq(n, k requires 0 <= k < n => if k == 0 then Header(pid) else Entry(items[k - 1]))
  }

  class File {
    const pid: int
    const items: seq<Item>
    var pos: nat
    var v: Option<Cursor>
    /** printed at `pos`, not yet accepted by the reader's buffer */
    var buffer: seq<Row>
    var out: seq<Row>

    ghost predicate Valid()
      reads this
    {
      && pos <= |items| + 1 && out == TextTo(pid, items, pos)
      && (v.Some? ==> pos <= |items| && v.value == (if pos == 0 then Marker else EntryAt(pos - 1)))
      && (buffer == [] || (v.Some? && out + buffer == TextTo(pid, items, pos + 1)))
    }

    constructor (pid: int, items: seq<Item>)
      ensures Valid() && pos == 0 && out == [] && v == None && buffer == [] && this.pid == pid && this.items == items
    {
      this.pid, this.items := pid, items;
      pos, v, buffer, out := 0, None, [], [];
    }

    /** `output_start` */
    method Start() returns (more: bool)
      requires Valid() && v.None?
      modifies this`v
      ensures Valid() && more == v.Some? && (more <==> pos <= |items|)
    {
      if pos == 0 {
        v := Some(Marker);
      } else if |items| != 0 && pos - 1 < |items| {
        v := Some(EntryAt(pos - 1));
      }
      more := v.Some?;
    }

    /** `output_show` */
    method Show()
      requires Valid() && v.Some? && buffer == []
      modifies this`buffer
      ensures Valid() && buffer != []
    {
      buffer := [if v.value.Marker? then Header(pid) else Entry(items[v.value.i])];
    }

    /** `output_next`, called when what was shown fitted into the reader's buffer */
    method Next() returns (more: bool)
      requires Valid() && v.Some? && buffer != []
      modifies this`pos, this`v, this`buffer, this`out
      ensures Valid() && pos == old(pos) + 1 && buffer == [] && more == v.Some? && (more <==> pos <= |items|)
    {
      out, buffer := out + buffer, [];
      pos := pos + 1;
      if v.value.Marker? {
        v := if |items| == 0 then None else Some(EntryAt(0));
      } else {
        v := if pos - 1 >= |items| then None else Some(EntryAt(pos - 1));
      }
      more := v.Some?;
    }

    /** `output_stop`: the read ends, and what did not fit is dropped. */
    method Stop()
      requires Valid()
      modifies this`v, this`buffer
      ensures Valid() && v.None? && buffer == []
    {
      v, buffer := None, [];
    }

    /** One read: `room` records fit, and the next, if there is one, is shown and dropped. */
    method Read(room: nat) returns (atEnd: bool)
      requires Valid() && v.None? && buffer == []
      modifies this`pos, this`v, this`buffer, this`out
      ensures Valid() && v.None? && buffer == [] && (atEnd <==> pos == |items| + 1)
      ensures pos == if old(pos) + room <= |items| + 1 then old(pos) + room else |items| + 1
    {
      var more := Start();
      var n := 0;
      while more && n < room
        invariant Valid() && n <= room && pos == old(pos) + n && buffer == []
        invariant (more <==> pos <= |items|) && (more <==> v.Some?)
      {
        Show();
        more := Next();
        n := n + 1;
      }
      if more {
        Show();
      }
      Stop();
      atEnd := !more;
    }

    /** A reader that does not give up comes to the end and has the whole text, whatever its reads
        are: `stalls(n)` of them into which nothing fits come before the `n`th into which something
        fits, namely `room(n) + 1` records. */
    method ReadAll(room: nat -> nat, stalls: nat -> nat)
      requires Valid() && v.None? && buffer == []
      modifies this`pos, this`v, this`buffer, this`out
      ensures Valid() && pos == |items| + 1 && out == TextTo(pid, items, |items| + 1)
    {
      var atEnd := false;
      var n := 0;
      while !atEnd
        invariant Valid() && v.None? && buffer == [] && (atEnd ==> pos == |items| + 1)
        decreases !atEnd, |items| + 1 - pos
      {
        ghost var at := pos;
        for i := 0 to stalls(n)
          invariant Valid() && v.None? && buffer == [] && pos == at
        {
          var ended := Read(0);
        }
        atEnd := Read(room(n) + 1);
        n := n + 1;
      }
    }

    /** A reader that has come to the end has the header and every entry once, in order. */
    lemma Complete()
      requires Valid() && pos == |items| + 1
      ensures out[0] == Header(pid) && |out| == |items| + 1 && forall i | 0 <= i < |items| ::
        out[i + 1] == Entry(items[i])
    {
    }

    /** The header announces the number of the entries behind it exactly if the guest's PID happens
        to be that number. */
    lemma HeaderCounts()
      requires Valid() && pos >= 1
      ensures out[0] == Header(|items|) <==> pid == |items|
    {
    }
  }

  /** With PID 7 and one entry a reader is told that there are seven. */
  method HeaderMisleads(item: Item) returns (file: File)
    ensures file.Valid() && file.items == [item] && file.out == [Header(7), Entry(item)]
    ensures file.out[0] != Header(|file.items|)
  {
    file := new File(7, [item]);
    file.ReadAll(_ => 0, _ => 0);
  }
}
