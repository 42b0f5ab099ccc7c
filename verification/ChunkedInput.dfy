/** A guest dump written in pieces to the translator of PageTables/Host/host_gpa_translator.c: which
    frame numbers come out of which pieces. */
module ChunkedInput {
  import opened Layout
  import opened TextLines
  import opened FirstSeen

  /** The kernel's number scanner: the five frame numbers of a line behind its first comma, or none
      if fewer than five can be read. */
  type Scan = string -> Option<seq<nat>>

  /** The frame numbers that a line contributes. */
  function Fields(scan: Scan, line: string): seq<nat>
  {
    var i := FirstOf(line, ',');
    if i == |line| then [] else match scan(line[i + 1..]) case Some(ps) => ps case None => []
  }

  function AllFields(scan: Scan, lines: seq<string>): seq<nat>
  {
    if lines == [] then [] else Fields(scan, lines[0]) + AllFields(scan, lines[1..])
  }

  /** The lines behind the header, which is the first line that is not empty. */
  function Body(lines: seq<string>): seq<string>
  {
    if lines == [] then [] else if lines[0] == [] then Body(lines[1..]) else lines[1..]
  }

  predicate HasHeader(lines: seq<string>)
  {
    lines != [] && (lines[0] != [] || HasHeader(lines[1..]))
  }

  function HeaderOf(lines: seq<string>): string
    requires HasHeader(lines)
  {
    if lines[0] != [] then lines[0] else HeaderOf(lines[1..])
  }

  /** What the module keeps between two writes: the unfinished line and the numbers noted. */
  datatype Session = Session(partial: string, seen: seq<nat>)

  /** `input_write` at the beginning of a session, */
  function FirstWrite(scan: Scan, chunk: string): Session
  {
    Session(Rest(chunk), NotedAll([], AllFields(scan, Body(Lines(chunk)))))
  }

  /** and later. */
  function LaterWrite(scan: Scan, st: Session, chunk: string): Session
  {
    var full := st.partial + chunk;
    Session(Rest(full), NotedAll(st.seen, AllFields(scan, Lines(full))))
  }

  /** Writes one after the other, the first of them at position `pos`. A write of nothing does not
      move the position. */
  function Writes(scan: Scan, pos: nat, st: Session, chunks: seq<string>): Session
    decreases |chunks|
  {
    if chunks == [] then st
    else
      var st' := if pos == 0 then FirstWrite(scan, chunks[0]) else LaterWrite(scan, st, chunks[0]);
      Writes(scan, pos + |chunks[0]|, st', chunks[1..])
  }

  /** A whole session. */
  function Written(scan: Scan, chunks: seq<string>): Session
  {
    Writes(scan, 0, Session([], []), chunks)
  }

  /** The first piece that is not empty. */
  function FirstPiece(chunks: seq<string>): string
  {
    if chunks == [] then [] else if chunks[0] != [] then chunks[0] else FirstPiece(chunks[1..])
  }

  function Flat(chunks: seq<string>): string
  {
    if chunks == [] then [] else chunks[0] + Flat(chunks[1..])
  }

  // ----- properties

  /** What follows the first comma of a line is scanned, and its numbers come in the scanner's order. */
  lemma FieldsMeaning(scan: Scan, before: string, after: string)
    requires ',' !in before
    ensures Fields(scan, before) == []
    ensures Fields(scan, before + "," + after) == match scan(after) case Some(ps) => ps case None => []
  {
    var line := before + "," + after;
    FirstIs(before, ',', |before|);
    FirstIs(line, ',', |before|);
    assert line[|before| + 1..] == after;
  }

  /** The first line that is not empty is the header, and the lines behind it are the body. */
  lemma {:induction false} BodyMeaning(blank: seq<string>, header: string, rest: seq<string>)
    requires (forall i | 0 <= i < |blank| :: blank[i] == []) && header != []
    ensures var ls := blank + [header] + rest; HasHeader(ls) && HeaderOf(ls) == header && Body(ls) == rest
    ensures !HasHeader(blank) && Body(blank) == []
    decreases |blank|
  {
    var ls := blank + [header] + rest;
    if blank == [] {
      assert ls[1..] == rest;
    } else {
      assert ls[1..] == blank[1..] + [header] + rest;
      BodyMeaning(blank[1..], header, rest);
    }
  }

  lemma {:induction false} FieldsConcat(scan: Scan, a: seq<string>, b: seq<string>)
    ensures AllFields(scan, a + b) == AllFields(scan, a) + AllFields(scan, b)
    decreases |a|
  {
    if a == [] {
      assert a + b == b;
    } else {
      FieldsConcat(scan, a[1..], b);
      assert (a + b)[1..] == a[1..] + b;
      Regroup(Fields(scan, a[0]), AllFields(scan, a[1..]), AllFields(scan, b));
    }
  }

  /** Two pieces one after the other are one piece. */
  lemma TwoPieces(scan: Scan, seen: seq<nat>, a: string, b: string)
    ensures Rest(a + b) == Rest(Rest(a) + b)
    ensures NotedAll(NotedAll(seen, AllFields(scan, Lines(a))), AllFields(scan, Lines(Rest(a) + b))) ==
      NotedAll(seen, AllFields(scan, Lines(a + b)))
  {
    LinesConcat(a, b);
    FieldsConcat(scan, Lines(a), Lines(Rest(a) + b));
    NotedConcat(seen, AllFields(scan, Lines(a)), AllFields(scan, Lines(Rest(a) + b)));
  }

  lemma {:induction false} LaterMeaning(scan: Scan, pos: nat, st: Session, chunks: seq<string>)
    requires pos > 0 && FirstBreak(st.partial) == |st.partial|
    ensures var text := st.partial + Flat(chunks);
      Writes(scan, pos, st, chunks) == Session(Rest(text), NotedAll(st.seen, AllFields(scan, Lines(text))))
    decreases |chunks|
  {
    if chunks == [] {
      assert st.partial + Flat(chunks) == st.partial;
    } else {
      LaterMeaning(scan, pos + |chunks[0]|, LaterWrite(scan, st, chunks[0]), chunks[1..]);
      TwoPieces(scan, st.seen, st.partial + chunks[0], Flat(chunks[1..]));
      Regroup(st.partial, chunks[0], Flat(chunks[1..]));
    }
  }

  lemma {:induction false} WritesStep(scan: Scan, pos: nat, st: Session, chunks: seq<string>, i: nat)
    requires i < |chunks|
    ensures var st' := if pos == 0 then FirstWrite(scan, chunks[i]) else LaterWrite(scan, st, chunks[i]);
      Writes(scan, pos, st, chunks[i..]) == Writes(scan, pos + |chunks[i]|, st', chunks[i + 1..])
  {
    var rest := chunks[i..];
    assert rest[1..] == chunks[i + 1..];
  }

  /** A session does not depend on what an earlier one has left behind. */
  lemma SessionStartsClean(scan: Scan, st: Session, chunks: seq<string>)
    requires chunks != []
    ensures Writes(scan, 0, st, chunks) == Written(scan, chunks)
  {
  }

  lemma Regroup<T>(a: seq<T>, b: seq<T>, c: seq<T>)
    ensures a + (b + c) == a + b + c
  {
  }

  lemma {:induction false} BodyConcat(a: seq<string>, b: seq<string>)
    ensures HasHeader(a) ==> Body(a + b) == Body(a) + b && HasHeader(a + b) && HeaderOf(a + b) == HeaderOf(a)
    ensures !HasHeader(a) ==> Body(a) == []
    decreases |a|
  {
    if a != [] {
      assert (a + b)[1..] == a[1..] + b;
      BodyConcat(a[1..], b);
    }
  }

  lemma {:induction false} NoHeaderNoFields(scan: Scan, a: seq<string>)
    requires !HasHeader(a)
    ensures AllFields(scan, a) == []
  {
    if a != [] { NoHeaderNoFields(scan, a[1..]); }
  }

  /** What a session leaves behind, if the piece `first` decides about the header. */
  function Outcome(scan: Scan, first: string, text: string): Session
  {
    var lines := if HasHeader(Lines(first)) then Body(Lines(text)) else Lines(text);
    Session(Rest(text), NotedAll([], AllFields(scan, lines)))
  }

  lemma FromFirst(scan: Scan, st: Session, chunks: seq<string>)
    requires chunks != [] && chunks[0] != []
    ensures Writes(scan, 0, st, chunks) == Outcome(scan, chunks[0], Flat(chunks))
  {
    var a, b, text := chunks[0], Flat(chunks[1..]), Flat(chunks);
    LaterMeaning(scan, |a|, FirstWrite(scan, a), chunks[1..]);
    LinesConcat(a, b);
    var l, r := Lines(a), Lines(Rest(a) + b);
    BodyConcat(l, r);
    FieldsConcat(scan, Body(l), r);
    NotedConcat([], AllFields(scan, Body(l)), AllFields(scan, r));
    if !HasHeader(l) {
      NoHeaderNoFields(scan, l);
      FieldsConcat(scan, l, r);
      assert [] + AllFields(scan, r) == AllFields(scan, r);
    }
  }

  lemma {:induction false} FromEmpty(scan: Scan, chunks: seq<string>)
    ensures Written(scan, chunks) == Outcome(scan, FirstPiece(chunks), Flat(chunks))
    decreases |chunks|
  {
    if chunks == [] {
      assert AllFields(scan, Lines([])) == [];
    } else if chunks[0] != [] {
      FromFirst(scan, Session([], []), chunks);
    } else {
      FromEmpty(scan, chunks[1..]);
      assert FirstWrite(scan, []) == Session([], []);
      assert Flat(chunks) == Flat(chunks[1..]);
    }
  }

  /** For every way of cutting a dump into pieces: the unfinished line is what follows the last
      newline of the whole; and the numbers noted are those of the lines behind the header if the
      first piece that is not empty has a complete header, and of all lines otherwise. */
  lemma SessionMeaning(scan: Scan, chunks: seq<string>)
    ensures var text := Flat(chunks);
      Written(scan, chunks) == Session(Rest(text),
        NotedAll([], AllFields(scan, if HasHeader(Lines(FirstPiece(chunks))) then Body(Lines(text)) else Lines(text))))
  {
    FromEmpty(scan, chunks);
  }

  // ----- what the header may be

  lemma {:induction false} HeaderFields(scan: Scan, lines: seq<string>)
    requires HasHeader(lines)
    ensures AllFields(scan, lines) == Fields(scan, HeaderOf(lines)) + AllFields(scan, Body(lines))
  {
    if lines[0] == [] { HeaderFields(scan, lines[1..]); }
  }

  /** The numbers of the lines behind the header of the whole dump: what a session should note. */
  function Wanted(scan: Scan, chunks: seq<string>): seq<nat>
  {
    NotedAll([], AllFields(scan, Body(Lines(Flat(chunks)))))
  }

  /** With a header line without a comma, every way of cutting the dump gives what is wanted. */
  lemma ChunkIndependent(scan: Scan, chunks: seq<string>)
    requires var ls := Lines(Flat(chunks)); HasHeader(ls) ==> ',' !in HeaderOf(ls)
    ensures Written(scan, chunks) == Session(Rest(Flat(chunks)), Wanted(scan, chunks))
  {
    SessionMeaning(scan, chunks);
    var ls := Lines(Flat(chunks));
    if HasHeader(ls) {
      HeaderFields(scan, ls);
      NoComma(scan, HeaderOf(ls));
      assert [] + AllFields(scan, Body(ls)) == AllFields(scan, Body(ls));
    } else {
      NoHeaderNoFields(scan, ls);
      BodyConcat(ls, []);
    }
  }

  lemma NoComma(scan: Scan, line: string)
    requires ',' !in line
    ensures Fields(scan, line) == []
  {
  }

  /** With any header: a session gives what is wanted exactly if the first piece that is not empty
      has the whole header, or the numbers read from the header are those the list begins with anyway. */
  lemma ExactlyWhen(scan: Scan, chunks: seq<string>)
    requires HasHeader(Lines(Flat(chunks)))
    ensures Written(scan, chunks).seen == Wanted(scan, chunks) <==>
      || HasHeader(Lines(FirstPiece(chunks)))
      || NotedAll([], Fields(scan, HeaderOf(Lines(Flat(chunks))))) <= Wanted(scan, chunks)
  {
    SessionMeaning(scan, chunks);
    var ls := Lines(Flat(chunks));
    HeaderFields(scan, ls);
    var h, r := Fields(scan, HeaderOf(ls)), AllFields(scan, Body(ls));
    NotedConcat([], h, r);
    HeadStart(NotedAll([], h), r);
  }

  /** A header that reads like a mapping is noted if it is cut in two. */
  lemma CutHeaderIsNoted(scan: Scan)
    requires scan("1,1,1,1,1") == Some([1, 1, 1, 1, 1])
    ensures Written(scan, ["", "0,1,1,1,1,1\n"]).seen == []
    ensures Written(scan, ["0,1,1,1,1,1\n"]).seen == [] && Written(scan, ["0", ",1,1,1,1,1\n"]).seen == [1]
  {
    OneLine(scan, "0,1,1,1,1,1");
    ExampleLines();
    FlatOne("0,1,1,1,1,1\n");
    SessionMeaning(scan, ["0,1,1,1,1,1\n"]);
    AfterNothing(scan, ["0,1,1,1,1,1\n"]);
    ExampleCut();
    SessionMeaning(scan, ["0", ",1,1,1,1,1\n"]);
  }

  /** An empty write in front changes nothing. */
  lemma AfterNothing(scan: Scan, chunks: seq<string>)
    ensures Written(scan, [""] + chunks) == Written(scan, chunks)
  {
    assert ([""] + chunks)[1..] == chunks;
    assert FirstWrite(scan, "") == Session([], []);
  }

  lemma ExampleLines()
    ensures Lines("0,1,1,1,1,1\n") == ["0,1,1,1,1,1"]
  {
    assert "0,1,1,1,1,1\n" == "0,1,1,1,1,1" + ['\n'];
    NoBreak("0,1,1,1,1,1");
    LineEnds("0,1,1,1,1,1");
  }

  lemma FlatOne(s: string)
    ensures Flat([s]) == s
  {
  }

  lemma ExampleCut()
    ensures Lines("0") == [] && Flat(["0", ",1,1,1,1,1\n"]) == "0,1,1,1,1,1\n"
  {
    BreakIs("0", 1);
    var cut := ["0", ",1,1,1,1,1\n"];
    assert cut[1..] == [",1,1,1,1,1\n"];
    FlatOne(",1,1,1,1,1\n");
  }

  lemma OneLine(scan: Scan, line: string)
    requires scan("1,1,1,1,1") == Some([1, 1, 1, 1, 1]) && line == "0,1,1,1,1,1"
    ensures AllFields(scan, [line]) == [1, 1, 1, 1, 1] && NotedAll([], [1, 1, 1, 1, 1]) == [1]
    ensures Body([line]) == [] && HasHeader([line])
  {
    assert FirstOf(line[1..], ',') == 0;
    assert line[2..] == "1,1,1,1,1";
    assert AllFields(scan, [line]) == Fields(scan, line) + AllFields(scan, []);
    assert Noted([], 1) == [1];
    assert [1][0] == 1 && Has([1], 1);
    assert NotedAll([1], [1, 1, 1, 1]) == NotedAll([1], [1, 1, 1]) == NotedAll([1], [1, 1]) == NotedAll([1], [1]) ==
      [1];
  }
}
