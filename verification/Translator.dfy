/** The translator of PageTables/Host/host_gpa_translator.c: it reads a guest dump in pieces, looks
    every frame number up once, and lists the translations in the order of their first mention. */
module Translator {
  import opened TextLines
  import opened FirstSeen
  import opened ChunkedInput
  import opened PageTables
  import opened GpaWalk

  datatype Item = Item(pfn: nat, chain: Chain)

  const BLANK: Item := Item(0, NOTHING)

  /** `items` are the numbers `seen`, each with the chain that `walk` gives. */
  ghost predicate Lists(walk: nat -> Chain, items: seq<Item>, seen: seq<nat>)
  {
    |items| == |seen| && forall i | 0 <= i < |seen| :: items[i] == Item(seen[i], walk(seen[i]))
  }

  function Successes(walk: nat -> Chain, seen: seq<nat>): nat
  {
    if seen == [] then 0
    else Successes(walk, seen[..|seen| - 1]) + if walk(seen[|seen| - 1]).frame.Some? then 1 else 0
  }

  /** The positions of the numbers with a translation. */
  function Translated(walk: nat -> Chain, seen: seq<nat>): set<nat>
  {
    set i: nat | i < |seen| && walk(seen[i]).frame.Some?
  }

  /** The count is that of the numbers that have a translation. */
  lemma {:induction false} SuccessesMeaning(walk: nat -> Chain, seen: seq<nat>)
    ensures Successes(walk, seen) == |Translated(walk, seen)|
  {
    var n := |seen| - 1;
    if seen == [] {
      assert Translated(walk, seen) == {};
    } else {
      SuccessesMeaning(walk, seen[..n]);
      var a, b := Translated(walk, seen[..n]), Translated(walk, seen);
      assert n !in a && forall i: nat | i < n :: seen[..n][i] == seen[i];
      assert b == if walk(seen[n]).frame.Some? then a + {n} else a;
    }
  }

  /** The memo holds the numbers seen, with the chains that `walk` gives. */
  ghost predicate Memoises(walk: nat -> Chain, memo: map<nat, Chain>, seen: seq<nat>)
  {
    && (forall p {:trigger p in memo} {:trigger Has(seen, p)} :: p in memo <==> Has(seen, p))
    && (forall p | p in memo :: memo[p] == walk(p))
  }

  /** The module's knowledge: list, memo and count of successes agree. */
  ghost predicate Knows(walk: nat -> Chain, memo: map<nat, Chain>, items: seq<Item>, successful: nat, seen: seq<nat>)
  {
    Lists(walk, items, seen) && Memoises(walk, memo, seen) && Distinct(seen) && successful == Successes(walk, seen)
  }

  ghost predicate Walks(walk: nat -> Chain, t: Tables, base: nat, p: nat)
  {
    walk(p) == ChainOf(t, base, p)
  }

  /** `walk` is a direct walk of the tables. */
  ghost predicate Direct(walk: nat -> Chain, t: Tables, base: nat)
  {
    forall p: nat {:trigger Walks(walk, t, base, p)} :: Walks(walk, t, base, p)
  }

  class Translation {
    const t: Tables
    const base: nat
    const scan: Scan
    var memo: map<nat, Chain>
    var entries: array<Item>
    var count: nat
    var successful: nat
    var unsuccessful: nat
    var partial: string
    var pos: nat
    ghost const walk: nat -> Chain
    ghost var items: seq<Item>
    ghost var seen: seq<nat>

    /** The array holds the entries. */
    ghost predicate Backed()
      reads this, entries
    {
      count == |items| <= entries.Length && entries[..count] == items
    }

    ghost predicate Valid()
      reads this, entries
    {
      && Direct(walk, t, base)
      && Backed() && Knows(walk, memo, items, successful, seen)
      && successful + unsuccessful == count
      && FirstBreak(partial) == |partial|
      && (forall s :: scan(s).Some? ==> |scan(s).value| == 5)
    }

    /** `add_translation_entry`: the array doubles when it is full, and keeps its contents. */
    method AddEntry(item: Item)
      requires Backed()
      modifies this`entries, this`count, this`items, entries
      ensures Backed() && items == old(items) + [item] && (entries == old(entries) || fresh(entries))
      ensures old(count) < old(entries.Length) ==> entries == old(entries)
      ensures old(count) >= old(entries.Length) ==>
        fresh(entries) && entries.Length == if old(entries.Length) == 0 then 1024 else 2 * old(entries.Length)
    {
      if count >= entries.Length {
        var capacity := if entries.Length != 0 then entries.Length * 2 else 1024;
        var grown := new Item[capacity](_ => BLANK);
        forall i | 0 <= i < count {
          grown[i] := entries[i];
        }
        entries := grown;
        assert entries[..count] == items;
      }
      entries[count] := item;
      count := count + 1;
      items := items + [item];
    }

    /** `get_or_translate_pfn`, and the entry if it is new */
    method Note(pfn: nat)
      requires Valid()
      modifies this`memo, this`entries, this`count, this`items, this`successful, this`unsuccessful, this`seen, entries
      ensures Valid() && seen == Noted(old(seen), pfn) && (entries == old(entries) || fresh(entries))
    {
      if pfn != 0 && pfn !in memo {
        NoteNew(pfn);
      }
    }

    method Tally(c: Chain)
      modifies this`successful, this`unsuccessful
      ensures successful == old(successful) + (if c.frame.Some? then 1 else 0)
      ensures successful + unsuccessful == old(successful) + old(unsuccessful) + 1
    {
      if c.frame.Some? {
        successful := successful + 1;
      } else {
        unsuccessful := unsuccessful + 1;
      }
    }

    method LookUp(pfn: nat) returns (c: Chain)
      requires Direct(walk, t, base)
      ensures c == walk(pfn)
    {
      c := Translate(t, base, pfn);
      assert Walks(walk, t, base, pfn);
    }

    method NoteNew(pfn: nat)
      requires Valid() && pfn !in memo
      modifies this`memo, this`entries, this`count, this`items, this`successful, this`unsuccessful, this`seen, entries
      ensures Valid() && seen == old(seen) + [pfn] && (entries == old(entries) || fresh(entries))
    {
      var c := LookUp(pfn);
      KnowMore(walk, memo, items, successful, seen, pfn);
      Store(pfn, c);
    }

    /** The counters, the memo and the list of a new number */
    method Store(pfn: nat, c: Chain)
      requires Backed()
      modifies this`memo, this`entries, this`count, this`items, this`successful, this`unsuccessful, this`seen, entries
      ensures Backed() && (entries == old(entries) || fresh(entries)) && count == old(count) + 1
      ensures memo == old(memo)[pfn := c] && items == old(items) + [Item(pfn, c)] && seen == old(seen) + [pfn]
      ensures successful == old(successful) + if c.frame.Some? then 1 else 0
      ensures successful + unsuccessful == old(successful) + old(unsuccessful) + 1
    {
      Tally(c);
      memo := memo[pfn := c];
      AddEntry(Item(pfn, c));
      seen := seen + [pfn];
    }

    /** `process_entry`: the five numbers of a line, one after the other */
    method ProcessEntry(ps: seq<nat>)
      requires Valid() && |ps| == 5
      modifies this`memo, this`entries, this`count, this`items, this`successful, this`unsuccessful, this`seen, entries
      ensures Valid() && seen == NotedAll(old(seen), ps) && (entries == old(entries) || fresh(entries))
    {
      FiveNoted(seen, ps);
      Note(ps[0]);
      Note(ps[1]);
      Note(ps[2]);
      Note(ps[3]);
      Note(ps[4]);
    }

    /** `parse_and_translate` on a line that is not empty */
    method ParseLine(line: string)
      requires Valid()
      modifies this`memo, this`entries, this`count, this`items, this`successful, this`unsuccessful, this`seen, entries
      ensures Valid() && seen == NotedAll(old(seen), Fields(scan, line)) && (entries == old(entries) || fresh(entries))
    {
      var i := 0;
      while i < |line| && line[i] != ','
        invariant 0 <= i <= |line| && forall j | 0 <= j < i :: line[j] != ','
      {
        i := i + 1;
      }
      FirstIs(line, ',', i);
      if i == |line| {
        return;
      }
      var fields := scan(line[i + 1..]);
      if fields.Some? {
        ProcessEntry(fields.value);
      }
    }

    constructor (t: Tables, base: nat, scan: Scan)
      requires forall s :: scan(s).Some? ==> |scan(s).value| == 5
      ensures Valid() && seen == [] && pos == 0 && partial == [] && this.t == t && this.base == base
      ensures this.scan == scan && fresh(entries)
    {
      this.t, this.base, this.scan := t, base, scan;
      walk := (p: nat) => ChainOf(t, base, p);
      memo, count, successful, unsuccessful := map[], 0, 0, 0;
      entries := new Item[0](_ => BLANK);
      partial, pos, seen, items := [], 0, [], [];
    }

    /** `clear_translations`, and the unfinished line is dropped */
    method Clear()
      requires Valid()
      modifies this`memo, this`entries, this`count, this`items, this`successful, this`unsuccessful, this`seen,
        this`partial
      ensures Valid() && seen == [] && partial == [] && fresh(entries)
    {
      memo, count, successful, unsuccessful := map[], 0, 0, 0;
      entries := new Item[0](_ => BLANK);
      partial, seen, items := [], [], [];
    }

    /** One complete line: skipped if it is empty, or if the header is still to come. */
    method ProcessLine(line: string, first: bool) returns (first': bool)
      requires Valid()
      modifies this`memo, this`entries, this`count, this`items, this`successful, this`unsuccessful, this`seen, entries
      ensures Valid() && (entries == old(entries) || fresh(entries)) && first' == (first && line == [])
      ensures seen == if first then old(seen) else NotedAll(old(seen), Fields(scan, line))
    {
      first' := first;
      if line == [] {
      } else if first {
        first' := false;
      } else {
        ParseLine(line);
      }
    }

    /** One round of the loop of `input_write` */
    method ProcessNext(text: string, i: nat, first: bool, ghost goal: seq<nat>) returns (i': nat, first': bool)
      requires Valid() && i < |text| && Rest(text[i..]) == [] && goal == ReadOff(scan, seen, first, text[i..])
      modifies this`memo, this`entries, this`count, this`items, this`successful, this`unsuccessful, this`seen, entries
      ensures Valid() && (entries == old(entries) || fresh(entries))
      ensures i < i' <= |text| && Rest(text[i'..]) == [] && goal == ReadOff(scan, seen, first', text[i'..])
    {
      var k := FindBreak(text, i);
      LineStep(scan, text, i, k, seen, first);
      first' := ProcessLine(text[i..k], first);
      i' := k + 1;
    }

    /** The loop of `input_write` over complete lines */
    method ProcessLines(text: string, header: bool)
      requires Valid() && Rest(text) == []
      modifies this`memo, this`entries, this`count, this`items, this`successful, this`unsuccessful, this`seen, entries
      ensures Valid() && (entries == old(entries) || fresh(entries))
      ensures seen == ReadOff(scan, old(seen), header, text)
    {
      var i, first := 0, header;
      assert text[0..] == text;
      ghost var goal := ReadOff(scan, seen, header, text);
      while i < |text|
        invariant 0 <= i <= |text| && Valid() && Rest(text[i..]) == [] && (entries == old(entries) || fresh(entries))
        invariant goal == ReadOff(scan, seen, first, text[i..])
      {
        i, first := ProcessNext(text, i, first, goal);
      }
      assert text[i..] == [];
      EndOfText(scan, seen, first, text[i..]);
    }

    /** `input_write` with the text at hand: complete lines are read, the rest is kept. */
    method ReadText(full: string, first: bool)
      requires Valid()
      modifies this`memo, this`entries, this`count, this`items, this`successful, this`unsuccessful, this`seen,
        this`partial, entries
      ensures Valid() && partial == Rest(full) && seen == ReadOff(scan, old(seen), first, full)
      ensures entries == old(entries) || fresh(entries)
    {
      var last := FindLast(full);
      if last == |full| {
        NoBreak(full);
        EndOfText(scan, seen, first, full);
        partial := full;
      } else {
        CutAtLast(full, last);
        partial := full[last + 1..];
        ProcessLines(full[..last + 1], first);
      }
    }

    /** `input_write`: one piece of a dump */
    method InputWrite(chunk: string)
      requires Valid() && '\0' !in chunk
      modifies this`memo, this`entries, this`count, this`items, this`successful, this`unsuccessful, this`seen,
        this`partial, this`pos, entries
      ensures Valid() && pos == old(pos) + |chunk| && (entries == old(entries) || fresh(entries))
      ensures Session(partial, seen) == if old(pos) == 0 then FirstWrite(scan, chunk)
        else LaterWrite(scan, Session(old(partial), old(seen)), chunk)
    {
      var first := pos == 0;
      if first {
        Clear();
      }
      assert first ==> partial + chunk == chunk;
      ReadText(partial + chunk, first);
      pos := pos + |chunk|;
    }

    /** The file is opened for another session. */
    method Open()
      requires Valid()
      modifies this`pos
      ensures Valid() && pos == 0
    {
      pos := 0;
    }

    /** A whole session, written in the pieces `chunks`, whatever earlier sessions have left behind */
    method WriteAll(chunks: seq<string>)
      requires Valid() && chunks != [] && forall i | 0 <= i < |chunks| :: '\0' !in chunks[i]
      modifies this`memo, this`entries, this`count, this`items, this`successful, this`unsuccessful, this`seen,
        this`partial, this`pos, entries
      ensures Valid() && (entries == old(entries) || fresh(entries))
      ensures Session(partial, seen) == Written(scan, chunks)
    {
      Open();
      ghost var goal := Written(scan, chunks);
      SessionStartsClean(scan, Session(partial, seen), chunks);
      assert chunks[0..] == chunks;
      var i := 0;
      while i < |chunks|
        invariant 0 <= i <= |chunks| && Valid() && (entries == old(entries) || fresh(entries))
        invariant goal == Writes(scan, pos, Session(partial, seen), chunks[i..])
      {
        WriteNext(chunks, i, goal);
        i := i + 1;
      }
    }

    method WriteNext(chunks: seq<string>, i: nat, ghost goal: Session)
      requires Valid() && i < |chunks| && '\0' !in chunks[i]
      requires goal == Writes(scan, pos, Session(partial, seen), chunks[i..])
      modifies this`memo, this`entries, this`count, this`items, this`successful, this`unsuccessful, this`seen,
        this`partial, this`pos, entries
      ensures Valid() && (entries == old(entries) || fresh(entries))
      ensures goal == Writes(scan, pos, Session(partial, seen), chunks[i + 1..])
    {
      WritesStep(scan, pos, Session(partial, seen), chunks, i);
      InputWrite(chunks[i]);
    }
  }

  /** One dump after another: each session lists what its own dump gives. */
  method TwoSessions(t: Tables, base: nat, scan: Scan, dump: seq<string>, dump': seq<string>)
    returns (tr: Translation)
    requires forall s :: scan(s).Some? ==> |scan(s).value| == 5
    requires dump != [] && dump' != []
    requires forall i | 0 <= i < |dump| :: '\0' !in dump[i]
    requires forall i | 0 <= i < |dump'| :: '\0' !in dump'[i]
    ensures tr.Valid() && Session(tr.partial, tr.seen) == Written(scan, dump')
  {
    tr := new Translation(t, base, scan);
    tr.WriteAll(dump);
    tr.WriteAll(dump');
  }

  lemma NoteStep(walk: nat -> Chain, seen: seq<nat>, p: nat)
    requires Distinct(seen) && !Has(seen, p)
    ensures Distinct(seen + [p])
    ensures Successes(walk, seen + [p]) == Successes(walk, seen) + if walk(p).frame.Some? then 1 else 0
  {
    assert (seen + [p])[..|seen + [p]| - 1] == seen;
  }

  lemma ListStep(walk: nat -> Chain, items: seq<Item>, seen: seq<nat>, p: nat)
    requires Lists(walk, items, seen)
    ensures Lists(walk, items + [Item(p, walk(p))], seen + [p])
  {
  }

  lemma KnowMore(walk: nat -> Chain, memo: map<nat, Chain>, items: seq<Item>, successful: nat, seen: seq<nat>, p: nat)
    requires Knows(walk, memo, items, successful, seen) && p !in memo
    ensures Knows(walk, memo[p := walk(p)], items + [Item(p, walk(p))],
      successful + (if walk(p).frame.Some? then 1 else 0), seen + [p])
  {
    NoteStep(walk, seen, p);
    MemoStep(walk, memo, seen, p);
    ListStep(walk, items, seen, p);
  }

  lemma MemoStep(walk: nat -> Chain, memo: map<nat, Chain>, seen: seq<nat>, p: nat)
    requires Memoises(walk, memo, seen)
    ensures Memoises(walk, memo[p := walk(p)], seen + [p])
  {
    forall q ensures q in memo[p := walk(p)] <==> Has(seen + [p], q) {
      HasAppend(seen, p, q);
    }
  }

  lemma FiveNoted(seen: seq<nat>, ps: seq<nat>)
    requires |ps| == 5
    ensures NotedAll(seen, ps) == Noted(Noted(Noted(Noted(Noted(seen, ps[0]), ps[1]), ps[2]), ps[3]), ps[4])
  {
    var s1 := Noted(seen, ps[0]);
    var s2 := Noted(s1, ps[1]);
    var s3 := Noted(s2, ps[2]);
    var s4 := Noted(s3, ps[3]);
    assert ps[1..][1..] == ps[2..] && ps[2..][1..] == ps[3..] && ps[3..][1..] == ps[4..] && ps[4..][1..] == [];
    assert NotedAll(s1, ps[1..]) == NotedAll(s2, ps[2..]);
    assert NotedAll(s2, ps[2..]) == NotedAll(s3, ps[3..]);
    assert NotedAll(s3, ps[3..]) == NotedAll(s4, ps[4..]);
    assert NotedAll(s4, ps[4..]) == NotedAll(Noted(s4, ps[4]), []);
  }

  /** `strchr(line, '\n')` */
  method FindBreak(text: string, i: nat) returns (k: nat)
    requires i < |text| && Rest(text[i..]) == []
    ensures i <= k < |text| && k - i == FirstBreak(text[i..])
  {
    k := i;
    while k < |text| && text[k] != '\n'
      invariant i <= k <= |text| && forall j | i <= j < k :: text[j] != '\n'
    {
      k := k + 1;
    }
    BreakIs(text[i..], k - i);
  }

  /** `strrchr(full_buf, '\n')`, or the length */
  method FindLast(text: string) returns (k: nat)
    ensures k <= |text| && (k < |text| ==> text[k] == '\n' && forall j | k < j < |text| :: text[j] != '\n')
    ensures k == |text| ==> forall j | 0 <= j < |text| :: text[j] != '\n'
  {
    var i := |text|;
    while i > 0
      invariant 0 <= i <= |text| && forall j | i <= j < |text| :: text[j] != '\n'
    {
      i := i - 1;
      if text[i] == '\n' {
        return i;
      }
    }
    k := |text|;
  }

  /** What is noted when the lines of `text` have been read, with or without a header ahead. */
  function ReadOff(scan: Scan, seen: seq<nat>, header: bool, text: string): seq<nat>
  {
    NotedAll(seen, AllFields(scan, if header then Body(Lines(text)) else Lines(text)))
  }

  lemma LineStep(scan: Scan, text: string, i: nat, k: nat, seen: seq<nat>, first: bool)
    requires i <= k < |text| && k - i == FirstBreak(text[i..])
    ensures Rest(text[k + 1..]) == Rest(text[i..])
    ensures ReadOff(scan, seen, first, text[i..]) ==
      ReadOff(scan, if first then seen else NotedAll(seen, Fields(scan, text[i..k])),
              first && text[i..k] == [], text[k + 1..])
  {
    var line, more := text[i..k], Lines(text[k + 1..]);
    assert text[i..][..k - i] == line && text[i..][k - i + 1..] == text[k + 1..];
    assert Lines(text[i..]) == [line] + more;
    assert ([line] + more)[1..] == more;
    NotedConcat(seen, Fields(scan, line), AllFields(scan, more));
  }

  lemma EndOfText(scan: Scan, seen: seq<nat>, header: bool, text: string)
    requires Lines(text) == []
    ensures ReadOff(scan, seen, header, text) == seen
  {
  }
}
