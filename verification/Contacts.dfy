/** The text of a contact's vCard note, written and read back. */
module Contacts {
  import opened Wrappers
  import opened Trimming

  const LABEL := "Zcash addresses:"
  const URI := "zcash:"

  // ---------------------------------------------------------------------
  // Lines of a text

  /** The index of the first newline, or the length. */
  function Break(s: string): (i: nat)
    ensures i <= |s| && (forall j :: 0 <= j < i ==> s[j] != '\n') && (i < |s| ==> s[i] == '\n')
  {
    if s == "" || s[0] == '\n' then 0 else 1 + Break(s[1..])
  }

  function StripReturn(line: string): string {
    if line != "" && line[|line| - 1] == '\r' then line[..|line| - 1] else line
  }

  /** Lines end with a newline or with a return and a newline; the last one
      may end with the text. */
  function Lines(s: string): seq<string> {
    if s == "" then []
    else
      var i := Break(s);
      if i == |s| then [s] else [StripReturn(s[..i])] + Lines(s[i + 1..])
  }

  function Join(lines: seq<string>, between: string): string {
    if lines == [] then "" else if |lines| == 1 then lines[0] else lines[0] + between + Join(lines[1..], between)
  }

  ghost predicate IsLine(s: string) { '\n' !in s }

  /** Not empty, and not ending with a return. */
  ghost predicate EndsClean(s: string) { s != "" && s[|s| - 1] != '\r' }

  function Stripped(lines: seq<string>): seq<string> {
    seq(|lines|, i requires 0 <= i < |lines| => StripReturn(lines[i]))
  }

  lemma JoinCons(line: string, rest: seq<string>)
    requires rest != []
    ensures Join([line] + rest, "\n") == line + "\n" + Join(rest, "\n")
  {
    assert ([line] + rest)[1..] == rest;
  }

  lemma JoinOne(line: string)
    ensures Join([line], "\n") == line
  {}

  lemma {:induction false} LinesOfJoin(lines: seq<string>)
    requires forall i :: 0 <= i < |lines| ==> IsLine(lines[i])
    requires lines != [] ==> EndsClean(lines[|lines| - 1])
    ensures Lines(Join(lines, "\n")) == Stripped(lines)
  {
    hide Join, Lines, Stripped;
    JoinNone();
    if |lines| == 1 {
      assert lines == [lines[0]];
      JoinOne(lines[0]);
      LinesOfOne(lines[0]);
    } else if |lines| > 1 {
      var rest := lines[1..];
      LinesOfJoin(rest);
      assert lines == [lines[0]] + rest;
      JoinCons(lines[0], rest);
      FirstLine(lines[0], Join(rest, "\n"));
      StrippedCons(lines[0], rest);
    }
  }

  lemma LinesOfOne(line: string)
    requires IsLine(line) && EndsClean(line)
    ensures Lines(line) == [line] == Stripped([line])
  {
    BreakAt(line, "");
    assert line + "" == line;
  }

  lemma StrippedCons(line: string, rest: seq<string>)
    ensures Stripped([line] + rest) == [StripReturn(line)] + Stripped(rest)
  {}

  lemma JoinNone()
    ensures Join([], "\n") == "" && Lines("") == [] && Stripped([]) == []
  {}

  lemma FirstLine(line: string, rest: string)
    requires IsLine(line)
    ensures Lines(line + "\n" + rest) == [StripReturn(line)] + Lines(rest)
  {
    var s := line + "\n" + rest;
    assert s == line + ("\n" + rest);
    BreakAt(line, "\n" + rest);
    assert s[..|line|] == line && s[|line| + 1..] == rest;
  }

  /** The pieces between the newlines of a text. */
  function Split(s: string): seq<string>
    decreases |s|
  {
    var i := Break(s);
    if i == |s| then [s] else [s[..i]] + Split(s[i + 1..])
  }

  function Pieces(s: string): seq<string> {
    if s == "" then [] else Split(s)
  }

  lemma {:induction false} JoinOfSplit(s: string)
    ensures Split(s) != [] && Join(Split(s), "\n") == s
    ensures forall i :: 0 <= i < |Split(s)| ==> IsLine(Split(s)[i])
    decreases |s|
  {
    hide Join;
    var i := Break(s);
    if i == |s| {
      JoinOne(s);
    } else {
      var rest := Split(s[i + 1..]);
      assert Split(s) == [s[..i]] + rest;
      hide Split;
      JoinOfSplit(s[i + 1..]);
      JoinCons(s[..i], rest);
      assert s == s[..i] + "\n" + s[i + 1..];
    }
  }

  lemma JoinOfPieces(s: string)
    ensures Join(Pieces(s), "\n") == s && (Pieces(s) != [] ==> s != "")
    ensures forall i :: 0 <= i < |Pieces(s)| ==> IsLine(Pieces(s)[i])
  {
    JoinOfSplit(s);
  }

  lemma {:induction false} BreakAt(line: string, rest: string)
    requires '\n' !in line && (rest != "" ==> rest[0] == '\n')
    ensures Break(line + rest) == |line|
  {
    if line == "" {
      assert line + rest == rest;
    } else {
      assert (line + rest)[1..] == line[1..] + rest;
      BreakAt(line[1..], rest);
    }
  }

  ghost function UpToReturn(line: string): string {
    if line != "" && line[|line| - 1] == '\r' then line[..|line| - 1] else line
  }

  lemma {:induction false} LinesAreStripped(s: string)
    ensures
      var pieces := Split(s);
      pieces != [] && Lines(s) == Stripped(pieces[..|pieces| - 1]) + LastLine(pieces[|pieces| - 1])
    decreases |s|
  {
    var i, pieces := Break(s), Split(s);
    hide StripReturn, Stripped;
    JoinNone();
    if i == |s| {
      assert pieces == [s] && pieces[..0] == [];
    } else {
      var rest := Split(s[i + 1..]);
      LinesAreStripped(s[i + 1..]);
      assert pieces == [s[..i]] + rest && pieces[..|pieces| - 1] == [s[..i]] + rest[..|rest| - 1];
      StrippedCons(s[..i], rest[..|rest| - 1]);
    }
  }

  ghost function LastLine(piece: string): seq<string> {
    if piece == "" then [] else [piece]
  }

  /** For any text: the pieces between its newlines, all but the last without a
      return at their ends, and the last one as it is unless it is empty. */
  lemma LinesOfText(s: string)
    ensures
      var pieces := Split(s);
      var last := |pieces| - 1;
      && pieces != []
      && Lines(s) == seq(last, i requires 0 <= i < last => UpToReturn(pieces[i]))
                     + if pieces[last] == "" then [] else [pieces[last]]
  {
    var pieces := Split(s);
    LinesAreStripped(s);
    assert Stripped(pieces[..|pieces| - 1])
      == seq(|pieces| - 1, i requires 0 <= i < |pieces| - 1 => UpToReturn(pieces[i]));
  }

  // ---------------------------------------------------------------------
  // Writing the note

  function Uris(addresses: seq<string>): seq<string> {
    seq(|addresses|, i requires 0 <= i < |addresses| => URI + addresses[i])
  }

  function NoteParts(notes: string, addresses: seq<string>): seq<string> {
    (if notes == "" then [] else [notes])
    + (if addresses == [] then [] else [LABEL + "\n" + Join(Uris(addresses), "\n")])
  }

  function NoteText(notes: string, addresses: seq<string>): string {
    Join(NoteParts(notes, addresses), "\n\n")
  }

  // ---------------------------------------------------------------------
  // Reading it back

  /** The address that a line gives, if it gives one. */
  function AddressOf(valid: string -> bool, line: string): Option<string> {
    var t := Trim(line);
    if |t| >= |URI| && t[..|URI|] == URI && valid(t[|URI|..]) then Some(t[|URI|..])
    else if valid(t) then Some(t)
    else None
  }

  /** The line is the address, or its URI; an address that is a URI of another
      is read as that one. */
  ghost predicate GivesAddress(valid: string -> bool, line: string, a: string) {
    && valid(a)
    && (Trim(line) == "zcash:" + a || (Trim(line) == a && !exists b :: valid(b) && a == "zcash:" + b))
  }

  lemma AddressOfIff(valid: string -> bool, line: string, a: string)
    ensures AddressOf(valid, line) == Some(a) <==> GivesAddress(valid, line, a)
  {
    var t := Trim(line);
    assert |t| >= |URI| && t[..|URI|] == URI ==> t == "zcash:" + t[|URI|..];
    assert forall b: string :: ("zcash:" + b)[|URI|..] == b && ("zcash:" + b)[..|URI|] == URI;
  }

  predicate Skipped(line: string) { Trim(line) == "" || Trim(line) == LABEL }

  function AddressesIn(valid: string -> bool, lines: seq<string>): seq<string> {
    if lines == [] then []
    else
      var last := lines[|lines| - 1];
      AddressesIn(valid, lines[..|lines| - 1])
      + if !Skipped(last) && AddressOf(valid, last).Some? then [AddressOf(valid, last).value] else []
  }

  function NotesIn(valid: string -> bool, lines: seq<string>): string {
    if lines == [] then ""
    else
      var before, last := NotesIn(valid, lines[..|lines| - 1]), lines[|lines| - 1];
      if Skipped(last) || AddressOf(valid, last).Some? then before
      else if before == "" then last else before + "\n" + last
  }

  /** One pass over the lines of the note. */
  method ParseNote(text: string, valid: string -> bool) returns (addresses: seq<string>, notes: string)
    ensures addresses == AddressesIn(valid, Lines(text)) && notes == Trim(NotesIn(valid, Lines(text)))
  {
    var lines := Lines(text);
    addresses, notes := [], "";
    for n := 0 to |lines|
      invariant addresses == AddressesIn(valid, lines[..n]) && notes == NotesIn(valid, lines[..n])
    {
      assert lines[..n + 1][..n] == lines[..n];
      var trimmed := Trim(lines[n]);
      if trimmed != "" && trimmed != LABEL {
        if |trimmed| >= |URI| && trimmed[..|URI|] == URI && valid(trimmed[|URI|..]) {
          addresses := addresses + [trimmed[|URI|..]];
        } else if valid(trimmed) {
          addresses := addresses + [trimmed];
        } else {
          if notes != "" { notes := notes + "\n"; }
          notes := notes + lines[n];
        }
      }
    }
    assert lines[..|lines|] == lines;
    notes := Trim(notes);
  }

  // ---------------------------------------------------------------------
  // The round trip

  /** A valid address is not empty and holds no white space. */
  ghost predicate Lawful(valid: string -> bool) {
    forall a :: valid(a) ==> a != "" && forall i :: 0 <= i < |a| ==> !IsWhite(a[i])
  }

  ghost predicate Note(valid: string -> bool, line: string) {
    !Skipped(line) && AddressOf(valid, line).None?
  }

  /** Neither blank nor the label, and no address. */
  ghost predicate IsNote(valid: string -> bool, line: string) {
    && !(forall i :: 0 <= i < |line| ==> IsWhite(line[i]))
    && Trim(line) != "Zcash addresses:" && !exists a :: GivesAddress(valid, line, a)
  }

  lemma NoteIff(valid: string -> bool, line: string)
    ensures Note(valid, line) <==> IsNote(valid, line)
  {
    BlankIff(line);
    if AddressOf(valid, line).Some? { AddressOfIff(valid, line, AddressOf(valid, line).value); }
    if a :| GivesAddress(valid, line, a) { AddressOfIff(valid, line, a); }
  }

  lemma {:induction false} BlankIff(s: string)
    ensures Trim(s) == "" <==> AllWhite(s)
  {
    if AllWhite(s) {
      TrimPadded(s, "", "");
      assert s + "" + "" == s;
    } else {
      NotBlank(s);
    }
  }

  lemma {:induction false} NotBlank(s: string)
    requires !AllWhite(s)
    ensures TrimStart(s) != "" && TrimEnd(TrimStart(s)) != ""
  {
    if IsWhite(s[0]) {
      NotBlank(s[1..]);
    } else {
      TrimEndStops(s);
    }
  }

  lemma {:induction false} TrimEndStops(s: string)
    requires s != "" && !IsWhite(s[0])
    ensures TrimEnd(s) != ""
    decreases |s|
  {
    if IsWhite(s[|s| - 1]) { TrimEndStops(s[..|s| - 1]); }
  }

  /** The lines that are notes, in order. */
  ghost function NotesOf(valid: string -> bool, lines: seq<string>): seq<string> {
    if lines == [] then []
    else NotesOf(valid, lines[..|lines| - 1]) + if IsNote(valid, lines[|lines| - 1]) then [lines[|lines| - 1]] else []
  }

  /** Any lines: those that are notes are put together, in order, and the
      addresses are those of the lines that give one, in order. */
  lemma {:induction false} LinesRead(valid: string -> bool, lines: seq<string>)
    ensures NotesIn(valid, lines) == Join(NotesOf(valid, lines), "\n")
    ensures NotesOf(valid, lines) != [] ==> NotesIn(valid, lines) != ""
  {
    if lines != [] {
      var init, last := lines[..|lines| - 1], lines[|lines| - 1];
      LinesRead(valid, init);
      NoteIff(valid, last);
      if IsNote(valid, last) {
        var before := NotesOf(valid, init);
        if before == [] {
          assert before + [last] == [last];
        } else {
          JoinSnoc(before, last);
        }
      } else {
        assert NotesOf(valid, lines) == NotesOf(valid, init);
      }
    }
  }

  ghost predicate AllNotes(valid: string -> bool, lines: seq<string>) {
    forall i :: 0 <= i < |lines| ==> Note(valid, lines[i])
  }

  /** One line more gives its address, if it gives one. */
  lemma LineRead(valid: string -> bool, lines: seq<string>, line: string)
    requires Lawful(valid)
    ensures
      var before, after := AddressesIn(valid, lines), AddressesIn(valid, lines + [line]);
      if exists a :: GivesAddress(valid, line, a)
      then exists a :: GivesAddress(valid, line, a) && after == before + [a] else after == before
  {
    assert (lines + [line])[..|lines|] == lines;
    if a :| GivesAddress(valid, line, a) {
      AddressOfIff(valid, line, a);
      GivesIsRead(valid, line, a);
    } else if AddressOf(valid, line).Some? {
      AddressOfIff(valid, line, AddressOf(valid, line).value);
    }
  }

  lemma GivesIsRead(valid: string -> bool, line: string, a: string)
    requires Lawful(valid) && GivesAddress(valid, line, a)
    ensures !Skipped(line)
  {
    if Trim(line) == a {
      assert LABEL[5] == ' ';
    } else {
      assert ("zcash:" + a)[0] == 'z' && LABEL[0] == 'Z';
    }
  }

  lemma {:induction false} AddressesConcat(valid: string -> bool, x: seq<string>, y: seq<string>)
    ensures AddressesIn(valid, x + y) == AddressesIn(valid, x) + AddressesIn(valid, y)
  {
    if y == [] {
      assert x + y == x;
    } else {
      assert (x + y)[..|x + y| - 1] == x + y[..|y| - 1];
      AddressesConcat(valid, x, y[..|y| - 1]);
    }
  }

  /** Lines that are no notes add nothing to the notes. */
  lemma {:induction false} NotesBefore(valid: string -> bool, x: seq<string>, y: seq<string>)
    requires forall i :: 0 <= i < |y| ==> !Note(valid, y[i])
    ensures NotesIn(valid, x + y) == NotesIn(valid, x)
  {
    if y == [] {
      assert x + y == x;
    } else {
      assert (x + y)[..|x + y| - 1] == x + y[..|y| - 1];
      NotesBefore(valid, x, y[..|y| - 1]);
    }
  }

  lemma TrimmedUri(valid: string -> bool, a: string)
    requires Lawful(valid) && valid(a)
    ensures Trim(URI + a) == URI + a && !Skipped(URI + a) && AddressOf(valid, URI + a) == Some(a)
  {
    var s := URI + a;
    assert s[|s| - 1] == a[|a| - 1];
    NothingToTrim(s);
    assert s[..|URI|] == URI && s[|URI|..] == a;
    assert s[0] == 'z' && LABEL[0] == 'Z';
  }

  lemma NoUriIsNote(valid: string -> bool, addresses: seq<string>)
    requires Lawful(valid) && forall i :: 0 <= i < |addresses| ==> valid(addresses[i])
    ensures forall i :: 0 <= i < |Uris(addresses)| ==> !Note(valid, Uris(addresses)[i])
  {
    forall i | 0 <= i < |addresses|
      ensures !Note(valid, Uris(addresses)[i])
    {
      TrimmedUri(valid, addresses[i]);
    }
  }

  lemma {:induction false} UrisRead(valid: string -> bool, addresses: seq<string>)
    requires Lawful(valid) && forall i :: 0 <= i < |addresses| ==> valid(addresses[i])
    ensures AddressesIn(valid, Uris(addresses)) == addresses
  {
    if addresses == [] {
      assert Uris(addresses) == [];
    } else {
      hide Skipped, AddressOf, Uris, AddressesIn;
      var init, last := addresses[..|addresses| - 1], addresses[|addresses| - 1];
      UrisRead(valid, init);
      TrimmedUri(valid, last);
      UrisLast(valid, addresses);
    }
  }

  lemma UrisLast(valid: string -> bool, addresses: seq<string>)
    requires addresses != [] && valid(addresses[|addresses| - 1])
    requires !Skipped(URI + addresses[|addresses| - 1])
    requires AddressOf(valid, URI + addresses[|addresses| - 1]) == Some(addresses[|addresses| - 1])
    ensures AddressesIn(valid, Uris(addresses)) ==
            AddressesIn(valid, Uris(addresses[..|addresses| - 1])) + [addresses[|addresses| - 1]]
  {
    hide Skipped;
    hide AddressOf;
    var uris := Uris(addresses);
    assert uris[..|uris| - 1] == Uris(addresses[..|addresses| - 1]);
    assert uris[|uris| - 1] == URI + addresses[|addresses| - 1];
  }

  lemma {:induction false} JoinSnoc(lines: seq<string>, last: string)
    requires lines != []
    ensures Join(lines + [last], "\n") == Join(lines, "\n") + "\n" + last
  {
    if |lines| == 1 {
      assert (lines + [last])[1..] == [last];
    } else {
      assert (lines + [last])[1..] == lines[1..] + [last];
      JoinSnoc(lines[1..], last);
      assert lines[0] + "\n" + (Join(lines[1..], "\n") + "\n" + last) ==
             lines[0] + "\n" + Join(lines[1..], "\n") + "\n" + last;
    }
  }

  /** Lines that are all notes are put back together. */
  lemma {:induction false} NotesRead(valid: string -> bool, lines: seq<string>)
    requires AllNotes(valid, lines)
    ensures NotesIn(valid, lines) == Join(lines, "\n") && AddressesIn(valid, lines) == []
    ensures lines != [] ==> NotesIn(valid, lines) != ""
  {
    if lines != [] {
      var init, last := lines[..|lines| - 1], lines[|lines| - 1];
      NotesRead(valid, init);
      assert Note(valid, last);
      assert lines == init + [last];
      if init != [] { JoinSnoc(init, last); }
    }
  }

  lemma {:induction false} JoinTwo(x: seq<string>, y: seq<string>)
    requires x != [] && y != []
    ensures Join(x + y, "\n") == Join(x, "\n") + "\n" + Join(y, "\n")
    decreases |y|
  {
    if |y| == 1 {
      assert y == [y[0]];
      JoinSnoc(x, y[0]);
    } else {
      var init, last := y[..|y| - 1], y[|y| - 1];
      assert x + y == (x + init) + [last] && y == init + [last];
      JoinTwo(x, init);
      JoinSnoc(x + init, last);
      JoinSnoc(init, last);
      assert Join(x, "\n") + "\n" + Join(init, "\n") + "\n" + last ==
             Join(x, "\n") + "\n" + (Join(init, "\n") + "\n" + last);
    }
  }

  lemma JoinPair(x: string, y: string, between: string)
    ensures Join([x, y], between) == x + between + y
  {
    assert [x, y][1..] == [y];
  }

  /** The lines of the note of a contact whose notes have these lines. */
  function NoteLines(noteLines: seq<string>, addresses: seq<string>): seq<string> {
    noteLines + (if noteLines == [] then [] else [""]) + [LABEL] + Uris(addresses)
  }

  lemma TextOfNote(noteLines: seq<string>, addresses: seq<string>)
    requires addresses != [] && (noteLines != [] ==> Join(noteLines, "\n") != "")
    ensures NoteText(Join(noteLines, "\n"), addresses) == Join(NoteLines(noteLines, addresses), "\n")
  {
    var tail := [LABEL] + Uris(addresses);
    assert tail[1..] == Uris(addresses);
    assert Join(tail, "\n") == LABEL + "\n" + Join(Uris(addresses), "\n");
    if noteLines == [] {
      assert NoteLines(noteLines, addresses) == tail;
    } else {
      assert NoteLines(noteLines, addresses) == noteLines + ([""] + tail);
      assert NoteParts(Join(noteLines, "\n"), addresses) == [Join(noteLines, "\n"), Join(tail, "\n")];
      TwoBlocks(noteLines, tail);
    }
  }

  /** An empty line between two blocks of lines. */
  lemma TwoBlocks(x: seq<string>, y: seq<string>)
    requires x != [] && y != []
    ensures Join([Join(x, "\n"), Join(y, "\n")], "\n\n") == Join(x + ([""] + y), "\n")
  {
    var a, b := Join(x, "\n"), Join(y, "\n");
    JoinPair(a, b, "\n\n");
    JoinTwo(x, [""] + y);
    JoinTwo([""], y);
    assert "" + "\n" + b == "\n" + b;
    assert a + "\n" + ("\n" + b) == a + "\n\n" + b;
  }

  ghost predicate ValidAddresses(valid: string -> bool, addresses: seq<string>) {
    addresses != [] && forall i :: 0 <= i < |addresses| ==> valid(addresses[i])
  }

  function Gap(noteLines: seq<string>): seq<string> {
    (if noteLines == [] then [] else [""]) + [LABEL]
  }

  lemma UrisAreClean(valid: string -> bool, addresses: seq<string>)
    requires Lawful(valid) && ValidAddresses(valid, addresses)
    ensures forall i :: 0 <= i < |addresses| ==> IsLine(Uris(addresses)[i]) && EndsClean(Uris(addresses)[i])
  {
    forall i | 0 <= i < |addresses|
      ensures IsLine(Uris(addresses)[i]) && EndsClean(Uris(addresses)[i])
    {
      UriIsLine(valid, addresses[i]);
    }
  }

  lemma StrippedConcat(x: seq<string>, y: seq<string>)
    ensures Stripped(x + y) == Stripped(x) + Stripped(y)
  {}

  lemma StrippedNoteLines(pieces: seq<string>, addresses: seq<string>)
    requires forall i :: 0 <= i < |addresses| ==> EndsClean(Uris(addresses)[i])
    ensures Stripped(NoteLines(pieces, addresses)) == NoteLines(Stripped(pieces), addresses)
  {
    var tail := Gap(pieces) + Uris(addresses);
    assert Stripped(tail) == tail;
    assert NoteLines(pieces, addresses) == pieces + tail;
    assert NoteLines(Stripped(pieces), addresses) == Stripped(pieces) + tail;
    hide NoteLines, Stripped, Gap, Uris;
    StrippedConcat(pieces, tail);
  }

  /** The pieces without the returns at their ends, a blank line, the label, and
      one URI per address. */
  ghost function WrittenLines(pieces: seq<string>, addresses: seq<string>): seq<string> {
    seq(|pieces|, i requires 0 <= i < |pieces| => UpToReturn(pieces[i]))
    + (if pieces == [] then [] else [""]) + ["Zcash addresses:"]
    + seq(|addresses|, i requires 0 <= i < |addresses| => "zcash:" + addresses[i])
  }

  lemma NoteLinesAreWritten(pieces: seq<string>, addresses: seq<string>)
    ensures NoteLines(Stripped(pieces), addresses) == WrittenLines(pieces, addresses)
  {
    assert Stripped(pieces) == seq(|pieces|, i requires 0 <= i < |pieces| => UpToReturn(pieces[i]));
    assert Uris(addresses) == seq(|addresses|, i requires 0 <= i < |addresses| => "zcash:" + addresses[i]);
    assert |Stripped(pieces)| == |pieces|;
  }

  /** Whatever the notes: their pieces, each without a return at its end, a
      blank line, the label, and one URI per address. */
  lemma LinesOfNote(valid: string -> bool, notes: string, addresses: seq<string>)
    requires Lawful(valid) && ValidAddresses(valid, addresses)
    ensures Lines(NoteText(notes, addresses)) == NoteLines(Stripped(Pieces(notes)), addresses)
    ensures Lines(NoteText(notes, addresses)) == WrittenLines(Pieces(notes), addresses)
  {
    NoteLinesAreWritten(Pieces(notes), addresses);
    hide Lines, NoteText, Stripped, Join, EndsClean, Pieces;
    var pieces := Pieces(notes);
    var lines := NoteLines(pieces, addresses);
    JoinOfPieces(notes);
    UrisAreClean(valid, addresses);
    assert lines[|lines| - 1] == Uris(addresses)[|addresses| - 1];
    TextOfNote(pieces, addresses);
    LinesOfJoin(lines);
    StrippedNoteLines(pieces, addresses);
  }

  lemma UriIsLine(valid: string -> bool, a: string)
    requires Lawful(valid) && valid(a)
    ensures IsLine(URI + a) && EndsClean(URI + a)
  {
    var s := URI + a;
    assert s[|s| - 1] == a[|a| - 1];
    forall i | 0 <= i < |s|
      ensures s[i] != '\n'
    {
      if i >= |URI| { assert s[i] == a[i - |URI|]; }
    }
  }

  lemma LabelSkipped()
    ensures Skipped("") && Skipped(LABEL)
  {
    NothingToTrim(LABEL);
  }

  /** What reading a contact's own note gives: its addresses, preceded by those
      that its note lines hold, and the lines that are notes, trimmed. */
  lemma NoteReadsAs(valid: string -> bool, noteLines: seq<string>, addresses: seq<string>)
    requires Lawful(valid) && ValidAddresses(valid, addresses)
    ensures AddressesIn(valid, NoteLines(noteLines, addresses)) == AddressesIn(valid, noteLines) + addresses
    ensures NotesIn(valid, NoteLines(noteLines, addresses)) == NotesIn(valid, noteLines)
  {
    hide NotesIn;
    hide AddressesIn;
    hide Uris;
    hide AddressOf;
    hide Skipped;
    var gap, uris := Gap(noteLines), Uris(addresses);
    assert NoteLines(noteLines, addresses) == noteLines + (gap + uris);
    assert forall i :: 0 <= i < |gap| ==> Skipped(gap[i]) by { LabelSkipped(); }
    UrisRead(valid, addresses);
    NoUriIsNote(valid, addresses);
    assert AddressesIn(valid, gap + uris) == addresses by {
      GapHasNoAddress(valid, gap);
      AddressesConcat(valid, gap, uris);
    }
    AddressesConcat(valid, noteLines, gap + uris);
    NotesBefore(valid, noteLines, gap + uris);
  }

  lemma {:induction false} GapHasNoAddress(valid: string -> bool, gap: seq<string>)
    requires forall i :: 0 <= i < |gap| ==> Skipped(gap[i])
    ensures AddressesIn(valid, gap) == []
  {
    if gap != [] { GapHasNoAddress(valid, gap[..|gap| - 1]); }
  }

  /** A line that is no note makes the notes shorter. */
  lemma {:induction false} NotesShorter(valid: string -> bool, lines: seq<string>)
    requires lines != []
    ensures |NotesIn(valid, lines)| <= |Join(lines, "\n")|
    ensures Join(lines, "\n") != "" && !AllNotes(valid, lines) ==> |NotesIn(valid, lines)| < |Join(lines, "\n")|
  {
    var init, last := lines[..|lines| - 1], lines[|lines| - 1];
    assert lines == init + [last];
    if init != [] {
      NotesShorter(valid, init);
      JoinSnoc(init, last);
      if !AllNotes(valid, lines) && Note(valid, last) { assert !AllNotes(valid, init); }
    }
  }

  lemma {:induction false} TrimNotLonger(s: string)
    ensures |Trim(s)| <= |s|
  {
    TrimShrinks(s);
    TrimShrinks(TrimStart(s));
  }

  lemma {:induction false} StrippedShorter(lines: seq<string>)
    ensures |Join(Stripped(lines), "\n")| <= |Join(lines, "\n")|
    ensures Stripped(lines) != lines ==> |Join(Stripped(lines), "\n")| < |Join(lines, "\n")|
  {
    if lines != [] {
      StrippedShorter(lines[1..]);
      var rest := Stripped(lines[1..]);
      assert Stripped(lines) == [StripReturn(lines[0])] + rest;
      assert Stripped(lines)[1..] == rest;
      hide Stripped;
      assert lines == [lines[0]] + lines[1..];
    }
  }

  ghost predicate EndsWithReturn(s: string) { s != "" && s[|s| - 1] == '\r' }

  lemma PiecesAreNotes(valid: string -> bool, pieces: seq<string>)
    ensures AllNotes(valid, pieces) && Stripped(pieces) == pieces
      <==> forall i :: 0 <= i < |pieces| ==> IsNote(valid, pieces[i]) && !EndsWithReturn(pieces[i])
  {
    forall i | 0 <= i < |pieces|
      ensures Note(valid, pieces[i]) <==> IsNote(valid, pieces[i])
      ensures StripReturn(pieces[i]) == pieces[i] <==> !EndsWithReturn(pieces[i])
    {
      NoteIff(valid, pieces[i]);
    }
    assert Stripped(pieces) == pieces <==> forall i :: 0 <= i < |pieces| ==> Stripped(pieces)[i] == pieces[i];
    hide IsNote, Note, EndsWithReturn, StripReturn;
  }

  /** A contact with an address comes back from its own note, with the same
      addresses in the same order and the same notes, exactly when every line
      of its notes is a note that no return ends, and no white space surrounds
      the notes. */
  lemma NoteRoundTripIff(valid: string -> bool, notes: string, addresses: seq<string>)
    requires Lawful(valid) && ValidAddresses(valid, addresses)
    ensures var lines := Lines(NoteText(notes, addresses));
            AddressesIn(valid, lines) == addresses && Trim(NotesIn(valid, lines)) == notes
            <==> Trim(notes) == notes && forall i :: 0 <= i < |Pieces(notes)| ==>
                   IsNote(valid, Pieces(notes)[i]) && !EndsWithReturn(Pieces(notes)[i])
  {
    var pieces := Pieces(notes);
    var read := Stripped(pieces);
    PiecesAreNotes(valid, pieces);
    JoinOfPieces(notes);
    LinesOfNote(valid, notes, addresses);
    NoteReadsAs(valid, read, addresses);
    StrippedShorter(pieces);
    if AllNotes(valid, pieces) && read == pieces {
      NotesRead(valid, pieces);
      assert [] + addresses == addresses;
    } else {
      NotesShorter(valid, read);
      TrimNotLonger(NotesIn(valid, read));
      if read == pieces { assert !AllNotes(valid, read); }
    }
  }
}
