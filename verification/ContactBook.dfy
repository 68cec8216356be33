/** The stored contacts: importing into them and listing them. */
module ContactBook {
  import opened Wrappers

  /** A contact by its unique name: its notes, and its addresses by ordinal. */
  datatype Entry = Entry(notes: string, addresses: seq<string>)
  datatype Imported = Imported(name: string, addresses: seq<string>, notes: string)

  type Book = map<string, Entry>

  /** The number of receivers that an address expands to; None when it cannot
      be expanded on this network. */
  type Receivers = string -> Option<nat>

  function Dedup(s: seq<string>): (r: seq<string>)
    ensures forall a :: a in r <==> a in s
    ensures NoRepeats(r)
  {
    if s == [] then []
    else
      var init := Dedup(s[..|s| - 1]);
      assert s == s[..|s| - 1] + [s[|s| - 1]];
      if s[|s| - 1] in init then init else init + [s[|s| - 1]]
  }

  predicate NoRepeats(s: seq<string>) {
    forall i, j :: 0 <= i < j < |s| ==> s[i] != s[j]
  }

  lemma {:induction false} DedupSame(s: seq<string>)
    requires NoRepeats(s)
    ensures Dedup(s) == s
  {
    if s != [] {
      var init := s[..|s| - 1];
      DedupSame(init);
      assert s == init + [s[|s| - 1]];
    }
  }

  // ---------------------------------------------------------------------
  // Storing addresses

  /** The addresses that are stored: those with a receiver, up to the first
      that cannot be expanded. */
  function Stored(receivers: Receivers, addresses: seq<string>): seq<string> {
    if addresses == [] then []
    else
      var init, last := addresses[..|addresses| - 1], addresses[|addresses| - 1];
      if !Expandable(receivers, init) then Stored(receivers, init)
      else Stored(receivers, init) + if receivers(last).Some? && receivers(last).value > 0 then [last] else []
  }

  predicate Expandable(receivers: Receivers, addresses: seq<string>) {
    forall i :: 0 <= i < |addresses| ==> receivers(addresses[i]).Some?
  }

  predicate HasReceiver(receivers: Receivers, a: string) { receivers(a).Some? && receivers(a).value > 0 }

  ghost predicate AllHaveReceivers(receivers: Receivers, addresses: seq<string>) {
    forall i :: 0 <= i < |addresses| ==> HasReceiver(receivers, addresses[i])
  }

  lemma {:induction false} StoredAll(receivers: Receivers, addresses: seq<string>)
    requires AllHaveReceivers(receivers, addresses)
    ensures Stored(receivers, addresses) == addresses
  {
    if addresses != [] {
      var init, last := addresses[..|addresses| - 1], addresses[|addresses| - 1];
      StoredAll(receivers, init);
      assert addresses == init + [last] && HasReceiver(receivers, last);
      assert forall i :: 0 <= i < |init| ==> HasReceiver(receivers, init[i]);
    }
  }

  /** Addresses with receivers at the front are all stored, whatever follows. */
  lemma {:induction false} StoredFirst(receivers: Receivers, x: seq<string>, y: seq<string>)
    requires AllHaveReceivers(receivers, x)
    ensures x <= Stored(receivers, x + y)
    ensures AllHaveReceivers(receivers, Stored(receivers, x + y))
    ensures forall a :: a in Stored(receivers, x + y) ==> a in x || a in y
    ensures Expandable(receivers, y) ==>
              forall a :: a in y && HasReceiver(receivers, a) ==> a in Stored(receivers, x + y)
  {
    if y == [] {
      assert x + y == x;
      StoredAll(receivers, x);
    } else {
      var init, last := y[..|y| - 1], y[|y| - 1];
      assert (x + y)[..|x + y| - 1] == x + init && y == init + [last];
      StoredFirst(receivers, x, init);
      if Expandable(receivers, y) {
        assert forall i :: 0 <= i < |init| ==> init[i] == y[i];
        ExpandableConcat(receivers, x, init);
      }
    }
  }

  lemma ExpandableConcat(receivers: Receivers, x: seq<string>, y: seq<string>)
    requires AllHaveReceivers(receivers, x) && Expandable(receivers, y)
    ensures Expandable(receivers, x + y)
  {
    forall i | 0 <= i < |x + y|
      ensures receivers((x + y)[i]).Some?
    {
      if i < |x| {
        assert HasReceiver(receivers, x[i]);
      } else {
        assert receivers(y[i - |x|]).Some?;
      }
    }
  }

  /** The addresses with a receiver, in order. */
  ghost function WithReceiver(receivers: Receivers, s: seq<string>): seq<string> {
    if s == [] then []
    else
      (if receivers(s[0]).Some? && receivers(s[0]).value > 0 then [s[0]] else []) + WithReceiver(receivers, s[1..])
  }

  lemma {:induction false} WithReceiverLast(receivers: Receivers, s: seq<string>)
    requires s != []
    ensures
      var last := s[|s| - 1];
      WithReceiver(receivers, s) == WithReceiver(receivers, s[..|s| - 1])
                                    + if receivers(last).Some? && receivers(last).value > 0 then [last] else []
  {
    if |s| > 1 {
      WithReceiverLast(receivers, s[1..]);
      assert s[1..][..|s| - 2] == s[..|s| - 1][1..];
    }
  }

  /** All of them can be expanded, and those with a receiver are stored; or
      those before the first that cannot. */
  ghost predicate StoredUpTo(receivers: Receivers, s: seq<string>, n: nat, stored: seq<string>) {
    && n <= |s| && (forall i :: 0 <= i < n ==> receivers(s[i]).Some?) && (n < |s| ==> receivers(s[n]).None?)
    && stored == WithReceiver(receivers, s[..n])
  }

  lemma {:induction false} StoredIs(receivers: Receivers, s: seq<string>) returns (n: nat)
    ensures StoredUpTo(receivers, s, n, Stored(receivers, s)) && (Expandable(receivers, s) <==> n == |s|)
  {
    if s == [] {
      n := 0;
    } else {
      var init := s[..|s| - 1];
      n := StoredIs(receivers, init);
      if n == |init| && receivers(s[|s| - 1]).Some? {
        n := |s|;
        assert s[..n] == s;
        assert init[..|init|] == init;
      } else {
        assert s[..n] == init[..n];
        if n < |init| { assert s[n] == init[n]; }
      }
      WithReceiverLast(receivers, s);
    }
  }

  // ---------------------------------------------------------------------
  // Importing

  /** The addresses that are not there yet. */
  function Missing(had: seq<string>, more: seq<string>): (r: seq<string>)
    ensures forall a :: a in r <==> a in more && a !in had
    ensures NoRepeats(r)
  {
    if more == [] then []
    else
      var init, last := Missing(had, more[..|more| - 1]), more[|more| - 1];
      assert more == more[..|more| - 1] + [last];
      if last in had || last in init then init else init + [last]
  }

  /** The addresses to store for an imported contact. */
  function Merged(book: Book, c: Imported): seq<string> {
    if c.name in book then Dedup(book[c.name].addresses) + Missing(Dedup(book[c.name].addresses), c.addresses)
    else c.addresses
  }

  /** One contact imported; false when an address cannot be expanded, with
      what was stored up to it. */
  function ImportOne(receivers: Receivers, book: Book, c: Imported): (Book, bool) {
    (book[c.name := Entry(c.notes, Stored(receivers, Merged(book, c)))], Expandable(receivers, Merged(book, c)))
  }

  function ImportAll(receivers: Receivers, book: Book, cs: seq<Imported>): (Book, bool) {
    if cs == [] then (book, true)
    else
      var (before, ok) := ImportAll(receivers, book, cs[..|cs| - 1]);
      if !ok then (before, false) else ImportOne(receivers, before, cs[|cs| - 1])
  }

  /** The addresses of both, each once, the known ones first. */
  ghost predicate IsMerged(had: seq<string>, more: seq<string>, merged: seq<string>) {
    && (forall a :: a in merged <==> a in had || a in more)
    && (forall i, j :: 0 <= i < j < |merged| ==> merged[i] != merged[j] && (merged[j] in had ==> merged[i] in had))
  }

  /** An imported contact replaces the notes of its name and nothing of any
      other contact. A known one keeps its addresses before those it lacks. */
  lemma ImportOneStores(receivers: Receivers, book: Book, c: Imported) returns (all: seq<string>, n: nat)
    ensures
      var (book', ok) := ImportOne(receivers, book, c);
      && book'.Keys == book.Keys + {c.name} && book'[c.name].notes == c.notes
      && (forall name :: name in book && name != c.name ==> book'[name] == book[name])
      && (if c.name in book then IsMerged(book[c.name].addresses, c.addresses, all) else all == c.addresses)
      && StoredUpTo(receivers, all, n, book'[c.name].addresses) && (ok <==> n == |all|)
  {
    all := Merged(book, c);
    n := StoredIs(receivers, all);
    if c.name in book {
      var had := book[c.name].addresses;
      MergedOnce(Dedup(had), Missing(Dedup(had), c.addresses));
    }
  }

  lemma MergedOnce(x: seq<string>, y: seq<string>)
    requires NoRepeats(x) && NoRepeats(y) && forall a :: a in y ==> a !in x
    ensures NoRepeats(x + y) && forall i, j :: 0 <= i < j < |x + y| ==> ((x + y)[j] in x ==> (x + y)[i] in x)
  {
    assert forall i :: |x| <= i < |x + y| ==> (x + y)[i] in y;
    assert forall i :: 0 <= i < |x| ==> (x + y)[i] in x;
    NoRepeatsConcat(x, y);
  }

  ghost predicate Reachable(receivers: Receivers, book: Book) {
    forall n :: n in book ==> AllHaveReceivers(receivers, book[n].addresses)
  }

  /** No contact loses an address. */
  ghost predicate KeepsAddresses(book: Book, book': Book) {
    forall n :: n in book ==> n in book' && Dedup(book[n].addresses) <= Dedup(book'[n].addresses)
  }

  lemma {:induction false} DedupPrefix(x: seq<string>, y: seq<string>)
    requires NoRepeats(x) && x <= y
    ensures x <= Dedup(y)
  {
    if x == y {
      DedupSame(x);
    } else {
      DedupPrefix(x, y[..|y| - 1]);
    }
  }

  lemma ImportOneKeeps(receivers: Receivers, book: Book, c: Imported)
    requires Reachable(receivers, book)
    ensures Reachable(receivers, ImportOne(receivers, book, c).0)
    ensures KeepsAddresses(book, ImportOne(receivers, book, c).0)
  {
    var book' := ImportOne(receivers, book, c).0;
    if c.name in book {
      var had := Dedup(book[c.name].addresses);
      DedupReceivers(receivers, book[c.name].addresses);
      StoredFirst(receivers, had, Missing(had, c.addresses));
      DedupPrefix(had, book'[c.name].addresses);
    } else {
      StoredFirst(receivers, [], c.addresses);
      assert [] + c.addresses == c.addresses;
    }
  }

  lemma DedupReceivers(receivers: Receivers, s: seq<string>)
    requires AllHaveReceivers(receivers, s)
    ensures AllHaveReceivers(receivers, Dedup(s))
  {
    forall i | 0 <= i < |Dedup(s)|
      ensures HasReceiver(receivers, Dedup(s)[i])
    {
      assert Dedup(s)[i] in Dedup(s);
    }
  }

  /** An import drops no stored address of any contact, even one that fails
      half-way. */
  lemma {:induction false} ImportNeverDrops(receivers: Receivers, book: Book, cs: seq<Imported>)
    requires Reachable(receivers, book)
    ensures var book' := ImportAll(receivers, book, cs).0;
            Reachable(receivers, book') && KeepsAddresses(book, book')
  {
    if cs != [] {
      var init := cs[..|cs| - 1];
      ImportNeverDrops(receivers, book, init);
      var (before, ok) := ImportAll(receivers, book, init);
      if ok { ImportOneKeeps(receivers, before, cs[|cs| - 1]); }
    }
  }

  // ---------------------------------------------------------------------
  // Importing twice

  ghost predicate Clean(book: Book) {
    forall n :: n in book ==> NoRepeats(book[n].addresses)
  }

  ghost predicate CleanImports(cs: seq<Imported>) {
    forall i :: 0 <= i < |cs| ==> NoRepeats(cs[i].addresses)
  }

  /** The book already holds what the contact brings, but for its notes. */
  ghost predicate Holds(receivers: Receivers, book: Book, c: Imported) {
    && c.name in book && Expandable(receivers, c.addresses)
    && forall a :: a in c.addresses && HasReceiver(receivers, a) ==> a in book[c.name].addresses
  }

  /** The notes of the last contact of this name, or the ones there were. */
  function LastNotes(cs: seq<Imported>, name: string, before: string): string {
    if cs == [] then before
    else if cs[|cs| - 1].name == name then cs[|cs| - 1].notes
    else LastNotes(cs[..|cs| - 1], name, before)
  }

  lemma {:induction false} StoredKeepsOrder(receivers: Receivers, s: seq<string>)
    requires NoRepeats(s)
    ensures NoRepeats(Stored(receivers, s)) && forall a :: a in Stored(receivers, s) ==> a in s
  {
    if s != [] {
      var init, last := s[..|s| - 1], s[|s| - 1];
      assert s == init + [last];
      StoredKeepsOrder(receivers, init);
      assert last !in init;
    }
  }

  lemma ImportOneHolds(receivers: Receivers, book: Book, c: Imported)
    requires Reachable(receivers, book) && Clean(book) && NoRepeats(c.addresses) && ImportOne(receivers, book, c).1
    ensures Clean(ImportOne(receivers, book, c).0) && Holds(receivers, ImportOne(receivers, book, c).0, c)
  {
    hide Stored, Dedup, Missing;
    if c.name in book {
      var had := book[c.name].addresses;
      DedupSame(had);
      var more := Missing(had, c.addresses);
      OneOrTheOther(receivers, had, more, c.addresses);
      StoredFirst(receivers, had, more);
      NoRepeatsConcat(had, more);
      StoredKeepsOrder(receivers, had + more);
    } else {
      StoredFirst(receivers, [], c.addresses);
      assert [] + c.addresses == c.addresses;
      StoredKeepsOrder(receivers, c.addresses);
    }
  }

  lemma NoRepeatsConcat(x: seq<string>, y: seq<string>)
    requires NoRepeats(x) && NoRepeats(y) && forall a :: a in y ==> a !in x
    ensures NoRepeats(x + y)
  {
    forall i, j | 0 <= i < j < |x + y|
      ensures (x + y)[i] != (x + y)[j]
    {
      if i < |x| <= j { assert y[j - |x|] in y && x[i] in x; }
    }
  }

  lemma OneOrTheOther(receivers: Receivers, had: seq<string>, more: seq<string>, all: seq<string>)
    requires AllHaveReceivers(receivers, had) && Expandable(receivers, had + more)
    requires forall a :: a in all ==> a in had || a in more
    ensures Expandable(receivers, more) && Expandable(receivers, all)
  {
    forall i | 0 <= i < |more|
      ensures receivers(more[i]).Some?
    {
      assert (had + more)[|had| + i] == more[i];
    }
    forall i | 0 <= i < |all|
      ensures receivers(all[i]).Some?
    {
      assert all[i] in all;
      if all[i] in had {
        var j :| 0 <= j < |had| && had[j] == all[i];
        assert HasReceiver(receivers, had[j]);
      } else {
        var j :| 0 <= j < |more| && more[j] == all[i];
      }
    }
  }

  /** A contact that the book holds changes its notes only. */
  lemma HeldAddsNothing(receivers: Receivers, book: Book, c: Imported)
    requires Reachable(receivers, book) && Clean(book) && Holds(receivers, book, c)
    ensures ImportOne(receivers, book, c) == (book[c.name := book[c.name].(notes := c.notes)], true)
  {
    var had := book[c.name].addresses;
    DedupSame(had);
    var more := Missing(had, c.addresses);
    forall i | 0 <= i < |more|
      ensures receivers(more[i]).Some? && !HasReceiver(receivers, more[i])
    {
      assert more[i] in more;
      var j :| 0 <= j < |c.addresses| && c.addresses[j] == more[i];
    }
    NothingStored(receivers, had, more);
    ExpandableConcat(receivers, had, more);
  }

  lemma {:induction false} NothingStored(receivers: Receivers, had: seq<string>, more: seq<string>)
    requires AllHaveReceivers(receivers, had)
    requires forall i :: 0 <= i < |more| ==> receivers(more[i]).Some? && !HasReceiver(receivers, more[i])
    ensures Stored(receivers, had + more) == had
  {
    if more == [] {
      assert had + more == had;
      StoredAll(receivers, had);
    } else {
      var init := more[..|more| - 1];
      assert (had + more)[..|had + more| - 1] == had + init;
      NothingStored(receivers, had, init);
    }
  }

  lemma HoldsLater(receivers: Receivers, book: Book, book': Book, c: Imported)
    requires Holds(receivers, book, c) && KeepsAddresses(book, book') && Clean(book) && Clean(book')
    ensures Holds(receivers, book', c)
  {
    DedupSame(book[c.name].addresses);
    DedupSame(book'[c.name].addresses);
  }

  ghost predicate AllHeld(receivers: Receivers, book: Book, cs: seq<Imported>) {
    forall i :: 0 <= i < |cs| ==> Holds(receivers, book, cs[i])
  }

  ghost predicate NotesAre(book: Book, cs: seq<Imported>) {
    forall n, before :: n in book && Names(cs, n) ==> book[n].notes == LastNotes(cs, n, before)
  }

  ghost predicate Names(cs: seq<Imported>, n: string) {
    exists i :: 0 <= i < |cs| && cs[i].name == n
  }

  /** After an import the book holds every contact of it, with the notes of
      the last one of each name. */
  lemma {:induction false} ImportHolds(receivers: Receivers, book: Book, cs: seq<Imported>)
    requires Reachable(receivers, book) && Clean(book) && CleanImports(cs) && ImportAll(receivers, book, cs).1
    ensures var book' := ImportAll(receivers, book, cs).0;
            Reachable(receivers, book') && Clean(book') && AllHeld(receivers, book', cs) && NotesAre(book', cs)
  {
    if cs != [] {
      var init, last := cs[..|cs| - 1], cs[|cs| - 1];
      ImportHolds(receivers, book, init);
      assert forall i :: 0 <= i < |init| ==> init[i] == cs[i];
      var before := ImportAll(receivers, book, init).0;
      ImportOneKeeps(receivers, before, last);
      ImportOneHolds(receivers, before, last);
      HeldLast(receivers, before, ImportOne(receivers, before, last).0, cs);
      NotesLast(before, ImportOne(receivers, before, last).0, cs);
    }
  }

  lemma HeldLast(receivers: Receivers, before: Book, book': Book, cs: seq<Imported>)
    requires cs != [] && AllHeld(receivers, before, cs[..|cs| - 1]) && Holds(receivers, book', cs[|cs| - 1])
    requires KeepsAddresses(before, book') && Clean(before) && Clean(book')
    ensures AllHeld(receivers, book', cs)
  {
    var init := cs[..|cs| - 1];
    forall i | 0 <= i < |cs|
      ensures Holds(receivers, book', cs[i])
    {
      if i < |init| {
        assert cs[i] == init[i];
        HoldsLater(receivers, before, book', cs[i]);
      }
    }
  }

  lemma NotesLast(before: Book, book': Book, cs: seq<Imported>)
    requires cs != [] && NotesAre(before, cs[..|cs| - 1])
    requires var last := cs[|cs| - 1];
             last.name in book' && book'[last.name].notes == last.notes
             && (forall n :: n in book' && n != last.name ==> n in before && book'[n].notes == before[n].notes)
    ensures NotesAre(book', cs)
  {
    var init, last := cs[..|cs| - 1], cs[|cs| - 1];
    forall n, b | n in book' && Names(cs, n)
      ensures book'[n].notes == LastNotes(cs, n, b)
    {
      if n != last.name {
        var i :| 0 <= i < |cs| && cs[i].name == n;
        assert init[i] == cs[i];
        assert Names(init, n);
      }
    }
  }

  /** Importing into a book that holds everything changes the notes only. */
  lemma {:induction false} HeldImport(receivers: Receivers, book: Book, cs: seq<Imported>)
    requires Reachable(receivers, book) && Clean(book) && AllHeld(receivers, book, cs)
    ensures var (book', ok) := ImportAll(receivers, book, cs);
            && ok && book'.Keys == book.Keys
            && forall n :: n in book ==> book'[n] == Entry(LastNotes(cs, n, book[n].notes), book[n].addresses)
  {
    if cs != [] {
      var init, last := cs[..|cs| - 1], cs[|cs| - 1];
      assert AllHeld(receivers, book, init) by { assert forall i :: 0 <= i < |init| ==> init[i] == cs[i]; }
      HeldImport(receivers, book, init);
      var before := ImportAll(receivers, book, init).0;
      assert Holds(receivers, book, last);
      HeldAddsNothing(receivers, before, last);
    }
  }

  /** Importing the same contacts twice leaves the book as importing them once. */
  lemma ImportTwice(receivers: Receivers, book: Book, cs: seq<Imported>)
    requires Reachable(receivers, book) && Clean(book) && CleanImports(cs) && ImportAll(receivers, book, cs).1
    ensures ImportAll(receivers, ImportAll(receivers, book, cs).0, cs) == ImportAll(receivers, book, cs)
  {
    var once := ImportAll(receivers, book, cs).0;
    ImportHolds(receivers, book, cs);
    HeldImport(receivers, once, cs);
    var twice := ImportAll(receivers, once, cs).0;
    forall n | n in once
      ensures twice[n] == once[n]
    {
      if !Names(cs, n) { NotNamed(cs, n, once[n].notes); }
    }
    assert twice == once;
  }

  lemma {:induction false} NotNamed(cs: seq<Imported>, n: string, before: string)
    requires !Names(cs, n)
    ensures LastNotes(cs, n, before) == before
  {
    if cs != [] {
      var init := cs[..|cs| - 1];
      forall i | 0 <= i < |init|
        ensures init[i].name != n
      {
        assert init[i] == cs[i];
      }
      NotNamed(init, n, before);
    }
  }

  // ---------------------------------------------------------------------
  // Statement by statement

  method Merge(had: seq<string>, more: seq<string>) returns (merged: seq<string>)
    ensures merged == had + Missing(had, more)
  {
    merged := had;
    for m := 0 to |more|
      invariant merged == had + Missing(had, more[..m])
    {
      assert more[..m + 1][..m] == more[..m];
      if more[m] !in merged { merged := merged + [more[m]]; }
    }
    assert more[..|more|] == more;
  }

  class Contacts {
    var book: Book

    /** The contact's rows deleted and written again, address by address. */
    method WriteAddresses(receivers: Receivers, name: string, notes: string, addresses: seq<string>) returns (ok: bool)
      modifies this
      ensures book == old(book)[name := Entry(notes, Stored(receivers, addresses))]
      ensures ok == Expandable(receivers, addresses)
    {
      var stored := [];
      book := book[name := Entry(notes, stored)];
      for n := 0 to |addresses|
        invariant Expandable(receivers, addresses[..n]) && stored == Stored(receivers, addresses[..n])
        invariant book == old(book)[name := Entry(notes, stored)]
      {
        assert addresses[..n + 1][..n] == addresses[..n];
        var rows := receivers(addresses[n]);
        if rows.None? {
          StoppedAt(receivers, addresses, n);
          return false;
        }
        if rows.value > 0 {
          stored := stored + [addresses[n]];
          book := book[name := Entry(notes, stored)];
        }
      }
      assert addresses[..|addresses|] == addresses;
      ok := true;
    }

    /** A known contact keeps its addresses, and gets those it lacks. */
    method ImportContact(receivers: Receivers, c: Imported) returns (ok: bool)
      modifies this
      ensures (book, ok) == ImportOne(receivers, old(book), c)
    {
      hide Stored, Expandable, Dedup, Missing;
      var merged := c.addresses;
      if c.name in book {
        merged := Merge(Dedup(book[c.name].addresses), c.addresses);
      }
      ok := WriteAddresses(receivers, c.name, c.notes, merged);
    }

    method Import(receivers: Receivers, cs: seq<Imported>) returns (ok: bool)
      modifies this
      ensures (book, ok) == ImportAll(receivers, old(book), cs)
    {
      hide ImportOne;
      for n := 0 to |cs|
        invariant (book, true) == ImportAll(receivers, old(book), cs[..n])
      {
        assert cs[..n + 1][..n] == cs[..n];
        ok := ImportContact(receivers, cs[n]);
        if !ok {
          FailedAt(receivers, old(book), cs, n + 1);
          return;
        }
      }
      assert cs[..|cs|] == cs;
      ok := true;
    }
  }

  lemma {:induction false} StoppedAt(receivers: Receivers, s: seq<string>, n: nat)
    requires n < |s| && receivers(s[n]).None? && Expandable(receivers, s[..n])
    ensures Stored(receivers, s) == Stored(receivers, s[..n]) && !Expandable(receivers, s)
  {
    if n < |s| - 1 {
      assert s[..|s| - 1][..n] == s[..n] && s[..|s| - 1][n] == s[n];
      StoppedAt(receivers, s[..|s| - 1], n);
    } else {
      assert s[..|s| - 1] == s[..n];
    }
  }

  lemma {:induction false} FailedAt(receivers: Receivers, book: Book, cs: seq<Imported>, n: nat)
    requires n <= |cs| && !ImportAll(receivers, book, cs[..n]).1
    ensures ImportAll(receivers, book, cs) == ImportAll(receivers, book, cs[..n])
  {
    if n < |cs| {
      assert cs[..|cs| - 1][..n] == cs[..n];
      FailedAt(receivers, book, cs[..|cs| - 1], n);
    } else {
      assert cs[..n] == cs;
    }
  }

  // ---------------------------------------------------------------------
  // Listing

  /** A row of the contacts joined with their addresses. */
  datatype Row = Row(id: nat, name: string, notes: string, address: Option<string>)
  datatype Contact = Contact(id: nat, name: string, addresses: seq<string>, notes: string)

  function WithAddress(c: Contact, address: Option<string>): Contact {
    if address.Some? && address.value !in c.addresses then c.(addresses := c.addresses + [address.value]) else c
  }

  predicate Seen(rows: seq<Row>, id: nat) {
    exists i :: 0 <= i < |rows| && rows[i].id == id
  }

  /** A row of a new id begins a contact; any other row adds its address to
      the contact begun last. */
  function Grouped(rows: seq<Row>): (r: seq<Contact>)
    ensures rows != [] ==> r != []
  {
    if rows == [] then []
    else
      var init, last := rows[..|rows| - 1], rows[|rows| - 1];
      var before := Grouped(init);
      if !Seen(init, last.id) then before + [WithAddress(Contact(last.id, last.name, [], last.notes), last.address)]
      else before[|before| - 1 := WithAddress(before[|before| - 1], last.address)]
  }

  method ListContacts(rows: seq<Row>) returns (contacts: seq<Contact>)
    ensures contacts == Grouped(rows)
  {
    contacts := [];
    var current: Option<Contact> := None;
    var seen: set<nat> := {};
    for n := 0 to |rows|
      invariant forall id :: id in seen <==> Seen(rows[..n], id)
      invariant n == 0 <==> current.None?
      invariant Grouped(rows[..n]) == if current.Some? then contacts + [current.value] else contacts
    {
      var row := rows[n];
      assert rows[..n + 1][..n] == rows[..n];
      SeenNext(rows, n);
      if row.id !in seen {
        if current.Some? { contacts := contacts + [current.value]; }
        seen := seen + {row.id};
        current := Some(Contact(row.id, row.name, [], row.notes));
      }
      current := Some(WithAddress(current.value, row.address));
    }
    assert rows[..|rows|] == rows;
    if current.Some? { contacts := contacts + [current.value]; }
  }

  lemma SeenNext(rows: seq<Row>, n: nat)
    requires n < |rows|
    ensures forall id :: Seen(rows[..n + 1], id) <==> Seen(rows[..n], id) || rows[n].id == id
  {
    var before, after := rows[..n], rows[..n + 1];
    forall id
      ensures Seen(after, id) <==> Seen(before, id) || rows[n].id == id
    {
      if i :| 0 <= i < |before| && before[i].id == id { assert after[i].id == id; }
      if i :| 0 <= i < |after| && after[i].id == id {
        if i < n { assert before[i].id == id; }
      }
      assert after[n] == rows[n];
    }
  }

  /** How the query answers: rows of one contact show its columns, names are
      unique, and the rows are sorted by name, in any order of names. */
  ghost predicate FromQuery(order: Order, rows: seq<Row>) {
    && (forall x, y :: order(x, y) && order(y, x) ==> x == y)
    && (forall i, j :: 0 <= i < |rows| && 0 <= j < |rows| && rows[i].id == rows[j].id ==> SameContact(rows[i], rows[j]))
    && (forall i, j :: 0 <= i < |rows| && 0 <= j < |rows| && rows[i].name == rows[j].name ==> rows[i].id == rows[j].id)
    && (forall i, j :: 0 <= i < j < |rows| ==> order(rows[i].name, rows[j].name))
  }

  type Order = (string, string) -> bool

  ghost predicate SameContact(x: Row, y: Row) { x.name == y.name && x.notes == y.notes }

  /** The rows of each contact stand together. */
  ghost predicate Together(rows: seq<Row>) {
    forall i, j, k :: 0 <= i < j < k < |rows| && rows[i].id == rows[k].id ==> rows[j].id == rows[i].id
  }

  lemma SortedTogether(order: Order, rows: seq<Row>)
    requires FromQuery(order, rows)
    ensures Together(rows)
  {
    forall i, j, k | 0 <= i < j < k < |rows| && rows[i].id == rows[k].id
      ensures rows[j].id == rows[i].id
    {
      assert SameContact(rows[i], rows[k]);
      assert order(rows[i].name, rows[j].name) && order(rows[j].name, rows[k].name);
    }
  }

  /** The addresses of the rows of a contact, each once, in order. */
  function AddressesOf(rows: seq<Row>, id: nat): seq<string> {
    if rows == [] then []
    else
      var before, last := AddressesOf(rows[..|rows| - 1], id), rows[|rows| - 1];
      if last.id != id || last.address.None? || last.address.value in before then before
      else before + [last.address.value]
  }

  /** The contact is the one that the rows of its id show. */
  ghost predicate Describes(rows: seq<Row>, c: Contact) {
    && Seen(rows, c.id) && c.addresses == AddressesOf(rows, c.id)
    && forall r :: 0 <= r < |rows| && rows[r].id == c.id ==> c.name == rows[r].name && c.notes == rows[r].notes
  }

  ghost predicate GroupsOf(order: Order, rows: seq<Row>, contacts: seq<Contact>) {
    && (forall i :: 0 <= i < |contacts| ==> Describes(rows, contacts[i]))
    && (forall i, j :: 0 <= i < j < |contacts| ==>
          contacts[i].id != contacts[j].id && order(contacts[i].name, contacts[j].name))
    && (forall r :: 0 <= r < |rows| ==> exists i :: 0 <= i < |contacts| && contacts[i].id == rows[r].id)
    && (rows != [] ==> contacts != [] && contacts[|contacts| - 1].id == rows[|rows| - 1].id)
  }

  lemma {:induction false} NoAddresses(rows: seq<Row>, id: nat)
    requires !Seen(rows, id)
    ensures AddressesOf(rows, id) == []
  {
    if rows != [] {
      var init := rows[..|rows| - 1];
      forall i | 0 <= i < |init|
        ensures init[i].id != id
      {
        assert init[i] == rows[i];
      }
      NoAddresses(init, id);
    }
  }

  /** The list has one contact per id, in the order of names, with exactly that
      contact's name, notes and addresses. */
  lemma {:induction false} ListedOnce(order: Order, rows: seq<Row>)
    requires FromQuery(order, rows)
    ensures GroupsOf(order, rows, Grouped(rows))
  {
    if rows != [] {
      var init := rows[..|rows| - 1];
      assert FromQuery(order, init) by { assert forall i :: 0 <= i < |init| ==> init[i] == rows[i]; }
      ListedOnce(order, init);
      NextRow(order, rows, Grouped(init));
    }
  }

  lemma NextRow(order: Order, rows: seq<Row>, before: seq<Contact>)
    requires FromQuery(order, rows) && rows != [] && before == Grouped(rows[..|rows| - 1])
    requires GroupsOf(order, rows[..|rows| - 1], before)
    ensures GroupsOf(order, rows, Grouped(rows))
  {
    hide GroupsOf, AddressesOf, FromQuery;
    var init, last := rows[..|rows| - 1], rows[|rows| - 1];
    SeenNext(rows, |rows| - 1);
    assert rows[..|rows|] == rows;
    if Seen(init, last.id) {
      SortedTogether(order, rows);
      SameAsLast(rows);
      AddToLast(order, rows, before);
    } else {
      NoAddresses(init, last.id);
      NewContact(order, rows, before);
    }
  }

  lemma SameAsLast(rows: seq<Row>)
    requires Together(rows) && rows != [] && Seen(rows[..|rows| - 1], rows[|rows| - 1].id)
    ensures |rows| >= 2 && rows[|rows| - 2].id == rows[|rows| - 1].id
  {
    var i :| 0 <= i < |rows| - 1 && rows[..|rows| - 1][i].id == rows[|rows| - 1].id;
    assert rows[i].id == rows[|rows| - 1].id;
  }

  /** A row of another contact adds nothing to this one. */
  lemma DescribesMore(rows: seq<Row>, c: Contact)
    requires rows != [] && Describes(rows[..|rows| - 1], c) && c.id != rows[|rows| - 1].id
    ensures Describes(rows, c)
  {
    var init := rows[..|rows| - 1];
    assert forall r :: 0 <= r < |init| ==> init[r] == rows[r];
  }

  lemma DescribesNext(order: Order, rows: seq<Row>, c: Contact)
    requires FromQuery(order, rows) && rows != [] && Describes(rows[..|rows| - 1], c) && c.id == rows[|rows| - 1].id
    ensures Describes(rows, WithAddress(c, rows[|rows| - 1].address))
  {
    var init, n := rows[..|rows| - 1], |rows| - 1;
    assert forall r :: 0 <= r < |init| ==> init[r] == rows[r];
    var r :| 0 <= r < |init| && init[r].id == c.id;
    assert SameContact(rows[r], rows[n]);
  }

  lemma AddToLast(order: Order, rows: seq<Row>, before: seq<Contact>)
    requires FromQuery(order, rows) && |rows| >= 2 && rows[|rows| - 2].id == rows[|rows| - 1].id
    requires GroupsOf(order, rows[..|rows| - 1], before)
    ensures before != []
    ensures GroupsOf(order, rows, before[|before| - 1 := WithAddress(before[|before| - 1], rows[|rows| - 1].address)])
  {
    hide Describes;
    var init, last := rows[..|rows| - 1], rows[|rows| - 1];
    assert init[|init| - 1] == rows[|rows| - 2];
    var after := before[|before| - 1 := WithAddress(before[|before| - 1], last.address)];
    forall i | 0 <= i < |after|
      ensures Describes(rows, after[i])
    {
      if i < |before| - 1 { DescribesMore(rows, before[i]); } else { DescribesNext(order, rows, before[i]); }
    }
    hide FromQuery;
    forall r | 0 <= r < |rows|
      ensures exists i :: 0 <= i < |after| && after[i].id == rows[r].id
    {
      var q := if r < |init| then r else r - 1;
      var i :| 0 <= i < |before| && before[i].id == init[q].id;
      assert after[i].id == rows[r].id;
    }
  }

  lemma NewDescribes(order: Order, rows: seq<Row>)
    requires FromQuery(order, rows) && rows != [] && AddressesOf(rows[..|rows| - 1], rows[|rows| - 1].id) == []
    ensures var last := rows[|rows| - 1];
            Describes(rows, WithAddress(Contact(last.id, last.name, [], last.notes), last.address))
  {
    var last := rows[|rows| - 1];
    forall r | 0 <= r < |rows| && rows[r].id == last.id
      ensures SameContact(rows[r], last)
    {}
  }

  lemma NamesBefore(order: Order, rows: seq<Row>, c: Contact)
    requires FromQuery(order, rows) && rows != [] && Describes(rows[..|rows| - 1], c)
    ensures order(c.name, rows[|rows| - 1].name)
  {
    var init := rows[..|rows| - 1];
    var r :| 0 <= r < |init| && init[r].id == c.id;
    assert c.name == rows[r].name;
  }

  lemma OldContact(order: Order, rows: seq<Row>, c: Contact)
    requires FromQuery(order, rows) && rows != [] && Describes(rows[..|rows| - 1], c)
    requires !Seen(rows[..|rows| - 1], rows[|rows| - 1].id)
    ensures Describes(rows, c) && c.id != rows[|rows| - 1].id && order(c.name, rows[|rows| - 1].name)
  {
    hide FromQuery;
    DescribesMore(rows, c);
    NamesBefore(order, rows, c);
  }

  lemma NewContact(order: Order, rows: seq<Row>, before: seq<Contact>)
    requires FromQuery(order, rows) && rows != [] && GroupsOf(order, rows[..|rows| - 1], before)
    requires !Seen(rows[..|rows| - 1], rows[|rows| - 1].id)
    requires AddressesOf(rows[..|rows| - 1], rows[|rows| - 1].id) == []
    ensures var last := rows[|rows| - 1];
            GroupsOf(order, rows, before + [WithAddress(Contact(last.id, last.name, [], last.notes), last.address)])
  {
    hide FromQuery, Describes, Seen, AddressesOf;
    var init, last := rows[..|rows| - 1], rows[|rows| - 1];
    var after := before + [WithAddress(Contact(last.id, last.name, [], last.notes), last.address)];
    forall i | 0 <= i < |before|
      ensures Describes(rows, before[i]) && before[i].id != last.id && order(before[i].name, last.name)
    {
      OldContact(order, rows, before[i]);
    }
    NewDescribes(order, rows);
    forall r | 0 <= r < |rows|
      ensures exists i :: 0 <= i < |after| && after[i].id == rows[r].id
    {
      if r < |init| {
        var i :| 0 <= i < |before| && before[i].id == init[r].id;
        assert after[i].id == rows[r].id;
      } else {
        assert after[|before|].id == rows[r].id;
      }
    }
  }
}
