/** The OA1 record parser. Strings are sequences of Unicode scalar values;
    every delimiter is ASCII, so cutting at bytes and cutting at characters
    are the same thing. */
module OpenAlias {
  import opened Wrappers
  import opened Trimming

  // ---------------------------------------------------------------------
  // Splitting on unquoted semicolons

  /** Whether s holds an odd number of quotes. */
  predicate OpenQuote(s: string) {
    s != "" && OpenQuote(s[..|s| - 1]) != (s[|s| - 1] == '\"')
  }

  /** A semicolon with an even number of quotes before it. */
  predicate IsCut(s: string, i: nat)
    requires i < |s|
  {
    s[i] == ';' && !OpenQuote(s[..i])
  }

  ghost predicate NoCut(s: string) {
    forall i: nat :: i < |s| ==> !IsCut(s, i)
  }

  /** The index of the first cut at or after `from`, or |s|. */
  function NextCut(s: string, from: nat): (c: nat)
    requires from <= |s|
    ensures from <= c <= |s|
    ensures c < |s| ==> IsCut(s, c)
    ensures forall i: nat :: from <= i < c ==> !IsCut(s, i)
    decreases |s| - from
  {
    if from == |s| || IsCut(s, from) then from else NextCut(s, from + 1)
  }

  /** The text between the cuts. */
  function Segments(s: string): (segments: seq<string>)
    ensures segments != []
    decreases |s|
  {
    var c := NextCut(s, 0);
    if c == |s| then [s] else [s[..c]] + Segments(s[c + 1..])
  }

  function Kept(segment: string): seq<string> {
    var pair := TrimStart(segment);
    if pair == "" then [] else [pair]
  }

  /** The segments, left-trimmed, without the empty ones. */
  function KeptAll(segments: seq<string>): seq<string> {
    if segments == [] then [] else Kept(segments[0]) + KeptAll(segments[1..])
  }

  /** Pushes the left-trimmed segment unless it is empty. */
  method Push(pairs: seq<string>, segment: string) returns (r: seq<string>)
    ensures r == pairs + Kept(segment)
  {
    var pair := TrimStart(segment);
    r := if pair == "" then pairs else pairs + [pair];
  }

  method SplitPairs(body: string) returns (pairs: seq<string>)
    ensures pairs == KeptAll(Segments(body))
  {
    hide Scanned;
    pairs := [];
    var start: nat, inQuotes := 0, false;
    ScanStart(body);
    for i := 0 to |body|
      invariant start <= i && Scanned(body, start, i, inQuotes, pairs)
    {
      ScanStep(body, start, i, inQuotes, pairs);
      if body[i] == '\"' {
        inQuotes := !inQuotes;
      } else if body[i] == ';' && !inQuotes {
        pairs := Push(pairs, body[start..i]);
        start := i + 1;
      }
    }
    ScanEnd(body, start, inQuotes, pairs);
    pairs := Push(pairs, body[start..]);
  }

  /** The state of the scan: no cut between `start` and `i`, and `pairs` is
      what the text before `start` contributes. */
  ghost predicate Scanned(body: string, start: nat, i: nat, inQuotes: bool, pairs: seq<string>)
  {
    && start <= i <= |body|
    && KeptAll(Segments(body)) == pairs + KeptAll(Segments(body[start..]))
    && i - start <= NextCut(body[start..], 0)
    && inQuotes == OpenQuote(body[start..i])
  }

  lemma ScanStart(body: string)
    ensures Scanned(body, 0, 0, false, [])
  {
    assert body[0..] == body;
  }

  lemma ScanStep(body: string, start: nat, i: nat, inQuotes: bool, pairs: seq<string>)
    requires i < |body| && Scanned(body, start, i, inQuotes, pairs)
    ensures if body[i] == '\"' then Scanned(body, start, i + 1, !inQuotes, pairs)
            else if body[i] == ';' && !inQuotes then Scanned(body, i + 1, i + 1, false, pairs + Kept(body[start..i]))
            else Scanned(body, start, i + 1, inQuotes, pairs)
  {
    QuoteStep(body, start, i);
    if body[i] == ';' && !inQuotes {
      CutStep(body, start, i, pairs);
    }
  }

  lemma ScanEnd(body: string, start: nat, inQuotes: bool, pairs: seq<string>)
    requires start <= |body| && Scanned(body, start, |body|, inQuotes, pairs)
    ensures KeptAll(Segments(body)) == pairs + Kept(body[start..])
  {
    LastStep(body[start..]);
  }

  lemma LastStep(s: string)
    requires |s| <= NextCut(s, 0)
    ensures KeptAll(Segments(s)) == Kept(s)
  {
    SegmentsStep(s);
  }

  lemma CutStep(body: string, start: nat, i: nat, pairs: seq<string>)
    requires start <= i < |body| && IsCut(body[start..], i - start)
    requires i - start <= NextCut(body[start..], 0)
    requires KeptAll(Segments(body)) == pairs + KeptAll(Segments(body[start..]))
    ensures KeptAll(Segments(body)) == pairs + Kept(body[start..i]) + KeptAll(Segments(body[i + 1..]))
    ensures !OpenQuote(body[i + 1..i + 1])
  {
    CutKept(body, start, i);
    Associative(pairs, Kept(body[start..i]), KeptAll(Segments(body[i + 1..])));
  }

  lemma CutKept(body: string, start: nat, i: nat)
    requires start <= i < |body| && IsCut(body[start..], i - start)
    requires i - start <= NextCut(body[start..], 0)
    ensures KeptAll(Segments(body[start..])) == Kept(body[start..i]) + KeptAll(Segments(body[i + 1..]))
  {
    var rest := body[start..];
    NoCutStep(rest, i - start);
    SegmentsStep(rest);
    assert rest[..i - start] == body[start..i] && rest[i - start + 1..] == body[i + 1..];
  }

  lemma NoCutStep(s: string, k: nat)
    requires k < |s| && k <= NextCut(s, 0)
    ensures !IsCut(s, k) ==> k + 1 <= NextCut(s, 0)
    ensures IsCut(s, k) ==> k == NextCut(s, 0)
  {}

  lemma Associative(a: seq<string>, b: seq<string>, c: seq<string>)
    ensures a + (b + c) == a + b + c
  {}

  lemma SegmentsStep(s: string)
    ensures
      var c := NextCut(s, 0);
      KeptAll(Segments(s)) == if c == |s| then Kept(s) else Kept(s[..c]) + KeptAll(Segments(s[c + 1..]))
  {
    var c := NextCut(s, 0);
    if c == |s| {
      KeptAllCons(s, []);
    } else {
      KeptAllCons(s[..c], Segments(s[c + 1..]));
    }
  }

  lemma KeptAllCons(h: string, t: seq<string>)
    ensures KeptAll([h] + t) == Kept(h) + KeptAll(t)
  {
    assert ([h] + t)[1..] == t;
  }

  lemma QuoteStep(body: string, start: nat, i: nat)
    requires start <= i < |body| && i - start <= NextCut(body[start..], 0)
    ensures IsCut(body[start..], i - start) || i + 1 - start <= NextCut(body[start..], 0)
    ensures OpenQuote(body[start..i + 1]) <==> OpenQuote(body[start..i]) != (body[i] == '\"')
    ensures IsCut(body[start..], i - start) <==> body[i] == ';' && !OpenQuote(body[start..i])
  {
    assert body[start..][..i - start] == body[start..i];
    assert body[start..i + 1][..i - start] == body[start..i];
    NoCutStep(body[start..], i - start);
  }

  lemma FirstCut(s: string, c: nat)
    requires c < |s| && IsCut(s, c) && forall i: nat :: i < c ==> !IsCut(s, i)
    ensures Segments(s) == [s[..c]] + Segments(s[c + 1..])
  {
    assert NextCut(s, 0) == c;
  }

  function Join(segments: seq<string>): string
    requires segments != []
  {
    if |segments| == 1 then segments[0] else segments[0] + ";" + Join(segments[1..])
  }

  /** What it is to cut s at its unquoted semicolons and nowhere else. */
  ghost predicate IsSplit(s: string, segments: seq<string>) {
    && segments != []
    && Join(segments) == s
    && (forall k :: 0 <= k < |segments| ==> NoCut(segments[k]))
    && (forall k :: 0 <= k < |segments| - 1 ==> !OpenQuote(segments[k]))
  }

  lemma {:induction false} SegmentsSplit(s: string)
    ensures IsSplit(s, Segments(s))
    decreases |s|
  {
    var c := NextCut(s, 0);
    if c < |s| {
      SegmentsSplit(s[c + 1..]);
      assert Segments(s)[1..] == Segments(s[c + 1..]);
      assert s == s[..c] + ";" + s[c + 1..];
      CutInPrefix(s, c);
    }
  }

  lemma CutInPrefix(s: string, n: nat)
    requires n <= |s|
    ensures forall i: nat :: i < n ==> (IsCut(s[..n], i) <==> IsCut(s, i))
  {
    forall i: nat | i < n
      ensures IsCut(s[..n], i) <==> IsCut(s, i)
    {
      assert s[..n][..i] == s[..i];
    }
  }

  /** A quote-balanced piece without cuts, then a semicolon: the first segment. */
  lemma HeadSegment(h: string, t: string)
    requires NoCut(h) && !OpenQuote(h)
    ensures Segments(h + ";" + t) == [h] + Segments(t)
  {
    var s := h + ";" + t;
    assert s[..|h|] == h && s[|h| + 1..] == t;
    CutInPrefix(s, |h|);
    FirstCut(s, |h|);
  }

  /** For every string: `Segments` is the one way to cut it so that joining
      with semicolons gives it back, no piece holds an unquoted semicolon,
      and each piece but the last closes its quotes. */
  lemma {:induction false} SegmentsAreTheSplit(s: string, segments: seq<string>)
    ensures IsSplit(s, segments) <==> segments == Segments(s)
    decreases |segments|
  {
    SegmentsSplit(s);
    if IsSplit(s, segments) {
      if |segments| == 1 {
        assert NextCut(s, 0) == |s|;
      } else {
        var t := Join(segments[1..]);
        HeadSegment(segments[0], t);
        SegmentsAreTheSplit(t, segments[1..]);
      }
    }
  }

  // ---------------------------------------------------------------------
  // One pair

  /** The index of the first c in s, or |s|. */
  function IndexOf(s: string, c: char): (i: nat)
    ensures i <= |s| && c !in s[..i]
    ensures i < |s| ==> s[i] == c
  {
    if s == "" || s[0] == c then 0 else 1 + IndexOf(s[1..], c)
  }

  function SplitOnce(s: string, c: char): Option<(string, string)> {
    var i := IndexOf(s, c);
    if i == |s| then None else Some((s[..i], s[i + 1..]))
  }

  /** Every backslash-space becomes a space, left to right. */
  function Replace(s: string): string {
    if |s| < 2 then s
    else if s[..2] == "\\ " then " " + Replace(s[2..])
    else [s[0]] + Replace(s[1..])
  }

  predicate EndsWithEscape(s: string) {
    |s| >= 2 && s[|s| - 2..] == "\\ "
  }

  function UnescapeTail(s: string): string {
    if EndsWithEscape(s) then UnescapeTail(s[..|s| - 2]) + " " else Replace(TrimEnd(s))
  }

  function Unescape(raw: string): string {
    UnescapeTail(TrimStart(raw))
  }

  method UnescapeValue(raw: string) returns (value: string)
    ensures value == Unescape(raw)
  {
    var raw := TrimStart(raw);
    var tail := "";
    var end := |raw|;
    assert raw[..|raw|] == raw;
    while EndsWithEscape(raw[..end])
      invariant 0 <= end <= |raw|
      invariant forall i :: 0 <= i < |tail| ==> tail[i] == ' '
      invariant UnescapeTail(raw) == UnescapeTail(raw[..end]) + tail
      decreases end
    {
      assert raw[..end][..end - 2] == raw[..end - 2];
      assert " " + tail == tail + " ";
      end := end - 2;
      tail := tail + " ";
    }
    value := Replace(TrimEnd(raw[..end])) + tail;
  }

  /** The value inside its quotes, or the unescaped value. */
  function PairValue(val: string): string {
    var trimmed := Trim(val);
    if |trimmed| >= 2 && trimmed[0] == '\"' && trimmed[|trimmed| - 1] == '\"'
    then Replace(trimmed[1..|trimmed| - 1])
    else Unescape(val)
  }

  function ParsePair(pair: string): Option<(string, string)> {
    match SplitOnce(pair, '=')
    case None => None
    case Some((key, val)) => Some((Trim(key), PairValue(val)))
  }

  // ---------------------------------------------------------------------
  // Printing

  datatype Style = Quoted | Escaped

  /** One printed pair: its key, its value, how the value is written, and the
      white space before the key, before the equals sign, and on either side
      of the value. */
  datatype Entry = Entry(pad: string, key: string, keyPad: string, gap: string, value: string, tail: string,
    style: Style)

  function Escape(v: string): string {
    if v == "" then "" else (if v[0] == ' ' then "\\ " else [v[0]]) + Escape(v[1..])
  }

  function PrintValue(e: Entry): string {
    match e.style
    case Quoted => "\"" + e.value + "\""
    case Escaped => Escape(e.value)
  }

  function PrintPair(e: Entry): string {
    e.key + e.keyPad + "=" + (e.gap + PrintValue(e) + e.tail)
  }

  function PrintAll(entries: seq<Entry>): string {
    if entries == [] then ""
    else entries[0].pad + PrintPair(entries[0]) + ";" + PrintAll(entries[1..])
  }

  ghost predicate NoEscape(v: string) {
    forall i :: 0 <= i < |v| - 1 ==> !(v[i] == '\\' && v[i + 1] == ' ')
  }

  /** What each style can carry: between quotes, anything without a quote and
      without a backslash-space; escaped, anything without a quote or a
      semicolon whose only whitespace is the space, and before white space
      nothing that ends with a space or a backslash. */
  ghost predicate Printable(e: Entry) {
    && AllWhite(e.pad) && AllWhite(e.keyPad) && AllWhite(e.gap) && AllWhite(e.tail)
    && '=' !in e.key && '\"' !in e.key && ';' !in e.key && Trim(e.key) == e.key && (e.key == "" ==> e.keyPad == "")
    && '\"' !in e.value
    && match e.style
       case Quoted => NoEscape(e.value)
       case Escaped => ';' !in e.value && OnlySpaces(e.value) && (e.tail == "" || EndsPlain(e.value))
  }

  ghost predicate OnlySpaces(v: string) {
    forall i :: 0 <= i < |v| && IsWhite(v[i]) ==> v[i] == ' '
  }

  ghost predicate EndsPlain(v: string) {
    v == "" || (v[|v| - 1] != ' ' && v[|v| - 1] != '\\')
  }

  lemma {:induction false} ReplaceEscaped(v: string)
    ensures Replace(Escape(v)) == v
    ensures v != "" ==> Escape(v) != "" && Escape(v)[0] != ' '
  {
    if v != "" {
      ReplaceEscaped(v[1..]);
      var rest := Escape(v[1..]);
      if v[0] == ' ' {
        assert Escape(v)[..2] == "\\ " && Escape(v)[2..] == rest;
      } else {
        assert Escape(v)[1..] == rest;
        assert |Escape(v)| >= 2 ==> Escape(v)[..2][1] == rest[0];
      }
    }
  }

  lemma {:induction false} ReplacePlain(v: string)
    requires NoEscape(v)
    ensures Replace(v) == v
  {
    if |v| >= 2 {
      assert v[..2] == [v[0], v[1]];
      ReplacePlain(v[1..]);
    }
  }

  lemma {:induction false} EscapeLast(v: string)
    requires v != ""
    ensures Escape(v) == Escape(v[..|v| - 1]) + if v[|v| - 1] == ' ' then "\\ " else [v[|v| - 1]]
  {
    if |v| > 1 {
      EscapeLast(v[1..]);
      assert v[..|v| - 1][1..] == v[1..][..|v| - 2];
    }
  }

  lemma {:induction false} UnescapeTailEscaped(v: string)
    requires forall i :: 0 <= i < |v| && IsWhite(v[i]) ==> v[i] == ' '
    ensures UnescapeTail(Escape(v)) == v
    decreases |v|
  {
    if v == "" {
    } else if v[|v| - 1] == ' ' {
      var w := v[..|v| - 1];
      EscapeLast(v);
      UnescapeTailEscaped(w);
      assert Escape(v)[..|Escape(w)|] == Escape(w) && Escape(v)[|Escape(w)|..] == "\\ ";
    } else {
      var e := Escape(v);
      EscapeLast(v);
      ReplaceEscaped(v);
      assert e[|e| - 1] == v[|v| - 1];
      assert TrimEnd(e) == e && !EndsWithEscape(e);
    }
  }

  /** Escaping is undone whole, spaces at either end and all-space values
      included. */
  lemma EscapeRoundTrip(v: string)
    requires forall i :: 0 <= i < |v| && IsWhite(v[i]) ==> v[i] == ' '
    ensures Unescape(Escape(v)) == v
  {
    UnescapeTailEscaped(v);
    EscapeStart(v);
  }

  /** And white space around an escaped value is dropped. */
  lemma EscapePadded(gap: string, v: string, tail: string)
    requires AllWhite(gap) && AllWhite(tail) && OnlySpaces(v) && (tail == "" || EndsPlain(v))
    ensures Unescape(gap + Escape(v) + tail) == v
  {
    var e := Escape(v);
    ReplaceEscaped(v);
    if v == "" {
      TrimStartPadded(gap + tail, "");
      assert gap + e + tail == gap + tail + "";
    } else {
      assert !IsWhite(e[0]) && gap + e + tail == gap + (e + tail);
      TrimStartPadded(gap, e + tail);
      if tail == "" {
        assert e + tail == e;
        UnescapeTailEscaped(v);
      } else {
        EscapeLast(v);
        assert e[|e| - 1] == v[|v| - 1];
        WhiteIsNoDelimiter(tail);
        NoEscapeAtEnd(e, tail);
        TrimEndPadded(e, tail);
      }
    }
  }

  lemma NoEscapeAtEnd(e: string, tail: string)
    requires e != "" && e[|e| - 1] != '\\' && tail != "" && '\\' !in tail
    ensures !EndsWithEscape(e + tail)
  {
    var s := e + tail;
    assert s[|s| - 2] == if |tail| >= 2 then tail[|tail| - 2] else e[|e| - 1];
    assert s[|s| - 2..][0] == s[|s| - 2];
  }

  lemma EscapeStart(v: string)
    requires v != "" && IsWhite(v[0]) ==> v[0] == ' '
    ensures TrimStart(Escape(v)) == Escape(v)
  {
    if v != "" {
      assert Escape(v)[0] == '\\' || Escape(v)[0] == v[0] != ' ';
    }
  }

  lemma {:induction false} EscapeAdds(v: string, c: char)
    requires c !in v && c != '\\' && c != ' '
    ensures c !in Escape(v)
  {
    if v != "" {
      EscapeAdds(v[1..], c);
    }
  }

  lemma SplitOnceFirst(h: string, c: char, t: string)
    requires c !in h
    ensures SplitOnce(h + [c] + t, c) == Some((h, t))
  {
    var s := h + [c] + t;
    var i := IndexOf(s, c);
    assert s[|h|] == c;
    assert s[..|h|] == h && s[|h| + 1..] == t;
  }

  /** A printed pair parses back to its key and its value. */
  lemma PairRoundTrip(e: Entry)
    requires Printable(e)
    ensures ParsePair(PrintPair(e)) == Some((e.key, e.value))
  {
    var v := e.gap + PrintValue(e) + e.tail;
    WhiteIsNoDelimiter(e.keyPad);
    SplitOnceFirst(e.key + e.keyPad, '=', v);
    KeyTrimmed(e.key, e.keyPad);
    if e.style.Quoted? {
      var q := PrintValue(e);
      TrimPadded(e.gap, q, e.tail);
      assert q[1..|q| - 1] == e.value;
      ReplacePlain(e.value);
    } else {
      EscapeAdds(e.value, '\"');
      WhiteIsNoDelimiter(e.gap);
      WhiteIsNoDelimiter(e.tail);
      TrimIsInside(v, '\"');
      TrimIsInside(TrimStart(v), '\"');
      assert Trim(v) != "" ==> Trim(v)[0] != '\"';
      EscapePadded(e.gap, e.value, e.tail);
    }
  }

  lemma QuotedValue(gap: string, q: string, tail: string)
    requires AllWhite(gap) && AllWhite(tail)
    ensures PairValue(gap + ("\"" + q + "\"") + tail) == Replace(q)
  {
    hide Replace, Unescape;
    var t := "\"" + q + "\"";
    TrimPadded(gap, t, tail);
    hide Trim;
    assert t[1..|t| - 1] == q;
  }

  /** Escaped spaces inside quotes are read as spaces too, and all of them are
      kept, at both ends. */
  lemma QuotedEscapes(key: string, gap: string, v: string, tail: string)
    requires '=' !in key && AllWhite(gap) && AllWhite(tail)
    ensures ParsePair(key + ['='] + (gap + ("\"" + Escape(v) + "\"") + tail)) == Some((Trim(key), v))
  {
    hide Trim, Replace, Escape, AllWhite, PairValue, SplitOnce;
    SplitOnceFirst(key, '=', gap + ("\"" + Escape(v) + "\"") + tail);
    QuotedValue(gap, Escape(v), tail);
    ReplaceEscaped(v);
  }

  lemma KeyTrimmed(key: string, pad: string)
    requires Trim(key) == key && AllWhite(pad)
    ensures Trim(key + pad) == key
  {
    if key != "" { TrimmedText(key); }
    TrimPadded("", key, pad);
    assert "" + key + pad == key + pad;
  }

  // ---------------------------------------------------------------------
  // Cutting what was printed

  lemma {:induction false} QuoteFree(s: string)
    requires '\"' !in s
    ensures !OpenQuote(s)
  {
    if s != "" {
      QuoteFree(s[..|s| - 1]);
    }
  }

  lemma {:induction false} OneQuote(h: string, t: string)
    requires '\"' !in h && '\"' !in t
    ensures OpenQuote(h + "\"" + t)
  {
    var s := h + "\"" + t;
    if t == "" {
      assert s[..|s| - 1] == h;
      QuoteFree(h);
    } else {
      assert s[..|s| - 1] == h + "\"" + t[..|t| - 1];
      OneQuote(h, t[..|t| - 1]);
    }
  }

  lemma PrintedIsOneSegment(e: Entry)
    requires Printable(e)
    ensures NoCut(e.pad + PrintPair(e)) && !OpenQuote(e.pad + PrintPair(e))
  {
    var h := e.pad + e.key + e.keyPad + "=" + e.gap;
    assert e.pad + PrintPair(e) == h + PrintValue(e) + e.tail;
    WhiteIsNoDelimiter(e.pad);
    WhiteIsNoDelimiter(e.keyPad);
    WhiteIsNoDelimiter(e.gap);
    WhiteIsNoDelimiter(e.tail);
    hide AllWhite, Trim;
    if e.style.Escaped? {
      EscapeAdds(e.value, '\"');
      EscapeAdds(e.value, ';');
      QuoteFree(h + Escape(e.value) + e.tail);
    } else {
      QuotedIsOneSegment(h, e.value);
      TailAdds(h + ("\"" + e.value + "\""), e.tail);
    }
  }

  /** White space after a piece that closes its quotes. */
  lemma {:induction false} TailAdds(s: string, tail: string)
    requires NoCut(s) && !OpenQuote(s) && '\"' !in tail && ';' !in tail
    ensures NoCut(s + tail) && !OpenQuote(s + tail)
  {
    if tail == "" {
      assert s + tail == s;
    } else {
      var init := tail[..|tail| - 1];
      TailAdds(s, init);
      var t := s + tail;
      assert t[..|t| - 1] == s + init;
      CutInPrefix(t, |t| - 1);
      forall i: nat | i < |t|
        ensures !IsCut(t, i)
      {
        if i < |t| - 1 { assert !IsCut(s + init, i); }
      }
    }
  }

  lemma QuotedIsOneSegment(h: string, v: string)
    requires '\"' !in h && '\"' !in v && ';' !in h
    ensures NoCut(h + ("\"" + v + "\"")) && !OpenQuote(h + ("\"" + v + "\""))
  {
    var s := h + ("\"" + v + "\"");
    OneQuote(h, v);
    assert s[..|s| - 1] == h + "\"" + v;
    forall i: nat | i < |s| && s[i] == ';'
      ensures OpenQuote(s[..i])
    {
      var n := i - |h| - 1;
      assert s[..i] == h + "\"" + v[..n];
      OneQuote(h, v[..n]);
    }
  }

  function PrintedPairs(entries: seq<Entry>): seq<string> {
    if entries == [] then [] else [PrintPair(entries[0])] + PrintedPairs(entries[1..])
  }

  lemma KeptPrinted(e: Entry)
    requires Printable(e)
    ensures Kept(e.pad + PrintPair(e)) == [PrintPair(e)]
  {
    TrimmedKey(e.key);
    TrimStartPadded(e.pad, PrintPair(e));
  }

  lemma TrimmedKey(key: string)
    requires Trim(key) == key
    ensures key != "" ==> !IsWhite(key[0])
  {
    TrimShrinks(key);
    TrimShrinks(TrimStart(key));
  }

  /** Cutting a printed record gives back exactly the printed pairs. */
  lemma {:induction false} SplitPrinted(entries: seq<Entry>)
    requires forall k :: 0 <= k < |entries| ==> Printable(entries[k])
    ensures KeptAll(Segments(PrintAll(entries))) == PrintedPairs(entries)
  {
    if entries == [] {
      LastStep("");
    } else {
      var e, rest := entries[0], PrintAll(entries[1..]);
      PrintedIsOneSegment(e);
      assert PrintAll(entries) == (e.pad + PrintPair(e)) + ";" + rest;
      HeadSegment(e.pad + PrintPair(e), rest);
      KeptAllCons(e.pad + PrintPair(e), Segments(rest));
      KeptPrinted(e);
      SplitPrinted(entries[1..]);
    }
  }

  // ---------------------------------------------------------------------
  // The record

  datatype Record = Record(cryptocurrency: string, address: string, description: Option<string>)

  /** The value of the last pair with this key. */
  function LastValue(pairs: seq<(string, string)>, key: string): Option<string> {
    if pairs == [] then None
    else
      var last := pairs[|pairs| - 1];
      if last.0 == key then Some(last.1) else LastValue(pairs[..|pairs| - 1], key)
  }

  predicate AllParse(pairs: seq<string>) {
    forall k :: 0 <= k < |pairs| ==> ParsePair(pairs[k]).Some?
  }

  function ParseAll(pairs: seq<string>): (r: seq<(string, string)>)
    requires AllParse(pairs)
    ensures |r| == |pairs|
  {
    if pairs == [] then []
    else ParseAll(pairs[..|pairs| - 1]) + [ParsePair(pairs[|pairs| - 1]).value]
  }

  const PREFIX := "oa1:"
  const ADDRESS := "recipient_address"
  const DESCRIPTION := "tx_description"

  predicate IsCrypto(s: string) {
    s != "" && forall i :: 0 <= i < |s| ==> 'a' <= s[i] <= 'z'
  }

  /** The cryptocurrency and the pairs of a record, or None when it is not
      one. */
  function Header(input: string): Option<(string, string)> {
    var s := Trim(input);
    if |s| < 4 || s[..4] != PREFIX then None
    else
      match SplitOnce(s[4..], ' ')
      case None => None
      case Some((crypto, rest)) => if IsCrypto(Trim(crypto)) then Some((Trim(crypto), rest)) else None
  }

  function Assemble(crypto: string, pairs: seq<(string, string)>): Option<Record> {
    match LastValue(pairs, ADDRESS)
    case None => None
    case Some(address) => Some(Record(crypto, address, LastValue(pairs, DESCRIPTION)))
  }

  function ParseRecord(input: string): Option<Record> {
    match Header(input)
    case None => None
    case Some((crypto, rest)) =>
      var pairs := KeptAll(Segments(rest));
      if AllParse(pairs) then Assemble(crypto, ParseAll(pairs)) else None
  }

  lemma LastValueAppend(pairs: seq<(string, string)>, pair: (string, string), key: string)
    ensures LastValue(pairs + [pair], key) == if pair.0 == key then Some(pair.1) else LastValue(pairs, key)
  {
    assert (pairs + [pair])[..|pairs|] == pairs;
  }

  lemma PushParsed(pairs: seq<string>, i: nat)
    requires i < |pairs| && AllParse(pairs[..i]) && ParsePair(pairs[i]).Some?
    ensures AllParse(pairs[..i + 1])
    ensures ParseAll(pairs[..i + 1]) == ParseAll(pairs[..i]) + [ParsePair(pairs[i]).value]
  {
    assert pairs[..i + 1][..i] == pairs[..i];
  }

  method ParseOa1(input: string) returns (r: Option<Record>)
    ensures r == ParseRecord(input)
  {
    var header := Header(input);
    if header.None? {
      return None;
    }
    var (crypto, rest) := header.value;
    var address: Option<string>, description: Option<string> := None, None;
    var pairs := SplitPairs(rest);
    assert pairs[..0] == [];
    for i := 0 to |pairs|
      invariant AllParse(pairs[..i])
      invariant address == LastValue(ParseAll(pairs[..i]), ADDRESS)
      invariant description == LastValue(ParseAll(pairs[..i]), DESCRIPTION)
    {
      var pair := ParsePair(pairs[i]);
      if pair.None? {
        return None;
      }
      PushParsed(pairs, i);
      LastValueAppend(ParseAll(pairs[..i]), pair.value, ADDRESS);
      LastValueAppend(ParseAll(pairs[..i]), pair.value, DESCRIPTION);
      match pair.value.0 {
        case "recipient_address" => address := Some(pair.value.1);
        case "tx_description" => description := Some(pair.value.1);
        case _ =>
      }
    }
    assert pairs[..|pairs|] == pairs;
    if address.None? {
      return None;
    }
    r := Some(Record(crypto, address.value, description));
  }

  function Values(entries: seq<Entry>): seq<(string, string)> {
    if entries == [] then [] else [(entries[0].key, entries[0].value)] + Values(entries[1..])
  }

  lemma {:induction false} ParseAllCons(h: string, t: seq<string>)
    requires ParsePair(h).Some? && AllParse(t)
    ensures AllParse([h] + t) && ParseAll([h] + t) == [ParsePair(h).value] + ParseAll(t)
  {
    hide ParsePair;
    var s := [h] + t;
    if t == [] {
      assert s == [h] && s[..0] == [];
    } else {
      var init, last := t[..|t| - 1], t[|t| - 1];
      assert s[..|s| - 1] == [h] + init && s[|s| - 1] == last;
      ParseAllCons(h, init);
      assert ParseAll(s) == ParseAll([h] + init) + [ParsePair(last).value];
    }
  }

  lemma {:induction false} ParsePrinted(entries: seq<Entry>)
    requires forall k :: 0 <= k < |entries| ==> Printable(entries[k])
    ensures AllParse(PrintedPairs(entries))
    ensures ParseAll(PrintedPairs(entries)) == Values(entries)
  {
    if entries != [] {
      PairRoundTrip(entries[0]);
      ParsePrinted(entries[1..]);
      ParseAllCons(PrintPair(entries[0]), PrintedPairs(entries[1..]));
    }
  }

  lemma {:induction false} PrintAllEnds(entries: seq<Entry>)
    requires entries != []
    ensures PrintAll(entries) != "" && PrintAll(entries)[|PrintAll(entries)| - 1] == ';'
  {
    if |entries| > 1 {
      PrintAllEnds(entries[1..]);
    }
  }

  /** A record as it may be written: white space around it and around the
      cryptocurrency, which ends at the first space. */
  function PrintRecord(before: string, lead: string, crypto: string, rest: string, after: string): string {
    before + "oa1:" + lead + crypto + " " + rest + after
  }

  ghost predicate RecordPads(before: string, lead: string, crypto: string, after: string) {
    AllWhite(before) && AllWhite(lead) && AllWhite(after) && ' ' !in lead && ' ' !in crypto && Trim(crypto) == crypto
  }

  ghost predicate LowerCase(s: string) {
    s != "" && forall c :: c in s ==> 'a' <= c <= 'z'
  }

  lemma HeaderOf(input: string, lead: string, crypto: string, rest: string)
    requires RecordPads("", lead, crypto, "") && Trim(input) == "oa1:" + (lead + crypto + [' '] + rest)
    ensures Header(input) == if LowerCase(crypto) then Some((crypto, rest)) else None
  {
    var s := Trim(input);
    assert s[..4] == PREFIX && s[4..] == lead + crypto + [' '] + rest;
    SplitOnceFirst(lead + crypto, ' ', rest);
    if crypto != "" { TrimmedText(crypto); }
    TrimPadded(lead, crypto, "");
    assert lead + crypto + "" == lead + crypto;
    assert forall i :: 0 <= i < |crypto| ==> crypto[i] in crypto;
    hide Trim, SplitOnce;
  }

  lemma HeaderPrinted(before: string, lead: string, crypto: string, rest: string, after: string)
    requires RecordPads(before, lead, crypto, after) && rest != "" && !IsWhite(rest[|rest| - 1])
    ensures Header(PrintRecord(before, lead, crypto, rest, after))
      == if LowerCase(crypto) then Some((crypto, rest)) else None
  {
    hide Header, Trim, LowerCase;
    var s := "oa1:" + (lead + crypto + [' '] + rest);
    assert PrintRecord(before, lead, crypto, rest, after) == before + s + after;
    assert s[0] == 'o' && s[|s| - 1] == rest[|rest| - 1];
    TrimPadded(before, s, after);
    HeaderOf(PrintRecord(before, lead, crypto, rest, after), lead, crypto, rest);
  }

  /** The value that the last entry of this key gives, if there is one. */
  ghost predicate LastNamed(entries: seq<Entry>, key: string, v: Option<string>) {
    if v.None? then forall i :: 0 <= i < |entries| ==> entries[i].key != key
    else exists i :: 0 <= i < |entries| && entries[i].key == key && entries[i].value == v.value
                     && forall j :: i < j < |entries| ==> entries[j].key != key
  }

  lemma {:induction false} LastValueIsLast(entries: seq<Entry>, key: string)
    ensures LastNamed(entries, key, LastValue(Values(entries), key))
  {
    hide LastValue, Values;
    if entries == [] {
      NoLastValue(key);
    } else {
      var init, last := entries[..|entries| - 1], entries[|entries| - 1];
      ValuesLast(entries);
      LastValueAppend(Values(init), (last.key, last.value), key);
      LastValueIsLast(init, key);
      hide LastNamed;
      LastNamedLast(entries, key, LastValue(Values(init), key));
    }
  }

  lemma LastNamedLast(entries: seq<Entry>, key: string, v: Option<string>)
    requires entries != [] && LastNamed(entries[..|entries| - 1], key, v)
    ensures
      var last := entries[|entries| - 1];
      LastNamed(entries, key, if last.key == key then Some(last.value) else v)
  {
    var init, last := entries[..|entries| - 1], entries[|entries| - 1];
    assert forall k :: 0 <= k < |init| ==> entries[k] == init[k];
    if last.key != key && v.Some? {
      var i :| 0 <= i < |init| && init[i].key == key && init[i].value == v.value
               && forall j :: i < j < |init| ==> init[j].key != key;
      assert entries[i] == init[i];
    }
  }

  lemma NoLastValue(key: string)
    ensures LastValue([], key).None? && Values([]) == []
  {}

  lemma {:induction false} ValuesLast(entries: seq<Entry>)
    requires entries != []
    ensures Values(entries)
      == Values(entries[..|entries| - 1]) + [(entries[|entries| - 1].key, entries[|entries| - 1].value)]
  {
    if |entries| > 1 {
      ValuesLast(entries[1..]);
      assert entries[1..][..|entries| - 2] == entries[..|entries| - 1][1..];
    }
  }

  /** Whatever the padding, the styles and the order of its pairs, a printed
      record parses to its cryptocurrency, the last address it names and the
      last description, and it parses if and only if the cryptocurrency is in
      lower-case letters and it names an address. */
  lemma RecordRoundTrip(before: string, lead: string, crypto: string, entries: seq<Entry>, after: string)
    returns (address: Option<string>, description: Option<string>)
    requires RecordPads(before, lead, crypto, after) && entries != []
    requires forall k :: 0 <= k < |entries| ==> Printable(entries[k])
    ensures LastNamed(entries, "recipient_address", address) && LastNamed(entries, "tx_description", description)
    ensures ParseRecord(PrintRecord(before, lead, crypto, PrintAll(entries), after))
      == if !LowerCase(crypto) || address.None? then None else Some(Record(crypto, address.value, description))
  {
    hide Printable, RecordPads, PrintRecord, Header, PrintAll, LowerCase, LastNamed;
    address, description := LastValue(Values(entries), ADDRESS), LastValue(Values(entries), DESCRIPTION);
    LastValueIsLast(entries, ADDRESS);
    LastValueIsLast(entries, DESCRIPTION);
    PrintAllEnds(entries);
    HeaderPrinted(before, lead, crypto, PrintAll(entries), after);
    SplitPrinted(entries);
    ParsePrinted(entries);
  }

  // ---------------------------------------------------------------------
  // What parses

  /** The segment is blank or has an equals sign. */
  ghost predicate IsPair(s: string) { AllWhite(s) || '=' in s }

  /** What stands before its first equals sign, trimmed. */
  ghost predicate HasKey(s: string, key: string) {
    exists i :: 0 <= i < |s| && s[i] == '=' && '=' !in s[..i] && Trim(s[..i]) == key
  }

  lemma {:induction false} TrimmedPair(s: string)
    ensures TrimStart(s) == "" <==> AllWhite(s)
    ensures '=' in TrimStart(s) <==> '=' in s
    ensures '=' in s ==> Trim(TrimStart(s)[..IndexOf(TrimStart(s), '=')]) == Trim(s[..IndexOf(s, '=')])
  {
    if s != "" && IsWhite(s[0]) {
      TrimmedPair(s[1..]);
      if '=' in s {
        var i := IndexOf(s[1..], '=');
        assert s[..1 + i][1..] == s[1..][..i];
        assert TrimStart(s[..1 + i]) == TrimStart(s[1..][..i]);
      }
    } else if s != "" {
      assert s[0] in s;
    }
  }

  lemma FirstEquals(s: string)
    ensures IndexOf(s, '=') < |s| <==> '=' in s
    ensures forall i :: 0 <= i < |s| && s[i] == '=' && '=' !in s[..i] ==> i == IndexOf(s, '=')
  {
    var c := IndexOf(s, '=');
    assert forall i, k :: 0 <= k < i <= |s| ==> s[k] in s[..i];
    if c == |s| { assert s[..c] == s; }
  }

  /** The pair of a segment that is not blank. */
  lemma SegmentParses(s: string, key: string)
    requires !AllWhite(s)
    ensures Kept(s) == [TrimStart(s)]
    ensures ParsePair(TrimStart(s)).Some? <==> IsPair(s)
    ensures ParsePair(TrimStart(s)).Some? ==> (ParsePair(TrimStart(s)).value.0 == key <==> HasKey(s, key))
  {
    TrimmedPair(s);
    FirstEquals(s);
    FirstEquals(TrimStart(s));
    if '=' in s {
      var i := IndexOf(s, '=');
      assert s[i] == '=' && '=' !in s[..i];
      assert HasKey(s, key) <==> Trim(s[..i]) == key;
    }
  }

  ghost predicate AllPairs(segments: seq<string>) {
    forall k :: 0 <= k < |segments| ==> IsPair(segments[k])
  }

  ghost predicate AnyKey(segments: seq<string>, key: string) {
    exists k :: 0 <= k < |segments| && !AllWhite(segments[k]) && HasKey(segments[k], key)
  }

  lemma FirstSegment(segments: seq<string>, key: string)
    requires segments != []
    ensures AllPairs(segments) <==> IsPair(segments[0]) && AllPairs(segments[1..])
    ensures AnyKey(segments, key)
      <==> (!AllWhite(segments[0]) && HasKey(segments[0], key)) || AnyKey(segments[1..], key)
  {
    hide IsPair, HasKey, AllWhite;
    var t := segments[1..];
    assert forall k :: 0 <= k < |t| ==> t[k] == segments[k + 1];
    if AllPairs(t) && IsPair(segments[0]) {
      forall k | 0 <= k < |segments|
        ensures IsPair(segments[k])
      {
        if k > 0 { assert IsPair(t[k - 1]); }
      }
    }
    if AnyKey(segments, key) {
      var k :| 0 <= k < |segments| && !AllWhite(segments[k]) && HasKey(segments[k], key);
      if k > 0 { assert HasKey(t[k - 1], key); }
    }
  }

  lemma {:induction false} LastValueCons(pair: (string, string), pairs: seq<(string, string)>, key: string)
    ensures LastValue([pair] + pairs, key)
      == if LastValue(pairs, key).None? && pair.0 == key then Some(pair.1) else LastValue(pairs, key)
  {
    if pairs == [] {
      assert [pair] + pairs == [pair] && [pair][..0] == [];
    } else {
      assert ([pair] + pairs)[..|pairs|] == [pair] + pairs[..|pairs| - 1];
      LastValueCons(pair, pairs[..|pairs| - 1], key);
    }
  }

  lemma AllParseCons(h: string, t: seq<string>)
    ensures AllParse([h] + t) <==> ParsePair(h).Some? && AllParse(t)
  {
    hide ParsePair;
    var s := [h] + t;
    assert s[0] == h && forall k :: 0 <= k < |t| ==> s[k + 1] == t[k];
    if ParsePair(h).Some? && AllParse(t) {
      forall k | 0 <= k < |s|
        ensures ParsePair(s[k]).Some?
      {
        if k > 0 { assert ParsePair(t[k - 1]).Some?; }
      }
    }
  }

  lemma {:induction false} KeptParses(segments: seq<string>, key: string)
    ensures AllParse(KeptAll(segments)) <==> AllPairs(segments)
    ensures AllParse(KeptAll(segments)) ==>
      (LastValue(ParseAll(KeptAll(segments)), key).Some? <==> AnyKey(segments, key))
  {
    if segments == [] {
    } else {
      var h, t := segments[0], segments[1..];
      KeptParses(t, key);
      FirstSegment(segments, key);
      if AllWhite(h) {
        TrimmedPair(h);
        assert Kept(h) == [] && KeptAll(segments) == KeptAll(t) && IsPair(h);
      } else {
        SegmentParses(h, key);
        var rest := KeptAll(t);
        assert KeptAll(segments) == [TrimStart(h)] + rest;
        hide ParsePair, IsPair, HasKey, AllPairs, AnyKey, KeptAll, LastValue;
        AllParseCons(TrimStart(h), rest);
        if ParsePair(TrimStart(h)).Some? && AllParse(rest) {
          ParseAllCons(TrimStart(h), rest);
          LastValueCons(ParsePair(TrimStart(h)).value, ParseAll(rest), key);
        }
      }
    }
  }

  // ---------------------------------------------------------------------
  // What a record gives, whatever the text

  ghost predicate InQuotes(t: string, q: string) { t == "\"" + q + "\"" }

  /** What stands between quotes, or else the unescaped text. */
  ghost predicate ValueGives(v: string, value: string) {
    || (exists q :: InQuotes(Trim(v), q) && value == Replace(q))
    || ((forall q :: !InQuotes(Trim(v), q)) && value == Unescape(v))
  }

  /** The value after the first equals sign. */
  ghost predicate PairGives(s: string, key: string, value: string) {
    exists i :: 0 <= i < |s| && s[i] == '=' && '=' !in s[..i] && Trim(s[..i]) == key && ValueGives(s[i + 1..], value)
  }

  lemma QuotesIff(t: string)
    ensures |t| >= 2 && t[0] == '\"' && t[|t| - 1] == '\"' <==> exists q :: InQuotes(t, q)
    ensures forall q :: InQuotes(t, q) ==> |t| >= 2 && t[1..|t| - 1] == q
  {
    if |t| >= 2 && t[0] == '\"' && t[|t| - 1] == '\"' { assert InQuotes(t, t[1..|t| - 1]); }
  }

  lemma PairValueGives(val: string)
    ensures ValueGives(val, PairValue(val))
  {
    hide Trim, Replace, Unescape, InQuotes;
    var t := Trim(val);
    QuotesIff(t);
    if q :| InQuotes(t, q) { assert InQuotes(t, t[1..|t| - 1]); }
  }

  lemma ParsesValue(pair: string)
    requires '=' in pair
    ensures ParsePair(pair).Some? && ValueGives(pair[IndexOf(pair, '=') + 1..], ParsePair(pair).value.1)
  {
    hide Trim, PairValue, ValueGives;
    FirstEquals(pair);
    PairValueGives(pair[IndexOf(pair, '=') + 1..]);
  }

  lemma {:induction false} AfterEquals(s: string)
    requires '=' in s
    ensures '=' in TrimStart(s) && TrimStart(s)[IndexOf(TrimStart(s), '=') + 1..] == s[IndexOf(s, '=') + 1..]
  {
    if IsWhite(s[0]) { AfterEquals(s[1..]); }
  }

  lemma SegmentGives(s: string)
    requires !AllWhite(s) && '=' in s
    ensures var pair := ParsePair(TrimStart(s)); pair.Some? && PairGives(s, pair.value.0, pair.value.1)
  {
    hide ValueGives, PairValue, Trim, TrimStart, AllWhite;
    TrimmedPair(s);
    AfterEquals(s);
    ParsesValue(TrimStart(s));
    FirstEquals(s);
    FirstEquals(TrimStart(s));
    var i := IndexOf(s, '=');
    assert s[i] == '=' && '=' !in s[..i];
  }

  /** The value of the last segment of this key, if there is one. */
  ghost predicate LastGives(segments: seq<string>, key: string, v: Option<string>) {
    if v.None? then forall k :: 0 <= k < |segments| ==> !Keyed(segments[k], key)
    else exists k :: 0 <= k < |segments| && Keyed(segments[k], key) && PairGives(segments[k], key, v.value)
                     && forall j :: k < j < |segments| ==> !Keyed(segments[j], key)
  }

  ghost predicate Keyed(s: string, key: string) { !AllWhite(s) && HasKey(s, key) }

  lemma LastGivesMore(segments: seq<string>, key: string, v: Option<string>)
    requires segments != [] && LastGives(segments[1..], key, v) && (v.Some? || !Keyed(segments[0], key))
    ensures LastGives(segments, key, v)
  {
    hide Keyed, PairGives;
    var t := segments[1..];
    assert forall k :: 0 < k < |segments| ==> segments[k] == t[k - 1];
    if v.Some? {
      var k :| 0 <= k < |t| && Keyed(t[k], key) && PairGives(t[k], key, v.value)
               && forall j :: k < j < |t| ==> !Keyed(t[j], key);
      assert segments[k + 1] == t[k];
    }
  }

  lemma FirstGives(segments: seq<string>, key: string, value: string)
    requires segments != [] && Keyed(segments[0], key) && PairGives(segments[0], key, value)
    requires LastGives(segments[1..], key, None)
    ensures LastGives(segments, key, Some(value))
  {
    hide Keyed, PairGives;
    assert forall k :: 0 < k < |segments| ==> segments[k] == segments[1..][k - 1];
  }

  lemma {:induction false} KeptGives(segments: seq<string>, key: string)
    requires AllParse(KeptAll(segments))
    ensures LastGives(segments, key, LastValue(ParseAll(KeptAll(segments)), key))
  {
    if segments != [] {
      var h, t := segments[0], segments[1..];
      if AllWhite(h) {
        TrimmedPair(h);
        assert Kept(h) == [] && KeptAll(segments) == KeptAll(t);
        KeptGives(t, key);
        LastGivesMore(segments, key, LastValue(ParseAll(KeptAll(t)), key));
      } else {
        SegmentParses(h, key);
        TrimmedPair(h);
        var rest := KeptAll(t);
        assert KeptAll(segments) == [TrimStart(h)] + rest;
        hide ParsePair, HasKey, KeptAll, LastValue, LastGives, PairGives;
        AllParseCons(TrimStart(h), rest);
        KeptGives(t, key);
        SegmentGives(h);
        ParseAllCons(TrimStart(h), rest);
        LastValueCons(ParsePair(TrimStart(h)).value, ParseAll(rest), key);
        if LastValue(ParseAll(rest), key).None? && ParsePair(TrimStart(h)).value.0 == key {
          FirstGives(segments, key, ParsePair(TrimStart(h)).value.1);
        } else {
          LastGivesMore(segments, key, LastValue(ParseAll(rest), key));
        }
      }
    }
  }

  /** The prefix, the cryptocurrency up to the first space, and the rest. */
  ghost predicate GivesHeader(input: string, crypto: string, rest: string) {
    LowerCase(crypto) && exists raw :: ' ' !in raw && Trim(input) == "oa1:" + raw + " " + rest && Trim(raw) == crypto
  }

  lemma LowerIff(crypto: string)
    ensures IsCrypto(crypto) <==> LowerCase(crypto)
  {
    assert forall i :: 0 <= i < |crypto| ==> crypto[i] in crypto;
  }

  lemma HeaderIff(input: string, crypto: string, rest: string)
    ensures Header(input) == Some((crypto, rest)) <==> GivesHeader(input, crypto, rest)
  {
    hide Trim;
    var s := Trim(input);
    LowerIff(crypto);
    hide LowerCase, IsCrypto;
    if Header(input) == Some((crypto, rest)) {
      var i := IndexOf(s[4..], ' ');
      var raw := s[4..][..i];
      assert s == "oa1:" + raw + " " + rest;
    }
    if GivesHeader(input, crypto, rest) {
      var raw :| ' ' !in raw && s == "oa1:" + raw + " " + rest && Trim(raw) == crypto;
      assert s == "oa1:" + (raw + [' '] + rest);
      assert s[..4] == "oa1:" && s[4..] == raw + [' '] + rest;
      SplitOnceFirst(raw, ' ', rest);
    }
  }

  /** For any text with a header: it parses exactly when each piece between its
      unquoted semicolons is blank or has an equals sign, and one of them names
      an address. It gives the last address and the last description named. */
  lemma ParsesIff(input: string, crypto: string, rest: string, segments: seq<string>)
    requires GivesHeader(input, crypto, rest) && IsSplit(rest, segments)
    ensures ParseRecord(input).Some? <==> AllPairs(segments) && AnyKey(segments, "recipient_address")
    ensures ParseRecord(input).Some? ==>
      var r := ParseRecord(input).value;
      && r.cryptocurrency == crypto && LastGives(segments, "recipient_address", Some(r.address))
      && LastGives(segments, "tx_description", r.description)
  {
    SegmentsAreTheSplit(rest, segments);
    HeaderIff(input, crypto, rest);
    hide Header, Segments, KeptAll, AllPairs, AnyKey, GivesHeader, ParseAll, LastValue, AllParse, LastGives;
    KeptParses(segments, ADDRESS);
    if AllParse(KeptAll(segments)) {
      KeptGives(segments, ADDRESS);
      KeptGives(segments, DESCRIPTION);
    }
  }

  /** Any other text does not parse. */
  lemma NoHeader(input: string)
    requires forall crypto, rest :: !GivesHeader(input, crypto, rest)
    ensures ParseRecord(input).None?
  {
    if Header(input).Some? {
      HeaderIff(input, Header(input).value.0, Header(input).value.1);
    }
  }
}
