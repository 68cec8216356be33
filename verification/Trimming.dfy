/** Trimming the white space around a string. */
module Trimming {
  /** The White_Space property of Unicode. */
  predicate IsWhite(c: char) {
    || '\U{0009}' <= c <= '\U{000D}'
    || c == ' ' || c == '\U{0085}' || c == '\U{00A0}' || c == '\U{1680}' || c == '\U{2028}'
    || c == '\U{2029}' || c == '\U{202F}' || c == '\U{205F}' || c == '\U{3000}'
    || '\U{2000}' <= c <= '\U{200A}'
  }

  /** Its 25 code points. */
  lemma WhiteSpaceIs(c: char)
    ensures IsWhite(c) <==> c as int in {
      0x09, 0x0A, 0x0B, 0x0C, 0x0D, 0x20, 0x85, 0xA0, 0x1680, 0x2000, 0x2001, 0x2002, 0x2003, 0x2004, 0x2005, 0x2006,
      0x2007, 0x2008, 0x2009, 0x200A, 0x2028, 0x2029, 0x202F, 0x205F, 0x3000}
  {}

  function TrimStart(s: string): string {
    if s != "" && IsWhite(s[0]) then TrimStart(s[1..]) else s
  }

  function TrimEnd(s: string): string {
    if s != "" && IsWhite(s[|s| - 1]) then TrimEnd(s[..|s| - 1]) else s
  }

  function Trim(s: string): string {
    TrimEnd(TrimStart(s))
  }

  predicate AllWhite(s: string) {
    forall i :: 0 <= i < |s| ==> IsWhite(s[i])
  }

  lemma {:induction false} TrimStartPadded(pad: string, s: string)
    requires AllWhite(pad) && (s != "" ==> !IsWhite(s[0]))
    ensures TrimStart(pad + s) == s
  {
    if pad == "" {
      assert pad + s == s;
    } else {
      assert (pad + s)[1..] == pad[1..] + s;
      TrimStartPadded(pad[1..], s);
    }
  }

  lemma {:induction false} TrimIsInside(s: string, c: char)
    ensures c in TrimStart(s) ==> c in s
    ensures c in TrimEnd(s) ==> c in s
    decreases |s|
  {
    if s != "" {
      TrimIsInside(s[1..], c);
      TrimIsInside(s[..|s| - 1], c);
    }
  }

  lemma {:induction false} TrimShrinks(s: string)
    ensures |TrimStart(s)| <= |s| && |TrimEnd(s)| <= |s|
    ensures s != "" && IsWhite(s[0]) ==> |TrimStart(s)| < |s|
    decreases |s|
  {
    if s != "" {
      TrimShrinks(s[1..]);
      TrimShrinks(s[..|s| - 1]);
    }
  }

  lemma NothingToTrim(s: string)
    requires s != "" && !IsWhite(s[0]) && !IsWhite(s[|s| - 1])
    ensures Trim(s) == s
  {}

  lemma {:induction false} TrimEndPadded(s: string, pad: string)
    requires AllWhite(pad) && (s != "" ==> !IsWhite(s[|s| - 1]))
    ensures TrimEnd(s + pad) == s
  {
    if pad == "" {
      assert s + pad == s;
    } else {
      assert (s + pad)[..|s + pad| - 1] == s + pad[..|pad| - 1];
      TrimEndPadded(s, pad[..|pad| - 1]);
    }
  }

  /** White space on both sides of a text that has none at its ends. */
  lemma TrimPadded(before: string, s: string, after: string)
    requires AllWhite(before) && AllWhite(after)
    requires s != "" ==> !IsWhite(s[0]) && !IsWhite(s[|s| - 1])
    ensures Trim(before + s + after) == s
  {
    if s == "" {
      TrimStartPadded(before + after, "");
      assert before + s + after == before + after + "";
    } else {
      assert before + s + after == before + (s + after);
      TrimStartPadded(before, s + after);
      TrimEndPadded(s, after);
    }
  }

  lemma {:induction false} TrimmedEnds(s: string)
    ensures TrimStart(s) != "" ==> !IsWhite(TrimStart(s)[0])
    ensures TrimEnd(s) != "" ==> !IsWhite(TrimEnd(s)[|TrimEnd(s)| - 1])
    decreases |s|
  {
    if s != "" {
      TrimmedEnds(s[1..]);
      TrimmedEnds(s[..|s| - 1]);
    }
  }

  lemma {:induction false} TrimEndKeepsStart(s: string)
    ensures TrimEnd(s) != "" ==> s != "" && TrimEnd(s)[0] == s[0]
    decreases |s|
  {
    if s != "" && IsWhite(s[|s| - 1]) { TrimEndKeepsStart(s[..|s| - 1]); }
  }

  /** A text that is its own trimming. */
  lemma TrimmedText(s: string)
    requires Trim(s) == s && s != ""
    ensures !IsWhite(s[0]) && !IsWhite(s[|s| - 1])
  {
    TrimmedEnds(s);
    TrimmedEnds(TrimStart(s));
    TrimEndKeepsStart(TrimStart(s));
  }

  lemma WhiteIsNoDelimiter(s: string)
    requires AllWhite(s)
    ensures '\"' !in s && ';' !in s && '=' !in s && '\\' !in s
  {}
}
