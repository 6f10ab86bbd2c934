/** The string operations of the standard library that more than one module uses. */
module Strings {

  function Utf8Length(c: char): nat {
    if c < '\U{80}' then 1 else if c < '\U{800}' then 2 else if c < '\U{10000}' then 3 else 4
  }

  /** The length of a string in bytes. */
  function ByteLength(s: string): nat {
    if s == [] then 0 else Utf8Length(s[0]) + ByteLength(s[1..])
  }

  predicate IsWhite(c: char) {
    '\t' <= c <= '\r' || c == ' ' || c == '\U{85}' || c == '\U{A0}' || c == '\U{1680}' ||
    '\U{2000}' <= c <= '\U{200A}' || c == '\U{2028}' || c == '\U{2029}' || c == '\U{202F}' ||
    c == '\U{205F}' || c == '\U{3000}'
  }

  function Trim(s: string): (r: string)
    ensures |r| <= |s|
    ensures r == s && s != [] ==> !IsWhite(s[|s| - 1])
    decreases |s|
  {
    if s == [] then []
    else if IsWhite(s[0]) then Trim(s[1..])
    else if IsWhite(s[|s| - 1]) then Trim(s[..|s| - 1])
    else s
  }

  // ---------------------------------------------------------------- what they mean

  /** The characters with the property White_Space. */
  const WHITE_SPACE: string :=
    "\U{9}\U{A}\U{B}\U{C}\U{D}\U{20}\U{85}\U{A0}\U{1680}"
    + "\U{2000}\U{2001}\U{2002}\U{2003}\U{2004}\U{2005}\U{2006}\U{2007}\U{2008}\U{2009}\U{200A}"
    + "\U{2028}\U{2029}\U{202F}\U{205F}\U{3000}"

  lemma WhiteExactly(c: char)
    ensures IsWhite(c) <==> c in WHITE_SPACE
  {
    var first := "\U{9}\U{A}\U{B}\U{C}\U{D}\U{20}\U{85}\U{A0}\U{1680}";
    var second :=
      "\U{2000}\U{2001}\U{2002}\U{2003}\U{2004}\U{2005}\U{2006}\U{2007}\U{2008}\U{2009}\U{200A}";
    var third := "\U{2028}\U{2029}\U{202F}\U{205F}\U{3000}";
    assert WHITE_SPACE == first + second + third;
    assert c in WHITE_SPACE <==> c in first || c in second || c in third;
  }

  predicate White(s: string) {
    forall i :: 0 <= i < |s| ==> IsWhite(s[i])
  }

  /** A text that neither starts nor ends with white space. */
  predicate Trimmed(s: string) {
    s == [] || (!IsWhite(s[0]) && !IsWhite(s[|s| - 1]))
  }

  lemma FrontMore(s: string, before: string, core: string, after: string)
    requires s != [] && s[1..] == before + core + after
    ensures s == ([s[0]] + before) + core + after
  {
    assert s == [s[0]] + s[1..];
  }

  lemma BackMore(s: string, before: string, core: string, after: string)
    requires s != [] && s[..|s| - 1] == before + core + after
    ensures s == before + core + (after + [s[|s| - 1]])
  {
    assert s == s[..|s| - 1] + [s[|s| - 1]];
  }

  /** Trimming takes white space off both ends, and all of it. */
  lemma {:induction false} TrimSplits(s: string) returns (before: string, after: string)
    ensures White(before) && White(after) && Trimmed(Trim(s)) && s == before + Trim(s) + after
    decreases |s|
  {
    before, after := [], [];
    if s != [] {
      if IsWhite(s[0]) {
        before, after := TrimSplits(s[1..]);
        FrontMore(s, before, Trim(s), after);
        before := [s[0]] + before;
      } else if IsWhite(s[|s| - 1]) {
        before, after := TrimSplits(s[..|s| - 1]);
        BackMore(s, before, Trim(s), after);
        after := after + [s[|s| - 1]];
      }
    }
  }

  lemma {:induction false} TrimFront(before: string, s: string)
    requires White(before)
    ensures Trim(before + s) == Trim(s)
  {
    if before == [] {
      assert before + s == s;
    } else {
      assert (before + s)[1..] == before[1..] + s;
      TrimFront(before[1..], s);
    }
  }

  lemma {:induction false} TrimBack(s: string, after: string)
    requires White(after) && s != [] && Trimmed(s)
    ensures Trim(s + after) == s
    decreases |after|
  {
    if after == [] {
      assert s + after == s;
    } else {
      var n := |after| - 1;
      assert (s + after)[..|s| + n] == s + after[..n];
      TrimBack(s, after[..n]);
    }
  }

  /** And nothing else. */
  lemma TrimOf(before: string, s: string, after: string)
    requires White(before) && White(after) && Trimmed(s)
    ensures Trim(before + s + after) == s
  {
    assert before + s + after == before + (s + after);
    TrimFront(before, s + after);
    if s == [] {
      assert s + after == after + [];
      TrimFront(after, []);
    } else {
      TrimBack(s, after);
    }
  }
}
