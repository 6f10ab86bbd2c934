/**
 The edit distance behind "did you mean" suggestions: a reference definition, the
 edit scripts it measures, the metric laws, and the two-row algorithm.
 */
module EditDistance {

  import opened Strings
  import opened Wrappers

  function Min(a: nat, b: nat): nat {
    if a <= b then a else b
  }

  /** The cheapest of a deletion, an insertion and a replacement. */
  function Best(without: nat, before: nat, diagonal: nat, cost: nat): nat {
    Min(Min(without + 1, before + 1), diagonal + cost)
  }

  function Cost(a: char, b: char): nat {
    if a == b then 0 else 1
  }

  function Init(s: string): string
    requires s != []
  {
    s[..|s| - 1]
  }

  function Last(s: string): char
    requires s != []
  {
    s[|s| - 1]
  }

  /** The recursive definition: delete, insert or replace the last character. */
  function Distance(a: string, b: string): nat
    decreases |a| + |b|
  {
    if a == [] then |b|
    else if b == [] then |a|
    else
      Best(Distance(Init(a), b), Distance(a, Init(b)), Distance(Init(a), Init(b)), Cost(Last(a), Last(b)))
  }

  // ---------------------------------------------------------------- edit scripts

  datatype Edit = Insert(at: nat, c: char) | Delete(at: nat) | Replace(at: nat, c: char)

  predicate Fits(e: Edit, s: string) {
    match e
    case Insert(at, _) => at <= |s|
    case Delete(at) => at < |s|
    case Replace(at, _) => at < |s|
  }

  function Apply(e: Edit, s: string): string
    requires Fits(e, s)
  {
    match e
    case Insert(at, c) => s[..at] + [c] + s[at..]
    case Delete(at) => s[..at] + s[at + 1..]
    case Replace(at, c) => s[..at] + [c] + s[at + 1..]
  }

  /** `script`, carried out from left to right, turns `a` into `b`. */
  predicate Edits(script: seq<Edit>, a: string, b: string) {
    if script == [] then a == b
    else Fits(script[0], a) && Edits(script[1..], Apply(script[0], a), b)
  }

  // ---------------------------------------------------------------- the metric laws

  lemma Extend(a: string, b: string, initA: string, initB: string)
    requires a != [] && b != [] && Init(a) == initA && Init(b) == initB
    ensures Distance(a, b) ==
      Best(Distance(initA, b), Distance(a, initB), Distance(initA, initB), Cost(Last(a), Last(b)))
  {
  }

  lemma {:induction false} Bounds(a: string, b: string)
    ensures |a| - |b| <= Distance(a, b)
    ensures |b| - |a| <= Distance(a, b)
    ensures Distance(a, b) <= |a| + |b|
    decreases |a| + |b|
  {
    if a != [] && b != [] {
      Bounds(Init(a), b);
      Bounds(a, Init(b));
      Bounds(Init(a), Init(b));
    }
  }

  lemma {:induction false} ZeroOnlyOnEqual(a: string, b: string)
    ensures Distance(a, b) == 0 <==> a == b
    decreases |a| + |b|
  {
    if a != [] && b != [] {
      ZeroOnlyOnEqual(Init(a), Init(b));
      assert a == Init(a) + [Last(a)] && b == Init(b) + [Last(b)];
    }
  }

  lemma {:induction false} Symmetric(a: string, b: string)
    ensures Distance(a, b) == Distance(b, a)
    decreases |a| + |b|
  {
    if a != [] && b != [] {
      Symmetric(Init(a), b);
      Symmetric(a, Init(b));
      Symmetric(Init(a), Init(b));
    }
  }

  lemma {:induction false} Triangle(a: string, b: string, c: string)
    ensures Distance(a, c) <= Distance(a, b) + Distance(b, c)
    decreases |a| + |b| + |c|
  {
    if a == [] {
      Bounds(b, c);
    } else if c == [] {
      Bounds(a, b);
    } else if b == [] {
      Bounds(a, c);
    } else {
      Triangle(Init(a), b, c);
      Triangle(a, b, Init(c));
      Triangle(a, Init(b), c);
      Triangle(a, Init(b), Init(c));
      Triangle(Init(a), Init(b), c);
      Triangle(Init(a), Init(b), Init(c));
    }
  }

  // ---------------------------------------------------------------- the distance is the optimum

  lemma {:induction false} CommonSuffix(a: string, b: string, suffix: string)
    ensures Distance(a + suffix, b + suffix) <= Distance(a, b)
  {
    if suffix == [] {
      assert a + suffix == a && b + suffix == b;
    } else {
      var x, y := a + suffix, b + suffix;
      assert Init(x) == a + Init(suffix) && Init(y) == b + Init(suffix);
      CommonSuffix(a, b, Init(suffix));
    }
  }

  lemma Appended(p: string, q: string)
    requires q != [] && Init(q) == p
    ensures Distance(p, q) <= 1
  {
    ZeroOnlyOnEqual(p, p);
    if p != [] {
      Extend(p, q, Init(p), p);
    }
  }

  lemma Exchanged(q: string, r: string)
    requires q != [] && r != [] && Init(q) == Init(r)
    ensures Distance(q, r) <= 1
  {
    ZeroOnlyOnEqual(Init(q), Init(q));
    Extend(q, r, Init(q), Init(r));
  }

  lemma InitOfPushed(p: string, c: char)
    ensures Init(p + [c]) == p
  {
  }

  lemma OneInsert(p: string, c: char, suffix: string)
    ensures Distance(p + suffix, p + [c] + suffix) <= 1
  {
    InitOfPushed(p, c);
    Appended(p, p + [c]);
    CommonSuffix(p, p + [c], suffix);
  }

  lemma OneReplace(p: string, c: char, d: char, suffix: string)
    ensures Distance(p + [c] + suffix, p + [d] + suffix) <= 1
  {
    InitOfPushed(p, c);
    InitOfPushed(p, d);
    Exchanged(p + [c], p + [d]);
    CommonSuffix(p + [c], p + [d], suffix);
  }

  lemma SplitAround(s: string, at: nat)
    requires at <= |s|
    ensures s == s[..at] + s[at..]
    ensures at < |s| ==> s == s[..at] + [s[at]] + s[at + 1..]
  {
  }

  lemma OneDelete(p: string, c: char, suffix: string)
    ensures Distance(p + [c] + suffix, p + suffix) <= 1
  {
    OneInsert(p, c, suffix);
    Symmetric(p + [c] + suffix, p + suffix);
  }

  lemma OneEdit(e: Edit, s: string)
    requires Fits(e, s)
    ensures Distance(s, Apply(e, s)) <= 1
  {
    SplitAround(s, e.at);
    match e
    case Insert(at, c) => OneInsert(s[..at], c, s[at..]);
    case Delete(at) => OneDelete(s[..at], s[at], s[at + 1..]);
    case Replace(at, c) => OneReplace(s[..at], s[at], c, s[at + 1..]);
  }

  /** No script is shorter than the distance. */
  lemma {:induction false} NoShorterScript(script: seq<Edit>, a: string, b: string)
    requires Edits(script, a, b)
    ensures Distance(a, b) <= |script|
  {
    if script == [] {
      ZeroOnlyOnEqual(a, b);
    } else {
      var next := Apply(script[0], a);
      OneEdit(script[0], a);
      NoShorterScript(script[1..], next, b);
      Triangle(a, next, b);
    }
  }

  lemma ApplyBefore(e: Edit, s: string, suffix: string)
    requires Fits(e, s)
    ensures Fits(e, s + suffix) && Apply(e, s + suffix) == Apply(e, s) + suffix
  {
    assert (s + suffix)[..e.at] == s[..e.at];
    assert (s + suffix)[e.at..] == s[e.at..] + suffix;
    if e.at < |s| {
      assert (s + suffix)[e.at + 1..] == s[e.at + 1..] + suffix;
    }
  }

  lemma {:induction false} EditsBefore(script: seq<Edit>, a: string, b: string, suffix: string)
    requires Edits(script, a, b)
    ensures Edits(script, a + suffix, b + suffix)
  {
    if script != [] {
      ApplyBefore(script[0], a, suffix);
      EditsBefore(script[1..], Apply(script[0], a), b, suffix);
    }
  }

  lemma {:induction false} EditsThen(script: seq<Edit>, a: string, b: string, e: Edit)
    requires Edits(script, a, b) && Fits(e, b)
    ensures Edits(script + [e], a, Apply(e, b))
  {
    if script == [] {
      assert (script + [e])[1..] == [];
    } else {
      assert (script + [e])[1..] == script[1..] + [e];
      EditsThen(script[1..], Apply(script[0], a), b, e);
    }
  }

  lemma ThenInsert(script: seq<Edit>, a: string, b: string)
    requires b != [] && Edits(script, a, Init(b))
    ensures Edits(script + [Insert(|b| - 1, Last(b))], a, b)
  {
    EditsThen(script, a, Init(b), Insert(|b| - 1, Last(b)));
    assert Apply(Insert(|b| - 1, Last(b)), Init(b)) == b;
  }

  lemma ThenDelete(script: seq<Edit>, a: string, b: string)
    requires a != [] && Edits(script, Init(a), b)
    ensures Edits(script + [Delete(|b|)], a, b)
  {
    assert a == Init(a) + [Last(a)];
    EditsBefore(script, Init(a), b, [Last(a)]);
    EditsThen(script, a, b + [Last(a)], Delete(|b|));
    assert Apply(Delete(|b|), b + [Last(a)]) == b;
  }

  lemma ThenReplace(script: seq<Edit>, a: string, b: string)
    requires a != [] && b != [] && Edits(script, Init(a), Init(b))
    ensures Last(a) == Last(b) ==> Edits(script, a, b)
    ensures Edits(script + [Replace(|b| - 1, Last(b))], a, b)
  {
    assert a == Init(a) + [Last(a)] && b == Init(b) + [Last(b)];
    EditsBefore(script, Init(a), Init(b), [Last(a)]);
    EditsThen(script, a, Init(b) + [Last(a)], Replace(|b| - 1, Last(b)));
    assert Apply(Replace(|b| - 1, Last(b)), Init(b) + [Last(a)]) == b;
  }

  /** A script as short as the distance. */
  lemma {:induction false} ShortestScript(a: string, b: string) returns (script: seq<Edit>)
    ensures Edits(script, a, b) && |script| == Distance(a, b)
    decreases |a| + |b|
  {
    if a == [] && b == [] {
      script := [];
    } else if b != [] && (a == [] || Distance(a, b) == Distance(a, Init(b)) + 1) {
      script := ShortestScript(a, Init(b));
      ThenInsert(script, a, b);
      script := script + [Insert(|b| - 1, Last(b))];
    } else if b == [] || Distance(a, b) == Distance(Init(a), b) + 1 {
      script := ShortestScript(Init(a), b);
      ThenDelete(script, a, b);
      script := script + [Delete(|b|)];
    } else {
      script := ShortestScript(Init(a), Init(b));
      ThenReplace(script, a, b);
      if Last(a) != Last(b) {
        script := script + [Replace(|b| - 1, Last(b))];
      }
    }
  }

  /** `n` is the length of the shortest edit script from `a` to `b`. */
  ghost predicate IsOptimum(n: nat, a: string, b: string) {
    && (exists script :: Edits(script, a, b) && |script| == n)
    && (forall script :: Edits(script, a, b) ==> n <= |script|)
  }

  lemma DistanceIsOptimum(a: string, b: string, n: nat)
    ensures IsOptimum(n, a, b) <==> n == Distance(a, b)
  {
    var best := ShortestScript(a, b);
    forall script | Edits(script, a, b)
      ensures Distance(a, b) <= |script|
    {
      NoShorterScript(script, a, b);
    }
  }

  // ---------------------------------------------------------------- the two-row algorithm

  predicate Ascii(s: string) {
    forall i :: 0 <= i < |s| ==> s[i] < '\U{80}'
  }

  /** What `SimpleEditDistance` returns. */
  function Computed(left: string, right: string): nat {
    if left == [] then ByteLength(right)
    else if right == [] then ByteLength(left)
    else Distance(left, right)
  }

  method SimpleEditDistance(left: string, right: string) returns (d: nat)
    ensures d == Computed(left, right)
  {
    if left == [] {
      return ByteLength(right);
    }
    if right == [] {
      return ByteLength(left);
    }
    var n := |right|;
    var previous := new nat[n + 1](j => j);
    var current := new nat[n + 1](_ => 0);
    for i := 0 to |left|
      invariant IsRow(previous[..], left, i, right)
    {
      FillRow(previous, current, left[i], i, right);
      RowAfter(previous[..], current[..], left, i, right);
      forall k | 0 <= k <= n {
        previous[k] := current[k];
      }
      assert previous[..] == current[..];
    }
    PrefixIsDistance(left, right, |left|, n);
    assert left[..|left|] == left && right[..n] == right;
    d := previous[n];
  }

  /** The inner loop. */
  method FillRow(previous: array<nat>, current: array<nat>, c: char, i: nat, right: string)
    requires previous != current && previous.Length == current.Length == |right| + 1
    modifies current
    ensures Follows(previous[..], current[..], c, i, right, |right|)
  {
    current[0] := i + 1;
    for j := 0 to |right|
      invariant Follows(previous[..], current[..], c, i, right, j)
    {
      var cost := if c != right[j] then 1 else 0;
      current[j + 1] := Min(Min(previous[j + 1] + 1, current[j] + 1), previous[j] + cost);
    }
  }

  /** `below` is the row computed from the row `above` and the next character, as far as `upTo`. */
  ghost predicate Follows(above: seq<nat>, below: seq<nat>, c: char, i: nat, right: string, upTo: nat)
    requires upTo <= |right|
  {
    && |above| == |below| == |right| + 1
    && below[0] == i + 1
    && forall j :: 0 <= j < upTo ==> below[j + 1] == Best(above[j + 1], below[j], above[j], Cost(c, right[j]))
  }

  /** The distance between the first `i` and the first `j` characters, cell by cell. */
  function PrefixDistance(left: string, right: string, i: nat, j: nat): nat
    requires i <= |left| && j <= |right|
  {
    if i == 0 then j
    else if j == 0 then i
    else
      Best(PrefixDistance(left, right, i - 1, j), PrefixDistance(left, right, i, j - 1),
           PrefixDistance(left, right, i - 1, j - 1), Cost(left[i - 1], right[j - 1]))
  }

  lemma {:induction false} PrefixIsDistance(left: string, right: string, i: nat, j: nat)
    requires i <= |left| && j <= |right|
    ensures PrefixDistance(left, right, i, j) == Distance(left[..i], right[..j])
  {
    if i > 0 && j > 0 {
      PrefixIsDistance(left, right, i - 1, j);
      PrefixIsDistance(left, right, i, j - 1);
      PrefixIsDistance(left, right, i - 1, j - 1);
      InitOfPrefix(left, i);
      InitOfPrefix(right, j);
      Extend(left[..i], right[..j], left[..i - 1], right[..j - 1]);
    }
  }

  lemma InitOfPrefix(s: string, i: nat)
    requires 0 < i <= |s|
    ensures Init(s[..i]) == s[..i - 1] && Last(s[..i]) == s[i - 1]
  {
  }

  /** `row` is row `i` of the table. */
  ghost predicate IsRow(row: seq<nat>, left: string, i: nat, right: string)
    requires i <= |left|
  {
    |row| == |right| + 1 && forall k :: 0 <= k <= |right| ==> row[k] == PrefixDistance(left, right, i, k)
  }

  lemma RowAfter(above: seq<nat>, below: seq<nat>, left: string, i: nat, right: string)
    requires i < |left|
    requires IsRow(above, left, i, right)
    requires Follows(above, below, left[i], i, right, |right|)
    ensures IsRow(below, left, i + 1, right)
  {
    for k := 0 to |right|
      invariant forall j :: 0 <= j <= k ==> below[j] == PrefixDistance(left, right, i + 1, j)
    {
      assert below[k + 1] == PrefixDistance(left, right, i + 1, k + 1);
    }
  }

  lemma {:induction false} ByteLengthExact(s: string)
    ensures |s| <= ByteLength(s)
    ensures ByteLength(s) == |s| <==> Ascii(s)
  {
    if s != [] {
      ByteLengthExact(s[1..]);
      assert Ascii(s) ==> Ascii(s[1..]);
      assert s[0] < '\U{80}' && Ascii(s[1..]) ==> Ascii(s) by {
        assert forall i :: 0 < i < |s| ==> s[i] == s[1..][i - 1];
      }
    }
  }

  /** The early returns count bytes: with one side empty the answer is the distance
      exactly when the other side is plain ASCII; with both sides non-empty, always. */
  lemma ComputedIsOptimum(left: string, right: string)
    ensures IsOptimum(Computed(left, right), left, right)
      <==> (left == [] ==> Ascii(right)) && (right == [] ==> Ascii(left))
  {
    DistanceIsOptimum(left, right, Computed(left, right));
    ByteLengthExact(left);
    ByteLengthExact(right);
  }

  /** An input on which the early return is not the distance. */
  lemma ByteCountOverestimates()
    ensures Computed("", "é") == 2 && Distance("", "é") == 1
  {
    assert "é"[1..] == [];
  }

  // ---------------------------------------------------------------- suggestions

  function Lower(c: char): char {
    if 'A' <= c <= 'Z' then (c as int + 32) as char else c
  }

  function LowerCase(s: string): (r: string)
    ensures |r| == |s| && forall i :: 0 <= i < |s| ==> r[i] == Lower(s[i])
  {
    seq(|s|, i requires 0 <= i < |s| => Lower(s[i]))
  }

  function Gap(input: string, candidate: string): nat {
    Computed(LowerCase(input), LowerCase(candidate))
  }

  /** Index of the first nearest candidate at distance 3 or less. */
  function Nearest(input: string, candidates: seq<string>): (r: Option<nat>)
    ensures r.Some? ==> r.value < |candidates| && Gap(input, candidates[r.value]) <= 3
    ensures r.Some? ==>
      forall i :: 0 <= i < |candidates| ==> Gap(input, candidates[r.value]) <= Gap(input, candidates[i])
    ensures r.Some? ==> forall i :: 0 <= i < r.value ==> Gap(input, candidates[r.value]) < Gap(input, candidates[i])
    ensures r.None? ==> forall i :: 0 <= i < |candidates| ==> Gap(input, candidates[i]) > 3
  {
    if candidates == [] then None
    else
      var last := |candidates| - 1;
      var before := Nearest(input, candidates[..last]);
      var gap := Gap(input, candidates[last]);
      if gap <= 3 && (before.None? || gap < Gap(input, candidates[before.value])) then Some(last) else before
  }

  function SuggestField(input: string, candidates: seq<string>): Option<string> {
    match Nearest(input, candidates)
    case None => None
    case Some(i) => Some(candidates[i])
  }

  /** A candidate that is the input up to ASCII case always wins, and what is
      suggested is then the input up to ASCII case. */
  lemma SuggestsExactMatch(input: string, candidates: seq<string>, k: nat)
    requires k < |candidates| && LowerCase(candidates[k]) == LowerCase(input)
    ensures SuggestField(input, candidates).Some?
    ensures LowerCase(SuggestField(input, candidates).value) == LowerCase(input)
  {
    var low := LowerCase(input);
    ZeroOnlyOnEqual(low, low);
    assert Gap(input, candidates[k]) == 0;
    var n := Nearest(input, candidates).value;
    var other := LowerCase(candidates[n]);
    assert Computed(low, other) == 0;
    ByteLengthExact(low);
    ByteLengthExact(other);
    ZeroOnlyOnEqual(low, other);
  }

  const CAPITALS := "ABCDEFGHIJKLMNOPQRSTUVWXYZ"
  const SMALLS := "abcdefghijklmnopqrstuvwxyz"

  /** The same letter of the alphabet, small or capital. */
  ghost predicate SameLetter(a: char, b: char) {
    exists i :: 0 <= i < 26 && (a == CAPITALS[i] || a == SMALLS[i]) && (b == CAPITALS[i] || b == SMALLS[i])
  }

  ghost predicate SameUpToCase(a: string, b: string) {
    |a| == |b| && forall i :: 0 <= i < |a| ==> a[i] == b[i] || SameLetter(a[i], b[i])
  }

  lemma LettersInOrder(i: nat)
    requires i < 26
    ensures CAPITALS[i] as int == 'A' as int + i && SMALLS[i] as int == 'a' as int + i
  {
  }

  lemma LowerExactly(a: char, b: char)
    ensures Lower(a) == Lower(b) <==> a == b || SameLetter(a, b)
  {
    if a != b && Lower(a) == Lower(b) {
      var i := Lower(a) as int - 'a' as int;
      LettersInOrder(i);
      assert a == CAPITALS[i] || a == SMALLS[i];
    }
    if i :| 0 <= i < 26 && (a == CAPITALS[i] || a == SMALLS[i]) && (b == CAPITALS[i] || b == SMALLS[i]) {
      LettersInOrder(i);
    }
  }

  lemma LowerCaseExactly(a: string, b: string)
    ensures LowerCase(a) == LowerCase(b) <==> SameUpToCase(a, b)
  {
    forall i | 0 <= i < |a| && i < |b|
      ensures LowerCase(a)[i] == LowerCase(b)[i] <==> a[i] == b[i] || SameLetter(a[i], b[i])
    {
      LowerExactly(a[i], b[i]);
    }
  }

  /** If a candidate is the input but for the case of letters, what is suggested is, too, and it is
      the first such candidate. */
  lemma SuggestsSameSpelling(input: string, candidates: seq<string>, k: nat)
    requires k < |candidates| && SameUpToCase(candidates[k], input)
    ensures SuggestField(input, candidates).Some? && SameUpToCase(SuggestField(input, candidates).value, input)
    ensures (forall i :: 0 <= i < k ==> !SameUpToCase(candidates[i], input)) ==>
      SuggestField(input, candidates).value == candidates[k]
  {
    LowerCaseExactly(candidates[k], input);
    SuggestsExactMatch(input, candidates, k);
    LowerCaseExactly(SuggestField(input, candidates).value, input);
    var low, n := LowerCase(input), Nearest(input, candidates).value;
    ZeroOnlyOnEqual(low, low);
    assert Gap(input, candidates[k]) == 0;
    assert n <= k;
  }

  /** No candidate can be turned into the input, but for case, by fewer edits than the distance of
      the one suggested, which is three at most; without a suggestion all take more than three. */
  lemma SuggestsNearest(input: string, candidates: seq<string>, k: nat, script: seq<Edit>)
    requires k < |candidates| && LowerCase(input) != [] && LowerCase(candidates[k]) != []
    requires Edits(script, LowerCase(input), LowerCase(candidates[k]))
    ensures SuggestField(input, candidates).None? ==> |script| > 3
    ensures SuggestField(input, candidates).Some? ==>
      Gap(input, SuggestField(input, candidates).value) <= 3 &&
      Gap(input, SuggestField(input, candidates).value) <= |script|
  {
    NoShorterScript(script, LowerCase(input), LowerCase(candidates[k]));
    assert Gap(input, candidates[k]) <= |script|;
  }
}
