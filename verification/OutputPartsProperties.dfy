/** Merging parts chunk by chunk gives what merging them all at once gives. */
module OutputPartsProperties {

  import opened Wrappers
  import opened OutputParts

  // ---------------------------------------------------------------- one group

  lemma {:induction false} JoinTogether(g: seq<Part>, h: seq<Part>, of: Part -> string)
    ensures Join(g + h, of) == Join(g, of) + Join(h, of)
    decreases |h|
  {
    if h == [] {
      assert g + h == g;
    } else {
      JoinTogether(g, h[..|h| - 1], of);
      assert (g + h)[..|g + h| - 1] == g + h[..|h| - 1];
    }
  }

  lemma {:induction false} SignatureTogether(g: seq<Part>, h: seq<Part>)
    ensures Signature(g + h) == if Signature(h) != [] then Signature(h) else Signature(g)
    decreases |h|
  {
    if h == [] {
      assert g + h == g;
    } else {
      SignatureTogether(g, h[..|h| - 1]);
      assert (g + h)[..|g + h| - 1] == g + h[..|h| - 1];
    }
  }

  lemma {:induction false} MimeTypeTogether(g: seq<Part>, h: seq<Part>)
    ensures MimeType(g + h) == if MimeType(g) != [] then MimeType(g) else MimeType(h)
    decreases |h|
  {
    if h == [] {
      assert g + h == g;
    } else {
      MimeTypeTogether(g, h[..|h| - 1]);
      assert (g + h)[..|g + h| - 1] == g + h[..|h| - 1];
    }
  }

  lemma Gathered(g: seq<Part>, h: seq<Part>)
    ensures Join(g + h, TextOf) == Join(g, TextOf) + Join(h, TextOf)
    ensures Join(g + h, ThoughtOf) == Join(g, ThoughtOf) + Join(h, ThoughtOf)
    ensures Join(g + h, SoundOf) == Join(g, SoundOf) + Join(h, SoundOf)
    ensures Signature(g + h) == if Signature(h) != [] then Signature(h) else Signature(g)
    ensures MimeType(g + h) == if MimeType(g) != [] then MimeType(g) else MimeType(h)
  {
    JoinTogether(g, h, TextOf);
    JoinTogether(g, h, ThoughtOf);
    JoinTogether(g, h, SoundOf);
    SignatureTogether(g, h);
    MimeTypeTogether(g, h);
  }

  /** What one part contributes is what it contributes alone. */
  lemma Alone(p: Part)
    ensures Join([p], TextOf) == TextOf(p) && Join([p], ThoughtOf) == ThoughtOf(p) && Join([p], SoundOf) == SoundOf(p)
    ensures p.reasoning.Some? ==> Signature([p]) == p.reasoning.value.signature
    ensures p.audio.Some? ==> MimeType([p]) == p.audio.value.mimeType
  {
    assert [p][..0] == [];
    assert MimeType([p][..0]) == [] && Signature([p][..0]) == [];
  }

  /** The merged part can stand for its group. */
  lemma Standing(g: seq<Part>, p: Part)
    requires g != [] && MergeGroup(g) == Some(p)
    requires |g| > 1 ==> Mergeable(g[0])
    ensures p.kind == g[0].kind && p.meta == g[0].meta && (Mergeable(p) <==> Mergeable(g[0]))
    ensures IsBase64(p) <==> IsBase64(g[0])
  {
  }

  lemma MergeAssociates(g: seq<Part>, h: seq<Part>)
    requires g != [] && (|g| > 1 || h != [] ==> Mergeable(g[0]))
    ensures MergeGroup(g).None? ==> MergeGroup(g + h).None?
    ensures MergeGroup(g).Some? ==> MergeGroup([MergeGroup(g).value] + h) == MergeGroup(g + h)
  {
    if h == [] {
      assert g + h == g;
    } else if |g| == 1 {
      assert [g[0]] + h == g + h;
    } else {
      AudiosTogether(g, h);
      if MergeGroup(g).Some? {
        MergedAssociates(g, h, MergeGroup(g).value);
      }
    }
  }

  lemma MergedAssociates(g: seq<Part>, h: seq<Part>, p: Part)
    requires |g| > 1 && h != [] && Mergeable(g[0])
    requires MergeGroup(g) == Some(p)
    ensures MergeGroup([p] + h) == MergeGroup(g + h)
  {
    Standing(g, p);
    Gathered(g, h);
    Gathered([p], h);
    Alone(p);
    SameMerge(g, h, p);
  }

  lemma SameMerge(g: seq<Part>, h: seq<Part>, p: Part)
    requires |g| > 1 && h != [] && Mergeable(g[0])
    requires MergeGroup(g) == Some(p)
    requires p.kind == g[0].kind && p.meta == g[0].meta
    requires IsBase64(p) <==> IsBase64(g[0])
    requires Join(g + h, TextOf) == Join(g, TextOf) + Join(h, TextOf)
    requires Join([p] + h, TextOf) == TextOf(p) + Join(h, TextOf)
    requires Join(g + h, ThoughtOf) == Join(g, ThoughtOf) + Join(h, ThoughtOf)
    requires Join([p] + h, ThoughtOf) == ThoughtOf(p) + Join(h, ThoughtOf)
    requires Join(g + h, SoundOf) == Join(g, SoundOf) + Join(h, SoundOf)
    requires Join([p] + h, SoundOf) == SoundOf(p) + Join(h, SoundOf)
    requires Signature(g + h) == if Signature(h) != [] then Signature(h) else Signature(g)
    requires Signature([p] + h) == if Signature(h) != [] then Signature(h) else Signature([p])
    requires MimeType(g + h) == if MimeType(g) != [] then MimeType(g) else MimeType(h)
    requires MimeType([p] + h) == if MimeType([p]) != [] then MimeType([p]) else MimeType(h)
    requires p.reasoning.Some? ==> Signature([p]) == p.reasoning.value.signature
    requires p.audio.Some? ==> MimeType([p]) == p.audio.value.mimeType
    ensures MergeGroup([p] + h) == MergeGroup(g + h)
  {
    AudiosTogether(g, h);
    AudiosTogether([p], h);
    match g[0].kind
    case TextKind => assert MergedText([p] + h) == MergedText(g + h);
    case ReasoningKind => assert MergedReasoning([p] + h) == MergedReasoning(g + h);
    case AudioKind => assert MergedAudio([p] + h) == MergedAudio(g + h);
  }

  lemma AudiosTogether(g: seq<Part>, h: seq<Part>)
    ensures AllHaveAudio(g + h) <==> AllHaveAudio(g) && AllHaveAudio(h)
  {
    if AllHaveAudio(g + h) {
      assert forall i :: 0 <= i < |g| ==> (g + h)[i] == g[i];
      assert forall i :: 0 <= i < |h| ==> (g + h)[|g| + i] == h[i];
    }
  }

  // ---------------------------------------------------------------- the whole message

  /** The parts merged, the first group of which has started as `current`. */
  function ConcatFrom(current: seq<Part>, rest: seq<Part>): Option<seq<Part>>
    requires current != []
  {
    MergeAll(Groups(current, rest))
  }

  /** Mergeable as soon as it has a second member. */
  predicate GroupOk(g: seq<Part>) {
    g != [] && (|g| > 1 ==> Mergeable(g[0]))
  }

  lemma ConcatStep(current: seq<Part>, rest: seq<Part>)
    requires GroupOk(current) && rest != []
    ensures CanMerge(current[0], rest[0]) ==>
      GroupOk(current + [rest[0]]) && ConcatFrom(current, rest) == ConcatFrom(current + [rest[0]], rest[1..])
    ensures !CanMerge(current[0], rest[0]) ==>
      ConcatFrom(current, rest) == Then(MergeGroup(current), ConcatFrom([rest[0]], rest[1..]))
  {
    if !CanMerge(current[0], rest[0]) {
      var more := Groups([rest[0]], rest[1..]);
      assert ([current] + more)[1..] == more;
    }
  }

  lemma ConcatLast(current: seq<Part>)
    requires current != []
    ensures ConcatFrom(current, []) == Then(MergeGroup(current), Some([]))
    ensures MergeGroup(current).Some? ==> ConcatFrom(current, []) == Some([MergeGroup(current).value])
  {
    assert [current][1..] == [];
    assert MergeAll([current][1..]) == Some([]);
    if MergeGroup(current).Some? {
      assert [MergeGroup(current).value] + [] == [MergeGroup(current).value];
    }
  }

  /** The first part of the result stands for the first group. */
  lemma {:induction false} FirstStands(current: seq<Part>, rest: seq<Part>)
    requires GroupOk(current) && ConcatFrom(current, rest).Some?
    ensures var r := ConcatFrom(current, rest).value;
      && r != [] && r[0].kind == current[0].kind && r[0].meta == current[0].meta
      && (Mergeable(r[0]) <==> Mergeable(current[0]))
    decreases |rest|
  {
    if rest == [] {
      ConcatLast(current);
      Standing(current, MergeGroup(current).value);
    } else {
      ConcatStep(current, rest);
      if CanMerge(current[0], rest[0]) {
        FirstStands(current + [rest[0]], rest[1..]);
      } else {
        Standing(current, MergeGroup(current).value);
      }
    }
  }

  /** A group may be merged before more parts join it. */
  lemma {:induction false} MergedFirst(g: seq<Part>, p: Part, joined: seq<Part>, rest: seq<Part>)
    requires g != [] && MergeGroup(g) == Some(p) && GroupOk(g + joined)
    ensures ConcatFrom([p] + joined, rest) == ConcatFrom(g + joined, rest)
    decreases |rest|
  {
    Standing(g, p);
    MergeAssociates(g, joined);
    if rest == [] {
      ConcatLast([p] + joined);
      ConcatLast(g + joined);
    } else {
      ConcatStep([p] + joined, rest);
      ConcatStep(g + joined, rest);
      if CanMerge(p, rest[0]) {
        MergedFirst(g, p, joined + [rest[0]], rest[1..]);
        assert [p] + joined + [rest[0]] == [p] + (joined + [rest[0]]);
        assert g + joined + [rest[0]] == g + (joined + [rest[0]]);
      }
    }
  }

  lemma {:induction false} IncrementalFrom(current: seq<Part>, a: seq<Part>, b: seq<Part>)
    requires GroupOk(current)
    ensures ConcatFrom(current, a).None? ==> ConcatFrom(current, a + b).None?
    ensures ConcatFrom(current, a).Some? ==>
      var c := ConcatFrom(current, a).value;
      c != [] && ConcatFrom([c[0]], c[1..] + b) == ConcatFrom(current, a + b)
    decreases |a|
  {
    if a == [] {
      assert a + b == b;
      ConcatLast(current);
      if MergeGroup(current).Some? {
        var p := MergeGroup(current).value;
        MergedFirst(current, p, [], b);
        assert [p] + [] == [p] && current + [] == current;
        assert [p][1..] + b == b;
      } else {
        FailedGroup(current, b);
      }
    } else {
      assert (a + b)[0] == a[0] && (a + b)[1..] == a[1..] + b;
      ConcatStep(current, a);
      ConcatStep(current, a + b);
      if CanMerge(current[0], a[0]) {
        IncrementalFrom(current + [a[0]], a[1..], b);
      } else {
        IncrementalFrom([a[0]], a[1..], b);
        if ConcatFrom(current, a).Some? {
          NextGroup(current, a, b);
        }
      }
    }
  }

  lemma NextGroup(current: seq<Part>, a: seq<Part>, b: seq<Part>)
    requires GroupOk(current) && a != [] && !CanMerge(current[0], a[0])
    requires ConcatFrom(current, a).Some? && ConcatFrom([a[0]], a[1..]).Some?
    requires var t := ConcatFrom([a[0]], a[1..]).value;
      t != [] && ConcatFrom([t[0]], t[1..] + b) == ConcatFrom([a[0]], a[1..] + b)
    ensures var c := ConcatFrom(current, a).value;
      c != [] && ConcatFrom([c[0]], c[1..] + b) == ConcatFrom(current, a + b)
  {
    var t := ConcatFrom([a[0]], a[1..]).value;
    ConcatStep(current, a);
    var p := MergeGroup(current).value;
    FirstStands([a[0]], a[1..]);
    HeadAndTail(p, t, ConcatFrom(current, a).value);
    ApartFrom(current, p, a[0], t, b);
    ApartOnce(current, a, b);
  }

  lemma ApartOnce(current: seq<Part>, a: seq<Part>, b: seq<Part>)
    requires GroupOk(current) && a != [] && !CanMerge(current[0], a[0])
    ensures ConcatFrom(current, a + b) == Then(MergeGroup(current), ConcatFrom([a[0]], a[1..] + b))
  {
    assert (a + b)[0] == a[0] && (a + b)[1..] == a[1..] + b;
    ConcatStep(current, a + b);
  }

  lemma HeadAndTail(p: Part, t: seq<Part>, all: seq<Part>)
    requires all == [p] + t
    ensures all != [] && all[0] == p && all[1..] == t
  {
  }

  /** A merged group stays apart from what it was apart from. */
  lemma ApartFrom(current: seq<Part>, p: Part, next: Part, t: seq<Part>, b: seq<Part>)
    requires GroupOk(current) && MergeGroup(current) == Some(p) && !CanMerge(current[0], next)
    requires t != [] && t[0].kind == next.kind && t[0].meta == next.meta
    ensures ConcatFrom([p], t + b) == Then(Some(p), ConcatFrom([t[0]], t[1..] + b))
  {
    Standing(current, p);
    assert (t + b)[0] == t[0] && (t + b)[1..] == t[1..] + b;
    ConcatStep([p], t + b);
  }

  /** A group that cannot be merged fails whatever follows. */
  lemma {:induction false} FailedGroup(current: seq<Part>, rest: seq<Part>)
    requires GroupOk(current) && MergeGroup(current).None?
    ensures ConcatFrom(current, rest).None?
    decreases |rest|
  {
    if rest == [] {
      ConcatLast(current);
    } else {
      ConcatStep(current, rest);
      if CanMerge(current[0], rest[0]) {
        MergeAssociates(current, [rest[0]]);
        FailedGroup(current + [rest[0]], rest[1..]);
      }
    }
  }

  /** Merging is incremental: parts already merged may be merged with later ones, with the same
      result or the same failure. */
  lemma Incremental(a: seq<Part>, b: seq<Part>)
    ensures Concat(a).None? ==> Concat(a + b).None?
    ensures Concat(a).Some? ==> Concat(Concat(a).value + b) == Concat(a + b)
  {
    if a == [] {
      assert a + b == b && [] + b == b;
    } else {
      IncrementalFrom([a[0]], a[1..], b);
      assert (a + b)[0] == a[0] && (a + b)[1..] == a[1..] + b;
      if Concat(a).Some? {
        var c := Concat(a).value;
        assert (c + b)[0] == c[0] && (c + b)[1..] == c[1..] + b;
      }
    }
  }

  /** Merging again changes nothing. */
  lemma Idempotent(a: seq<Part>)
    requires Concat(a).Some?
    ensures Concat(Concat(a).value) == Concat(a)
  {
    Incremental(a, []);
    assert a + [] == a && Concat(a).value + [] == Concat(a).value;
  }

  // ---------------------------------------------------------------- nothing is lost

  /** What a part of this kind and stream says. */
  function Said(p: Part, kind: Kind, stream: Option<int>): string {
    if p.kind != kind || p.meta != stream then ""
    else
      match kind
      case TextKind => TextOf(p)
      case ReasoningKind => ThoughtOf(p)
      case AudioKind => SoundOf(p)
      case OtherKind(_) => ""
  }

  function SaidOf(kind: Kind, stream: Option<int>): Part -> string {
    p => Said(p, kind, stream)
  }

  /** What the parts of one kind and stream say, one after the other. */
  function Transcript(parts: seq<Part>, kind: Kind, stream: Option<int>): string {
    Join(parts, SaidOf(kind, stream))
  }

  /** The parts of a group are all like its head. */
  predicate LikeHead(g: seq<Part>) {
    GroupOk(g) && forall i :: 0 <= i < |g| ==> g[i].kind == g[0].kind && g[i].meta == g[0].meta
  }

  lemma {:induction false} JoinSame(g: seq<Part>, of: Part -> string, of': Part -> string)
    requires forall i :: 0 <= i < |g| ==> of(g[i]) == of'(g[i])
    ensures Join(g, of) == Join(g, of')
    decreases |g|
  {
    if g != [] {
      JoinSame(g[..|g| - 1], of, of');
    }
  }

  lemma {:induction false} JoinNothing(g: seq<Part>, of: Part -> string)
    requires forall i :: 0 <= i < |g| ==> of(g[i]) == ""
    ensures Join(g, of) == ""
    decreases |g|
  {
    if g != [] {
      JoinNothing(g[..|g| - 1], of);
    }
  }

  lemma GroupTranscript(g: seq<Part>, kind: Kind, stream: Option<int>)
    requires LikeHead(g)
    ensures Transcript(g, kind, stream) ==
      if g[0].kind != kind || g[0].meta != stream then ""
      else match kind
           case TextKind => Join(g, TextOf)
           case ReasoningKind => Join(g, ThoughtOf)
           case AudioKind => Join(g, SoundOf)
           case OtherKind(_) => ""
  {
    if g[0].kind != kind || g[0].meta != stream || kind.OtherKind? {
      JoinNothing(g, SaidOf(kind, stream));
    } else {
      var of := if kind == TextKind then TextOf else if kind == ReasoningKind then ThoughtOf else SoundOf;
      JoinSame(g, SaidOf(kind, stream), of);
    }
  }

  lemma MergeKeepsTranscript(g: seq<Part>, kind: Kind, stream: Option<int>)
    requires LikeHead(g) && MergeGroup(g).Some?
    ensures Transcript([MergeGroup(g).value], kind, stream) == Transcript(g, kind, stream)
  {
    var p := MergeGroup(g).value;
    GroupTranscript(g, kind, stream);
    GroupTranscript([p], kind, stream);
    Alone(p);
    if |g| > 1 {
      Standing(g, p);
    } else {
      assert g == [p];
    }
  }

  lemma {:induction false} TranscriptFrom(current: seq<Part>, rest: seq<Part>, kind: Kind, stream: Option<int>)
    requires LikeHead(current) && ConcatFrom(current, rest).Some?
    ensures Transcript(ConcatFrom(current, rest).value, kind, stream) == Transcript(current + rest, kind, stream)
    decreases |rest|
  {
    if rest == [] {
      ConcatLast(current);
      MergeKeepsTranscript(current, kind, stream);
      assert current + rest == current;
    } else {
      ConcatStep(current, rest);
      assert [rest[0]] + rest[1..] == rest;
      if CanMerge(current[0], rest[0]) {
        assert current + [rest[0]] + rest[1..] == current + rest;
        TranscriptFrom(current + [rest[0]], rest[1..], kind, stream);
      } else {
        var p := MergeGroup(current).value;
        MergeKeepsTranscript(current, kind, stream);
        TranscriptFrom([rest[0]], rest[1..], kind, stream);
        JoinTogether([p], ConcatFrom([rest[0]], rest[1..]).value, SaidOf(kind, stream));
        JoinTogether(current, rest, SaidOf(kind, stream));
      }
    }
  }

  /** No text, reasoning or inline sound of any stream is lost, repeated, reordered or given to
      another stream by merging. */
  lemma NothingLost(parts: seq<Part>, kind: Kind, stream: Option<int>)
    requires Concat(parts).Some?
    ensures Transcript(Concat(parts).value, kind, stream) == Transcript(parts, kind, stream)
  {
    if parts != [] {
      assert [parts[0]] + parts[1..] == parts;
      TranscriptFrom([parts[0]], parts[1..], kind, stream);
    }
  }

  // ---------------------------------------------------------------- how far merging goes

  /** Two neighbours that stay apart: of different kinds or streams, or neither texts nor reasoning
      nor behind inline audio. */
  predicate Apart(p: Part, q: Part) {
    || p.kind != q.kind
    || p.meta != q.meta
    || p.kind.OtherKind?
    || (p.kind == AudioKind && (p.audio.None? || p.audio.value.base64.None? || p.audio.value.url.Some?))
  }

  lemma ApartExactly(p: Part, q: Part)
    ensures Apart(p, q) <==> !CanMerge(p, q)
  {
  }

  function Flattened(groups: seq<seq<Part>>): seq<Part> {
    if groups == [] then [] else groups[0] + Flattened(groups[1..])
  }

  /** The parts are cut into runs; each run makes one part of the result; in a run every part
      joins the first, and the first of the next run does not. */
  ghost predicate CutInto(parts: seq<Part>, groups: seq<seq<Part>>, r: seq<Part>) {
    && Flattened(groups) == parts && |r| == |groups|
    && (forall i :: 0 <= i < |groups| ==> groups[i] != [] && MergeGroup(groups[i]) == Some(r[i]))
    && (forall i, j :: 0 <= i < |groups| && 1 <= j < |groups[i]| ==> !Apart(groups[i][0], groups[i][j]))
    && (forall i :: 0 <= i < |groups| - 1 ==> Apart(groups[i][0], groups[i + 1][0]))
  }

  lemma {:induction false} CutFrom(current: seq<Part>, rest: seq<Part>) returns (groups: seq<seq<Part>>)
    requires LikeHead(current) && ConcatFrom(current, rest).Some?
    ensures CutInto(current + rest, groups, ConcatFrom(current, rest).value)
    ensures groups != [] && |groups[0]| >= |current| && groups[0][0] == current[0]
    decreases |rest|
  {
    if rest == [] {
      ConcatLast(current);
      groups := [current];
      assert Flattened(groups) == current + rest by {
        assert groups[1..] == [];
      }
      assert forall j :: 1 <= j < |current| ==> !Apart(current[0], current[j]);
    } else {
      ConcatStep(current, rest);
      assert [rest[0]] + rest[1..] == rest;
      if CanMerge(current[0], rest[0]) {
        assert current + [rest[0]] + rest[1..] == current + rest;
        groups := CutFrom(current + [rest[0]], rest[1..]);
      } else {
        var more := CutFrom([rest[0]], rest[1..]);
        groups := [current] + more;
        ApartExactly(current[0], rest[0]);
        OneMoreGroup(current, rest, more, MergeGroup(current).value, ConcatFrom([rest[0]], rest[1..]).value);
      }
    }
  }

  lemma OneMoreGroup(current: seq<Part>, rest: seq<Part>, more: seq<seq<Part>>, p: Part, r: seq<Part>)
    requires LikeHead(current) && MergeGroup(current) == Some(p)
    requires CutInto(rest, more, r) && more != [] && more[0] != [] && Apart(current[0], more[0][0])
    ensures CutInto(current + rest, [current] + more, [p] + r)
  {
    var groups := [current] + more;
    assert groups[1..] == more;
    assert forall j :: 1 <= j < |current| ==> !Apart(current[0], current[j]);
    forall i | 1 <= i < |groups| - 1
      ensures Apart(groups[i][0], groups[i + 1][0])
    {
      assert groups[i] == more[i - 1] && groups[i + 1] == more[i];
    }
  }

  /** Merging goes exactly as far as it can: the parts are cut into runs wherever one is apart from
      the first of its run, and each run is merged into one part. */
  lemma MergedAsFarAsPossible(parts: seq<Part>) returns (groups: seq<seq<Part>>)
    requires Concat(parts).Some?
    ensures CutInto(parts, groups, Concat(parts).value)
  {
    if parts == [] {
      groups := [];
    } else {
      assert [parts[0]] + parts[1..] == parts;
      groups := CutFrom([parts[0]], parts[1..]);
    }
  }

  /** So no two neighbours of the result could still be merged. */
  lemma NeighboursApart(parts: seq<Part>, i: nat)
    requires Concat(parts).Some? && i + 1 < |Concat(parts).value|
    ensures Apart(Concat(parts).value[i], Concat(parts).value[i + 1])
  {
    var groups := MergedAsFarAsPossible(parts);
    var r := Concat(parts).value;
    GroupStands(groups[i], r[i]);
    GroupStands(groups[i + 1], r[i + 1]);
    StillApart(groups[i][0], groups[i + 1][0], r[i], r[i + 1]);
  }

  lemma GroupStands(g: seq<Part>, p: Part)
    requires g != [] && MergeGroup(g) == Some(p)
    requires forall j :: 1 <= j < |g| ==> !Apart(g[0], g[j])
    ensures p.kind == g[0].kind && p.meta == g[0].meta && (IsBase64(p) <==> IsBase64(g[0]))
  {
    if |g| > 1 {
      assert !Apart(g[0], g[1]);
      Standing(g, p);
    }
  }

  lemma StillApart(p: Part, q: Part, p': Part, q': Part)
    requires p'.kind == p.kind && p'.meta == p.meta && (IsBase64(p') <==> IsBase64(p))
    requires q'.kind == q.kind && q'.meta == q.meta
    ensures Apart(p', q') <==> Apart(p, q)
  {
  }

  // ---------------------------------------------------------------- what a merged part is

  function SignatureOf(p: Part): string {
    if p.reasoning.Some? then p.reasoning.value.signature else ""
  }

  function MimeTypeOf(p: Part): string {
    if p.audio.Some? then p.audio.value.mimeType else ""
  }

  /** `s` is what the last part to give anything gives. */
  ghost predicate LastGiven(g: seq<Part>, of: Part -> string, s: string) {
    if forall i :: 0 <= i < |g| ==> of(g[i]) == "" then s == ""
    else exists i :: 0 <= i < |g| && of(g[i]) == s != "" && forall j :: i < j < |g| ==> of(g[j]) == ""
  }

  /** `s` is what the first part to give anything gives. */
  ghost predicate FirstGiven(g: seq<Part>, of: Part -> string, s: string) {
    if forall i :: 0 <= i < |g| ==> of(g[i]) == "" then s == ""
    else exists i :: 0 <= i < |g| && of(g[i]) == s != "" && forall j :: 0 <= j < i ==> of(g[j]) == ""
  }

  lemma {:induction false} LastSignature(g: seq<Part>)
    ensures LastGiven(g, SignatureOf, Signature(g))
    decreases |g|
  {
    if g != [] {
      var n := |g| - 1;
      if SignatureOf(g[n]) == "" {
        LastSignature(g[..n]);
        assert g == g[..n] + [g[n]];
        if i :| 0 <= i < n && SignatureOf(g[..n][i]) != "" {
          assert SignatureOf(g[i]) != "";
        }
      } else {
        assert SignatureOf(g[n]) == Signature(g);
      }
    }
  }

  lemma {:induction false} FirstMimeType(g: seq<Part>)
    ensures FirstGiven(g, MimeTypeOf, MimeType(g))
    decreases |g|
  {
    if g != [] {
      var n := |g| - 1;
      FirstMimeType(g[..n]);
      assert g == g[..n] + [g[n]];
      if i :| 0 <= i < n && MimeTypeOf(g[..n][i]) != "" {
        assert MimeTypeOf(g[i]) != "";
      } else {
        assert forall i :: 0 <= i < n ==> MimeTypeOf(g[i]) == MimeTypeOf(g[..n][i]);
      }
    }
  }

  /** A part merged from several: the stream of the first; of the texts, reasoning or sounds all of
      them in order; the last signature, the first media type; and nothing else. */
  lemma MergedWhole(g: seq<Part>, p: Part)
    requires |g| > 1 && LikeHead(g) && MergeGroup(g) == Some(p)
    ensures p.meta == g[0].meta && p.other == None
    ensures g[0].kind in {TextKind, ReasoningKind, AudioKind}
    ensures g[0].kind == TextKind ==> p == Part(TextKind, Join(g, TextOf), None, None, None, p.meta)
    ensures g[0].kind == ReasoningKind ==>
      && p == Part(ReasoningKind, "", p.reasoning, None, None, p.meta)
      && p.reasoning.Some? && p.reasoning.value.text == Join(g, ThoughtOf)
      && LastGiven(g, SignatureOf, p.reasoning.value.signature)
    ensures g[0].kind == AudioKind ==>
      && p == Part(AudioKind, "", None, p.audio, None, p.meta)
      && p.audio.Some? && p.audio.value.url == None && p.audio.value.base64 == Some(Join(g, SoundOf))
      && FirstGiven(g, MimeTypeOf, p.audio.value.mimeType)
  {
    LastSignature(g);
    FirstMimeType(g);
  }

  // ---------------------------------------------------------------- what joins inline audio

  /** The parts after `j` up to `i` are audio of the same stream. */
  predicate SameStream(parts: seq<Part>, j: nat, i: nat)
    requires j <= i < |parts|
  {
    forall k :: j < k <= i ==> parts[k].kind == AudioKind && parts[k].meta == parts[j].meta
  }

  /** The part at `i` is merged into an inline audio part before it. */
  ghost predicate JoinsBase64(parts: seq<Part>, i: nat)
    requires i < |parts|
  {
    exists j: nat :: j < i && IsBase64(parts[j]) && SameStream(parts, j, i)
  }

  /** A part of this sort is merged into an inline audio part. */
  ghost predicate SomeJoins(parts: seq<Part>, sort: Part -> bool) {
    exists i: nat :: i < |parts| && JoinsBase64(parts, i) && sort(parts[i])
  }

  predicate NoAudio(p: Part) {
    p.audio.None?
  }

  predicate HasUrl(p: Part) {
    p.audio.Some? && p.audio.value.url.Some?
  }

  /** In a group it is all parts but the head, if the head is inline audio. */
  lemma JoinsInGroup(g: seq<Part>, i: nat)
    requires LikeHead(g) && i < |g|
    ensures JoinsBase64(g, i) <==> i > 0 && IsBase64(g[0])
  {
    if i > 0 && IsBase64(g[0]) {
      assert SameStream(g, 0, i);
    }
  }

  /** No inline audio reaches beyond its group. */
  lemma JoinsInOwnGroup(g: seq<Part>, rest: seq<Part>, i: nat)
    requires LikeHead(g) && rest != [] && !CanMerge(g[0], rest[0])
    requires i < |g + rest|
    ensures JoinsBase64(g + rest, i) <==> if i < |g| then JoinsBase64(g, i) else JoinsBase64(rest, i - |g|)
  {
    var all, n := g + rest, |g|;
    if i < n {
      assert all[..n] == g;
      forall j: nat | j < i
        ensures SameStream(all, j, i) <==> SameStream(g, j, i)
      {
        assert forall k :: 0 <= k <= i ==> all[k] == g[k];
      }
    } else {
      assert all[n] == rest[0] && forall k :: 0 <= k < n ==> all[k] == g[k];
      forall j: nat | n <= j < i
        ensures SameStream(all, j, i) <==> SameStream(rest, j - n, i - n)
      {
        StreamMoved(g, rest, j - n, i - n);
      }
      if j: nat :| j < i && IsBase64(all[j]) && SameStream(all, j, i) {
        assert IsBase64(rest[j - n]);
      }
      if j: nat :| j < i - n && IsBase64(rest[j]) && SameStream(rest, j, i - n) {
        assert SameStream(all, j + n, i) && IsBase64(all[j + n]);
      }
    }
  }

  lemma StreamMoved(g: seq<Part>, rest: seq<Part>, j: nat, i: nat)
    requires j <= i < |rest|
    ensures SameStream(g + rest, |g| + j, |g| + i) <==> SameStream(rest, j, i)
  {
    var all, n := g + rest, |g|;
    if SameStream(all, n + j, n + i) {
      forall k | j < k <= i
        ensures rest[k].kind == AudioKind && rest[k].meta == rest[j].meta
      {
        assert all[n + k] == rest[k];
      }
    }
  }

  lemma SomeJoinsSplits(g: seq<Part>, rest: seq<Part>, sort: Part -> bool)
    requires LikeHead(g) && rest != [] && !CanMerge(g[0], rest[0])
    ensures SomeJoins(g + rest, sort) <==> SomeJoins(g, sort) || SomeJoins(rest, sort)
  {
    var all := g + rest;
    if i: nat :| i < |all| && JoinsBase64(all, i) && sort(all[i]) {
      JoinsInOwnGroup(g, rest, i);
      if i < |g| {
        assert g[i] == all[i];
      } else {
        assert rest[i - |g|] == all[i];
      }
    }
    if i: nat :| i < |g| && JoinsBase64(g, i) && sort(g[i]) {
      JoinsInOwnGroup(g, rest, i);
      assert all[i] == g[i];
    }
    if i: nat :| i < |rest| && JoinsBase64(rest, i) && sort(rest[i]) {
      JoinsInOwnGroup(g, rest, |g| + i);
      assert all[|g| + i] == rest[i];
    }
  }

  lemma SomeJoinsInGroup(g: seq<Part>, sort: Part -> bool)
    requires LikeHead(g)
    ensures SomeJoins(g, sort) <==> IsBase64(g[0]) && exists i :: 1 <= i < |g| && sort(g[i])
  {
    forall i: nat | i < |g|
      ensures JoinsBase64(g, i) <==> i > 0 && IsBase64(g[0])
    {
      JoinsInGroup(g, i);
    }
  }

  // ---------------------------------------------------------------- when merging fails

  lemma {:induction false} FailsFrom(current: seq<Part>, rest: seq<Part>)
    requires LikeHead(current)
    ensures ConcatFrom(current, rest).None? <==> SomeJoins(current + rest, NoAudio)
    decreases |rest|
  {
    GroupFails(current);
    if rest == [] {
      ConcatLast(current);
      assert current + rest == current;
    } else {
      ConcatStep(current, rest);
      assert [rest[0]] + rest[1..] == rest;
      if CanMerge(current[0], rest[0]) {
        assert current + [rest[0]] + rest[1..] == current + rest;
        FailsFrom(current + [rest[0]], rest[1..]);
      } else {
        FailsFrom([rest[0]], rest[1..]);
        SomeJoinsSplits(current, rest, NoAudio);
      }
    }
  }

  lemma GroupFails(g: seq<Part>)
    requires LikeHead(g)
    ensures MergeGroup(g).None? <==> SomeJoins(g, NoAudio)
  {
    SomeJoinsInGroup(g, NoAudio);
    if MergeGroup(g).None? {
      var i :| 0 <= i < |g| && g[i].audio.None?;
      assert NoAudio(g[i]);
    }
  }

  /** Merging fails exactly when an audio part without its audio follows an inline audio part,
      with only audio of the same stream between them. */
  lemma FailsExactly(parts: seq<Part>)
    ensures Concat(parts).None? <==> SomeJoins(parts, NoAudio)
  {
    if parts != [] {
      assert [parts[0]] + parts[1..] == parts;
      FailsFrom([parts[0]], parts[1..]);
    }
  }

  // ---------------------------------------------------------------- links to audio

  function Url(p: Part): seq<string> {
    if p.kind == AudioKind && HasUrl(p) then [p.audio.value.url.value] else []
  }

  function Urls(parts: seq<Part>): seq<string> {
    if parts == [] then [] else Urls(parts[..|parts| - 1]) + Url(parts[|parts| - 1])
  }

  lemma {:induction false} UrlsTogether(a: seq<Part>, b: seq<Part>)
    ensures Urls(a + b) == Urls(a) + Urls(b)
    decreases |b|
  {
    if b == [] {
      assert a + b == a;
    } else {
      UrlsTogether(a, b[..|b| - 1]);
      assert (a + b)[..|a + b| - 1] == a + b[..|b| - 1];
    }
  }

  lemma {:induction false} NoUrls(g: seq<Part>)
    ensures Urls(g) == [] <==> forall i :: 0 <= i < |g| ==> Url(g[i]) == []
    decreases |g|
  {
    if g != [] {
      NoUrls(g[..|g| - 1]);
    }
  }

  lemma UrlsOne(p: Part)
    ensures Urls([p]) == Url(p)
  {
    assert [p][..0] == [];
  }

  /** A merged group has the links of its parts, or has lost some. */
  lemma GroupUrls(g: seq<Part>)
    requires LikeHead(g) && MergeGroup(g).Some?
    ensures var p := MergeGroup(g).value;
      |Urls([p])| <= |Urls(g)| && (Urls([p]) == Urls(g) <==> !SomeJoins(g, HasUrl))
  {
    SomeJoinsInGroup(g, HasUrl);
    UrlsOne(MergeGroup(g).value);
    if |g| == 1 {
      assert g == [g[0]];
    } else {
      MergedUrl(g);
      NoUrls(g);
      UrlOnly(g);
    }
  }

  /** What was merged from several parts has no link. */
  lemma MergedUrl(g: seq<Part>)
    requires LikeHead(g) && |g| > 1 && MergeGroup(g).Some?
    ensures Url(MergeGroup(g).value) == []
  {
  }

  lemma UrlOnly(g: seq<Part>)
    requires LikeHead(g) && |g| > 1
    ensures (forall i :: 0 <= i < |g| ==> Url(g[i]) == []) <==>
      !(IsBase64(g[0]) && exists i :: 1 <= i < |g| && HasUrl(g[i]))
  {
  }

  lemma {:induction false} UrlsFrom(current: seq<Part>, rest: seq<Part>)
    requires LikeHead(current) && ConcatFrom(current, rest).Some?
    ensures var r := ConcatFrom(current, rest).value;
      && |Urls(r)| <= |Urls(current + rest)|
      && (Urls(r) == Urls(current + rest) <==> !SomeJoins(current + rest, HasUrl))
    decreases |rest|
  {
    if rest == [] {
      ConcatLast(current);
      GroupUrls(current);
      assert current + rest == current;
    } else {
      ConcatStep(current, rest);
      assert [rest[0]] + rest[1..] == rest;
      if CanMerge(current[0], rest[0]) {
        assert current + [rest[0]] + rest[1..] == current + rest;
        UrlsFrom(current + [rest[0]], rest[1..]);
      } else {
        var p, r := MergeGroup(current).value, ConcatFrom([rest[0]], rest[1..]).value;
        GroupUrls(current);
        UrlsFrom([rest[0]], rest[1..]);
        SomeJoinsSplits(current, rest, HasUrl);
        UrlsTogether([p], r);
        UrlsTogether(current, rest);
        SameParts(Urls([p]), Urls(r), Urls(current), Urls(rest));
      }
    }
  }

  lemma SameParts(a: seq<string>, b: seq<string>, c: seq<string>, d: seq<string>)
    requires |a| <= |c| && |b| <= |d|
    ensures a + b == c + d <==> a == c && b == d
  {
    if a + b == c + d {
      assert |a| == |c|;
      assert a == (a + b)[..|a|] && c == (c + d)[..|c|];
      assert b == (a + b)[|a|..] && d == (c + d)[|c|..];
    }
  }

  /** The links of all audio parts survive, in order, exactly when no part with a link follows an
      inline audio part with only audio of the same stream between them. */
  lemma LinksKeptExactly(parts: seq<Part>)
    requires Concat(parts).Some?
    ensures Urls(Concat(parts).value) == Urls(parts) <==> !SomeJoins(parts, HasUrl)
  {
    if parts != [] {
      assert [parts[0]] + parts[1..] == parts;
      UrlsFrom([parts[0]], parts[1..]);
    } else {
      assert parts == [];
    }
  }

  /** An audio part as the model sends it. */
  function Sounding(audio: Option<Audio>): Part {
    Part(AudioKind, "", None, audio, None, None)
  }

  /** Inline audio followed by a link keeps the sound and drops the link; followed by an audio
      part without audio it cannot be merged. */
  lemma LinkDroppedOrFailed()
    ensures var sound := Sounding(Some(Audio(None, Some("AAAA"), "audio/wav")));
      var link := Sounding(Some(Audio(Some("https://host/a.wav"), None, "")));
      && Concat([sound, link]) == Some([sound])
      && Concat([sound, Sounding(None)]) == None
  {
    var sound := Sounding(Some(Audio(None, Some("AAAA"), "audio/wav")));
    var link := Sounding(Some(Audio(Some("https://host/a.wav"), None, "")));
    TwoSounds(sound, link);
    TwoSounds(sound, Sounding(None));
    assert SoundOf(sound) + SoundOf(link) == "AAAA";
    assert |"audio/wav"| > 0;
    assert MergedAudio([sound, link]) == sound;
  }

  lemma TwoSounds(p: Part, q: Part)
    requires IsBase64(p) && CanMerge(p, q)
    ensures q.audio.None? ==> Concat([p, q]) == None
    ensures q.audio.Some? ==> Concat([p, q]) == Some([MergedAudio([p, q])])
    ensures Join([p, q], SoundOf) == SoundOf(p) + SoundOf(q)
    ensures p.audio.value.mimeType != "" ==> MimeType([p, q]) == p.audio.value.mimeType
  {
    assert [p, q][1..] == [q] && [q][1..] == [] && [p] + [q] == [p, q];
    ConcatStep([p], [q]);
    ConcatLast([p, q]);
    Gathered([p], [q]);
    Alone(p);
    Alone(q);
    if q.audio.None? {
      assert [p, q][1].audio.None?;
    } else {
      assert MergeGroup([p, q]) == Some(MergedAudio([p, q]));
    }
  }
}
