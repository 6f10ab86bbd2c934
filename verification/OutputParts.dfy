/**
 Merging the parts of a streamed message: neighbouring chunks of the same text, reasoning or
 inline audio become one part. Parts carry no extra data here.
 */
module OutputParts {

  import opened Wrappers

  datatype Kind = TextKind | ReasoningKind | AudioKind | OtherKind(code: int)

  datatype Reasoning = Reasoning(text: string, signature: string)

  datatype Audio = Audio(url: Option<string>, base64: Option<string>, mimeType: string)

  /** `meta` is the index of the stream the part belongs to, if it has one; `other` stands for
      an image or a video. */
  datatype Part = Part(
    kind: Kind,
    text: string,
    reasoning: Option<Reasoning>,
    audio: Option<Audio>,
    other: Option<nat>,
    meta: Option<int>)

  // ---------------------------------------------------------------- what belongs together

  predicate IsBase64(p: Part) {
    p.kind == AudioKind && p.audio.Some? && p.audio.value.base64.Some? && p.audio.value.url.None?
  }

  predicate Mergeable(p: Part) {
    p.kind == TextKind || p.kind == ReasoningKind || IsBase64(p)
  }

  predicate CanMerge(current: Part, next: Part) {
    current.kind == next.kind && Mergeable(current) && current.meta == next.meta
  }

  /** The groups, the first of which has started as `current`. */
  function Groups(current: seq<Part>, rest: seq<Part>): (r: seq<seq<Part>>)
    requires current != []
    ensures r != []
    decreases |rest|
  {
    if rest == [] then [current]
    else if CanMerge(current[0], rest[0]) then Groups(current + [rest[0]], rest[1..])
    else [current] + Groups([rest[0]], rest[1..])
  }

  method GroupOutputParts(parts: seq<Part>) returns (groups: seq<seq<Part>>)
    ensures groups == if parts == [] then [] else Groups([parts[0]], parts[1..])
  {
    groups := [];
    if |parts| == 0 {
      return;
    }
    var currentGroup := [parts[0]];
    var i := 1;
    while i < |parts|
      invariant 1 <= i <= |parts| && currentGroup != []
      invariant groups + Groups(currentGroup, parts[i..]) == Groups([parts[0]], parts[1..])
    {
      assert parts[i..][0] == parts[i] && parts[i..][1..] == parts[i + 1..];
      if CanMerge(currentGroup[0], parts[i]) {
        currentGroup := currentGroup + [parts[i]];
      } else {
        groups := groups + [currentGroup];
        currentGroup := [parts[i]];
      }
      i := i + 1;
    }
    groups := groups + [currentGroup];
  }

  // ---------------------------------------------------------------- merging a group

  /** What the parts of a group contribute, one after the other. */
  function Join(group: seq<Part>, of: Part -> string): string {
    if group == [] then [] else Join(group[..|group| - 1], of) + of(group[|group| - 1])
  }

  function TextOf(p: Part): string {
    p.text
  }

  function ThoughtOf(p: Part): string {
    if p.reasoning.Some? then p.reasoning.value.text else ""
  }

  function SoundOf(p: Part): string {
    if p.audio.Some? && p.audio.value.base64.Some? then p.audio.value.base64.value else ""
  }

  /** The last signature that is not empty. */
  function Signature(group: seq<Part>): string {
    if group == [] then []
    else
      var last := group[|group| - 1];
      if last.reasoning.Some? && last.reasoning.value.signature != [] then last.reasoning.value.signature
      else Signature(group[..|group| - 1])
  }

  /** The first media type that is not empty. */
  function MimeType(group: seq<Part>): string {
    if group == [] then []
    else
      var before := MimeType(group[..|group| - 1]);
      var last := group[|group| - 1];
      if before == [] && last.audio.Some? then last.audio.value.mimeType else before
  }

  predicate AllHaveAudio(group: seq<Part>) {
    forall i :: 0 <= i < |group| ==> group[i].audio.Some?
  }

  function MergedText(group: seq<Part>): Part
    requires group != []
  {
    Part(TextKind, Join(group, TextOf), None, None, None, group[0].meta)
  }

  function MergedReasoning(group: seq<Part>): Part
    requires group != []
  {
    Part(ReasoningKind, [], Some(Reasoning(Join(group, ThoughtOf), Signature(group))), None, None, group[0].meta)
  }

  function MergedAudio(group: seq<Part>): Part
    requires group != []
  {
    Part(AudioKind, [], None, Some(Audio(None, Some(Join(group, SoundOf)), MimeType(group))), None, group[0].meta)
  }

  const ZERO_PART := Part(OtherKind(0), "", None, None, None, None)

  /** Nothing when the audio merger would dereference a missing audio. */
  function MergeGroup(group: seq<Part>): Option<Part> {
    if |group| == 0 then Some(ZERO_PART)
    else if |group| == 1 then Some(group[0])
    else
      match group[0].kind
      case TextKind => Some(MergedText(group))
      case ReasoningKind => Some(MergedReasoning(group))
      case AudioKind =>
        if !IsBase64(group[0]) then Some(group[0])
        else if AllHaveAudio(group) then Some(MergedAudio(group))
        else None
      case OtherKind(_) => Some(group[0])
  }

  method MergeTextParts(group: seq<Part>) returns (r: Part)
    requires group != []
    ensures r == MergedText(group)
  {
    var sb := "";
    var i := 0;
    while i < |group|
      invariant 0 <= i <= |group| && sb == Join(group[..i], TextOf)
    {
      assert group[..i + 1][..i] == group[..i];
      sb := sb + group[i].text;
      i := i + 1;
    }
    assert group[..i] == group;
    r := Part(TextKind, sb, None, None, None, group[0].meta);
  }

  method MergeReasoningParts(group: seq<Part>) returns (r: Part)
    requires group != []
    ensures r == MergedReasoning(group)
  {
    var textBuilder, signature := "", "";
    var i := 0;
    while i < |group|
      invariant 0 <= i <= |group|
      invariant textBuilder == Join(group[..i], ThoughtOf) && signature == Signature(group[..i])
    {
      assert group[..i + 1][..i] == group[..i];
      if group[i].reasoning.Some? {
        textBuilder := textBuilder + group[i].reasoning.value.text;
        if group[i].reasoning.value.signature != "" {
          signature := group[i].reasoning.value.signature;
        }
      }
      i := i + 1;
    }
    assert group[..i] == group;
    r := Part(ReasoningKind, "", Some(Reasoning(textBuilder, signature)), None, None, group[0].meta);
  }

  method MergeAudioParts(group: seq<Part>) returns (r: Option<Part>)
    requires group != []
    ensures r == if AllHaveAudio(group) then Some(MergedAudio(group)) else None
  {
    var b64Builder, mimeType := "", "";
    var i := 0;
    while i < |group|
      invariant 0 <= i <= |group|
      invariant AllHaveAudio(group[..i])
      invariant b64Builder == Join(group[..i], SoundOf) && mimeType == MimeType(group[..i])
    {
      assert group[..i + 1][..i] == group[..i];
      if group[i].audio.None? {
        return None;
      }
      var audioPart := group[i].audio.value;
      if audioPart.base64.Some? {
        b64Builder := b64Builder + audioPart.base64.value;
      }
      if mimeType == "" {
        mimeType := audioPart.mimeType;
      }
      i := i + 1;
    }
    assert group[..i] == group;
    r := Some(Part(AudioKind, "", None, Some(Audio(None, Some(b64Builder), mimeType)), None, group[0].meta));
  }

  method MergeOutputPartGroup(group: seq<Part>) returns (r: Option<Part>)
    ensures r == MergeGroup(group)
  {
    if |group| == 0 {
      return Some(ZERO_PART);
    }
    if |group| == 1 {
      return Some(group[0]);
    }
    var first := group[0];
    if first.kind == TextKind {
      var part := MergeTextParts(group);
      return Some(part);
    } else if first.kind == ReasoningKind {
      var part := MergeReasoningParts(group);
      return Some(part);
    } else if first.kind == AudioKind && IsBase64(first) {
      r := MergeAudioParts(group);
      return;
    }
    return Some(first);
  }

  // ---------------------------------------------------------------- the whole message

  function Then(first: Option<Part>, rest: Option<seq<Part>>): Option<seq<Part>> {
    if first.None? || rest.None? then None else Some([first.value] + rest.value)
  }

  function MergeAll(groups: seq<seq<Part>>): Option<seq<Part>> {
    if groups == [] then Some([]) else Then(MergeGroup(groups[0]), MergeAll(groups[1..]))
  }

  function Concat(parts: seq<Part>): Option<seq<Part>> {
    if parts == [] then Some([]) else MergeAll(Groups([parts[0]], parts[1..]))
  }

  lemma {:induction false} MergeAllAppend(groups: seq<seq<Part>>, last: seq<Part>)
    ensures MergeAll(groups + [last]) ==
      if MergeAll(groups).None? then None
      else if MergeGroup(last).None? then None
      else Some(MergeAll(groups).value + [MergeGroup(last).value])
  {
    var all := groups + [last];
    if groups == [] {
      assert all == [last] && all[1..] == [];
      if MergeGroup(last).Some? {
        assert [MergeGroup(last).value] + [] == [] + [MergeGroup(last).value];
      }
    } else {
      MergeAllAppend(groups[1..], last);
      assert all[0] == groups[0] && all[1..] == groups[1..] + [last];
      if MergeAll(all).Some? {
        var first, rest, end := MergeGroup(groups[0]).value, MergeAll(groups[1..]).value, MergeGroup(last).value;
        assert [first] + (rest + [end]) == [first] + rest + [end];
      }
    }
  }

  lemma {:induction false} MergeAllPrefix(groups: seq<seq<Part>>, i: nat)
    requires i <= |groups|
    ensures MergeAll(groups[..i]).None? ==> MergeAll(groups).None?
  {
    if i > 0 && groups != [] {
      MergeAllPrefix(groups[1..], i - 1);
      assert groups[..i][1..] == groups[1..][..i - 1];
    }
  }

  method ConcatAssistantMultiContent(parts: seq<Part>) returns (r: Option<seq<Part>>)
    ensures r == Concat(parts)
  {
    if |parts| == 0 {
      return Some(parts);
    }
    var groups := GroupOutputParts(parts);
    var merged := [];
    var i := 0;
    while i < |groups|
      invariant 0 <= i <= |groups| && groups == Groups([parts[0]], parts[1..])
      invariant MergeAll(groups[..i]) == Some(merged)
    {
      assert groups[..i + 1] == groups[..i] + [groups[i]];
      MergeAllAppend(groups[..i], groups[i]);
      MergeAllPrefix(groups, i + 1);
      var mergedPart := MergeOutputPartGroup(groups[i]);
      if mergedPart.None? {
        return None;
      }
      merged := merged + [mergedPart.value];
      i := i + 1;
    }
    assert groups[..i] == groups;
    return Some(merged);
  }
}
