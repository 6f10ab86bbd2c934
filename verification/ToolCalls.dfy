/**
 Merging the chunks of streamed tool calls. Chunks with the same index are pieces of one
 call: their arguments are joined, and they must agree on identifier and name. Chunks
 without an index are kept as they are and come first.
 */
module ToolCalls {

  import opened Wrappers

  datatype ToolCall = ToolCall(
    index: Option<int>,
    id: string,
    kind: string,
    name: string,
    arguments: string,
    extra: Option<nat>)

  /** Two chunks of one call disagree; which of several disagreements is reported depends on the
      order in which the indices are visited. */
  datatype Conflict = Conflict

  // ---------------------------------------------------------------- one call

  /** The first chunk of a call, whose type is always cleared. */
  function Opened(chunk: ToolCall): ToolCall {
    chunk.(kind := "")
  }

  predicate Agree(a: string, b: string) {
    a == "" || b == "" || a == b
  }

  function Either(a: string, b: string): string {
    if a == "" then b else a
  }

  function Extended(call: ToolCall, chunk: ToolCall): Option<ToolCall> {
    if Agree(call.id, chunk.id) && Agree(call.name, chunk.name) then
      Some(call.(id := Either(call.id, chunk.id), name := Either(call.name, chunk.name),
                 arguments := call.arguments + chunk.arguments))
    else None
  }

  /** The chunks with this index, in order. */
  function Group(chunks: seq<ToolCall>, index: int): seq<ToolCall> {
    if chunks == [] then []
    else
      var last := chunks[|chunks| - 1];
      Group(chunks[..|chunks| - 1], index) + if last.index == Some(index) then [last] else []
  }

  /** The call the chunks of one index make; nothing when they disagree. */
  function MergeGroup(group: seq<ToolCall>): Option<ToolCall> {
    if group == [] then None
    else if |group| == 1 then Some(Opened(group[0]))
    else
      match MergeGroup(group[..|group| - 1])
      case None => None
      case Some(call) => Extended(call, group[|group| - 1])
  }

  function Call(chunks: seq<ToolCall>, index: int): Option<ToolCall> {
    MergeGroup(Group(chunks, index))
  }

  // ---------------------------------------------------------------- all calls

  /** The chunks without an index, in order. */
  function Unindexed(chunks: seq<ToolCall>): seq<ToolCall> {
    if chunks == [] then []
    else
      var last := chunks[|chunks| - 1];
      Unindexed(chunks[..|chunks| - 1]) + if last.index.None? then [last] else []
  }

  function Indices(chunks: seq<ToolCall>): set<int> {
    set i | 0 <= i < |chunks| && chunks[i].index.Some? :: chunks[i].index.value
  }

  ghost predicate IsMax(m: int, keys: set<int>) {
    m in keys && forall k :: k in keys ==> k <= m
  }

  lemma HasOne(keys: set<int>)
    requires keys != {}
    ensures exists k :: k in keys
  {
    assert (forall k :: k !in keys) ==> keys <= {};
  }

  lemma {:induction false} MaxExists(keys: set<int>) returns (m: int)
    requires keys != {}
    ensures IsMax(m, keys)
    decreases |keys|
  {
    HasOne(keys);
    var k :| k in keys;
    if keys - {k} == {} {
      assert forall j :: j in keys ==> j == k || j in keys - {k};
      m := k;
    } else {
      var n := MaxExists(keys - {k});
      assert forall j :: j in keys ==> j == k || j in keys - {k};
      m := if k < n then n else k;
    }
  }

  ghost function Max(keys: set<int>): (m: int)
    requires keys != {}
    ensures IsMax(m, keys)
  {
    assert exists m :: IsMax(m, keys) by {
      var m := MaxExists(keys);
    }
    var m :| IsMax(m, keys);
    m
  }

  /** The calls with these indices, by increasing index; nothing when the chunks of one disagree. */
  ghost function Calls(chunks: seq<ToolCall>, keys: set<int>): Option<seq<ToolCall>>
    decreases |keys|
  {
    if keys == {} then Some([])
    else
      var m := Max(keys);
      var before := Calls(chunks, keys - {m});
      var call := Call(chunks, m);
      if before.None? || call.None? then None else Some(before.value + [call.value])
  }

  ghost function Concat(chunks: seq<ToolCall>): Result<seq<ToolCall>, Conflict> {
    match Calls(chunks, Indices(chunks))
    case None => Err(Conflict.Conflict)
    case Some(calls) => Ok(Unindexed(chunks) + calls)
  }

  // ---------------------------------------------------------------- the stable sort

  predicate Before(a: ToolCall, b: ToolCall) {
    match (a.index, b.index)
    case (None, None) => false
    case (None, Some(_)) => true
    case (Some(_), None) => false
    case (Some(i), Some(j)) => i < j
  }

  /** Stable insertion: after everything it does not come before. */
  function Insert(sorted: seq<ToolCall>, call: ToolCall): seq<ToolCall> {
    if sorted != [] && Before(call, sorted[|sorted| - 1]) then
      Insert(sorted[..|sorted| - 1], call) + [sorted[|sorted| - 1]]
    else sorted + [call]
  }

  /** What a stable sort by index makes of the calls. */
  function Sorted(calls: seq<ToolCall>): seq<ToolCall> {
    if calls == [] then [] else Insert(Sorted(calls[..|calls| - 1]), calls[|calls| - 1])
  }

  // ---------------------------------------------------------------- the merging loops

  lemma {:induction false} Doomed(group: seq<ToolCall>, i: nat)
    requires 0 < i <= |group| && MergeGroup(group[..i]).None?
    ensures MergeGroup(group).None?
    decreases |group|
  {
    if i == |group| {
      assert group[..i] == group;
    } else {
      var n := |group| - 1;
      assert group[..n][..i] == group[..i];
      Doomed(group[..n], i);
    }
  }

  /** Each further chunk opens the call or extends it. */
  lemma Grown(group: seq<ToolCall>, i: nat)
    requires i < |group|
    ensures MergeGroup(group[..i + 1]) ==
      if i == 0 then Some(Opened(group[0]))
      else if MergeGroup(group[..i]).None? then None
      else Extended(MergeGroup(group[..i]).value, group[i])
  {
    assert group[..i + 1][..i] == group[..i];
  }

  /** The chunks at these positions. */
  function Selected(chunks: seq<ToolCall>, v: seq<nat>): (r: seq<ToolCall>)
    requires forall i :: 0 <= i < |v| ==> v[i] < |chunks|
    ensures |r| == |v| && forall i :: 0 <= i < |v| ==> r[i] == chunks[v[i]]
  {
    if v == [] then [] else Selected(chunks, v[..|v| - 1]) + [chunks[v[|v| - 1]]]
  }

  method MergeCall(chunks: seq<ToolCall>, v: seq<nat>) returns (r: Option<ToolCall>)
    requires v != [] && forall i :: 0 <= i < |v| ==> v[i] < |chunks|
    ensures r == MergeGroup(Selected(chunks, v))
  {
    ghost var group := Selected(chunks, v);
    var toolCall := chunks[v[0]];
    var toolID, toolName, args := "", "", "";
    var i := 0;
    while i < |v|
      invariant 0 <= i <= |v|
      invariant i == 0 ==> toolID == "" && toolName == "" && args == ""
      invariant i > 0 ==>
        MergeGroup(group[..i]) == Some(toolCall.(id := toolID, kind := "", name := toolName, arguments := args))
    {
      var chunk := chunks[v[i]];
      Grown(group, i);
      assert "" + chunk.arguments == chunk.arguments;
      if chunk.id != "" {
        if toolID == "" {
          toolID := chunk.id;
        } else if toolID != chunk.id {
          Doomed(group, i + 1);
          return None;
        }
      }
      if chunk.name != "" {
        if toolName == "" {
          toolName := chunk.name;
        } else if toolName != chunk.name {
          Doomed(group, i + 1);
          return None;
        }
      }
      args := args + chunk.arguments;
      i := i + 1;
    }
    assert group[..i] == group;
    r := Some(toolCall.(id := toolID, kind := "", name := toolName, arguments := args));
  }

  /** These are the positions of the chunks with index `k`. */
  ghost predicate Holds(chunks: seq<ToolCall>, v: seq<nat>, k: int) {
    v != [] && (forall i :: 0 <= i < |v| ==> v[i] < |chunks|) && Selected(chunks, v) == Group(chunks, k)
  }

  /** What has been read of the chunks: those without an index, and the positions of the others. */
  ghost predicate Sorting(chunks: seq<ToolCall>, merged: seq<ToolCall>, m: map<int, seq<nat>>) {
    && merged == Unindexed(chunks)
    && m.Keys == Indices(chunks)
    && forall k :: k in m ==> Holds(chunks, m[k], k)
  }

  method SortChunks(chunks: seq<ToolCall>) returns (merged: seq<ToolCall>, m: map<int, seq<nat>>)
    ensures Sorting(chunks, merged, m)
  {
    merged := [];
    m := map[];
    var i := 0;
    while i < |chunks|
      invariant 0 <= i <= |chunks|
      invariant Sorting(chunks[..i], merged, m)
    {
      var index := chunks[i].index;
      ghost var before := chunks[..i];
      assert chunks[..i + 1] == before + [chunks[i]];
      assert (before + [chunks[i]])[..i] == before;
      IndicesGrow(before, chunks[i]);
      StillHolds(before, m, chunks[i]);
      if index.None? {
        merged := merged + [chunks[i]];
      } else {
        NowHolds(before, m, chunks[i]);
        m := m[index.value := (if index.value in m then m[index.value] else []) + [i]];
      }
      i := i + 1;
    }
    assert chunks[..i] == chunks;
  }

  lemma {:induction false} SelectedMore(chunks: seq<ToolCall>, v: seq<nat>, chunk: ToolCall)
    requires forall i :: 0 <= i < |v| ==> v[i] < |chunks|
    ensures Selected(chunks + [chunk], v) == Selected(chunks, v)
    ensures Selected(chunks + [chunk], v + [|chunks|]) == Selected(chunks, v) + [chunk]
  {
  }

  lemma StillHolds(chunks: seq<ToolCall>, m: map<int, seq<nat>>, chunk: ToolCall)
    requires forall k :: k in m ==> Holds(chunks, m[k], k)
    ensures forall k :: k in m && chunk.index != Some(k) ==> Holds(chunks + [chunk], m[k], k)
  {
    assert (chunks + [chunk])[..|chunks|] == chunks;
    forall k | k in m && chunk.index != Some(k)
      ensures Holds(chunks + [chunk], m[k], k)
    {
      assert Holds(chunks, m[k], k);
      SelectedMore(chunks, m[k], chunk);
    }
  }

  lemma NowHolds(chunks: seq<ToolCall>, m: map<int, seq<nat>>, chunk: ToolCall)
    requires chunk.index.Some? && m.Keys == Indices(chunks)
    requires forall k :: k in m ==> Holds(chunks, m[k], k)
    ensures var k := chunk.index.value;
      Holds(chunks + [chunk], (if k in m then m[k] else []) + [|chunks|], k)
  {
    var k := chunk.index.value;
    assert (chunks + [chunk])[..|chunks|] == chunks;
    if k in m {
      assert Holds(chunks, m[k], k);
      SelectedMore(chunks, m[k], chunk);
    } else {
      GroupOfNone(chunks, k);
      SelectedMore(chunks, [], chunk);
    }
  }

  lemma IndicesGrow(chunks: seq<ToolCall>, chunk: ToolCall)
    ensures Indices(chunks + [chunk]) ==
      Indices(chunks) + if chunk.index.Some? then {chunk.index.value} else {}
  {
    var all := chunks + [chunk];
    forall k | k in Indices(chunks)
      ensures k in Indices(all)
    {
      var i :| 0 <= i < |chunks| && chunks[i].index == Some(k);
      assert all[i] == chunks[i];
    }
    if chunk.index.Some? {
      assert all[|chunks|].index == Some(chunk.index.value);
    }
  }

  lemma {:induction false} GroupOfNone(chunks: seq<ToolCall>, k: int)
    ensures Group(chunks, k) == [] <==> k !in Indices(chunks)
    ensures forall i :: 0 <= i < |Group(chunks, k)| ==> Group(chunks, k)[i].index == Some(k)
  {
    if chunks != [] {
      var n := |chunks| - 1;
      GroupOfNone(chunks[..n], k);
      IndicesGrow(chunks[..n], chunks[n]);
      assert chunks == chunks[..n] + [chunks[n]];
    }
  }

  // ---------------------------------------------------------------- the calls in order

  /** A merged call keeps its index and has no type, and merging it alone changes nothing. */
  lemma {:induction false} MergedIndex(group: seq<ToolCall>, k: int)
    requires MergeGroup(group).Some? && forall i :: 0 <= i < |group| ==> group[i].index == Some(k)
    ensures MergeGroup(group).value.index == Some(k) && MergeGroup(group).value.kind == ""
    decreases |group|
  {
    if |group| > 1 {
      MergedIndex(group[..|group| - 1], k);
    }
  }

  lemma CallIndex(chunks: seq<ToolCall>, k: int)
    requires Call(chunks, k).Some?
    ensures Call(chunks, k).value.index == Some(k) && Call(chunks, k).value.kind == ""
  {
    GroupOfNone(chunks, k);
    MergedIndex(Group(chunks, k), k);
  }

  /** There is no list of calls exactly when some index has no call. */
  lemma {:induction false} CallsNone(chunks: seq<ToolCall>, keys: set<int>)
    ensures Calls(chunks, keys).None? <==> exists k :: k in keys && Call(chunks, k).None?
    decreases |keys|
  {
    if keys != {} {
      var m := Max(keys);
      CallsNone(chunks, keys - {m});
      if k :| k in keys && Call(chunks, k).None? {
        assert k != m ==> k in keys - {m};
      }
    }
  }

  /** Inserting the call of a further index into the calls of others puts it in its place. */
  lemma {:induction false} InsertCall(chunks: seq<ToolCall>, keys: set<int>, k: int, first: seq<ToolCall>)
    requires k !in keys && Calls(chunks, keys).Some? && Call(chunks, k).Some?
    requires forall i :: 0 <= i < |first| ==> first[i].index.None?
    ensures Calls(chunks, keys + {k}).Some?
    ensures Insert(first + Calls(chunks, keys).value, Call(chunks, k).value) == first + Calls(chunks, keys + {k}).value
    decreases |keys|
  {
    var more := keys + {k};
    var call := Call(chunks, k).value;
    CallIndex(chunks, k);
    if keys == {} {
      assert more == {k} && Max(more) == k && more - {k} == {};
      assert first + [] == first;
    } else {
      var m, n := Max(keys), Max(more);
      assert n == if k > m then k else m;
      CallIndex(chunks, m);
      var before, last := Calls(chunks, keys - {m}).value, Call(chunks, m).value;
      var s := first + Calls(chunks, keys).value;
      assert s == first + before + [last];
      if k > m {
        assert more - {n} == keys;
      } else {
        assert more - {n} == keys - {m} + {k};
        InsertCall(chunks, keys - {m}, k, first);
        assert s[..|s| - 1] == first + before;
      }
    }
  }

  lemma {:induction false} SortUnindexed(chunks: seq<ToolCall>)
    requires forall i :: 0 <= i < |chunks| ==> chunks[i].index.None?
    ensures Sorted(chunks) == chunks
    decreases |chunks|
  {
    if chunks != [] {
      SortUnindexed(chunks[..|chunks| - 1]);
    }
  }

  lemma {:induction false} UnindexedOnly(chunks: seq<ToolCall>)
    ensures forall i :: 0 <= i < |Unindexed(chunks)| ==> Unindexed(chunks)[i].index.None?
  {
    if chunks != [] {
      UnindexedOnly(chunks[..|chunks| - 1]);
    }
  }

  /** Visits the indices in any order and appends the call of each. */
  method MergeCalls(chunks: seq<ToolCall>, unindexed: seq<ToolCall>, m: map<int, seq<nat>>)
    returns (r: Option<seq<ToolCall>>)
    requires Sorting(chunks, unindexed, m)
    ensures r.None? ==> Calls(chunks, Indices(chunks)).None?
    ensures r.Some? ==> InOrder(chunks, Indices(chunks), r.value, unindexed)
  {
    var merged := unindexed;
    var left := m.Keys;
    StartSorted(chunks);
    assert Indices(chunks) - left == {};
    while left != {}
      invariant left <= Indices(chunks)
      invariant InOrder(chunks, Indices(chunks) - left, merged, unindexed)
      decreases |left|
    {
      HasOne(left);
      var k :| k in left;
      assert Holds(chunks, m[k], k);
      var toolCall := MergeCall(chunks, m[k]);
      if toolCall.None? {
        CallsNone(chunks, Indices(chunks));
        return None;
      }
      StaysInOrder(chunks, Indices(chunks) - left, merged, unindexed, k);
      assert Indices(chunks) - left + {k} == Indices(chunks) - (left - {k});
      merged := merged + [toolCall.value];
      left := left - {k};
    }
    assert Indices(chunks) - left == Indices(chunks);
    r := Some(merged);
  }

  /** The whole merge: the result does not depend on the order in which indices are visited. */
  method ConcatToolCalls(chunks: seq<ToolCall>) returns (r: Result<seq<ToolCall>, Conflict>)
    ensures r == Concat(chunks)
  {
    var unindexed, m := SortChunks(chunks);
    var visited := MergeCalls(chunks, unindexed, m);
    if visited.None? {
      return Err(Conflict.Conflict);
    }
    var merged := visited.value;
    if |merged| > 1 {
      merged := Sorted(merged);
    } else {
      SortShort(merged);
    }
    r := Ok(merged);
  }

  /** The calls merged so far, once sorted, are the chunks without an index and the calls of
      the indices visited. */
  ghost predicate InOrder(chunks: seq<ToolCall>, keys: set<int>, merged: seq<ToolCall>, first: seq<ToolCall>) {
    && first == Unindexed(chunks)
    && Calls(chunks, keys).Some?
    && Sorted(merged) == first + Calls(chunks, keys).value
  }

  lemma StartSorted(chunks: seq<ToolCall>)
    ensures InOrder(chunks, {}, Unindexed(chunks), Unindexed(chunks))
  {
    UnindexedOnly(chunks);
    SortUnindexed(Unindexed(chunks));
    assert Unindexed(chunks) + [] == Unindexed(chunks);
  }

  lemma StaysInOrder(chunks: seq<ToolCall>, keys: set<int>, merged: seq<ToolCall>, first: seq<ToolCall>, k: int)
    requires InOrder(chunks, keys, merged, first) && k !in keys && Call(chunks, k).Some?
    ensures InOrder(chunks, keys + {k}, merged + [Call(chunks, k).value], first)
  {
    UnindexedOnly(chunks);
    InsertCall(chunks, keys, k, first);
    assert (merged + [Call(chunks, k).value])[..|merged|] == merged;
  }

  lemma SortShort(calls: seq<ToolCall>)
    requires |calls| <= 1
    ensures Sorted(calls) == calls
  {
    if calls != [] {
      assert calls[..0] == [];
    }
  }
}
