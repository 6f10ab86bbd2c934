/** Merging tool calls chunk by chunk gives what merging them all at once gives. */
module ToolCallsProperties {

  import opened Wrappers
  import opened ToolCalls

  lemma {:induction false} Together(a: seq<ToolCall>, b: seq<ToolCall>, k: int)
    ensures Group(a + b, k) == Group(a, k) + Group(b, k)
    ensures Unindexed(a + b) == Unindexed(a) + Unindexed(b)
    decreases |b|
  {
    if b == [] {
      assert a + b == a;
    } else {
      Together(a, b[..|b| - 1], k);
      assert (a + b)[..|a + b| - 1] == a + b[..|b| - 1];
    }
  }

  lemma IndicesTogether(a: seq<ToolCall>, b: seq<ToolCall>)
    ensures Indices(a + b) == Indices(a) + Indices(b)
  {
    forall k
      ensures k in Indices(a + b) <==> k in Indices(a) || k in Indices(b)
    {
      GroupOfNone(a, k);
      GroupOfNone(b, k);
      GroupOfNone(a + b, k);
      Together(a, b, k);
    }
  }

  /** A merged call can stand for its chunks. */
  lemma {:induction false} MergeAssociates(g: seq<ToolCall>, h: seq<ToolCall>)
    requires g != []
    requires MergeGroup(g).Some? ==> MergeGroup(g).value.kind == ""
    ensures MergeGroup(g).None? ==> MergeGroup(g + h).None?
    ensures MergeGroup(g).Some? ==> MergeGroup([MergeGroup(g).value] + h) == MergeGroup(g + h)
    decreases |h|
  {
    if h == [] {
      assert g + h == g;
      if MergeGroup(g).Some? {
        assert [MergeGroup(g).value] + h == [MergeGroup(g).value];
      }
    } else {
      var n := |h| - 1;
      MergeAssociates(g, h[..n]);
      assert (g + h)[..|g| + n] == g + h[..n];
      if MergeGroup(g).Some? {
        assert ([MergeGroup(g).value] + h)[..1 + n] == [MergeGroup(g).value] + h[..n];
      }
    }
  }

  lemma OneMoreCall(calls: seq<ToolCall>, last: ToolCall, k: int)
    requires last.index.Some?
    ensures Unindexed(calls + [last]) == Unindexed(calls)
    ensures Group(calls + [last], k) == Group(calls, k) + if last.index == Some(k) then [last] else []
  {
    assert (calls + [last])[..|calls|] == calls;
  }

  /** The calls of some indices, seen as chunks again. */
  lemma {:induction false} CallsAsChunks(chunks: seq<ToolCall>, keys: set<int>, k: int)
    requires Calls(chunks, keys).Some?
    ensures k in keys ==> Call(chunks, k).Some?
    ensures var calls := Calls(chunks, keys).value;
      Unindexed(calls) == [] && Group(calls, k) == if k in keys then [Call(chunks, k).value] else []
    decreases |keys|
  {
    if keys != {} {
      var m := Max(keys);
      CallsAsChunks(chunks, keys - {m}, k);
      CallIndex(chunks, m);
      OneMoreCall(Calls(chunks, keys - {m}).value, Call(chunks, m).value, k);
    }
  }

  lemma {:induction false} UnindexedAsChunks(chunks: seq<ToolCall>, k: int)
    ensures var first := Unindexed(chunks); Unindexed(first) == first && Group(first, k) == []
  {
    if chunks != [] {
      var n := |chunks| - 1;
      UnindexedAsChunks(chunks[..n], k);
      var first := Unindexed(chunks[..n]);
      if chunks[n].index.None? {
        assert (first + [chunks[n]])[..|first|] == first;
      } else {
        assert first + [] == first;
      }
    }
  }

  /** The result, seen as chunks again: one chunk for each index. */
  lemma ResultAsChunks(chunks: seq<ToolCall>, k: int)
    requires Concat(chunks).Ok?
    ensures k in Indices(chunks) ==> Call(chunks, k).Some?
    ensures var r := Concat(chunks).value;
      && Unindexed(r) == Unindexed(chunks)
      && Group(r, k) == if k in Indices(chunks) then [Call(chunks, k).value] else []
  {
    var first, calls := Unindexed(chunks), Calls(chunks, Indices(chunks)).value;
    UnindexedAsChunks(chunks, k);
    CallsAsChunks(chunks, Indices(chunks), k);
    Together(first, calls, k);
  }

  lemma {:induction false} CallsSame(a: seq<ToolCall>, b: seq<ToolCall>, keys: set<int>)
    requires forall k :: k in keys ==> Call(a, k) == Call(b, k)
    ensures Calls(a, keys) == Calls(b, keys)
    decreases |keys|
  {
    if keys != {} {
      CallsSame(a, b, keys - {Max(keys)});
    }
  }

  lemma CallKind(chunks: seq<ToolCall>, k: int)
    ensures Call(chunks, k).Some? ==> Call(chunks, k).value.kind == ""
  {
    if Call(chunks, k).Some? {
      CallIndex(chunks, k);
    }
  }

  /** The call of an index after the first chunks have been merged. */
  lemma CallAfter(a: seq<ToolCall>, b: seq<ToolCall>, k: int)
    requires Concat(a).Ok?
    ensures Call(Concat(a).value + b, k) == Call(a + b, k)
    ensures k in Indices(Concat(a).value) <==> k in Indices(a)
  {
    var r := Concat(a).value;
    ResultAsChunks(a, k);
    Together(r, b, k);
    Together(a, b, k);
    GroupOfNone(a, k);
    GroupOfNone(r, k);
    CallKind(a, k);
    if k in Indices(a) {
      MergeAssociates(Group(a, k), Group(b, k));
    }
  }

  lemma SameIndices(a: seq<ToolCall>)
    requires Concat(a).Ok?
    ensures Indices(Concat(a).value) == Indices(a)
  {
    forall k
      ensures k in Indices(Concat(a).value) <==> k in Indices(a)
    {
      CallAfter(a, [], k);
    }
  }

  lemma ConflictStays(a: seq<ToolCall>, b: seq<ToolCall>)
    requires Concat(a).Err?
    ensures Concat(a + b).Err?
  {
    CallsNone(a, Indices(a));
    var k :| k in Indices(a) && Call(a, k).None?;
    Together(a, b, k);
    GroupOfNone(a, k);
    MergeAssociates(Group(a, k), Group(b, k));
    IndicesTogether(a, b);
    CallsNone(a + b, Indices(a + b));
  }

  /** Merging is incremental: calls already merged may be merged with later chunks, with the
      same result or the same conflict. */
  lemma Incremental(a: seq<ToolCall>, b: seq<ToolCall>)
    ensures Concat(a).Err? ==> Concat(a + b).Err?
    ensures Concat(a).Ok? ==> Concat(Concat(a).value + b) == Concat(a + b)
  {
    if Concat(a).Err? {
      ConflictStays(a, b);
    } else {
      var r := Concat(a).value;
      forall k
        ensures Call(r + b, k) == Call(a + b, k)
      {
        CallAfter(a, b, k);
      }
      SameIndices(a);
      IndicesTogether(r, b);
      IndicesTogether(a, b);
      assert Indices(r + b) == Indices(a + b);
      CallsSame(r + b, a + b, Indices(a + b));
      ResultAsChunks(a, 0);
      Together(r, b, 0);
      Together(a, b, 0);
    }
  }

  /** Merging again changes nothing. */
  lemma Idempotent(a: seq<ToolCall>)
    requires Concat(a).Ok?
    ensures Concat(Concat(a).value) == Concat(a)
  {
    Incremental(a, []);
    assert a + [] == a && Concat(a).value + [] == Concat(a).value;
  }

  /** The result is in order of index, the chunks without one first: no two calls are the wrong
      way round, and no index occurs twice. */
  lemma {:induction false} CallsOrdered(chunks: seq<ToolCall>, keys: set<int>)
    requires Calls(chunks, keys).Some?
    ensures var calls := Calls(chunks, keys).value;
      && (forall i :: 0 <= i < |calls| ==> calls[i].index.Some? && calls[i].index.value in keys)
      && forall i, j :: 0 <= i < j < |calls| ==> Before(calls[i], calls[j])
    decreases |keys|
  {
    if keys != {} {
      var m := Max(keys);
      CallsOrdered(chunks, keys - {m});
      CallIndex(chunks, m);
      var before := Calls(chunks, keys - {m}).value;
      forall i | 0 <= i < |before|
        ensures before[i].index.value < m
      {
        assert before[i].index.value in keys - {m};
      }
    }
  }

  lemma ResultOrdered(chunks: seq<ToolCall>, i: nat, j: nat)
    requires Concat(chunks).Ok? && i < j < |Concat(chunks).value|
    ensures !Before(Concat(chunks).value[j], Concat(chunks).value[i])
    ensures Concat(chunks).value[j].index.Some? ==> Concat(chunks).value[i].index != Concat(chunks).value[j].index
  {
    CallsOrdered(chunks, Indices(chunks));
    UnindexedOnly(chunks);
  }

  // ---------------------------------------------------------------- what a merged call holds

  function Arguments(group: seq<ToolCall>): string {
    if group == [] then [] else Arguments(group[..|group| - 1]) + group[|group| - 1].arguments
  }

  /** A call holds all the arguments of its chunks, in order, and the one identifier and the one
      name they give. */
  lemma {:induction false} CallHoldsAll(group: seq<ToolCall>)
    requires MergeGroup(group).Some?
    ensures MergeGroup(group).value.arguments == Arguments(group)
    ensures forall i :: 0 <= i < |group| ==> Agree(group[i].id, MergeGroup(group).value.id)
    ensures forall i :: 0 <= i < |group| ==> Agree(group[i].name, MergeGroup(group).value.name)
    ensures forall i :: 0 <= i < |group| && group[i].id != "" ==> MergeGroup(group).value.id != ""
    ensures forall i :: 0 <= i < |group| && group[i].name != "" ==> MergeGroup(group).value.name != ""
    decreases |group|
  {
    if |group| == 1 {
      assert group[..0] == [];
    } else {
      CallHoldsAll(group[..|group| - 1]);
    }
  }

  /** Merging a call fails exactly when two of its chunks give different identifiers or names. */
  lemma {:induction false} ConflictExactly(group: seq<ToolCall>)
    requires group != []
    ensures MergeGroup(group).None? <==>
      exists i, j :: 0 <= i < j < |group| && !(Agree(group[i].id, group[j].id) && Agree(group[i].name, group[j].name))
    decreases |group|
  {
    if |group| > 1 {
      var n := |group| - 1;
      var before := group[..n];
      ConflictExactly(before);
      if MergeGroup(before).Some? {
        CallHoldsAll(before);
        IdFromSome(before);
      }
    }
  }

  /** The identifier and the name of a call are those of some of its chunks. */
  lemma {:induction false} IdFromSome(group: seq<ToolCall>)
    requires MergeGroup(group).Some?
    ensures exists i :: 0 <= i < |group| && group[i].id == MergeGroup(group).value.id
    ensures exists i :: 0 <= i < |group| && group[i].name == MergeGroup(group).value.name
    decreases |group|
  {
    if |group| == 1 {
      assert group[0].id == MergeGroup(group).value.id;
      assert group[0].name == MergeGroup(group).value.name;
    } else {
      var n := |group| - 1;
      IdFromSome(group[..n]);
      var i :| 0 <= i < n && group[..n][i].id == MergeGroup(group[..n]).value.id;
      var j :| 0 <= j < n && group[..n][j].name == MergeGroup(group[..n]).value.name;
      assert group[if MergeGroup(group[..n]).value.id == "" then n else i].id == MergeGroup(group).value.id;
      assert group[if MergeGroup(group[..n]).value.name == "" then n else j].name == MergeGroup(group).value.name;
    }
  }

  // ---------------------------------------------------------------- what a merged call loses

  /** A merged call has no type, and the extra data of its first chunk. */
  lemma {:induction false} TypeAndExtra(group: seq<ToolCall>)
    requires MergeGroup(group).Some?
    ensures MergeGroup(group).value.kind == "" && MergeGroup(group).value.extra == group[0].extra
    decreases |group|
  {
    if |group| > 1 {
      TypeAndExtra(group[..|group| - 1]);
    }
  }

  /** Whatever type or extra data a chunk of the group gives, the call has it. */
  predicate KeepsTypeAndExtra(group: seq<ToolCall>, call: ToolCall) {
    forall i :: 0 <= i < |group| ==>
      (group[i].kind == "" || group[i].kind == call.kind) && (group[i].extra.None? || group[i].extra == call.extra)
  }

  /** A call keeps the types and the extra data of its chunks exactly when no chunk gives a type,
      and none gives extra data other than the first chunk's. */
  lemma TypeAndExtraKeptExactly(chunks: seq<ToolCall>, k: int)
    requires Call(chunks, k).Some?
    ensures var group := Group(chunks, k);
      KeepsTypeAndExtra(group, Call(chunks, k).value) <==>
      forall i :: 0 <= i < |group| ==>
        group[i].kind == "" && (group[i].extra.None? || group[i].extra == group[0].extra)
  {
    TypeAndExtra(Group(chunks, k));
  }

  /** A call in two chunks that loses the type the first gives and the extra data of the second. */
  lemma TypeAndExtraLost()
    ensures var first := ToolCall(Some(0), "1", "function", "read", "{", None);
      var second := ToolCall(Some(0), "", "", "", "}", Some(7));
      Concat([first, second]) == Ok([ToolCall(Some(0), "1", "", "read", "{}", None)])
  {
    var first := ToolCall(Some(0), "1", "function", "read", "{", None);
    var second := ToolCall(Some(0), "", "", "", "}", Some(7));
    TwoChunks(first, second, 0);
    assert "{" + "}" == "{}";
    assert Extended(Opened(first), second) == Some(ToolCall(Some(0), "1", "", "read", "{}", None));
  }

  lemma TwoChunks(first: ToolCall, second: ToolCall, k: int)
    requires first.index == second.index == Some(k)
    ensures Unindexed([first, second]) == []
    ensures Extended(Opened(first), second).Some? ==>
      Concat([first, second]) == Ok([Extended(Opened(first), second).value])
  {
    var chunks := [first, second];
    assert chunks[..1] == [first] && [first][..0] == [];
    assert Group([first], k) == [first] && Group(chunks, k) == chunks;
    assert Unindexed([first]) == [];
    assert Indices(chunks) == {k} by {
      assert chunks[0].index == Some(k);
    }
    assert Max({k}) == k && {k} - {k} == {};
    assert Calls(chunks, {}) == Some([]);
    if Extended(Opened(first), second).Some? {
      var call := Extended(Opened(first), second).value;
      assert MergeGroup(chunks[..1]) == Some(Opened(first));
      assert Call(chunks, k) == Some(call);
      assert [] + [call] == [call];
      assert Calls(chunks, {k}) == Some([call]);
    }
  }

  // ---------------------------------------------------------------- the result, chunk by chunk

  function CountUnindexed(chunks: seq<ToolCall>, n: nat): nat
    requires n <= |chunks|
  {
    if n == 0 then 0 else CountUnindexed(chunks, n - 1) + if chunks[n - 1].index.None? then 1 else 0
  }

  lemma {:induction false} UnindexedInOrder(chunks: seq<ToolCall>)
    ensures |Unindexed(chunks)| == CountUnindexed(chunks, |chunks|)
    ensures forall i :: 0 <= i < |chunks| && chunks[i].index.None? ==>
      CountUnindexed(chunks, i) < |Unindexed(chunks)| && Unindexed(chunks)[CountUnindexed(chunks, i)] == chunks[i]
  {
    if chunks != [] {
      var n := |chunks| - 1;
      UnindexedInOrder(chunks[..n]);
      forall i | 0 <= i <= n
        ensures CountUnindexed(chunks[..n], i) == CountUnindexed(chunks, i)
      {
        CountOfPrefix(chunks, n, i);
      }
    }
  }

  lemma {:induction false} CountOfPrefix(chunks: seq<ToolCall>, n: nat, i: nat)
    requires i <= n <= |chunks|
    ensures CountUnindexed(chunks[..n], i) == CountUnindexed(chunks, i)
  {
    if i > 0 {
      CountOfPrefix(chunks, n, i - 1);
    }
  }

  /** The chunks without an index come first, as they are and in order. */
  lemma UnindexedKept(chunks: seq<ToolCall>, i: nat)
    requires Concat(chunks).Ok? && i < |chunks| && chunks[i].index.None?
    ensures var at := CountUnindexed(chunks, i);
      at < |Concat(chunks).value| && Concat(chunks).value[at] == chunks[i]
    ensures forall j :: CountUnindexed(chunks, |chunks|) <= j < |Concat(chunks).value| ==>
      Concat(chunks).value[j].index.Some?
  {
    UnindexedInOrder(chunks);
    CallsOrdered(chunks, Indices(chunks));
  }

  /** The arguments of the chunks with an index, one after the other. */
  function ArgumentsOf(chunks: seq<ToolCall>, k: int): string {
    if chunks == [] then []
    else
      var last := chunks[|chunks| - 1];
      ArgumentsOf(chunks[..|chunks| - 1], k) + if last.index == Some(k) then last.arguments else ""
  }

  lemma {:induction false} GroupArguments(chunks: seq<ToolCall>, k: int)
    ensures Arguments(Group(chunks, k)) == ArgumentsOf(chunks, k)
  {
    if chunks != [] {
      var n := |chunks| - 1;
      var before, last := Group(chunks[..n], k), chunks[n];
      GroupArguments(chunks[..n], k);
      if last.index == Some(k) {
        assert (before + [last])[..|before|] == before;
      } else {
        assert before + [] == before;
        assert ArgumentsOf(chunks[..n], k) + "" == ArgumentsOf(chunks[..n], k);
      }
    }
  }

  lemma {:induction false} GroupHas(chunks: seq<ToolCall>, k: int, i: nat) returns (j: nat)
    requires i < |chunks| && chunks[i].index == Some(k)
    ensures j < |Group(chunks, k)| && Group(chunks, k)[j] == chunks[i]
    ensures (forall l :: 0 <= l < i ==> chunks[l].index != Some(k)) ==> j == 0
  {
    var n := |chunks| - 1;
    if i == n {
      j := |Group(chunks[..n], k)|;
      if forall l :: 0 <= l < i ==> chunks[l].index != Some(k) {
        GroupOfNone(chunks[..n], k);
      }
    } else {
      j := GroupHas(chunks[..n], k, i);
    }
  }

  lemma {:induction false} CallsHave(chunks: seq<ToolCall>, keys: set<int>, k: int) returns (i: nat)
    requires Calls(chunks, keys).Some? && k in keys
    ensures Call(chunks, k).Some?
    ensures i < |Calls(chunks, keys).value| && Calls(chunks, keys).value[i] == Call(chunks, k).value
    decreases |keys|
  {
    var m := Max(keys);
    if k == m {
      i := |Calls(chunks, keys - {m}).value|;
    } else {
      i := CallsHave(chunks, keys - {m}, k);
    }
  }

  /** For every chunk with an index the result has the call of that index: it has all arguments of
      the index in order, agrees with the identifier and the name of the chunk, and has the extra
      data of the first chunk of the index, but no type. */
  lemma CallGathers(chunks: seq<ToolCall>, k: int, i: nat) returns (at: nat)
    requires Concat(chunks).Ok? && i < |chunks| && chunks[i].index == Some(k)
    ensures at < |Concat(chunks).value|
    ensures var call := Concat(chunks).value[at];
      && call.index == Some(k) && call.kind == "" && call.arguments == ArgumentsOf(chunks, k)
      && (chunks[i].id == "" || chunks[i].id == call.id) && (chunks[i].name == "" || chunks[i].name == call.name)
      && ((forall l :: 0 <= l < i ==> chunks[l].index != Some(k)) ==> call.extra == chunks[i].extra)
  {
    at := ResultHas(chunks, k, i);
    var g := GroupHas(chunks, k, i);
    CallIndex(chunks, k);
    GroupArguments(chunks, k);
    GroupGathers(Group(chunks, k), g, Call(chunks, k).value);
  }

  lemma ResultHas(chunks: seq<ToolCall>, k: int, i: nat) returns (at: nat)
    requires Concat(chunks).Ok? && i < |chunks| && chunks[i].index == Some(k)
    ensures Call(chunks, k).Some?
    ensures at < |Concat(chunks).value| && Concat(chunks).value[at] == Call(chunks, k).value
  {
    assert k in Indices(chunks);
    var j := CallsHave(chunks, Indices(chunks), k);
    at := |Unindexed(chunks)| + j;
  }

  lemma GroupGathers(group: seq<ToolCall>, g: nat, call: ToolCall)
    requires MergeGroup(group) == Some(call) && g < |group|
    ensures call.kind == "" && call.arguments == Arguments(group) && call.extra == group[0].extra
    ensures (group[g].id == "" || group[g].id == call.id) && (group[g].name == "" || group[g].name == call.name)
  {
    CallHoldsAll(group);
    TypeAndExtra(group);
    assert Agree(group[g].id, call.id) && Agree(group[g].name, call.name);
  }

  /** And it makes up no identifier and no name. */
  lemma IdAndNameGiven(chunks: seq<ToolCall>, k: int) returns (i: nat, j: nat)
    requires Call(chunks, k).Some?
    ensures i < |chunks| && chunks[i].index == Some(k) && Call(chunks, k).value.id == chunks[i].id
    ensures j < |chunks| && chunks[j].index == Some(k) && Call(chunks, k).value.name == chunks[j].name
  {
    var group := Group(chunks, k);
    IdFromSome(group);
    var a :| 0 <= a < |group| && group[a].id == Call(chunks, k).value.id;
    var b :| 0 <= b < |group| && group[b].name == Call(chunks, k).value.name;
    i := GroupFrom(chunks, k, a);
    j := GroupFrom(chunks, k, b);
  }

  lemma {:induction false} GroupFrom(chunks: seq<ToolCall>, k: int, j: nat) returns (i: nat)
    requires j < |Group(chunks, k)|
    ensures i < |chunks| && chunks[i] == Group(chunks, k)[j] && chunks[i].index == Some(k)
  {
    var n := |chunks| - 1;
    if j < |Group(chunks[..n], k)| {
      i := GroupFrom(chunks[..n], k, j);
    } else {
      i := n;
    }
  }

  /** Two chunks of one index that both give an identifier, or both a name, but not the same. */
  predicate Disagree(a: ToolCall, b: ToolCall) {
    && a.index.Some? && a.index == b.index
    && ((a.id != "" && b.id != "" && a.id != b.id) || (a.name != "" && b.name != "" && a.name != b.name))
  }

  lemma DisagreementFails(chunks: seq<ToolCall>, i: nat, j: nat)
    requires i < |chunks| && j < |chunks| && Disagree(chunks[i], chunks[j])
    ensures Concat(chunks).Err?
  {
    var k := chunks[i].index.value;
    assert k in Indices(chunks);
    var a := GroupHas(chunks, k, i);
    var b := GroupHas(chunks, k, j);
    InGroupFails(Group(chunks, k), a, b);
    CallsNone(chunks, Indices(chunks));
  }

  lemma InGroupFails(group: seq<ToolCall>, a: nat, b: nat)
    requires a < |group| && b < |group| && Disagree(group[a], group[b])
    ensures MergeGroup(group).None?
  {
    ConflictExactly(group);
    var lo, hi := if a < b then a else b, if a < b then b else a;
    assert !(Agree(group[lo].id, group[hi].id) && Agree(group[lo].name, group[hi].name));
  }

  lemma FailureDisagrees(chunks: seq<ToolCall>) returns (i: nat, j: nat)
    requires Concat(chunks).Err?
    ensures i < |chunks| && j < |chunks| && Disagree(chunks[i], chunks[j])
  {
    CallsNone(chunks, Indices(chunks));
    var k :| k in Indices(chunks) && Call(chunks, k).None?;
    var group := Group(chunks, k);
    GroupOfNone(chunks, k);
    ConflictExactly(group);
    var a, b :| 0 <= a < b < |group| && !(Agree(group[a].id, group[b].id) && Agree(group[a].name, group[b].name));
    i := GroupFrom(chunks, k, a);
    j := GroupFrom(chunks, k, b);
  }

  /** The chunks cannot be merged exactly when two of the same index give different identifiers or
      different names. */
  lemma ConcatFailsExactly(chunks: seq<ToolCall>)
    ensures Concat(chunks).Err? <==>
      exists i, j :: 0 <= i < |chunks| && 0 <= j < |chunks| && Disagree(chunks[i], chunks[j])
  {
    if Concat(chunks).Err? {
      var i, j := FailureDisagrees(chunks);
    }
    if i, j :| 0 <= i < |chunks| && 0 <= j < |chunks| && Disagree(chunks[i], chunks[j]) {
      DisagreementFails(chunks, i, j);
    }
  }

  lemma {:induction false} CallsOnly(chunks: seq<ToolCall>, keys: set<int>, i: nat)
    requires Calls(chunks, keys).Some? && i < |Calls(chunks, keys).value|
    ensures var call := Calls(chunks, keys).value[i];
      call.index.Some? && call.index.value in keys && Call(chunks, call.index.value) == Some(call)
    decreases |keys|
  {
    var m := Max(keys);
    CallIndex(chunks, m);
    if i < |Calls(chunks, keys - {m}).value| {
      CallsOnly(chunks, keys - {m}, i);
    }
  }

  /** The result has nothing else: a call with an index is the call of that index, and some chunk
      has that index. */
  lemma NothingElse(chunks: seq<ToolCall>, at: nat)
    requires Concat(chunks).Ok? && CountUnindexed(chunks, |chunks|) <= at < |Concat(chunks).value|
    ensures var call := Concat(chunks).value[at];
      && call.index.Some? && Call(chunks, call.index.value) == Some(call)
      && exists i :: 0 <= i < |chunks| && chunks[i].index == call.index
  {
    UnindexedInOrder(chunks);
    CallsOnly(chunks, Indices(chunks), at - |Unindexed(chunks)|);
    var k := Concat(chunks).value[at].index.value;
    var i :| 0 <= i < |chunks| && chunks[i].index == Some(k);
  }
}
