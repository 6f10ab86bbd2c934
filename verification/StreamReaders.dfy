/** The readers themselves, on the heap: the array reader, the parent of the copies with
    its linked cells, and its two operations taken one at a time. */
module StreamReaders {

  import opened StreamCopy

  /** A reader over an array; it has no error other than the end. */
  class ArrayReader<T> {
    const arr: seq<T>
    var index: nat

    constructor (arr: seq<T>, index: nat)
      ensures this.arr == arr && this.index == index
    {
      this.arr := arr;
      this.index := index;
    }

    /** What is still to come. */
    ghost function Remaining(): seq<T>
      requires index <= |arr|
      reads this
    {
      arr[index..]
    }

    method Recv() returns (item: Item<T>)
      requires index <= |arr|
      modifies this
      ensures index <= |arr|
      ensures old(Remaining()) == [] ==> item == Eof && Remaining() == []
      ensures old(Remaining()) != [] ==> item == Chunk(old(Remaining())[0]) && Remaining() == old(Remaining())[1..]
    {
      if index < |arr| {
        item := Chunk(arr[index]);
        index := index + 1;
      } else {
        item := Eof;
      }
    }

    /** Copies share the array and start where the original is, each with its own index. */
    method Copy(n: nat) returns (copies: seq<ArrayReader<T>>)
      requires index <= |arr|
      ensures |copies| == n
      ensures forall i :: 0 <= i < n ==>
        fresh(copies[i]) && copies[i].index <= |copies[i].arr| && copies[i].Remaining() == Remaining()
      ensures forall i, j :: 0 <= i < j < n ==> copies[i] != copies[j]
    {
      copies := [];
      for k := 0 to n
        invariant |copies| == k
        invariant forall i :: 0 <= i < k ==>
          fresh(copies[i]) && copies[i].index <= |copies[i].arr| && copies[i].Remaining() == Remaining()
        invariant forall i, j :: 0 <= i < j < k ==> copies[i] != copies[j]
      {
        var copy := new ArrayReader(arr, index);
        copies := copies + [copy];
      }
    }
  }

  /** Any source: it gives the answers of `script`, then the end. */
  class Source<T> {
    const script: seq<Item<T>>
    var answered: seq<Item<T>>
    var closes: nat

    constructor (script: seq<Item<T>>)
      ensures this.script == script && answered == [] && closes == 0
    {
      this.script := script;
      answered, closes := [], 0;
    }

    method Recv() returns (item: Item<T>)
      modifies this`answered
      ensures answered == old(answered) + [item]
      ensures item == if |old(answered)| < |script| then script[|old(answered)|] else Eof
    {
      item := if |answered| < |script| then script[|answered|] else Eof;
      answered := answered + [item];
    }

    method Close()
      modifies this`closes
      ensures closes == old(closes) + 1
    {
      closes := closes + 1;
    }
  }

  class Element<T> {
    var done: bool
    var item: Item<T>
    var next: Element?<T>
    ghost const place: nat  // its place in the list

    constructor (ghost place: nat)
      ensures !done && next == null && this.place == place
    {
      done, item, next := false, Eof, null;
      this.place := place;
    }
  }

  class ParentStreamReader<T> {
    const sr: Source<T>
    var subStreamList: seq<Element?<T>>
    var closedNum: nat
    ghost var chain: seq<Element<T>>
    ghost var positions: seq<nat>

    /** The cells in a row, each filled one holding the source's answer of its place. */
    ghost predicate Linked()
      reads this`chain, sr`answered, chain
    {
      && |sr.answered| <= |chain| <= |sr.answered| + 1 && chain != []
      && (forall k :: 0 <= k < |chain| ==>
            && chain[k].place == k
            && (chain[k].done <==> k < |sr.answered|)
            && chain[k].next == (if k + 1 < |chain| then chain[k + 1] else null))
      && (forall k :: 0 <= k < |sr.answered| ==>
            chain[k].item == sr.answered[k] && (sr.answered[k].Eof? <==> k + 1 == |chain|))
    }

    /** Every open child is at the cell of its position. */
    ghost predicate Placed()
      reads this`subStreamList, this`chain, this`positions
    {
      && |subStreamList| == |positions|
      && (forall i :: 0 <= i < |positions| && subStreamList[i] != null ==>
            positions[i] < |chain| && subStreamList[i] == chain[positions[i]])
    }

    ghost predicate Counted()
      reads this`subStreamList, this`closedNum, sr`closes
    {
      && closedNum == Cleared(subStreamList)
      && sr.closes == if closedNum == |subStreamList| then 1 else 0
    }

    ghost predicate Valid()
      reads this, sr, chain
    {
      Linked() && Placed() && Counted()
    }

    /** `n` children, all at the one empty cell. */
    constructor (sr: Source<T>, n: nat)
      requires n >= 2 && sr.answered == [] && sr.closes == 0
      ensures Valid() && this.sr == sr && positions == seq(n, _ => 0)
      ensures forall i :: 0 <= i < n ==> subStreamList[i] != null
    {
      var elem := new Element<T>(0);
      this.sr := sr;
      subStreamList := seq(n, _ => elem);
      closedNum := 0;
      chain := [elem];
      positions := seq(n, _ => 0);
      new;
      ClearedSame(subStreamList, seq(n, _ => elem));
      AllCleared(subStreamList);
      NoneCleared(subStreamList);
    }

    /** The child's next item: asked of the source only when no child has been here before, the
        same for every child; the child moves on unless this was the end; no other child moves. */
    method Peek(idx: nat) returns (r: Reply<T>)
      requires Valid() && idx < |subStreamList|
      modifies this`subStreamList, this`chain, this`positions, sr`answered, chain
      ensures Valid() && |subStreamList| == |old(subStreamList)|
      ensures old(subStreamList[idx]) == null ==>
        r == RecvAfterClosed && sr.answered == old(sr.answered) && positions == old(positions)
      ensures old(subStreamList[idx]) != null ==>
        && old(positions[idx]) < |sr.answered| && r == Received(sr.answered[old(positions[idx])])
        && sr.answered ==
           (if old(positions[idx]) < |old(sr.answered)| then old(sr.answered) else old(sr.answered) + [r.item])
        && positions == old(positions)[idx := if r.item.Eof? then old(positions[idx]) else old(positions[idx]) + 1]
      ensures forall i :: 0 <= i < |subStreamList| ==> (subStreamList[i] == null <==> old(subStreamList[i]) == null)
    {
      var elem := subStreamList[idx];
      if elem == null {
        return RecvAfterClosed;
      }
      ghost var at := positions[idx];
      if !elem.done {
        FirstHere(idx);
      }
      assert at < |chain| && elem == chain[at] && elem.item == sr.answered[at];
      var item := elem.item;
      if !item.Eof? {
        assert elem.next == chain[at + 1];
        subStreamList := subStreamList[idx := elem.next];
        positions := positions[idx := at + 1];
      }
      ClearedSame(old(subStreamList), subStreamList);
      assert sr.answered[..|old(sr.answered)|] == old(sr.answered);
      return Received(item);
    }

    /** The body of the once: asks the source, stores the answer, and unless it is the end
        links a new empty cell and moves the child there. */
    method FirstHere(idx: nat)
      requires Linked() && Placed() && idx < |subStreamList| && subStreamList[idx] != null && !subStreamList[idx].done
      modifies this`subStreamList, this`chain, this`positions, sr`answered, subStreamList[idx]
      ensures Linked() && Placed() && |subStreamList| == |old(subStreamList)|
      ensures old(positions[idx]) == |old(sr.answered)|
      ensures |sr.answered| == |old(sr.answered)| + 1 && sr.answered[..|old(sr.answered)|] == old(sr.answered)
      ensures |chain| >= |old(chain)| && chain[..|old(chain)|] == old(chain)
      ensures var item := sr.answered[|old(sr.answered)|];
        && positions == old(positions)[idx := if item.Eof? then old(positions[idx]) else old(positions[idx]) + 1]
        && subStreamList ==
           old(subStreamList)[idx := if item.Eof? then old(subStreamList[idx]) else chain[|old(chain)|]]
        && |chain| == |old(chain)| + if item.Eof? then 0 else 1
    {
      var elem := subStreamList[idx];
      ghost var last := |chain| - 1;
      assert positions[idx] == last == |sr.answered|;
      var item := sr.Recv();
      elem.item := item;
      elem.done := true;
      if !item.Eof? {
        var next := new Element(last + 1);
        elem.next := next;
        subStreamList := subStreamList[idx := next];
        chain := chain + [next];
        positions := positions[idx := last + 1];
      }
    }

    /** Closes the child; the source is closed by the last child to close, and only then. */
    method Close(idx: nat)
      requires Valid() && idx < |subStreamList|
      modifies this`subStreamList, this`closedNum, sr`closes
      ensures Valid()
      ensures subStreamList == old(subStreamList)[idx := null]
      ensures sr.closes == old(sr.closes) +
        if old(subStreamList[idx]) != null && (forall i :: 0 <= i < |subStreamList| ==> subStreamList[i] == null)
        then 1 else 0
    {
      if subStreamList[idx] == null {
        return;
      }
      subStreamList := subStreamList[idx := null];
      closedNum := closedNum + 1;
      ClearedOne(old(subStreamList), idx);
      AllCleared(subStreamList);
      AllCleared(old(subStreamList));
      assert closedNum == Cleared(subStreamList);
      if closedNum == |subStreamList| {
        sr.Close();
      }
    }
  }

  /** The number of cleared slots. */
  ghost function Cleared<T>(slots: seq<Element?<T>>): nat {
    if slots == [] then 0
    else Cleared(slots[..|slots| - 1]) + if slots[|slots| - 1] == null then 1 else 0
  }

  lemma {:induction false} AllCleared<T>(slots: seq<Element?<T>>)
    ensures Cleared(slots) <= |slots|
    ensures Cleared(slots) == |slots| <==> forall i :: 0 <= i < |slots| ==> slots[i] == null
  {
    if slots != [] {
      var init := slots[..|slots| - 1];
      AllCleared(init);
      assert forall i :: 0 <= i < |init| ==> init[i] == slots[i];
    }
  }

  lemma {:induction false} NoneCleared<T>(slots: seq<Element?<T>>)
    requires forall i :: 0 <= i < |slots| ==> slots[i] != null
    ensures Cleared(slots) == 0
  {
    if slots != [] {
      NoneCleared(slots[..|slots| - 1]);
    }
  }

  lemma {:induction false} ClearedSame<T>(a: seq<Element?<T>>, b: seq<Element?<T>>)
    requires |a| == |b| && forall i :: 0 <= i < |a| ==> (a[i] == null <==> b[i] == null)
    ensures Cleared(a) == Cleared(b)
  {
    if a != [] {
      ClearedSame(a[..|a| - 1], b[..|b| - 1]);
    }
  }

  lemma {:induction false} ClearedOne<T>(slots: seq<Element?<T>>, idx: nat)
    requires idx < |slots| && slots[idx] != null
    ensures Cleared(slots[idx := null]) == Cleared(slots) + 1
  {
    var last := |slots| - 1;
    if idx < last {
      ClearedOne(slots[..last], idx);
      assert slots[idx := null][..last] == slots[..last][idx := null];
    } else {
      assert slots[idx := null][..last] == slots[..last];
    }
  }
}
