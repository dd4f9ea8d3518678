/**
 * The doubly linked list of list.c: a header (`list_t`, list.h:12-15, plus
 * the iteration fields `curr` and `end` that list.c:121-141 uses) over a chain
 * of nodes (`list_node`, list.h:6-10). The ghost sequence `Nodes` is the
 * chain in order and `Contents` the values it holds.
 */
module LinkedList {
  import opened Values

  /** list_node (list.h:6-10). */
  class Node {
    var val: Value
    var next: Node?
    var prev: Node?

    constructor (v: Value, p: Node?)
      ensures val == v && next == null && prev == p
    {
      val := v;
      next := null;
      prev := p;
    }
  }

  /** No node occurs twice in a chain. */
  ghost predicate Distinct(ns: seq<Node>)
  {
    forall i, j :: 0 <= i < j < |ns| ==> ns[i] != ns[j]
  }

  /** Consecutive nodes point at each other, and the chain is closed by null at both ends. */
  ghost predicate Linked(ns: seq<Node>)
    reads ns
  {
    (forall i, j {:trigger ns[i], ns[j]} :: 0 <= i && j == i + 1 && j < |ns| ==> ns[i].next == ns[j] && ns[j].prev == ns[i]) &&
    (0 < |ns| ==> ns[0].prev == null && ns[|ns| - 1].next == null)
  }

  /** `s` without its element at `k`. */
  function Without<T>(s: seq<T>, k: int): seq<T>
    requires 0 <= k < |s|
  {
    seq(|s| - 1, i requires 0 <= i < |s| - 1 => if i < k then s[i] else s[i + 1])
  }

  /** Dropping the element at `k` keeps what comes before it and what comes after it, in order. */
  lemma WithoutIsSlices<T>(s: seq<T>, k: int)
    requires 0 <= k < |s|
    ensures Without(s, k) == s[..k] + s[k + 1..]
  {
  }

  /** Dropping one node from a chain without repetitions leaves one without repetitions. */
  lemma RemoveKeepsDistinct(ns: seq<Node>, k: int)
    requires Distinct(ns) && 0 <= k < |ns|
    ensures Distinct(Without(ns, k))
  {
    var ms := Without(ns, k);
    forall i, j | 0 <= i < j < |ms| ensures ms[i] != ms[j] {
      assert ms[i] == ns[if i < k then i else i + 1];
      assert ms[j] == ns[if j < k then j else j + 1];
    }
  }

  /** What `list_index` hands back: a value, or a dereference of a null node. */
  datatype Read = Got(val: Value) | NullDereference

  class List {
    var head: Node?
    var count: int
    var curr: Node?
    var end: int
    ghost var Nodes: seq<Node>
    ghost var Contents: seq<Value>
    ghost var Pos: int

    /** The chain from `head` is `Nodes`, linked both ways, and `count` is its length. */
    ghost predicate Valid()
      reads this, Nodes
    {
      |Nodes| == |Contents| == count &&
      head == (if |Nodes| == 0 then null else Nodes[0]) &&
      Distinct(Nodes) &&
      (forall i {:trigger Nodes[i]} :: 0 <= i < |Nodes| ==> Nodes[i].val == Contents[i]) &&
      Linked(Nodes)
    }

    /** The iteration cursor stands on a node of the list. */
    ghost predicate AtCursor()
      reads this
    {
      0 <= Pos < |Nodes| && curr == Nodes[Pos]
    }

    /** list_init (list.c:5-10); `curr` and `end`, left uninitialised there, start as null and 0. */
    constructor ()
      ensures Valid()
      ensures Contents == [] && head == null && count == 0
    {
      head := null;
      count := 0;
      curr := null;
      end := 0;
      Nodes := [];
      Contents := [];
      Pos := 0;
    }

    /** list_push (list.c:12-33): append at the tail, found by walking the chain. */
    method Push(v: Value)
      requires Valid()
      modifies this, Nodes
      ensures Valid() && Contents == old(Contents) + [v] && count == old(count) + 1
      ensures |Nodes| == |old(Nodes)| + 1 && Nodes[..|old(Nodes)|] == old(Nodes) && fresh(Nodes[|old(Nodes)|])
      ensures |old(Nodes)| > 0 ==> Nodes[|Nodes| - 1].prev == old(Nodes)[|old(Nodes)| - 1]
      ensures curr == old(curr) && end == old(end) && Pos == old(Pos)
    {
      if head == null {
        var n := new Node(v, null);
        head := n;
        count := count + 1;
        Nodes := [n];
        Contents := [v];
        return;
      }
      var l: Node? := head;
      var p: Node? := null;
      ghost var k := 0;
      while l != null
        invariant 0 <= k <= |Nodes|
        invariant l == if k < |Nodes| then Nodes[k] else null
        invariant p == if k == 0 then null else Nodes[k - 1]
        decreases |Nodes| - k
      {
        p := l;
        l := l.next;
        k := k + 1;
      }
      Link(p, v);
    }

    /** The second half of list_push (list.c:27-32): hang a new node carrying `v` after the tail `p`. */
    method Link(p: Node, v: Value)
      requires Valid() && 0 < |Nodes| && p == Nodes[|Nodes| - 1]
      modifies this, Nodes
      ensures Valid() && Contents == old(Contents) + [v] && count == old(count) + 1
      ensures |Nodes| == |old(Nodes)| + 1 && Nodes[..|old(Nodes)|] == old(Nodes) && fresh(Nodes[|old(Nodes)|])
      ensures Nodes[|Nodes| - 1].prev == p
      ensures curr == old(curr) && end == old(end) && Pos == old(Pos)
    {
      ghost var old_nodes := Nodes;
      var n := new Node(v, p);
      p.next := n;
      count := count + 1;
      Nodes := Nodes + [n];
      Contents := Contents + [v];
      forall i | 0 <= i < |old_nodes|
        ensures Nodes[i] == old_nodes[i] && Nodes[i].val == Contents[i] && Nodes[i].prev == old_nodes[i].prev
        ensures i + 1 < |old_nodes| ==> Nodes[i].next == old_nodes[i].next
      {
        assert Nodes[i] != n;
        if i + 1 < |old_nodes| {
          assert Nodes[i] != p;
        }
      }
    }

    /**
     * list_pop (list.c:35-57): an empty list yields a "pop from empty list"
     * error and is left alone; otherwise the tail is unlinked and returned.
     */
    method Pop() returns (r: Value)
      requires Valid()
      modifies this, Nodes
      ensures Valid()
      ensures old(count) == 0 ==> r == Err(PopEmpty) && Contents == old(Contents) && count == 0
      ensures old(count) > 0 ==> r == old(Contents)[old(count) - 1] && Contents == old(Contents)[..old(count) - 1]
      ensures old(count) > 0 ==> count == old(count) - 1 && Nodes == old(Nodes)[..old(count) - 1]
      ensures old(count) == 1 ==> head == null
      ensures curr == old(curr) && end == old(end) && Pos == old(Pos)
    {
      var l := head;
      if l == null || count == 0 {
        return Err(PopEmpty);
      }
      ghost var k := 0;
      while l != null && l.next != null
        invariant 0 <= k < |Nodes| && l == Nodes[k]
        invariant l.next == if k + 1 < |Nodes| then Nodes[k + 1] else null
        decreases |Nodes| - k
      {
        l := l.next;
        k := k + 1;
      }
      assert 0 < k ==> l.prev == Nodes[k - 1];
      r := l.val;
      if l.prev != null {
        l.prev.next := null;
      }
      count := count - 1;
      Nodes := Nodes[..k];
      Contents := Contents[..k];
      if l == head {
        head := null;
        return;
      }
    }

    /**
     * The walk shared by list_index, list_remove and list_replace: `index`
     * steps along `next` from `head`; a negative index takes no step.
     */
    method Seek(index: int) returns (l: Node?)
      requires Valid() && index <= count
      ensures 0 <= index < |Nodes| ==> l == Nodes[index]
      ensures index < 0 ==> l == head
      ensures index == |Nodes| ==> l == null
    {
      l := head;
      var i := index;
      ghost var k := 0;
      while i > 0
        invariant (index <= 0 && i == index && k == 0) || (0 <= i && i + k == index)
        invariant 0 <= k <= |Nodes|
        invariant l == if k < |Nodes| then Nodes[k] else null
        decreases i
      {
        l := l.next;
        i := i - 1;
        k := k + 1;
      }
    }

    /**
     * list_index (list.c:60-70) as written: the guard rejects only
     * `index > count`, so `index == count` walks off the end, and a negative
     * index is read as 0.
     */
    method IndexAsWritten(index: int) returns (r: Read)
      requires Valid()
      ensures r.NullDereference? <==> index == count || (index < 0 && count == 0)
      ensures index > count ==> r == Got(Err(IndexOutOfBounds(index)))
      ensures 0 <= index < count ==> r == Got(Contents[index])
      ensures index < 0 && 0 < count ==> r == Got(Contents[0])
    {
      if index > count {
        return Got(Err(IndexOutOfBounds(index)));
      }
      var l := Seek(index);
      if l == null {
        return NullDereference;
      }
      return Got(l.val);
    }

    /** list_index with the guard it evidently intends: exactly the positions of the list are readable. */
    method IndexChecked(index: int) returns (r: Value)
      requires Valid()
      ensures 0 <= index < count ==> r == Contents[index]
      ensures !(0 <= index < count) ==> r == Err(IndexOutOfBounds(index))
    {
      if index < 0 || index >= count {
        return Err(IndexOutOfBounds(index));
      }
      var l := Seek(index);
      return l.val;
    }

    /**
     * list_remove (list.c:72-89): unlink the node at `index` (a negative
     * index meaning the head); the caller must name a node of the list.
     */
    method Remove(index: int)
      requires Valid() && index < count && 0 < count
      modifies this, Nodes
      ensures Valid()
      ensures var p := if index < 0 then 0 else index;
        Contents == Without(old(Contents), p) && Nodes == Without(old(Nodes), p)
      ensures count == old(count) - 1
      ensures curr == old(curr) && end == old(end) && Pos == old(Pos)
    {
      var l := Seek(index);
      ghost var k := if index < 0 then 0 else index;
      Relink(l, k);
      Drop(k);
    }

    /** The count update of list_remove (list.c:87-88) once node `k` is unlinked: the chain and its values lose position `k`. */
    method Drop(ghost k: int)
      requires 0 <= k < |Nodes| && |Nodes| == |Contents| == count && Distinct(Nodes)
      requires head == if |Nodes| == 1 then null else Without(Nodes, k)[0]
      requires Linked(Without(Nodes, k))
      requires forall i {:trigger Nodes[i]} :: 0 <= i < |Nodes| ==> Nodes[i].val == Contents[i]
      modifies this
      ensures Valid() && Nodes == Without(old(Nodes), k) && Contents == Without(old(Contents), k)
      ensures count == old(count) - 1 && head == old(head)
      ensures curr == old(curr) && end == old(end) && Pos == old(Pos)
    {
      ghost var N, C := Nodes, Contents;
      count := count - 1;
      Nodes := Without(N, k);
      Contents := Without(C, k);
      RemoveKeepsDistinct(N, k);
    }

    /**
     * The pointer updates of list_remove (list.c:78-86): the neighbours of
     * node `k` are linked to each other, and `head` moves on when `k` is the head.
     */
    method Relink(l: Node, ghost k: int)
      requires Valid() && 0 <= k < |Nodes| && l == Nodes[k]
      modifies this, Nodes
      ensures Nodes == old(Nodes) && Contents == old(Contents) && count == old(count)
      ensures curr == old(curr) && end == old(end) && Pos == old(Pos)
      ensures head == if |Nodes| == 1 then null else Without(Nodes, k)[0]
      ensures Linked(Without(Nodes, k))
      ensures forall i {:trigger Nodes[i]} :: 0 <= i < |Nodes| ==> Nodes[i].val == old(Nodes[i].val)
    {
      ghost var N := Nodes;
      assert 0 < k ==> l.prev == N[k - 1];
      assert k + 1 < |N| ==> l.next == N[k + 1];
      assert k == 0 ==> l.prev == null;
      assert k + 1 == |N| ==> l.next == null;
      if l == head {
        head := l.next;
      }
      if l.prev != null {
        l.prev.next := l.next;
      }
      if l.next != null {
        l.next.prev := l.prev;
      }
      forall i | 0 <= i < |N|
        ensures N[i].val == old(N[i].val)
        ensures N[i].next == if i == k - 1 then (if k + 1 < |N| then N[k + 1] else null) else old(N[i].next)
        ensures N[i].prev == if i == k + 1 then (if 0 < k then N[k - 1] else null) else old(N[i].prev)
      {
        assert i != k - 1 && 0 < k ==> N[i] != N[k - 1];
        assert i != k + 1 && k + 1 < |N| ==> N[i] != N[k + 1];
      }
      var M := Without(N, k);
      forall i | 0 <= i < |M|
        ensures M[i] == if i < k then N[i] else N[i + 1]
      {
      }
      forall i, j | 0 <= i && j == i + 1 && j < |M|
        ensures M[i].next == M[j] && M[j].prev == M[i]
      {
        if j < k {
          assert old(N[i].next) == N[j] && old(N[j].prev) == N[i];
        } else if j > k {
          assert old(N[i + 1].next) == N[j + 1] && old(N[j + 1].prev) == N[i + 1];
        }
      }
    }

    /** list_replace (list.c:110-117): overwrite the value at `index` (a negative index meaning the head). */
    method Replace(index: int, v: Value)
      requires Valid() && index < count && 0 < count
      modifies this, Nodes
      ensures Valid() && Nodes == old(Nodes) && head == old(head)
      ensures Contents == old(Contents)[(if index < 0 then 0 else index) := v] && count == old(count)
      ensures curr == old(curr) && end == old(end) && Pos == old(Pos)
    {
      var l := Seek(index);
      ghost var k := if index < 0 then 0 else index;
      l.val := v;
      Contents := Contents[k := v];
    }

    /**
     * list_destroy (list.c:91-108): visit every node once, in order, freeing
     * it, then zero `count`. `head` is left pointing at the freed first node,
     * so the header is a valid empty list again only if it was empty already.
     */
    method Destroy() returns (ghost freed: seq<Node>)
      requires Valid()
      modifies this
      ensures freed == old(Nodes)
      ensures count == 0 && Contents == [] && Nodes == []
      ensures head == old(head) && curr == old(curr) && end == old(end) && Pos == old(Pos)
      ensures Valid() <==> old(count) == 0
    {
      var l := head;
      var n: Node? := null;
      if l != null {
        n := l.next;
      }
      freed := [];
      while l != null
        invariant |freed| < |Nodes| ==> l == Nodes[|freed|] && n == l.next
        invariant |freed| <= |Nodes| && freed == Nodes[..|freed|]
        invariant |freed| == |Nodes| ==> l == null
        decreases |Nodes| - |freed|
      {
        assert |freed| + 1 < |Nodes| ==> Nodes[|freed|].next == Nodes[|freed| + 1];
        freed := freed + [l];
        l := null;
        if n == null {
          break;
        }
        l := n;
        n := l.next;
      }
      count := 0;
      Nodes := [];
      Contents := [];
    }

    /**
     * list_start (list.c:120-128): an empty list, or one whose first value is
     * an error, ends the iteration at once; otherwise the cursor takes the
     * head and its value is returned.
     */
    method Start() returns (r: Option<Value>)
      requires Valid()
      modifies this
      ensures Valid() && Nodes == old(Nodes) && Contents == old(Contents)
      ensures head == old(head) && count == old(count)
      ensures r.None? <==> |Contents| == 0 || Contents[0].Err?
      ensures r.None? ==> end == 0 && curr == old(curr) && Pos == old(Pos)
      ensures r.Some? ==> r.value == Contents[0] && end == 1 && Pos == 0 && AtCursor()
    {
      end := 1;
      if head == null || head.val.Err? {
        end := 0;
        return None;
      }
      curr := head;
      Pos := 0;
      return Some(curr.val);
    }

    /** list_end (list.c:130-132): zero once the iteration is over. */
    function End(): int
      reads this
    {
      end
    }

    /**
     * list_iter (list.c:134-142): move the cursor to the next node and return
     * its value, or, at the last node, end the iteration and return nothing.
     */
    method Iter() returns (r: Option<Value>)
      requires Valid() && AtCursor()
      modifies this
      ensures Valid() && Nodes == old(Nodes) && Contents == old(Contents)
      ensures head == old(head) && count == old(count) && AtCursor()
      ensures old(Pos) + 1 < |Nodes| ==> r == Some(Contents[old(Pos) + 1]) && Pos == old(Pos) + 1 && end == old(end)
      ensures old(Pos) + 1 == |Nodes| ==> r.None? && end == 0 && Pos == old(Pos) && curr == old(curr)
    {
      assert Pos + 1 < |Nodes| ==> curr.next == Nodes[Pos + 1];
      if curr.next == null {
        end := 0;
        return None;
      }
      curr := curr.next;
      Pos := Pos + 1;
      return Some(curr.val);
    }
  }

  /**
   * The iteration protocol `for (v = list_start(l); list_end(l); v = list_iter(l))`
   * visits every value in order, unless the first one is an error, in which
   * case it visits none.
   */
  method Traverse(l: List) returns (vs: seq<Value>)
    requires l.Valid()
    modifies l
    ensures l.Valid() && l.Contents == old(l.Contents) && l.Nodes == old(l.Nodes) && l.End() == 0
    ensures vs == if |l.Contents| == 0 || l.Contents[0].Err? then [] else l.Contents
  {
    var v := l.Start();
    vs := [];
    while l.End() != 0
      invariant l.Valid() && l.Contents == old(l.Contents) && l.Nodes == old(l.Nodes)
      invariant l.End() != 0 ==> v.Some? && l.AtCursor() && v.value == l.Contents[l.Pos] && vs == l.Contents[..l.Pos]
      invariant l.End() == 0 ==> vs == if |l.Contents| == 0 || l.Contents[0].Err? then [] else l.Contents
      decreases if l.End() != 0 then |l.Nodes| - l.Pos + 1 else 0
    {
      vs := vs + [v.value];
      v := l.Iter();
    }
  }

  /** The input that shows the `list_index` guard is off by one: index 1 of a one-element list. */
  method IndexPastEnd() returns (r: Read)
    ensures r == NullDereference
  {
    var l := new List();
    l.Push(Num(1));
    r := l.IndexAsWritten(1);
  }
}
