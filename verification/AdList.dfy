/** The doubly linked list of adlist.c, against the sequence of its nodes. */
module AdList {

  class ListNode<T> {
    var prev: ListNode?<T>
    var next: ListNode?<T>
    const value: T

    constructor (value: T)
      ensures this.value == value && prev == null && next == null
    {
      this.value, prev, next := value, null, null;
    }
  }

  /** The element at i of a sequence of nodes, or null outside it. */
  ghost function At<T>(nodes: seq<ListNode<T>>, i: int): ListNode?<T> {
    if 0 <= i < |nodes| then nodes[i] else null
  }

  ghost predicate Distinct<T>(nodes: seq<ListNode<T>>) {
    forall i, k :: 0 <= i < k < |nodes| ==> nodes[i] != nodes[k]
  }

  /** Neighbours point at each other, and the ends at nothing. */
  ghost predicate Linked<T>(nodes: seq<ListNode<T>>, repr: set<object>)
    requires forall i :: 0 <= i < |nodes| ==> nodes[i] in repr
    reads repr
  {
    && (forall i, k :: 0 <= i && k == i + 1 && k < |nodes| ==> nodes[i].next == nodes[k] && nodes[k].prev == nodes[i])
    && (nodes != [] ==> nodes[0].prev == null && nodes[|nodes| - 1].next == null)
  }

  function Values<T>(nodes: seq<ListNode<T>>): (vs: seq<T>)
    ensures |vs| == |nodes| && forall i :: 0 <= i < |nodes| ==> vs[i] == nodes[i].value
  {
    seq(|nodes|, i requires 0 <= i < |nodes| => nodes[i].value)
  }

  /** x put in at position i. */
  ghost function With<X>(s: seq<X>, i: nat, x: X): (r: seq<X>)
    requires i <= |s|
    ensures |r| == |s| + 1
    ensures forall j :: 0 <= j < |r| ==> r[j] == if j < i then s[j] else if j == i then x else s[j - 1]
  {
    s[..i] + [x] + s[i..]
  }

  /** Position i taken out. */
  ghost function Without<X>(s: seq<X>, i: nat): (r: seq<X>)
    requires i < |s|
    ensures |r| == |s| - 1
    ensures forall j :: 0 <= j < |r| ==> r[j] == if j < i then s[j] else s[j + 1]
  {
    s[..i] + s[i + 1..]
  }

  /** The last element first. */
  ghost function Rotated<X>(s: seq<X>): (r: seq<X>)
    ensures |r| == |s|
    ensures forall j :: 0 <= j < |r| ==> r[j] == if j == 0 then s[|s| - 1] else s[j - 1]
  {
    if s == [] then [] else [s[|s| - 1]] + s[..|s| - 1]
  }

  /** Linked, except that the node at i has been passed over. */
  ghost predicate LinkedAround<T>(nodes: seq<ListNode<T>>, i: nat, repr: set<object>)
    requires i < |nodes| && forall i :: 0 <= i < |nodes| ==> nodes[i] in repr
    reads repr
  {
    && (forall j, k :: 0 <= j && k == j + 1 && k < |nodes| && j != i && k != i ==>
          nodes[j].next == nodes[k] && nodes[k].prev == nodes[j])
    && (0 < i ==> nodes[0].prev == null && nodes[i - 1].next == At(nodes, i + 1))
    && (i + 1 < |nodes| ==> nodes[|nodes| - 1].next == null && nodes[i + 1].prev == At(nodes, i - 1))
  }

  lemma LinkedWithout<T>(nodes: seq<ListNode<T>>, i: nat, repr: set<object>)
    requires i < |nodes| && forall i :: 0 <= i < |nodes| ==> nodes[i] in repr
    requires LinkedAround(nodes, i, repr)
    ensures forall j :: 0 <= j < |nodes| - 1 ==> Without(nodes, i)[j] in repr
    ensures Linked(Without(nodes, i), repr)
  {
    var ns := Without(nodes, i);
    forall j, k | 0 <= j && k == j + 1 && k < |ns| ensures ns[j].next == ns[k] && ns[k].prev == ns[j] {
      if k < i {
        assert nodes[j].next == nodes[k];
      } else if j >= i {
        assert nodes[j + 1].next == nodes[k + 1];
      }
    }
  }

  lemma ValuesWithout<T>(nodes: seq<ListNode<T>>, i: nat)
    requires i < |nodes|
    ensures Values(Without(nodes, i)) == Without(Values(nodes), i)
  {}

  lemma ValuesWith<T>(nodes: seq<ListNode<T>>, i: nat, node: ListNode<T>)
    requires i <= |nodes|
    ensures Values(With(nodes, i, node)) == With(Values(nodes), i, node.value)
  {}

  lemma EndsWithout<T>(nodes: seq<ListNode<T>>, i: nat)
    requires i < |nodes| && Distinct(nodes)
    ensures var ns := Without(nodes, i);
      && Distinct(ns)
      && At(ns, 0) == (if i == 0 then At(nodes, 1) else nodes[0])
      && At(ns, |ns| - 1) == At(nodes, if i == |nodes| - 1 then i - 1 else |nodes| - 1)
  {}

  lemma LinkedCons<T>(node: ListNode<T>, nodes: seq<ListNode<T>>, repr: set<object>)
    requires nodes != [] && node in repr && forall i :: 0 <= i < |nodes| ==> nodes[i] in repr
    requires forall i, k :: 0 <= i && k == i + 1 && k < |nodes| ==>
      nodes[i].next == nodes[k] && nodes[k].prev == nodes[i]
    requires node.prev == null && node.next == nodes[0] && nodes[0].prev == node && nodes[|nodes| - 1].next == null
    ensures Linked([node] + nodes, repr)
  {
    var ns := [node] + nodes;
    forall i, k | 0 <= i && k == i + 1 && k < |ns| ensures ns[i].next == ns[k] && ns[k].prev == ns[i] {
      if i > 0 {
        assert nodes[i - 1].next == nodes[i];
      }
    }
  }

  class List<T> {
    var head: ListNode?<T>
    var tail: ListNode?<T>
    var len: nat
    ghost var Nodes: seq<ListNode<T>>
    ghost var Repr: set<object>

    ghost predicate Valid()
      reads this, Repr
    {
      && this !in Repr && (forall i :: 0 <= i < |Nodes| ==> Nodes[i] in Repr)
      && len == |Nodes| && Distinct(Nodes) && Linked(Nodes, Repr)
      && head == At(Nodes, 0) && tail == At(Nodes, |Nodes| - 1)
    }

    /** What the list holds, from head to tail. */
    ghost function Contents(): seq<T>
      reads this
    {
      Values(Nodes)
    }

    /** listCreate */
    constructor ()
      ensures Valid() && Nodes == [] && Contents() == [] && fresh(Repr)
    {
      head, tail, len, Nodes, Repr := null, null, 0, [], {};
    }

    method AddNodeHead(value: T)
      requires Valid()
      modifies this, Repr
      ensures Valid() && fresh(Repr - old(Repr)) && Contents() == [value] + old(Contents())
      ensures |Nodes| > 0 && fresh(Nodes[0]) && Nodes == [Nodes[0]] + old(Nodes)
    {
      var node := new ListNode(value);
      ghost var ns := Nodes;
      if len == 0 {
        head, tail := node, node;
        node.prev, node.next := null, null;
      } else {
        node.prev := null;
        node.next := head;
        head.prev := node;
        head := node;
      }
      if ns != [] {
        forall i, k | 0 <= i && k == i + 1 && k < |ns| ensures ns[i].next == ns[k] && ns[k].prev == ns[i] {
          assert ns[0] != ns[k];
        }
        LinkedCons(node, ns, Repr + {node});
      }
      len := len + 1;
      Nodes, Repr := [node] + ns, Repr + {node};
    }

    method AddNodeTail(value: T)
      requires Valid()
      modifies this, Repr
      ensures Valid() && fresh(Repr - old(Repr)) && Contents() == old(Contents()) + [value]
      ensures |Nodes| > 0 && fresh(Nodes[|Nodes| - 1]) && Nodes == old(Nodes) + [Nodes[|Nodes| - 1]]
    {
      var node := new ListNode(value);
      ghost var ns := Nodes;
      if len == 0 {
        head, tail := node, node;
        node.prev, node.next := null, null;
      } else {
        node.prev := tail;
        node.next := null;
        tail.next := node;
        tail := node;
      }
      len := len + 1;
      Nodes, Repr := ns + [node], Repr + {node};
      forall i, k | 0 <= i && k == i + 1 && k < |Nodes|
        ensures Nodes[i].next == Nodes[k] && Nodes[k].prev == Nodes[i]
      {
        if k < |ns| {
          assert ns[i] != ns[|ns| - 1];
        }
      }
    }

    /** listInsertNode: the new node goes right after or right before the given one. */
    method InsertNode(oldNode: ListNode<T>, value: T, after: bool, ghost i: nat)
      requires Valid() && i < |Nodes| && Nodes[i] == oldNode
      modifies this, Repr
      ensures Valid() && fresh(Repr - old(Repr))
      ensures var at := if after then i + 1 else i;
        |Nodes| == |old(Nodes)| + 1 && fresh(Nodes[at]) && Nodes == With(old(Nodes), at, Nodes[at])
        && Contents() == With(old(Contents()), at, value)
    {
      var node := new ListNode(value);
      ValuesWith(Nodes, if after then i + 1 else i, node);
      if after { LinkAfter(node, oldNode, i); } else { LinkBefore(node, oldNode, i); }
    }

    method LinkAfter(node: ListNode<T>, oldNode: ListNode<T>, ghost i: nat)
      requires Valid() && i < |Nodes| && Nodes[i] == oldNode && node !in Repr && node != this as object
      modifies this, Repr, node
      ensures Valid() && Repr == old(Repr) + {node} && Nodes == With(old(Nodes), i + 1, node)
    {
      assert i + 1 < |Nodes| ==> Nodes[i].next == Nodes[i + 1] && Nodes[i] != Nodes[|Nodes| - 1];
      node.prev := oldNode;
      node.next := oldNode.next;
      if tail == oldNode { tail := node; }
      LinkIn(node, i + 1);
    }

    method LinkBefore(node: ListNode<T>, oldNode: ListNode<T>, ghost i: nat)
      requires Valid() && i < |Nodes| && Nodes[i] == oldNode && node !in Repr && node != this as object
      modifies this, Repr, node
      ensures Valid() && Repr == old(Repr) + {node} && Nodes == With(old(Nodes), i, node)
    {
      assert 0 < i ==> Nodes[i].prev == Nodes[i - 1] && Nodes[0] != Nodes[i];
      node.next := oldNode;
      node.prev := oldNode.prev;
      if head == oldNode { head := node; }
      LinkIn(node, i);
    }

    /** The end of listInsertNode: the neighbours of the new node take it in. */
    method LinkIn(node: ListNode<T>, ghost at: nat)
      requires this !in Repr && (forall i :: 0 <= i < |Nodes| ==> Nodes[i] in Repr)
      requires len == |Nodes| && Distinct(Nodes) && Linked(Nodes, Repr) && Nodes != [] && at <= |Nodes|
      requires node !in Repr && node.prev == At(Nodes, at - 1) && node.next == At(Nodes, at)
      requires head == if at == 0 then node else Nodes[0]
      requires tail == if at == |Nodes| then node else Nodes[|Nodes| - 1]
      modifies this, Repr
      ensures Valid() && Nodes == With(old(Nodes), at, node) && Repr == old(Repr) + {node}
    {
      ghost var ns := Nodes;
      assert 0 < at < |ns| ==> ns[at - 1] != ns[at];
      if node.prev != null { node.prev.next := node; }
      if node.next != null { node.next.prev := node; }
      len := len + 1;
      Nodes, Repr := With(ns, at, node), Repr + {node};
      forall j, k | 0 <= j && k == j + 1 && k < |Nodes|
        ensures Nodes[j].next == Nodes[k] && Nodes[k].prev == Nodes[j]
      {
        if k < at {
          assert ns[j] != ns[at - 1] && ns[j].next == ns[k];
        } else if j > at {
          assert ns[at] != ns[j] && ns[j - 1].next == ns[j];
        }
      }
    }

    /** listDelNode */
    method DelNode(node: ListNode<T>, ghost i: nat)
      requires Valid() && i < |Nodes| && Nodes[i] == node
      modifies this, Repr
      ensures Valid() && Repr == old(Repr) && Nodes == Without(old(Nodes), i)
      ensures Contents() == Without(old(Contents()), i)
    {
      ValuesWithout(Nodes, i);
      Unlink(node, i);
      Forget(i);
    }

    /** With the node passed over, the list is one shorter. */
    method Forget(ghost i: nat)
      requires this !in Repr && (forall i :: 0 <= i < |Nodes| ==> Nodes[i] in Repr)
      requires len == |Nodes| && Distinct(Nodes) && i < |Nodes| && LinkedAround(Nodes, i, Repr)
      requires head == (if i == 0 then At(Nodes, 1) else Nodes[0])
      requires tail == At(Nodes, if i == |Nodes| - 1 then i - 1 else |Nodes| - 1)
      modifies this`len, this`Nodes
      ensures Valid() && Nodes == Without(old(Nodes), i)
    {
      LinkedWithout(Nodes, i, Repr);
      EndsWithout(Nodes, i);
      len := len - 1;
      Nodes := Without(Nodes, i);
    }

    /** The neighbours of the node point past it. */
    method Unlink(node: ListNode<T>, ghost i: nat)
      requires Valid() && i < |Nodes| && Nodes[i] == node
      modifies this`head, this`tail, Repr
      ensures LinkedAround(Nodes, i, Repr)
      ensures head == (if i == 0 then At(Nodes, 1) else Nodes[0])
      ensures tail == At(Nodes, if i == |Nodes| - 1 then i - 1 else |Nodes| - 1)
    {
      ghost var ns := Nodes;
      assert 0 < i ==> ns[i].prev == ns[i - 1] && ns[i - 1] != ns[i];
      assert i + 1 < |ns| ==> ns[i].next == ns[i + 1] && ns[i] != ns[i + 1];
      assert 0 < i && i + 1 < |ns| ==> ns[i - 1] != ns[i + 1];
      if node.prev != null { node.prev.next := node.next; } else { head := node.next; }
      if node.next != null { node.next.prev := node.prev; } else { tail := node.prev; }
      forall j, k | 0 <= j && k == j + 1 && k < |ns| && j != i && k != i
        ensures ns[j].next == ns[k] && ns[k].prev == ns[j]
      {
        assert 0 < i ==> k < i ==> ns[j] != ns[i - 1];
        assert i + 1 < |ns| ==> j > i ==> ns[k] != ns[i + 1];
      }
    }

    /** listRotate: the last element becomes the first. */
    method Rotate()
      requires Valid()
      modifies this, Repr
      ensures Valid() && fresh(Repr - old(Repr))
      ensures Nodes == Rotated(old(Nodes)) && Contents() == Rotated(old(Contents()))
    {
      var last := tail;
      if len <= 1 { return; }
      ghost var ns := Nodes;
      ghost var n := |ns|;
      assert ns[n - 2].next == ns[n - 1] && ns[n - 1].prev == ns[n - 2] && ns[0] != ns[n - 1];
      tail := last.prev;
      tail.next := null;
      head.prev := last;
      last.prev := null;
      last.next := head;
      head := last;
      Nodes := Rotated(ns);
      forall j, k | 0 <= j && k == j + 1 && k < |Nodes|
        ensures Nodes[j].next == Nodes[k] && Nodes[k].prev == Nodes[j]
      {
        if j > 0 {
          assert ns[j - 1].next == ns[j] && ns[j - 1] != ns[n - 2] && ns[j - 1] != ns[n - 1];
          assert ns[j] != ns[0] && ns[j] != ns[n - 1];
        }
      }
    }

    /** listIndex: from the head for index 0 and up, from the tail for -1 and down. */
    method Index(index: int) returns (n: ListNode?<T>)
      requires Valid()
      ensures n == if index >= 0 then At(Nodes, index) else At(Nodes, |Nodes| + index)
    {
      if index < 0 {
        var left := -index - 1;
        n := tail;
        ghost var at := |Nodes| - 1;
        while left > 0 && n != null
          invariant left >= 0 && n == At(Nodes, at) && at < |Nodes|
          invariant n != null ==> at - left == |Nodes| + index
          invariant n == null ==> |Nodes| + index < 0 || Nodes == []
        {
          n := n.prev;
          at, left := at - 1, left - 1;
        }
      } else {
        var left := index;
        n := head;
        ghost var at := 0;
        while left > 0 && n != null
          invariant left >= 0 && n == At(Nodes, at) && at >= 0
          invariant n != null ==> at + left == index
          invariant n == null ==> index >= |Nodes|
        {
          n := n.next;
          at, left := at + 1, left - 1;
        }
      }
    }
  }

  /** listIter: `next` is the element listNext returns next. */
  class ListIter<T> {
    var next: ListNode?<T>
    var fromHead: bool

    /** listRewind and listRewindTail */
    constructor (list: List<T>, fromHead: bool)
      ensures next == (if fromHead then list.head else list.tail) && this.fromHead == fromHead
    {
      next := if fromHead then list.head else list.tail;
      this.fromHead := fromHead;
    }

    /** listNext */
    method Next(list: List<T>, ghost k: int) returns (current: ListNode?<T>)
      requires list.Valid() && next == At(list.Nodes, k)
      modifies this`next
      ensures current == At(list.Nodes, k)
      ensures current != null ==> next == At(list.Nodes, if fromHead then k + 1 else k - 1)
      ensures current == null ==> next == null
    {
      current := next;
      if current != null {
        next := if fromHead then current.next else current.prev;
      }
    }
  }

  // ---------- removing while iterating ----------

  function Filter<T>(s: seq<T>, keep: T -> bool): seq<T> {
    if s == [] then [] else (if keep(s[0]) then [s[0]] else []) + Filter(s[1..], keep)
  }

  lemma Regroup<T>(a: seq<T>, b: seq<T>, c: seq<T>)
    ensures (a + b) + c == a + (b + c)
  {}

  lemma {:induction false} FilterSnoc<T>(s: seq<T>, x: T, keep: T -> bool)
    ensures Filter(s + [x], keep) == Filter(s, keep) + if keep(x) then [x] else []
  {
    if s == [] {
      assert ([x] + [])[1..] == [];
      assert s + [x] == [x];
    } else {
      var more, first := s + [x], if keep(s[0]) then [s[0]] else [];
      assert more[0] == s[0] && more[1..] == s[1..] + [x];
      FilterSnoc(s[1..], x, keep);
      Regroup(first, Filter(s[1..], keep), if keep(x) then [x] else []);
    }
  }

  /** Where a pass over a list stands: `kept` elements passed and kept, those of `all` from `seen` on still to come. */
  ghost predicate Passed<T>(now: seq<T>, kept: nat, all: seq<T>, seen: nat, keep: T -> bool) {
    && kept <= |now| && seen <= |all|
    && now[..kept] == Filter(all[..seen], keep) && now[kept..] == all[seen..]
  }

  lemma PassOne<T>(now: seq<T>, kept: nat, all: seq<T>, seen: nat, keep: T -> bool)
    requires Passed(now, kept, all, seen, keep) && kept < |now|
    ensures seen < |all| && now[kept] == all[seen]
    ensures if keep(now[kept]) then Passed(now, kept + 1, all, seen + 1, keep)
            else Passed(Without(now, kept), kept, all, seen + 1, keep)
  {
    assert now[kept] == now[kept..][0] == all[seen..][0];
    FilterSnoc(all[..seen], all[seen], keep);
    assert all[..seen + 1] == all[..seen] + [all[seen]];
    assert now[..kept + 1] == now[..kept] + [now[kept]];
    assert now[kept + 1..] == now[kept..][1..] == all[seen + 1..];
    assert Without(now, kept)[..kept] == now[..kept] && Without(now, kept)[kept..] == now[kept + 1..];
  }

  lemma PassEnds<T>(now: seq<T>, kept: nat, all: seq<T>, seen: nat, keep: T -> bool)
    requires Passed(now, kept, all, seen, keep) && kept >= |now|
    ensures now == Filter(all, keep)
  {
    assert now[..kept] == now;
    assert |all[seen..]| == |now[kept..]| == 0;
    assert all[..seen] == all;
  }

  /** One turn of such a loop. */
  method RemoveOrPass<T>(list: List<T>, iter: ListIter<T>, ln: ListNode<T>, keepIt: bool, ghost kept: nat)
    returns (next: ListNode?<T>, ghost now: nat)
    requires list.Valid() && kept < |list.Nodes| && ln == list.Nodes[kept]
    requires iter !in list.Repr && iter.fromHead && iter.next == At(list.Nodes, kept + 1)
    modifies list, list.Repr, iter
    ensures list.Valid() && list.Repr == old(list.Repr) && iter.fromHead && now == if keepIt then kept + 1 else kept
    ensures list.Contents() == if keepIt then old(list.Contents()) else Without(old(list.Contents()), kept)
    ensures next == At(list.Nodes, now) && (next != null ==> iter.next == At(list.Nodes, now + 1))
  {
    now := kept;
    if !keepIt {
      list.DelNode(ln, kept);
    } else {
      now := kept + 1;
    }
    next := iter.Next(list, now);
  }

  /**
   The loop of clusterNodeCleanupFailureReports: elements are removed as they
   are passed, which is safe for the element the iterator has just returned.
   */
  method RemoveUnless<T>(list: List<T>, keep: T -> bool)
    requires list.Valid()
    modifies list, list.Repr
    ensures list.Valid() && list.Repr == old(list.Repr)
    ensures list.Contents() == Filter(old(list.Contents()), keep)
  {
    var iter := new ListIter(list, true);
    ghost var all, kept, seen := list.Contents(), 0, 0;
    var ln := iter.Next(list, 0);
    while ln != null
      invariant list.Valid() && list.Repr == old(list.Repr) && iter.fromHead && fresh(iter)
      invariant Passed(list.Contents(), kept, all, seen, keep)
      invariant ln == At(list.Nodes, kept)
      invariant ln != null ==> iter.next == At(list.Nodes, kept + 1)
      decreases |all| - seen
    {
      PassOne(list.Contents(), kept, all, seen, keep);
      ln, kept := RemoveOrPass(list, iter, ln, keep(ln.value), kept);
      seen := seen + 1;
    }
    PassEnds(list.Contents(), kept, all, seen, keep);
  }
}
