/** The binary heap behind the job queue, written out: the sift loops, push, pop and heapify of `heapq`
    over `QueuedJob.__lt__`. */
module BinaryHeap {

  /** CRITICAL = 0, HIGH = 1, NORMAL = 2, LOW = 3. */
  type Priority = p: int | 0 <= p <= 3
  const LOW: Priority := 3

  /** What a queued job is ordered by, and its id. */
  datatype Ticket = Ticket(id: string, priority: Priority, createdAt: real)

  /** Priority first, then first come, first served. */
  predicate Lt(a: Ticket, b: Ticket) {
    if a.priority != b.priority then a.priority < b.priority else a.createdAt < b.createdAt
  }

  predicate Le(a: Ticket, b: Ticket) { !Lt(b, a) }

  type Heap = seq<Ticket>

  /** The tickets in a heap, layout aside. */
  ghost function Contents(h: Heap): multiset<Ticket> { multiset(h) }

  /** A first choice and a last choice. */
  ghost predicate IsFirst(m: multiset<Ticket>, t: Ticket) { t in m && forall u | u in m :: Le(t, u) }
  ghost predicate IsLast(m: multiset<Ticket>, t: Ticket) { t in m && forall u | u in m :: Le(u, t) }

  /** A first choice has the smallest priority number there is, and of those that share it the earliest stamp; a last
      choice the largest number and the latest stamp. */
  lemma ChoicesIff(m: multiset<Ticket>, t: Ticket)
    ensures IsFirst(m, t) <==> t in m && forall u | u in m ::
              t.priority < u.priority || (t.priority == u.priority && t.createdAt <= u.createdAt)
    ensures IsLast(m, t) <==> t in m && forall u | u in m ::
              u.priority < t.priority || (u.priority == t.priority && u.createdAt <= t.createdAt)
  {
    forall u | u in m
      ensures Le(t, u) <==> t.priority < u.priority || (t.priority == u.priority && t.createdAt <= u.createdAt)
      ensures Le(u, t) <==> u.priority < t.priority || (u.priority == t.priority && u.createdAt <= t.createdAt)
    {
    }
  }

  function Parent(i: int): int { (i - 1) / 2 }

  /** Heap order on every edge whose upper end is at `start` or below it. */
  ghost predicate HeapFrom(h: Heap, start: int) {
    forall j {:trigger h[j]} | 0 < j < |h| && Parent(j) >= start :: Le(h[Parent(j)], h[j])
  }

  ghost predicate IsHeap(h: Heap) { HeapFrom(h, 0) }

  /** `i` is in the subtree rooted at `start`. */
  ghost predicate Under(start: nat, i: nat) {
    i == start || (i > start && Under(start, Parent(i)))
  }

  lemma {:induction false} RootIsLeast(h: Heap, i: nat)
    requires IsHeap(h) && i < |h|
    ensures Le(h[0], h[i])
    decreases i
  {
    if i > 0 {
      RootIsLeast(h, Parent(i));
      assert Le(h[Parent(i)], h[i]);
    }
  }

  lemma UnderParent(start: nat, i: nat)
    requires Under(start, i) && i > start
    ensures Under(start, Parent(i)) && start <= Parent(i) < i
  {
  }

  lemma UnderRoot(i: nat)
    ensures Under(0, i)
    decreases i
  {
    if i > 0 { UnderRoot(Parent(i)); }
  }

  /** Heap order everywhere but between `pos` and its parent, which may be too big for it. */
  ghost predicate RisingAt(h: Heap, start: nat, pos: nat) {
    && start <= pos < |h| && Under(start, pos)
    && (forall j {:trigger h[j]} | 0 < j < |h| && Parent(j) >= start && j != pos :: Le(h[Parent(j)], h[j]))
    && (pos > start ==> forall j {:trigger h[j]} | 0 < j < |h| && Parent(j) == pos :: Le(h[Parent(pos)], h[j]))
  }

  /** Heap order on every edge that does not touch the hole at `pos`, and across the hole. */
  ghost predicate HoleAt(h: Heap, start: nat, pos: nat) {
    && start <= pos < |h| && Under(start, pos)
    && (forall j {:trigger h[j]} | 0 < j < |h| && Parent(j) >= start && j != pos && Parent(j) != pos ::
          Le(h[Parent(j)], h[j]))
    && (pos > start ==> forall j {:trigger h[j]} | 0 < j < |h| && Parent(j) == pos :: Le(h[Parent(pos)], h[j]))
  }

  lemma SwapElements(h: Heap, x: Ticket, i: nat, j: nat)
    requires i < |h| && j < |h|
    ensures multiset(h[i := h[j]][j := x]) == multiset(h[i := x])
  {
    if i != j {
      var a, b := h[i := x], h[i := h[j]][j := x];
      assert b == a[i := a[j]][j := a[i]];
    }
  }

  /** `_siftdown`: parents bigger than the new item move down until its place is found. */
  method SiftDown(heap: Heap, start: nat, at: nat) returns (h: Heap)
    requires RisingAt(heap, start, at)
    ensures HeapFrom(h, start)
    ensures |h| == |heap| && Contents(h) == Contents(heap)
  {
    h := heap;
    var pos := at;
    var newItem := h[pos];
    while pos > start
      invariant |h| == |heap| && start <= pos < |h|
      invariant RisingAt(h[pos := newItem], start, pos)
      invariant multiset(h[pos := newItem]) == multiset(heap)
    {
      var parentPos := Parent(pos);
      var parent := h[parentPos];
      if Lt(newItem, parent) {
        SwapElements(h, newItem, pos, parentPos);
        RiseOnce(h, newItem, start, pos);
        h := h[pos := parent];
        pos := parentPos;
      } else {
        break;
      }
    }
    h := h[pos := newItem];
  }

  lemma LeTransitive(a: Ticket, b: Ticket, c: Ticket)
    requires Le(a, b) && Le(b, c)
    ensures Le(a, c)
  {
  }

  lemma RiseOnce(h: Heap, x: Ticket, start: nat, pos: nat)
    requires pos < |h| && RisingAt(h[pos := x], start, pos) && pos > start && Lt(x, h[Parent(pos)])
    ensures RisingAt(h[pos := h[Parent(pos)]][Parent(pos) := x], start, Parent(pos))
  {
    var p := Parent(pos);
    var g, g' := h[pos := x], h[pos := h[p]][p := x];
    UnderParent(start, pos);
    assert g' == g[pos := g[p]][p := x];
    forall j {:trigger g'[j]} | 0 < j < |g'| && Parent(j) >= start && j != p ensures Le(g'[Parent(j)], g'[j]) {
      RiseEdge(g, x, start, pos, j);
    }
    if p > start {
      UnderParent(start, p);
      assert Le(g[Parent(p)], g[p]);
      forall j {:trigger g'[j]} | 0 < j < |g'| && Parent(j) == p ensures Le(g'[Parent(p)], g'[j]) {
        if j != pos {
          assert Le(g[p], g[j]);
          LeTransitive(g[Parent(p)], g[p], g[j]);
        }
      }
    }
  }

  lemma RiseEdge(g: Heap, x: Ticket, start: nat, pos: nat, j: nat)
    requires RisingAt(g, start, pos) && pos > start && g[pos] == x && Lt(x, g[Parent(pos)])
    requires 0 < j < |g| && Parent(j) >= start && j != Parent(pos)
    ensures var g' := g[pos := g[Parent(pos)]][Parent(pos) := x]; Le(g'[Parent(j)], g'[j])
  {
    var p := Parent(pos);
    if j != pos {
      assert Le(g[Parent(j)], g[j]);
      if Parent(j) == pos {
        assert Le(g[p], g[j]);
      } else if Parent(j) == p {
        LeTransitive(x, g[p], g[j]);
      }
    }
  }

  /** `_siftup`: the smaller child moves up until the hole reaches a leaf, then the item rises from there. */
  method SiftUp(heap: Heap, at: nat) returns (h: Heap)
    requires at < |heap| && HeapFrom(heap, at + 1)
    ensures HeapFrom(h, at)
    ensures |h| == |heap| && Contents(h) == Contents(heap)
  {
    hide HoleAt, RisingAt, HeapFrom, Lt;
    h := heap;
    var endPos := |h|;
    var pos := at;
    var newItem := h[pos];
    var childPos := 2 * pos + 1;
    assert h[pos := newItem] == heap;
    HoleAtStart(h, at);
    while childPos < endPos
      invariant |h| == |heap| == endPos && pos < endPos && childPos == 2 * pos + 1
      invariant HoleAt(h, at, pos)
      invariant multiset(h[pos := newItem]) == multiset(heap)
      decreases endPos - pos
    {
      var rightPos := childPos + 1;
      if rightPos < endPos && !Lt(h[childPos], h[rightPos]) {
        childPos := rightPos;
      }
      SmallerChild(h, pos, childPos);
      SwapElements(h, newItem, pos, childPos);
      SinkOnce(h, at, pos, childPos);
      h := h[pos := h[childPos]];
      pos := childPos;
      childPos := 2 * pos + 1;
    }
    HoleAtLeaf(h, at, pos, newItem);
    h := h[pos := newItem];
    h := SiftDown(h, at, pos);
  }

  lemma HoleAtStart(h: Heap, start: nat)
    requires start < |h| && HeapFrom(h, start + 1)
    ensures HoleAt(h, start, start)
  {
  }

  lemma HoleAtLeaf(h: Heap, start: nat, pos: nat, x: Ticket)
    requires HoleAt(h, start, pos) && 2 * pos + 1 >= |h|
    ensures RisingAt(h[pos := x], start, pos)
  {
  }

  lemma SmallerChild(h: Heap, pos: nat, child: nat)
    requires 2 * pos + 1 < |h|
    requires child == if 2 * pos + 2 < |h| && !Lt(h[2 * pos + 1], h[2 * pos + 2]) then 2 * pos + 2 else 2 * pos + 1
    ensures forall j | 0 < j < |h| && Parent(j) == pos :: Le(h[child], h[j])
  {
  }

  lemma SinkOnce(h: Heap, start: nat, pos: nat, child: nat)
    requires HoleAt(h, start, pos)
    requires child < |h| && Parent(child) == pos && child > 0
    requires forall j | 0 < j < |h| && Parent(j) == pos :: Le(h[child], h[j])
    ensures HoleAt(h[pos := h[child]], start, child)
  {
    var g := h[pos := h[child]];
    forall j | 0 < j < |g| && Parent(j) >= start && j != child && Parent(j) != child ensures Le(g[Parent(j)], g[j]) {
      if j == pos { assert Le(h[Parent(pos)], h[child]); }
    }
    forall j | 0 < j < |g| && Parent(j) == child ensures Le(g[Parent(child)], g[j]) {
      assert Le(h[Parent(j)], h[j]);
    }
  }

  method Heapify(heap: Heap) returns (h: Heap)
    ensures IsHeap(h)
    ensures |h| == |heap| && Contents(h) == Contents(heap)
  {
    h := heap;
    var i := |h| / 2;
    while i > 0
      invariant 0 <= i <= |h| == |heap|
      invariant HeapFrom(h, i)
      invariant multiset(h) == multiset(heap)
    {
      i := i - 1;
      h := SiftUp(h, i);
    }
  }

  method HeapPush(heap: Heap, item: Ticket) returns (h: Heap)
    requires IsHeap(heap)
    ensures IsHeap(h)
    ensures |h| == |heap| + 1 && Contents(h) == Contents(heap) + multiset{item}
  {
    h := heap + [item];
    UnderRoot(|h| - 1);
    assert RisingAt(h, 0, |h| - 1) by {
      forall j | 0 < j < |h| && j != |h| - 1 ensures Le(h[Parent(j)], h[j]) {
        assert h[j] == heap[j];
      }
    }
    h := SiftDown(h, 0, |h| - 1);
  }

  lemma RootLeastOfAll(h: Heap)
    requires IsHeap(h) && h != []
    ensures IsFirst(Contents(h), h[0])
  {
    assert h[0] in h;
    forall t | t in multiset(h) ensures Le(h[0], t) {
      assert t in h;
      var i :| 0 <= i < |h| && h[i] == t;
      RootIsLeast(h, i);
    }
  }

  lemma ReplaceFirst(h: Heap, last: Ticket)
    requires h != []
    ensures multiset(h[0 := last]) == multiset(h + [last]) - multiset{h[0]}
  {
    var rest := h[1..];
    assert h == [h[0]] + rest && h[0 := last] == [last] + rest;
  }

  lemma ReplaceRoot(heap: Heap, h: Heap, last: Ticket)
    requires IsHeap(heap) && heap == h + [last] && h != []
    ensures |h[0 := last]| == |h| && HeapFrom(h[0 := last], 1)
    ensures Contents(h[0 := last]) == Contents(heap) - multiset{h[0]}
  {
    var g := h[0 := last];
    ReplaceFirst(h, last);
    forall j {:trigger g[j]} | 0 < j < |g| && Parent(j) >= 1 ensures Le(g[Parent(j)], g[j]) {
      assert g[j] == heap[j] && g[Parent(j)] == heap[Parent(j)];
    }
  }

  lemma PopLast(heap: Heap)
    requires IsHeap(heap) && |heap| == 1
    ensures IsHeap([]) && heap == [heap[0]] && Contents([]) == Contents(heap) - multiset{heap[0]}
    ensures IsFirst(Contents(heap), heap[0])
  {
    RootLeastOfAll(heap);
  }

  /** The removed item is a least one. */
  method HeapPop(heap: Heap) returns (item: Ticket, h: Heap)
    requires IsHeap(heap) && heap != []
    ensures IsHeap(h)
    ensures IsFirst(Contents(heap), item)
    ensures |h| == |heap| - 1 && Contents(h) == Contents(heap) - multiset{item}
  {
    var last := heap[|heap| - 1];
    h := heap[..|heap| - 1];
    if h != [] {
      item := h[0];
      assert heap == h + [last];
      RootLeastOfAll(heap);
      ReplaceRoot(heap, h, last);
      hide *;
      h := h[0 := last];
      h := SiftUp(h, 0);
    } else {
      item := last;
      PopLast(heap);
    }
  }
}
