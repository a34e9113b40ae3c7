/** Hash-bucket lists: a single-pointer head and nodes whose `pprev` is the address
    of the pointer that points at them, either the head's `first` or the previous
    node's `next`.  Such an address is a value of `Slot` here. */
module HList {
  import opened Sequences

  class HHead {
    var first: HNode?

    constructor ()
      ensures first == null
    {
      first := null;
    }
  }

  class HNode {
    var next: HNode?
    var pprev: Slot

    constructor ()
      ensures next == null && pprev == Null
    {
      next, pprev := null, Null;
    }
  }

  datatype Slot = Null | Poison | First(head: HHead) | Next(node: HNode)

  /** `*pprev` */
  ghost function Deref(p: Slot): HNode?
    reads match p case First(h) => {h} case Next(n) => {n as object} case _ => {}
  {
    match p
    case First(h) => h.first
    case Next(n) => n.next
    case _ => null
  }

  ghost predicate Linked(h: HHead, xs: seq<HNode>)
    reads h, xs
  {
    && h.first == (if xs == [] then null else xs[0])
    && (forall i {:trigger xs[i].next} | 0 <= i < |xs| - 1 :: xs[i].next == xs[i + 1])
    && (xs != [] ==> xs[|xs| - 1].next == null)
    && (xs != [] ==> xs[0].pprev == First(h))
    && (forall i {:trigger xs[i].pprev} | 0 < i < |xs| :: xs[i].pprev == Next(xs[i - 1]))
  }

  /** The bucket `h` holds exactly the nodes `xs`, in this order. */
  ghost predicate IsHList(h: HHead, xs: seq<HNode>)
    reads h, xs
  {
    Distinct(xs) && Linked(h, xs)
  }

  /** Every node's `pprev` is the address of a pointer to that node. */
  lemma PprevPointsBack(h: HHead, xs: seq<HNode>, k: nat)
    requires IsHList(h, xs) && k < |xs|
    ensures Deref(xs[k].pprev) == xs[k]
  {
  }

  /** The heap determines the sequence: a bucket has one reading only. */
  lemma {:induction false} ReadingIsUnique(h: HHead, xs: seq<HNode>, ys: seq<HNode>, n: nat)
    requires IsHList(h, xs) && IsHList(h, ys)
    requires n <= |xs|
    ensures n <= |ys| && xs[..n] == ys[..n]
    ensures n == |xs| ==> xs == ys
  {
    if n > 0 {
      ReadingIsUnique(h, xs, ys, n - 1);
      if n > 1 {
        assert xs[..n - 1][n - 2] == ys[..n - 1][n - 2];
        assert xs[n - 2].next == xs[n - 1];
      }
      assert xs[n - 1] == ys[n - 1];
    }
  }

  /** `*pprev = value` */
  method Store(p: Slot, value: HNode?)
    requires p.First? || p.Next?
    modifies if p.First? then {p.head} else if p.Next? then {p.node as object} else {}
    ensures p.First? ==> p.head.first == value
    ensures p.Next? ==> p.node.next == value && p.node.pprev == old(p.node.pprev)
  {
    match p
    case First(h) => h.first := value;
    case Next(n) => n.next := value;
  }

  /** `__hlist_del`: all it touches are the pointer to the node and its successor. */
  method UnlinkRaw(n: HNode)
    requires n.pprev.First? || n.pprev.Next?
    modifies if n.pprev.First? then {n.pprev.head as object} else if n.pprev.Next? then {n.pprev.node} else {}, n.next
    ensures match old(n.pprev)
            case First(h) => h.first == old(n.next)
            case Next(m) => m.next == old(n.next) && (m != old(n.next) ==> m.pprev == old(m.pprev))
            case _ => true
    ensures old(n.next) != null ==>
              && old(n.next).pprev == old(n.pprev)
              && (old(n.pprev) != Next(old(n.next)) ==> old(n.next).next == old(n.next.next))
  {
    var next, pprev := n.next, n.pprev;
    Store(pprev, next);
    if next != null {
      next.pprev := pprev;
    }
  }

  /** `__hlist_del` on a node of a bucket. */
  method Unlink(n: HNode, ghost h: HHead, ghost xs: seq<HNode>, ghost k: nat)
    requires IsHList(h, xs) && k < |xs| && xs[k] == n
    modifies if k == 0 then {h as object} else {xs[k - 1]}, n.next
    ensures IsHList(h, RemoveAt(xs, k))
    ensures n.next == old(n.next) && n.pprev == old(n.pprev) && n !in RemoveAt(xs, k)
  {
    assert n.next == if k + 1 < |xs| then xs[k + 1] else null;
    assert n.pprev == if k == 0 then First(h) else Next(xs[k - 1]);
    UnlinkRaw(n);
    forall i | 0 <= i < |xs| - 1 && i != k - 1 && i != k ensures xs[i].next == xs[i + 1] {
      assert old(xs[i].next) == xs[i + 1];
    }
    forall i | 0 < i < |xs| && i != k && i != k + 1 ensures xs[i].pprev == Next(xs[i - 1]) {
      assert old(xs[i].pprev) == Next(xs[i - 1]);
    }
    UnlinkedChain(h, xs, k);
  }

  lemma UnlinkedChain(h: HHead, xs: seq<HNode>, k: nat)
    requires Distinct(xs) && k < |xs|
    requires forall i {:trigger xs[i].next} | 0 <= i < |xs| - 1 && i != k - 1 && i != k :: xs[i].next == xs[i + 1]
    requires forall i {:trigger xs[i].pprev} | 0 < i < |xs| && i != k && i != k + 1 :: xs[i].pprev == Next(xs[i - 1])
    requires var after := if k + 1 < |xs| then xs[k + 1] else null;
             if k == 0 then h.first == after else h.first == xs[0] && xs[0].pprev == First(h) && xs[k - 1].next == after
    requires k + 1 < |xs| ==> xs[k + 1].pprev == if k == 0 then First(h) else Next(xs[k - 1])
    requires k + 1 < |xs| ==> xs[|xs| - 1].next == null
    ensures IsHList(h, RemoveAt(xs, k)) && xs[k] !in RemoveAt(xs, k)
  {
  }

  method Del(n: HNode, ghost h: HHead, ghost xs: seq<HNode>, ghost k: nat)
    requires IsHList(h, xs) && k < |xs| && xs[k] == n
    modifies if k == 0 then {h as object} else {xs[k - 1]}, n.next, n
    ensures IsHList(h, RemoveAt(xs, k)) && n.next == null && n.pprev == Poison
  {
    Unlink(n, h, xs, k);
    n.next := null;
    n.pprev := Poison;
  }

  /** `hlist_del_init` on a node that may be on no bucket: then nothing happens. */
  method DelInit(n: HNode, ghost h: HHead, ghost xs: seq<HNode>, ghost k: nat)
    requires n.pprev != Null ==> IsHList(h, xs) && k < |xs| && xs[k] == n
    modifies if n.pprev == Null then {} else if k == 0 then {h as object} else if k <= |xs| then {xs[k - 1]} else {}
    modifies if n.pprev == Null then {} else {n, n.next}
    ensures old(n.pprev) != Null ==> IsHList(h, RemoveAt(xs, k)) && n.next == null && n.pprev == Null
  {
    if n.pprev != Null {
      Unlink(n, h, xs, k);
      n.next := null;
      n.pprev := Null;
    }
  }

  method AddHead(n: HNode, h: HHead, ghost xs: seq<HNode>)
    requires IsHList(h, xs) && n !in xs
    modifies n, h, h.first
    ensures IsHList(h, [n] + xs)
  {
    var first := h.first;
    n.next := first;
    if first != null {
      first.pprev := Next(n);
    }
    h.first := n;
    n.pprev := First(h);
  }

  method AddBefore(n: HNode, next: HNode, ghost h: HHead, ghost xs: seq<HNode>, ghost k: nat)
    requires IsHList(h, xs) && n !in xs && k < |xs| && xs[k] == next
    modifies n, next, if k == 0 then {h as object} else {xs[k - 1]}
    ensures IsHList(h, xs[..k] + [n] + xs[k..])
  {
    assert next.pprev == if k == 0 then First(h) else Next(xs[k - 1]);
    n.pprev := next.pprev;
    n.next := next;
    next.pprev := Next(n);
    Store(n.pprev, n);
    forall i | 0 <= i < |xs| - 1 && i != k - 1 ensures xs[i].next == xs[i + 1] {
      assert old(xs[i].next) == xs[i + 1];
    }
    forall i | 0 < i < |xs| && i != k ensures xs[i].pprev == Next(xs[i - 1]) {
      assert old(xs[i].pprev) == Next(xs[i - 1]);
    }
    InsertedChain(h, xs, n, k);
  }

  /** Linking `n` in before position `k`, or at the end. */
  lemma InsertedChain(h: HHead, xs: seq<HNode>, n: HNode, k: nat)
    requires Distinct(xs) && n !in xs && 0 <= k <= |xs|
    requires forall i {:trigger xs[i].next} | 0 <= i < |xs| - 1 && i != k - 1 :: xs[i].next == xs[i + 1]
    requires forall i {:trigger xs[i].pprev} | 0 < i < |xs| && i != k :: xs[i].pprev == Next(xs[i - 1])
    requires if k == 0 then h.first == n && n.pprev == First(h)
             else h.first == xs[0] && xs[0].pprev == First(h) && xs[k - 1].next == n && n.pprev == Next(xs[k - 1])
    requires if k < |xs| then n.next == xs[k] && xs[k].pprev == Next(n) && xs[|xs| - 1].next == null else n.next == null
    ensures IsHList(h, xs[..k] + [n] + xs[k..])
  {
  }

  method AddBehind(n: HNode, prev: HNode, ghost h: HHead, ghost xs: seq<HNode>, ghost k: nat)
    requires IsHList(h, xs) && n !in xs && k < |xs| && xs[k] == prev
    modifies n, prev, prev.next
    ensures IsHList(h, xs[..k + 1] + [n] + xs[k + 1..])
  {
    assert prev.next == if k + 1 < |xs| then xs[k + 1] else null;
    n.next := prev.next;
    prev.next := n;
    n.pprev := Next(prev);
    if n.next != null {
      n.next.pprev := Next(n);
    }
    forall i | 0 <= i < |xs| - 1 && i != k ensures xs[i].next == xs[i + 1] {
      assert old(xs[i].next) == xs[i + 1];
    }
    forall i | 0 < i < |xs| && i != k + 1 ensures xs[i].pprev == Next(xs[i - 1]) {
      assert old(xs[i].pprev) == Next(xs[i - 1]);
    }
    InsertedChain(h, xs, n, k + 1);
  }

  /** `hlist_add_fake`: the node points at its own `next`, as if that pointed at it. */
  method AddFake(n: HNode)
    modifies n
    ensures n.pprev == Next(n) && n.next == old(n.next)
  {
    n.pprev := Next(n);
  }

  /** `hlist_del` then works although no head or node points at `n`: apart from the
      node, it touches at most what followed it. */
  method DelFaked(n: HNode)
    requires n.pprev == Next(n) && n.next != n
    modifies n, n.next
    ensures n.next == null && n.pprev == Poison
    ensures old(n.next) != null ==> old(n.next).next == old(n.next.next) && old(n.next).pprev == Next(n)
  {
    UnlinkRaw(n);
    n.next := null;
    n.pprev := Poison;
  }

  /** The whole bucket moves to the head `to`, whatever that held. */
  method MoveList(from: HHead, to: HHead, ghost xs: seq<HNode>)
    requires IsHList(from, xs) && from != to
    modifies from, to, from.first
    ensures IsHList(to, xs) && IsHList(from, [])
  {
    to.first := from.first;
    if to.first != null {
      to.first.pprev := First(to);
    }
    from.first := null;
  }
}
