/** The intrusive circular doubly linked list.

    A `ListHead` is the link embedded in a larger struct; `entry` stands for that
    struct, so reading it plays the part of `container_of`.  A list head has no
    enclosing struct.  A pointer that the source poisons, or that was never set,
    is `null` here.

    `IsList(h, xs)` ties the heap to a sequence: walking `next` from `h` visits
    exactly `xs` and comes back to `h`, and `prev` is the inverse of `next`.
    What a method may touch is its `modifies` clause: at most the entry, its two
    neighbours and the neighbours of the insertion point, so every list that
    shares none of them keeps its `IsList`.
  */
module RingList {
  import opened Sequences
  import opened Wrappers

  class ListHead<T> {
    var next: ListHead?<T>
    var prev: ListHead?<T>
    const entry: Option<T>

    constructor (entry: Option<T>)
      ensures next == this && prev == this && this.entry == entry
    {
      next, prev := this, this;
      this.entry := entry;
    }
  }

  // ---------------------------------------------------------------- the ring

  /** Consecutive nodes of `s` point at each other. */
  ghost predicate Chain<T>(s: seq<ListHead<T>>)
    reads s
  {
    && (forall i {:trigger s[i].next} | 0 <= i < |s| - 1 :: s[i].next == s[i + 1])
    && (forall i {:trigger s[i].prev} | 0 < i < |s| :: s[i].prev == s[i - 1])
  }

  /** `s` is a whole ring: a chain whose last node points back at its first. */
  ghost predicate Ring<T>(s: seq<ListHead<T>>)
    reads s
  {
    && |s| > 0
    && Distinct(s)
    && Chain(s)
    && s[|s| - 1].next == s[0]
    && s[0].prev == s[|s| - 1]
  }

  /** The list with head `h` holds exactly the entries `xs`, in this order. */
  ghost predicate IsList<T>(h: ListHead<T>, xs: seq<ListHead<T>>)
    reads h, xs
  {
    Ring([h] + xs)
  }

  // ------------------------------------------------------------- insertion

  method InitListHead<T>(list: ListHead<T>)
    modifies list
    ensures IsList(list, [])
  {
    list.next := list;
    list.prev := list;
  }

  /** `__list_add`: links `newEntry` between two neighbours of a ring.  Position
      `k` is that of `prev`; `next` is the node after it, around the ring. */
  method LinkBetween<T>(newEntry: ListHead<T>, prev: ListHead<T>, next: ListHead<T>,
                        ghost s: seq<ListHead<T>>, ghost k: nat)
    requires Ring(s) && newEntry !in s
    requires k < |s| && s[k] == prev && prev.next == next
    modifies newEntry, prev, next
    ensures Ring(s[..k + 1] + [newEntry] + s[k + 1..])
  {
    assert next == if k + 1 < |s| then s[k + 1] else s[0];
    next.prev := newEntry;
    newEntry.next := next;
    newEntry.prev := prev;
    prev.next := newEntry;
    ghost var r := s[..k + 1] + [newEntry] + s[k + 1..];
    SplicedRing(r, s, [newEntry], k);
  }

  method ListAdd<T>(newEntry: ListHead<T>, head: ListHead<T>, ghost xs: seq<ListHead<T>>)
    requires IsList(head, xs) && newEntry != head && newEntry !in xs
    modifies newEntry, head, head.next
    ensures IsList(head, [newEntry] + xs)
  {
    ghost var s := [head] + xs;
    LinkBetween(newEntry, head, head.next, s, 0);
    assert s[..1] + [newEntry] + s[1..] == [head] + ([newEntry] + xs);
  }

  method ListAddTail<T>(newEntry: ListHead<T>, head: ListHead<T>, ghost xs: seq<ListHead<T>>)
    requires IsList(head, xs) && newEntry != head && newEntry !in xs
    modifies newEntry, head, head.prev
    ensures IsList(head, xs + [newEntry])
  {
    ghost var s := [head] + xs;
    assert head.prev == s[|xs|];
    LinkBetween(newEntry, head.prev, head, s, |xs|);
    assert s[..|s|] + [newEntry] + s[|s|..] == [head] + (xs + [newEntry]);
  }

  // -------------------------------------------------------------- deletion

  lemma ListShape<T>(h: ListHead<T>, xs: seq<ListHead<T>>)
    requires IsList(h, xs)
    ensures Distinct(xs) && h !in xs && Chain(xs)
    ensures if xs == [] then h.next == h && h.prev == h
            else h.next == xs[0] && xs[0].prev == h && h.prev == xs[|xs| - 1] && xs[|xs| - 1].next == h
  {
    var s := [h] + xs;
    assert forall i | 1 <= i < |s| :: s[i] == xs[i - 1];
    assert s[0] == h;
    assert forall i | 0 <= i < |xs| :: xs[i] == s[i + 1] && s[i + 1] != s[0];
  }

  lemma Neighbours<T>(head: ListHead<T>, xs: seq<ListHead<T>>, k: nat)
    requires IsList(head, xs) && k < |xs|
    ensures xs[k] != head
    ensures xs[k].prev == if k > 0 then xs[k - 1] else head
    ensures xs[k].next == if k + 1 < |xs| then xs[k + 1] else head
  {
    var s := [head] + xs;
    assert s[k + 1] == xs[k] && s[0] == head;
  }

  /** `__list_del_entry`: the neighbours of entry `k` are joined; the entry keeps
      its own stale pointers. */
  method UnlinkEntry<T>(entry: ListHead<T>, ghost head: ListHead<T>,
                        ghost xs: seq<ListHead<T>>, ghost k: nat)
    requires IsList(head, xs) && k < |xs| && xs[k] == entry
    modifies entry.prev, entry.next
    ensures IsList(head, RemoveAt(xs, k))
    ensures entry.next == old(entry.next) && entry.prev == old(entry.prev)
    ensures entry != head && entry !in RemoveAt(xs, k)
  {
    ghost var s := [head] + xs;
    assert s[k + 1] == entry;
    assert entry.prev == s[k];
    assert entry.next == if k + 2 < |s| then s[k + 2] else s[0];
    var p, n := entry.prev, entry.next;
    n.prev := p;
    p.next := n;
    UnlinkedRing([head] + RemoveAt(xs, k), s, k + 1);
  }

  /** Joining the neighbours of node `k` of a ring leaves the ring without it. */
  lemma UnlinkedRing<T>(r: seq<ListHead<T>>, s: seq<ListHead<T>>, k: nat)
    requires 0 < k < |s| && r == RemoveAt(s, k) && Distinct(s)
    requires forall i {:trigger s[i].next} | 0 <= i < |s| - 1 && i != k - 1 && i != k :: s[i].next == s[i + 1]
    requires forall i {:trigger s[i].prev} | 0 < i < |s| && i != k && i != k + 1 :: s[i].prev == s[i - 1]
    requires var nxt := if k + 1 < |s| then s[k + 1] else s[0];
             s[k - 1].next == nxt && nxt.prev == s[k - 1]
    requires k + 1 < |s| ==> s[|s| - 1].next == s[0] && s[0].prev == s[|s| - 1]
    ensures Ring(r) && s[k] !in r
  {
  }

  /** `list_del` leaves the entry poisoned. */
  method ListDel<T>(entry: ListHead<T>, ghost head: ListHead<T>,
                    ghost xs: seq<ListHead<T>>, ghost k: nat)
    requires IsList(head, xs) && k < |xs| && xs[k] == entry
    modifies entry, entry.prev, entry.next
    ensures IsList(head, RemoveAt(xs, k))
    ensures entry.next == null && entry.prev == null
  {
    UnlinkEntry(entry, head, xs, k);
    entry.next := null;
    entry.prev := null;
  }

  method ListDelInit<T>(entry: ListHead<T>, ghost head: ListHead<T>,
                        ghost xs: seq<ListHead<T>>, ghost k: nat)
    requires IsList(head, xs) && k < |xs| && xs[k] == entry
    modifies entry, entry.prev, entry.next
    ensures IsList(head, RemoveAt(xs, k))
    ensures IsList(entry, [])
  {
    UnlinkEntry(entry, head, xs, k);
    InitListHead(entry);
  }

  // ----------------------------------------------------------- replacement

  /** `list_replace` on position `k` of a ring; `old` may be an entry or the head
      itself, and the ring may consist of `old` alone. */
  method ListReplace<T>(oldNode: ListHead<T>, newEntry: ListHead<T>,
                        ghost s: seq<ListHead<T>>, ghost k: nat)
    requires Ring(s) && k < |s| && s[k] == oldNode && newEntry !in s
    modifies newEntry, oldNode, oldNode.next, oldNode.prev
    ensures Ring(s[k := newEntry])
    ensures |s| > 1 ==> oldNode.next == old(oldNode.next) && oldNode.prev == old(oldNode.prev)
  {
    assert oldNode.next == if k + 1 < |s| then s[k + 1] else s[0];
    assert oldNode.prev == if k > 0 then s[k - 1] else s[|s| - 1];
    newEntry.next := oldNode.next;
    newEntry.next.prev := newEntry;
    newEntry.prev := oldNode.prev;
    newEntry.prev.next := newEntry;
  }

  method ListReplaceInit<T>(oldNode: ListHead<T>, newEntry: ListHead<T>,
                            ghost s: seq<ListHead<T>>, ghost k: nat)
    requires Ring(s) && k < |s| && s[k] == oldNode && newEntry !in s
    modifies newEntry, oldNode, oldNode.next, oldNode.prev
    ensures Ring(s[k := newEntry])
    ensures IsList(oldNode, [])
  {
    ListReplace(oldNode, newEntry, s, k);
    InitListHead(oldNode);
  }

  // ---------------------------------------------------------------- moving

  /** Taking an entry off a list keeps that list apart from any other, and keeps
      the entry off the other. */
  lemma StillDisjoint<X>(s: seq<X>, k: nat, t: seq<X>)
    requires 0 < k < |s| && Disjoint(s, t)
    ensures Disjoint(RemoveAt(s, k), t) && s[k] !in t
  {
  }

  lemma RemoveAfterHead<X>(h: X, xs: seq<X>, k: nat)
    requires k < |xs|
    ensures RemoveAt([h] + xs, k + 1) == [h] + RemoveAt(xs, k) && ([h] + xs)[k + 1] == xs[k]
  {
  }

  /** The first half of a move: the entry is off its list, and the target list is
      ready to take it. */
  method UnlinkForMove<T>(entry: ListHead<T>, head: ListHead<T>, ghost from: ListHead<T>,
                          ghost xs: seq<ListHead<T>>, ghost k: nat, ghost ys: seq<ListHead<T>>)
    returns (ghost zs: seq<ListHead<T>>)
    requires IsList(from, xs) && k < |xs| && xs[k] == entry
    requires IsList(head, ys)
    requires if from == head then xs == ys else Disjoint([from] + xs, [head] + ys)
    modifies entry.prev, entry.next
    ensures entry.prev == old(entry.prev) && entry.next == old(entry.next)
    ensures zs == if from == head then RemoveAt(xs, k) else ys
    ensures IsList(head, zs) && entry != head && entry !in zs
    ensures from != head ==> IsList(from, RemoveAt(xs, k)) && entry !in RemoveAt(xs, k)
    ensures from != head ==> forall x | x in [from] + RemoveAt(xs, k) :: x !in {entry, head, head.next, head.prev}
    ensures from != head ==> head.next == old(head.next) && head.prev == old(head.prev)
    ensures from == head ==> head.next in {old(head.next), entry.next} && head.prev in {old(head.prev), entry.prev}
  {
    Neighbours(from, xs, k);
    RemoveAfterHead(from, xs, k);
    zs := if from == head then RemoveAt(xs, k) else ys;
    ghost var s, t := [from] + xs, [head] + ys;
    if from != head {
      StillDisjoint(s, k + 1, t);
      Untouching(s, t, if k > 0 then k else 0);
      Untouching(s, t, if k + 2 < |s| then k + 2 else 0);
      assert entry.prev !in t && entry.next !in t;
      assert t[0] == head && head.next in t && head.prev in t by {
        assert head.next == if |t| > 1 then t[1] else t[0];
        assert head.prev == t[|t| - 1];
      }
    }
    UnlinkEntry(entry, from, xs, k);
  }

  lemma Untouching<X>(s: seq<X>, t: seq<X>, i: nat)
    requires Disjoint(s, t) && i < |s|
    ensures s[i] !in t
  {
  }

  /** `list_add` next to another list that shares no node with the target. */
  method ListAddBeside<T>(entry: ListHead<T>, head: ListHead<T>, ghost zs: seq<ListHead<T>>,
                     ghost from: ListHead<T>, ghost r: seq<ListHead<T>>)
    requires IsList(head, zs) && entry != head && entry !in zs
    requires from != head ==>
               IsList(from, r) && forall x | x in [from] + r :: x !in {entry, head, head.next, head.prev}
    modifies entry, head, head.next
    ensures IsList(head, [entry] + zs)
    ensures from != head ==> IsList(from, r)
  {
    ListAdd(entry, head, zs);
    if from != head {
      ghost var s := [from] + r;
      assert forall i | 0 <= i < |s| :: s[i] in s;
      assert forall i | 0 <= i < |s| :: s[i].next == old(s[i].next) && s[i].prev == old(s[i].prev);
    }
  }

  /** `list_add_tail` next to another list that shares no node with the target. */
  method ListAddTailBeside<T>(entry: ListHead<T>, head: ListHead<T>, ghost zs: seq<ListHead<T>>,
                     ghost from: ListHead<T>, ghost r: seq<ListHead<T>>)
    requires IsList(head, zs) && entry != head && entry !in zs
    requires from != head ==>
               IsList(from, r) && forall x | x in [from] + r :: x !in {entry, head, head.next, head.prev}
    modifies entry, head, head.prev
    ensures IsList(head, zs + [entry])
    ensures from != head ==> IsList(from, r)
  {
    ListAddTail(entry, head, zs);
    if from != head {
      ghost var s := [from] + r;
      assert forall i | 0 <= i < |s| :: s[i] in s;
      assert forall i | 0 <= i < |s| :: s[i].next == old(s[i].next) && s[i].prev == old(s[i].prev);
    }
  }

  /** `list_move`: from position `k` of list (`from`, `xs`) to the front of the
      list (`head`, `ys`), which may be the same list. */
  method ListMove<T>(entry: ListHead<T>, head: ListHead<T>, ghost from: ListHead<T>,
                     ghost xs: seq<ListHead<T>>, ghost k: nat, ghost ys: seq<ListHead<T>>)
    requires IsList(from, xs) && k < |xs| && xs[k] == entry
    requires IsList(head, ys)
    requires if from == head then xs == ys else Disjoint([from] + xs, [head] + ys)
    modifies entry, entry.prev, entry.next, head, head.next
    ensures if from == head then IsList(head, [entry] + RemoveAt(xs, k))
            else IsList(from, RemoveAt(xs, k)) && IsList(head, [entry] + ys)
  {
    ghost var zs := UnlinkForMove(entry, head, from, xs, k, ys);
    ListAddBeside(entry, head, zs, from, RemoveAt(xs, k));
  }

  method ListMoveTail<T>(entry: ListHead<T>, head: ListHead<T>, ghost from: ListHead<T>,
                     ghost xs: seq<ListHead<T>>, ghost k: nat, ghost ys: seq<ListHead<T>>)
    requires IsList(from, xs) && k < |xs| && xs[k] == entry
    requires IsList(head, ys)
    requires if from == head then xs == ys else Disjoint([from] + xs, [head] + ys)
    modifies entry, entry.prev, entry.next, head, head.prev
    ensures if from == head then IsList(head, RemoveAt(xs, k) + [entry])
            else IsList(from, RemoveAt(xs, k)) && IsList(head, ys + [entry])
  {
    ghost var zs := UnlinkForMove(entry, head, from, xs, k, ys);
    ListAddTailBeside(entry, head, zs, from, RemoveAt(xs, k));
  }

  function Rotated<X>(xs: seq<X>): (r: seq<X>) {
    if xs == [] then [] else xs[1..] + [xs[0]]
  }

  method ListRotateLeft<T>(head: ListHead<T>, ghost xs: seq<ListHead<T>>)
    requires IsList(head, xs)
    modifies head, xs
    ensures IsList(head, Rotated(xs))
  {
    ghost var s := [head] + xs;
    assert head.next == if xs == [] then s[0] else s[1];
    if head.next != head {
      var first := head.next;
      assert head.prev == s[|s| - 1];
      assert RemoveAt(xs, 0) == xs[1..];
      ListMoveTail(first, head, head, xs, 0, xs);
    }
  }

  function RotatedBy<X>(xs: seq<X>, n: nat): (r: seq<X>) {
    if n == 0 then xs else Rotated(RotatedBy(xs, n - 1))
  }

  lemma {:induction false} RotatedByAt<X>(xs: seq<X>, n: nat)
    requires n <= |xs|
    ensures RotatedBy(xs, n) == xs[n..] + xs[..n]
  {
    if n > 0 {
      RotatedByAt(xs, n - 1);
    }
  }

  /** Rotating a list as many times as it has entries changes nothing. */
  lemma {:induction false} FullRotationIsIdentity<X>(xs: seq<X>)
    ensures RotatedBy(xs, |xs|) == xs
  {
    RotatedByAt(xs, |xs|);
  }

  method RotateFully<T>(head: ListHead<T>, ghost xs: seq<ListHead<T>>, n: nat)
    requires IsList(head, xs) && n == |xs|
    modifies head, set x | x in xs
    ensures IsList(head, xs)
  {
    ghost var cur := xs;
    for i := 0 to n
      invariant cur == RotatedBy(xs, i)
      invariant forall x | x in cur :: x in xs
      invariant IsList(head, cur)
    {
      ListRotateLeft(head, cur);
      cur := Rotated(cur);
    }
    FullRotationIsIdentity(xs);
  }

  // ------------------------------------------------- cutting and splicing

  /** `list_cut_position`: the entries up to and including `entry` move to `list`.
      With `entry == head` nothing is cut and `list` becomes empty; with an empty
      list, or a single entry that is not `entry`, nothing at all is written. */
  method ListCutPosition<T>(list: ListHead<T>, head: ListHead<T>, entry: ListHead<T>,
                            ghost xs: seq<ListHead<T>>, ghost k: nat)
    requires IsList(head, xs) && list != head && list !in xs
    requires entry == head || entry in xs || |xs| <= 1
    requires entry in xs ==> k < |xs| && xs[k] == entry
    modifies list, head, head.next, entry, entry.next
    ensures xs == [] || (entry != head && entry !in xs) ==>
              IsList(head, xs) && list.next == old(list.next) && list.prev == old(list.prev)
    ensures xs != [] && entry == head ==> IsList(list, []) && IsList(head, xs)
    ensures entry in xs ==> IsList(list, xs[..k + 1]) && IsList(head, xs[k + 1..])
  {
    ghost var s := [head] + xs;
    assert head.next == (if |s| > 1 then s[1] else s[0]) && head.prev == s[|s| - 1];
    assert entry in xs ==> entry != head by { if entry in xs { Neighbours(head, xs, k); } }
    if head.next == head {
      return;
    }
    if head.next == head.prev && head.next != entry && head != entry {
      return;
    }
    if entry == head {
      InitListHead(list);
    } else {
      CutAfter(list, head, entry, xs, k);
    }
  }

  /** `__list_cut_position` */
  method CutAfter<T>(list: ListHead<T>, head: ListHead<T>, entry: ListHead<T>,
                     ghost xs: seq<ListHead<T>>, ghost k: nat)
    requires IsList(head, xs) && list != head && list !in xs
    requires k < |xs| && xs[k] == entry
    modifies list, head, head.next, entry, entry.next
    ensures IsList(list, xs[..k + 1]) && IsList(head, xs[k + 1..])
  {
    Neighbours(head, xs, k);
    ListShape(head, xs);
    assert forall j | 0 <= j < |xs| && xs[j] == entry :: j == k;
    var newFirst := entry.next;
    list.next := head.next;
    list.next.prev := list;
    list.prev := entry;
    entry.next := list;
    head.next := newFirst;
    newFirst.prev := head;
    forall i | 0 <= i < |xs| - 1 && i != k ensures xs[i].next == xs[i + 1] {
      assert old(xs[i].next) == xs[i + 1] && xs[i] != xs[k];
    }
    forall i | 0 < i < |xs| && i != k + 1 ensures xs[i].prev == xs[i - 1] {
      assert old(xs[i].prev) == xs[i - 1] && xs[i] != xs[0] && (k + 1 < |xs| ==> xs[i] != xs[k + 1]);
    }
    CutChains(list, head, xs, k);
  }

  /** The pointers left by a cut are those of the two lists. */
  lemma CutChains<T>(list: ListHead<T>, head: ListHead<T>, xs: seq<ListHead<T>>, k: nat)
    requires Distinct(xs) && head !in xs && list !in xs && k < |xs|
    requires forall i {:trigger xs[i].next} | 0 <= i < |xs| - 1 && i != k :: xs[i].next == xs[i + 1]
    requires forall i {:trigger xs[i].prev} | 0 < i < |xs| && i != k + 1 :: xs[i].prev == xs[i - 1]
    requires list.next == xs[0] && xs[0].prev == list && list.prev == xs[k] && xs[k].next == list
    requires if k + 1 < |xs| then head.next == xs[k + 1] && xs[k + 1].prev == head
                               && head.prev == xs[|xs| - 1] && xs[|xs| - 1].next == head
             else head.next == head && head.prev == head
    ensures IsList(list, xs[..k + 1]) && IsList(head, xs[k + 1..])
  {
  }

  /** `__list_splice`: the entries of `list` are linked between two neighbours of
      the ring `s`, after position `k`; `list` itself is left stale. */
  method SpliceBetween<T>(list: ListHead<T>, prev: ListHead<T>, next: ListHead<T>,
                          ghost xs: seq<ListHead<T>>, ghost s: seq<ListHead<T>>, ghost k: nat)
    requires IsList(list, xs) && xs != [] && Ring(s) && Disjoint([list] + xs, s)
    requires k < |s| && s[k] == prev && prev.next == next
    modifies list.next, list.prev, prev, next
    ensures Ring(s[..k + 1] + xs + s[k + 1..])
    ensures list.next == old(list.next) && list.prev == old(list.prev)
  {
    ListShape(list, xs);
    ApartTails(list, xs, s);
    assert next == if k + 1 < |s| then s[k + 1] else s[0];
    var first, last := list.next, list.prev;
    first.prev := prev;
    prev.next := first;
    last.next := next;
    next.prev := last;
    ghost var r := s[..k + 1] + xs + s[k + 1..];
    SplicedRing(r, s, xs, k);
  }

  lemma ApartTails<X>(h: X, xs: seq<X>, s: seq<X>)
    requires Disjoint([h] + xs, s)
    ensures h !in s && Disjoint(xs, s)
  {
    var l := [h] + xs;
    forall i, j | 0 <= i < |xs| && 0 <= j < |s| ensures xs[i] != s[j] {
      assert l[i + 1] != s[j];
    }
    forall j | 0 <= j < |s| ensures s[j] != h {
      assert l[0] != s[j];
    }
  }

  lemma SplicedRing<T>(r: seq<ListHead<T>>, s: seq<ListHead<T>>, xs: seq<ListHead<T>>, k: nat)
    requires k < |s| && xs != [] && r == s[..k + 1] + xs + s[k + 1..]
    requires Distinct(s) && Distinct(xs) && Disjoint(xs, s)
    requires Chain(xs) && xs[0].prev == s[k] && s[k].next == xs[0]
    requires forall i {:trigger s[i].next} | 0 <= i < |s| - 1 && i != k :: s[i].next == s[i + 1]
    requires forall i {:trigger s[i].prev} | 0 < i < |s| && i != k + 1 :: s[i].prev == s[i - 1]
    requires k + 1 < |s| ==> s[|s| - 1].next == s[0] && s[0].prev == s[|s| - 1]
    requires var nxt := if k + 1 < |s| then s[k + 1] else s[0];
             xs[|xs| - 1].next == nxt && nxt.prev == xs[|xs| - 1]
    ensures Ring(r)
  {
  }

  method ListSplice<T>(list: ListHead<T>, head: ListHead<T>,
                       ghost xs: seq<ListHead<T>>, ghost ys: seq<ListHead<T>>)
    requires IsList(list, xs) && IsList(head, ys) && Disjoint([list] + xs, [head] + ys)
    modifies list.next, list.prev, head, head.next
    ensures IsList(head, xs + ys)
    ensures list.next == old(list.next) && list.prev == old(list.prev)
  {
    ghost var s := [head] + ys;
    ListShape(list, xs);
    if list.next != list {
      SpliceBetween(list, head, head.next, xs, s, 0);
      assert s[..1] + xs + s[1..] == [head] + (xs + ys);
    } else {
      assert xs + ys == ys;
    }
  }

  method ListSpliceTail<T>(list: ListHead<T>, head: ListHead<T>,
                           ghost xs: seq<ListHead<T>>, ghost ys: seq<ListHead<T>>)
    requires IsList(list, xs) && IsList(head, ys) && Disjoint([list] + xs, [head] + ys)
    modifies list.next, list.prev, head, head.prev
    ensures IsList(head, ys + xs)
    ensures list.next == old(list.next) && list.prev == old(list.prev)
  {
    ghost var s := [head] + ys;
    ListShape(list, xs);
    if list.next != list {
      assert head.prev == s[|ys|];
      SpliceBetween(list, head.prev, head, xs, s, |ys|);
      assert s[..|s|] + xs + s[|s|..] == [head] + (ys + xs);
    } else {
      assert ys + xs == ys;
    }
  }

  method ListSpliceInit<T>(list: ListHead<T>, head: ListHead<T>,
                           ghost xs: seq<ListHead<T>>, ghost ys: seq<ListHead<T>>)
    requires IsList(list, xs) && IsList(head, ys) && Disjoint([list] + xs, [head] + ys)
    modifies list, list.next, list.prev, head, head.next
    ensures IsList(head, xs + ys) && IsList(list, [])
  {
    ghost var s := [head] + ys;
    ListShape(list, xs);
    ApartTails(list, xs, s);
    hide Ring, Distinct, Disjoint, Chain;
    if list.next != list {
      SpliceBetween(list, head, head.next, xs, s, 0);
      assert s[..1] + xs + s[1..] == [head] + (xs + ys);
      assert IsList(head, xs + ys);
      hide IsList;
      assert list != head && list !in xs + ys;
      InitListHead(list);
    } else {
      assert xs + ys == ys;
    }
  }

  method ListSpliceTailInit<T>(list: ListHead<T>, head: ListHead<T>,
                               ghost xs: seq<ListHead<T>>, ghost ys: seq<ListHead<T>>)
    requires IsList(list, xs) && IsList(head, ys) && Disjoint([list] + xs, [head] + ys)
    modifies list, list.next, list.prev, head, head.prev
    ensures IsList(head, ys + xs) && IsList(list, [])
  {
    ghost var s := [head] + ys;
    ListShape(list, xs);
    ApartTails(list, xs, s);
    hide Ring, Distinct, Disjoint, Chain;
    if list.next != list {
      assert head.prev == s[|ys|];
      SpliceBetween(list, head.prev, head, xs, s, |ys|);
      assert s[..|s|] + xs + s[|s|..] == [head] + (ys + xs);
      assert IsList(head, ys + xs);
      hide IsList;
      assert list != head && list !in ys + xs;
      InitListHead(list);
    } else {
      assert ys + xs == ys;
    }
  }
}
