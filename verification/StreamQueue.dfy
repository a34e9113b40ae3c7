/** One channel's queue of encoded frames between the encoder thread, which appends
    and evicts, and the sending thread, which pops.  Every method is one region held
    under the channel's mutex, so a run is any sequence of calls. */
module StreamQueue {
  import opened CTypes
  import opened Sequences
  import opened Wrappers
  import opened RingList
  import opened Subsequence

  datatype FrameType = P | I | B | PI

  datatype Frame = Frame(frameType: FrameType, len: Word, ts: nat, seqNo: nat)

  /** `struct dana_video_entry`: a frame with its link. */
  type Node = ListHead<Frame>

  const VIDEO_STREAM_SIZE_MAX: int := 1024 * 1024

  predicate IsIFrame(n: Node) {
    n.entry.Some? && n.entry.value.frameType == I
  }

  function Len(n: Node): Word {
    if n.entry.Some? then n.entry.value.len else 0
  }

  function Size(q: seq<Node>): nat {
    if q == [] then 0 else Size(q[..|q| - 1]) + Len(q[|q| - 1])
  }

  function CountI(q: seq<Node>): nat {
    if q == [] then 0 else CountI(q[..|q| - 1]) + if IsIFrame(q[|q| - 1]) then 1 else 0
  }

  lemma {:induction false} SizeConcat(a: seq<Node>, b: seq<Node>)
    ensures Size(a + b) == Size(a) + Size(b)
  {
    if b == [] {
      assert a + b == a;
    } else {
      SizeConcat(a, b[..|b| - 1]);
      assert (a + b)[..|a + b| - 1] == a + b[..|b| - 1];
    }
  }

  lemma DrainStep<X>(q: seq<X>, i: nat)
    requires i < |q|
    ensures RemoveAt(q[i..], 0) == q[i + 1..] && q[..i + 1] == q[..i] + [q[i]] && q[i..][0] == q[i]
  {
  }

  lemma EmptySize()
    ensures Size([]) == 0
  {
  }

  lemma NothingFreed(count: Word, q: seq<Node>)
    ensures q[..0] == [] && Freed(count, []) == count && Warned(count, []) == 0
    ensures OverLimitTo(count, q, 1)
  {
  }

  lemma SizeSnoc(q: seq<Node>, n: Node)
    ensures Size(q + [n]) == Size(q) + Len(n)
  {
  }

  lemma {:induction false} SizeRemove(q: seq<Node>, k: nat)
    requires k < |q|
    ensures Size(q) == Size(RemoveAt(q, k)) + Len(q[k])
  {
    SizeConcat(q[..k + 1], q[k + 1..]);
    SizeConcat(q[..k], q[k + 1..]);
    assert q == q[..k + 1] + q[k + 1..];
    assert q[..k + 1][..k] == q[..k];
  }

  lemma {:induction false} CountIConcat(a: seq<Node>, b: seq<Node>)
    ensures CountI(a + b) == CountI(a) + CountI(b)
  {
    if b == [] {
      assert a + b == a;
    } else {
      CountIConcat(a, b[..|b| - 1]);
      assert (a + b)[..|a + b| - 1] == a + b[..|b| - 1];
    }
  }

  // ------------------------------------------------- what a pass leaves behind

  /** An odd number of I-frames: the last of them waits to be pushed out. */
  predicate Pending(q: seq<Node>) {
    q != [] && if IsIFrame(q[|q| - 1]) then !Pending(q[..|q| - 1]) else Pending(q[..|q| - 1])
  }

  /** What the eviction pass keeps of the frames it has gone through.  Frames that
      are not I-frames go; an I-frame goes when the next one arrives, but the one
      that pushed it out is not pushed out itself. */
  function Survivors(q: seq<Node>): (s: seq<Node>)
    ensures Pending(q) ==> s != []
  {
    if q == [] then []
    else
      var before, f := q[..|q| - 1], q[|q| - 1];
      var s := Survivors(before);
      if !IsIFrame(f) then s
      else if Pending(before) then s[..|s| - 1] + [f]
      else s + [f]
  }

  /** Of `n` I-frames, the larger half is left. */
  lemma {:induction false} SurvivorsHalve(q: seq<Node>)
    ensures |Survivors(q)| == (CountI(q) + 1) / 2
    ensures Pending(q) <==> CountI(q) % 2 == 1
  {
    if q != [] {
      SurvivorsHalve(q[..|q| - 1]);
    }
  }

  /** The closed form: an I-frame stays exactly if an odd number of I-frames came
      before it or none comes after it. */
  predicate Stays(q: seq<Node>, i: nat)
    requires i < |q|
  {
    IsIFrame(q[i]) && (Pending(q[..i]) || CountI(q[i + 1..]) == 0)
  }

  lemma {:induction false} SurvivorsInOrder(q: seq<Node>)
    ensures Subseq(Survivors(q), q)
  {
    if q != [] {
      var before, f := q[..|q| - 1], q[|q| - 1];
      var s := Survivors(before);
      SurvivorsInOrder(before);
      assert q == before + [f];
      if IsIFrame(f) {
        var t := if Pending(before) then s[..|s| - 1] else s;
        assert Subseq(t, before) by { if s != [] { SubseqDropLast(s, before); } }
        SubseqAppend(t, before, [f]);
      }
    }
  }

  lemma {:induction false} SurvivorsAreIFrames(q: seq<Node>)
    ensures forall i | 0 <= i < |Survivors(q)| :: IsIFrame(Survivors(q)[i])
  {
    if q != [] {
      SurvivorsAreIFrames(q[..|q| - 1]);
    }
  }

  /** The last survivor is the last I-frame. */
  lemma {:induction false} LastSurvivor(q: seq<Node>) returns (j: nat)
    requires Pending(q)
    ensures j < |q| && IsIFrame(q[j]) && CountI(q[j + 1..]) == 0 && !Pending(q[..j])
    ensures Survivors(q)[|Survivors(q)| - 1] == q[j]
  {
    var before, f := q[..|q| - 1], q[|q| - 1];
    if IsIFrame(f) {
      j := |q| - 1;
    } else {
      j := LastSurvivor(before);
      assert q[..j] == before[..j];
      assert q[j + 1..][..|q| - j - 2] == before[j + 1..];
    }
  }

  /** `Survivors` is the selection `Stays` describes. */
  lemma {:induction false} SurvivorsStay(q: seq<Node>, i: nat)
    requires Distinct(q) && i < |q|
    ensures q[i] in Survivors(q) <==> Stays(q, i)
  {
    var before, f := q[..|q| - 1], q[|q| - 1];
    SurvivorsWithin(before);
    if i < |before| {
      SurvivorsStay(before, i);
      StaysOneMore(q, i);
      assert before[i] == q[i] != f;
      if IsIFrame(f) && Pending(before) {
        OddLast(before, i);
      } else if IsIFrame(f) && IsIFrame(q[i]) {
        EvenLast(before, i);
      }
    } else {
      assert f !in before;
    }
  }

  lemma SurvivorsWithin(q: seq<Node>)
    ensures forall x | x in Survivors(q) :: x in q
  {
    SurvivorsInOrder(q);
    SubseqElements(Survivors(q), q);
  }

  lemma StaysOneMore(q: seq<Node>, i: nat)
    requires i < |q| - 1
    ensures var before := q[..|q| - 1];
            && q[..i] == before[..i]
            && CountI(q[i + 1..]) == CountI(before[i + 1..]) + if IsIFrame(q[|q| - 1]) then 1 else 0
  {
    var tail := q[i + 1..];
    assert tail[..|tail| - 1] == q[..|q| - 1][i + 1..];
  }

  /** With an odd number of I-frames the last survivor stays only for being last. */
  lemma OddLast(q: seq<Node>, i: nat)
    requires Distinct(q) && i < |q| && Pending(q)
    requires q[i] in Survivors(q) <==> Stays(q, i)
    ensures var s := Survivors(q);
            q[i] in s[..|s| - 1] <==> IsIFrame(q[i]) && Pending(q[..i])
  {
    var j := LastSurvivor(q);
    SurvivorsDistinct(q);
    LastIRank(q, i, j);
    ButLast(Survivors(q), q[i]);
    assert q[i] == q[j] <==> i == j;
  }

  lemma ButLast<X>(s: seq<X>, x: X)
    requires s != [] && Distinct(s)
    ensures x in s[..|s| - 1] <==> x in s && x != s[|s| - 1]
  {
  }

  /** With an even number of I-frames the last one has an odd number before it. */
  lemma EvenLast(q: seq<Node>, i: nat)
    requires i < |q| && IsIFrame(q[i]) && !Pending(q)
    ensures CountI(q[i + 1..]) == 0 ==> Pending(q[..i])
  {
    CountIAt(q, i);
    SurvivorsHalve(q);
    SurvivorsHalve(q[..i]);
  }

  lemma CountIAt(q: seq<Node>, i: nat)
    requires i < |q|
    ensures CountI(q) == CountI(q[..i]) + (if IsIFrame(q[i]) then 1 else 0) + CountI(q[i + 1..])
  {
    assert q == q[..i + 1] + q[i + 1..];
    CountIConcat(q[..i + 1], q[i + 1..]);
    assert q[..i + 1][..i] == q[..i];
  }

  /** An I-frame with none after it is the last I-frame. */
  lemma LastIRank(q: seq<Node>, i: nat, j: nat)
    requires i < |q| && j < |q| && IsIFrame(q[j]) && CountI(q[j + 1..]) == 0
    ensures IsIFrame(q[i]) && CountI(q[i + 1..]) == 0 <==> i == j
  {
    if i < j {
      CountIAt(q[i + 1..], j - i - 1);
    } else if i > j {
      CountIAt(q[j + 1..], i - j - 1);
    }
  }

  lemma {:induction false} SurvivorsDistinct(q: seq<Node>)
    requires Distinct(q)
    ensures Distinct(Survivors(q))
  {
    if q != [] {
      var before, f := q[..|q| - 1], q[|q| - 1];
      SurvivorsDistinct(before);
      SurvivorsInOrder(before);
      SubseqElements(Survivors(before), before);
      assert f !in before;
    }
  }

  /** An I-frame is dropped only if the next I-frame of the queue survives. */
  lemma NextIFrameSurvives(q: seq<Node>, i: nat, j: nat)
    requires Distinct(q) && i < j < |q| && IsIFrame(q[i]) && IsIFrame(q[j])
    requires CountI(q[i + 1..j]) == 0
    requires q[i] !in Survivors(q)
    ensures q[j] in Survivors(q)
  {
    SurvivorsStay(q, i);
    SurvivorsStay(q, j);
    NextIFrameStays(q, i, j);
  }

  lemma NextIFrameStays(q: seq<Node>, i: nat, j: nat)
    requires i < j < |q| && IsIFrame(q[i]) && IsIFrame(q[j])
    requires CountI(q[i + 1..j]) == 0
    requires !Stays(q, i)
    ensures Stays(q, j)
  {
    NextRank(q, i, j);
    SurvivorsHalve(q[..i]);
    SurvivorsHalve(q[..j]);
  }

  lemma NextRank(q: seq<Node>, i: nat, j: nat)
    requires i < j < |q| && IsIFrame(q[i]) && CountI(q[i + 1..j]) == 0
    ensures CountI(q[..j]) == CountI(q[..i]) + 1
  {
    CountIAt(q[..j], i);
    assert q[..j][..i] == q[..i] && q[..j][i + 1..] == q[i + 1..j];
  }

  /** Queue contents once the first `p` frames have been gone through. */
  function AfterPass(q: seq<Node>, p: nat): seq<Node>
    requires p <= |q|
  {
    Survivors(q[..p]) + q[p..]
  }

  /** A pass that runs to the end leaves I-frames only, the larger half of them. */
  lemma FullPassHalves(q: seq<Node>)
    ensures var left := AfterPass(q, |q|);
            && |left| == (CountI(q) + 1) / 2
            && forall i | 0 <= i < |left| :: left[i].entry.Some? && left[i].entry.value.frameType == I
  {
    assert q[..|q|] == q && AfterPass(q, |q|) == Survivors(q);
    SurvivorsHalve(q);
    SurvivorsAreIFrames(q);
  }

  /** The last I-frame of the queue is still there after any pass. */
  lemma PassKeepsLastIFrame(q: seq<Node>, p: nat, i: nat)
    requires Distinct(q) && p <= |q| && i < |q| && IsIFrame(q[i]) && CountI(q[i + 1..]) == 0
    ensures q[i] in AfterPass(q, p)
  {
    if i < p {
      CountIConcat(q[i + 1..p], q[p..]);
      assert q[i + 1..p] + q[p..] == q[i + 1..] && q[..p][i + 1..] == q[i + 1..p];
      SurvivorsStay(q[..p], i);
    } else {
      assert q[i] == q[p..][i - p];
    }
  }

  /** A pass drops an I-frame only if the next I-frame of the queue is still there. */
  lemma PassKeepsNextIFrame(q: seq<Node>, p: nat, i: nat, j: nat)
    requires Distinct(q) && p <= |q| && i < j < |q| && IsIFrame(q[i]) && IsIFrame(q[j])
    requires CountI(q[i + 1..j]) == 0
    requires q[i] !in AfterPass(q, p)
    ensures q[j] in AfterPass(q, p)
  {
    if j < p {
      assert q[..p][i + 1..j] == q[i + 1..j];
      NextIFrameSurvives(q[..p], i, j);
    } else {
      assert q[j] == q[p..][j - p];
    }
  }

  /** The I-frame waiting to be pushed out by the next one. */
  function Mark(q: seq<Node>): ListHead?<Frame> {
    if Pending(q) then Survivors(q)[|Survivors(q)| - 1] else null
  }

  /** The frames the pass releases, in the order in which it releases them. */
  function Dropped(q: seq<Node>): seq<Node> {
    if q == [] then []
    else
      var before, f := q[..|q| - 1], q[|q| - 1];
      if !IsIFrame(f) then Dropped(before) + [f]
      else if Pending(before) then Dropped(before) + [Survivors(before)[|Survivors(before)| - 1]]
      else Dropped(before)
  }

  lemma {:induction false} AfterPassInOrder(q: seq<Node>, p: nat)
    requires p <= |q|
    ensures Subseq(AfterPass(q, p), q)
  {
    SurvivorsInOrder(q[..p]);
    SubseqAppend(Survivors(q[..p]), q[..p], q[p..]);
    assert q == q[..p] + q[p..];
  }

  /** One more frame: either it goes, or the marked I-frame goes, or it is marked. */
  lemma AfterPassStep(q: seq<Node>, p: nat)
    requires p < |q|
    ensures var s, now, next := Survivors(q[..p]), AfterPass(q, p), AfterPass(q, p + 1);
            && now[|s|] == q[p]
            && if !IsIFrame(q[p]) then next == RemoveAt(now, |s|)
               else if Pending(q[..p]) then next == RemoveAt(now, |s| - 1)
               else next == now
  {
    assert q[..p + 1][..p] == q[..p];
    var s, now, next := Survivors(q[..p]), AfterPass(q, p), AfterPass(q, p + 1);
    assert q[p..] == [q[p]] + q[p + 1..];
    if !IsIFrame(q[p]) {
      assert now[..|s|] == s && now[|s| + 1..] == q[p + 1..];
    } else if Pending(q[..p]) {
      assert now[..|s| - 1] == s[..|s| - 1] && now[|s|..] == q[p..];
    }
  }

  lemma MarkStep(q: seq<Node>, p: nat)
    requires p < |q|
    ensures var s, mark, next, d := Survivors(q[..p]), Mark(q[..p]), Mark(q[..p + 1]), Dropped(q[..p]);
            && (mark != null ==> |s| > 0 && AfterPass(q, p)[|s| - 1] == mark)
            && (mark != null <==> Pending(q[..p]))
            && if !IsIFrame(q[p]) then next == mark && Dropped(q[..p + 1]) == d + [q[p]]
               else if mark != null then next == null && Dropped(q[..p + 1]) == d + [mark]
               else next == q[p] && Dropped(q[..p + 1]) == d
  {
    assert q[..p + 1][..p] == q[..p] && q[..p + 1][p] == q[p];
    if Pending(q[..p]) { MarkIsLast(q, p); }
    hide AfterPass;
  }

  lemma MarkIsLast(q: seq<Node>, p: nat)
    requires p < |q| && Pending(q[..p])
    ensures var s := Survivors(q[..p]);
            AfterPass(q, p)[|s| - 1] == s[|s| - 1]
  {
  }

  /** At the end of the queue there is a mark exactly for an odd number of I-frames,
      and it is the last frame left. */
  lemma MarkAtEnd(q: seq<Node>)
    ensures Mark(q[..|q|]) != null <==> CountI(q) % 2 == 1
    ensures var left := AfterPass(q, |q|);
            CountI(q) % 2 == 1 ==> left != [] && Mark(q[..|q|]) == left[|left| - 1]
    ensures q == [] ==> Mark(q[..|q|]) == null
  {
    assert q[..|q|] == q && q[|q|..] == [];
    SurvivorsHalve(q);
    assert AfterPass(q, |q|) == Survivors(q);
  }

  /** Every frame gone through is either kept or dropped, once. */
  lemma {:induction false} KeptOrDropped(q: seq<Node>)
    ensures multiset(q) == multiset(Survivors(q)) + multiset(Dropped(q))
  {
    if q != [] {
      var before, f := q[..|q| - 1], q[|q| - 1];
      KeptOrDropped(before);
      PassedOneMore(q);
      hide *;
      assert q == before + [f];
    }
  }

  /** The kept and the dropped after one more frame, as collections. */
  lemma PassedOneMore(q: seq<Node>)
    requires q != []
    ensures var before, f := q[..|q| - 1], q[|q| - 1];
            multiset(Survivors(q)) + multiset(Dropped(q))
            == multiset(Survivors(before)) + multiset(Dropped(before)) + multiset{f}
  {
    var before, f := q[..|q| - 1], q[|q| - 1];
    var s, d, s', d' := Survivors(before), Dropped(before), Survivors(q), Dropped(q);
    if !IsIFrame(f) {
      assert s' == s && d' == d + [f];
    } else if Pending(before) {
      assert s' == s[..|s| - 1] + [f] && d' == d + [s[|s| - 1]];
      TradeLast(s, f, d);
    } else {
      assert s' == s + [f] && d' == d;
    }
  }

  lemma TradeLast<X>(s: seq<X>, f: X, d: seq<X>)
    requires s != []
    ensures var last := s[|s| - 1];
            multiset(s[..|s| - 1] + [f]) + multiset(d + [last]) == multiset(s) + multiset(d) + multiset{f}
  {
    assert s == s[..|s| - 1] + [s[|s| - 1]];
  }

  // ------------------------------------------------------------ the byte count

  /** `stream_size` after an entry is freed: the subtraction is guarded. */
  function Less(count: Word, len: Word): Word {
    if count >= len then count - len else count
  }

  /** `stream_size` after the entries `d` were freed, one by one. */
  function Freed(count: Word, d: seq<Node>): Word {
    if d == [] then count else Less(Freed(count, d[..|d| - 1]), Len(d[|d| - 1]))
  }

  /** How often freeing `d` prints the "some is wrong" warning. */
  function Warned(count: Word, d: seq<Node>): nat {
    if d == [] then 0
    else
      Warned(count, d[..|d| - 1]) + if Freed(count, d[..|d| - 1]) < Len(d[|d| - 1]) then 1 else 0
  }

  lemma FreedSnoc(count: Word, d: seq<Node>, n: Node)
    ensures Freed(count, d + [n]) == Less(Freed(count, d), Len(n))
    ensures Warned(count, d + [n]) == Warned(count, d) + if Freed(count, d) < Len(n) then 1 else 0
  {
    assert (d + [n])[..|d|] == d;
  }

  /** Starting from the true sum, a pass keeps the count true and warns of nothing. */
  lemma {:induction false} PassKeepsCount(q: seq<Node>, p: nat)
    requires p <= |q| && Size(q) < WORD
    ensures Freed(Size(q), Dropped(q[..p])) == Size(AfterPass(q, p))
    ensures Warned(Size(q), Dropped(q[..p])) == 0
  {
    hide *;
    if p == 0 {
      PassStart(q);
      NothingFreed(Size(q), q);
    } else {
      PassKeepsCount(q, p - 1);
      OneFramePassed(Size(q), q, p - 1);
    }
  }

  lemma OneFramePassed(count: Word, q: seq<Node>, p: nat)
    requires p < |q| && Freed(count, Dropped(q[..p])) == Size(AfterPass(q, p))
    ensures Freed(count, Dropped(q[..p + 1])) == Size(AfterPass(q, p + 1))
    ensures Warned(count, Dropped(q[..p + 1])) == Warned(count, Dropped(q[..p]))
  {
    var s := |Survivors(q[..p])|;
    AfterPassStep(q, p);
    MarkStep(q, p);
    hide *;
    if !IsIFrame(q[p]) {
      FreeKeepsCount(count, Dropped(q[..p]), AfterPass(q, p), s);
    } else if Pending(q[..p]) {
      FreeKeepsCount(count, Dropped(q[..p]), AfterPass(q, p), s - 1);
    }
  }

  lemma FreeKeepsCount(count: Word, d: seq<Node>, now: seq<Node>, k: nat)
    requires k < |now| && Freed(count, d) == Size(now)
    ensures Freed(count, d + [now[k]]) == Size(RemoveAt(now, k))
    ensures Warned(count, d + [now[k]]) == Warned(count, d)
  {
    FreedSnoc(count, d, now[k]);
    SizeRemove(now, k);
  }

  /** So does freeing the whole queue, and nothing is left. */
  lemma {:induction false} DrainKeepsCount(q: seq<Node>)
    requires Size(q) < WORD
    ensures Freed(Size(q), q) == 0 && Warned(Size(q), q) == 0
  {
    DrainedTo(Size(q), q, |q|);
    assert q[..|q|] == q && q[|q|..] == [];
  }

  lemma {:induction false} DrainedTo(count: Word, q: seq<Node>, i: nat)
    requires i <= |q| && count == Size(q)
    ensures Freed(count, q[..i]) == Size(q[i..]) && Warned(count, q[..i]) == 0
  {
    if i == 0 {
      assert q[0..] == q;
    } else {
      DrainedTo(count, q, i - 1);
      DrainStep(q, i - 1);
      FreeKeepsCount(count, q[..i - 1], q[i - 1..], 0);
    }
  }

  /** The count stays over the limit while 1, 2, .. `p` - 1 frames are gone through. */
  ghost predicate OverLimitTo(count: Word, q: seq<Node>, p: nat) {
    forall j | 0 < j < p && j <= |q| :: Freed(count, Dropped(q[..j])) > VIDEO_STREAM_SIZE_MAX
  }

  lemma OverLimitStep(count: Word, q: seq<Node>, p: nat)
    requires OverLimitTo(count, q, p)
    requires p <= |q| && Freed(count, Dropped(q[..p])) > VIDEO_STREAM_SIZE_MAX
    ensures OverLimitTo(count, q, p + 1)
  {
  }

  lemma OverLimitLess(count: Word, q: seq<Node>, p: nat)
    ensures OverLimitTo(count, q, p + 1) ==> OverLimitTo(count, q, p)
  {
  }

  lemma PassStart(q: seq<Node>)
    ensures AfterPass(q, 0) == q && Dropped(q[..0]) == [] && Mark(q[..0]) == null
  {
  }

  /** A pass ends at the first point within the limit, or at the end. */
  ghost predicate StopsAt(count: Word, q: seq<Node>, p: nat)
    requires p <= |q|
  {
    && OverLimitTo(count, q, p)
    && (p == |q| || (p > 0 && Freed(count, Dropped(q[..p])) <= VIDEO_STREAM_SIZE_MAX))
  }

  // --------------------------------------------------------------- the queue

  class VideoQueue {
    const head: Node
    var streamSize: Word
    /** How often the "some is wrong" warning was printed. */
    var warnings: nat

    /** The queue as a sequence. */
    ghost var nodes: seq<Node>
    /** This queue, its head and every entry it ever held. */
    ghost var repr: set<object>
    /** The entries given back to the encoder, in order. */
    ghost var released: seq<Node>

    ghost predicate Valid()
      reads this, repr
    {
      && this in repr && head in repr
      && (forall n | n in nodes :: n in repr && n.entry.Some?)
      && IsList(head, nodes)
    }

    constructor ()
      ensures Valid() && nodes == [] && released == [] && streamSize == 0 && warnings == 0
      ensures fresh(repr)
    {
      head := new ListHead(None);
      streamSize, warnings := 0, 0;
      nodes, released := [], [];
      repr := {this, head};
    }

    /** The producer's locked append of a fresh entry. */
    method Append(f: Frame) returns (ventry: Node)
      requires Valid()
      modifies repr
      ensures Valid() && repr == old(repr) + {ventry}
      ensures fresh(ventry) && ventry.entry == Some(f)
      ensures nodes == old(nodes) + [ventry] && released == old(released)
      ensures streamSize == Add32(old(streamSize), f.len) && warnings == old(warnings)
    {
      hide IsList;
      ventry := new ListHead(Some(f));
      ListShape(head, nodes);
      ListAddTail(ventry, head, nodes);
      streamSize := Add32(streamSize, f.len);
      nodes := nodes + [ventry];
      repr := repr + {ventry};
    }

    /** `free_one_video_stream` on the entry at position `k`. */
    method FreeOne(ventry: Node, ghost k: nat)
      requires Valid() && k < |nodes| && nodes[k] == ventry
      modifies repr
      ensures Valid() && repr == old(repr)
      ensures nodes == RemoveAt(old(nodes), k) && released == old(released) + [ventry]
      ensures ventry.entry.Some?
      ensures var len := ventry.entry.value.len;
              && streamSize == (if old(streamSize) >= len then old(streamSize) - len else old(streamSize))
              && warnings == old(warnings) + if old(streamSize) >= len then 0 else 1
    {
      hide IsList;
      Neighbours(head, nodes, k);
      assert ventry in nodes;
      ListDelInit(ventry, head, nodes, k);
      nodes := RemoveAt(nodes, k);
      released := released + [ventry];
      var len := ventry.entry.value.len;
      if streamSize >= len {
        streamSize := streamSize - len;
      } else {
        warnings := warnings + 1;
      }
    }

    /** The eviction pass, run by the producer when it saw too many bytes queued;
        the mark of a previous pass is assumed gone.  `p` frames are gone through:
        up to the first point where the count is within the limit, else all.  A mark
        is left behind exactly if the end was met, still above the limit, with an
        odd number of I-frames. */
    method EvictPass() returns (mark: ListHead?<Frame>, ghost p: nat)
      requires Valid()
      modifies repr
      ensures Valid() && repr == old(repr)
      ensures p <= |old(nodes)| && nodes == AfterPass(old(nodes), p)
      ensures released == old(released) + Dropped(old(nodes)[..p])
      ensures streamSize == Freed(old(streamSize), Dropped(old(nodes)[..p]))
      ensures warnings == old(warnings) + Warned(old(streamSize), Dropped(old(nodes)[..p]))
      ensures StopsAt(old(streamSize), old(nodes), p)
      ensures mark != null <==>
                p == |old(nodes)| && streamSize > VIDEO_STREAM_SIZE_MAX && CountI(old(nodes)) % 2 == 1
      ensures mark != null ==> nodes != [] && mark == nodes[|nodes| - 1]
    {
      hide IsList, AfterPass, Dropped, Mark, OverLimitTo, Freed, Warned;
      ghost var q, count := nodes, streamSize;
      PassStart(q);
      NothingFreed(count, q);
      ListShape(head, q);
      var prevIframe: ListHead?<Frame> := null;
      var ventry, vptr := First(q);
      p := 0;
      while ventry != head
        invariant Valid() && p <= |q| && nodes == AfterPass(q, p) && repr == old(repr)
        invariant released == old(released) + Dropped(q[..p])
        invariant streamSize == Freed(count, Dropped(q[..p]))
        invariant warnings == old(warnings) + Warned(count, Dropped(q[..p]))
        invariant ventry == if p < |q| then q[p] else head
        invariant p < |q| ==> vptr == if p + 1 < |q| then q[p + 1] else head
        invariant prevIframe == Mark(q[..p])
        invariant p > 0 ==> streamSize > VIDEO_STREAM_SIZE_MAX
        invariant OverLimitTo(count, q, p + 1)
        decreases |q| - p
      {
        prevIframe := EvictStep(q, p, old(released), count, old(warnings), ventry, prevIframe);
        p := p + 1;
        if streamSize <= VIDEO_STREAM_SIZE_MAX {
          prevIframe := null;
          break;
        }
        OverLimitStep(count, q, p);
        ventry, vptr := Advance(q, p, vptr);
      }
      OverLimitLess(count, q, p);
      mark := prevIframe;
      MarkAtEnd(q);
    }

    /** The pass's treatment of one frame. */
    method EvictStep(ghost q: seq<Node>, ghost p: nat, ghost before: seq<Node>, ghost count: Word, ghost warned: nat,
                     ventry: Node, prevIframe: ListHead?<Frame>)
      returns (mark: ListHead?<Frame>)
      requires Valid() && p < |q| && nodes == AfterPass(q, p) && ventry == q[p]
      requires prevIframe == Mark(q[..p]) && released == before + Dropped(q[..p])
      requires streamSize == Freed(count, Dropped(q[..p])) && warnings == warned + Warned(count, Dropped(q[..p]))
      modifies repr
      ensures Valid() && nodes == AfterPass(q, p + 1) && repr == old(repr)
      ensures mark == Mark(q[..p + 1])
      ensures released == before + Dropped(q[..p + 1])
      ensures streamSize == Freed(count, Dropped(q[..p + 1]))
      ensures warnings == warned + Warned(count, Dropped(q[..p + 1]))
    {
      hide IsList, Freed, Warned;
      ghost var s, d := Survivors(q[..p]), Dropped(q[..p]);
      AfterPassStep(q, p);
      MarkStep(q, p);
      hide AfterPass, Dropped, Mark, Survivors, Pending;
      assert nodes[|s|] in nodes;
      FreedSnoc(count, d, ventry);
      mark := prevIframe;
      if ventry.entry.value.frameType == I {
        if prevIframe != null {
          FreedSnoc(count, d, prevIframe);
          FreeOne(prevIframe, |s| - 1);
          mark := null;
        } else {
          mark := ventry;
        }
      } else {
        FreeOne(ventry, |s|);
      }
    }

    /** `list_for_each_entry_safe`: on to the entry that was saved. */
    method Advance(ghost q: seq<Node>, ghost p: nat, saved: Node) returns (ventry: Node, vptr: Node)
      requires Valid() && p <= |q| && nodes == AfterPass(q, p)
      requires saved == if p < |q| then q[p] else head
      ensures ventry == saved
      ensures p < |q| ==> vptr == if p + 1 < |q| then q[p + 1] else head
    {
      ghost var s := Survivors(q[..p]);
      ListShape(head, nodes);
      if p < |q| {
        assert nodes[|s|] == q[p] && (p + 1 < |q| ==> nodes[|s| + 1] == q[p + 1]);
        Neighbours(head, nodes, |s|);
      }
      ventry := saved;
      vptr := ventry.next;
    }

    /** `list_for_each_entry_safe`: the first entry and the one saved after it. */
    method First(ghost q: seq<Node>) returns (ventry: Node, vptr: Node)
      requires Valid() && nodes == q
      ensures ventry == if q != [] then q[0] else head
      ensures q != [] ==> vptr == if 1 < |q| then q[1] else head
    {
      ListShape(head, q);
      if q != [] { Neighbours(head, q, 0); }
      ventry := head.next;
      vptr := ventry.next;
    }

    /** The consumer's locked pop of the first entry; its subtraction is unguarded. */
    method Pop() returns (f: Option<Frame>)
      requires Valid()
      modifies repr
      ensures Valid() && repr == old(repr) && released == old(released) && warnings == old(warnings)
      ensures old(nodes) == [] ==> f == None && nodes == [] && streamSize == old(streamSize)
      ensures old(nodes) != [] ==> f == old(nodes)[0].entry && nodes == old(nodes)[1..]
      ensures old(nodes) != [] ==> streamSize == Sub32(old(streamSize), Len(old(nodes)[0]))
    {
      hide IsList, Distinct, Chain, RemoveAt;
      ListShape(head, nodes);
      if head.next == head {
        return None;
      }
      var ventry := head.next;
      DrainStep(nodes, 0);
      Neighbours(head, nodes, 0);
      assert nodes[0..] == nodes && ventry in nodes;
      f := ventry.entry;
      ListDelInit(ventry, head, nodes, 0);
      nodes := nodes[1..];
      streamSize := Sub32(streamSize, f.value.len);
    }

    method Follow(ghost rest: seq<Node>, saved: Node) returns (ventry: Node, vptr: Node)
      requires Valid() && nodes == rest && saved == if rest != [] then rest[0] else head
      ensures ventry == saved
      ensures rest != [] ==> vptr == if 1 < |rest| then rest[1] else head
    {
      ListShape(head, rest);
      if rest != [] { Neighbours(head, rest, 0); }
      ventry := saved;
      vptr := ventry.next;
    }

    /** `free_stream_buf`, once the producer is quiet: everything queued is released;
        `residue` is the count found before it is reset. */
    method Drain() returns (residue: Word)
      requires Valid()
      modifies repr
      ensures Valid() && nodes == [] && streamSize == 0 && repr == old(repr)
      ensures released == old(released) + old(nodes)
      ensures residue == Freed(old(streamSize), old(nodes))
      ensures warnings == old(warnings) + Warned(old(streamSize), old(nodes))
    {
      hide IsList, Freed, Warned;
      ghost var q, i, count := nodes, 0, streamSize;
      NothingFreed(count, q);
      ListShape(head, q);
      var ventry, vptr := First(q);
      while ventry != head
        invariant Valid() && i <= |q| && nodes == q[i..] && released == old(released) + q[..i]
        invariant repr == old(repr)
        invariant streamSize == Freed(count, q[..i]) && warnings == old(warnings) + Warned(count, q[..i])
        invariant ventry == if i < |q| then q[i] else head
        invariant i < |q| ==> vptr == if i + 1 < |q| then q[i + 1] else head
        decreases |q| - i
      {
        DrainStep(q, i);
        FreedSnoc(count, q[..i], ventry);
        FreeOne(ventry, 0);
        i := i + 1;
        ventry, vptr := Follow(nodes, vptr);
      }
      assert q[..i] == q;
      residue := streamSize;
      streamSize := 0;
    }
  }
}
