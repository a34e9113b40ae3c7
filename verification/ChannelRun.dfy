/** Whole runs of one channel: any interleaving of the encoder thread's checks, passes
    and appends with the sending thread's pops and drains.  `Trace` is what happens
    to the queue and its byte count; `Guarded` is the encoder thread's own order. */
module ChannelRun {
  import opened CTypes
  import opened Sequences
  import opened Wrappers
  import opened RingList
  import opened Subsequence
  import opened StreamQueue

  /** One step of a thread: reading the byte count, or one region under the mutex. */
  datatype Op = Check | Append(f: Frame) | Evict | Pop | Drain

  function Frames(ops: seq<Op>): seq<Frame> {
    if ops == [] then []
    else
      var last := ops[|ops| - 1];
      Frames(ops[..|ops| - 1]) + if last.Append? then [last.f] else []
  }

  // -------------------------------------------------------------- the byte count

  datatype State = State(nodes: seq<Node>, size: Word, warnings: nat)

  const START := State([], 0, 0)

  ghost function View(q: VideoQueue): State
    reads q
  {
    State(q.nodes, q.streamSize, q.warnings)
  }

  /** The state once a pass has gone through `p` frames. */
  function Passed(a: State, p: nat): State
    requires p <= |a.nodes|
  {
    var d := Dropped(a.nodes[..p]);
    State(AfterPass(a.nodes, p), Freed(a.size, d), a.warnings + Warned(a.size, d))
  }

  ghost predicate Step(op: Op, a: State, b: State) {
    match op
    case Check => b == a
    case Append(f) =>
      && b.nodes != [] && b.nodes[..|b.nodes| - 1] == a.nodes
      && b.nodes[|b.nodes| - 1].entry == Some(f)
      && b.size == Add32(a.size, f.len) && b.warnings == a.warnings
    case Evict =>
      exists p: nat :: p <= |a.nodes| && StopsAt(a.size, a.nodes, p) && b == Passed(a, p)
    case Pop =>
      if a.nodes == [] then b == a
      else b == State(a.nodes[1..], Sub32(a.size, Len(a.nodes[0])), a.warnings)
    case Drain => b == State([], 0, a.warnings + Warned(a.size, a.nodes))
  }

  /** `states` are the queue before the first step and after each. */
  ghost predicate Trace(ops: seq<Op>, states: seq<State>) {
    && |states| == |ops| + 1
    && states[0] == START
    && forall i | 0 <= i < |ops| :: Step(ops[i], states[i], states[i + 1])
  }

  predicate Exact(s: State) {
    s.size == Size(s.nodes)
  }

  predicate Fits(s: State) {
    Size(s.nodes) < WORD
  }

  /** A true count stays true, and nothing is warned of, unless the step queues 2^32
      bytes or more. */
  lemma StepKeepsExact(op: Op, a: State, b: State)
    requires Step(op, a, b) && Exact(a) && Fits(b)
    ensures Exact(b) && b.warnings == a.warnings
  {
    hide Size, Freed, Warned, StopsAt, Passed;
    match op
    case Check =>
    case Append(f) =>
      var n := b.nodes[|b.nodes| - 1];
      assert b.nodes == a.nodes + [n];
      SizeSnoc(a.nodes, n);
    case Evict =>
      PassKeepsExact(a, b);
    case Pop =>
      if a.nodes != [] {
        SizeRemove(a.nodes, 0);
        assert RemoveAt(a.nodes, 0) == a.nodes[1..];
      }
    case Drain =>
      DrainKeepsCount(a.nodes);
      EmptySize();
  }

  lemma PassKeepsExact(a: State, b: State)
    requires Step(Evict, a, b) && Exact(a)
    ensures Exact(b) && b.warnings == a.warnings
  {
    hide Size, Freed, Warned, AfterPass, Dropped, StopsAt;
    var p: nat :| p <= |a.nodes| && StopsAt(a.size, a.nodes, p) && b == Passed(a, p);
    PassKeepsCount(a.nodes, p);
  }

  /** The byte count is the sum of the queued lengths after every step exactly if the
      queue never holds 2^32 bytes; then the warning is never printed, and a drain
      would find the count at zero. */
  lemma {:induction false} CountExactIff(ops: seq<Op>, states: seq<State>)
    requires Trace(ops, states)
    ensures (forall i | 0 <= i < |states| :: Exact(states[i])) <==> (forall i | 0 <= i < |states| :: Fits(states[i]))
    ensures (forall i | 0 <= i < |states| :: Fits(states[i])) ==>
              var last := states[|ops|];
              last.warnings == 0 && Freed(last.size, last.nodes) == 0 && Warned(last.size, last.nodes) == 0
  {
    hide Step, Size, Freed, Warned;
    if forall i | 0 <= i < |states| :: Fits(states[i]) {
      EmptySize();
      for i := 0 to |ops|
        invariant forall j | 0 <= j <= i :: Exact(states[j]) && states[j].warnings == 0
      {
        StepKeepsExact(ops[i], states[i], states[i + 1]);
      }
      DrainKeepsCount(states[|ops|].nodes);
    }
  }

  // ------------------------------------------------------- the encoder's own order

  /** Where the encoder thread is: about to look at the byte count, having seen too
      many bytes, or about to fetch a frame. */
  datatype Phase = Looking | Full | Fetching

  function PhaseAt(ops: seq<Op>, states: seq<State>): Phase
    requires |states| > |ops|
  {
    if ops == [] then Looking
    else
      var n := |ops| - 1;
      match ops[n]
      case Check => if states[n].size > VIDEO_STREAM_SIZE_MAX then Full else Fetching
      case Append(_) => Looking
      case Evict => Fetching
      case Pop => PhaseAt(ops[..n], states)
      case Drain => Looking
  }

  /** The encoder thread may take this step: a pass comes right after a look that saw
      too many bytes, a frame only after a look or a pass.  It looks again when it
      got no frame, and it is quiet during a drain. */
  predicate Allowed(op: Op, phase: Phase) {
    match op
    case Check => phase != Full
    case Append(_) => phase == Fetching
    case Evict => phase == Full
    case Pop => true
    case Drain => phase != Full
  }

  predicate Guarded(ops: seq<Op>, states: seq<State>)
    requires |states| > |ops|
  {
    forall i | 0 <= i < |ops| :: Allowed(ops[i], PhaseAt(ops[..i], states))
  }

  /** All but the last `c` entries hold no more bytes than the limit. */
  ghost predicate LimitedBut(q: seq<Node>, c: nat) {
    exists k: nat :: k <= |q| && |q| - k <= c && Size(q[..k]) <= VIDEO_STREAM_SIZE_MAX
  }

  predicate FramesTo(q: seq<Node>, longest: nat) {
    forall n | n in q :: Len(n) <= longest
  }

  lemma {:induction false} SizeAtMost(q: seq<Node>, longest: nat)
    requires FramesTo(q, longest)
    ensures Size(q) <= |q| * longest
  {
    if q != [] {
      var before := q[..|q| - 1];
      SizeAtMost(before, longest);
      assert q[|q| - 1] in q;
      assert |q| * longest == |before| * longest + longest;
    }
  }

  lemma LimitedSize(q: seq<Node>, c: nat, longest: nat)
    requires LimitedBut(q, c) && FramesTo(q, longest)
    ensures Size(q) <= VIDEO_STREAM_SIZE_MAX + c * longest
  {
    var k: nat :| k <= |q| && |q| - k <= c && Size(q[..k]) <= VIDEO_STREAM_SIZE_MAX;
    assert q == q[..k] + q[k..];
    SizeConcat(q[..k], q[k..]);
    SizeAtMost(q[k..], longest);
    LessTimes(|q| - k, c, longest);
  }

  lemma LessTimes(a: nat, b: nat, x: nat)
    requires a <= b
    ensures a * x <= b * x
  {
  }

  lemma LimitedSnoc(q: seq<Node>, c: nat, n: Node)
    requires LimitedBut(q, c)
    ensures LimitedBut(q + [n], c + 1)
  {
    var k: nat :| k <= |q| && |q| - k <= c && Size(q[..k]) <= VIDEO_STREAM_SIZE_MAX;
    assert (q + [n])[..k] == q[..k];
  }

  lemma LimitedTail(q: seq<Node>, c: nat)
    requires q != [] && LimitedBut(q, c)
    ensures LimitedBut(q[1..], c)
  {
    var k: nat :| k <= |q| && |q| - k <= c && Size(q[..k]) <= VIDEO_STREAM_SIZE_MAX;
    if k == 0 {
      assert q[1..][..0] == q[..0];
    } else {
      assert q[..k] == [q[0]] + q[1..][..k - 1];
      SizeConcat([q[0]], q[1..][..k - 1]);
    }
  }

  lemma LimitedMore(q: seq<Node>, c: nat, d: nat)
    requires LimitedBut(q, c) && c <= d
    ensures LimitedBut(q, d)
  {
  }

  lemma WithinLimit(q: seq<Node>)
    requires Size(q) <= VIDEO_STREAM_SIZE_MAX
    ensures LimitedBut(q, 0)
  {
    assert q[..|q|] == q;
  }

  /** How many I-frames a pass keeps of `c` more: about half; one more if an I-frame
      before them waited to be pushed out. */
  function KeptMore(waiting: bool, c: nat): nat {
    if !waiting then (c + 1) / 2 else if c == 0 then 0 else c / 2 + 1
  }

  /** Of what a pass keeps, all but a few stood before the last frames `b`. */
  lemma {:induction false} KeptOfLast(a: seq<Node>, b: seq<Node>) returns (k: nat)
    ensures k <= |Survivors(a + b)| && k <= |Survivors(a)| && Survivors(a + b)[..k] == Survivors(a)[..k]
    ensures |Survivors(a + b)| - k <= KeptMore(Pending(a), CountI(b))
    decreases b
  {
    if b == [] {
      assert a + b == a;
      k := |Survivors(a)|;
    } else {
      var b', f := b[..|b| - 1], b[|b| - 1];
      k := KeptOfLast(a, b');
      assert (a + b)[..|a + b| - 1] == a + b';
      PendingConcat(a, b');
      if IsIFrame(f) && Pending(a + b') && k == |Survivors(a + b')| {
        k := k - 1;
      }
    }
  }

  lemma PendingConcat(a: seq<Node>, b: seq<Node>)
    ensures Pending(a + b) <==> Pending(a) != (CountI(b) % 2 == 1)
  {
    SurvivorsHalve(a);
    SurvivorsHalve(a + b);
    CountIConcat(a, b);
    hide *;
    OddSum(CountI(a), CountI(b));
  }

  lemma OddSum(x: nat, y: nat)
    ensures (x + y) % 2 == 1 <==> (x % 2 == 1) != (y % 2 == 1)
  {
  }

  lemma {:induction false} CountIAtMost(q: seq<Node>)
    ensures CountI(q) <= |q|
  {
    if q != [] {
      CountIAtMost(q[..|q| - 1]);
    }
  }

  /** A pass to the end leaves at most two of three excess entries. */
  lemma FullPassLimits(q: seq<Node>)
    requires LimitedBut(q, 3)
    ensures LimitedBut(AfterPass(q, |q|), 2)
  {
    var k: nat :| k <= |q| && |q| - k <= 3 && Size(q[..k]) <= VIDEO_STREAM_SIZE_MAX;
    var a, b := q[..k], q[k..];
    assert a + b == q && q[..|q|] == q && AfterPass(q, |q|) == Survivors(q);
    var j := KeptOfLast(a, b);
    CountIAtMost(b);
    SurvivorsInOrder(a);
    SizeWithin(Survivors(a), a);
    SizePrefix(Survivors(a), j);
  }

  lemma SizePrefix(q: seq<Node>, j: nat)
    requires j <= |q|
    ensures Size(q[..j]) <= Size(q)
  {
    assert q == q[..j] + q[j..];
    SizeConcat(q[..j], q[j..]);
  }

  /** How many entries may stand beyond the limit. */
  function Excess(phase: Phase): nat {
    if phase == Fetching then 2 else 3
  }

  ghost predicate Bounded(s: State, phase: Phase, longest: nat) {
    Exact(s) && FramesTo(s.nodes, longest) && LimitedBut(s.nodes, Excess(phase)) && s.warnings == 0
  }

  function NextPhase(op: Op, a: State, phase: Phase): Phase {
    match op
    case Check => if a.size > VIDEO_STREAM_SIZE_MAX then Full else Fetching
    case Append(_) => Looking
    case Evict => Fetching
    case Pop => phase
    case Drain => Looking
  }

  lemma StepLimits(op: Op, a: State, b: State, phase: Phase, longest: nat)
    requires Step(op, a, b) && Allowed(op, phase) && Bounded(a, phase, longest)
    requires op.Append? ==> op.f.len <= longest
    ensures FramesTo(b.nodes, longest) && LimitedBut(b.nodes, Excess(NextPhase(op, a, phase)))
  {
    hide Size, LimitedBut, Freed, Warned, Dropped, OverLimitTo;
    match op
    case Check =>
      if a.size <= VIDEO_STREAM_SIZE_MAX {
        WithinLimit(a.nodes);
        LimitedMore(a.nodes, 0, 2);
      } else {
        LimitedMore(a.nodes, Excess(phase), 3);
      }
    case Append(f) =>
      var n := b.nodes[|b.nodes| - 1];
      assert b.nodes == a.nodes + [n];
      LimitedSnoc(a.nodes, 2, n);
    case Evict =>
      EvictLimits(a, b, longest);
    case Pop =>
      if a.nodes != [] {
        LimitedTail(a.nodes, Excess(phase));
      }
    case Drain =>
      EmptySize();
      WithinLimit([]);
      LimitedMore([], 0, 3);
  }

  lemma EvictLimits(a: State, b: State, longest: nat)
    requires Step(Evict, a, b) && Exact(a) && FramesTo(a.nodes, longest) && LimitedBut(a.nodes, 3)
    ensures FramesTo(b.nodes, longest) && LimitedBut(b.nodes, 2)
  {
    hide Size, LimitedBut, Freed, Warned, Dropped, OverLimitTo, AfterPass;
    var q := a.nodes;
    var p: nat :| p <= |q| && StopsAt(a.size, q, p) && b == Passed(a, p);
    AfterPassInOrder(q, p);
    SubseqElements(AfterPass(q, p), q);
    if p == |q| {
      FullPassLimits(q);
    } else {
      PassKeepsCount(q, p);
      WithinLimit(b.nodes);
      LimitedMore(b.nodes, 0, 2);
    }
  }

  lemma StepBounded(op: Op, a: State, b: State, phase: Phase, longest: nat)
    requires Step(op, a, b) && Allowed(op, phase) && Bounded(a, phase, longest)
    requires op.Append? ==> op.f.len <= longest
    requires VIDEO_STREAM_SIZE_MAX + 3 * longest < WORD
    ensures Bounded(b, NextPhase(op, a, phase), longest)
  {
    hide Step, Size, LimitedBut;
    StepLimits(op, a, b, phase, longest);
    LimitedSize(b.nodes, Excess(NextPhase(op, a, phase)), longest);
    StepKeepsExact(op, a, b);
  }

  /** The encoder thread's guard bounds the queue: whatever the interleaving and
      however long the run, it never holds more than the limit and three frames.
      Every pass is taken to begin with no mark; see `EvictPass` for when one is left. */
  lemma {:induction false} GuardBoundsQueue(ops: seq<Op>, states: seq<State>, longest: nat)
    requires Trace(ops, states) && Guarded(ops, states)
    requires forall f | f in Frames(ops) :: f.len <= longest
    requires VIDEO_STREAM_SIZE_MAX + 3 * longest < WORD
    ensures forall i | 0 <= i < |states| ::
              Exact(states[i]) && Size(states[i].nodes) <= VIDEO_STREAM_SIZE_MAX + 3 * longest && states[i].warnings == 0
  {
    hide Step, Size, LimitedBut, Frames;
    EmptySize();
    WithinLimit([]);
    LimitedMore([], 0, 3);
    for i := 0 to |ops|
      invariant Bounded(states[i], PhaseAt(ops[..i], states), longest)
      invariant forall j | 0 <= j < i ::
                  Exact(states[j]) && Size(states[j].nodes) <= VIDEO_STREAM_SIZE_MAX + 3 * longest && states[j].warnings == 0
    {
      var phase := PhaseAt(ops[..i], states);
      assert ops[..i + 1][..i] == ops[..i];
      if ops[i].Append? { AppendedFrame(ops, i); }
      LimitedSize(states[i].nodes, Excess(phase), longest);
      LessTimes(Excess(phase), 3, longest);
      StepBounded(ops[i], states[i], states[i + 1], phase, longest);
    }
    LimitedSize(states[|ops|].nodes, Excess(PhaseAt(ops[..|ops|], states)), longest);
    LessTimes(Excess(PhaseAt(ops[..|ops|], states)), 3, longest);
  }

  lemma {:induction false} AppendedFrame(ops: seq<Op>, i: nat)
    requires i < |ops| && ops[i].Append?
    ensures ops[i].f in Frames(ops)
    decreases |ops|
  {
    var before := ops[..|ops| - 1];
    if i < |before| {
      AppendedFrame(before, i);
    }
  }

  // ------------------------------------------------------- what becomes of frames

  /** Every entry ever appended is queued, popped or evicted, exactly once, and what
      the consumer gets and will get is in the order of arrival. */
  ghost predicate Faithful(appended: seq<Node>, popped: seq<Node>, released: seq<Node>, nodes: seq<Node>) {
    && Distinct(appended)
    && multiset(appended) == multiset(popped) + multiset(released) + multiset(nodes)
    && Subseq(popped + nodes, appended)
  }

  ghost predicate Carries(nodes: seq<Node>, frames: seq<Frame>) {
    && |nodes| == |frames|
    && forall i | 0 <= i < |nodes| :: nodes[i].entry == Some(frames[i])
  }

  lemma FaithfulAppend(appended: seq<Node>, popped: seq<Node>, released: seq<Node>, nodes: seq<Node>, n: Node)
    requires Faithful(appended, popped, released, nodes) && n !in appended
    ensures Faithful(appended + [n], popped, released, nodes + [n])
  {
    SubseqAppend(popped + nodes, appended, [n]);
    assert popped + nodes + [n] == popped + (nodes + [n]);
  }

  lemma FaithfulEvict(appended: seq<Node>, popped: seq<Node>, released: seq<Node>, nodes: seq<Node>, p: nat)
    requires Faithful(appended, popped, released, nodes) && p <= |nodes|
    ensures Faithful(appended, popped, released + Dropped(nodes[..p]), AfterPass(nodes, p))
  {
    hide AfterPass, Dropped;
    AfterPassInOrder(nodes, p);
    SubseqPrepend(popped, AfterPass(nodes, p), nodes);
    SubseqTransitive(popped + AfterPass(nodes, p), popped + nodes, appended);
    EvictConserves(nodes, p);
  }

  lemma EvictConserves(nodes: seq<Node>, p: nat)
    requires p <= |nodes|
    ensures multiset(nodes) == multiset(Dropped(nodes[..p])) + multiset(AfterPass(nodes, p))
  {
    KeptOrDropped(nodes[..p]);
    assert nodes == nodes[..p] + nodes[p..];
  }

  lemma FaithfulPop(appended: seq<Node>, popped: seq<Node>, released: seq<Node>, nodes: seq<Node>)
    requires Faithful(appended, popped, released, nodes) && nodes != []
    ensures Faithful(appended, popped + [nodes[0]], released, nodes[1..])
  {
    assert nodes == [nodes[0]] + nodes[1..];
    assert popped + nodes == popped + [nodes[0]] + nodes[1..];
  }

  /** A subsequence holds no more bytes. */
  lemma {:induction false} SizeWithin(s: seq<Node>, t: seq<Node>)
    requires Subseq(s, t)
    ensures Size(s) <= Size(t)
  {
    if s != [] && t != [] {
      if s[|s| - 1] == t[|t| - 1] && Subseq(s[..|s| - 1], t[..|t| - 1]) {
        SizeWithin(s[..|s| - 1], t[..|t| - 1]);
      } else {
        SizeWithin(s, t[..|t| - 1]);
      }
    }
  }

  lemma NothingYet()
    ensures Faithful([], [], [], [])
  {
  }

  lemma FaithfulDrain(appended: seq<Node>, popped: seq<Node>, released: seq<Node>, nodes: seq<Node>)
    requires Faithful(appended, popped, released, nodes)
    ensures Faithful(appended, popped, released + nodes, [])
  {
    SubseqPrefix(popped, nodes);
    SubseqTransitive(popped, popped + nodes, appended);
    assert popped + [] == popped;
  }

  lemma {:induction false} SubseqPrefix<X>(s: seq<X>, u: seq<X>)
    ensures Subseq(s, s + u)
  {
    if u == [] {
      SubseqReflexive(s);
      assert s + u == s;
    } else {
      SubseqPrefix(s, u[..|u| - 1]);
      assert (s + u)[..|s + u| - 1] == s + u[..|u| - 1];
    }
  }

  /** Bytes are conserved: what was appended is queued, popped or released, so the
      queue never holds more bytes than were appended. */
  lemma QueuedBytes(appended: seq<Node>, popped: seq<Node>, released: seq<Node>, nodes: seq<Node>)
    requires Faithful(appended, popped, released, nodes)
    ensures Size(appended) == Size(popped) + Size(released) + Size(nodes)
  {
    SizeConcat(popped, released);
    SizeConcat(popped + released, nodes);
    SizePermuted(appended, popped + released + nodes);
  }

  lemma {:induction false} SizePermuted(s: seq<Node>, t: seq<Node>)
    requires multiset(s) == multiset(t)
    ensures Size(s) == Size(t)
  {
    if s == [] {
      assert |t| == |multiset(t)| == 0;
    } else {
      var k := IndexOfLast(s, t);
      SizePermuted(s[..|s| - 1], RemoveAt(t, k));
      SizeRemove(t, k);
    }
  }

  lemma IndexOfLast<X>(s: seq<X>, t: seq<X>) returns (k: nat)
    requires s != [] && multiset(s) == multiset(t)
    ensures k < |t| && t[k] == s[|s| - 1]
    ensures multiset(s[..|s| - 1]) == multiset(RemoveAt(t, k))
  {
    var s', n := s[..|s| - 1], s[|s| - 1];
    assert s == s' + [n] && n in multiset(t);
    k :| k < |t| && t[k] == n;
    TakenOut(t, k);
    CancelOne(multiset(s'), multiset(RemoveAt(t, k)), n);
  }

  lemma CancelOne<X>(a: multiset<X>, b: multiset<X>, x: X)
    requires a + multiset{x} == b + multiset{x}
    ensures a == b
  {
    assert a == a + multiset{x} - multiset{x};
  }

  lemma TakenOut<X>(t: seq<X>, k: nat)
    requires k < |t|
    ensures multiset(t) == multiset(RemoveAt(t, k)) + multiset{t[k]}
  {
    assert t == t[..k] + [t[k]] + t[k + 1..];
  }

  /** One step on the heap.  `appended` and `popped` are the entries so far. */
  method Perform(q: VideoQueue, op: Op, ghost appended: seq<Node>, ghost popped: seq<Node>)
    returns (f: Option<Frame>, ghost appended': seq<Node>, ghost popped': seq<Node>)
    requires q.Valid() && Faithful(appended, popped, q.released, q.nodes)
    requires forall n | n in appended :: n in q.repr
    modifies q.repr
    ensures q.Valid() && old(q.repr) <= q.repr && fresh(q.repr - old(q.repr))
    ensures Step(op, old(View(q)), View(q))
    ensures Faithful(appended', popped', q.released, q.nodes)
    ensures forall n | n in appended' :: n in q.repr
    ensures if op.Append? then |appended'| == |appended| + 1 && appended'[..|appended|] == appended
                               && appended'[|appended|].entry == Some(op.f)
            else appended' == appended
    ensures if op.Pop? && old(q.nodes) != [] then popped' == popped + [old(q.nodes)[0]] && f == old(q.nodes)[0].entry && f.Some?
            else popped' == popped && f == None
  {
    hide IsList, Faithful, AfterPass, Dropped, Freed, Warned, StopsAt;
    f, appended', popped' := None, appended, popped;
    ghost var nodes, released := q.nodes, q.released;
    match op
    case Check =>
    case Append(frame) =>
      var n := q.Append(frame);
      FaithfulAppend(appended, popped, released, nodes, n);
      appended' := appended + [n];
    case Evict =>
      ghost var before := View(q);
      var mark;
      ghost var p;
      mark, p := q.EvictPass();
      FaithfulEvict(appended, popped, released, nodes, p);
      assert View(q) == Passed(before, p);
    case Pop =>
      f := q.Pop();
      if nodes != [] {
        FaithfulPop(appended, popped, released, nodes);
        popped' := popped + [nodes[0]];
      }
    case Drain =>
      var residue := q.Drain();
      FaithfulDrain(appended, popped, released, nodes);
  }

  ghost predicate New(q: VideoQueue)
    reads q, q.repr
  {
    q.Valid() && View(q) == START && q.released == []
  }

  lemma TraceStep(ops: seq<Op>, states: seq<State>, op: Op, s: State)
    requires Trace(ops, states) && Step(op, states[|ops|], s)
    ensures Trace(ops + [op], states + [s])
  {
    hide Step;
    var ops', states' := ops + [op], states + [s];
    forall i | 0 <= i < |ops'| ensures Step(ops'[i], states'[i], states'[i + 1]) {
      if i < |ops| {
        assert Step(ops[i], states[i], states[i + 1]);
      }
    }
  }

  lemma CarriesSnoc(nodes: seq<Node>, nodes': seq<Node>, ops: seq<Op>, op: Op)
    requires Carries(nodes, Frames(ops))
    requires if op.Append? then |nodes'| == |nodes| + 1 && nodes'[..|nodes|] == nodes && nodes'[|nodes|].entry == Some(op.f)
             else nodes' == nodes
    ensures Carries(nodes', Frames(ops + [op]))
  {
    assert (ops + [op])[..|ops|] == ops;
    assert forall i | 0 <= i < |nodes| :: nodes'[i] == nodes'[..|nodes|][i];
  }

  /** Runs any steps in any order on a new queue.  The 32-bit byte count is the sum of
      the queued lengths all the way exactly if the queue never holds 4 GiB; then the
      warning is never printed. */
  method Run(q: VideoQueue, ops: seq<Op>)
    returns (ghost appended: seq<Node>, ghost popped: seq<Node>, ghost states: seq<State>)
    requires New(q)
    modifies q.repr
    ensures q.Valid() && fresh(q.repr - old(q.repr)) && forall n | n in appended :: n in q.repr
    ensures Carries(appended, Frames(ops)) && Faithful(appended, popped, q.released, q.nodes)
    ensures Trace(ops, states) && View(q) == states[|ops|]
    ensures (forall i | 0 <= i < |states| :: Exact(states[i])) <==> (forall i | 0 <= i < |states| :: Fits(states[i]))
    ensures (forall i | 0 <= i < |states| :: Fits(states[i])) ==> q.streamSize == Size(q.nodes) && q.warnings == 0
  {
    hide IsList, Faithful, Step, Carries, Frames;
    appended, popped, states := [], [], [START];
    NothingYet();
    NothingCarried();
    for k := 0 to |ops|
      invariant q.Valid() && fresh(q.repr - old(q.repr)) && forall n | n in appended :: n in q.repr
      invariant Carries(appended, Frames(ops[..k])) && Faithful(appended, popped, q.released, q.nodes)
      invariant Trace(ops[..k], states) && View(q) == states[k]
    {
      ghost var so := appended;
      var f;
      f, appended, popped := Perform(q, ops[k], appended, popped);
      assert ops[..k + 1] == ops[..k] + [ops[k]];
      CarriesSnoc(so, appended, ops[..k], ops[k]);
      TraceStep(ops[..k], states, ops[k], View(q));
      states := states + [View(q)];
    }
    assert ops[..|ops|] == ops;
    CountExactIff(ops, states);
  }

  lemma NothingCarried()
    ensures Carries([], Frames([]))
  {
  }

  /** Draining after any run hands back exactly what was neither popped nor evicted,
      and finds the byte count at zero if the queue never held 4 GiB. */
  method RunAndDrain(q: VideoQueue, ops: seq<Op>)
    returns (ghost appended: seq<Node>, ghost popped: seq<Node>, ghost states: seq<State>, residue: Word)
    requires New(q)
    modifies q.repr
    ensures q.Valid() && q.nodes == [] && fresh(q.repr - old(q.repr)) && forall n | n in appended :: n in q.repr
    ensures Carries(appended, Frames(ops)) && Subseq(popped, appended)
    ensures Distinct(appended) && multiset(appended) == multiset(popped) + multiset(q.released)
    ensures Trace(ops, states)
    ensures (forall i | 0 <= i < |states| :: Fits(states[i])) ==> residue == 0 && q.warnings == 0
  {
    hide IsList, Step, Subseq;
    appended, popped, states := Run(q, ops);
    CountExactIff(ops, states);
    FaithfulDrain(appended, popped, q.released, q.nodes);
    residue := q.Drain();
    assert popped + [] == popped;
  }

  // ------------------------------------------------- the two threads of a channel

  /** Whose turn it is.  The encoder thread comes with the frame it would fetch now,
      if it gets one. */
  datatype Turn = Encoder(got: Option<Frame>) | Sender | Cancel

  lemma GuardedStep(ops: seq<Op>, states: seq<State>, op: Op, s: State)
    requires |states| == |ops| + 1 && Guarded(ops, states) && Allowed(op, PhaseAt(ops, states))
    ensures Guarded(ops + [op], states + [s])
    ensures PhaseAt(ops + [op], states + [s]) == NextPhase(op, states[|ops|], PhaseAt(ops, states))
  {
    var ops', states' := ops + [op], states + [s];
    forall i | 0 <= i <= |ops| ensures PhaseAt(ops'[..i], states') == PhaseAt(ops[..i], states) {
      assert ops'[..i] == ops[..i];
      PhaseLocal(ops[..i], states, states');
    }
    assert ops[..|ops|] == ops && ops'[..|ops|] == ops;
  }

  lemma {:induction false} PhaseLocal(ops: seq<Op>, states: seq<State>, states': seq<State>)
    requires |states| > |ops| && states <= states'
    ensures PhaseAt(ops, states) == PhaseAt(ops, states')
  {
    if ops != [] {
      PhaseLocal(ops[..|ops| - 1], states, states');
    }
  }

  /** The frames got at the turns at which the encoder thread was fetching. */
  function FramesGot(turns: seq<Turn>, phases: seq<Phase>): seq<Frame>
    requires |phases| >= |turns|
  {
    if turns == [] then []
    else
      var n := |turns| - 1;
      FramesGot(turns[..n], phases) +
      if turns[n].Encoder? && turns[n].got.Some? && phases[n] == Fetching then [turns[n].got.value] else []
  }

  lemma {:induction false} GotLocal(turns: seq<Turn>, phases: seq<Phase>, phases': seq<Phase>)
    requires |phases| >= |turns| && phases <= phases'
    ensures FramesGot(turns, phases) == FramesGot(turns, phases')
  {
    if turns != [] {
      GotLocal(turns[..|turns| - 1], phases, phases');
    }
  }

  lemma GotSnoc(turns: seq<Turn>, turn: Turn, phases: seq<Phase>, phase: Phase)
    requires |phases| == |turns| + 1
    ensures FramesGot(turns + [turn], phases + [phase]) == FramesGot(turns, phases) +
              if turn.Encoder? && turn.got.Some? && phases[|turns|] == Fetching then [turn.got.value] else []
  {
    assert (turns + [turn])[..|turns|] == turns;
    GotLocal(turns, phases, phases + [phase]);
  }

  /** What the run so far has done, as the steps it took. */
  datatype History = History(ops: seq<Op>, states: seq<State>, appended: seq<Node>, popped: seq<Node>)

  ghost predicate Kept(q: VideoQueue, h: History, phase: Phase)
    reads q, q.repr
  {
    && q.Valid() && (forall n | n in h.appended :: n in q.repr)
    && Carries(h.appended, Frames(h.ops)) && Faithful(h.appended, h.popped, q.released, q.nodes)
    && Trace(h.ops, h.states) && View(q) == h.states[|h.ops|]
    && Guarded(h.ops, h.states)
    && (phase == PhaseAt(h.ops, h.states) || (phase == Looking && PhaseAt(h.ops, h.states) == Fetching))
  }

  /** One step, allowed where the encoder thread is. */
  method Take(q: VideoQueue, op: Op, ghost h: History, phase: Phase)
    returns (ghost h': History)
    requires Kept(q, h, phase) && Allowed(op, phase)
    modifies q.repr
    ensures Kept(q, h', NextPhase(op, old(View(q)), phase))
    ensures old(q.repr) <= q.repr && fresh(q.repr - old(q.repr))
    ensures Step(op, old(View(q)), View(q))
    ensures h'.ops == h.ops + [op] && h'.states == h.states + [View(q)]
    ensures Frames(h'.ops) == Frames(h.ops) + if op.Append? then [op.f] else []
  {
    hide IsList, Faithful, Step, Carries, Frames, Guarded, PhaseAt;
    var f;
    ghost var appended, popped;
    f, appended, popped := Perform(q, op, h.appended, h.popped);
    CarriesSnoc(h.appended, appended, h.ops, op);
    TraceStep(h.ops, h.states, op, View(q));
    AllowedLater(op, phase, PhaseAt(h.ops, h.states));
    GuardedStep(h.ops, h.states, op, View(q));
    FramesSnoc(h.ops, op);
    h' := History(h.ops + [op], h.states + [View(q)], appended, popped);
  }

  lemma AllowedLater(op: Op, phase: Phase, traced: Phase)
    requires Allowed(op, phase) && (phase == traced || (phase == Looking && traced == Fetching))
    ensures Allowed(op, traced)
  {
  }

  /** What a turn does. */
  ghost predicate TurnDone(turn: Turn, phase: Phase, a: State, phase': Phase, b: State) {
    match turn
    case Sender => Step(Pop, a, b) && phase' == phase
    case Cancel => if phase == Full then b == a && phase' == phase else Step(Drain, a, b) && phase' == Looking
    case Encoder(got) =>
      match phase
      case Looking => b == a && phase' == if a.size > VIDEO_STREAM_SIZE_MAX then Full else Fetching
      case Full => Step(Evict, a, b) && phase' == Fetching
      case Fetching => phase' == Looking && if got.Some? then Step(Append(got.value), a, b) else b == a
  }

  /** One turn: the encoder thread looks, passes or fetches; a fetch that fails makes it
      look again.  A cancel waits until the encoder thread is quiet. */
  method TakeTurn(q: VideoQueue, turn: Turn, phase: Phase, ghost h: History) returns (phase': Phase, ghost h': History)
    requires Kept(q, h, phase)
    modifies q.repr
    ensures Kept(q, h', phase') && old(q.repr) <= q.repr && fresh(q.repr - old(q.repr))
    ensures TurnDone(turn, phase, old(View(q)), phase', View(q))
    ensures Frames(h'.ops) == Frames(h.ops) +
              if turn.Encoder? && turn.got.Some? && phase == Fetching then [turn.got.value] else []
  {
    hide Kept, Step, Frames;
    phase', h' := phase, h;
    var seen := q.streamSize;
    match turn
    case Sender =>
      h' := Take(q, Pop, h, phase);
    case Cancel =>
      if phase != Full {
        h' := Take(q, Drain, h, phase);
        phase' := Looking;
      }
    case Encoder(got) =>
      match phase {
        case Looking =>
          h' := Take(q, Check, h, phase);
          phase' := if seen > VIDEO_STREAM_SIZE_MAX then Full else Fetching;
          NothingChecked(old(View(q)), View(q));
        case Full =>
          h' := Take(q, Evict, h, phase);
          phase' := Fetching;
        case Fetching =>
          phase' := Looking;
          if got.Some? {
            h' := Take(q, Append(got.value), h, phase);
          } else {
            LookAgain(q, h);
          }
      }
  }

  lemma NothingChecked(a: State, b: State)
    requires Step(Check, a, b)
    ensures b == a
  {
  }

  lemma LookAgain(q: VideoQueue, h: History)
    requires Kept(q, h, Fetching)
    ensures Kept(q, h, Looking)
  {
  }

  /** The encoder thread's loop, step by step, with the sending thread and cancels in
      between; `at` and `phases` are the queue and the encoder thread before the first
      turn and after each.  With frames of at most `longest` bytes the queue never
      holds more than the limit and three frames, the byte count is always true and
      the warning is never printed, however long it runs.  As above, passes begin with
      no mark. */
  method EncodeAndSend(q: VideoQueue, turns: seq<Turn>, longest: nat)
    returns (ghost at: seq<State>, ghost phases: seq<Phase>, ghost h: History)
    requires New(q)
    requires forall t | t in turns && t.Encoder? && t.got.Some? :: t.got.value.len <= longest
    requires VIDEO_STREAM_SIZE_MAX + 3 * longest < WORD
    modifies q.repr
    ensures q.Valid() && fresh(q.repr - old(q.repr)) && forall n | n in h.appended :: n in q.repr
    ensures |at| == |phases| == |turns| + 1
    ensures at[0] == START && phases[0] == Looking && at[|turns|] == View(q)
    ensures forall i | 0 <= i <= |turns| ::
              at[i].size == Size(at[i].nodes) <= 0x10_0000 + 3 * longest && at[i].warnings == 0
    // The encoder thread looks, and passes if it saw more than 1 MiB.
    ensures forall i | 0 <= i < |turns| && turns[i].Encoder? && phases[i] == Looking ::
              at[i + 1] == at[i] && phases[i + 1] == if at[i].size > 0x10_0000 then Full else Fetching
    ensures forall i | 0 <= i < |turns| && turns[i].Encoder? && phases[i] == Full ::
              phases[i + 1] == Fetching && exists p: nat ::
                && p <= |at[i].nodes| && at[i + 1].nodes == AfterPass(at[i].nodes, p)
                && (p == |at[i].nodes| || (p > 0 && at[i + 1].size <= 0x10_0000))
    // A frame it fetches is queued last; without one it looks again.
    ensures forall i | 0 <= i < |turns| && turns[i].Encoder? && phases[i] == Fetching ::
              phases[i + 1] == Looking &&
              var before, after := at[i].nodes, at[i + 1].nodes;
              match turns[i].got
              case Some(f) => |after| == |before| + 1 && after[..|before|] == before && after[|before|].entry == Some(f)
              case None => after == before
    // The sending thread takes the first frame.
    ensures forall i | 0 <= i < |turns| && turns[i] == Sender ::
              phases[i + 1] == phases[i] && at[i + 1].nodes == if at[i].nodes == [] then [] else at[i].nodes[1..]
    ensures forall i | 0 <= i < |turns| && turns[i] == Cancel ::
              if phases[i] == Full then at[i + 1] == at[i] && phases[i + 1] == Full
              else at[i + 1].nodes == [] && phases[i + 1] == Looking
    // The frames fetched, in order, and what became of them.
    ensures Carries(h.appended, FramesGot(turns, phases))
    ensures Faithful(h.appended, h.popped, q.released, q.nodes)
    ensures Trace(h.ops, h.states) && Guarded(h.ops, h.states)
  {
    hide *;
    at, phases, h := Turns(q, turns, longest);
    EncoderLooks(turns, phases, at);
    EncoderPasses(turns, phases, at);
    EncoderFetches(turns, phases, at);
    OthersTurn(turns, phases, at);
    AllKept(q, h, turns, phases);
  }

  lemma EncoderLooks(turns: seq<Turn>, phases: seq<Phase>, at: seq<State>)
    requires |at| == |phases| == |turns| + 1
    requires AllDone(turns, phases, at)
    ensures forall i | 0 <= i < |turns| && turns[i].Encoder? && phases[i] == Looking ::
              at[i + 1] == at[i] && phases[i + 1] == if at[i].size > 0x10_0000 then Full else Fetching
  {
    hide TurnDone, AfterPass;
    forall i | 0 <= i < |turns| && turns[i].Encoder? && phases[i] == Looking
      ensures at[i + 1] == at[i] && phases[i + 1] == if at[i].size > 0x10_0000 then Full else Fetching
    {
      TurnMeans(turns[i], phases[i], at[i], phases[i + 1], at[i + 1]);
    }
  }

  lemma EncoderPasses(turns: seq<Turn>, phases: seq<Phase>, at: seq<State>)
    requires |at| == |phases| == |turns| + 1
    requires AllDone(turns, phases, at)
    ensures forall i | 0 <= i < |turns| && turns[i].Encoder? && phases[i] == Full ::
              phases[i + 1] == Fetching && exists p: nat ::
                && p <= |at[i].nodes| && at[i + 1].nodes == AfterPass(at[i].nodes, p)
                && (p == |at[i].nodes| || (p > 0 && at[i + 1].size <= 0x10_0000))
  {
    hide TurnDone, AfterPass;
    forall i | 0 <= i < |turns| {
      TurnMeans(turns[i], phases[i], at[i], phases[i + 1], at[i + 1]);
    }
  }

  lemma EncoderFetches(turns: seq<Turn>, phases: seq<Phase>, at: seq<State>)
    requires |at| == |phases| == |turns| + 1
    requires AllDone(turns, phases, at)
    ensures forall i | 0 <= i < |turns| && turns[i].Encoder? && phases[i] == Fetching ::
              phases[i + 1] == Looking &&
              var before, after := at[i].nodes, at[i + 1].nodes;
              match turns[i].got
              case Some(f) => |after| == |before| + 1 && after[..|before|] == before && after[|before|].entry == Some(f)
              case None => after == before
  {
    hide TurnDone, AfterPass;
    forall i | 0 <= i < |turns| {
      TurnMeans(turns[i], phases[i], at[i], phases[i + 1], at[i + 1]);
    }
  }

  lemma OthersTurn(turns: seq<Turn>, phases: seq<Phase>, at: seq<State>)
    requires |at| == |phases| == |turns| + 1
    requires AllDone(turns, phases, at)
    ensures forall i | 0 <= i < |turns| && turns[i] == Sender ::
              phases[i + 1] == phases[i] && at[i + 1].nodes == if at[i].nodes == [] then [] else at[i].nodes[1..]
    ensures forall i | 0 <= i < |turns| && turns[i] == Cancel ::
              if phases[i] == Full then at[i + 1] == at[i] && phases[i + 1] == Full
              else at[i + 1].nodes == [] && phases[i + 1] == Looking
  {
    hide TurnDone, AfterPass;
    forall i | 0 <= i < |turns| && turns[i] == Sender
      ensures phases[i + 1] == phases[i] && at[i + 1].nodes == if at[i].nodes == [] then [] else at[i].nodes[1..]
    {
      TurnMeans(turns[i], phases[i], at[i], phases[i + 1], at[i + 1]);
    }
    forall i | 0 <= i < |turns| && turns[i] == Cancel
      ensures if phases[i] == Full then at[i + 1] == at[i] && phases[i + 1] == Full
              else at[i + 1].nodes == [] && phases[i + 1] == Looking
    {
      TurnMeans(turns[i], phases[i], at[i], phases[i + 1], at[i + 1]);
    }
  }

  lemma AllKept(q: VideoQueue, h: History, turns: seq<Turn>, phases: seq<Phase>)
    requires |phases| > |turns| && Kept(q, h, phases[|turns|]) && Frames(h.ops) == FramesGot(turns, phases)
    ensures q.Valid() && forall n | n in h.appended :: n in q.repr
    ensures Carries(h.appended, FramesGot(turns, phases)) && Faithful(h.appended, h.popped, q.released, q.nodes)
    ensures Trace(h.ops, h.states) && Guarded(h.ops, h.states)
  {
  }

  ghost predicate AllDone(turns: seq<Turn>, phases: seq<Phase>, at: seq<State>)
    requires |at| == |phases| == |turns| + 1
  {
    forall i | 0 <= i < |turns| :: TurnDone(turns[i], phases[i], at[i], phases[i + 1], at[i + 1])
  }

  /** A turn in plain terms. */
  lemma TurnMeans(turn: Turn, phase: Phase, a: State, phase': Phase, b: State)
    requires TurnDone(turn, phase, a, phase', b)
    ensures turn.Encoder? && phase == Looking ==> b == a && phase' == if a.size > 0x10_0000 then Full else Fetching
    ensures turn.Encoder? && phase == Full ==>
              phase' == Fetching && exists p: nat ::
                && p <= |a.nodes| && b.nodes == AfterPass(a.nodes, p)
                && (p == |a.nodes| || (p > 0 && b.size <= 0x10_0000))
    ensures turn.Encoder? && phase == Fetching ==>
              phase' == Looking &&
              match turn.got
              case Some(f) => |b.nodes| == |a.nodes| + 1 && b.nodes[..|a.nodes|] == a.nodes && b.nodes[|a.nodes|].entry == Some(f)
              case None => b.nodes == a.nodes
    ensures turn == Sender ==> phase' == phase && b.nodes == if a.nodes == [] then [] else a.nodes[1..]
    ensures turn == Cancel ==> if phase == Full then b == a && phase' == Full else b.nodes == [] && phase' == Looking
  {
    hide AfterPass, Freed, Dropped, StopsAt, Warned, Passed;
    if turn.Encoder? && phase == Full {
      PassedTo(a, b);
    }
  }

  lemma PassedTo(a: State, b: State)
    requires Step(Evict, a, b)
    ensures exists p: nat ::
              && p <= |a.nodes| && b.nodes == AfterPass(a.nodes, p)
              && (p == |a.nodes| || (p > 0 && b.size <= VIDEO_STREAM_SIZE_MAX))
  {
    hide AfterPass, Freed, Dropped, OverLimitTo, Warned;
    var p: nat :| p <= |a.nodes| && StopsAt(a.size, a.nodes, p) && b == Passed(a, p);
    assert b.nodes == AfterPass(a.nodes, p);
  }

  method Turns(q: VideoQueue, turns: seq<Turn>, longest: nat)
    returns (ghost at: seq<State>, ghost phases: seq<Phase>, ghost h: History)
    requires New(q)
    requires forall t | t in turns && t.Encoder? && t.got.Some? :: t.got.value.len <= longest
    requires VIDEO_STREAM_SIZE_MAX + 3 * longest < WORD
    modifies q.repr
    ensures fresh(q.repr - old(q.repr))
    ensures |at| == |phases| == |turns| + 1
    ensures at[0] == START && phases[0] == Looking && at[|turns|] == View(q)
    ensures Kept(q, h, phases[|turns|]) && Frames(h.ops) == FramesGot(turns, phases)
    ensures AllDone(turns, phases, at)
    ensures forall i | 0 <= i <= |turns| ::
              at[i].size == Size(at[i].nodes) <= 0x10_0000 + 3 * longest && at[i].warnings == 0
  {
    hide Kept, TurnDone, Frames, Size, New;
    at, phases := [START], [Looking];
    h := Beginning(q);
    var phase := Looking;
    for k := 0 to |turns|
      invariant fresh(q.repr - old(q.repr)) && q in q.repr
      invariant |at| == |phases| == k + 1 && at[0] == START && phases[0] == Looking
      invariant at[k] == View(q) && phases[k] == phase && Kept(q, h, phase)
      invariant Frames(h.ops) == FramesGot(turns[..k], phases)
      invariant forall f | f in Frames(h.ops) :: f.len <= longest
      invariant forall i | 0 <= i < k :: TurnDone(turns[i], phases[i], at[i], phases[i + 1], at[i + 1])
      invariant forall i | 0 <= i <= k ::
                  Exact(at[i]) && Size(at[i].nodes) <= VIDEO_STREAM_SIZE_MAX + 3 * longest && at[i].warnings == 0
    {
      assert turns[k] in turns;
      ghost var before := phases;
      phase, h := TakeTurn(q, turns[k], phase, h);
      at, phases := at + [View(q)], phases + [phase];
      assert turns[..k + 1] == turns[..k] + [turns[k]];
      GotSnoc(turns[..k], turns[k], before, phase);
      KeptBounds(q, h, phase, longest);
    }
    assert turns[..|turns|] == turns;
  }

  ghost method Beginning(q: VideoQueue) returns (h: History)
    requires New(q)
    ensures Kept(q, h, Looking) && Frames(h.ops) == [] && View(q) == START && q in q.repr
    ensures Exact(START) && Size(START.nodes) == 0
  {
    hide IsList;
    NothingYet();
    NothingCarried();
    h := History([], [START], [], []);
  }

  lemma KeptBounds(q: VideoQueue, h: History, phase: Phase, longest: nat)
    requires Kept(q, h, phase) && VIDEO_STREAM_SIZE_MAX + 3 * longest < WORD
    requires forall f | f in Frames(h.ops) :: f.len <= longest
    ensures var s := View(q);
            Exact(s) && Size(s.nodes) <= VIDEO_STREAM_SIZE_MAX + 3 * longest && s.warnings == 0
    ensures q in q.repr
  {
    hide IsList, Faithful, Frames, Step, Size;
    GuardBoundsQueue(h.ops, h.states, longest);
  }

  lemma FramesSnoc(ops: seq<Op>, op: Op)
    ensures Frames(ops + [op]) == Frames(ops) + if op.Append? then [op.f] else []
  {
    assert (ops + [op])[..|ops|] == ops;
  }
}
