/** One send session: the subscribers of each channel are copied when it starts,
    then every popped frame is offered to them in table order. */
module Delivery {
  import opened Wrappers
  import opened RingList
  import opened Subsequence
  import opened StreamQueue
  import opened ChannelRun

  datatype Chn = Main | Sub

  /** A pointer of the C program; only its identity matters. */
  type Ptr = nat
  const NULL: Ptr := 0

  /** `cb_t` */
  datatype Slot = Slot(cbFunc: Ptr, priData: Ptr)

  const FREE_SLOT := Slot(NULL, NULL)

  /** The occupied slots of a table, in order. */
  function Occupied(table: seq<Slot>): (subs: seq<Slot>) {
    if table == [] then []
    else
      var last := table[|table| - 1];
      Occupied(table[..|table| - 1]) + if last.cbFunc != NULL then [last] else []
  }

  /** The occupied slots stand there in table order. */
  lemma {:induction false} OccupiedInOrder(table: seq<Slot>)
    ensures Subseq(Occupied(table), table)
  {
    if table != [] {
      var before, last := table[..|table| - 1], table[|table| - 1];
      OccupiedInOrder(before);
      assert table == before + [last];
      if last.cbFunc != NULL {
        SubseqAppend(Occupied(before), before, [last]);
      } else {
        assert Occupied(table) == Occupied(before);
      }
    }
  }

  /** Each is there as often as in the table, and no others are. */
  lemma {:induction false} OccupiedExactly(table: seq<Slot>, s: Slot)
    ensures multiset(Occupied(table))[s] == if s.cbFunc != NULL then multiset(table)[s] else 0
  {
    if table != [] {
      var before, last := table[..|table| - 1], table[|table| - 1];
      var subs := Occupied(before);
      OccupiedExactly(before, s);
      assert table == before + [last];
      hide *;
      assert multiset(subs + [last]) == multiset(subs) + multiset{last};
    }
  }

  /** The copy made under the lock when a session starts. */
  method CopyOccupied(table: array<Slot>) returns (subs: seq<Slot>)
    ensures subs == Occupied(table[..])
    ensures forall s | s in subs :: s.cbFunc != NULL
  {
    subs := [];
    for i := 0 to table.Length
      invariant subs == Occupied(table[..i])
      invariant forall s | s in subs :: s.cbFunc != NULL
    {
      assert table[..i + 1][..i] == table[..i];
      if table[i].cbFunc != NULL {
        subs := subs + [table[i]];
      }
    }
    assert table[..table.Length] == table[..];
  }

  // ------------------------------------------------------- what is owed to whom

  /** The frames from the first I-frame on. */
  function FromFirstI(fs: seq<Frame>): seq<Frame> {
    if fs == [] || fs[0].frameType == I then fs else FromFirstI(fs[1..])
  }

  /** It is a suffix, what precedes it holds no I-frame, and it starts with one. */
  lemma {:induction false} FromFirstIIsSuffix(fs: seq<Frame>) returns (k: nat)
    ensures k <= |fs| && FromFirstI(fs) == fs[k..]
    ensures forall j | 0 <= j < k :: fs[j].frameType != I
    ensures k < |fs| ==> fs[k].frameType == I
  {
    if fs == [] || fs[0].frameType == I {
      k := 0;
    } else {
      var k' := FromFirstIIsSuffix(fs[1..]);
      k := k' + 1;
      forall j | 0 <= j < k ensures fs[j].frameType != I {
        if j > 0 { assert fs[j] == fs[1..][j - 1]; }
      }
    }
  }

  predicate SeenI(fs: seq<Frame>) {
    exists i | 0 <= i < |fs| :: fs[i].frameType == I
  }

  lemma {:induction false} FromFirstISnoc(fs: seq<Frame>, f: Frame)
    ensures SeenI(fs) || f.frameType == I ==> FromFirstI(fs + [f]) == FromFirstI(fs) + [f]
    ensures !SeenI(fs) && f.frameType != I ==> FromFirstI(fs + [f]) == []
    ensures !SeenI(fs) ==> FromFirstI(fs) == []
  {
    if fs == [] {
      assert fs + [f] == [f] && [f][1..] == [];
    } else if fs[0].frameType != I {
      FromFirstISnoc(fs[1..], f);
      assert (fs + [f])[1..] == fs[1..] + [f];
      assert SeenI(fs) <==> SeenI(fs[1..]) by {
        if i :| 0 <= i < |fs| && fs[i].frameType == I { assert fs[1..][i - 1].frameType == I; }
        if i :| 0 <= i < |fs[1..]| && fs[1..][i].frameType == I { assert fs[i + 1].frameType == I; }
      }
    }
  }

  /** A subscriber waits for an I-frame if it, or one before it in the table, has
      private data. */
  predicate Waits(subs: seq<Slot>, i: nat)
    requires i < |subs|
  {
    exists j | 0 <= j <= i :: subs[j].priData != NULL
  }

  function Owed(subs: seq<Slot>, i: nat, popped: seq<Frame>): seq<Frame>
    requires i < |subs|
  {
    if Waits(subs, i) then FromFirstI(popped) else popped
  }

  /** A subscriber with private data gets the frames from the first I-frame on, so
      the first thing it gets is an I-frame. */
  lemma PreviewStartsWithI(subs: seq<Slot>, i: nat, popped: seq<Frame>)
    requires i < |subs| && subs[i].priData != NULL
    ensures Owed(subs, i, popped) == FromFirstI(popped)
    ensures Owed(subs, i, popped) != [] ==> Owed(subs, i, popped)[0].frameType == I
  {
  }

  /** What that means: whoever has no private data, and nobody before it in the table,
      gets every frame.  Any other gets the frames from the first I-frame on, so all of
      them exactly if the first one popped is an I-frame. */
  lemma OwedMeans(subs: seq<Slot>, i: nat, popped: seq<Frame>)
    requires i < |subs|
    ensures (forall j | 0 <= j <= i :: subs[j].priData == NULL) ==> Owed(subs, i, popped) == popped
    ensures (exists j | 0 <= j <= i :: subs[j].priData != NULL) ==>
              && Owed(subs, i, popped) == FromFirstI(popped)
              && (Owed(subs, i, popped) == popped <==> popped == [] || popped[0].frameType == I)
  {
    var k := FromFirstIIsSuffix(popped);
    assert FromFirstI(popped) == popped ==> k == 0;
  }

  // ---------------------------------------------------------------- the session

  class ChannelSession {
    const subs: seq<Slot>
    var iFrameFlag: bool
    var frameCount: nat
    /** Frames taken from this channel's queue, and what each subscriber was sent. */
    ghost var popped: seq<Frame>
    ghost var got: seq<seq<Frame>>

    ghost predicate Valid()
      reads this
    {
      && (forall i | 0 <= i < |subs| :: subs[i].cbFunc != NULL)
      && iFrameFlag == SeenI(popped)
      && |got| == |subs|
      && forall i | 0 <= i < |subs| :: got[i] == Owed(subs, i, popped)
    }

    constructor (table: array<Slot>)
      ensures Valid() && popped == [] && subs == Occupied(table[..])
    {
      var s := CopyOccupied(table);
      subs := s;
      iFrameFlag, frameCount := false, 0;
      popped := [];
      got := seq(|s|, i => []);
    }

    /** Offers one popped frame; `stamped` says whether the frame's time stamp became
        the last one sent. */
    method Deliver(f: Frame) returns (stamped: bool)
      requires Valid()
      modifies this
      ensures Valid() && popped == old(popped) + [f]
      ensures |got| == |subs|
      ensures forall i | 0 <= i < |subs| && (forall j | 0 <= j <= i :: subs[j].priData == NULL) ::
                got[i] == popped
      ensures forall i | 0 <= i < |subs| && (exists j | 0 <= j <= i :: subs[j].priData != NULL) ::
                && got[i] == FromFirstI(popped)
                && (got[i] == popped <==> popped == [] || popped[0].frameType == I)
      ensures stamped <==>
                || (exists i | 0 <= i < |popped| :: popped[i].frameType == I)
                || forall i | 0 <= i < |subs| :: subs[i].priData == NULL
    {
      ghost var before, sent := popped, got;
      if !iFrameFlag {
        if f.frameType == I {
          iFrameFlag := true;
        }
        frameCount := frameCount + 1;
      }
      popped := before + [f];
      SeenISnoc(before, f);
      FromFirstISnoc(before, f);
      stamped := true;
      for i := 0 to |subs|
        invariant iFrameFlag == SeenI(popped) && popped == before + [f] && |got| == |subs|
        invariant !iFrameFlag ==> forall j | 0 <= j < i :: subs[j].priData == NULL
        invariant forall j | 0 <= j < i :: got[j] == Owed(subs, j, popped)
        invariant forall j | i <= j < |subs| :: got[j] == Owed(subs, j, before)
      {
        if !iFrameFlag && subs[i].priData != NULL {
          stamped := false;
          break;
        }
        if subs[i].cbFunc != NULL {
          got := got[i := got[i] + [f]];
        }
      }
      forall i | 0 <= i < |subs| {
        OwedMeans(subs, i, popped);
      }
    }
  }

  lemma SeenISnoc(fs: seq<Frame>, f: Frame)
    ensures SeenI(fs + [f]) <==> SeenI(fs) || f.frameType == I
  {
    assert f.frameType == I ==> (fs + [f])[|fs|].frameType == I;
    if i :| 0 <= i < |fs| && fs[i].frameType == I {
      assert (fs + [f])[i].frameType == I;
    }
  }

  /** Empties one channel's queue into the session, or stops right after the frame
      at which a change of subscribers is noticed. */
  method SendQueued(q: VideoQueue, s: ChannelSession, changeAfter: nat) returns (ghost n: nat)
    requires q.Valid() && s.Valid() && s !in q.repr
    modifies q.repr, s
    ensures q.Valid() && s.Valid()
    ensures forall x | x in old(q.nodes) :: x.entry.Some?
    ensures n <= |old(q.nodes)| && q.nodes == old(q.nodes)[n..]
    ensures n == if changeAfter > 0 && changeAfter < |old(q.nodes)| then changeAfter else |old(q.nodes)|
    ensures |s.popped| == |old(s.popped)| + n && s.popped[..|old(s.popped)|] == old(s.popped)
    ensures forall i | 0 <= i < n :: old(q.nodes)[i].entry == Some(s.popped[|old(s.popped)| + i])
  {
    hide IsList, Size, FromFirstI;
    n := 0;
    ghost var nodes := q.nodes;
    var count := 0;
    while true
      invariant q.Valid() && s.Valid() && q.repr == old(q.repr) && n == count
      invariant n <= |nodes| && q.nodes == nodes[n..]
      invariant |s.popped| == |old(s.popped)| + n && s.popped[..|old(s.popped)|] == old(s.popped)
      invariant forall i | 0 <= i < n :: nodes[i].entry == Some(s.popped[|old(s.popped)| + i])
      invariant changeAfter > 0 ==> n < changeAfter
      decreases |nodes| - n
    {
      var f := q.Pop();
      if f == None {
        break;
      }
      var stamped := s.Deliver(f.value);
      n, count := n + 1, count + 1;
      if count == changeAfter {
        break;
      }
    }
  }

  // ------------------------------------------ the session among the encoder threads

  /** A step of a channel's encoder thread, or the sending thread's next frame;
      `changed` is what it then reads of the change flag. */
  datatype Event = EncoderStep(chn: Chn, op: Op) | SenderStep(changed: bool)

  predicate EncoderSteps(events: seq<Event>) {
    forall e | e in events && e.EncoderStep? :: !e.op.Pop? && !e.op.Drain?
  }

  /** What entered and left one channel's queue: before the session, and in it. */
  datatype Traffic = Traffic(appended: seq<Node>, earlier: seq<Node>, popped: seq<Node>)

  /** Every entry is accounted for, in order, and the session was given exactly the
      frames popped since it began. */
  ghost predicate Accounted(q: VideoQueue, s: ChannelSession, t: Traffic)
    reads q, q.repr, s
  {
    && q.Valid() && s.Valid() && s !in q.repr
    && (forall n | n in t.appended :: n in q.repr)
    && Faithful(t.appended, t.earlier + t.popped, q.released, q.nodes)
    && Carries(t.popped, s.popped)
  }

  /** Both queues, where the sending thread is in its round, whether it has left, and
      what it popped. */
  datatype Progress = Progress(main: State, sub: State, at: Chn, ended: bool,
                               mainPopped: seq<Node>, subPopped: seq<Node>)

  function Front(s: State): seq<Node> {
    if s.nodes == [] then [] else [s.nodes[0]]
  }

  /** The sending thread stays with a channel until it is empty or a change is
      noticed; it leaves at the end of a round that noticed a change. */
  ghost predicate SessionStep(e: Event, a: Progress, b: Progress) {
    match e
    case EncoderStep(Main, op) => Step(op, a.main, b.main) && b == a.(main := b.main)
    case EncoderStep(Sub, op) => Step(op, a.sub, b.sub) && b == a.(sub := b.sub)
    case SenderStep(changed) =>
      if a.ended then b == a
      else if a.at == Main then
        && Step(Pop, a.main, b.main)
        && b == a.(main := b.main, mainPopped := a.mainPopped + Front(a.main),
                   at := if a.main.nodes == [] || changed then Sub else Main)
      else
        && Step(Pop, a.sub, b.sub)
        && var round := a.sub.nodes == [] || changed;
           b == a.(sub := b.sub, subPopped := a.subPopped + Front(a.sub),
                   at := if round then Main else Sub, ended := round && changed)
  }

  method Begin(q: VideoQueue, table: array<Slot>, ghost t: Traffic) returns (s: ChannelSession)
    requires q.Valid() && (forall n | n in t.appended :: n in q.repr)
    requires Faithful(t.appended, t.earlier, q.released, q.nodes) && t.popped == []
    ensures fresh(s) && q in q.repr && Accounted(q, s, t) && s.subs == Occupied(table[..])
  {
    s := new ChannelSession(table);
    assert t.earlier + [] == t.earlier;
  }

  lemma SentWhatIsOwed(q: VideoQueue, s: ChannelSession, t: Traffic)
    requires Accounted(q, s, t)
    ensures |s.got| == |s.subs|
    ensures forall i | 0 <= i < |s.subs| && (forall j | 0 <= j <= i :: s.subs[j].priData == NULL) ::
              s.got[i] == s.popped
    ensures forall i | 0 <= i < |s.subs| && (exists j | 0 <= j <= i :: s.subs[j].priData != NULL) ::
              && s.got[i] == FromFirstI(s.popped)
              && (s.got[i] == s.popped <==> s.popped == [] || s.popped[0].frameType == I)
  {
    forall i | 0 <= i < |s.subs| {
      OwedMeans(s.subs, i, s.popped);
    }
  }

  /** One step on one channel; a popped frame is delivered. */
  method ChannelStep(q: VideoQueue, s: ChannelSession, op: Op, ghost t: Traffic)
    returns (sent: bool, ghost t': Traffic)
    requires Accounted(q, s, t)
    modifies q.repr, s
    ensures Accounted(q, s, t') && t'.earlier == t.earlier
    ensures q in q.repr && old(q.repr) <= q.repr && fresh(q.repr - old(q.repr))
    ensures Step(op, old(View(q)), View(q))
    ensures sent <==> op.Pop? && old(q.nodes) != []
    ensures t'.popped == if op.Pop? then t.popped + Front(old(View(q))) else t.popped
  {
    hide Faithful, Step;
    var f;
    ghost var appended, popped;
    f, appended, popped := Perform(q, op, t.appended, t.earlier + t.popped);
    t' := t.(appended := appended);
    sent := f.Some?;
    if sent {
      var stamped := s.Deliver(f.value);
      t' := t'.(popped := t.popped + [old(q.nodes)[0]]);
      assert popped == t'.earlier + t'.popped;
    }
  }

  /** Both channels are accounted for and share nothing. */
  ghost predicate BothAccounted(main: VideoQueue, sub: VideoQueue, mainSession: ChannelSession, subSession: ChannelSession,
                                mainTraffic: Traffic, subTraffic: Traffic)
    reads main, main.repr, mainSession, sub, sub.repr, subSession
  {
    && main in main.repr && sub in sub.repr && main.repr !! sub.repr
    && mainSession != subSession && mainSession !in sub.repr && subSession !in main.repr
    && Accounted(main, mainSession, mainTraffic) && Accounted(sub, subSession, subTraffic)
  }

  /** One step of either encoder thread or of the sending thread. */
  method SessionTurn(main: VideoQueue, sub: VideoQueue, mainSession: ChannelSession, subSession: ChannelSession,
                     e: Event, at: Chn, ended: bool, ghost mainTraffic: Traffic, ghost subTraffic: Traffic)
    returns (at': Chn, ended': bool, ghost mainTraffic': Traffic, ghost subTraffic': Traffic)
    requires BothAccounted(main, sub, mainSession, subSession, mainTraffic, subTraffic)
    requires EncoderSteps([e])
    modifies main.repr, sub.repr, mainSession, subSession
    ensures BothAccounted(main, sub, mainSession, subSession, mainTraffic', subTraffic')
    ensures mainTraffic'.earlier == mainTraffic.earlier && subTraffic'.earlier == subTraffic.earlier
    ensures fresh(main.repr - old(main.repr)) && fresh(sub.repr - old(sub.repr))
    ensures SessionStep(e, old(Progress(View(main), View(sub), at, ended, mainTraffic.popped, subTraffic.popped)),
                        Progress(View(main), View(sub), at', ended', mainTraffic'.popped, subTraffic'.popped))
  {
    hide Accounted, Step;
    at', ended', mainTraffic', subTraffic' := at, ended, mainTraffic, subTraffic;
    assert e in [e];
    var sent;
    match e
    case EncoderStep(Main, op) =>
      sent, mainTraffic' := ChannelStep(main, mainSession, op, mainTraffic);
    case EncoderStep(Sub, op) =>
      sent, subTraffic' := ChannelStep(sub, subSession, op, subTraffic);
    case SenderStep(changed) =>
      if !ended {
        if at == Main {
          sent, mainTraffic' := ChannelStep(main, mainSession, Pop, mainTraffic);
          if !sent || changed {
            at' := Sub;
          }
        } else {
          sent, subTraffic' := ChannelStep(sub, subSession, Pop, subTraffic);
          if !sent || changed {
            at' := Main;
            ended' := changed;
          }
        }
      }
  }

  /** `video_stream_to_dana`, with the encoder threads at work between any two of its
      steps.  For each channel, every subscriber copied at the start has been sent
      exactly what it is owed of the frames popped, and nothing is lost. */
  method VideoStreamToDana(main: VideoQueue, sub: VideoQueue, mainCb: array<Slot>, subCb: array<Slot>,
                           events: seq<Event>, ghost main0: Traffic, ghost sub0: Traffic)
    returns (mainSession: ChannelSession, subSession: ChannelSession, ended: bool,
             ghost mainTraffic: Traffic, ghost subTraffic: Traffic, ghost states: seq<Progress>)
    requires EncoderSteps(events) && main.repr !! sub.repr
    requires main.Valid() && sub.Valid()
    requires forall n | n in main0.appended :: n in main.repr
    requires forall n | n in sub0.appended :: n in sub.repr
    requires Faithful(main0.appended, main0.earlier, main.released, main.nodes) && main0.popped == []
    requires Faithful(sub0.appended, sub0.earlier, sub.released, sub.nodes) && sub0.popped == []
    modifies main.repr, sub.repr
    ensures Accounted(main, mainSession, mainTraffic) && mainTraffic.earlier == main0.earlier
    ensures Accounted(sub, subSession, subTraffic) && subTraffic.earlier == sub0.earlier
    ensures mainSession.subs == Occupied(old(mainCb[..])) && subSession.subs == Occupied(old(subCb[..]))
    ensures |mainSession.got| == |mainSession.subs| && |subSession.got| == |subSession.subs|
    ensures forall i | 0 <= i < |mainSession.subs| && (forall j | 0 <= j <= i :: mainSession.subs[j].priData == NULL) ::
              mainSession.got[i] == mainSession.popped
    ensures forall i | 0 <= i < |mainSession.subs| && (exists j | 0 <= j <= i :: mainSession.subs[j].priData != NULL) ::
              && mainSession.got[i] == FromFirstI(mainSession.popped)
              && (mainSession.got[i] == mainSession.popped <==> mainSession.popped == [] || mainSession.popped[0].frameType == I)
    ensures forall i | 0 <= i < |subSession.subs| && (forall j | 0 <= j <= i :: subSession.subs[j].priData == NULL) ::
              subSession.got[i] == subSession.popped
    ensures forall i | 0 <= i < |subSession.subs| && (exists j | 0 <= j <= i :: subSession.subs[j].priData != NULL) ::
              && subSession.got[i] == FromFirstI(subSession.popped)
              && (subSession.got[i] == subSession.popped <==> subSession.popped == [] || subSession.popped[0].frameType == I)
    ensures |states| == |events| + 1
    ensures states[0] == old(Progress(View(main), View(sub), Main, false, [], []))
    ensures forall i | 0 <= i < |events| :: SessionStep(events[i], states[i], states[i + 1])
    ensures states[|events|].main == View(main) && states[|events|].mainPopped == mainTraffic.popped
    ensures states[|events|].sub == View(sub) && states[|events|].subPopped == subTraffic.popped
    ensures states[|events|].ended == ended
    // The sending thread takes the front of the channel it is at, and moves on when that
    // is empty or a change is noticed; it leaves after the sub channel, on a change.
    ensures forall i | 0 <= i < |events| && events[i].SenderStep? && !states[i].ended && states[i].at == Main ::
              var a, b := states[i], states[i + 1];
              && b.main.nodes == (if a.main.nodes == [] then [] else a.main.nodes[1..]) && b.sub == a.sub && !b.ended
              && b.mainPopped == (if a.main.nodes == [] then a.mainPopped else a.mainPopped + [a.main.nodes[0]])
              && b.at == if a.main.nodes == [] || events[i].changed then Sub else Main
    ensures forall i | 0 <= i < |events| && events[i].SenderStep? && !states[i].ended && states[i].at == Sub ::
              var a, b := states[i], states[i + 1];
              && b.sub.nodes == (if a.sub.nodes == [] then [] else a.sub.nodes[1..]) && b.main == a.main
              && b.subPopped == (if a.sub.nodes == [] then a.subPopped else a.subPopped + [a.sub.nodes[0]])
              && b.at == (if a.sub.nodes == [] || events[i].changed then Main else Sub)
              && b.ended == events[i].changed
    ensures forall i | 0 <= i < |events| && (events[i].EncoderStep? || states[i].ended) ::
              states[i + 1].mainPopped == states[i].mainPopped && states[i + 1].subPopped == states[i].subPopped
  {
    hide Accounted, SessionStep, Faithful, Owed, Occupied, FromFirstI;
    mainSession := Begin(main, mainCb, main0);
    subSession := Begin(sub, subCb, sub0);
    mainTraffic, subTraffic := main0, sub0;
    var at := Main;
    ended := false;
    states := [Progress(View(main), View(sub), Main, false, [], [])];
    for k := 0 to |events|
      invariant BothAccounted(main, sub, mainSession, subSession, mainTraffic, subTraffic)
      invariant mainTraffic.earlier == main0.earlier && subTraffic.earlier == sub0.earlier
      invariant fresh(main.repr - old(main.repr)) && fresh(sub.repr - old(sub.repr))
      invariant fresh(mainSession) && fresh(subSession)
      invariant |states| == k + 1 && states[0] == old(Progress(View(main), View(sub), Main, false, [], []))
      invariant states[k] == Progress(View(main), View(sub), at, ended, mainTraffic.popped, subTraffic.popped)
      invariant forall i | 0 <= i < k :: SessionStep(events[i], states[i], states[i + 1])
    {
      at, ended, mainTraffic, subTraffic :=
        SessionTurn(main, sub, mainSession, subSession, events[k], at, ended, mainTraffic, subTraffic);
      states := states + [Progress(View(main), View(sub), at, ended, mainTraffic.popped, subTraffic.popped)];
    }
    SentWhatIsOwed(main, mainSession, mainTraffic);
    SentWhatIsOwed(sub, subSession, subTraffic);
    forall i | 0 <= i < |events| {
      SessionStepMeans(events[i], states[i], states[i + 1]);
    }
  }

  lemma SessionStepMeans(e: Event, a: Progress, b: Progress)
    requires SessionStep(e, a, b)
    ensures e.SenderStep? && !a.ended && a.at == Main ==>
              && b.main.nodes == (if a.main.nodes == [] then [] else a.main.nodes[1..]) && b.sub == a.sub && !b.ended
              && b.mainPopped == (if a.main.nodes == [] then a.mainPopped else a.mainPopped + [a.main.nodes[0]])
              && b.at == if a.main.nodes == [] || e.changed then Sub else Main
    ensures e.SenderStep? && !a.ended && a.at == Sub ==>
              && b.sub.nodes == (if a.sub.nodes == [] then [] else a.sub.nodes[1..]) && b.main == a.main
              && b.subPopped == (if a.sub.nodes == [] then a.subPopped else a.subPopped + [a.sub.nodes[0]])
              && b.at == (if a.sub.nodes == [] || e.changed then Main else Sub)
              && b.ended == e.changed
    ensures e.EncoderStep? || a.ended ==> b.mainPopped == a.mainPopped && b.subPopped == a.subPopped
  {
  }
}
