/** The subscriber tables of the live stream: two video channels and the audio
    input with four slots each, the talk-back with one.  Starting, changing quality
    and stopping are methods over the arrays; each is tied to a function on the
    tables' contents, and the laws are proved about those functions. */
module Subscribers {
  import opened CTypes
  import opened Wrappers
  import opened Delivery

  const MAX_USER := 4
  const HIGH_BPS := 75
  const NORMAL_BPS := 44

  datatype CallbackId = PreVideo | PreAudio | CloudVideo | CloudAudio | PlayAudio | CallbackMax

  datatype Table = Table(cb: seq<Slot>, count: Word)

  datatype Av = Av(main: Table, sub: Table, ai: Table, ao: Table)

  // ------------------------------------------------------------ what a call does

  function PreviewChannel(quality: int): Chn {
    if quality > HIGH_BPS || quality > NORMAL_BPS then Main else Sub
  }

  /** The first free slot from `i` on, or the table's length. */
  function FirstFree(cb: seq<Slot>, i: nat): (r: nat)
    requires i <= |cb|
    ensures i <= r <= |cb|
    ensures r < |cb| ==> cb[r].cbFunc == NULL
    ensures forall j | i <= j < r :: cb[j].cbFunc != NULL
    decreases |cb| - i
  {
    if i == |cb| || cb[i].cbFunc == NULL then i else FirstFree(cb, i + 1)
  }

  function Enroll(t: Table, slot: Slot): Table {
    var i := FirstFree(t.cb, 0);
    if t.count >= MAX_USER || i == |t.cb| then t
    else Table(t.cb[i := slot], Add32(t.count, 1))
  }

  function Release(t: Table, i: nat): Table
    requires i < |t.cb|
  {
    Table(t.cb[i := FREE_SLOT], Sub32(t.count, 1))
  }

  function TableOf(av: Av, chn: Chn): Table {
    if chn == Main then av.main else av.sub
  }

  function WithTable(av: Av, chn: Chn, t: Table): Av {
    if chn == Main then av.(main := t) else av.(sub := t)
  }

  /** The slot a video stop or quality change settles on: tables are scanned side by
      side from slot `i` on, the main channel first. */
  function FirstMatch(main: seq<Slot>, sub: seq<Slot>, pri: Ptr, i: nat): (r: Option<(Chn, nat)>)
    requires |main| == |sub| && i <= |main|
    ensures r.Some? ==> var (chn, k) := r.value;
              && i <= k < |main| && (if chn == Main then main else sub)[k].priData == pri
              && (forall j | i <= j < k :: main[j].priData != pri && sub[j].priData != pri)
              && (chn == Sub ==> main[k].priData != pri)
    ensures r.None? ==> forall k | i <= k < |main| :: main[k].priData != pri && sub[k].priData != pri
    decreases |main| - i
  {
    if i == |main| then None
    else if main[i].priData == pri then Some((Main, i))
    else if sub[i].priData == pri then Some((Sub, i))
    else FirstMatch(main, sub, pri, i + 1)
  }

  function FirstHolder(cb: seq<Slot>, pri: Ptr, i: nat): (r: nat)
    requires i <= |cb|
    ensures i <= r <= |cb|
    ensures r < |cb| ==> cb[r].priData == pri
    ensures forall j | i <= j < r :: cb[j].priData != pri
    decreases |cb| - i
  {
    if i == |cb| || cb[i].priData == pri then i else FirstHolder(cb, pri, i + 1)
  }

  /** Every slot before `i` that holds `pri` is freed. */
  function ReleaseAll(t: Table, pri: Ptr, i: nat): (r: Table)
    requires i <= |t.cb|
    ensures |r.cb| == |t.cb|
    ensures forall k | 0 <= k < |t.cb| ::
              r.cb[k] == if k < i && t.cb[k].priData == pri then FREE_SLOT else t.cb[k]
  {
    if i == 0 then t
    else
      var r := ReleaseAll(t, pri, i - 1);
      if t.cb[i - 1].priData == pri then Release(r, i - 1) else r
  }

  predicate Shaped(av: Av) {
    |av.main.cb| == |av.sub.cb| == |av.ai.cb| == MAX_USER && |av.ao.cb| == 1
  }

  function StartVideo(av: Av, id: CallbackId, func: Ptr, pri: Ptr, quality: int): Av
    requires Shaped(av)
  {
    var want := if id == PreVideo then PreviewChannel(quality) else Main;
    if id == PreVideo && func == NULL then
      match FirstMatch(av.main.cb, av.sub.cb, pri, 0)
      case None => WithTable(av, want, Enroll(TableOf(av, want), Slot(func, pri)))
      case Some((chn, i)) =>
        if chn == want then av
        else
          var carried := TableOf(av, chn).cb[i].cbFunc;
          var left := WithTable(av, chn, Release(TableOf(av, chn), i));
          WithTable(left, want, Enroll(TableOf(left, want), Slot(carried, pri)))
    else WithTable(av, want, Enroll(TableOf(av, want), Slot(func, pri)))
  }

  /** The frame rate, or a refusal that tells the channels apart. */
  function StartVideoReturns(av: Av, id: CallbackId, func: Ptr, pri: Ptr, quality: int, fps: int): int
    requires Shaped(av)
  {
    var want := if id == PreVideo then PreviewChannel(quality) else Main;
    var hit := FirstMatch(av.main.cb, av.sub.cb, pri, 0);
    var stays := id == PreVideo && func == NULL && hit.Some? && hit.value.0 == want;
    if !stays && TableOf(av, want).count >= MAX_USER then (if want == Main then 0 else -1)
    else if id == PreVideo then fps else 0
  }

  function StartAudio(av: Av, id: CallbackId, func: Ptr, pri: Ptr): Av
    requires Shaped(av)
  {
    match id
    case PreAudio => av.(ai := Enroll(av.ai, Slot(func, pri)))
    case CloudAudio => av.(ai := Enroll(av.ai, Slot(func, pri)))
    case PlayAudio =>
      var count := Add32(av.ao.count, 1);
      av.(ao := Table([Slot(func, pri)], if count > 1 then 1 else count))
    case _ => av
  }

  function Stop(av: Av, id: CallbackId, pri: Ptr): Av
    requires Shaped(av)
  {
    if id == PreVideo || id == CloudVideo then
      match FirstMatch(av.main.cb, av.sub.cb, pri, 0)
      case None => av
      case Some((chn, i)) => WithTable(av, chn, Release(TableOf(av, chn), i))
    else if id == PreAudio || id == CloudAudio then
      var i := FirstHolder(av.ai.cb, pri, 0);
      if i < |av.ai.cb| then av.(ai := Release(av.ai, i)) else av
    else if id == PlayAudio then av.(ao := Table([FREE_SLOT], 0))
    else if pri == NULL then av
    else Av(ReleaseAll(av.main, pri, MAX_USER), ReleaseAll(av.sub, pri, MAX_USER),
            ReleaseAll(av.ai, pri, MAX_USER), ReleaseAll(av.ao, pri, 1))
  }

  // ----------------------------------------------------------------------- laws

  function Users(cb: seq<Slot>): (n: nat)
    ensures n <= |cb|
  {
    if cb == [] then 0
    else Users(cb[..|cb| - 1]) + if cb[|cb| - 1].cbFunc != NULL then 1 else 0
  }

  lemma {:induction false} UsersUpdate(cb: seq<Slot>, i: nat, slot: Slot)
    requires i < |cb|
    ensures Users(cb[i := slot]) + (if cb[i].cbFunc != NULL then 1 else 0)
            == Users(cb) + if slot.cbFunc != NULL then 1 else 0
  {
    if i < |cb| - 1 {
      UsersUpdate(cb[..|cb| - 1], i, slot);
      assert cb[i := slot][..|cb| - 1] == cb[..|cb| - 1][i := slot];
    } else {
      assert cb[i := slot][..|cb| - 1] == cb[..|cb| - 1];
    }
  }

  lemma {:induction false} FullTable(cb: seq<Slot>)
    ensures Users(cb) == |cb| <==> forall i | 0 <= i < |cb| :: cb[i].cbFunc != NULL
  {
    if cb != [] {
      FullTable(cb[..|cb| - 1]);
    }
  }

  /** `count` is the number of occupied slots, and free slots hold nothing. */
  predicate Counted(t: Table) {
    && t.count == Users(t.cb)
    && forall i | 0 <= i < |t.cb| :: t.cb[i].cbFunc == NULL ==> t.cb[i].priData == NULL
  }

  predicate Consistent(av: Av) {
    Shaped(av) && Counted(av.main) && Counted(av.sub) && Counted(av.ai) && Counted(av.ao)
  }

  lemma EnrollCounted(t: Table, slot: Slot)
    requires Counted(t) && |t.cb| == MAX_USER
    ensures Enroll(t, slot) == t <==> t.count == MAX_USER
    ensures Counted(Enroll(t, slot)) <==> t.count == MAX_USER || slot.cbFunc != NULL
    ensures t.count < MAX_USER ==> Enroll(t, slot).count == t.count + 1
                                   && Enroll(t, slot).cb[FirstFree(t.cb, 0)] == slot
  {
    var i := FirstFree(t.cb, 0);
    FullTable(t.cb);
    if i < |t.cb| {
      UsersUpdate(t.cb, i, slot);
    }
  }

  lemma ReleaseCounted(t: Table, i: nat)
    requires Counted(t) && i < |t.cb| <= MAX_USER
    ensures Counted(Release(t, i)) <==> t.cb[i].cbFunc != NULL
    ensures t.cb[i].cbFunc != NULL ==> Release(t, i).count == t.count - 1
  {
    UsersUpdate(t.cb, i, FREE_SLOT);
  }

  lemma {:induction false} ReleaseAllCounted(t: Table, pri: Ptr, i: nat)
    requires Counted(t) && i <= |t.cb| <= MAX_USER && pri != NULL
    ensures Counted(ReleaseAll(t, pri, i))
  {
    if i > 0 {
      ReleaseAllCounted(t, pri, i - 1);
      if t.cb[i - 1].priData == pri {
        ReleaseCounted(ReleaseAll(t, pri, i - 1), i - 1);
      }
    }
  }

  predicate Registered(av: Av, pri: Ptr)
    requires Shaped(av)
  {
    FirstMatch(av.main.cb, av.sub.cb, pri, 0).Some?
  }

  function Wanted(id: CallbackId, quality: int): Chn {
    if id == PreVideo then PreviewChannel(quality) else Main
  }

  /** When a video start or quality change keeps the counts: it brings a callback; or
      it changes the quality of a slot that stays or is occupied; or it does nothing,
      the wanted channel being full. */
  predicate ProperStartVideo(av: Av, id: CallbackId, func: Ptr, pri: Ptr, quality: int)
    requires Shaped(av)
  {
    var want := Wanted(id, quality);
    || func != NULL
    || (if id == PreVideo && Registered(av, pri) then
          var (chn, i) := FirstMatch(av.main.cb, av.sub.cb, pri, 0).value;
          chn == want || TableOf(av, chn).cb[i].cbFunc != NULL
        else
          TableOf(av, want).count == MAX_USER)
  }

  /** A registered user with private data never loses the counts. */
  lemma ChangesAreProper(av: Av, pri: Ptr, quality: int)
    requires Consistent(av) && pri != NULL && Registered(av, pri)
    ensures ProperStartVideo(av, PreVideo, NULL, pri, quality)
  {
  }

  lemma StartVideoKeepsCounts(av: Av, id: CallbackId, func: Ptr, pri: Ptr, quality: int)
    requires Consistent(av)
    ensures Consistent(StartVideo(av, id, func, pri, quality)) <==> ProperStartVideo(av, id, func, pri, quality)
  {
    var want := Wanted(id, quality);
    EnrollCounted(TableOf(av, want), Slot(func, pri));
    if id == PreVideo && func == NULL && Registered(av, pri) {
      var (chn, i) := FirstMatch(av.main.cb, av.sub.cb, pri, 0).value;
      var from := TableOf(av, chn);
      ReleaseCounted(from, i);
      EnrollCounted(TableOf(av, want), Slot(from.cb[i].cbFunc, pri));
    }
  }

  /** A quality change to the other channel moves the user with its callback: the
      totals stay, the slot it had is free, and its new slot is the first free one
      of the wanted channel. */
  lemma QualityChangeMoves(av: Av, pri: Ptr, quality: int)
    requires Consistent(av) && pri != NULL && Registered(av, pri)
    requires var (chn, i) := FirstMatch(av.main.cb, av.sub.cb, pri, 0).value;
             var want := PreviewChannel(quality);
             want != chn && TableOf(av, want).count < MAX_USER
    ensures var (chn, i) := FirstMatch(av.main.cb, av.sub.cb, pri, 0).value;
            var want := PreviewChannel(quality);
            var after := StartVideo(av, PreVideo, NULL, pri, quality);
            var j := FirstFree(TableOf(av, want).cb, 0);
            && after.main.count + after.sub.count == av.main.count + av.sub.count
            && TableOf(after, chn).cb == TableOf(av, chn).cb[i := FREE_SLOT]
            && j < MAX_USER
            && TableOf(after, want).cb == TableOf(av, want).cb[j := TableOf(av, chn).cb[i]]
  {
    var (chn, i) := FirstMatch(av.main.cb, av.sub.cb, pri, 0).value;
    var want := PreviewChannel(quality);
    ReleaseCounted(TableOf(av, chn), i);
    EnrollCounted(TableOf(av, want), TableOf(av, chn).cb[i]);
  }

  /** With the wanted channel full the user is dropped: its slot is free, the wanted
      channel as it was. */
  lemma QualityChangeToFullDrops(av: Av, pri: Ptr, quality: int)
    requires Consistent(av) && pri != NULL && Registered(av, pri)
    requires var (chn, i) := FirstMatch(av.main.cb, av.sub.cb, pri, 0).value;
             PreviewChannel(quality) != chn && TableOf(av, PreviewChannel(quality)).count == MAX_USER
    ensures var (chn, i) := FirstMatch(av.main.cb, av.sub.cb, pri, 0).value;
            var want := PreviewChannel(quality);
            var after := StartVideo(av, PreVideo, NULL, pri, quality);
            && TableOf(after, chn).cb == TableOf(av, chn).cb[i := FREE_SLOT]
            && TableOf(after, chn).count + 1 == TableOf(av, chn).count
            && TableOf(after, want) == TableOf(av, want)
            && after.ai == av.ai && after.ao == av.ao
  {
    var (chn, i) := FirstMatch(av.main.cb, av.sub.cb, pri, 0).value;
    ReleaseCounted(TableOf(av, chn), i);
    EnrollCounted(TableOf(av, PreviewChannel(quality)), TableOf(av, chn).cb[i]);
  }

  /** A quality change keeps the user, and with it the total, exactly if the wanted
      channel is the one it is on, or has a free slot.  It always leaves the counts
      right and touches nothing but the two video channels; to the user's own
      channel it changes nothing. */
  lemma QualityChangeKeepsUserIff(av: Av, pri: Ptr, quality: int)
    requires Consistent(av) && pri != NULL && Registered(av, pri)
    ensures var (chn, i) := FirstMatch(av.main.cb, av.sub.cb, pri, 0).value;
            var want := PreviewChannel(quality);
            var after := StartVideo(av, PreVideo, NULL, pri, quality);
            var keeps := want == chn || TableOf(av, want).count < MAX_USER;
            && Consistent(after) && after.ai == av.ai && after.ao == av.ao
            && (want == chn ==> after == av)
            && (after.main.count + after.sub.count == av.main.count + av.sub.count <==> keeps)
            && (!keeps ==> after.main.count + after.sub.count == av.main.count + av.sub.count - 1)
  {
    var (chn, i) := FirstMatch(av.main.cb, av.sub.cb, pri, 0).value;
    var want := PreviewChannel(quality);
    ChangesAreProper(av, pri, quality);
    StartVideoKeepsCounts(av, PreVideo, NULL, pri, quality);
    CountsWithin(av);
    hide Consistent, Enroll, Release;
    if want != chn {
      if TableOf(av, want).count < MAX_USER {
        QualityChangeMoves(av, pri, quality);
      } else {
        QualityChangeToFullDrops(av, pri, quality);
      }
    }
  }

  const FREE_FOUR := [FREE_SLOT, FREE_SLOT, FREE_SLOT, FREE_SLOT]
  const NOBODY := Table(FREE_FOUR, 0)

  /** Nobody is subscribed to anything. */
  const EMPTY := Av(NOBODY, NOBODY, NOBODY, Table([FREE_SLOT], 0))

  lemma EmptyIsConsistent()
    ensures Consistent(EMPTY)
  {
    NoUsers(FREE_FOUR);
    SingleSlot(FREE_SLOT);
  }

  function Preview(f: Ptr, user: Ptr, quality: int): Call {
    CallStartVideo(PreVideo, f, user, quality)
  }

  function FourPreviews(f: Ptr): seq<Call> {
    [Preview(f, 1, 100), Preview(f, 2, 100), Preview(f, 3, 100), Preview(f, 4, 100)]
  }

  /** The first `n` slots are taken by users 1 to `n`. */
  function Users1To(f: Ptr, n: nat): Table
    requires n <= MAX_USER
  {
    Table(seq(MAX_USER, i requires 0 <= i => if i < n then Slot(f, i + 1) else FREE_SLOT), n)
  }

  lemma PreviewStarts(av: Av, f: Ptr, user: Ptr)
    requires Shaped(av) && f != NULL
    ensures Apply(av, Preview(f, user, 100)) == av.(main := Enroll(av.main, Slot(f, user)))
  {
  }

  lemma NextUser(f: Ptr, n: nat)
    requires f != NULL && 0 < n <= MAX_USER
    ensures Enroll(Users1To(f, n - 1), Slot(f, n)) == Users1To(f, n)
  {
    EnrollsAt(Users1To(f, n - 1), Slot(f, n), n - 1);
    assert Users1To(f, n - 1).cb[n - 1 := Slot(f, n)] == Users1To(f, n).cb;
  }

  lemma {:induction false} FourFillMain(f: Ptr, n: nat)
    requires f != NULL && n <= MAX_USER
    ensures After(EMPTY, FourPreviews(f)[..n]) == EMPTY.(main := Users1To(f, n))
  {
    if n == 0 {
      AfterNothing(EMPTY);
      assert FourPreviews(f)[..0] == [] && Users1To(f, 0).cb == FREE_FOUR;
    } else {
      FourFillMain(f, n - 1);
      var calls := FourPreviews(f)[..n - 1];
      assert FourPreviews(f)[..n] == calls + [Preview(f, n, 100)];
      AfterSnoc(EMPTY, calls, Preview(f, n, 100));
      PreviewStarts(EMPTY.(main := Users1To(f, n - 1)), f, n);
      NextUser(f, n);
    }
  }

  lemma AfterNothing(av: Av)
    requires Shaped(av)
    ensures After(av, []) == av
  {
  }

  /** It does happen: a fifth user, on the sub channel while four are on the main
      one, asks for the main channel's quality and is nowhere afterwards. */
  lemma FifthUserIsLost(f: Ptr)
    requires f != NULL
    ensures var before := After(EMPTY, FourPreviews(f) + [Preview(f, 5, 40)]);
            var after := StartVideo(before, PreVideo, NULL, 5, 100);
            && Consistent(before) && before.main.count == MAX_USER && before.sub.count == 1
            && Registered(before, 5) && !Registered(after, 5)
  {
    FourFillMain(f, 4);
    assert FourPreviews(f)[..4] == FourPreviews(f);
    AfterSnoc(EMPTY, FourPreviews(f), Preview(f, 5, 40));
    EnrollsAt(NOBODY, Slot(f, 5), 0);
    var before := EMPTY.(main := Users1To(f, 4), sub := Table(FREE_FOUR[0 := Slot(f, 5)], 1));
    assert After(EMPTY, FourPreviews(f) + [Preview(f, 5, 40)]) == before;
    hide After, Enroll;
    EmptyIsConsistent();
    FullTable(Users1To(f, 4).cb);
    UsersUpdate(FREE_FOUR, 0, Slot(f, 5));
    assert FirstMatch(before.main.cb, before.sub.cb, 5, 0) == Some((Sub, 0));
    QualityChangeToFullDrops(before, 5, 100);
    assert before.sub.cb[0 := FREE_SLOT] == FREE_FOUR;
  }

  /** A table occupied up to slot `i` takes the next subscriber there. */
  lemma EnrollsAt(t: Table, slot: Slot, i: nat)
    requires i < |t.cb| && t.count == i < MAX_USER && t.cb[i].cbFunc == NULL
    requires forall j | 0 <= j < i :: t.cb[j].cbFunc != NULL
    ensures Enroll(t, slot) == Table(t.cb[i := slot], i + 1)
  {
    assert FirstFree(t.cb, 0) == i;
  }

  lemma AfterSnoc(av: Av, calls: seq<Call>, call: Call)
    requires Shaped(av)
    ensures After(av, calls + [call]) == Apply(After(av, calls), call)
  {
    assert (calls + [call])[..|calls|] == calls;
  }

  /** When a stop keeps the counts: nothing matches, or the slot it settles on is
      occupied. */
  predicate ProperStop(av: Av, id: CallbackId, pri: Ptr)
    requires Shaped(av)
  {
    if id == PreVideo || id == CloudVideo then
      var hit := FirstMatch(av.main.cb, av.sub.cb, pri, 0);
      hit.Some? ==> TableOf(av, hit.value.0).cb[hit.value.1].cbFunc != NULL
    else if id == PreAudio || id == CloudAudio then
      var i := FirstHolder(av.ai.cb, pri, 0);
      i < MAX_USER ==> av.ai.cb[i].cbFunc != NULL
    else true
  }

  /** Any private data but `NULL` meets the condition. */
  lemma StopVideoKeepsCounts(av: Av, id: CallbackId, pri: Ptr)
    requires Consistent(av) && (id == PreVideo || id == CloudVideo)
    ensures Consistent(Stop(av, id, pri)) <==> ProperStop(av, id, pri)
    ensures pri != NULL ==> Consistent(Stop(av, id, pri))
  {
    var hit := FirstMatch(av.main.cb, av.sub.cb, pri, 0);
    if hit.Some? {
      ReleaseCounted(TableOf(av, hit.value.0), hit.value.1);
    }
  }

  /** The cloud recording registers without private data.  With one previewer in the
      first main slot and the cloud in the second, stopping the cloud frees a slot
      that nobody holds and leaves the cloud running. */
  lemma CloudStopMisses(f: Ptr, g: Ptr, p: Ptr)
    requires f != NULL && g != NULL && p != NULL
    ensures var av1 := StartVideo(StartVideo(EMPTY, PreVideo, f, p, 100), CloudVideo, g, NULL, 45);
            var av2 := Stop(av1, CloudVideo, NULL);
            && Consistent(av1) && av1.main.count == 2
            && av2.main == av1.main && av2.sub.count == WORD - 1 && !Consistent(av2)
  {
    EmptyIsConsistent();
    StartVideoKeepsCounts(EMPTY, PreVideo, f, p, 100);
    StartVideoKeepsCounts(StartVideo(EMPTY, PreVideo, f, p, 100), CloudVideo, g, NULL, 45);
    var one := Table(FREE_FOUR[0 := Slot(f, p)], 1);
    EnrollsAt(NOBODY, Slot(f, p), 0);
    EnrollsAt(one, Slot(g, NULL), 1);
    var av1 := StartVideo(StartVideo(EMPTY, PreVideo, f, p, 100), CloudVideo, g, NULL, 45);
    assert av1.main.cb == one.cb[1 := Slot(g, NULL)] && av1.main.cb[0].priData == p;
    assert FirstMatch(av1.main.cb, FREE_FOUR, NULL, 0) == Some((Sub, 0));
  }

  /** Its audio fares the same once the previewer before it has left: the stop counts
      down for the free slot, and the cloud's stays occupied with a count of zero. */
  lemma CloudAudioStopMisses(f: Ptr, g: Ptr, p: Ptr)
    requires f != NULL && g != NULL && p != NULL
    ensures var av1 := StartAudio(StartAudio(EMPTY, PreAudio, f, p), CloudAudio, g, NULL);
            var av2 := Stop(av1, PreAudio, p);
            var av3 := Stop(av2, CloudAudio, NULL);
            && Consistent(av2) && av2.ai.count == 1
            && av3.ai.cb == av2.ai.cb && av3.ai.cb[1] == Slot(g, NULL) && av3.ai.count == 0
  {
    EmptyIsConsistent();
    StartAudioKeepsCounts(EMPTY, PreAudio, f, p);
    StartAudioKeepsCounts(StartAudio(EMPTY, PreAudio, f, p), CloudAudio, g, NULL);
    var one := Table(FREE_FOUR[0 := Slot(f, p)], 1);
    EnrollsAt(NOBODY, Slot(f, p), 0);
    EnrollsAt(one, Slot(g, NULL), 1);
    var av1 := StartAudio(StartAudio(EMPTY, PreAudio, f, p), CloudAudio, g, NULL);
    assert av1.ai == Table(one.cb[1 := Slot(g, NULL)], 2) && av1.ai.cb[0].priData == p;
    assert FirstHolder(av1.ai.cb, p, 0) == 0;
    StopAudioKeepsCounts(av1, PreAudio, p);
    var av2 := Stop(av1, PreAudio, p);
    assert av2.ai == Table(av1.ai.cb[0 := FREE_SLOT], 1);
    assert FirstHolder(av2.ai.cb, NULL, 0) == 0;
    assert av2.ai.cb[0 := FREE_SLOT] == av2.ai.cb;
  }

  lemma {:induction false} NoUsers(cb: seq<Slot>)
    requires forall i | 0 <= i < |cb| :: cb[i].cbFunc == NULL
    ensures Users(cb) == 0
  {
    if cb != [] {
      NoUsers(cb[..|cb| - 1]);
    }
  }

  lemma StopAudioKeepsCounts(av: Av, id: CallbackId, pri: Ptr)
    requires Consistent(av) && id != PreVideo && id != CloudVideo
    ensures Consistent(Stop(av, id, pri)) <==> ProperStop(av, id, pri)
    ensures pri != NULL ==> Consistent(Stop(av, id, pri))
  {
    if id == PreAudio || id == CloudAudio {
      var i := FirstHolder(av.ai.cb, pri, 0);
      if i < |av.ai.cb| {
        ReleaseCounted(av.ai, i);
      }
    } else {
      SingleSlot(FREE_SLOT);
      if pri != NULL {
        ReleaseAllCounted(av.main, pri, MAX_USER);
        ReleaseAllCounted(av.sub, pri, MAX_USER);
        ReleaseAllCounted(av.ai, pri, MAX_USER);
        ReleaseAllCounted(av.ao, pri, 1);
      }
    }
  }

  predicate ProperStartAudio(av: Av, id: CallbackId, func: Ptr) {
    match id
    case PreAudio => func != NULL || av.ai.count == MAX_USER
    case CloudAudio => func != NULL || av.ai.count == MAX_USER
    case PlayAudio => func != NULL
    case _ => true
  }

  lemma StartAudioKeepsCounts(av: Av, id: CallbackId, func: Ptr, pri: Ptr)
    requires Consistent(av)
    ensures Consistent(StartAudio(av, id, func, pri)) <==> ProperStartAudio(av, id, func)
  {
    EnrollCounted(av.ai, Slot(func, pri));
    SingleSlot(Slot(func, pri));
  }

  lemma SingleSlot(slot: Slot)
    ensures Users([slot]) == if slot.cbFunc != NULL then 1 else 0
  {
  }

  /** A failed connection leaves no trace of its private data, and every other
      subscriber where it was. */
  lemma CallbackMaxForgets(av: Av, pri: Ptr)
    requires Shaped(av) && pri != NULL
    ensures var after := Stop(av, CallbackMax, pri);
            forall before, now | (before, now) in [(av.main, after.main), (av.sub, after.sub),
                                                   (av.ai, after.ai), (av.ao, after.ao)] ::
              && |now.cb| == |before.cb|
              && forall k | 0 <= k < |now.cb| ::
                   && now.cb[k].priData != pri
                   && (before.cb[k].priData != pri ==> now.cb[k] == before.cb[k])
  {
  }

  // ----------------------------------------------------------------- whole runs

  datatype Call =
    | CallStartVideo(id: CallbackId, func: Ptr, pri: Ptr, quality: int)
    | CallStartAudio(id: CallbackId, func: Ptr, pri: Ptr)
    | CallStop(id: CallbackId, pri: Ptr)

  function Apply(av: Av, call: Call): (r: Av)
    requires Shaped(av)
    ensures Shaped(r)
  {
    match call
    case CallStartVideo(id, func, pri, quality) => StartVideo(av, id, func, pri, quality)
    case CallStartAudio(id, func, pri) => StartAudio(av, id, func, pri)
    case CallStop(id, pri) => Stop(av, id, pri)
  }

  /** Exactly the calls that keep the counts, whatever their private data. */
  predicate Proper(av: Av, call: Call)
    requires Shaped(av)
  {
    match call
    case CallStartVideo(id, func, pri, quality) => ProperStartVideo(av, id, func, pri, quality)
    case CallStartAudio(id, func, pri) => ProperStartAudio(av, id, func)
    case CallStop(id, pri) => ProperStop(av, id, pri)
  }

  function After(av: Av, calls: seq<Call>): (r: Av)
    requires Shaped(av)
    ensures Shaped(r)
  {
    if calls == [] then av else Apply(After(av, calls[..|calls| - 1]), calls[|calls| - 1])
  }

  predicate AllProper(av: Av, calls: seq<Call>)
    requires Shaped(av)
  {
    calls == [] ||
    (AllProper(av, calls[..|calls| - 1]) && Proper(After(av, calls[..|calls| - 1]), calls[|calls| - 1]))
  }

  lemma ApplyKeepsCounts(av: Av, call: Call)
    requires Consistent(av)
    ensures Consistent(Apply(av, call)) <==> Proper(av, call)
  {
    match call
    case CallStartVideo(id, func, pri, quality) => StartVideoKeepsCounts(av, id, func, pri, quality);
    case CallStartAudio(id, func, pri) => StartAudioKeepsCounts(av, id, func, pri);
    case CallStop(id, pri) =>
      if id == PreVideo || id == CloudVideo {
        StopVideoKeepsCounts(av, id, pri);
      } else {
        StopAudioKeepsCounts(av, id, pri);
      }
  }

  /** The counts are the occupied slots before the first call and after each. */
  predicate StaysConsistent(av: Av, calls: seq<Call>)
    requires Shaped(av)
  {
    (calls == [] || StaysConsistent(av, calls[..|calls| - 1])) && Consistent(After(av, calls))
  }

  /** Over any sequence of calls, the counts are the occupied slots all the way exactly
      if every call is proper; they are then at most MAX_USER. */
  lemma {:induction false} RunKeepsCounts(av: Av, calls: seq<Call>)
    requires Consistent(av)
    ensures AllProper(av, calls) <==> StaysConsistent(av, calls)
    ensures AllProper(av, calls) ==>
              && After(av, calls).main.count <= MAX_USER && After(av, calls).sub.count <= MAX_USER
              && After(av, calls).ai.count <= MAX_USER && After(av, calls).ao.count <= 1
  {
    hide Proper, Apply;
    if calls != [] {
      var before := calls[..|calls| - 1];
      RunKeepsCounts(av, before);
      if AllProper(av, before) {
        ApplyKeepsCounts(After(av, before), calls[|calls| - 1]);
      }
    }
    if AllProper(av, calls) {
      CountsWithin(After(av, calls));
    }
  }

  lemma CountsWithin(av: Av)
    requires Consistent(av)
    ensures av.main.count <= MAX_USER && av.sub.count <= MAX_USER && av.ai.count <= MAX_USER && av.ao.count <= 1
  {
  }

  // ----------------------------------------------------------- the C functions

  class UserTable {
    const cb: array<Slot>
    var count: Word

    constructor (n: nat)
      ensures fresh(cb) && cb.Length == n && count == 0
      ensures forall i | 0 <= i < n :: cb[i] == FREE_SLOT
    {
      cb := new Slot[n](i => FREE_SLOT);
      count := 0;
    }

    predicate Apart(other: UserTable) {
      this != other && cb != other.cb
    }

    function View(): Table
      reads this, cb
    {
      Table(cb[..], count)
    }

    /** Takes the first free slot, if the count allows one. */
    method Add(slot: Slot) returns (full: bool)
      modifies this, cb
      ensures View() == Enroll(old(View()), slot)
      ensures full <==> old(count) >= MAX_USER
    {
      full := count >= MAX_USER;
      if full {
        return;
      }
      var i := 0;
      while i < cb.Length && cb[i].cbFunc != NULL
        invariant i <= cb.Length && FirstFree(cb[..], 0) == FirstFree(cb[..], i)
      {
        i := i + 1;
      }
      if i < cb.Length {
        cb[i] := slot;
        count := Add32(count, 1);
      }
    }

    method Free(i: nat)
      requires i < cb.Length
      modifies this, cb
      ensures View() == Release(old(View()), i)
    {
      cb[i] := FREE_SLOT;
      count := Sub32(count, 1);
    }

    /** Frees slot `i` if it holds `pri`, as every slot before it was. */
    method ForgetAt(i: nat, pri: Ptr, ghost start: Table)
      requires i < cb.Length == |start.cb| && View() == ReleaseAll(start, pri, i)
      modifies this, cb
      ensures View() == ReleaseAll(start, pri, i + 1)
    {
      if cb[i].priData == pri {
        Free(i);
      }
    }

    /** Frees the first slot holding `pri`. */
    method FreeFirst(pri: Ptr)
      modifies this, cb
      ensures var i := FirstHolder(old(cb[..]), pri, 0);
              View() == if i < cb.Length then Release(old(View()), i) else old(View())
    {
      for i := 0 to cb.Length
        invariant View() == old(View()) && FirstHolder(cb[..], pri, 0) == FirstHolder(cb[..], pri, i)
      {
        if cb[i].priData == pri {
          Free(i);
          return;
        }
      }
    }
  }

  class AvCtrl {
    const main: UserTable
    const sub: UserTable
    const ai: UserTable
    const ao: UserTable

    ghost predicate Valid()
    {
      && main.Apart(sub) && main.Apart(ai) && main.Apart(ao)
      && sub.Apart(ai) && sub.Apart(ao) && ai.Apart(ao)
      && main.cb.Length == sub.cb.Length == ai.cb.Length == MAX_USER && ao.cb.Length == 1
    }

    function View(): Av
      reads main, sub, ai, ao, main.cb, sub.cb, ai.cb, ao.cb
    {
      Av(main.View(), sub.View(), ai.View(), ao.View())
    }

    constructor ()
      ensures Valid() && View() == EMPTY && Consistent(View())
      ensures fresh({main, sub, ai, ao}) && fresh({main.cb, sub.cb, ai.cb, ao.cb})
    {
      main := new UserTable(MAX_USER);
      sub := new UserTable(MAX_USER);
      ai := new UserTable(MAX_USER);
      ao := new UserTable(1);
      new;
      EmptyIsConsistent();
      assert main.cb[..] == FREE_FOUR && sub.cb[..] == FREE_FOUR && ai.cb[..] == FREE_FOUR && ao.cb[..] == [FREE_SLOT];
    }

    /** The body of `dana_av_start_video`: the channel wanted, the scan for a registered
        user, and the new slot. */
    method StartVideoBody(id: CallbackId, func: Ptr, pri: Ptr, quality: int, fps: int) returns (r: int)
      requires Valid()
      modifies main, sub, main.cb, sub.cb
      ensures View() == StartVideo(old(View()), id, func, pri, quality)
      ensures r == StartVideoReturns(old(View()), id, func, pri, quality, fps)
    {
      var frames, want, cbFunc := 0, Some(Main), func;
      if id == PreVideo {
        frames := fps;
        want := Some(PreviewChannel(quality));
        if func == NULL {
          var i := 0;
          while i < MAX_USER
            invariant i <= MAX_USER && View() == old(View())
            invariant FirstMatch(main.cb[..], sub.cb[..], pri, 0) == FirstMatch(main.cb[..], sub.cb[..], pri, i)
          {
            if main.cb[i].priData == pri {
              if want == Some(Main) {
                want := None;
              } else {
                cbFunc := main.cb[i].cbFunc;
                main.Free(i);
              }
              break;
            } else if sub.cb[i].priData == pri {
              if want == Some(Sub) {
                want := None;
              } else {
                cbFunc := sub.cb[i].cbFunc;
                sub.Free(i);
              }
              break;
            }
            i := i + 1;
          }
        }
      }
      r := frames;
      if want == Some(Main) {
        var full := main.Add(Slot(cbFunc, pri));
        if full {
          return 0;
        }
      } else if want == Some(Sub) {
        var full := sub.Add(Slot(cbFunc, pri));
        if full {
          return -1;
        }
      }
    }

    /** `dana_av_start_video` with the stream running; `fps` is the frame rate the
        configuration gives for the quality. */
    method DanaAvStartVideo(id: CallbackId, func: Ptr, pri: Ptr, quality: int, fps: int) returns (r: int)
      requires Valid()
      modifies main, sub, main.cb, sub.cb
      ensures View() == StartVideo(old(View()), id, func, pri, quality)
      ensures r == StartVideoReturns(old(View()), id, func, pri, quality, fps)
      ensures var a := old(View());
              (id != PreVideo || quality > 44)
              && (func != NULL || id != PreVideo || FirstMatch(a.main.cb, a.sub.cb, pri, 0) == None) ==>
                var i := FirstFree(a.main.cb, 0);
                if a.main.count >= 4 then View() == a && r == 0
                else
                  && r == (if id == PreVideo then fps else 0)
                  && View() == if i == |a.main.cb| then a
                           else a.(main := Table(a.main.cb[i := Slot(func, pri)], a.main.count + 1))
      ensures var a := old(View());
              id == PreVideo && quality <= 44
              && (func != NULL || id != PreVideo || FirstMatch(a.main.cb, a.sub.cb, pri, 0) == None) ==>
                var i := FirstFree(a.sub.cb, 0);
                if a.sub.count >= 4 then View() == a && r == -1
                else
                  && r == (if id == PreVideo then fps else 0)
                  && View() == if i == |a.sub.cb| then a
                           else a.(sub := Table(a.sub.cb[i := Slot(func, pri)], a.sub.count + 1))
      ensures var a := old(View());
              var hit := FirstMatch(a.main.cb, a.sub.cb, pri, 0);
              id == PreVideo && func == NULL && quality > 44 && hit.Some? && hit.value.0 == Main ==> View() == a && r == fps
      ensures var a := old(View());
              var hit := FirstMatch(a.main.cb, a.sub.cb, pri, 0);
              id == PreVideo && func == NULL && quality > 44 && hit.Some? && hit.value.0 == Sub ==>
                var i, k := FirstFree(a.main.cb, 0), hit.value.1;
                var freed := Table(a.sub.cb[k := Slot(0, 0)], Sub32(a.sub.count, 1));
                if a.main.count >= 4 then View() == a.(sub := freed) && r == 0
                else
                  && r == fps
                  && View() == if i == |a.main.cb| then a.(sub := freed)
                           else a.(sub := freed,
                                    main := Table(a.main.cb[i := Slot(a.sub.cb[k].cbFunc, pri)], a.main.count + 1))
      ensures var a := old(View());
              var hit := FirstMatch(a.main.cb, a.sub.cb, pri, 0);
              id == PreVideo && func == NULL && quality <= 44 && hit.Some? && hit.value.0 == Sub ==> View() == a && r == fps
      ensures var a := old(View());
              var hit := FirstMatch(a.main.cb, a.sub.cb, pri, 0);
              id == PreVideo && func == NULL && quality <= 44 && hit.Some? && hit.value.0 == Main ==>
                var i, k := FirstFree(a.sub.cb, 0), hit.value.1;
                var freed := Table(a.main.cb[k := Slot(0, 0)], Sub32(a.main.count, 1));
                if a.sub.count >= 4 then View() == a.(main := freed) && r == -1
                else
                  && r == fps
                  && View() == if i == |a.sub.cb| then a.(main := freed)
                           else a.(main := freed,
                                    sub := Table(a.sub.cb[i := Slot(a.main.cb[k].cbFunc, pri)], a.sub.count + 1))
    {
      hide FirstFree, FirstMatch;
      r := StartVideoBody(id, func, pri, quality, fps);
    }

    /** `dana_av_start_audio` with both audio threads running. */
    method DanaAvStartAudio(id: CallbackId, func: Ptr, pri: Ptr) returns (r: int)
      requires Valid()
      modifies ai, ao, ai.cb, ao.cb
      ensures View() == StartAudio(old(View()), id, func, pri)
      ensures var a := old(View());
              id == PreAudio || id == CloudAudio ==>
                var i := FirstFree(a.ai.cb, 0);
                if a.ai.count >= 4 then r == -1 && View() == a
                else r == 0 && View() == if i == |a.ai.cb| then a
                     else a.(ai := Table(a.ai.cb[i := Slot(func, pri)], a.ai.count + 1))
      ensures var a := old(View());
              id == PlayAudio && a.ao.count <= 1 ==> View() == a.(ao := Table([Slot(func, pri)], 1)) && r == 0
      ensures id !in {PreAudio, CloudAudio, PlayAudio} ==> View() == old(View()) && r == 0
    {
      r := 0;
      match id
      case PreAudio =>
        var full := ai.Add(Slot(func, pri));
        r := if full then -1 else 0;
      case CloudAudio =>
        var full := ai.Add(Slot(func, pri));
        r := if full then -1 else 0;
      case PlayAudio =>
        ao.cb[0] := Slot(func, pri);
        ao.count := Add32(ao.count, 1);
        if ao.count > 1 {
          ao.count := 1;
        }
        assert ao.cb[..] == [Slot(func, pri)];
      case _ =>
    }

    /** `dana_av_stop` */
    method DanaAvStop(id: CallbackId, pri: Ptr)
      requires Valid()
      modifies main, sub, ai, ao, main.cb, sub.cb, ai.cb, ao.cb
      ensures View() == Stop(old(View()), id, pri)
      ensures id == PlayAudio ==> View() == old(View()).(ao := Table([Slot(0, 0)], 0))
      ensures var a := old(View());
              id == PreAudio || id == CloudAudio ==>
                var i := FirstHolder(a.ai.cb, pri, 0);
                View() == if i == |a.ai.cb| then a
                     else a.(ai := Table(a.ai.cb[i := Slot(0, 0)], Sub32(a.ai.count, 1)))
      ensures var a := old(View());
              id == PreVideo || id == CloudVideo ==>
                var hit := FirstMatch(a.main.cb, a.sub.cb, pri, 0);
                View() == if hit == None then a
                     else if hit.value.0 == Main then a.(main := Table(a.main.cb[hit.value.1 := Slot(0, 0)], Sub32(a.main.count, 1)))
                     else a.(sub := Table(a.sub.cb[hit.value.1 := Slot(0, 0)], Sub32(a.sub.count, 1)))
      ensures id == CallbackMax && pri == NULL ==> View() == old(View())
      ensures var a := old(View());
              id == CallbackMax && pri != NULL ==>
                && (forall k | 0 <= k < MAX_USER ::
                      && View().main.cb[k] == (if a.main.cb[k].priData == pri then Slot(0, 0) else a.main.cb[k])
                      && View().sub.cb[k] == (if a.sub.cb[k].priData == pri then Slot(0, 0) else a.sub.cb[k])
                      && View().ai.cb[k] == (if a.ai.cb[k].priData == pri then Slot(0, 0) else a.ai.cb[k]))
                && View().ao.cb[0] == (if a.ao.cb[0].priData == pri then Slot(0, 0) else a.ao.cb[0])
    {
      match id
      case PreVideo => StopVideo(id, pri);
      case CloudVideo => StopVideo(id, pri);
      case PreAudio => ai.FreeFirst(pri);
      case CloudAudio => ai.FreeFirst(pri);
      case PlayAudio =>
        ao.cb[0] := FREE_SLOT;
        if ao.count != 0 {
          ao.count := 0;
        }
        assert ao.cb[..] == [FREE_SLOT];
      case CallbackMax =>
        if pri != NULL {
          ForgetUser(pri);
        }
    }

    /** The danale connection failed: nothing goes to this user any more. */
    method ForgetUser(pri: Ptr)
      requires Valid() && pri != NULL
      modifies main, sub, ai, ao, main.cb, sub.cb, ai.cb, ao.cb
      ensures View() == Stop(old(View()), CallbackMax, pri)
    {
      for i := 0 to MAX_USER
        invariant main.View() == ReleaseAll(old(main.View()), pri, i)
        invariant sub.View() == ReleaseAll(old(sub.View()), pri, i)
        invariant ai.View() == ReleaseAll(old(ai.View()), pri, i)
        invariant ao.View() == old(ao.View())
      {
        main.ForgetAt(i, pri, old(main.View()));
        sub.ForgetAt(i, pri, old(sub.View()));
        ai.ForgetAt(i, pri, old(ai.View()));
      }
      ao.ForgetAt(0, pri, old(ao.View()));
    }

    method StopVideo(id: CallbackId, pri: Ptr)
      requires Valid() && (id == PreVideo || id == CloudVideo)
      modifies main, sub, main.cb, sub.cb
      ensures View() == Stop(old(View()), id, pri)
    {
      for i := 0 to MAX_USER
        invariant View() == old(View())
        invariant FirstMatch(main.cb[..], sub.cb[..], pri, 0) == FirstMatch(main.cb[..], sub.cb[..], pri, i)
      {
        if main.cb[i].priData == pri {
          main.Free(i);
          return;
        }
        if sub.cb[i].priData == pri {
          sub.Free(i);
          return;
        }
      }
    }
  }
}
