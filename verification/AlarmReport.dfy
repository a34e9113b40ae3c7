/** Reporting of motion and sound: how often the callbacks may come. */
module AlarmReport {
  import opened Wrappers

  /** One turn of the motion thread: the CPU clock when it begins and when a report is
      made, in milliseconds; whether motion was found, and when by the calendar; and
      what the filter answers, if there is one, each time it is asked. */
  datatype Turn = Turn(cpuTime: int, reportTime: int, motion: bool, mdTime: int,
                       filter: Option<(int, int)>)

  /** The filter's answer 0 lets a report pass. */
  predicate Passes(answer: int) {
    answer == 0
  }

  /** All reports are more than `gap` apart. */
  predicate Spaced(times: seq<int>, gap: int) {
    forall i | 0 <= i < |times| - 1 :: times[i + 1] - times[i] > gap
  }

  lemma {:induction false} SpacedFar(times: seq<int>, gap: nat, i: nat, j: nat)
    requires Spaced(times, gap) && i <= j < |times|
    ensures times[j] - times[i] >= (j - i) * gap
    ensures i < j ==> times[j] - times[i] > (j - i) * gap
    decreases j
  {
    if i < j {
      SpacedFar(times, gap, i, j - 1);
      assert times[j - 1 + 1] - times[j - 1] > gap;
      assert (j - i) * gap == (j - 1 - i) * gap + gap;
    }
  }

  /** Reports `i` to `j` within `window` milliseconds are at most `window / gap + 1`. */
  lemma WindowHoldsFew(times: seq<int>, gap: int, i: nat, j: nat, window: nat)
    requires gap > 0 && Spaced(times, gap) && i <= j < |times|
    requires times[j] - times[i] <= window
    ensures j - i + 1 <= window / gap + 1
  {
    SpacedFar(times, gap, i, j);
    Fits(j - i, window, gap);
  }

  lemma {:induction false} Fits(n: nat, window: nat, gap: int)
    requires gap > 0 && n * gap <= window
    ensures n <= window / gap
  {
    var q := window / gap;
    DivisionLaw(window, gap);
    assert (q + 1 - n) * gap == q * gap + gap - n * gap;
    PositiveFactor(q + 1 - n, gap);
  }

  lemma DivisionLaw(a: int, b: int)
    requires b > 0
    ensures a < a / b * b + b
  {
  }

  lemma PositiveFactor(x: int, c: int)
    requires c > 0 && x * c > 0
    ensures x > 0
  {
  }

  /** The calendar starts after zero and never goes back. */
  predicate Monotone(turns: seq<Turn>) {
    && (forall i | 0 <= i < |turns| :: 0 <= turns[i].mdTime)
    && (forall i, j | 0 <= i < j < |turns| :: turns[i].mdTime <= turns[j].mdTime)
  }

  /** The times of the turns that reported. */
  function ReportTimes(turns: seq<Turn>, told: seq<bool>): seq<int>
    requires |told| == |turns|
  {
    if turns == [] then []
    else
      var n := |turns| - 1;
      ReportTimes(turns[..n], told[..n]) + if told[n] then [turns[n].reportTime] else []
  }

  lemma NoTimes(turns: seq<Turn>)
    ensures ReportTimes(turns[..0], []) == []
  {
  }

  lemma TimesSnoc(turns: seq<Turn>, told: seq<bool>, k: nat, reported: bool)
    requires k < |turns| && |told| == k
    ensures ReportTimes(turns[..k + 1], told + [reported])
            == ReportTimes(turns[..k], told) + if reported then [turns[k].reportTime] else []
  {
    assert turns[..k + 1][..k] == turns[..k] && (told + [reported])[..k] == told;
  }

  class MotionAlarm {
    const reportInterval: nat
    var mdCpuTime: int
    var mdTimeBak: int
    /** The time of a motion not yet asked for; 0 if there is none. */
    var mdTriggerTime: int
    /** When the callback was called, by the CPU clock and by the calendar. */
    ghost var reports: seq<int>
    ghost var calendar: seq<int>

    function Gap(): int {
      reportInterval * 1000 - 4000
    }

    ghost predicate Valid()
      reads this
    {
      && Spaced(reports, Gap())
      && |calendar| == |reports|
      && (reports != [] ==> mdCpuTime == reports[|reports| - 1])
    }

    constructor (reportInterval: nat)
      ensures Valid() && reports == [] && this.reportInterval == reportInterval
    {
      this.reportInterval := reportInterval;
      mdCpuTime, mdTimeBak, mdTriggerTime := 0, 0, 0;
      reports, calendar := [], [];
    }

    /** The body of `md_alarm_thread`'s loop. */
    method RunTurn(t: Turn) returns (reported: bool)
      requires Valid() && t.cpuTime <= t.reportTime
      modifies this
      ensures Valid()
      ensures reported <==>
                && t.motion && t.cpuTime - old(mdCpuTime) > reportInterval * 1000 - 4000
                && (t.filter.Some? ==> t.filter.value.1 == 0)
                && t.mdTime >= (if t.mdTime < old(mdTimeBak) then t.mdTime else old(mdTimeBak)) + reportInterval
      ensures reports == old(reports) + if reported then [t.reportTime] else []
      ensures calendar == old(calendar) + if reported then [t.mdTime] else []
      ensures mdTriggerTime == if t.motion && (t.filter.Some? ==> t.filter.value.0 == 0) then t.mdTime
                               else old(mdTriggerTime)
      ensures mdCpuTime == if reported then t.reportTime else old(mdCpuTime)
      ensures var setBack := t.motion && t.cpuTime - old(mdCpuTime) > reportInterval * 1000 - 4000 && t.mdTime < old(mdTimeBak);
              mdTimeBak == if reported || setBack then t.mdTime else old(mdTimeBak)
      ensures TurnTold(t, reported, old(mdCpuTime), old(mdTimeBak), mdCpuTime, mdTimeBak)
    {
      var diffTime := t.cpuTime - mdCpuTime;
      reported := false;
      if t.motion && (t.filter == None || Passes(t.filter.value.0)) {
        mdTriggerTime := t.mdTime;
      }
      if diffTime > reportInterval * 1000 - 4000 && t.motion {
        if t.mdTime < mdTimeBak {
          mdTimeBak := t.mdTime;
        }
        if t.filter == None || Passes(t.filter.value.1) {
          if t.mdTime >= mdTimeBak + reportInterval {
            mdTimeBak := t.mdTime;
            mdCpuTime := t.reportTime;
            reported := true;
            reports := reports + [t.reportTime];
            calendar := calendar + [t.mdTime];
          }
        }
      }
    }

    /** Whether a turn reports, and the last report by the two clocks before and after. */
    predicate TurnTold(t: Turn, told: bool, cpu: int, bak: int, cpu': int, bak': int) {
      && (told <==>
            && t.motion && t.cpuTime - cpu > reportInterval * 1000 - 4000
            && (t.filter.Some? ==> t.filter.value.1 == 0)
            && t.mdTime >= (if t.mdTime < bak then t.mdTime else bak) + reportInterval)
      && cpu' == (if told then t.reportTime else cpu)
      && bak' == (if told || (t.motion && t.cpuTime - cpu > reportInterval * 1000 - 4000 && t.mdTime < bak) then t.mdTime
                  else bak)
    }

    /** `ak_alarm_get_time`: a motion is told once. */
    method GetTime() returns (time: int)
      requires Valid()
      modifies `mdTriggerTime
      ensures Valid() && time == old(mdTriggerTime) && mdTriggerTime == 0
    {
      time := mdTriggerTime;
      mdTriggerTime := 0;
    }

    /** The turns one by one. */
    method RunTurns(turns: seq<Turn>) returns (ghost told: seq<bool>, ghost cpu: seq<int>, ghost bak: seq<int>)
      requires Valid() && reports == [] && calendar == []
      requires forall i | 0 <= i < |turns| :: turns[i].cpuTime <= turns[i].reportTime
      modifies this
      ensures Valid()
      ensures old(mdTimeBak) == 0 && Monotone(turns) ==> Spaced(calendar, reportInterval - 1)
      ensures |told| == |turns| && |cpu| == |bak| == |turns| + 1 && cpu[0] == old(mdCpuTime) && bak[0] == old(mdTimeBak)
      ensures reports == ReportTimes(turns, told)
      ensures forall i | 0 <= i < |turns| :: TurnTold(turns[i], told[i], cpu[i], bak[i], cpu[i + 1], bak[i + 1])
    {
      hide TurnTold, ReportTimes;
      NoTimes(turns);
      told, cpu, bak := [], [mdCpuTime], [mdTimeBak];
      for k := 0 to |turns|
        invariant Valid()
        invariant old(mdTimeBak) == 0 && Monotone(turns) ==>
                    && Spaced(calendar, reportInterval - 1)
                    && (calendar != [] ==> mdTimeBak == calendar[|calendar| - 1])
                    && forall j | k <= j < |turns| :: mdTimeBak <= turns[j].mdTime
        invariant |told| == k && |cpu| == |bak| == k + 1 && cpu[0] == old(mdCpuTime) && bak[0] == old(mdTimeBak)
        invariant cpu[k] == mdCpuTime && bak[k] == mdTimeBak && reports == ReportTimes(turns[..k], told)
        invariant forall i | 0 <= i < k :: TurnTold(turns[i], told[i], cpu[i], bak[i], cpu[i + 1], bak[i + 1])
      {
        var reported := RunTurn(turns[k]);
        TimesSnoc(turns, told, k, reported);
        told, cpu, bak := told + [reported], cpu + [mdCpuTime], bak + [mdTimeBak];
      }
      assert turns[..|turns|] == turns;
    }

    /** A run of the thread under a CPU clock that never goes back: whatever the
        calendar does, reports are more than `Gap()` milliseconds apart, and a window
        of any length holds few of them.  If the calendar never goes back either,
        the motions reported are the full interval apart. */
    method MdAlarmThread(turns: seq<Turn>, window: nat) returns (ghost told: seq<bool>, ghost cpu: seq<int>, ghost bak: seq<int>)
      requires Valid() && reports == [] && calendar == []
      requires forall i | 0 <= i < |turns| :: turns[i].cpuTime <= turns[i].reportTime
      modifies this
      ensures Valid() && Spaced(reports, reportInterval * 1000 - 4000)
      ensures Gap() > 0 ==>
                forall i, j | 0 <= i <= j < |reports| && reports[j] - reports[i] <= window ::
                  j - i + 1 <= window / Gap() + 1
      ensures old(mdTimeBak) == 0 && Monotone(turns) ==> Spaced(calendar, reportInterval - 1)
      // Which turns report, `cpu` and `bak` being the last report by the two clocks.
      ensures |told| == |turns| && |cpu| == |bak| == |turns| + 1 && cpu[0] == old(mdCpuTime) && bak[0] == old(mdTimeBak)
      ensures reports == ReportTimes(turns, told)
      ensures forall k | 0 <= k < |turns| ::
                told[k] <==>
                  && turns[k].motion && turns[k].cpuTime - cpu[k] > reportInterval * 1000 - 4000
                  && (turns[k].filter.Some? ==> turns[k].filter.value.1 == 0)
                  && turns[k].mdTime >= (if turns[k].mdTime < bak[k] then turns[k].mdTime else bak[k]) + reportInterval
      ensures forall k | 0 <= k < |turns| :: cpu[k + 1] == if told[k] then turns[k].reportTime else cpu[k]
      ensures forall k | 0 <= k < |turns| ::
                var setBack := turns[k].motion && turns[k].cpuTime - cpu[k] > reportInterval * 1000 - 4000
                               && turns[k].mdTime < bak[k];
                bak[k + 1] == if told[k] || setBack then turns[k].mdTime else bak[k]
    {
      told, cpu, bak := RunTurns(turns);
      forall k | 0 <= k < |turns|
        ensures var setBack := turns[k].motion && turns[k].cpuTime - cpu[k] > reportInterval * 1000 - 4000
                               && turns[k].mdTime < bak[k];
                bak[k + 1] == if told[k] || setBack then turns[k].mdTime else bak[k]
      {
        assert TurnTold(turns[k], told[k], cpu[k], bak[k], cpu[k + 1], bak[k + 1]);
      }
      forall k | 0 <= k < |turns|
        ensures told[k] <==>
                  && turns[k].motion && turns[k].cpuTime - cpu[k] > reportInterval * 1000 - 4000
                  && (turns[k].filter.Some? ==> turns[k].filter.value.1 == 0)
                  && turns[k].mdTime >= (if turns[k].mdTime < bak[k] then turns[k].mdTime else bak[k]) + reportInterval
      {
        assert TurnTold(turns[k], told[k], cpu[k], bak[k], cpu[k + 1], bak[k + 1]);
      }
      if Gap() > 0 {
        forall i, j | 0 <= i <= j < |reports| && reports[j] - reports[i] <= window
          ensures j - i + 1 <= window / Gap() + 1
        {
          WindowHoldsFew(reports, Gap(), i, j, window);
        }
      }
    }
  }

  // ----------------------------------------------------------------------- sound

  /** A sound the detector found, and what the filter says of it, if there is one. */
  datatype Sound = Sound(triggerMs: nat, filter: Option<int>)

  predicate Unfiltered(s: Sound) {
    s.filter.Some? ==> Passes(s.filter.value)
  }

  /** What is reported of a run of sounds by an alarm that last reported at `last`. */
  function Told(interval: nat, last: nat, sounds: seq<Sound>): seq<nat> {
    if sounds == [] then []
    else
      var before, s := Told(interval, last, sounds[..|sounds| - 1]), sounds[|sounds| - 1];
      if Unfiltered(s) && s.triggerMs >= LastOf(before, last) + interval then before + [s.triggerMs] else before
  }

  /** A filter that answers anything but 0 silences its sound: every report is that of a
      sound with no filter or the answer 0. */
  lemma {:induction false} OnlyPassedAreTold(interval: nat, last: nat, sounds: seq<Sound>, i: nat) returns (k: nat)
    requires i < |Told(interval, last, sounds)|
    ensures k < |sounds| && Told(interval, last, sounds)[i] == sounds[k].triggerMs
    ensures sounds[k].filter == None || sounds[k].filter == Some(0)
  {
    var before := sounds[..|sounds| - 1];
    if i < |Told(interval, last, before)| {
      k := OnlyPassedAreTold(interval, last, before, i);
    } else {
      k := |sounds| - 1;
    }
  }

  function LastOf(times: seq<nat>, last: nat): nat {
    if times == [] then last else times[|times| - 1]
  }

  /** Neighbouring reports are at least `gap` milliseconds apart. */
  predicate AtLeastApart(times: seq<nat>, gap: nat) {
    forall i | 0 <= i < |times| - 1 :: times[i] + gap <= times[i + 1]
  }

  lemma ApartSnoc(times: seq<nat>, t: nat, gap: nat)
    ensures AtLeastApart(times + [t], gap) <==>
              AtLeastApart(times, gap) && (times != [] ==> times[|times| - 1] + gap <= t)
  {
    var all := times + [t];
    if AtLeastApart(all, gap) {
      forall i | 0 <= i < |times| - 1 ensures times[i] + gap <= times[i + 1] {
        assert all[i] + gap <= all[i + 1];
      }
      assert times != [] ==> all[|times| - 1] + gap <= all[|times| - 1 + 1];
    }
  }

  /** A sound comes too soon for an interval in seconds, but not for one in
      milliseconds, and nothing filters it. */
  predicate TooSoon(interval: nat, times: seq<nat>, s: Sound) {
    && times != [] && Unfiltered(s)
    && times[|times| - 1] + interval <= s.triggerMs < times[|times| - 1] + 1000 * interval
  }

  predicate NoneTooSoon(interval: nat, last: nat, sounds: seq<Sound>) {
    sounds == [] ||
    var before := sounds[..|sounds| - 1];
    NoneTooSoon(interval, last, before) && !TooSoon(interval, Told(interval, last, before), sounds[|sounds| - 1])
  }

  /** Reports are always the interval apart in milliseconds. */
  lemma {:induction false} MillisecondsKept(interval: nat, last: nat, sounds: seq<Sound>)
    ensures AtLeastApart(Told(interval, last, sounds), interval)
  {
    if sounds != [] {
      var before := sounds[..|sounds| - 1];
      MillisecondsKept(interval, last, before);
      ApartSnoc(Told(interval, last, before), sounds[|sounds| - 1].triggerMs, interval);
    }
  }

  /** They are the interval apart in seconds, as documented, exactly if no sound of the
      run comes too soon after the report before it. */
  lemma {:induction false} SecondsKeptIff(interval: nat, last: nat, sounds: seq<Sound>)
    ensures AtLeastApart(Told(interval, last, sounds), 1000 * interval) <==> NoneTooSoon(interval, last, sounds)
  {
    if sounds != [] {
      var before, s := sounds[..|sounds| - 1], sounds[|sounds| - 1];
      var times := Told(interval, last, before);
      SecondsKeptIff(interval, last, before);
      ApartSnoc(times, s.triggerMs, 1000 * interval);
    }
  }

  /** The sounds come in order, at least `gap` milliseconds apart. */
  predicate Polled(sounds: seq<Sound>, gap: nat) {
    forall i | 0 <= i < |sounds| - 1 :: sounds[i].triggerMs + gap <= sounds[i + 1].triggerMs
  }

  lemma PolledPrefix(sounds: seq<Sound>, gap: nat)
    requires sounds != [] && Polled(sounds, gap)
    ensures Polled(sounds[..|sounds| - 1], gap)
  {
    var before := sounds[..|sounds| - 1];
    forall i | 0 <= i < |before| - 1 ensures before[i].triggerMs + gap <= before[i + 1].triggerMs {
      assert sounds[i].triggerMs + gap <= sounds[i + 1].triggerMs;
    }
  }

  /** Every report is one of the sounds, so reports are as far apart as sounds. */
  lemma {:induction false} ReportsPolled(interval: nat, last: nat, sounds: seq<Sound>, gap: nat)
    requires Polled(sounds, gap)
    ensures AtLeastApart(Told(interval, last, sounds), gap)
    ensures var times := Told(interval, last, sounds);
            times != [] ==> sounds != [] && times[|times| - 1] <= sounds[|sounds| - 1].triggerMs
  {
    if sounds != [] {
      var before, s := sounds[..|sounds| - 1], sounds[|sounds| - 1];
      PolledPrefix(sounds, gap);
      ReportsPolled(interval, last, before, gap);
      ApartSnoc(Told(interval, last, before), s.triggerMs, gap);
      if before != [] {
        assert sounds[|before| - 1].triggerMs + gap <= sounds[|before| - 1 + 1].triggerMs;
      }
    }
  }

  /** With sounds at least `gap` apart, the documented spacing holds in every run exactly
      if the gap already is that long, or the interval is zero. */
  lemma SecondsKeptAlwaysIff(interval: nat, gap: nat)
    ensures (forall last: nat, sounds: seq<Sound> | Polled(sounds, gap) ::
               AtLeastApart(Told(interval, last, sounds), 1000 * interval)) <==>
              interval == 0 || gap >= 1000 * interval
  {
    if interval == 0 || gap >= 1000 * interval {
      forall last: nat, sounds: seq<Sound> | Polled(sounds, gap)
        ensures AtLeastApart(Told(interval, last, sounds), 1000 * interval)
      {
        LongGapKeepsSeconds(interval, last, sounds, gap);
      }
    } else {
      var u := interval + if gap < interval then interval else gap;
      TwoSounds(interval, 0, interval, u);
      assert Polled([Sound(interval, None), Sound(u, None)], gap);
    }
  }

  lemma LongGapKeepsSeconds(interval: nat, last: nat, sounds: seq<Sound>, gap: nat)
    requires Polled(sounds, gap) && (interval == 0 || gap >= 1000 * interval)
    ensures AtLeastApart(Told(interval, last, sounds), 1000 * interval)
  {
    MillisecondsKept(interval, last, sounds);
    ReportsPolled(interval, last, sounds, gap);
    Weaken(Told(interval, last, sounds), gap, 1000 * interval);
  }

  lemma Weaken(times: seq<nat>, gap: nat, less: nat)
    ensures AtLeastApart(times, gap) && less <= gap ==> AtLeastApart(times, less)
  {
  }

  /** Two unfiltered sounds an interval or more apart are both reported. */
  lemma TwoSounds(interval: nat, last: nat, t: nat, u: nat)
    requires t >= last + interval && u >= t + interval
    ensures Told(interval, last, [Sound(t, None), Sound(u, None)]) == [t, u]
    ensures AtLeastApart([t, u], 1000 * interval) <==> u - t >= 1000 * interval
  {
    var one, two := [Sound(t, None)], [Sound(t, None), Sound(u, None)];
    assert one[..0] == [] && two[..1] == one;
    assert Told(interval, last, one) == [t];
    ApartSnoc([t], u, 1000 * interval);
    assert [t] + [u] == [t, u];
  }

  // ------------------------------------------------------------- sound and settings

  const TWO_TO_64: int := 0x1_0000_0000_0000_0000

  /** `unsigned long long` */
  type Time = x: int | 0 <= x < TWO_TO_64

  /** One piece of audio: its time, whether it is loud enough, whether the alarm thread
      fetches the event before the next one replaces it, and what the filter says. */
  datatype Audio = Audio(ts: Time, loud: bool, fetched: bool, filter: Option<int>)

  /** How long the detector waits between two checks.  The source subtracts five from
      the setting and compares without sign. */
  function CheckGap(detectInterval: int): (gap: Time)
    requires detectInterval < TWO_TO_64
  {
    var ms := if detectInterval <= 0 then 500 else detectInterval;
    if ms >= 5 then ms - 5 else ms - 5 + TWO_TO_64
  }

  function Elapsed(ts: Time, last: Time): Time {
    if ts >= last then ts - last else ts - last + TWO_TO_64
  }

  /** The time of the last check after `pieces`. */
  function LastCheck(gap: Time, pieces: seq<Audio>): Time {
    if pieces == [] then 0
    else
      var last, piece := LastCheck(gap, pieces[..|pieces| - 1]), pieces[|pieces| - 1];
      if Elapsed(piece.ts, last) >= gap then piece.ts else last
  }

  /** The sounds that reach the alarm. */
  function Heard(gap: Time, pieces: seq<Audio>): seq<Sound> {
    if pieces == [] then []
    else
      var before, piece := pieces[..|pieces| - 1], pieces[|pieces| - 1];
      var sounds := Heard(gap, before);
      if Elapsed(piece.ts, LastCheck(gap, before)) >= gap && piece.loud && piece.fetched
      then sounds + [Sound(piece.ts, piece.filter)] else sounds
  }

  predicate InOrder(pieces: seq<Audio>) {
    forall i | 0 <= i < |pieces| - 1 :: pieces[i].ts <= pieces[i + 1].ts
  }

  lemma PolledSnoc(sounds: seq<Sound>, s: Sound, gap: nat)
    requires Polled(sounds, gap) && (sounds != [] ==> sounds[|sounds| - 1].triggerMs + gap <= s.triggerMs)
    ensures Polled(sounds + [s], gap)
  {
  }

  lemma InOrderPrefix(pieces: seq<Audio>)
    requires pieces != [] && InOrder(pieces)
    ensures var before := pieces[..|pieces| - 1];
            InOrder(before) && (before != [] ==> before[|before| - 1].ts <= pieces[|pieces| - 1].ts)
  {
    var before := pieces[..|pieces| - 1];
    forall i | 0 <= i < |before| - 1 ensures before[i].ts <= before[i + 1].ts {
      assert pieces[i].ts <= pieces[i + 1].ts;
    }
    if before != [] {
      assert pieces[|before| - 1].ts <= pieces[|before| - 1 + 1].ts;
    }
  }

  lemma {:induction false} LastCheckWithin(gap: Time, pieces: seq<Audio>)
    requires InOrder(pieces)
    ensures LastCheck(gap, pieces) <= if pieces == [] then 0 else pieces[|pieces| - 1].ts
  {
    if pieces != [] {
      InOrderPrefix(pieces);
      LastCheckWithin(gap, pieces[..|pieces| - 1]);
    }
  }

  /** The detector spaces the sounds. */
  lemma {:induction false} HeardPolled(gap: Time, pieces: seq<Audio>)
    requires InOrder(pieces)
    ensures Polled(Heard(gap, pieces), gap)
    ensures var sounds := Heard(gap, pieces);
            sounds != [] ==> sounds[|sounds| - 1].triggerMs <= LastCheck(gap, pieces)
  {
    if pieces != [] {
      var before, piece := pieces[..|pieces| - 1], pieces[|pieces| - 1];
      InOrderPrefix(pieces);
      LastCheckWithin(gap, before);
      HeardPolled(gap, before);
      hide InOrder, Polled;
      var sounds, last := Heard(gap, before), LastCheck(gap, before);
      assert last <= piece.ts;
      if Elapsed(piece.ts, last) >= gap {
        PolledSnoc(sounds, Sound(piece.ts, piece.filter), gap);
      }
    }
  }

  /** Five milliseconds less than the setting, or than 500 if there is none. */
  lemma CheckGapMeans(detectInterval: int)
    requires detectInterval < 0x8000_0000
    ensures detectInterval >= 5 ==> CheckGap(detectInterval) == detectInterval - 5
    ensures detectInterval <= 0 ==> CheckGap(detectInterval) == 495
    ensures 0 < detectInterval < 5 ==> CheckGap(detectInterval) > 0x8000_0000_0000_0000
  {
  }

  /** Every sound is that of a loud piece that was fetched, with its filter. */
  lemma {:induction false} OnlyLoudIsHeard(gap: Time, pieces: seq<Audio>, i: nat) returns (k: nat)
    requires i < |Heard(gap, pieces)|
    ensures k < |pieces| && pieces[k].loud && pieces[k].fetched
    ensures Heard(gap, pieces)[i] == Sound(pieces[k].ts, pieces[k].filter)
  {
    var before := pieces[..|pieces| - 1];
    if i < |Heard(gap, before)| {
      k := OnlyLoudIsHeard(gap, before, i);
    } else {
      k := |pieces| - 1;
    }
  }

  /** The documented spacing of a sound alarm, for all audio whose times do not go
      back, as a condition on the two settings: they are `int`s, the first one not
      negative. */
  lemma SettingsKeepSecondsIff(reportInterval: nat, detectInterval: int)
    requires reportInterval < 0x8000_0000 && detectInterval < 0x8000_0000
    ensures (forall pieces: seq<Audio> | InOrder(pieces) ::
               AtLeastApart(Told(reportInterval, 0, Heard(CheckGap(detectInterval), pieces)), 1000 * reportInterval)) <==>
              reportInterval == 0 || CheckGap(detectInterval) >= 1000 * reportInterval
  {
    var gap := CheckGap(detectInterval);
    if reportInterval == 0 || gap >= 1000 * reportInterval {
      forall pieces: seq<Audio> | InOrder(pieces)
        ensures AtLeastApart(Told(reportInterval, 0, Heard(gap, pieces)), 1000 * reportInterval)
      {
        HeardPolled(gap, pieces);
        LongGapKeepsSeconds(reportInterval, 0, Heard(gap, pieces), gap);
      }
    } else {
      var step := if gap < reportInterval then reportInterval else gap;
      TwoHeard(gap, step, 2 * step);
      TwoSounds(reportInterval, 0, step, 2 * step);
      var pieces := [Audio(step, true, true, None), Audio(2 * step, true, true, None)];
      assert InOrder(pieces);
      assert !AtLeastApart(Told(reportInterval, 0, Heard(gap, pieces)), 1000 * reportInterval);
    }
  }

  /** Two loud pieces, each checked and fetched. */
  lemma TwoHeard(gap: Time, t: Time, u: Time)
    requires t >= gap && u >= t + gap
    ensures Heard(gap, [Audio(t, true, true, None), Audio(u, true, true, None)]) == [Sound(t, None), Sound(u, None)]
  {
    var one, two := [Audio(t, true, true, None)], [Audio(t, true, true, None), Audio(u, true, true, None)];
    assert one[..0] == [] && two[..1] == one;
    assert LastCheck(gap, one) == t && Heard(gap, one) == [Sound(t, None)];
  }

  class SoundDetector {
    const interval: int
    var lastCheckTs: Time

    constructor (interval: int)
      ensures this.interval == interval && lastCheckTs == 0
    {
      this.interval := interval;
      lastCheckTs := 0;
    }

    /** The pieces gone through by `aed_thread`. */
    method AedThread(pieces: seq<Audio>) returns (sounds: seq<Sound>)
      requires interval < TWO_TO_64 && lastCheckTs == 0
      modifies this
      ensures sounds == Heard(CheckGap(interval), pieces) && lastCheckTs == LastCheck(CheckGap(interval), pieces)
      ensures InOrder(pieces) ==> Polled(sounds, CheckGap(interval))
    {
      sounds := [];
      var intervalMs := interval;
      if intervalMs <= 0 {
        intervalMs := 500;
      }
      var gap: Time := if intervalMs >= 5 then intervalMs - 5 else intervalMs - 5 + TWO_TO_64;
      for i := 0 to |pieces|
        invariant sounds == Heard(gap, pieces[..i]) && lastCheckTs == LastCheck(gap, pieces[..i])
      {
        assert pieces[..i + 1][..i] == pieces[..i];
        var piece := pieces[i];
        if Elapsed(piece.ts, lastCheckTs) >= gap {
          lastCheckTs := piece.ts;
          if piece.loud && piece.fetched {
            sounds := sounds + [Sound(piece.ts, piece.filter)];
          }
        }
      }
      assert pieces[..|pieces|] == pieces;
      if InOrder(pieces) {
        HeardPolled(gap, pieces);
      }
    }
  }

  class SoundAlarm {
    const reportInterval: nat
    var lastTriggerMs: nat
    ghost var reports: seq<nat>

    constructor (reportInterval: nat)
      ensures reports == [] && this.reportInterval == reportInterval && lastTriggerMs == 0
    {
      this.reportInterval := reportInterval;
      lastTriggerMs, reports := 0, [];
    }

    /** `aed_callback_top` */
    method AedCallbackTop(s: Sound)
      modifies this
      ensures var reported := (s.filter == None || s.filter == Some(0)) && s.triggerMs >= old(lastTriggerMs) + reportInterval;
              && reports == old(reports) + (if reported then [s.triggerMs] else [])
              && lastTriggerMs == (if reported then s.triggerMs else old(lastTriggerMs))
    {
      if s.filter == None || Passes(s.filter.value) {
        if s.triggerMs >= lastTriggerMs + reportInterval {
          lastTriggerMs := s.triggerMs;
          reports := reports + [s.triggerMs];
        }
      }
    }

    /** The sounds fetched by `ak_aed_thread`: reported at least the interval in
        milliseconds apart, as far apart as the detector spaces them, and seconds
        apart exactly if none comes too soon. */
    method AkAedThread(sounds: seq<Sound>)
      requires reports == []
      modifies this
      ensures reports == Told(reportInterval, old(lastTriggerMs), sounds)
      ensures AtLeastApart(reports, reportInterval)
      ensures AtLeastApart(reports, 1000 * reportInterval) <==>
                NoneTooSoon(reportInterval, old(lastTriggerMs), sounds)
      ensures forall gap: nat | Polled(sounds, gap) :: AtLeastApart(reports, gap)
    {
      for k := 0 to |sounds|
        invariant reports == Told(reportInterval, old(lastTriggerMs), sounds[..k])
        invariant lastTriggerMs == LastOf(reports, old(lastTriggerMs))
      {
        assert sounds[..k + 1][..k] == sounds[..k];
        AedCallbackTop(sounds[k]);
      }
      assert sounds[..|sounds|] == sounds;
      MillisecondsKept(reportInterval, old(lastTriggerMs), sounds);
      SecondsKeptIff(reportInterval, old(lastTriggerMs), sounds);
      forall gap: nat | Polled(sounds, gap) ensures AtLeastApart(reports, gap) {
        ReportsPolled(reportInterval, old(lastTriggerMs), sounds, gap);
      }
    }
  }

  /** With the shipped settings, 60 seconds and a detection every 500 ms, two sounds
      half a second apart are both reported. */
  method SoundsHalfSecondApart() returns (alarm: SoundAlarm)
    ensures alarm.reportInterval == 60 && alarm.reports == [1000, 1500]
    ensures !AtLeastApart(alarm.reports, 1000 * alarm.reportInterval)
  {
    var detector := new SoundDetector(500);
    alarm := new SoundAlarm(60);
    TwoHeard(495, 1000, 1500);
    TwoSounds(60, 0, 1000, 1500);
    var sounds := detector.AedThread([Audio(1000, true, true, None), Audio(1500, true, true, None)]);
    alarm.AkAedThread(sounds);
  }
}
