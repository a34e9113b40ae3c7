/** The recorder controller: a polling loop that, from the recording mode, the plan
    table, motion triggers and exception flags, starts and stops the recorder. */
module RecordCtrl {
  import opened Wrappers
  import opened RecordPlan

  // -------------------------------------------------------------------- calendar

  /** Local midnight before `now`, in a zone `zone` seconds east of Greenwich. */
  function DayStart(now: int, zone: int): (d: int)
    ensures d <= now < d + SECONDS_PER_DAY && (d + zone) % SECONDS_PER_DAY == 0
  {
    now - (now + zone) % SECONDS_PER_DAY
  }

  /** Day of the week, Sunday being 0; 1 January 1970 was a Thursday. */
  function WeekDay(now: int, zone: int): (w: nat)
    ensures w < DAY_PER_WEEK
  {
    ((now + zone) / SECONDS_PER_DAY + 4) % DAY_PER_WEEK
  }

  // --------------------------------------------------------------- configuration

  datatype Mode = Reserved | PlanMode | AlarmMode

  datatype Except =
    | SdRemoved | SdUmount | SdNoSpace | SdReadOnly | NoVideo | NoAudio
    | MuxSysErr | RecStopped | SdWriteError

  datatype PlanStatus = PlanNone | PlanNoConfig | PlanStart | PlanEnd
  datatype AlarmStatus = AlarmNone | AlarmNoConfig | AlarmStart | AlarmEnd

  // ---------------------------------------------------------------- plan windows

  predicate InWindow(p: PlanEntry, now: int, zone: int)
  {
    && p.active != 0 && p.week[WeekDay(now, zone)] != 0
    && DayStart(now, zone) + p.startTime <= now < DayStart(now, zone) + p.endTime
  }

  predicate EnabledAfter(p: PlanEntry, wday: nat, k: nat)
  {
    p.week[(wday + k) % DAY_PER_WEEK] != 0
  }

  /** How many days after weekday `wday` plan `p` is next enabled, looking no further
      than the coming Sunday; 0 if it is not. */
  function NextDay(p: PlanEntry, wday: nat, d: nat): (r: nat)
    requires wday < DAY_PER_WEEK && 0 < d <= DAY_PER_WEEK - wday + 1
    ensures r == 0 || (d <= r <= DAY_PER_WEEK - wday && EnabledAfter(p, wday, r))
    ensures forall k | d <= k < (if r == 0 then DAY_PER_WEEK - wday + 1 else r) :: !EnabledAfter(p, wday, k)
    decreases DAY_PER_WEEK - wday + 1 - d
  {
    if d > DAY_PER_WEEK - wday then 0
    else if EnabledAfter(p, wday, d) then d
    else NextDay(p, wday, d + 1)
  }

  lemma NextDayStep(p: PlanEntry, wday: nat, d: nat)
    requires wday < DAY_PER_WEEK && 0 < d <= DAY_PER_WEEK - wday
    ensures (wday + d) % DAY_PER_WEEK == if wday + d == DAY_PER_WEEK then 0 else wday + d
    ensures NextDay(p, wday, d) == if p.week[(wday + d) % DAY_PER_WEEK] != 0 then d else NextDay(p, wday, d + 1)
  {
  }

  lemma NextDayEnd(p: PlanEntry, wday: nat)
    requires wday < DAY_PER_WEEK
    ensures NextDay(p, wday, DAY_PER_WEEK - wday + 1) == 0
  {
  }

  /** The plan goes on without a gap of more than one second: its next window opens
      by then.  The source counts the days from today. */
  predicate GoesOn(p: PlanEntry, wday: nat, endTime: int, now: int, zone: int)
    requires wday < DAY_PER_WEEK
  {
    var d := NextDay(p, wday, 1);
    p.active != 0 && d > 0 && DayStart(now, zone) + d * SECONDS_PER_DAY + p.startTime <= endTime + 1
  }

  lemma NextWeekDay(now: int, zone: int)
    ensures WeekDay(now + SECONDS_PER_DAY, zone) == (WeekDay(now, zone) + 1) % DAY_PER_WEEK
    ensures DayStart(now + SECONDS_PER_DAY, zone) == DayStart(now, zone) + SECONDS_PER_DAY
  {
    assert now + SECONDS_PER_DAY + zone == now + zone + SECONDS_PER_DAY;
    DayLater(now + zone);
    NextOfSeven((now + zone) / SECONDS_PER_DAY + 4);
  }

  lemma DayLater(t: int)
    ensures (t + SECONDS_PER_DAY) / SECONDS_PER_DAY == t / SECONDS_PER_DAY + 1
    ensures (t + SECONDS_PER_DAY) % SECONDS_PER_DAY == t % SECONDS_PER_DAY
  {
  }

  lemma NextOfSeven(d: int)
    ensures (d + 1) % DAY_PER_WEEK == (d % DAY_PER_WEEK + 1) % DAY_PER_WEEK
  {
  }

  /** 1 January 1970 was a Thursday, all of it. */
  lemma EpochIsThursday(now: int, zone: int)
    requires 0 <= now + zone < SECONDS_PER_DAY
    ensures WeekDay(now, zone) == 4 && DayStart(now, zone) == -zone
  {
  }

  /** The week day is that of the day's midnight. */
  lemma WeekDayOfMidnight(now: int, zone: int)
    ensures WeekDay(now, zone) == WeekDay(DayStart(now, zone), zone)
  {
  }

  /** Exactly when a plan recording of the day that began at `midnight` goes on, when
      that is asked `late` days after: today still, and its next enabled window opens
      within a second of its end.  A window never opens before its day, so that is
      only the case if it ends with the last second of the day and the plan is on
      from midnight tomorrow. */
  lemma MidnightGoesOn(p: PlanEntry, midnight: int, endTime: int, late: nat, now: int, zone: int)
    requires p.startTime >= 0
    requires midnight == DayStart(midnight, zone) && endTime < midnight + SECONDS_PER_DAY
    requires DayStart(now, zone) == midnight + late * SECONDS_PER_DAY
    ensures var wday := WeekDay(midnight, zone);
            var d := NextDay(p, wday, 1);
            GoesOn(p, wday, endTime, now, zone) <==>
              late == 0 && p.active != 0 && d > 0 && midnight + d * SECONDS_PER_DAY + p.startTime <= endTime + 1
    ensures GoesOn(p, WeekDay(midnight, zone), endTime, now, zone) <==>
              && late == 0 && p.active != 0 && endTime + 1 == midnight + SECONDS_PER_DAY
              && p.startTime == 0 && p.week[WeekDay(midnight + SECONDS_PER_DAY, zone)] != 0
  {
    var wday := WeekDay(midnight, zone);
    NextWeekDay(midnight, zone);
    OpensLater(p, wday, endTime, midnight, late);
    hide WeekDay, DayStart, NextDay;
    assert EnabledAfter(p, wday, 1) <==> p.week[WeekDay(midnight + SECONDS_PER_DAY, zone)] != 0;
  }

  lemma LaterDay(now: int, zone: int, d: nat)
    requires d > 0
    ensures DayStart(now, zone) + d * SECONDS_PER_DAY > now
  {
  }

  /** No window of a later day opens before that day. */
  lemma OpensLater(p: PlanEntry, wday: nat, endTime: int, midnight: int, late: nat)
    requires p.startTime >= 0 && wday < DAY_PER_WEEK && endTime < midnight + SECONDS_PER_DAY
    ensures var d := NextDay(p, wday, 1);
            d > 0 && midnight + late * SECONDS_PER_DAY + d * SECONDS_PER_DAY + p.startTime <= endTime + 1 <==>
              late == 0 && EnabledAfter(p, wday, 1) && p.startTime == 0 && endTime + 1 == midnight + SECONDS_PER_DAY
  {
    var d := NextDay(p, wday, 1);
    if late > 0 || d > 1 {
      assert (late + d) * SECONDS_PER_DAY >= 2 * SECONDS_PER_DAY || d == 0;
    }
  }

  // -------------------------------------------------------- the recorder's log

  /** What the recorder was told, and what it did by itself. */
  datatype Event = Started(mode: Mode) | Stopped | StoppedItself

  predicate Running(log: seq<Event>) {
    log != [] && log[|log| - 1].Started?
  }

  /** Every start found the recorder stopped, and every stop found it running. */
  ghost predicate Protocol(log: seq<Event>) {
    log != [] ==>
      var before := log[..|log| - 1];
      Protocol(before) && (log[|log| - 1].Started? <==> !Running(before))
  }

  /** So starts and stops alternate. */
  lemma {:induction false} ProtocolAlternates(log: seq<Event>, i: nat)
    requires Protocol(log) && i < |log|
    ensures log[i].Started? <==> i % 2 == 0
  {
    if i == |log| - 1 && i > 0 {
      ProtocolAlternates(log[..i], i - 1);
    } else if i < |log| - 1 {
      ProtocolAlternates(log[..|log| - 1], i);
    }
  }

  /** The recorder stopped by itself, and nothing happened since. */
  predicate JustStopped(log: seq<Event>) {
    log != [] && log[|log| - 1].StoppedItself?
  }

  predicate Fits(log: seq<Event>, e: Event) {
    match e
    case Started(_) => !Running(log)
    case StoppedItself => Running(log)
    case Stopped => Running(log) || JustStopped(log)
  }

  /** What every run keeps: the protocol, but for a stop that comes right after the
      recorder stopped by itself. */
  ghost predicate Lawful(log: seq<Event>) {
    log != [] ==> Lawful(log[..|log| - 1]) && Fits(log[..|log| - 1], log[|log| - 1])
  }

  /** Such a stop: the recorder stopped between the controller's look at the flag and
      its call. */
  predicate Raced(log: seq<Event>) {
    && log != []
    && (Raced(log[..|log| - 1]) || (JustStopped(log[..|log| - 1]) && log[|log| - 1].Stopped?))
  }

  /** It is the only way to break the protocol. */
  lemma {:induction false} ProtocolIff(log: seq<Event>)
    requires Lawful(log)
    ensures Protocol(log) <==> !Raced(log)
  {
    if log != [] {
      ProtocolIff(log[..|log| - 1]);
    }
  }

  lemma RunningNotStopped(log: seq<Event>)
    ensures Running(log) ==> !JustStopped(log)
  {
  }

  lemma LawfulSnoc(log: seq<Event>, e: Event)
    ensures Lawful(log + [e]) <==> Lawful(log) && Fits(log, e)
    ensures Running(log + [e]) <==> e.Started?
    ensures JustStopped(log + [e]) <==> e.StoppedItself?
    ensures Raced(log + [e]) <==> Raced(log) || (JustStopped(log) && e.Stopped?)
  {
    assert (log + [e])[..|log|] == log;
  }

  /** One alarm recording: the trigger that started it, when it starts, and when it is
      scheduled to end. */
  datatype AlarmRun = AlarmRun(trigger: int, start: int, end: int)

  /** No recording is longer than the bound, and none was triggered before the
      scheduled end of the one before it. */
  ghost predicate AlarmsLawful(alarms: seq<AlarmRun>, bound: nat) {
    && (forall i | 0 <= i < |alarms| :: alarms[i].end - alarms[i].start <= bound)
    && (forall i | 0 < i < |alarms| :: alarms[i].trigger >= alarms[i - 1].end)
  }

  lemma AlarmsSnoc(alarms: seq<AlarmRun>, a: AlarmRun, bound: nat)
    requires AlarmsLawful(alarms, bound) && a.end - a.start <= bound
    requires alarms != [] ==> a.trigger >= alarms[|alarms| - 1].end
    ensures AlarmsLawful(alarms + [a], bound)
  {
  }

  lemma AlarmsLast(alarms: seq<AlarmRun>, end: int, bound: nat)
    requires AlarmsLawful(alarms, bound) && alarms != [] && end - alarms[|alarms| - 1].start <= bound
    ensures AlarmsLawful(alarms[|alarms| - 1 := alarms[|alarms| - 1].(end := end)], bound)
  {
  }

  /** What reaches the controller in one round of its loop.  `reports(k)` are the
      error codes the recorder's callback delivers at the `k`-th gap: from 0 to 6
      between two steps of the round, from 7 to 11 within one of its stops. */
  datatype Round = Round(
    now: int,
    inserted: bool, mounted: bool, writeError: bool, recheckSpace: bool,
    trigger: int,
    table: Option<Table>,
    format: bool, formatMounts: bool, update: bool, setMode: Option<Mode>,
    reports: nat -> set<Except>)

  /** The recorder stops by itself between a look at its flag and the call that
      follows; these are gaps 7 to 11. */
  predicate RacedIn(r: Round) {
    exists k: nat | 7 <= k <= 11 :: RecStopped in r.reports(k)
  }

  /** What a gap delivers to flags within `card`. */
  lemma Delivered(flags: set<Except>, codes: set<Except>, running: bool, card: set<Except>)
    requires RecStopped !in card
    ensures var after := flags + if running && RecStopped !in flags then codes else codes - {RecStopped};
            after <= card <==> flags <= card && codes - (if running then {} else {RecStopped}) <= card
  {
    var after := flags + if running && RecStopped !in flags then codes else codes - {RecStopped};
    if after <= card {
      assert forall e | e in flags :: e in after;
      assert RecStopped !in flags;
      assert forall e | e in codes && (running || e != RecStopped) :: e in after;
    }
  }

  lemma NoFlags(before: set<Except>, after: set<Except>)
    requires after - {SdRemoved, SdUmount, SdNoSpace, SdWriteError} == before - {SdRemoved, SdUmount, SdNoSpace, SdWriteError}
    ensures after == {} <==>
              && before <= {SdRemoved, SdUmount, SdNoSpace, SdWriteError}
              && SdRemoved !in after && SdUmount !in after && SdNoSpace !in after && SdWriteError !in after
  {
    var card := {SdRemoved, SdUmount, SdNoSpace, SdWriteError};
    assert before <= (before - card) + card && after <= (after - card) + card;
    assert after - card <= after;
    if before <= card {
      assert before - card == {};
      assert after == {} || exists e :: e in after && e in card;
    }
  }

  lemma RacedBy(r: Round, k: nat)
    requires 7 <= k <= 11
    ensures RecStopped in r.reports(k) ==> RacedIn(r)
  {
  }

  /** The fields a round's check is about. */
  datatype Snapshot = Snapshot(
    planStatus: PlanStatus, planIndex: int, planWday: int, planEndTime: int,
    alarmStatus: AlarmStatus, alarmStartTime: int, alarmEndTime: int, alarmTimeBak: int)

  class RecordControl {
    const zone: int
    const preTime: nat
    const stopTime: nat
    const limitTime: nat

    var exceptType: set<Except>
    var updatePlanTime: bool
    var formatCard: bool
    var recordMode: Mode
    var switchMode: Mode
    var planStatus: PlanStatus
    var planIndex: int
    var planWday: int
    var planEndTime: int
    var alarmStatus: AlarmStatus
    var alarmStartTime: int
    var alarmEndTime: int
    /** The static `alarm_time_bak` of `check_alarm_record_start`. */
    var alarmTimeBak: int

    /** The recorder, the alarm recordings so far, and the latest time seen. */
    ghost var log: seq<Event>
    ghost var alarms: seq<AlarmRun>
    ghost var clock: int

    function Bound(): nat {
      if limitTime > preTime + stopTime then limitTime else preTime + stopTime
    }

    predicate Recording()
      reads `planStatus, `alarmStatus
    {
      planStatus == PlanStart || alarmStatus == AlarmStart
    }

    /** The recorder runs exactly while a recording is on and it has not stopped by
        itself. */
    ghost predicate LogValid()
      reads `log, `planStatus, `alarmStatus, `exceptType
    {
      && Lawful(log)
      && (Running(log) <==> Recording() && RecStopped !in exceptType)
    }

    ghost predicate PlanValid()
      reads `planStatus, `recordMode, `planIndex, `planWday
    {
      planStatus == PlanStart ==>
        recordMode == PlanMode && 0 <= planIndex < MAX_RECORD_PLAN_NUM && 0 <= planWday < DAY_PER_WEEK
    }

    ghost predicate AlarmValid()
      reads `alarmStatus, `recordMode, `alarmStartTime, `alarmEndTime, `clock, `alarms
    {
      alarmStatus == AlarmStart ==>
        && recordMode == AlarmMode && alarms != []
        && alarmStartTime <= alarmEndTime <= alarmStartTime + Bound()
        && alarmStartTime <= clock && alarmEndTime <= clock + stopTime
    }

    /** The last alarm recording so far is the one whose times are kept. */
    ghost predicate HistoryValid()
      reads `alarmStartTime, `alarmEndTime, `alarms
    {
      && AlarmsLawful(alarms, Bound())
      && (alarms != [] ==>
            var last := alarms[|alarms| - 1];
            last.start == alarmStartTime && last.end == alarmEndTime)
    }

    ghost predicate Valid()
      reads `log, `planStatus, `alarmStatus, `exceptType, `recordMode, `planIndex, `planWday
      reads `alarmStartTime, `alarmEndTime, `clock, `alarms
    {
      LogValid() && PlanValid() && AlarmValid() && HistoryValid()
    }

    constructor (zone: int, mode: Mode, preTime: nat, stopTime: nat, limitTime: nat, now: int)
      ensures Valid() && log == [] && alarms == [] && clock == now && recordMode == mode == switchMode
      ensures exceptType == {SdRemoved, SdUmount} && !Recording()
    {
      this.zone := zone;
      this.preTime, this.stopTime, this.limitTime := preTime, stopTime, limitTime;
      exceptType := {SdRemoved, SdUmount};
      updatePlanTime, formatCard := false, false;
      recordMode, switchMode := mode, mode;
      planStatus, planIndex, planWday, planEndTime := PlanNone, -1, -1, 0;
      alarmStatus, alarmStartTime, alarmEndTime, alarmTimeBak := AlarmNone, 0, 0, 0;
      log, alarms, clock := [], [], now;
    }

    // -------------------------------------------------------------- the recorder

    /** `ak_dvr_record_start` */
    method RecorderStart(mode: Mode)
      modifies `log
      ensures log == old(log) + [Started(mode)]
      ensures Lawful(old(log)) && !Running(old(log)) ==> Lawful(log) && Running(log)
      ensures Raced(log) ==> Raced(old(log))
    {
      LawfulSnoc(log, Started(mode));
      log := log + [Started(mode)];
    }

    /** `ak_dvr_record_stop` */
    method RecorderStop()
      modifies `log
      ensures log == old(log) + [Stopped]
      ensures Lawful(old(log)) && (Running(old(log)) || JustStopped(old(log))) ==> Lawful(log) && !Running(log)
      ensures Raced(log) <==> Raced(old(log)) || JustStopped(old(log))
    {
      LawfulSnoc(log, Stopped);
      log := log + [Stopped];
    }

    /** `get_video_record_error`, the recorder's callback.  It reports that it stopped
        only when it was running. */
    method GetVideoRecordError(codes: set<Except>)
      requires Valid() && (RecStopped in codes ==> Running(log))
      modifies `exceptType, `log
      ensures Valid() && exceptType == old(exceptType) + codes
      ensures log == if RecStopped in codes then old(log) + [StoppedItself] else old(log)
      ensures RecStopped in codes ==> JustStopped(log)
      ensures Raced(log) ==> Raced(old(log))
    {
      if RecStopped in codes {
        LawfulSnoc(log, StoppedItself);
        log := log + [StoppedItself];
      }
      exceptType := exceptType + codes;
    }

    /** A gap between two steps, in which the recorder may call back; it stops by itself
        only if it runs. */
    method Gap(codes: set<Except>)
      requires Valid()
      modifies `exceptType, `log
      ensures Valid()
      ensures exceptType == old(exceptType) +
                if Recording() && RecStopped !in old(exceptType) then codes else codes - {RecStopped}
      ensures Raced(log) ==> Raced(old(log))
    {
      if Recording() && RecStopped !in exceptType {
        GetVideoRecordError(codes);
      } else {
        GetVideoRecordError(codes - {RecStopped});
      }
    }

    // ------------------------------------------------------------------ stopping

    /** `stop_record`: the recorder is told unless the flag says that it stopped by
        itself; `codes` may be reported between the look at the flag and the call. */
    method StopRecord(codes: set<Except>)
      requires Valid() && Recording()
      modifies `log, `planStatus, `alarmStatus, `exceptType
      ensures Valid()
      ensures planStatus == PlanNone && alarmStatus == AlarmEnd
      ensures var told := RecStopped !in old(exceptType);
              && exceptType == (if told then old(exceptType) + codes else old(exceptType))
              && log == old(log) + (if told && RecStopped in codes then [StoppedItself] else [])
                        + (if told then [Stopped] else [])
              && (Raced(log) <==> Raced(old(log)) || (told && RecStopped in codes))
    {
      hide Lawful, Raced, HistoryValid;
      if RecStopped !in exceptType {
        RunningNotStopped(log);
        GetVideoRecordError(codes);
        RecorderStop();
      }
      planStatus := PlanNone;
      alarmStatus := AlarmEnd;
    }

    /** `report_exception` keeps the card's state and forgets the rest. */
    method ReportException()
      requires Valid() && !Recording()
      modifies `exceptType
      ensures Valid() && exceptType == old(exceptType) * {SdRemoved, SdUmount, SdNoSpace, SdWriteError}
    {
      var kept: set<Except> := {};
      if SdRemoved in exceptType {
        kept := kept + {SdRemoved};
      }
      if SdUmount in exceptType {
        kept := kept + {SdUmount};
      }
      if SdNoSpace in exceptType {
        kept := kept + {SdNoSpace};
      }
      if SdWriteError in exceptType {
        kept := kept + {SdWriteError};
      }
      exceptType := kept;
    }

    /** `check_record_exception` */
    method CheckRecordException(r: Round)
      requires Valid()
      modifies `exceptType
      ensures Valid()
      ensures exceptType - {SdRemoved, SdUmount, SdNoSpace, SdWriteError}
              == old(exceptType) - {SdRemoved, SdUmount, SdNoSpace, SdWriteError}
      ensures SdRemoved in exceptType <==> !r.inserted
      ensures SdUmount in exceptType <==> !r.inserted || !r.mounted
      ensures SdNoSpace in exceptType <==> SdNoSpace in old(exceptType) && !r.recheckSpace
      ensures SdWriteError in exceptType <==>
                if r.inserted && r.mounted then r.writeError else SdWriteError in old(exceptType)
    {
      hide Lawful, Raced, Running, HistoryValid, PlanValid, AlarmValid;
      if SdNoSpace in exceptType && r.recheckSpace {
        exceptType := exceptType - {SdNoSpace};
      }
      if r.inserted {
        exceptType := exceptType - {SdRemoved};
        if r.mounted {
          exceptType := exceptType - {SdUmount};
          if r.writeError {
            exceptType := exceptType + {SdWriteError};
          } else {
            exceptType := exceptType - {SdWriteError};
          }
        } else {
          exceptType := exceptType + {SdUmount};
        }
      } else {
        exceptType := exceptType + {SdRemoved};
        exceptType := exceptType + {SdUmount};
      }
    }

    // ---------------------------------------------------------------------- plan

    /** `check_plan_continuity`; an index or weekday out of range is refused. */
    method CheckPlanContinuity(table: Option<Table>, now: int) returns (goesOn: bool)
      modifies `planEndTime, `planWday
      ensures goesOn <==>
                (table.Some? && 0 <= planIndex < MAX_RECORD_PLAN_NUM && 0 <= old(planWday) < DAY_PER_WEEK
                 && GoesOn(table.value[planIndex], old(planWday), old(planEndTime), now, zone))
      ensures goesOn ==>
                var p := table.value[planIndex];
                var d := NextDay(p, old(planWday), 1);
                && planEndTime == DayStart(now, zone) + d * SECONDS_PER_DAY + p.endTime > now
                && planWday == (old(planWday) + d) % DAY_PER_WEEK && p.week[planWday] != 0
      ensures !goesOn ==> planEndTime == old(planEndTime) && planWday == old(planWday)
    {
      hide DayStart, NextDay, EnabledAfter;
      if planIndex >= MAX_RECORD_PLAN_NUM || planIndex < 0 {
        return false;
      }
      if planWday >= DAY_PER_WEEK || planWday < 0 {
        return false;
      }
      if table == None {
        return false;
      }
      var p := table.value[planIndex];
      goesOn := false;
      var i, diffDay := planWday, 0;
      while i < DAY_PER_WEEK
        invariant planWday <= i <= DAY_PER_WEEK && diffDay == i - planWday
        invariant planEndTime == old(planEndTime) && planWday == old(planWday)
        invariant p.active != 0 ==> NextDay(p, planWday, 1) == NextDay(p, planWday, diffDay + 1)
      {
        var nextWday := i + 1;
        diffDay := diffDay + 1;
        if nextWday == DAY_PER_WEEK {
          nextWday := 0;
        }
        NextDayStep(p, planWday, diffDay);
        if p.active != 0 && p.week[nextWday] != 0 {
          LaterDay(now, zone, diffDay);
          var nextTime := SECONDS_PER_DAY * diffDay + DayStart(now, zone) + p.startTime;
          if planEndTime + 1 >= nextTime {
            planEndTime := SECONDS_PER_DAY * diffDay + DayStart(now, zone) + p.endTime;
            planWday := nextWday;
            goesOn := true;
          }
          return;
        }
        i := i + 1;
      }
      NextDayEnd(p, planWday);
    }

    /** `check_plan_record_start` */
    method CheckPlanRecordStart(table: Option<Table>, now: int)
      requires Valid() && !Recording() && recordMode == PlanMode && RecStopped !in exceptType
      modifies `planStatus, `planIndex, `planWday, `planEndTime, `log
      ensures Valid() && (Raced(log) ==> Raced(old(log)))
      ensures table.None? ==> planStatus == PlanNoConfig && log == old(log)
      ensures table.Some? ==>
                var t := table.value;
                && (planStatus == PlanStart <==> exists i | 0 <= i < |t| :: InWindow(t[i], now, zone))
                && (planStatus == PlanStart ==>
                      && log == old(log) + [Started(PlanMode)]
                      && InWindow(t[planIndex], now, zone)
                      && (forall i | 0 <= i < planIndex :: !InWindow(t[i], now, zone))
                      && planEndTime == DayStart(now, zone) + t[planIndex].endTime > now
                      && planWday == WeekDay(now, zone))
                && (planStatus != PlanStart ==> log == old(log) && planStatus == old(planStatus))
    {
      hide Lawful, Raced, Running, DayStart, WeekDay, HistoryValid, AlarmValid;
      if table == None {
        planStatus := PlanNoConfig;
        return;
      }
      var t := table.value;
      for i := 0 to MAX_RECORD_PLAN_NUM
        invariant forall k | 0 <= k < i :: !InWindow(t[k], now, zone)
        invariant Valid() && !Recording() && log == old(log) && planStatus == old(planStatus)
      {
        if t[i].active != 0 && t[i].week[WeekDay(now, zone)] != 0 {
          var start := DayStart(now, zone) + t[i].startTime;
          var end := DayStart(now, zone) + t[i].endTime;
          if now >= start && now < end {
            assert InWindow(t[i], now, zone);
            StartPlan(i, WeekDay(now, zone), end);
            return;
          }
        }
      }
    }

    /** The recorder is started for plan `i`. */
    method StartPlan(i: nat, wday: nat, end: int)
      requires Valid() && !Recording() && recordMode == PlanMode && RecStopped !in exceptType
      requires i < MAX_RECORD_PLAN_NUM && wday < DAY_PER_WEEK
      modifies `planStatus, `planIndex, `planWday, `planEndTime, `log
      ensures Valid() && planStatus == PlanStart && log == old(log) + [Started(PlanMode)]
      ensures Raced(log) ==> Raced(old(log))
      ensures planIndex == i && planWday == wday && planEndTime == end
    {
      hide Lawful, Raced, Running, HistoryValid, AlarmValid;
      planIndex := i;
      planWday := wday;
      planEndTime := end;
      planStatus := PlanStart;
      RecorderStart(PlanMode);
    }

    /** `check_plan_record_stop` */
    method CheckPlanRecordStop(table: Option<Table>, now: int, codes: set<Except>)
      requires Valid() && planStatus == PlanStart
      modifies `planStatus, `alarmStatus, `planEndTime, `planWday, `log, `exceptType
      ensures Raced(log) ==> Raced(old(log)) || RecStopped in codes
      ensures Valid() && alarmStatus != AlarmStart
      ensures var past := now >= old(planEndTime);
              var on := table.Some? && GoesOn(table.value[planIndex], old(planWday), old(planEndTime), now, zone);
              && (planStatus == PlanStart <==> !past || on)
              && (planStatus == PlanStart ==> now < planEndTime && log == old(log))
              && (planStatus == PlanStart && !past ==> planEndTime == old(planEndTime))
              && (planStatus != PlanStart ==> planStatus == PlanNone)
    {
      if now >= planEndTime {
        var goesOn := CheckPlanContinuity(table, now);
        if !goesOn {
          // The source sets RECORD_PLAN_END first; `stop_record` overwrites it.
          StopRecord(codes);
        }
      }
    }

    /** `check_record_plan`: afterwards a plan recording ends in the future. */
    method CheckRecordPlan(table: Option<Table>, now: int, codes: set<Except>)
      requires Valid() && recordMode == PlanMode && (Recording() || RecStopped !in exceptType)
      modifies `planStatus, `alarmStatus, `planIndex, `planEndTime, `planWday, `log, `exceptType
      ensures Raced(log) ==> Raced(old(log)) || RecStopped in codes
      ensures Valid() && alarmStatus != AlarmStart
      ensures planStatus == PlanStart ==> now < planEndTime
      ensures (old(planStatus) == PlanNone || old(planStatus) == PlanEnd) ==>
                (planStatus == PlanStart <==>
                   table.Some? && exists i | 0 <= i < MAX_RECORD_PLAN_NUM :: InWindow(table.value[i], now, zone))
      ensures old(planStatus) == PlanStart ==>
                (planStatus == PlanStart <==>
                   || now < old(planEndTime)
                   || (table.Some? && GoesOn(table.value[old(planIndex)], old(planWday), old(planEndTime), now, zone)))
      ensures old(planStatus) == PlanNoConfig ==> planStatus == PlanNone
    {
      hide Lawful, Raced, GoesOn, InWindow, HistoryValid;
      match planStatus
      case PlanNone => CheckPlanRecordStart(table, now);
      case PlanEnd => CheckPlanRecordStart(table, now);
      case PlanStart => CheckPlanRecordStop(table, now, codes);
      case PlanNoConfig => planStatus := PlanNone;
    }

    // --------------------------------------------------------------------- alarm

    /** `check_alarm_record_start`, `trigger` being the time of the last motion or 0. */
    method CheckAlarmRecordStart(trigger: int, now: int)
      requires Valid() && !Recording() && recordMode == AlarmMode && RecStopped !in exceptType && clock == now
      modifies `alarmStatus, `alarmStartTime, `alarmEndTime, `alarmTimeBak, `log, `alarms
      ensures Valid() && (Raced(log) ==> Raced(old(log)))
      ensures alarms == old(alarms) +
                if alarmStatus == AlarmStart then [AlarmRun(trigger, alarmStartTime, alarmEndTime)] else []
      ensures alarmStatus == AlarmStart <==>
                trigger != 0 && trigger > old(alarmTimeBak) && trigger >= old(alarmEndTime)
      ensures alarmStatus == AlarmStart ==>
                log == old(log) + [Started(AlarmMode)]
                && alarmStartTime == now - preTime && alarmEndTime == now + stopTime
      ensures alarmStatus != AlarmStart ==>
                alarmStatus == old(alarmStatus) && log == old(log) && alarmEndTime == old(alarmEndTime)
      ensures alarmTimeBak == if trigger == 0 then old(alarmTimeBak) else trigger
    {
      hide Lawful, Raced, Running, AlarmsLawful, PlanValid;
      if trigger == 0 {
        return;
      }
      if trigger < alarmTimeBak || (trigger < alarmEndTime && alarmTimeBak != trigger) {
        alarmTimeBak := trigger;
      }
      if trigger != alarmTimeBak {
        alarmTimeBak := trigger;
        var start := now - preTime;
        var end := start + preTime + stopTime;
        alarmStartTime := start;
        alarmEndTime := end;
        alarmStatus := AlarmStart;
        AlarmsSnoc(alarms, AlarmRun(trigger, start, end), Bound());
        alarms := alarms + [AlarmRun(trigger, start, end)];
        RecorderStart(AlarmMode);
      }
    }

    /** `check_alarm_record_stop`: a trigger extends the recording up to its limit; the
        end never moves back; and once the bound has passed, the recording stops. */
    method CheckAlarmRecordStop(trigger: int, now: int, codes: set<Except>)
      requires Valid() && alarmStatus == AlarmStart && clock <= now
      modifies `planStatus, `alarmStatus, `alarmEndTime, `log, `alarms, `clock, `exceptType
      ensures Raced(log) ==> Raced(old(log)) || RecStopped in codes
      ensures Valid() && clock == now && planStatus != PlanStart && |alarms| == |old(alarms)|
      ensures old(alarmEndTime) <= alarmEndTime <= alarmStartTime + Bound()
      ensures var more := trigger != 0 && old(alarmEndTime) - alarmStartTime < limitTime;
              alarmEndTime == if !more then old(alarmEndTime)
                              else if now + stopTime < alarmStartTime + limitTime then now + stopTime
                              else alarmStartTime + limitTime
      ensures alarmStatus == (if now >= alarmEndTime then AlarmEnd else AlarmStart)
      ensures now >= alarmStartTime + Bound() ==> alarmStatus == AlarmEnd
    {
      hide Lawful, Raced, Running, HistoryValid;
      clock := now;
      Extend(trigger, now);
      if now >= alarmEndTime {
        StopRecord(codes);
        alarmStatus := AlarmEnd;
      }
    }

    /** A trigger moves the end of an alarm recording, up to its limit. */
    method Extend(trigger: int, now: int)
      requires Valid() && alarmStatus == AlarmStart && clock == now
      modifies `alarmEndTime, `alarms
      ensures Valid() && |alarms| == |old(alarms)|
      ensures old(alarmEndTime) <= alarmEndTime <= alarmStartTime + Bound()
      ensures var more := trigger != 0 && old(alarmEndTime) - alarmStartTime < limitTime;
              alarmEndTime == if !more then old(alarmEndTime)
                              else if now + stopTime < alarmStartTime + limitTime then now + stopTime
                              else alarmStartTime + limitTime
    {
      hide Lawful, Raced, Running, AlarmsLawful, LogValid, PlanValid;
      var diff := alarmEndTime - alarmStartTime;
      if trigger != 0 && diff < limitTime {
        alarmEndTime := now + stopTime;
        diff := alarmEndTime - alarmStartTime;
        if diff > limitTime {
          alarmEndTime := alarmStartTime + limitTime;
        }
      }
      AlarmsLast(alarms, alarmEndTime, Bound());
      alarms := alarms[|alarms| - 1 := alarms[|alarms| - 1].(end := alarmEndTime)];
    }

    /** `check_record_alarm` */
    method CheckRecordAlarm(trigger: int, now: int, codes: set<Except>)
      requires Valid() && recordMode == AlarmMode && (Recording() || RecStopped !in exceptType) && clock <= now
      modifies `planStatus, `alarmStatus, `alarmStartTime, `alarmEndTime, `alarmTimeBak, `log, `alarms, `clock, `exceptType
      ensures Raced(log) ==> Raced(old(log)) || RecStopped in codes
      ensures Valid() && clock == now && planStatus != PlanStart
      ensures old(alarmStatus) == AlarmStart ==> alarmStartTime == old(alarmStartTime) && old(alarmEndTime) <= alarmEndTime
      ensures old(alarmStatus) == AlarmStart && now >= alarmStartTime + Bound() ==> alarmStatus != AlarmStart
      ensures old(alarmStatus) != AlarmStart && alarmStatus == AlarmStart ==> trigger >= old(alarmEndTime)
      ensures old(alarmStatus) != AlarmStart && alarmStatus != AlarmStart ==> alarmEndTime == old(alarmEndTime)
      ensures (old(alarmStatus) == AlarmNone || old(alarmStatus) == AlarmEnd) ==>
                (alarmStatus == AlarmStart <==>
                   trigger != 0 && trigger > old(alarmTimeBak) && trigger >= old(alarmEndTime))
      ensures old(alarmStatus) == AlarmStart ==>
                && (alarmStatus == AlarmStart <==> now < alarmEndTime)
                && (var more := trigger != 0 && old(alarmEndTime) - alarmStartTime < limitTime;
                    alarmEndTime == if !more then old(alarmEndTime)
                                    else if now + stopTime < alarmStartTime + limitTime then now + stopTime
                                    else alarmStartTime + limitTime)
      ensures old(alarmStatus) == AlarmNoConfig ==> alarmStatus == AlarmNone
    {
      hide Lawful, Raced, HistoryValid;
      match alarmStatus
      case AlarmNone => clock := now; CheckAlarmRecordStart(trigger, now);
      case AlarmEnd => clock := now; CheckAlarmRecordStart(trigger, now);
      case AlarmStart => CheckAlarmRecordStop(trigger, now, codes);
      case AlarmNoConfig => clock := now; alarmStatus := AlarmNone;
    }

    // ---------------------------------------------------------------- other steps

    /** `change_mode` */
    method ChangeMode(codes: set<Except>)
      requires Valid()
      modifies `log, `planStatus, `alarmStatus, `recordMode, `exceptType
      ensures old(exceptType) <= exceptType
      ensures Raced(log) ==> Raced(old(log)) || RecStopped in codes
      ensures Valid() && recordMode == switchMode && !Recording()
    {
      if Recording() {
        StopRecord(codes);
      }
      recordMode := switchMode;
    }

    /** The part of `format_card` that concerns the recorder: it is stopped first, and
        a card that was formatted and mounted again is flagged as not mounted. */
    method FormatCard(mounts: bool, codes: set<Except>)
      requires Valid()
      modifies `log, `planStatus, `alarmStatus, `exceptType
      ensures Valid() && !Recording()
      ensures exceptType == old(exceptType) + (if mounts then {SdUmount} else {})
                            + (if old(Recording()) && RecStopped !in old(exceptType) then codes else {})
      ensures Raced(log) ==> Raced(old(log)) || RecStopped in codes
    {
      hide Lawful, Raced, Running, HistoryValid;
      if Recording() {
        StopRecord(codes);
      }
      if mounts {
        exceptType := exceptType + {SdUmount};
      }
    }

    /** `record_ctrl_set_mode` */
    method SetMode(newMode: Mode) returns (ok: bool)
      modifies `switchMode
      ensures ok <==> newMode != recordMode
      ensures switchMode == if ok then newMode else old(switchMode)
    {
      ok := newMode != recordMode;
      if ok {
        switchMode := newMode;
      }
    }

    // ------------------------------------------------------------------ the loop

    ghost function Now(): Snapshot
      reads this
    {
      Snapshot(planStatus, planIndex, planWday, planEndTime, alarmStatus, alarmStartTime, alarmEndTime, alarmTimeBak)
    }

    /** What the check of the mode does to a controller that was at `a`. */
    ghost predicate ModeChecked(r: Round, mode: Mode, a: Snapshot, b: Snapshot) {
      && (b.planStatus == PlanStart && a.planStatus != PlanStart ==>
            && mode == PlanMode && r.table.Some?
            && exists i | 0 <= i < MAX_RECORD_PLAN_NUM :: InWindow(r.table.value[i], r.now, zone))
      && (b.alarmStatus == AlarmStart && a.alarmStatus != AlarmStart ==>
            mode == AlarmMode && r.trigger != 0 && r.trigger > a.alarmTimeBak && r.trigger >= a.alarmEndTime)
      && (mode == PlanMode && (a.planStatus == PlanNone || a.planStatus == PlanEnd) ==>
            (b.planStatus == PlanStart <==>
               r.table.Some? && exists i | 0 <= i < MAX_RECORD_PLAN_NUM :: InWindow(r.table.value[i], r.now, zone)))
      && (mode == PlanMode && a.planStatus == PlanStart
          && 0 <= a.planIndex < MAX_RECORD_PLAN_NUM && 0 <= a.planWday < DAY_PER_WEEK ==>
            (b.planStatus == PlanStart <==>
               || r.now < a.planEndTime
               || (r.table.Some? && GoesOn(r.table.value[a.planIndex], a.planWday, a.planEndTime, r.now, zone))))
      && (mode == AlarmMode && (a.alarmStatus == AlarmNone || a.alarmStatus == AlarmEnd) ==>
            (b.alarmStatus == AlarmStart <==>
               r.trigger != 0 && r.trigger > a.alarmTimeBak && r.trigger >= a.alarmEndTime))
      && (mode == AlarmMode && a.alarmStatus == AlarmStart ==>
            && (b.alarmStatus == AlarmStart <==> r.now < b.alarmEndTime)
            && (var more := r.trigger != 0 && a.alarmEndTime - a.alarmStartTime < limitTime;
                b.alarmEndTime == if !more then a.alarmEndTime
                                  else if r.now + stopTime < a.alarmStartTime + limitTime then r.now + stopTime
                                  else a.alarmStartTime + limitTime))
    }

    /** The check of the current mode. */
    method CheckMode(r: Round)
      requires Valid() && clock == r.now && (Recording() || RecStopped !in exceptType)
      modifies this
      ensures Raced(log) ==> Raced(old(log)) || RecStopped in r.reports(7)
      ensures Valid() && clock == r.now && recordMode == old(recordMode) && switchMode == old(switchMode)
      ensures formatCard == old(formatCard) && updatePlanTime == old(updatePlanTime)
      ensures planStatus == PlanStart ==> r.now < planEndTime
      ensures alarmStatus == AlarmStart && old(alarmStatus) == AlarmStart ==>
                && alarmStartTime == old(alarmStartTime) && old(alarmEndTime) <= alarmEndTime
                && r.now < alarmStartTime + Bound()
      ensures ModeChecked(r, recordMode, old(Now()), Now())
    {
      hide Lawful, Raced, Running, GoesOn, InWindow, HistoryValid;
      match recordMode
      case AlarmMode => CheckRecordAlarm(r.trigger, r.now, r.reports(7));
      case PlanMode => CheckRecordPlan(r.table, r.now, r.reports(7));
      case Reserved =>
    }

    /** What happens instead when there are exceptions. */
    method StopAndReport(r: Round)
      requires Valid()
      modifies `log, `planStatus, `alarmStatus, `exceptType
      ensures Valid() && !Recording()
      ensures old(exceptType) * {SdRemoved, SdUmount, SdNoSpace, SdWriteError} <= exceptType <= {SdRemoved, SdUmount, SdNoSpace, SdWriteError}
      ensures Raced(log) ==> Raced(old(log)) || RacedIn(r)
    {
      hide Lawful, Raced, Running, HistoryValid;
      if Recording() {
        StopRecord(r.reports(8));
      }
      Gap(r.reports(3));
      ReportException();
    }

    /** What follows the exception check, callbacks coming in before and between the
        steps: the check of the mode, or stopping. */
    method CheckOrStop(r: Round) returns (quiet: bool)
      requires Valid() && clock <= r.now
      modifies this
      ensures Raced(log) ==> Raced(old(log)) || RacedIn(r)
      ensures Valid() && clock == r.now && recordMode == old(recordMode) && switchMode == old(switchMode)
      ensures formatCard == old(formatCard) && updatePlanTime == old(updatePlanTime)
      ensures quiet <==> old(exceptType) == {} && r.reports(1) <= if old(Recording()) then {} else {RecStopped}
      ensures !quiet ==> !Recording()
      ensures !quiet ==> old(exceptType) * {SdRemoved, SdUmount, SdNoSpace, SdWriteError} <= exceptType <= {SdRemoved, SdUmount, SdNoSpace, SdWriteError}
      ensures planStatus == PlanStart ==> r.now < planEndTime
      ensures alarmStatus == AlarmStart && old(alarmStatus) == AlarmStart ==>
                && alarmStartTime == old(alarmStartTime) && old(alarmEndTime) <= alarmEndTime
                && r.now < alarmStartTime + Bound()
      ensures quiet ==> ModeChecked(r, recordMode, old(Now()), Now())
    {
      hide Valid, Raced, ModeChecked, Bound, RacedIn;
      Tick(r.now);
      Delivered(exceptType, r.reports(1), Recording(), {});
      Gap(r.reports(1));
      quiet := exceptType == {};
      Gap(r.reports(2));
      if quiet {
        CheckMode(r);
        RacedBy(r, 7);
      } else {
        StopAndReport(r);
      }
    }

    method Tick(now: int)
      requires Valid() && clock <= now
      modifies `clock
      ensures Valid() && clock == now
    {
      hide Lawful, HistoryValid;
      clock := now;
    }

    /** The requests of other threads that arrive during the pause. */
    method TakeRequests(r: Round)
      modifies `formatCard, `updatePlanTime, `switchMode
      ensures formatCard == (old(formatCard) || r.format) && updatePlanTime == (old(updatePlanTime) || r.update)
      ensures switchMode == if r.setMode.Some? && r.setMode.value != recordMode then r.setMode.value else old(switchMode)
    {
      formatCard := formatCard || r.format;
      updatePlanTime := updatePlanTime || r.update;
      if r.setMode.Some? {
        var ok := SetMode(r.setMode.value);
      }
    }

    method Pause(r: Round)
      requires Valid()
      modifies `log, `exceptType, `formatCard, `updatePlanTime, `switchMode
      ensures old(exceptType) <= exceptType
      ensures Valid() && (Raced(log) ==> Raced(old(log)))
      ensures formatCard == (old(formatCard) || r.format) && updatePlanTime == (old(updatePlanTime) || r.update)
      ensures switchMode == if r.setMode.Some? && r.setMode.value != recordMode then r.setMode.value else old(switchMode)
    {
      hide Valid, Raced;
      Gap(r.reports(4));
      TakeRequests(r);
    }

    method FormatIfAsked(mounts: bool, codes: set<Except>)
      requires Valid()
      modifies `log, `planStatus, `alarmStatus, `exceptType, `formatCard
      ensures old(exceptType) <= exceptType
      ensures Raced(log) ==> Raced(old(log)) || RecStopped in codes
      ensures Valid() && !formatCard
      ensures if old(formatCard) then !Recording()
              else planStatus == old(planStatus) && alarmStatus == old(alarmStatus)
    {
      if formatCard {
        FormatCard(mounts, codes);
        formatCard := false;
      }
    }

    /** A changed plan table stops a plan recording; the next check starts it anew. */
    method UpdateIfAsked(codes: set<Except>)
      requires Valid()
      modifies `log, `planStatus, `alarmStatus, `updatePlanTime, `exceptType
      ensures old(exceptType) <= exceptType
      ensures Raced(log) ==> Raced(old(log)) || RecStopped in codes
      ensures Valid() && !updatePlanTime
      ensures if old(updatePlanTime) && old(planStatus) == PlanStart then !Recording()
              else planStatus == old(planStatus) && alarmStatus == old(alarmStatus)
    {
      if updatePlanTime {
        if recordMode == PlanMode && planStatus == PlanStart {
          StopRecord(codes);
        }
        updatePlanTime := false;
      }
    }

    method SwitchIfAsked(codes: set<Except>)
      requires Valid()
      modifies `log, `planStatus, `alarmStatus, `recordMode, `exceptType
      ensures old(exceptType) <= exceptType
      ensures Raced(log) ==> Raced(old(log)) || RecStopped in codes
      ensures Valid() && recordMode == switchMode
      ensures if old(recordMode) != switchMode then !Recording()
              else planStatus == old(planStatus) && alarmStatus == old(alarmStatus)
    {
      if recordMode != switchMode {
        ChangeMode(codes);
      }
    }

    /** Formatting and a changed plan table, with callbacks before and in between. */
    method ServeRequests(r: Round)
      requires Valid()
      modifies `log, `planStatus, `alarmStatus, `exceptType, `formatCard, `updatePlanTime, `switchMode
      ensures old(exceptType) <= exceptType
      ensures Raced(log) ==> Raced(old(log)) || RecStopped in r.reports(9) || RecStopped in r.reports(10)
      ensures Valid() && !formatCard && !updatePlanTime
      ensures switchMode == if r.setMode.Some? && r.setMode.value != recordMode then r.setMode.value else old(switchMode)
      ensures planStatus == PlanStart ==>
                old(planStatus) == PlanStart && !old(formatCard) && !r.format && !old(updatePlanTime) && !r.update
      ensures alarmStatus == AlarmStart ==> old(alarmStatus) == AlarmStart && !old(formatCard) && !r.format
      ensures !old(formatCard) && !r.format && !old(updatePlanTime) && !r.update ==>
                planStatus == old(planStatus) && alarmStatus == old(alarmStatus)
    {
      hide Valid, Raced;
      Pause(r);
      FormatIfAsked(r.formatMounts, r.reports(9));
      Gap(r.reports(5));
      UpdateIfAsked(r.reports(10));
    }

    /** What the loop does after its pause, with callbacks in between. */
    method AfterPause(r: Round)
      requires Valid()
      modifies `log, `planStatus, `alarmStatus, `exceptType, `recordMode, `switchMode, `formatCard, `updatePlanTime
      ensures old(exceptType) <= exceptType
      ensures Raced(log) ==> Raced(old(log)) || RacedIn(r)
      ensures Valid()
      ensures planStatus == PlanStart ==> old(planStatus) == PlanStart
      ensures alarmStatus == AlarmStart ==> old(alarmStatus) == AlarmStart
      ensures recordMode == switchMode
              == if r.setMode.Some? && r.setMode.value != old(recordMode) then r.setMode.value else old(switchMode)
      ensures !formatCard && !updatePlanTime
      ensures old(formatCard) || r.format || recordMode != old(recordMode) ==>
                planStatus != PlanStart && alarmStatus != AlarmStart
      ensures old(updatePlanTime) || r.update ==> planStatus != PlanStart
      ensures !old(formatCard) && !r.format && !old(updatePlanTime) && !r.update && recordMode == old(recordMode) ==>
                planStatus == old(planStatus) && alarmStatus == old(alarmStatus)
    {
      hide Valid, Raced, RacedIn;
      ServeRequests(r);
      Gap(r.reports(6));
      SwitchIfAsked(r.reports(11));
      RacedBy(r, 9);
      RacedBy(r, 10);
      RacedBy(r, 11);
    }

    /** The look at the card and the flags, with a callback before it. */
    method LookAtCard(r: Round)
      requires Valid()
      modifies `exceptType, `log
      ensures Valid() && (Raced(log) ==> Raced(old(log)))
      ensures exceptType == {} <==>
                var idle := old(planStatus) != PlanStart && old(alarmStatus) != AlarmStart;
                && r.inserted && r.mounted && !r.writeError
                && (SdNoSpace in old(exceptType) || SdNoSpace in r.reports(0) ==> r.recheckSpace)
                && old(exceptType) <= {SdRemoved, SdUmount, SdNoSpace, SdWriteError}
                && r.reports(0) - (if idle then {RecStopped} else {}) <= {SdRemoved, SdUmount, SdNoSpace, SdWriteError}
      ensures (SdRemoved in exceptType <==> !r.inserted) && (SdUmount in exceptType <==> !r.inserted || !r.mounted)
      ensures (SdNoSpace in old(exceptType) || SdNoSpace in r.reports(0)) && !r.recheckSpace ==> SdNoSpace in exceptType
    {
      hide Valid, Raced;
      Delivered(exceptType, r.reports(0), Recording(), {SdRemoved, SdUmount, SdNoSpace, SdWriteError});
      Gap(r.reports(0));
      ghost var before := exceptType;
      CheckRecordException(r);
      NoFlags(before, exceptType);
    }

    /** The steps of a round of `record_ctrl_main`. */
    method RoundSteps(r: Round) returns (quiet: bool, ghost between: Snapshot)
      requires Valid() && clock <= r.now
      modifies this
      ensures Raced(log) ==> Raced(old(log)) || RacedIn(r)
      ensures Valid() && clock == r.now
      ensures quiet <==>
                var idle := old(planStatus) != PlanStart && old(alarmStatus) != AlarmStart;
                && r.inserted && r.mounted && !r.writeError
                && (SdNoSpace in old(exceptType) || SdNoSpace in r.reports(0) ==> r.recheckSpace)
                && old(exceptType) <= {SdRemoved, SdUmount, SdNoSpace, SdWriteError}
                && r.reports(0) - (if idle then {RecStopped} else {}) <= {SdRemoved, SdUmount, SdNoSpace, SdWriteError}
                && r.reports(1) <= if idle then {RecStopped} else {}
      ensures (!r.inserted ==> SdRemoved in exceptType) && (!r.inserted || !r.mounted ==> SdUmount in exceptType)
      ensures (SdNoSpace in old(exceptType) || SdNoSpace in r.reports(0)) && !r.recheckSpace ==> SdNoSpace in exceptType
      ensures !quiet ==> planStatus != PlanStart && alarmStatus != AlarmStart
      ensures planStatus == PlanStart ==> r.now < planEndTime
      ensures alarmStatus == AlarmStart && old(alarmStatus) == AlarmStart ==>
                && alarmStartTime == old(alarmStartTime) && old(alarmEndTime) <= alarmEndTime
                && r.now < alarmStartTime + Bound()
      ensures quiet ==> ModeChecked(r, old(recordMode), old(Now()), between)
      ensures between == Now().(planStatus := between.planStatus, alarmStatus := between.alarmStatus)
      ensures planStatus == PlanStart ==> between.planStatus == PlanStart
      ensures alarmStatus == AlarmStart ==> between.alarmStatus == AlarmStart
      ensures recordMode == switchMode
              == if r.setMode.Some? && r.setMode.value != old(recordMode) then r.setMode.value else old(switchMode)
      ensures !formatCard && !updatePlanTime
      ensures old(formatCard) || r.format || recordMode != old(recordMode) ==>
                planStatus != PlanStart && alarmStatus != AlarmStart
      ensures old(updatePlanTime) || r.update ==> planStatus != PlanStart
      ensures !old(formatCard) && !r.format && !old(updatePlanTime) && !r.update && recordMode == old(recordMode) ==>
                planStatus == between.planStatus && alarmStatus == between.alarmStatus
    {
      hide Valid, Raced, RacedIn, ModeChecked, Bound;
      LookAtCard(r);
      quiet := CheckOrStop(r);
      between := Now();
      AfterPause(r);
    }

    /** One round of `record_ctrl_main`.  The mode is checked exactly if there is no
        exception: none left over, no card missing, unmounted, full or failing, and
        nothing reported before the look at the flags.  `asked` says whether anything
        is asked of the controller after its pause. */
    method Iterate(r: Round) returns (quiet: bool, asked: bool)
      requires Valid() && clock <= r.now
      modifies this
      ensures Raced(log) ==> Raced(old(log)) || RacedIn(r)
      ensures Valid() && clock == r.now
      ensures quiet <==>
                var idle := old(planStatus) != PlanStart && old(alarmStatus) != AlarmStart;
                && r.inserted && r.mounted && !r.writeError
                && (SdNoSpace in old(exceptType) || SdNoSpace in r.reports(0) ==> r.recheckSpace)
                && old(exceptType) <= {SdRemoved, SdUmount, SdNoSpace, SdWriteError}
                && r.reports(0) - (if idle then {RecStopped} else {}) <= {SdRemoved, SdUmount, SdNoSpace, SdWriteError}
                && r.reports(1) <= if idle then {RecStopped} else {}
      ensures (!r.inserted ==> SdRemoved in exceptType) && (!r.inserted || !r.mounted ==> SdUmount in exceptType)
      ensures (SdNoSpace in old(exceptType) || SdNoSpace in r.reports(0)) && !r.recheckSpace ==> SdNoSpace in exceptType
      ensures !quiet ==> planStatus != PlanStart && alarmStatus != AlarmStart
      ensures !(planStatus == PlanStart && alarmStatus == AlarmStart)
      ensures planStatus == PlanStart ==> r.now < planEndTime
      ensures alarmStatus == AlarmStart && old(alarmStatus) == AlarmStart ==>
                && alarmStartTime == old(alarmStartTime) && old(alarmEndTime) <= alarmEndTime
                && r.now < alarmStartTime + Bound()
      ensures alarmEndTime - alarmStartTime <= Bound() || alarmStatus != AlarmStart
      ensures planStatus == PlanStart && old(planStatus) != PlanStart ==>
                quiet && old(recordMode) == PlanMode && r.table.Some? &&
                exists i | 0 <= i < MAX_RECORD_PLAN_NUM ::
                && r.table.value[i].active != 0 && r.table.value[i].week[WeekDay(r.now, zone)] != 0
                && DayStart(r.now, zone) + r.table.value[i].startTime <= r.now < DayStart(r.now, zone) + r.table.value[i].endTime
      ensures alarmStatus == AlarmStart && old(alarmStatus) != AlarmStart ==>
                quiet && old(recordMode) == AlarmMode && r.trigger != 0 && r.trigger > old(alarmTimeBak) && r.trigger >= old(alarmEndTime)
      ensures asked <==>
                || old(formatCard) || r.format || old(updatePlanTime) || r.update
                || old(recordMode) != old(switchMode) || (r.setMode.Some? && r.setMode.value != old(recordMode))
      ensures recordMode == switchMode
              == if r.setMode.Some? && r.setMode.value != old(recordMode) then r.setMode.value else old(switchMode)
      ensures !formatCard && !updatePlanTime
      ensures old(formatCard) || r.format || recordMode != old(recordMode) ==>
                planStatus != PlanStart && alarmStatus != AlarmStart
      ensures old(updatePlanTime) || r.update ==> planStatus != PlanStart
      ensures quiet && !asked && old(recordMode) == PlanMode && (old(planStatus) == PlanNone || old(planStatus) == PlanEnd) ==>
                (planStatus == PlanStart <==>
                   r.table.Some? && exists i | 0 <= i < MAX_RECORD_PLAN_NUM ::
                     && r.table.value[i].active != 0 && r.table.value[i].week[WeekDay(r.now, zone)] != 0
                     && DayStart(r.now, zone) + r.table.value[i].startTime <= r.now < DayStart(r.now, zone) + r.table.value[i].endTime)
      ensures quiet && !asked && old(recordMode) == PlanMode && old(planStatus) == PlanStart ==>
                (planStatus == PlanStart <==>
                   || r.now < old(planEndTime)
                   || (r.table.Some? && GoesOn(r.table.value[old(planIndex)], old(planWday), old(planEndTime), r.now, zone)))
      ensures quiet && !asked && old(recordMode) == AlarmMode && (old(alarmStatus) == AlarmNone || old(alarmStatus) == AlarmEnd) ==>
                (alarmStatus == AlarmStart <==>
                   r.trigger != 0 && r.trigger > old(alarmTimeBak) && r.trigger >= old(alarmEndTime))
      ensures quiet && !asked && old(recordMode) == AlarmMode && old(alarmStatus) == AlarmStart ==>
                && (alarmStatus == AlarmStart <==> r.now < alarmEndTime)
                && (var more := r.trigger != 0 && old(alarmEndTime) - old(alarmStartTime) < limitTime;
                    alarmEndTime == if !more then old(alarmEndTime)
                                    else if r.now + stopTime < old(alarmStartTime) + limitTime then r.now + stopTime
                                    else old(alarmStartTime) + limitTime)
    {
      hide LogValid, HistoryValid, Raced, RacedIn, GoesOn, DayStart, WeekDay, Bound;
      asked := formatCard || r.format || updatePlanTime || r.update
        || recordMode != switchMode || (r.setMode.Some? && r.setMode.value != recordMode);
      ghost var between;
      quiet, between := RoundSteps(r);
    }

    /** Nothing records on a missing, unmounted or failing card; a recording only starts
        within a plan's window, or for a trigger later than the last one and not before
        the last scheduled end; and it ends after now. */
    ghost predicate RoundKeeps(r: Round, a: Snapshot, b: Snapshot) {
      && (!r.inserted || !r.mounted || r.writeError ==> b.planStatus != PlanStart && b.alarmStatus != AlarmStart)
      && (r.format ==> b.planStatus != PlanStart && b.alarmStatus != AlarmStart)
      && (b.planStatus == PlanStart && a.planStatus != PlanStart ==>
            r.table.Some? && exists i | 0 <= i < MAX_RECORD_PLAN_NUM :: InWindow(r.table.value[i], r.now, zone))
      && (b.alarmStatus == AlarmStart && a.alarmStatus != AlarmStart ==>
            r.trigger > a.alarmTimeBak && r.trigger >= a.alarmEndTime)
      && (b.planStatus == PlanStart ==> r.now < b.planEndTime)
      && (b.alarmStatus == AlarmStart && a.alarmStatus == AlarmStart ==> a.alarmEndTime <= b.alarmEndTime)
    }

    /** A run of the loop under a clock that never goes back.  `trace` is where the
        controller is before the first round and after each. */
    method RecordCtrlMain(rounds: seq<Round>) returns (ghost trace: seq<Snapshot>)
      requires Valid()
      requires forall i | 0 <= i < |rounds| :: clock <= rounds[i].now
      requires forall i, j | 0 <= i < j < |rounds| :: rounds[i].now <= rounds[j].now
      modifies this
      ensures Valid() && Lawful(log) && (Protocol(log) <==> !Raced(log))
      ensures !Raced(old(log)) && (forall i | 0 <= i < |rounds| :: !RacedIn(rounds[i])) ==> Protocol(log)
      ensures !(planStatus == PlanStart && alarmStatus == AlarmStart)
      ensures planStatus == PlanStart ==> recordMode == PlanMode
      ensures alarmStatus == AlarmStart ==> recordMode == AlarmMode
      ensures AlarmsLawful(alarms, Bound())
      ensures rounds != [] ==> clock == rounds[|rounds| - 1].now
      ensures |trace| == |rounds| + 1 && trace[0] == old(Now()) && trace[|rounds|] == Now()
      ensures forall i | 0 <= i < |rounds| :: RoundKeeps(rounds[i], trace[i], trace[i + 1])
    {
      hide Lawful, Raced, Running, AlarmsLawful, RacedIn, Protocol, GoesOn, DayStart, WeekDay;
      trace := [Now()];
      for i := 0 to |rounds|
        invariant Valid()
        invariant Raced(log) ==> Raced(old(log)) || exists j :: 0 <= j < i && RacedIn(rounds[j])
        invariant forall j | i <= j < |rounds| :: clock <= rounds[j].now
        invariant i > 0 ==> clock == rounds[i - 1].now
        invariant |trace| == i + 1 && trace[0] == old(Now()) && trace[i] == Now()
        invariant forall j | 0 <= j < i :: RoundKeeps(rounds[j], trace[j], trace[j + 1])
      {
        var quiet, asked := Iterate(rounds[i]);
        trace := trace + [Now()];
      }
      ProtocolIff(log);
    }
  }
}
