/** Saving the plan table to the configuration library and loading it again.  The
    library itself is a map from item names to text. */
module PlanStore {
  import opened CText
  import opened RecordPlan
  import opened PlanConfig

  type Items = map<string, string>

  datatype Kind = Run | StartTime | EndTime | WeekActive

  function Suffix(k: Kind): string {
    match k
    case Run => "_run"
    case StartTime => "_start_time"
    case EndTime => "_end_time"
    case WeekActive => "_week_active"
  }

  /** `plan%d_...` of the section `record` */
  function ItemName(i: nat, k: Kind): string
    requires i < MAX_RECORD_PLAN_NUM
  {
    "plan" + [Digit(i + 1)] + Suffix(k)
  }

  lemma ItemNames()
    ensures ItemName(0, Run) == "plan1_run" && ItemName(1, StartTime) == "plan2_start_time"
    ensures ItemName(2, EndTime) == "plan3_end_time" && ItemName(0, WeekActive) == "plan1_week_active"
  {
  }

  lemma NamesDiffer(i: nat, k: Kind, j: nat, l: Kind)
    requires i < MAX_RECORD_PLAN_NUM && j < MAX_RECORD_PLAN_NUM
    ensures ItemName(i, k) == ItemName(j, l) ==> i == j && k == l
  {
    var a, b := ItemName(i, k), ItemName(j, l);
    assert a[4] == Digit(i + 1) && b[4] == Digit(j + 1);
    assert a[5..] == Suffix(k) && b[5..] == Suffix(l);
    assert |Suffix(Run)| == 4 && |Suffix(StartTime)| == 11 && |Suffix(EndTime)| == 9 && |Suffix(WeekActive)| == 12;
  }

  predicate Savable(p: PlanEntry) {
    p.startTime >= 0 && p.endTime >= 0
  }

  function Text(p: PlanEntry, k: Kind): string
    requires Savable(p)
  {
    match k
    case Run => IntText(p.active)
    case StartTime => ClockText(p.startTime)
    case EndTime => ClockText(p.endTime)
    case WeekActive => WeekText(p.week)
  }

  /** Every item of the first `n` plans holds that plan's text. */
  ghost predicate Holds(items: Items, plans: Table, n: nat)
    requires n <= MAX_RECORD_PLAN_NUM
  {
    forall i, k | 0 <= i < n :: ItemName(i, k) in items && items[ItemName(i, k)] == Text(plans[i], k)
  }

  /** One plan's four items are set; nothing else changes. */
  function SavePlan(items: Items, i: nat, p: PlanEntry): Items
    requires i < MAX_RECORD_PLAN_NUM && Savable(p)
  {
    items[ItemName(i, Run) := Text(p, Run)]
         [ItemName(i, StartTime) := Text(p, StartTime)]
         [ItemName(i, EndTime) := Text(p, EndTime)]
         [ItemName(i, WeekActive) := Text(p, WeekActive)]
  }

  lemma SavedItem(items: Items, i: nat, p: PlanEntry, j: nat, k: Kind)
    requires i < MAX_RECORD_PLAN_NUM && j < MAX_RECORD_PLAN_NUM && Savable(p)
    requires j != i ==> ItemName(j, k) in items
    ensures var after := SavePlan(items, i, p);
            ItemName(j, k) in after
            && after[ItemName(j, k)] == if j == i then Text(p, k) else items[ItemName(j, k)]
  {
    hide ItemName, Text;
    NamesDiffer(j, k, i, Run);
    NamesDiffer(j, k, i, StartTime);
    NamesDiffer(j, k, i, EndTime);
    NamesDiffer(j, k, i, WeekActive);
    match k
    case Run =>
    case StartTime =>
    case EndTime =>
    case WeekActive =>
  }

  lemma {:induction false} SavePlanHolds(items: Items, plans: Table, i: nat)
    requires i < MAX_RECORD_PLAN_NUM && Holds(items, plans, i)
    ensures Holds(SavePlan(items, i, plans[i]), plans, i + 1)
  {
    hide ItemName, Text, SavePlan;
    var after := SavePlan(items, i, plans[i]);
    forall j, k | 0 <= j < i + 1 ensures ItemName(j, k) in after && after[ItemName(j, k)] == Text(plans[j], k) {
      SavedItem(items, i, plans[i], j, k);
    }
  }

  /** The items that belong to the plan table. */
  ghost predicate PlanItem(name: string) {
    exists i: nat, k :: i < MAX_RECORD_PLAN_NUM && name == ItemName(i, k)
  }

  /** All other items are as they were. */
  ghost predicate OthersKept(before: Items, after: Items) {
    forall name | !PlanItem(name) ::
      (name in after <==> name in before) && (name in before ==> after[name] == before[name])
  }

  lemma SavePlanKeepsOthers(items: Items, i: nat, p: PlanEntry)
    requires i < MAX_RECORD_PLAN_NUM && Savable(p)
    ensures OthersKept(items, SavePlan(items, i, p))
  {
    hide ItemName, Text;
    assert forall k :: PlanItem(ItemName(i, k));
  }

  lemma TextOf(p: PlanEntry)
    requires Savable(p)
    ensures Text(p, Run) == IntText(p.active) && Text(p, StartTime) == ClockText(p.startTime)
    ensures Text(p, EndTime) == ClockText(p.endTime) && Text(p, WeekActive) == WeekText(p.week)
  {
  }

  /** The configuration library. */
  class Config {
    var items: Items

    constructor ()
      ensures items == map[]
    {
      items := map[];
    }

    method SetItemValue(name: string, value: string)
      modifies this
      ensures items == old(items)[name := value]
    {
      items := items[name := value];
    }

    /** A missing item leaves the buffer as it was. */
    method GetItemValue(name: string, buffer: string) returns (value: string)
      ensures value == if name in items then items[name] else buffer
    {
      value := if name in items then items[name] else buffer;
    }

    /** `ak_config_set_record_plan`; the source writes the three plans out. */
    method AkConfigSetRecordPlan(plans: Table)
      modifies this
      ensures Holds(items, plans, MAX_RECORD_PLAN_NUM) && OthersKept(old(items), items)
    {
      hide ItemName, Suffix, Text, WeekText, ClockText, IntText, PlanItem;
      for i := 0 to MAX_RECORD_PLAN_NUM
        invariant Holds(items, plans, i) && OthersKept(old(items), items)
      {
        var p := plans[i];
        ghost var before := items;
        SetItemValue(ItemName(i, Run), IntText(p.active));
        SetItemValue(ItemName(i, StartTime), ClockText(p.startTime));
        SetItemValue(ItemName(i, EndTime), ClockText(p.endTime));
        var week := new int[DAY_PER_WEEK](d requires 0 <= d < DAY_PER_WEEK => p.week[d]);
        assert week[..] == p.week;
        var value := GetWeekConfigInfoStr(week);
        SetItemValue(ItemName(i, WeekActive), value);
        TextOf(p);
        assert items == SavePlan(before, i, p);
        SavePlanHolds(before, plans, i);
        SavePlanKeepsOthers(before, i, p);
      }
    }

    /** The plan part of `init_record`.  `buffer` is what was read before the plans; an
        item that is missing is read as whatever the buffer still holds, which after a
        clock is the text before its first colon. */
    method InitRecordPlans(buffer: string) returns (plans: seq<PlanEntry>)
      requires forall i | 0 <= i < MAX_RECORD_PLAN_NUM :: Loadable(items, i, buffer)
      ensures |plans| == MAX_RECORD_PLAN_NUM
      ensures forall i | 0 <= i < MAX_RECORD_PLAN_NUM :: plans[i] == LoadPlan(items, i, buffer)
    {
      hide ItemName, Loadable, LoadPlan, BufferBefore;
      var value := buffer;
      plans := [];
      BufferAtStart(items, buffer);
      for i := 0 to MAX_RECORD_PLAN_NUM
        invariant |plans| == i && value == BufferBefore(items, i, buffer)
        invariant forall j | 0 <= j < i :: plans[j] == LoadPlan(items, j, buffer)
      {
        var p;
        p, value := LoadOne(i, value, buffer);
        plans := plans + [p];
      }
    }

    method LoadOne(i: nat, value: string, ghost buffer: string) returns (p: PlanEntry, value': string)
      requires i < MAX_RECORD_PLAN_NUM && Loadable(items, i, buffer) && value == BufferBefore(items, i, buffer)
      ensures p == LoadPlan(items, i, buffer) && value' == BufferBefore(items, i + 1, buffer)
    {
      hide ItemName, SaveWeek, ClockSeconds, ClockLeft, Readable;
      value' := GetItemValue(ItemName(i, WeekActive), value);
      var week := new int[DAY_PER_WEEK](d => 0);
      assert week[..] == NO_DAYS;
      SaveWeekConfigInfo(value', week);
      var w: Week := week[..];
      value' := GetItemValue(ItemName(i, Run), value');
      var active := Atoi(value');
      value' := GetItemValue(ItemName(i, StartTime), value');
      var start, end;
      start, value' := DayClockToSeconds(value');
      value' := GetItemValue(ItemName(i, EndTime), value');
      end, value' := DayClockToSeconds(value');
      p := PlanEntry(active, w, start, end);
    }
  }

  /** What the buffer holds after asking for an item. */
  function Got(items: Items, name: string, buffer: string): string {
    if name in items then items[name] else buffer
  }

  /** The buffer before plan `i` is read. */
  function BufferBefore(items: Items, i: nat, buffer: string): string
    requires i <= MAX_RECORD_PLAN_NUM
  {
    if i == 0 then buffer else ClockLeft(EndValue(items, i - 1, BufferBefore(items, i - 1, buffer)))
  }

  function WeekValue(items: Items, i: nat, b: string): string
    requires i < MAX_RECORD_PLAN_NUM
  {
    Got(items, ItemName(i, WeekActive), b)
  }

  function RunValue(items: Items, i: nat, b: string): string
    requires i < MAX_RECORD_PLAN_NUM
  {
    Got(items, ItemName(i, Run), WeekValue(items, i, b))
  }

  function StartValue(items: Items, i: nat, b: string): string
    requires i < MAX_RECORD_PLAN_NUM
  {
    Got(items, ItemName(i, StartTime), RunValue(items, i, b))
  }

  function EndValue(items: Items, i: nat, b: string): string
    requires i < MAX_RECORD_PLAN_NUM
  {
    Got(items, ItemName(i, EndTime), ClockLeft(StartValue(items, i, b)))
  }

  lemma BufferAtStart(items: Items, buffer: string)
    ensures BufferBefore(items, 0, buffer) == buffer
  {
  }

  /** No single day of the week text is a negative number. */
  predicate Loadable(items: Items, i: nat, buffer: string)
    requires i < MAX_RECORD_PLAN_NUM
  {
    Readable(WeekValue(items, i, BufferBefore(items, i, buffer)))
  }

  function LoadPlan(items: Items, i: nat, buffer: string): PlanEntry
    requires i < MAX_RECORD_PLAN_NUM && Loadable(items, i, buffer)
  {
    var b := BufferBefore(items, i, buffer);
    PlanEntry(Atoi(RunValue(items, i, b)),
              SaveWeek(WeekValue(items, i, b), 0, NO_DAYS),
              ClockSeconds(StartValue(items, i, b)),
              ClockSeconds(EndValue(items, i, b)))
  }

  /** A plan whose start time is there but whose end time is missing ends at midnight:
      what is left of the start time has no colon. */
  lemma MissingEndIsMidnight(items: Items, i: nat, buffer: string)
    requires i < MAX_RECORD_PLAN_NUM && Loadable(items, i, buffer)
    requires ItemName(i, StartTime) in items && CountColons(items[ItemName(i, StartTime)]) >= 2
    requires ItemName(i, EndTime) !in items
    ensures LoadPlan(items, i, buffer).endTime == 0
  {
    hide ItemName, SaveWeek;
    var clock := items[ItemName(i, StartTime)];
    CutHasNoColon(clock);
  }

  /** A missing item is read from what the buffer holds: the flag of a plan from the week
      before it, the start time from the flag, and the first plan's week from what was
      read before the plans. */
  lemma MissingItemsReadBuffer(items: Items, i: nat, buffer: string)
    requires i < MAX_RECORD_PLAN_NUM && Loadable(items, i, buffer)
    ensures ItemName(i, WeekActive) in items && ItemName(i, Run) !in items ==>
              LoadPlan(items, i, buffer).active == Atoi(items[ItemName(i, WeekActive)])
    ensures ItemName(i, Run) in items && ItemName(i, StartTime) !in items ==>
              LoadPlan(items, i, buffer).startTime == ClockSeconds(items[ItemName(i, Run)])
    ensures i == 0 && ItemName(0, WeekActive) !in items ==>
              Readable(buffer) && LoadPlan(items, 0, buffer).week == SaveWeek(buffer, 0, NO_DAYS)
  {
    hide ItemName, SaveWeek, Readable, ClockSeconds, Atoi;
  }

  lemma {:induction false} CutHasNoColon(s: string)
    ensures CountColons(s[..Colon(s)]) == 0
  {
    if s != "" && s[0] != ':' {
      CutHasNoColon(s[1..]);
      assert s[..Colon(s)] == [s[0]] + s[1..][..Colon(s[1..])];
      CountCons(s[..Colon(s)]);
      assert s[..Colon(s)][1..] == s[1..][..Colon(s[1..])];
    } else {
      assert s[..Colon(s)] == "";
    }
  }

  predicate Regular(p: PlanEntry) {
    && (forall d | 0 <= d < DAY_PER_WEEK :: p.week[d] == 0 || p.week[d] == 1)
    && 0 <= p.startTime < SECONDS_PER_DAY && 0 <= p.endTime < SECONDS_PER_DAY
  }

  lemma {:induction false} PlanRoundTrip(items: Items, plans: Table, i: nat, buffer: string)
    requires i < MAX_RECORD_PLAN_NUM && Holds(items, plans, MAX_RECORD_PLAN_NUM) && Regular(plans[i])
    ensures Loadable(items, i, buffer) && LoadPlan(items, i, buffer) == plans[i]
  {
    hide ItemName, SaveWeek, WeekText, ClockSeconds, ClockText, Readable, BufferBefore;
    var p := plans[i];
    assert items[ItemName(i, Run)] == Text(p, Run) && items[ItemName(i, StartTime)] == Text(p, StartTime);
    assert items[ItemName(i, EndTime)] == Text(p, EndTime) && items[ItemName(i, WeekActive)] == Text(p, WeekActive);
    AtoiIntText(p.active);
    WeekRoundTrip(p.week);
    ClockRoundTrip(p.startTime);
    ClockRoundTrip(p.endTime);
  }

  /** Saving a plan table and loading it again gives the same table, whatever the
      configuration held before, and whatever was read before it. */
  method SaveAndReload(config: Config, plans: Table, buffer: string) returns (loaded: seq<PlanEntry>)
    requires forall i | 0 <= i < MAX_RECORD_PLAN_NUM :: Regular(plans[i])
    modifies config
    ensures loaded == plans && OthersKept(old(config.items), config.items)
  {
    hide ItemName, Loadable, LoadPlan, Holds, Regular;
    config.AkConfigSetRecordPlan(plans);
    forall i | 0 <= i < MAX_RECORD_PLAN_NUM
      ensures Loadable(config.items, i, buffer) && LoadPlan(config.items, i, buffer) == plans[i]
    {
      PlanRoundTrip(config.items, plans, i, buffer);
    }
    loaded := config.InitRecordPlans(buffer);
  }
}
