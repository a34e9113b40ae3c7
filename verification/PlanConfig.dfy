/** How the record plans are kept in the configuration: clock times and sets of week
    days as text. */
module PlanConfig {
  import opened CText
  import opened RecordPlan

  const STR_BUF := 20

  // ----------------------------------------------------------------- clock times

  function CountColons(s: string): nat {
    if s == "" then 0 else CountColons(s[..|s| - 1]) + if s[|s| - 1] == ':' then 1 else 0
  }

  /** `strchr(s, ':')`, as an index; the length if there is none. */
  function Colon(s: string): (n: nat)
    ensures n <= |s| && (n < |s| ==> s[n] == ':')
  {
    if s == "" || s[0] == ':' then 0 else 1 + Colon(s[1..])
  }

  /** Hours, minutes and seconds past their range count as the last of it. */
  function Clamped(hour: int, min: int, sec: int): int {
    (if hour >= 24 then 23 else hour) * 3600 + (if min >= 60 then 59 else min) * 60 + if sec >= 60 then 59 else sec
  }

  function ClockSeconds(clock: string): int {
    if CountColons(clock) < 2 then 0
    else
      var i := Colon(clock);
      if i == |clock| then 0
      else
        var rest := clock[i + 1..];
        var j := Colon(rest);
        if j == |rest| then 0
        else Clamped(Atoi(clock[..i]), Atoi(rest[..j]), Atoi(rest[j + 1..]))
  }

  lemma {:induction false} ColonFound(s: string)
    ensures CountColons(s) == 0 <==> Colon(s) == |s|
    ensures Colon(s) < |s| ==> CountColons(s) == 1 + CountColons(s[Colon(s) + 1..])
  {
    if s != "" {
      CountCons(s);
      if s[0] != ':' {
        ColonFound(s[1..]);
        assert Colon(s) < |s| ==> s[1..][Colon(s[1..]) + 1..] == s[Colon(s) + 1..];
      }
    }
  }

  lemma {:induction false} CountCons(s: string)
    requires s != ""
    ensures CountColons(s) == CountColons(s[1..]) + if s[0] == ':' then 1 else 0
  {
    if |s| > 1 {
      CountCons(s[..|s| - 1]);
      assert s[..|s| - 1][1..] == s[1..][..|s| - 2];
    } else {
      assert s[..0] == "" && s[1..] == "";
    }
  }

  /** `strchr` */
  method FindColon(s: string) returns (n: nat)
    ensures n == Colon(s)
  {
    n := 0;
    assert s[0..] == s;
    while n < |s| && s[n] != ':'
      invariant n <= |s| && Colon(s) == n + Colon(s[n..])
    {
      assert s[n..][1..] == s[n + 1..];
      n := n + 1;
    }
  }

  /** What is left of a clock text once it was parsed: the source writes NULs over its
      first two colons, so it ends at the first. */
  function ClockLeft(clock: string): string {
    if CountColons(clock) < 2 then clock else clock[..Colon(clock)]
  }

  /** `day_clock_to_seconds`; `left` is what its argument holds afterwards. */
  method DayClockToSeconds(clock: string) returns (seconds: int, left: string)
    ensures seconds == ClockSeconds(clock) && left == ClockLeft(clock)
  {
    hide Atoi, CountColons, Colon;
    var colonNum, rest := 0, clock;
    ColonFound(clock);
    var tmp := FindColon(rest);
    while tmp < |rest|
      invariant tmp == Colon(rest) && CountColons(clock) == colonNum + CountColons(rest)
      decreases |rest|
    {
      ColonFound(rest);
      colonNum := colonNum + 1;
      rest := rest[tmp + 1..];
      tmp := FindColon(rest);
    }
    ColonFound(rest);
    if colonNum < 2 {
      return 0, clock;
    }
    var minTmp := FindColon(clock);
    left := clock[..minTmp];
    var hour := Atoi(left);
    if hour >= 24 {
      hour := 23;
    }
    var after := clock[minTmp + 1..];
    ColonFound(after);
    var secTmp := FindColon(after);
    var min, sec := Atoi(after[..secTmp]), Atoi(after[secTmp + 1..]);
    if min >= 60 {
      min := 59;
    }
    if sec >= 60 {
      sec := 59;
    }
    seconds := hour * 60 * 60 + min * 60 + sec;
  }

  /** `day_second_to_string` of a time that is not negative */
  function ClockText(second: nat): string {
    Padded(second / 3600) + ":" + (Padded(second % 3600 / 60) + ":" + Padded(second % 60))
  }

  lemma {:induction false} ColonAfter(a: string, b: string)
    requires ':' !in a
    ensures Colon(a + ":" + b) == |a|
  {
    if a == "" {
      assert (a + ":" + b)[0] == ':';
    } else {
      ColonAfter(a[1..], b);
      assert (a + ":" + b)[1..] == a[1..] + ":" + b;
    }
  }

  lemma NoColon(n: nat)
    ensures ':' !in Padded(n)
  {
  }

  /** A time of day survives being written and read. */
  lemma ClockRoundTrip(second: nat)
    requires second < SECONDS_PER_DAY
    ensures ClockSeconds(ClockText(second)) == second
  {
    hide Padded, Atoi, CountColons, Colon;
    var h, m, s := second / 3600, second % 3600 / 60, second % 60;
    AtoiPadded(h, "");
    AtoiPadded(m, "");
    AtoiPadded(s, "");
    assert Padded(h) + "" == Padded(h) && Padded(m) + "" == Padded(m) && Padded(s) + "" == Padded(s);
    NoColon(h);
    NoColon(m);
    ThreeParts(Padded(h), Padded(m), Padded(s));
    assert h < 24 && m < 60 && s < 60 && second == h * 3600 + m * 60 + s;
  }

  lemma {:induction false} ThreeParts(a: string, b: string, c: string)
    requires ':' !in a && ':' !in b
    ensures ClockSeconds(a + ":" + (b + ":" + c)) == Clamped(Atoi(a), Atoi(b), Atoi(c))
  {
    hide Atoi, CountColons, Colon;
    var text, rest := a + ":" + (b + ":" + c), b + ":" + c;
    ColonAfter(a, rest);
    ColonAfter(b, c);
    assert text[..|a|] == a && text[|a| + 1..] == rest;
    assert rest[..|b|] == b && rest[|b| + 1..] == c;
    ColonFound(text);
    ColonFound(rest);
  }

  /** Any clock text of three numbers, in or out of range: an hour past 23 counts as 23,
      a minute or second past 59 as 59. */
  lemma ClockOfNumbers(h: nat, m: nat, s: nat)
    ensures ClockSeconds(Padded(h) + ":" + (Padded(m) + ":" + Padded(s)))
            == (if h > 23 then 23 else h) * 3600 + (if m > 59 then 59 else m) * 60 + if s > 59 then 59 else s
  {
    hide Padded, Atoi, CountColons, Colon;
    AtoiPadded(h, "");
    AtoiPadded(m, "");
    AtoiPadded(s, "");
    assert Padded(h) + "" == Padded(h) && Padded(m) + "" == Padded(m) && Padded(s) + "" == Padded(s);
    NoColon(h);
    NoColon(m);
    ThreeParts(Padded(h), Padded(m), Padded(s));
  }

  /** The example of the source's own comments. */
  lemma ClockExample()
    ensures ClockText(24320) == " 6:45:20"
  {
    assert Padded(6) == " 6" && Decimal(4) == "4" && Decimal(2) == "2";
    assert Padded(45) == "45" && Padded(20) == "20";
  }

  // -------------------------------------------------------------------- week days

  function EnableDay(dayIndex: nat, week: Week): Week {
    if dayIndex >= DAY_PER_WEEK then week[0 := 1] else week[dayIndex := 1]
  }

  function EnableRange(from: nat, to: int, week: Week): Week
    decreases to - from
  {
    if from > to then week else EnableRange(from + 1, to, EnableDay(from, week))
  }

  function AtMost7(d: int): int {
    if d > 7 then 7 else d
  }

  function AtLeast1(d: int): nat {
    if d < 1 then 1 else d
  }

  /** Reading `value` from position `i` on. */
  function SaveWeek(value: string, i: nat, week: Week): Week
    requires Readable(value)
    decreases |value| - i
  {
    if i >= |value| then week
    else if value[i] == '-' then
      if i == 0 then SaveWeek(value, 1, week)
      else
        var to := AtMost7(Atoi(value[i + 1..]));
        SaveWeek(value, i + 2, EnableRange(AtLeast1(Atoi(value[i - 1..])), to, week))
    else if value[i] == ',' then SaveWeek(value, i + 1, week)
    else SaveWeek(value, i + 1, EnableDay(Atoi(value[i..]), week))
  }

  /** Where the source takes a single day, it must not be a negative number: it would
      be an index before the array. */
  predicate Readable(value: string) {
    forall i | 0 <= i < |value| && value[i] !in {'-', ','} :: Atoi(value[i..]) >= 0
  }

  /** `enable_week_day` */
  method EnableWeekDay(dayIndex: nat, week: array<int>)
    requires week.Length == DAY_PER_WEEK
    modifies week
    ensures week[..] == EnableDay(dayIndex, old(week[..]))
    ensures week[..] == old(week[..])[(if dayIndex > 6 then 0 else dayIndex) := 1]
  {
    if dayIndex >= DAY_PER_WEEK {
      week[0] := 1;
    } else {
      week[dayIndex] := 1;
    }
  }

  /** `save_week_config_info` */
  method SaveWeekConfigInfo(value: string, week: array<int>)
    requires week.Length == DAY_PER_WEEK && Readable(value)
    modifies week
    ensures week[..] == SaveWeek(value, 0, old(week[..]))
  {
    hide EnableRange, EnableDay, Atoi;
    var i := 0;
    while i < |value|
      invariant SaveWeek(value, 0, old(week[..])) == SaveWeek(value, i, week[..])
      decreases |value| - i
    {
      if value[i] == '-' {
        if i != 0 {
          var startDay := Atoi(value[i - 1..]);
          var endDay := Atoi(value[i + 1..]);
          if startDay < 1 {
            startDay := 1;
          }
          if endDay > 7 {
            endDay := 7;
          }
          EnableDays(startDay, endDay, week);
          i := i + 1;
        }
      } else if value[i] != ',' {
        EnableWeekDay(Atoi(value[i..]), week);
      }
      i := i + 1;
    }
  }

  /** The loop over a range, both ends included. */
  method EnableDays(startDay: nat, endDay: int, week: array<int>)
    requires week.Length == DAY_PER_WEEK
    modifies week
    ensures week[..] == EnableRange(startDay, endDay, old(week[..]))
  {
    var index: nat := startDay;
    while index <= endDay
      invariant EnableRange(startDay, endDay, old(week[..])) == EnableRange(index, endDay, week[..])
      decreases endDay - index
    {
      EnableWeekDay(index, week);
      index := index + 1;
    }
  }

  // ---------------------------------------------------- lists of days and ranges

  datatype Item = Day(d: nat) | Range(a: nat, b: nat)

  predicate GoodItem(it: Item) {
    match it
    case Day(d) => 1 <= d <= 7
    case Range(a, b) => 1 <= a <= 7 && 1 <= b <= 7
  }

  predicate GoodItems(items: seq<Item>) {
    forall i | 0 <= i < |items| :: GoodItem(items[i])
  }

  function ItemText(it: Item): string
    requires GoodItem(it)
  {
    match it
    case Day(d) => [Digit(d)]
    case Range(a, b) => [Digit(a), '-', Digit(b)]
  }

  function ListText(items: seq<Item>): (s: string)
    requires GoodItems(items)
    ensures items != [] ==> s != ""
  {
    if items == [] then ""
    else if |items| == 1 then ItemText(items[0])
    else ItemText(items[0]) + "," + ListText(items[1..])
  }

  /** Index `k` of the week, Sunday being 0, is one of the days of the item. */
  predicate Denotes(it: Item, k: nat) {
    match it
    case Day(d) => d % 7 == k
    case Range(a, b) => a % 7 == k || exists x | a <= x <= b :: x % 7 == k
  }

  function Mark(it: Item, week: Week): Week {
    match it
    case Day(d) => EnableDay(d, week)
    case Range(a, b) => EnableRange(a, b, EnableDay(a, week))
  }

  function MarkAll(items: seq<Item>, week: Week): Week {
    if items == [] then week else MarkAll(items[1..], Mark(items[0], week))
  }

  lemma AtoiDigit(d: nat, rest: string)
    requires d < 10 && (rest == "" || !IsDigit(rest[0]))
    ensures Atoi([Digit(d)] + rest) == d
  {
    AtoiDecimal(d, rest);
  }

  lemma AtoiOfDigit(s: string)
    requires s != "" && IsDigit(s[0])
    ensures Atoi(s) >= 0
  {
  }

  lemma {:induction false} ListTextAlphabet(items: seq<Item>)
    requires GoodItems(items)
    ensures forall c | c in ListText(items) :: IsDigit(c) || c == '-' || c == ','
  {
    if |items| > 1 {
      ListTextAlphabet(items[1..]);
    }
  }

  lemma {:induction false} ListTextReadable(items: seq<Item>)
    requires GoodItems(items)
    ensures Readable(ListText(items))
  {
    var value := ListText(items);
    ListTextAlphabet(items);
    forall i | 0 <= i < |value| && value[i] !in {'-', ','} ensures Atoi(value[i..]) >= 0 {
      assert value[i] in value;
      AtoiOfDigit(value[i..]);
    }
  }

  /** One day: the digit is taken, whatever follows it. */
  lemma SaveDay(value: string, i: nat, d: nat, rest: string, week: Week)
    requires Readable(value) && i <= |value| && 1 <= d <= 7
    requires value[i..] == [Digit(d)] + rest && (rest == "" || !IsDigit(rest[0]))
    ensures SaveWeek(value, i, week) == SaveWeek(value, i + 1, EnableDay(d, week))
    ensures value[i + 1..] == rest
  {
    AtoiDigit(d, rest);
    assert value[i] == value[i..][0];
    assert value[i + 1..] == value[i..][1..];
  }

  lemma DashStep(value: string, i: nat, week: Week)
    requires Readable(value) && 0 < i < |value|
    ensures value[i] == value[i..][0]
    ensures value[i] == '-' ==>
              SaveWeek(value, i, week) ==
              SaveWeek(value, i + 2, EnableRange(AtLeast1(Atoi(value[i - 1..])), AtMost7(Atoi(value[i + 1..])), week))
  {
  }

  /** The rest of a range, after its first day was taken as a day of its own. */
  lemma {:induction false} SaveRest(value: string, i: nat, a: nat, b: nat, rest: string, week: Week)
    requires Readable(value) && 0 < i <= |value| && 1 <= a <= 7 && 1 <= b <= 7
    requires value[i..] == ['-', Digit(b)] + rest && value[i - 1] == Digit(a)
    requires rest == "" || !IsDigit(rest[0])
    ensures SaveWeek(value, i, week) == SaveWeek(value, i + 2, EnableRange(a, b, week))
    ensures value[i + 2..] == rest
  {
    hide SaveWeek, EnableRange, Readable, Atoi;
    DashStep(value, i, week);
    assert value[i + 1..] == [Digit(b)] + rest by { assert value[i + 1..] == value[i..][1..]; }
    assert value[i - 1..] == [Digit(a)] + value[i..];
    AtoiDigit(b, rest);
    AtoiDigit(a, value[i..]);
    assert value[i + 2..] == value[i..][2..];
  }

  lemma SaveItem(value: string, i: nat, it: Item, rest: string, week: Week)
    requires Readable(value) && i <= |value| && GoodItem(it)
    requires value[i..] == ItemText(it) + rest && (rest == "" || rest[0] == ',')
    ensures SaveWeek(value, i, week) == SaveWeek(value, i + |ItemText(it)|, Mark(it, week))
    ensures value[i + |ItemText(it)|..] == rest
  {
    hide SaveWeek, Readable;
    match it
    case Day(d) => SaveDay(value, i, d, rest, week);
    case Range(a, b) =>
      var tail := ['-', Digit(b)] + rest;
      assert ItemText(it) + rest == [Digit(a)] + tail;
      SaveDay(value, i, a, tail, week);
      assert value[i] == value[i..][0];
      SaveRest(value, i + 1, a, b, rest, EnableDay(a, week));
  }

  lemma SaveComma(value: string, i: nat, week: Week)
    requires Readable(value) && i < |value| && value[i] == ','
    ensures SaveWeek(value, i, week) == SaveWeek(value, i + 1, week)
  {
  }

  lemma SaveEnd(value: string, i: nat, week: Week)
    requires Readable(value) && i <= |value| && value[i..] == ""
    ensures SaveWeek(value, i, week) == week
  {
  }

  lemma ListStep(items: seq<Item>)
    requires GoodItems(items) && items != []
    ensures GoodItem(items[0]) && GoodItems(items[1..])
    ensures ListText(items) == ItemText(items[0]) + if |items| == 1 then "" else "," + ListText(items[1..])
  {
    hide ItemText, GoodItem;
    if |items| == 1 {
      assert ItemText(items[0]) + "" == ItemText(items[0]);
    } else {
      var a, more := ItemText(items[0]), ListText(items[1..]);
      assert a + "," + more == a + ("," + more);
    }
  }

  lemma NoneMarked(items: seq<Item>, week: Week)
    requires items == []
    ensures MarkAll(items, week) == week
  {
  }

  lemma MarkStep(items: seq<Item>, week: Week)
    requires items != []
    ensures MarkAll(items, week) == MarkAll(items[1..], Mark(items[0], week))
  {
  }

  lemma AfterComma(value: string, j: nat, more: string)
    requires j <= |value| && value[j..] == "," + more
    ensures j < |value| && value[j] == ',' && value[j + 1..] == more
  {
    assert value[j] == value[j..][0] && value[j + 1..] == value[j..][1..];
  }

  lemma EmptyList()
    ensures ListText([]) == ""
  {
  }

  lemma {:induction false} SaveItems(value: string, i: nat, items: seq<Item>, week: Week)
    requires Readable(value) && i <= |value| && GoodItems(items)
    requires value[i..] == ListText(items)
    ensures SaveWeek(value, i, week) == MarkAll(items, week)
    decreases |items|
  {
    hide SaveWeek, Readable, ItemText, Mark, MarkAll, ListText, GoodItem, GoodItems;
    if items == [] {
      EmptyList();
      SaveEnd(value, i, week);
      NoneMarked(items, week);
    } else {
      ListStep(items);
      MarkStep(items, week);
      var it, tail, week' := items[0], items[1..], Mark(items[0], week);
      var rest := if |items| == 1 then "" else "," + ListText(tail);
      SaveItem(value, i, it, rest, week);
      var j := i + |ItemText(it)|;
      if |items| == 1 {
        SaveEnd(value, j, week');
        NoneMarked(tail, week');
      } else {
        AfterComma(value, j, ListText(tail));
        SaveComma(value, j, week');
        SaveItems(value, j + 1, tail, week');
      }
    }
  }

  lemma {:induction false} EnableRangeMarks(a: nat, b: int, week: Week, k: nat)
    requires 1 <= a && b <= 7 && k < 7
    ensures EnableRange(a, b, week)[k] == if exists x | a <= x <= b :: x % 7 == k then 1 else week[k]
    decreases b - a
  {
    if a <= b {
      EnableRangeMarks(a + 1, b, EnableDay(a, week), k);
      assert (exists x | a <= x <= b :: x % 7 == k) <==> a % 7 == k || exists x | a + 1 <= x <= b :: x % 7 == k;
    }
  }

  lemma MarkMarks(it: Item, week: Week, k: nat)
    requires GoodItem(it) && k < 7
    ensures Mark(it, week)[k] == if Denotes(it, k) then 1 else week[k]
  {
    if it.Range? {
      EnableRangeMarks(it.a, it.b, EnableDay(it.a, week), k);
    }
  }

  predicate AnyDenotes(items: seq<Item>, k: nat) {
    exists i | 0 <= i < |items| :: Denotes(items[i], k)
  }

  lemma AnyOf(it: Item, rest: seq<Item>, k: nat)
    ensures AnyDenotes([it] + rest, k) <==> Denotes(it, k) || AnyDenotes(rest, k)
  {
    hide Denotes;
    var items := [it] + rest;
    assert items[0] == it;
    if j :| 0 <= j < |rest| && Denotes(rest[j], k) { assert items[j + 1] == rest[j]; }
    if j :| 0 < j < |items| && Denotes(items[j], k) { assert items[j] == rest[j - 1]; }
  }

  lemma {:induction false} MarkAllMarks(items: seq<Item>, week: Week, k: nat)
    requires GoodItems(items) && k < 7
    ensures MarkAll(items, week)[k] == if AnyDenotes(items, k) then 1 else week[k]
  {
    if items != [] {
      hide Denotes, Mark;
      MarkMarks(items[0], week, k);
      MarkAllMarks(items[1..], Mark(items[0], week), k);
      AnyOf(items[0], items[1..], k);
      assert [items[0]] + items[1..] == items;
    }
  }

  /** A list of days and ranges, of any length, sets exactly the days it names, the
      seventh at index 0. */
  lemma {:induction false} SavedDays(items: seq<Item>, k: nat)
    requires GoodItems(items) && k < 7
    ensures Readable(ListText(items))
    ensures SaveWeek(ListText(items), 0, NO_DAYS)[k]
            == if AnyDenotes(items, k) then 1 else 0
  {
    hide SaveWeek, Readable, ListText, MarkAll, AnyDenotes, GoodItems;
    SavedList(items, NO_DAYS);
    MarkAllMarks(items, NO_DAYS, k);
  }

  lemma {:induction false} SavedList(items: seq<Item>, week: Week)
    requires GoodItems(items)
    ensures Readable(ListText(items)) && SaveWeek(ListText(items), 0, week) == MarkAll(items, week)
  {
    ListTextReadable(items);
    assert ListText(items)[0..] == ListText(items);
    SaveItems(ListText(items), 0, items, week);
  }

  // ------------------------------------------------------------------ printing

  /** Day `i` of 1 to 7 is on; the seventh is kept at index 0. */
  predicate On(week: Week, i: nat) {
    week[i % 7] == 1
  }

  /** The last day of the unbroken run that day `i` belongs to. */
  function RunEnd(week: Week, i: nat): (e: nat)
    requires 1 <= i <= 7 && On(week, i)
    ensures i <= e <= 7 && (forall x | i <= x <= e :: On(week, x)) && (e < 7 ==> !On(week, e + 1))
    decreases 7 - i
  {
    if i < 7 && On(week, i + 1) then RunEnd(week, i + 1) else i
  }

  /** The runs of days from day `i` on, a run of one as a day, a longer one as a range. */
  function Runs(week: Week, i: nat): (items: seq<Item>)
    requires 1 <= i
    ensures GoodItems(items)
    decreases 8 - i
  {
    if i > 7 then []
    else if !On(week, i) then Runs(week, i + 1)
    else
      var e := RunEnd(week, i);
      [if e == i then Day(i) else Range(i, e)] + Runs(week, e + 1)
  }

  /** The day, 1 to 7, that is kept at index `k`. */
  function DayAt(k: nat): nat {
    if k == 0 then 7 else k
  }

  lemma RunDenotes(a: nat, b: nat, k: nat)
    requires 1 <= a <= b <= 7 && k < 7
    ensures Denotes(if a == b then Day(a) else Range(a, b), k) <==> a <= DayAt(k) <= b
  {
    assert DayAt(k) % 7 == k;
    assert forall x | 1 <= x <= 7 && x % 7 == k :: x == DayAt(k);
  }

  lemma {:induction false} RunsDenote(week: Week, i: nat, k: nat)
    requires 1 <= i && k < 7
    ensures AnyDenotes(Runs(week, i), k) <==> i <= DayAt(k) && week[k] == 1
    decreases 8 - i
  {
    DayOn(week, k);
    if i > 7 {
      assert Runs(week, i) == [];
    } else {
      RunsStep(week, i);
    }
    hide Denotes, AnyDenotes, RunEnd, Runs, On;
    if i > 7 {
      NoneDenotes(k);
    } else if !On(week, i) {
      RunsDenote(week, i + 1, k);
    } else {
      var e := RunEnd(week, i);
      RunsDenote(week, e + 1, k);
      RunDenotes(i, e, k);
      AnyOf(if e == i then Day(i) else Range(i, e), Runs(week, e + 1), k);
    }
  }

  lemma DayOn(week: Week, k: nat)
    requires k < 7
    ensures 1 <= DayAt(k) <= 7 && (On(week, DayAt(k)) <==> week[k] == 1)
  {
  }

  lemma NoneDenotes(k: nat)
    ensures !AnyDenotes([], k)
  {
  }

  /** What the printer writes for a week. */
  function WeekText(week: Week): string {
    ListText(Runs(week, 1))
  }

  /** Monday to Friday as the source writes it. */
  lemma WeekExample()
    ensures WeekText([0, 1, 1, 1, 1, 1, 0]) == "1-5"
  {
    var work: Week := [0, 1, 1, 1, 1, 1, 0];
    assert RunEnd(work, 3) == 5 && RunEnd(work, 1) == 5;
    assert Runs(work, 6) == Runs(work, 8) == [];
    assert Runs(work, 1) == [Range(1, 5)];
  }

  /** Saturday and Sunday. */
  lemma WeekendExample()
    ensures WeekText([1, 0, 0, 0, 0, 0, 1]) == "6-7"
  {
    var off: Week := [1, 0, 0, 0, 0, 0, 1];
    assert Runs(off, 3) == Runs(off, 5) == Runs(off, 6);
    assert Runs(off, 1) == Runs(off, 6) == [Range(6, 7)] + Runs(off, 8) == [Range(6, 7)];
  }

  /** Saving a printed week restores it: every day that is on, and no other. */
  lemma {:induction false} WeekRoundTrip(week: Week)
    requires forall d | 0 <= d < 7 :: week[d] == 0 || week[d] == 1
    ensures Readable(WeekText(week)) && SaveWeek(WeekText(week), 0, NO_DAYS) == week
  {
    hide AnyDenotes, SaveWeek, MarkAll, Readable, Runs, ListText;
    var items := Runs(week, 1);
    SavedList(items, NO_DAYS);
    forall k | 0 <= k < 7 ensures MarkAll(items, NO_DAYS)[k] == week[k] {
      MarkAllMarks(items, NO_DAYS, k);
      RunsDenote(week, 1, k);
    }
  }

  lemma {:induction false} ListTextSnoc(items: seq<Item>, it: Item)
    requires GoodItems(items) && GoodItem(it)
    ensures GoodItems(items + [it])
    ensures ListText(items + [it]) == if items == [] then ItemText(it) else ListText(items) + "," + ItemText(it)
  {
    hide ItemText;
    if items == [] {
      assert items + [it] == [it];
    } else {
      var rest := items[1..];
      ListTextSnoc(rest, it);
      assert (items + [it])[1..] == rest + [it];
      if rest == [] {
        assert rest + [it] == [it];
      } else {
        var a, b, c := ItemText(items[0]), ListText(rest), ItemText(it);
        assert a + "," + (b + "," + c) == (a + "," + b) + "," + c;
      }
    }
  }

  /** A range is its first day, a dash and its last. */
  lemma ListTextClose(items: seq<Item>, a: nat, b: nat)
    requires GoodItems(items) && 1 <= a <= 7 && 1 <= b <= 7
    ensures GoodItems(items + [Day(a)]) && GoodItems(items + [Range(a, b)])
    ensures ListText(items + [Range(a, b)]) == ListText(items + [Day(a)]) + "-" + [Digit(b)]
  {
    ListTextSnoc(items, Day(a));
    ListTextSnoc(items, Range(a, b));
    assert ItemText(Range(a, b)) == ItemText(Day(a)) + "-" + [Digit(b)];
    if items != [] {
      var l, x := ListText(items), ItemText(Day(a));
      assert l + "," + (x + "-" + [Digit(b)]) == (l + "," + x) + "-" + [Digit(b)];
    }
  }

  /** `snprintf` into a buffer of `size` bytes */
  function Cut(s: string, size: nat): string
    requires size > 0
  {
    if |s| < size then s else s[..size - 1]
  }

  /** What the printer has seen of the days before `i`: finished items, and the run
      begun at `left` if there is one. */
  ghost predicate Printing(week: Week, i: nat, items: seq<Item>, left: nat, value: string, firstFlag: bool, leftFlag: bool) {
    && 1 <= i && GoodItems(items)
    && |value| <= 2 * (i - 1)
    && (firstFlag <==> value != "")
    && if leftFlag then
         && 1 <= left < i && left <= 7 && On(week, left) && firstFlag
         && (left < i - 1 ==> i <= 7 && On(week, i) && RunEnd(week, left) >= i)
         && Runs(week, 1) == items + Runs(week, left)
         && GoodItems(items + [Day(left)]) && value == ListText(items + [Day(left)])
       else
         && Runs(week, 1) == items + Runs(week, i)
         && value == ListText(items)
  }

  /** `get_week_config_info_str` */
  method GetWeekConfigInfoStr(week: array<int>) returns (value: string)
    requires week.Length == DAY_PER_WEEK
    ensures value == WeekText(week[..])
  {
    hide Printing, WeekText, Cut, Digit;
    value := "";
    var tmp, firstFlag, leftFlag := "", false, false;
    ghost var items: seq<Item>, left := [], 0;
    PrintingStart(week[..]);
    for i := 1 to 8
      invariant tmp == value
      invariant Printing(week[..], i, items, left, value, firstFlag, leftFlag)
    {
      var dayIndex := i % 7;
      PrintingStep(week[..], i, items, left, value, firstFlag, leftFlag);
      if week[dayIndex] == 1 {
        if !firstFlag {
          value := Cut([Digit(i)], STR_BUF);
          tmp := value;
          leftFlag, firstFlag := true, true;
          left := i;
        } else if leftFlag {
          if i < 7 && week[(i + 1) % 7] == 1 {
            continue;
          }
          value := Cut(tmp + "-" + [Digit(i)], STR_BUF);
          tmp := value;
          leftFlag := false;
          items := items + [Range(left, i)];
        } else {
          value := Cut(tmp + "," + [Digit(i)], STR_BUF);
          tmp := value;
          leftFlag := true;
          left := i;
        }
      } else {
        items := if leftFlag then items + [Day(left)] else items;
        leftFlag := false;
      }
    }
    PrintingEnd(week[..], items, left, value, firstFlag, leftFlag);
  }

  lemma PrintingStart(week: Week)
    ensures Printing(week, 1, [], 0, "", false, false)
  {
  }

  lemma {:induction false} PrintingStep(week: Week, i: nat, items: seq<Item>, left: nat, value: string, firstFlag: bool, leftFlag: bool)
    requires i <= 7 && Printing(week, i, items, left, value, firstFlag, leftFlag)
    ensures week[i % 7] != 1 ==>
              Printing(week, i + 1, if leftFlag then items + [Day(left)] else items, left, value, firstFlag, false)
    ensures week[i % 7] == 1 && leftFlag && i < 7 && week[(i + 1) % 7] == 1 ==>
              firstFlag && Printing(week, i + 1, items, left, value, true, true)
    ensures week[i % 7] == 1 && leftFlag && !(i < 7 && week[(i + 1) % 7] == 1) ==>
              firstFlag
              && Printing(week, i + 1, items + [Range(left, i)], left, Cut(value + "-" + [Digit(i)], STR_BUF), true, false)
    ensures week[i % 7] == 1 && !leftFlag ==>
              Printing(week, i + 1, items, i,
                       Cut(if firstFlag then value + "," + [Digit(i)] else [Digit(i)], STR_BUF), true, true)
  {
    hide Printing, Cut, Digit, Runs, ListText;
    if !On(week, i) {
      PrintingOff(week, i, items, left, value, firstFlag, leftFlag);
    } else if !leftFlag {
      PrintingOpen(week, i, items, left, value, firstFlag, leftFlag);
    } else if i < 7 && On(week, i + 1) {
      PrintingOn(week, i, items, left, value, firstFlag, leftFlag);
    } else {
      PrintingClose(week, i, items, left, value, firstFlag, leftFlag);
    }
  }

  lemma RunsStep(week: Week, i: nat)
    requires 1 <= i <= 7
    ensures Runs(week, i) == if !On(week, i) then Runs(week, i + 1) else
              var e := RunEnd(week, i);
              [if e == i then Day(i) else Range(i, e)] + Runs(week, e + 1)
  {
  }

  lemma Regroup(items: seq<Item>, it: Item, rest: seq<Item>)
    ensures items + ([it] + rest) == items + [it] + rest
  {
  }

  lemma {:induction false} PrintingOff(week: Week, i: nat, items: seq<Item>, left: nat, value: string, firstFlag: bool, leftFlag: bool)
    requires i <= 7 && Printing(week, i, items, left, value, firstFlag, leftFlag)
    requires !On(week, i)
    ensures Printing(week, i + 1, if leftFlag then items + [Day(left)] else items, left, value, firstFlag, false)
  {
    hide ListText, Runs;
    RunsStep(week, i);
    if leftFlag {
      assert left == i - 1 && RunEnd(week, left) == left;
      RunsStep(week, left);
      Regroup(items, Day(left), Runs(week, i));
    }
  }

  lemma PrintingOn(week: Week, i: nat, items: seq<Item>, left: nat, value: string, firstFlag: bool, leftFlag: bool)
    requires i <= 7 && Printing(week, i, items, left, value, firstFlag, leftFlag)
    requires leftFlag && i < 7 && On(week, i) && On(week, i + 1)
    ensures firstFlag && Printing(week, i + 1, items, left, value, true, true)
  {
  }

  lemma {:induction false} PrintingClose(week: Week, i: nat, items: seq<Item>, left: nat, value: string, firstFlag: bool, leftFlag: bool)
    requires i <= 7 && Printing(week, i, items, left, value, firstFlag, leftFlag)
    requires leftFlag && On(week, i) && !(i < 7 && On(week, i + 1))
    ensures firstFlag
            && Printing(week, i + 1, items + [Range(left, i)], left, Cut(value + "-" + [Digit(i)], STR_BUF), true, false)
  {
    hide ListText, Runs;
    RunGoesOn(week, left, i);
    ListTextClose(items, left, i);
    RunsStep(week, left);
    Regroup(items, Range(left, i), Runs(week, i + 1));
  }

  lemma {:induction false} PrintingOpen(week: Week, i: nat, items: seq<Item>, left: nat, value: string, firstFlag: bool, leftFlag: bool)
    requires i <= 7 && Printing(week, i, items, left, value, firstFlag, leftFlag)
    requires !leftFlag && On(week, i)
    ensures Printing(week, i + 1, items, i,
                     Cut(if firstFlag then value + "," + [Digit(i)] else [Digit(i)], STR_BUF), true, true)
  {
    hide Runs;
    ListTextSnoc(items, Day(i));
  }

  lemma RunGoesOn(week: Week, left: nat, i: nat)
    requires 1 <= left < i <= 7 && On(week, left) && On(week, i)
    requires left < i - 1 ==> RunEnd(week, left) >= i
    ensures RunEnd(week, left) >= i
    ensures !(i < 7 && On(week, i + 1)) ==> RunEnd(week, left) == i
    ensures i < 7 && On(week, i + 1) ==> RunEnd(week, left) >= i + 1
  {
  }

  lemma {:induction false} PrintingEnd(week: Week, items: seq<Item>, left: nat, value: string, firstFlag: bool, leftFlag: bool)
    requires Printing(week, 8, items, left, value, firstFlag, leftFlag)
    ensures value == WeekText(week)
  {
    if leftFlag {
      assert left == 7 && Runs(week, 7) == [Day(7)] + Runs(week, 8);
      assert Runs(week, 1) == items + [Day(7)];
    } else {
      assert Runs(week, 1) == items;
    }
  }
}
