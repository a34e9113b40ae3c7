/** Paging the list of recorded files for the cloud: each call hands out the next
    part of the fetched list, files that follow one another closely being reported
    as one record. */
module RecList {
  import opened Wrappers

  /** A recorded file: when it starts, in seconds, and how long it is, in
      milliseconds. */
  datatype File = File(startTime: nat, totalTime: nat)

  datatype Rec = Rec(startTime: int, length: nat)

  function End(r: Rec): int {
    r.startTime + r.length
  }

  // -------------------------------------------------------------------- merging

  /** A file that starts less than two seconds after the last record ends joins it. */
  function Join(recs: seq<Rec>, f: File, zone: int): (r: seq<Rec>)
    ensures |recs| <= |r| <= |recs| + 1 && r != []
  {
    if recs != [] && f.startTime - zone - 2 < End(recs[|recs| - 1]) then
      var last := recs[|recs| - 1];
      recs[..|recs| - 1] + [last.(length := last.length + f.totalTime / 1000)]
    else recs + [Rec(f.startTime - zone, f.totalTime / 1000)]
  }

  function Merge(files: seq<File>, zone: int): (r: seq<Rec>)
    ensures |r| <= |files| && (files != [] ==> r != [])
  {
    if files == [] then [] else Join(Merge(files[..|files| - 1], zone), files[|files| - 1], zone)
  }

  function Lengths(recs: seq<Rec>): nat {
    if recs == [] then 0 else Lengths(recs[..|recs| - 1]) + recs[|recs| - 1].length
  }

  function Seconds(files: seq<File>): nat {
    if files == [] then 0 else Seconds(files[..|files| - 1]) + files[|files| - 1].totalTime / 1000
  }

  /** No second is lost or counted twice. */
  lemma {:induction false} MergeKeepsLength(files: seq<File>, zone: int)
    ensures Lengths(Merge(files, zone)) == Seconds(files)
  {
    if files != [] {
      var before, f := files[..|files| - 1], files[|files| - 1];
      MergeKeepsLength(before, zone);
      var recs, after := Merge(before, zone), Merge(files, zone);
      if |after| == |recs| {
        assert after[..|after| - 1] == recs[..|recs| - 1];
      } else {
        assert after[..|after| - 1] == recs;
      }
    }
  }

  /** Records follow one another with at least two seconds between them. */
  predicate Apart(recs: seq<Rec>) {
    forall i | 0 <= i < |recs| - 1 :: End(recs[i]) + 2 <= recs[i + 1].startTime
  }

  lemma {:induction false} MergeApart(files: seq<File>, zone: int)
    ensures Apart(Merge(files, zone))
  {
    if files != [] {
      MergeApart(files[..|files| - 1], zone);
    }
  }

  /** Every record starts where one of the files does, the first with the first. */
  lemma {:induction false} RecordsStartWithFiles(files: seq<File>, zone: int, i: nat) returns (k: nat)
    requires i < |Merge(files, zone)|
    ensures k < |files| && Merge(files, zone)[i].startTime == files[k].startTime - zone
    ensures i == 0 ==> k == 0
  {
    var before := files[..|files| - 1];
    if i < |Merge(before, zone)| {
      k := RecordsStartWithFiles(before, zone, i);
    } else {
      k := |files| - 1;
    }
  }

  /** Exactly when a file begins a record of its own: it is the first, or starts two
      seconds or more after the last record ends; else its whole seconds go to that
      record. */
  lemma NextFile(files: seq<File>, f: File, zone: int)
    ensures var recs, after := Merge(files, zone), Merge(files + [f], zone);
            if recs == [] || f.startTime - zone >= recs[|recs| - 1].startTime + recs[|recs| - 1].length + 2
            then after == recs + [Rec(f.startTime - zone, f.totalTime / 1000)]
            else && |after| == |recs| && after[..|recs| - 1] == recs[..|recs| - 1]
                 && after[|recs| - 1] == Rec(recs[|recs| - 1].startTime, recs[|recs| - 1].length + f.totalTime / 1000)
  {
    assert (files + [f])[..|files|] == files;
  }

  /** Files that lie two seconds or more apart all stay records of their own. */
  lemma {:induction false} SeparateFilesStay(files: seq<File>, zone: int)
    requires forall i | 0 <= i < |files| - 1 ::
               files[i + 1].startTime >= files[i].startTime + files[i].totalTime / 1000 + 2
    ensures |Merge(files, zone)| == |files|
    ensures forall i | 0 <= i < |files| ::
              Merge(files, zone)[i] == Rec(files[i].startTime - zone, files[i].totalTime / 1000)
  {
    if files != [] {
      var before, f := files[..|files| - 1], files[|files| - 1];
      forall i | 0 <= i < |before| - 1
        ensures before[i + 1].startTime >= before[i].startTime + before[i].totalTime / 1000 + 2
      {
        assert files[i + 1].startTime >= files[i].startTime + files[i].totalTime / 1000 + 2;
      }
      SeparateFilesStay(before, zone);
      NextFile(before, f, zone);
      assert files == before + [f];
      if before != [] {
        assert files[|before| - 1 + 1].startTime >= files[|before| - 1].startTime + files[|before| - 1].totalTime / 1000 + 2;
      }
    }
  }

  /** How far one page reaches: up to the first point where it is full, or to the
      end. */
  predicate PageEnds(files: seq<File>, zone: int, count: nat, n: nat)
    requires n <= |files|
  {
    && |Merge(files[..n], zone)| <= count
    && (n == |files| || |Merge(files[..n], zone)| == count)
    && forall m | 0 <= m < n :: |Merge(files[..m], zone)| < count
  }

  /** `copy_record_info`: skips `cpyIndex` files and fills `info` from the rest. */
  method CopyRecordInfo(files: seq<File>, info: array<Rec>, cpyIndex: nat, cpyCount: nat, zone: int)
    returns (recNum: nat, copied: nat)
    requires cpyIndex <= |files| && cpyCount <= info.Length
    modifies info
    ensures cpyIndex + copied <= |files| && recNum <= cpyCount
    ensures info[..recNum] == Merge(files[cpyIndex..cpyIndex + copied], zone)
    ensures PageEnds(files[cpyIndex..], zone, cpyCount, copied)
    ensures cpyIndex + copied == |files| || recNum == cpyCount
    ensures cpyCount > 0 && cpyIndex < |files| ==> copied > 0
  {
    hide Merge, Join;
    ghost var rest := files[cpyIndex..];
    var index, danaCount := 0, 0;
    copied := 0;
    MergeNone(rest, zone);
    for i := 0 to |files|
      invariant index == i && (if i < cpyIndex then copied == 0 else i == cpyIndex + copied)
      invariant danaCount <= cpyCount && copied <= |rest|
      invariant info[..danaCount] == Merge(rest[..copied], zone)
      invariant forall m | 0 <= m < copied :: |Merge(rest[..m], zone)| < cpyCount
    {
      if index < cpyIndex {
        index := index + 1;
        continue;
      }
      if danaCount >= cpyCount {
        break;
      }
      MergeStep(rest, copied, zone);
      danaCount := PutRecord(info, danaCount, files[i], zone);
      index := index + 1;
      copied := copied + 1;
    }
    recNum := danaCount;
    assert rest[..copied] == files[cpyIndex..cpyIndex + copied];
    assert |rest| == |files| - cpyIndex;
  }

  lemma MergeNone(files: seq<File>, zone: int)
    ensures Merge(files[..0], zone) == []
  {
  }

  lemma MergeStep(files: seq<File>, n: nat, zone: int)
    requires n < |files|
    ensures Merge(files[..n + 1], zone) == Join(Merge(files[..n], zone), files[n], zone)
  {
    assert files[..n + 1][..n] == files[..n];
  }

  /** The body of the loop: the entry is joined to the last record or put behind it. */
  method PutRecord(info: array<Rec>, danaCount: nat, entry: File, zone: int) returns (n: nat)
    requires danaCount < info.Length
    modifies info
    ensures n <= info.Length && danaCount <= n <= danaCount + 1
    ensures info[..n] == Join(old(info[..danaCount]), entry, zone)
  {
    ghost var before := info[..danaCount];
    n := danaCount;
    if danaCount != 0 && entry.startTime - zone - 2 < info[danaCount - 1].length + info[danaCount - 1].startTime {
      info[danaCount - 1] := info[danaCount - 1].(length := info[danaCount - 1].length + entry.totalTime / 1000);
      assert info[..danaCount - 1] == before[..danaCount - 1];
      assert info[..n] == info[..danaCount - 1] + [info[danaCount - 1]];
    } else {
      info[danaCount] := Rec(entry.startTime - zone, entry.totalTime / 1000);
      n := danaCount + 1;
      assert info[..n] == before + [info[danaCount]];
    }
  }

  // --------------------------------------------------------------------- paging

  /** The static state of `dana_cmd_get_reclist`. */
  class ReplayPager {
    var replayList: Option<seq<File>>
    var cpyIndex: nat
    var listCount: nat

    constructor ()
      ensures replayList == None && cpyIndex == 0 && listCount == 0
    {
      replayList, cpyIndex, listCount := None, 0, 0;
    }

    /** A kept list has files left to hand out. */
    predicate Valid()
      reads this
    {
      replayList.Some? ==> listCount == |replayList.value| && cpyIndex < listCount
    }

    /** One request.  `dayBegins` says whether the requested time is midnight, and
        `fetched` is what fetching the day's list would give. */
    method GetRecList(dayBegins: bool, maxCount: nat, fetched: Option<seq<File>>, zone: int)
      returns (recs: seq<Rec>, ghost files: seq<File>, ghost from: nat)
      requires Valid() && maxCount >= 1
      modifies this
      ensures Valid()
      ensures var list := if dayBegins || old(replayList).None? then fetched else old(replayList);
              && from == (if dayBegins || old(replayList).None? then 0 else old(cpyIndex))
              && (list.None? ==> files == [])
              && (list.Some? ==>
                    && from + |files| <= |list.value| && files == list.value[from..from + |files|]
                    && (list.value != [] ==> files != [])
                    && (replayList == if from + |files| < |list.value| then list else None)
                    && (replayList.Some? ==> cpyIndex == from + |files|))
      ensures recs == Merge(files, zone) && |recs| <= maxCount
      ensures replayList.Some? ==> |recs| == maxCount
    {
      hide Merge, PageEnds;
      recs, files := [], [];
      MergeNone(files, zone);
      assert files[..0] == files;
      if dayBegins || replayList.None? {
        replayList := fetched;
        listCount := if fetched.Some? then |fetched.value| else 0;
        cpyIndex := 0;
      }
      from := cpyIndex;
      var infoCount := listCount - cpyIndex;
      if replayList.Some? && infoCount > 0 {
        infoCount := if infoCount > maxCount then maxCount else infoCount;
        var info := new Rec[infoCount](i => Rec(0, 0));
        var recNum, cpyNum := CopyRecordInfo(replayList.value, info, cpyIndex, infoCount, zone);
        recs := info[..recNum];
        files := replayList.value[cpyIndex..cpyIndex + cpyNum];
        assert recs == Merge(files, zone);
        cpyIndex := cpyIndex + cpyNum;
      }
      if cpyIndex >= listCount && replayList.Some? {
        replayList := None;
      }
    }
  }

  function Concat(slices: seq<seq<File>>): seq<File> {
    if slices == [] then [] else Concat(slices[..|slices| - 1]) + slices[|slices| - 1]
  }

  /** The requests for one day: the first at midnight, the rest until the list is
      used up.  The pages cut the list into consecutive parts, none of them empty,
      that make up the whole; each keeps to its own limit and to the laws of merging. */
  method GetDay(pager: ReplayPager, day: seq<File>, limits: nat -> nat, zone: int)
    returns (pages: seq<seq<Rec>>, ghost slices: seq<seq<File>>)
    requires pager.Valid() && day != [] && forall i :: limits(i) >= 1
    modifies pager
    ensures pager.Valid() && pager.replayList == None
    ensures |pages| == |slices| && Concat(slices) == day
    ensures forall i | 0 <= i < |pages| ::
              slices[i] != [] && pages[i] == Merge(slices[i], zone) && |pages[i]| <= limits(i)
    ensures forall i | 0 <= i < |pages| :: Apart(pages[i]) && Lengths(pages[i]) == Seconds(slices[i])
  {
    hide Merge, Apart, Lengths, Seconds, Concat;
    pages, slices := [], [];
    ghost var done := 0;
    ConcatNone(day);
    var first := true;
    while first || pager.replayList.Some?
      invariant pager.Valid() && |pages| == |slices| && done <= |day|
      invariant Concat(slices) == day[..done]
      invariant first ==> done == 0
      invariant !first ==> pager.replayList == if done < |day| then Some(day) else None
      invariant !first && done < |day| ==> pager.cpyIndex == done
      invariant forall i | 0 <= i < |pages| ::
                  slices[i] != [] && pages[i] == Merge(slices[i], zone) && |pages[i]| <= limits(i)
      decreases |day| - done, first
    {
      var recs, files, from := pager.GetRecList(first, limits(|pages|), Some(day), zone);
      ConcatStep(slices, files, day, done);
      pages, slices := pages + [recs], slices + [files];
      done := done + |files|;
      first := false;
    }
    assert day[..done] == day;
    forall i | 0 <= i < |pages| ensures Apart(pages[i]) && Lengths(pages[i]) == Seconds(slices[i]) {
      MergeApart(slices[i], zone);
      MergeKeepsLength(slices[i], zone);
    }
  }

  lemma ConcatNone(day: seq<File>)
    ensures Concat([]) == day[..0]
  {
  }

  lemma ConcatStep(slices: seq<seq<File>>, files: seq<File>, day: seq<File>, done: nat)
    requires done + |files| <= |day| && files == day[done..done + |files|] && Concat(slices) == day[..done]
    ensures Concat(slices + [files]) == day[..done + |files|]
  {
  }
}
