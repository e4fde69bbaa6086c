/** The rotating log files of src/log/log.c: numbered files, a size counter, and a shift down when the last number is
    used up. */
module LogRotation {

  // ---------- the files on values, oldest first; the last one is open ----------

  function Flatten(files: seq<string>): string {
    if files == [] then "" else Flatten(files[..|files| - 1]) + files[|files| - 1]
  }

  function Appended(files: seq<string>, rec: string): seq<string>
    requires files != []
  {
    files[|files| - 1 := files[|files| - 1] + rec]
  }

  // A new empty file; the oldest one goes when the last number is in use. Numbers run from 0 to maxNum.
  function Rotated(files: seq<string>, maxNum: int): seq<string>
    requires files != []
  {
    (if |files| - 1 >= maxNum then files[1..] else files) + [""]
  }

  // The files after open_log_file. The probing loop stops at maxNum without looking at that number, so with exactly
  // maxNum files it opens a new one even when the last one is not full.
  function OpenedFiles(files: seq<string>, maxNum: int, maxSize: nat): (r: seq<string>)
    ensures r != []
  {
    if files == [] then [""]
    else if |files| == maxNum || |files[|files| - 1]| >= maxSize then Rotated(files, maxNum)
    else files
  }

  // The files after one call of printlog
  function Logged(files: seq<string>, rec: string, maxNum: int, maxSize: nat): (r: seq<string>)
    requires files != []
    ensures r != []
  {
    var f := Appended(files, rec);
    if |f[|f| - 1]| >= maxSize then Rotated(f, maxNum) else f
  }

  // What happens to a log: a call of printlog, or a restart of the daemon, which opens the log anew
  datatype Event = Record(text: string) | Restart

  function After(files: seq<string>, e: Event, maxNum: int, maxSize: nat): (r: seq<string>)
    requires files != []
    ensures r != []
  {
    match e
    case Record(text) => Logged(files, text, maxNum, maxSize)
    case Restart => OpenedFiles(files, maxNum, maxSize)
  }

  function AfterAll(files: seq<string>, events: seq<Event>, maxNum: int, maxSize: nat): (r: seq<string>)
    requires files != []
    ensures r != []
  {
    if events == [] then files
    else After(AfterAll(files, events[..|events| - 1], maxNum, maxSize), events[|events| - 1], maxNum, maxSize)
  }

  // How many files there may be
  function Limit(maxNum: int): nat {
    if maxNum < 0 then 1 else maxNum + 1
  }

  // ---------- the directory ----------

  // The files stored under consecutive numbers from 0
  ghost predicate Stored(dir: map<int, string>, files: seq<string>) {
    && (forall i :: i in dir <==> 0 <= i < |files|)
    && (forall i :: 0 <= i < |files| ==> dir[i] == files[i])
  }

  class LogStream {
    const maxNum: int
    const maxSize: nat
    var dir: map<int, string>
    var num: int
    var size: nat

    // The open file is the last one, it is below the size limit, and the counter is its size.
    ghost predicate Valid(files: seq<string>)
      reads this
    {
      && maxNum != 0 && maxSize > 0
      && 0 < |files| <= Limit(maxNum)
      && Stored(dir, files)
      && num == |files| - 1
      && size == |files[num]| < maxSize
    }

    constructor (maxNum: int, maxSize: nat, dir: map<int, string>)
      ensures this.maxNum == maxNum && this.maxSize == maxSize && this.dir == dir && num == 0
    {
      this.maxNum := maxNum;
      this.maxSize := maxSize;
      this.dir := dir;
      num := 0;
      size := 0;
    }

    // The probing loop of open_log_file: from the current number up to the last file, or to maxNum
    method FindLast(ghost files: seq<string>)
      requires Stored(dir, files) && |files| <= Limit(maxNum)
      requires num == 0 || 0 < num < |files|
      modifies `num
      ensures num == if files == [] then 0 else if |files| == maxNum then maxNum else |files| - 1
    {
      while num < maxNum
        invariant 0 <= num && (num == 0 || num <= |files|)
        invariant num == |files| && num > 0 ==> num <= maxNum
        decreases maxNum - num
      {
        if num !in dir {
          if num > 0 {
            num := num - 1;
          }
          break;
        }
        num := num + 1;
      }
    }

    // With a limit of zero there is no log. From number 0 this is what log_init does on contiguous files.
    method OpenLogFile(ghost files: seq<string>) returns (ok: bool)
      requires Stored(dir, files) && |files| <= Limit(maxNum)
      requires num == 0 || 0 < num < |files|
      modifies this
      ensures ok <==> maxNum != 0 && maxSize != 0
      ensures ok ==> Valid(OpenedFiles(files, maxNum, maxSize))
      ensures !ok ==> dir == old(dir) && num == old(num) && size == old(size)
    {
      if maxNum == 0 || maxSize == 0 {
        return false;
      }
      FindLast(files);
      if num in dir {
        if |dir[num]| >= maxSize {
          NextLog(files);
        }
      }
      // fopen for appending creates the file when it is missing, and stands at its end.
      if num !in dir {
        dir := dir[num := ""];
      }
      size := |dir[num]|;
      ok := true;
    }

    method NextLog(ghost files: seq<string>)
      requires Stored(dir, files) && files != [] && num == |files| - 1
      modifies `dir, `num
      ensures if old(num) >= maxNum
        then Stored(dir, files[1..]) && num == old(num)
        else dir == old(dir) && num == old(num) + 1
    {
      if num >= maxNum {
        dir := dir - {0};
        var i := 1;
        while i <= num
          invariant num == old(num) && 1 <= i <= |files| && Shifted(dir, files, i)
        {
          ShiftOne(dir, files, i);
          dir := Rename(dir, i, i - 1);
          i := i + 1;
        }
      } else {
        num := num + 1;
      }
    }

    // One call with a whole record: the time stamp and the text. The counter decides on the rotation.
    method PrintLog(rec: string, ghost files: seq<string>)
      requires Valid(files)
      modifies this
      ensures Valid(Logged(files, rec, maxNum, maxSize))
    {
      ghost var appended := Appended(files, rec);
      dir := dir[num := dir[num] + rec];
      size := size + |rec|;
      if size >= maxSize {
        var ok := OpenLogFile(appended);
      }
    }
  }

  // The files below i have been moved down by one.
  ghost predicate Shifted(dir: map<int, string>, files: seq<string>, i: nat) {
    && (forall j :: j in dir <==> 0 <= j < i - 1 || i <= j < |files|)
    && (forall j :: 0 <= j < i - 1 < |files| ==> dir[j] == files[j + 1])
    && (forall j :: i <= j < |files| ==> dir[j] == files[j])
  }

  lemma ShiftOne(dir: map<int, string>, files: seq<string>, i: nat)
    requires 1 <= i < |files| && Shifted(dir, files, i)
    ensures Shifted(Rename(dir, i, i - 1), files, i + 1)
  {
    assert dir[i] == files[i];
  }

  // rename of an existing file; nothing happens when it is missing
  function Rename(dir: map<int, string>, from: int, to: int): (r: map<int, string>)
    requires from != to
    ensures from in dir ==> to in r && r[to] == dir[from] && from !in r
    ensures from !in dir ==> r == dir
    ensures forall k :: k != from && k != to ==> (k in r <==> k in dir) && (k in dir ==> r[k] == dir[k])
  {
    if from in dir then (dir - {from})[to := dir[from]] else dir
  }

  // ---------- the same log when no file is ever dropped ----------

  // A record closes the last file when it fills it; a restart closes the last file when it is full, or when there
  // are exactly maxNum files.
  function Grow(all: seq<string>, e: Event, maxNum: int, maxSize: nat): (r: seq<string>)
    requires all != []
    ensures |r| >= |all|
  {
    var f := if e.Record? then Appended(all, e.text) else all;
    if |f[|f| - 1]| >= maxSize || (e.Restart? && |f| == maxNum) then f + [""] else f
  }

  function Uncut(files: seq<string>, events: seq<Event>, maxNum: int, maxSize: nat): (r: seq<string>)
    requires files != []
    ensures |r| >= |files|
  {
    if events == [] then files
    else Grow(Uncut(files, events[..|events| - 1], maxNum, maxSize), events[|events| - 1], maxNum, maxSize)
  }

  function LastFew(files: seq<string>, n: nat): seq<string> {
    if |files| <= n then files else files[|files| - n..]
  }

  function FirstMany(files: seq<string>, n: nat): seq<string> {
    if |files| <= n then [] else files[..|files| - n]
  }

  lemma FirstAndLastFew(files: seq<string>, n: nat)
    ensures FirstMany(files, n) + LastFew(files, n) == files
  {
  }

  lemma AppendedLastFew(all: seq<string>, rec: string, n: nat)
    requires all != [] && n > 0
    ensures Appended(LastFew(all, n), rec) == LastFew(Appended(all, rec), n)
  {
    var few := LastFew(all, n);
    assert few[|few| - 1] == all[|all| - 1];
  }

  lemma RotatedLastFew(all: seq<string>, maxNum: int)
    requires all != []
    ensures Rotated(LastFew(all, Limit(maxNum)), maxNum) == LastFew(all + [""], Limit(maxNum))
  {
  }

  lemma RecordIsLastFew(all: seq<string>, text: string, maxNum: int, maxSize: nat)
    requires all != []
    ensures Logged(LastFew(all, Limit(maxNum)), text, maxNum, maxSize)
         == LastFew(Grow(all, Record(text), maxNum, maxSize), Limit(maxNum))
  {
    AppendedLastFew(all, text, Limit(maxNum));
    RotatedLastFew(Appended(all, text), maxNum);
  }

  lemma RestartIsLastFew(all: seq<string>, maxNum: int, maxSize: nat)
    requires all != []
    ensures OpenedFiles(LastFew(all, Limit(maxNum)), maxNum, maxSize)
         == LastFew(Grow(all, Restart, maxNum, maxSize), Limit(maxNum))
  {
    var few := LastFew(all, Limit(maxNum));
    assert few[|few| - 1] == all[|all| - 1];
    RotatedLastFew(all, maxNum);
  }

  // Rotation keeps exactly the last files of the log that is never cut, over any mixture of records and restarts.
  lemma {:induction false} KeptIsLastFew(files: seq<string>, events: seq<Event>, maxNum: int, maxSize: nat)
    requires 0 < |files| <= Limit(maxNum)
    ensures AfterAll(files, events, maxNum, maxSize) == LastFew(Uncut(files, events, maxNum, maxSize), Limit(maxNum))
  {
    if events != [] {
      var init := events[..|events| - 1];
      KeptIsLastFew(files, init, maxNum, maxSize);
      match events[|events| - 1]
      case Record(text) => RecordIsLastFew(Uncut(files, init, maxNum, maxSize), text, maxNum, maxSize);
      case Restart => RestartIsLastFew(Uncut(files, init, maxNum, maxSize), maxNum, maxSize);
    }
  }

  // ---------- conservation ----------

  function History(events: seq<Event>): string {
    if events == [] then ""
    else
      History(events[..|events| - 1]) + match events[|events| - 1] case Record(text) => text case Restart => ""
  }

  lemma Regroup(a: string, b: string, c: string)
    ensures (a + b) + c == a + (b + c)
  {
  }

  lemma LastOfConcat(a: seq<string>, b: seq<string>)
    requires b != []
    ensures var c := a + b; c[..|c| - 1] == a + b[..|b| - 1] && c[|c| - 1] == b[|b| - 1]
  {
  }

  lemma {:induction false} FlattenConcat(a: seq<string>, b: seq<string>)
    ensures Flatten(a + b) == Flatten(a) + Flatten(b)
  {
    if b == [] {
      assert a + b == a;
    } else {
      var init, last := b[..|b| - 1], b[|b| - 1];
      FlattenConcat(a, init);
      LastOfConcat(a, b);
      Regroup(Flatten(a), Flatten(init), last);
    }
  }

  lemma GrowFlattened(all: seq<string>, e: Event, maxNum: int, maxSize: nat)
    requires all != []
    ensures Flatten(Grow(all, e, maxNum, maxSize)) == Flatten(all) + if e.Record? then e.text else ""
  {
    var f := if e.Record? then Appended(all, e.text) else all;
    assert f[..|f| - 1] == all[..|all| - 1];
    assert (f + [""])[..|f|] == f;
  }

  // The log that is never cut holds the first files and every record.
  lemma {:induction false} UncutHoldsHistory(files: seq<string>, events: seq<Event>, maxNum: int, maxSize: nat)
    requires files != []
    ensures Flatten(Uncut(files, events, maxNum, maxSize)) == Flatten(files) + History(events)
  {
    if events != [] {
      var init, e := events[..|events| - 1], events[|events| - 1];
      UncutHoldsHistory(files, init, maxNum, maxSize);
      GrowFlattened(Uncut(files, init, maxNum, maxSize), e, maxNum, maxSize);
    }
  }

  // The files before are still there, in order; only the last one may have grown, and newer ones follow.
  ghost predicate Grown(before: seq<string>, now: seq<string>) {
    && 0 < |before| <= |now|
    && (forall i :: 0 <= i < |before| - 1 ==> now[i] == before[i])
    && before[|before| - 1] <= now[|before| - 1]
  }

  // In the log that is never cut, a file that has been closed stays as it is.
  lemma {:induction false} UncutOnlyGrows(files: seq<string>, events: seq<Event>, k: nat, maxNum: int, maxSize: nat)
    requires files != [] && k <= |events|
    ensures Grown(Uncut(files, events[..k], maxNum, maxSize), Uncut(files, events, maxNum, maxSize))
    decreases |events|
  {
    if k == |events| {
      assert events[..k] == events;
    } else {
      var init := events[..|events| - 1];
      UncutOnlyGrows(files, init, k, maxNum, maxSize);
      assert init[..k] == events[..k];
      OneGrows(Uncut(files, events[..k], maxNum, maxSize), Uncut(files, init, maxNum, maxSize), events[|events| - 1],
               maxNum, maxSize);
    }
  }

  lemma OneGrows(before: seq<string>, now: seq<string>, e: Event, maxNum: int, maxSize: nat)
    requires Grown(before, now)
    ensures Grown(before, Grow(now, e, maxNum, maxSize))
  {
  }

  // The files that are gone
  function Dropped(files: seq<string>, events: seq<Event>, maxNum: int, maxSize: nat): seq<string>
    requires files != []
  {
    FirstMany(Uncut(files, events, maxNum, maxSize), Limit(maxNum))
  }

  // Conservation: the dropped files followed by the kept ones are the files of the log that is never cut and hold the
  // whole history in order; files are dropped only from a full set.
  lemma {:induction false} LogConservation(files: seq<string>, events: seq<Event>, maxNum: int, maxSize: nat)
    requires 0 < |files| <= Limit(maxNum)
    ensures var dropped, kept := Dropped(files, events, maxNum, maxSize), AfterAll(files, events, maxNum, maxSize);
      && dropped + kept == Uncut(files, events, maxNum, maxSize)
      && Flatten(dropped) + Flatten(kept) == Flatten(files) + History(events)
      && |kept| <= Limit(maxNum)
      && (dropped != [] ==> |kept| == Limit(maxNum))
  {
    KeptIsLastFew(files, events, maxNum, maxSize);
    var all := Uncut(files, events, maxNum, maxSize);
    FirstAndLastFew(all, Limit(maxNum));
    FlattenConcat(FirstMany(all, Limit(maxNum)), LastFew(all, Limit(maxNum)));
    UncutHoldsHistory(files, events, maxNum, maxSize);
  }

  // ---------- how full the files are ----------

  // Event k is a restart that comes while there are exactly maxNum files.
  ghost predicate CutAt(files: seq<string>, events: seq<Event>, k: nat, maxNum: int, maxSize: nat)
    requires files != [] && k < |events|
  {
    events[k] == Restart && |Uncut(files, events[..k], maxNum, maxSize)| == maxNum
  }

  ghost predicate CutShort(files: seq<string>, events: seq<Event>, maxNum: int, maxSize: nat)
    requires files != []
  {
    exists k :: 0 <= k < |events| && CutAt(files, events, k, maxNum, maxSize)
  }

  // From the empty log: the last file is never full. Of the closed ones, each but file maxNum - 1 is full, and none is
  // overfull by as much as one more record; file maxNum - 1 is full as well if and only if it was not cut short.
  ghost predicate ClosedAsFull(all: seq<string>, short: bool, maxNum: nat, maxSize: nat, r: nat)
    requires maxNum > 0
  {
    && all != [] && |all[|all| - 1]| < maxSize
    && (forall i :: 0 <= i < |all| - 1 ==> |all[i]| < maxSize + r)
    && (forall i :: 0 <= i < |all| - 1 && i != maxNum - 1 ==> maxSize <= |all[i]|)
    && (short ==> |all| > maxNum)
    && (|all| > maxNum ==> (maxSize <= |all[maxNum - 1]| <==> !short))
  }

  lemma GrowClosesAsFull(all: seq<string>, short: bool, e: Event, maxNum: nat, maxSize: nat, r: nat)
    requires maxNum > 0 && maxSize > 0 && ClosedAsFull(all, short, maxNum, maxSize, r)
    requires e.Record? ==> |e.text| <= r
    ensures ClosedAsFull(Grow(all, e, maxNum, maxSize), short || (e.Restart? && |all| == maxNum), maxNum, maxSize, r)
  {
  }

  lemma CutAtInPrefix(files: seq<string>, events: seq<Event>, n: nat, k: nat, maxNum: int, maxSize: nat)
    requires files != [] && k < n <= |events|
    ensures CutAt(files, events[..n], k, maxNum, maxSize) <==> CutAt(files, events, k, maxNum, maxSize)
  {
    assert events[..n][..k] == events[..k];
  }

  lemma CutShortOneMore(files: seq<string>, events: seq<Event>, maxNum: int, maxSize: nat)
    requires files != [] && events != []
    ensures var n := |events| - 1;
      CutShort(files, events, maxNum, maxSize)
      <==> CutShort(files, events[..n], maxNum, maxSize) || CutAt(files, events, n, maxNum, maxSize)
  {
    var n := |events| - 1;
    forall k | 0 <= k < n
      ensures CutAt(files, events[..n], k, maxNum, maxSize) <==> CutAt(files, events, k, maxNum, maxSize)
    {
      CutAtInPrefix(files, events, n, k, maxNum, maxSize);
    }
  }

  predicate RecordsWithin(events: seq<Event>, r: nat) {
    forall i :: 0 <= i < |events| && events[i].Record? ==> |events[i].text| <= r
  }

  // A restart abandons a file that is not full if and only if there are exactly maxNum files.
  lemma {:induction false} ClosedFilesAreFullIff(events: seq<Event>, maxNum: nat, maxSize: nat, r: nat)
    requires maxNum > 0 && maxSize > 0 && RecordsWithin(events, r)
    ensures ClosedAsFull(Uncut([""], events, maxNum, maxSize), CutShort([""], events, maxNum, maxSize),
                         maxNum, maxSize, r)
  {
    if events != [] {
      var n := |events| - 1;
      ClosedFilesAreFullIff(events[..n], maxNum, maxSize, r);
      GrowClosesAsFull(Uncut([""], events[..n], maxNum, maxSize), CutShort([""], events[..n], maxNum, maxSize),
                       events[n], maxNum, maxSize, r);
      CutShortOneMore([""], events, maxNum, maxSize);
    }
  }

  // ---------- how much is kept ----------

  lemma TimesMonotone(n: nat, m: nat, k: nat)
    requires n <= m
    ensures n * k <= m * k
  {
  }

  // The files but the last hold at least lo and at most hi bytes each, but for one of them that may hold less.
  lemma {:induction false} KeptBounds(files: seq<string>, odd: int, lo: nat, hi: nat)
    requires forall i :: 0 <= i < |files| ==> |files[i]| <= hi
    requires forall i :: 0 <= i < |files| && i != odd ==> lo <= |files[i]|
    ensures |Flatten(files)| <= |files| * hi
    ensures |Flatten(files)| >= (if 0 <= odd < |files| then |files| - 1 else |files|) * lo
  {
    if files != [] {
      var n := |files| - 1;
      KeptBounds(files[..n], odd, lo, hi);
      OneMoreTimes(n, hi);
      OneMoreTimes(n, lo);
      if n > 0 {
        OneMoreTimes(n - 1, lo);
      }
    }
  }

  lemma OneMoreTimes(n: nat, k: nat)
    ensures (n + 1) * k == n * k + k
  {
  }

  // The last of the kept files is not full; of the others exactly the one at that slot is not.
  ghost predicate KeptAsFull(kept: seq<string>, odd: int, lo: nat, hi: nat) {
    && kept != [] && |kept[|kept| - 1]| < lo
    && (forall i :: 0 <= i < |kept| - 1 ==> |kept[i]| < hi)
    && (forall i :: 0 <= i < |kept| - 1 ==> (lo <= |kept[i]| <==> i != odd))
  }

  // maxNum full files, or one less while the one at that slot is not full
  function LeastKept(odd: int, maxNum: nat, maxSize: nat): int {
    (if 0 <= odd < maxNum then maxNum - 1 else maxNum) * maxSize
  }

  // maxNum files that are overfull by less than a record, and one that is not full
  function MostKept(maxNum: nat, maxSize: nat, r: nat): nat {
    maxNum * (maxSize + r) + maxSize
  }

  lemma KeptSize(kept: seq<string>, odd: int, maxNum: nat, maxSize: nat, r: nat)
    requires KeptAsFull(kept, odd, maxSize, maxSize + r) && |kept| <= maxNum + 1
    ensures |Flatten(kept)| <= MostKept(maxNum, maxSize, r)
    ensures |kept| == maxNum + 1 ==> |Flatten(kept)| >= LeastKept(odd, maxNum, maxSize)
  {
    KeptBounds(kept[..|kept| - 1], odd, maxSize, maxSize + r);
    TimesMonotone(|kept| - 1, maxNum, maxSize + r);
  }

  // Where file maxNum - 1 of the log that is never cut stands among the kept files, when it has been cut short
  ghost function ShortSlot(events: seq<Event>, maxNum: nat, maxSize: nat): int {
    if CutShort([""], events, maxNum, maxSize) then maxNum - 1 - |Dropped([""], events, maxNum, maxSize)| else -1
  }

  lemma EndIsAsFull(dropped: seq<string>, kept: seq<string>, short: bool, maxNum: nat, maxSize: nat, r: nat)
    requires maxNum > 0 && kept != [] && |kept| <= maxNum + 1 && ClosedAsFull(dropped + kept, short, maxNum, maxSize, r)
    ensures KeptAsFull(kept, if short then maxNum - 1 - |dropped| else -1, maxSize, maxSize + r)
  {
    var all := dropped + kept;
    forall i | 0 <= i < |kept|
      ensures kept[i] == all[|dropped| + i]
    {
    }
  }

  lemma {:induction false} KeptAreFull(events: seq<Event>, maxNum: nat, maxSize: nat, r: nat)
    requires maxNum > 0 && maxSize > 0 && RecordsWithin(events, r)
    ensures KeptAsFull(AfterAll([""], events, maxNum, maxSize), ShortSlot(events, maxNum, maxSize),
                       maxSize, maxSize + r)
  {
    ClosedFilesAreFullIff(events, maxNum, maxSize, r);
    LogConservation([""], events, maxNum, maxSize);
    EndIsAsFull(Dropped([""], events, maxNum, maxSize), AfterAll([""], events, maxNum, maxSize),
                CutShort([""], events, maxNum, maxSize), maxNum, maxSize, r);
  }

  lemma {:induction false} KeptBytes(events: seq<Event>, maxNum: nat, maxSize: nat, r: nat)
    requires maxNum > 0 && maxSize > 0 && RecordsWithin(events, r)
    ensures var kept := AfterAll([""], events, maxNum, maxSize);
      && (|kept| == maxNum + 1 ==> |Flatten(kept)| >= LeastKept(ShortSlot(events, maxNum, maxSize), maxNum, maxSize))
      && |Flatten(kept)| <= MostKept(maxNum, maxSize, r)
  {
    LogConservation([""], events, maxNum, maxSize);
    KeptAreFull(events, maxNum, maxSize, r);
    KeptSize(AfterAll([""], events, maxNum, maxSize), ShortSlot(events, maxNum, maxSize), maxNum, maxSize, r);
  }

  // From an empty directory, over any mixture of records and restarts: the whole history is kept, or at least maxNum
  // full files of it, one less while a file that a restart has cut short is among them; and never more than maxNum
  // overfull files and one that is not full.
  lemma {:induction false} LogRetention(events: seq<Event>, maxNum: nat, maxSize: nat, r: nat)
    requires maxNum > 0 && maxSize > 0 && RecordsWithin(events, r)
    ensures var kept, odd := Flatten(AfterAll([""], events, maxNum, maxSize)), ShortSlot(events, maxNum, maxSize);
      && (kept == History(events) || |kept| >= LeastKept(odd, maxNum, maxSize))
      && |kept| <= MostKept(maxNum, maxSize, r)
  {
    LogConservation([""], events, maxNum, maxSize);
    KeptBytes(events, maxNum, maxSize, r);
    if Dropped([""], events, maxNum, maxSize) == [] {
      FromEmpty(events, maxNum, maxSize);
    }
  }

  lemma FromEmpty(events: seq<Event>, maxNum: nat, maxSize: nat)
    requires Dropped([""], events, maxNum, maxSize) == []
    ensures Flatten(AfterAll([""], events, maxNum, maxSize)) == History(events)
  {
    LogConservation([""], events, maxNum, maxSize);
    var kept := Flatten(AfterAll([""], events, maxNum, maxSize));
    assert Flatten([""][..0]) == "";
    assert "" + kept == kept && "" + History(events) == History(events);
    assert Flatten([""]) == "";
  }

  // A negative max_num keeps one file.
  lemma {:induction false} NegativeKeepsOne(events: seq<Event>, maxNum: int, maxSize: nat)
    requires maxNum < 0
    ensures |AfterAll([""], events, maxNum, maxSize)| == 1
  {
    if events != [] {
      NegativeKeepsOne(events[..|events| - 1], maxNum, maxSize);
    }
  }

  // ---------- a file that was cut short ----------

  // Slot i of the kept files is f; a negative slot is one that has been dropped.
  predicate StandsAt(kept: seq<string>, i: int, f: string) {
    i < |kept| && (0 <= i ==> kept[i] == f)
  }

  lemma StandsInEnd(dropped: seq<string>, kept: seq<string>, i: nat)
    requires i < |dropped + kept|
    ensures StandsAt(kept, i - |dropped|, (dropped + kept)[i])
  {
  }

  lemma CutFileStays(files: seq<string>, events: seq<Event>, k: nat, maxNum: nat, maxSize: nat)
    requires files != [] && k < |events| && CutAt(files, events, k, maxNum, maxSize)
    ensures var before, all := Uncut(files, events[..k], maxNum, maxSize), Uncut(files, events, maxNum, maxSize);
      |all| > maxNum && all[maxNum - 1] == before[maxNum - 1]
  {
    UncutOnlyGrows(files, events, k + 1, maxNum, maxSize);
    assert events[..k + 1][..k] == events[..k];
  }

  // A restart with exactly maxNum files starts a new one although the last one is not full. That one stays as short as
  // it was then, and stands among the kept files until it is dropped.
  lemma CutShortForGood(files: seq<string>, events: seq<Event>, k: nat, maxNum: nat, maxSize: nat)
    requires 0 < |files| <= Limit(maxNum) && k < |events| && CutAt(files, events, k, maxNum, maxSize)
    ensures StandsAt(AfterAll(files, events, maxNum, maxSize), maxNum - 1 - |Dropped(files, events, maxNum, maxSize)|,
                     Uncut(files, events[..k], maxNum, maxSize)[maxNum - 1])
  {
    var dropped, kept := Dropped(files, events, maxNum, maxSize), AfterAll(files, events, maxNum, maxSize);
    CutFileStays(files, events, k, maxNum, maxSize);
    LogConservation(files, events, maxNum, maxSize);
    StandsInEnd(dropped, kept, maxNum - 1);
  }

  // With max_num 1 the daemon is restarted after a record of one byte, and then file 0 holds that byte for good.
  lemma RestartCutsShort()
    ensures AfterAll([""], [Record("a"), Restart, Record("b")], 1, 10) == ["a", "b"]
    ensures CutShort([""], [Record("a"), Restart, Record("b")], 1, 10)
  {
    var events := [Record("a"), Restart, Record("b")];
    assert events[..2][..1] == events[..1] == [Record("a")] && events[..1][..0] == [];
    assert "" + "a" == "a" && "" + "b" == "b";
    assert Appended([""], "a") == ["a"] && Appended(["a", ""], "b") == ["a", "b"];
    assert AfterAll([""], events[..1], 1, 10) == Uncut([""], events[..1], 1, 10) == ["a"];
    assert AfterAll([""], events[..2], 1, 10) == ["a", ""];
    assert CutAt([""], events, 1, 1, 10);
  }
}
