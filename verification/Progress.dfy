/**
  Progress accounting of one fetch surface (packages/hub/src/progress.ts).

  `received` records the bytes of every file heard of so far; an event names the sum.  The theorems
  are about whole sequences of reports.
 */
module Progress {
  import opened Wrappers
  import opened FileRefs
  import JsMap

  datatype Report = Downloading(ref: FileRef, bytes: nat) | Complete(ref: FileRef)
  {
    /** The bytes the report records for its file. */
    function Bytes(): nat {
      if Downloading? then bytes else ref.size
    }
  }

  datatype Emitted =
    | Silent
    | Event(complete: bool, path: string, loaded: nat, total: nat, fileLoaded: nat, fileTotal: nat)
    | UnknownTarget

  type Received = JsMap.Map<string, nat>

  function Sum(m: Received): nat {
    if m == [] then 0 else Sum(m[..|m| - 1]) + m[|m| - 1].1
  }

  function SumOfSizes(targets: seq<FileRef>): nat {
    if targets == [] then 0 else SumOfSizes(targets[..|targets| - 1]) + targets[|targets| - 1].size
  }

  function Recorded(m: Received, key: string): nat {
    match JsMap.Get(m, key) case Some(n) => n case None => 0
  }

  function Apply(m: Received, report: Report): Received {
    JsMap.Set(m, FileRefKey(report.ref), report.Bytes())
  }

  function ApplyAll(m: Received, reports: seq<Report>): Received {
    if reports == [] then m else Apply(ApplyAll(m, reports[..|reports| - 1]), reports[|reports| - 1])
  }

  // ----- sums ---------------------------------------------------------------------------------

  lemma {:induction false} SumUpdate(m: Received, i: nat, k: string, v: nat)
    requires i < |m|
    ensures Sum(m[i := (k, v)]) == Sum(m) - m[i].1 + v
  {
    var n := m[i := (k, v)];
    if i < |m| - 1 {
      assert n[..|n| - 1] == m[..|m| - 1][i := (k, v)];
      SumUpdate(m[..|m| - 1], i, k, v);
    } else {
      assert n[..|n| - 1] == m[..|m| - 1];
    }
  }

  /** Recording a report moves the sum by exactly the change of its own file. */
  lemma SumAfterReport(m: Received, report: Report)
    ensures Sum(Apply(m, report)) == Sum(m) - Recorded(m, FileRefKey(report.ref)) + report.Bytes()
  {
    var key := FileRefKey(report.ref);
    var i := JsMap.IndexOf(m, key);
    if i >= 0 {
      SumUpdate(m, i, key, report.Bytes());
    } else {
      assert (m + [(key, report.Bytes())])[..|m|] == m;
    }
  }

  /** The overall value goes back exactly when a file reports fewer bytes than it had. */
  lemma NeverGoesBackIff(m: Received, report: Report)
    ensures Sum(m) <= Sum(Apply(m, report)) <==> Recorded(m, FileRefKey(report.ref)) <= report.Bytes()
  {
    SumAfterReport(m, report);
  }

  // ----- the aggregator -----------------------------------------------------------------------

  /** The bytes recorded for all files but one. */
  function Others(m: Received, key: string): nat {
    if m == [] then 0
    else Others(m[..|m| - 1], key) + (if m[|m| - 1].0 == key then 0 else m[|m| - 1].1)
  }

  lemma {:induction false} OthersAre(m: Received, key: string)
    requires JsMap.Distinct(m)
    ensures Sum(m) == Others(m, key) + Recorded(m, key)
  {
    if m != [] {
      OthersAre(m[..|m| - 1], key);
    }
  }

  /** What a listener is told: its own file counts as complete or as recorded, the others as recorded. */
  function Notice(targets: JsMap.Map<string, FileRef>, m: Received, complete: bool, ref: FileRef): Emitted {
    match JsMap.Get(targets, FileRefKey(ref))
    case None => UnknownTarget
    case Some(declared) =>
      var fileLoaded := if complete then declared.size else Recorded(m, FileRefKey(ref));
      Event(complete, ref.path, Others(m, FileRefKey(ref)) + fileLoaded, SumOfSizes(Values(targets)),
            fileLoaded, declared.size)
  }

  /** The event of the last report, after all of them are recorded. */
  function EventAfter(targets: JsMap.Map<string, FileRef>, reports: seq<Report>): Emitted
    requires reports != []
  {
    var last := reports[|reports| - 1];
    Notice(targets, ApplyAll([], reports), last.Complete?, last.ref)
  }

  class ProgressEmitter {
    const targets: JsMap.Map<string, FileRef>
    const total: nat
    const listening: bool
    var received: Received
    ghost var reports: seq<Report>

    ghost predicate Valid()
      reads this
    {
      total == SumOfSizes(Values(targets)) && received == ApplyAll([], reports) && JsMap.Distinct(received)
    }

    constructor (targets: JsMap.Map<string, FileRef>, listening: bool)
      ensures Valid() && this.targets == targets && this.listening == listening
      ensures reports == [] && received == []
    {
      var sum := 0;
      for n := 0 to |targets|
        invariant sum == SumOfSizes(Values(targets)[..n])
      {
        assert Values(targets)[..n + 1][..n] == Values(targets)[..n];
        sum := sum + targets[n].1.size;
      }
      assert Values(targets)[..|targets|] == Values(targets);
      this.targets, this.total, this.listening := targets, sum, listening;
      received, reports := [], [];
    }

    method Emit(complete: bool, ref: FileRef) returns (e: Emitted)
      requires total == SumOfSizes(Values(targets))
      ensures e == if listening then Notice(targets, received, complete, ref) else Silent
    {
      if !listening {
        return Silent;
      }
      var key := FileRefKey(ref);
      var declared := JsMap.Get(targets, key);
      if declared.None? {
        return UnknownTarget;
      }
      var fileTotal := declared.value.size;
      var fileLoaded := if complete then fileTotal else Recorded(received, key);
      var sum := fileLoaded;
      for n := 0 to |received|
        invariant sum == fileLoaded + Others(received[..n], key)
      {
        assert received[..n + 1][..n] == received[..n];
        if received[n].0 != key {
          sum := sum + received[n].1;
        }
      }
      assert received[..|received|] == received;
      e := Event(complete, ref.path, sum, total, fileLoaded, fileTotal);
    }

    /** Records the cumulative bytes of one file and names the new overall value. */
    method Downloading(ref: FileRef, loaded: nat) returns (e: Emitted)
      requires Valid()
      modifies this
      ensures Valid() && reports == old(reports) + [Report.Downloading(ref, loaded)]
      ensures received == Apply(old(received), Report.Downloading(ref, loaded))
      ensures e == if listening then EventAfter(targets, reports) else Silent
      ensures e.Event? ==> e.loaded == Sum(received) && e.total == total && e.fileLoaded == loaded
    {
      JsMap.SetGet(received, FileRefKey(ref), loaded);
      received := JsMap.Set(received, FileRefKey(ref), loaded);
      reports := reports + [Report.Downloading(ref, loaded)];
      assert reports[..|reports| - 1] == old(reports);
      OthersAre(received, FileRefKey(ref));
      e := Emit(false, ref);
    }

    /** The end of one file: its whole declared size counts from here on. */
    method Complete(ref: FileRef) returns (e: Emitted)
      requires Valid()
      modifies this
      ensures Valid() && reports == old(reports) + [Report.Complete(ref)]
      ensures received == Apply(old(received), Report.Complete(ref))
      ensures e == if listening then EventAfter(targets, reports) else Silent
      ensures e.Event? ==> e.loaded == Sum(received) - ref.size + e.fileTotal && e.fileLoaded == e.fileTotal
    {
      JsMap.SetGet(received, FileRefKey(ref), ref.size);
      received := JsMap.Set(received, FileRefKey(ref), ref.size);
      reports := reports + [Report.Complete(ref)];
      assert reports[..|reports| - 1] == old(reports);
      OthersAre(received, FileRefKey(ref));
      e := Emit(true, ref);
    }
  }

  // ----- whole runs ---------------------------------------------------------------------------

  /** The report is for a target, does not shrink its file and does not exceed the file's size. */
  ghost predicate Allowed(targets: seq<FileRef>, m: Received, report: Report) {
    && report.ref in targets
    && Recorded(m, FileRefKey(report.ref)) <= report.Bytes() <= report.ref.size
  }

  ghost predicate WellBehaved(targets: seq<FileRef>, reports: seq<Report>) {
    reports != [] ==>
      var before := reports[..|reports| - 1];
      WellBehaved(targets, before) && Allowed(targets, ApplyAll([], before), reports[|reports| - 1])
  }

  lemma {:induction false} WellBehavedPrefix(targets: seq<FileRef>, reports: seq<Report>, n: nat)
    requires WellBehaved(targets, reports) && n <= |reports|
    ensures WellBehaved(targets, reports[..n])
    ensures n < |reports| ==> Allowed(targets, ApplyAll([], reports[..n]), reports[n])
  {
    if n == |reports| {
      assert reports[..n] == reports;
    } else {
      var before := reports[..|reports| - 1];
      WellBehavedPrefix(targets, before, n);
      assert before[..n] == reports[..n];
    }
  }

  ghost predicate AtMostDeclared(targets: seq<FileRef>, key: string, bytes: nat) {
    exists ref :: ref in targets && FileRefKey(ref) == key && bytes <= ref.size
  }

  ghost predicate Bounded(targets: seq<FileRef>, m: Received) {
    && JsMap.Distinct(m)
    && forall i :: 0 <= i < |m| ==> AtMostDeclared(targets, m[i].0, m[i].1)
  }

  lemma {:induction false} RunIsBounded(targets: seq<FileRef>, reports: seq<Report>)
    requires WellBehaved(targets, reports)
    ensures Bounded(targets, ApplyAll([], reports))
  {
    if reports != [] {
      var before, report := reports[..|reports| - 1], reports[|reports| - 1];
      RunIsBounded(targets, before);
      JsMap.SetGet(ApplyAll([], before), FileRefKey(report.ref), report.Bytes());
      assert AtMostDeclared(targets, FileRefKey(report.ref), report.Bytes());
    }
  }

  /** The recorded bytes of the targets, summed in target order. */
  function SumOfRecorded(targets: seq<FileRef>, m: Received): nat {
    if targets == [] then 0
    else SumOfRecorded(targets[..|targets| - 1], m) + Recorded(m, FileRefKey(targets[|targets| - 1]))
  }

  /** Counting file by file or entry by entry gives the same total. */
  lemma {:induction false} SumsAgree(targets: seq<FileRef>, m: Received)
    requires DistinctKeys(targets) && Bounded(targets, m)
    ensures Sum(m) == SumOfRecorded(targets, m)
  {
    if m == [] {
      NothingRecorded(targets);
    } else {
      var rest, key, bytes := m[..|m| - 1], m[|m| - 1].0, m[|m| - 1].1;
      SumsAgree(targets, rest);
      assert AtMostDeclared(targets, key, bytes);
      assert m == rest + [(key, bytes)];
      AddOne(targets, rest, key, bytes);
    }
  }

  lemma {:induction false} NothingRecorded(targets: seq<FileRef>)
    ensures SumOfRecorded(targets, []) == 0
  {
    if targets != [] {
      NothingRecorded(targets[..|targets| - 1]);
    }
  }

  lemma {:induction false} AddOne(targets: seq<FileRef>, m: Received, key: string, bytes: nat)
    requires DistinctKeys(targets) && JsMap.Distinct(m + [(key, bytes)])
    ensures SumOfRecorded(targets, m + [(key, bytes)]) ==
            SumOfRecorded(targets, m) + (if key in KeySet(targets) then bytes else 0)
  {
    var n := m + [(key, bytes)];
    if targets != [] {
      var before, last := targets[..|targets| - 1], targets[|targets| - 1];
      AddOne(before, m, key, bytes);
      assert targets == before + [last];
      KeySetAppend(before, [last]);
      assert FileRefKey([last][0]) in KeySet([last]);
      JsMap.GetEntry(n, |m|);
      var i, j := JsMap.IndexOf(m, FileRefKey(last)), JsMap.IndexOf(n, FileRefKey(last));
      if FileRefKey(last) != key {
        assert n[..|n| - 1] == m;
      }
      if key in KeySet(before) {
        var b :| 0 <= b < |before| && FileRefKey(before[b]) == key;
        assert FileRefKey(targets[b]) != FileRefKey(targets[|targets| - 1]);
      }
    }
  }

  lemma {:induction false} RecordedAtMostSizes(targets: seq<FileRef>, m: Received)
    requires forall j :: 0 <= j < |targets| ==> Recorded(m, FileRefKey(targets[j])) <= targets[j].size
    ensures SumOfRecorded(targets, m) <= SumOfSizes(targets)
    ensures SumOfRecorded(targets, m) == SumOfSizes(targets) <==>
            forall j :: 0 <= j < |targets| ==> Recorded(m, FileRefKey(targets[j])) == targets[j].size
  {
    if targets != [] {
      var before := targets[..|targets| - 1];
      RecordedAtMostSizes(before, m);
      assert forall j :: 0 <= j < |before| ==> before[j] == targets[j];
    }
  }

  lemma OwnDeclaration(targets: seq<FileRef>, m: Received, j: nat)
    requires DistinctKeys(targets) && Bounded(targets, m) && j < |targets|
    ensures Recorded(m, FileRefKey(targets[j])) <= targets[j].size
  {
    var i := JsMap.IndexOf(m, FileRefKey(targets[j]));
    if i >= 0 {
      assert AtMostDeclared(targets, m[i].0, m[i].1);
      var ref :| ref in targets && FileRefKey(ref) == m[i].0 && m[i].1 <= ref.size;
      var k :| 0 <= k < |targets| && targets[k] == ref;
      assert k == j;
    }
  }

  /** The recorded sum never decreases and reaches the sum of the sizes when every file has all its bytes. */
  lemma SumsOverRun(targets: seq<FileRef>, reports: seq<Report>, n: nat)
    requires DistinctKeys(targets) && WellBehaved(targets, reports) && n <= |reports|
    ensures var m := ApplyAll([], reports[..n]);
            && (n < |reports| ==> Sum(m) <= Sum(ApplyAll([], reports[..n + 1])))
            && Sum(m) <= SumOfSizes(targets)
            && (Sum(m) == SumOfSizes(targets) <==>
                forall j :: 0 <= j < |targets| ==> Recorded(m, FileRefKey(targets[j])) == targets[j].size)
  {
    var m := ApplyAll([], reports[..n]);
    WellBehavedPrefix(targets, reports, n);
    RunIsBounded(targets, reports[..n]);
    if n < |reports| {
      assert reports[..n + 1][..n] == reports[..n];
      NeverGoesBackIff(m, reports[n]);
    }
    SumsAgree(targets, m);
    forall j | 0 <= j < |targets|
      ensures Recorded(m, FileRefKey(targets[j])) <= targets[j].size
    {
      OwnDeclaration(targets, m, j);
    }
    RecordedAtMostSizes(targets, m);
  }

  /** Once complete, a file keeps its size: a later report of it can only name the same bytes. */
  lemma {:induction false} CompletedStaysFull(targets: seq<FileRef>, reports: seq<Report>, j: nat)
    requires DistinctKeys(targets) && WellBehaved(targets, reports)
    requires j < |targets| && Complete(targets[j]) in reports
    ensures Recorded(ApplyAll([], reports), FileRefKey(targets[j])) == targets[j].size
  {
    var before, last := reports[..|reports| - 1], reports[|reports| - 1];
    RunIsBounded(targets, before);
    JsMap.SetGet(ApplyAll([], before), FileRefKey(last.ref), last.Bytes());
    if last != Complete(targets[j]) {
      assert reports == before + [last];
      CompletedStaysFull(targets, before, j);
      var k :| 0 <= k < |targets| && targets[k] == last.ref;
      assert FileRefKey(last.ref) == FileRefKey(targets[j]) ==> k == j;
    }
  }

  ghost predicate AllCompleted(targets: seq<FileRef>, reports: seq<Report>) {
    forall j :: 0 <= j < |targets| ==> Complete(targets[j]) in reports
  }

  /** The file last reported is declared, and has just what was reported for it. */
  lemma LastReported(targets: JsMap.Map<string, FileRef>, reports: seq<Report>)
    requires ByKey(targets) && WellBehaved(Values(targets), reports) && reports != []
    ensures var last := reports[|reports| - 1];
            && JsMap.Get(targets, FileRefKey(last.ref)) == Some(last.ref)
            && Recorded(ApplyAll([], reports), FileRefKey(last.ref)) == last.Bytes() <= last.ref.size
  {
    var before, last := reports[..|reports| - 1], reports[|reports| - 1];
    var i :| 0 <= i < |Values(targets)| && Values(targets)[i] == last.ref;
    JsMap.GetEntry(targets, i);
    RunIsBounded(Values(targets), before);
    JsMap.SetGet(ApplyAll([], before), FileRefKey(last.ref), last.Bytes());
  }

  /** An event that names the file and bytes of the report, the total, and overall what is recorded. */
  ghost predicate Announces(targets: JsMap.Map<string, FileRef>, m: Received, last: Report, e: Emitted) {
    && e.Event? && e.complete == last.Complete? && e.path == last.ref.path
    && e.fileLoaded == (if last.Complete? then last.ref.size else last.bytes) && e.fileTotal == last.ref.size
    && e.loaded == Sum(m) && e.total == SumOfSizes(Values(targets))
  }

  lemma NoticeIsSum(targets: JsMap.Map<string, FileRef>, m: Received, last: Report)
    requires JsMap.Distinct(m) && JsMap.Get(targets, FileRefKey(last.ref)) == Some(last.ref)
    requires Recorded(m, FileRefKey(last.ref)) == last.Bytes()
    ensures Announces(targets, m, last, Notice(targets, m, last.Complete?, last.ref))
  {
    OthersAre(m, FileRefKey(last.ref));
  }

  /** Report i is the last one of the file. */
  ghost predicate LastOf(reports: seq<Report>, key: string, i: nat) {
    && i < |reports| && FileRefKey(reports[i].ref) == key
    && forall j :: i < j < |reports| ==> FileRefKey(reports[j].ref) != key
  }

  lemma ApplyIsLast(reports: seq<Report>, key: string)
    requires reports != []
    ensures var last := reports[|reports| - 1];
            Recorded(ApplyAll([], reports), key) ==
            if FileRefKey(last.ref) == key then last.Bytes() else Recorded(ApplyAll([], reports[..|reports| - 1]), key)
  {
    var before, last := reports[..|reports| - 1], reports[|reports| - 1];
    KeysStayDistinct(before);
    JsMap.SetGet(ApplyAll([], before), FileRefKey(last.ref), last.Bytes());
  }

  lemma {:induction false} KeysStayDistinct(reports: seq<Report>)
    ensures JsMap.Distinct(ApplyAll([], reports))
  {
    if reports != [] {
      var before, last := reports[..|reports| - 1], reports[|reports| - 1];
      KeysStayDistinct(before);
      JsMap.SetGet(ApplyAll([], before), FileRefKey(last.ref), last.Bytes());
    }
  }

  /** What counts for a file is what its last report said: the bytes it named, or the size if it was complete. */
  lemma {:induction false} LastReportCounts(reports: seq<Report>, key: string, i: nat)
    requires LastOf(reports, key, i)
    ensures Recorded(ApplyAll([], reports), key) == if reports[i].Complete? then reports[i].ref.size else reports[i].bytes
  {
    ApplyIsLast(reports, key);
    if i < |reports| - 1 {
      LastReportCounts(reports[..|reports| - 1], key, i);
    }
  }

  lemma {:induction false} UnreportedCountsNothing(reports: seq<Report>, key: string)
    requires forall i :: 0 <= i < |reports| ==> FileRefKey(reports[i].ref) != key
    ensures Recorded(ApplyAll([], reports), key) == 0
  {
    if reports != [] {
      ApplyIsLast(reports, key);
      UnreportedCountsNothing(reports[..|reports| - 1], key);
    }
  }

  /** In a well-behaved run every report is announced: its own file and bytes, and the sum of what all files have. */
  lemma EventIsSum(targets: JsMap.Map<string, FileRef>, reports: seq<Report>)
    requires ByKey(targets) && WellBehaved(Values(targets), reports) && reports != []
    ensures Announces(targets, ApplyAll([], reports), reports[|reports| - 1], EventAfter(targets, reports))
  {
    var last := reports[|reports| - 1];
    LastReported(targets, reports);
    RunIsBounded(Values(targets), reports);
    NoticeIsSum(targets, ApplyAll([], reports), last);
  }

  ghost predicate GoesOn(e: Emitted, next: Emitted) {
    e.Event? && next.Event? && e.loaded <= next.loaded && e.total == next.total
  }

  /**
    Over every well-behaved run of reports the events name one fixed total; `loaded` never decreases and
    never exceeds it, equals it exactly when every file has all its bytes, and in particular from the
    moment every file was reported complete.
   */
  lemma ProgressOverRun(targets: JsMap.Map<string, FileRef>, reports: seq<Report>, n: nat)
    requires ByKey(targets) && WellBehaved(Values(targets), reports) && 0 < n <= |reports|
    ensures var e, files := EventAfter(targets, reports[..n]), Values(targets);
            && e.Event? && e.total == SumOfSizes(files) && e.loaded <= e.total
            && (n < |reports| ==> GoesOn(e, EventAfter(targets, reports[..n + 1])))
            && (e.loaded == e.total <==> forall j :: 0 <= j < |files| ==>
                  Recorded(ApplyAll([], reports[..n]), FileRefKey(files[j])) == files[j].size)
            && (AllCompleted(files, reports[..n]) ==> e.loaded == e.total)
  {
    var files := Values(targets);
    SumsOverRun(files, reports, n);
    WellBehavedPrefix(files, reports, n);
    EventIsSum(targets, reports[..n]);
    if n < |reports| {
      WellBehavedPrefix(files, reports, n + 1);
      EventIsSum(targets, reports[..n + 1]);
    }
    if AllCompleted(files, reports[..n]) {
      forall j | 0 <= j < |files|
        ensures Recorded(ApplyAll([], reports[..n]), FileRefKey(files[j])) == files[j].size
      {
        CompletedStaysFull(files, reports[..n], j);
      }
    }
  }
}
