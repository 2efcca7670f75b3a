// The frozen qualification matrix: which manifests are accepted, and the loop that runs their cells in
// order under source and binary custody checkpoints.
module Qualification {
  import opened Prelude

  const MAX_CELLS: nat := 256

  // One cell: its identity, the exact test it selects, its binary and the earlier cells it depends on.
  datatype Selector = Selector(package: string, kind: string, target: string, test: string)
  datatype Cell = Cell(id: string, selector: Selector, dependsOn: seq<string>)

  type Target = (string, string, string)

  function TargetOf(c: Cell): Target { (c.selector.package, c.selector.kind, c.selector.target) }

  // ---------------------------------------------------------------------------
  // Validation
  // ---------------------------------------------------------------------------

  predicate Distinct<T(==)>(s: seq<T>) { forall i, j :: 0 <= i < j < |s| ==> s[i] != s[j] }

  // The first n cells have distinct identities and selectors and depend, without repetition, only on
  // cells before them.
  predicate WellOrdered(cells: seq<Cell>, n: nat)
    requires n <= |cells|
  {
    && (forall i, j :: 0 <= i < j < n ==> cells[i].id != cells[j].id && cells[i].selector != cells[j].selector)
    && (forall i, d :: 0 <= i < n && d in cells[i].dependsOn ==> exists k :: 0 <= k < i && cells[k].id == d)
    && (forall i :: 0 <= i < n ==> Distinct(cells[i].dependsOn))
  }

  predicate Covers(cells: seq<Cell>, required: set<Selector>) {
    forall s :: s in required ==> exists i :: 0 <= i < |cells| && cells[i].selector == s
  }

  // Accepts exactly the manifests whose cells are well ordered and cover every required selector.
  method Validate(cells: seq<Cell>, required: set<Selector>) returns (ok: bool)
    ensures ok <==> 0 < |cells| <= MAX_CELLS && WellOrdered(cells, |cells|) && Covers(cells, required)
  {
    if cells == [] || |cells| > MAX_CELLS { return false; }
    var ids: set<string> := {};
    var coverage: set<Selector> := {};
    for i := 0 to |cells|
      invariant WellOrdered(cells, i)
      invariant forall d :: d in ids <==> exists k :: 0 <= k < i && cells[k].id == d
      invariant forall s :: s in coverage <==> exists k :: 0 <= k < i && cells[k].selector == s
    {
      var cell := cells[i];
      if cell.id in ids { return false; }
      if !Distinct(cell.dependsOn) || exists d :: d in cell.dependsOn && d !in ids { return false; }
      ids := ids + {cell.id};
      if cell.selector in coverage { return false; }
      coverage := coverage + {cell.selector};
    }
    return required <= coverage;
  }

  // ---------------------------------------------------------------------------
  // What a run meets
  // ---------------------------------------------------------------------------

  datatype Check = Unreadable | Changed | Same
  datatype Process = Unknown | TestFailed | TestPassed

  // What happens around one cell: the checkpoints before it, its process, and the checkpoints after.
  datatype Outcome = Outcome(
    sourceBefore: Check, binaryBefore: Check, process: Process, binaryAfter: Check, sourceAfter: Check)

  datatype CellStatus = Passed | FailedTest | SkippedDependency | MissingBinary | OutcomeUnknown | CustodyError
  datatype Status =
    | Running | AllPassed | SomeFailed | ManifestTargetError
    | StaleSource | StaleBinary | SourceCustodyError | BinaryCustodyError | UnknownOutcome

  datatype Record = Record(id: string, status: CellStatus)

  // A cell whose process was started.
  predicate Started(s: CellStatus) { s.Passed? || s.FailedTest? || s.OutcomeUnknown? || s.CustodyError? }

  predicate Unbroken(o: Outcome) {
    o == Outcome(Same, Same, TestPassed, Same, Same)
  }

  predicate AllUnbroken(outcomes: seq<Outcome>) { forall i :: 0 <= i < |outcomes| ==> Unbroken(outcomes[i]) }

  function ExitCode(s: Status): nat {
    match s
    case AllPassed => 0
    case SomeFailed => 1
    case ManifestTargetError => 1
    case Running => 1
    case _ => 2
  }

  // ---------------------------------------------------------------------------
  // What the report promises
  // ---------------------------------------------------------------------------

  // A record of cell i is about cell i.
  predicate PrefixOf(cells: seq<Cell>, records: seq<Record>) {
    |records| <= |cells| && forall i :: 0 <= i < |records| ==> records[i].id == cells[i].id
  }

  // Every direct dependency of cell i was recorded as passed before it.
  predicate DependenciesPassed(cells: seq<Cell>, records: seq<Record>, i: nat)
    requires i < |cells|
  {
    forall d :: d in cells[i].dependsOn ==> exists k :: 0 <= k < i && k < |records| && records[k] == Record(d, Passed)
  }

  // A custody break or an unknown outcome.
  predicate Breaks(o: Outcome) {
    || o.sourceBefore != Same || o.binaryBefore != Same
    || o.process.Unknown?
    || o.binaryAfter != Same || o.sourceAfter != Same
  }

  // What the report says of a cell that started: CustodyError when a checkpoint after it was unreadable,
  // and otherwise how its process ended.
  function Verdict(o: Outcome): CellStatus {
    match o.process
    case Unknown => OutcomeUnknown
    case TestFailed => if o.binaryAfter == Unreadable || o.sourceAfter == Unreadable then CustodyError else FailedTest
    case TestPassed => if o.binaryAfter == Unreadable || o.sourceAfter == Unreadable then CustodyError else Passed
  }

  // What the report says of cell i, given the records before it.
  function StatusAt(cells: seq<Cell>, records: seq<Record>, outcomes: seq<Outcome>, i: nat): CellStatus
    requires i < |cells| == |outcomes|
  {
    if DependenciesPassed(cells, records, i) then Verdict(outcomes[i]) else SkippedDependency
  }

  // Cell i is recorded with its own outcome exactly when its dependencies passed, and else as skipped.
  predicate Reported(cells: seq<Cell>, records: seq<Record>, outcomes: seq<Outcome>, i: nat)
    requires i < |records| <= |cells| == |outcomes|
  {
    records[i] == Record(cells[i].id, StatusAt(cells, records, outcomes, i))
  }

  predicate Faithful(cells: seq<Cell>, records: seq<Record>, outcomes: seq<Outcome>)
    requires |outcomes| == |cells|
  {
    |records| <= |cells| && forall i :: 0 <= i < |records| ==> Reported(cells, records, outcomes, i)
  }

  // A cell that is allowed to start meets a break.
  predicate BrokenAt(cells: seq<Cell>, records: seq<Record>, outcomes: seq<Outcome>, i: nat)
    requires |outcomes| == |cells|
  {
    i < |cells| && DependenciesPassed(cells, records, i) && Breaks(outcomes[i])
  }

  predicate NoBreakBefore(cells: seq<Cell>, records: seq<Record>, outcomes: seq<Outcome>, n: nat)
    requires |outcomes| == |cells|
  {
    forall i :: 0 <= i < n ==> !BrokenAt(cells, records, outcomes, i)
  }

  // The checkpoints before the cell, and those after it, held.
  predicate HeldBefore(o: Outcome) { o.sourceBefore == Same && o.binaryBefore == Same }
  predicate ReadableAfter(o: Outcome) { o.binaryAfter != Unreadable && o.sourceAfter != Unreadable }

  // Why a run stops: which checkpoint could not be read or had changed, the binary's told apart from the
  // source's, or that the process's outcome is unknown.
  predicate Explains(s: Status, o: Outcome) {
    var ended := HeldBefore(o) && o.process != Unknown;
    match s
    case SourceCustodyError => o.sourceBefore == Unreadable || (ended && !ReadableAfter(o))
    case StaleSource =>
      o.sourceBefore == Changed || (ended && ReadableAfter(o) && o.binaryAfter == Same && o.sourceAfter == Changed)
    case BinaryCustodyError => o.sourceBefore == Same && o.binaryBefore == Unreadable
    case StaleBinary =>
      o.sourceBefore == Same && (o.binaryBefore == Changed || (ended && ReadableAfter(o) && o.binaryAfter == Changed))
    case UnknownOutcome => HeldBefore(o) && o.process == Unknown
    case _ => false
  }

  // There is one reason at most.
  lemma OneReason(s: Status, s': Status, o: Outcome)
    requires Explains(s, o) && Explains(s', o)
    ensures s == s'
  {
  }

  // ---------------------------------------------------------------------------
  // One cell
  // ---------------------------------------------------------------------------

  // The record a cell leaves, if any, and the status that stops the run (Running to go on).
  method RunCell(o: Outcome, hasBinary: bool) returns (record: Option<CellStatus>, status: Status)
    ensures hasBinary ==> (status != Running <==> Breaks(o))
    ensures status != Running ==> ExitCode(status) == 2 && Explains(status, o)
    ensures hasBinary ==> (record.None? <==> o.sourceBefore != Same || o.binaryBefore != Same)
    ensures hasBinary && record.Some? ==> record.value == Verdict(o)
  {
    if o.sourceBefore == Unreadable { return None, SourceCustodyError; }
    if o.sourceBefore == Changed { return None, StaleSource; }
    if !hasBinary { return Some(MissingBinary), Running; }
    if o.binaryBefore == Unreadable { return None, BinaryCustodyError; }
    if o.binaryBefore == Changed { return None, StaleBinary; }
    if o.process == Unknown { return Some(OutcomeUnknown), UnknownOutcome; }
    if o.binaryAfter == Unreadable || o.sourceAfter == Unreadable { return Some(CustodyError), SourceCustodyError; }
    record := Some(if o.process == TestPassed then Passed else FailedTest);
    if o.binaryAfter == Changed { return record, StaleBinary; }
    if o.sourceAfter == Changed { return record, StaleSource; }
    return record, Running;
  }

  // ---------------------------------------------------------------------------
  // All cells
  // ---------------------------------------------------------------------------

  // The report's status table names exactly the recorded cells, each with its last status.
  ghost predicate Tabulates(statuses: map<string, CellStatus>, cells: seq<Cell>, records: seq<Record>) {
    && PrefixOf(cells, records)
    && (forall i :: 0 <= i < |records| ==> records[i].id in statuses && statuses[records[i].id] == records[i].status)
    && (forall d :: d in statuses ==> exists i :: 0 <= i < |records| && records[i].id == d)
  }

  lemma TableDecides(statuses: map<string, CellStatus>, cells: seq<Cell>, records: seq<Record>, i: nat)
    requires Tabulates(statuses, cells, records) && |records| == i < |cells|
    ensures DependenciesPassed(cells, records, i)
       <==> forall d :: d in cells[i].dependsOn ==> d in statuses && statuses[d] == Passed
  {
    if DependenciesPassed(cells, records, i) {
      forall d | d in cells[i].dependsOn ensures d in statuses && statuses[d] == Passed {
        var k :| 0 <= k < i && k < |records| && records[k] == Record(d, Passed);
        assert records[k].id in statuses;
      }
    }
    forall d | d in cells[i].dependsOn && d in statuses && statuses[d] == Passed
      ensures exists k :: 0 <= k < i && k < |records| && records[k] == Record(d, Passed)
    {
      var k :| 0 <= k < |records| && records[k].id == d;
      assert records[k] == Record(d, Passed);
    }
  }

  lemma TableGrows(statuses: map<string, CellStatus>, cells: seq<Cell>, records: seq<Record>, status: CellStatus)
    requires WellOrdered(cells, |cells|) && Tabulates(statuses, cells, records) && |records| < |cells|
    ensures Tabulates(statuses[cells[|records|].id := status], cells, records + [Record(cells[|records|].id, status)])
  {
    var n := |records|;
    var more := records + [Record(cells[n].id, status)];
    forall d | d in statuses ensures exists i :: 0 <= i < |more| && more[i].id == d {
      var i :| 0 <= i < |records| && records[i].id == d;
      assert more[i].id == d;
    }
    assert more[n].id == cells[n].id;
  }

  // Adding a record leaves what the cells so far depended on alone.
  lemma EarlierUnaffected(cells: seq<Cell>, records: seq<Record>, r: Record, i: nat)
    requires i <= |records| && i < |cells|
    ensures DependenciesPassed(cells, records + [r], i) <==> DependenciesPassed(cells, records, i)
  {
    var more := records + [r];
    forall d | d in cells[i].dependsOn
      ensures (exists k :: 0 <= k < i && k < |records| && records[k] == Record(d, Passed))
         <==> exists k :: 0 <= k < i && k < |more| && more[k] == Record(d, Passed)
    {
      if k :| 0 <= k < i && k < |records| && records[k] == Record(d, Passed) { assert more[k] == records[k]; }
      if k :| 0 <= k < i && k < |more| && more[k] == Record(d, Passed) { assert more[k] == records[k]; }
    }
  }

  // One more cell, recorded as its outcome and dependencies say, keeps the report faithful.
  lemma ReportGrows(cells: seq<Cell>, records: seq<Record>, outcomes: seq<Outcome>, status: CellStatus)
    requires |records| < |cells| == |outcomes| && Faithful(cells, records, outcomes)
    requires NoBreakBefore(cells, records, outcomes, |records|)
    requires status == StatusAt(cells, records, outcomes, |records|)
    ensures var more := records + [Record(cells[|records|].id, status)];
            Faithful(cells, more, outcomes) && NoBreakBefore(cells, more, outcomes, |records|)
            && (BrokenAt(cells, more, outcomes, |records|) <==> BrokenAt(cells, records, outcomes, |records|))
  {
    var r := Record(cells[|records|].id, status);
    forall i | 0 <= i <= |records|
      ensures DependenciesPassed(cells, records + [r], i) <==> DependenciesPassed(cells, records, i)
    {
      EarlierUnaffected(cells, records, r, i);
    }
    forall i | 0 <= i < |records| ensures Reported(cells, records + [r], outcomes, i) {
      assert Reported(cells, records, outcomes, i);
    }
    forall i | 0 <= i < |records| ensures !BrokenAt(cells, records + [r], outcomes, i) {
      assert !BrokenAt(cells, records, outcomes, i);
    }
  }

  // If every cell before cell i passed, so did its dependencies.
  lemma AllBeforePassed(cells: seq<Cell>, records: seq<Record>, i: nat)
    requires WellOrdered(cells, |cells|) && i < |cells| && i <= |records|
    requires forall k :: 0 <= k < i ==> records[k] == Record(cells[k].id, Passed)
    ensures DependenciesPassed(cells, records, i)
  {
    forall d | d in cells[i].dependsOn
      ensures exists k :: 0 <= k < i && k < |records| && records[k] == Record(d, Passed)
    {
      var k :| 0 <= k < i && cells[k].id == d;
      assert records[k] == Record(d, Passed);
    }
  }

  // If the first n outcomes are unbroken then the first n cells all started and passed.
  lemma {:induction false} UnbrokenPasses(cells: seq<Cell>, records: seq<Record>, outcomes: seq<Outcome>, n: nat)
    requires |outcomes| == |cells| && WellOrdered(cells, |cells|) && n <= |records|
    requires Faithful(cells, records, outcomes)
    requires forall i :: 0 <= i < n ==> Unbroken(outcomes[i])
    ensures forall i :: 0 <= i < n ==> records[i] == Record(cells[i].id, Passed)
  {
    if n > 0 {
      UnbrokenPasses(cells, records, outcomes, n - 1);
      AllBeforePassed(cells, records, n - 1);
      assert Reported(cells, records, outcomes, n - 1) && Unbroken(outcomes[n - 1]);
    }
  }

  // A complete report without a break shows only passes exactly when every outcome is unbroken.
  lemma CleanReport(cells: seq<Cell>, records: seq<Record>, outcomes: seq<Outcome>)
    requires |outcomes| == |cells| == |records| && WellOrdered(cells, |cells|) && Faithful(cells, records, outcomes)
    requires NoBreakBefore(cells, records, outcomes, |records|)
    ensures (forall i :: 0 <= i < |records| ==> records[i].status == Passed)
       <==> AllUnbroken(outcomes)
  {
    if AllUnbroken(outcomes) {
      UnbrokenPasses(cells, records, outcomes, |cells|);
    }
    if forall i :: 0 <= i < |records| ==> records[i].status == Passed {
      forall i | 0 <= i < |outcomes| ensures Unbroken(outcomes[i]) {
        assert records[i].status == Passed && Reported(cells, records, outcomes, i);
        assert !BrokenAt(cells, records, outcomes, i);
      }
    }
  }

  predicate AllPresent(cells: seq<Cell>, binaries: set<Target>) {
    forall i :: 0 <= i < |cells| ==> TargetOf(cells[i]) in binaries
  }

  // The report so far: the table tells it, it is faithful, and nothing has broken.
  ghost predicate InProgress(cells: seq<Cell>, outcomes: seq<Outcome>, records: seq<Record>,
      statuses: map<string, CellStatus>)
    requires |outcomes| == |cells|
  {
    && Tabulates(statuses, cells, records)
    && Faithful(cells, records, outcomes)
    && NoBreakBefore(cells, records, outcomes, |records|)
  }

  // The report after a cell was recorded: faithful, with no break before its last cell.
  ghost predicate Recorded(cells: seq<Cell>, outcomes: seq<Outcome>, records: seq<Record>)
    requires |outcomes| == |cells|
  {
    && Faithful(cells, records, outcomes)
    && forall i :: 0 <= i < |records| - 1 ==> !BrokenAt(cells, records, outcomes, i)
  }

  // The run stopped for what happened to the last recorded cell, or to the next one before it was recorded.
  ghost predicate StoppedFor(cells: seq<Cell>, outcomes: seq<Outcome>, records: seq<Record>, status: Status)
    requires |outcomes| == |cells|
  {
    || (BrokenAt(cells, records, outcomes, |records|) && Explains(status, outcomes[|records|]))
    || (records != [] && BrokenAt(cells, records, outcomes, |records| - 1) && Explains(status, outcomes[|records| - 1]))
  }

  // Where the run stands when it ends: the last recorded cell broke, or the next one broke before it
  // could be recorded.
  ghost predicate Broke(cells: seq<Cell>, outcomes: seq<Outcome>, records: seq<Record>)
    requires |outcomes| == |cells|
  {
    || BrokenAt(cells, records, outcomes, |records|)
    || (records != [] && BrokenAt(cells, records, outcomes, |records| - 1))
  }

  // Recording one more cell, as its outcome and dependencies say, goes on exactly when it did not break.
  lemma Recording(cells: seq<Cell>, outcomes: seq<Outcome>, records: seq<Record>, statuses: map<string,
      CellStatus>, status: CellStatus)
    requires WellOrdered(cells, |cells|) && |records| < |cells| == |outcomes|
    requires InProgress(cells, outcomes, records, statuses)
    requires status == StatusAt(cells, records, outcomes, |records|)
    ensures var id := cells[|records|].id;
            var more := records + [Record(id, status)];
            && Recorded(cells, outcomes, more)
            && if BrokenAt(cells, records, outcomes, |records|) then BrokenAt(cells, more, outcomes, |records|)
               else InProgress(cells, outcomes, more, statuses[id := status])
  {
    TableGrows(statuses, cells, records, status);
    ReportGrows(cells, records, outcomes, status);
  }

  // One turn of the loop.
  method TakeCell(cells: seq<Cell>, binaries: set<Target>, outcomes: seq<Outcome>,
                  records: seq<Record>, statuses: map<string, CellStatus>)
    returns (more: seq<Record>, table: map<string, CellStatus>, stop: Status)
    requires WellOrdered(cells, |cells|) && |outcomes| == |cells| && AllPresent(cells, binaries)
    requires |records| < |cells| && InProgress(cells, outcomes, records, statuses)
    ensures Recorded(cells, outcomes, more)
    ensures stop == Running ==> InProgress(cells, outcomes, more, table)
    ensures stop == Running ==> |more| == |records| + 1 && more[..|records|] == records
    ensures stop != Running ==> ExitCode(stop) == 2 && StoppedFor(cells, outcomes, more, stop)
  {
    var i := |records|;
    var cell := cells[i];
    TableDecides(statuses, cells, records, i);
    if exists d :: d in cell.dependsOn && !(d in statuses && statuses[d] == Passed) {
      Recording(cells, outcomes, records, statuses, SkippedDependency);
      more := records + [Record(cell.id, SkippedDependency)];
      return more, statuses[cell.id := SkippedDependency], Running;
    }
    var record;
    record, stop := RunCell(outcomes[i], TargetOf(cell) in binaries);
    if record.None? { return records, statuses, stop; }
    Recording(cells, outcomes, records, statuses, record.value);
    more := records + [Record(cell.id, record.value)];
    table := statuses[cell.id := record.value];
  }

  lemma BreakIsSeen(cells: seq<Cell>, outcomes: seq<Outcome>, records: seq<Record>)
    requires |outcomes| == |cells| && Broke(cells, outcomes, records)
    ensures !AllUnbroken(outcomes)
  {
    var i := if BrokenAt(cells, records, outcomes, |records|) then |records| else |records| - 1;
    assert Breaks(outcomes[i]) && !Unbroken(outcomes[i]);
  }

  // A report that reached the last cell without a break.
  lemma Completed(cells: seq<Cell>, outcomes: seq<Outcome>, records: seq<Record>, statuses: map<string, CellStatus>)
    requires WellOrdered(cells, |cells|) && |records| == |cells| == |outcomes|
    requires InProgress(cells, outcomes, records, statuses)
    ensures Recorded(cells, outcomes, records) && !Broke(cells, outcomes, records)
    ensures (forall i :: 0 <= i < |records| ==> records[i].status == Passed) <==> AllUnbroken(outcomes)
  {
    CleanReport(cells, records, outcomes);
  }

  // The loop over the cells, every target having been built. Its report is faithful to the outcomes and
  // stops at the first break; the exit code is 2 exactly when something broke, and 0 exactly when every
  // cell passed with every checkpoint unchanged.
  method RunCells(cells: seq<Cell>, binaries: set<Target>, outcomes: seq<Outcome>)
    returns (records: seq<Record>, status: Status)
    requires WellOrdered(cells, |cells|) && |outcomes| == |cells| && AllPresent(cells, binaries)
    ensures Recorded(cells, outcomes, records)
    ensures ExitCode(status) == 2 <==> Broke(cells, outcomes, records)
    ensures ExitCode(status) == 2 ==> StoppedFor(cells, outcomes, records, status)
    ensures |records| < |cells| ==> ExitCode(status) == 2
    ensures ExitCode(status) == 0 <==> AllUnbroken(outcomes)
    ensures ExitCode(status) == 0 ==> forall i :: 0 <= i < |records| ==> records[i].status == Passed
  {
    records := [];
    status := Running;
    var statuses: map<string, CellStatus> := map[];
    var runtimeFailed := false;
    for i := 0 to |cells|
      invariant |records| == i && InProgress(cells, outcomes, records, statuses)
      invariant !runtimeFailed <==> forall k :: 0 <= k < i ==> records[k].status == Passed
    {
      ghost var before := records;
      records, statuses, status := TakeCell(cells, binaries, outcomes, records, statuses);
      if status != Running {
        BreakIsSeen(cells, outcomes, records);
        return;
      }
      assert forall k :: 0 <= k < i ==> records[k] == before[k];
      runtimeFailed := runtimeFailed || records[i].status != Passed;
    }
    Completed(cells, outcomes, records, statuses);
    status := if runtimeFailed then SomeFailed else AllPassed;
  }

  // The run: without every named target nothing is started and the exit code is 1.
  method RunQualification(cells: seq<Cell>, binaries: set<Target>, outcomes: seq<Outcome>)
    returns (records: seq<Record>, exitCode: nat)
    requires WellOrdered(cells, |cells|) && |outcomes| == |cells|
    ensures exitCode == 0 <==> AllPresent(cells, binaries) && AllUnbroken(outcomes)
    ensures exitCode == 2 <==> AllPresent(cells, binaries) && Broke(cells, outcomes, records)
    ensures !AllPresent(cells, binaries) ==> records == [] && exitCode == 1
    ensures AllPresent(cells, binaries) ==> Recorded(cells, outcomes, records)
    ensures AllPresent(cells, binaries) && |records| < |cells| ==> exitCode == 2
  {
    if !AllPresent(cells, binaries) { return [], 1; }
    var status;
    records, status := RunCells(cells, binaries, outcomes);
    exitCode := ExitCode(status);
  }

  // A chain of cells, each depending on the next.
  ghost predicate Chain(cells: seq<Cell>, path: seq<nat>) {
    && path != []
    && (forall j :: 0 <= j < |path| ==> path[j] < |cells|)
    && (forall j :: 0 < j < |path| ==> cells[path[j]].id in cells[path[j - 1]].dependsOn)
  }

  // A dependency that passed is the earlier cell of that name, and its own dependencies passed.
  lemma PassedIsEarlier(cells: seq<Cell>, records: seq<Record>, outcomes: seq<Outcome>, i: nat, k: nat)
    requires |outcomes| == |cells| && WellOrdered(cells, |cells|) && Faithful(cells, records, outcomes)
    requires i < |cells| && k < |cells| && cells[k].id in cells[i].dependsOn && DependenciesPassed(cells, records, i)
    ensures k < i && k < |records| && records[k].status == Passed && DependenciesPassed(cells, records, k)
  {
    var d := cells[k].id;
    var m :| 0 <= m < i && m < |records| && records[m] == Record(d, Passed);
    assert Reported(cells, records, outcomes, m);
    assert cells[m].id == cells[k].id;
  }

  // Whatever a started cell depends on, at any distance, comes before it and had passed.
  lemma {:induction false} AllDependenciesPassed(cells: seq<Cell>, records: seq<Record>,
      outcomes: seq<Outcome>, path: seq<nat>)
    requires |outcomes| == |cells| && WellOrdered(cells, |cells|) && Faithful(cells, records, outcomes)
    requires Chain(cells, path) && |path| > 1
    requires path[0] < |records| && Started(records[path[0]].status)
    ensures path[|path| - 1] < path[0] && records[path[|path| - 1]].status == Passed
  {
    assert Reported(cells, records, outcomes, path[0]);
    assert cells[path[1]].id in cells[path[0]].dependsOn;
    PassedIsEarlier(cells, records, outcomes, path[0], path[1]);
    if |path| > 2 {
      var rest := path[1..];
      forall j | 0 < j < |rest| ensures cells[rest[j]].id in cells[rest[j - 1]].dependsOn {
        assert cells[path[j + 1]].id in cells[path[j + 1 - 1]].dependsOn;
      }
      AllDependenciesPassed(cells, records, outcomes, rest);
    }
  }

  // In the report's terms: a cell is skipped exactly when a dependency did not pass; of the others it says
  // whether the test passed or failed where both checkpoints after it could be read, that they could not, or
  // that the outcome is unknown.
  lemma ReportSays(cells: seq<Cell>, records: seq<Record>, outcomes: seq<Outcome>, i: nat)
    requires |outcomes| == |cells| && Faithful(cells, records, outcomes) && i < |records|
    ensures var o, status := outcomes[i], records[i].status;
      && records[i].id == cells[i].id
      && (status == SkippedDependency <==> !DependenciesPassed(cells, records, i))
      && (DependenciesPassed(cells, records, i) ==>
            && (status == Passed <==> o.process == TestPassed && ReadableAfter(o))
            && (status == FailedTest <==> o.process == TestFailed && ReadableAfter(o))
            && (status == CustodyError <==> o.process != Unknown && !ReadableAfter(o))
            && (status == OutcomeUnknown <==> o.process == Unknown))
  {
    assert Reported(cells, records, outcomes, i);
  }
}
