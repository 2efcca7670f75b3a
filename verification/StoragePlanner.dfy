// The SQLite storage planner: checked 64-bit arithmetic over sixteen b-trees, the write-ahead log
// (section 4.1 of the SQLite Database File Format) and its index (section 2 of the SQLite WAL-mode
// File Format), compared with the same plan over unbounded integers.
module StoragePlanner {
  import opened Prelude

  const MAX: nat := 0xFFFF_FFFF_FFFF_FFFF
  type u64 = x: int | 0 <= x <= 0xFFFF_FFFF_FFFF_FFFF

  function CheckedAdd(a: u64, b: u64): Option<u64> { if a + b <= MAX then Some(a + b) else None }
  function CheckedMul(a: u64, b: u64): Option<u64> { if a * b <= MAX then Some(a * b) else None }
  function CheckedSub(a: u64, b: u64): Option<u64> { if b <= a then Some(a - b) else None }
  function CheckedDiv(a: u64, b: u64): Option<u64> {
    if b == 0 then None else QuotientBound(a, b); Some(a / b)
  }
  function Represented(n: nat): Option<u64> { if n <= MAX then Some(n) else None }
  function SaturatingSub(a: u64, b: u64): u64 { if b <= a then a - b else 0 }
  function Times(a: nat, b: nat): nat { a * b }
  function Max(a: int, b: int): int { if a < b then b else a }

  datatype Workload = Workload(
    factEncodedBytes: u64, admittedFacts: u64, quarantinedFacts: u64, admittedBytes: u64,
    quarantinedBytes: u64, dependencyEdges: u64, authorUsageRows: u64, proofRecords: u64,
    proofBytes: u64, proofLinks: u64, provisionalRows: u64, dirtyMainPages: u64,
    uncheckpointedFrames: u64, freelistPages: u64, fragmentedPages: u64, mainJournalBytes: u64,
    liveCheckpointBytes: u64)

  function Fields(w: Workload): (f: seq<u64>)
    ensures |f| == 17
  {
    [w.factEncodedBytes, w.admittedFacts, w.quarantinedFacts, w.admittedBytes,
     w.quarantinedBytes, w.dependencyEdges, w.authorUsageRows, w.proofRecords,
     w.proofBytes, w.proofLinks, w.provisionalRows, w.dirtyMainPages,
     w.uncheckpointedFrames, w.freelistPages, w.fragmentedPages, w.mainJournalBytes,
     w.liveCheckpointBytes]
  }

  predicate Nonzero(w: Workload) { 0 !in Fields(w) }

  predicate Within(w: Workload, limits: Workload) {
    forall i :: 0 <= i < 17 ==> Fields(w)[i] <= Fields(limits)[i]
  }

  // The owner's limits are themselves a workload; the four lifecycle budgets stand beside them.
  datatype Policy = Policy(
    limits: Workload, maxDatabaseBytes: u64, maxWalBytes: u64, walCheckpointThresholdBytes: u64,
    emergencyReserveBytes: u64)

  datatype Envelope = Envelope(
    pageSizeBytes: nat, mainPages: nat, mainBytes: nat, mainJournalBytes: nat, walFrames: nat, walBytes: nat,
    walCheckpointFrames: nat, walCheckpointBytes: nat, walHardFrames: nat, walHardBytes: nat, shmBytes: nat,
    emergencyReserveBytes: nat, totalBytes: nat)

  datatype PlanError =
    | PageSizeZero | ExceedsLimits | FrameSizeOverflow | FrameCountOverflow | RetainedWalOverflow
    | HardWalOverflow | ThresholdBelowHeader | ThresholdMisaligned | GrowthOverflow | GrowthMismatch
    | WalCeiling | ShmOverflow | MainPagesOverflow | MainBytesOverflow | EnvelopeOverflow | EnvelopeTooLarge

  datatype Plan = Planned(envelope: Envelope) | Refused(error: PlanError)

  // ---------------------------------------------------------------------------
  // Constants
  // ---------------------------------------------------------------------------

  const WAL_HEADER_BYTES: u64 := 32
  const WAL_FRAME_OVERHEAD_BYTES: u64 := 24
  const SHM_CHUNK_BYTES: u64 := 32_768
  const SHM_FIRST_CHUNK_FRAMES: u64 := 4_062
  const SHM_FOLLOWING_CHUNK_FRAMES: u64 := 4_096
  const PAGE_HEADER_BYTES: u64 := 8
  const CELL_POINTER_BYTES: u64 := 2
  const RECORD_HEADER_BYTES: u64 := 13
  const FACT_ID_BYTES: u64 := 32
  const DEVICE_KEY_BYTES: u64 := 32
  const SQL_INTEGER_BYTES: u64 := 8
  const FACT_STATUS_MAX_BYTES: u64 := 11
  const FACT_DOMAIN_MAX_BYTES: u64 := 16
  const PROOF_STATE_MAX_BYTES: u64 := 12
  const META_KEY_MAX_BYTES: u64 := 18
  const COMMITMENT_NAME_MAX_BYTES: u64 := 10
  const INGRESS_OWNER_MAX_BYTES: u64 := 16
  const SEMANTIC_USAGE_COLUMNS: u64 := 9
  const PROOF_USAGE_COLUMNS: u64 := 7

  // ---------------------------------------------------------------------------
  // The plan over unbounded integers
  // ---------------------------------------------------------------------------

  function Ceil(a: nat, b: nat): nat
    requires b > 0
  {
    QuotientBound(a + b - 1, b);
    (a + b - 1) / b
  }

  function LeafCapacity(page: nat): nat requires page >= 12 { page - 10 }
  function InteriorCapacity(page: nat): nat requires page >= 12 { Max((page - 8) / 16, 2) }
  function OverflowCapacity(page: nat): nat requires page >= 12 { Max(page - 12, 1) }

  // Pages of one b-tree: leaves, interior pages, a worst-case overflow stream, and a root.
  function TreePages(page: nat, rows: nat, payload: nat): nat
    requires page >= 12
  {
    var leaves := Leaves(page, rows, payload);
    leaves + Ceil(leaves - 1, InteriorCapacity(page)) + Ceil(payload, OverflowCapacity(page)) + 1
  }

  function Leaves(page: nat, rows: nat, payload: nat): (n: nat)
    requires page >= 12
    ensures n >= 1
  {
    Max(Ceil(payload + 15 * rows, LeafCapacity(page)), 1)
  }

  function FactRows(w: Workload): nat { w.admittedFacts + w.quarantinedFacts }

  // Rows and bytes of one b-tree.
  type Tree = (nat, nat)

  predicate Representable(trees: seq<Tree>) {
    forall i :: 0 <= i < |trees| ==> trees[i].0 <= MAX && trees[i].1 <= MAX
  }

  // Rows and payload bytes of the ten tables.
  function Tables(w: Workload): (t: seq<Tree>)
    ensures |t| == 10
  {
    [(4, 93 + w.liveCheckpointBytes),
     (FactRows(w), w.admittedBytes + w.quarantinedBytes + FactRows(w) * 99),
     (1, 72),
     (w.authorUsageRows, w.authorUsageRows * 64),
     (w.dependencyEdges, w.dependencyEdges * 64),
     (w.provisionalRows, w.provisionalRows * 48),
     (w.proofRecords, w.proofBytes + w.proofRecords * 108),
     (w.proofLinks, w.proofLinks * 64),
     (1, 42),
     (1, 56)]
  }

  // Rows and bytes per key of the index trees.
  function PrimaryIndexes(w: Workload): (t: seq<Tree>)
    ensures |t| == 3
  {
    [(4, 18), (FactRows(w), 32), (w.proofRecords, 32)]
  }

  function SecondaryIndexes(w: Workload): (t: seq<Tree>)
    ensures |t| == 3
  {
    [(FactRows(w), 8), (w.dependencyEdges, 32), (w.proofRecords, 76)]
  }

  function SumTables(page: nat, trees: seq<Tree>): nat
    requires page >= 12
  {
    if trees == [] then 0
    else SumTables(page, trees[..|trees| - 1]) + TreePages(page, trees[|trees| - 1].0, trees[|trees| - 1].1)
  }

  function SumIndexes(page: nat, trees: seq<Tree>): nat
    requires page >= 12
  {
    if trees == [] then 0
    else
      var (rows, key) := trees[|trees| - 1];
      SumIndexes(page, trees[..|trees| - 1]) + TreePages(page, rows, Times(rows, key))
  }

  function SchemaPages(page: nat, w: Workload): nat
    requires page >= 12
  {
    1 + SumTables(page, Tables(w)) + SumIndexes(page, PrimaryIndexes(w)) + SumIndexes(page, SecondaryIndexes(w))
    + w.dirtyMainPages + w.freelistPages + w.fragmentedPages
  }

  function WalBytes(page: nat, frames: nat): nat { WAL_HEADER_BYTES + Times(frames, page + WAL_FRAME_OVERHEAD_BYTES) }

  // How many frames c chunks of the WAL index can describe.
  function ShmCapacity(c: nat): nat {
    if c == 0 then 0 else SHM_FIRST_CHUNK_FRAMES + (c - 1) * SHM_FOLLOWING_CHUNK_FRAMES
  }

  // The least number of chunks that describes all frames.
  function ShmChunks(frames: nat): (c: nat)
    ensures ShmCapacity(c) >= frames
    ensures c > 0 ==> ShmCapacity(c - 1) < frames
  {
    if frames == 0 then 0
    else if frames <= SHM_FIRST_CHUNK_FRAMES then 1
    else
      CeilBounds(frames - SHM_FIRST_CHUNK_FRAMES, SHM_FOLLOWING_CHUNK_FRAMES);
      Ceil(frames - SHM_FIRST_CHUNK_FRAMES, SHM_FOLLOWING_CHUNK_FRAMES) + 1
  }

  function ExactEnvelope(policy: Policy, page: nat, w: Workload): Envelope
    requires page >= 12
  {
    var pages := SchemaPages(page, w);
    var hardFrames := w.uncheckpointedFrames + w.dirtyMainPages;
    var hard := WalBytes(page, hardFrames);
    var shm := Times(SHM_CHUNK_BYTES, ShmChunks(hardFrames));
    Envelope(page, pages, Times(pages, page), w.mainJournalBytes, hardFrames, hard, w.uncheckpointedFrames,
             WalBytes(page, w.uncheckpointedFrames), hardFrames, hard, shm, policy.emergencyReserveBytes,
             Times(pages, page) + w.mainJournalBytes + hard + shm + policy.emergencyReserveBytes)
  }

  // When a plan truly fits.
  predicate Fits(policy: Policy, page: nat, w: Workload) {
    && page >= 12
    && Nonzero(w) && Within(w, policy.limits)
    && policy.walCheckpointThresholdBytes == WalBytes(page, w.uncheckpointedFrames)
    && ExactEnvelope(policy, page, w).walHardBytes <= policy.maxWalBytes
    && ExactEnvelope(policy, page, w).totalBytes <= policy.maxDatabaseBytes
  }

  // ---------------------------------------------------------------------------
  // Arithmetic
  // ---------------------------------------------------------------------------

  lemma MulMono(a: nat, b: nat, k: nat)
    requires a <= b
    ensures a * k <= b * k && k * a <= k * b
  {
    assert b * k == a * k + (b - a) * k;
  }

  lemma QuotientBound(a: nat, b: nat)
    requires b > 0
    ensures 0 <= a / b <= a
  {
    var q := a / b;
    assert a == q * b + a % b;
    MulMono(1, b, q);
  }

  // The least number of b-sized pieces that covers a.
  lemma CeilBounds(a: nat, b: nat)
    requires b > 0
    ensures Ceil(a, b) * b >= a
    ensures a > 0 ==> Ceil(a, b) > 0 && (Ceil(a, b) - 1) * b < a
  {
    var n := a + b - 1;
    assert n == n / b * b + n % b;
  }

  lemma Covers(page: nat, capacity: nat, q: nat, leaves: nat, total: nat, record: nat)
    requires capacity <= page && record <= q * capacity && q <= leaves && leaves + 1 <= total
    ensures Times(total, page) >= record + page
    ensures page >= 1 ==> leaves + page <= Times(total, page)
  {
    MulMono(q, leaves, capacity);
    MulMono(capacity, page, leaves);
    MulMono(leaves + 1, total, page);
    assert (leaves + 1) * page == leaves * page + page;
    if page >= 1 { MulMono(1, page, leaves); }
  }

  // The byte size of a tree covers its records and one page more.
  lemma TreeCovers(page: nat, rows: nat, payload: nat)
    requires page >= 12
    ensures Times(TreePages(page, rows, payload), page) >= payload + 15 * rows + page
    ensures Times(TreePages(page, rows, payload), page) >= Leaves(page, rows, payload) + page
    ensures TreePages(page, rows, payload) >= 2
  {
    CeilBounds(payload + 15 * rows, LeafCapacity(page));
    Covers(page, LeafCapacity(page), Ceil(payload + 15 * rows, LeafCapacity(page)), Leaves(page, rows, payload),
           TreePages(page, rows, payload), payload + 15 * rows);
  }

  // ---------------------------------------------------------------------------
  // The checked plan
  // ---------------------------------------------------------------------------

  // Rounding up, one addition and one division.
  function CheckedCeil(a: u64, b: u64): Option<u64>
    requires b > 0
  {
    var up :- CheckedAdd(a, b - 1);
    CheckedDiv(up, b)
  }

  function CheckedRecord(rows: u64, payload: u64): Option<u64> {
    var headers :- CheckedMul(rows, RECORD_HEADER_BYTES);
    var withHeaders :- CheckedAdd(payload, headers);
    var pointers :- CheckedMul(rows, CELL_POINTER_BYTES);
    CheckedAdd(withHeaders, pointers)
  }

  function CheckedTreePages(page: u64, rows: u64, payload: u64): Option<u64> {
    var usable :- CheckedSub(page, PAGE_HEADER_BYTES);
    var leafSpace :- CheckedSub(usable, CELL_POINTER_BYTES);
    var leafCapacity: u64 := Max(leafSpace, 1);
    QuotientBound(usable, 16);
    var interiorCapacity: u64 := Max(usable / 16, 2);
    var record :- CheckedRecord(rows, payload);
    var overflowSpace :- CheckedSub(usable, 4);
    CheckedTree(record, payload, leafCapacity, interiorCapacity, Max(overflowSpace, 1))
  }

  // Leaves, interior pages over them, the overflow stream, and a root.
  function CheckedTree(record: u64, payload: u64, leaf: u64, interior: u64, overflow: u64): Option<u64>
    requires leaf > 0 && interior > 0 && overflow > 0
  {
    var overflowPages :- CheckedCeil(payload, overflow);
    var leafQuotient :- CheckedCeil(record, leaf);
    var leaves: u64 := Max(leafQuotient, 1);
    var interiorPages :- CheckedCeil(SaturatingSub(leaves, 1), interior);
    var twoLevels :- CheckedAdd(leaves, interiorPages);
    var withOverflow :- CheckedAdd(twoLevels, overflowPages);
    CheckedAdd(withOverflow, 1)
  }

  lemma CheckedCeilIsExact(a: u64, b: u64)
    requires b > 0
    ensures CheckedCeil(a, b) == if a + b - 1 <= MAX then Some(Ceil(a, b)) else None
  {
  }

  lemma CheckedRecordIsExact(rows: u64, payload: u64)
    ensures CheckedRecord(rows, payload) == if payload + 15 * rows <= MAX then Some(payload + 15 * rows) else None
  {
  }

  predicate TreeRepresentable(page: nat, rows: nat, payload: nat)
    requires page >= 12
  {
    && payload + 15 * rows + page <= MAX
    && Leaves(page, rows, payload) + page <= MAX
    && TreePages(page, rows, payload) <= MAX
  }

  // For any capacities at all.
  lemma CapacitiesAreExact(record: u64, payload: u64, leaf: u64, interior: u64, overflow: u64)
    requires leaf > 0 && interior > 0 && overflow > 0
    ensures var leaves := Max(Ceil(record, leaf), 1);
      var pages := leaves + Ceil(leaves - 1, interior) + Ceil(payload, overflow) + 1;
      var checked := CheckedTree(record, payload, leaf, interior, overflow);
      && (checked.Some? ==> checked.value == pages)
      && (payload + overflow <= MAX && record + leaf <= MAX && leaves + interior <= MAX && pages <= MAX ==>
            checked.Some?)
  {
    CheckedCeilIsExact(payload, overflow);
    CheckedCeilIsExact(record, leaf);
    var leaves := Max(Ceil(record, leaf), 1);
    if leaves <= MAX { CheckedCeilIsExact(leaves - 1, interior); }
  }

  // The checked tree never answers wrongly, refuses every page below twelve bytes, and answers when
  // its records, its leaves and one page more are representable.
  lemma CheckedTreeIsExact(page: u64, rows: u64, payload: u64)
    ensures page < 12 ==> CheckedTreePages(page, rows, payload).None?
    ensures page >= 12 && CheckedTreePages(page, rows, payload).Some? ==>
              CheckedTreePages(page, rows, payload).value == TreePages(page, rows, payload)
    ensures page >= 12 && TreeRepresentable(page, rows, payload) ==> CheckedTreePages(page, rows, payload).Some?
  {
    CheckedRecordIsExact(rows, payload);
    if page >= 12 && payload + 15 * rows <= MAX { SmallTreeIsExact(page, rows, payload, payload + 15 * rows); }
  }

  lemma SmallTreeIsExact(page: u64, rows: u64, payload: u64, record: u64)
    requires page >= 12 && record == payload + 15 * rows && CheckedRecord(rows, payload) == Some(record)
    ensures CheckedTreePages(page, rows, payload).Some? ==>
              CheckedTreePages(page, rows, payload).value == TreePages(page, rows, payload)
    ensures TreeRepresentable(page, rows, payload) ==> CheckedTreePages(page, rows, payload).Some?
  {
    QuotientBound(page - 8, 16);
    var leaf, interior, overflow := LeafCapacity(page), InteriorCapacity(page), OverflowCapacity(page);
    CapacitiesAreExact(record, payload, leaf, interior, overflow);
  }

  lemma {:induction false} TablesPrefix(page: nat, trees: seq<Tree>, i: nat)
    requires page >= 12 && i < |trees|
    ensures SumTables(page, trees[..i + 1]) == SumTables(page, trees[..i]) + TreePages(page, trees[i].0, trees[i].1)
    ensures SumTables(page, trees[..i + 1]) <= SumTables(page, trees)
    decreases |trees| - i
  {
    assert trees[..i + 1][..i] == trees[..i];
    if i + 1 == |trees| {
      assert trees[..i + 1] == trees;
    } else {
      TablesPrefix(page, trees, i + 1);
    }
  }

  lemma {:induction false} IndexesPrefix(page: nat, trees: seq<Tree>, i: nat)
    requires page >= 12 && i < |trees|
    ensures SumIndexes(page, trees[..i + 1])
         == SumIndexes(page, trees[..i]) + TreePages(page, trees[i].0, Times(trees[i].0, trees[i].1))
    ensures SumIndexes(page, trees[..i + 1]) <= SumIndexes(page, trees)
    decreases |trees| - i
  {
    assert trees[..i + 1][..i] == trees[..i];
    if i + 1 == |trees| {
      assert trees[..i + 1] == trees;
    } else {
      IndexesPrefix(page, trees, i + 1);
    }
  }

  // Every tree of a plan whose main bytes are representable can be computed without overflow.
  lemma TreeFits(page: u64, total: nat, rows: nat, payload: nat)
    requires page >= 12 && TreePages(page, rows, payload) <= total && Times(total, page) <= MAX
    ensures payload + 15 * rows <= MAX && total <= MAX
    ensures CheckedTreePages(page, rows, payload) == Some(TreePages(page, rows, payload))
  {
    TreeCovers(page, rows, payload);
    MulMono(TreePages(page, rows, payload), total, page);
    MulMono(1, page, total);
    CheckedTreeIsExact(page, rows, payload);
  }

  function CheckedTables(w: Workload): Option<seq<Tree>> {
    var factRows :- CheckedAdd(w.admittedFacts, w.quarantinedFacts);
    var factBytes :- CheckedAdd(w.admittedBytes, w.quarantinedBytes);
    var factColumns :- CheckedMul(
      factRows, FACT_ID_BYTES + FACT_STATUS_MAX_BYTES + DEVICE_KEY_BYTES + FACT_DOMAIN_MAX_BYTES + SQL_INTEGER_BYTES);
    var factPayload :- CheckedAdd(factBytes, factColumns);
    var fixedPayload := (META_KEY_MAX_BYTES + SQL_INTEGER_BYTES) + (10 + FACT_ID_BYTES) + (13 + 12);
    var metaPayload :- CheckedAdd(fixedPayload, w.liveCheckpointBytes);
    var authorPayload :- CheckedMul(w.authorUsageRows, DEVICE_KEY_BYTES + 4 * SQL_INTEGER_BYTES);
    var edgePayload :- CheckedMul(w.dependencyEdges, 2 * FACT_ID_BYTES);
    var provisionalPayload :- CheckedMul(w.provisionalRows, FACT_ID_BYTES + INGRESS_OWNER_MAX_BYTES);
    var proofColumns :- CheckedMul(w.proofRecords, FACT_ID_BYTES * 3 + PROOF_STATE_MAX_BYTES);
    var proofPayload :- CheckedAdd(w.proofBytes, proofColumns);
    var linkPayload :- CheckedMul(w.proofLinks, 2 * FACT_ID_BYTES);
    Some([(4, metaPayload),
          (factRows, factPayload),
          (1, SEMANTIC_USAGE_COLUMNS * SQL_INTEGER_BYTES),
          (w.authorUsageRows, authorPayload),
          (w.dependencyEdges, edgePayload),
          (w.provisionalRows, provisionalPayload),
          (w.proofRecords, proofPayload),
          (w.proofLinks, linkPayload),
          (1, COMMITMENT_NAME_MAX_BYTES + FACT_ID_BYTES),
          (1, PROOF_USAGE_COLUMNS * SQL_INTEGER_BYTES)])
  }

  lemma CheckedTablesAreExact(w: Workload)
    ensures CheckedTables(w).Some? ==> CheckedTables(w).value == Tables(w) && Representable(Tables(w))
    ensures (forall i :: 0 <= i < 10 ==> Tables(w)[i].1 + 15 * Tables(w)[i].0 <= MAX) ==> CheckedTables(w).Some?
  {
    if forall i :: 0 <= i < 10 ==> Tables(w)[i].1 + 15 * Tables(w)[i].0 <= MAX {
      assert Tables(w)[0].1 <= MAX && Tables(w)[1].1 <= MAX && Tables(w)[3].1 <= MAX && Tables(w)[4].1 <= MAX;
      assert Tables(w)[5].1 <= MAX && Tables(w)[6].1 <= MAX && Tables(w)[7].1 <= MAX;
      assert Tables(w)[1].1 + 15 * Tables(w)[1].0 <= MAX;
    }
  }

  lemma TablesFit(page: u64, w: Workload)
    requires page >= 12 && Times(SchemaPages(page, w), page) <= MAX
    ensures forall i :: 0 <= i < 10 ==> Tables(w)[i].1 + 15 * Tables(w)[i].0 <= MAX
  {
    forall i | 0 <= i < 10 ensures Tables(w)[i].1 + 15 * Tables(w)[i].0 <= MAX {
      TablesPrefix(page, Tables(w), i);
      TreeFits(page, SchemaPages(page, w), Tables(w)[i].0, Tables(w)[i].1);
    }
  }

  // Whether the main file's bytes are representable at all.
  predicate MainFits(page: nat, w: Workload) {
    page >= 12 && Times(SchemaPages(page, w), page) <= MAX
  }

  // One accumulator over three loops, every addition checked. It refuses pages below twelve bytes,
  // never answers wrongly, and never refuses when the main file's bytes are representable.
  method CheckedSchemaPages(page: u64, w: Workload) returns (r: Option<u64>)
    ensures r.Some? ==> page >= 12 && r.value == SchemaPages(page, w)
    ensures MainFits(page, w) ==> r.Some?
  {
    if MainFits(page, w) {
      TablesFit(page, w);
      MulMono(1, page, SchemaPages(page, w));
    }
    ghost var total := if page >= 12 then SchemaPages(page, w) else 0;
    CheckedTablesAreExact(w);
    var tables := CheckedTables(w);
    if tables.None? { return None; }
    var factRows: u64 := tables.value[1].0;
    var pages := AddTables(page, 1, tables.value, total);
    if pages.None? { return None; }
    var primary := [(4, META_KEY_MAX_BYTES), (factRows, FACT_ID_BYTES), (w.proofRecords, FACT_ID_BYTES)];
    assert primary == PrimaryIndexes(w);
    pages := AddIndexes(page, pages.value, primary, total);
    if pages.None? { return None; }
    var secondary :=
      [(factRows, SQL_INTEGER_BYTES), (w.dependencyEdges, FACT_ID_BYTES), (w.proofRecords, 32 + 12 + 32)];
    assert secondary == SecondaryIndexes(w);
    pages := AddIndexes(page, pages.value, secondary, total);
    if pages.None? { return None; }
    pages := CheckedAdd(pages.value, w.dirtyMainPages);
    if pages.None? { return None; }
    pages := CheckedAdd(pages.value, w.freelistPages);
    if pages.None? { return None; }
    pages := CheckedAdd(pages.value, w.fragmentedPages);
    return pages;
  }

  // The loop over the tables: rows and payload bytes are given.
  method AddTables(page: u64, start: u64, trees: seq<Tree>, ghost total: nat) returns (r: Option<u64>)
    requires trees != [] && Representable(trees)
    ensures r.Some? ==> page >= 12 && r.value == start + SumTables(page, trees)
    ensures page >= 12 && start + SumTables(page, trees) <= total && Times(total, page) <= MAX ==> r.Some?
  {
    var pages := start;
    for i := 0 to |trees|
      invariant i > 0 ==> page >= 12
      invariant page >= 12 ==> pages == start + SumTables(page, trees[..i])
    {
      var (rows, payload) := trees[i];
      CheckedTreeIsExact(page, rows, payload);
      if page >= 12 {
        TablesPrefix(page, trees, i);
        if start + SumTables(page, trees) <= total && Times(total, page) <= MAX {
          TreeFits(page, total, rows, payload);
        }
      }
      var tree := CheckedTreePages(page, rows, payload);
      if tree.None? { return None; }
      var sum := CheckedAdd(pages, tree.value);
      if sum.None? { return None; }
      pages := sum.value;
    }
    assert trees[..|trees|] == trees;
    return Some(pages);
  }

  // The loop over one family of indexes: rows and bytes per key are given.
  method AddIndexes(page: u64, start: u64, trees: seq<Tree>, ghost total: nat) returns (r: Option<u64>)
    requires page >= 12 && Representable(trees)
    ensures r.Some? ==> r.value == start + SumIndexes(page, trees)
    ensures start + SumIndexes(page, trees) <= total && Times(total, page) <= MAX ==> r.Some?
  {
    var pages := start;
    ghost var fits := start + SumIndexes(page, trees) <= total && Times(total, page) <= MAX;
    for i := 0 to |trees|
      invariant pages == start + SumIndexes(page, trees[..i])
    {
      var (rows, key) := trees[i];
      IndexesPrefix(page, trees, i);
      if fits { TreeFits(page, total, rows, Times(rows, key)); }
      var payload := CheckedMul(rows, key);
      if payload.None? { return None; }
      CheckedTreeIsExact(page, rows, payload.value);
      var tree := CheckedTreePages(page, rows, payload.value);
      if tree.None? { return None; }
      var sum := CheckedAdd(pages, tree.value);
      if sum.None? { return None; }
      pages := sum.value;
    }
    assert trees[..|trees|] == trees;
    return Some(pages);
  }

  // ---------------------------------------------------------------------------
  // The envelope
  // ---------------------------------------------------------------------------

  function CheckedShmBytes(frames: u64): Option<u64> {
    if frames == 0 then Some(0)
    else if frames <= SHM_FIRST_CHUNK_FRAMES then CheckedMul(SHM_CHUNK_BYTES, 1)
    else
      var up :- CheckedAdd(frames - SHM_FIRST_CHUNK_FRAMES, SHM_FOLLOWING_CHUNK_FRAMES - 1);
      var quotient :- CheckedDiv(up, SHM_FOLLOWING_CHUNK_FRAMES);
      var chunks :- CheckedAdd(quotient, 1);
      CheckedMul(SHM_CHUNK_BYTES, chunks)
  }

  // The checked index size answers exactly when the exact one is representable, and is it.
  lemma CheckedShmIsExact(frames: u64)
    ensures CheckedShmBytes(frames) == Represented(Times(SHM_CHUNK_BYTES, ShmChunks(frames)))
  {
  }

  lemma Aligned(payload: nat, frame: nat, frames: nat)
    requires frame > 0
    ensures payload % frame == 0 && payload / frame == frames <==> payload == Times(frames, frame)
  {
    var q, r := payload / frame, payload % frame;
    assert payload == q * frame + r;
    if payload == frames * frame {
      assert (q - frames) * frame == -r;
      if q < frames { MulMono(1, frames - q, frame); }
      if q > frames { MulMono(1, q - frames, frame); }
    }
  }

  // Checkpoint and hard sizes of the log.
  datatype Wal = Wal(frame: u64, hardFrames: u64, checkpointBytes: u64, hardBytes: u64) | WalRefused(error: PlanError)

  predicate WalFits(policy: Policy, page: nat, w: Workload) {
    && policy.walCheckpointThresholdBytes == WalBytes(page, w.uncheckpointedFrames)
    && WalBytes(page, w.uncheckpointedFrames + w.dirtyMainPages) <= policy.maxWalBytes
  }

  method CheckedWal(policy: Policy, page: u64, w: Workload) returns (wal: Wal)
    requires page > 0 && Nonzero(w)
    ensures wal.Wal? <==> WalFits(policy, page, w)
    ensures wal.Wal? ==>
      && wal.frame == page + WAL_FRAME_OVERHEAD_BYTES
      && wal.hardFrames == w.uncheckpointedFrames + w.dirtyMainPages
      && wal.checkpointBytes == WalBytes(page, w.uncheckpointedFrames)
      && wal.hardBytes == WalBytes(page, wal.hardFrames)
    ensures wal != WalRefused(GrowthOverflow) && wal != WalRefused(GrowthMismatch)
  {
    WalSizes(policy, page, w);
    if page + WAL_FRAME_OVERHEAD_BYTES > MAX { return WalRefused(FrameSizeOverflow); }
    var frame: u64 := page + WAL_FRAME_OVERHEAD_BYTES;
    if w.uncheckpointedFrames + w.dirtyMainPages > MAX { return WalRefused(FrameCountOverflow); }
    var hardFrames: u64 := w.uncheckpointedFrames + w.dirtyMainPages;
    var retained := CheckedMul(w.uncheckpointedFrames, frame);
    if retained.None? { return WalRefused(RetainedWalOverflow); }
    var checkpointBytes := CheckedAdd(WAL_HEADER_BYTES, retained.value);
    if checkpointBytes.None? { return WalRefused(RetainedWalOverflow); }
    var whole := CheckedMul(hardFrames, frame);
    if whole.None? { return WalRefused(HardWalOverflow); }
    var hardBytes := CheckedAdd(WAL_HEADER_BYTES, whole.value);
    if hardBytes.None? { return WalRefused(HardWalOverflow); }
    var threshold := CheckedSub(policy.walCheckpointThresholdBytes, WAL_HEADER_BYTES);
    if threshold.None? { return WalRefused(ThresholdBelowHeader); }
    Aligned(threshold.value, frame, w.uncheckpointedFrames);
    if threshold.value % frame != 0 || threshold.value / frame != w.uncheckpointedFrames {
      return WalRefused(ThresholdMisaligned);
    }
    if hardBytes.value < checkpointBytes.value { return WalRefused(GrowthMismatch); }
    var growth := CheckedMul(w.dirtyMainPages, frame);
    if growth.None? { return WalRefused(GrowthOverflow); }
    if CheckedAdd(checkpointBytes.value, growth.value) != Some(hardBytes.value) { return WalRefused(GrowthMismatch); }
    if hardBytes.value > policy.maxWalBytes { return WalRefused(WalCeiling); }
    return Wal(frame, hardFrames, checkpointBytes.value, hardBytes.value);
  }

  // The log's hard size is its retained size plus one transaction's growth, and dominates each of
  // its parts.
  lemma WalSizes(policy: Policy, page: nat, w: Workload)
    requires page > 0 && Nonzero(w)
    ensures var frame := page + WAL_FRAME_OVERHEAD_BYTES;
      var hard := WalBytes(page, w.uncheckpointedFrames + w.dirtyMainPages);
      && hard == WalBytes(page, w.uncheckpointedFrames) + Times(w.dirtyMainPages, frame)
      && frame <= hard && 25 * (w.uncheckpointedFrames + w.dirtyMainPages) <= hard
  {
    assert Fields(w)[11] != 0 && Fields(w)[12] != 0;
    var frame, a, b := page + WAL_FRAME_OVERHEAD_BYTES, w.uncheckpointedFrames, w.dirtyMainPages;
    assert (a + b) * frame == a * frame + b * frame;
    MulMono(1, a + b, frame);
    MulMono(25, frame, a + b);
  }

  // The parts of an envelope, added one by one.
  function CheckedTotal(main: u64, journal: u64, hard: u64, shm: u64, reserve: u64): (r: Option<u64>)
    ensures r == Represented(main + journal + hard + shm + reserve)
  {
    var withJournal :- CheckedAdd(main, journal);
    var withWal :- CheckedAdd(withJournal, hard);
    var withShm :- CheckedAdd(withWal, shm);
    CheckedAdd(withShm, reserve)
  }

  // The index, the main file and the sum, for a log that has been accepted.
  method CheckedSizes(policy: Policy, page: u64, w: Workload, wal: Wal) returns (plan: Plan)
    requires page > 0 && Nonzero(w) && wal.Wal?
    requires wal.hardFrames == w.uncheckpointedFrames + w.dirtyMainPages
    requires wal.checkpointBytes == WalBytes(page, w.uncheckpointedFrames)
    requires wal.hardBytes == WalBytes(page, wal.hardFrames)
    ensures plan.Planned? <==> page >= 12 && ExactEnvelope(policy, page, w).totalBytes <= policy.maxDatabaseBytes
    ensures plan.Planned? ==> plan.envelope == ExactEnvelope(policy, page, w)
    ensures plan != Refused(GrowthOverflow) && plan != Refused(GrowthMismatch)
  {
    CheckedShmIsExact(wal.hardFrames);
    var shm := CheckedShmBytes(wal.hardFrames);
    if shm.None? { return Refused(ShmOverflow); }
    var pages := CheckedSchemaPages(page, w);
    if pages.None? { return Refused(MainPagesOverflow); }
    var mainBytes := CheckedMul(pages.value, page);
    if mainBytes.None? { return Refused(MainBytesOverflow); }
    var reserve := policy.emergencyReserveBytes;
    var sum := CheckedTotal(mainBytes.value, w.mainJournalBytes, wal.hardBytes, shm.value, reserve);
    if sum.None? { return Refused(EnvelopeOverflow); }
    if sum.value > policy.maxDatabaseBytes { return Refused(EnvelopeTooLarge); }
    return Planned(Envelope(page, pages.value, mainBytes.value, w.mainJournalBytes, wal.hardFrames, wal.hardBytes,
                            w.uncheckpointedFrames, wal.checkpointBytes, wal.hardFrames, wal.hardBytes, shm.value,
                            policy.emergencyReserveBytes, sum.value));
  }

  // The least count n, from `least` on, whose capacity covers an amount.
  predicate LeastCount(n: nat, least: nat, capacity: nat, amount: nat) {
    n >= least && n * capacity >= amount && (n > least ==> (n - 1) * capacity < amount)
  }

  // One tree: as few leaves as hold every record with its header and pointer, as few interior pages as point
  // to all leaves but one, as few overflow pages as hold the payload, and a root.
  lemma TreePagesAre(page: nat, rows: nat, payload: nat) returns (leaves: nat, interior: nat, overflow: nat)
    requires page >= 12
    ensures TreePages(page, rows, payload) == leaves + interior + overflow + 1
    ensures LeastCount(leaves, 1, page - 10, payload + 15 * rows)
    ensures LeastCount(interior, 0, if page < 40 then 2 else (page - 8) / 16, leaves - 1)
    ensures LeastCount(overflow, 0, if page == 12 then 1 else page - 12, payload)
  {
    leaves := Leaves(page, rows, payload);
    interior := Ceil(leaves - 1, InteriorCapacity(page));
    overflow := Ceil(payload, OverflowCapacity(page));
    LeavesAreLeast(payload + 15 * rows, page - 10);
    CeilIsLeast(leaves - 1, InteriorCapacity(page));
    CeilIsLeast(payload, OverflowCapacity(page));
    InteriorIs(page);
  }

  lemma CeilIsLeast(amount: nat, capacity: nat)
    requires capacity > 0
    ensures LeastCount(Ceil(amount, capacity), 0, capacity, amount)
  {
    CeilBounds(amount, capacity);
  }

  lemma LeavesAreLeast(amount: nat, capacity: nat)
    requires capacity > 0
    ensures LeastCount(Max(Ceil(amount, capacity), 1), 1, capacity, amount)
  {
    CeilIsLeast(amount, capacity);
    if Ceil(amount, capacity) == 0 { MulMono(0, 1, capacity); }
  }

  lemma InteriorIs(page: nat)
    requires page >= 12
    ensures InteriorCapacity(page) == if page < 40 then 2 else (page - 8) / 16
  {
  }

  // Adding up, tree by tree: of a table the payload is given, of an index the bytes of one key.
  lemma SumsAre(page: nat, trees: seq<Tree>, rows: nat, bytes: nat)
    requires page >= 12
    ensures SumTables(page, []) == 0 && SumIndexes(page, []) == 0
    ensures SumTables(page, trees + [(rows, bytes)]) == SumTables(page, trees) + TreePages(page, rows, bytes)
    ensures SumIndexes(page, trees + [(rows, bytes)]) == SumIndexes(page, trees) + TreePages(page, rows, rows * bytes)
  {
    assert (trees + [(rows, bytes)])[..|trees|] == trees;
  }

  // The ten tables, the three primary indexes and the three others, each with its rows and bytes.
  lemma TreesAre(w: Workload)
    ensures var facts := w.admittedFacts + w.quarantinedFacts;
      && Tables(w) == [
           (4, 93 + w.liveCheckpointBytes),
           (facts, w.admittedBytes + w.quarantinedBytes + facts * 99),
           (1, 72),
           (w.authorUsageRows, w.authorUsageRows * 64),
           (w.dependencyEdges, w.dependencyEdges * 64),
           (w.provisionalRows, w.provisionalRows * 48),
           (w.proofRecords, w.proofBytes + w.proofRecords * 108),
           (w.proofLinks, w.proofLinks * 64),
           (1, 42),
           (1, 56)]
      && PrimaryIndexes(w) == [(4, 18), (facts, 32), (w.proofRecords, 32)]
      && SecondaryIndexes(w) == [(facts, 8), (w.dependencyEdges, 32), (w.proofRecords, 76)]
  {
  }

  // The main file: the first page, all trees, and the pages a transaction, the free list and fragmentation
  // may hold.
  lemma PagesAre(page: nat, w: Workload)
    requires page >= 12
    ensures SchemaPages(page, w)
         == 1 + SumTables(page, Tables(w)) + SumIndexes(page, PrimaryIndexes(w)) + SumIndexes(page, SecondaryIndexes(w))
            + w.dirtyMainPages + w.freelistPages + w.fragmentedPages
  {
  }

  // An index of c chunks, the first for 4062 frames and every other for 4096, and not one chunk too many.
  ghost predicate IndexBytes(bytes: nat, frames: nat) {
    exists c: nat :: bytes == 32_768 * c && LeastChunks(c, frames)
  }

  predicate LeastChunks(c: nat, frames: nat) {
    if frames == 0 then c == 0
    else c >= 1 && 4062 + (c - 1) * 4096 >= frames && (c > 1 ==> 4062 + (c - 2) * 4096 < frames)
  }

  // An envelope, field by field.
  ghost predicate SpelledOut(policy: Policy, page: nat, w: Workload, e: Envelope) {
    var hard := w.uncheckpointedFrames + w.dirtyMainPages;
    && e.pageSizeBytes == page && e.mainBytes == e.mainPages * page
    && e.mainJournalBytes == w.mainJournalBytes && e.emergencyReserveBytes == policy.emergencyReserveBytes
    && e.walCheckpointFrames == w.uncheckpointedFrames
    && e.walCheckpointBytes == 32 + w.uncheckpointedFrames * (page + 24)
    && e.walHardFrames == hard && e.walFrames == hard
    && e.walHardBytes == 32 + hard * (page + 24) && e.walBytes == e.walHardBytes
    && IndexBytes(e.shmBytes, hard)
    && e.totalBytes == e.mainBytes + e.mainJournalBytes + e.walHardBytes + e.shmBytes + e.emergencyReserveBytes
  }

  lemma ExactIsSpelledOut(policy: Policy, page: nat, w: Workload)
    requires page >= 12
    ensures SpelledOut(policy, page, w, ExactEnvelope(policy, page, w))
    ensures ExactEnvelope(policy, page, w).mainPages == SchemaPages(page, w)
  {
    var hard := w.uncheckpointedFrames + w.dirtyMainPages;
    assert LeastChunks(ShmChunks(hard), hard);
    assert ExactEnvelope(policy, page, w).shmBytes == 32_768 * ShmChunks(hard);
  }

  // All seventeen dimensions are positive and within the owner's limits.
  predicate Admissible(w: Workload, limits: Workload) {
    && 0 < w.factEncodedBytes <= limits.factEncodedBytes && 0 < w.admittedFacts <= limits.admittedFacts
    && 0 < w.quarantinedFacts <= limits.quarantinedFacts && 0 < w.admittedBytes <= limits.admittedBytes
    && 0 < w.quarantinedBytes <= limits.quarantinedBytes && 0 < w.dependencyEdges <= limits.dependencyEdges
    && 0 < w.authorUsageRows <= limits.authorUsageRows && 0 < w.proofRecords <= limits.proofRecords
    && 0 < w.proofBytes <= limits.proofBytes && 0 < w.proofLinks <= limits.proofLinks
    && 0 < w.provisionalRows <= limits.provisionalRows && 0 < w.dirtyMainPages <= limits.dirtyMainPages
    && 0 < w.uncheckpointedFrames <= limits.uncheckpointedFrames && 0 < w.freelistPages <= limits.freelistPages
    && 0 < w.fragmentedPages <= limits.fragmentedPages && 0 < w.mainJournalBytes <= limits.mainJournalBytes
    && 0 < w.liveCheckpointBytes <= limits.liveCheckpointBytes
  }

  lemma AdmissibleIs(w: Workload, limits: Workload)
    ensures Nonzero(w) && Within(w, limits) <==> Admissible(w, limits)
  {
    if Nonzero(w) && Within(w, limits) { AdmissibleHolds(w, limits); }
    if Admissible(w, limits) { AdmissibleSuffices(w, limits); }
  }

  lemma AdmissibleHolds(w: Workload, limits: Workload)
    requires Nonzero(w) && Within(w, limits)
    ensures Admissible(w, limits)
  {
    var f, g := Fields(w), Fields(limits);
    WithinFields(w, limits);
    assert f[0] <= g[0] && f[12] <= g[12];
    assert 0 != f[0] && 0 != f[1] && 0 != f[2] && 0 != f[3] && 0 != f[4] && 0 != f[5] && 0 != f[6] && 0 != f[7];
    assert 0 != f[8] && 0 != f[9] && 0 != f[10] && 0 != f[11] && 0 != f[12] && 0 != f[13];
    assert 0 != f[14] && 0 != f[15] && 0 != f[16];
  }

  lemma AdmissibleSuffices(w: Workload, limits: Workload)
    requires Admissible(w, limits)
    ensures Nonzero(w) && Within(w, limits)
  {
  }

  // The acceptance condition, spelled out: a page, the dimensions, the threshold, the log's ceiling, and the
  // total that any envelope of these sizes has.
  ghost predicate Acceptable(policy: Policy, page: nat, w: Workload) {
    var hard := w.uncheckpointedFrames + w.dirtyMainPages;
    && page >= 12 && Admissible(w, policy.limits)
    && policy.walCheckpointThresholdBytes == 32 + w.uncheckpointedFrames * (page + 24)
    && 32 + hard * (page + 24) <= policy.maxWalBytes
    && TotalWithin(policy, page, SchemaPages(page, w), w)
  }

  // Main file, journal, log, index and reserve together are within the database ceiling.
  ghost predicate TotalWithin(policy: Policy, page: nat, pages: nat, w: Workload) {
    var hard := w.uncheckpointedFrames + w.dirtyMainPages;
    var rest := w.mainJournalBytes + (32 + hard * (page + 24)) + policy.emergencyReserveBytes;
    exists shm: nat :: IndexBytes(shm, hard) && pages * page + shm + rest <= policy.maxDatabaseBytes
  }

  lemma TotalIs(policy: Policy, page: nat, w: Workload, e: Envelope)
    requires SpelledOut(policy, page, w, e)
    ensures TotalWithin(policy, page, e.mainPages, w) <==> e.totalBytes <= policy.maxDatabaseBytes
  {
    var hard := w.uncheckpointedFrames + w.dirtyMainPages;
    forall shm: nat | IndexBytes(shm, hard) ensures shm == e.shmBytes { OneIndex(shm, e.shmBytes, hard); }
  }

  lemma OneIndex(a: nat, b: nat, frames: nat)
    requires IndexBytes(a, frames) && IndexBytes(b, frames)
    ensures a == b
  {
    var c: nat :| a == 32_768 * c && LeastChunks(c, frames);
    var d: nat :| b == 32_768 * d && LeastChunks(d, frames);
    assert c == d;
  }

  lemma FitsIs(policy: Policy, page: nat, w: Workload)
    ensures Fits(policy, page, w) <==> Acceptable(policy, page, w)
  {
    AdmissibleIs(w, policy.limits);
    if page >= 12 {
      ExactIsSpelledOut(policy, page, w);
      TotalIs(policy, page, w, ExactEnvelope(policy, page, w));
    }
  }

  // The planner accepts exactly the plans that truly fit, and returns their exact sizes: no
  // intermediate overflow refuses a plan that fits, and the recheck of the log's growth never fires.
  method CheckedStorageEnvelope(policy: Policy, page: u64, w: Workload) returns (plan: Plan)
    ensures plan.Planned? <==> Acceptable(policy, page, w)
    ensures plan.Planned? ==> SpelledOut(policy, page, w, plan.envelope)
    ensures plan.Planned? ==> plan.envelope.totalBytes <= policy.maxDatabaseBytes
    ensures plan.Planned? <==> Fits(policy, page, w)
    ensures plan.Planned? ==> plan.envelope == ExactEnvelope(policy, page, w)
    ensures plan != Refused(GrowthOverflow) && plan != Refused(GrowthMismatch)
  {
    FitsIs(policy, page, w);
    if page >= 12 { ExactIsSpelledOut(policy, page, w); }
    if page == 0 { return Refused(PageSizeZero); }
    if !Nonzero(w) || !Within(w, policy.limits) { return Refused(ExceedsLimits); }
    var wal := CheckedWal(policy, page, w);
    if wal.WalRefused? { return Refused(wal.error); }
    plan := CheckedSizes(policy, page, w, wal);
  }

  // ---------------------------------------------------------------------------
  // Monotonicity and soundness of the plan
  // ---------------------------------------------------------------------------

  lemma CeilMono(a: nat, b: nat, k: nat)
    requires a <= b && k > 0
    ensures Ceil(a, k) <= Ceil(b, k)
  {
    CeilBounds(a, k);
    CeilBounds(b, k);
    if Ceil(a, k) > Ceil(b, k) {
      MulMono(Ceil(b, k), Ceil(a, k) - 1, k);
    }
  }

  lemma TreeMono(page: nat, rows: nat, payload: nat, rows': nat, payload': nat)
    requires page >= 12 && rows <= rows' && payload <= payload'
    ensures TreePages(page, rows, payload) <= TreePages(page, rows', payload')
  {
    CeilMono(payload + 15 * rows, payload' + 15 * rows', LeafCapacity(page));
    CeilMono(Leaves(page, rows, payload) - 1, Leaves(page, rows', payload') - 1, InteriorCapacity(page));
    CeilMono(payload, payload', OverflowCapacity(page));
  }

  predicate Below(a: seq<Tree>, b: seq<Tree>) {
    |a| == |b| && forall i :: 0 <= i < |a| ==> a[i].0 <= b[i].0 && a[i].1 <= b[i].1
  }

  lemma {:induction false} SumTablesMono(page: nat, a: seq<Tree>, b: seq<Tree>)
    requires page >= 12 && Below(a, b)
    ensures SumTables(page, a) <= SumTables(page, b)
  {
    if a != [] {
      var n := |a| - 1;
      SumTablesMono(page, a[..n], b[..n]);
      TreeMono(page, a[n].0, a[n].1, b[n].0, b[n].1);
    }
  }

  lemma {:induction false} SumIndexesMono(page: nat, a: seq<Tree>, b: seq<Tree>)
    requires page >= 12 && Below(a, b)
    ensures SumIndexes(page, a) <= SumIndexes(page, b)
  {
    if a != [] {
      var n := |a| - 1;
      SumIndexesMono(page, a[..n], b[..n]);
      TimesMono(a[n].0, b[n].0, a[n].1, b[n].1);
      TreeMono(page, a[n].0, Times(a[n].0, a[n].1), b[n].0, Times(b[n].0, b[n].1));
    }
  }

  lemma TimesMono(a: nat, b: nat, k: nat, l: nat)
    requires a <= b && k <= l
    ensures Times(a, k) <= Times(b, l)
  {
    MulMono(a, b, k);
    MulMono(k, l, b);
  }

  lemma WithinFields(v: Workload, w: Workload)
    requires Within(v, w)
    ensures v.admittedFacts <= w.admittedFacts && v.quarantinedFacts <= w.quarantinedFacts
    ensures v.admittedBytes <= w.admittedBytes && v.quarantinedBytes <= w.quarantinedBytes
    ensures v.dependencyEdges <= w.dependencyEdges && v.authorUsageRows <= w.authorUsageRows
    ensures v.proofRecords <= w.proofRecords && v.proofBytes <= w.proofBytes && v.proofLinks <= w.proofLinks
    ensures v.provisionalRows <= w.provisionalRows && v.dirtyMainPages <= w.dirtyMainPages
    ensures v.freelistPages <= w.freelistPages && v.fragmentedPages <= w.fragmentedPages
    ensures v.mainJournalBytes <= w.mainJournalBytes && v.liveCheckpointBytes <= w.liveCheckpointBytes
  {
    var f, g := Fields(v), Fields(w);
    assert f[1] <= g[1] && f[2] <= g[2] && f[3] <= g[3] && f[4] <= g[4] && f[5] <= g[5] && f[6] <= g[6];
    assert f[7] <= g[7] && f[8] <= g[8] && f[9] <= g[9] && f[10] <= g[10] && f[11] <= g[11];
    assert f[13] <= g[13] && f[14] <= g[14] && f[15] <= g[15] && f[16] <= g[16];
  }

  lemma SchemaPagesMono(page: nat, v: Workload, w: Workload)
    requires page >= 12 && Within(v, w)
    ensures SchemaPages(page, v) <= SchemaPages(page, w)
  {
    WithinFields(v, w);
    SumTablesMono(page, Tables(v), Tables(w));
    SumIndexesMono(page, PrimaryIndexes(v), PrimaryIndexes(w));
    SumIndexesMono(page, SecondaryIndexes(v), SecondaryIndexes(w));
  }

  lemma ShmChunksMono(a: nat, b: nat)
    requires a <= b
    ensures ShmChunks(a) <= ShmChunks(b)
  {
  }

  predicate NoLarger(a: Envelope, b: Envelope) {
    && a.pageSizeBytes == b.pageSizeBytes && a.mainPages <= b.mainPages && a.mainBytes <= b.mainBytes
    && a.mainJournalBytes <= b.mainJournalBytes && a.walFrames <= b.walFrames && a.walBytes <= b.walBytes
    && a.walCheckpointFrames <= b.walCheckpointFrames && a.walCheckpointBytes <= b.walCheckpointBytes
    && a.walHardFrames <= b.walHardFrames && a.walHardBytes <= b.walHardBytes && a.shmBytes <= b.shmBytes
    && a.emergencyReserveBytes <= b.emergencyReserveBytes && a.totalBytes <= b.totalBytes
  }

  // Shrinking any dimension but the retained frame count, to something nonzero, keeps an accepted
  // plan accepted, with no size larger.
  lemma SmallerWorkloadStillFits(policy: Policy, page: nat, v: Workload, w: Workload)
    requires Fits(policy, page, w) && Nonzero(v) && Within(v, w) && v.uncheckpointedFrames == w.uncheckpointedFrames
    ensures Fits(policy, page, v)
    ensures NoLarger(ExactEnvelope(policy, page, v), ExactEnvelope(policy, page, w))
  {
    WithinFields(v, w);
    SchemaPagesMono(page, v, w);
    var a, b := v.uncheckpointedFrames + v.dirtyMainPages, w.uncheckpointedFrames + w.dirtyMainPages;
    TimesMono(SchemaPages(page, v), SchemaPages(page, w), page, page);
    TimesMono(a, b, page + WAL_FRAME_OVERHEAD_BYTES, page + WAL_FRAME_OVERHEAD_BYTES);
    ShmChunksMono(a, b);
    TimesMono(SHM_CHUNK_BYTES, SHM_CHUNK_BYTES, ShmChunks(a), ShmChunks(b));
    WithinBoth(v, w, policy.limits);
  }

  lemma WithinBoth(u: Workload, v: Workload, w: Workload)
    requires Within(u, v) && Within(v, w)
    ensures Within(u, w)
  {
    forall i | 0 <= i < 17 ensures Fields(u)[i] <= Fields(w)[i] {
      assert Fields(u)[i] <= Fields(v)[i] && Fields(v)[i] <= Fields(w)[i];
    }
  }

  // The payload bytes of a list of trees.
  function Payloads(trees: seq<Tree>): nat {
    if trees == [] then 0 else Payloads(trees[..|trees| - 1]) + trees[|trees| - 1].1
  }

  lemma {:induction false} SumTablesCovers(page: nat, trees: seq<Tree>)
    requires page >= 12
    ensures Times(SumTables(page, trees), page) >= Payloads(trees)
  {
    if trees != [] {
      var n := |trees| - 1;
      SumTablesCovers(page, trees[..n]);
      TreeCovers(page, trees[n].0, trees[n].1);
      var a, b := SumTables(page, trees[..n]), TreePages(page, trees[n].0, trees[n].1);
      Distribute(a, b, page);
    }
  }

  lemma Distribute(a: nat, b: nat, k: nat)
    ensures Times(a + b, k) == Times(a, k) + Times(b, k)
  {
  }

  lemma {:induction false} PayloadsAbove(trees: seq<Tree>, i: nat)
    requires i <= |trees|
    ensures Payloads(trees) >= Payloads(trees[..i])
  {
    if i < |trees| {
      PayloadsAbove(trees[..|trees| - 1], i);
      assert trees[..|trees| - 1][..i] == trees[..i];
    } else {
      assert trees[..i] == trees;
    }
  }

  // The main file covers every fact, proof and checkpoint byte the workload allows.
  lemma MainCoversBudgets(policy: Policy, page: nat, w: Workload)
    requires page >= 12
    ensures ExactEnvelope(policy, page, w).mainBytes
         >= w.admittedBytes + w.quarantinedBytes + w.proofBytes + w.liveCheckpointBytes
  {
    var t := Tables(w);
    SumTablesCovers(page, t);
    MulMono(SumTables(page, t), SchemaPages(page, w), page);
    var one: seq<Tree>, two: seq<Tree>, six: seq<Tree>, seven: seq<Tree> := t[..1], t[..2], t[..6], t[..7];
    assert two[..1] == one && seven[..6] == six && six[..2] == two;
    assert Payloads(one) == t[0].1;
    PayloadsAbove(t, 7);
    PayloadsAbove(six, 2);
  }
}
