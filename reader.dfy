/**
 * `ProcReader` itself (services/readProc.js:108-323): the tables it keeps
 * between passes, the guard that keeps two passes from overlapping, and one
 * pass from its three reads to the emitted `update` event. The timer and the
 * promise fan-out are replaced by explicit calls: `Tick` is a timer firing
 * (the synchronous part of `update`), and `Complete` is everything that
 * happens once the pass's reads have settled, up to the `finally` that
 * clears the guard.
 */
module Reader {
  import opened Wrappers
  import KeyValue
  import opened Schema
  import Delta
  import MemInfo
  import opened Processes

  /** What the three reads of a pass return: the stat file, the meminfo file, and each process directory. */
  datatype PassInput = PassInput(stat: ReadResult, meminfo: ReadResult, dirs: seq<ProcDir>)

  /** How a pass ended. */
  datatype Outcome =
    | ReadFailed      // one of the three reads rejected; the join callback never ran
    | MeminfoFailed   // renaming a meminfo key threw inside the join callback
    | ProcessFailed   // the per-process step threw: the stats have no aggregate `cpu` row
    | Emitted         // the pass published its results and emitted `update`

  /** `readStats()`: the named stat table, or a rejection. */
  function ReadStats(r: ReadResult): Option<map<string, StatRow>> {
    match r
    case Contents(t) => Some(StatsTable(t))
    case Failure(_) => None
  }

  /** `readMeminfo()`: the parsed meminfo rows, or a rejection; the rows' order lists each row once. */
  function ReadMeminfo(r: ReadResult): (p: Option<KeyValue.Parsed>)
    ensures p.Some? ==> KeyValue.OrderListsKeys(p.value)
    ensures p.Some? ==> MemInfo.OrderInTable(p.value.entries, p.value.order)
  {
    match r
    case Contents(t) =>
      KeyValue.ParseLinesOrder(KeyValue.Lines(t));
      MemInfo.ParsedOrderInTable(KeyValue.Parse(t));
      Some(KeyValue.Parse(t))
    case Failure(_) => None
  }

  /** `this.stats` once the memory table is stored under `mem`. */
  function WithMem(stats: map<string, Delta.StatDelta>, mem: map<string, MemInfo.MemVal>): map<string, Delta.StatDelta> {
    stats["mem" := Delta.Mem(mem)]
  }

  class ProcReader {
    var stats: map<string, Delta.StatDelta>
    var statsRaw: map<string, StatRow>
    var prevStatsRaw: map<string, StatRow>
    var meminfoRaw: Option<KeyValue.Parsed>
    var processes: seq<ProcessDelta>
    var processesRaw: Table
    var prevProcessesRaw: Table
    var updateRunning: bool
    /** How many `update` events have been emitted. */
    var updates: nat

    /** The constructor starts with empty tables and immediately starts the first pass. */
    constructor ()
      ensures stats == map[] && statsRaw == map[] && prevStatsRaw == map[] && meminfoRaw == None
      ensures processes == [] && processesRaw == map[] && prevProcessesRaw == map[]
      ensures updateRunning && updates == 0
    {
      stats := map[];
      statsRaw := map[];
      prevStatsRaw := map[];
      meminfoRaw := None;
      processes := [];
      processesRaw := map[];
      prevProcessesRaw := map[];
      updateRunning := true;
      updates := 0;
    }

    /**
     * A timer firing: `update()` skips when a pass is still running, and
     * otherwise sets the guard and starts a pass. Nothing else changes.
     */
    method Tick() returns (started: bool)
      modifies this
      ensures started == !old(updateRunning)
      ensures updateRunning
      ensures stats == old(stats) && statsRaw == old(statsRaw) && prevStatsRaw == old(prevStatsRaw)
      ensures meminfoRaw == old(meminfoRaw) && processes == old(processes)
      ensures processesRaw == old(processesRaw) && prevProcessesRaw == old(prevProcessesRaw)
      ensures updates == old(updates)
    {
      if updateRunning {
        started := false;
        return;
      }
      updateRunning := true;
      started := true;
    }

    /**
     * The settling of the running pass. The records are read through the
     * cache that was current when the pass started (`prevProcessesRaw`, still
     * unrotated). The join callback rotates the stat tables and stores the
     * deltas, then the memory table, then rotates the process tables; the
     * per-process step stores each record before reading the aggregate `cpu`
     * row, and Bluebird's `map` stops at the first throw. The guard is
     * cleared on every path.
     */
    method Complete(input: PassInput) returns (outcome: Outcome)
      requires updateRunning
      modifies this
      ensures !updateRunning
      ensures var st := ReadStats(input.stat);
              var mi := ReadMeminfo(input.meminfo);
              var recs := ReadProcesses(input.dirs, old(prevProcessesRaw));
        && (outcome == ReadFailed <==> st.None? || mi.None? || recs.None?)
        && (outcome == ReadFailed ==>
              && stats == old(stats) && statsRaw == old(statsRaw) && prevStatsRaw == old(prevStatsRaw)
              && meminfoRaw == old(meminfoRaw) && processes == old(processes)
              && processesRaw == old(processesRaw) && prevProcessesRaw == old(prevProcessesRaw)
              && updates == old(updates))
        && (outcome != ReadFailed ==> JoinedAs(st.value, mi.value, recs.value, outcome))
    {
      var st := ReadStats(input.stat);
      var mi := ReadMeminfo(input.meminfo);
      var recs := ReadProcesses(input.dirs, prevProcessesRaw);
      if st.None? || mi.None? || recs.None? {
        outcome := ReadFailed;
      } else {
        outcome := Join(st.value, mi.value, recs.value);
      }
      updateRunning := false;
    }

    /**
     * The state the join callback leaves behind, starting from `old(...)`,
     * for a pass whose reads returned `table`, `parsed` and `records`.
     */
    twostate predicate JoinedAs(table: map<string, StatRow>, parsed: KeyValue.Parsed, records: seq<ProcRecord>, outcome: Outcome)
      requires MemInfo.OrderInTable(parsed.entries, parsed.order)
      reads this
    {
      var base := Delta.StatsAfter(table, old(statsRaw));
      var mem := MemInfo.MemInfo(parsed.entries, parsed.order);
      && outcome != ReadFailed
      && prevStatsRaw == old(statsRaw) && statsRaw == table && meminfoRaw == Some(parsed)
      && (outcome == MeminfoFailed <==> mem.Err?)
      && (outcome == MeminfoFailed ==>
            && stats == base && processes == old(processes)
            && processesRaw == old(processesRaw) && prevProcessesRaw == old(prevProcessesRaw)
            && updates == old(updates))
      && (mem.Ok? ==>
            var step := ProcessStep(records, old(processesRaw), CpuViewOf(stats));
            && stats == WithMem(base, mem.value)
            && prevProcessesRaw == old(processesRaw)
            && (outcome == ProcessFailed <==> step.None?)
            && (outcome == ProcessFailed ==>
                  && processesRaw == IndexByPid(records[..1])
                  && processes == old(processes) && updates == old(updates))
            && (outcome == Emitted ==>
                  && processesRaw == IndexByPid(records)
                  && processes == step.value
                  && updates == old(updates) + 1))
    }

    /**
     * The join callback: rotate the stat tables and store the deltas, store
     * the memory table, rotate the process tables, then the per-process step.
     */
    method Join(table: map<string, StatRow>, parsed: KeyValue.Parsed, records: seq<ProcRecord>) returns (outcome: Outcome)
      requires MemInfo.OrderInTable(parsed.entries, parsed.order)
      modifies this
      ensures updateRunning == old(updateRunning)
      ensures JoinedAs(table, parsed, records, outcome)
    {
      var memOk := StoreStats(table, parsed);
      if memOk {
        outcome := RunProcesses(records);
      } else {
        outcome := MeminfoFailed;
      }
    }

    /**
     * The join callback up to the per-process step: rotate the stat tables and
     * store the deltas, then, unless renaming a meminfo key throws, store the
     * memory table and rotate the process tables.
     */
    method StoreStats(table: map<string, StatRow>, parsed: KeyValue.Parsed) returns (memOk: bool)
      requires MemInfo.OrderInTable(parsed.entries, parsed.order)
      modifies this`prevStatsRaw, this`statsRaw, this`stats, this`meminfoRaw, this`prevProcessesRaw, this`processesRaw
      ensures var base := Delta.StatsAfter(table, old(statsRaw));
              var mem := MemInfo.MemInfo(parsed.entries, parsed.order);
        && prevStatsRaw == old(statsRaw) && statsRaw == table && meminfoRaw == Some(parsed)
        && (memOk <==> mem.Ok?)
        && (!memOk ==> stats == base && processesRaw == old(processesRaw) && prevProcessesRaw == old(prevProcessesRaw))
        && (memOk ==> stats == WithMem(base, mem.value) && prevProcessesRaw == old(processesRaw) && processesRaw == map[])
    {
      RotateStats(table, parsed);
      var mem := MemInfo.NormaliseMeminfo(parsed.entries, parsed.order);
      memOk := mem.Ok?;
      if memOk {
        StoreMemAndRotate(mem.value);
      }
    }

    /**
     * The per-process step followed, when it succeeds, by publishing its
     * deltas and emitting `update`.
     */
    method RunProcesses(records: seq<ProcRecord>) returns (outcome: Outcome)
      requires processesRaw == map[]
      modifies this`processesRaw, this`processes, this`updates
      ensures var step := ProcessStep(records, prevProcessesRaw, CpuViewOf(stats));
        && (outcome == ProcessFailed <==> step.None?)
        && (outcome != ProcessFailed ==> outcome == Emitted)
        && (outcome == ProcessFailed ==>
              processesRaw == IndexByPid(records[..1]) && processes == old(processes) && updates == old(updates))
        && (outcome == Emitted ==>
              processesRaw == IndexByPid(records) && processes == step.value && updates == old(updates) + 1)
    {
      var cpu := CpuViewOf(stats);
      ProcessStepByCallback(records, prevProcessesRaw, cpu);
      var ok := StepAndPublish(records, Callback(prevProcessesRaw, cpu));
      outcome := if ok then Emitted else ProcessFailed;
    }

    /** The per-process step with a given map-callback, then, when it succeeds, the publication. */
    method StepAndPublish(records: seq<ProcRecord>, callback: Option<ProcRecord -> ProcessDelta>) returns (ok: bool)
      requires processesRaw == map[]
      modifies this`processesRaw, this`processes, this`updates
      ensures ok <==> callback.Some? || |records| == 0
      ensures processesRaw == IndexByPid(if ok then records else records[..1])
      ensures !ok ==> processes == old(processes) && updates == old(updates)
      ensures ok ==> processes == (if callback.Some? then MapSeq(records, callback.value) else [])
      ensures ok ==> updates == old(updates) + 1
    {
      var out;
      ok, out := StepProcesses(records, callback);
      if ok {
        Publish(out);
      }
    }

    /** The first part of the join callback: rotate the stat tables, store the deltas and the meminfo rows. */
    method RotateStats(table: map<string, StatRow>, parsed: KeyValue.Parsed)
      modifies this`prevStatsRaw, this`statsRaw, this`stats, this`meminfoRaw
      ensures prevStatsRaw == old(statsRaw) && statsRaw == table && meminfoRaw == Some(parsed)
      ensures stats == Delta.StatsAfter(table, old(statsRaw))
    {
      prevStatsRaw := statsRaw;
      statsRaw := table;
      stats := Delta.StatsAfter(statsRaw, prevStatsRaw);
      meminfoRaw := Some(parsed);
    }

    /** Store the memory table under `mem`, then rotate the process tables. */
    method StoreMemAndRotate(mem: map<string, MemInfo.MemVal>)
      modifies this`stats, this`prevProcessesRaw, this`processesRaw
      ensures stats == WithMem(old(stats), mem)
      ensures prevProcessesRaw == old(processesRaw) && processesRaw == map[]
    {
      stats := WithMem(stats, mem);
      prevProcessesRaw := processesRaw;
      processesRaw := map[];
    }

    /** Publish the per-process deltas and emit `update`. */
    method Publish(out: seq<ProcessDelta>)
      modifies this`processes, this`updates
      ensures processes == out && updates == old(updates) + 1
    {
      processes := out;
      updates := updates + 1;
    }

    /**
     * The per-process step: `Promise.map` over the records with the
     * map-callback, which stores each record in `processesRaw` before it
     * computes the record's delta. `None` stands for a callback that throws
     * (there is no aggregate `cpu` row), and the step stops at that throw.
     */
    method StepProcesses(records: seq<ProcRecord>, callback: Option<ProcRecord -> ProcessDelta>) returns (ok: bool, out: seq<ProcessDelta>)
      requires processesRaw == map[]
      modifies this`processesRaw
      ensures ok <==> callback.Some? || |records| == 0
      ensures ok && callback.Some? ==> out == MapSeq(records, callback.value)
      ensures ok && callback.None? ==> out == []
      ensures processesRaw == IndexByPid(if ok then records else records[..1])
    {
      out := [];
      var i := 0;
      while i < |records|
        invariant 0 <= i <= |records|
        invariant processesRaw == IndexByPid(records[..i])
        invariant callback.Some? ==> out == MapSeq(records[..i], callback.value)
        invariant callback.None? ==> i == 0 && out == []
      {
        var cur := records[i];
        IndexByPidExtend(records, i);
        processesRaw := processesRaw[Key(cur) := cur];
        if callback.None? {
          return false, out;
        }
        MapSeqExtend(records, callback.value, i);
        out := out + [callback.value(cur)];
        i := i + 1;
      }
      assert records[..|records|] == records;
      ok := true;
    }
  }

  /** The map-callback of a pass, given the rotated table and the aggregate `cpu` row's view. */
  function Callback(prevTable: Table, cpu: Option<CpuView>): Option<ProcRecord -> ProcessDelta> {
    match cpu
    case Some(view) => Some(DeltaAgainst(prevTable, view))
    case None => None
  }

  /** The per-process step as the method runs it, with the pass's map-callback. */
  lemma ProcessStepByCallback(records: seq<ProcRecord>, prevTable: Table, cpu: Option<CpuView>)
    ensures ProcessStep(records, prevTable, cpu).Some? <==> Callback(prevTable, cpu).Some? || |records| == 0
    ensures Callback(prevTable, cpu).Some? ==>
      ProcessStep(records, prevTable, cpu) == Some(MapSeq(records, Callback(prevTable, cpu).value))
    ensures Callback(prevTable, cpu).None? && |records| == 0 ==> ProcessStep(records, prevTable, cpu) == Some([])
  {
  }

  /** What the per-process step reads from the stats: the aggregate `cpu` row's view, if there is one. */
  function CpuViewOf(stats: map<string, Delta.StatDelta>): Option<CpuView> {
    if "cpu" in stats then Some(ViewOf(stats["cpu"])) else None
  }

  /**
   * The per-process step over the pass's records: one delta per record
   * against the previous table, or a throw (`None`) when there is a record and
   * no aggregate `cpu` row to read totals from.
   */
  function ProcessStep(records: seq<ProcRecord>, prevTable: Table, cpu: Option<CpuView>): Option<seq<ProcessDelta>> {
    match cpu
    case Some(view) => Some(ProcessDeltas(records, prevTable, view))
    case None => if |records| == 0 then Some([]) else None
  }

  /**
   * The per-process step throws exactly when the stat file the pass read has
   * no aggregate `cpu` row and there is at least one process; otherwise it
   * reads its totals from that row's published delta.
   */
  lemma ProcessStepNeedsCpuRow(table: map<string, StatRow>, prev: map<string, StatRow>, mem: map<string, MemInfo.MemVal>,
                               records: seq<ProcRecord>, prevTable: Table)
    ensures var s := WithMem(Delta.StatsAfter(table, prev), mem);
      && (ProcessStep(records, prevTable, CpuViewOf(s)).None? <==> "cpu" !in table && |records| > 0)
      && ("cpu" in table ==> ProcessStep(records, prevTable, CpuViewOf(s)) == Some(ProcessDeltas(records, prevTable, ViewOf(s["cpu"]))))
  {
    var s := WithMem(Delta.StatsAfter(table, prev), mem);
    assert Delta.StatsAfter(table, prev).Keys == table.Keys;
    assert "cpu" in s <==> "cpu" in table;
  }

  /**
   * The guard over a reader's first passes: a timer firing while the
   * constructor's pass runs is skipped, the first firing after that pass
   * settles starts a pass, and a firing while that one runs is skipped.
   */
  method GuardScenario(input: PassInput) returns (first: bool, second: bool, third: bool)
    ensures !first && second && !third
  {
    var reader := new ProcReader();
    first := reader.Tick();
    var _ := reader.Complete(input);
    second := reader.Tick();
    third := reader.Tick();
  }
}
