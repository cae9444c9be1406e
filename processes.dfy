/**
 * The process side of a pass: reading one raw record per process directory
 * through the command-line and working-directory cache
 * (services/readProc.js:347-369), indexing the records by pid, and the
 * per-process delta computed against the previous pass's table
 * (services/readProc.js:251-317).
 */
module Processes {
  import opened Wrappers
  import opened Text
  import opened Js
  import opened Schema
  import Delta

  /** The outcome of reading a file or a link: its text, or the error code the read failed with. */
  datatype ReadResult = Contents(text: string) | Failure(code: string)

  /**
   * One directory the glob `/proc/+([0-9])/` matched: its base name and the
   * outcome of each read the pass may make inside it.
   */
  datatype ProcDir = ProcDir(name: string, stat: ReadResult, statm: ReadResult, cmdline: ReadResult, cwd: ReadResult)

  /** The path glob reports for a directory. */
  function DirName(name: string): string {
    "/proc/" + name + "/"
  }

  /** A raw-record table, keyed by the string a record's `pid` becomes as a property key. */
  type Table = map<string, ProcRecord>

  /** `this.prevProcessesRaw[pid] || {}`: the cached record of the directory, if any. */
  function Cached(cache: Table, name: string): Option<ProcRecord> {
    if name in cache then Some(cache[name]) else None
  }

  /**
   * `prev.command || readFile(cmdline).split(/\0/)`: a cached command line is an
   * array, so always truthy and always reused; otherwise the file is read, and
   * a failed read rejects. `None` is a rejection.
   */
  function ReadCommand(dir: ProcDir, prev: Option<ProcRecord>): Option<seq<string>> {
    if prev.Some? then Some(prev.value.command)
    else match dir.cmdline
      case Contents(t) => Some(SplitOn(t, '\0'))
      case Failure(_) => None
  }

  /** A cached working directory is reused only when it is truthy: not null and not empty. */
  predicate CwdReusable(prev: Option<ProcRecord>) {
    prev.Some? && prev.value.cwd.Some? && prev.value.cwd.value != ""
  }

  /**
   * `prev.cwd || readlink(cwd).catch({code: 'EACCES'}, () => null)`: the link
   * is read unless a truthy value is cached; `EACCES` gives null (`Some(None)`)
   * and any other failure rejects (`None`).
   */
  function ReadCwd(dir: ProcDir, prev: Option<ProcRecord>): Option<Option<string>> {
    if CwdReusable(prev) then Some(prev.value.cwd)
    else match dir.cwd
      case Contents(t) => Some(Some(t))
      case Failure(code) => if code == "EACCES" then Some(None) else None
  }

  /** The record of one directory, or `None` when one of its reads rejects. */
  function ReadProcRecord(dir: ProcDir, cache: Table): Option<ProcRecord> {
    var prev := Cached(cache, dir.name);
    match (dir.stat, dir.statm, ReadCommand(dir, prev), ReadCwd(dir, prev))
    case (Contents(st), Contents(sm), Some(command), Some(cwd)) =>
      Some(AssembleRecord(DirName(dir.name), st, sm, command, cwd))
    case _ => None
  }

  /** `Promise.all`-style joining: the values in order when every one is present, otherwise a rejection. */
  function AllSome<T>(xs: seq<Option<T>>): (r: Option<seq<T>>)
    ensures r.Some? ==> |r.value| == |xs|
  {
    if |xs| == 0 then Some([])
    else
      var n := |xs| - 1;
      match (AllSome(xs[..n]), xs[n])
      case (Some(vs), Some(v)) => Some(vs + [v])
      case _ => None
  }

  /** The join succeeds exactly when every value is present. */
  lemma {:induction false} AllSomeSucceeds<T>(xs: seq<Option<T>>)
    ensures AllSome(xs).Some? <==> forall i :: 0 <= i < |xs| ==> xs[i].Some?
  {
    if |xs| > 0 {
      var n := |xs| - 1;
      AllSomeSucceeds(xs[..n]);
      assert forall i :: 0 <= i < n ==> xs[..n][i] == xs[i];
    }
  }

  /** When it does, value i is the one at position i. */
  lemma {:induction false} AllSomeAt<T>(xs: seq<Option<T>>, i: int)
    requires AllSome(xs).Some? && 0 <= i < |xs|
    ensures xs[i].Some? && AllSome(xs).value[i] == xs[i].value
  {
    var n := |xs| - 1;
    if i < n {
      AllSomeAt(xs[..n], i);
      assert xs[..n][i] == xs[i];
    }
  }

  /** `readProcesses()`: one record per directory, in order, or a rejection when any directory's reads reject. */
  function ReadProcesses(dirs: seq<ProcDir>, cache: Table): (r: Option<seq<ProcRecord>>)
    ensures r.Some? ==> |r.value| == |dirs|
  {
    AllSome(seq(|dirs|, i requires 0 <= i < |dirs| => ReadProcRecord(dirs[i], cache)))
  }

  /** The pass's records exist exactly when every directory's reads succeed. */
  lemma ReadProcessesSucceeds(dirs: seq<ProcDir>, cache: Table)
    ensures ReadProcesses(dirs, cache).Some? <==> forall i :: 0 <= i < |dirs| ==> ReadProcRecord(dirs[i], cache).Some?
  {
    var xs := seq(|dirs|, i requires 0 <= i < |dirs| => ReadProcRecord(dirs[i], cache));
    AllSomeSucceeds(xs);
    assert forall i :: 0 <= i < |dirs| ==> xs[i] == ReadProcRecord(dirs[i], cache);
  }

  /** When they do, record i is directory i's. */
  lemma ReadProcessesInOrder(dirs: seq<ProcDir>, cache: Table, i: int)
    requires ReadProcesses(dirs, cache).Some? && 0 <= i < |dirs|
    ensures ReadProcRecord(dirs[i], cache).Some?
    ensures ReadProcesses(dirs, cache).value[i] == ReadProcRecord(dirs[i], cache).value
  {
    AllSomeAt(seq(|dirs|, i requires 0 <= i < |dirs| => ReadProcRecord(dirs[i], cache)), i);
  }

  /**
   * A cached process keeps its cached command line, and its cached working
   * directory exactly when that is truthy; an uncached one gets what its
   * files say.
   */
  lemma CacheReuse(dir: ProcDir, cache: Table, st: string, sm: string)
    requires dir.stat == Contents(st) && dir.statm == Contents(sm)
    requires dir.name in cache
    ensures var prev := Some(cache[dir.name]);
      ReadProcRecord(dir, cache).Some? <==> CwdReusable(prev) || dir.cwd.Contents? || dir.cwd == Failure("EACCES")
    ensures ReadProcRecord(dir, cache).Some? ==> ReadProcRecord(dir, cache).value.command == cache[dir.name].command
    ensures ReadProcRecord(dir, cache).Some? && CwdReusable(Some(cache[dir.name])) ==>
      ReadProcRecord(dir, cache).value.cwd == cache[dir.name].cwd
    ensures ReadProcRecord(dir, cache).Some? && !CwdReusable(Some(cache[dir.name])) && dir.cwd.Contents? ==>
      ReadProcRecord(dir, cache).value.cwd == Some(dir.cwd.text)
  {
    var prev := Some(cache[dir.name]);
    if ReadCwd(dir, prev).Some? {
      AssembleRecordIdentity(DirName(dir.name), st, sm, cache[dir.name].command, ReadCwd(dir, prev).value);
    }
  }

  /** `EACCES` on an uncached working directory gives null instead of a rejection. */
  lemma CwdAccessDenied(dir: ProcDir, cache: Table, st: string, sm: string, cmd: string)
    requires dir.stat == Contents(st) && dir.statm == Contents(sm) && dir.cmdline == Contents(cmd)
    requires dir.cwd == Failure("EACCES") && !CwdReusable(Cached(cache, dir.name))
    ensures ReadProcRecord(dir, cache).Some?
    ensures ReadProcRecord(dir, cache).value.cwd == None
  {
    var prev := Cached(cache, dir.name);
    AssembleRecordIdentity(DirName(dir.name), st, sm, ReadCommand(dir, prev).value, None);
  }

  /**
   * Every other failure rejects the directory, and with it the whole pass: a
   * stat or statm file that cannot be read (a process that exited between the
   * glob and the read), an uncached command line that cannot be read, or a
   * working-directory link that fails with any code but `EACCES`.
   */
  lemma OtherFailuresReject(dirs: seq<ProcDir>, cache: Table, i: int)
    requires 0 <= i < |dirs|
    requires var d := dirs[i]; var prev := Cached(cache, d.name);
      || d.stat.Failure?
      || d.statm.Failure?
      || (prev.None? && d.cmdline.Failure?)
      || (!CwdReusable(prev) && d.cwd.Failure? && d.cwd.code != "EACCES")
    ensures ReadProcRecord(dirs[i], cache).None?
    ensures ReadProcesses(dirs, cache).None?
  {
    ReadProcessesSucceeds(dirs, cache);
  }

  /** The property key a record is stored under: `processesRaw[cur.pid]`. */
  function Key(r: ProcRecord): string {
    PropertyKey(Pid(r))
  }

  /** `processesRaw` after the records were stored one after the other. */
  function IndexByPid(records: seq<ProcRecord>): Table {
    if |records| == 0 then map[]
    else
      var n := |records| - 1;
      IndexByPid(records[..n])[Key(records[n]) := records[n]]
  }

  /** Storing one more record: `processesRaw[pid] = record`. */
  lemma IndexByPidExtend(records: seq<ProcRecord>, i: nat)
    requires i < |records|
    ensures IndexByPid(records[..i + 1]) == IndexByPid(records[..i])[Key(records[i]) := records[i]]
  {
    assert records[..i + 1][..i] == records[..i];
  }

  /** The table holds a key exactly when some record has it as its pid. */
  lemma {:induction false} IndexByPidKeys(records: seq<ProcRecord>, k: string)
    ensures k in IndexByPid(records) <==> exists i :: 0 <= i < |records| && Key(records[i]) == k
  {
    if |records| > 0 {
      var n := |records| - 1;
      IndexByPidKeys(records[..n], k);
      if exists i :: 0 <= i < |records| && Key(records[i]) == k {
        var i :| 0 <= i < |records| && Key(records[i]) == k;
        if i < n {
          assert records[..n][i] == records[i];
        }
      }
      if k in IndexByPid(records[..n]) {
        var i :| 0 <= i < n && Key(records[..n][i]) == k;
        assert records[..n][i] == records[i];
      }
    }
  }

  /** Under each key is the last record with that pid. */
  lemma {:induction false} IndexByPidLast(records: seq<ProcRecord>, i: int)
    requires 0 <= i < |records|
    requires forall j :: i < j < |records| ==> Key(records[j]) != Key(records[i])
    ensures Key(records[i]) in IndexByPid(records)
    ensures IndexByPid(records)[Key(records[i])] == records[i]
  {
    var n := |records| - 1;
    if i < n {
      forall j | i < j < n ensures Key(records[..n][j]) != Key(records[..n][i]) {
        assert records[..n][j] == records[j];
      }
      IndexByPidLast(records[..n], i);
      assert records[..n][i] == records[i];
    }
  }

  /** The seven tick columns a process's delta reports, in the order `calc.cpu` lists them. */
  const ProcTickKeys: seq<string> := ["uTime", "sTime", "cuTime", "csTime", "blkioTicks", "gTime", "cgTime"]

  /** What a pass reads from the aggregate `cpu` row: its total and its tick deltas. */
  datatype CpuView = CpuView(totalTicks: Option<Num>, fields: map<string, Num>)

  /** `this.stats.cpu`, read as a CPU row (a value of another shape has none of the properties read). */
  function ViewOf(d: Delta.StatDelta): CpuView {
    match d
    case CpuUsage(fields, total, _) => CpuView(total, fields)
    case Ticks(fields) => CpuView(None, fields)
    case _ => CpuView(None, map[])
  }

  /** `curCPUUsage[name]`, NaN where undefined. */
  function Column(view: CpuView, name: string): Num {
    OrNaN(Delta.TickOf(view.fields, name))
  }

  /** One number per tick column: `calc.cpu.uTime` … `calc.cpu.cgTime`, or the percentages of them. */
  datatype ProcTimes = ProcTimes(uTime: Num, sTime: Num, cuTime: Num, csTime: Num, blkioTicks: Num, gTime: Num, cgTime: Num)

  /** The columns in the order of `ProcTickKeys`. */
  function Times(t: ProcTimes): (r: seq<Num>)
    ensures |r| == |ProcTickKeys|
  {
    [t.uTime, t.sTime, t.cuTime, t.csTime, t.blkioTicks, t.gTime, t.cgTime]
  }

  /** `calc.cpu.percent`: one percentage per tick column, and the two totals. */
  datatype CpuPercent = CpuPercent(ticks: ProcTimes, total: Num, totalWithChildren: Num)

  /** `calc.cpu.uTimePercentOfUser` …: each delta against the matching aggregate columns. */
  datatype CpuShares = CpuShares(
    uTimePercentOfUser: Num, sTimePercentOfSystem: Num,
    cuTimePercentOfUser: Num, csTimePercentOfSystem: Num,
    blkioTicksPercentOfIOWait: Num,
    gTimePercentOfGuest: Num, cgTimePercentOfGuest: Num)

  /** The seven shares in the order of `ProcTickKeys`. */
  function Shares(s: CpuShares): (r: seq<Num>)
    ensures |r| == |ProcTickKeys|
  {
    [s.uTimePercentOfUser, s.sTimePercentOfSystem, s.cuTimePercentOfUser, s.csTimePercentOfSystem,
     s.blkioTicksPercentOfIOWait, s.gTimePercentOfGuest, s.cgTimePercentOfGuest]
  }

  /** `calc.memory`: the statm columns, copied as strings. */
  datatype ProcMemory = ProcMemory(
    size: Option<string>, resident: Option<string>, shared: Option<string>,
    trs: Option<string>, lrs: Option<string>, drs: Option<string>, dt: Option<string>)

  /** The memory columns in the order of `ProcStatmKeys`. */
  function MemoryColumns(m: ProcMemory): (r: seq<Option<string>>)
    ensures |r| == |ProcStatmKeys|
  {
    [m.size, m.resident, m.shared, m.trs, m.lrs, m.drs, m.dt]
  }

  /** The delta record of one process, as `calc` is built. */
  datatype ProcessDelta = ProcessDelta(
    pid: Option<string>,
    command: seq<string>,
    cwd: Option<string>,
    cpu: ProcTimes,
    percent: CpuPercent,
    shares: CpuShares,
    memory: ProcMemory)

  /** `Number(cur[name])`, NaN for a record that is absent (`prev` was `{}`). */
  function TickValue(r: Option<ProcRecord>, name: string): Num {
    match r
    case Some(rec) => TokenToNumber(StatField(rec, name))
    case None => NaN
  }

  /** `cur[name] - prev[name]`. */
  function TickDelta(cur: ProcRecord, prev: Option<ProcRecord>, name: string): Num {
    Sub(TokenToNumber(StatField(cur, name)), TickValue(prev, name))
  }

  /** The divisor every percentage uses: `Math.min(curCPUUsage.totalTicks, 1)`. */
  function Divisor(view: CpuView): Num {
    MinOne(OrNaN(view.totalTicks))
  }

  /** `_.sum` of four deltas, all of them defined numbers. */
  function Sum4(a: Num, b: Num, c: Num, d: Num): Num {
    OrNaN(Sum([Some(a), Some(b), Some(c), Some(d)]))
  }

  /** `calc.cpu.uTime` … `calc.cpu.cgTime`. */
  function ProcTicks(cur: ProcRecord, prev: Option<ProcRecord>): ProcTimes {
    ProcTimes(TickDelta(cur, prev, "uTime"), TickDelta(cur, prev, "sTime"),
              TickDelta(cur, prev, "cuTime"), TickDelta(cur, prev, "csTime"),
              TickDelta(cur, prev, "blkioTicks"), TickDelta(cur, prev, "gTime"),
              TickDelta(cur, prev, "cgTime"))
  }

  /** Each column over the same divisor. */
  function Over(t: ProcTimes, div: Num): ProcTimes {
    ProcTimes(Div(t.uTime, div), Div(t.sTime, div), Div(t.cuTime, div), Div(t.csTime, div),
              Div(t.blkioTicks, div), Div(t.gTime, div), Div(t.cgTime, div))
  }

  /** `calc.cpu.percent`: each delta, and the two sums of four, over the divisor. */
  function ProcPercent(t: ProcTimes, div: Num): CpuPercent {
    CpuPercent(Over(t, div),
               Div(Sum4(t.uTime, t.sTime, t.blkioTicks, t.gTime), div),
               Div(Sum4(t.cuTime, t.csTime, t.blkioTicks, t.cgTime), div))
  }

  /** `calc.cpu.uTimePercentOfUser` …: each delta over the matching aggregate columns, capped at one tick. */
  function ProcShares(t: ProcTimes, view: CpuView): CpuShares {
    var user := MinOne(Add(Column(view, "user"), Column(view, "nice")));
    var system := MinOne(Column(view, "system"));
    var iowait := MinOne(Column(view, "iowait"));
    var guest := MinOne(Add(Column(view, "guest"), Column(view, "guestNice")));
    CpuShares(Div(t.uTime, user), Div(t.sTime, system), Div(t.cuTime, user), Div(t.csTime, system),
              Div(t.blkioTicks, iowait), Div(t.gTime, guest), Div(t.cgTime, guest))
  }

  /** `calc.memory`: the statm columns. */
  function Memory(cur: ProcRecord): ProcMemory {
    ProcMemory(StatmField(cur, "size"), StatmField(cur, "resident"), StatmField(cur, "shared"),
               StatmField(cur, "trs"), StatmField(cur, "lrs"), StatmField(cur, "drs"), StatmField(cur, "dt"))
  }

  /** The map-callback of the process step, given `prev` and the aggregate CPU row it reads. */
  function ProcessDeltaOf(cur: ProcRecord, prev: Option<ProcRecord>, view: CpuView): ProcessDelta {
    var t := ProcTicks(cur, prev);
    ProcessDelta(Pid(cur), cur.command, cur.cwd, t, ProcPercent(t, Divisor(view)), ProcShares(t, view), Memory(cur))
  }

  /** The previous record of a process, looked up in the rotated table by its pid. */
  function Previous(table: Table, cur: ProcRecord): Option<ProcRecord> {
    if Key(cur) in table then Some(table[Key(cur)]) else None
  }

  /** `xs.map(f)`, built one element at a time. */
  function MapSeq<A, B>(xs: seq<A>, f: A -> B): (ys: seq<B>)
    ensures |ys| == |xs|
  {
    if |xs| == 0 then []
    else
      var n := |xs| - 1;
      MapSeq(xs[..n], f) + [f(xs[n])]
  }

  lemma {:induction false} MapSeqAt<A, B>(xs: seq<A>, f: A -> B, i: nat)
    requires i < |xs|
    ensures MapSeq(xs, f)[i] == f(xs[i])
  {
    var n := |xs| - 1;
    if i < n {
      MapSeqAt(xs[..n], f, i);
      assert xs[..n][i] == xs[i];
    }
  }

  lemma MapSeqExtend<A, B>(xs: seq<A>, f: A -> B, i: nat)
    requires i < |xs|
    ensures MapSeq(xs[..i + 1], f) == MapSeq(xs[..i], f) + [f(xs[i])]
  {
    assert xs[..i + 1][..i] == xs[..i];
  }

  /** The delta of one record against the rotated table: `processes[i]` for `processesRaw[i]`. */
  function DeltaAgainst(prevTable: Table, view: CpuView): ProcRecord -> ProcessDelta {
    (r: ProcRecord) => ProcessDeltaOf(r, Previous(prevTable, r), view)
  }

  /** The published `processes`: one delta per record, in order. */
  function ProcessDeltas(records: seq<ProcRecord>, prevTable: Table, view: CpuView): (r: seq<ProcessDelta>)
    ensures |r| == |records|
  {
    MapSeq(records, DeltaAgainst(prevTable, view))
  }

  /** Each record's delta is computed against its own previous record, whatever its position. */
  lemma ProcessDeltasAt(records: seq<ProcRecord>, prevTable: Table, view: CpuView, i: nat)
    requires i < |records|
    ensures ProcessDeltas(records, prevTable, view)[i] == ProcessDeltaOf(records[i], Previous(prevTable, records[i]), view)
  {
    MapSeqAt(records, DeltaAgainst(prevTable, view), i);
  }

  /** One more record adds its own delta at the end. */
  lemma ProcessDeltasExtend(records: seq<ProcRecord>, i: nat, prevTable: Table, view: CpuView)
    requires i < |records|
    ensures ProcessDeltas(records[..i + 1], prevTable, view)
         == ProcessDeltas(records[..i], prevTable, view) + [DeltaAgainst(prevTable, view)(records[i])]
  {
    MapSeqExtend(records, DeltaAgainst(prevTable, view), i);
  }

  /** The pid, command line and working directory are copied, and the memory columns are the record's statm columns. */
  lemma CopiedVerbatim(cur: ProcRecord, prev: Option<ProcRecord>, view: CpuView)
    ensures var d := ProcessDeltaOf(cur, prev, view);
      && d.pid == Pid(cur) && d.command == cur.command && d.cwd == cur.cwd
      && forall i :: 0 <= i < |ProcStatmKeys| ==> MemoryColumns(d.memory)[i] == StatmField(cur, ProcStatmKeys[i])
  {
    var m := Memory(cur);
    assert MemoryColumns(m) == [m.size, m.resident, m.shared, m.trs, m.lrs, m.drs, m.dt];
    assert ProcStatmKeys == ["size", "resident", "shared", "trs", "lrs", "drs", "dt"];
  }

  /** For a record assembled from a statm file, memory column i is that file's token i. */
  lemma MemoryFromStatm(dirname: string, statText: string, statmText: string, command: seq<string>, cwd: Option<string>,
                        prev: Option<ProcRecord>, view: CpuView)
    ensures var d := ProcessDeltaOf(AssembleRecord(dirname, statText, statmText, command, cwd), prev, view);
      forall i :: 0 <= i < |ProcStatmKeys| ==> MemoryColumns(d.memory)[i] == TokenAt(SplitWs(statmText), i)
  {
    var r := AssembleRecord(dirname, statText, statmText, command, cwd);
    AssembleRecordStatm(dirname, statText, statmText, command, cwd);
    CopiedVerbatim(r, prev, view);
  }

  /** Tick column i of a delta is `cur - prev` for the column named `ProcTickKeys[i]`. */
  lemma TicksByName(cur: ProcRecord, prev: Option<ProcRecord>, i: int)
    requires 0 <= i < |ProcTickKeys|
    ensures Times(ProcTicks(cur, prev))[i] == TickDelta(cur, prev, ProcTickKeys[i])
  {
    var t := ProcTicks(cur, prev);
    if i == 0 { assert Times(t)[0] == t.uTime; }
    else if i == 1 { assert Times(t)[1] == t.sTime; }
    else if i == 2 { assert Times(t)[2] == t.cuTime; }
    else if i == 3 { assert Times(t)[3] == t.csTime; }
    else if i == 4 { assert Times(t)[4] == t.blkioTicks; }
    else if i == 5 { assert Times(t)[5] == t.gTime; }
    else { assert Times(t)[6] == t.cgTime; }
  }

  /** Percentage i is tick column i over the divisor. */
  lemma PercentOfTick(t: ProcTimes, div: Num, i: int)
    requires 0 <= i < |ProcTickKeys|
    ensures Times(ProcPercent(t, div).ticks)[i] == Div(Times(t)[i], div)
  {
  }

  /**
   * A process absent from the previous table has no baseline: all seven
   * deltas, their percentages, both totals and all seven shares are NaN.
   */
  lemma FreshProcessIsNaN(cur: ProcRecord, view: CpuView)
    ensures var d := ProcessDeltaOf(cur, None, view);
      && (forall i :: 0 <= i < |ProcTickKeys| ==>
            Times(d.cpu)[i].NaN? && Times(d.percent.ticks)[i].NaN? && Shares(d.shares)[i].NaN?)
      && d.percent.total.NaN? && d.percent.totalWithChildren.NaN?
  {
    var t := ProcTicks(cur, None);
    assert forall i :: 0 <= i < |ProcTickKeys| ==> Times(t)[i].NaN?;
    SumWithNaN(t.uTime, t.sTime, t.blkioTicks, t.gTime);
    SumWithNaN(t.cuTime, t.csTime, t.blkioTicks, t.cgTime);
  }

  /** A sum of four deltas whose first is NaN is NaN. */
  lemma SumWithNaN(a: Num, b: Num, c: Num, d: Num)
    requires a.NaN?
    ensures Sum4(a, b, c, d).NaN?
  {
    SumFromNaN([Some(a), Some(b), Some(c), Some(d)]);
  }

  /** `_.sum` of values the first of which is NaN is NaN. */
  lemma {:induction false} SumFromNaN(xs: seq<Option<Num>>)
    requires |xs| > 0 && xs[0] == Some(NaN)
    ensures Sum(xs) == Some(NaN)
  {
    var n := |xs| - 1;
    if n == 0 {
      assert BaseSum(xs[..0]) == None by { assert xs[..0] == []; }
    } else {
      SumFromNaN(xs[..n]);
    }
  }

  /** A sum of four finite deltas is their ordinary sum. */
  lemma SumOfFour(a: real, b: real, c: real, d: real)
    ensures Sum4(Fin(a), Fin(b), Fin(c), Fin(d)) == Fin(a + b + c + d)
  {
    var vs := [a, b, c, d];
    SumOfFinite([Some(Fin(a)), Some(Fin(b)), Some(Fin(c)), Some(Fin(d))], vs);
    assert vs[..3][..2][..1][..0] == [];
    assert vs[..3][..2][..1] == [a];
    assert vs[..3][..2] == [a, b];
    assert vs[..3] == [a, b, c];
    assert RealSum([a]) == a;
    assert RealSum([a, b]) == a + b;
    assert RealSum([a, b, c]) == a + b + c;
  }

  /**
   * A process present in both passes with numeric tick columns gets
   * `cur - prev` for each of the seven, so adding the delta to the previous
   * value gives the current one.
   */
  lemma ContinuingProcessDelta(cur: ProcRecord, prev: ProcRecord, i: int)
    requires 0 <= i < |ProcTickKeys|
    requires var k := ProcTickKeys[i]; StatField(cur, k).Some? && Delta.NumericToken(StatField(cur, k).value)
    requires var k := ProcTickKeys[i]; StatField(prev, k).Some? && Delta.NumericToken(StatField(prev, k).value)
    ensures var k := ProcTickKeys[i]; var t := Times(ProcTicks(cur, Some(prev)))[i];
      && t == Fin(Delta.TokenValue(StatField(cur, k).value) - Delta.TokenValue(StatField(prev, k).value))
      && Add(StrToNumber(StatField(prev, k).value), t) == StrToNumber(StatField(cur, k).value)
  {
    var k := ProcTickKeys[i];
    TicksByName(cur, Some(prev), i);
    assert TickDelta(cur, Some(prev), k) == Sub(TokenToNumber(StatField(cur, k)), TokenToNumber(StatField(prev, k)));
    Delta.TokenDelta(StatField(cur, k).value, StatField(prev, k).value);
  }

  /** The aggregate columns each share divides by, in the order of `ProcTickKeys`. */
  const ShareColumns: seq<seq<string>> :=
    [["user", "nice"], ["system"], ["user", "nice"], ["system"], ["iowait"], ["guest", "guestNice"], ["guest", "guestNice"]]

  /** `curCPUUsage.a + curCPUUsage.b + …` over the named aggregate columns. */
  function ColumnSum(view: CpuView, names: seq<string>): Num
    decreases |names|
  {
    if |names| == 0 then Fin(0.0)
    else if |names| == 1 then Column(view, names[0])
    else Add(Column(view, names[0]), ColumnSum(view, names[1..]))
  }

  /** The shares of seven ticks, each over `min(s, 1)` for its own aggregate column sum s. */
  lemma {:induction false} SharesOfTicks(t: ProcTimes, view: CpuView, i: int)
    requires 0 <= i < |ProcTickKeys|
    ensures Shares(ProcShares(t, view))[i] == Div(Times(t)[i], MinOne(ColumnSum(view, ShareColumns[i])))
  {
    assert ColumnSum(view, ["nice"]) == Column(view, "nice");
    assert ColumnSum(view, ["user", "nice"]) == Add(Column(view, "user"), Column(view, "nice"));
    assert ColumnSum(view, ["guestNice"]) == Column(view, "guestNice");
    assert ColumnSum(view, ["guest", "guestNice"]) == Add(Column(view, "guest"), Column(view, "guestNice"));
  }

  /** Share i is delta i over `min(s, 1)`, where s sums the aggregate columns that share is taken of. */
  lemma ShareAgainstColumns(cur: ProcRecord, prev: Option<ProcRecord>, view: CpuView, i: int)
    requires 0 <= i < |ProcTickKeys|
    ensures var d := ProcessDeltaOf(cur, prev, view);
      Shares(d.shares)[i] == Div(Times(d.cpu)[i], MinOne(ColumnSum(view, ShareColumns[i])))
  {
    var d := ProcessDeltaOf(cur, prev, view);
    assert d.shares == ProcShares(d.cpu, view);
    SharesOfTicks(d.cpu, view, i);
  }

  /**
   * For a process present in both passes, share i is its tick delta over
   * `min(s, 1)` for the positive aggregate sum s; once s reaches one tick the
   * share is the delta itself.
   */
  lemma ContinuingShare(cur: ProcRecord, prev: ProcRecord, view: CpuView, i: int, c: real)
    requires 0 <= i < |ProcTickKeys|
    requires var k := ProcTickKeys[i]; StatField(cur, k).Some? && Delta.NumericToken(StatField(cur, k).value)
    requires var k := ProcTickKeys[i]; StatField(prev, k).Some? && Delta.NumericToken(StatField(prev, k).value)
    requires ColumnSum(view, ShareColumns[i]) == Fin(c) && c > 0.0
    ensures var d := ProcessDeltaOf(cur, Some(prev), view); var k := ProcTickKeys[i];
      && Shares(d.shares)[i] ==
           Fin((Delta.TokenValue(StatField(cur, k).value) - Delta.TokenValue(StatField(prev, k).value)) / (if c <= 1.0 then c else 1.0))
      && (c >= 1.0 ==> Shares(d.shares)[i] == Times(d.cpu)[i])
  {
    var k := ProcTickKeys[i];
    var t := ProcTicks(cur, Some(prev));
    var d := ProcessDeltaOf(cur, Some(prev), view);
    assert d.cpu == t && d.shares == ProcShares(t, view);
    ContinuingProcessDelta(cur, prev, i);
    TickShare(t, view, i, Delta.TokenValue(StatField(cur, k).value) - Delta.TokenValue(StatField(prev, k).value), c);
  }

  /** A finite tick delta x has share `x / min(c, 1)` against a positive aggregate sum c. */
  lemma TickShare(t: ProcTimes, view: CpuView, i: int, x: real, c: real)
    requires 0 <= i < |ProcTickKeys|
    requires Times(t)[i] == Fin(x)
    requires ColumnSum(view, ShareColumns[i]) == Fin(c) && c > 0.0
    ensures Shares(ProcShares(t, view))[i] == Fin(x / (if c <= 1.0 then c else 1.0))
    ensures c >= 1.0 ==> Shares(ProcShares(t, view))[i] == Fin(x)
  {
    SharesOfTicks(t, view, i);
    ShareOfFinite(x, c);
  }

  /** A finite delta over `min(c, 1)` for a positive c. */
  lemma ShareOfFinite(x: real, c: real)
    requires c > 0.0
    ensures Div(Fin(x), MinOne(Fin(c))) == Fin(x / (if c <= 1.0 then c else 1.0))
    ensures c >= 1.0 ==> Div(Fin(x), MinOne(Fin(c))) == Fin(x)
  {
    var m := if c <= 1.0 then c else 1.0;
    assert MinOne(Fin(c)) == Fin(m);
    if c >= 1.0 {
      assert x / 1.0 == x;
    }
  }

  /**
   * Every percentage divides by `min(totalTicks, 1)`: whenever the interval saw
   * at least one tick the divisor is 1, so each percentage equals its delta.
   */
  lemma DivisorIsMinOne(cur: ProcRecord, prev: Option<ProcRecord>, view: CpuView, t: real)
    requires view.totalTicks == Some(Fin(t))
    ensures Divisor(view) == Fin(if t <= 1.0 then t else 1.0)
    ensures t >= 1.0 ==> forall i :: 0 <= i < |ProcTickKeys| ==>
      var d := ProcessDeltaOf(cur, prev, view);
      (Times(d.cpu)[i].Fin? || Times(d.cpu)[i].NaN?) ==> Times(d.percent.ticks)[i] == Times(d.cpu)[i]
  {
    if t >= 1.0 {
      var d := ProcessDeltaOf(cur, prev, view);
      forall i | 0 <= i < |ProcTickKeys| && (Times(d.cpu)[i].Fin? || Times(d.cpu)[i].NaN?)
        ensures Times(d.percent.ticks)[i] == Times(d.cpu)[i]
      {
        PercentOfTick(d.cpu, Divisor(view), i);
      }
    }
  }

  /** The deltas of a process whose user time went from 50 to 70 and system time from 10 to 15, with no block-I/O or guest time. */
  lemma SampleTicks(cur: ProcRecord, prev: ProcRecord)
    requires StatField(prev, "uTime") == Some("50") && StatField(cur, "uTime") == Some("70")
    requires StatField(prev, "sTime") == Some("10") && StatField(cur, "sTime") == Some("15")
    requires StatField(prev, "blkioTicks") == Some("0") && StatField(cur, "blkioTicks") == Some("0")
    requires StatField(prev, "gTime") == Some("0") && StatField(cur, "gTime") == Some("0")
    ensures var t := ProcTicks(cur, Some(prev));
      t.uTime == Fin(20.0) && t.sTime == Fin(5.0) && t.blkioTicks == Fin(0.0) && t.gTime == Fin(0.0)
  {
    TwoDigits("70"); TwoDigits("50"); TwoDigits("15"); TwoDigits("10"); OneDigit("0");
  }

  /**
   * That process in an interval of 100 ticks: its percentages are 20 and 5
   * and its total 25 (not 0.2, 0.05 and 0.25), because the divisor is
   * `min(100, 1)`.
   */
  lemma SampleInterval(cur: ProcRecord, prev: ProcRecord, view: CpuView)
    requires StatField(prev, "uTime") == Some("50") && StatField(cur, "uTime") == Some("70")
    requires StatField(prev, "sTime") == Some("10") && StatField(cur, "sTime") == Some("15")
    requires StatField(prev, "blkioTicks") == Some("0") && StatField(cur, "blkioTicks") == Some("0")
    requires StatField(prev, "gTime") == Some("0") && StatField(cur, "gTime") == Some("0")
    requires view.totalTicks == Some(Fin(100.0))
    ensures var d := ProcessDeltaOf(cur, Some(prev), view);
      && d.percent.ticks.uTime == Fin(20.0)
      && d.percent.ticks.sTime == Fin(5.0)
      && d.percent.total == Fin(25.0)
  {
    SampleTicks(cur, prev);
    PercentOfSample(ProcTicks(cur, Some(prev)));
  }

  /** The percentages of those deltas over a divisor of one. */
  lemma PercentOfSample(t: ProcTimes)
    requires t.uTime == Fin(20.0) && t.sTime == Fin(5.0) && t.blkioTicks == Fin(0.0) && t.gTime == Fin(0.0)
    ensures var p := ProcPercent(t, Fin(1.0));
      p.ticks.uTime == Fin(20.0) && p.ticks.sTime == Fin(5.0) && p.total == Fin(25.0)
  {
    var p := ProcPercent(t, Fin(1.0));
    SumOfFour(20.0, 5.0, 0.0, 0.0);
    assert p.ticks.uTime == Div(Fin(20.0), Fin(1.0)) && p.ticks.sTime == Div(Fin(5.0), Fin(1.0));
    assert p.total == Div(Fin(25.0), Fin(1.0));
  }

  /** The value of a two-digit token. */
  lemma TwoDigits(s: string)
    requires |s| == 2 && AllDigits(s)
    ensures DigitsValue(s) == 10 * ((s[0] as int) - ('0' as int)) + ((s[1] as int) - ('0' as int))
  {
    assert s[..1][..0] == [];
    assert s[..1] == [s[0]];
    assert DigitsValue(s[..1]) == (s[0] as int) - ('0' as int);
  }

  /** The value of a one-digit token. */
  lemma OneDigit(s: string)
    requires |s| == 1 && AllDigits(s)
    ensures DigitsValue(s) == (s[0] as int) - ('0' as int)
  {
    assert s[..0] == [];
  }
}
