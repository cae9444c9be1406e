/**
 * Positional schemas (services/readProc.js:21-105, 363-378, 408-420): the
 * fixed key tables, `_.zipObject(keys, fields)`, the naming of the `cpu*`
 * rows of the stat file, and the assembly of one process's raw record.
 */
module Schema {
  import opened Wrappers
  import opened Text
  import KeyValue
  import opened Js

  /** The ten tick columns of a `cpu` row. */
  const CpuStatKeys: seq<string> :=
    ["user", "nice", "system", "idle", "iowait", "irq", "softirq", "steal", "guest", "guestNice"]

  /** The columns of a process's stat file up to `wchan`, in three runs around the two `_` placeholders. */
  const StatKeysHead: seq<string> :=
    [ "pid", "tcomm", "state", "ppid", "pgrp", "sid", "ttyNr", "ttyPgrp", "flags",
      "minFlt", "cminFlt", "majFlt", "cmajFlt", "uTime", "sTime", "cuTime", "csTime", "priority" ]
  const StatKeysMiddle: seq<string> :=
    [ "nice", "numThreads", "itRealValue", "startTime", "vsize", "rss",
      "rsslim", "startCode", "endCode", "startStack", "esp", "eip", "pending",
      "blocked", "sigign", "sigcatch", "wchan" ]
  const StatKeysTail: seq<string> :=
    [ "exitSignal", "taskCpu", "rtPriority", "policy", "blkioTicks", "gTime", "cgTime",
      "startData", "endData", "startBrk", "argStart", "argEnd", "envStart", "envEnd", "exitCode" ]

  /** The placeholder column name, dropped from the process record. */
  const Placeholder: string := "_"

  /** The 52 columns of a process's stat file; the two `_` columns are placeholders. */
  const ProcStatKeys: seq<string> := StatKeysHead + StatKeysMiddle + [Placeholder, Placeholder] + StatKeysTail

  /** The columns of a process's statm file. */
  const ProcStatmKeys: seq<string> := ["size", "resident", "shared", "trs", "lrs", "drs", "dt"]

  /** No name occurs twice in the list. */
  ghost predicate Distinct(keys: seq<string>) {
    forall i, j :: 0 <= i < j < |keys| ==> keys[i] != keys[j]
  }

  /** No name of one list occurs in the other. */
  ghost predicate Disjoint(xs: seq<string>, ys: seq<string>) {
    forall i, j :: 0 <= i < |xs| && 0 <= j < |ys| ==> xs[i] != ys[j]
  }

  function CharAt(s: string, k: int): char {
    if 0 <= k < |s| then s[k] else ' '
  }

  /** Two names that differ in length or in one of their first three or last two characters. */
  predicate Apart(a: string, b: string) {
    || |a| != |b|
    || CharAt(a, 0) != CharAt(b, 0) || CharAt(a, 1) != CharAt(b, 1) || CharAt(a, 2) != CharAt(b, 2)
    || CharAt(a, |a| - 1) != CharAt(b, |b| - 1) || CharAt(a, |a| - 2) != CharAt(b, |b| - 2)
  }

  lemma CpuStatKeysDistinct()
    ensures |CpuStatKeys| == 10 && Distinct(CpuStatKeys)
  {
    forall i, j | 0 <= i < j < |CpuStatKeys| ensures CpuStatKeys[i] != CpuStatKeys[j] {
      assert Apart(CpuStatKeys[i], CpuStatKeys[j]);
    }
  }

  lemma ProcStatmKeysDistinct()
    ensures |ProcStatmKeys| == 7 && Distinct(ProcStatmKeys)
  {
    forall i, j | 0 <= i < j < |ProcStatmKeys| ensures ProcStatmKeys[i] != ProcStatmKeys[j] {
      assert Apart(ProcStatmKeys[i], ProcStatmKeys[j]);
    }
  }

  lemma StatKeysHeadDistinct()
    ensures Distinct(StatKeysHead)
  {
    forall i, j | 0 <= i < j < |StatKeysHead| ensures StatKeysHead[i] != StatKeysHead[j] {
      assert Apart(StatKeysHead[i], StatKeysHead[j]);
    }
  }

  lemma StatKeysMiddleDistinct()
    ensures Distinct(StatKeysMiddle)
  {
    forall i, j | 0 <= i < j < |StatKeysMiddle| ensures StatKeysMiddle[i] != StatKeysMiddle[j] {
      assert Apart(StatKeysMiddle[i], StatKeysMiddle[j]);
    }
  }

  lemma StatKeysTailDistinct()
    ensures Distinct(StatKeysTail)
  {
    forall i, j | 0 <= i < j < |StatKeysTail| ensures StatKeysTail[i] != StatKeysTail[j] {
      assert Apart(StatKeysTail[i], StatKeysTail[j]);
    }
  }

  lemma StatKeysHeadMiddleDisjoint()
    ensures Disjoint(StatKeysHead, StatKeysMiddle)
  {
    forall i, j | 0 <= i < |StatKeysHead| && 0 <= j < |StatKeysMiddle| ensures StatKeysHead[i] != StatKeysMiddle[j] {
      assert Apart(StatKeysHead[i], StatKeysMiddle[j]);
    }
  }

  lemma StatKeysHeadTailDisjoint()
    ensures Disjoint(StatKeysHead, StatKeysTail)
  {
    forall i, j | 0 <= i < |StatKeysHead| && 0 <= j < |StatKeysTail| ensures StatKeysHead[i] != StatKeysTail[j] {
      assert Apart(StatKeysHead[i], StatKeysTail[j]);
    }
  }

  lemma StatKeysMiddleTailDisjoint()
    ensures Disjoint(StatKeysMiddle, StatKeysTail)
  {
    forall i, j | 0 <= i < |StatKeysMiddle| && 0 <= j < |StatKeysTail| ensures StatKeysMiddle[i] != StatKeysTail[j] {
      assert Apart(StatKeysMiddle[i], StatKeysTail[j]);
    }
  }

  /** The columns before the placeholders: no repetition, no placeholder, nothing shared with the tail. */
  lemma StatKeysFront()
    ensures Distinct(StatKeysHead + StatKeysMiddle)
    ensures Disjoint(StatKeysHead + StatKeysMiddle, StatKeysTail)
    ensures forall i :: 0 <= i < |StatKeysHead + StatKeysMiddle| ==> (StatKeysHead + StatKeysMiddle)[i] != Placeholder
  {
    StatKeysHeadDistinct();
    StatKeysMiddleDistinct();
    StatKeysHeadMiddleDisjoint();
    StatKeysHeadTailDisjoint();
    StatKeysMiddleTailDisjoint();
    DistinctConcat(StatKeysHead, StatKeysMiddle);
    var front := StatKeysHead + StatKeysMiddle;
    forall i, j | 0 <= i < |front| && 0 <= j < |StatKeysTail| ensures front[i] != StatKeysTail[j] {
      if i >= |StatKeysHead| {
        assert front[i] == StatKeysMiddle[i - |StatKeysHead|];
      }
    }
    forall i | 0 <= i < |front| ensures front[i] != Placeholder {
      if i >= |StatKeysHead| {
        assert front[i] == StatKeysMiddle[i - |StatKeysHead|];
      }
      assert |front[i]| > 1;
    }
  }

  /** Two lists without repetitions and without common names concatenate to a list without repetitions. */
  lemma DistinctConcat(xs: seq<string>, ys: seq<string>)
    requires Distinct(xs) && Distinct(ys) && Disjoint(xs, ys)
    ensures Distinct(xs + ys)
  {
    var zs := xs + ys;
    forall i, j | 0 <= i < j < |zs| ensures zs[i] != zs[j] {
      if j < |xs| {
      } else if i < |xs| {
        assert zs[j] == ys[j - |xs|];
      } else {
        assert zs[i] == ys[i - |xs|] && zs[j] == ys[j - |xs|];
      }
    }
  }

  /** The only name the stat schema repeats is the placeholder. */
  lemma ProcStatKeysRepeatOnlyPlaceholder()
    ensures |ProcStatKeys| == 52
    ensures forall i :: 0 <= i < |ProcStatKeys| && ProcStatKeys[i] != Placeholder ==> LastOccurrence(ProcStatKeys, i)
  {
    StatKeysFront();
    StatKeysTailDistinct();
    var front := StatKeysHead + StatKeysMiddle;
    var p := front + [Placeholder, Placeholder] + StatKeysTail;
    assert p == ProcStatKeys;
    var n := |front|;
    forall i | 0 <= i < |p| && p[i] != Placeholder ensures LastOccurrence(p, i) {
      forall j | i < j < |p| ensures p[j] != p[i] {
        if j < n {
          assert p[i] == front[i] && p[j] == front[j];
        } else if j < n + 2 {
          assert p[j] == Placeholder;
        } else if i < n {
          assert p[i] == front[i] && p[j] == StatKeysTail[j - n - 2];
        } else {
          assert p[i] == StatKeysTail[i - n - 2] && p[j] == StatKeysTail[j - n - 2];
        }
      }
    }
  }

  /** `/^cpu/.test(key)`. */
  predicate IsCpuKey(k: string) {
    |k| >= 3 && k[..3] == "cpu"
  }

  /** A row of the stat table: raw tokens, or a `cpu*` row named by the tick schema. */
  datatype StatRow = Tokens(toks: seq<string>) | Named(fields: map<string, Option<string>>)

  /** A `cpu*` row named over exactly the ten tick columns, token i under column i. */
  ghost predicate IsCpuRow(row: StatRow, toks: seq<string>) {
    && row.Named?
    && (forall f :: f in row.fields <==> f in CpuStatKeys)
    && (forall i :: 0 <= i < |CpuStatKeys| ==> row.fields[CpuStatKeys[i]] == TokenAt(toks, i))
  }

  /**
   * `nameCPUStatKeys(statData)`: every key starting with `cpu` is mapped
   * through the tick schema; every other key keeps its raw tokens.
   */
  function NameCPUStatKeys(parsed: map<string, seq<string>>): (r: map<string, StatRow>)
    ensures r.Keys == parsed.Keys
    ensures forall k :: k in r && IsCpuKey(k) ==> r[k] == Named(ZipObject(CpuStatKeys, parsed[k]))
    ensures forall k :: k in r && !IsCpuKey(k) ==> r[k] == Tokens(parsed[k])
  {
    map k | k in parsed :: if IsCpuKey(k) then Named(ZipObject(CpuStatKeys, parsed[k])) else Tokens(parsed[k])
  }

  /** Zipping a schema without repetitions puts value i under name i. */
  lemma ZipDistinct(keys: seq<string>, values: seq<string>)
    requires Distinct(keys)
    ensures forall i :: 0 <= i < |keys| ==> keys[i] in ZipObject(keys, values) && ZipObject(keys, values)[keys[i]] == TokenAt(values, i)
  {
    forall i | 0 <= i < |keys|
      ensures keys[i] in ZipObject(keys, values) && ZipObject(keys, values)[keys[i]] == TokenAt(values, i)
    {
      ZipObjectAt(keys, values, i);
    }
  }

  /** A named `cpu*` row holds token i under tick column i, and no other column. */
  lemma CpuRowColumns(toks: seq<string>)
    ensures IsCpuRow(Named(ZipObject(CpuStatKeys, toks)), toks)
  {
    CpuStatKeysDistinct();
    ZipObjectKeys(CpuStatKeys, toks);
    ZipDistinct(CpuStatKeys, toks);
  }

  /** The keys of the stat file that `readStats` deletes. */
  const DroppedStatKeys: set<string> := {"intr", "softirq"}

  /** `readStats()` on the contents of the stat file. */
  function StatsTable(data: string): map<string, StatRow> {
    NameCPUStatKeys(KeyValue.Parse(data).entries - DroppedStatKeys)
  }

  /**
   * After `readStats`, `intr` and `softirq` are gone, every `cpu*` key is a
   * row over exactly the ten tick columns, and every other key keeps the
   * tokens its last line had.
   */
  lemma StatsTableShape(data: string)
    ensures var t := StatsTable(data);
      && "intr" !in t && "softirq" !in t
      && (forall k :: k in t <==> k in KeyValue.Parse(data).entries && k !in DroppedStatKeys)
      && (forall k :: k in t && IsCpuKey(k) ==> IsCpuRow(t[k], KeyValue.Parse(data).entries[k]))
      && (forall k :: k in t && !IsCpuKey(k) ==> t[k] == Tokens(KeyValue.Parse(data).entries[k]))
  {
    var t := StatsTable(data);
    forall k | k in t && IsCpuKey(k) ensures IsCpuRow(t[k], KeyValue.Parse(data).entries[k]) {
      CpuRowColumns(KeyValue.Parse(data).entries[k]);
    }
  }

  /** Every row of the table has the shape its key calls for. */
  ghost predicate WellShaped(t: map<string, StatRow>) {
    forall k :: k in t ==> (IsCpuKey(k) <==> t[k].Named?) && (t[k].Named? ==> forall f :: f in t[k].fields <==> f in CpuStatKeys)
  }

  lemma StatsTableWellShaped(data: string)
    ensures WellShaped(StatsTable(data))
  {
    StatsTableShape(data);
  }

  /** `procStateDescriptions[state]`. */
  function StateDescription(state: Option<string>): Option<string> {
    match state
    case Some("R") => Some("running")
    case Some("S") => Some("sleeping")
    case Some("D") => Some("sleeping in an uninterruptible wait")
    case Some("Z") => Some("zombie")
    case Some("T") => Some("traced or stopped")
    case _ => None
  }

  /**
   * Exactly the five states R, S, D, Z and T are described; any other state
   * letter the kernel reports (I for idle, t for tracing stop, X for dead)
   * has no description.
   */
  lemma DescribedStates(state: Option<string>)
    ensures StateDescription(state).Some? <==> state in {Some("R"), Some("S"), Some("D"), Some("Z"), Some("T")}
    ensures StateDescription(Some("I")) == None && StateDescription(Some("t")) == None && StateDescription(Some("X")) == None
  {
  }

  /**
   * One process's raw record: the object `readProcesses` assembles from the
   * directory name, the cached or freshly read command line and working
   * directory, and the named stat and statm columns. `_.assign` copies the
   * stat columns after the base object, so the record's `pid` is the stat
   * file's first token; the directory's number is not kept.
   */
  datatype ProcRecord = ProcRecord(
    dirname: string,
    command: seq<string>,
    cwd: Option<string>,
    stat: map<string, Option<string>>,
    stateDesc: Option<string>,
    statm: map<string, Option<string>>)

  /** `cur[name]` for a column of the stat file. */
  function StatField(r: ProcRecord, name: string): Option<string> {
    if name in r.stat then r.stat[name] else None
  }

  /** `cur[name]` for a column of the statm file. */
  function StatmField(r: ProcRecord, name: string): Option<string> {
    if name in r.statm then r.statm[name] else None
  }

  /** `cur.pid`. */
  function Pid(r: ProcRecord): Option<string> {
    StatField(r, "pid")
  }

  /** The join callback of `readProcesses` (services/readProc.js:362-366). */
  function AssembleRecord(dirname: string, statText: string, statmText: string,
                          command: seq<string>, cwd: Option<string>): ProcRecord
  {
    var stat := ZipObject(ProcStatKeys, SplitWs(statText));
    ProcRecord(dirname, command, cwd, stat - {Placeholder},
               StateDescription(if "state" in stat then stat["state"] else None),
               ZipObject(ProcStatmKeys, SplitWs(statmText)))
  }

  /** Token i of the stat file lands under every stat column i but the placeholders. */
  lemma StatColumns(fields: seq<string>)
    ensures forall i :: 0 <= i < |ProcStatKeys| && ProcStatKeys[i] != Placeholder ==>
      ProcStatKeys[i] in ZipObject(ProcStatKeys, fields) && ZipObject(ProcStatKeys, fields)[ProcStatKeys[i]] == TokenAt(fields, i)
  {
    ProcStatKeysRepeatOnlyPlaceholder();
    forall i | 0 <= i < |ProcStatKeys| && ProcStatKeys[i] != Placeholder
      ensures ProcStatKeys[i] in ZipObject(ProcStatKeys, fields) && ZipObject(ProcStatKeys, fields)[ProcStatKeys[i]] == TokenAt(fields, i)
    {
      ZipObjectAt(ProcStatKeys, fields, i);
    }
  }

  /**
   * The assembled record holds token i of the stat file under every stat
   * column i but the placeholders (undefined where the file is short), and no
   * placeholder column.
   */
  lemma AssembleRecordStat(dirname: string, statText: string, statmText: string,
                           command: seq<string>, cwd: Option<string>)
    ensures var r := AssembleRecord(dirname, statText, statmText, command, cwd);
      && Placeholder !in r.stat
      && (forall k :: k in r.stat <==> k in ProcStatKeys && k != Placeholder)
      && (forall i :: 0 <= i < |ProcStatKeys| && ProcStatKeys[i] != Placeholder ==>
            StatField(r, ProcStatKeys[i]) == TokenAt(SplitWs(statText), i))
  {
    ZipObjectKeys(ProcStatKeys, SplitWs(statText));
    StatColumns(SplitWs(statText));
  }

  /** The record holds token i of the statm file under statm column i, and no other column. */
  lemma AssembleRecordStatm(dirname: string, statText: string, statmText: string,
                            command: seq<string>, cwd: Option<string>)
    ensures var r := AssembleRecord(dirname, statText, statmText, command, cwd);
      && (forall k :: k in r.statm <==> k in ProcStatmKeys)
      && (forall i :: 0 <= i < |ProcStatmKeys| ==> StatmField(r, ProcStatmKeys[i]) == TokenAt(SplitWs(statmText), i))
  {
    ProcStatmKeysDistinct();
    ZipObjectKeys(ProcStatmKeys, SplitWs(statmText));
    ZipDistinct(ProcStatmKeys, SplitWs(statmText));
  }

  /**
   * `_.assign` lets the stat file's first token be the record's `pid`; the
   * state's description is looked up from the third token; the directory
   * name, command line and working directory are kept as given.
   */
  lemma AssembleRecordIdentity(dirname: string, statText: string, statmText: string,
                               command: seq<string>, cwd: Option<string>)
    ensures var r := AssembleRecord(dirname, statText, statmText, command, cwd);
      && Pid(r) == TokenAt(SplitWs(statText), 0)
      && r.stateDesc == StateDescription(TokenAt(SplitWs(statText), 2))
      && r.dirname == dirname && r.command == command && r.cwd == cwd
  {
    var fields := SplitWs(statText);
    assert ProcStatKeys[0] == "pid" && ProcStatKeys[2] == "state";
    ProcStatKeysRepeatOnlyPlaceholder();
    ZipObjectAt(ProcStatKeys, fields, 0);
    ZipObjectAt(ProcStatKeys, fields, 2);
  }
}
