# ProcReader, modelled in Dafny

This project models the sampling core of toptron's process reader. The
reader periodically reads `/proc/stat`, `/proc/meminfo` and every
`/proc/<pid>/` directory. It turns each reading into per-interval
statistics and emits an `update` event. The model also covers the two
key-path helpers of `services/utils.js`.

The model follows the reader's own structure:

- `Text` and `Js` hold the slice of JavaScript the reader relies on:
  `split` on a character or on `\s+`, numbers (with NaN and the
  infinities), `Number()`, `parseInt`, lodash `_.sum`, `_.zipObject`, and
  dynamic values with truthiness and property access.
- `KeyValue` is `parseKVP`, written as a loop over the lines. It is proved
  against a line-by-line specification function.
- `Schema` holds the key tables, `nameCPUStatKeys`, the
  `procStateDescriptions` lookup and the assembly of a process record.
- `Delta` is the counter delta engine and `calcCPUPercentages`.
- `MemInfo` is the meminfo transform, written as a loop over the rows in
  insertion order, followed by the derived fields.
- `Processes` covers three things:
  - reading process directories through the command-line and
    working-directory cache;
  - indexing records by pid;
  - the per-process delta record.
- `Reader` is the `ProcReader` class. Its fields are the tables the source
  keeps between passes. `Tick` is a timer firing: the guard and the start
  of a pass. `Complete` is the settling of a pass, up to the `finally` that
  clears the guard.
- `Utils` is `lookupObject` and `lookupValue`, written as loops.

Some things the source does not do itself are passed in as parameters or
outcomes:

- File contents and read failures are inputs: `ReadResult` and `ProcDir`.
- The per-process map callback is a parameter of `StepProcesses`. It is
  `None` when the callback would throw.
- The end of a pass is an `Outcome`.

JavaScript numbers are exact reals plus NaN and the two infinities.

Behaviour worth knowing:

- A process directory whose files cannot be read, for example because the
  process exited between the glob and the read, rejects the whole pass.
- A process with no record in the previous table gets NaN deltas, because
  its `prev` is `{}`.
- `VmallocTotal` is renamed `vmallocTotal`.
- Every `cpu.percent.*` entry of a process divides by
  `Math.min(totalTicks, 1)`. In any interval with at least one tick that
  divisor is 1, so each such percentage equals its delta:
  `Processes.SampleInterval` gives 20, 5 and 25. The seven
  `…PercentOf…` shares divide in the same way by `Math.min(s, 1)`, where s
  is `user + nice`, `system`, `iowait` or `guest + guestNice` of the
  aggregate row.
- Apart from `EACCES` on the working-directory link, every per-process
  read failure rejects the pass.
- Without an aggregate `cpu` row, the per-process callback throws. It
  throws after storing the first record, so the pass ends with
  `processesRaw` holding that record and nothing is emitted.
- `_.sum` is lodash 4's: undefined terms are skipped and NaN propagates.

## Model

| member | source | states |
|---|---|---|
| Text.JoinSplitOn | services/readProc.js:386 | joining the parts of `split(/\n/)` with the separator gives the text back |
| Text.SplitOn | services/readProc.js:386 | `split` on one character gives at least one part, none containing the separator |
| Text.SplitOnJoin | services/readProc.js:359 | parts free of the separator survive join-then-split (`cmdline.split(/\0/)`) |
| Text.SplitWsJoin | services/readProc.js:375 | whitespace-free tokens, none empty except the first and last, survive join-then-`split(/\s+/)` |
| Text.SplitWs | services/readProc.js:375 | `split(/\s+/)` gives whitespace-free tokens, none empty except possibly the first and last, the first non-empty when the text starts with a non-space |
| Text.LeadingSpacesRun | services/readProc.js:16 | the leading whitespace run consists of whitespace and is maximal |
| Js.AddSub | services/readProc.js:173 | for finite numbers, `prev + (cur - prev) == cur` |
| Js.SumOfFinite | services/readProc.js:424-435 | `_.sum` of defined finite numbers is their ordinary sum |
| Js.Sum | services/readProc.js:424-435 | lodash 4 `_.sum`: 0 for no terms; otherwise undefined terms are skipped, and the sum is undefined exactly when every term is |
| Js.BaseSum | services/readProc.js:424-435 | the skipping sum lodash 4 applies to a non-empty array is undefined exactly when every term is |
| Js.ParseIntOfDigits | services/readProc.js:205 | on a digit string, `parseInt(s, 10)` and `Number(s)` both give its decimal value |
| Js.LeadingDigits | services/readProc.js:205 | `parseInt` reads the longest digit prefix: all digits, followed by a non-digit or the end |
| Js.ParseInt | services/readProc.js:205 | `parseInt(s, 10)`: whitespace, a sign, then the longest digit prefix, NaN without a digit; proved against `Number` by ParseIntOfDigits |
| Js.ZipObjectKeys | services/readProc.js:376 | the zipped object has exactly the schema's names as keys |
| Js.ZipObjectAt | services/readProc.js:376 | a name at its last position maps to the token there, or undefined past the end of the tokens |
| Js.ZipObject | services/readProc.js:376 | `_.zipObject(keys, values)`; its keys are ZipObjectKeys, its values ZipObjectAt and Schema.ZipDistinct |
| Js.GetProperty | services/utils.js:4 | reading a property throws exactly on null or undefined; an object gives its own property or undefined (JSON-like values only, see Left out) |
| KeyValue.LeadingKeyRun | services/readProc.js:16 | the key run holds only key characters and is followed by a non-key character |
| KeyValue.MatchKey | services/readProc.js:393 | `keyRE.exec(line)`; what it matches is MatchKeySound and MatchKeyComplete |
| KeyValue.MatchKeySound | services/readProc.js:393 | a match splits the line into a key, an optional colon plus whitespace, and a rest that does not start with whitespace |
| KeyValue.MatchKeyComplete | services/readProc.js:393 | every split of a line into key, separator and such a rest is the one the rule finds |
| KeyValue.MatchedKeyIsKey | services/readProc.js:16 | a matched key is non-empty and holds no colon and no whitespace |
| KeyValue.StepKeys | services/readProc.js:388-402 | one line adds its own key, if it matches, and keeps every other key |
| KeyValue.ParseLines | services/readProc.js:386-403 | the line-by-line parse; its keys, values, order and warnings are ParseLinesKeys, ParseLinesValue, ParseLinesOrder and ParseLinesWarnings |
| KeyValue.ParseLinesKeys | services/readProc.js:386-403 | a key is in the parsed object exactly when some line has it as its key |
| KeyValue.ParseLinesValue | services/readProc.js:401-402 | a key's value is the whitespace split of the rest of the last line with that key |
| KeyValue.ParseLinesKeysValid | services/readProc.js:393-402 | every parsed key is a valid key |
| KeyValue.ParseLinesOrder | services/readProc.js:402 | the insertion order lists every parsed key exactly once |
| KeyValue.ParseLinesWarnings | services/readProc.js:388-399 | warnings are the 1-based numbers of exactly the non-empty unmatched lines, increasing; empty lines are never reported |
| KeyValue.ParseKVP | services/readProc.js:380-406 | the line loop computes the line-by-line parse; its keys are valid and its order lists them once |
| Schema.CpuStatKeysDistinct | services/readProc.js:21-32 | ten tick column names, none repeated |
| Schema.ProcStatmKeysDistinct | services/readProc.js:97-105 | seven statm column names, none repeated |
| Schema.ProcStatKeysRepeatOnlyPlaceholder | services/readProc.js:34-87 | 52 stat columns; only the `_` placeholder occurs twice |
| Schema.StatKeysFront | services/readProc.js:34-69 | the columns before the placeholders are distinct, free of `_` and disjoint from the tail |
| Schema.StatsTable | services/readProc.js:332-338 | `readStats`: parse, delete `intr` and `softirq`, name the `cpu*` rows; its shape is StatsTableShape |
| Schema.ZipDistinct | services/readProc.js:376 | zipping a schema without repetition puts token i under name i |
| Schema.CpuRowColumns | services/readProc.js:413 | a named `cpu*` row has exactly the ten tick columns, token i under column i |
| Schema.StatsTableShape | services/readProc.js:332-338 | after `readStats`: no `intr` or `softirq`; `cpu*` rows over the ten columns; other keys keep their last line's tokens |
| Schema.StatsTableWellShaped | services/readProc.js:335-337 | every row of the stat table has the shape its key calls for |
| Schema.StatColumns | services/readProc.js:375-376 | stat token i lands under every column i except the placeholders |
| Schema.StateDescription | services/readProc.js:89-95 | `procStateDescriptions[state]`; stated by DescribedStates |
| Schema.DescribedStates | services/readProc.js:89-95 | exactly the states R, S, D, Z and T have a description; I, t and X have none |
| Schema.AssembleRecord | services/readProc.js:362-365 | the join callback of `readProcesses`; its columns and identity are AssembleRecordStat, AssembleRecordStatm and AssembleRecordIdentity |
| Schema.AssembleRecordStat | services/readProc.js:362-365 | the record has every stat column except `_`, holding token i, undefined past the end of the tokens |
| Schema.AssembleRecordStatm | services/readProc.js:357 | the record has exactly the statm columns, statm token i under column i |
| Schema.AssembleRecordIdentity | services/readProc.js:363-365 | `pid` is the stat file's first token (overriding the directory's number); `stateDesc` is the description of token 2; dirname, command and cwd kept |
| Processes.ReadProcesses | services/readProc.js:347-369 | when the read succeeds there is one record per directory |
| Processes.AllSomeSucceeds | services/readProc.js:355 | joining succeeds exactly when every value is present |
| Processes.AllSomeAt | services/readProc.js:355 | joined value i is the value at position i |
| Processes.ReadProcessesSucceeds | services/readProc.js:352-368 | the pass's records exist exactly when every directory's reads succeed |
| Processes.ReadProcessesInOrder | services/readProc.js:352-368 | record i is directory i's record |
| Processes.CacheReuse | services/readProc.js:354-361 | a cached command line is always reused; a cached cwd is reused exactly when truthy, otherwise the link is re-read |
| Processes.CwdAccessDenied | services/readProc.js:360-361 | `EACCES` on an uncached working directory gives null |
| Processes.OtherFailuresReject | services/readProc.js:355-361 | any other failed read rejects the directory and the whole pass |
| Processes.ReadCommand | services/readProc.js:358-359 | `prev.command ||` the NUL split of `cmdline`; stated by CacheReuse and OtherFailuresReject |
| Processes.ReadCwd | services/readProc.js:360-361 | `prev.cwd ||` the `cwd` link, null on `EACCES`; stated by CacheReuse, CwdAccessDenied and OtherFailuresReject |
| Processes.ReadProcRecord | services/readProc.js:353-366 | one directory's record, or a rejection; stated by ReadProcessesSucceeds and OtherFailuresReject |
| Processes.IndexByPid | services/readProc.js:252 | the table `processesRaw` after the stores; stated by IndexByPidKeys, IndexByPidLast and IndexByPidExtend |
| Processes.IndexByPidExtend | services/readProc.js:252 | storing a record is `processesRaw[pid] = record` |
| Processes.IndexByPidKeys | services/readProc.js:252 | the table holds a key exactly when some record has it as pid |
| Processes.IndexByPidLast | services/readProc.js:252 | under each key is the last record with that pid |
| Processes.MapSeqAt | services/readProc.js:251 | element i of the map is the callback applied to record i |
| Processes.ProcessDeltas | services/readProc.js:251-317 | exactly one delta per record |
| Processes.ProcessDeltasAt | services/readProc.js:251-317 | delta i is record i against its own previous record |
| Processes.ProcessDeltasExtend | services/readProc.js:251-317 | one more record appends its own delta |
| Processes.CopiedVerbatim | services/readProc.js:257-281 | pid, command and cwd are copied; memory column i is the record's statm column i |
| Processes.MemoryFromStatm | services/readProc.js:271-281 | memory column i is token i of the statm file |
| Processes.TicksByName | services/readProc.js:261-267 | tick i is `cur - prev` of the column named `ProcTickKeys[i]` |
| Processes.PercentOfTick | services/readProc.js:286-292 | percentage i is tick i over the divisor |
| Processes.ContinuingProcessDelta | services/readProc.js:261-267 | with numeric columns, tick i is the difference, and adding it to prev gives cur |
| Processes.FreshProcessIsNaN | services/readProc.js:255-314 | without a previous record, every tick, percentage, total and share is NaN |
| Processes.SumWithNaN | services/readProc.js:294-299 | a four-term `_.sum` whose first term is NaN is NaN |
| Processes.SumOfFour | services/readProc.js:294-306 | a four-term `_.sum` of finite numbers is their sum |
| Processes.DivisorIsMinOne | services/readProc.js:286-292 | the divisor is `min(totalTicks, 1)`; with at least one tick, each percentage equals its delta |
| Processes.SampleTicks | services/readProc.js:261-266 | user time 50 to 70 and system time 10 to 15 give deltas 20 and 5 |
| Processes.SampleInterval | services/readProc.js:286-299 | over 100 ticks, those give percentages 20 and 5 and a total of 25 |
| Processes.PercentOfSample | services/readProc.js:286-299 | over a divisor of one, 20 and 5 give 20, 5 and total 25 |
| Processes.ProcTicks | services/readProc.js:260-267 | `calc.cpu.uTime` … `cgTime`; stated by TicksByName, ContinuingProcessDelta and FreshProcessIsNaN |
| Processes.ProcPercent | services/readProc.js:286-306 | `calc.cpu.percent`; stated by PercentOfTick, DivisorIsMinOne and SampleInterval |
| Processes.ProcShares | services/readProc.js:308-314 | the seven `…PercentOf…` shares; stated by ShareAgainstColumns and ContinuingShare |
| Processes.ProcessDeltaOf | services/readProc.js:255-314 | the map callback's `calc` record; stated by CopiedVerbatim, TicksByName, PercentOfTick and ShareAgainstColumns |
| Processes.ShareAgainstColumns | services/readProc.js:308-314 | share i is delta i over `min(s, 1)`, s the sum of the aggregate columns that share is of: `user + nice`, `system`, `iowait` or `guest + guestNice` |
| Processes.ContinuingShare | services/readProc.js:308-314 | for a process in both passes, share i is its numeric delta over `min(s, 1)`; once s is at least one tick the share equals the delta |
| Delta.StatsDelta | services/readProc.js:144 | the delta table has exactly the current table's keys |
| Delta.DeltaOf | services/readProc.js:144-183 | the `mapValues` callback of the delta engine; stated by GaugePassesThrough, ProcessesDelta, FirstPassZeros, RawRowDelta and NamedRowDelta |
| Delta.GaugePassesThrough | services/readProc.js:149-152 | `btime`, `procs_running` and `procs_blocked` give their first current token |
| Delta.FirstPassZeros | services/readProc.js:154-168 | with no previous row: `processes` is 0, and other rows are zeros of the same length or over the same fields |
| Delta.RawRowDelta | services/readProc.js:170-174 | on numeric rows of equal length, delta i is `cur[i] - prev[i]`, so `prev + delta == cur` |
| Delta.NamedRowDelta | services/readProc.js:176-180 | on numeric named rows, each field is `cur - prev`, so `prev + delta == cur` |
| Delta.TokenDelta | services/readProc.js:179 | for two numeric tokens, the difference added back to the older gives the newer |
| Delta.ProcessesDelta | services/readProc.js:155 | `processes` gives the difference of the two first tokens |
| Delta.CpuDeltaShape | services/readProc.js:176-180 | on a well-shaped table, a `cpu*` delta is over exactly the ten tick columns |
| Delta.PercentAt | services/readProc.js:440-449 | ratio i is tick column i over `totalTicks` |
| Delta.CalcCpuPercentages | services/readProc.js:422-451 | the tick columns are kept; `totalTicks` and `percent` are added |
| Delta.TotalIsSum | services/readProc.js:424-435 | `totalTicks` is the sum of the ten columns |
| Delta.RealSumDivided | services/readProc.js:440-449 | dividing every term by the same non-zero number divides the sum |
| Delta.PercentagesOfFinite | services/readProc.js:437-450 | with finite columns and a non-zero total, ratio i is column i over the total and `total` is the non-idle share |
| Delta.SumOfRatios | services/readProc.js:440-449 | the ten ratios add up to one |
| Delta.PercentagesSumToOne | services/readProc.js:437-450 | with a non-zero total, the ten ratios sum to 1 and `percent.total == 1 - percent.idle` |
| Delta.ZeroTotalGivesNaN | services/readProc.js:424-450 | with all-zero ticks, `totalTicks` is 0 and every ratio, including `total`, is NaN |
| Delta.RatiosOverZero | services/readProc.js:438-449 | zero ticks over a zero total give NaN everywhere |
| Delta.IdleIntervalExample | services/readProc.js:424-450 | idle ticks 1000 then 1100 with nothing else: total 100, idle ratio 1, `total` 0 |
| Delta.WholeIntervalIdle | services/readProc.js:438-443 | when idle is the whole non-zero total, the idle ratio is 1 and `total` is 0 |
| Delta.WithCpuPercentages | services/readProc.js:185-190 | the keys are unchanged |
| Delta.WithCpuPercentagesRows | services/readProc.js:185-190 | only `cpu*` rows of tick deltas change, each into its percentages |
| Delta.StatsAfterShape | services/readProc.js:144-190 | each `cpu*` row carries its ten tick deltas, their total and ratios; every other row is its plain delta |
| MemInfo.NormaliseKeyFails | services/readProc.js:196-199 | of the non-empty keys, exactly `Mem` makes the renaming throw |
| MemInfo.NormaliseKeyShape | services/readProc.js:198-199 | a renamed key is the stripped key with its first character lower-cased |
| MemInfo.NormaliseKey | services/readProc.js:194-200 | the renaming switch; stated by NormaliseKeyFails, NormaliseKeyShape, MemKeyRenames and OtherKeyRenames |
| MemInfo.StripMem | services/readProc.js:198 | a key starting with `Mem` loses exactly that prefix; any other key is unchanged |
| MemInfo.MemKeyRenames | services/readProc.js:196-199 | `MemTotal` becomes `total`, `MemAvailable` becomes `available`, and `Mem` throws |
| MemInfo.OtherKeyRenames | services/readProc.js:196-199 | `SwapCached` becomes `swapCached`, `VmallocTotal` becomes `vmallocTotal`, `NFS_Unstable` becomes `nfsUnstable` |
| MemInfo.UnitFactorPowers | services/readProc.js:206-218 | exactly B, kB, MB, GB and TB are known units, and the k-th of them multiplies by 1024^k |
| MemInfo.UnitRow | services/readProc.js:204-218 | a row of digits and the k-th unit stores the number times 1024^k |
| MemInfo.MemValueCases | services/readProc.js:202-224 | a two-token row with a known unit is the integer times its multiplier, with an unknown unit nothing; one token is stored as is; otherwise the raw list |
| MemInfo.MemValue | services/readProc.js:202-224 | the value switch of one row; stated by MemValueCases, UnitRow and KibibyteRow |
| MemInfo.KibibyteRow | services/readProc.js:210-211 | a `kB` row is its value times 1024 |
| MemInfo.MemFoldFails | services/readProc.js:193-225 | the transform throws exactly when some key cannot be renamed |
| MemInfo.MemStepNames | services/readProc.js:194-224 | one row keeps the names already stored and adds its own when it stores a value |
| MemInfo.MemFoldKeys | services/readProc.js:193-225 | a name is in the table exactly when some row stores a value under it |
| MemInfo.MemFoldValue | services/readProc.js:193-225 | a name's value comes from the last row that stores under it |
| MemInfo.MemFoldStaysFailed | services/readProc.js:193-225 | once a row has thrown, the whole transform has thrown |
| MemInfo.DerivedKeys | services/readProc.js:227-229 | three derived keys are added; `swapUsedCached` copies `swapCached`; every other key is kept |
| MemInfo.DerivedUsed | services/readProc.js:227 | `used = total - free - buffers - cached - swapCached` |
| MemInfo.DerivedSwapUsedUncached | services/readProc.js:228 | `swapUsedUncached = swapTotal - swapFree - swapCached` |
| MemInfo.WithDerived | services/readProc.js:227-229 | the three derived fields; stated by DerivedKeys, DerivedUsed and DerivedSwapUsedUncached |
| MemInfo.ParsedOrderInTable | services/readProc.js:193 | the parser's key order lists only rows of the parsed table |
| MemInfo.NormaliseMeminfo | services/readProc.js:193-229 | the accumulating loop computes the transform followed by the derived fields, or the error the renaming throws |
| Reader.ReadMeminfo | services/readProc.js:341-345 | the order lists each parsed row exactly once and nothing else |
| Reader.ProcReader.constructor | services/readProc.js:117-126 | empty tables, no updates yet, and the first pass running |
| Reader.ProcReader.Tick | services/readProc.js:132-140 | a firing while a pass runs changes nothing; otherwise it sets the guard and starts a pass |
| Reader.ProcReader.Complete | services/readProc.js:141-322 | a failed read leaves every table unchanged; otherwise the join's outcome; the guard is cleared on every path |
| Reader.ProcReader.Join | services/readProc.js:141-317 | rotation, deltas and memory table; a failed meminfo rename emits nothing; otherwise the process tables rotate and the per-process step runs |
| Reader.ProcReader.StoreStats | services/readProc.js:142-247 | stat rotation and deltas; when the meminfo transform succeeds, the `mem` row is stored and the process tables rotate |
| Reader.ProcReader.RunProcesses | services/readProc.js:251-321 | fails exactly when the step throws, storing only the first record; otherwise publishes one delta per record and emits once |
| Reader.ProcReader.StepAndPublish | services/readProc.js:251-321 | the step with a given callback, then publication on success |
| Reader.ProcReader.RotateStats | services/readProc.js:142-192 | `prevStatsRaw` takes the old current table; raw, stats and meminfo rows are stored |
| Reader.ProcReader.StoreMemAndRotate | services/readProc.js:193-247 | `mem` is stored; `prevProcessesRaw` takes the old current table, which is emptied |
| Reader.ProcReader.Publish | services/readProc.js:318-321 | the deltas are published and one `update` is emitted |
| Reader.ProcReader.StepProcesses | services/readProc.js:251-317 | each record is stored before its callback; the step succeeds exactly when the callback exists or there is no record; the deltas are the map |
| Reader.ProcessStepByCallback | services/readProc.js:251-317 | the step with the pass's callback is the step the pass specifies |
| Reader.ProcessStepNeedsCpuRow | services/readProc.js:284-286 | the step throws exactly when the stat file had no `cpu` row and there is a process |
| Reader.GuardScenario | services/readProc.js:132-140 | a firing during the constructor's pass is skipped; after it settles one starts; the next is skipped |
| Utils.LookupObject | services/utils.js:1-6 | with no keys gives root; throws exactly on a nullish root with keys; after a key the result is truthy |
| Utils.LookupValue | services/utils.js:8-20 | gives the reached value, or undefined when a step throws; with no keys gives root |
| Utils.ObjectPathThrows | services/utils.js:4 | the walk throws exactly when it starts at null or undefined with a key left |
| Utils.ObjectPathTruthy | services/utils.js:4 | after at least one key the result is truthy |
| Utils.FallbackSticks | services/utils.js:4 | from `{}`, every further key gives `{}` again, since `{}` has no own properties (inherited ones are left out) |
| Utils.FallbackAt | services/utils.js:4 | a falsy step anywhere makes the lookup `{}`, for keys that are not inherited properties of `{}` |
| Utils.ObjectPathSplit | services/utils.js:4 | the lookup over a path is the lookup over a prefix, continued |
| Utils.ValuePathSplit | services/utils.js:13 | the same for `lookupValue` |
| Utils.NullishIntermediate | services/utils.js:11-19 | a nullish intermediate with keys left gives undefined, not a throw |
| Utils.ValuePathThrowsOnlyAtNullish | services/utils.js:11-19 | a throw happens only at a nullish intermediate with keys left |
| Utils.LookupsAgree | services/utils.js:1-14 | when every intermediate is truthy, the two lookups agree |

## Left out

- File and link reads, the glob, `setInterval` and the event emitter are
  I/O. They are replaced by inputs and outcomes. The interval is always
  2000 ms.
- Bluebird's concurrent `join` and `map`: the reads of a pass and its
  map callbacks are modelled as running in order. The case where the map
  starts several callbacks before the first throw is not modelled.
- Floating-point rounding: numbers are exact reals with NaN and the
  infinities.
- `Number()` applies to decimal-digit tokens and the empty string; any
  other text is NaN. Signs, fractions and exponents are not modelled.
- `meminfo.percent` (services/readProc.js:231-242) is left out because it
  is floating-point ratios. Its `available` entry reads `meminfo.Available`,
  which does not exist after renaming, so it is always NaN.
- `calc.memory.percent` is an empty object, so there is nothing to model.
- `options` handling: `_.assign` overwrites the caller's options with the
  defaults, so nothing is configurable.
- The exact `console.warn` wording: the warning is modelled as its line
  number.
- JavaScript key order: an object is enumerated in first-insertion order.
  The rule that integer-like keys come first is not modelled. The keys of
  the kernel's files are not integer-like.
- Case mapping: `toLowerCase` acts on ASCII letters only, and every other
  character is kept.
- `calcCPUPercentages` mutates an object in place. That object is fresh
  from `mapValues` and has no other reference, so it is modelled as
  replacing the row's value in the stats table.
- The flat merge of `_.assign` is modelled as separate stat and statm
  tables in the record, because their column names, and `dirname`,
  `command` and `cwd`, do not overlap.
- Only the `pid` column of the merge overrides anything, and that override
  is modelled.
- A failed glob rejects the pass, the same as a failed directory read; it
  is not modelled separately.
- Js.GetProperty: values are JSON-like (objects with own properties,
  arrays, strings, numbers, booleans, null, undefined); prototype-chain
  properties such as `constructor`, `toString` or array and number methods
  are not modelled and read as undefined. Utils.FallbackSticks and
  Utils.FallbackAt therefore hold for keys that are not such names.
- Js.Sum: assumes lodash 4. Under lodash 3, `_.sum` adds `+x || 0`, which
  turns NaN and undefined into 0, so FreshProcessIsNaN and SumWithNaN would
  not hold there.
- `main.js`, `Gruntfile.js`, `services/size.js`, `services/percentage.js`
  and the `ins` debug helper are not part of this model.
