/**
 * The counter delta engine and the CPU percentages of a pass
 * (services/readProc.js:144-190, 422-451): every row of the current stat
 * table is compared with the same row of the previous table, and every
 * `cpu*` row then receives its total tick count and per-column ratios.
 */
module Delta {
  import opened Wrappers
  import opened Js
  import opened Schema
  import MemInfo

  /** A value of the published `stats` mapping. */
  datatype StatDelta =
    | Gauge(token: Option<string>)                // a gauge's first current token, passed through
    | Count(n: Num)                               // the process-creation counter's difference
    | Diffs(ds: seq<Num>)                         // a raw row's element-wise differences
    | Ticks(fields: map<string, Num>)             // a named row's field-wise differences
    | CpuUsage(fields: map<string, Num>, totalTicks: Option<Num>, percent: CpuRatios)
    | Mem(values: map<string, MemInfo.MemVal>)    // the normalised memory table under `mem`

  /** The keys whose first token is passed through. */
  const GaugeKeys: set<string> := {"btime", "procs_running", "procs_blocked"}

  /** `row[i]`: a raw row's token i; a named row has no index-named column. */
  function Element(row: StatRow, i: nat): Option<string> {
    match row
    case Tokens(t) => TokenAt(t, i)
    case Named(_) => None
  }

  /** `row[key]`: a named row's column; a raw row has no column named after a tick. */
  function Field(row: StatRow, key: string): Option<string> {
    match row
    case Named(f) => if key in f then f[key] else None
    case Tokens(_) => None
  }

  /** The delta of one row, given the same key's row in the previous table, if any. */
  function DeltaOf(key: string, cur: StatRow, prev: Option<StatRow>): StatDelta {
    if key in GaugeKeys then Gauge(Element(cur, 0))
    else if key == "processes" then
      if prev.None? then Count(Fin(0.0))
      else Count(Sub(TokenToNumber(Element(cur, 0)), TokenToNumber(Element(prev.value, 0))))
    else
      match cur
      case Tokens(t) =>
        if prev.None? then Diffs(seq(|t|, _ => Fin(0.0)))
        else Diffs(seq(|t|, i requires 0 <= i < |t| => Sub(StrToNumber(t[i]), TokenToNumber(Element(prev.value, i)))))
      case Named(f) =>
        if prev.None? then Ticks(map k | k in f :: Fin(0.0))
        else Ticks(map k | k in f :: Sub(TokenToNumber(f[k]), TokenToNumber(Field(prev.value, k))))
  }

  /** `_.mapValues(statsRaw, …)`: one delta per key of the current table. */
  function StatsDelta(cur: map<string, StatRow>, prev: map<string, StatRow>): (r: map<string, StatDelta>)
    ensures r.Keys == cur.Keys
  {
    map k | k in cur :: DeltaOf(k, cur[k], if k in prev then Some(prev[k]) else None)
  }

  /** A gauge key gives its first current token, whatever the previous table holds. */
  lemma GaugePassesThrough(cur: map<string, StatRow>, prev: map<string, StatRow>, k: string, t: seq<string>)
    requires k in GaugeKeys && k in cur && cur[k] == Tokens(t) && |t| > 0
    ensures StatsDelta(cur, prev)[k] == Gauge(Some(t[0]))
  {
  }

  /** Without a previous table, every counter gives zero: the process counter, each token, each field. */
  lemma FirstPassZeros(cur: map<string, StatRow>, k: string)
    requires k in cur && k !in GaugeKeys
    ensures var d := StatsDelta(cur, map[])[k];
      && (k == "processes" ==> d == Count(Fin(0.0)))
      && (k != "processes" && cur[k].Tokens? ==>
            d.Diffs? && |d.ds| == |cur[k].toks| && forall i :: 0 <= i < |d.ds| ==> d.ds[i] == Fin(0.0))
      && (k != "processes" && cur[k].Named? ==>
            d.Ticks? && d.fields.Keys == cur[k].fields.Keys && forall f :: f in d.fields ==> d.fields[f] == Fin(0.0))
  {
  }

  /** A token that `Number` reads as a whole number. */
  predicate NumericToken(s: string) {
    s != "" && AllDigits(s)
  }

  /** The number a numeric token denotes. */
  function TokenValue(s: string): real
    requires NumericToken(s)
  {
    DigitsValue(s) as real
  }

  /**
   * Between two raw rows of numeric tokens of the same length, the delta is
   * the element-wise difference, so adding it to the previous row gives the
   * current row back.
   */
  lemma RawRowDelta(cur: map<string, StatRow>, prev: map<string, StatRow>, k: string, c: seq<string>, p: seq<string>)
    requires k in cur && k in prev && k !in GaugeKeys && k != "processes"
    requires cur[k] == Tokens(c) && prev[k] == Tokens(p) && |c| == |p|
    requires forall i :: 0 <= i < |c| ==> NumericToken(c[i]) && NumericToken(p[i])
    ensures var d := StatsDelta(cur, prev)[k];
      && d.Diffs? && |d.ds| == |c|
      && forall i :: 0 <= i < |c| ==>
           && d.ds[i] == Fin(TokenValue(c[i]) - TokenValue(p[i]))
           && Add(StrToNumber(p[i]), d.ds[i]) == StrToNumber(c[i])
  {
  }

  /**
   * Between two named rows with numeric values under the same columns, the
   * delta is the field-wise difference, so adding it to the previous value
   * gives the current value back.
   */
  lemma NamedRowDelta(cur: map<string, StatRow>, prev: map<string, StatRow>, k: string,
                      c: map<string, Option<string>>, p: map<string, Option<string>>)
    requires k in cur && k in prev && k !in GaugeKeys && k != "processes"
    requires cur[k] == Named(c) && prev[k] == Named(p) && c.Keys == p.Keys
    requires forall f :: f in c ==> c[f].Some? && NumericToken(c[f].value) && p[f].Some? && NumericToken(p[f].value)
    ensures var d := StatsDelta(cur, prev)[k];
      && d.Ticks? && d.fields.Keys == c.Keys
      && forall f :: f in c ==>
           && d.fields[f] == Fin(TokenValue(c[f].value) - TokenValue(p[f].value))
           && Add(StrToNumber(p[f].value), d.fields[f]) == StrToNumber(c[f].value)
  {
    var d := StatsDelta(cur, prev)[k];
    assert d == DeltaOf(k, Named(c), Some(Named(p)));
    forall f | f in c
      ensures d.fields[f] == Fin(TokenValue(c[f].value) - TokenValue(p[f].value))
      ensures Add(StrToNumber(p[f].value), d.fields[f]) == StrToNumber(c[f].value)
    {
      assert d.fields[f] == Sub(TokenToNumber(c[f]), TokenToNumber(Field(Named(p), f)));
      assert Field(Named(p), f) == p[f];
      TokenDelta(c[f].value, p[f].value);
    }
  }

  /** The difference of two numeric tokens, added back to the older one, gives the newer one. */
  lemma TokenDelta(c: string, p: string)
    requires NumericToken(c) && NumericToken(p)
    ensures Sub(TokenToNumber(Some(c)), TokenToNumber(Some(p))) == Fin(TokenValue(c) - TokenValue(p))
    ensures Add(StrToNumber(p), Sub(TokenToNumber(Some(c)), TokenToNumber(Some(p)))) == StrToNumber(c)
  {
  }

  /** The process-creation counter gives the difference of the first tokens. */
  lemma ProcessesDelta(cur: map<string, StatRow>, prev: map<string, StatRow>, c: seq<string>, p: seq<string>)
    requires "processes" in cur && "processes" in prev
    requires cur["processes"] == Tokens(c) && prev["processes"] == Tokens(p)
    requires |c| > 0 && |p| > 0 && NumericToken(c[0]) && NumericToken(p[0])
    ensures StatsDelta(cur, prev)["processes"] == Count(Fin(TokenValue(c[0]) - TokenValue(p[0])))
  {
  }

  /** On well-shaped tables, every `cpu*` row's delta is named over exactly the ten tick columns. */
  lemma CpuDeltaShape(cur: map<string, StatRow>, prev: map<string, StatRow>, k: string)
    requires WellShaped(cur) && k in cur && IsCpuKey(k)
    ensures var d := StatsDelta(cur, prev)[k];
      d.Ticks? && forall f :: f in d.fields <==> f in CpuStatKeys
  {
    assert k[0] == 'c' by { assert k[..3][0] == k[0]; }
    assert k !in GaugeKeys && k != "processes" by {
      assert "btime"[0] == 'b' && "procs_running"[0] == 'p' && "procs_blocked"[0] == 'p' && "processes"[0] == 'p';
    }
  }

  /** `curCPUUsage[key]`, undefined where the column is missing. */
  function TickOf(fields: map<string, Num>, key: string): Option<Num> {
    if key in fields then Some(fields[key]) else None
  }

  /** The ten tick columns of a row, in schema order, as `_.sum` receives them. */
  function TickList(fields: map<string, Num>): seq<Option<Num>> {
    seq(|CpuStatKeys|, i requires 0 <= i < |CpuStatKeys| => TickOf(fields, CpuStatKeys[i]))
  }

  /** `curCPUUsage.totalTicks`. */
  function TotalTicks(fields: map<string, Num>): Option<Num> {
    Sum(TickList(fields))
  }

  /** `curCPUUsage.percent`: the non-idle share under `total`, then one ratio per tick column. */
  datatype CpuRatios = CpuRatios(total: Num, user: Num, nice: Num, system: Num, idle: Num, iowait: Num,
                                 irq: Num, softirq: Num, steal: Num, guest: Num, guestNice: Num)

  /** The ten column ratios, in schema order. */
  function ColumnRatios(p: CpuRatios): (r: seq<Num>)
    ensures |r| == |CpuStatKeys|
  {
    [p.user, p.nice, p.system, p.idle, p.iowait, p.irq, p.softirq, p.steal, p.guest, p.guestNice]
  }

  /** `curCPUUsage[key] / curCPUUsage.totalTicks`. */
  function Ratio(fields: map<string, Num>, total: Option<Num>, key: string): Num {
    Div(OrNaN(TickOf(fields, key)), OrNaN(total))
  }

  /** `curCPUUsage.percent`. */
  function Percentages(fields: map<string, Num>, total: Option<Num>): CpuRatios {
    CpuRatios(Div(Sub(OrNaN(total), OrNaN(TickOf(fields, "idle"))), OrNaN(total)),
              Ratio(fields, total, "user"), Ratio(fields, total, "nice"), Ratio(fields, total, "system"),
              Ratio(fields, total, "idle"), Ratio(fields, total, "iowait"), Ratio(fields, total, "irq"),
              Ratio(fields, total, "softirq"), Ratio(fields, total, "steal"), Ratio(fields, total, "guest"),
              Ratio(fields, total, "guestNice"))
  }

  /** Ratio i is tick column i over the total (NaN wherever an operand is undefined). */
  lemma PercentAt(fields: map<string, Num>, total: Option<Num>, i: int)
    requires 0 <= i < |CpuStatKeys|
    ensures ColumnRatios(Percentages(fields, total))[i] == Div(OrNaN(TickOf(fields, CpuStatKeys[i])), OrNaN(total))
  {
    var r := ColumnRatios(Percentages(fields, total));
    if i == 0 { assert r[0] == Ratio(fields, total, "user"); }
    else if i == 1 { assert r[1] == Ratio(fields, total, "nice"); }
    else if i == 2 { assert r[2] == Ratio(fields, total, "system"); }
    else if i == 3 { assert r[3] == Ratio(fields, total, "idle"); }
    else if i == 4 { assert r[4] == Ratio(fields, total, "iowait"); }
    else if i == 5 { assert r[5] == Ratio(fields, total, "irq"); }
    else if i == 6 { assert r[6] == Ratio(fields, total, "softirq"); }
    else if i == 7 { assert r[7] == Ratio(fields, total, "steal"); }
    else if i == 8 { assert r[8] == Ratio(fields, total, "guest"); }
    else { assert r[9] == Ratio(fields, total, "guestNice"); }
  }

  /** `calcCPUPercentages(curCPUUsage)`: the tick columns are kept; the total and the ratios are added. */
  function CalcCpuPercentages(fields: map<string, Num>): (d: StatDelta)
    ensures d.CpuUsage? && d.fields == fields
  {
    var total := TotalTicks(fields);
    CpuUsage(fields, total, Percentages(fields, total))
  }

  /** The ten columns of a row, all present and finite, with the given values. */
  ghost predicate FiniteTicks(fields: map<string, Num>, vs: seq<real>) {
    && |vs| == |CpuStatKeys|
    && forall i :: 0 <= i < |CpuStatKeys| ==> CpuStatKeys[i] in fields && fields[CpuStatKeys[i]] == Fin(vs[i])
  }

  /** `totalTicks` is the sum of the ten tick columns. */
  lemma TotalIsSum(fields: map<string, Num>, vs: seq<real>)
    requires FiniteTicks(fields, vs)
    ensures TotalTicks(fields) == Some(Fin(RealSum(vs)))
  {
    SumOfFinite(TickList(fields), vs);
  }

  /** Dividing every term by the same number divides the sum by it. */
  lemma {:induction false} RealSumDivided(vs: seq<real>, ws: seq<real>, t: real)
    requires t != 0.0 && |vs| == |ws|
    requires forall i :: 0 <= i < |vs| ==> ws[i] == vs[i] / t
    ensures RealSum(ws) == RealSum(vs) / t
  {
    if |vs| > 0 {
      var n := |vs| - 1;
      RealSumDivided(vs[..n], ws[..n], t);
      assert RealSum(vs) / t == RealSum(vs[..n]) / t + vs[n] / t;
    }
  }

  /**
   * With finite columns and a non-zero total, each ratio is its column over
   * the total, and `total` is the non-idle ticks over the total.
   */
  lemma PercentagesOfFinite(fields: map<string, Num>, vs: seq<real>, t: real)
    requires FiniteTicks(fields, vs) && TotalTicks(fields) == Some(Fin(t)) && t != 0.0
    ensures var d := CalcCpuPercentages(fields);
      && (forall i :: 0 <= i < |CpuStatKeys| ==> ColumnRatios(d.percent)[i] == Fin(vs[i] / t))
      && d.percent.total == Fin((t - vs[3]) / t)
  {
    forall i | 0 <= i < |CpuStatKeys|
      ensures ColumnRatios(Percentages(fields, Some(Fin(t))))[i] == Fin(vs[i] / t)
    {
      PercentAt(fields, Some(Fin(t)), i);
      assert TickOf(fields, CpuStatKeys[i]) == Some(Fin(vs[i]));
    }
    assert CpuStatKeys[3] == "idle" && TickOf(fields, "idle") == Some(Fin(vs[3]));
  }

  /**
   * With finite columns and a non-zero total, the ten ratios sum to one and
   * `total` is one minus the idle ratio.
   */
  lemma PercentagesSumToOne(fields: map<string, Num>, vs: seq<real>, t: real, ws: seq<real>)
    requires FiniteTicks(fields, vs) && TotalTicks(fields) == Some(Fin(t)) && t != 0.0 && |ws| == |CpuStatKeys|
    requires forall i :: 0 <= i < |CpuStatKeys| ==> ColumnRatios(CalcCpuPercentages(fields).percent)[i] == Fin(ws[i])
    ensures RealSum(ws) == 1.0
    ensures CalcCpuPercentages(fields).percent.idle == Fin(ws[3])
    ensures CalcCpuPercentages(fields).percent.total == Fin(1.0 - ws[3])
  {
    var p := Percentages(fields, Some(Fin(t)));
    assert CalcCpuPercentages(fields).percent == p;
    PercentagesOfFinite(fields, vs, t);
    assert forall i :: 0 <= i < |CpuStatKeys| ==> ws[i] == vs[i] / t;
    SumOfRatios(fields, vs, t, ws);
    var idle := vs[3];
    assert ws[3] == idle / t;
    OneMinusRatio(t, idle);
    assert p.idle == ColumnRatios(p)[3];
    assert p.total == Fin((t - idle) / t);
  }

  lemma OneMinusRatio(t: real, x: real)
    requires t != 0.0
    ensures (t - x) / t == 1.0 - x / t
  {
    assert t / t == 1.0;
    assert (t - x) / t == t / t - x / t;
  }

  /** The ten columns divided by their own non-zero total add up to one. */
  lemma SumOfRatios(fields: map<string, Num>, vs: seq<real>, t: real, ws: seq<real>)
    requires FiniteTicks(fields, vs) && TotalTicks(fields) == Some(Fin(t)) && t != 0.0 && |ws| == |vs|
    requires forall i :: 0 <= i < |vs| ==> ws[i] == vs[i] / t
    ensures RealSum(ws) == 1.0
  {
    TotalIsSum(fields, vs);
    RealSumDivided(vs, ws, t);
    assert RealSum(vs) == t;
    assert t / t == 1.0;
  }

  /** With a zero total (an interval without ticks, such as the first pass), every ratio is NaN. */
  lemma ZeroTotalGivesNaN(fields: map<string, Num>, vs: seq<real>)
    requires FiniteTicks(fields, vs)
    requires forall i :: 0 <= i < |vs| ==> vs[i] == 0.0
    ensures var d := CalcCpuPercentages(fields);
      && d.totalTicks == Some(Fin(0.0))
      && d.percent.total.NaN?
      && forall i :: 0 <= i < |CpuStatKeys| ==> ColumnRatios(d.percent)[i].NaN?
  {
    ZeroTail(vs, 0);
    TotalIsSum(fields, vs);
    RatiosOverZero(fields, vs);
  }

  /** Zero ticks over a zero total: every ratio, and the non-idle share, is 0/0. */
  lemma RatiosOverZero(fields: map<string, Num>, vs: seq<real>)
    requires FiniteTicks(fields, vs)
    requires forall i :: 0 <= i < |vs| ==> vs[i] == 0.0
    ensures var p := Percentages(fields, Some(Fin(0.0)));
      && p.total.NaN?
      && forall i :: 0 <= i < |CpuStatKeys| ==> ColumnRatios(p)[i].NaN?
  {
    forall i | 0 <= i < |CpuStatKeys| ensures ColumnRatios(Percentages(fields, Some(Fin(0.0))))[i].NaN? {
      PercentAt(fields, Some(Fin(0.0)), i);
      assert TickOf(fields, CpuStatKeys[i]) == Some(Fin(vs[i]));
    }
    assert CpuStatKeys[3] == "idle" && TickOf(fields, "idle") == Some(Fin(vs[3]));
  }

  /**
   * Two passes with idle ticks 1000 then 1100 and every other column
   * unchanged: the idle delta is 100, the idle ratio is 1 and the non-idle
   * share is 0.
   */
  lemma IdleIntervalExample(fields: map<string, Num>)
    requires FiniteTicks(fields, IdleInterval())
    ensures var d := CalcCpuPercentages(fields);
      && TickOf(d.fields, "idle") == Some(Fin(100.0))
      && d.totalTicks == Some(Fin(100.0))
      && d.percent.idle == Fin(1.0)
      && d.percent.total == Fin(0.0)
  {
    var vs := IdleInterval();
    IdleIntervalSum();
    TotalIsSum(fields, vs);
    assert CpuStatKeys[3] == "idle" && vs[3] == 100.0;
    WholeIntervalIdle(fields, 100.0);
  }

  /** When the idle column is the whole (non-zero) total, the idle ratio is one and the non-idle share zero. */
  lemma WholeIntervalIdle(fields: map<string, Num>, t: real)
    requires t != 0.0 && TickOf(fields, "idle") == Some(Fin(t))
    ensures Percentages(fields, Some(Fin(t))).idle == Fin(1.0)
    ensures Percentages(fields, Some(Fin(t))).total == Fin(0.0)
  {
    assert t / t == 1.0;
    assert (t - t) / t == 0.0;
  }

  /** The column deltas of that interval: 1100 - 1000 idle ticks and nothing else. */
  function IdleInterval(): seq<real> {
    [0.0, 0.0, 0.0, 1100.0 - 1000.0, 0.0, 0.0, 0.0, 0.0, 0.0, 0.0]
  }

  lemma IdleIntervalSum()
    ensures RealSum(IdleInterval()) == 100.0
  {
    var vs := IdleInterval();
    ZeroTail(vs, 4);
    assert vs[..4] == vs[..4][..3] + [100.0];
    ZeroTail(vs[..4][..3], 0);
  }

  /** Trailing zeros add nothing to a sum. */
  lemma {:induction false} ZeroTail(vs: seq<real>, n: nat)
    requires n <= |vs|
    requires forall i :: n <= i < |vs| ==> vs[i] == 0.0
    ensures RealSum(vs) == RealSum(vs[..n])
  {
    if |vs| > n {
      var m := |vs| - 1;
      assert vs[..m][..n] == vs[..n];
      ZeroTail(vs[..m], n);
    } else {
      assert vs[..n] == vs;
    }
  }

  /** `_.forIn(this.stats, …)`: every `cpu*` row receives its percentages; every other row is kept. */
  function WithCpuPercentages(stats: map<string, StatDelta>): (r: map<string, StatDelta>)
    ensures r.Keys == stats.Keys
  {
    map k | k in stats :: if IsCpuKey(k) && stats[k].Ticks? then CalcCpuPercentages(stats[k].fields) else stats[k]
  }

  /** Only the `cpu*` rows holding tick deltas change. */
  lemma WithCpuPercentagesRows(stats: map<string, StatDelta>)
    ensures var r := WithCpuPercentages(stats);
      && (forall k :: k in r && !(IsCpuKey(k) && stats[k].Ticks?) ==> r[k] == stats[k])
      && (forall k :: k in r && IsCpuKey(k) && stats[k].Ticks? ==> r[k] == CalcCpuPercentages(stats[k].fields))
  {
  }

  /** The `stats` of a pass before the memory table is added. */
  function StatsAfter(cur: map<string, StatRow>, prev: map<string, StatRow>): map<string, StatDelta> {
    WithCpuPercentages(StatsDelta(cur, prev))
  }

  /**
   * On a well-shaped current table, every `cpu*` row of the published stats
   * carries exactly the ten tick deltas, their total and their ratios, and
   * every other row is its plain delta.
   */
  lemma StatsAfterShape(cur: map<string, StatRow>, prev: map<string, StatRow>)
    requires WellShaped(cur)
    ensures var s := StatsAfter(cur, prev);
      && s.Keys == cur.Keys
      && (forall k :: k in s && IsCpuKey(k) ==>
            && s[k].CpuUsage? && s[k].fields == StatsDelta(cur, prev)[k].fields
            && (forall f :: f in s[k].fields <==> f in CpuStatKeys)
            && s[k].totalTicks == TotalTicks(s[k].fields))
      && (forall k :: k in s && !IsCpuKey(k) ==> s[k] == StatsDelta(cur, prev)[k])
  {
    WithCpuPercentagesRows(StatsDelta(cur, prev));
    forall k | k in cur && IsCpuKey(k) {
      CpuDeltaShape(cur, prev, k);
    }
  }
}
