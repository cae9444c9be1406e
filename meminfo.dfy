/**
 * The normalisation of the memory-information table inside a pass
 * (services/readProc.js:192-229): every parsed row is renamed and its value
 * converted, in the order the rows were first inserted, then three derived
 * fields are added.
 */
module MemInfo {
  import opened Wrappers
  import opened Js
  import KeyValue

  /**
   * A value of the normalised table: a number (scaled byte count, or a
   * derived difference), a single raw token, a raw token list, or
   * `undefined` (what `swapUsedCached` copies when there is no `swapCached`).
   */
  datatype MemVal = MemNum(n: Num) | MemText(s: string) | MemTokens(toks: seq<string>) | MemUndefined

  predicate IsAsciiUpper(c: char) {
    'A' <= c <= 'Z'
  }

  /** `c.toLowerCase()` on the ASCII letters; every other character is kept. */
  function LowerChar(c: char): (r: char)
    ensures IsAsciiUpper(c) ==> r as int == c as int + 32
    ensures !IsAsciiUpper(c) ==> r == c
  {
    if IsAsciiUpper(c) then (c as int + 32) as char else c
  }

  /** `key.replace(/^Mem/, '')`: one leading `Mem` is removed. */
  function StripMem(k: string): (r: string)
    ensures |k| >= 3 && k[..3] == "Mem" ==> k == "Mem" + r
    ensures !(|k| >= 3 && k[..3] == "Mem") ==> r == k
  {
    if |k| >= 3 && k[..3] == "Mem" then
      assert k == k[..3] + k[3..];
      k[3..]
    else k
  }

  /**
   * The renaming of a row's key: `NFS_Unstable` becomes `nfsUnstable`;
   * otherwise a leading `Mem` is dropped and the first character is
   * lower-cased. Reading the first character of an empty name throws.
   */
  function NormaliseKey(k: string): Result<string, TypeError> {
    if k == "NFS_Unstable" then Ok("nfsUnstable")
    else
      var s := StripMem(k);
      if |s| == 0 then Err(TypeError) else Ok([LowerChar(s[0])] + s[1..])
  }

  /** Of the non-empty keys the parser produces, exactly `Mem` makes the renaming throw. */
  lemma NormaliseKeyFails(k: string)
    requires k != ""
    ensures NormaliseKey(k).Err? <==> k == "Mem"
  {
    if k == "Mem" {
      assert StripMem(k) == "";
    } else if |k| >= 3 && k[..3] == "Mem" {
      assert |k| > 3;
    }
  }

  /**
   * A renamed key other than `nfsUnstable` is the stripped key with its first
   * character lower-cased and the rest unchanged.
   */
  lemma NormaliseKeyShape(k: string)
    requires k != "NFS_Unstable" && NormaliseKey(k).Ok?
    ensures var s := StripMem(k); var n := NormaliseKey(k).value;
      && |n| == |s| > 0
      && n[0] == LowerChar(s[0])
      && n[1..] == s[1..]
  {
  }

  /** The renamings of the `Mem` rows a kernel's memory-information file usually holds. */
  lemma MemKeyRenames()
    ensures NormaliseKey("MemTotal") == Ok("total")
    ensures NormaliseKey("MemAvailable") == Ok("available")
    ensures NormaliseKey("Mem") == Err(TypeError)
  {
    assert "MemTotal"[..3] == "Mem" && "MemTotal"[3..] == "Total";
    assert [LowerChar('T')] + "otal" == "total";
    assert "MemAvailable"[..3] == "Mem" && "MemAvailable"[3..] == "Available";
    assert [LowerChar('A')] + "vailable" == "available";
    assert "Mem"[..3] == "Mem";
  }

  /** The renamings of other rows a kernel's memory-information file usually holds. */
  lemma OtherKeyRenames()
    ensures NormaliseKey("SwapCached") == Ok("swapCached")
    ensures NormaliseKey("VmallocTotal") == Ok("vmallocTotal")
    ensures NormaliseKey("NFS_Unstable") == Ok("nfsUnstable")
  {
    assert "SwapCached"[..3] == "Swa";
    assert "SwapCached"[0] == 'S' && "SwapCached"[1..] == "wapCached";
    assert [LowerChar('S')] + "wapCached" == "swapCached";
    assert "VmallocTotal"[..3] == "Vma";
    assert "VmallocTotal"[0] == 'V' && "VmallocTotal"[1..] == "mallocTotal";
    assert [LowerChar('V')] + "mallocTotal" == "vmallocTotal";
  }

  /** The byte multiplier of a unit: B, kB, MB, GB and TB are powers of 1024. */
  function UnitFactor(unit: string): (f: Option<nat>)
    ensures f.Some? ==> f.value >= 1
  {
    if unit == "B" then Some(1)
    else if unit == "kB" then Some(1024)
    else if unit == "MB" then Some(1024 * 1024)
    else if unit == "GB" then Some(1024 * 1024 * 1024)
    else if unit == "TB" then Some(1024 * 1024 * 1024 * 1024)
    else None
  }

  /** The units meminfo rows carry, smallest first. */
  const Units: seq<string> := ["B", "kB", "MB", "GB", "TB"]

  /** b to the power k. */
  function Pow(b: nat, k: nat): nat {
    if k == 0 then 1 else b * Pow(b, k - 1)
  }

  /** Exactly the five units are known, and the k-th of them multiplies by 1024^k. */
  lemma UnitFactorPowers()
    ensures forall u :: UnitFactor(u).Some? <==> u in Units
    ensures forall k :: 0 <= k < |Units| ==> UnitFactor(Units[k]) == Some(Pow(1024, k))
  {
    assert Pow(1024, 1) == 1024;
    assert Pow(1024, 2) == 1024 * 1024;
    assert Pow(1024, 3) == 1024 * 1024 * 1024;
    assert Pow(1024, 4) == 1024 * 1024 * 1024 * 1024;
  }

  /** A row `<digits> <unit>` holds the number times 1024 to the unit's rank. */
  lemma UnitRow(digits: string, k: nat)
    requires digits != "" && AllDigits(digits)
    requires k < |Units|
    ensures MemValue([digits, Units[k]]) == Some(MemNum(Fin((DigitsValue(digits) * Pow(1024, k)) as real)))
  {
    UnitFactorPowers();
    MemValueCases([digits, Units[k]]);
  }

  /** `num * 1024 * … * 1024` for a positive factor. */
  function Scale(n: Num, f: nat): (r: Num)
    requires f >= 1
    ensures n.Fin? ==> r == Fin(n.v * (f as real))
    ensures n.NaN? <==> r.NaN?
  {
    if n.Fin? then Fin(n.v * (f as real)) else n
  }

  /**
   * The value stored for a row with the given fields, or None where nothing
   * is stored (a two-field row with an unknown unit): a number with a unit
   * becomes `parseInt(number)` times the unit's multiplier, one field is
   * stored as it is, and any other row keeps its raw list.
   */
  function MemValue(fields: seq<string>): Option<MemVal> {
    if |fields| == 2 then
      match UnitFactor(fields[1])
      case Some(f) => Some(MemNum(Scale(ParseInt(fields[0]), f)))
      case None => None
    else if |fields| == 1 then Some(MemText(fields[0]))
    else Some(MemTokens(fields))
  }

  /** The four shapes of a row's value. */
  lemma MemValueCases(fields: seq<string>)
    ensures |fields| == 2 && UnitFactor(fields[1]).None? ==> MemValue(fields).None?
    ensures |fields| == 2 && fields[0] != "" && AllDigits(fields[0]) && UnitFactor(fields[1]).Some? ==>
      MemValue(fields) == Some(MemNum(Fin((DigitsValue(fields[0]) * UnitFactor(fields[1]).value) as real)))
    ensures |fields| == 1 ==> MemValue(fields) == Some(MemText(fields[0]))
    ensures |fields| != 1 && |fields| != 2 ==> MemValue(fields) == Some(MemTokens(fields))
  {
    if |fields| == 2 && fields[0] != "" && AllDigits(fields[0]) && UnitFactor(fields[1]).Some? {
      ParseIntOfDigits(fields[0]);
    }
  }

  /** A `kB` row holds a whole number of kibibytes: `34359738367 kB` becomes 34359738367 * 1024 bytes. */
  lemma KibibyteRow(digits: string)
    requires digits != "" && AllDigits(digits)
    ensures MemValue([digits, "kB"]) == Some(MemNum(Fin((DigitsValue(digits) * 1024) as real)))
  {
    MemValueCases([digits, "kB"]);
  }

  /** One row of the transform: rename the key (which may throw), then store the value, if any. */
  function MemStep(acc: map<string, MemVal>, key: string, fields: seq<string>): Result<map<string, MemVal>, TypeError> {
    match NormaliseKey(key)
    case Err(e) => Err(e)
    case Ok(name) =>
      match MemValue(fields)
      case None => Ok(acc)
      case Some(v) => Ok(acc[name := v])
  }

  /** Every key of the order is a row of the table. */
  predicate OrderInTable(raw: map<string, seq<string>>, order: seq<string>) {
    forall i :: 0 <= i < |order| ==> order[i] in raw
  }

  /** `_.transform(meminfoRaw, …, {})`: the rows in order; the first throwing row stops the transform. */
  function MemFold(raw: map<string, seq<string>>, order: seq<string>): Result<map<string, MemVal>, TypeError>
    requires OrderInTable(raw, order)
  {
    if |order| == 0 then Ok(map[])
    else
      var n := |order| - 1;
      match MemFold(raw, order[..n])
      case Err(e) => Err(e)
      case Ok(acc) => MemStep(acc, order[n], raw[order[n]])
  }

  /** Row i stores a value under `name`. */
  predicate StoresAt(raw: map<string, seq<string>>, order: seq<string>, i: int, name: string)
    requires OrderInTable(raw, order)
  {
    0 <= i < |order| && NormaliseKey(order[i]) == Ok(name) && MemValue(raw[order[i]]).Some?
  }

  /** The fold over a non-empty order is one more step after the fold over all but the last row. */
  lemma MemFoldLast(raw: map<string, seq<string>>, order: seq<string>)
    requires OrderInTable(raw, order) && |order| > 0
    ensures OrderInTable(raw, order[..|order| - 1])
    ensures var n := |order| - 1;
      MemFold(raw, order) == match MemFold(raw, order[..n])
        case Err(e) => Err(e)
        case Ok(acc) => MemStep(acc, order[n], raw[order[n]])
  {
    assert OrderInTable(raw, order[..|order| - 1]);
  }

  /** The transform throws exactly when some row's key cannot be renamed. */
  lemma {:induction false} MemFoldFails(raw: map<string, seq<string>>, order: seq<string>)
    requires OrderInTable(raw, order)
    ensures MemFold(raw, order).Err? <==> exists i :: 0 <= i < |order| && NormaliseKey(order[i]).Err?
  {
    if |order| > 0 {
      var n := |order| - 1;
      var init := order[..n];
      MemFoldLast(raw, order);
      MemFoldFails(raw, init);
      FailsAtLast(order, init);
    }
  }

  /** Some key of a non-empty order cannot be renamed exactly when the last one or an earlier one cannot. */
  lemma FailsAtLast(order: seq<string>, init: seq<string>)
    requires |order| > 0 && init == order[..|order| - 1]
    ensures (exists i :: 0 <= i < |order| && NormaliseKey(order[i]).Err?) <==>
      (exists i :: 0 <= i < |init| && NormaliseKey(init[i]).Err?) || NormaliseKey(order[|order| - 1]).Err?
  {
    var n := |init|;
    if exists i :: 0 <= i < |order| && NormaliseKey(order[i]).Err? {
      var i :| 0 <= i < |order| && NormaliseKey(order[i]).Err?;
      if i < n {
        assert init[i] == order[i];
      }
    }
    if exists i :: 0 <= i < n && NormaliseKey(init[i]).Err? {
      var i :| 0 <= i < n && NormaliseKey(init[i]).Err?;
      assert init[i] == order[i];
    }
  }

  /** One step keeps the names already stored and adds the row's name when it stores a value. */
  lemma MemStepNames(acc: map<string, MemVal>, key: string, fields: seq<string>, name: string)
    requires MemStep(acc, key, fields).Ok?
    ensures var stores := NormaliseKey(key) == Ok(name) && MemValue(fields).Some?;
      && (name in MemStep(acc, key, fields).value <==> name in acc || stores)
      && (stores ==> MemStep(acc, key, fields).value[name] == MemValue(fields).value)
      && (!stores && name in acc ==> MemStep(acc, key, fields).value[name] == acc[name])
  {
  }

  /** A name is in the normalised table exactly when some row stores a value under it. */
  lemma {:induction false} MemFoldKeys(raw: map<string, seq<string>>, order: seq<string>, name: string)
    requires OrderInTable(raw, order)
    requires MemFold(raw, order).Ok?
    ensures name in MemFold(raw, order).value <==> exists i :: StoresAt(raw, order, i, name)
  {
    if |order| > 0 {
      var n := |order| - 1;
      var init := order[..n];
      MemFoldLast(raw, order);
      var acc := MemFold(raw, init).value;
      MemFoldKeys(raw, init, name);
      MemStepNames(acc, order[n], raw[order[n]], name);
      StoresAtLast(raw, order, init, name);
    }
  }

  /** Some row of a non-empty order stores under `name` exactly when the last one or an earlier one does. */
  lemma StoresAtLast(raw: map<string, seq<string>>, order: seq<string>, init: seq<string>, name: string)
    requires OrderInTable(raw, order) && |order| > 0 && init == order[..|order| - 1]
    ensures OrderInTable(raw, init)
    ensures (exists i :: StoresAt(raw, order, i, name)) <==>
      (exists i :: StoresAt(raw, init, i, name)) || StoresAt(raw, order, |order| - 1, name)
  {
    var n := |order| - 1;
    assert OrderInTable(raw, init);
    if exists i :: StoresAt(raw, order, i, name) {
      var i :| StoresAt(raw, order, i, name);
      if i < n {
        assert init[i] == order[i];
        assert StoresAt(raw, init, i, name);
      }
    }
    if exists i :: StoresAt(raw, init, i, name) {
      var i :| StoresAt(raw, init, i, name);
      assert init[i] == order[i];
      assert StoresAt(raw, order, i, name);
    }
  }

  /** The value under a name is the one the last row storing under it computed. */
  lemma {:induction false} MemFoldValue(raw: map<string, seq<string>>, order: seq<string>, i: int, name: string)
    requires OrderInTable(raw, order)
    requires MemFold(raw, order).Ok?
    requires StoresAt(raw, order, i, name)
    requires forall j :: i < j < |order| ==> !StoresAt(raw, order, j, name)
    ensures name in MemFold(raw, order).value
    ensures MemFold(raw, order).value[name] == MemValue(raw[order[i]]).value
  {
    var n := |order| - 1;
    var init := order[..n];
    MemFoldLast(raw, order);
    var acc := MemFold(raw, init).value;
    MemStepNames(acc, order[n], raw[order[n]], name);
    if i < n {
      assert StoresAt(raw, init, i, name) by {
        assert init[i] == order[i];
      }
      forall j | i < j < n ensures !StoresAt(raw, init, j, name) {
        assert init[j] == order[j];
        assert !StoresAt(raw, order, j, name);
      }
      MemFoldValue(raw, init, i, name);
      assert !StoresAt(raw, order, n, name);
    }
  }

  /** `meminfo[name]`, undefined where there is no such key. */
  function Get(m: map<string, MemVal>, name: string): MemVal {
    if name in m then m[name] else MemUndefined
  }

  /**
   * A value used as an operand of `-`: a number is itself, a token is
   * `Number(token)`, a list is `Number(list.join(','))` (0 for no element,
   * the element for one, NaN for more since they are joined with a comma),
   * and `undefined` is NaN.
   */
  function ToNumber(v: MemVal): Num {
    match v
    case MemNum(n) => n
    case MemText(s) => StrToNumber(s)
    case MemTokens(ts) => if |ts| == 0 then Fin(0.0) else if |ts| == 1 then StrToNumber(ts[0]) else NaN
    case MemUndefined => NaN
  }

  function N(m: map<string, MemVal>, name: string): Num {
    ToNumber(Get(m, name))
  }

  /** The three fields computed after the transform (services/readProc.js:227-229). */
  function WithDerived(m: map<string, MemVal>): map<string, MemVal> {
    var used := Sub(Sub(Sub(Sub(N(m, "total"), N(m, "free")), N(m, "buffers")), N(m, "cached")), N(m, "swapCached"));
    var swapUsedUncached := Sub(Sub(N(m, "swapTotal"), N(m, "swapFree")), N(m, "swapCached"));
    m["used" := MemNum(used)]["swapUsedUncached" := MemNum(swapUsedUncached)]["swapUsedCached" := Get(m, "swapCached")]
  }

  /** The derived fields are added, the cached swap use is a copy of the swap cache, and every other field is kept. */
  lemma DerivedKeys(m: map<string, MemVal>)
    ensures var d := WithDerived(m);
      && d.Keys == m.Keys + {"used", "swapUsedUncached", "swapUsedCached"}
      && d["swapUsedCached"] == Get(m, "swapCached")
      && (forall k :: k in m && k != "used" && k != "swapUsedUncached" && k != "swapUsedCached" ==> d[k] == m[k])
  {
  }

  /** With the five byte counts defined, `used` is total minus free, buffers, cached and swap cache. */
  lemma DerivedUsed(m: map<string, MemVal>, total: real, free: real, buffers: real, cached: real, swapCached: real)
    requires Get(m, "total") == MemNum(Fin(total)) && Get(m, "free") == MemNum(Fin(free))
    requires Get(m, "buffers") == MemNum(Fin(buffers)) && Get(m, "cached") == MemNum(Fin(cached))
    requires Get(m, "swapCached") == MemNum(Fin(swapCached))
    ensures WithDerived(m)["used"] == MemNum(Fin(total - free - buffers - cached - swapCached))
  {
  }

  /** With the three swap counts defined, the uncached swap use is swap total minus swap free and swap cache. */
  lemma DerivedSwapUsedUncached(m: map<string, MemVal>, swapTotal: real, swapFree: real, swapCached: real)
    requires Get(m, "swapTotal") == MemNum(Fin(swapTotal)) && Get(m, "swapFree") == MemNum(Fin(swapFree))
    requires Get(m, "swapCached") == MemNum(Fin(swapCached))
    ensures WithDerived(m)["swapUsedUncached"] == MemNum(Fin(swapTotal - swapFree - swapCached))
  {
  }

  /** The normalised table of a pass, or the error the renaming throws. */
  function MemInfo(raw: map<string, seq<string>>, order: seq<string>): Result<map<string, MemVal>, TypeError>
    requires OrderInTable(raw, order)
  {
    match MemFold(raw, order)
    case Err(e) => Err(e)
    case Ok(m) => Ok(WithDerived(m))
  }

  /** The parser's key order lists exactly the parsed rows. */
  lemma ParsedOrderInTable(p: KeyValue.Parsed)
    requires KeyValue.OrderListsKeys(p)
    ensures OrderInTable(p.entries, p.order)
  {
  }

  /**
   * The transform as a loop over the rows in insertion order, accumulating
   * into `accum`, followed by the derived fields.
   */
  method NormaliseMeminfo(raw: map<string, seq<string>>, order: seq<string>) returns (r: Result<map<string, MemVal>, TypeError>)
    requires OrderInTable(raw, order)
    ensures r == MemInfo(raw, order)
  {
    var accum: map<string, MemVal> := map[];
    var i := 0;
    while i < |order|
      invariant 0 <= i <= |order|
      invariant OrderInTable(raw, order[..i])
      invariant MemFold(raw, order[..i]) == Ok(accum)
    {
      assert order[..i + 1][..i] == order[..i];
      var key := order[i];
      var name := NormaliseKey(key);
      if name.Err? {
        assert MemFold(raw, order[..i + 1]).Err?;
        MemFoldStaysFailed(raw, order, i + 1);
        assert MemInfo(raw, order).Err?;
        assert MemInfo(raw, order).error == TypeError;
        return Err(TypeError);
      }
      var value := MemValue(raw[key]);
      if value.Some? {
        accum := accum[name.value := value.value];
      }
      i := i + 1;
    }
    assert order[..|order|] == order;
    r := Ok(WithDerived(accum));
  }

  /** Once a row has thrown, the whole transform has thrown. */
  lemma {:induction false} MemFoldStaysFailed(raw: map<string, seq<string>>, order: seq<string>, n: nat)
    requires OrderInTable(raw, order)
    requires n <= |order|
    requires MemFold(raw, order[..n]).Err?
    ensures MemFold(raw, order).Err?
  {
    if n < |order| {
      var m := |order| - 1;
      assert OrderInTable(raw, order[..m]);
      assert order[..m][..n] == order[..n];
      MemFoldStaysFailed(raw, order[..m], n);
    } else {
      assert order[..n] == order;
    }
  }
}
