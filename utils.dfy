/**
 * services/utils.js: `lookupObject` and `lookupValue` follow a key path
 * through nested JavaScript values. `lookupObject` falls back to `{}`
 * whenever a step gives a falsy value; `lookupValue` gives `undefined` when
 * a step throws, as reading a property of `null` or `undefined` does.
 */
module Utils {
  import opened Wrappers
  import opened Js

  /** The empty object `{}`. */
  function EmptyObject(): Value {
    Obj(map[])
  }

  /** `cur[key] || {}`, or the throw of reading a property of null or undefined. */
  function ObjectStep(cur: Value, key: string): Result<Value, TypeError> {
    match GetProperty(cur, key)
    case Err(e) => Err(e)
    case Ok(v) => Ok(if Truthy(v) then v else EmptyObject())
  }

  /** The `forEach` of `lookupObject` from `cur` over the keys. */
  function ObjectPath(cur: Value, keys: seq<string>): Result<Value, TypeError>
    decreases |keys|
  {
    if |keys| == 0 then Ok(cur)
    else match ObjectStep(cur, keys[0])
      case Err(e) => Err(e)
      case Ok(next) => ObjectPath(next, keys[1..])
  }

  /** The `forEach` of `lookupValue` from `cur` over the keys: plain `cur[key]` steps. */
  function ValuePath(cur: Value, keys: seq<string>): Result<Value, TypeError>
    decreases |keys|
  {
    if |keys| == 0 then Ok(cur)
    else match GetProperty(cur, keys[0])
      case Err(e) => Err(e)
      case Ok(next) => ValuePath(next, keys[1..])
  }

  /** What `lookupValue` returns: the value the path reaches, or `undefined` when a step threw. */
  function LookupValueOf(root: Value, keys: seq<string>): Value {
    match ValuePath(root, keys)
    case Ok(v) => v
    case Err(_) => Undefined
  }

  /**
   * `lookupObject(root, ...keys)`. Nothing catches the throw, so a nullish
   * root with at least one key rejects.
   */
  method LookupObject(root: Value, keys: seq<string>) returns (r: Result<Value, TypeError>)
    ensures r == ObjectPath(root, keys)
    ensures |keys| == 0 ==> r == Ok(root)
    ensures r.Err? <==> |keys| > 0 && Nullish(root)
    ensures |keys| > 0 && r.Ok? ==> Truthy(r.value)
  {
    var cur := root;
    var i := 0;
    while i < |keys|
      invariant 0 <= i <= |keys|
      invariant ObjectPath(root, keys) == ObjectPath(cur, keys[i..])
      invariant i == 0 ==> cur == root
      invariant i > 0 ==> Truthy(cur)
    {
      var step := GetProperty(cur, keys[i]);
      if step.Err? {
        return Err(step.error);
      }
      cur := if Truthy(step.value) then step.value else EmptyObject();
      assert keys[i..][1..] == keys[i + 1..];
      i := i + 1;
    }
    r := Ok(cur);
    ObjectPathThrows(root, keys);
    ObjectPathTruthy(root, keys);
  }

  /** `lookupValue(root, ...keys)`: the `forEach` inside a `try`, the `catch` giving `undefined`. */
  method LookupValue(root: Value, keys: seq<string>) returns (v: Value)
    ensures v == LookupValueOf(root, keys)
    ensures |keys| == 0 ==> v == root
  {
    var cur := root;
    var i := 0;
    while i < |keys|
      invariant 0 <= i <= |keys|
      invariant ValuePath(root, keys) == ValuePath(cur, keys[i..])
    {
      var step := GetProperty(cur, keys[i]);
      if step.Err? {
        return Undefined;
      }
      cur := step.value;
      assert keys[i..][1..] == keys[i + 1..];
      i := i + 1;
    }
    v := cur;
  }

  /** A path throws exactly when it starts at null or undefined with a key to read. */
  lemma {:induction false} ObjectPathThrows(cur: Value, keys: seq<string>)
    ensures ObjectPath(cur, keys).Err? <==> |keys| > 0 && Nullish(cur)
    decreases |keys|
  {
    if |keys| > 0 && !Nullish(cur) {
      var next := ObjectStep(cur, keys[0]).value;
      assert Truthy(next);
      ObjectPathThrows(next, keys[1..]);
    }
  }

  /** After at least one key, `lookupObject` gives a truthy value. */
  lemma {:induction false} ObjectPathTruthy(cur: Value, keys: seq<string>)
    ensures |keys| > 0 && ObjectPath(cur, keys).Ok? ==> Truthy(ObjectPath(cur, keys).value)
    decreases |keys|
  {
    if |keys| > 0 && ObjectStep(cur, keys[0]).Ok? {
      var next := ObjectStep(cur, keys[0]).value;
      assert Truthy(next);
      if |keys| > 1 {
        ObjectPathTruthy(next, keys[1..]);
      } else {
        assert ObjectPath(next, keys[1..]) == Ok(next);
      }
    }
  }

  /** Once a step has fallen back to `{}`, every further key gives `{}` again. */
  lemma {:induction false} FallbackSticks(keys: seq<string>)
    ensures ObjectPath(EmptyObject(), keys) == Ok(EmptyObject())
  {
    if |keys| > 0 {
      assert ObjectStep(EmptyObject(), keys[0]) == Ok(EmptyObject());
      FallbackSticks(keys[1..]);
    }
  }

  /** A falsy step anywhere on the path makes the whole lookup `{}`. */
  lemma FallbackAt(cur: Value, keys: seq<string>, i: nat)
    requires i < |keys|
    requires ObjectPath(cur, keys[..i]).Ok?
    requires var v := ObjectPath(cur, keys[..i]).value;
      GetProperty(v, keys[i]).Ok? && !Truthy(GetProperty(v, keys[i]).value)
    ensures ObjectPath(cur, keys) == Ok(EmptyObject())
  {
    var v := ObjectPath(cur, keys[..i]).value;
    ObjectPathSplit(cur, keys, i);
    assert keys[i..][0] == keys[i];
    assert keys[i..][1..] == keys[i + 1..];
    FallbackSticks(keys[i + 1..]);
  }

  /** `lookupObject` over a path is the lookup over its prefix, continued over the rest. */
  lemma {:induction false} ObjectPathSplit(cur: Value, keys: seq<string>, i: nat)
    requires i <= |keys|
    ensures ObjectPath(cur, keys) ==
      match ObjectPath(cur, keys[..i])
      case Err(e) => Err(e)
      case Ok(v) => ObjectPath(v, keys[i..])
    decreases |keys|
  {
    if i > 0 {
      assert keys[..i][0] == keys[0];
      assert keys[..i][1..] == keys[1..][..i - 1];
      assert keys[i..] == keys[1..][i - 1..];
      if ObjectStep(cur, keys[0]).Ok? {
        ObjectPathSplit(ObjectStep(cur, keys[0]).value, keys[1..], i - 1);
      }
    }
  }

  /** `lookupValue` over a path is the lookup over its prefix, continued over the rest. */
  lemma {:induction false} ValuePathSplit(cur: Value, keys: seq<string>, i: nat)
    requires i <= |keys|
    ensures ValuePath(cur, keys) ==
      match ValuePath(cur, keys[..i])
      case Err(e) => Err(e)
      case Ok(v) => ValuePath(v, keys[i..])
    decreases |keys|
  {
    if i > 0 {
      assert keys[..i][0] == keys[0];
      assert keys[..i][1..] == keys[1..][..i - 1];
      assert keys[i..] == keys[1..][i - 1..];
      if GetProperty(cur, keys[0]).Ok? {
        ValuePathSplit(GetProperty(cur, keys[0]).value, keys[1..], i - 1);
      }
    }
  }

  /**
   * When the path reaches null or undefined with keys still to read,
   * `lookupValue` gives `undefined` rather than throwing.
   */
  lemma NullishIntermediate(root: Value, keys: seq<string>, i: nat)
    requires i < |keys|
    requires ValuePath(root, keys[..i]).Ok? && Nullish(ValuePath(root, keys[..i]).value)
    ensures ValuePath(root, keys).Err?
    ensures LookupValueOf(root, keys) == Undefined
  {
    ValuePathSplit(root, keys, i);
  }

  /** `lookupValue` throws (and so gives `undefined`) only from a nullish intermediate with keys left. */
  lemma {:induction false} ValuePathThrowsOnlyAtNullish(cur: Value, keys: seq<string>)
    requires ValuePath(cur, keys).Err?
    ensures exists i :: 0 <= i < |keys| && ValuePath(cur, keys[..i]).Ok? && Nullish(ValuePath(cur, keys[..i]).value)
    decreases |keys|
  {
    assert |keys| > 0;
    if Nullish(cur) {
      assert keys[..0] == [];
      assert ValuePath(cur, keys[..0]) == Ok(cur);
    } else {
      var next := GetProperty(cur, keys[0]).value;
      ValuePathThrowsOnlyAtNullish(next, keys[1..]);
      var j :| 0 <= j < |keys[1..]| && ValuePath(next, keys[1..][..j]).Ok? && Nullish(ValuePath(next, keys[1..][..j]).value);
      ValuePathSplit(cur, keys[..j + 1], 1);
      assert keys[..j + 1][..1] == [keys[0]];
      assert keys[..j + 1][1..] == keys[1..][..j];
      assert ValuePath(cur, [keys[0]]) == ValuePath(next, []);
      assert keys[..j + 1][..j + 1] == keys[..j + 1];
    }
  }

  /** Every value the lookup reads along the path (after each key) is truthy. */
  predicate TruthyAlong(cur: Value, keys: seq<string>)
    decreases |keys|
  {
    |keys| == 0 ||
      (GetProperty(cur, keys[0]).Ok? && Truthy(GetProperty(cur, keys[0]).value)
       && TruthyAlong(GetProperty(cur, keys[0]).value, keys[1..]))
  }

  /** Where every intermediate is truthy, the two lookups agree. */
  lemma {:induction false} LookupsAgree(root: Value, keys: seq<string>)
    requires TruthyAlong(root, keys)
    ensures ObjectPath(root, keys) == ValuePath(root, keys)
    ensures ObjectPath(root, keys) == Ok(LookupValueOf(root, keys))
    decreases |keys|
  {
    if |keys| > 0 {
      LookupsAgree(GetProperty(root, keys[0]).value, keys[1..]);
    }
  }
}
