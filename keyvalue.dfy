/**
 * `ProcReader.parseKVP` (services/readProc.js:380-406): the text is split on
 * "\n"; an empty line is skipped; a line matching the key rule
 * `^([^:\s]+):?\s+` maps its key to the rest of the line split on `\s+`, a
 * later line overwriting an earlier one with the same key; any other line is
 * skipped with a warning that carries its 1-based line number.
 */
module KeyValue {
  import opened Wrappers
  import opened Text

  /** A character allowed in a key: neither a colon nor whitespace (`[^:\s]`). */
  predicate IsKeyChar(c: char) {
    c != ':' && !IsSpace(c)
  }

  predicate IsKey(k: string) {
    |k| > 0 && forall j :: 0 <= j < |k| ==> IsKeyChar(k[j])
  }

  /** What may stand between the key and the fields: an optional colon, then at least one whitespace character. */
  predicate IsSeparator(sep: string) {
    || (|sep| > 0 && forall j :: 0 <= j < |sep| ==> IsSpace(sep[j]))
    || (|sep| > 1 && sep[0] == ':' && forall j :: 1 <= j < |sep| ==> IsSpace(sep[j]))
  }

  /** Length of the maximal run of key characters at the start of s. */
  function LeadingKey(s: string): (n: nat)
    ensures n <= |s|
  {
    if |s| == 0 || !IsKeyChar(s[0]) then 0 else 1 + LeadingKey(s[1..])
  }

  /** The run is made of key characters and is followed by a character that is not one. */
  lemma {:induction false} LeadingKeyRun(s: string)
    ensures forall j :: 0 <= j < LeadingKey(s) ==> IsKeyChar(s[j])
    ensures LeadingKey(s) == |s| || !IsKeyChar(s[LeadingKey(s)])
  {
    if |s| > 0 && IsKeyChar(s[0]) {
      LeadingKeyRun(s[1..]);
      forall j | 1 <= j < LeadingKey(s) ensures IsKeyChar(s[j]) {
        assert s[j] == s[1..][j - 1];
      }
    }
  }

  lemma {:induction false} LeadingKeyUnique(s: string, n: nat)
    requires n <= |s|
    requires forall j :: 0 <= j < n ==> IsKeyChar(s[j])
    requires n == |s| || !IsKeyChar(s[n])
    ensures LeadingKey(s) == n
  {
    if n > 0 {
      LeadingKeyUnique(s[1..], n - 1);
    }
  }

  /** The two groups a successful match of the key rule yields: the key and what follows `match[0]`. */
  datatype KeyMatch = KeyMatch(key: string, rest: string)

  /**
   * `/^([^:\s]+):?\s+/.exec(line)`. The key class excludes both the colon and
   * whitespace, so backtracking never finds a second match: the key is the
   * maximal run of key characters and `\s+` takes the whole whitespace run.
   */
  /** Where the optional colon after a key of length k ends. */
  function ColonEnd(line: string, k: nat): (p: nat)
    requires k <= |line|
    ensures p == if k < |line| && line[k] == ':' then k + 1 else k
  {
    if k < |line| && line[k] == ':' then k + 1 else k
  }

  function MatchKey(line: string): Option<KeyMatch> {
    var k := LeadingKey(line);
    if k == 0 then None
    else
      var p := ColonEnd(line, k);
      var w := LeadingSpaces(line[p..]);
      if w == 0 then None
      else Some(KeyMatch(line[..k], line[p + w..]))
  }

  /** The colon (if any) and the whitespace run after the key form a separator. */
  lemma SeparatorAfterKey(line: string, k: nat, p: nat, w: nat)
    requires k < |line| || k == p
    requires p == if k < |line| && line[k] == ':' then k + 1 else k
    requires p <= |line| && 0 < w <= |line| - p
    requires forall j :: 0 <= j < w ==> IsSpace(line[p..][j])
    ensures IsSeparator(line[k..p + w])
  {
    var sep := line[k..p + w];
    forall j | p - k <= j < |sep| ensures IsSpace(sep[j]) {
      assert sep[j] == line[p..][j - (p - k)];
    }
  }

  /** A match splits the line into a key, a separator and a rest that does not start with whitespace. */
  lemma MatchKeySound(line: string) returns (sep: string)
    requires MatchKey(line).Some?
    ensures var m := MatchKey(line).value;
      && line == m.key + sep + m.rest
      && IsKey(m.key)
      && IsSeparator(sep)
      && (m.rest == "" || !IsSpace(m.rest[0]))
  {
    var k := LeadingKey(line);
    var p := ColonEnd(line, k);
    var w := LeadingSpaces(line[p..]);
    LeadingKeyRun(line);
    LeadingSpacesRun(line[p..]);
    assert MatchKey(line).value == KeyMatch(line[..k], line[p + w..]);
    sep := line[k..p + w];
    assert line == line[..k] + sep + line[p + w..];
    KeyPrefix(line, k);
    SeparatorAfterKey(line, k, p, w);
    RestAfterSpaces(line, p, w);
  }

  /** A non-empty run of key characters at the start of a line is a key. */
  lemma KeyPrefix(line: string, k: nat)
    requires 0 < k <= |line|
    requires forall j :: 0 <= j < k ==> IsKeyChar(line[j])
    ensures IsKey(line[..k])
  {
    forall j | 0 <= j < k ensures IsKeyChar(line[..k][j]) {
      assert line[..k][j] == line[j];
    }
  }

  /** What follows a maximal whitespace run does not start with whitespace. */
  lemma RestAfterSpaces(line: string, p: nat, w: nat)
    requires p <= |line| && w <= |line| - p
    requires w == |line| - p || !IsSpace(line[p..][w])
    ensures line[p + w..] == "" || !IsSpace(line[p + w..][0])
  {
    if p + w < |line| {
      assert line[p + w..][0] == line[p..][w];
    }
  }

  /** A key followed by a separator is the maximal run of key characters at the start of the line. */
  lemma KeyBeforeSeparator(line: string, key: string, tail: string)
    requires line == key + tail
    requires IsKey(key) && |tail| > 0 && !IsKeyChar(tail[0])
    ensures LeadingKey(line) == |key| && line[..|key|] == key && line[|key|..] == tail
  {
    var k := |key|;
    assert line[..k] == key;
    assert line[k..] == tail;
    forall j | 0 <= j < k ensures IsKeyChar(line[j]) {
      assert line[j] == key[j];
    }
    assert line[k] == tail[0];
    LeadingKeyUnique(line, k);
  }

  /** The whitespace run ahead of a rest that does not start with whitespace is taken whole. */
  lemma SpacesBeforeRest(s: string, spaces: string, rest: string)
    requires s == spaces + rest
    requires forall j :: 0 <= j < |spaces| ==> IsSpace(spaces[j])
    requires rest == "" || !IsSpace(rest[0])
    ensures LeadingSpaces(s) == |spaces| && s[|spaces|..] == rest
  {
    forall j | 0 <= j < |spaces| ensures IsSpace(s[j]) {
      assert s[j] == spaces[j];
    }
    if rest != "" {
      assert s[|spaces|] == rest[0];
    }
    LeadingSpacesUnique(s, |spaces|);
    assert s[|spaces|..] == rest;
  }

  /** After the key, the key rule's `:?\s+` consumes exactly the separator. */
  lemma SeparatorThenRest(tail: string, sep: string, rest: string)
    requires tail == sep + rest
    requires IsSeparator(sep)
    requires rest == "" || !IsSpace(rest[0])
    ensures |tail| > 0
    ensures var c := if tail[0] == ':' then 1 else 0;
      LeadingSpaces(tail[c..]) > 0 && tail[c + LeadingSpaces(tail[c..])..] == rest
  {
    assert tail[0] == sep[0];
    var c := if sep[0] == ':' then 1 else 0;
    var spaces := sep[c..];
    assert tail[c..] == spaces + rest;
    SpacesBeforeRest(tail[c..], spaces, rest);
    assert tail[c + |spaces|..] == tail[c..][|spaces|..];
  }

  /** The key rule's result, given the lengths of the key, the colon and the whitespace run. */
  lemma MatchKeyAt(line: string, k: nat, p: nat, w: nat)
    requires 0 < k == LeadingKey(line)
    requires p == ColonEnd(line, k)
    requires 0 < w == LeadingSpaces(line[p..])
    ensures MatchKey(line) == Some(KeyMatch(line[..k], line[p + w..]))
  {
  }

  /** Dropping more of a line drops more of its tail. */
  lemma DropShift(line: string, k: nat, tail: string, n: nat)
    requires k <= |line| && line[k..] == tail && n <= |tail|
    ensures line[k + n..] == tail[n..]
  {
  }

  /** A separator starts with a colon or whitespace, neither of which is a key character. */
  lemma SeparatorStart(sep: string)
    requires IsSeparator(sep)
    ensures |sep| > 0 && !IsKeyChar(sep[0])
  {
  }

  /** Every such split of a line is the one the key rule finds. */
  lemma MatchKeyComplete(line: string, key: string, sep: string, rest: string)
    requires line == key + sep + rest
    requires IsKey(key) && IsSeparator(sep)
    requires rest == "" || !IsSpace(rest[0])
    ensures MatchKey(line) == Some(KeyMatch(key, rest))
  {
    var k := |key|;
    var tail := sep + rest;
    assert line == key + tail;
    SeparatorStart(sep);
    assert tail[0] == sep[0];
    SeparatorThenRest(tail, sep, rest);
    KeyBeforeSeparator(line, key, tail);
    var c := if tail[0] == ':' then 1 else 0;
    var w := LeadingSpaces(tail[c..]);
    assert line[k] == tail[0];
    assert ColonEnd(line, k) == k + c;
    DropShift(line, k, tail, c);
    DropShift(line, k, tail, c + w);
    MatchKeyAt(line, k, k + c, w);
  }

  /** A line the rule matches has a key that is not empty and holds neither a colon nor whitespace. */
  lemma MatchedKeyIsKey(line: string)
    requires MatchKey(line).Some?
    ensures IsKey(MatchKey(line).value.key)
  {
    var k := LeadingKey(line);
    LeadingKeyRun(line);
    forall j | 0 <= j < k ensures IsKeyChar(line[..k][j]) {
      assert line[..k][j] == line[j];
    }
  }

  /**
   * What parseKVP returns: the parsed mapping, the order in which its keys
   * were first inserted (the order a JavaScript object enumerates them in),
   * and the 1-based numbers of the lines it warned about.
   */
  datatype Parsed = Parsed(entries: map<string, seq<string>>, order: seq<string>, warnings: seq<nat>)

  /** The fields a matching line contributes. */
  function Fields(m: KeyMatch): seq<string> {
    SplitWs(m.rest)
  }

  /** The treatment of one line, numbered lineNo. */
  function Step(p: Parsed, line: string, lineNo: nat): Parsed {
    if |line| == 0 then p
    else match MatchKey(line)
      case None => p.(warnings := p.warnings + [lineNo])
      case Some(m) =>
        Parsed(p.entries[m.key := Fields(m)],
               if m.key in p.entries then p.order else p.order + [m.key],
               p.warnings)
  }

  /** The lines, treated one after the other from the first. */
  function ParseLines(lines: seq<string>): Parsed {
    if |lines| == 0 then Parsed(map[], [], [])
    else Step(ParseLines(lines[..|lines| - 1]), lines[|lines| - 1], |lines|)
  }

  /** The lines of a text: `data.split(/\n/g)`. */
  function Lines(data: string): seq<string> {
    SplitOn(data, '\n')
  }

  /** parseKVP's result on a whole text. */
  function Parse(data: string): Parsed {
    ParseLines(Lines(data))
  }

  /** The key (if any) that line i contributes. */
  predicate KeyedAt(lines: seq<string>, i: int, k: string) {
    0 <= i < |lines| && MatchKey(lines[i]).Some? && MatchKey(lines[i]).value.key == k
  }

  /** Line i is the last line with key k. */
  predicate LastKeyedAt(lines: seq<string>, i: int, k: string) {
    KeyedAt(lines, i, k) && forall j :: i < j < |lines| ==> !KeyedAt(lines, j, k)
  }

  /** A line the parser warns about: not empty, and the key rule fails on it. */
  predicate Unmatched(line: string) {
    |line| > 0 && MatchKey(line).None?
  }

  /** The order lists every key exactly once. */
  ghost predicate OrderListsKeys(p: Parsed) {
    && (forall k :: k in p.entries <==> k in p.order)
    && (forall i, j :: 0 <= i < j < |p.order| ==> p.order[i] != p.order[j])
  }

  lemma {:induction false} ParseLinesOrder(lines: seq<string>)
    ensures OrderListsKeys(ParseLines(lines))
  {
    if |lines| > 0 {
      ParseLinesOrder(lines[..|lines| - 1]);
    }
  }

  /** One line adds its own key, if it has one, and keeps every other key. */
  lemma StepKeys(p: Parsed, line: string, lineNo: nat, k: string)
    ensures k in Step(p, line, lineNo).entries <==>
      k in p.entries || (MatchKey(line).Some? && MatchKey(line).value.key == k)
  {
    if |line| == 0 {
      assert LeadingKey(line) == 0;
    }
  }

  /** A key is in the parsed mapping exactly when some line has it. */
  lemma {:induction false} ParseLinesKeys(lines: seq<string>, k: string)
    ensures k in ParseLines(lines).entries <==> exists i :: KeyedAt(lines, i, k)
  {
    if |lines| > 0 {
      var n := |lines| - 1;
      var init := lines[..n];
      assert ParseLines(lines) == Step(ParseLines(init), lines[n], |lines|);
      StepKeys(ParseLines(init), lines[n], |lines|, k);
      ParseLinesKeys(init, k);
      assert forall i :: 0 <= i < n ==> (KeyedAt(init, i, k) <==> KeyedAt(lines, i, k)) by {
        forall i | 0 <= i < n ensures KeyedAt(init, i, k) <==> KeyedAt(lines, i, k) {
          assert init[i] == lines[i];
        }
      }
      if exists i :: KeyedAt(lines, i, k) {
        var i :| KeyedAt(lines, i, k);
        if i < n {
          assert KeyedAt(init, i, k);
        } else {
          assert i == n && MatchKey(lines[n]).Some? && MatchKey(lines[n]).value.key == k;
        }
      }
      if k in ParseLines(lines).entries {
        if MatchKey(lines[n]).Some? && MatchKey(lines[n]).value.key == k {
          assert KeyedAt(lines, n, k);
        } else {
          var i :| KeyedAt(init, i, k);
          assert KeyedAt(lines, i, k);
        }
      }
    }
  }

  /** The value of a key is the fields of the last line that has it. */
  lemma {:induction false} ParseLinesValue(lines: seq<string>, i: int, k: string)
    requires LastKeyedAt(lines, i, k)
    ensures k in ParseLines(lines).entries
    ensures ParseLines(lines).entries[k] == Fields(MatchKey(lines[i]).value)
  {
    var n := |lines| - 1;
    var init := lines[..n];
    if i < n {
      assert LastKeyedAt(init, i, k) by {
        forall j | i < j < |init| ensures !KeyedAt(init, j, k) {
          assert !KeyedAt(lines, j, k);
        }
      }
      ParseLinesValue(init, i, k);
      assert !KeyedAt(lines, n, k);
    }
  }

  /** Every key of the mapping is a valid key. */
  lemma {:induction false} ParseLinesKeysValid(lines: seq<string>)
    ensures forall k :: k in ParseLines(lines).entries ==> IsKey(k)
  {
    if |lines| > 0 {
      var line := lines[|lines| - 1];
      ParseLinesKeysValid(lines[..|lines| - 1]);
      if MatchKey(line).Some? {
        MatchedKeyIsKey(line);
      }
    }
  }

  /**
   * The warnings are the numbers of the non-empty lines the key rule fails
   * on, in increasing order; empty lines are never warned about.
   */
  lemma {:induction false} ParseLinesWarnings(lines: seq<string>)
    ensures var w := ParseLines(lines).warnings;
      && (forall n :: n in w <==> 1 <= n <= |lines| && Unmatched(lines[n - 1]))
      && (forall a, b :: 0 <= a < b < |w| ==> w[a] < w[b])
      && (forall a :: 0 <= a < |w| ==> w[a] <= |lines|)
  {
    if |lines| > 0 {
      var m := |lines| - 1;
      var init := lines[..m];
      assert ParseLines(lines) == Step(ParseLines(init), lines[m], |lines|);
      ParseLinesWarnings(init);
      var w0 := ParseLines(init).warnings;
      var w := ParseLines(lines).warnings;
      assert w == if Unmatched(lines[m]) then w0 + [m + 1] else w0;
      forall n | 1 <= n <= |lines|
        ensures n in w <==> Unmatched(lines[n - 1])
      {
        if n <= m {
          assert init[n - 1] == lines[n - 1];
        }
      }
    }
  }

  /**
   * `parseKVP(data)`: one pass over the lines, filling `parsed` line by line.
   */
  method ParseKVP(data: string) returns (parsed: Parsed)
    ensures parsed == Parse(data)
    ensures forall k :: k in parsed.entries ==> IsKey(k)
    ensures OrderListsKeys(parsed)
  {
    var lines := SplitOn(data, '\n');
    parsed := Parsed(map[], [], []);
    var i := 0;
    while i < |lines|
      invariant 0 <= i <= |lines|
      invariant parsed == ParseLines(lines[..i])
    {
      var line := lines[i];
      assert lines[..i + 1][..i] == lines[..i];
      if |line| == 0 {
        // an empty line is skipped
      } else {
        var m := MatchKey(line);
        if m.None? {
          parsed := parsed.(warnings := parsed.warnings + [i + 1]);
        } else {
          var key := m.value.key;
          var order := if key in parsed.entries then parsed.order else parsed.order + [key];
          parsed := Parsed(parsed.entries[key := SplitWs(m.value.rest)], order, parsed.warnings);
        }
      }
      i := i + 1;
    }
    assert lines[..|lines|] == lines;
    ParseLinesKeysValid(lines);
    ParseLinesOrder(lines);
  }
}
