/**
 * JavaScript string splitting, as the process reader uses it:
 * `s.split(/\n/g)` and `s.split(/\0/g)` (split on one separator character) and
 * `s.split(/\s+/g)` (split on maximal runs of whitespace).
 */
module Text {

  /** JavaScript's `\s` class: the WhiteSpace and LineTerminator code points. */
  predicate IsSpace(c: char) {
    || c == ' ' || c == '\t' || c == '\n' || c == '\r'
    || c == '\U{000B}' || c == '\U{000C}' || c == '\U{00A0}' || c == '\U{1680}'
    || ('\U{2000}' <= c <= '\U{200A}')
    || c == '\U{2028}' || c == '\U{2029}' || c == '\U{202F}' || c == '\U{205F}'
    || c == '\U{3000}' || c == '\U{FEFF}'
  }

  predicate NoSpace(s: string) {
    forall j :: 0 <= j < |s| ==> !IsSpace(s[j])
  }

  /** Length of the maximal run of whitespace at the start of s. */
  function LeadingSpaces(s: string): (n: nat)
    ensures n <= |s|
  {
    if |s| == 0 || !IsSpace(s[0]) then 0 else 1 + LeadingSpaces(s[1..])
  }

  /** The run is made of whitespace and is followed by a character that is not. */
  lemma {:induction false} LeadingSpacesRun(s: string)
    ensures forall j :: 0 <= j < LeadingSpaces(s) ==> IsSpace(s[j])
    ensures LeadingSpaces(s) == |s| || !IsSpace(s[LeadingSpaces(s)])
  {
    if |s| > 0 && IsSpace(s[0]) {
      LeadingSpacesRun(s[1..]);
      forall j | 1 <= j < LeadingSpaces(s) ensures IsSpace(s[j]) {
        assert s[j] == s[1..][j - 1];
      }
    }
  }

  /** The run is determined by its two defining properties. */
  lemma {:induction false} LeadingSpacesUnique(s: string, n: nat)
    requires n <= |s|
    requires forall j :: 0 <= j < n ==> IsSpace(s[j])
    requires n == |s| || !IsSpace(s[n])
    ensures LeadingSpaces(s) == n
  {
    if n > 0 {
      LeadingSpacesUnique(s[1..], n - 1);
    }
  }

  /** `parts.join(sep)`. */
  function JoinWith(parts: seq<string>, sep: char): string {
    if |parts| == 0 then ""
    else if |parts| == 1 then parts[0]
    else parts[0] + [sep] + JoinWith(parts[1..], sep)
  }

  /** `s.split(sep)` for a one-character separator: every occurrence separates two parts. */
  function SplitOn(s: string, sep: char): (parts: seq<string>)
    ensures |parts| >= 1
    ensures forall i :: 0 <= i < |parts| ==> sep !in parts[i]
  {
    if |s| == 0 then [""]
    else
      var rest := SplitOn(s[1..], sep);
      if s[0] == sep then [""] + rest
      else [[s[0]] + rest[0]] + rest[1..]
  }

  lemma JoinCons(p: string, rest: seq<string>, sep: char)
    requires |rest| >= 1
    ensures JoinWith([p] + rest, sep) == p + [sep] + JoinWith(rest, sep)
  {
    assert ([p] + rest)[1..] == rest;
  }

  /** Joining the parts again with the separator gives back the original text. */
  lemma {:induction false} JoinSplitOn(s: string, sep: char)
    ensures JoinWith(SplitOn(s, sep), sep) == s
  {
    if |s| > 0 {
      var rest := SplitOn(s[1..], sep);
      JoinSplitOn(s[1..], sep);
      if s[0] == sep {
        JoinCons("", rest, sep);
        assert s == [sep] + s[1..];
      } else {
        var head := [s[0]] + rest[0];
        if |rest| == 1 {
          assert SplitOn(s, sep) == [head];
          assert s == [s[0]] + s[1..];
        } else {
          JoinCons(head, rest[1..], sep);
          assert [head] + rest[1..] == SplitOn(s, sep);
          assert rest == [rest[0]] + rest[1..];
          JoinCons(rest[0], rest[1..], sep);
          assert s == [s[0]] + s[1..];
        }
      }
    }
  }

  /** Text without the separator only extends the first part. */
  lemma {:induction false} SplitOnPrefix(p: string, t: string, sep: char)
    requires sep !in p
    ensures SplitOn(p + t, sep) == [p + SplitOn(t, sep)[0]] + SplitOn(t, sep)[1..]
  {
    if |p| > 0 {
      assert (p + t)[1..] == p[1..] + t;
      assert (p + t)[0] == p[0];
      SplitOnPrefix(p[1..], t, sep);
      assert [p[0]] + (p[1..] + SplitOn(t, sep)[0]) == p + SplitOn(t, sep)[0];
    } else {
      assert p + t == t;
      var parts := SplitOn(t, sep);
      assert p + parts[0] == parts[0];
      assert parts == [parts[0]] + parts[1..];
    }
  }

  /** Splitting parts that do not contain the separator, after joining them, gives the parts back. */
  lemma {:induction false} SplitOnJoin(parts: seq<string>, sep: char)
    requires |parts| >= 1
    requires forall i :: 0 <= i < |parts| ==> sep !in parts[i]
    ensures SplitOn(JoinWith(parts, sep), sep) == parts
  {
    if |parts| == 1 {
      SplitOnPrefix(parts[0], "", sep);
      assert parts[0] + "" == parts[0];
    } else {
      var tail := JoinWith(parts[1..], sep);
      SplitOnJoin(parts[1..], sep);
      assert ([sep] + tail)[1..] == tail;
      assert SplitOn([sep] + tail, sep) == [""] + parts[1..];
      assert parts[0] + [sep] + tail == parts[0] + ([sep] + tail);
      SplitOnPrefix(parts[0], [sep] + tail, sep);
      assert parts[0] + "" == parts[0];
      assert parts == [parts[0]] + parts[1..];
    }
  }

  /**
   * `s.split(/\s+/g)`: the maximal whitespace runs separate the tokens, so a
   * leading or trailing run yields an empty first or last token and the empty
   * text yields one empty token.
   */
  function SplitWs(s: string): (toks: seq<string>)
    ensures |toks| >= 1
    ensures forall i :: 0 <= i < |toks| ==> NoSpace(toks[i])
    ensures |s| > 0 && !IsSpace(s[0]) ==> toks[0] != ""
    ensures forall i :: 0 < i < |toks| - 1 ==> toks[i] != ""
    decreases |s|
  {
    if |s| == 0 then [""]
    else if IsSpace(s[0]) then
      LeadingSpacesRun(s);
      [""] + SplitWs(s[LeadingSpaces(s)..])
    else
      var rest := SplitWs(s[1..]);
      [[s[0]] + rest[0]] + rest[1..]
  }

  /** Text without whitespace only extends the first token. */
  lemma {:induction false} SplitWsPrefix(p: string, t: string)
    requires NoSpace(p)
    ensures SplitWs(p + t) == [p + SplitWs(t)[0]] + SplitWs(t)[1..]
  {
    if |p| > 0 {
      assert (p + t)[1..] == p[1..] + t;
      assert (p + t)[0] == p[0];
      SplitWsPrefix(p[1..], t);
      assert [p[0]] + (p[1..] + SplitWs(t)[0]) == p + SplitWs(t)[0];
    } else {
      assert p + t == t;
      var toks := SplitWs(t);
      assert p + toks[0] == toks[0];
      assert toks == [toks[0]] + toks[1..];
    }
  }

  lemma JoinStartsWith(parts: seq<string>, sep: char)
    requires |parts| >= 1
    ensures |JoinWith(parts, sep)| >= |parts[0]|
    ensures JoinWith(parts, sep)[..|parts[0]|] == parts[0]
  {
  }

  /** One space ahead of text that does not start with whitespace adds an empty first token. */
  lemma SplitAfterSpace(tail: string)
    requires tail == "" || !IsSpace(tail[0])
    ensures SplitWs([' '] + tail) == [""] + SplitWs(tail)
  {
    var u := [' '] + tail;
    assert u[1..] == tail;
    LeadingSpacesUnique(u, 1);
  }

  /**
   * Tokens without whitespace, none of them empty except possibly the first
   * and the last, survive being joined with single spaces and split again.
   */
  lemma {:induction false} SplitWsJoin(toks: seq<string>)
    requires |toks| >= 1
    requires forall i :: 0 <= i < |toks| ==> NoSpace(toks[i])
    requires forall i :: 0 < i < |toks| - 1 ==> toks[i] != ""
    ensures SplitWs(JoinWith(toks, ' ')) == toks
  {
    if |toks| == 1 {
      SplitWsPrefix(toks[0], "");
      assert toks[0] + "" == toks[0];
    } else {
      var tail := JoinWith(toks[1..], ' ');
      SplitWsJoin(toks[1..]);
      var u := [' '] + tail;
      if |toks[1]| > 0 {
        JoinStartsWith(toks[1..], ' ');
        assert tail[0] == toks[1][0];
      } else {
        assert |toks| == 2;
        assert tail == "";
      }
      SplitAfterSpace(tail);
      assert toks[0] + [' '] + tail == toks[0] + u;
      SplitWsPrefix(toks[0], u);
      assert toks[0] + "" == toks[0];
      assert toks == [toks[0]] + toks[1..];
    }
  }
}
