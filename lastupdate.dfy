/** Restoring the counter at start-up: the lines printed by `rrdtool lastupdate`
    are scanned for the first one of the form `<digits>: <field> <field>`, and the
    first field is the counter to resume from; without such a line the counter
    restarts at 0.0. */
module LastUpdate {
  import opened GasRecords

  predicate IsDigit(c: char) {
    '0' <= c <= '9'
  }

  /** A character of the class `[0-9.]`. */
  predicate IsFieldChar(c: char) {
    IsDigit(c) || c == '.'
  }

  predicate AllDigits(s: string) {
    forall i :: 0 <= i < |s| ==> IsDigit(s[i])
  }

  predicate AllFieldChars(s: string) {
    forall i :: 0 <= i < |s| ==> IsFieldChar(s[i])
  }

  /** The length of the text `[0-9]*` consumes at the start of `s`. */
  function DigitRun(s: string): (n: nat)
    ensures n <= |s| && AllDigits(s[..n])
    ensures n < |s| ==> !IsDigit(s[n])
  {
    if s != [] && IsDigit(s[0]) then
      var m := DigitRun(s[1..]);
      assert s[..1 + m] == [s[0]] + s[1..][..m];
      1 + m
    else 0
  }

  /** The length of the text `[0-9.]*` consumes at the start of `s`. */
  function FieldRun(s: string): (n: nat)
    ensures n <= |s| && AllFieldChars(s[..n])
    ensures n < |s| ==> !IsFieldChar(s[n])
  {
    if s != [] && IsFieldChar(s[0]) then
      var m := FieldRun(s[1..]);
      assert s[..1 + m] == [s[0]] + s[1..][..m];
      1 + m
    else 0
  }

  /** `re.match(r"^[0-9]*: ([0-9.]*) [0-9.]*", line)`, giving the captured group.
      Both runs are greedy and each is followed by a character outside its class,
      so no backtracking can change the outcome; the trailing `[0-9.]*` may match
      nothing and so never decides whether the line matches. */
  function MatchLine(line: string): Option<string>
  {
    var d := DigitRun(line);
    if d + 2 <= |line| && line[d] == ':' && line[d + 1] == ' ' then
      var rest := line[d + 2..];
      var v := FieldRun(rest);
      if v < |rest| && rest[v] == ' ' then Some(rest[..v]) else None
    else None
  }

  /** The line is a run of digits, a colon and a space, the field, a space, and anything. */
  predicate IsSplit(line: string, d: string, v: string, rest: string) {
    AllDigits(d) && AllFieldChars(v) && line == d + ": " + v + " " + rest
  }

  /** A captured field consists of digits and dots only, and the line has the
      pattern's shape around it. */
  lemma MatchSound(line: string, v: string)
    requires MatchLine(line) == Some(v)
    ensures AllFieldChars(v)
    ensures exists d, rest :: IsSplit(line, d, v, rest)
  {
    var n := DigitRun(line);
    var tail := line[n + 2..];
    var m := FieldRun(tail);
    assert v == tail[..m];
    assert line == line[..n] + ": " + v + " " + tail[m + 1..];
    assert IsSplit(line, line[..n], v, tail[m + 1..]);
  }

  /** `[0-9]*` consumes exactly a digit run that is followed by a non-digit. */
  lemma {:induction false} DigitRunOf(d: string, tail: string)
    requires AllDigits(d)
    requires tail != [] && !IsDigit(tail[0])
    ensures DigitRun(d + tail) == |d|
  {
    if d != [] {
      assert (d + tail)[0] == d[0];
      assert (d + tail)[1..] == d[1..] + tail;
      DigitRunOf(d[1..], tail);
    } else {
      assert d + tail == tail;
    }
  }

  /** `[0-9.]*` consumes exactly a field that is followed by another character. */
  lemma {:induction false} FieldRunOf(v: string, tail: string)
    requires AllFieldChars(v)
    requires tail != [] && !IsFieldChar(tail[0])
    ensures FieldRun(v + tail) == |v|
  {
    if v != [] {
      assert (v + tail)[0] == v[0];
      assert (v + tail)[1..] == v[1..] + tail;
      FieldRunOf(v[1..], tail);
    } else {
      assert v + tail == tail;
    }
  }

  /** Every line of the pattern's shape matches, capturing exactly its first field. */
  lemma MatchComplete(d: string, v: string, rest: string)
    requires AllDigits(d) && AllFieldChars(v)
    ensures MatchLine(d + ": " + v + " " + rest) == Some(v)
  {
    var line := d + ": " + v + " " + rest;
    assert line == d + (": " + v + " " + rest);
    DigitRunOf(d, ": " + v + " " + rest);
    var tail := line[|d| + 2..];
    assert tail == v + (" " + rest);
    FieldRunOf(v, " " + rest);
    assert tail[..|v|] == v;
  }

  /** The field of the first matching line, if any line matches. */
  function FirstMatch(lines: seq<string>): Option<string>
  {
    if lines == [] then None
    else if MatchLine(lines[0]).Some? then MatchLine(lines[0])
    else FirstMatch(lines[1..])
  }

  /** The first matching line decides the result, whatever follows it. */
  lemma {:induction false} FirstMatchWins(lines: seq<string>, i: nat)
    requires i < |lines| && MatchLine(lines[i]).Some?
    requires forall j :: 0 <= j < i ==> MatchLine(lines[j]).None?
    ensures FirstMatch(lines) == MatchLine(lines[i])
  {
    if i > 0 {
      FirstMatchWins(lines[1..], i - 1);
    }
  }

  /** Lines after a match are never looked at: appending more output changes nothing. */
  lemma {:induction false} FirstMatchIgnoresLater(lines: seq<string>, more: seq<string>)
    requires FirstMatch(lines).Some?
    ensures FirstMatch(lines + more) == FirstMatch(lines)
  {
    assert (lines + more)[0] == lines[0];
    if MatchLine(lines[0]).None? {
      assert (lines + more)[1..] == lines[1..] + more;
      FirstMatchIgnoresLater(lines[1..], more);
    }
  }

  /** The scan falls back to the default exactly when no line matches. */
  lemma {:induction false} NoMatchDefault(lines: seq<string>)
    ensures FirstMatch(lines) == None <==> forall i :: 0 <= i < |lines| ==> MatchLine(lines[i]).None?
  {
    if lines != [] {
      NoMatchDefault(lines[1..]);
      if MatchLine(lines[0]).None? {
        forall i | 1 <= i < |lines|
          ensures MatchLine(lines[i]) == MatchLine(lines[1..][i - 1])
        {
        }
      }
    }
  }

  /** A restored field is the field of some line, every earlier line fails to
      match, and the field holds digits and dots only. */
  lemma {:induction false} FirstMatchFound(lines: seq<string>, v: string)
    requires FirstMatch(lines) == Some(v)
    ensures AllFieldChars(v)
    ensures exists i :: 0 <= i < |lines| && MatchLine(lines[i]) == Some(v) &&
                        (forall j :: 0 <= j < i ==> MatchLine(lines[j]).None?)
  {
    if MatchLine(lines[0]).Some? {
      MatchSound(lines[0], v);
      assert MatchLine(lines[0]) == Some(v);
    } else {
      FirstMatchFound(lines[1..], v);
      var i :| 0 <= i < |lines| - 1 && MatchLine(lines[1..][i]) == Some(v) &&
               (forall j :: 0 <= j < i ==> MatchLine(lines[1..][j]).None?);
      assert MatchLine(lines[i + 1]) == Some(v);
      forall j | 0 <= j < i + 1
        ensures MatchLine(lines[j]).None?
      {
        if j > 0 {
          assert lines[j] == lines[1..][j - 1];
        }
      }
    }
  }

  /** `last_rrd_count`: scan the output lines, stop at the first that matches and
      return its field; `None` stands for the default reading 0.0. */
  method LastRrdCount(lines: seq<string>) returns (field: Option<string>)
    ensures field == FirstMatch(lines)
  {
    field := None;
    var i := 0;
    while i < |lines|
      invariant 0 <= i <= |lines|
      invariant field == None
      invariant FirstMatch(lines) == FirstMatch(lines[i..])
    {
      var m := MatchLine(lines[i]);
      if m.Some? {
        field := m;
        break;
      }
      assert lines[i..][1..] == lines[i + 1..];
      i := i + 1;
    }
  }
}
