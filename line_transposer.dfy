/** processChordLine of ChordProgressionHandler: a line is cut into the
    successive matches of the pattern (\s+)|(\S+), i.e. its maximal runs of
    whitespace and of non-whitespace; every run that trims to a valid chord is
    transposed and every other run is copied, so spacing and alignment are kept. */
module LineTransposer {
  import opened KeyTable
  import opened ChordSyntax
  import opened Transposer

  // ---------------------------------------------------------------------
  // Tokenizing into runs

  /** Length of the longest prefix of s whose characters are all whitespace
      (ws) or all non-whitespace (!ws). */
  function ClassPrefix(s: string, ws: bool): (n: nat)
    ensures n <= |s|
    ensures forall i :: 0 <= i < n ==> IsWhitespace(s[i]) == ws
    ensures n < |s| ==> IsWhitespace(s[n]) != ws
  {
    if s == [] || IsWhitespace(s[0]) != ws then 0 else 1 + ClassPrefix(s[1..], ws)
  }

  /** Length of the match of (\s+)|(\S+) at the front of a non-empty s. */
  function RunLength(s: string): (n: nat)
    requires s != []
    ensures 1 <= n <= |s|
  {
    ClassPrefix(s, IsWhitespace(s[0]))
  }

  /** The successive matches of (\s+)|(\S+) in s. */
  function Runs(s: string): seq<string>
    decreases |s|
  {
    if s == [] then [] else var n := RunLength(s); [s[..n]] + Runs(s[n..])
  }

  function Concat(parts: seq<string>): string
  {
    if parts == [] then "" else parts[0] + Concat(parts[1..])
  }

  /** A run: non-empty, and all whitespace or free of whitespace. */
  predicate IsRun(r: string)
  {
    r != [] && (IsBlank(r) || NoWhitespace(r))
  }

  /** Runs that follow each other alternate between whitespace and the rest. */
  predicate WellFormedRuns(rs: seq<string>)
  {
    && (forall i :: 0 <= i < |rs| ==> IsRun(rs[i]))
    && (forall i :: 0 < i < |rs| ==> IsWhitespace(rs[i - 1][0]) != IsWhitespace(rs[i][0]))
  }

  lemma WellFormedCons(x: string, rest: seq<string>)
    ensures WellFormedRuns([x] + rest) <==>
              && IsRun(x)
              && WellFormedRuns(rest)
              && (rest != [] ==> IsWhitespace(x[0]) != IsWhitespace(rest[0][0]))
  {
    var rs := [x] + rest;
    assert rs[0] == x;
    assert forall i :: 0 < i < |rs| ==> rs[i] == rest[i - 1];
    if WellFormedRuns(rs) {
      assert forall i :: 0 <= i < |rest| ==> IsRun(rest[i]) by {
        forall i | 0 <= i < |rest| ensures IsRun(rest[i]) { assert rest[i] == rs[i + 1]; }
      }
      forall i | 0 < i < |rest| ensures IsWhitespace(rest[i - 1][0]) != IsWhitespace(rest[i][0]) {
        assert rest[i - 1] == rs[i] && rest[i] == rs[i + 1];
      }
      if rest != [] {
        assert rs[1] == rest[0];
      }
    }
    if IsRun(x) && WellFormedRuns(rest) && (rest != [] ==> IsWhitespace(x[0]) != IsWhitespace(rest[0][0])) {
      forall i | 0 <= i < |rs| ensures IsRun(rs[i]) {
        if i > 0 { assert rs[i] == rest[i - 1]; }
      }
      forall i | 0 < i < |rs| ensures IsWhitespace(rs[i - 1][0]) != IsWhitespace(rs[i][0]) {
        if i == 1 {
          assert rs[1] == rest[0];
        } else {
          assert rs[i - 1] == rest[i - 2] && rs[i] == rest[i - 1];
        }
      }
    }
  }

  lemma ConcatCons(r: string, rs: seq<string>)
    ensures Concat([r] + rs) == r + Concat(rs)
  {
    assert ([r] + rs)[1..] == rs;
  }

  /** The first run of s is a run, and what follows it starts with the other
      kind of character. */
  lemma FirstRun(s: string)
    requires s != []
    ensures var n := RunLength(s);
            && IsRun(s[..n])
            && (n < |s| ==> IsWhitespace(s[n]) != IsWhitespace(s[0]))
            && s[..n][0] == s[0]
  {
    var n := RunLength(s);
    if IsWhitespace(s[0]) {
      assert IsBlank(s[..n]);
    } else {
      assert NoWhitespace(s[..n]);
    }
  }

  /** The runs of s partition it into alternating maximal runs. */
  lemma RunsPartition(s: string)
    ensures Concat(Runs(s)) == s
    ensures WellFormedRuns(Runs(s))
  {
    RunsCover(s);
    RunsAlternate(s);
  }

  /** Joined back together, the runs of s are s. */
  lemma {:induction false} RunsCover(s: string)
    ensures Concat(Runs(s)) == s
    decreases |s|
  {
    if s != [] {
      var n := RunLength(s);
      var rest := Runs(s[n..]);
      RunsCover(s[n..]);
      assert Runs(s) == [s[..n]] + rest;
      ConcatCons(s[..n], rest);
      assert Concat(Runs(s)) == s[..n] + s[n..];
      assert s[..n] + s[n..] == s;
    }
  }

  /** The runs of s are runs, and neighbouring runs differ in kind. */
  lemma {:induction false} RunsAlternate(s: string)
    ensures WellFormedRuns(Runs(s))
    decreases |s|
  {
    if s != [] {
      var n := RunLength(s);
      var rest := Runs(s[n..]);
      RunsAlternate(s[n..]);
      FirstRun(s);
      assert Runs(s) == [s[..n]] + rest;
      if rest != [] {
        FirstRun(s[n..]);
      }
      WellFormedCons(s[..n], rest);
    }
  }

  /** Tokenizing is determined: alternating runs joined together are cut back
      into exactly the same runs. */
  lemma {:induction false} RunsOfConcat(rs: seq<string>)
    requires WellFormedRuns(rs)
    ensures Runs(Concat(rs)) == rs
  {
    if rs != [] {
      var s := Concat(rs);
      var tail := Concat(rs[1..]);
      assert rs == [rs[0]] + rs[1..];
      ConcatCons(rs[0], rs[1..]);
      WellFormedCons(rs[0], rs[1..]);
      var n := |rs[0]|;
      var ws := IsWhitespace(rs[0][0]);
      assert forall i :: 0 <= i < n ==> s[i] == rs[0][i];
      assert forall i :: 0 <= i < n ==> IsWhitespace(s[i]) == ws;
      if n < |s| {
        assert rs[1..] != [];
        ConcatCons(rs[1], rs[2..]);
        assert rs[1..] == [rs[1]] + rs[2..];
        assert s[n] == rs[1][0];
      }
      assert RunLength(s) == n;
      assert s[..n] == rs[0] && s[n..] == tail;
      RunsOfConcat(rs[1..]);
    }
  }

  // ---------------------------------------------------------------------
  // Transposing a line

  /** One match: transposed when its trimmed text is a valid chord, else copied. */
  function TransposeRun(part: string, fromKey: string, toKey: string): (r: Result<string>)
    ensures IsBlank(part) ==> r == Ok(part)
    ensures r.Err? ==> IsValidChord(Trim(part))
  {
    var chord := Trim(part);
    if IsValidChord(chord) then TransposeChord(chord, fromKey, toKey) else Ok(part)
  }

  /** A run never fails for want of a key marker. */
  lemma RunNeverMissesKey(part: string, fromKey: string, toKey: string)
    ensures TransposeRun(part, fromKey, toKey) != Err(NoKeyInContent)
  {
    TransposeChordErrors(Trim(part), fromKey, toKey);
  }

  /** The outcome of every run, in order. */
  function TransposeRuns(rs: seq<string>, fromKey: string, toKey: string): (r: seq<Result<string>>)
    ensures |r| == |rs| && forall i :: 0 <= i < |rs| ==> r[i] == TransposeRun(rs[i], fromKey, toKey)
  {
    if rs == [] then []
    else
      var r := [TransposeRun(rs[0], fromKey, toKey)] + TransposeRuns(rs[1..], fromKey, toKey);
      assert forall i :: 1 <= i < |rs| ==> rs[i] == rs[1..][i - 1];
      r
  }

  /** p put in front of a successful result. */
  function Prefixed(p: string, r: Result<string>): Result<string>
  {
    if r.Ok? then Ok(p + r.value) else r
  }

  /** The pieces joined together, or the first failure among them. */
  function Assemble(results: seq<Result<string>>): Result<string>
  {
    match Collect(results)
    case Err(e) => Err(e)
    case Ok(parts) => Ok(Concat(parts))
  }

  lemma AssembleCons(first: Result<string>, rest: seq<Result<string>>)
    ensures Assemble([first] + rest) == if first.Err? then first else Prefixed(first.value, Assemble(rest))
  {
    var all := [first] + rest;
    assert all[0] == first && all[1..] == rest;
    var c := Collect(rest);
    if first.Ok? && c.Ok? {
      assert Collect(all).value == [first.value] + c.value;
      ConcatCons(first.value, c.value);
    }
  }

  /** The line processChordLine returns, or the exception it ends with: the
      first run that fails aborts the line. */
  function TransposeLine(line: string, fromKey: string, toKey: string): Result<string>
  {
    Assemble(TransposeRuns(Runs(line), fromKey, toKey))
  }

  /** Transposing a line is transposing its first run, then the rest. */
  lemma TransposeLineStep(s: string, fromKey: string, toKey: string)
    requires s != []
    ensures var n := RunLength(s);
            var first := TransposeRun(s[..n], fromKey, toKey);
            TransposeLine(s, fromKey, toKey)
              == if first.Err? then first else Prefixed(first.value, TransposeLine(s[n..], fromKey, toKey))
  {
    var n := RunLength(s);
    var rs := [s[..n]] + Runs(s[n..]);
    assert Runs(s) == rs;
    assert rs[0] == s[..n] && rs[1..] == Runs(s[n..]);
    AssembleCons(TransposeRun(s[..n], fromKey, toKey), TransposeRuns(Runs(s[n..]), fromKey, toKey));
  }

  /** Scanning from i to the first change of kind finds the run at i. */
  lemma RunAt(line: string, i: int, j: int)
    requires 0 <= i < j <= |line|
    requires forall k :: i <= k < j ==> IsWhitespace(line[k]) == IsWhitespace(line[i])
    requires j < |line| ==> IsWhitespace(line[j]) != IsWhitespace(line[i])
    ensures RunLength(line[i..]) == j - i
    ensures line[i..][..j - i] == line[i..j] && line[i..][j - i..] == line[j..]
  {
    var s := line[i..];
    var ws := IsWhitespace(line[i]);
    assert forall k :: 0 <= k < j - i ==> IsWhitespace(s[k]) == ws;
    assert j - i < |s| ==> IsWhitespace(s[j - i]) != ws;
  }

  /** The step of TransposeLineStep, for the run line[i..j] found by scanning. */
  lemma TransposeLineAt(line: string, i: int, j: int, fromKey: string, toKey: string)
    requires 0 <= i < j <= |line|
    requires forall k :: i <= k < j ==> IsWhitespace(line[k]) == IsWhitespace(line[i])
    requires j < |line| ==> IsWhitespace(line[j]) != IsWhitespace(line[i])
    ensures var first := TransposeRun(line[i..j], fromKey, toKey);
            TransposeLine(line[i..], fromKey, toKey)
              == if first.Err? then first else Prefixed(first.value, TransposeLine(line[j..], fromKey, toKey))
  {
    RunAt(line, i, j);
    var s := line[i..];
    var n := RunLength(s);
    assert s[..n] == line[i..j] && s[n..] == line[j..];
    TransposeLineStep(s, fromKey, toKey);
  }

  /** The loop step of ProcessChordLine: appending the outcome of the run
      line[i..j] keeps the line's result equal to what is built so far followed
      by the rest, or the run's failure is the line's failure. */
  lemma ScanStep(line: string, i: int, j: int, fromKey: string, toKey: string, built: string)
    requires 0 <= i < j <= |line|
    requires forall k :: i <= k < j ==> IsWhitespace(line[k]) == IsWhitespace(line[i])
    requires j < |line| ==> IsWhitespace(line[j]) != IsWhitespace(line[i])
    requires TransposeLine(line, fromKey, toKey) == Prefixed(built, TransposeLine(line[i..], fromKey, toKey))
    ensures var t := TransposeRun(line[i..j], fromKey, toKey);
            if t.Err? then TransposeLine(line, fromKey, toKey) == t
            else TransposeLine(line, fromKey, toKey) == Prefixed(built + t.value, TransposeLine(line[j..], fromKey, toKey))
  {
    TransposeLineAt(line, i, j, fromKey, toKey);
    var t := TransposeRun(line[i..j], fromKey, toKey);
    if t.Ok? {
      PrefixedTwice(built, t.value, TransposeLine(line[j..], fromKey, toKey));
    }
  }

  /** An empty line transposes to itself. */
  lemma TransposeEmptyLine(fromKey: string, toKey: string)
    ensures TransposeLine("", fromKey, toKey) == Ok("")
  {
    assert Runs("") == [];
  }

  /** One matcher.find() of (\s+)|(\S+) from position i: the end of the
      maximal run that starts at i. */
  method MatchEnd(line: string, i: int) returns (j: int)
    requires 0 <= i < |line|
    ensures i < j <= |line|
    ensures forall k :: i <= k < j ==> IsWhitespace(line[k]) == IsWhitespace(line[i])
    ensures j < |line| ==> IsWhitespace(line[j]) != IsWhitespace(line[i])
  {
    var ws := IsWhitespace(line[i]);
    j := i + 1;
    while j < |line| && IsWhitespace(line[j]) == ws
      invariant i < j <= |line|
      invariant forall k :: i <= k < j ==> IsWhitespace(line[k]) == ws
      decreases |line| - j
    {
      j := j + 1;
    }
  }

  /** processChordLine: scans the line match by match and appends each match
      as TransposeRun gives it; the first failing match ends the call. */
  method ProcessChordLine(line: string, fromKey: string, toKey: string) returns (r: Result<string>)
    ensures r == TransposeLine(line, fromKey, toKey)
  {
    var result := "";
    var i := 0;
    PrefixedEmpty(TransposeLine(line, fromKey, toKey));
    assert line[i..] == line;
    while i < |line|
      invariant 0 <= i <= |line|
      invariant TransposeLine(line, fromKey, toKey) == Prefixed(result, TransposeLine(line[i..], fromKey, toKey))
      decreases |line| - i
    {
      var j := MatchEnd(line, i);
      ScanStep(line, i, j, fromKey, toKey, result);
      var t := TransposeRun(line[i..j], fromKey, toKey);
      if t.Err? {
        return t;
      }
      result := result + t.value;
      i := j;
    }
    assert line[i..] == "";
    TransposeEmptyLine(fromKey, toKey);
    assert result + "" == result;
    r := Ok(result);
  }

  lemma PrefixedEmpty(r: Result<string>)
    ensures Prefixed("", r) == r
  {
    if r.Ok? {
      assert "" + r.value == r.value;
    }
  }

  lemma PrefixedTwice(p: string, q: string, r: Result<string>)
    ensures Prefixed(p, Prefixed(q, r)) == Prefixed(p + q, r)
  {
    if r.Ok? {
      assert p + (q + r.value) == (p + q) + r.value;
    }
  }

  // ---------------------------------------------------------------------
  // Properties of a transposed line

  /** A line none of whose runs is a valid chord comes back unchanged, whatever
      the keys (the keys are only checked when a chord is transposed). */
  lemma LineWithoutChordsUnchanged(line: string, fromKey: string, toKey: string)
    requires forall i :: 0 <= i < |Runs(line)| ==> !IsValidChord(Trim(Runs(line)[i]))
    ensures TransposeLine(line, fromKey, toKey) == Ok(line)
  {
    var rs := Runs(line);
    RunsPartition(line);
    var out := Collect(TransposeRuns(rs, fromKey, toKey));
    assert out.Ok? && out.value == rs;
  }

  /** One run, transposed and transposed back, is itself again; it stays a run
      of the same kind. */
  lemma RunRoundTrip(run: string, k1: string, k2: string)
    requires k1 in KeyMap && k2 in KeyMap && IsRun(run)
    requires TransposeRun(run, k1, k2).Ok?
    ensures var out := TransposeRun(run, k1, k2).value;
            && IsRun(out)
            && IsWhitespace(out[0]) == IsWhitespace(run[0])
            && TransposeRun(out, k2, k1) == Ok(run)
  {
    if !IsBlank(run) {
      assert NoWhitespace(run);
      assert Trim(run) == run;
      if IsValidChord(run) {
        ChordRunRoundTrip(run, k1, k2);
      }
    }
  }

  /** A run that is a whole valid chord transposes to another such run, which
      transposes back to it. */
  lemma ChordRunRoundTrip(run: string, k1: string, k2: string)
    requires k1 in KeyMap && k2 in KeyMap && IsValidChord(run)
    requires TransposeChord(run, k1, k2).Ok?
    ensures var c := TransposeChord(run, k1, k2).value;
            && IsRun(c) && !IsWhitespace(c[0])
            && TransposeRun(c, k2, k1) == Ok(run)
  {
    var c := TransposeChord(run, k1, k2).value;
    ValidChordRoundTrip(run, k1, k2);
    ValidChordHasNoWhitespace(c);
    assert Trim(c) == c;
  }

  /** Run by run: transposed runs still alternate, and each transposes back. */
  lemma RunsRoundTrip(rs: seq<string>, outs: seq<string>, k1: string, k2: string)
    requires k1 in KeyMap && k2 in KeyMap && WellFormedRuns(rs) && |outs| == |rs|
    requires forall i :: 0 <= i < |rs| ==> TransposeRun(rs[i], k1, k2) == Ok(outs[i])
    ensures WellFormedRuns(outs)
    ensures forall i :: 0 <= i < |rs| ==> TransposeRun(outs[i], k2, k1) == Ok(rs[i])
  {
    forall i | 0 <= i < |rs|
      ensures IsRun(outs[i]) && IsWhitespace(outs[i][0]) == IsWhitespace(rs[i][0])
      ensures TransposeRun(outs[i], k2, k1) == Ok(rs[i])
    {
      RunRoundTrip(rs[i], k1, k2);
    }
  }

  /** A line transposed from one key to another and back is the line itself. */
  lemma TransposeLineRoundTrip(line: string, k1: string, k2: string)
    requires k1 in KeyMap && k2 in KeyMap
    requires TransposeLine(line, k1, k2).Ok?
    ensures TransposeLine(TransposeLine(line, k1, k2).value, k2, k1) == Ok(line)
  {
    var rs := Runs(line);
    RunsPartition(line);
    var outs := Collect(TransposeRuns(rs, k1, k2)).value;
    RunsRoundTrip(rs, outs, k1, k2);
    RunsOfConcat(outs);
    var back := Collect(TransposeRuns(outs, k2, k1));
    assert back.Ok? && back.value == rs;
  }

  /** Transposing a line to its own key either fails or changes nothing. */
  lemma TransposeLineSameKey(line: string, key: string)
    requires key in KeyMap
    ensures TransposeLine(line, key, key).Ok? ==> TransposeLine(line, key, key) == Ok(line)
  {
    var rs := Runs(line);
    RunsPartition(line);
    var out := Collect(TransposeRuns(rs, key, key));
    if out.Ok? {
      forall i | 0 <= i < |rs| ensures out.value[i] == rs[i] {
        if !IsBlank(rs[i]) {
          assert Trim(rs[i]) == rs[i];
          if IsValidChord(rs[i]) {
            ValidChordSameKey(rs[i], key);
          }
        }
      }
      assert out.value == rs;
    }
  }

  /** A line that transposes is the concatenation of its runs' outcomes: a run
      whose trimmed text is not a valid chord is copied as it is, and a run
      whose trimmed text is a valid chord is replaced by that chord's
      transposition. */
  lemma TransposeLineRuns(line: string, k1: string, k2: string)
    requires TransposeLine(line, k1, k2).Ok?
    ensures var rs := Runs(line);
            var outs := Collect(TransposeRuns(rs, k1, k2)).value;
            && |outs| == |rs|
            && TransposeLine(line, k1, k2).value == Concat(outs)
            && (forall i :: 0 <= i < |rs| && !IsValidChord(Trim(rs[i])) ==> outs[i] == rs[i])
            && (forall i :: 0 <= i < |rs| && IsValidChord(Trim(rs[i])) ==>
                  TransposeChord(Trim(rs[i]), k1, k2) == Ok(outs[i]))
  {
    var rs := Runs(line);
    var results := TransposeRuns(rs, k1, k2);
    assert Collect(results).Ok?;
  }

  /** The chord of degree d of the scale of k1, as a run of its own, becomes the
      chord of degree d of the scale of k2. */
  lemma DegreeRun(k1: string, k2: string, d: int)
    requires k1 in KeyMap && k2 in KeyMap && 0 <= d < 7
    ensures TransposeRun(KeyMap[k1][d], k1, k2) == Ok(KeyMap[k2][d])
  {
    DegreeChordIsValid(k1, d);
    ValidChordHasNoWhitespace(KeyMap[k1][d]);
    TransposeAtDegree(k1, k2, d);
  }

  /** A line of scale chords of k1 separated by whitespace becomes the line of
      the same degrees in k2, with the whitespace kept: rs are the line's runs,
      d[i] the degree of the chord run rs[i], and outs the expected runs. */
  lemma DegreeLine(rs: seq<string>, d: seq<int>, outs: seq<string>, k1: string, k2: string)
    requires k1 in KeyMap && k2 in KeyMap && WellFormedRuns(rs)
    requires |d| == |rs| && |outs| == |rs|
    requires forall i :: 0 <= i < |rs| ==>
               || (IsBlank(rs[i]) && outs[i] == rs[i])
               || (0 <= d[i] < 7 && rs[i] == KeyMap[k1][d[i]] && outs[i] == KeyMap[k2][d[i]])
    ensures TransposeLine(Concat(rs), k1, k2) == Ok(Concat(outs))
  {
    RunsOfConcat(rs);
    DegreeRuns(rs, d, outs, k1, k2);
    var results := TransposeRuns(rs, k1, k2);
    assert forall i :: 0 <= i < |rs| ==> results[i] == Ok(outs[i]);
    assert Collect(results).value == outs;
  }

  /** Each run of such a line transposes to its expected run. */
  lemma DegreeRuns(rs: seq<string>, d: seq<int>, outs: seq<string>, k1: string, k2: string)
    requires k1 in KeyMap && k2 in KeyMap
    requires |d| == |rs| && |outs| == |rs|
    requires forall i :: 0 <= i < |rs| ==>
               || (IsBlank(rs[i]) && outs[i] == rs[i])
               || (0 <= d[i] < 7 && rs[i] == KeyMap[k1][d[i]] && outs[i] == KeyMap[k2][d[i]])
    ensures forall i :: 0 <= i < |rs| ==> TransposeRun(rs[i], k1, k2) == Ok(outs[i])
  {
    forall i | 0 <= i < |rs|
      ensures TransposeRun(rs[i], k1, k2) == Ok(outs[i])
    {
      BlankOrDegreeRun(rs[i], d[i], outs[i], k1, k2);
    }
  }

  /** One run of such a line: whitespace is kept, a chord moves by degree. */
  lemma BlankOrDegreeRun(run: string, d: int, out: string, k1: string, k2: string)
    requires k1 in KeyMap && k2 in KeyMap
    requires || (IsBlank(run) && out == run)
             || (0 <= d < 7 && run == KeyMap[k1][d] && out == KeyMap[k2][d])
    ensures TransposeRun(run, k1, k2) == Ok(out)
  {
    if IsBlank(run) {
      assert TransposeRun(run, k1, k2) == Ok(run);
    } else {
      DegreeRun(k1, k2, d);
    }
  }
}

/** The worked line of the unit tests for processChordLine. */
module LineTransposerExamples {
  import opened KeyTable
  import opened ChordSyntax
  import opened Transposer
  import opened LineTransposer

  /** "C G Am F" from C to D is "D A Bm G", spacing kept. */
  lemma TransposeLineExample(line: string, out: string)
    requires line == "C G Am F" && out == "D A Bm G"
    ensures TransposeLine(line, "C", "D") == Ok(out)
  {
    var rs: seq<string> :| rs == ["C", " ", "G", " ", "Am", " ", "F"];
    var outs: seq<string> :| outs == ["D", " ", "A", " ", "Bm", " ", "G"];
    ExampleConcat();
    ExampleRuns(rs, outs);
  }

  /** The example's runs joined together are the test's two lines. */
  lemma ExampleConcat()
    ensures Concat(["C", " ", "G", " ", "Am", " ", "F"]) == "C G Am F"
    ensures Concat(["D", " ", "A", " ", "Bm", " ", "G"]) == "D A Bm G"
  {
    ConcatSeven("C", " ", "G", " ", "Am", " ", "F");
    ConcatSeven("D", " ", "A", " ", "Bm", " ", "G");
  }

  /** Seven pieces joined together. */
  lemma ConcatSeven(a: string, b: string, c: string, d: string, e: string, f: string, g: string)
    ensures Concat([a, b, c, d, e, f, g]) == a + b + c + d + e + f + g
  {
    ConcatCons(g, []);
    ConcatCons(f, [g]);
    ConcatCons(e, [f, g]);
    ConcatCons(d, [e, f, g]);
    ConcatCons(c, [d, e, f, g]);
    ConcatCons(b, [c, d, e, f, g]);
    ConcatCons(a, [b, c, d, e, f, g]);
  }

  /** The runs of that line, one scale chord or one space each, and the runs
      they become. */
  lemma ExampleRuns(rs: seq<string>, outs: seq<string>)
    requires rs == ["C", " ", "G", " ", "Am", " ", "F"]
    requires outs == ["D", " ", "A", " ", "Bm", " ", "G"]
    ensures TransposeLine(Concat(rs), "C", "D") == Ok(Concat(outs))
  {
    var d := [0, 0, 4, 0, 5, 0, 3];
    ExampleRunsAlternate(rs);
    ExampleDegrees(rs, d, outs);
    DegreeLine(rs, d, outs, "C", "D");
  }

  /** The runs of the example alternate between chords and spaces. */
  lemma ExampleRunsAlternate(rs: seq<string>)
    requires rs == ["C", " ", "G", " ", "Am", " ", "F"]
    ensures WellFormedRuns(rs)
  {
    assert forall i :: 0 <= i < |rs| ==> IsRun(rs[i]);
  }

  /** Each run of the example is a space, kept, or the chord of degree d[i] in
      C, which becomes the chord of degree d[i] in D. */
  lemma ExampleDegrees(rs: seq<string>, d: seq<int>, outs: seq<string>)
    requires rs == ["C", " ", "G", " ", "Am", " ", "F"]
    requires d == [0, 0, 4, 0, 5, 0, 3]
    requires outs == ["D", " ", "A", " ", "Bm", " ", "G"]
    ensures forall i :: 0 <= i < |rs| ==>
              || (IsBlank(rs[i]) && outs[i] == rs[i])
              || (0 <= d[i] < 7 && rs[i] == KeyMap["C"][d[i]] && outs[i] == KeyMap["D"][d[i]])
  {
    var c := KeyMap["C"];
    var t := KeyMap["D"];
    assert c[0] == "C" && c[4] == "G" && c[5] == "Am" && c[3] == "F";
    assert t[0] == "D" && t[4] == "A" && t[5] == "Bm" && t[3] == "G";
    assert IsBlank(" ");
  }
}
