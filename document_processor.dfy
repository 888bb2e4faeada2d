/** processContent of ChordProgressionHandler: the source key is the first key
    detectKey finds in the text; then every line mentioning "key" is replaced
    by the target key's marker, every chord line is transposed, and every other
    line is copied. */
module DocumentProcessor {
  import opened KeyTable
  import opened ChordSyntax
  import opened Transposer
  import opened LineTransposer

  /** detectKey applied to every line (the map step). */
  function DetectedKeys(content: seq<string>): (found: seq<Option<string>>)
    ensures |found| == |content| && forall i :: 0 <= i < |content| ==> found[i] == DetectKey(content[i])
  {
    seq(|content|, i requires 0 <= i < |content| => DetectKey(content[i]))
  }

  /** The first present value, or None (filter(nonNull).findFirst()). */
  function FirstFound(found: seq<Option<string>>): (r: Option<string>)
    ensures r.None? <==> forall i :: 0 <= i < |found| ==> found[i].None?
    ensures r.Some? ==>
              exists i :: 0 <= i < |found| && found[i] == r && forall j :: 0 <= j < i ==> found[j].None?
  {
    if found == [] then None
    else if found[0].Some? then found[0]
    else
      var r := FirstFound(found[1..]);
      assert forall i :: 1 <= i < |found| ==> found[i] == found[1..][i - 1];
      assert forall i :: 0 <= i < |found[1..]| ==> found[1..][i] == found[i + 1];
      r
  }

  /** The source key: the first key detectKey finds, line by line. */
  function DetectSourceKey(content: seq<string>): (r: Option<string>)
    ensures r.None? <==> forall i :: 0 <= i < |content| ==> DetectKey(content[i]).None?
    ensures r.Some? ==> r.value in KeyMap
  {
    var found := DetectedKeys(content);
    var r := FirstFound(found);
    assert r.Some? ==> exists i :: 0 <= i < |found| && found[i] == r;
    r
  }

  /** The source key is the key of the first line where detectKey finds one:
      every earlier line has none. */
  lemma DetectSourceKeyIsFirst(content: seq<string>)
    requires DetectSourceKey(content).Some?
    ensures exists i ::
              && 0 <= i < |content|
              && DetectKey(content[i]) == DetectSourceKey(content)
              && forall j :: 0 <= j < i ==> DetectKey(content[j]).None?
  {
    var found := DetectedKeys(content);
    var i :| 0 <= i < |found| && found[i] == FirstFound(found) && forall j :: 0 <= j < i ==> found[j].None?;
    assert DetectKey(content[i]) == DetectSourceKey(content);
  }

  /** What the mapping step of processContent makes of one line. */
  function ProcessLine(line: string, sourceKey: string, targetKey: string): (r: Result<string>)
    ensures MentionsKey(line) ==> r == Ok(targetKey + " key")
    ensures !MentionsKey(line) && !IsChordLine(line) ==> r == Ok(line)
    ensures r.Err? ==> !MentionsKey(line) && IsChordLine(line)
  {
    if MentionsKey(line) then Ok(targetKey + " key")
    else if IsChordLine(line) then TransposeLine(line, sourceKey, targetKey)
    else Ok(line)
  }

  /** The outcome of every line, in order. */
  function ProcessLines(lines: seq<string>, sourceKey: string, targetKey: string): (r: seq<Result<string>>)
    ensures |r| == |lines| && forall i :: 0 <= i < |lines| ==> r[i] == ProcessLine(lines[i], sourceKey, targetKey)
  {
    if lines == [] then []
    else
      var r := [ProcessLine(lines[0], sourceKey, targetKey)] + ProcessLines(lines[1..], sourceKey, targetKey);
      assert forall i :: 1 <= i < |lines| ==> lines[i] == lines[1..][i - 1];
      r
  }


  /** processContent(content, targetKey). The target key is not checked here:
      an unknown target surfaces only when a chord line is transposed. */
  function ProcessContent(content: seq<string>, targetKey: string): (r: Result<seq<string>>)
    ensures DetectSourceKey(content).None? ==> r == Err(NoKeyInContent)
    ensures r.Ok? ==>
              && |r.value| == |content|
              && forall i :: 0 <= i < |content| ==>
                   Ok(r.value[i]) == ProcessLine(content[i], DetectSourceKey(content).value, targetKey)
    ensures r.Err? && DetectSourceKey(content).Some? ==>
              exists i ::
                && 0 <= i < |content|
                && ProcessLine(content[i], DetectSourceKey(content).value, targetKey) == Err(r.error)
                && forall j :: 0 <= j < i ==> ProcessLine(content[j], DetectSourceKey(content).value, targetKey).Ok?
  {
    match DetectSourceKey(content)
    case None => Err(NoKeyInContent)
    case Some(sourceKey) => Collect(ProcessLines(content, sourceKey, targetKey))
  }

  /** Transposing a line never reports a missing key marker: that error is
      raised by processContent alone. */
  lemma NoKeyErrorOnlyFromContent(line: string, sourceKey: string, targetKey: string)
    ensures ProcessLine(line, sourceKey, targetKey) != Err(NoKeyInContent)
  {
    if !MentionsKey(line) && IsChordLine(line) {
      var rs := Runs(line);
      var results := TransposeRuns(rs, sourceKey, targetKey);
      var c := Collect(results);
      if c.Err? {
        var i :| 0 <= i < |results| && results[i] == Err(c.error);
        RunNeverMissesKey(rs[i], sourceKey, targetKey);
      }
    }
  }

  /** processContent fails with "No key specified in content" exactly when no
      line has a detectable key. */
  lemma NoKeyInContentIff(content: seq<string>, targetKey: string)
    ensures ProcessContent(content, targetKey) == Err(NoKeyInContent)
            <==> forall i :: 0 <= i < |content| ==> DetectKey(content[i]).None?
  {
    var r := ProcessContent(content, targetKey);
    if r.Err? && DetectSourceKey(content).Some? {
      var i :| 0 <= i < |content| && ProcessLine(content[i], DetectSourceKey(content).value, targetKey) == Err(r.error);
      NoKeyErrorOnlyFromContent(content[i], DetectSourceKey(content).value, targetKey);
    }
  }

  /** A line without the marker, processed with its own key as target, is
      copied or fails. */
  lemma ProcessLineSameKey(line: string, key: string)
    requires key in KeyMap && !MentionsKey(line)
    ensures ProcessLine(line, key, key).Ok? ==> ProcessLine(line, key, key) == Ok(line)
  {
    TransposeLineSameKey(line, key);
  }

  /** Mapped with one key as both source and target, the lines without the
      marker are copied. */
  lemma ProcessLinesSameKey(lines: seq<string>, key: string)
    requires key in KeyMap
    requires Collect(ProcessLines(lines, key, key)).Ok?
    ensures forall i :: 0 <= i < |lines| && !MentionsKey(lines[i]) ==>
              Collect(ProcessLines(lines, key, key)).value[i] == lines[i]
  {
    var out := Collect(ProcessLines(lines, key, key)).value;
    forall i | 0 <= i < |lines| && !MentionsKey(lines[i])
      ensures out[i] == lines[i]
    {
      ProcessLineSameKey(lines[i], key);
    }
  }

  /** Mapped from one key to another, every chord line without the marker
      transposes back to itself. */
  lemma ProcessLinesRoundTrip(lines: seq<string>, sourceKey: string, targetKey: string)
    requires sourceKey in KeyMap && targetKey in KeyMap
    requires Collect(ProcessLines(lines, sourceKey, targetKey)).Ok?
    ensures var out := Collect(ProcessLines(lines, sourceKey, targetKey)).value;
            forall i :: 0 <= i < |lines| && !MentionsKey(lines[i]) && IsChordLine(lines[i]) ==>
              TransposeLine(out[i], targetKey, sourceKey) == Ok(lines[i])
  {
    var out := Collect(ProcessLines(lines, sourceKey, targetKey)).value;
    forall i | 0 <= i < |lines| && !MentionsKey(lines[i]) && IsChordLine(lines[i])
      ensures TransposeLine(out[i], targetKey, sourceKey) == Ok(lines[i])
    {
      TransposeLineRoundTrip(lines[i], sourceKey, targetKey);
    }
  }

  /** The source key of the unit test's text is C. */
  lemma ExampleSourceKey()
    ensures DetectSourceKey(["key: C", "This is a lyric line"]) == Some("C")
  {
    DetectKeyExamples();
  }

  /** The marker line of the unit test's text becomes "D key". */
  lemma ExampleMarkerLine()
    ensures ProcessLine("key: C", "C", "D") == Ok("D key")
  {
    assert MentionsKey("key: C") by { assert OccursAt(ToLower("key: C"), "key", 0); }
    assert "D" + " key" == "D key";
  }

  /** The lyric line of the unit test's text is copied. */
  lemma ExampleLyricLine()
    ensures ProcessLine("This is a lyric line", "C", "D") == Ok("This is a lyric line")
  {
    assert !MentionsKey("This is a lyric line") by {
      var l := ToLower("This is a lyric line");
      forall i: nat ensures !OccursAt(l, "key", i) {
        if i + 3 <= |l| { assert l[i..i + 3][0] == l[i] && l[i..i + 3][1] == l[i + 1]; }
      }
    }
    LyricLineIsNotChordLine();
  }

  /** The unit test's text: the marker line becomes "D key" and the lyric line
      is copied. */
  lemma ProcessContentExample()
    ensures ProcessContent(["key: C", "This is a lyric line"], "D") == Ok(["D key", "This is a lyric line"])
  {
    var content := ["key: C", "This is a lyric line"];
    ExampleSourceKey();
    ExampleMarkerLine();
    ExampleLyricLine();
    var results := ProcessLines(content, "C", "D");
    assert results == [Ok("D key"), Ok("This is a lyric line")];
    var c := Collect(results);
    assert c.Ok? && c.value == ["D key", "This is a lyric line"];
  }
}
