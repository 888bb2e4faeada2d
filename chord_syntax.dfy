/** Character classes, the strict chord grammar (isValidChord) and the two line
    predicates (isChordLine, detectKey) of ChordProgressionHandler. */
module ChordSyntax {
  import opened KeyTable

  datatype Option<T> = None | Some(value: T)

  /** The whitespace set of Java's regex class \s. Lines are taken to hold no
      other control or Unicode space characters, so this set also agrees with
      Character.isWhitespace and with what String.trim removes. */
  predicate IsWhitespace(c: char)
  {
    c == ' ' || c == '\t' || c == '\n' || c == '\U{000B}' || c == '\U{000C}' || c == '\r'
  }

  /** Every character is whitespace (String.trim().isEmpty()). */
  predicate IsBlank(s: string)
  {
    forall i :: 0 <= i < |s| ==> IsWhitespace(s[i])
  }

  /** No character is whitespace. */
  predicate NoWhitespace(s: string)
  {
    forall i :: 0 <= i < |s| ==> !IsWhitespace(s[i])
  }

  /** s without its leading whitespace. */
  function TrimStart(s: string): string
  {
    if s != [] && IsWhitespace(s[0]) then TrimStart(s[1..]) else s
  }

  /** TrimStart drops a blank prefix and stops at the first other character. */
  lemma {:induction false} TrimStartShape(s: string)
    ensures var r := TrimStart(s);
            && |r| <= |s| && r == s[|s| - |r|..]
            && IsBlank(s[..|s| - |r|])
            && (r == [] || !IsWhitespace(r[0]))
  {
    if s != [] && IsWhitespace(s[0]) {
      var r := TrimStart(s[1..]);
      TrimStartShape(s[1..]);
      assert s[1..][..|s| - 1 - |r|] == s[1..|s| - |r|];
      assert forall k :: 1 <= k < |s| - |r| ==> s[k] == s[1..][..|s| - 1 - |r|][k - 1];
    }
  }

  /** s without its trailing whitespace. */
  function TrimEnd(s: string): string
  {
    if s != [] && IsWhitespace(s[|s| - 1]) then TrimEnd(s[..|s| - 1]) else s
  }

  /** TrimEnd drops a blank suffix and stops at the last other character. */
  lemma {:induction false} TrimEndShape(s: string)
    ensures var r := TrimEnd(s);
            && |r| <= |s| && r == s[..|r|]
            && IsBlank(s[|r|..])
            && (r == [] || !IsWhitespace(r[|r| - 1]))
  {
    if s != [] && IsWhitespace(s[|s| - 1]) {
      var t := s[..|s| - 1];
      var r := TrimEnd(t);
      TrimEndShape(t);
      assert s[|r|..] == t[|r|..] + [s[|s| - 1]];
      forall k | |r| <= k < |s|
        ensures IsWhitespace(s[k])
      {
        if k < |s| - 1 { assert s[k] == t[|r|..][k - |r|]; }
      }
    }
  }

  /** String.trim: both ends stripped of whitespace. */
  function Trim(s: string): (r: string)
    ensures IsBlank(s) <==> r == []
    ensures NoWhitespace(s) ==> r == s
    ensures r == [] || (!IsWhitespace(r[0]) && !IsWhitespace(r[|r| - 1]))
  {
    var t := TrimStart(s);
    var r := TrimEnd(t);
    TrimStartShape(s);
    TrimEndShape(t);
    assert r == [] ==> t == [];
    assert t == [] ==> s[..|s| - |t|] == s;
    assert r != [] ==> r[0] == t[0];
    r
  }

  // ---------------------------------------------------------------------
  // The chord grammar  [A-G][#b]?(m|maj|dim)?[0-9]?(/[A-G][#b]?)?

  predicate IsNoteLetter(c: char) { 'A' <= c <= 'G' }

  predicate IsDigit(c: char) { '0' <= c <= '9' }

  /** A note name: a letter A to G and an optional sharp or flat. */
  datatype Note = Note(letter: char, accidental: string)
  {
    predicate WellFormed()
    {
      IsNoteLetter(letter) && accidental in {"", "#", "b"}
    }

    function Spelling(): string
    {
      [letter] + accidental
    }
  }

  /** A chord symbol as the grammar reads it: root note, optional quality,
      optional single digit, optional bass note after a slash. */
  datatype ChordSymbol = ChordSymbol(root: Note, quality: string, digit: string, bass: Option<Note>)
  {
    predicate WellFormed()
    {
      && root.WellFormed()
      && quality in {"", "m", "maj", "dim"}
      && (digit == [] || (|digit| == 1 && IsDigit(digit[0])))
      && (bass.Some? ==> bass.value.WellFormed())
    }

    function Spelling(): string
    {
      root.Spelling() + quality + digit + BassSpelling(bass)
    }
  }

  function BassSpelling(bass: Option<Note>): string
  {
    if bass.Some? then "/" + bass.value.Spelling() else ""
  }

  /** Splits off an optional leading sharp or flat. */
  function SplitAccidental(s: string): (r: (string, string))
    ensures r.0 + r.1 == s && r.0 in {"", "#", "b"}
  {
    if s != [] && (s[0] == '#' || s[0] == 'b') then ([s[0]], s[1..]) else ("", s)
  }

  /** Splits off an optional quality; "maj" is tried before "m". */
  function SplitQuality(s: string): (r: (string, string))
    ensures r.0 + r.1 == s && r.0 in {"", "m", "maj", "dim"}
  {
    if |s| >= 3 && s[..3] == "maj" then ("maj", s[3..])
    else if |s| >= 3 && s[..3] == "dim" then ("dim", s[3..])
    else if |s| >= 1 && s[0] == 'm' then ("m", s[1..])
    else ("", s)
  }

  /** Splits off an optional single digit. */
  function SplitDigit(s: string): (r: (string, string))
    ensures r.0 + r.1 == s && (r.0 == [] || (|r.0| == 1 && IsDigit(r.0[0])))
  {
    if s != [] && IsDigit(s[0]) then ([s[0]], s[1..]) else ("", s)
  }

  /** Reads a note at the front of s, returning it and the rest of s. */
  function ParseNote(s: string): (r: Option<(Note, string)>)
    ensures r.Some? ==> r.value.0.WellFormed() && r.value.0.Spelling() + r.value.1 == s
  {
    if s != [] && IsNoteLetter(s[0]) then
      var (acc, rest) := SplitAccidental(s[1..]);
      assert [s[0]] + acc + rest == s;
      Some((Note(s[0], acc), rest))
    else None
  }

  /** Reads the optional "/note" tail, which must end the string. */
  function ParseBass(s: string): (r: Option<Option<Note>>)
    ensures r.Some? ==> (r.value.Some? ==> r.value.value.WellFormed()) && BassSpelling(r.value) == s
  {
    if s == [] then Some(None)
    else if s[0] == '/' then
      match ParseNote(s[1..])
      case Some((note, rest)) =>
        if rest == [] then
          assert "/" + note.Spelling() == s;
          Some(Some(note))
        else None
      case None => None
    else None
  }

  /** A deterministic left-to-right recognizer for the chord grammar; it
      returns the parts it read (soundness is its contract, completeness is
      ParseSpelling below). */
  function ParseChord(s: string): (r: Option<ChordSymbol>)
    ensures r.Some? ==> r.value.WellFormed() && r.value.Spelling() == s
  {
    match ParseNote(s)
    case None => None
    case Some((root, s1)) =>
      var (quality, s2) := SplitQuality(s1);
      var (digit, s3) := SplitDigit(s2);
      match ParseBass(s3)
      case None => None
      case Some(bass) =>
        calc {
          root.Spelling() + quality + digit + BassSpelling(bass);
          { AppendAssoc(root.Spelling() + quality, digit, s3); }
          root.Spelling() + quality + s2;
          { AppendAssoc(root.Spelling(), quality, s2); }
          root.Spelling() + s1;
        }
        Some(ChordSymbol(root, quality, digit, bass))
  }

  lemma AppendAssoc(a: string, b: string, c: string)
    ensures a + b + c == a + (b + c)
  {
  }

  /** isValidChord: not blank and matching the whole chord pattern. */
  predicate IsValidChord(chord: string)
  {
    !IsBlank(chord) && ParseChord(chord).Some?
  }

  lemma SplitAccidentalOf(acc: string, rest: string)
    requires acc in {"", "#", "b"}
    requires rest == [] || (rest[0] != '#' && rest[0] != 'b')
    ensures SplitAccidental(acc + rest) == (acc, rest)
  {
    if acc != "" {
      assert (acc + rest)[1..] == rest;
    } else {
      assert acc + rest == rest;
    }
  }

  lemma SplitQualityOf(quality: string, rest: string)
    requires quality in {"", "m", "maj", "dim"}
    requires rest == [] || IsDigit(rest[0]) || rest[0] == '/'
    ensures SplitQuality(quality + rest) == (quality, rest)
  {
    var s := quality + rest;
    if quality == "maj" || quality == "dim" {
      assert s[..3] == quality && s[3..] == rest;
    } else if quality == "m" {
      assert s[1..] == rest;
      assert |s| >= 3 ==> s[..3] != "maj" && s[..3] != "dim" by {
        if |s| >= 3 { assert s[..3][0] == 'm'; assert s[..3][1] == rest[0]; }
      }
    } else {
      assert s == rest;
      assert |s| >= 3 ==> s[..3] != "maj" && s[..3] != "dim" by {
        if |s| >= 3 { assert s[..3][0] == rest[0]; }
      }
    }
  }

  lemma SplitDigitOf(digit: string, rest: string)
    requires digit == [] || (|digit| == 1 && IsDigit(digit[0]))
    requires rest == [] || rest[0] == '/'
    ensures SplitDigit(digit + rest) == (digit, rest)
  {
    if digit != [] {
      assert (digit + rest)[1..] == rest;
    } else {
      assert digit + rest == rest;
    }
  }

  lemma ParseNoteOf(note: Note, rest: string)
    requires note.WellFormed()
    requires rest == [] || (rest[0] != '#' && rest[0] != 'b')
    ensures ParseNote(note.Spelling() + rest) == Some((note, rest))
  {
    var s := note.Spelling() + rest;
    assert s[1..] == note.accidental + rest;
    SplitAccidentalOf(note.accidental, rest);
  }

  lemma ParseBassOf(bass: Option<Note>)
    requires bass.Some? ==> bass.value.WellFormed()
    ensures ParseBass(BassSpelling(bass)) == Some(bass)
  {
    if bass.Some? {
      var t := BassSpelling(bass);
      assert t[1..] == bass.value.Spelling() + [];
      ParseNoteOf(bass.value, []);
    }
  }

  /** Completeness of the recognizer: every spelling of a well-formed chord
      symbol is read back as exactly that symbol. */
  lemma ParseSpelling(c: ChordSymbol)
    requires c.WellFormed()
    ensures ParseChord(c.Spelling()) == Some(c)
  {
    var tail := BassSpelling(c.bass);
    var afterDigit := c.digit + tail;
    var afterQuality := c.quality + afterDigit;
    assert c.Spelling() == c.root.Spelling() + afterQuality;
    ParseBassOf(c.bass);
    SplitDigitOf(c.digit, tail);
    assert afterDigit == [] || IsDigit(afterDigit[0]) || afterDigit[0] == '/' by {
      if c.digit != [] { assert afterDigit[0] == c.digit[0]; }
      else { assert afterDigit == tail; }
    }
    SplitQualityOf(c.quality, afterDigit);
    assert afterQuality == [] || (afterQuality[0] != '#' && afterQuality[0] != 'b') by {
      if c.quality != [] { assert afterQuality[0] == c.quality[0]; }
      else { assert afterQuality == afterDigit; }
    }
    ParseNoteOf(c.root, afterQuality);
    ParseChordSteps(c.Spelling(), c.root, afterQuality, afterDigit, tail, c);
  }

  /** The recognizer's steps: reading the root, the quality, the digit and
      the bass one after another yields the chord made of those parts. */
  lemma ParseChordSteps(s: string, root: Note, s1: string, s2: string, s3: string, c: ChordSymbol)
    requires c.WellFormed() && c.root == root
    requires ParseNote(s) == Some((root, s1))
    requires SplitQuality(s1) == (c.quality, s2)
    requires SplitDigit(s2) == (c.digit, s3)
    requires ParseBass(s3) == Some(c.bass)
    ensures ParseChord(s) == Some(c)
  {
  }

  /** isValidChord accepts exactly the strings the chord pattern matches as a
      whole: the spellings of well-formed chord symbols. */
  lemma IsValidChordIff(s: string)
    ensures IsValidChord(s) <==> exists c: ChordSymbol :: c.WellFormed() && c.Spelling() == s
  {
    if exists c: ChordSymbol :: c.WellFormed() && c.Spelling() == s {
      var c: ChordSymbol :| c.WellFormed() && c.Spelling() == s;
      ParseSpelling(c);
      assert !IsWhitespace(s[0]);
    }
  }

  /** Spellings of well-formed chord symbols are valid chords. */
  lemma SpellingIsValid(c: ChordSymbol)
    requires c.WellFormed()
    ensures IsValidChord(c.Spelling())
  {
    ParseSpelling(c);
    assert c.Spelling()[0] == c.root.letter;
  }

  lemma NoWhitespaceConcat(a: string, b: string)
    requires NoWhitespace(a) && NoWhitespace(b)
    ensures NoWhitespace(a + b)
  {
    forall i | 0 <= i < |a + b| ensures !IsWhitespace((a + b)[i]) {
      if i >= |a| { assert (a + b)[i] == b[i - |a|]; }
    }
  }

  /** The spelling of a chord symbol without its bass part. */
  function UpperSpelling(c: ChordSymbol): string
  {
    c.root.Spelling() + c.quality + c.digit
  }

  /** A spelled chord holds no whitespace, and its only slash is the one that
      introduces the bass note. */
  lemma SpellingShape(c: ChordSymbol)
    requires c.WellFormed()
    ensures NoWhitespace(c.Spelling())
    ensures '/' !in UpperSpelling(c)
    ensures c.Spelling() == UpperSpelling(c) + BassSpelling(c.bass)
    ensures c.bass.Some? ==> '/' !in c.bass.value.Spelling() && NoWhitespace(c.bass.value.Spelling())
    ensures '/' in c.Spelling() <==> c.bass.Some?
  {
    var root := c.root.Spelling();
    assert NoWhitespace(root) && '/' !in root by {
      assert root == [c.root.letter] + c.root.accidental;
    }
    assert NoWhitespace(c.quality) && '/' !in c.quality;
    assert NoWhitespace(c.digit) && '/' !in c.digit;
    NoWhitespaceConcat(root, c.quality);
    NoWhitespaceConcat(root + c.quality, c.digit);
    var upper := UpperSpelling(c);
    if c.bass.Some? {
      var bass := c.bass.value.Spelling();
      assert bass == [c.bass.value.letter] + c.bass.value.accidental;
      assert NoWhitespace("/");
      NoWhitespaceConcat("/", bass);
      NoWhitespaceConcat(upper, "/" + bass);
      assert (upper + ("/" + bass))[|upper|] == '/';
    } else {
      assert c.Spelling() == upper + "";
    }
  }

  /** Valid chords hold no whitespace. */
  lemma ValidChordHasNoWhitespace(s: string)
    requires IsValidChord(s)
    ensures NoWhitespace(s) && s != []
  {
    SpellingShape(ParseChord(s).value);
  }

  /** Accepted by the pattern: a plain root. */
  lemma AcceptsPlainRoot()
    ensures IsValidChord("C")
  {
    var c := ChordSymbol(Note('C', ""), "", "", None);
    assert c.Spelling() == "C";
    SpellingIsValid(c);
  }

  /** Accepted by the pattern: sharp, minor quality and a digit. */
  lemma AcceptsSharpMinorSeventh()
    ensures IsValidChord("G#m7")
  {
    var g := ChordSymbol(Note('G', "#"), "m", "7", None);
    assert g.Spelling() == "G#m7";
    SpellingIsValid(g);
  }

  /** Accepted by the pattern: a slash chord with a sharp bass. */
  lemma AcceptsSlashChord()
    ensures IsValidChord("D/F#")
  {
    var d := ChordSymbol(Note('D', ""), "", "", Some(Note('F', "#")));
    assert d.Spelling() == "D/F#";
    SpellingIsValid(d);
  }

  /** Rejected by the pattern: the empty string, plain words and a
      root outside A-G. */
  lemma RejectedChordExamples()
    ensures !IsValidChord("") && !IsValidChord("Hello") && !IsValidChord("Xm")
  {
    assert ParseNote("Hello") == None by { assert "Hello"[0] == 'H'; }
    assert ParseNote("Xm") == None by { assert "Xm"[0] == 'X'; }
  }

  /** "C/Am" is rejected: the bass after the slash takes only a letter and an
      accidental, never a quality. */
  lemma RejectsQualityOnBass()
    ensures !IsValidChord("C/Am")
  {
    var s := "C/Am";
    assert ParseNote(s) == Some((Note('C', ""), "/Am")) by {
      assert s[1..] == "/Am";
      assert SplitAccidental("/Am") == ("", "/Am");
    }
    assert SplitQuality("/Am") == ("", "/Am") by { assert "/Am"[..3][0] == '/'; }
    assert SplitDigit("/Am") == ("", "/Am");
    assert ParseBass("/Am") == None by {
      assert "/Am"[1..] == "Am" && "Am"[1..] == "m";
      assert SplitAccidental("m") == ("", "m");
      assert ParseNote("Am") == Some((Note('A', ""), "m"));
    }
  }

  // ---------------------------------------------------------------------
  // Line predicates

  /** Number of whitespace characters in s. */
  function WhitespaceCount(s: string): (n: nat)
    ensures n <= |s|
    ensures n == 0 <==> NoWhitespace(s)
  {
    if s == [] then 0
    else (if IsWhitespace(s[0]) then 1 else 0) + WhitespaceCount(s[1..])
  }

  /** Counting whitespace distributes over concatenation. */
  lemma {:induction false} WhitespaceCountAppend(a: string, b: string)
    ensures WhitespaceCount(a + b) == WhitespaceCount(a) + WhitespaceCount(b)
  {
    if a != [] {
      assert (a + b)[0] == a[0] && (a + b)[1..] == a[1..] + b;
      WhitespaceCountAppend(a[1..], b);
    } else {
      assert a + b == b;
    }
  }

  predicate HasNoteLetter(s: string)
  {
    exists i :: 0 <= i < |s| && IsNoteLetter(s[i])
  }

  /** isChordLine: the heuristic that decides whether a line is tokenized. */
  predicate IsChordLine(line: string)
  {
    !IsBlank(line) &&
    ('/' in line || '#' in line || (WhitespaceCount(line) > 5 && HasNoteLetter(line)))
  }

  /** t occurs in s as a contiguous substring (String.contains). */
  predicate Contains(s: string, t: string)
  {
    exists i: nat | i <= |s| :: OccursAt(s, t, i)
  }

  predicate OccursAt(s: string, t: string, i: nat)
  {
    i + |t| <= |s| && s[i..i + |t|] == t
  }

  /** ASCII lower-casing of one character. */
  function LowerChar(c: char): char
  {
    if 'A' <= c <= 'Z' then (c as int + 32) as char else c
  }

  function ToLower(s: string): (r: string)
    ensures |r| == |s| && forall i :: 0 <= i < |s| ==> r[i] == LowerChar(s[i])
  {
    seq(|s|, i requires 0 <= i < |s| => LowerChar(s[i]))
  }

  /** line.toLowerCase().contains("key"). */
  predicate MentionsKey(line: string)
  {
    Contains(ToLower(line), "key")
  }

  /** The first of keys that occurs in line, case-sensitively. */
  function FirstContained(line: string, keys: seq<string>): (r: Option<string>)
    ensures r.None? <==> forall i :: 0 <= i < |keys| ==> !Contains(line, keys[i])
    ensures r.Some? ==> exists i :: 0 <= i < |keys| && keys[i] == r.value && Contains(line, r.value)
                                     && forall j :: 0 <= j < i ==> !Contains(line, keys[j])
  {
    if keys == [] then None
    else if Contains(line, keys[0]) then Some(keys[0])
    else
      var r := FirstContained(line, keys[1..]);
      assert forall j :: 1 <= j < |keys| ==> keys[j] == keys[1..][j - 1];
      r
  }

  /** detectKey: None unless the line mentions "key" in any case; otherwise the
      first of C, D, E, F, G, A, B that occurs in it. */
  function DetectKey(line: string): (r: Option<string>)
    ensures !MentionsKey(line) ==> r == None
    ensures r.Some? ==> r.value in KeyMap && Contains(line, r.value)
  {
    if !MentionsKey(line) then None else FirstContained(line, KeyOrder)
  }

  /** Examples: the marker line of the unit test names C; without the word
      "key" nothing is detected; detection follows the order C, D, E, ... */
  lemma DetectKeyExamples()
    ensures DetectKey("key: C") == Some("C")
    ensures DetectKey("Capo: D") == None
    ensures DetectKey("Key of G, not C") == Some("C")
  {
    assert MentionsKey("key: C") by { assert OccursAt(ToLower("key: C"), "key", 0); }
    assert Contains("key: C", "C") by { assert OccursAt("key: C", "C", 5); }
    assert !MentionsKey("Capo: D") by {
      var l := ToLower("Capo: D");
      forall i: nat ensures !OccursAt(l, "key", i) {
        if i + 3 <= |l| { assert l[i..i + 3][0] == l[i]; }
      }
    }
    assert MentionsKey("Key of G, not C") by { assert OccursAt(ToLower("Key of G, not C"), "key", 0); }
    assert Contains("Key of G, not C", "C") by { assert OccursAt("Key of G, not C", "C", 14); }
  }

  /** isChordLine: a line holding a slash is a chord line. */
  lemma SlashLineIsChordLine(line: string)
    requires '/' in line
    ensures IsChordLine(line)
  {
    var i :| 0 <= i < |line| && line[i] == '/';
    assert !IsWhitespace(line[i]);
  }

  /** isChordLine: the lyric line of the unit test is not a chord line: it has
      no slash, no sharp and no capital letter from A to G. */
  lemma LyricLineIsNotChordLine()
    ensures !IsChordLine("This is a lyric line")
  {
    var line := "This is a lyric line";
    assert !HasNoteLetter(line);
    assert '/' !in line && '#' !in line;
  }

  /** isChordLine: more than five whitespace characters and a note letter
      make a chord line, with no slash or sharp needed. */
  lemma SpacedChordsAreChordLine(line: string)
    requires WhitespaceCount(line) > 5 && HasNoteLetter(line)
    ensures IsChordLine(line)
  {
    var i :| 0 <= i < |line| && IsNoteLetter(line[i]);
    assert !IsWhitespace(line[i]);
  }

  /** isChordLine: a blank line is never a chord line. */
  lemma BlankLineIsNotChordLine(line: string)
    requires IsBlank(line)
    ensures !IsChordLine(line)
  {
  }

  /** isChordLine: a line without '/' or '#' and with at most five whitespace
      characters is never a chord line, however many note letters it holds. */
  lemma FewSpacesIsNotChordLine(line: string)
    requires '/' !in line && '#' !in line && WhitespaceCount(line) <= 5
    ensures !IsChordLine(line)
  {
  }

  /** isChordLine: indenting a chord line keeps it a chord line, since the
      indent only adds whitespace. */
  lemma IndentedChordLine(indent: string, line: string)
    requires IsBlank(indent) && IsChordLine(line)
    ensures IsChordLine(indent + line)
  {
    var s := indent + line;
    WhitespaceCountAppend(indent, line);
    assert forall i :: 0 <= i < |line| ==> s[|indent| + i] == line[i];
    if '/' in line {
      var i :| 0 <= i < |line| && line[i] == '/';
      assert s[|indent| + i] == '/';
    } else if '#' in line {
      var i :| 0 <= i < |line| && line[i] == '#';
      assert s[|indent| + i] == '#';
    } else {
      var i :| 0 <= i < |line| && IsNoteLetter(line[i]);
      assert IsNoteLetter(s[|indent| + i]);
    }
    var j :| 0 <= j < |line| && !IsWhitespace(line[j]);
    assert !IsWhitespace(s[|indent| + j]);
  }
}
