/** transposeChord of ChordProgressionHandler: positional lookup of a chord in
    the source key's scale, slash chords split on "/" and transposed part by
    part. The exceptions it throws become the Error values below. */
module Transposer {
  import opened KeyTable
  import opened ChordSyntax

  /** The failures of the transposer. IndexOutOfBounds is what String.split
      leaves behind when a slash has nothing after it (Java's
      ArrayIndexOutOfBoundsException on parts[1]). */
  datatype Error =
    | InvalidKey
    | InvalidChord(chord: string)
    | NoKeyInContent
    | IndexOutOfBounds(index: nat, length: nat)

  datatype Result<T> = Ok(value: T) | Err(error: Error)

  /** Results produced one after another, where the first failure aborts the
      rest: all the values when every step succeeded, else the first error. */
  function Collect<T>(results: seq<Result<T>>): (r: Result<seq<T>>)
    ensures r.Ok? <==> forall i :: 0 <= i < |results| ==> results[i].Ok?
    ensures r.Ok? ==>
              && |r.value| == |results|
              && forall i :: 0 <= i < |results| ==> r.value[i] == results[i].value
    ensures r.Err? ==>
              exists i ::
                && 0 <= i < |results|
                && results[i] == Err(r.error)
                && forall j :: 0 <= j < i ==> results[j].Ok?
  {
    if results == [] then Ok([])
    else
      var rest := Collect(results[1..]);
      assert forall i :: 1 <= i < |results| ==> results[i] == results[1..][i - 1];
      if results[0].Err? then Err(results[0].error)
      else if rest.Err? then Err(rest.error)
      else Ok([results[0].value] + rest.value)
  }

  /** Decimal digits of n. */
  function NatToString(n: nat): (r: string)
    ensures |r| >= 1 && forall i :: 0 <= i < |r| ==> IsDigit(r[i])
  {
    var d := ['0' + (n % 10) as char];
    if n < 10 then d else NatToString(n / 10) + d
  }

  /** The number a string of decimal digits spells, most significant first. */
  function DecimalValue(s: string): nat
    requires forall i :: 0 <= i < |s| ==> IsDigit(s[i])
  {
    if s == [] then 0
    else
      assert IsDigit(s[|s| - 1]);
      DecimalValue(s[..|s| - 1]) * 10 + (s[|s| - 1] as int - '0' as int)
  }

  /** The digits NatToString prints spell n back in base 10. */
  lemma {:induction false} NatToStringValue(n: nat)
    ensures DecimalValue(NatToString(n)) == n
  {
    var r := NatToString(n);
    var d := ['0' + (n % 10) as char];
    if n < 10 {
      assert r == d && r[..0] == [];
    } else {
      NatToStringValue(n / 10);
      assert r == NatToString(n / 10) + d;
      assert r[..|r| - 1] == NatToString(n / 10);
    }
  }

  /** The exception message the source attaches to each failure. */
  function Message(e: Error): string
  {
    match e
    case InvalidKey => "Invalid key provided"
    case InvalidChord(chord) => "Invalid chord: " + chord
    case NoKeyInContent => "No key specified in content"
    case IndexOutOfBounds(index, length) =>
      "Index " + NatToString(index) + " out of bounds for length " + NatToString(length)
  }

  // ---------------------------------------------------------------------
  // String.split on a one-character pattern

  /** The fields of s between occurrences of sep, joined back with sep. */
  function Join(parts: seq<string>, sep: char): string
  {
    if parts == [] then ""
    else if |parts| == 1 then parts[0]
    else parts[0] + [sep] + Join(parts[1..], sep)
  }

  /** All fields of s between the occurrences of sep, empty ones included. */
  function Fields(s: string, sep: char): (r: seq<string>)
    ensures |r| >= 1
    ensures forall i :: 0 <= i < |r| ==> sep !in r[i]
  {
    if s == [] then [[]]
    else
      var rest := Fields(s[1..], sep);
      if s[0] == sep then [[]] + rest
      else
        var r := [[s[0]] + rest[0]] + rest[1..];
        assert forall i :: 1 <= i < |r| ==> r[i] == rest[i];
        r
  }

  /** Joining the fields with the separator gives the string back. */
  lemma {:induction false} FieldsJoin(s: string, sep: char)
    ensures Join(Fields(s, sep), sep) == s
  {
    if s != [] {
      var rest := Fields(s[1..], sep);
      FieldsJoin(s[1..], sep);
      if s[0] == sep {
        assert ([[]] + rest)[1..] == rest;
      } else {
        var r := [[s[0]] + rest[0]] + rest[1..];
        assert r[1..] == rest[1..];
        if |rest| > 1 {
          assert Join(rest, sep) == rest[0] + [sep] + Join(rest[1..], sep);
        }
        assert [s[0]] + s[1..] == s;
      }
    }
  }

  /** The longest prefix of parts that does not end in an empty string. */
  function DropTrailingEmpty(parts: seq<string>): (r: seq<string>)
    ensures r <= parts
    ensures r == [] || r[|r| - 1] != ""
    ensures forall i :: |r| <= i < |parts| ==> parts[i] == ""
  {
    if parts == [] then []
    else if parts[|parts| - 1] == "" then DropTrailingEmpty(parts[..|parts| - 1])
    else parts
  }

  /** String.split with a single-character pattern: the fields between the
      separators with trailing empty fields removed; an empty input gives one
      empty field. */
  function Split(s: string, sep: char): (r: seq<string>)
    ensures forall i :: 0 <= i < |r| ==> sep !in r[i]
  {
    if s == [] then [""] else DropTrailingEmpty(Fields(s, sep))
  }

  lemma {:induction false} FieldsWithoutSeparator(s: string, sep: char)
    requires sep !in s
    ensures Fields(s, sep) == [s]
  {
    if s != [] {
      FieldsWithoutSeparator(s[1..], sep);
      assert [s[0]] + s[1..] == s;
    }
  }

  lemma {:induction false} FieldsAfterSeparator(a: string, sep: char, rest: string)
    requires sep !in a
    ensures Fields(a + [sep] + rest, sep) == [a] + Fields(rest, sep)
  {
    var s := a + [sep] + rest;
    if a == [] {
      assert s[1..] == rest;
    } else {
      assert s[1..] == a[1..] + [sep] + rest;
      FieldsAfterSeparator(a[1..], sep, rest);
      assert [a[0]] + a[1..] == a;
    }
  }

  /** Splitting "upper/bass" gives exactly the two parts when neither holds a
      slash and the bass is not empty. */
  lemma SplitPair(upper: string, bass: string)
    requires '/' !in upper && '/' !in bass && bass != ""
    ensures Split(upper + "/" + bass, '/') == [upper, bass]
  {
    FieldsAfterSeparator(upper, '/', bass);
    FieldsWithoutSeparator(bass, '/');
    assert upper + "/" + bass == upper + ['/'] + bass;
  }

  // ---------------------------------------------------------------------
  // transposeChord

  /** transposeChord(originalChord, fromKey, toKey). */
  function TransposeChord(chord: string, fromKey: string, toKey: string): (r: Result<string>)
    ensures fromKey !in KeyMap || toKey !in KeyMap ==> r == Err(InvalidKey)
    ensures fromKey in KeyMap && toKey in KeyMap && '/' !in chord ==>
              (r.Ok? <==> chord in KeyMap[fromKey]) &&
              (r.Ok? ==> r.value in KeyMap[toKey]) &&
              (r.Err? ==> r.error == InvalidChord(chord))
    decreases if '/' in chord then 1 else 0
  {
    if fromKey !in KeyMap || toKey !in KeyMap then Err(InvalidKey)
    else if '/' in chord then
      var parts := Split(chord, '/');
      if |parts| == 0 then Err(IndexOutOfBounds(0, 0))
      else
        match TransposeChord(parts[0], fromKey, toKey)
        case Err(e) => Err(e)
        case Ok(upper) =>
          if |parts| == 1 then Err(IndexOutOfBounds(1, 1))
          else
            match TransposeChord(parts[1], fromKey, toKey)
            case Err(e) => Err(e)
            case Ok(bass) => Ok(upper + "/" + bass)
    else
      var index := IndexOf(KeyMap[fromKey], chord);
      if index == -1 then Err(InvalidChord(chord)) else Ok(KeyMap[toKey][index])
  }

  /** transposeChord fails only with its own three kinds of failure. */
  lemma TransposeChordErrors(chord: string, fromKey: string, toKey: string)
    ensures TransposeChord(chord, fromKey, toKey) != Err(NoKeyInContent)
  {
    if fromKey in KeyMap && toKey in KeyMap && '/' in chord {
      var parts := Split(chord, '/');
      if |parts| > 0 {
        assert '/' !in parts[0];
        if |parts| > 1 {
          assert '/' !in parts[1];
        }
      }
    }
  }

  /** The chord at degree i of the source key becomes the chord at degree i of
      the target key. */
  lemma TransposeAtDegree(fromKey: string, toKey: string, i: int)
    requires fromKey in KeyMap && toKey in KeyMap && 0 <= i < 7
    ensures TransposeChord(KeyMap[fromKey][i], fromKey, toKey) == Ok(KeyMap[toKey][i])
  {
    ScalesAreDistinct(fromKey);
    IndexOfDistinct(KeyMap[fromKey], i);
  }

  /** A chord of the source key's scale goes to the target key and back. */
  lemma TransposeRoundTrip(chord: string, k1: string, k2: string)
    requires k1 in KeyMap && k2 in KeyMap && chord in KeyMap[k1]
    ensures TransposeChord(chord, k1, k2).Ok?
    ensures TransposeChord(TransposeChord(chord, k1, k2).value, k2, k1) == Ok(chord)
  {
    var i :| 0 <= i < 7 && KeyMap[k1][i] == chord;
    TransposeAtDegree(k1, k2, i);
    TransposeAtDegree(k2, k1, i);
  }

  /** Transposing a scale chord to its own key changes nothing. */
  lemma TransposeSameKey(chord: string, key: string)
    requires key in KeyMap && chord in KeyMap[key]
    ensures TransposeChord(chord, key, key) == Ok(chord)
  {
    var i :| 0 <= i < 7 && KeyMap[key][i] == chord;
    TransposeAtDegree(key, key, i);
  }

  /** A slash chord is transposed part by part and rejoined with "/"; the
      upper part's failure is reported first. */
  lemma TransposeSlashChord(upper: string, bass: string, fromKey: string, toKey: string)
    requires fromKey in KeyMap && toKey in KeyMap
    requires '/' !in upper && '/' !in bass && bass != ""
    ensures var r := TransposeChord(upper + "/" + bass, fromKey, toKey);
            var u := TransposeChord(upper, fromKey, toKey);
            var b := TransposeChord(bass, fromKey, toKey);
            && (u.Err? ==> r == u)
            && (u.Ok? && b.Err? ==> r == b)
            && (u.Ok? && b.Ok? ==> r == Ok(u.value + "/" + b.value))
  {
    SplitPair(upper, bass);
    assert (upper + "/" + bass)[|upper|] == '/';
  }

  /** A slash chord built from two chords of the source key's scale becomes
      the slash chord of the same two degrees in the target key. */
  lemma TransposeSlashAtDegrees(fromKey: string, toKey: string, i: int, j: int)
    requires fromKey in KeyMap && toKey in KeyMap && 0 <= i < 7 && 0 <= j < 7
    ensures TransposeChord(KeyMap[fromKey][i] + "/" + KeyMap[fromKey][j], fromKey, toKey)
            == Ok(KeyMap[toKey][i] + "/" + KeyMap[toKey][j])
  {
    ScalesAreDistinct(fromKey);
    TransposeAtDegree(fromKey, toKey, i);
    TransposeAtDegree(fromKey, toKey, j);
    TransposeSlashChord(KeyMap[fromKey][i], KeyMap[fromKey][j], fromKey, toKey);
  }

  // ---------------------------------------------------------------------
  // The shape of the key table, and what transposeChord does to valid chords

  /** The quality every key gives to each scale degree. */
  const DegreeQuality: seq<string> := ["", "m", "m", "", "", "m", "dim"]

  /** The note that names degree i of key: its table entry without the quality. */
  function DegreeNote(key: string, i: int): Note
    requires key in KeyMap && 0 <= i < 7
  {
    ScalesAreDistinct(key);
    var e := KeyMap[key][i];
    Note(e[0], if |e| > 1 && (e[1] == '#' || e[1] == 'b') then [e[1]] else "")
  }

  /** Every entry of the table is a note followed by its degree's quality. */
  lemma ScaleShape(key: string, i: int)
    requires key in KeyMap && 0 <= i < 7
    ensures DegreeNote(key, i).WellFormed()
    ensures KeyMap[key][i] == DegreeNote(key, i).Spelling() + DegreeQuality[i]
  {
    if i < 4 { LowerDegreeShape(key, i); } else { UpperDegreeShape(key, i); }
  }

  /** ScaleShape for degrees I to IV. */
  lemma LowerDegreeShape(key: string, i: int)
    requires key in KeyMap && 0 <= i < 4
    ensures DegreeNote(key, i).WellFormed()
    ensures KeyMap[key][i] == DegreeNote(key, i).Spelling() + DegreeQuality[i]
  {
  }

  /** ScaleShape for degrees V to vii. */
  lemma UpperDegreeShape(key: string, i: int)
    requires key in KeyMap && 4 <= i < 7
    ensures DegreeNote(key, i).WellFormed()
    ensures KeyMap[key][i] == DegreeNote(key, i).Spelling() + DegreeQuality[i]
  {
  }

  /** Every entry of the table is a valid chord. */
  lemma DegreeChordIsValid(key: string, i: int)
    requires key in KeyMap && 0 <= i < 7
    ensures IsValidChord(KeyMap[key][i])
  {
    ScaleShape(key, i);
    var c := ChordSymbol(DegreeNote(key, i), DegreeQuality[i], "", None);
    assert c.Spelling() == KeyMap[key][i];
    SpellingIsValid(c);
  }

  /** Over a degree whose entry is a bare note, any entry makes a valid slash
      chord. */
  lemma SlashDegreeChordIsValid(key: string, i: int, j: int)
    requires key in KeyMap && 0 <= i < 7 && 0 <= j < 7 && DegreeQuality[j] == ""
    ensures IsValidChord(KeyMap[key][i] + "/" + KeyMap[key][j])
  {
    ScaleShape(key, i);
    ScaleShape(key, j);
    var c := ChordSymbol(DegreeNote(key, i), DegreeQuality[i], "", Some(DegreeNote(key, j)));
    assert KeyMap[key][j] == DegreeNote(key, j).Spelling();
    assert c.Spelling() == KeyMap[key][i] + "/" + KeyMap[key][j];
    SpellingIsValid(c);
  }

  /** An entry that is a bare note sits at a degree without quality. */
  lemma BareNoteDegree(key: string, j: int, note: Note)
    requires key in KeyMap && 0 <= j < 7 && note.WellFormed()
    requires KeyMap[key][j] == note.Spelling()
    ensures DegreeQuality[j] == ""
  {
    var e := KeyMap[key][j];
    ScaleShape(key, j);
    assert e[|e| - 1] != 'm' by {
      assert e == [note.letter] + note.accidental;
    }
  }

  /** A valid chord that transposes is either an entry of the source key's
      scale, sent to the same degree of the target key, or an entry over a
      bare-note entry, sent degree by degree. */
  lemma TransposeValidChord(r: string, k1: string, k2: string)
    requires k1 in KeyMap && k2 in KeyMap && IsValidChord(r)
    requires TransposeChord(r, k1, k2).Ok?
    ensures var c := TransposeChord(r, k1, k2).value;
            || ('/' !in r && exists i :: 0 <= i < 7 && r == KeyMap[k1][i] && c == KeyMap[k2][i])
            || ('/' in r && exists i, j ::
                                 && 0 <= i < 7 && 0 <= j < 7 && DegreeQuality[j] == ""
                                 && r == KeyMap[k1][i] + "/" + KeyMap[k1][j]
                                 && c == KeyMap[k2][i] + "/" + KeyMap[k2][j])
  {
    var sym := ParseChord(r).value;
    SpellingShape(sym);
    if sym.bass.None? {
      var i :| 0 <= i < 7 && KeyMap[k1][i] == r;
      TransposeAtDegree(k1, k2, i);
    } else {
      TransposeSlashValidChord(sym, k1, k2);
    }
  }

  lemma TransposeSlashValidChord(sym: ChordSymbol, k1: string, k2: string)
    requires k1 in KeyMap && k2 in KeyMap && sym.WellFormed() && sym.bass.Some?
    requires TransposeChord(sym.Spelling(), k1, k2).Ok?
    ensures exists i, j :: 0 <= i < 7 && 0 <= j < 7 && DegreeQuality[j] == ""
              && sym.Spelling() == KeyMap[k1][i] + "/" + KeyMap[k1][j]
              && TransposeChord(sym.Spelling(), k1, k2).value == KeyMap[k2][i] + "/" + KeyMap[k2][j]
  {
    SpellingShape(sym);
    var upper := UpperSpelling(sym);
    var bass := sym.bass.value.Spelling();
    assert sym.Spelling() == upper + "/" + bass;
    TransposeSlashChord(upper, bass, k1, k2);
    var i :| 0 <= i < 7 && KeyMap[k1][i] == upper;
    var j :| 0 <= j < 7 && KeyMap[k1][j] == bass;
    TransposeAtDegree(k1, k2, i);
    TransposeAtDegree(k1, k2, j);
    BareNoteDegree(k1, j, sym.bass.value);
  }

  /** A valid chord transposed to another key transposes back to itself, and
      what it becomes is a valid chord again. */
  lemma ValidChordRoundTrip(r: string, k1: string, k2: string)
    requires k1 in KeyMap && k2 in KeyMap && IsValidChord(r)
    requires TransposeChord(r, k1, k2).Ok?
    ensures IsValidChord(TransposeChord(r, k1, k2).value)
    ensures TransposeChord(TransposeChord(r, k1, k2).value, k2, k1) == Ok(r)
  {
    var c := TransposeChord(r, k1, k2).value;
    TransposeValidChord(r, k1, k2);
    if '/' !in r {
      var i :| 0 <= i < 7 && r == KeyMap[k1][i] && c == KeyMap[k2][i];
      DegreeChordIsValid(k2, i);
      TransposeAtDegree(k2, k1, i);
    } else {
      var i, j :| 0 <= i < 7 && 0 <= j < 7 && DegreeQuality[j] == ""
                  && r == KeyMap[k1][i] + "/" + KeyMap[k1][j] && c == KeyMap[k2][i] + "/" + KeyMap[k2][j];
      SlashDegreeChordIsValid(k2, i, j);
      TransposeSlashAtDegrees(k2, k1, i, j);
    }
  }

  /** Transposing a valid chord to its own key leaves it as it is. */
  lemma ValidChordSameKey(r: string, key: string)
    requires key in KeyMap && IsValidChord(r)
    requires TransposeChord(r, key, key).Ok?
    ensures TransposeChord(r, key, key) == Ok(r)
  {
    TransposeValidChord(r, key, key);
  }
}

/** Worked cases of transposeChord. */
module TransposerExamples {
  import opened KeyTable
  import opened Transposer

  /** "Z#m" is not in the scale of C: the failure names the chord. */
  lemma InvalidChordExample()
    ensures TransposeChord("Z#m", "C", "D") == Err(InvalidChord("Z#m"))
    ensures Message(TransposeChord("Z#m", "C", "D").error) == "Invalid chord: Z#m"
  {
    assert "Z#m" !in KeyMap["C"];
  }

  /** An unknown key is reported whatever the chord. */
  lemma InvalidKeyExample(chord: string)
    ensures TransposeChord(chord, "H", "D") == Err(InvalidKey)
    ensures Message(TransposeChord(chord, "H", "D").error) == "Invalid key provided"
  {
  }
}
