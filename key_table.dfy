/** The fixed table of the seven supported major keys and their diatonic chords
    (ChordProgressionHandler.initializeKeys). The source fills a HashMap once and
    never changes it afterwards, so it is modelled as an immutable constant. */
module KeyTable {

  /** The seven chord names of one key, scale degrees I to vii in order. */
  type Scale = s: seq<string> | |s| == 7 witness ["", "", "", "", "", "", ""]

  /** The keys in the order in which key detection tries them. */
  const KeyOrder: seq<string> := ["C", "D", "E", "F", "G", "A", "B"]

  const KeyMap: map<string, Scale> := map[
    "C" := ["C", "Dm", "Em", "F", "G", "Am", "Bdim"],
    "D" := ["D", "Em", "F#m", "G", "A", "Bm", "C#dim"],
    "E" := ["E", "F#m", "G#m", "A", "B", "C#m", "D#dim"],
    "F" := ["F", "Gm", "Am", "Bb", "C", "Dm", "Edim"],
    "G" := ["G", "Am", "Bm", "C", "D", "Em", "F#dim"],
    "A" := ["A", "Bm", "C#m", "D", "E", "F#m", "G#dim"],
    "B" := ["B", "C#m", "D#m", "E", "F#", "G#m", "A#dim"]
  ]

  /** No chord name occurs twice in the sequence. */
  predicate Distinct(s: seq<string>)
  {
    forall i, j :: 0 <= i < j < |s| ==> s[i] != s[j]
  }

  /** Index of the first occurrence of x in xs, or -1 (java.util.List.indexOf). */
  function IndexOf(xs: seq<string>, x: string): (r: int)
    ensures -1 <= r < |xs|
    ensures r == -1 <==> x !in xs
    ensures r >= 0 ==> xs[r] == x && forall j :: 0 <= j < r ==> xs[j] != x
  {
    if xs == [] then -1
    else if xs[0] == x then 0
    else
      var k := IndexOf(xs[1..], x);
      if k == -1 then -1 else k + 1
  }

  /** The table holds exactly the seven natural keys, in detection order. */
  lemma KeysAreTheSevenNaturals()
    ensures KeyMap.Keys == set k | k in KeyOrder
    ensures |KeyOrder| == 7 && forall i :: 0 <= i < 7 ==> |KeyOrder[i]| == 1
  {
  }

  /** Within each key every chord name is listed once and none contains a slash. */
  lemma ScalesAreDistinct(key: string)
    requires key in KeyMap
    ensures Distinct(KeyMap[key])
    ensures forall i :: 0 <= i < 7 ==> '/' !in KeyMap[key][i] && KeyMap[key][i] != ""
  {
  }

  /** On a list without repeats, IndexOf finds the position of each entry. */
  lemma {:induction false} IndexOfDistinct(xs: seq<string>, i: int)
    requires Distinct(xs) && 0 <= i < |xs|
    ensures IndexOf(xs, xs[i]) == i
  {
    if i > 0 {
      assert xs[0] != xs[i];
      assert Distinct(xs[1..]) by {
        forall a, b | 0 <= a < b < |xs| - 1 ensures xs[1..][a] != xs[1..][b] {
          assert xs[1..][a] == xs[a + 1] && xs[1..][b] == xs[b + 1];
        }
      }
      IndexOfDistinct(xs[1..], i - 1);
      assert xs[1..][i - 1] == xs[i];
    }
  }
}
