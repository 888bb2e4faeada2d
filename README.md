# Chord transposer and number games, modelled in Dafny

This project models two parts of a Java term project.

**The chord transposer.** `ChordProgressionHandler` transposes the chord sheet of a song from its key to a target key:

- it finds the source key on the first line that mentions "key";
- it replaces every marker line with "`<target> key`";
- it splits every line that looks like a chord line into whitespace and non-whitespace runs;
- it replaces each run that is a valid chord with the chord of the same scale degree in the target key.

Slash chords are transposed part by part. Five modules model it:

- `KeyTable` holds the fixed table of seven major keys and their diatonic chords.
- `ChordSyntax` holds the chord pattern `^[A-G][#b]?(m|maj|dim)?[0-9]?(/[A-G][#b]?)?$` (as a grammar with a parser and a printer) and the `isChordLine` and `detectKey` heuristics.
- `Transposer` holds `transposeChord` and Java's `String.split` on `"/"`. The exceptions become an `Error` value with the source's messages.
- `LineTransposer` holds `processChordLine`. It is a method with a `while` loop over the regex matches of `(\s+)|(\S+)`, proved equal to a function on the sequence of runs.
- `DocumentProcessor` holds `processContent`: the key detection (map, filter, findFirst) and the line-by-line mapping.

**The number games.** In both games numbers from 1 to 1000 are placed into a 4 x 5 grid.

- The console game (`NumberGame`) lets the player choose a row.
- The JavaFX game (`NumberGameFX`) lets the player click a cell.
- Both share `AbstractNumberGame`: the grid, clearing it, and the rule deciding whether a number may go into a row.

Four modules model them:

- `Grids` reads an `array2<int>` as a sequence of rows and counts filled cells.
- `AbstractNumberGame`, `NumberGame` and `NumberGameFx` are classes over `array2<int>` whose methods update their fields in place.
- Each class method is proved equal to a function on a snapshot of the fields (`Console` or `Fx`), and the lemmas state what a turn or a click does.

## Model

| member | source | states |
|---|---|---|
| KeyTable.IndexOf | src/code/ChordProgressionHandler.java:227-228 | -1 exactly when the chord is absent; otherwise the position of its first occurrence |
| KeyTable.KeysAreTheSevenNaturals | src/code/ChordProgressionHandler.java:123-131 | the table's keys are exactly C, D, E, F, G, A, B, the order detectKey tries them in, each one letter |
| KeyTable.ScalesAreDistinct | src/code/ChordProgressionHandler.java:123-131 | every scale holds seven distinct non-empty chord names, none containing '/' |
| KeyTable.IndexOfDistinct | src/code/ChordProgressionHandler.java:227 | in a scale, indexOf finds every chord at its own degree |
| ChordSyntax.Trim | src/code/ChordProgressionHandler.java:252 | the result is empty exactly when the input is blank; input without whitespace is unchanged; the result neither starts nor ends with whitespace |
| ChordSyntax.TrimStartShape | src/code/ChordProgressionHandler.java:252 | trimming the front removes a blank prefix and stops at a non-whitespace character |
| ChordSyntax.TrimEndShape | src/code/ChordProgressionHandler.java:252 | trimming the back removes a blank suffix and stops at a non-whitespace character |
| ChordSyntax.SplitAccidental | src/code/ChordProgressionHandler.java:201 | splits off an optional `#` or `b`; the two parts concatenate back to the input |
| ChordSyntax.SplitQuality | src/code/ChordProgressionHandler.java:201 | splits off an optional `m`, `maj` or `dim`; the two parts concatenate back to the input |
| ChordSyntax.SplitDigit | src/code/ChordProgressionHandler.java:201 | splits off an optional digit; the two parts concatenate back to the input |
| ChordSyntax.ParseNote | src/code/ChordProgressionHandler.java:201 | a parsed note is well formed, and its spelling followed by the rest is the input |
| ChordSyntax.ParseBass | src/code/ChordProgressionHandler.java:201 | a parsed bass is well formed, and its spelling (`/` and a note, or nothing) is the whole input |
| ChordSyntax.ParseChord | src/code/ChordProgressionHandler.java:201 | a parsed chord symbol is well formed and spells exactly the input |
| ChordSyntax.ParseSpelling | src/code/ChordProgressionHandler.java:201 | parsing the spelling of any well-formed chord symbol gives that symbol back (the round trip) |
| ChordSyntax.IsValidChordIff | src/code/ChordProgressionHandler.java:198-203 | a string is a valid chord exactly when it is the spelling of some well-formed chord symbol |
| ChordSyntax.SpellingIsValid | src/code/ChordProgressionHandler.java:201 | every well-formed chord symbol spells a valid chord |
| ChordSyntax.SpellingShape | src/code/ChordProgressionHandler.java:201 | a spelling has no whitespace and holds '/' exactly when it has a bass; the part before the bass has no '/' |
| ChordSyntax.ValidChordHasNoWhitespace | src/code/ChordProgressionHandler.java:198-203 | a valid chord is non-empty and has no whitespace, so the trim test never decides |
| ChordSyntax.AcceptsPlainRoot | src/code/ChordProgressionHandler.java:201 | "C" is valid |
| ChordSyntax.AcceptsSharpMinorSeventh | src/code/ChordProgressionHandler.java:201 | "G#m7" is valid |
| ChordSyntax.AcceptsSlashChord | src/code/ChordProgressionHandler.java:201 | "D/F#" is valid |
| ChordSyntax.RejectedChordExamples | src/code/ChordProgressionHandler.java:198-203 | "", "Hello" and "Xm" are not valid |
| ChordSyntax.RejectsQualityOnBass | src/code/ChordProgressionHandler.java:201 | "C/Am" is not valid: the bass takes no quality |
| ChordSyntax.WhitespaceCount | src/code/ChordProgressionHandler.java:173 | the count is at most the length, and zero exactly when there is no whitespace |
| ChordSyntax.WhitespaceCountAppend | src/code/ChordProgressionHandler.java:173 | the whitespace count of a concatenation is the sum of the counts |
| ChordSyntax.ToLower | src/code/ChordProgressionHandler.java:184 | the same length, each character lower-cased |
| ChordSyntax.FirstContained | src/code/ChordProgressionHandler.java:186-189 | None exactly when no candidate occurs in the line; otherwise the earliest candidate that occurs |
| ChordSyntax.DetectKey | src/code/ChordProgressionHandler.java:183-190 | None when the line does not mention "key" in any case; a found key is in the table and occurs in the line |
| ChordSyntax.DetectKeyExamples | src/code/ChordProgressionHandler.java:183-190 | "key: C" gives C; "Capo: D" gives nothing; "Key of G, not C" gives C, the first in table order |
| ChordSyntax.SlashLineIsChordLine | src/code/ChordProgressionHandler.java:169-175 | every line containing '/' is a chord line |
| ChordSyntax.LyricLineIsNotChordLine | src/code/ChordProgressionHandler.java:169-175 | "This is a lyric line" is not a chord line |
| ChordSyntax.SpacedChordsAreChordLine | src/code/ChordProgressionHandler.java:169-175 | every line with more than five whitespace characters and a note letter from A to G is a chord line |
| ChordSyntax.BlankLineIsNotChordLine | src/code/ChordProgressionHandler.java:170 | no blank line is a chord line |
| ChordSyntax.FewSpacesIsNotChordLine | src/code/ChordProgressionHandler.java:172-174 | a line without '/' or '#' and with at most five whitespace characters is never a chord line |
| ChordSyntax.IndentedChordLine | src/code/ChordProgressionHandler.java:169-175 | a chord line stays a chord line behind any whitespace indent |
| Transposer.Collect | src/code/ChordProgressionHandler.java:250-257 | succeeds exactly when every step succeeds, with all values in order; otherwise fails with the error of the first failing step |
| Transposer.NatToString | src/code/ChordProgressionHandler.java:220-221 | at least one character, all decimal digits |
| Transposer.NatToStringValue | src/code/ChordProgressionHandler.java:220-221 | the digits of the index printed in the out-of-bounds message, read in base 10, give the index back |
| Transposer.Fields | src/code/ChordProgressionHandler.java:219 | at least one field, and no field contains the separator |
| Transposer.FieldsJoin | src/code/ChordProgressionHandler.java:219 | joining the fields with the separator gives back the input |
| Transposer.DropTrailingEmpty | src/code/ChordProgressionHandler.java:219 | keeps a prefix that does not end in an empty field; only empty fields are dropped |
| Transposer.Split | src/code/ChordProgressionHandler.java:219 | no part contains the separator |
| Transposer.FieldsWithoutSeparator | src/code/ChordProgressionHandler.java:219 | a string without the separator is its own only field |
| Transposer.FieldsAfterSeparator | src/code/ChordProgressionHandler.java:219 | the text before the first separator is the first field, then the fields of the rest |
| Transposer.SplitPair | src/code/ChordProgressionHandler.java:218-219 | "upper/bass" without further slashes splits into exactly [upper, bass] |
| Transposer.TransposeChord | src/code/ChordProgressionHandler.java:213-233 | an unknown key gives InvalidKey; a chord without '/' succeeds exactly when it is in the source scale, lands in the target scale, and otherwise fails naming the chord |
| Transposer.TransposeChordErrors | src/code/ChordProgressionHandler.java:213-233 | transposeChord never fails with the missing-key error of processContent |
| Transposer.TransposeAtDegree | src/code/ChordProgressionHandler.java:224-232 | the chord at degree i of the source scale becomes the chord at degree i of the target scale |
| Transposer.TransposeRoundTrip | src/code/ChordProgressionHandler.java:213-233 | transposing a scale chord there and back gives it back |
| Transposer.TransposeSameKey | src/code/ChordProgressionHandler.java:213-233 | transposing a scale chord into its own key leaves it unchanged |
| Transposer.TransposeSlashChord | src/code/ChordProgressionHandler.java:218-222 | a slash chord fails with the upper part's error, else with the bass's error, else joins the two transposed parts with '/' |
| Transposer.TransposeSlashAtDegrees | src/code/ChordProgressionHandler.java:218-232 | a slash chord of degrees i and j becomes the slash chord of degrees i and j in the target key |
| Transposer.ScaleShape | src/code/ChordProgressionHandler.java:123-131 | each table entry is a note followed by its degree's quality (major, minor, diminished) |
| Transposer.LowerDegreeShape | src/code/ChordProgressionHandler.java:123-131 | the same, for degrees I to IV |
| Transposer.UpperDegreeShape | src/code/ChordProgressionHandler.java:123-131 | the same, for degrees V to vii |
| Transposer.DegreeChordIsValid | src/code/ChordProgressionHandler.java:123-131 | every table chord matches the chord pattern |
| Transposer.SlashDegreeChordIsValid | src/code/ChordProgressionHandler.java:123-131 | a table chord over a major degree's bare note matches the chord pattern |
| Transposer.BareNoteDegree | src/code/ChordProgressionHandler.java:123-131 | a table chord that is a bare note is a major degree |
| Transposer.TransposeValidChord | src/code/ChordProgressionHandler.java:213-233 | a valid chord that transposes is the chord of degree i (or the slash chord of degrees i and j) of the source key and becomes the same degrees in the target key |
| Transposer.TransposeSlashValidChord | src/code/ChordProgressionHandler.java:218-222 | the same for a slash chord given as a chord symbol |
| Transposer.ValidChordRoundTrip | src/code/ChordProgressionHandler.java:252-253 | a valid chord that transposes gives a valid chord, which transposes back to the original |
| Transposer.ValidChordSameKey | src/code/ChordProgressionHandler.java:252-253 | a valid chord transposed into its own key, if that succeeds, is unchanged |
| TransposerExamples.InvalidChordExample | src/tests/ChordProgressionHandlerTest.java:19-24 | "Z#m" from C to D fails with the message "Invalid chord: Z#m" |
| TransposerExamples.InvalidKeyExample | src/code/ChordProgressionHandler.java:214-216 | an unknown source key fails with "Invalid key provided" whatever the chord |
| LineTransposer.ClassPrefix | src/code/ChordProgressionHandler.java:247-250 | the longest prefix of one class (whitespace or not): all of it in the class, the next character not |
| LineTransposer.RunLength | src/code/ChordProgressionHandler.java:247-250 | a non-empty string's first match is non-empty and fits in it |
| LineTransposer.RunsPartition | src/code/ChordProgressionHandler.java:247-251 | the matches concatenate to the line, each is a run of one class, and neighbours alternate classes |
| LineTransposer.RunsCover | src/code/ChordProgressionHandler.java:247-251 | the matches concatenate to the line |
| LineTransposer.RunsAlternate | src/code/ChordProgressionHandler.java:247-251 | the matches are non-empty single-class runs whose classes alternate |
| LineTransposer.RunsOfConcat | src/code/ChordProgressionHandler.java:247-251 | matching the concatenation of alternating runs gives those runs back |
| LineTransposer.TransposeRun | src/code/ChordProgressionHandler.java:251-256 | a whitespace run is copied; a run fails only when its trimmed text is a valid chord |
| LineTransposer.RunNeverMissesKey | src/code/ChordProgressionHandler.java:251-256 | a run never fails with the missing-key error |
| LineTransposer.TransposeRuns | src/code/ChordProgressionHandler.java:250-257 | one outcome per run, in order |
| LineTransposer.AssembleCons | src/code/ChordProgressionHandler.java:250-257 | the first run's failure ends the line; otherwise its text comes first |
| LineTransposer.TransposeLineStep | src/code/ChordProgressionHandler.java:250-257 | transposing a line is transposing its first match, then the rest of the line |
| LineTransposer.TransposeEmptyLine | src/code/ChordProgressionHandler.java:243-260 | the empty line gives the empty line |
| LineTransposer.MatchEnd | src/code/ChordProgressionHandler.java:247-250 | the next match from i ends where the class first changes |
| LineTransposer.ProcessChordLine | src/code/ChordProgressionHandler.java:243-260 | the loop's result is the line transposition function, including the first failure |
| LineTransposer.LineWithoutChordsUnchanged | src/code/ChordProgressionHandler.java:250-257 | a line none of whose runs is a valid chord comes back unchanged |
| LineTransposer.RunRoundTrip | src/code/ChordProgressionHandler.java:251-256 | a transposed run is a run of the same class, and it transposes back to the original |
| LineTransposer.ChordRunRoundTrip | src/code/ChordProgressionHandler.java:252-253 | a transposed chord is a non-whitespace run that transposes back to the chord |
| LineTransposer.RunsRoundTrip | src/code/ChordProgressionHandler.java:250-257 | transposed alternating runs still alternate, and each transposes back |
| LineTransposer.TransposeLineRoundTrip | src/code/ChordProgressionHandler.java:243-260 | a line that transposes from k1 to k2 transposes back from k2 to k1 to the original line |
| LineTransposer.TransposeLineSameKey | src/code/ChordProgressionHandler.java:243-260 | transposing a line into its own key either fails or leaves it unchanged |
| LineTransposer.TransposeLineRuns | src/code/ChordProgressionHandler.java:250-257 | a line that transposes is the concatenation of one output per run: a run whose trimmed text is not a valid chord is copied, and a valid chord is replaced by its transposition |
| LineTransposer.DegreeRun | src/code/ChordProgressionHandler.java:252-253 | a scale chord of k1 standing as a run becomes the chord of the same degree of k2 |
| LineTransposer.BlankOrDegreeRun | src/code/ChordProgressionHandler.java:251-256 | a whitespace run is kept and a scale-chord run moves to the same degree |
| LineTransposer.DegreeRuns | src/code/ChordProgressionHandler.java:250-257 | every run of a line of scale chords and whitespace transposes to its expected run |
| LineTransposer.DegreeLine | src/code/ChordProgressionHandler.java:243-260 | a line of scale chords of k1 separated by whitespace becomes the line of the same degrees in k2, whitespace kept |
| LineTransposerExamples.TransposeLineExample | src/tests/ChordProgressionHandlerTest.java:26-34 | "C G Am F" from C to D is "D A Bm G" |
| LineTransposerExamples.ExampleRuns | src/tests/ChordProgressionHandlerTest.java:26-34 | the runs of that line transpose to the runs of "D A Bm G" |
| DocumentProcessor.DetectedKeys | src/code/ChordProgressionHandler.java:271-272 | one detection per line, in order |
| DocumentProcessor.FirstFound | src/code/ChordProgressionHandler.java:273-275 | None exactly when nothing was found; otherwise the first found value |
| DocumentProcessor.DetectSourceKey | src/code/ChordProgressionHandler.java:271-275 | None exactly when no line names a key; a found key is in the table |
| DocumentProcessor.DetectSourceKeyIsFirst | src/code/ChordProgressionHandler.java:271-275 | the found key is the key of the first line that names one |
| DocumentProcessor.ProcessLine | src/code/ChordProgressionHandler.java:278-286 | a line mentioning "key" becomes "`<target> key`"; a line that is not a chord line is copied; only a chord line can fail |
| DocumentProcessor.ProcessLines | src/code/ChordProgressionHandler.java:277-287 | one outcome per line, in order |
| DocumentProcessor.ProcessContent | src/code/ChordProgressionHandler.java:270-288 | no key gives the missing-key error; success gives each line's processed text in order; failure is the error of the first failing line |
| DocumentProcessor.NoKeyErrorOnlyFromContent | src/code/ChordProgressionHandler.java:278-286 | processing a single line never gives the missing-key error |
| DocumentProcessor.NoKeyInContentIff | src/code/ChordProgressionHandler.java:271-275 | processContent fails with the missing-key error exactly when no line names a key |
| DocumentProcessor.ProcessLineSameKey | src/code/ChordProgressionHandler.java:278-286 | into its own key, a line without a marker that is processed is unchanged |
| DocumentProcessor.ProcessLinesSameKey | src/code/ChordProgressionHandler.java:277-287 | into the source key, every line without a marker comes back unchanged |
| DocumentProcessor.ProcessLinesRoundTrip | src/code/ChordProgressionHandler.java:277-287 | every transposed chord line transposes back to the original line |
| DocumentProcessor.ExampleSourceKey | src/tests/ChordProgressionHandlerTest.java:38-41 | the test text's source key is C |
| DocumentProcessor.ExampleMarkerLine | src/tests/ChordProgressionHandlerTest.java:45 | "key: C" becomes "D key" |
| DocumentProcessor.ExampleLyricLine | src/tests/ChordProgressionHandlerTest.java:46 | the lyric line is copied |
| DocumentProcessor.ProcessContentExample | src/tests/ChordProgressionHandlerTest.java:36-47 | the test text transposed to D is ["D key", "This is a lyric line"] |
| Grids.FirstEmpty | src/code/NumberGame.java:245-246 | the leftmost empty column, with no empty cell before it, or the row length exactly when the row has no empty cell |
| Grids.FilledInRowBound | src/code/NumberGame.java:196-200 | a row has at most as many filled cells as cells, and as many exactly when it has no empty cell |
| Grids.FilledBound | src/code/NumberGame.java:196-200 | a board has at most as many filled cells as cells, and as many exactly when it is full |
| Grids.SizeOfRectangle | src/code/NumberGameFX.java:28-31 | a board of equal rows has rows x columns cells; the game's has 20 |
| Grids.FilledUpdate | src/code/NumberGameFX.java:168 | writing one cell changes the filled count by what the cell held and what it holds now |
| Grids.EmptyBoardFilled | src/code/AbstractNumberGame.java:35-39 | a cleared board has no filled cell |
| AbstractNumberGame.NewGrid | src/code/AbstractNumberGame.java:26-30 | a fresh 4 x 5 grid of empty cells |
| AbstractNumberGame.ResetGrid | src/code/AbstractNumberGame.java:35-39 | every cell becomes 0 and the shape stays |
| AbstractNumberGame.CanPlaceNumber | src/code/AbstractNumberGame.java:62-78 | true exactly when the row has an empty cell and no filled cell of an earlier row is larger; row 0 only needs an empty cell |
| AbstractNumberGame.CanPlaceMonotone | src/code/AbstractNumberGame.java:62-78 | a row that accepts a number accepts every larger one |
| AbstractNumberGame.CanPlaceReadsEarlierRowsOnly | src/code/AbstractNumberGame.java:62-78 | the rule reads only the earlier rows and whether the row has an empty cell |
| AbstractNumberGame.EmptyBoardAcceptsAll | src/code/AbstractNumberGame.java:62-78 | a cleared grid accepts every number in every row |
| NumberGame.AscendingRowsComplete | src/code/NumberGame.java:67-106 | the two passes together hold exactly when every cell is positive and the whole grid ascends in row-major order |
| NumberGame.CompleteIsFull | src/code/NumberGame.java:67-106 | a complete grid is full |
| NumberGame.PlaceInRowFillsOneCell | src/code/NumberGame.java:244-251 | only the chosen row changes; a full row stays as it is; otherwise one more cell is filled |
| NumberGame.TurnLost | src/code/NumberGame.java:148-166 | a lost turn had a valid row the rule refused; the grid is kept, and one game plus every filled cell is counted |
| NumberGame.TurnWon | src/code/NumberGame.java:148-158 | a won turn placed the number and left a complete, full grid; one game, one win and 20 placements are counted |
| NumberGame.TurnContinue | src/code/NumberGame.java:148-161 | a continuing turn fills one more cell of a grid that was not full, makes the drawn number current, and counts nothing |
| NumberGame.TurnKeepsCounters | src/code/NumberGame.java:148-166 | wins never exceed games; a turn adds at most one game and never lowers the placement total |
| NumberGame.CountFilled | src/code/NumberGame.java:195-200 | the loop counts the grid's filled cells |
| NumberGame.NumberGame.constructor | src/code/NumberGame.java:30-59 | a cleared 4 x 5 grid and zero counters; in console mode the first number is drawn |
| NumberGame.NumberGame.ResetGame | src/code/NumberGame.java:222-225 | a cleared grid and a new current number; the counters stay |
| NumberGame.NumberGame.IsGameComplete | src/code/NumberGame.java:67-106 | the two passes decide completeness |
| NumberGame.NumberGame.RowsFilledAscending | src/code/NumberGame.java:69-84 | the first pass holds exactly when every cell is positive and each row ascends |
| NumberGame.NumberGame.RowsJoinAscending | src/code/NumberGame.java:86-103 | on ascending rows, the second pass holds exactly when the whole grid ascends |
| NumberGame.NumberGame.LastNonZeroInRow | src/code/NumberGame.java:93-100 | the rightmost non-zero value of the row, or 0 |
| NumberGame.NumberGame.PlaceNumberInRow | src/code/NumberGame.java:244-251 | the current number goes into the row's leftmost empty cell |
| NumberGame.NumberGame.UpdateGameStats | src/code/NumberGame.java:190-201 | one more game, one more win if won, and the filled cells added to the placement total |
| NumberGame.NumberGame.PlayTurn | src/code/NumberGame.java:134-166 | one pass of the playGame loop: the outcome and new state of the turn function |
| NumberGameFx.ScanFails | src/code/NumberGameFX.java:198-212 | meeting a visited value below the previous one means the placement is out of order |
| NumberGameFx.ScanDone | src/code/NumberGameFX.java:198-212 | finishing row `row` without a failure means the placement is in order |
| NumberGameFx.NextNumber | src/code/NumberGameFX.java:147-153 | the head of a non-empty queue becomes current; an empty queue changes nothing; the grid and counters stay |
| NumberGameFx.ClickOnEmptyCell | src/code/NumberGameFX.java:163-188 | a click that places a number: out of order loses one game; in order and full wins; in order and not full takes the next number |
| NumberGameFx.ClickIgnored | src/code/NumberGameFX.java:164-166 | a click on a filled cell, or with no current number, changes nothing at all |
| NumberGameFx.ClickFillsClickedCell | src/code/NumberGameFX.java:163-170 | only the clicked cell can change, and it is filled exactly when it was empty and there was a number |
| NumberGameFx.ClickKeepsConsistent | src/code/NumberGameFX.java:163-188 | a click keeps the shape, drawn numbers only, non-negative counters and no more placements than filled cells |
| NumberGameFx.ClickWinsOnlyOnFullGrid | src/code/NumberGameFX.java:179-182 | a win comes only from a click on an empty cell that leaves a full grid |
| NumberGameFx.FullOrderedIsComplete | src/code/NumberGameFX.java:198-228 | on a full grid, the placement check over all rows holds exactly when the grid is complete |
| NumberGameFx.CheckedClickWinIsComplete | src/code/NumberGameFX.java:198-212 | with the check over all rows, a win leaves a complete grid |
| NumberGameFx.WinOnUnorderedGrid | src/code/NumberGameFX.java:163-212 | as written, a click can win on a grid that is not ascending |
| NumberGameFx.UnorderedFullBoard | src/code/NumberGameFX.java:198-212 | the board of that example passes the row-0 check, is full, and is not complete |
| NumberGameFx.NumberGameFx.constructor | src/code/NumberGameFX.java:28-39 | an empty 4 x 5 grid, an empty queue, and zeroes |
| NumberGameFx.NumberGameFx.ResetGrid | src/code/NumberGameFX.java:122-131 | every cell and the placement counter back to 0 |
| NumberGameFx.NumberGameFx.GenerateRandomNumbers | src/code/NumberGameFX.java:136-142 | the queue becomes the twenty drawn numbers, each between 1 and 1000 |
| NumberGameFx.NumberGameFx.DisplayNextNumber | src/code/NumberGameFX.java:147-153 | the queue is polled into the current number |
| NumberGameFx.NumberGameFx.StartNewGame | src/code/NumberGameFX.java:111-117 | a cleared grid, the first drawn number current, the other nineteen queued |
| NumberGameFx.NumberGameFx.IsPlacementValid | src/code/NumberGameFX.java:198-212 | the scan holds exactly when the visited values of rows 0..row ascend |
| NumberGameFx.NumberGameFx.IsGridFull | src/code/NumberGameFX.java:219-228 | true exactly when no cell is empty |
| NumberGameFx.NumberGameFx.HandleCellClick | src/code/NumberGameFX.java:163-188 | the new state is the click function of the old one |
| NumberGameFx.NumberGameFx.CheckPlacement | src/code/NumberGameFX.java:172-187 | an out-of-order grid counts a lost game; an ordered one counts a placement, then a win or the next number |
| NumberGameFx.NumberGameFx.CompletePlacement | src/code/NumberGameFX.java:180-185 | a full grid counts a win; otherwise the next number is taken |

## Left out

- File input and output, the console prompts of `startTransposition`, and the `FileHandler` are left out. `processContent` is modelled on a list of lines.
- `null` lines and chords are left out: the model's strings always exist.
- Whitespace is the set of Java's `\s` (space, tab, line feed, vertical tab, form feed, carriage return). Lines are taken to hold no other control characters and no Unicode spaces. For such characters `String.trim` and `Character.isWhitespace` would differ from `\s`.
- `toLowerCase` is modelled on ASCII letters only.
- ChordSyntax.IsValidChord: the pattern is modelled as a grammar with a parser and printer rather than as a regular expression.
- `processContent`'s `parallelStream` is modelled as a sequential map. When lines fail, the model reports the first failing line's error; the source reports one of them.
- `ChordLine` and its line-number bookkeeping, the singleton `getInstance`, and the logging handler are left out. The key table is a constant, built once as `initializeKeys` does.
- DocumentProcessor.ProcessContent: the same-key and round-trip properties are stated for lines (`ProcessLinesSameKey`, `ProcessLinesRoundTrip`), and `ProcessContent`'s pointwise ensures links them to whole content. They are not restated at the content level.
- Random draws become parameters restricted to 1..1000 (`IsDrawn`).
- The Swing and JavaFX user interface is left out: buttons, labels, alerts, the stage, and the solution printout. The average-placements figure is a floating-point value in a label and is left out.
- `guiMode`'s console branches and printing are left out. The Scanner parsing of `playGame` is left out, including non-numeric input and the "play again" prompt; a turn takes the row as an integer.
- The counters are unbounded integers. Java's 32-bit overflow is not modelled.
- The grid is a rectangular `array2`. `int[][]` could be jagged, but both games allocate 4 x 5.
- AbstractNumberGame.CanPlaceNumber: requires the row to be in range. The source throws an index exception for other rows; `playGame` rejects them before calling it, and the model's `Turn` does too.
- NumberGame.NumberGame.PlaceNumberInRow: requires the row to be in range, as its only caller guarantees.
- `WordGame`, `Score`, `Country`, `World`, `Main` and the `NumberGameStrategy` interface are not part of this model.

## Findings

| source | as written | input that shows it | evidently intended | confidence | as-written member | corrected member |
|---|---|---|---|---|---|---|
| src/code/NumberGameFX.java:198-212 | `isPlacementValid` checks only rows 0..row, and each of them only up to its first empty cell, so a click that fills the grid counts as a win even when later rows hold smaller numbers | row 0 holds 500..503 and an empty last cell, rows 1-3 hold 100..114, 504 is current, and cell (0, 4) is clicked: the game is won, but the grid does not ascend | the numbers ascend across the whole grid (the method's own comment), so a win means a complete grid | not executed | NumberGameFx.WinOnUnorderedGrid | NumberGameFx.CheckedClickWinIsComplete |
