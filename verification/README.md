# thumb-key-flow, modelled in Dafny

thumb-key-flow scores keyboard layouts for a 3x3 thumb keyboard. It reads
typed text and counts every (precessor, symbol, successor) window — a
*triplet* — in a process-wide table. From that table it derives symbol
frequencies. Given a layout that places each symbol on a primary key plus a
secondary (swipe) key, it sums a typing loss over the triplets.

This project models the four pure parts of `main.py`:

- `triplets.dfy` (module `Triplets`): the triplet table and `analyze`.
  - The global `TRIPLETS` dictionary is a `map<(string, string, string), nat>`. It is passed in and returned.
  - `analyze` is a state machine over the text. `Emitted` is the sequence of keys it records. `Analyze` adds them to the table.
  - The module also holds the descending-count ordering the loss loop visits the table in.
- `frequency.dfy` (module `Frequency`): the counting half of `compute_frequency`.
  - It produces per-symbol counts, their total, and the same restricted to alphabetic symbols under their lower case.
  - `isalpha` and `lower` are parameters.
  - The dictionary is visited in an arbitrary order. The results are stated as sums over key sets, so they do not depend on that order.
- `layout.dfy` (module `Layout`): the key grid.
  - `coord`, `delta`, `add`, `dest`.
  - The symbol-to-position table built from the layout rows, where the last row naming a symbol wins.
- `loss.dfy` (module `Loss`): the aggregation loop of `thumb_key_loss`.
  - It visits the triplets from the most to the least frequent.
  - It skips triplets with an unplaced symbol.
  - It adds a swipe penalty of 1 when the middle symbol's secondary key is not 5.
  - It accumulates `triplet_impact`, `loss_per_symbol` and `total_loss`.
  - It stops right after the first scored triplet centred on `"e"`.
- `sums.dfy` (module `Sums`): lookups with a default (`dict.get(k, 0)`) and sums over finite maps. The counting and loss statements are phrased with these.

The distance-and-cosine part of a triplet's loss is a parameter `geometry`. It takes two vectors:

- the *approach* vector, from where the previous symbol left the thumb to the primary key of the middle symbol;
- the *stroke* vector, from that primary key to where its swipe ends.

`dl1`, `dl2` and `al1` in the program depend on nothing else. So every aggregation property holds whatever that real-valued function is. Where a property needs the losses to be non-negative, it says so with `NonNegative(geometry)`.

Behaviours of `main.py` the model keeps:

- The swipe penalty depends on the middle symbol's *secondary* index (`pos[1][1]`), not its primary.
- `analyze` records at most `|text| - 1` triplets, not one per character. The last character is only ever a successor; it is never a middle symbol.
- Two consecutive line ends can leave a literal `"\n"` as a middle symbol, and then as a precessor. So not every newline becomes the boundary `""`.
- The loop stops after the first scored `"e"`-centred triplet. With the break, the order of the visit does change the result.

## Model

| member | source | states |
|---|---|---|
| Triplets.Bump | main.py:24-30 | recording a key raises its count by one, leaves every other count as it was, and raises the sum of all counts by one |
| Triplets.Successor | main.py:26-28 | the stored successor is the boundary `""` exactly when a line end is read while the current symbol is a real one; otherwise it is the character read |
| Triplets.Tally | main.py:22-30 | recording a sequence of keys adds to each key exactly the number of times it occurs in the sequence; the keys are the old ones plus the recorded ones; the sum grows by the length |
| Triplets.Trace | main.py:22-32 | the scanning loop records at most one key per character read, never one whose middle symbol is `""` or whose successor is `"\n"`, and its first key has the current precessor and symbol |
| Triplets.Start | main.py:17-21 | the start index is inside the text, only line ends precede it, and it is a non-line-end unless the text is all line ends (then it is the last index) |
| Triplets.Emitted | main.py:16-32 | `analyze` records at most `|text| - 1` keys, none centred on `""` or followed by `"\n"`, the first with precessor `""` and the first non-line-end character as symbol |
| Triplets.Analyze | main.py:16-32 | `analyze` adds to every key its number of recordings and changes nothing else; the sum of counts grows by at most `|text| - 1`; new keys never have middle `""` or successor `"\n"` |
| Triplets.EmittedWindows | main.py:17-32 | on a text without line ends the recorded keys are exactly the sliding windows: one per character but the last, with `""` before the first |
| Triplets.LeadingLineEndSkipped | main.py:18-21 | a leading line end changes nothing that is recorded |
| Triplets.OnlyLineEnds | main.py:18-22 | a text made only of line ends records nothing |
| Triplets.ExampleLineEnd | main.py:22-32 | `"ab\n"` records `("", "a", "b")` then `("a", "b", "")` |
| Triplets.ExampleLineEndCounts | main.py:22-30 | analysing `"ab\n"` into an empty table gives exactly those two keys with count 1 each |
| Triplets.ExampleNoLineEnd | main.py:22-32 | `"ab"` records only `("", "a", "b")`: the last character is never a middle symbol |
| Triplets.ExampleBlankLine | main.py:26-32 | in `"a\n\nb"` the second line end is read while the symbol is `""`, so it is recorded as the middle symbol `"\n"` |
| Triplets.AnalyzeCommutes | main.py:24-30 | analysing two texts gives the same table in either order |
| Triplets.SortByCount | main.py:104 | the visiting order lists every key of the table exactly once, with non-increasing counts |
| Frequency.GroupedAdd | main.py:39-45 | one loop step adds a key's count under its symbol (or its lower-cased letter) and to the total, and keeps each count equal to the sum over the keys visited so far |
| Frequency.CountSymbol | main.py:40-41 | one loop step adds the key's count under its middle symbol and to the total, and keeps every symbol count equal to the sum over the keys visited so far |
| Frequency.CountLetter | main.py:42-45 | one loop step adds the key's count under its lower-cased middle symbol and to the letter total when that symbol is alphabetic, and changes nothing otherwise; every letter count stays the sum over the alphabetic keys visited so far |
| Frequency.ComputeFrequency | main.py:34-45 | `occurrences[s]` is the sum of the counts of the keys centred on `s`, `total_occurrences` is the sum of all counts and of `occurrences`; `letter_occurrences[l]` sums the alphabetic keys lower-casing to `l`, its total sums all alphabetic keys and is at most `total_occurrences` |
| Layout.Coord | main.py:67-69 | x is always in {-1, 0, 1}; y is in {-1, 0, 1} exactly for keys 1 to 9; the key is recovered as `3 * (1 - y) + x + 2` |
| Layout.CoordOfIndex | main.py:67-69 | every grid point with x in {-1, 0, 1} is the coordinate of the key `3 * (1 - y) + x + 2` |
| Layout.CoordInjective | main.py:67-69 | two keys with the same coordinate are the same key |
| Layout.CentreIsOrigin | main.py:67-69 | key 5 is at the origin and no other key of the grid is |
| Layout.Delta | main.py:71-72 | adding the difference of two points to the first gives the second; the difference is zero exactly when the points are equal |
| Layout.Add | main.py:74-75 | moving a point leaves it where it was exactly when the vector is zero |
| Layout.DeltaAddInverse | main.py:71-75 | adding the difference of two points to the first gives the second, and the difference undoes an addition |
| Layout.Dest | main.py:81-82 | the swipe from a symbol's primary key to its destination is its secondary key's coordinate; the destination is the primary key exactly when the secondary key is 5 |
| Layout.Positions | main.py:62-65 | the table holds exactly the symbols named by some row, each at the position of the last row naming it |
| Layout.LaterRowWins | main.py:62-65 | a symbol named twice ends at its later row's position |
| Loss.Approach | main.py:126-132 | the approach vector leads from where the previous symbol left the thumb to the primary key of the middle symbol; after a tap it starts at the previous primary key |
| Loss.TripletLoss | main.py:105-110 | a triplet is scored exactly when all three of its symbols are placed, and skipped otherwise |
| Loss.SwipePenalty | main.py:111-136 | a tapped middle symbol (secondary 5) costs the geometry of a zero stroke and no penalty; any other costs exactly 1 plus the geometry of its secondary offset, which is non-zero for keys of the grid |
| Loss.SuccessorOnlyGates | main.py:105-136 | where the successor is placed does not change a triplet's loss |
| Loss.Record | main.py:139-141 | one scored triplet sets its own `triplet_impact` entry, adds its loss under its middle symbol and to `total_loss`, and leaves every other entry as it was |
| Loss.RecordBalanced | main.py:139-141 | recording a new triplet keeps `total_loss` equal to the sum of `triplet_impact` and to the sum of `loss_per_symbol` |
| Loss.Run | main.py:104-144 | every triplet the loop adds to `triplet_impact` is one of those visited and has all symbols placed; with a non-negative geometry the total never decreases |
| Loss.RunBalanced | main.py:101-144 | over distinct triplets, `total_loss` ends equal to the sum of `triplet_impact` and to the sum of `loss_per_symbol` |
| Loss.RecordPerSymbol | main.py:140-141 | recording a new triplet keeps `loss_per_symbol[s]` equal to the sum of the `triplet_impact` entries centred on `s`, for every `s`, with keys exactly the recorded middle symbols |
| Loss.RunPerSymbol | main.py:101-144 | over distinct triplets, `loss_per_symbol` ends as `triplet_impact` summed by middle symbol |
| Loss.SkippedTripletIsInert | main.py:108-110 | removing a skipped triplet from the visiting order changes none of the three results |
| Loss.NothingAfterE | main.py:143-144 | the results are those of the order cut right after any `"e"`-centred triplet whose symbols are all placed |
| Loss.Cut | main.py:104-144 | every visiting order has a point where the loop stops: right after the first scored `"e"`-centred triplet, or at the end |
| Loss.RunRecords | main.py:104-144 | the recorded triplets are exactly the scored ones up to and including the first scored `"e"`-centred one |
| Loss.RunImpacts | main.py:139-141 | each recorded triplet carries its own loss, and earlier entries keep theirs |
| Loss.ThumbKeyLoss | main.py:56-144 | visits the table in descending-count order, returns the loop's results: the recorded triplets are exactly the scored ones up to the first scored `"e"`-centred one, each with its own loss; `total_loss` is the sum of `triplet_impact` and of `loss_per_symbol`, `loss_per_symbol` is `triplet_impact` summed by middle symbol, the total is non-negative for a non-negative geometry, and only table keys whose symbols are all placed are recorded |

## Left out

- Argument parsing, reading and writing the triplet CSV file, reading the layout file, and the frequency report (`load_args`, `load_triplets`, `save_triplets`, `main`, main.py:46-54). These are I/O. The layout file arrives as a sequence of parsed rows.
- The tqdm progress bars, the `print` debug lines, and the printed loss reports (main.py:134, 146-151). These are output only. The model returns the dictionaries they print.
- `dist`, `cos_similarity`, the 0.75 and 1.5 weights and `angle_loss` (main.py:77-99, 126-136). They are floating-point numerics and are folded into the `geometry` parameter.
- The relative frequencies and fractional contributions (main.py:52, 54, 147, 151). These are float divisions; `loss / total_loss` can divide by zero.
- Layout indices are integers. The program parses them with `float()` and the grid arithmetic then runs on floats. For integral values the result is the same.
- `isalpha` and `lower` are parameters, so Python's Unicode rules are not modelled.
- The reverse map `symbols` (main.py:58, 64) is written but never read, so it is not modelled.
- Triplets.SortByCount: the order among keys of equal count is left open. Python's `sorted` keeps the dictionary's insertion order for those keys. That order follows the history of the table, which the model does not track.
- Frequency.ComputeFrequency: the order in which the dictionary is visited is left open (each step picks any remaining key). The stated results are the same for every order.
- Triplets.Analyze: an empty text is excluded by its precondition. The program fails on it because `start` is never bound.
- Losses are exact reals. The program adds them up as floating-point numbers. So `Loss.RecordBalanced`, `Loss.RunBalanced`, `Loss.RecordPerSymbol`, `Loss.RunPerSymbol` and `Loss.ThumbKeyLoss` state equalities of exact sums. In the program, `total_loss` and the sum of `loss_per_symbol` can differ in the last bits, because the additions are rounded in a different order. The penalty and the geometry are modelled over exact reals too.
- Loss.ThumbKeyLoss: the result is determined only relative to the `order` it returns. Keys of equal count may come in any order, while Python's stable `sorted` keeps their insertion order. Because of the `"e"` break, the recorded triplets can depend on that tie order.
