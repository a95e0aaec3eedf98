# Sarcasm-Model in Dafny

A functional model of the logic in the Sarcasm-Model repository: the
console game in which a human and a trained sarcasm classifier guess the
label of the same random headline, the handler layer that draws dataset
entries and queries the classifier, the NDJSON-to-JSON-array cleaning step
of the dataset, and the comparison of two dataset versions.

Console lines, the random index and the classifier come in as parameters.
The JSON parser is a parameter too. Everything else is a pure function.

| file | module | models |
|---|---|---|
| `wrappers.dfy` | `Wrappers` | `Option` and `Result` |
| `text.dfy` | `Text` | Python's `str.lower` and `str.strip` |
| `json.dfy` | `Json` | JSON values as the scripts see them: an object, or another value |
| `handlers.dfy` | `Handlers` | `DatasetHandler.get_random_entry` and `ModelHandler.predict` |
| `cli.dfy` | `Cli` | the menu and game state machine over the three counters |
| `cleaner.dfy` | `Cleaner` | `ndjson_to_json` |
| `overlap.dfy` | `Overlap` | the set comparison of two dataset versions |

The controller is a `Step(env, session, line, pick)` function. Each
`input()` call of the program is a `Screen`: the menu, the headline prompt,
"press ENTER", the 0/1 guess and the play-again prompt. There are also two
terminal screens, `Exited` and `Crashed`. The counters live in a `Stats`
record. `shown` records what a step put on screen where that matters, such
as "no stats" against the stats table. `Run` feeds a sequence of lines
through `Step`.

## Model

| member | source | states |
|---|---|---|
| Text.Lower | 5_implementation/handlers.py:9 | lower-casing keeps the length, maps every character through the case map, and leaves no upper-case letter |
| Text.LowerIdempotent | 5_implementation/handlers.py:9 | lower-casing an already lower-cased string changes nothing |
| Text.LowerIsN | 5_implementation/cli.py:86 | a line lower-cases to "n" exactly when it is "n" or "N" |
| Text.Strip | 1_dataset/cleaner.py:15 | the stripped line is no longer than the line and has no whitespace at either end |
| Text.StripIsCore | 1_dataset/cleaner.py:15 | the stripped line is a slice of the line, and everything cut off before and after it is whitespace |
| Text.StripUnique | 1_dataset/cleaner.py:15 | any whitespace prefix and suffix around a trimmed core strip to exactly that core, so the stripped line is uniquely determined |
| Text.StripIdempotent | 1_dataset/cleaner.py:15 | stripping twice is stripping once |
| Text.StripBlank | 1_dataset/cleaner.py:14-15 | a whitespace-only line strips to the empty string |
| Handlers.GetRandomEntry | 5_implementation/handlers.py:21-26 | fails exactly on an empty dataset; otherwise returns the label and then the headline of the entry at the drawn index, and that pair occurs verbatim in the dataset |
| Handlers.EveryEntryReachable | 5_implementation/handlers.py:23 | every index in `[0, len-1]` is a legal draw and yields that entry |
| Handlers.Predict | 5_implementation/handlers.py:8-9 | the classifier is applied to the lower-cased headline only: the answer is the classifier's answer on the lower-cased form of any case variant of the headline |
| Handlers.PredictIgnoresCase | 5_implementation/handlers.py:8-9 | the prediction for a headline equals the prediction for its lower-cased form, and headlines equal up to case get the same label |
| Cli.ParseGuess | 5_implementation/cli.py:46-53 | a guess is accepted exactly for "0" and "1", its value is 0 or 1, and it is the digit that was typed |
| Cli.ParseGuessRoundTrip | 5_implementation/cli.py:50-51 | the token of label 0 or 1 is accepted as that label |
| Cli.BeginRound | 5_implementation/cli.py:58-61 | a round adds one to the total and leaves the correct-counters; it crashes exactly on an empty dataset, otherwise it asks about the drawn entry |
| Cli.Judge | 5_implementation/cli.py:70-83 | the user counter grows by one iff the user's guess equals the true label, otherwise stays; the model counter likewise for the model's label; the total stays |
| Cli.ShowStats | 5_implementation/cli.py:30-44 | the stats screen leaves the counters as they are and reports "no stats" exactly when no round was played |
| Cli.Step | 5_implementation/cli.py:55-120 | per input line: the total grows by at most one, and it changes exactly when a round starts (from the menu or the play-again prompt); each correct-counter grows by at most one and only when a guess is answered; none shrinks; the counter invariant is kept |
| Cli.MenuTransitions | 5_implementation/cli.py:98-120 | "1", "2", "3" and "4" lead to predict, play, stats and exit respectively; only "2" touches the counters; any other line keeps the menu and the counters |
| Cli.RoundCountedFirst | 5_implementation/cli.py:55-87 | starting a round, from the menu or by playing on, counts it before the guess prompt and asks about the entry at the drawn index |
| Cli.GuessJudged | 5_implementation/cli.py:65-83 | a valid guess is judged against the drawn label; user and model counters move independently, each iff its label matches; the total stays |
| Cli.InvalidGuessIgnored | 5_implementation/cli.py:46-53 | any token other than "0"/"1" keeps the same prompt, round and counters |
| Cli.StatsReadOnly | 5_implementation/cli.py:115 | the "3" menu entry leaves the counters alone and shows "no stats" exactly when the total is zero, the counts otherwise |
| Cli.PlayAgainStopsOnN | 5_implementation/cli.py:85-87 | after a round, the game returns to the menu exactly on "n" or "N", whatever the dataset, and stopping leaves every counter unchanged |
| Cli.PlayAgainPlaysOn | 5_implementation/cli.py:55-87 | on any line other than "n"/"N" another round starts and asks for a guess |
| Cli.PredictPathReadOnly | 5_implementation/cli.py:89-96 | the headline prompt shows the model's label for the typed headline, the pause returns to the menu, and neither changes any counter |
| Cli.Run | 5_implementation/cli.py:98-120 | over a whole session the total grows by at most one per line and no counter ever decreases |
| Cli.RunPreservesInv | 5_implementation/cli.py:55-87 | every session keeps each correct-counter within the number of judged rounds |
| Cli.SessionCountersBounded | 5_implementation/cli.py:10-13 | from start-up, both correct-counters never exceed the round total |
| Cli.ExitIsTerminal | 5_implementation/cli.py:116-118 | after "4" no input changes anything |
| Cli.OneRoundScenario | 5_implementation/cli.py:55-87 | one-entry dataset with label 0, model always 1, user guesses "0", stops, opens stats: total 1, user 1, model 0 shown |
| Cleaner.RemoveAttribute | 1_dataset/cleaner.py:17-18 | with a truthy attribute an object loses exactly that key and keeps every other key and value; non-objects, and everything when the attribute is None or "", pass unchanged |
| Cleaner.RemoveAbsentIsNoop | 1_dataset/cleaner.py:18 | removing a key the object lacks changes nothing |
| Cleaner.RemoveIdempotent | 1_dataset/cleaner.py:17-18 | removing the attribute twice is removing it once |
| Cleaner.CleanLine | 1_dataset/cleaner.py:14-21 | a line yields an entry exactly when its stripped text parses, and that entry is the parsed value with the attribute removed |
| Cleaner.Kept | 1_dataset/cleaner.py:13-21 | the kept indices are in range, strictly increasing, and contain exactly the lines that survive |
| Cleaner.FilterMapOrder | 1_dataset/cleaner.py:13-19 | output entry k is the image of the k-th surviving element, so order is preserved |
| Cleaner.FilterMapAppend | 1_dataset/cleaner.py:13-21 | processing a concatenation is processing each part and concatenating: no line affects the later ones |
| Cleaner.CleanLines | 1_dataset/cleaner.py:8-21 | the array built by the loop has at most one entry per line, and every entry is what some line cleans to; fully characterised by CleanLinesOrder |
| Cleaner.CleanLinesSnoc | 1_dataset/cleaner.py:13-19 | reading one more line appends that line's cleaned entry when it parses, and leaves the array as it was when it does not |
| Cleaner.CleanLinesOrder | 1_dataset/cleaner.py:13-21 | the array holds the cleaned parsing lines in source order, one per line that parses, and nothing else, so its length is the number of lines that parse |
| Cleaner.MalformedLineSkipped | 1_dataset/cleaner.py:14-21 | a malformed line is dropped and the lines on both sides are processed as if it were absent |
| Cleaner.BlankLineSkipped | 1_dataset/cleaner.py:14-15 | a blank line yields no entry, for any parser that rejects the empty text |
| Cleaner.FalsyAttributeKeepsEntries | 1_dataset/cleaner.py:17-19 | with attribute None or "" the array is exactly the parsed values of the surviving lines |
| Cleaner.TruthyAttributeRemoved | 1_dataset/cleaner.py:17-18 | with a truthy attribute no object in the array has that key |
| Cleaner.ArticleLinkExample | 1_dataset/cleaner.py:17-19 | a headline object with `article_link` comes out with only `headline` and `is_sarcastic` |
| Cleaner.NdjsonToJson | 1_dataset/cleaner.py:3-31 | a read failure writes nothing; otherwise the written array is the cleaned lines |
| Overlap.KeySet | 5_implementation/3.5_optimization/dataset/dataset_overlap.py:9-10 | the pair set holds exactly the (headline, label) pairs of the entries |
| Overlap.KeySetCollapses | 5_implementation/3.5_optimization/dataset/dataset_overlap.py:9-10 | an entry whose pair is already present, whatever its other keys, adds nothing |
| Overlap.KeySetSize | 5_implementation/3.5_optimization/dataset/dataset_overlap.py:9-10 | a version has no more distinct pairs than entries |
| Overlap.Compare | 5_implementation/3.5_optimization/dataset/dataset_overlap.py:12-14 | shared, only-v1 and only-v2 are pairwise disjoint, together make up the union of both pair sets, and only-vN has no pair of the other version |
| Overlap.CompareCounts | 5_implementation/3.5_optimization/dataset/dataset_overlap.py:12-18 | the v1 pair count is shared plus only-v1, and the v2 pair count is shared plus only-v2 |
| Overlap.NothingOnlyInV1 | 5_implementation/3.5_optimization/dataset/dataset_overlap.py:12-26 | only-v1 is empty exactly when v1's pairs all occur in v2, and then v2 is v1 plus only-v2 |

Notes on the code:
- The classifier's answer is never checked to be 0 or 1, so a label is any integer.
- An empty dataset makes `randint(0, -1)` raise an uncaught error: `GetRandomEntry` returns `Failure(EmptyRange)` and the game goes to the `Crashed` screen.
- The cleaning and overlap scripts are modelled as well.

## Left out
- Console output, the terminal clearing calls and the "Press ENTER" pause text: only which prompt comes next is modelled.
- The accuracy figures in `print_stats` (a float division truncated to four characters): the stats table carries the raw counts.
- `random.randint`: the drawn index is the `pick` parameter. Its distribution is not modelled.
- `joblib.load` and the classifier's internals: the classifier is a function parameter.
- Handlers.Predict: the classifier is a total function and is assumed never to raise; in the program an exception from `model.predict` is uncaught and ends the process.
- Loading and validating the dataset file: entries arrive as `Entry` values that always have a headline and a label.
- `json.loads`, `json.load`, `json.dump` and all file handling: the parser is a parameter, file contents are a sequence of lines or a read failure, and the written file is the returned array.
- A read failure part-way through the file: the model treats reading as all or nothing. The code also discards the entries already parsed, so nothing is written in either case.
- A failure while writing the output file: it only prints a message.
- Exceptions from `json.loads` other than a decode error, such as deep recursion: these would end the conversion like a read failure.
- The module-level script runs with hard-coded paths in the cleaner and the overlap script, and the overlap script's printing.
- `5_implementation/5_game/main.py`: it only wires the handlers into the CLI.
- Text.Lower: lower-cases only ASCII letters. Python's `str.lower` maps all Unicode letters, and a full case table is not part of this model.
