/** The console game controller: a menu state machine over three counters
    (rounds played, rounds the user got right, rounds the model got right).
    Every `input()` call of the program is a screen waiting for one line;
    `Step` consumes that line. Clearing the terminal and the printed text
    are left out; `shown` records what the screen reports. */
module Cli {
  import opened Wrappers
  import Text
  import opened Handlers

  /** The running counters; they only reset when the process restarts. */
  datatype Stats = Stats(total: nat, userCorrect: nat, modelCorrect: nat)

  /** What the last step put on screen, as far as the logic is concerned. */
  datatype Shown =
    | Blank
    | InvalidInput
    | Prediction(answer: int)
    | NoStats
    | StatsTable(stats: Stats)
    | Verdict(truth: int, user: int, model: int)
    | Goodbye

  /** The prompt the program is blocked on. */
  datatype Screen =
    | Menu                               // menu selection
    | HeadlinePrompt                     // headline to classify
    | PressEnter                         // "Press ENTER to continue..."
    | Guess(truth: int, headline: string) // "Is it sarcasm? [0/1]"
    | PlayAgain                          // "cancel with 'n'"
    | Exited                             // after "4": the process ends
    | Crashed                            // uncaught error drawing from an empty dataset

  datatype Session = Session(screen: Screen, stats: Stats, shown: Shown)

  /** The collaborators the controller is set up with. */
  datatype Env = Env(dataset: seq<Entry>, classifier: Classifier)

  const Initial := Session(Menu, Stats(0, 0, 0), Blank)

  /** The counter invariant. While a guess is pending the round has been
      counted but not yet judged, so each correct-counter stays one below. */
  predicate Inv(s: Session) {
    var pending := if s.screen.Guess? then 1 else 0;
    s.stats.userCorrect + pending <= s.stats.total && s.stats.modelCorrect + pending <= s.stats.total
  }

  /** `get_user_prediction`: only the tokens "0" and "1" are accepted. */
  function ParseGuess(line: string): (r: Option<int>)
    ensures r.Some? <==> line == "0" || line == "1"
    ensures r.Some? ==> (r.value == 0 || r.value == 1)
    ensures r.Some? ==> line == [('0' as int + r.value) as char]
  {
    if line == "0" then Some(0)
    else if line == "1" then Some(1)
    else None
  }

  /** The token that stands for a label is accepted as that label. */
  lemma ParseGuessRoundTrip(answer: int)
    requires answer == 0 || answer == 1
    ensures ParseGuess([('0' as int + answer) as char]) == Some(answer)
  {
  }

  /** Start of a `game_loop` iteration: count the round, then draw an entry. */
  function BeginRound(env: Env, stats: Stats, pick: int): (s: Session)
    requires ValidPick(|env.dataset|, pick)
    ensures s.stats == stats.(total := stats.total + 1)
    ensures s.screen == Crashed <==> |env.dataset| == 0
    ensures s.screen != Crashed ==> s.screen == Guess(env.dataset[pick].isSarcastic, env.dataset[pick].headline)
  {
    var counted := stats.(total := stats.total + 1);
    match GetRandomEntry(env.dataset, pick)
    case Failure(_) => Session(Crashed, counted, Blank)
    case Success((truth, headline)) => Session(Guess(truth, headline), counted, Blank)
  }

  /** Judge one round: user and model are compared, independently, with
      the same true label. */
  function Judge(stats: Stats, truth: int, user: int, model: int): (r: Stats)
    ensures r.total == stats.total
    ensures r.userCorrect == stats.userCorrect + 1 <==> user == truth
    ensures r.userCorrect == stats.userCorrect <==> user != truth
    ensures r.modelCorrect == stats.modelCorrect + 1 <==> model == truth
    ensures r.modelCorrect == stats.modelCorrect <==> model != truth
  {
    Stats(stats.total,
          stats.userCorrect + (if user == truth then 1 else 0),
          stats.modelCorrect + (if model == truth then 1 else 0))
  }

  /** `print_stats`: read-only; with no rounds played it reports that and
      goes no further (no division). */
  function ShowStats(stats: Stats): (s: Session)
    ensures s.screen == PressEnter && s.stats == stats
    ensures s.shown == NoStats <==> stats.total == 0
  {
    if stats.total == 0 then Session(PressEnter, stats, NoStats)
    else Session(PressEnter, stats, StatsTable(stats))
  }

  /** One line of console input, read at the current prompt. `pick` is the
      index `randint` would draw if this step starts a round. */
  function Step(env: Env, s: Session, line: string, pick: int): (s': Session)
    requires ValidPick(|env.dataset|, pick)
    ensures s.stats.total <= s'.stats.total <= s.stats.total + 1
    ensures s.stats.userCorrect <= s'.stats.userCorrect <= s.stats.userCorrect + 1
    ensures s.stats.modelCorrect <= s'.stats.modelCorrect <= s.stats.modelCorrect + 1
    ensures Inv(s) ==> Inv(s')
    ensures !s.screen.Guess? ==> s'.stats.userCorrect == s.stats.userCorrect && s'.stats.modelCorrect == s.stats.modelCorrect
    ensures s'.stats.total != s.stats.total <==>
      (s.screen == Menu || s.screen == PlayAgain) && (s'.screen.Guess? || s'.screen == Crashed)
  {
    match s.screen
    case Menu =>
      if line == "1" then Session(HeadlinePrompt, s.stats, Blank)
      else if line == "2" then BeginRound(env, s.stats, pick)
      else if line == "3" then ShowStats(s.stats)
      else if line == "4" then Session(Exited, s.stats, Goodbye)
      else s.(shown := InvalidInput)
    case HeadlinePrompt =>
      Session(PressEnter, s.stats, Prediction(Predict(env.classifier, line)))
    case PressEnter =>
      Session(Menu, s.stats, Blank)
    case Guess(truth, headline) =>
      (match ParseGuess(line)
       case None => s.(shown := InvalidInput)
       case Some(user) =>
         var model := Predict(env.classifier, headline);
         Session(PlayAgain, Judge(s.stats, truth, user, model), Verdict(truth, user, model)))
    case PlayAgain =>
      if Text.Lower(line) == "n" then Session(Menu, s.stats, Blank)
      else BeginRound(env, s.stats, pick)
    case Exited => s
    case Crashed => s
  }

  /** The menu: "1" predict, "2" play, "3" stats, "4" exit; any other line
      keeps the menu and the counters. Only "2" touches the counters. */
  lemma MenuTransitions(env: Env, s: Session, line: string, pick: int)
    requires s.screen == Menu && ValidPick(|env.dataset|, pick)
    ensures var s' := Step(env, s, line, pick);
      && (line == "1" <==> s'.screen == HeadlinePrompt)
      && (line == "2" <==> s'.screen.Guess? || s'.screen == Crashed)
      && (line == "3" <==> s'.screen == PressEnter)
      && (line == "4" <==> s'.screen == Exited)
      && (line != "2" ==> s'.stats == s.stats)
      && (line !in {"1", "2", "3", "4"} ==> s' == s.(shown := InvalidInput))
  {
  }

  /** A round counts itself before the user is asked, and judges both
      guesses against the entry it drew. */
  lemma RoundCountedFirst(env: Env, s: Session, line: string, pick: int)
    requires ValidPick(|env.dataset|, pick) && |env.dataset| > 0
    requires (s.screen == Menu && line == "2") || (s.screen == PlayAgain && Text.Lower(line) != "n")
    ensures var s' := Step(env, s, line, pick);
      && s'.stats == s.stats.(total := s.stats.total + 1)
      && s'.screen == Guess(env.dataset[pick].isSarcastic, env.dataset[pick].headline)
  {
  }

  /** A valid guess: the user counter moves iff the guess equals the drawn
      label, the model counter moves iff the model's label does, each
      regardless of the other; the round total stays. */
  lemma GuessJudged(env: Env, s: Session, line: string, pick: int)
    requires ValidPick(|env.dataset|, pick) && s.screen.Guess?
    requires line == "0" || line == "1"
    ensures var s' := Step(env, s, line, pick);
      var user := if line == "0" then 0 else 1;
      var model := Predict(env.classifier, s.screen.headline);
      && s'.screen == PlayAgain
      && s'.stats.total == s.stats.total
      && (s'.stats.userCorrect == s.stats.userCorrect + 1 <==> user == s.screen.truth)
      && (s'.stats.userCorrect == s.stats.userCorrect <==> user != s.screen.truth)
      && (s'.stats.modelCorrect == s.stats.modelCorrect + 1 <==> model == s.screen.truth)
      && (s'.stats.modelCorrect == s.stats.modelCorrect <==> model != s.screen.truth)
  {
  }

  /** Any other token is rejected: same prompt, same round, same counters. */
  lemma InvalidGuessIgnored(env: Env, s: Session, line: string, pick: int)
    requires ValidPick(|env.dataset|, pick) && s.screen.Guess?
    requires line != "0" && line != "1"
    ensures var s' := Step(env, s, line, pick);
      s'.screen == s.screen && s'.stats == s.stats && s'.shown == InvalidInput
  {
  }

  /** The stats screen never changes the counters and reports "no stats"
      exactly when no round has been played. */
  lemma StatsReadOnly(env: Env, s: Session, pick: int)
    requires ValidPick(|env.dataset|, pick) && s.screen == Menu
    ensures var s' := Step(env, s, "3", pick);
      && s'.stats == s.stats
      && (s.stats.total == 0 <==> s'.shown == NoStats)
      && (s.stats.total != 0 <==> s'.shown == StatsTable(s.stats))
  {
  }

  /** The play loop returns to the menu exactly on "n" or "N". */
  lemma PlayAgainStopsOnN(env: Env, s: Session, line: string, pick: int)
    requires ValidPick(|env.dataset|, pick) && s.screen == PlayAgain
    ensures var s' := Step(env, s, line, pick);
      && (s'.screen == Menu <==> line == "n" || line == "N")
      && (line == "n" || line == "N" ==> s'.stats == s.stats)
  {
    Text.LowerIsN(line);
  }

  /** On any other line it plays another round (given something to draw). */
  lemma PlayAgainPlaysOn(env: Env, s: Session, line: string, pick: int)
    requires ValidPick(|env.dataset|, pick) && |env.dataset| > 0 && s.screen == PlayAgain
    ensures var s' := Step(env, s, line, pick);
      s'.screen.Guess? <==> line != "n" && line != "N"
  {
    Text.LowerIsN(line);
  }

  /** Predicting a headline and the "press ENTER" pause never touch the
      counters: they change only inside the game loop. */
  lemma PredictPathReadOnly(env: Env, s: Session, line: string, pick: int)
    requires ValidPick(|env.dataset|, pick)
    requires s.screen == HeadlinePrompt || s.screen == PressEnter
    ensures var s' := Step(env, s, line, pick);
      && s'.stats == s.stats
      && (s.screen == HeadlinePrompt ==> s'.screen == PressEnter && s'.shown == Prediction(Predict(env.classifier, line)))
      && (s.screen == PressEnter ==> s'.screen == Menu)
  {
  }

  /** Every pick in `picks` is one `randint` can return. */
  predicate ValidPicks(env: Env, picks: seq<int>) {
    forall i :: 0 <= i < |picks| ==> ValidPick(|env.dataset|, picks[i])
  }

  /** `menu_loop` fed a sequence of console lines, one draw per line. */
  function Run(env: Env, s: Session, lines: seq<string>, picks: seq<int>): (s': Session)
    requires |picks| == |lines| && ValidPicks(env, picks)
    ensures s.stats.total <= s'.stats.total <= s.stats.total + |lines|
    ensures s.stats.userCorrect <= s'.stats.userCorrect
    ensures s.stats.modelCorrect <= s'.stats.modelCorrect
    decreases |lines|
  {
    if lines == [] then s
    else Run(env, Step(env, s, lines[0], picks[0]), lines[1..], picks[1..])
  }

  /** The counter invariant holds throughout a session. */
  lemma {:induction false} RunPreservesInv(env: Env, s: Session, lines: seq<string>, picks: seq<int>)
    requires |picks| == |lines| && ValidPicks(env, picks)
    requires Inv(s)
    ensures Inv(Run(env, s, lines, picks))
    decreases |lines|
  {
    if lines != [] {
      RunPreservesInv(env, Step(env, s, lines[0], picks[0]), lines[1..], picks[1..]);
    }
  }

  /** Every session, from start-up, keeps both correct-counters within the
      round total. */
  lemma SessionCountersBounded(env: Env, lines: seq<string>, picks: seq<int>)
    requires |picks| == |lines| && ValidPicks(env, picks)
    ensures var s := Run(env, Initial, lines, picks);
      s.stats.userCorrect <= s.stats.total && s.stats.modelCorrect <= s.stats.total
  {
    RunPreservesInv(env, Initial, lines, picks);
  }

  /** "4" is terminal: no later input changes anything. */
  lemma {:induction false} ExitIsTerminal(env: Env, s: Session, lines: seq<string>, picks: seq<int>)
    requires |picks| == |lines| && ValidPicks(env, picks)
    requires s.screen == Exited
    ensures Run(env, s, lines, picks) == s
    decreases |lines|
  {
    if lines != [] {
      ExitIsTerminal(env, s, lines[1..], picks[1..]);
    }
  }

  /** One game on a one-entry dataset with a model that always says 1:
      the user guesses 0 and is right, the model is wrong. */
  lemma OneRoundScenario()
    ensures var env := Env([Entry("a", 0, map[])], (h: string) => 1);
      Run(env, Initial, ["2", "0", "n", "3"], [0, 0, 0, 0])
        == Session(PressEnter, Stats(1, 1, 0), StatsTable(Stats(1, 1, 0)))
  {
    var env := Env([Entry("a", 0, map[])], (h: string) => 1);
    var s1 := Step(env, Initial, "2", 0);
    assert s1 == Session(Guess(0, "a"), Stats(1, 0, 0), Blank);
    var s2 := Step(env, s1, "0", 0);
    assert s2 == Session(PlayAgain, Stats(1, 1, 0), Verdict(0, 0, 1));
    var s3 := Step(env, s2, "n", 0);
    assert s3 == Session(Menu, Stats(1, 1, 0), Blank);
    var s4 := Step(env, s3, "3", 0);
    assert Run(env, s4, [], []) == s4;
    assert Run(env, Initial, ["2", "0", "n", "3"], [0, 0, 0, 0]) == s4 by {
      assert ["2", "0", "n", "3"][1..] == ["0", "n", "3"];
      assert ["0", "n", "3"][1..] == ["n", "3"];
      assert ["n", "3"][1..] == ["3"];
      assert ["3"][1..] == [];
    }
  }
}
