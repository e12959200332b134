# hello wordl: the round controller, as a Dafny model

hello wordl is a word-guessing game: the player has `maxGuesses` tries (6 in
the app) to find a hidden target word of 4 to 11 letters, and every locked-in
guess is coloured letter by letter. This project models the logic inside the
`Game` component of `src/Game.tsx`, with React stripped away:

- **Target selection** (module `Targets`, pure): `targets` keeps the first
  20000 words of the frequency list `common` that are legal guesses, and
  `randomTarget(n)` picks one of those of length `n`. The random pick is an
  index oracle `draw`.
- **Keyboard letter info** (module `Keyboard`, a method with nested loops):
  the render-time loop that folds the clues of every locked-in row into a map
  from letter to the best clue seen, under Absent < Elsewhere < Correct. It is
  proved equal to a fold (`Aggregate`). The fold is proved to give exactly the
  letters seen, each with its maximum clue, and never to downgrade a letter.
- **Round state machine** (modules `Round` and `GameModel`). `Round.View` is a
  snapshot of the component's state variables (`gameState`, `guesses`,
  `currentGuess`, `wordLength`, `hint`, `target`, `gameNumber`). The pure
  functions of `Round` give each handler's effect, and `Round.Inv` is the
  invariant they keep. `GameModel.Game` is a class with those state variables
  as fields and one method per action: letter, Backspace, Enter, `onKey`,
  `startNextGame`, give-up and the word-length slider. Each method is proved to
  change the fields exactly as the matching `Round` function says and to keep
  `Inv`.

The invariant `Round.Inv` says:
- the target is an eligible word of the current length, and it is missing
  only when no word is eligible;
- the locked-in guesses are legal words of the current length, at most
  `maxGuesses` of them, and strictly fewer while a round with a target is
  being played;
- the round is Won exactly when its last guess is the target;
- no other guess is the target.

Modelling choices that follow the code:
- The target is `Option<string>`. `pick` of an empty list gives `undefined`,
  and the code stores that as the target; no error is reported when no word of
  the length is eligible. Such a round can never be won. Its loss hint and its
  give-up hint both evaluate `target.toUpperCase()`, which throws. The model
  stops the step at that point:
  - On the last allowed guess, the guess is still locked in and the input
    cleared (lines 78-79 have run), but the hint and the state stay as they
    were (line 85). The round stays Playing with `maxGuesses` guesses, and the
    guard at line 62 then ignores every key (`Round.UndefinedTargetStalls`).
  - Give-up changes nothing (line 163).
- Winning compares the guess with the target by exact string equality
  (`===`), with no accent or case normalisation.
- Backspace on an empty guess leaves the guess empty but still sets the hint
  to the empty string (`Hint.Blank`).
- The length slider does not clear `currentGuess`. After giving up with a full
  guess typed, moving to a shorter length leaves a current guess longer than
  `wordLength`. The next letter then truncates it (`Round.Typed`), and Enter
  answers "Too short". So `|currentGuess| <= wordLength` is not part of `Inv`.
- The guard at line 62 (`guesses.length === maxGuesses`) is kept. When
  `maxGuesses > 0` and the round has a target, `Inv` shows it never fires
  while playing (`Round.PlayingHasRoom`).
- Hints are tags (`Hint`), not translated strings. `Default` is the null hint
  that shows the default prompt.

## Model

| member | source | states |
|---|---|---|
| Targets.Filter | src/Game.tsx:24-27 | `filter` keeps exactly the elements that pass, and the result is no longer than the input |
| Targets.FilterIsSubsequence | src/Game.tsx:24-27 | a filtered list keeps the order of the list it came from |
| Targets.Pool | src/Game.tsx:22-23 | `common.slice(0, 20000)` is the prefix of `common` of length min(|common|, 20000) |
| Targets.Targets | src/Game.tsx:22-24 | a word is a target candidate iff it is in the pool and in the dictionary |
| Targets.Eligible | src/Game.tsx:27 | a word is eligible for length n iff it is a target candidate of length n |
| Targets.EligibleMembership | src/Game.tsx:22-27 | a word is eligible for length n iff it is among the first 20000 common words, is in the dictionary and has length n |
| Targets.EligibleIsSubsequence | src/Game.tsx:22-27 | the eligible words are an order-preserving subsequence of `common` |
| Targets.Pick | src/Game.tsx:28 | the pick is undefined iff the list is empty; otherwise it is an element of the list |
| Targets.PickReachesEvery | src/Game.tsx:28 | every element of the list is the pick for some draw |
| Targets.RandomTarget | src/Game.tsx:26-29 | `randomTarget(n)` is undefined iff nothing is eligible; otherwise it is an eligible word: length n, in the dictionary, among the first 20000 common words |
| Targets.EveryEligibleWordCanBeDrawn | src/Game.tsx:26-29 | every eligible word is `randomTarget(n)` for some draw |
| Keyboard.UpgradeKeepsBetter | src/Game.tsx:116-119 | one step adds the letter to the keys; a new letter gets the clue, a known one keeps the better of its old clue and the new one; every other letter keeps its clue |
| Keyboard.Rows | src/Game.tsx:109-111 | there is one scored row per locked-in guess |
| Keyboard.RowsAt | src/Game.tsx:110-111 | row i is `clue(guess i, target)` |
| Keyboard.Known | src/Game.tsx:114-115 | the cells visited in a row are exactly those before the first undefined clue (the `break`) |
| Keyboard.UpgradeIsBest | src/Game.tsx:116-119 | one `letterInfo.set` step turns the best-clue map of some pairs into the best-clue map of those pairs plus one more |
| Keyboard.FoldIsBest | src/Game.tsx:114-120 | folding pairs into a map gives exactly the old letters and the new ones, each with its maximum clue, which is attained |
| Keyboard.FoldAppend | src/Game.tsx:109-121 | folding two runs of pairs in turn is folding their concatenation, so rows can be processed one after another |
| Keyboard.AggregateStep | src/Game.tsx:112-120 | locking in one more row folds exactly that row's visited cells into the map |
| Keyboard.AggregateIsBest | src/Game.tsx:106-121 | the keyboard map holds exactly the letters of the locked-in rows, each mapped to its best clue; no other letter is in it |
| Keyboard.AggregateNeverDowngrades | src/Game.tsx:116-118 | locking in another row never removes a letter and never lowers its clue |
| Keyboard.LetterInfo | src/Game.tsx:106-121 | the loop over rows 0..maxGuesses-1 returns the fold of the locked-in rows only (the in-progress row adds nothing), and so the best-clue map of their letters |
| Keyboard.KnownOfScored | src/Game.tsx:114-115 | in a row where every cell has a clue, every cell is visited, in order |
| Keyboard.HelpPageFirstRow | src/App.tsx:84-93 | folding the help page's first row into an empty keyboard gives exactly w, o absent, r correct, d elsewhere |
| Keyboard.HelpPageSecondRow | src/App.tsx:113-122 | folding the help page's second row into that keyboard upgrades d to correct and adds a as correct and k as absent |
| Keyboard.HelpPageKeyboard | src/App.tsx:84-122 | the keyboard after the help page's two rows shows W, O, K absent and D, A, R correct |
| Round.Inv | src/Game.tsx:26-90 | a round satisfying the invariant has a target, when it has one, of the round's length, in the dictionary and in the pool |
| Round.Initial | src/Game.tsx:33-44 | the mount state: Playing, no guesses, empty input, length 5, the null hint, game number 1 and the given target |
| Round.IsLetterKey | src/Game.tsx:63 | a letter key is one character of the alphabet, so it is never Enter or Backspace |
| Round.Truncate | src/Game.tsx:64 | `slice(0, n)` gives a prefix of the input of length min(length, n) |
| Round.Typed | src/Game.tsx:63-65 | a letter key appends the letter if there is room; otherwise the guess is cut to `wordLength` letters (left unchanged when exactly full); the result never exceeds `wordLength`; only the guess and the hint change, and the hint is cleared |
| Round.Erased | src/Game.tsx:66-68 | Backspace removes exactly the last letter, leaves an empty guess empty, and clears the hint; nothing else changes |
| Round.Submitted | src/Game.tsx:69-91 | Enter on a guess whose length is not `wordLength` changes only the hint (TooShort); on a non-word it changes only the hint (InvalidWord); otherwise it appends the guess and clears the input; the round is Won iff the guess is the target, Lost iff there is a target, the guess is not it and the guesses reach `maxGuesses`, and Playing otherwise; the hint matches the outcome, and stays unchanged when an undefined target makes the loss hint throw |
| Round.NextGame | src/Game.tsx:46-53 | the next game empties the guesses and the input, returns to Playing, keeps `wordLength`, adds 1 to `gameNumber` and takes the new target |
| Round.GaveUp | src/Game.tsx:160-167 | giving up makes the round Lost and shows the given-up hint; with an undefined target the hint throws and nothing changes; the guesses, the input, the target, the length and the game number always stay the same |
| Round.CanGiveUp | src/Game.tsx:160 | the give-up button is enabled iff the round is Playing with at least one guess |
| Round.CanResize | src/Game.tsx:141-144 | the slider is enabled unless the round is Playing with guesses or typed input |
| Round.Resized | src/Game.tsx:146-156 | a length change sets Playing, empties the guesses, sets `gameNumber` to 1, sets the length and the new target and shows the letter-count hint; the typed input is kept |
| Round.Pressed | src/Game.tsx:55-92 | once the round is over, every key but Enter is ignored, and Enter starts the next game; while playing, a letter key, Backspace and Enter have their effects, and every other key is ignored |
| Round.InitialKeepsInv | src/Game.tsx:33-44 | the state at mount satisfies the round invariant |
| Round.TypedKeepsInv | src/Game.tsx:63-65 | typing keeps the round invariant |
| Round.ErasedKeepsInv | src/Game.tsx:66-68 | Backspace keeps the round invariant |
| Round.SubmittedKeepsInv | src/Game.tsx:62-91 | Enter while playing keeps the round invariant: accepted guesses are legal words of the current length, there are never more than `maxGuesses` of them, and Won means the last guess is the target |
| Round.NextGameKeepsInv | src/Game.tsx:46-53 | starting the next game keeps the round invariant |
| Round.GaveUpKeepsInv | src/Game.tsx:160-167 | giving up, when enabled, keeps the round invariant |
| Round.ResizedKeepsInv | src/Game.tsx:146-156 | a length change in the slider's range keeps the round invariant |
| Round.PressedKeepsInv | src/Game.tsx:55-92 | every key keeps the round invariant |
| Round.WonIffTargetGuessed | src/Game.tsx:78-90 | in a consistent round, the state is Won iff some locked-in guess is the target |
| Round.UndefinedTargetStalls | src/Game.tsx:62-87 | with no target, the last allowed guess is locked in but the round stays Playing with its hint unchanged, and then every key is ignored |
| Round.PlayingHasRoom | src/Game.tsx:62 | while playing with a positive limit and a target, there are fewer than `maxGuesses` guesses |
| GameModel.Game.constructor | src/Game.tsx:33-44 | mounting starts Playing with no guesses, an empty input, length 5, the null hint, game number 1 and a target drawn for length 5 |
| GameModel.Game.StartNextGame | src/Game.tsx:46-53 | the fields change as `Round.NextGame` says, with a target drawn at the current length, and the invariant holds |
| GameModel.Game.TypeLetter | src/Game.tsx:63-65 | the fields change as `Round.Typed` says |
| GameModel.Game.Backspace | src/Game.tsx:66-68 | the fields change as `Round.Erased` says |
| GameModel.Game.Enter | src/Game.tsx:69-91 | the fields change as `Round.Submitted` says; the loss test uses the guess count from before the step plus one, and the step stops where an undefined target throws |
| GameModel.Game.OnKey | src/Game.tsx:55-92 | the fields change as `Round.Pressed` says, and the invariant holds |
| GameModel.Game.GiveUp | src/Game.tsx:158-167 | the button is enabled iff Playing with at least one guess; when it is, the fields change as `Round.GaveUp` says (nothing, if the target is undefined), and otherwise nothing changes |
| GameModel.Game.SetWordLength | src/Game.tsx:136-156 | the slider is enabled unless a round is under way (Playing with guesses or typed input); when it is, the fields change as `Round.Resized` says, with a target drawn at the new length, and otherwise nothing changes |

## Left out

- Rendering: the `Row` and `Keyboard` components, the JSX, `props.hidden` and the blur of the focused element. These are display only.
- Translation (`t(...)`, `Trans`). Hints are the tags of `Round.Hint`, and the answer shown in the loss and give-up hints is the `target` field.
- The document `keydown` listener and its `useEffect` dependencies (src/Game.tsx:94-104). These are event plumbing, so keys reach the model directly through `OnKey`. The listener can hold a stale `onKey` after a length change; that is a React closure-lifetime effect and is not modelled.
- React's batched and functional state updates. Each handler is one atomic step that reads the state from before it.
- `pick`, `resetRng` and `seed` (src/util is not part of this model). Each draw is a `draw: nat` parameter, and `Targets.Pick` takes the element at `draw` modulo the length. Resetting the generator is folded into the choice of `draw`. Nothing is proved about different draws being different: a game that restarts with the same seed is not shown to get a new target, and the code does not promise it either.
- `clue` (src/clue is not part of this model). `Keyboard.LetterInfo` takes the scorer as a function parameter, and the order Absent < Elsewhere < Correct is assumed for its `Clue` enum. The scoring algorithm itself is not modelled.
- `Keyboard.LetterInfo` takes the target as a string. The case where the round's target is `undefined` goes to the unmodelled scorer.
- The contents of `dictionary.json` and `common.json`. They are a `set<string>` and a `seq<string>`, and `dictionary` and `dictionarySet` are taken to hold the same words.
- The exception thrown by `target.toUpperCase()` on an undefined target. Only its effect on the state is modelled: the step stops at that expression, and the updates queued before it are taken to apply. Where the exception goes afterwards is not modelled.
- The exact letters of the key regex (line 63). The alphabet is a given set of characters, and a letter key is a one-character key in that set.
- The seed link and the date it uses (src/App.tsx). These are wall-clock and navigation I/O.
