/**
 * The round controller of `Game` (src/Game.tsx) as pure transitions on a
 * snapshot of its React state. The class in game.dfy carries the same state
 * in fields and is proved to move exactly as these functions say.
 */
module Round {
  import opened Wrappers
  import opened Targets

  datatype GameState = Playing | Won | Lost

  /**
   * The hint line. `Default` is the null hint, shown as the default prompt;
   * `Blank` is the empty string; the rest stand for their translated texts.
   */
  datatype Hint = Default | Blank | TooShort | InvalidWord | Win | Lose | GivenUp | LettersCount(length: nat)

  const DefaultWordLength: nat := 5
  /** The bounds of the word-length slider. */
  const MinWordLength: nat := 4
  const MaxWordLength: nat := 11

  /** The state variables of `Game`, all at one instant. */
  datatype View = View(
    gameState: GameState,
    guesses: seq<string>,
    currentGuess: string,
    wordLength: nat,
    hint: Hint,
    target: Option<string>,
    gameNumber: int)

  /** What stays true of a round between any two user actions. */
  ghost predicate Inv(v: View, common: seq<string>, dictionary: set<string>, maxGuesses: nat)
    ensures Inv(v, common, dictionary, maxGuesses) && v.target.Some? ==>
      |v.target.value| == v.wordLength && v.target.value in dictionary && v.target.value in Pool(common)
  {
    && MinWordLength <= v.wordLength <= MaxWordLength
    && v.gameNumber >= 1
    // the target is a draw from the eligible words, missing only when there are none
    && (v.target.None? <==> Eligible(common, dictionary, v.wordLength) == [])
    && (v.target.Some? ==> v.target.value in Eligible(common, dictionary, v.wordLength))
    // locked-in guesses are legal words of the round's length, and never too many; only a
    // round without a target can be left playing with no room (see Submitted)
    && |v.guesses| <= maxGuesses
    && (v.gameState == Playing && maxGuesses > 0 && v.target.Some? ==> |v.guesses| < maxGuesses)
    && (forall g :: g in v.guesses ==> g in dictionary && |g| == v.wordLength)
    // the round is won exactly by its last guess, and by no guess when not won
    && (v.gameState == Won ==> v.guesses != [] && v.target == Some(v.guesses[|v.guesses| - 1]))
    && (forall i :: 0 <= i < |v.guesses| && !(v.gameState == Won && i == |v.guesses| - 1) ==>
          v.target != Some(v.guesses[i]))
    && (v.gameState == Lost ==> v.guesses != [])
  }

  /** The state `useState` sets up when `Game` mounts. */
  function Initial(target: Option<string>): (r: View)
    ensures r.gameState == Playing && r.guesses == [] && r.currentGuess == []
    ensures r.wordLength == DefaultWordLength && r.hint == Default && r.target == target && r.gameNumber == 1
  {
    View(Playing, [], [], DefaultWordLength, Default, target, 1)
  }

  /** JavaScript's `s.slice(0, n)`: the longest prefix of `s` of length at most `n`. */
  function Truncate(s: string, n: nat): (r: string)
    ensures r <= s
    ensures |r| == Min(|s|, n)
  {
    if |s| <= n then s else s[..n]
  }

  /** The test `/^[...]$/.test(key)`: the key is one character of the game's alphabet. */
  predicate IsLetterKey(key: string, alphabet: set<char>)
    ensures IsLetterKey(key, alphabet) ==> key != "Enter" && key != "Backspace"
  {
    |key| == 1 && key[0] in alphabet
  }

  /** A letter key while playing. */
  function Typed(v: View, c: char): (r: View)
    ensures |r.currentGuess| <= v.wordLength
    ensures |v.currentGuess| < v.wordLength ==> r.currentGuess == v.currentGuess + [c]
    ensures |v.currentGuess| >= v.wordLength ==> r.currentGuess == v.currentGuess[..v.wordLength]
    ensures r == v.(currentGuess := r.currentGuess, hint := Blank)
  {
    v.(currentGuess := Truncate(v.currentGuess + [c], v.wordLength), hint := Blank)
  }

  /** Backspace while playing: `guess.slice(0, -1)`, which leaves an empty guess empty. */
  function Erased(v: View): (r: View)
    ensures v.currentGuess == [] ==> r.currentGuess == []
    ensures v.currentGuess != [] ==> r.currentGuess + [v.currentGuess[|v.currentGuess| - 1]] == v.currentGuess
    ensures r == v.(currentGuess := r.currentGuess, hint := Blank)
  {
    v.(currentGuess := if v.currentGuess == [] then [] else v.currentGuess[..|v.currentGuess| - 1], hint := Blank)
  }

  /**
   * Enter while playing. The loss hint reads `target.toUpperCase()`, which
   * throws when the target is undefined: the guess is then locked in and the
   * input cleared (lines 78-79 ran), but the hint and the state stay as they were.
   */
  function Submitted(v: View, dictionary: set<string>, maxGuesses: nat): (r: View)
    requires v.gameState == Playing
    ensures |v.currentGuess| != v.wordLength ==> r == v.(hint := TooShort)
    ensures |v.currentGuess| == v.wordLength && v.currentGuess !in dictionary ==> r == v.(hint := InvalidWord)
    ensures |v.currentGuess| == v.wordLength && v.currentGuess in dictionary ==>
      && r.guesses == v.guesses + [v.currentGuess]
      && r.currentGuess == []
      && (r.gameState == Won <==> v.target == Some(v.currentGuess))
      && (r.gameState == Lost <==> v.target.Some? && v.target != Some(v.currentGuess) && |r.guesses| == maxGuesses)
      && r.hint == (match r.gameState
                    case Won => Win
                    case Lost => Lose
                    case Playing => if v.target.None? && |r.guesses| == maxGuesses then v.hint else Blank)
      && r == v.(guesses := r.guesses, currentGuess := [], gameState := r.gameState, hint := r.hint)
  {
    if |v.currentGuess| != v.wordLength then v.(hint := TooShort)
    else if v.currentGuess !in dictionary then v.(hint := InvalidWord)
    else
      var guesses := v.guesses + [v.currentGuess];
      if v.target == Some(v.currentGuess) then
        v.(guesses := guesses, currentGuess := [], hint := Win, gameState := Won)
      else if |v.guesses| + 1 == maxGuesses then
        if v.target.None? then v.(guesses := guesses, currentGuess := [])
        else v.(guesses := guesses, currentGuess := [], hint := Lose, gameState := Lost)
      else
        v.(guesses := guesses, currentGuess := [], hint := Blank)
  }

  /** `startNextGame`, with the freshly drawn target. */
  function NextGame(v: View, target: Option<string>): (r: View)
    ensures r.gameState == Playing && r.guesses == [] && r.currentGuess == [] && r.hint == Blank
    ensures r.wordLength == v.wordLength && r.gameNumber == v.gameNumber + 1 && r.target == target
  {
    View(Playing, [], [], v.wordLength, Blank, target, v.gameNumber + 1)
  }

  /** The give-up button is enabled. */
  predicate CanGiveUp(v: View)
  {
    v.gameState == Playing && v.guesses != []
  }

  /**
   * The give-up button's click. The hint reads `target.toUpperCase()` first,
   * which throws when the target is undefined, and then nothing changes.
   */
  function GaveUp(v: View): (r: View)
    ensures v.target.Some? ==> r.gameState == Lost && r.hint == GivenUp
    ensures v.target.None? ==> r == v
    ensures r.guesses == v.guesses && r.currentGuess == v.currentGuess && r.target == v.target
    ensures r.wordLength == v.wordLength && r.gameNumber == v.gameNumber
  {
    if v.target.None? then v else v.(hint := GivenUp, gameState := Lost)
  }

  /** The word-length slider is enabled: no round is under way. */
  predicate CanResize(v: View)
  {
    !(v.gameState == Playing && (v.guesses != [] || v.currentGuess != []))
  }

  /** The slider's change to `length`, with the freshly drawn target. */
  function Resized(v: View, length: nat, target: Option<string>): (r: View)
    ensures r.gameState == Playing && r.guesses == [] && r.gameNumber == 1
    ensures r.wordLength == length && r.target == target && r.hint == LettersCount(length)
    ensures r.currentGuess == v.currentGuess
  {
    v.(gameNumber := 1, gameState := Playing, guesses := [], target := target,
       wordLength := length, hint := LettersCount(length))
  }

  /** `onKey(key)`; `target` is the draw a restart would use. */
  function Pressed(v: View, key: string, alphabet: set<char>, dictionary: set<string>, maxGuesses: nat,
                   target: Option<string>): (r: View)
    ensures v.gameState != Playing && key != "Enter" ==> r == v
    ensures v.gameState != Playing && key == "Enter" ==> r == NextGame(v, target)
    ensures v.gameState == Playing && |v.guesses| == maxGuesses ==> r == v
    ensures v.gameState == Playing && |v.guesses| != maxGuesses ==>
      r == if IsLetterKey(key, alphabet) then Typed(v, key[0])
           else if key == "Backspace" then Erased(v)
           else if key == "Enter" then Submitted(v, dictionary, maxGuesses)
           else v
  {
    if v.gameState != Playing then
      if key == "Enter" then NextGame(v, target) else v
    else if |v.guesses| == maxGuesses then v
    else if IsLetterKey(key, alphabet) then Typed(v, key[0])
    else if key == "Backspace" then Erased(v)
    else if key == "Enter" then Submitted(v, dictionary, maxGuesses)
    else v
  }

  lemma InitialKeepsInv(common: seq<string>, dictionary: set<string>, maxGuesses: nat, draw: nat)
    ensures Inv(Initial(RandomTarget(common, dictionary, DefaultWordLength, draw)), common, dictionary, maxGuesses)
  {
  }

  lemma TypedKeepsInv(v: View, c: char, common: seq<string>, dictionary: set<string>, maxGuesses: nat)
    requires Inv(v, common, dictionary, maxGuesses)
    ensures Inv(Typed(v, c), common, dictionary, maxGuesses)
  {
  }

  lemma ErasedKeepsInv(v: View, common: seq<string>, dictionary: set<string>, maxGuesses: nat)
    requires Inv(v, common, dictionary, maxGuesses)
    ensures Inv(Erased(v), common, dictionary, maxGuesses)
  {
  }

  /** Locking in a guess keeps the round consistent; it needs the round to be under way. */
  lemma SubmittedKeepsInv(v: View, common: seq<string>, dictionary: set<string>, maxGuesses: nat)
    requires Inv(v, common, dictionary, maxGuesses)
    requires v.gameState == Playing && |v.guesses| != maxGuesses
    ensures Inv(Submitted(v, dictionary, maxGuesses), common, dictionary, maxGuesses)
  {
  }

  lemma NextGameKeepsInv(v: View, common: seq<string>, dictionary: set<string>, maxGuesses: nat, draw: nat)
    requires Inv(v, common, dictionary, maxGuesses)
    ensures Inv(NextGame(v, RandomTarget(common, dictionary, v.wordLength, draw)), common, dictionary, maxGuesses)
  {
  }

  lemma GaveUpKeepsInv(v: View, common: seq<string>, dictionary: set<string>, maxGuesses: nat)
    requires Inv(v, common, dictionary, maxGuesses) && CanGiveUp(v)
    ensures Inv(GaveUp(v), common, dictionary, maxGuesses)
  {
  }

  lemma ResizedKeepsInv(v: View, length: nat, common: seq<string>, dictionary: set<string>, maxGuesses: nat, draw: nat)
    requires Inv(v, common, dictionary, maxGuesses)
    requires MinWordLength <= length <= MaxWordLength
    ensures Inv(Resized(v, length, RandomTarget(common, dictionary, length, draw)), common, dictionary, maxGuesses)
  {
  }

  /** Every key keeps the round consistent. */
  lemma PressedKeepsInv(v: View, key: string, alphabet: set<char>, common: seq<string>, dictionary: set<string>,
                        maxGuesses: nat, draw: nat)
    requires Inv(v, common, dictionary, maxGuesses)
    ensures Inv(Pressed(v, key, alphabet, dictionary, maxGuesses, RandomTarget(common, dictionary, v.wordLength, draw)),
                common, dictionary, maxGuesses)
  {
    if v.gameState != Playing {
      NextGameKeepsInv(v, common, dictionary, maxGuesses, draw);
    } else if |v.guesses| != maxGuesses {
      if IsLetterKey(key, alphabet) {
        TypedKeepsInv(v, key[0], common, dictionary, maxGuesses);
      } else if key == "Backspace" {
        ErasedKeepsInv(v, common, dictionary, maxGuesses);
      } else if key == "Enter" {
        SubmittedKeepsInv(v, common, dictionary, maxGuesses);
      }
    }
  }

  /** In a consistent round, the game is won exactly when some locked-in guess is the target. */
  lemma WonIffTargetGuessed(v: View, common: seq<string>, dictionary: set<string>, maxGuesses: nat)
    requires Inv(v, common, dictionary, maxGuesses)
    ensures v.gameState == Won <==> exists i :: 0 <= i < |v.guesses| && v.target == Some(v.guesses[i])
  {
    if v.gameState == Won {
      assert v.target == Some(v.guesses[|v.guesses| - 1]);
    }
  }

  /**
   * Without a target, the last allowed guess is locked in but the round stays
   * Playing, and from then on the guard of line 62 swallows every key.
   */
  lemma UndefinedTargetStalls(v: View, alphabet: set<char>, dictionary: set<string>, maxGuesses: nat)
    requires v.gameState == Playing && v.target.None? && |v.guesses| + 1 == maxGuesses
    requires |v.currentGuess| == v.wordLength && v.currentGuess in dictionary
    ensures
      var r := Submitted(v, dictionary, maxGuesses);
      && r.gameState == Playing && |r.guesses| == maxGuesses && r.hint == v.hint
      && forall key, target :: Pressed(r, key, alphabet, dictionary, maxGuesses, target) == r
  {
  }

  /**
   * While playing with a positive limit and a target, another guess always fits:
   * line 62's guard fires only in a round whose target is undefined.
   */
  lemma PlayingHasRoom(v: View, common: seq<string>, dictionary: set<string>, maxGuesses: nat)
    requires Inv(v, common, dictionary, maxGuesses) && v.gameState == Playing && maxGuesses > 0
    requires v.target.Some?
    ensures |v.guesses| < maxGuesses
  {
  }
}
