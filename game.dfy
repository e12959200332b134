/**
 * The `Game` component's state and handlers (src/Game.tsx) as an object:
 * one field per React state variable, one method per handler. Each method
 * is a single atomic step that reads the state before it, and is proved to
 * move the state exactly as the matching function of module Round says,
 * keeping Round.Inv.
 */
module GameModel {
  import opened Wrappers
  import opened Targets
  import opened Round

  class Game {
    /** `props.maxGuesses` (6 in the app). */
    const maxGuesses: nat
    /** The legal guesses (`dictionary` and `dictionarySet`, taken to hold the same words). */
    const dictionary: set<string>
    /** The letters accepted by the key test. */
    const alphabet: set<char>
    /** The frequency-ranked word list. */
    const common: seq<string>

    var gameState: GameState
    var guesses: seq<string>
    var currentGuess: string
    var wordLength: nat
    var hint: Hint
    var target: Option<string>
    var gameNumber: int

    ghost function State(): View
      reads this
    {
      View(gameState, guesses, currentGuess, wordLength, hint, target, gameNumber)
    }

    ghost predicate Valid()
      reads this
    {
      Inv(State(), common, dictionary, maxGuesses)
    }

    /** Mounting `Game`: the generator is reset and the first target drawn at the default length. */
    constructor (maxGuesses: nat, dictionary: set<string>, alphabet: set<char>, common: seq<string>, draw: nat)
      ensures Valid()
      ensures this.maxGuesses == maxGuesses && this.dictionary == dictionary
      ensures this.alphabet == alphabet && this.common == common
      ensures State() == Initial(RandomTarget(common, dictionary, DefaultWordLength, draw))
    {
      this.maxGuesses := maxGuesses;
      this.dictionary := dictionary;
      this.alphabet := alphabet;
      this.common := common;
      gameState := Playing;
      guesses := [];
      currentGuess := "";
      wordLength := DefaultWordLength;
      hint := Default;
      target := RandomTarget(common, dictionary, DefaultWordLength, draw);
      gameNumber := 1;
      InitialKeepsInv(common, dictionary, maxGuesses, draw);
    }

    /** `startNextGame`: a new target at the same length, an empty board, the round counter advanced. */
    method StartNextGame(draw: nat)
      requires Valid()
      modifies this
      ensures Valid()
      ensures State() == NextGame(old(State()), RandomTarget(common, dictionary, old(wordLength), draw))
    {
      ghost var before := State();
      NextGameKeepsInv(before, common, dictionary, maxGuesses, draw);
      target := RandomTarget(common, dictionary, wordLength, draw);
      guesses := [];
      currentGuess := "";
      hint := Blank;
      gameState := Playing;
      gameNumber := gameNumber + 1;
      assert State() == NextGame(before, target);
    }

    /** A letter key while playing: append it, keep at most `wordLength` letters, clear the hint. */
    method TypeLetter(c: char)
      requires Valid()
      modifies this
      ensures Valid()
      ensures State() == Typed(old(State()), c)
    {
      TypedKeepsInv(State(), c, common, dictionary, maxGuesses);
      currentGuess := Truncate(currentGuess + [c], wordLength);
      hint := Blank;
    }

    /** Backspace while playing: drop the last letter, clear the hint. */
    method Backspace()
      requires Valid()
      modifies this
      ensures Valid()
      ensures State() == Erased(old(State()))
    {
      ErasedKeepsInv(State(), common, dictionary, maxGuesses);
      if currentGuess != "" {
        currentGuess := currentGuess[..|currentGuess| - 1];
      }
      hint := Blank;
    }

    /**
     * Enter while playing: reject a short or unknown word, or lock the guess in
     * and settle the outcome (cut short by the throw of an undefined target).
     */
    method Enter()
      requires Valid()
      requires gameState == Playing && |guesses| != maxGuesses
      modifies this
      ensures Valid()
      ensures State() == Submitted(old(State()), dictionary, maxGuesses)
    {
      SubmittedKeepsInv(State(), common, dictionary, maxGuesses);
      if |currentGuess| != wordLength {
        hint := TooShort;
        return;
      }
      if currentGuess !in dictionary {
        hint := InvalidWord;
        return;
      }
      var submitted, count := currentGuess, |guesses|;
      guesses := guesses + [submitted];
      currentGuess := "";
      if target == Some(submitted) {
        hint := Win;
        gameState := Won;
      } else if count + 1 == maxGuesses {
        if target.None? {
          // `target.toUpperCase()` throws before the hint and the state are set
          return;
        }
        hint := Lose;
        gameState := Lost;
      } else {
        hint := Blank;
      }
    }

    /**
     * `onKey(key)`. Once the round is over only Enter does anything (it starts
     * the next game, using `draw`); while playing, the key is a letter,
     * Backspace, Enter, or ignored.
     */
    method OnKey(key: string, draw: nat)
      requires Valid()
      modifies this
      ensures Valid()
      ensures State() == Pressed(old(State()), key, alphabet, dictionary, maxGuesses,
                                 RandomTarget(common, dictionary, old(wordLength), draw))
    {
      if gameState != Playing {
        if key == "Enter" {
          StartNextGame(draw);
        }
        return;
      }
      if |guesses| == maxGuesses {
        return;
      }
      if IsLetterKey(key, alphabet) {
        TypeLetter(key[0]);
      } else if key == "Backspace" {
        Backspace();
      } else if key == "Enter" {
        Enter();
      }
    }

    /**
     * The give-up button: `enabled` tells whether it could be clicked; a click
     * ends the round as lost, unless the undefined target makes it throw.
     */
    method GiveUp() returns (enabled: bool)
      requires Valid()
      modifies this
      ensures Valid()
      ensures enabled == CanGiveUp(old(State()))
      ensures State() == if enabled then GaveUp(old(State())) else old(State())
    {
      enabled := gameState == Playing && guesses != [];
      if enabled {
        GaveUpKeepsInv(State(), common, dictionary, maxGuesses);
        if target.None? {
          // `target.toUpperCase()` throws before anything is set
          return;
        }
        hint := GivenUp;
        gameState := Lost;
      }
    }

    /**
     * The word-length slider: `enabled` tells whether it could be moved; a move
     * resets the generator, draws a target of the new length and starts over
     * from game number 1, keeping whatever was typed.
     */
    method SetWordLength(length: nat, draw: nat) returns (enabled: bool)
      requires Valid()
      requires MinWordLength <= length <= MaxWordLength
      modifies this
      ensures Valid()
      ensures enabled == CanResize(old(State()))
      ensures State() == if enabled then Resized(old(State()), length, RandomTarget(common, dictionary, length, draw))
                         else old(State())
    {
      enabled := !(gameState == Playing && (guesses != [] || currentGuess != ""));
      if enabled {
        ghost var before := State();
        var newTarget := RandomTarget(common, dictionary, length, draw);
        ResizedKeepsInv(before, length, common, dictionary, maxGuesses, draw);
        gameNumber := 1;
        gameState := Playing;
        guesses := [];
        target := newTarget;
        wordLength := length;
        hint := LettersCount(length);
        assert State() == Resized(before, length, newTarget);
      }
    }
  }
}
