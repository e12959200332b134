/**
 * The keyboard colouring computed on every render of `Game` (src/Game.tsx):
 * for each letter, the best clue it has earned in any locked-in row.
 */
module Keyboard {
  import opened Wrappers

  /** Feedback for one letter; `clue > old` in the source orders them Absent < Elsewhere < Correct. */
  datatype Clue = Absent | Elsewhere | Correct

  function Rank(c: Clue): nat
  {
    match c
    case Absent => 0
    case Elsewhere => 1
    case Correct => 2
  }

  /** One cell of a scored row; the scorer may leave the clue undefined. */
  datatype CluedLetter = CluedLetter(letter: char, clue: Option<Clue>)

  /** The scorer `clue(guess, target)` is not part of this model: callers pass it in. */
  type Scorer = (string, string) -> seq<CluedLetter>

  /** The cells the aggregation looks at: those before the first undefined clue (the `break`). */
  function Known(row: seq<CluedLetter>): (r: seq<(char, Clue)>)
    ensures |r| <= |row|
    ensures forall i :: 0 <= i < |r| ==> row[i].clue.Some? && r[i] == (row[i].letter, row[i].clue.value)
    ensures |r| < |row| ==> row[|r|].clue.None?
  {
    if row == [] || row[0].clue.None? then []
    else [(row[0].letter, row[0].clue.value)] + Known(row[1..])
  }

  /** One `letterInfo.set` step: record the clue unless the letter already has a better or equal one. */
  function Upgrade(info: map<char, Clue>, letter: char, c: Clue): map<char, Clue>
  {
    if letter !in info || Rank(c) > Rank(info[letter]) then info[letter := c] else info
  }

  /**
   * One step adds the letter to the keys. A new letter gets the clue; a known
   * one keeps the better of its old clue and the new one. Every other letter
   * keeps its clue.
   */
  lemma UpgradeKeepsBetter(info: map<char, Clue>, letter: char, c: Clue)
    ensures Upgrade(info, letter, c).Keys == info.Keys + {letter}
    ensures letter in info ==> Rank(Upgrade(info, letter, c)[letter])
                               == if Rank(c) > Rank(info[letter]) then Rank(c) else Rank(info[letter])
    ensures letter !in info ==> Upgrade(info, letter, c)[letter] == c
    ensures Upgrade(info, letter, c) - {letter} == info - {letter}
  {
  }

  /** Feeding the pairs of `ps` to `Upgrade` in order, starting from `info`. */
  function Fold(info: map<char, Clue>, ps: seq<(char, Clue)>): map<char, Clue>
  {
    if ps == [] then info
    else
      var last := ps[|ps| - 1];
      Upgrade(Fold(info, ps[..|ps| - 1]), last.0, last.1)
  }

  /** The scored rows of `words`, in order. */
  function Rows(words: seq<string>, target: string, clue: Scorer): (r: seq<seq<CluedLetter>>)
    ensures |r| == |words|
  {
    if words == [] then []
    else Rows(words[..|words| - 1], target, clue) + [clue(words[|words| - 1], target)]
  }

  /** All (letter, clue) pairs the aggregation visits, row after row. */
  function Occurrences(rows: seq<seq<CluedLetter>>): seq<(char, Clue)>
  {
    if rows == [] then []
    else Occurrences(rows[..|rows| - 1]) + Known(rows[|rows| - 1])
  }

  /** The keyboard map for a set of locked-in rows. */
  function Aggregate(rows: seq<seq<CluedLetter>>): map<char, Clue>
  {
    Fold(map[], Occurrences(rows))
  }

  /** The letters of some (letter, clue) pairs. */
  function Letters(ps: seq<(char, Clue)>): set<char>
  {
    set p | p in ps :: p.0
  }

  /**
   * `info` holds, for every letter, the best clue among those of `start` and `ps`:
   * its keys are exactly the letters seen, and each value is an upper bound that is attained.
   */
  ghost predicate IsBest(start: map<char, Clue>, ps: seq<(char, Clue)>, info: map<char, Clue>)
  {
    && info.Keys == start.Keys + Letters(ps)
    && (forall l :: l in start ==> Rank(start[l]) <= Rank(info[l]))
    && (forall p :: p in ps ==> Rank(p.1) <= Rank(info[p.0]))
    && (forall l :: l in info ==> (l in start && info[l] == start[l]) || (l, info[l]) in ps)
  }

  /** `info2` never has a worse clue than `info1`, and forgets no letter. */
  ghost predicate NoDowngrade(info1: map<char, Clue>, info2: map<char, Clue>)
  {
    forall l :: l in info1 ==> l in info2 && Rank(info1[l]) <= Rank(info2[l])
  }

  /** One `Upgrade` extends the best-clue map of `ps` to that of `ps + [(letter, c)]`. */
  lemma UpgradeIsBest(start: map<char, Clue>, ps: seq<(char, Clue)>, info: map<char, Clue>, letter: char, c: Clue)
    requires IsBest(start, ps, info)
    ensures IsBest(start, ps + [(letter, c)], Upgrade(info, letter, c))
  {
    var qs := ps + [(letter, c)];
    var after := Upgrade(info, letter, c);
    assert Letters(qs) == Letters(ps) + {letter} by {
      assert forall p :: p in qs <==> p in ps || p == (letter, c);
    }
    forall p | p in qs
      ensures Rank(p.1) <= Rank(after[p.0])
    {
      if p != (letter, c) {
        assert p in ps;
      }
    }
    forall l | l in after
      ensures (l in start && after[l] == start[l]) || (l, after[l]) in qs
    {
      if l == letter && after[l] == c {
        assert qs[|ps|] == (l, after[l]);
      } else if !(l in start && after[l] == start[l]) {
        assert (l, info[l]) in ps;
      }
    }
  }

  lemma {:induction false} FoldIsBest(start: map<char, Clue>, ps: seq<(char, Clue)>)
    ensures IsBest(start, ps, Fold(start, ps))
  {
    if ps == [] {
      assert Letters(ps) == {};
    } else {
      var init := ps[..|ps| - 1];
      var last := ps[|ps| - 1];
      FoldIsBest(start, init);
      UpgradeIsBest(start, init, Fold(start, init), last.0, last.1);
      assert init + [last] == ps;
    }
  }

  lemma {:induction false} FoldAppend(start: map<char, Clue>, ps: seq<(char, Clue)>, qs: seq<(char, Clue)>)
    ensures Fold(start, ps + qs) == Fold(Fold(start, ps), qs)
    decreases |qs|
  {
    if qs == [] {
      assert ps + qs == ps;
    } else {
      assert (ps + qs)[..|ps + qs| - 1] == ps + qs[..|qs| - 1];
      FoldAppend(start, ps, qs[..|qs| - 1]);
    }
  }

  /** Locking in one more row folds exactly that row's known cells into the map. */
  lemma AggregateStep(rows: seq<seq<CluedLetter>>, row: seq<CluedLetter>)
    ensures Aggregate(rows + [row]) == Fold(Aggregate(rows), Known(row))
  {
    assert (rows + [row])[..|rows|] == rows;
    FoldAppend(map[], Occurrences(rows), Known(row));
  }

  /** Locking in another row never downgrades a key and never forgets one. */
  lemma AggregateNeverDowngrades(rows: seq<seq<CluedLetter>>, row: seq<CluedLetter>)
    ensures NoDowngrade(Aggregate(rows), Aggregate(rows + [row]))
  {
    AggregateStep(rows, row);
    FoldIsBest(Aggregate(rows), Known(row));
  }

  /** The aggregate of some rows holds exactly the letters of their known cells, each with its best clue. */
  lemma AggregateIsBest(rows: seq<seq<CluedLetter>>)
    ensures IsBest(map[], Occurrences(rows), Aggregate(rows))
  {
    FoldIsBest(map[], Occurrences(rows));
  }

  /** Row i is the score of guess i. */
  lemma {:induction false} RowsAt(words: seq<string>, target: string, clue: Scorer, i: nat)
    requires i < |words|
    ensures Rows(words, target, clue)[i] == clue(words[i], target)
  {
    if i < |words| - 1 {
      RowsAt(words[..|words| - 1], target, clue, i);
    }
  }

  lemma RowsStep(words: seq<string>, i: nat, target: string, clue: Scorer)
    requires i < |words|
    ensures Rows(words[..i + 1], target, clue) == Rows(words[..i], target, clue) + [clue(words[i], target)]
  {
    assert words[..i + 1][..i] == words[..i];
  }

  /**
   * The `letterInfo` loop: rows 0 .. maxGuesses - 1 are scored, row i being
   * `[...guesses, currentGuess][i] ?? ""`, and only rows below `guesses.length`
   * (the locked-in ones) feed the map.
   */
  method LetterInfo(guesses: seq<string>, currentGuess: string, target: string, maxGuesses: nat, clue: Scorer)
    returns (letterInfo: map<char, Clue>)
    ensures letterInfo == Aggregate(Rows(guesses[..Min(|guesses|, maxGuesses)], target, clue))
    ensures IsBest(map[], Occurrences(Rows(guesses[..Min(|guesses|, maxGuesses)], target, clue)), letterInfo)
  {
    letterInfo := map[];
    var i := 0;
    while i < maxGuesses
      invariant i <= maxGuesses
      invariant letterInfo == Aggregate(Rows(guesses[..Min(|guesses|, i)], target, clue))
    {
      var guess := if i < |guesses| then guesses[i] else if i == |guesses| then currentGuess else "";
      var cluedLetters := clue(guess, target);
      var lockedIn := i < |guesses|;
      if lockedIn {
        ghost var before := letterInfo;
        var j := 0;
        assert cluedLetters[j..] == cluedLetters;
        while j < |cluedLetters|
          invariant j <= |cluedLetters|
          invariant Fold(letterInfo, Known(cluedLetters[j..])) == Fold(before, Known(cluedLetters))
        {
          if cluedLetters[j].clue.None? {
            break;
          }
          var c := cluedLetters[j].clue.value;
          var letter := cluedLetters[j].letter;
          assert cluedLetters[j..][1..] == cluedLetters[j + 1..];
          FoldAppend(letterInfo, [(letter, c)], Known(cluedLetters[j + 1..]));
          if letter !in letterInfo || Rank(c) > Rank(letterInfo[letter]) {
            letterInfo := letterInfo[letter := c];
          }
          j := j + 1;
        }
        assert Min(|guesses|, i) == i && Min(|guesses|, i + 1) == i + 1;
        RowsStep(guesses, i, target, clue);
        AggregateStep(Rows(guesses[..i], target, clue), cluedLetters);
      }
      i := i + 1;
    }
    AggregateIsBest(Rows(guesses[..Min(|guesses|, maxGuesses)], target, clue));
  }

  /** Every cell of `row` is scored, so the aggregation visits all of it. */
  lemma KnownOfScored(row: seq<CluedLetter>)
    requires forall i :: 0 <= i < |row| ==> row[i].clue.Some?
    ensures Known(row) == seq(|row|, i requires 0 <= i < |row| => (row[i].letter, row[i].clue.value))
  {
  }

  /** The help page's first row, "word" against "dart", on an empty keyboard. */
  lemma HelpPageFirstRow()
    ensures Fold(map[], [('w', Absent), ('o', Absent), ('r', Correct), ('d', Elsewhere)])
         == map['w' := Absent, 'o' := Absent, 'r' := Correct, 'd' := Elsewhere]
  {
    var ps := [('w', Absent), ('o', Absent), ('r', Correct), ('d', Elsewhere)];
    assert ps[..3][..2][..1] == ps[..1] && ps[..3][..2] == ps[..2] && ps[..4] == ps;
    assert Fold(map[], ps[..1]) == map['w' := Absent];
    assert Fold(map[], ps[..2]) == map['w' := Absent, 'o' := Absent];
  }

  /** The help page's second row, "dark" against "dart": D is upgraded from Elsewhere to Correct. */
  lemma HelpPageSecondRow()
    ensures Fold(map['w' := Absent, 'o' := Absent, 'r' := Correct, 'd' := Elsewhere],
                 [('d', Correct), ('a', Correct), ('r', Correct), ('k', Absent)])
         == map['w' := Absent, 'o' := Absent, 'r' := Correct, 'd' := Correct, 'a' := Correct, 'k' := Absent]
  {
    var m := map['w' := Absent, 'o' := Absent, 'r' := Correct, 'd' := Elsewhere];
    var qs := [('d', Correct), ('a', Correct), ('r', Correct), ('k', Absent)];
    assert qs[..3][..2][..1] == qs[..1] && qs[..3][..2] == qs[..2] && qs[..4] == qs;
    assert Fold(m, qs[..1]) == m['d' := Correct];
    assert Fold(m, qs[..2]) == m['d' := Correct]['a' := Correct];
  }

  /**
   * The worked rows of the help page (src/App.tsx), target "dart": after
   * "word" and "dark" the keyboard shows W, O, K absent and D, A, R correct.
   */
  lemma HelpPageKeyboard()
    ensures
      var word := [CluedLetter('w', Some(Absent)), CluedLetter('o', Some(Absent)),
                   CluedLetter('r', Some(Correct)), CluedLetter('d', Some(Elsewhere))];
      var dark := [CluedLetter('d', Some(Correct)), CluedLetter('a', Some(Correct)),
                   CluedLetter('r', Some(Correct)), CluedLetter('k', Some(Absent))];
      Aggregate([word, dark]) == map['w' := Absent, 'o' := Absent, 'r' := Correct, 'd' := Correct, 'a' := Correct, 'k' := Absent]
  {
    var word := [CluedLetter('w', Some(Absent)), CluedLetter('o', Some(Absent)),
                 CluedLetter('r', Some(Correct)), CluedLetter('d', Some(Elsewhere))];
    var dark := [CluedLetter('d', Some(Correct)), CluedLetter('a', Some(Correct)),
                 CluedLetter('r', Some(Correct)), CluedLetter('k', Some(Absent))];
    KnownOfScored(word);
    KnownOfScored(dark);
    assert Known(word) == [('w', Absent), ('o', Absent), ('r', Correct), ('d', Elsewhere)];
    assert Known(dark) == [('d', Correct), ('a', Correct), ('r', Correct), ('k', Absent)];
    assert Aggregate([]) == map[];
    AggregateStep([], word);
    AggregateStep([word], dark);
    assert [] + [word] == [word] && [word] + [dark] == [word, dark];
    HelpPageFirstRow();
    HelpPageSecondRow();
  }
}
