/**
 * The Wordle game of 09-wordle: a word list validator, the per-position
 * hint computation, and the game state that `make_guess` updates in place.
 */
module Wordle {
  import opened Wrappers

  const MaxGuesses: nat := 6

  const EmptyError: string := "Wordlist cannot be empty"
  const LengthError: string := "All words must be of same size"
  const CharsetError: string := "Words must be in lowercase and in between 'a' and 'z'"

  datatype Hint = Exact | WrongPosition | NotInWord

  datatype GuessOutcome = Win | InvalidWord | Hints(hints: seq<Hint>)

  // ---------------------------------------------------------------------
  // Word list validation
  // ---------------------------------------------------------------------

  /** Number of bytes of the UTF-8 encoding of `c`. */
  function Utf8Width(c: char): nat
  {
    if c < '\U{80}' then 1 else if c < '\U{800}' then 2 else if c < '\U{10000}' then 3 else 4
  }

  /** `str::len`: the length of a string in UTF-8 bytes, not in characters. */
  function ByteLength(w: string): nat
  {
    if w == [] then 0 else Utf8Width(w[0]) + ByteLength(w[1..])
  }

  predicate IsLowerLetter(c: char)
  {
    'a' <= c <= 'z'
  }

  predicate IsLowerWord(w: string)
  {
    forall k :: 0 <= k < |w| ==> IsLowerLetter(w[k])
  }

  /** `words.iter().any(|word| word.len() != n)` */
  function AnyLengthDiffers(words: seq<string>, n: nat): (r: bool)
    ensures r <==> exists k :: 0 <= k < |words| && ByteLength(words[k]) != n
  {
    if words == [] then false
    else if ByteLength(words[0]) != n then true
    else
      assert forall k :: 1 <= k < |words| ==> words[k] == words[1..][k - 1];
      AnyLengthDiffers(words[1..], n)
  }

  /** `word.chars().any(|x| !('a'..='z').contains(&x))` */
  function HasForeignChar(w: string): (r: bool)
    ensures r <==> !IsLowerWord(w)
  {
    if w == [] then false
    else if !IsLowerLetter(w[0]) then true
    else
      assert forall k :: 1 <= k < |w| ==> w[k] == w[1..][k - 1];
      HasForeignChar(w[1..])
  }

  /** `words.iter().any(|word| ...)` over `HasForeignChar`. */
  function AnyForeignWord(words: seq<string>): (r: bool)
    ensures r <==> exists k :: 0 <= k < |words| && !IsLowerWord(words[k])
  {
    if words == [] then false
    else if HasForeignChar(words[0]) then true
    else
      assert forall k :: 1 <= k < |words| ==> words[k] == words[1..][k - 1];
      AnyForeignWord(words[1..])
  }

  /**
   * `validate_wordlist`: the three checks in the source's order; the first
   * failing one decides the error, and `Ok` only when all three pass.
   */
  function ValidateWordlist(words: seq<string>): (r: Result<(), string>)
    ensures r == Err(EmptyError) <==> words == []
    ensures r == Err(LengthError) <==>
      words != [] && exists k :: 0 <= k < |words| && ByteLength(words[k]) != ByteLength(words[0])
    ensures r == Err(CharsetError) <==>
      words != [] && (forall k :: 0 <= k < |words| ==> ByteLength(words[k]) == ByteLength(words[0]))
      && exists k :: 0 <= k < |words| && !IsLowerWord(words[k])
    ensures r.Ok? <==>
      words != [] && forall k :: 0 <= k < |words| ==>
        ByteLength(words[k]) == ByteLength(words[0]) && IsLowerWord(words[k])
  {
    if words == [] then Err(EmptyError)
    else if AnyLengthDiffers(words, ByteLength(words[0])) then Err(LengthError)
    else if AnyForeignWord(words) then Err(CharsetError)
    else Ok(())
  }

  /** For a lowercase word the byte length is the number of letters. */
  lemma {:induction false} LowerByteLength(w: string)
    requires IsLowerWord(w)
    ensures ByteLength(w) == |w|
  {
    if w != [] {
      assert IsLowerWord(w[1..]) by {
        assert forall k :: 0 <= k < |w[1..]| ==> w[1..][k] == w[k + 1];
      }
      LowerByteLength(w[1..]);
    }
  }

  /**
   * A list passes validation exactly when it is a non-empty list of
   * lowercase words that all have the same number of letters.
   */
  lemma ValidWordlistIsUniformLowercase(words: seq<string>)
    ensures ValidateWordlist(words).Ok? <==>
      words != [] && forall k :: 0 <= k < |words| ==> |words[k]| == |words[0]| && IsLowerWord(words[k])
  {
    if ValidateWordlist(words).Ok? {
      forall k | 0 <= k < |words|
        ensures |words[k]| == |words[0]|
      {
        LowerByteLength(words[k]);
        LowerByteLength(words[0]);
      }
    }
    if words != [] && forall k :: 0 <= k < |words| ==> |words[k]| == |words[0]| && IsLowerWord(words[k]) {
      forall k | 0 <= k < |words|
        ensures ByteLength(words[k]) == ByteLength(words[0])
      {
        LowerByteLength(words[k]);
        LowerByteLength(words[0]);
      }
    }
  }

  // ---------------------------------------------------------------------
  // Hints
  // ---------------------------------------------------------------------

  /** The hint for guessed letter `g` facing letter `t` of `secret`. */
  function HintFor(g: char, t: char, secret: string): Hint
  {
    if g == t then Exact
    else if g in secret then WrongPosition
    else NotInWord
  }

  /** `guess.chars().zip(rest.chars()).map(...)`, `rest` being what is left of the secret. */
  function ZipHints(guess: string, rest: string, secret: string): (hints: seq<Hint>)
    ensures |hints| == if |guess| < |rest| then |guess| else |rest|
    ensures forall k :: 0 <= k < |hints| ==> hints[k] == HintFor(guess[k], rest[k], secret)
  {
    if guess == [] || rest == [] then []
    else [HintFor(guess[0], rest[0], secret)] + ZipHints(guess[1..], rest[1..], secret)
  }

  /**
   * The hints for `guess`: one per position both words have, `Exact` where
   * the letters agree, else `WrongPosition` where the guessed letter occurs
   * anywhere in the secret, else `NotInWord`.
   */
  function ComputeHints(guess: string, secret: string): (hints: seq<Hint>)
    ensures |hints| == if |guess| < |secret| then |guess| else |secret|
    ensures forall k :: 0 <= k < |hints| ==>
      && (hints[k] == Exact <==> guess[k] == secret[k])
      && (hints[k] == WrongPosition <==> guess[k] != secret[k] && guess[k] in secret)
      && (hints[k] == NotInWord <==> guess[k] !in secret)
  {
    ZipHints(guess, secret, secret)
  }

  /** Between words of equal length, all hints are `Exact` exactly when the guess is the secret. */
  lemma AllExactIffSecret(guess: string, secret: string)
    requires |guess| == |secret|
    ensures (forall k :: 0 <= k < |guess| ==> ComputeHints(guess, secret)[k] == Exact) <==> guess == secret
  {
    var hints := ComputeHints(guess, secret);
    if forall k :: 0 <= k < |guess| ==> hints[k] == Exact {
      assert forall k :: 0 <= k < |guess| ==> guess[k] == secret[k];
    }
  }

  // ---------------------------------------------------------------------
  // Game state as a value, and runs of guesses
  // ---------------------------------------------------------------------

  /** The fields of `GameState` as a value. */
  datatype Snapshot = Snapshot(words: seq<string>, secret: string, guesses: nat, won: bool)

  /** What one `make_guess` does to the game state, and what it returns. */
  function Step(st: Snapshot, guess: string): (r: (Snapshot, GuessOutcome))
    ensures r.0.words == st.words && r.0.secret == st.secret
    ensures guess == st.secret ==> r.1 == Win && r.0.won && r.0.guesses == st.guesses
    ensures guess != st.secret && guess !in st.words ==> r.1 == InvalidWord && r.0 == st
    ensures guess != st.secret && guess in st.words ==>
      && r.1 == Hints(ComputeHints(guess, st.secret))
      && r.0.guesses == st.guesses + 1
      && r.0.won == st.won
  {
    if guess == st.secret then (st.(won := true), Win)
    else if guess !in st.words then (st, InvalidWord)
    else (st.(guesses := st.guesses + 1), Hints(ComputeHints(guess, st.secret)))
  }

  /** `is_out_of_guesses` on a snapshot. */
  predicate OutOfGuesses(st: Snapshot)
  {
    st.guesses >= MaxGuesses
  }

  /** The state after making the guesses `gs` in order. */
  function Run(st: Snapshot, gs: seq<string>): Snapshot
    decreases |gs|
  {
    if gs == [] then st else Run(Step(st, gs[0]).0, gs[1..])
  }

  /** No sequence of guesses changes the word list or the secret. */
  lemma {:induction false} RunKeepsWordsAndSecret(st: Snapshot, gs: seq<string>)
    ensures Run(st, gs).words == st.words && Run(st, gs).secret == st.secret
    decreases |gs|
  {
    if gs != [] {
      RunKeepsWordsAndSecret(Step(st, gs[0]).0, gs[1..]);
    }
  }

  /** How many of `gs` are listed words other than the secret. */
  function ListedMisses(words: seq<string>, secret: string, gs: seq<string>): nat
  {
    if gs == [] then 0
    else (if gs[0] != secret && gs[0] in words then 1 else 0) + ListedMisses(words, secret, gs[1..])
  }

  /** The guess counter grows by one per listed, wrong guess and by nothing else. */
  lemma {:induction false} RunCountsListedMisses(st: Snapshot, gs: seq<string>)
    ensures Run(st, gs).guesses == st.guesses + ListedMisses(st.words, st.secret, gs)
    decreases |gs|
  {
    if gs != [] {
      RunCountsListedMisses(Step(st, gs[0]).0, gs[1..]);
    }
  }

  lemma {:induction false} AllMissesCount(words: seq<string>, secret: string, gs: seq<string>)
    requires forall k :: 0 <= k < |gs| ==> gs[k] != secret && gs[k] in words
    ensures ListedMisses(words, secret, gs) == |gs|
  {
    if gs != [] {
      AllMissesCount(words, secret, gs[1..]);
    }
  }

  /** The game is won after a run exactly when it was won before or some guess was the secret. */
  lemma {:induction false} RunWinsIffSecretGuessed(st: Snapshot, gs: seq<string>)
    ensures Run(st, gs).won <==> st.won || st.secret in gs
    decreases |gs|
  {
    if gs != [] {
      var next := Step(st, gs[0]).0;
      RunWinsIffSecretGuessed(next, gs[1..]);
      assert gs == [gs[0]] + gs[1..];
    }
  }

  /**
   * Repeating a listed wrong word: a fresh game is not out of guesses after
   * five such guesses and is out of guesses after the sixth.
   */
  lemma OutOfGuessesAfterSixMisses(words: seq<string>, secret: string, miss: string)
    requires miss in words && miss != secret
    ensures !OutOfGuesses(Run(Snapshot(words, secret, 0, false), seq(MaxGuesses - 1, _ => miss)))
    ensures OutOfGuesses(Run(Snapshot(words, secret, 0, false), seq(MaxGuesses, _ => miss)))
  {
    var st := Snapshot(words, secret, 0, false);
    var five := seq(MaxGuesses - 1, _ => miss);
    var six := seq(MaxGuesses, _ => miss);
    RunCountsListedMisses(st, five);
    RunCountsListedMisses(st, six);
    AllMissesCount(words, secret, five);
    AllMissesCount(words, secret, six);
  }

  // ---------------------------------------------------------------------
  // The game state object
  // ---------------------------------------------------------------------

  class GameState {
    var words: seq<string>
    var secret: string
    var guesses: nat
    var won: bool

    function Snap(): Snapshot
      reads this
    {
      Snapshot(words, secret, guesses, won)
    }

    constructor (words: seq<string>, secret: string)
      ensures Snap() == Snapshot(words, secret, 0, false)
    {
      this.words := words;
      this.secret := secret;
      guesses := 0;
      won := false;
    }

    /** `make_guess`: updates `won` or `guesses` as `Step` says and returns its outcome. */
    method MakeGuess(guess: string) returns (outcome: GuessOutcome)
      modifies this
      ensures (Snap(), outcome) == Step(old(Snap()), guess)
    {
      if guess == secret {
        won := true;
        return Win;
      }
      if guess !in words {
        return InvalidWord;
      }
      guesses := guesses + 1;
      outcome := Hints(ComputeHints(guess, secret));
    }

    /** `is_out_of_guesses` */
    predicate IsOutOfGuesses()
      reads this
    {
      OutOfGuesses(Snap())
    }
  }

  /**
   * `build_game_state`: validates the list and starts a game whose secret is
   * the word at the randomly chosen index `pick` (taken modulo the length).
   */
  method BuildGameState(words: seq<string>, pick: nat) returns (r: Result<GameState, string>)
    ensures ValidateWordlist(words).Err? ==> r.Err? && r.error == ValidateWordlist(words).error
    ensures ValidateWordlist(words).Ok? ==>
      && r.Ok? && fresh(r.value)
      && r.value.words == words
      && r.value.secret == words[pick % |words|] && r.value.secret in words
      && r.value.guesses == 0 && !r.value.won
  {
    var valid := ValidateWordlist(words);
    if valid.Err? {
      return Err(valid.error);
    }
    var state := new GameState(words, words[pick % |words|]);
    return Ok(state);
  }
}
