/** The turn state machine of BullsAndCowsPro: the fields init_game resets and the
    handlers handle_press/animate_move, start_result_sequence, stagger_dots (its last
    step), check_game_end and undo_guess change. */
module Session {
  import opened Config
  import opened Scoring
  import opened Generation

  /** One resolved row, the record stagger_dots appends to the history. */
  datatype Turn = Turn(guess: seq<int>, bulls: nat, cows: nat)

  /** What check_game_end decides after a row: play on, a win, or a loss that reveals the code. */
  datatype Outcome = Continue | Won | Lost(code: seq<int>)

  /** `t` is `t.guess` scored against `secret`. */
  predicate ScoredAgainst(t: Turn, secret: seq<int>)
  {
    |t.guess| == CodeLength && |secret| == CodeLength &&
    t.bulls == Bulls(t.guess, secret) && t.bulls + t.cows == Common(t.guess, secret)
  }

  class GameSession {
    var secret: seq<int>      // secret_code
    var guess: seq<int>       // current_guess
    var history: seq<Turn>    // history
    var rowCount: int         // row_count
    var busy: bool            // is_animating

    /** Holds after every operation: a four-symbol secret, a guess of at most four symbols
        that is full exactly while its row is being scored, one record per resolved row,
        each the score of its guess against this secret. */
    ghost predicate Valid()
      reads this
    {
      |secret| == CodeLength && InAlphabet(secret) &&
      |guess| <= CodeLength && InAlphabet(guess) &&
      (busy <==> |guess| == CodeLength) &&
      rowCount == |history| <= Rows &&
      forall k :: 0 <= k < |history| ==> ScoredAgainst(history[k], secret)
    }

    /** Waiting for input: rows remain and no row so far has been won. */
    ghost predicate InPlay()
      reads this
    {
      Valid() && rowCount < Rows &&
      forall k :: 0 <= k < |history| ==> history[k].bulls < CodeLength
    }

    /** A fresh session with the secret of the given random choices (__init__ and init_game). */
    constructor (pair: bool, picks: seq<int>, d: seq<nat>)
      requires IsSample(picks, if pair then 3 else CodeLength)
      requires pair ==> IsDraws(d, CodeLength)
      ensures InPlay() && secret == Generated(pair, picks, d)
      ensures guess == [] && history == [] && rowCount == 0 && !busy
    {
      var code := NewSecret(pair, picks, d);
      secret := code;
      guess, history, rowCount, busy := [], [], 0, false;
    }

    /** init_game: a new secret, then every field of the session reset. Always allowed,
        also while a row is being scored. */
    method InitGame(pair: bool, picks: seq<int>, d: seq<nat>)
      requires IsSample(picks, if pair then 3 else CodeLength)
      requires pair ==> IsDraws(d, CodeLength)
      modifies this
      ensures InPlay() && secret == Generated(pair, picks, d)
      ensures guess == [] && history == [] && rowCount == 0 && !busy
    {
      secret := NewSecret(pair, picks, d);
      history, guess, rowCount, busy := [], [], 0, false;
    }

    /** handle_press and animate_move: ignored while busy or with a full guess; otherwise
        `sym` is appended, and the fourth symbol sends the row straight to scoring. */
    method Select(sym: int) returns (accepted: bool)
      requires Valid() && 0 <= sym < ActiveIcons
      modifies this
      ensures accepted == (!old(busy) && |old(guess)| < CodeLength)
      ensures guess == if accepted then old(guess) + [sym] else old(guess)
      ensures busy == (|guess| == CodeLength)
      ensures secret == old(secret) && history == old(history) && rowCount == old(rowCount)
      ensures Valid() && (old(InPlay()) ==> InPlay())
    {
      if busy || |guess| >= CodeLength {
        return false;
      }
      guess := guess + [sym];
      busy := |guess| == CodeLength;
      accepted := true;
    }

    /** undo_guess: drops the last symbol when there is one and no row is being scored;
        otherwise nothing changes. */
    method Undo() returns (accepted: bool)
      requires Valid()
      modifies this
      ensures accepted == (old(guess) != [] && !old(busy))
      ensures guess == if accepted then old(guess)[..|old(guess)| - 1] else old(guess)
      ensures busy == old(busy)
      ensures secret == old(secret) && history == old(history) && rowCount == old(rowCount)
      ensures Valid() && (old(InPlay()) ==> InPlay())
    {
      accepted := guess != [] && !busy;
      if accepted {
        guess := guess[..|guess| - 1];
      }
    }

    /** The last step of stagger_dots: the scored row is appended to the history, the row
        counter advances, the guess is cleared and input is accepted again. */
    method RecordTurn(bulls: nat, cows: nat)
      requires Valid() && busy && rowCount < Rows
      requires bulls == Bulls(guess, secret) && bulls + cows == Common(guess, secret)
      modifies this
      ensures history == old(history) + [Turn(old(guess), bulls, cows)]
      ensures rowCount == old(rowCount) + 1
      ensures guess == [] && !busy && secret == old(secret)
      ensures Valid()
    {
      history := history + [Turn(guess, bulls, cows)];
      rowCount := rowCount + 1;
      guess, busy := [], false;
    }

    /** check_game_end: a row of four bulls wins, otherwise running out of rows loses and
        reveals the code; either way a new game starts from the given random choices. */
    method CheckGameEnd(bulls: int, pair: bool, picks: seq<int>, d: seq<nat>) returns (outcome: Outcome)
      requires Valid() && history != [] && bulls == history[|history| - 1].bulls
      requires forall k :: 0 <= k < |history| - 1 ==> history[k].bulls < CodeLength
      requires IsSample(picks, if pair then 3 else CodeLength)
      requires pair ==> IsDraws(d, CodeLength)
      modifies this
      ensures outcome == if bulls == CodeLength then Won
                         else if old(rowCount) >= Rows then Lost(old(secret))
                         else Continue
      ensures outcome != Continue ==>
                secret == Generated(pair, picks, d) &&
                guess == [] && history == [] && rowCount == 0 && !busy
      ensures outcome == Continue ==>
                secret == old(secret) && guess == old(guess) && history == old(history) &&
                rowCount == old(rowCount) && busy == old(busy)
      ensures InPlay()
    {
      if bulls == CodeLength {
        outcome := Won;
        InitGame(pair, picks, d);
      } else if rowCount >= Rows {
        outcome := Lost(secret);
        InitGame(pair, picks, d);
      } else {
        var last := history[|history| - 1];
        BullsAllIffEqual(last.guess, secret);
        outcome := Continue;
      }
    }

    /** A full row, from start_result_sequence to check_game_end, taken as one step:
        score the guess, record it, then win, lose or play on. */
    method ResolveRow(pair: bool, picks: seq<int>, d: seq<nat>) returns (bulls: nat, cows: nat, outcome: Outcome)
      requires InPlay() && busy
      requires IsSample(picks, if pair then 3 else CodeLength)
      requires pair ==> IsDraws(d, CodeLength)
      modifies this
      ensures bulls == Bulls(old(guess), old(secret)) && bulls + cows == Common(old(guess), old(secret))
      ensures outcome == if old(guess) == old(secret) then Won
                         else if old(rowCount) + 1 >= Rows then Lost(old(secret))
                         else Continue
      ensures outcome == Continue ==>
                history == old(history) + [Turn(old(guess), bulls, cows)] &&
                rowCount == old(rowCount) + 1 && guess == [] && !busy && secret == old(secret)
      ensures outcome != Continue ==>
                secret == Generated(pair, picks, d) &&
                guess == [] && history == [] && rowCount == 0 && !busy
      ensures InPlay()
    {
      bulls, cows := Score(guess, secret);
      RecordTurn(bulls, cows);
      outcome := CheckGameEnd(bulls, pair, picks, d);
    }
  }

  // ---------------------------------------------------------------------------
  // The gap between the fourth symbol and its scoring

  /** The two fields animate_move touches. */
  datatype Entry = Entry(guess: seq<int>, busy: bool)

  /** animate_move as written (game.py:194, 201, 207-208, 210): after the guard the symbol
      is appended and the busy flag cleared, also when the symbol completes the row, whose
      scoring only starts 100 ms later. */
  function AnimateMoveAsWritten(e: Entry, sym: int): Entry
  {
    if e.busy || |e.guess| >= CodeLength then e else Entry(e.guess + [sym], false)
  }

  /** undo_guess as written (game.py:259): pop the last symbol of a non-empty guess that is
      not animating. */
  function UndoAsWritten(e: Entry): Entry
  {
    if e.guess != [] && !e.busy then Entry(e.guess[..|e.guess| - 1], e.busy) else e
  }

  /** As written, the row completed by the fourth symbol is not busy, so an undo before
      scoring starts is accepted and leaves three symbols, idle. That guess cannot meet
      Score's requirement of four symbols: start_result_sequence then indexes g_copy[3]
      past its end (game.py:217). */
  lemma UndoOpenAfterFourthAsWritten(e: Entry, sym: int)
    requires !e.busy && |e.guess| == CodeLength - 1
    ensures var r := UndoAsWritten(AnimateMoveAsWritten(e, sym));
            !r.busy && |r.guess| == CodeLength - 1 && r.guess == e.guess
  {
    var full := AnimateMoveAsWritten(e, sym);
    assert full.guess[..|full.guess| - 1] == e.guess;
  }

  /** In the model the fourth symbol makes the row busy at once, so an undo before it is
      scored is refused and scoring sees the full row. */
  method UndoRefusedBeforeScoring(s: GameSession, sym: int) returns (undone: bool)
    requires s.Valid() && !s.busy && |s.guess| == CodeLength - 1 && 0 <= sym < ActiveIcons
    modifies s
    ensures !undone
    ensures s.busy && s.guess == old(s.guess) + [sym]
  {
    var accepted := s.Select(sym);
    undone := s.Undo();
  }
}
