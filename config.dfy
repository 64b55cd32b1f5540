/** Fixed parameters of the game (the CONFIG block of game.py). */
module Config {
  /** Symbols per code and per guess row (the literal 4 used throughout game.py). */
  const CodeLength: nat := 4

  /** ACTIVE_ICONS: symbols of one session are 0 .. ActiveIcons - 1. */
  const ActiveIcons: nat := 4

  /** ROWS: guesses allowed before the game is lost. */
  const Rows: nat := 5

  /** Every entry of `s` is a symbol of the active alphabet. */
  predicate InAlphabet(s: seq<int>)
  {
    forall i :: 0 <= i < |s| ==> 0 <= s[i] < ActiveIcons
  }
}
