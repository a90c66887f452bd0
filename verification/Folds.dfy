/** Left folds over a sequence of turns, each of which has to fit the state it finds. */
module Folds {
  function Fold<S, T>(s: S, turns: seq<T>, step: (S, T) -> S): S {
    if turns == [] then s
    else step(Fold(s, turns[..|turns| - 1], step), turns[|turns| - 1])
  }

  ghost predicate EachFits<S, T>(s: S, turns: seq<T>, step: (S, T) -> S, fits: (S, T) -> bool) {
    turns == [] ||
    var front, last := turns[..|turns| - 1], turns[|turns| - 1];
    EachFits(s, front, step, fits) && fits(Fold(s, front, step), last)
  }

  lemma FoldSnoc<S, T>(s: S, turns: seq<T>, turn: T, step: (S, T) -> S, fits: (S, T) -> bool)
    ensures Fold(s, turns + [turn], step) == step(Fold(s, turns, step), turn)
    ensures EachFits(s, turns + [turn], step, fits)
            <==> EachFits(s, turns, step, fits) && fits(Fold(s, turns, step), turn)
  {
    assert (turns + [turn])[..|turns|] == turns;
  }

  /** What every fitting turn keeps, the fold keeps. */
  lemma {:induction false} FoldKeeps<S(!new), T(!new)>(
    s: S, turns: seq<T>, step: (S, T) -> S, fits: (S, T) -> bool, inv: (seq<T>, S) -> bool)
    requires EachFits(s, turns, step, fits) && inv([], s)
    requires forall front, x, turn :: inv(front, x) && fits(x, turn) ==> inv(front + [turn], step(x, turn))
    ensures inv(turns, Fold(s, turns, step))
  {
    if turns != [] {
      var front, last := turns[..|turns| - 1], turns[|turns| - 1];
      FoldKeeps(s, front, step, fits, inv);
      assert turns == front + [last];
    }
  }
}
