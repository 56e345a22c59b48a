/**
 * The bounded undo history of hooks/use-game-history.ts (and the copy in
 * components/line98-game.tsx): saving appends a snapshot and keeps only the
 * newest MaxHistory of them, dropping the oldest first.
 */
module History {

  /** Number of snapshots kept. */
  const MaxHistory: nat := 10

  /** saveStateToHistory: append, then keep the last MaxHistory entries (slice(-MaxHistory)). */
  function SaveStateToHistory<S>(history: seq<S>, state: S): (h: seq<S>)
    ensures |h| == if |history| + 1 <= MaxHistory then |history| + 1 else MaxHistory
    ensures h[|h| - 1] == state
    ensures h[..|h| - 1] == history[|history| - (|h| - 1)..]
  {
    var extended := history + [state];
    if |extended| <= MaxHistory then extended else extended[|extended| - MaxHistory..]
  }

  /**
   * canUndo: more than one snapshot and no ball in flight. When it holds,
   * there is a snapshot before the newest one for undo to restore.
   */
  predicate CanUndo<S>(history: seq<S>, isMovingBall: bool): (ok: bool)
    ensures ok ==> !isMovingBall && 0 <= |history| - 2
  {
    |history| > 1 && !isMovingBall
  }

  /** Below capacity nothing is dropped: the history just grows by the new snapshot. */
  lemma SaveBelowCapacity<S>(history: seq<S>, state: S)
    requires |history| < MaxHistory
    ensures SaveStateToHistory(history, state) == history + [state]
  {
  }

  /** At capacity exactly the oldest snapshot is dropped. */
  lemma SaveAtCapacity<S>(history: seq<S>, state: S)
    requires |history| == MaxHistory
    ensures SaveStateToHistory(history, state) == history[1..] + [state]
  {
    var h := SaveStateToHistory(history, state);
    assert h == h[..|h| - 1] + [h[|h| - 1]];
  }

  /**
   * A turn saves two snapshots: `a` when the move starts and `b` when the
   * spawn after it starts. Undo then drops `b` and restores `a`, the state
   * before the move, and it is allowed once no ball is in flight.
   */
  lemma UndoAfterTurn<S>(history: seq<S>, a: S, b: S)
    ensures var h := SaveStateToHistory(SaveStateToHistory(history, a), b);
      CanUndo(h, false) && h[|h| - 2] == a && h[|h| - 1] == b
  {
  }

  /**
   * With snapshots kept as values, undo can be repeated: after an undo
   * (the newest entry is dropped and the one before it, r, is restored),
   * a turn saves x and y; undoing twice then restores x and then r again.
   */
  lemma SecondUndoRestoresSaved<S>(history: seq<S>, x: S, y: S)
    requires |history| >= 2
    ensures var h1 := history[..|history| - 1];
      var h2 := SaveStateToHistory(SaveStateToHistory(h1, x), y);
      var h3 := h2[..|h2| - 1];
      var h4 := h3[..|h3| - 1];
      && h1[|h1| - 1] == history[|history| - 2]
      && CanUndo(h2, false) && h3[|h3| - 1] == x
      && CanUndo(h3, false) && h4[|h4| - 1] == history[|history| - 2]
  {
    var h1 := history[..|history| - 1];
    var g := SaveStateToHistory(h1, x);
    var h2 := SaveStateToHistory(g, y);
    SaveShiftsBack(h1, x, |g| - 2);
    SaveShiftsBack(g, y, |h2| - 2);
    SaveShiftsBack(g, y, |h2| - 3);
  }

  /** Every entry before the new snapshot is an old entry, shifted down by the number of entries dropped. */
  lemma SaveShiftsBack<S>(history: seq<S>, state: S, i: nat)
    requires i + 1 < |SaveStateToHistory(history, state)|
    ensures var h := SaveStateToHistory(history, state);
      h[i] == history[|history| + 1 - |h| + i]
  {
    var h := SaveStateToHistory(history, state);
    assert h[..|h| - 1][i] == h[i];
  }


  /** The history after saving each of `states` in turn. */
  function SaveAll<S>(history: seq<S>, states: seq<S>): seq<S>
    decreases |states|
  {
    if states == [] then history else SaveAll(SaveStateToHistory(history, states[0]), states[1..])
  }

  /** The newest MaxHistory entries of a sequence (all of it when it is shorter). */
  function Newest<S>(all: seq<S>): seq<S> {
    if |all| <= MaxHistory then all else all[|all| - MaxHistory..]
  }

  /** Saving keeps the newest entries of the old history followed by the new snapshot. */
  lemma SaveIsNewest<S>(history: seq<S>, state: S)
    ensures SaveStateToHistory(history, state) == Newest(history + [state])
  {
    var h := SaveStateToHistory(history, state);
    assert h == h[..|h| - 1] + [h[|h| - 1]];
  }

  /** A long enough suffix has the same newest entries as the whole. */
  lemma NewestOfSuffix<S>(all: seq<S>, tail: seq<S>)
    requires |tail| <= |all| && tail == all[|all| - |tail|..]
    requires |tail| >= MaxHistory || |tail| == |all|
    ensures Newest(tail) == Newest(all)
  {
  }

  /** A suffix followed by more entries is a suffix of the whole followed by them. */
  lemma SuffixThenRest<S>(all: seq<S>, tail: seq<S>, rest: seq<S>)
    requires |tail| <= |all| && tail == all[|all| - |tail|..]
    ensures tail + rest == (all + rest)[|all + rest| - |tail + rest|..]
  {
    var whole := all + rest;
    assert |whole| - |tail + rest| == |all| - |tail|;
    forall i | 0 <= i < |tail + rest| ensures (tail + rest)[i] == whole[|all| - |tail| + i] {
      if i < |tail| {
        assert tail[i] == all[|all| - |tail| + i];
      }
    }
  }

  /** Keeping only the newest entries before appending more does not change the newest entries after. */
  lemma NewestAbsorbs<S>(all: seq<S>, rest: seq<S>)
    ensures Newest(Newest(all) + rest) == Newest(all + rest)
  {
    if |all| > MaxHistory {
      SuffixThenRest(all, Newest(all), rest);
      NewestOfSuffix(all + rest, Newest(all) + rest);
    }
  }

  /**
   * However many snapshots are saved, the history is the newest MaxHistory
   * of everything saved so far, in saving order: the eviction is first in,
   * first out.
   */
  lemma {:induction false} SaveAllKeepsNewest<S>(history: seq<S>, states: seq<S>)
    requires |history| <= MaxHistory
    ensures SaveAll(history, states) == Newest(history + states)
    decreases |states|
  {
    if states == [] {
      assert history + states == history;
    } else {
      var first, rest := states[0], states[1..];
      var h := SaveStateToHistory(history, first);
      assert [first] + rest == states;
      SaveAllKeepsNewest(h, rest);
      SaveThenNewest(history, first, rest);
    }
  }

  /** One save followed by the newest entries of the rest: the newest of everything. */
  lemma SaveThenNewest<S>(history: seq<S>, first: S, rest: seq<S>)
    ensures Newest(SaveStateToHistory(history, first) + rest) == Newest(history + ([first] + rest))
  {
    SaveIsNewest(history, first);
    NewestAbsorbs(history + [first], rest);
    assert (history + [first]) + rest == history + ([first] + rest);
  }

}
