/**
 Every run of the database is a proper run of the load protocol.
 */
module RefineRuns {
  import opened Types
  import opened LoadProtocol
  import opened LoadInvariant
  import opened LoadInvariantProof
  import opened LoadHistory
  import opened LoadPaths
  import opened Refinement
  import opened RefineClean
  import opened RefineShrink
  import opened RefineFlush
  import D = Database
  import DI = DatabaseInvariant
  import T = DatabaseTheorems

  lemma OperationRefines(s: State, db: D.Db, op: T.Op) returns (s': State)
    requires Core(s) && Resting(s) && Matches(s, db) && DI.Core(db) && T.Can(db, op)
    ensures Reaches(s, s') && Core(s') && Resting(s') && Matches(s', T.Apply(db, op))
  {
    hide Core, Reaches, Resting, Matches, DI.Core;
    hide D.CanPurgeZero, D.IsBatch, D.CanShrink;
    hide D.StoreAccounts, D.AddRoot, D.PurgeSlot, D.FlushSlots, D.CleanOlder, D.PurgeZero, D.Shrink;
    Stay(s);
    match op
    case OpStore(slot, accounts) => s' := StoreRefines(s, s, db, slot, accounts);
    case OpRoot(slot) => s' := RootRefines(s, s, db, slot);
    case OpPurgeSlot(slot) => s' := PurgeRefines(s, s, db, slot);
    case OpFlush(slots, upTo, clean, mark) => s' := FlushRefines(s, s, db, slots, upTo, clean, mark);
    case OpCleanOlder(keys, bound) => s' := OlderRefines(s, s, db, keys, bound);
    case OpPurgeZero(keys, bound) => s' := PurgeZeroRefines(s, s, db, keys, bound);
    case OpShrink(slot, zero) => s' := ShrinkRefines(s, s, db, slot, zero);
  }

  lemma Join(a: State, b: State, c: State)
    requires Reaches(a, b) && Reaches(b, c)
    ensures Reaches(a, c)
  {
    hide Next, Proper;
    var states1, steps1 :| IsPath(states1, steps1, a, b);
    var states2, steps2 :| IsPath(states2, steps2, b, c);
    Joined(states1, steps1, states2, steps2, a, b, c);
  }

  lemma Joined(states1: seq<State>, steps1: seq<Step>, states2: seq<State>, steps2: seq<Step>, a: State, b: State,
               c: State)
    requires IsPath(states1, steps1, a, b) && IsPath(states2, steps2, b, c)
    ensures IsPath(states1 + states2[1..], steps1 + steps2, a, c)
  {
    hide Next, Proper;
    var states, steps, n := states1 + states2[1..], steps1 + steps2, |steps1|;
    assert forall i :: 0 <= i <= |steps2| ==> states[n + i] == states2[i];
    forall i | 0 <= i < |steps| ensures Next(states[i], steps[i], states[i + 1]) && Proper(states[i], steps[i]) {
      if n <= i {
        assert states[n + (i - n)] == states2[i - n] && states[n + (i - n + 1)] == states2[i - n + 1];
      }
    }
  }

  /** A proper run of the protocol goes from each database of a run to the next. */
  lemma {:induction false} RunRefines(dbs: seq<D.Db>, ops: seq<T.Op>) returns (marks: seq<State>)
    requires T.IsRun(dbs, ops)
    ensures |marks| == |dbs| && marks[0] == EMPTY
    ensures forall i | 0 <= i < |dbs| :: Core(marks[i]) && Resting(marks[i]) && Matches(marks[i], dbs[i])
    ensures forall i | 0 <= i < |dbs| :: Reaches(EMPTY, marks[i])
    ensures forall i | 0 <= i < |ops| :: Reaches(marks[i], marks[i + 1])
    decreases |ops|
  {
    hide Core, Reaches, Resting, Matches, DI.Core, T.Can, T.Apply;
    var n := |ops|;
    if n == 0 {
      marks := [EMPTY];
      EmptyMatches();
      Stay(EMPTY);
    } else {
      var before := RunRefines(dbs[..n], ops[..n - 1]);
      InvariantOf(dbs, ops, n - 1);
      var s := OperationRefines(before[n - 1], dbs[n - 1], ops[n - 1]);
      Join(EMPTY, before[n - 1], s);
      marks := before + [s];
      assert dbs[n - 1 + 1] == T.Apply(dbs[n - 1], ops[n - 1]);
    }
  }

  lemma InvariantOf(dbs: seq<D.Db>, ops: seq<T.Op>, i: nat)
    requires T.IsRun(dbs, ops) && i < |dbs|
    ensures DI.Core(dbs[i])
  {
    hide T.IsRun;
    T.InvariantOfRuns(dbs, ops, i);
  }

  lemma EmptyMatches()
    ensures Core(EMPTY) && Resting(EMPTY) && Matches(EMPTY, D.EMPTY)
  {}

  /** Each database of a run is reached by a run of the protocol that satisfies what concurrent loads need. */
  lemma EveryRunRefines(dbs: seq<D.Db>, ops: seq<T.Op>, i: nat) returns (states: seq<State>, steps: seq<Step>)
    requires T.IsRun(dbs, ops) && i < |dbs|
    ensures IsProperRun(states, steps) && Resting(states[|steps|]) && Matches(states[|steps|], dbs[i])
  {
    hide Core, Resting, Matches, T.IsRun, IsPath;
    var marks := RunRefines(dbs, ops);
    states, steps :| IsPath(states, steps, EMPTY, marks[i]);
    PathIsRun(states, steps, marks[i]);
    Ends(states, steps, marks[i]);
  }

  lemma Ends(states: seq<State>, steps: seq<Step>, s: State)
    requires IsPath(states, steps, EMPTY, s)
    ensures |states| == |steps| + 1 && states[|steps|] == s
  {}
}
