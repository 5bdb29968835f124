/**
 Paths of the load protocol: sequences of proper steps from one state to another.
 */
module LoadPaths {
  import opened Types
  import opened LoadProtocol
  import opened LoadInvariant
  import opened LoadInvariantProof
  import opened LoadHistory

  ghost predicate IsPath(states: seq<State>, steps: seq<Step>, s: State, s': State) {
    && |states| == |steps| + 1 && states[0] == s && states[|steps|] == s'
    && forall i :: 0 <= i < |steps| ==> Next(states[i], steps[i], states[i + 1]) && Proper(states[i], steps[i])
  }

  ghost predicate Reaches(s: State, s': State) {
    exists states: seq<State>, steps: seq<Step> :: IsPath(states, steps, s, s')
  }

  lemma Stay(s: State)
    ensures Reaches(s, s)
  {
    assert IsPath([s], [], s, s);
  }

  lemma PathNext(states: seq<State>, steps: seq<Step>, start: State, s: State, step: Step, s': State)
    requires IsPath(states, steps, start, s) && Next(s, step, s') && Proper(s, step)
    ensures IsPath(states + [s'], steps + [step], start, s')
  {
    hide Next, Proper;
    var states', steps' := states + [s'], steps + [step];
    forall i | 0 <= i < |steps'|
      ensures Next(states'[i], steps'[i], states'[i + 1]) && Proper(states'[i], steps'[i])
    {
      if i < |steps| {
        assert states'[i] == states[i] && states'[i + 1] == states[i + 1] && steps'[i] == steps[i];
      }
    }
  }

  /** One more step of a path. */
  lemma Take(start: State, s: State, step: Step, s': State)
    requires Reaches(start, s) && Core(s) && Next(s, step, s') && Proper(s, step)
    ensures Reaches(start, s') && Core(s')
  {
    hide Core, Next, Proper, IsPath;
    EveryStepKeeps(s, step, s');
    var states, steps :| IsPath(states, steps, start, s);
    PathNext(states, steps, start, s, step, s');
  }

  lemma TakeStore(start: State, s: State, step: Step, s': State)
    requires Reaches(start, s) && Core(s) && StoreNext(s, step, s')
    ensures Reaches(start, s') && Core(s')
  {
    hide Core, Reaches;
    Take(start, s, step, s');
  }

  lemma TakeFlushBatch(start: State, s: State, step: Step, s': State)
    requires Reaches(start, s) && Core(s) && FlushBatchNext(s, step, s')
    ensures Reaches(start, s') && Core(s')
  {
    hide Core, Reaches;
    Take(start, s, step, s');
  }

  lemma TakeFlushSlot(start: State, s: State, step: Step, s': State)
    requires Reaches(start, s) && Core(s) && FlushSlotNext(s, step, s')
    ensures Reaches(start, s') && Core(s')
  {
    hide Core, Reaches;
    Take(start, s, step, s');
  }

  lemma TakeReclaim(start: State, s: State, step: Step, s': State)
    requires Reaches(start, s) && Core(s) && ReclaimNext(s, step, s')
    ensures Reaches(start, s') && Core(s')
  {
    hide Core, Reaches;
    Take(start, s, step, s');
  }

  lemma TakeClean(start: State, s: State, step: Step, s': State)
    requires Reaches(start, s) && Core(s) && CleanNext(s, step, s') && Proper(s, step)
    ensures Reaches(start, s') && Core(s')
  {
    hide Core, Reaches, Proper;
    Take(start, s, step, s');
  }

  lemma TakePurge(start: State, s: State, step: Step, s': State)
    requires Reaches(start, s) && Core(s) && PurgeNext(s, step, s')
    ensures Reaches(start, s') && Core(s')
  {
    hide Core, Reaches;
    Take(start, s, step, s');
  }

  lemma TakeShrinkSlot(start: State, s: State, step: Step, s': State)
    requires Reaches(start, s) && Core(s) && ShrinkSlotNext(s, step, s') && Proper(s, step)
    ensures Reaches(start, s') && Core(s')
  {
    hide Core, Reaches, Proper;
    Take(start, s, step, s');
  }

  lemma TakeShrinkSwap(start: State, s: State, step: Step, s': State)
    requires Reaches(start, s) && Core(s) && ShrinkSwapNext(s, step, s')
    ensures Reaches(start, s') && Core(s')
  {
    hide Core, Reaches;
    Take(start, s, step, s');
  }

  lemma PathIsRun(states: seq<State>, steps: seq<Step>, s: State)
    requires IsPath(states, steps, EMPTY, s)
    ensures IsProperRun(states, steps)
  {
    hide Next, Proper;
  }
}
