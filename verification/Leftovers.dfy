/** What the readers of a session leave behind: how often a segment is unlinked, and that each unlink was decided once. */
module Leftovers {
  import opened Wrappers
  import opened Decision
  import opened Session
  import opened Protocol

  /** How often the unlink of an index that a leaving reader decided has been carried out. */
  function Unlinks(steps: seq<Step>, index: nat): nat {
    if steps == [] then 0
    else Unlinks(steps[..|steps| - 1], index) + if steps[|steps| - 1] == UnlinkLeft(index) then 1 else 0
  }

  /** The last reader of an index leaves while its unlink is put off. */
  predicate LastLeaves(s: State, e: Step, index: nat) {
    e == Release(index) && Readers(s.shared, index) <= 1 && index in s.shared.pending
  }

  /** How often such an unlink has been decided. */
  function Decisions(states: seq<State>, steps: seq<Step>, index: nat): nat
    requires |states| > |steps|
  {
    if steps == [] then 0
    else
      var n := |steps| - 1;
      Decisions(states, steps[..n], index) + if LastLeaves(states[n], steps[n], index) then 1 else 0
  }

  lemma LeavingAfter(c: Config, s: State, e: Step, index: nat)
    requires Enabled(c, s, e)
    ensures Next(c, s, e).leaving[index]
         == s.leaving[index] + (if LastLeaves(s, e, index) then 1 else 0) - if e == UnlinkLeft(index) then 1 else 0
  {}

  /** In each run the decided unlinks of an index are those carried out and those still to come. */
  lemma {:induction false} UnlinksBalance(c: Config, states: seq<State>, steps: seq<Step>, index: nat, n: nat)
    requires Run(c, states, steps) && n <= |steps|
    ensures Unlinks(steps[..n], index) + states[n].leaving[index] == Decisions(states, steps[..n], index)
    decreases n
  {
    if n > 0 {
      UnlinksBalance(c, states, steps, index, n - 1);
      LeavingAfter(c, states[n - 1], steps[n - 1], index);
      assert steps[..n][..n - 1] == steps[..n - 1];
    }
  }

  /** How often the readers of an index came, and how often one left that was counted. */
  function Served(states: seq<State>, steps: seq<Step>, index: nat): int
    requires |states| > |steps|
  {
    if steps == [] then 0
    else
      var n := |steps| - 1;
      Served(states, steps[..n], index)
      + if steps[n] == Acquire(index) then 1
        else if steps[n] == Release(index) && Readers(states[n].shared, index) > 0 then -1
        else 0
  }

  lemma ReadersAfter(c: Config, s: State, e: Step, index: nat)
    requires Enabled(c, s, e)
    ensures Readers(Next(c, s, e).shared, index)
         == Readers(s.shared, index) + if e == Acquire(index) then 1
            else if e == Release(index) && Readers(s.shared, index) > 0 then -1
            else 0
  {}

  /** In each run the reader count of an index is the number of readers that came less those that left. */
  lemma {:induction false} ReadersBalance(c: Config, states: seq<State>, steps: seq<Step>, index: nat, n: nat)
    requires Run(c, states, steps) && n <= |steps|
    ensures Readers(states[n].shared, index) == Served(states, steps[..n], index)
    decreases n
  {
    if n > 0 {
      ReadersBalance(c, states, steps, index, n - 1);
      ReadersAfter(c, states[n - 1], steps[n - 1], index);
      assert steps[..n][..n - 1] == steps[..n - 1];
    }
  }
}
