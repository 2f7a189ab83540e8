/**
 * One cycle of the main loop: every custom command runs once, the completion signals
 * arrive in some order, each command's result is placed in the slot of its order, and the
 * blocks read from the upstream status generator are appended after the N slots.
 */
module Cycle {
  import opened Wrappers
  import opened Blocks
  import opened Commands

  /** `arrivals` lists each of 0 .. n-1 once, in some order. */
  predicate IsPermutation(arrivals: seq<int>, n: nat) {
    |arrivals| == n &&
    (forall k :: 0 <= k < n ==> 0 <= arrivals[k] < n) &&
    (forall j, k :: 0 <= j < k < n ==> arrivals[j] != arrivals[k])
  }

  lemma {:induction false} DistinctCard(a: seq<int>)
    requires forall j, k :: 0 <= j < k < |a| ==> a[j] != a[k]
    ensures |set x | x in a| == |a|
  {
    if |a| > 0 {
      DistinctCard(a[1..]);
      assert (set x | x in a) == {a[0]} + (set x | x in a[1..]);
      assert a[0] !in a[1..];
    }
  }

  /** The slot indices 0 .. n-1. */
  function Below(n: nat): (s: set<int>)
    ensures forall k :: k in s <==> 0 <= k < n
    ensures |s| == n
  {
    if n == 0 then {} else Below(n - 1) + {n - 1}
  }

  lemma {:induction false} SubsetCard(a: set<int>, b: set<int>)
    requires a <= b
    ensures |a| <= |b|
  {
    assert b == a + (b - a);
  }

  /** N distinct orders in 0 .. N-1 are all of them: every slot receives a completion signal. */
  lemma {:induction false} PermutationCovers(arrivals: seq<int>, n: nat)
    requires IsPermutation(arrivals, n)
    ensures forall d :: 0 <= d < n ==> d in arrivals
  {
    var received := set x | x in arrivals;
    var slots := Below(n);
    DistinctCard(arrivals);
    forall d | 0 <= d < n ensures d in arrivals {
      if d !in arrivals {
        assert received <= slots - {d};
        SubsetCard(received, slots - {d});
        assert false;
      }
    }
  }

  /** Once all N signals have arrived, each having written its own slot, every slot is written. */
  lemma {:induction false} AllFilled(arrivals: seq<int>, n: nat, writes: seq<nat>)
    requires IsPermutation(arrivals, n) && |writes| == n
    requires forall j :: 0 <= j < n ==> writes[arrivals[j]] == 1
    ensures forall k :: 0 <= k < n ==> writes[k] == 1
  {
    PermutationCovers(arrivals, n);
    forall k | 0 <= k < n ensures writes[k] == 1 {
      assert k in arrivals;
      var j :| 0 <= j < |arrivals| && arrivals[j] == k;
    }
  }

  function Values(slots: seq<Option<Block>>): seq<Block>
    requires forall k :: 0 <= k < |slots| ==> slots[k].Some?
  {
    seq(|slots|, k requires 0 <= k < |slots| => slots[k].value)
  }

  /**
   * The receive loop: slot d gets command d's result for each signal d, in the order the
   * signals arrive. `writes` counts how often each slot was written.
   */
  method FillSlots(customBlocks: array<Option<Block>>, cmdList: seq<CustomCommand>, arrivals: seq<int>)
    returns (ghost writes: seq<nat>)
    requires IsPermutation(arrivals, |cmdList|) && |cmdList| <= customBlocks.Length
    requires forall k :: 0 <= k < |cmdList| ==> customBlocks[k] == None
    modifies customBlocks
    ensures |writes| == |cmdList| && forall k :: 0 <= k < |cmdList| ==> writes[k] == 1
    ensures forall k :: 0 <= k < |cmdList| ==> customBlocks[k] == Some(cmdList[k].result)
    ensures forall k :: |cmdList| <= k < customBlocks.Length ==> customBlocks[k] == old(customBlocks[k])
  {
    var n := |cmdList|;
    writes := seq(n, _ => 0);
    for i := 0 to n
      invariant |writes| == n
      invariant forall k :: 0 <= k < n ==>
        writes[k] <= 1 && customBlocks[k] == (if writes[k] == 1 then Some(cmdList[k].result) else None)
      // Signals already received have filled their slot; those still to come name empty ones.
      invariant forall j :: 0 <= j < i ==> writes[arrivals[j]] == 1
      invariant forall j :: i <= j < n ==> writes[arrivals[j]] == 0
      invariant forall k :: n <= k < customBlocks.Length ==> customBlocks[k] == old(customBlocks[k])
    {
      var d := arrivals[i];
      customBlocks[d] := Some(cmdList[d].result);
      writes := writes[d := writes[d] + 1];
    }
    AllFilled(arrivals, n, writes);
  }

  /** append(customBlocks, blocks...): the upstream blocks go into the room after the N slots. */
  method AppendBlocks(customBlocks: array<Option<Block>>, n: nat, blocks: seq<Block>)
    requires n + |blocks| == customBlocks.Length
    modifies customBlocks
    ensures customBlocks[..n] == old(customBlocks[..n])
    ensures forall k :: 0 <= k < |blocks| ==> customBlocks[n + k] == Some(blocks[k])
  {
    for j := 0 to |blocks|
      invariant customBlocks[..n] == old(customBlocks[..n])
      invariant forall k :: 0 <= k < j ==> customBlocks[n + k] == Some(blocks[k])
    {
      customBlocks[n + j] := Some(blocks[j]);
    }
  }

  /**
   * One cycle's output: the N slots filled from the completion signals, in whatever order
   * they arrive, followed by the M upstream blocks. `writes` counts how often each slot
   * was written.
   */
  method MergeCycle(cmdList: seq<CustomCommand>, blocks: seq<Block>, arrivals: seq<int>)
    returns (out: seq<Block>, ghost writes: seq<nat>)
    requires IsPermutation(arrivals, |cmdList|)
    ensures |out| == |cmdList| + |blocks|
    ensures forall k :: 0 <= k < |cmdList| ==> out[k] == cmdList[k].result
    ensures out[|cmdList|..] == blocks
    ensures |cmdList| == 0 ==> out == blocks
    ensures |writes| == |cmdList| && forall k :: 0 <= k < |cmdList| ==> writes[k] == 1
  {
    var n := |cmdList|;
    // N slots followed by room for the M upstream blocks;
    // None marks a slot no signal has filled yet.
    var customBlocks := new Option<Block>[n + |blocks|](_ => None);
    writes := FillSlots(customBlocks, cmdList, arrivals);
    AppendBlocks(customBlocks, n, blocks);
    assert forall k :: 0 <= k < n ==> customBlocks[k] == customBlocks[..n][k];
    forall k | 0 <= k < customBlocks.Length ensures customBlocks[k].Some? {
      if k >= n { assert customBlocks[n + (k - n)] == Some(blocks[k - n]); }
    }
    out := Values(customBlocks[..]);
    assert n == 0 ==> out == out[n..];
  }

  /**
   * The jobs of one cycle, run to completion in the order `arrivals`; each reports its order
   * on the completion channel. The first job that cannot run its command ends the cycle
   * with its diagnostic.
   */
  method RunJobs(cmdList: seq<CustomCommand>, outcomes: seq<RunOutcome>,
                 parse: string -> Decoding, arrivals: seq<int>)
    returns (r: Result<seq<int>, string>)
    requires ValidList(cmdList) && |outcomes| == |cmdList| && IsPermutation(arrivals, |cmdList|)
    modifies cmdList
    ensures r.Success? <==> forall k :: 0 <= k < |cmdList| ==> Execute(outcomes[k]).Success?
    ensures r.Failure? ==> exists k :: (0 <= k < |cmdList| && Execute(outcomes[k]).Failure? &&
      r.error == Diagnostic(cmdList[k].command, Execute(outcomes[k]).error))
    ensures r.Success? ==> r.value == arrivals && forall k :: 0 <= k < |cmdList| ==>
      Absorbed(old(cmdList[k].result), cmdList[k].result, cmdList[k].command, outcomes[k], parse)
  {
    var n := |cmdList|;
    var received: seq<int> := [];
    for i := 0 to n
      invariant received == arrivals[..i]
      // Jobs already completed have updated their record; the others have not run yet.
      invariant forall j :: 0 <= j < i ==>
        Absorbed(old(cmdList[arrivals[j]].result), cmdList[arrivals[j]].result,
                 cmdList[arrivals[j]].command, outcomes[arrivals[j]], parse)
      invariant forall j :: i <= j < n ==> cmdList[arrivals[j]].result == old(cmdList[arrivals[j]].result)
    {
      var d := arrivals[i];
      var done := cmdList[d].RunJob(outcomes[d], parse);
      if done.Failure? {
        return Failure(done.error);
      }
      received := received + [done.value];
    }
    PermutationCovers(arrivals, n);
    forall k | 0 <= k < n
      ensures Absorbed(old(cmdList[k].result), cmdList[k].result, cmdList[k].command, outcomes[k], parse)
    {
      assert k in arrivals;
      var j :| 0 <= j < n && arrivals[j] == k;
    }
    r := Success(received);
  }

  /**
   * Runs one cycle: the N jobs complete in the order `arrivals` and the result slots are
   * merged with the upstream blocks. A command that cannot be run ends the cycle, and the
   * program, with its diagnostic and no output.
   */
  method RunCycle(cmdList: seq<CustomCommand>, blocks: seq<Block>, outcomes: seq<RunOutcome>,
                  parse: string -> Decoding, arrivals: seq<int>)
    returns (r: Result<seq<Block>, string>)
    requires ValidList(cmdList) && |outcomes| == |cmdList| && IsPermutation(arrivals, |cmdList|)
    modifies cmdList
    ensures r.Success? <==> forall k :: 0 <= k < |cmdList| ==> Execute(outcomes[k]).Success?
    ensures r.Failure? ==> exists k :: (0 <= k < |cmdList| && Execute(outcomes[k]).Failure? &&
      r.error == Diagnostic(cmdList[k].command, Execute(outcomes[k]).error))
    ensures r.Success? ==> forall k :: 0 <= k < |cmdList| ==>
      Absorbed(old(cmdList[k].result), cmdList[k].result, cmdList[k].command, outcomes[k], parse)
    ensures r.Success? ==>
      |r.value| == |cmdList| + |blocks| &&
      (forall k :: 0 <= k < |cmdList| ==> r.value[k] == cmdList[k].result) &&
      r.value[|cmdList|..] == blocks
  {
    var jobs := RunJobs(cmdList, outcomes, parse, arrivals);
    if jobs.Failure? {
      return Failure(jobs.error);
    }
    var out, _ := MergeCycle(cmdList, blocks, jobs.value);
    r := Success(out);
  }
}
