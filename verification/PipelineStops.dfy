/** How the two threads of the detector end: both test the stop flag at the top of their loops. */
module PipelineStops {
  import opened Wrappers
  import opened FramePipeline

  // ------------------------------------------------- the flag and the two tops

  /** The flag is only ever set. */
  lemma {:induction false} StopStays(states: seq<State>, steps: seq<Step>, i: nat, j: nat)
    requires IsRun(states, steps) && i <= j < |states| && states[i].stop
    ensures states[j].stop
    decreases j - i
  {
    if i < j {
      StopStays(states, steps, i, j - 1);
      SameFlag(states[j - 1], steps[j - 1]);
    }
  }

  lemma {:induction false} DrainedRest(s: State)
    ensures var t := Drained(s);
            && t.stop == s.stop && t.run == s.run && t.infer == s.infer && t.received == s.received
            && t.setup == s.setup && |GivenNumbers(t.taken)| == |GivenNumbers(s.taken)|
    decreases |s.inference|
  {
    if |s.inference| >= MAX_INFERENCE {
      GivenLast(s.taken, Dropped(s.inference[0].n));
      DrainedRest(DropOldest(s));
    }
  }

  lemma {:induction false} TrimmedRest(s: State)
    ensures var t := Trimmed(s);
            && t.stop == s.stop && t.run == s.run && t.infer == s.infer && t.received == s.received
            && t.setup == s.setup && t.taken == s.taken
    decreases |s.free|
  {
    if |s.free| >= MAX_FREE { TrimmedRest(FreeOldest(s)); }
  }

  lemma SameFlag(s: State, step: Step)
    requires Enabled(s, step)
    ensures Next(s, step).stop == (s.stop || step.Stop?) && Next(s, step).setup == s.setup
  {
    if step.Drain? { DrainedRest(s); }
    if step.Trim? { TrimmedRest(s); }
  }

  predicate OfRun(step: Step) { step.RunTest? || step.ReceiveFails? || step.OnMessage() || step.OnFrame() }

  predicate OfInfer(step: Step) { step.InferTest? || step.OnInference() }

  /** A step of one thread does not move the other. */
  lemma OtherThreadStays(s: State, step: Step)
    requires Enabled(s, step)
    ensures !OfRun(step) ==> Next(s, step).run == s.run && Next(s, step).received == s.received
    ensures !OfInfer(step) ==> Next(s, step).infer == s.infer
    ensures !OfInfer(step) ==> |GivenNumbers(Next(s, step).taken)| == |GivenNumbers(s.taken)|
  {
    match step
    case Drain => DrainedRest(s);
    case Trim => TrimmedRest(s);
    case _ => SimpleSteps(s, step);
  }

  lemma SimpleSteps(s: State, step: Step)
    requires Enabled(s, step) && !step.Drain? && !step.Trim?
    ensures !OfRun(step) ==> Next(s, step).run == s.run && Next(s, step).received == s.received
    ensures !OfInfer(step) ==> Next(s, step).infer == s.infer && Next(s, step).taken == s.taken
  {}

  predicate RunAtEnd(s: State) { s.run.RunTop? || s.run.RunExited? }

  predicate InferAtEnd(s: State) { s.infer.InferTop? || s.infer.InferExited? }

  lemma EndStep(s: State, step: Step)
    requires Enabled(s, step) && s.stop
    ensures RunAtEnd(s) ==> RunAtEnd(Next(s, step)) && (step.RunTest? ==> Next(s, step).run.RunExited?)
    ensures InferAtEnd(s) ==> InferAtEnd(Next(s, step)) && (step.InferTest? ==> Next(s, step).infer.InferExited?)
  {
    OtherThreadStays(s, step);
  }

  /** A thread that is at its top when the flag is set stays there or exits, and its next test exits. */
  lemma {:induction false} TopThenExit(states: seq<State>, steps: seq<Step>, i: nat, j: nat)
    requires IsRun(states, steps) && i <= j < |states| && states[i].stop
    ensures RunAtEnd(states[i]) ==> RunAtEnd(states[j])
    ensures InferAtEnd(states[i]) ==> InferAtEnd(states[j])
    ensures j < |steps| && steps[j].RunTest? ==> states[j + 1].run.RunExited?
    ensures j < |steps| && steps[j].InferTest? ==> states[j + 1].infer.InferExited?
    decreases j - i
  {
    StopStays(states, steps, i, j);
    if i < j {
      TopThenExit(states, steps, i, j - 1);
      StopStays(states, steps, i, j - 1);
      EndStep(states[j - 1], steps[j - 1]);
    }
    if j < |steps| { EndStep(states[j], steps[j]); }
  }

  // ------------------------------------------------- exiting

  lemma ExitedStep(s: State, step: Step)
    requires Enabled(s, step)
    ensures s.run.RunExited? ==> Next(s, step).run.RunExited?
    ensures s.infer.InferExited? ==> Next(s, step).infer.InferExited?
    ensures Next(s, step).run.RunExited? ==> s.run.RunExited? || (step.RunTest? && s.stop)
    ensures Next(s, step).infer.InferExited? ==> s.infer.InferExited? || (step.InferTest? && s.stop)
  {
    OtherThreadStays(s, step);
  }

  lemma ExitedFollows(states: seq<State>, steps: seq<Step>, j: nat)
    requires IsRun(states, steps) && 0 < j < |states|
    ensures states[j - 1].run.RunExited? ==> states[j].run.RunExited?
    ensures states[j - 1].infer.InferExited? ==> states[j].infer.InferExited?
  {
    ExitedStep(states[j - 1], steps[j - 1]);
  }

  ghost predicate KeepsExits(states: seq<State>) {
    forall j | 0 < j < |states| ::
      && (states[j - 1].run.RunExited? ==> states[j].run.RunExited?)
      && (states[j - 1].infer.InferExited? ==> states[j].infer.InferExited?)
  }

  lemma {:induction false} ExitedStays(states: seq<State>, i: nat, j: nat)
    requires KeepsExits(states) && i <= j < |states|
    ensures states[i].run.RunExited? ==> states[j].run.RunExited?
    ensures states[i].infer.InferExited? ==> states[j].infer.InferExited?
    decreases j - i
  {
    if i < j { ExitedStays(states, i, j - 1); }
  }

  /** A thread that has exited never moves again. */
  lemma ExitIsFinal(states: seq<State>, steps: seq<Step>, i: nat, j: nat)
    requires IsRun(states, steps) && i <= j < |states|
    ensures states[i].run.RunExited? ==> states[j].run.RunExited?
    ensures states[i].infer.InferExited? ==> states[j].infer.InferExited?
  {
    assert KeepsExits(states) by {
      forall j | 0 < j < |states|
        ensures states[j - 1].run.RunExited? ==> states[j].run.RunExited?
        ensures states[j - 1].infer.InferExited? ==> states[j].infer.InferExited?
      {
        ExitedFollows(states, steps, j);
      }
    }
    ExitedStays(states, i, j);
  }

  /** It exits only after the flag was set. */
  lemma {:induction false} ExitNeedsStop(states: seq<State>, steps: seq<Step>, i: nat)
    requires IsRun(states, steps) && i < |states|
    ensures states[i].run.RunExited? || states[i].infer.InferExited? ==> states[i].stop
  {
    if i > 0 {
      ExitNeedsStop(states, steps, i - 1);
      ExitedStep(states[i - 1], steps[i - 1]);
      SameFlag(states[i - 1], steps[i - 1]);
    }
  }

  // ------------------------------------------------- what still happens

  /** The messages received, and the one that may still come. */
  function Expected(s: State): nat { |s.received| + if s.run.Receiving? then 1 else 0 }

  /** The frames given to inference, and the one that may still be. */
  function Given(s: State): nat { |GivenNumbers(s.taken)| + if s.infer.Popping? then 1 else 0 }

  lemma ExpectedStep(s: State, step: Step)
    requires Enabled(s, step) && s.stop
    ensures Expected(Next(s, step)) <= Expected(s)
  {
    OtherThreadStays(s, step);
    if step.Drain? { DrainedRest(s); }
    if step.Trim? { TrimmedRest(s); }
  }

  lemma GivenStep(s: State, step: Step)
    requires Enabled(s, step) && s.stop
    ensures Given(Next(s, step)) <= Given(s)
  {
    OtherThreadStays(s, step);
    if step.Pop? && s.inference != [] { GivenLast(s.taken, FramePipeline.Given(s.inference[0].n)); }
  }

  /** Once the flag is set at most one more message is received, and at most one more frame is taken up by
      inference. */
  lemma {:induction false} OneMoreAtMost(states: seq<State>, steps: seq<Step>, i: nat, j: nat)
    requires IsRun(states, steps) && i <= j < |states| && states[i].stop
    ensures |states[j].received| <= Expected(states[j]) <= Expected(states[i]) <= |states[i].received| + 1
    ensures |GivenNumbers(states[j].taken)| <= Given(states[j]) <= Given(states[i])
    ensures Given(states[i]) <= |GivenNumbers(states[i].taken)| + 1
    decreases j - i
  {
    if i < j {
      OneMoreAtMost(states, steps, i, j - 1);
      StopStays(states, steps, i, j - 1);
      ExpectedStep(states[j - 1], steps[j - 1]);
      GivenStep(states[j - 1], steps[j - 1]);
    }
  }

  // ------------------------------------------------- both threads end

  function Rest(size: nat, done: nat): nat { if done < size then size - done else 0 }

  /** How many steps `runLoop` can still take once the flag is set. */
  function RunRank(run: RunPc, size: nat): nat {
    match run
    case RunTop => 1
    case Trimming => 2
    case Copying(_, _, bytes, _, _) => 3 + Rest(size, |bytes|)
    case Taking(_) => 4 + size
    case Allocating(_) => 4 + size
    case Checking(_) => 5 + size
    case Unpacking(_) => 6 + size
    case Draining(_) => 7 + size
    case Receiving => 8 + size
    case RunExited => 0
    case RunUndefined => 0
  }

  function InferRank(infer: InferPc, size: nat): nat {
    match infer
    case InferTop => 1
    case Inferring(_, _, seen) => 2 + Rest(size, |seen|)
    case Popping => 3 + size
    case InferExited => 0
    case InferUndefined => 0
  }

  lemma RunRankFalls(s: State, step: Step)
    requires Enabled(s, step) && s.stop && OfRun(step)
    ensures RunRank(Next(s, step).run, s.setup.frameSize) < RunRank(s.run, s.setup.frameSize)
  {}

  lemma InferRankFalls(s: State, step: Step)
    requires Enabled(s, step) && s.stop && OfInfer(step)
    ensures InferRank(Next(s, step).infer, s.setup.frameSize) < InferRank(s.infer, s.setup.frameSize)
  {}

  lemma RunRankFollows(s: State, step: Step, size: nat)
    requires Enabled(s, step) && s.stop && size == s.setup.frameSize
    ensures RunRank(Next(s, step).run, size) + (if OfRun(step) then 1 else 0) <= RunRank(s.run, size)
  {
    if OfRun(step) { RunRankFalls(s, step); } else { OtherThreadStays(s, step); }
  }

  lemma InferRankFollows(s: State, step: Step, size: nat)
    requires Enabled(s, step) && s.stop && size == s.setup.frameSize
    ensures InferRank(Next(s, step).infer, size) + (if OfInfer(step) then 1 else 0) <= InferRank(s.infer, size)
  {
    if OfInfer(step) { InferRankFalls(s, step); } else { OtherThreadStays(s, step); }
  }

  lemma {:induction false} SameSetup(states: seq<State>, steps: seq<Step>, i: nat, j: nat)
    requires IsRun(states, steps) && i <= j < |states|
    ensures states[j].setup == states[i].setup
    decreases j - i
  {
    if i < j {
      SameSetup(states, steps, i, j - 1);
      SameFlag(states[j - 1], steps[j - 1]);
    }
  }

  /** How many of some steps are taken by a thread. */
  function Count(own: seq<bool>): nat {
    if own == [] then 0 else Count(own[..|own| - 1]) + if own[|own| - 1] then 1 else 0
  }

  /** A rank that falls with every own step bounds their number. */
  lemma {:induction false} CountBounded(ranks: seq<nat>, own: seq<bool>, i: nat, j: nat)
    requires |ranks| == |own| + 1 && i <= j < |ranks|
    requires forall k | i <= k < j :: ranks[k + 1] + (if own[k] then 1 else 0) <= ranks[k]
    ensures Count(own[i..j]) + ranks[j] <= ranks[i]
    decreases j - i
  {
    if i < j {
      CountBounded(ranks, own, i, j - 1);
      assert own[i..j][..j - i - 1] == own[i..j - 1];
    }
  }

  function RunRanks(states: seq<State>, size: nat): (r: seq<nat>)
    ensures |r| == |states| && forall k | 0 <= k < |r| :: r[k] == RunRank(states[k].run, size)
  {
    seq(|states|, k requires 0 <= k < |states| => RunRank(states[k].run, size))
  }

  function InferRanks(states: seq<State>, size: nat): (r: seq<nat>)
    ensures |r| == |states| && forall k | 0 <= k < |r| :: r[k] == InferRank(states[k].infer, size)
  {
    seq(|states|, k requires 0 <= k < |states| => InferRank(states[k].infer, size))
  }

  function RunSteps(steps: seq<Step>): (r: seq<bool>)
    ensures |r| == |steps| && forall k | 0 <= k < |r| :: r[k] == OfRun(steps[k])
  {
    seq(|steps|, k requires 0 <= k < |steps| => OfRun(steps[k]))
  }

  function InferSteps(steps: seq<Step>): (r: seq<bool>)
    ensures |r| == |steps| && forall k | 0 <= k < |r| :: r[k] == OfInfer(steps[k])
  {
    seq(|steps|, k requires 0 <= k < |steps| => OfInfer(steps[k]))
  }

  lemma RanksFallAt(states: seq<State>, steps: seq<Step>, i: nat, k: nat)
    requires IsRun(states, steps) && i <= k < |steps| && states[i].stop
    ensures var size := states[i].setup.frameSize;
            && RunRank(states[k + 1].run, size) + (if OfRun(steps[k]) then 1 else 0) <= RunRank(states[k].run, size)
            && InferRank(states[k + 1].infer, size) + (if OfInfer(steps[k]) then 1 else 0) <=
               InferRank(states[k].infer, size)
  {
    StopStays(states, steps, i, k);
    SameSetup(states, steps, i, k);
    RunRankFollows(states[k], steps[k], states[i].setup.frameSize);
    InferRankFollows(states[k], steps[k], states[i].setup.frameSize);
  }

  lemma RanksBounded(run: RunPc, infer: InferPc, size: nat)
    ensures RunRank(run, size) <= 8 + size && InferRank(infer, size) <= 3 + size
  {}

  /** Once the flag is set each thread takes only so many more steps, whatever the other does. */
  lemma FewStepsLeft(states: seq<State>, steps: seq<Step>, i: nat, j: nat)
    requires IsRun(states, steps) && i <= j < |states| && states[i].stop
    ensures Count(RunSteps(steps)[i..j]) <= 8 + states[i].setup.frameSize
    ensures Count(InferSteps(steps)[i..j]) <= 3 + states[i].setup.frameSize
  {
    var size := states[i].setup.frameSize;
    var run, infer := RunRanks(states, size), InferRanks(states, size);
    forall k | i <= k < j
      ensures run[k + 1] + (if RunSteps(steps)[k] then 1 else 0) <= run[k]
      ensures infer[k + 1] + (if InferSteps(steps)[k] then 1 else 0) <= infer[k]
    {
      RanksFallAt(states, steps, i, k);
    }
    CountBounded(run, RunSteps(steps), i, j);
    CountBounded(infer, InferSteps(steps), i, j);
    RanksBounded(states[i].run, states[i].infer, size);
  }

  /** And as long as a thread has not exited it has a step to take. */
  lemma NotBlocked(states: seq<State>, steps: seq<Step>, i: nat)
    requires IsRun(states, steps) && i < |states|
    ensures states[i].run.RunExited? || exists step :: OfRun(step) && Enabled(states[i], step)
    ensures states[i].infer.InferExited? || exists step :: OfInfer(step) && Enabled(states[i], step)
  {
    RunSafe(states, steps, i);
    var s := states[i];
    if !s.run.RunExited? { assert OfRun(RunStep(s)) && Enabled(s, RunStep(s)); }
    if !s.infer.InferExited? { assert OfInfer(InferStep(s)) && Enabled(s, InferStep(s)); }
  }

  /** A step that `runLoop` can take. */
  function RunStep(s: State): Step {
    match s.run
    case RunTop => RunTest
    case Receiving => ReceiveFails
    case Draining(_) => Drain
    case Unpacking(_) => Unpack
    case Checking(_) => CheckEmpty
    case Allocating(_) => AllocFails
    case Taking(_) => Take
    case Copying(m, _, bytes, _, _) => if |bytes| < AvailableFor(s, m) then CopyByte(0) else Push
    case Trimming => Trim
    case _ => Stop
  }

  function InferStep(s: State): Step {
    match s.infer
    case InferTop => InferTest
    case Popping => Pop
    case Inferring(_, _, seen) => if |seen| < s.setup.frameSize then ReadByte else GiveBack
    case _ => Stop
  }
}
