/** The two-stage pipeline as a step protocol: the caller fills a bounded channel before any
    consumer exists, then a processor task and a storage task drain two channels, and any
    batch may fail in either stage. The processor task runs ahead of the storage task, and what it
    makes of a batch may depend on how much of the earlier outputs is in the database by then. */
module Pipeline {
  /** channel_capacity. */
  const CAPACITY: nat := 100

  /** What `process_blocks` makes of a batch when these outputs of the run have been written. */
  type Process<!B, !O> = (B, seq<O>) -> O

  datatype Processor<B, O> =
    | Receiving            // at rx.recv()
    | Handling(batch: B)   // in handle(...)
    | Sending(output: O)   // at storage_tx.send(...)
    | Finished(ok: bool)   // the task has returned; both its channel ends are dropped

  /** A store consists of several statements: an output being stored, or one whose store failed
      (`torn`), may be visible already. */
  datatype Storage<O> =
    | Waiting
    | Storing(output: O)
    | Stopped(ok: bool, torn: seq<O>)

  /** `unsent` batches are still with the caller; `spawned` says whether the tasks exist. `produced`
      and `seen` record the processor's outputs and how many of them each one was made from. */
  datatype State<B, O> = State(
    unsent: seq<B>, toProcess: seq<B>, spawned: bool, processor: Processor<B, O>, toStore: seq<O>,
    storage: Storage<O>, stored: seq<O>, produced: seq<O>, seen: seq<nat>, result: Outcome)

  datatype Outcome = Running | Returned(ok: bool)

  datatype Step =
    | Fill                    // process_tx.send(batch), blocks while the channel is full
    | Spawn                   // drop(process_tx) and spawn both tasks
    | Take                    // the processor receives a batch
    | ProcessOk(sees: bool)   // process_blocks reads the database and succeeds; does it see a half-stored output?
    | ProcessErr
    | Pass                    // the output enters the storage channel, which must have room
    | PassErr                 // the storage task has dropped its receiver
    | Drain                   // the processor sees its channel closed and empty
    | Fetch                   // the storage task receives an output
    | StoreOk
    | StoreErr
    | Close                   // the storage task sees its channel closed and empty
    | Join                    // both tasks have returned

  function Initial<B, O>(batches: seq<B>): State<B, O> {
    State(batches, [], false, Receiving, [], Waiting, [], [], [], Running)
  }

  /** The output in the storage task's hands. */
  function AtHand<B, O>(s: State<B, O>): seq<O> {
    match s.storage
    case Waiting => []
    case Storing(o) => [o]
    case Stopped(_, torn) => torn
  }

  /** The outputs a read of the database sees. */
  function Written<B, O>(s: State<B, O>, sees: bool): seq<O> {
    s.stored + if sees then AtHand(s) else []
  }

  predicate Enabled<B, O>(s: State<B, O>, step: Step) {
    && s.result.Running?
    && match step
       case Fill => !s.spawned && s.unsent != [] && |s.toProcess| < CAPACITY
       case Spawn => !s.spawned && s.unsent == []
       case Take => s.spawned && s.processor.Receiving? && s.toProcess != []
       case ProcessOk(_) => s.spawned && s.processor.Handling?
       case ProcessErr => s.spawned && s.processor.Handling?
       case Pass => s.spawned && s.processor.Sending? && !s.storage.Stopped? && |s.toStore| < CAPACITY
       case PassErr => s.spawned && s.processor.Sending? && s.storage.Stopped?
       case Drain => s.spawned && s.processor.Receiving? && s.toProcess == []
       case Fetch => s.spawned && s.storage.Waiting? && s.toStore != []
       case StoreOk => s.spawned && s.storage.Storing?
       case StoreErr => s.spawned && s.storage.Storing?
       case Close => s.spawned && s.storage.Waiting? && s.toStore == [] && s.processor.Finished?
       case Join => s.spawned && s.processor.Finished? && s.storage.Stopped?
  }

  /** A task that fails drops its channel ends. */
  function Next<B, O>(s: State<B, O>, step: Step, process: Process<B, O>): State<B, O>
    requires Enabled(s, step)
  {
    match step
    case Fill => s.(unsent := s.unsent[1..], toProcess := s.toProcess + [s.unsent[0]])
    case Spawn => s.(spawned := true)
    case Take => s.(toProcess := s.toProcess[1..], processor := Handling(s.toProcess[0]))
    case ProcessOk(sees) =>
      var output := process(s.processor.batch, Written(s, sees));
      s.(processor := Sending(output), produced := s.produced + [output], seen := s.seen + [|Written(s, sees)|])
    case ProcessErr => s.(processor := Finished(false), toProcess := [])
    case Pass => s.(processor := Receiving, toStore := s.toStore + [s.processor.output])
    case PassErr => s.(processor := Finished(false), toProcess := [])
    case Drain => s.(processor := Finished(true))
    case Fetch => s.(toStore := s.toStore[1..], storage := Storing(s.toStore[0]))
    case StoreOk => s.(storage := Waiting, stored := s.stored + [s.storage.output])
    case StoreErr => s.(storage := Stopped(false, [s.storage.output]), toStore := [])
    case Close => s.(storage := Stopped(true, []))
    case Join => s.(result := Returned(s.processor.ok && s.storage.ok))
  }

  // ----- the invariant

  /** Outputs past the processor, in order: stored, in the storage task's hands, waiting to be stored. */
  ghost function Downstream<B, O>(s: State<B, O>): seq<O> {
    s.stored + AtHand(s) + s.toStore
  }

  /** The output the processor is about to hand on. */
  ghost function InHand<B, O>(s: State<B, O>): seq<O> {
    if s.processor.Sending? then [s.processor.output] else []
  }

  /** Batches nothing has been made of yet. */
  ghost function Left<B, O>(s: State<B, O>): seq<B> {
    (if s.processor.Handling? then [s.processor.batch] else []) + s.toProcess + s.unsent
  }

  /** The outputs are made from the batches, in order, each from a prefix of the ones before it. */
  ghost predicate Made<B, O>(batches: seq<B>, produced: seq<O>, seen: seq<nat>, process: Process<B, O>) {
    && |seen| == |produced| <= |batches|
    && forall i :: 0 <= i < |produced| ==>
         seen[i] <= i && produced[i] == process(batches[i], produced[..seen[i]])
  }

  ghost predicate Failed<B, O>(s: State<B, O>) {
    s.processor == Finished(false) || (s.storage.Stopped? && !s.storage.ok)
  }

  ghost predicate Inv<B, O>(s: State<B, O>, batches: seq<B>, process: Process<B, O>) {
    && |s.toProcess| <= CAPACITY && |s.toStore| <= CAPACITY
    && Made(batches, s.produced, s.seen, process)
    && Shape(s)
    // nothing is lost, doubled or reordered on the way in until the processor fails
    && (s.processor != Finished(false) ==> Left(s) == batches[|s.produced|..])
    // nor on the way out until the storage fails, and then what is left is still in order
    && Downstream(s) <= s.produced
    && (!(s.storage.Stopped? && !s.storage.ok) ==> Downstream(s) + InHand(s) == s.produced)
    // a processor that fails leaves a batch out, unless the storage failed first
    && (s.processor == Finished(false) && !(s.storage.Stopped? && !s.storage.ok) ==> |s.produced| < |batches|)
  }

  /** What the parts of a state say about each other. */
  ghost predicate Shape<B, O>(s: State<B, O>) {
    && (s.spawned ==> s.unsent == [])
    && (!s.spawned ==> s.processor.Receiving? && s.storage.Waiting? && s.toStore == [] && s.stored == []
                       && s.produced == [] && s.result.Running?)
    && (s.processor == Finished(true) ==> s.toProcess == [])
    && (s.storage.Stopped? ==> |s.storage.torn| == if s.storage.ok then 0 else 1)
    && (s.storage.Stopped? ==> s.toStore == [] && (s.storage.ok ==> s.processor.Finished?))
    && (s.result.Returned? ==> s.spawned && s.processor.Finished? && s.storage.Stopped?
                               && s.result.ok == !Failed(s))
  }

  lemma InitialInv<B, O>(batches: seq<B>, process: Process<B, O>)
    ensures Inv(Initial<B, O>(batches), batches, process)
  {
  }

  lemma StepKeepsShape<B, O>(s: State<B, O>, step: Step, process: Process<B, O>)
    requires Shape(s) && Enabled(s, step)
    ensures Shape(Next(s, step, process))
  {
  }

  /** Steps downstream of the processor only move outputs along. */
  lemma StepKeepsDownstream<B, O>(s: State<B, O>, step: Step, process: Process<B, O>)
    requires Enabled(s, step) && Shape(s) && !step.StoreErr?
    ensures step.Pass? ==> Downstream(Next(s, step, process)) == Downstream(s) + [s.processor.output]
    ensures !step.Pass? ==> Downstream(Next(s, step, process)) == Downstream(s)
  {
  }

  lemma StepKeepsLeft<B, O>(s: State<B, O>, step: Step, process: Process<B, O>)
    requires Enabled(s, step) && !step.ProcessErr? && !step.PassErr?
    ensures step.ProcessOk? ==> Left(s) != [] && Left(Next(s, step, process)) == Left(s)[1..]
                                && Left(s)[0] == s.processor.batch
    ensures !step.ProcessOk? ==> Left(Next(s, step, process)) == Left(s)
  {
  }

  lemma MadeOneMore<B, O>(batches: seq<B>, produced: seq<O>, seen: seq<nat>, process: Process<B, O>, r: nat)
    requires Made(batches, produced, seen, process) && |produced| < |batches| && r <= |produced|
    ensures Made(batches, produced + [process(batches[|produced|], produced[..r])], seen + [r], process)
  {
    var more := produced + [process(batches[|produced|], produced[..r])];
    forall i | 0 <= i < |more| ensures
      (seen + [r])[i] <= i && more[i] == process(batches[i], more[..(seen + [r])[i]])
    {
      assert more[..(seen + [r])[i]] == produced[..(seen + [r])[i]];
    }
  }

  lemma ProducedOneMore<B, O>(s: State<B, O>, sees: bool, batches: seq<B>, process: Process<B, O>)
    requires Inv(s, batches, process) && Enabled(s, ProcessOk(sees))
    ensures |s.produced| < |batches| && s.processor.batch == batches[|s.produced|]
    ensures var s' := Next(s, ProcessOk(sees), process);
            Made(batches, s'.produced, s'.seen, process) && s'.produced[..|s.produced|] == s.produced
  {
    assert Left(s)[0] == s.processor.batch;
    var r := |Written(s, sees)|;
    assert Written(s, sees) == Downstream(s)[..r] == s.produced[..r];
    MadeOneMore(batches, s.produced, s.seen, process, r);
  }

  lemma StepKeepsInv<B, O>(s: State<B, O>, step: Step, batches: seq<B>, process: Process<B, O>)
    requires Inv(s, batches, process) && Enabled(s, step)
    ensures Inv(Next(s, step, process), batches, process)
  {
    hide Made, Shape, Downstream, Left;
    var s' := Next(s, step, process);
    StepKeepsShape(s, step, process);
    StepKeepsQueues(s, step, process);
    if step.ProcessOk? {
      ProducedOneMore(s, step.sees, batches, process);
    }
    if !step.ProcessErr? && !step.PassErr? {
      StepKeepsLeft(s, step, process);
    }
    if step.StoreErr? {
      TornInOrder(s, process);
    } else {
      StepKeepsDownstream(s, step, process);
    }
    FailsShort(s, step, batches, process);
  }

  lemma StepKeepsQueues<B, O>(s: State<B, O>, step: Step, process: Process<B, O>)
    requires Enabled(s, step) && |s.toProcess| <= CAPACITY && |s.toStore| <= CAPACITY
    ensures |Next(s, step, process).toProcess| <= CAPACITY && |Next(s, step, process).toStore| <= CAPACITY
  {
  }

  lemma TornInOrder<B, O>(s: State<B, O>, process: Process<B, O>)
    requires Enabled(s, StoreErr)
    ensures Downstream(Next(s, StoreErr, process)) <= Downstream(s)
  {
  }

  lemma FailsShort<B, O>(s: State<B, O>, step: Step, batches: seq<B>, process: Process<B, O>)
    requires Inv(s, batches, process) && Enabled(s, step)
    ensures step.ProcessErr? ==> |s.produced| < |batches|
    ensures step.PassErr? ==> s.storage.Stopped? && !s.storage.ok
  {
    if step.ProcessErr? {
      assert Left(s)[0] == s.processor.batch;
    }
  }

  // ----- every run

  /** Each step is enabled when it is taken. */
  ghost predicate Possible<B, O>(s: State<B, O>, steps: seq<Step>, process: Process<B, O>)
    decreases |steps|
  {
    steps != [] ==> Enabled(s, steps[0]) && Possible(Next(s, steps[0], process), steps[1..], process)
  }

  ghost function Exec<B, O>(s: State<B, O>, steps: seq<Step>, process: Process<B, O>): State<B, O>
    requires Possible(s, steps, process)
    decreases |steps|
  {
    if steps == [] then s else Exec(Next(s, steps[0], process), steps[1..], process)
  }

  lemma {:induction false} ExecKeepsInv<B, O>(s: State<B, O>, steps: seq<Step>, batches: seq<B>,
                                              process: Process<B, O>)
    requires Inv(s, batches, process) && Possible(s, steps, process)
    ensures Inv(Exec(s, steps, process), batches, process)
    decreases |steps|
  {
    if steps != [] {
      hide Inv, Enabled, Next;
      StepKeepsInv(s, steps[0], batches, process);
      ExecKeepsInv(Next(s, steps[0], process), steps[1..], batches, process);
    }
  }

  /** In every interleaving, failing or not: the outputs are made from the batches in order, each from
      the batch and a prefix of the outputs before it; what is stored is a prefix of them, each at
      most once; and run returns Ok exactly when an output of every batch is stored. */
  lemma StoredInOrder<B, O>(batches: seq<B>, steps: seq<Step>, process: Process<B, O>)
    requires Possible(Initial(batches), steps, process)
    ensures var s := Exec(Initial(batches), steps, process);
            && Made(batches, s.produced, s.seen, process)
            && s.stored <= s.produced
            && (s.result.Returned? ==> (s.result.ok <==> |s.stored| == |batches|))
  {
    InitialInv(batches, process);
    ExecKeepsInv(Initial(batches), steps, batches, process);
    InvMeans(Exec(Initial(batches), steps, process), batches, process);
  }

  lemma InvMeans<B, O>(s: State<B, O>, batches: seq<B>, process: Process<B, O>)
    requires Inv(s, batches, process)
    ensures Made(batches, s.produced, s.seen, process) && s.stored <= s.produced
    ensures s.result.Returned? ==> (s.result.ok <==> |s.stored| == |batches|)
  {
    assert s.stored <= Downstream(s);
    if s.result.Returned? && s.result.ok {
      assert Left(s) == [];
    }
    if s.result.Returned? && !s.result.ok {
      assert |Downstream(s)| == |s.stored| + |AtHand(s)|;
    }
  }

  /** What a processor makes that does not read what the run writes. */
  function Outputs<B, O>(batches: seq<B>, f: B -> O): (r: seq<O>)
    ensures |r| == |batches|
    ensures forall i :: 0 <= i < |r| ==> r[i] == f(batches[i])
  {
    seq(|batches|, i requires 0 <= i < |batches| => f(batches[i]))
  }

  /** Such a processor's stored outputs do not depend on the interleaving: they are an in-order prefix
      of the processed batches, and all of them exactly when run returns Ok. */
  lemma PureStoredInOrder<B(!new), O(!new)>(batches: seq<B>, steps: seq<Step>, process: Process<B, O>, f: B -> O)
    requires forall b, written :: process(b, written) == f(b)
    requires Possible(Initial(batches), steps, process)
    ensures var s := Exec(Initial(batches), steps, process);
            && s.stored <= Outputs(batches, f)
            && (s.result.Returned? ==> (s.result.ok <==> s.stored == Outputs(batches, f)))
  {
    StoredInOrder(batches, steps, process);
    var s := Exec(Initial(batches), steps, process);
    hide Possible, Exec, Outputs;
    forall i | 0 <= i < |s.stored| ensures s.stored[i] == f(batches[i]) {
      assert s.produced[i] == process(batches[i], s.produced[..s.seen[i]]);
    }
  }

  // ----- progress

  ghost predicate Quiet<B, O>(s: State<B, O>) {
    forall step :: !Enabled(s, step)
  }

  /** With at most CAPACITY batches some step is enabled until run has returned, and no failure is
      needed for it. */
  lemma NeverStuck<B, O>(s: State<B, O>, batches: seq<B>, process: Process<B, O>) returns (step: Step)
    requires Inv(s, batches, process) && s.result.Running? && |batches| <= CAPACITY
    ensures Enabled(s, step) && !step.ProcessErr? && !step.StoreErr?
  {
    if !s.spawned {
      assert Left(s) == batches[0..] == batches;
      return if s.unsent != [] then Fill else Spawn;
    }
    match s.processor {
      case Receiving => return if s.toProcess != [] then Take else Drain;
      case Handling(_) => return ProcessOk(false);
      case Sending(_) =>
        if s.storage.Stopped? {
          return PassErr;
        } else if |s.toStore| < CAPACITY {
          return Pass;
        }
      case Finished(_) =>
        if s.storage.Stopped? {
          return Join;
        }
    }
    if s.storage.Storing? {
      return StoreOk;
    }
    step := if s.toStore != [] then Fetch else Close;
  }

  /** With more batches the caller never gets past filling: the tasks are never spawned. */
  lemma TooManyNeverSpawn<B, O>(s: State<B, O>, batches: seq<B>, process: Process<B, O>)
    requires Inv(s, batches, process) && !s.spawned && |batches| > CAPACITY
    ensures forall step :: Enabled(s, step) ==> step == Fill
    ensures s.result.Running?
  {
    assert Left(s) == batches[0..] == batches;
  }

  lemma {:induction false} ExecNeverSpawns<B, O>(s: State<B, O>, steps: seq<Step>, batches: seq<B>,
                                                 process: Process<B, O>)
    requires Inv(s, batches, process) && !s.spawned && |batches| > CAPACITY && Possible(s, steps, process)
    ensures !Exec(s, steps, process).spawned
    decreases |steps|
  {
    if steps != [] {
      TooManyNeverSpawn(s, batches, process);
      StepKeepsInv(s, steps[0], batches, process);
      hide Inv;
      ExecNeverSpawns(Next(s, steps[0], process), steps[1..], batches, process);
    }
  }

  /** A run that cannot go on has returned exactly if there were at most CAPACITY batches;
      with more, run hangs in its own send. */
  lemma ReturnsIffFits<B, O>(batches: seq<B>, steps: seq<Step>, process: Process<B, O>)
    requires Possible(Initial(batches), steps, process)
    requires Quiet(Exec(Initial(batches), steps, process))
    ensures Exec(Initial(batches), steps, process).result.Returned? <==> |batches| <= CAPACITY
  {
    hide Inv, Possible, Exec;
    var s := Exec(Initial(batches), steps, process);
    InitialInv(batches, process);
    ExecKeepsInv(Initial(batches), steps, batches, process);
    if |batches| <= CAPACITY {
      if s.result.Running? {
        var step := NeverStuck(s, batches, process);
      }
    } else {
      ExecNeverSpawns(Initial(batches), steps, batches, process);
      TooManyNeverSpawn(s, batches, process);
    }
  }

  function Fills(n: nat): (steps: seq<Step>)
    ensures |steps| == n && forall i :: 0 <= i < n ==> steps[i] == Fill
  {
    seq(n, _ => Fill)
  }

  lemma {:induction false} FillsUp<B, O>(s: State<B, O>, n: nat, process: Process<B, O>)
    requires !s.spawned && s.result.Running? && |s.toProcess| + n == CAPACITY && |s.unsent| >= n
    ensures Possible(s, Fills(n), process)
    ensures Exec(s, Fills(n), process)
         == s.(toProcess := s.toProcess + s.unsent[..n], unsent := s.unsent[n..])
    decreases n
  {
    if n > 0 {
      var t := Next(s, Fill, process);
      assert Fills(n)[1..] == Fills(n - 1);
      FillsUp(t, n - 1, process);
      assert s.toProcess + s.unsent[..n] == t.toProcess + t.unsent[..n - 1];
    }
  }

  /** Such a hang, for any more than CAPACITY batches: after filling the channel nothing can happen. */
  lemma HangsWhenFull<B, O>(batches: seq<B>, process: Process<B, O>)
    requires |batches| > CAPACITY
    ensures Possible(Initial<B, O>(batches), Fills(CAPACITY), process)
    ensures var s := Exec(Initial<B, O>(batches), Fills(CAPACITY), process);
            Quiet(s) && s.result.Running? && s.stored == []
  {
    hide Possible, Exec;
    FillsUp(Initial<B, O>(batches), CAPACITY, process);
  }

  /** Work left; every step takes some away. */
  ghost function Work<B, O>(s: State<B, O>): nat {
    8 * |s.unsent| + 7 * |s.toProcess| + 4 * |s.toStore|
    + (match s.processor case Receiving => 1 case Handling(_) => 7 case Sending(_) => 6 case Finished(_) => 0)
    + (match s.storage case Waiting => 1 case Storing(_) => 4 case Stopped(_, _) => 0)
    + (if s.spawned then 0 else 1) + if s.result.Running? then 1 else 0
  }

  lemma StepReducesWork<B, O>(s: State<B, O>, step: Step, process: Process<B, O>)
    requires Enabled(s, step)
    ensures Work(Next(s, step, process)) < Work(s)
  {
  }

  lemma {:induction false} ExecReducesWork<B, O>(s: State<B, O>, steps: seq<Step>, process: Process<B, O>)
    requires Possible(s, steps, process)
    ensures |steps| + Work(Exec(s, steps, process)) <= Work(s)
    decreases |steps|
  {
    if steps != [] {
      StepReducesWork(s, steps[0], process);
      ExecReducesWork(Next(s, steps[0], process), steps[1..], process);
    }
  }

  /** No run is longer than 8 steps a batch and 4 more, so every run comes to an end. */
  lemma RunsAreFinite<B, O>(batches: seq<B>, steps: seq<Step>, process: Process<B, O>)
    requires Possible(Initial(batches), steps, process)
    ensures |steps| <= 8 * |batches| + 4
  {
    ExecReducesWork(Initial(batches), steps, process);
  }

  /** Running the protocol with an arbitrary scheduler and arbitrary failures. */
  method Run<B, O>(batches: seq<B>, process: Process<B, O>)
    returns (ok: bool, stored: seq<O>, produced: seq<O>, seen: seq<nat>)
    requires |batches| <= CAPACITY
    ensures Made(batches, produced, seen, process)
    ensures stored <= produced
    ensures ok <==> |stored| == |batches|
  {
    hide Inv, Enabled, Next, Work, Made;
    var s: State<B, O> := Initial(batches);
    InitialInv(batches, process);
    while s.result.Running?
      invariant Inv(s, batches, process)
      decreases Work(s)
    {
      ghost var some := NeverStuck(s, batches, process);
      var step :| Enabled(s, step);
      StepKeepsInv(s, step, batches, process);
      StepReducesWork(s, step, process);
      s := Next(s, step, process);
    }
    InvMeans(s, batches, process);
    ok, stored, produced, seen := s.result.ok, s.stored, s.produced, s.seen;
  }
}
