/**
  The gate in front of a runtime's provider calls: a generation check, a mutation semaphore of one
  and a call semaphore of eight, taken in that order by any number of concurrent calls.
 */
module CallGate {
  import opened Collections

  type CallId = nat

  const MAXIMUM_ACCOUNT_CONCURRENCY: nat := 8
  const MUTATION_CAPACITY: nat := 1

  datatype Phase =
    | WaitMutation
    | Entering
    | WaitCall
    | Checking
    | Running
    | Leaving
    | Finished

  /** A call through a bounded provider created under `generation`. */
  datatype Call = Call(generation: nat, mutation: bool, phase: Phase)

  /** `calls` and `mutations` are what the two channels hold. */
  datatype State = State(generation: nat, calls: nat, mutations: nat, procs: map<CallId, Call>)

  datatype Step =
    | Start(p: CallId, generation: nat, mutation: bool)
    | AcquireMutation(p: CallId)
    | Enter(p: CallId)
    | AcquireCall(p: CallId)
    | Check(p: CallId)
    | Finish(p: CallId)
    | Leave(p: CallId)
    | Cancel(p: CallId)
    | Invalidate

  predicate InPhase(s: State, p: CallId, phase: Phase) {
    p in s.procs && s.procs[p].phase == phase
  }

  predicate Enabled(s: State, step: Step) {
    match step
    case Start(p, generation, mutation) => p !in s.procs && generation <= s.generation
    case AcquireMutation(p) => InPhase(s, p, WaitMutation) && s.mutations < MUTATION_CAPACITY
    case Enter(p) => InPhase(s, p, Entering)
    case AcquireCall(p) => InPhase(s, p, WaitCall) && s.calls < MAXIMUM_ACCOUNT_CONCURRENCY
    case Check(p) => InPhase(s, p, Checking)
    case Finish(p) => InPhase(s, p, Running)
    case Leave(p) => InPhase(s, p, Leaving)
    case Cancel(p) => InPhase(s, p, WaitMutation) || InPhase(s, p, WaitCall) || InPhase(s, p, Checking)
    case Invalidate => true
  }

  function Moved(s: State, p: CallId, phase: Phase): State
    requires p in s.procs
  {
    s.(procs := s.procs[p := s.procs[p].(phase := phase)])
  }

  /** Counters are decremented by a receive from the channel, which a holder can always do. */
  function Minus(n: nat): nat {
    if n > 0 then n - 1 else 0
  }

  function Apply(s: State, step: Step): State
    requires Enabled(s, step)
  {
    match step
    case Start(p, generation, mutation) =>
      s.(procs := s.procs[p := Call(generation, mutation, if mutation then WaitMutation else Entering)])
    case AcquireMutation(p) => Moved(s, p, Entering).(mutations := s.mutations + 1)
    case Enter(p) => Moved(s, p, if s.procs[p].generation == s.generation then WaitCall else Leaving)
    case AcquireCall(p) => Moved(s, p, Checking).(calls := s.calls + 1)
    case Check(p) =>
      if s.procs[p].generation == s.generation then Moved(s, p, Running)
      else Moved(s, p, Leaving).(calls := Minus(s.calls))
    case Finish(p) => Moved(s, p, Leaving).(calls := Minus(s.calls))
    case Leave(p) =>
      Moved(s, p, Finished).(mutations := if s.procs[p].mutation then Minus(s.mutations) else s.mutations)
    case Cancel(p) =>
      if s.procs[p].phase == WaitMutation then Moved(s, p, Finished)
      else if s.procs[p].phase == WaitCall then Moved(s, p, Leaving)
      else Moved(s, p, Leaving).(calls := Minus(s.calls))
    case Invalidate => s.(generation := s.generation + 1)
  }

  ghost predicate Init(s: State) {
    s == State(1, 0, 0, map[])
  }

  ghost predicate Next(s: State, s': State) {
    exists step :: Enabled(s, step) && s' == Apply(s, step)
  }

  ghost predicate Run(states: seq<State>) {
    && states != [] && Init(states[0])
    && forall i :: 0 <= i < |states| - 1 ==> Next(states[i], states[i + 1])
  }

  // ---------------------------------------------------------------- the channels count their holders

  predicate HoldsCall(call: Call) {
    call.phase == Checking || call.phase == Running
  }

  predicate HoldsMutation(call: Call) {
    call.mutation && call.phase != WaitMutation && call.phase != Finished
  }

  function CallHolders(procs: map<CallId, Call>): set<CallId> {
    set p | p in procs && HoldsCall(procs[p])
  }

  function MutationHolders(procs: map<CallId, Call>): set<CallId> {
    set p | p in procs && HoldsMutation(procs[p])
  }

  ghost predicate WellFormed(s: State) {
    forall p :: p in s.procs ==> Proper(s.procs[p], s.generation)
  }

  /** Only a mutation queues for the mutation semaphore, and no call is from a later generation. */
  predicate Proper(call: Call, generation: nat) {
    call.generation <= generation && (call.phase == WaitMutation ==> call.mutation)
  }

  ghost predicate Inv(s: State) {
    && s.calls == |CallHolders(s.procs)| <= MAXIMUM_ACCOUNT_CONCURRENCY
    && s.mutations == |MutationHolders(s.procs)| <= MUTATION_CAPACITY
    && WellFormed(s)
  }

  function Held(held: bool): nat {
    if held then 1 else 0
  }

  function CallShare(procs: map<CallId, Call>, p: CallId): nat {
    Held(p in procs && HoldsCall(procs[p]))
  }

  function MutationShare(procs: map<CallId, Call>, p: CallId): nat {
    Held(p in procs && HoldsMutation(procs[p]))
  }

  /** When one call's record changes, the number of call holders moves by that call alone. */
  lemma CallHoldersAfter(procs: map<CallId, Call>, p: CallId, call: Call)
    ensures |CallHolders(procs[p := call])| == |CallHolders(procs)| - CallShare(procs, p) + Held(HoldsCall(call))
  {
    var held := CallHolders(procs);
    CardAfter(held, p);
    assert CallHolders(procs[p := call]) == if HoldsCall(call) then held + {p} else held - {p};
  }

  lemma MutationHoldersAfter(procs: map<CallId, Call>, p: CallId, call: Call)
    ensures |MutationHolders(procs[p := call])|
            == |MutationHolders(procs)| - MutationShare(procs, p) + Held(HoldsMutation(call))
  {
    var held := MutationHolders(procs);
    CardAfter(held, p);
    assert MutationHolders(procs[p := call]) == if HoldsMutation(call) then held + {p} else held - {p};
  }

  lemma StepKeepsInv(s: State, step: Step)
    requires Inv(s) && Enabled(s, step)
    ensures Inv(Apply(s, step))
  {
    var s' := Apply(s, step);
    if step != Invalidate {
      var p := step.p;
      CallHoldersAfter(s.procs, p, s'.procs[p]);
      MutationHoldersAfter(s.procs, p, s'.procs[p]);
    }
  }

  lemma {:induction false} RunKeepsInv(states: seq<State>, i: nat)
    requires Run(states) && i < |states|
    ensures Inv(states[i])
  {
    if i > 0 {
      RunKeepsInv(states, i - 1);
      assert Next(states[i - 1], states[i]);
      var step :| Enabled(states[i - 1], step) && states[i] == Apply(states[i - 1], step);
      StepKeepsInv(states[i - 1], step);
    } else {
      assert CallHolders(states[0].procs) == {} && MutationHolders(states[0].procs) == {};
    }
  }

  // ---------------------------------------------------------------- bounds and fencing

  function RunningCalls(s: State): set<CallId> {
    set p | p in s.procs && s.procs[p].phase == Running
  }

  function RunningMutations(s: State): set<CallId> {
    set p | p in s.procs && s.procs[p].phase == Running && s.procs[p].mutation
  }

  /** In every reachable state at most eight calls and at most one mutation are inside the provider. */
  lemma ConcurrencyIsBounded(states: seq<State>, i: nat)
    requires Run(states) && i < |states|
    ensures |RunningCalls(states[i])| <= 8
    ensures |RunningMutations(states[i])| <= 1
  {
    RunKeepsInv(states, i);
    SubsetCard(RunningCalls(states[i]), CallHolders(states[i].procs));
    SubsetCard(RunningMutations(states[i]), MutationHolders(states[i].procs));
  }

  /** A call of the current generation goes on to the provider; any other leaves, and gives its slot back. */
  lemma EntersIff(s: State, p: CallId)
    requires Enabled(s, Enter(p)) || (Enabled(s, Check(p)) && s.calls > 0)
    ensures Enabled(s, Enter(p)) ==>
              var s' := Apply(s, Enter(p));
              && s'.calls == s.calls
              && s'.procs[p].phase == if s.procs[p].generation == s.generation then WaitCall else Leaving
    ensures Enabled(s, Check(p)) ==>
              var s' := Apply(s, Check(p));
              if s.procs[p].generation == s.generation then s'.procs[p].phase == Running && s'.calls == s.calls
              else s'.procs[p].phase == Leaving && s'.calls == s.calls - 1
  {
  }

  /** Once its generation is past, a call that has not reached the provider never will. */
  lemma {:induction false} SupersededCallsAreFenced(states: seq<State>, i: nat, j: nat, p: CallId)
    requires Run(states) && i <= j < |states|
    requires p in states[i].procs && states[i].procs[p].generation < states[i].generation
    requires states[i].procs[p].phase != Running
    ensures p in states[j].procs && states[j].procs[p].phase != Running
    ensures states[j].procs[p].generation < states[j].generation
    decreases j
  {
    if i < j {
      SupersededCallsAreFenced(states, i, j - 1, p);
      assert Next(states[j - 1], states[j]);
      var step :| Enabled(states[j - 1], step) && states[j] == Apply(states[j - 1], step);
    }
  }

  // ---------------------------------------------------------------- progress

  /** A step a call takes on its own account, without cancellation. */
  predicate Proceeds(step: Step) {
    step.AcquireMutation? || step.Enter? || step.AcquireCall? || step.Check? || step.Finish? || step.Leave?
  }

  function StepFor(p: CallId, call: Call): Step {
    match call.phase
    case WaitMutation => AcquireMutation(p)
    case Entering => Enter(p)
    case WaitCall => AcquireCall(p)
    case Checking => Check(p)
    case Running => Finish(p)
    case Leaving => Leave(p)
    case Finished => Cancel(p)
  }

  /**
    The two semaphores cannot deadlock: while some call is unfinished, some unfinished call can take
    its next step without anything being cancelled or invalidated.
   */
  lemma NeverStuck(states: seq<State>, i: nat, p: CallId)
    requires Run(states) && i < |states|
    requires p in states[i].procs && states[i].procs[p].phase != Finished
    ensures exists step :: Proceeds(step) && Enabled(states[i], step)
  {
    var s := states[i];
    RunKeepsInv(states, i);
    var step := StepFor(p, s.procs[p]);
    if !Enabled(s, step) {
      var holder := p;
      if s.procs[p].phase == WaitMutation {
        Inhabited(MutationHolders(s.procs));
        holder :| holder in MutationHolders(s.procs);
      }
      if s.procs[holder].phase == WaitCall && s.calls == MAXIMUM_ACCOUNT_CONCURRENCY {
        Inhabited(CallHolders(s.procs));
        holder :| holder in CallHolders(s.procs);
      }
      step := StepFor(holder, s.procs[holder]);
    }
    assert Proceeds(step) && Enabled(s, step);
  }

  function Rank(call: Call): nat {
    match call.phase
    case WaitMutation => 6
    case Entering => 5
    case WaitCall => 4
    case Checking => 3
    case Running => 2
    case Leaving => 1
    case Finished => 0
  }

  /** The steps left to all calls together. */
  ghost function Work(procs: map<CallId, Call>): nat
    decreases |procs|
  {
    if procs == map[] then 0
    else
      var p :| p in procs;
      Rank(procs[p]) + Work(procs - {p})
  }

  lemma {:induction false} WorkSplits(procs: map<CallId, Call>, p: CallId)
    requires p in procs
    ensures Work(procs) == Rank(procs[p]) + Work(procs - {p})
    decreases |procs|
  {
    var q :| q in procs && Work(procs) == Rank(procs[q]) + Work(procs - {q});
    if q != p {
      WorkSplits(procs - {q}, p);
      assert (procs - {q}) - {p} == (procs - {p}) - {q};
      WorkSplits(procs - {p}, q);
    }
  }

  /**
    Every step but an arrival or an invalidation uses up work, so the calls present finish after
    finitely many steps.
   */
  lemma WorkDecreases(s: State, step: Step)
    requires Enabled(s, step) && !step.Start? && !step.Invalidate?
    ensures Work(Apply(s, step).procs) < Work(s.procs)
  {
    var s' := Apply(s, step);
    var p := step.p;
    WorkSplits(s.procs, p);
    WorkSplits(s'.procs, p);
    assert s'.procs - {p} == s.procs - {p};
  }
}
