/** The worker pool as a step machine: nested forks in any interleaving. */
module WorkerPool {

  /** What a thread does: count gates and perhaps throw, one thing after another, or fork a branch onto a worker. */
  datatype Job =
    | Work(gates: nat, fails: bool)
    | Seq(first: Job, second: Job)
    | Fork(id: nat, left: Job, right: Job)

  datatype Phase = Idle | Pending | Working

  /** The fields a worker shares with its dispatcher; the job stands for the function and its argument. */
  datatype Slot = Slot(phase: Phase, job: Job, error: bool, switches: nat)

  /** A thread: its gate counter, whether an exception is in flight, and what is left to do. */
  datatype Proc = Proc(counter: nat, thrown: bool, stack: Stack)

  datatype Stack = Empty | Push(top: Frame, rest: Stack)

  /** A frame still to run, or the join of a fork with the worker's side of it. */
  datatype Frame = Run(job: Job) | Join(id: nat, child: Child)

  datatype Child = Queued(job: Job) | Active(proc: Proc) | Finished(error: bool, gates: nat)

  type Slots = map<nat, Slot>

  // ----- steps -----

  /** Which thread moves: this one, or one below the join frame at a depth of its stack. */
  datatype Choice = Here | In(depth: nat, inner: Choice)

  datatype Outcome<T> = Moved(value: T, slots: Slots) | Blocked | Busy

  function StepProc(p: Proc, slots: Slots, c: Choice): Outcome<Proc>
    decreases c, 2
  {
    match c
    case Here => StepHere(p, slots)
    case In(depth, inner) =>
      match StepStack(p.stack, slots, depth, inner)
      case Moved(stack, s) => Moved(p.(stack := stack), s)
      case Blocked => Blocked
      case Busy => Busy
  }

  /** One action of a thread: it pops frames while an exception is in flight, but never skips a join. */
  function StepHere(p: Proc, slots: Slots): Outcome<Proc> {
    match p.stack
    case Empty => Blocked
    case Push(Run(job), rest) =>
      if p.thrown then Moved(p.(stack := rest), slots)
      else (
        match job
        case Work(gates, fails) => Moved(Proc(p.counter + gates, fails, rest), slots)
        case Seq(first, second) => Moved(p.(stack := Push(Run(first), Push(Run(second), rest))), slots)
        case Fork(id, left, right) =>
          if id !in slots || slots[id].phase != Idle then Busy
          else Moved(p.(stack := Push(Run(left), Push(Join(id, Queued(right)), rest))),
                     slots[id := Slot(Pending, right, false, slots[id].switches)]))
    case Push(Join(id, _), rest) =>
      if id !in slots || slots[id].phase != Idle then Blocked
      else Moved(Proc(p.counter + slots[id].switches, p.thrown || slots[id].error, rest),
                 slots[id := slots[id].(error := false, switches := 0)])
  }

  function StepStack(stack: Stack, slots: Slots, depth: nat, inner: Choice): Outcome<Stack>
    decreases inner, 4, stack
  {
    match stack
    case Empty => Blocked
    case Push(top, rest) =>
      if depth > 0 then (
        match StepStack(rest, slots, depth - 1, inner)
        case Moved(r, s) => Moved(Push(top, r), s)
        case Blocked => Blocked
        case Busy => Busy)
      else if top.Run? then Blocked
      else (
        match StepChild(top.id, top.child, slots, inner)
        case Moved(child, s) => Moved(Push(Join(top.id, child), rest), s)
        case Blocked => Blocked
        case Busy => Busy)
  }

  /** The thread that is about to run a job. */
  function Started(counter: nat, job: Job): Proc {
    Proc(counter, false, Push(Run(job), Empty))
  }

  /** A worker picks up the job in its slot, runs it, and publishes its outcome and its gate count when it is done. */
  function StepChild(id: nat, child: Child, slots: Slots, inner: Choice): Outcome<Child>
    decreases inner, 3
  {
    match child
    case Queued(_) =>
      if inner.Here? && id in slots
      then Moved(Active(Started(0, slots[id].job)), slots[id := slots[id].(phase := Working)]) else Blocked
    case Active(q) =>
      if inner.Here? && q.stack.Empty? then
        if id in slots
        then Moved(Finished(q.thrown, q.counter),
                   slots[id := slots[id].(phase := Idle, error := q.thrown, switches := q.counter)])
        else Blocked
      else (
        match StepProc(q, slots, inner)
        case Moved(q', s) => Moved(Active(q'), s)
        case Blocked => Blocked
        case Busy => Busy)
    case Finished(_, _) => Blocked
  }

  // ----- what a job amounts to -----

  /** Gates counted and whether the job throws. A branch that throws does not stop the other branch of its fork. */
  datatype Result = Result(gates: nat, thrown: bool)

  function Eval(job: Job): Result {
    match job
    case Work(gates, fails) => Result(gates, fails)
    case Seq(first, second) =>
      var a := Eval(first);
      if a.thrown then a else Result(a.gates + Eval(second).gates, Eval(second).thrown)
    case Fork(_, left, right) => Result(Eval(left).gates + Eval(right).gates, Eval(left).thrown || Eval(right).thrown)
  }

  /** What a thread that has counted and thrown so much ends with. */
  function EvalStack(r: Result, stack: Stack): Result
    decreases stack
  {
    match stack
    case Empty => r
    case Push(Run(job), rest) =>
      if r.thrown then EvalStack(r, rest) else EvalStack(Result(r.gates + Eval(job).gates, Eval(job).thrown), rest)
    case Push(Join(_, child), rest) =>
      var c := EvalChild(child);
      EvalStack(Result(r.gates + c.gates, r.thrown || c.thrown), rest)
  }

  function EvalChild(child: Child): Result
    decreases child
  {
    match child
    case Queued(job) => Eval(job)
    case Active(q) => EvalProc(q)
    case Finished(error, gates) => Result(gates, error)
  }

  function EvalProc(p: Proc): Result
    decreases p
  {
    EvalStack(Result(p.counter, p.thrown), p.stack)
  }

  // ----- ownership of workers -----

  function JobIds(job: Job): set<nat> {
    match job
    case Work(_, _) => {}
    case Seq(first, second) => JobIds(first) + JobIds(second)
    case Fork(id, left, right) => {id} + JobIds(left) + JobIds(right)
  }

  /** Every fork hands its branches disjoint workers, none of them the one it forks onto. */
  predicate DisjointJob(job: Job) {
    match job
    case Work(_, _) => true
    case Seq(first, second) => DisjointJob(first) && DisjointJob(second)
    case Fork(id, left, right) =>
      && DisjointJob(left) && DisjointJob(right)
      && id !in JobIds(left) && id !in JobIds(right) && JobIds(left) !! JobIds(right)
  }

  function StackIds(stack: Stack): set<nat>
    decreases stack
  {
    match stack
    case Empty => {}
    case Push(top, rest) => FrameIds(top) + StackIds(rest)
  }

  function FrameIds(f: Frame): set<nat>
    decreases f
  {
    match f
    case Run(job) => JobIds(job)
    case Join(id, child) => {id} + ChildIds(child)
  }

  function ChildIds(child: Child): set<nat>
    decreases child
  {
    match child
    case Queued(job) => JobIds(job)
    case Active(q) => StackIds(q.stack)
    case Finished(_, _) => {}
  }

  /** Workers a thread has forked onto and not joined yet, here or below. */
  function Held(stack: Stack): set<nat>
    decreases stack
  {
    match stack
    case Empty => {}
    case Push(Run(_), rest) => Held(rest)
    case Push(Join(id, child), rest) => {id} + HeldChild(child) + Held(rest)
  }

  function HeldChild(child: Child): set<nat>
    decreases child
  {
    match child
    case Active(q) => Held(q.stack)
    case _ => {}
  }

  /** The workers of the forks of this thread that are not joined yet. */
  function Reserved(stack: Stack): set<nat> {
    match stack
    case Empty => {}
    case Push(Run(_), rest) => Reserved(rest)
    case Push(Join(id, child), rest) => {id} + ChildIds(child) + Reserved(rest)
  }

  /** A join's workers are its own: no frame above it may use them, and the worker forked onto is not used below it. */
  predicate Owned(stack: Stack)
    decreases stack
  {
    match stack
    case Empty => true
    case Push(Run(job), rest) => DisjointJob(job) && Owned(rest) && JobIds(job) !! Reserved(rest)
    case Push(Join(id, child), rest) =>
      OwnedChild(child) && Owned(rest) && id !in ChildIds(child) && ({id} + ChildIds(child)) !! Reserved(rest)
  }

  predicate OwnedChild(child: Child)
    decreases child
  {
    match child
    case Queued(job) => DisjointJob(job)
    case Active(q) => Owned(q.stack)
    case Finished(_, _) => true
  }

  /** The shared fields agree with where each forked branch is. */
  predicate Matches(stack: Stack, slots: Slots)
    decreases stack
  {
    match stack
    case Empty => true
    case Push(Run(_), rest) => Matches(rest, slots)
    case Push(Join(id, child), rest) => MatchesChild(id, child, slots) && Matches(rest, slots)
  }

  predicate MatchesChild(id: nat, child: Child, slots: Slots)
    decreases child
  {
    && id in slots
    && match child
       case Queued(job) => slots[id].phase == Pending && slots[id].job == job
       case Active(q) => slots[id].phase == Working && Matches(q.stack, slots)
       case Finished(error, gates) => slots[id].phase == Idle && slots[id].error == error && slots[id].switches == gates
  }

  /** Workers outside the given set are idle. */
  predicate IdleOutside(slots: Slots, busy: set<nat>) {
    forall x :: x in slots && x !in busy ==> slots[x].phase == Idle
  }

  /** Only workers of the given set differ. */
  predicate OnlyChanged(s: Slots, slots: Slots, ids: set<nat>) {
    s.Keys == slots.Keys && forall x :: x in slots && x !in ids ==> s[x] == slots[x]
  }

  lemma {:induction false} HeldWithin(stack: Stack)
    ensures Held(stack) <= Reserved(stack) <= StackIds(stack)
    decreases stack
  {
    match stack
    case Empty =>
    case Push(Run(_), rest) => HeldWithin(rest);
    case Push(Join(_, child), rest) =>
      HeldWithin(rest);
      HeldChildWithin(child);
  }

  lemma {:induction false} HeldChildWithin(child: Child)
    ensures HeldChild(child) <= ChildIds(child)
    decreases child
  {
    if child.Active? {
      HeldWithin(child.proc.stack);
    }
  }

  /** A change to workers a stack does not hold keeps its agreement. */
  lemma {:induction false} MatchesFrame(stack: Stack, s: Slots, slots: Slots, ids: set<nat>)
    requires Matches(stack, slots) && OnlyChanged(s, slots, ids) && ids !! Held(stack)
    ensures Matches(stack, s)
    decreases stack
  {
    match stack
    case Empty =>
    case Push(Run(_), rest) => MatchesFrame(rest, s, slots, ids);
    case Push(Join(id, child), rest) =>
      MatchesFrame(rest, s, slots, ids);
      MatchesChildFrame(id, child, s, slots, ids);
  }

  lemma {:induction false} MatchesChildFrame(id: nat, child: Child, s: Slots, slots: Slots, ids: set<nat>)
    requires MatchesChild(id, child, slots) && OnlyChanged(s, slots, ids) && id !in ids && ids !! HeldChild(child)
    ensures MatchesChild(id, child, s)
    decreases child
  {
    if child.Active? {
      MatchesFrame(child.proc.stack, s, slots, ids);
    }
  }

  // ----- termination measure -----

  function JobWeight(job: Job): (w: nat)
    ensures w > 0
  {
    match job
    case Work(_, _) => 1
    case Seq(first, second) => 1 + JobWeight(first) + JobWeight(second)
    case Fork(_, left, right) => 4 + JobWeight(left) + JobWeight(right)
  }

  function Weight(stack: Stack): nat
    decreases stack
  {
    match stack
    case Empty => 0
    case Push(Run(job), rest) => JobWeight(job) + Weight(rest)
    case Push(Join(_, child), rest) => 1 + ChildWeight(child) + Weight(rest)
  }

  function ChildWeight(child: Child): nat
    decreases child
  {
    match child
    case Queued(job) => 2 + JobWeight(job)
    case Active(q) => 1 + Weight(q.stack)
    case Finished(_, _) => 0
  }

  // ----- one frame at a time -----

  lemma RunOnTop(r: Result, job: Job, rest: Stack)
    ensures var stack := Push(Run(job), rest);
            && StackIds(stack) == JobIds(job) + StackIds(rest) && Held(stack) == Held(rest)
              && Reserved(stack) == Reserved(rest)
            && Weight(stack) == JobWeight(job) + Weight(rest)
            && EvalStack(r, stack)
               == if r.thrown then EvalStack(r, rest)
                 else EvalStack(Result(r.gates + Eval(job).gates, Eval(job).thrown), rest)
  {
  }

  lemma JoinOnTop(r: Result, id: nat, child: Child, rest: Stack)
    ensures var stack := Push(Join(id, child), rest);
            && StackIds(stack) == {id} + ChildIds(child) + StackIds(rest)
              && Held(stack) == {id} + HeldChild(child) + Held(rest)
            && Reserved(stack) == {id} + ChildIds(child) + Reserved(rest)
            && Weight(stack) == 1 + ChildWeight(child) + Weight(rest)
            && EvalStack(r, stack)
               == EvalStack(Result(r.gates + EvalChild(child).gates, r.thrown || EvalChild(child).thrown), rest)
  {
  }

  // ----- every step keeps the protocol -----

  /**
   * A thread's view: its joins own their workers, the shared fields agree, every other worker that is not held
   * elsewhere is idle.
   */
  predicate Protocol(stack: Stack, slots: Slots, others: set<nat>) {
    Owned(stack) && Matches(stack, slots) && StackIds(stack) <= slots.Keys && IdleOutside(slots, others + Held(stack))
  }

  predicate ProtocolChild(id: nat, child: Child, slots: Slots, others: set<nat>) {
    && OwnedChild(child) && id !in ChildIds(child) && MatchesChild(id, child, slots) && ChildIds(child) <= slots.Keys
    && IdleOutside(slots, others + {id} + HeldChild(child))
  }

  /**
   * What one action must preserve: the protocol, the workers used, the workers touched, the outcome; and it is
   * progress.
   */
  predicate Keeps(p: Proc, slots: Slots, others: set<nat>, o: Outcome<Proc>) {
    && !o.Busy?
    && (o.Moved? ==>
          && Protocol(o.value.stack, o.slots, others) && StackIds(o.value.stack) <= StackIds(p.stack)
          && OnlyChanged(o.slots, slots, StackIds(p.stack))
          && EvalProc(o.value) == EvalProc(p) && Weight(o.value.stack) < Weight(p.stack))
  }

  lemma StepHereKeeps(p: Proc, slots: Slots, others: set<nat>)
    requires Protocol(p.stack, slots, others) && others !! StackIds(p.stack)
    ensures Keeps(p, slots, others, StepHere(p, slots))
  {
    match p.stack
    case Empty =>
    case Push(Run(job), rest) =>
      if p.thrown || job.Work? {
        assert Held(p.stack) == Held(rest);
      } else if job.Seq? {
        SeqKeeps(p, slots, others, job, rest);
      } else {
        ForkKeeps(p, slots, others, job, rest);
      }
    case Push(Join(id, child), rest) =>
      if slots[id].phase == Idle {
        JoinKeeps(p, slots, others, rest);
      }
  }

  lemma SeqKeeps(p: Proc, slots: Slots, others: set<nat>, job: Job, rest: Stack)
    requires Protocol(p.stack, slots, others) && p.stack == Push(Run(job), rest) && job.Seq? && !p.thrown
    ensures Keeps(p, slots, others, StepHere(p, slots))
  {
    var below := Push(Run(job.second), rest);
    var stack := Push(Run(job.first), below);
    var r := Result(p.counter, p.thrown);
    var a := Eval(job.first);
    var r1 := Result(r.gates + a.gates, a.thrown);
    RunOnTop(r, job, rest);
    RunOnTop(r, job.first, below);
    RunOnTop(r1, job.second, rest);
    assert JobIds(job) == JobIds(job.first) + JobIds(job.second);
    assert StackIds(stack) == StackIds(p.stack);
    assert Owned(below) && Matches(below, slots);
    assert StepHere(p, slots) == Moved(p.(stack := stack), slots);
    SeqEval(r, job, rest);
  }

  lemma SeqEval(r: Result, job: Job, rest: Stack)
    requires job.Seq? && !r.thrown
    ensures EvalStack(r, Push(Run(job.first), Push(Run(job.second), rest))) == EvalStack(r, Push(Run(job), rest))
  {
    hide EvalStack, StackIds, Held, Reserved, Weight, JobIds, JobWeight;
    var a := Eval(job.first);
    RunOnTop(r, job, rest);
    RunOnTop(r, job.first, Push(Run(job.second), rest));
    RunOnTop(Result(r.gates + a.gates, a.thrown), job.second, rest);
    if a.thrown {
      ThrownOver(Result(r.gates + a.gates, a.thrown), job.second, rest);
    }
  }

  lemma ThrownOver(r: Result, job: Job, rest: Stack)
    requires r.thrown
    ensures EvalStack(r, Push(Run(job), rest)) == EvalStack(r, rest)
  {
  }

  /** Dispatch: the worker is idle, because no frame in flight may hold it. */
  lemma ForkKeeps(p: Proc, slots: Slots, others: set<nat>, job: Job, rest: Stack)
    requires Protocol(p.stack, slots, others) && others !! StackIds(p.stack) && p.stack == Push(Run(job), rest)
             && job.Fork? && !p.thrown
    ensures job.id in slots && slots[job.id].phase == Idle
    ensures Keeps(p, slots, others, StepHere(p, slots))
  {
    HeldWithin(rest);
    var r := Result(p.counter, p.thrown);
    var below := Push(Join(job.id, Queued(job.right)), rest);
    var stack := Push(Run(job.left), below);
    RunOnTop(r, job, rest);
    assert job.id in JobIds(job);
    var s := slots[job.id := Slot(Pending, job.right, false, slots[job.id].switches)];
    MatchesFrame(rest, s, slots, {job.id});
    JoinOnTop(r, job.id, Queued(job.right), rest);
    RunOnTop(r, job.left, below);
    assert Owned(below) && Matches(below, s);
    ForkEval(r, job, rest);
  }

  lemma ForkEval(r: Result, job: Job, rest: Stack)
    requires job.Fork? && !r.thrown
    ensures EvalStack(r, Push(Run(job.left), Push(Join(job.id, Queued(job.right)), rest)))
            == EvalStack(r, Push(Run(job), rest))
  {
    hide EvalStack, StackIds, Held, Reserved, Weight, JobIds, JobWeight;
    var l := Eval(job.left);
    RunOnTop(r, job, rest);
    RunOnTop(r, job.left, Push(Join(job.id, Queued(job.right)), rest));
    JoinOnTop(Result(r.gates + l.gates, l.thrown), job.id, Queued(job.right), rest);
  }

  /** Join: an idle worker that was forked onto has finished its branch, and its fields report that branch's outcome. */
  lemma JoinKeeps(p: Proc, slots: Slots, others: set<nat>, rest: Stack)
    requires Protocol(p.stack, slots, others) && p.stack.Push? && p.stack.top.Join? && p.stack.rest == rest
    requires p.stack.top.id in slots && slots[p.stack.top.id].phase == Idle
    ensures p.stack.top.child == Finished(slots[p.stack.top.id].error, slots[p.stack.top.id].switches)
    ensures Keeps(p, slots, others, StepHere(p, slots))
  {
    var id, child := p.stack.top.id, p.stack.top.child;
    assert MatchesChild(id, child, slots);
    HeldWithin(rest);
    JoinOnTop(Result(p.counter, p.thrown), id, child, rest);
    var s := slots[id := slots[id].(error := false, switches := 0)];
    MatchesFrame(rest, s, slots, {id});
  }

  // ----- the same for a step anywhere below -----

  predicate Shared(stack: Stack, slots: Slots, others: set<nat>) {
    Owned(stack) && Matches(stack, slots) && Reserved(stack) <= slots.Keys && IdleOutside(slots, others + Held(stack))
  }

  ghost predicate KeepsStack(stack: Stack, slots: Slots, others: set<nat>, o: Outcome<Stack>) {
    && !o.Busy?
    && (o.Moved? ==>
          && Shared(o.value, o.slots, others) && Reserved(o.value) <= Reserved(stack)
            && StackIds(o.value) <= StackIds(stack)
          && OnlyChanged(o.slots, slots, Reserved(stack))
          && SameOutcome(o.value, stack) && Weight(o.value) < Weight(stack))
  }

  ghost predicate SameOutcome(after: Stack, before: Stack) {
    forall r :: EvalStack(r, after) == EvalStack(r, before)
  }

  predicate KeepsChild(id: nat, child: Child, slots: Slots, others: set<nat>, o: Outcome<Child>) {
    && !o.Busy?
    && (o.Moved? ==>
          && ProtocolChild(id, o.value, o.slots, others) && ChildIds(o.value) <= ChildIds(child)
          && OnlyChanged(o.slots, slots, {id} + ChildIds(child))
          && EvalChild(o.value) == EvalChild(child) && ChildWeight(o.value) < ChildWeight(child))
  }

  /** Any action of a thread or of any thread forked below it keeps the protocol. */
  lemma {:induction false} StepProcKeeps(p: Proc, slots: Slots, others: set<nat>, c: Choice)
    requires Protocol(p.stack, slots, others) && others !! StackIds(p.stack)
    ensures Keeps(p, slots, others, StepProc(p, slots, c))
    decreases c, 2
  {
    match c
    case Here => StepHereKeeps(p, slots, others);
    case In(depth, inner) =>
      HeldWithin(p.stack);
      StepStackKeeps(p.stack, slots, others, depth, inner);
      var o := StepStack(p.stack, slots, depth, inner);
      if o.Moved? {
        assert EvalStack(Result(p.counter, p.thrown), o.value) == EvalStack(Result(p.counter, p.thrown), p.stack);
      }
  }

  lemma {:induction false} StepStackKeeps(stack: Stack, slots: Slots, others: set<nat>, depth: nat, inner: Choice)
    requires Shared(stack, slots, others) && others !! Reserved(stack)
    ensures KeepsStack(stack, slots, others, StepStack(stack, slots, depth, inner))
    decreases inner, 4, stack
  {
    match stack
    case Empty =>
    case Push(top, rest) =>
      if depth > 0 {
        BelowKeeps(stack, slots, others, depth, inner);
      } else if top.Join? {
        ChildStepKeeps(stack, slots, others, inner);
      }
  }

  /** The step is below the top frame. */
  lemma {:induction false} BelowKeeps(stack: Stack, slots: Slots, others: set<nat>, depth: nat, inner: Choice)
    requires Shared(stack, slots, others) && others !! Reserved(stack) && stack.Push? && depth > 0
    ensures KeepsStack(stack, slots, others, StepStack(stack, slots, depth, inner))
    decreases inner, 4, stack, 0
  {
    var rest := stack.rest;
    var held := match stack.top case Run(_) => {} case Join(id, child) => {id} + HeldChild(child);
    assert Held(stack) == held + Held(rest);
    if stack.top.Join? {
      HeldChildWithin(stack.top.child);
    }
    assert others + held + Held(rest) == others + Held(stack);
    StepStackKeeps(rest, slots, others + held, depth - 1, inner);
    var o := StepStack(rest, slots, depth - 1, inner);
    if o.Moved? {
      var stack' := Push(stack.top, o.value);
      assert Held(stack') == held + Held(o.value);
      assert others + held + Held(o.value) == others + Held(stack');
      if stack.top.Join? {
        MatchesChildFrame(stack.top.id, stack.top.child, o.slots, slots, Reserved(rest));
      }
      SameAbove(stack.top, o.value, rest);
    }
  }

  lemma SameAbove(top: Frame, after: Stack, before: Stack)
    requires SameOutcome(after, before)
    ensures SameOutcome(Push(top, after), Push(top, before))
  {
    forall r: Result ensures EvalStack(r, Push(top, after)) == EvalStack(r, Push(top, before)) {
    }
  }

  /** The step is in the branch of the topmost join. */
  lemma {:induction false} ChildStepKeeps(stack: Stack, slots: Slots, others: set<nat>, inner: Choice)
    requires Shared(stack, slots, others) && others !! Reserved(stack) && stack.Push? && stack.top.Join?
    ensures KeepsStack(stack, slots, others, StepStack(stack, slots, 0, inner))
    decreases inner, 4, stack, 0
  {
    var id, child, rest := stack.top.id, stack.top.child, stack.rest;
    var around := others + Held(rest);
    HeldWithin(rest);
    assert around + {id} + HeldChild(child) == others + Held(stack);
    StepChildKeeps(id, child, slots, around, inner);
    var o := StepChild(id, child, slots, inner);
    if o.Moved? {
      BranchMoved(stack, slots, others, o);
    }
  }

  lemma BranchMoved(stack: Stack, slots: Slots, others: set<nat>, o: Outcome<Child>)
    requires Shared(stack, slots, others) && others !! Reserved(stack) && stack.Push? && stack.top.Join?
    requires o.Moved? && KeepsChild(stack.top.id, stack.top.child, slots, others + Held(stack.rest), o)
    ensures KeepsStack(stack, slots, others, Moved(Push(Join(stack.top.id, o.value), stack.rest), o.slots))
  {
    hide Eval, JobIds, JobWeight, DisjointJob, EvalChild, ChildIds, ChildWeight;
    var id, child, rest := stack.top.id, stack.top.child, stack.rest;
    var stack' := Push(Join(id, o.value), rest);
    HeldWithin(rest);
    assert others + Held(rest) + {id} + HeldChild(o.value) == others + Held(stack');
    MatchesFrame(rest, o.slots, slots, {id} + ChildIds(child));
    SameBranch(id, o.value, child, rest);
    assert Shared(stack', o.slots, others) by {
      assert Owned(stack');
      assert Matches(stack', o.slots);
      assert Reserved(stack') <= o.slots.Keys;
      assert IdleOutside(o.slots, others + Held(stack'));
    }
    assert Reserved(stack') <= Reserved(stack);
    assert StackIds(stack') <= StackIds(stack);
    assert OnlyChanged(o.slots, slots, Reserved(stack));
    assert Weight(stack') < Weight(stack);
  }

  lemma SameBranch(id: nat, after: Child, before: Child, rest: Stack)
    requires EvalChild(after) == EvalChild(before)
    ensures SameOutcome(Push(Join(id, after), rest), Push(Join(id, before), rest))
  {
    hide EvalChild;
    forall r: Result ensures EvalStack(r, Push(Join(id, after), rest)) == EvalStack(r, Push(Join(id, before), rest)) {
    }
  }

  lemma {:induction false} StepChildKeeps(id: nat, child: Child, slots: Slots, others: set<nat>, inner: Choice)
    requires ProtocolChild(id, child, slots, others) && others + {id} !! ChildIds(child) && id !in others
    ensures KeepsChild(id, child, slots, others, StepChild(id, child, slots, inner))
    decreases inner, 3
  {
    match child
    case Queued(job) =>
      var stack := Push(Run(job), Empty);
      RunOnTop(Result(0, false), job, Empty);
      assert EvalProc(Proc(0, false, stack)) == Eval(job);
    case Active(q) =>
      if !(inner.Here? && q.stack.Empty?) {
        assert others + {id} + Held(q.stack) == others + {id} + HeldChild(child);
        StepProcKeeps(q, slots, others + {id}, inner);
        var o := StepProc(q, slots, inner);
        if o.Moved? {
          assert HeldChild(Active(o.value)) == Held(o.value.stack)
            && ChildIds(Active(o.value)) == StackIds(o.value.stack);
          assert EvalChild(Active(o.value)) == EvalProc(o.value) && EvalChild(child) == EvalProc(q);
        }
      } else {
        assert EvalProc(q) == Result(q.counter, q.thrown) && HeldChild(child) == Held(q.stack) == {};
      }
    case Finished(_, _) =>
  }

  // ----- whole runs -----

  /** A run: a sequence of choices, each of which moves a thread or finds it blocked. */
  function Runs(p: Proc, slots: Slots, choices: seq<Choice>): Outcome<Proc>
    decreases |choices|
  {
    if choices == [] then Moved(p, slots)
    else
      match StepProc(p, slots, choices[0])
      case Moved(q, s) => Runs(q, s, choices[1..])
      case Blocked => Runs(p, slots, choices[1..])
      case Busy => Busy
  }

  lemma {:induction false} RunsKeep(p: Proc, slots: Slots, choices: seq<Choice>)
    requires Protocol(p.stack, slots, {})
    ensures var o := Runs(p, slots, choices);
            o.Moved? && Protocol(o.value.stack, o.slots, {}) && EvalProc(o.value) == EvalProc(p)
              && o.slots.Keys == slots.Keys
    decreases |choices|
  {
    if choices != [] {
      StepProcKeeps(p, slots, {}, choices[0]);
      var o := StepProc(p, slots, choices[0]);
      if o.Moved? {
        RunsKeep(o.value, o.slots, choices[1..]);
      } else {
        RunsKeep(p, slots, choices[1..]);
      }
    }
  }

  predicate AllIdle(slots: Slots) {
    forall x :: x in slots ==> slots[x].phase == Idle
  }

  /**
   * From an idle pool, in every interleaving of a job whose forks use disjoint workers, no dispatch finds a busy
   * worker; and whenever the caller is done, it has counted exactly the gates of all branches, it throws exactly when
   * the job does, and every worker is idle again.
   */
  lemma PoolRunsJob(job: Job, counter: nat, slots: Slots, choices: seq<Choice>)
    requires DisjointJob(job) && JobIds(job) <= slots.Keys && AllIdle(slots)
    ensures Runs(Started(counter, job), slots, choices).Moved?
    ensures var o := Runs(Started(counter, job), slots, choices);
            o.value.stack.Empty? ==>
              o.value.counter == counter + Eval(job).gates && o.value.thrown == Eval(job).thrown && AllIdle(o.slots)
  {
    var p := Started(counter, job);
    RunOnTop(Result(counter, false), job, Empty);
    assert EvalProc(p) == Result(counter + Eval(job).gates, Eval(job).thrown);
    RunsKeep(p, slots, choices);
  }

  /** The gates of all the work in a job. */
  function AllGates(job: Job): nat {
    match job
    case Work(gates, _) => gates
    case Seq(first, second) => AllGates(first) + AllGates(second)
    case Fork(_, left, right) => AllGates(left) + AllGates(right)
  }

  /** Some work in the job fails. */
  predicate Fails(job: Job) {
    match job
    case Work(_, fails) => fails
    case Seq(first, second) => Fails(first) || Fails(second)
    case Fork(_, left, right) => Fails(left) || Fails(right)
  }

  /** A job throws exactly when some work in it fails; until then no gate is lost, and none is ever counted twice. */
  lemma {:induction false} EvalCounts(job: Job)
    ensures Eval(job).thrown == Fails(job) && Eval(job).gates <= AllGates(job)
    ensures !Fails(job) ==> Eval(job).gates == AllGates(job)
  {
    match job
    case Work(_, _) =>
    case Seq(first, second) =>
      EvalCounts(first);
      EvalCounts(second);
    case Fork(_, left, right) =>
      EvalCounts(left);
      EvalCounts(right);
  }

  /** A job without failing work counts all its gates in every interleaving; a failing one throws in every one. */
  lemma PoolCountsGates(job: Job, counter: nat, slots: Slots, choices: seq<Choice>)
    requires DisjointJob(job) && JobIds(job) <= slots.Keys && AllIdle(slots)
    ensures var o := Runs(Started(counter, job), slots, choices);
            o.Moved? && (o.value.stack.Empty? ==>
              o.value.thrown == Fails(job) && (!Fails(job) ==> o.value.counter == counter + AllGates(job)))
  {
    PoolRunsJob(job, counter, slots, choices);
    EvalCounts(job);
  }

  // ----- progress -----

  /** A thread that can move: the one at the bottom of the chain of joins. */
  function Ready(stack: Stack): (c: Choice)
    decreases stack
  {
    match stack
    case Push(Join(_, Queued(_)), _) => In(0, Here)
    case Push(Join(_, Active(q)), _) => In(0, if q.stack.Empty? then Here else Ready(q.stack))
    case _ => Here
  }

  /** A choice under the topmost join moves whenever the branch moves. */
  lemma InBranch(p: Proc, slots: Slots, inner: Choice)
    requires p.stack.Push? && p.stack.top.Join? && StepChild(p.stack.top.id, p.stack.top.child, slots, inner).Moved?
    ensures StepProc(p, slots, In(0, inner)).Moved?
  {
    hide StepChild;
    assert StepStack(p.stack, slots, 0, inner).Moved?;
  }

  /** A branch moves: it starts, it takes a step of its own thread, or it publishes its outcome. */
  lemma BranchMoves(id: nat, child: Child, slots: Slots, inner: Choice)
    requires id in slots && !child.Finished?
    requires inner == Here || (child.Active? && StepProc(child.proc, slots, inner).Moved?)
    requires inner == Here && child.Active? && child.proc.stack.Push? ==> StepProc(child.proc, slots, Here).Moved?
    ensures StepChild(id, child, slots, inner).Moved?
  {
    hide StepProc;
  }

  /** No deadlock: as long as the caller is not done, some thread moves, and every move shrinks what is left to do. */
  lemma {:induction false} PoolMoves(p: Proc, slots: Slots, others: set<nat>)
    requires Protocol(p.stack, slots, others) && others !! StackIds(p.stack) && p.stack.Push?
    ensures var o := StepProc(p, slots, Ready(p.stack)); o.Moved? && Weight(o.value.stack) < Weight(p.stack)
    decreases p.stack
  {
    hide StepChild, StepStack, StepProc;
    StepProcKeeps(p, slots, others, Ready(p.stack));
    StepHereKeeps(p, slots, others);
    if p.stack.top.Join? {
      var id, child, rest := p.stack.top.id, p.stack.top.child, p.stack.rest;
      assert MatchesChild(id, child, slots);
      if child.Active? && child.proc.stack.Push? {
        ActiveBelow(p, slots, others, id, child.proc, rest);
        PoolMoves(child.proc, slots, others + {id} + Held(rest));
      }
      if !child.Finished? {
        BranchMoves(id, child, slots, Ready(p.stack).inner);
        InBranch(p, slots, Ready(p.stack).inner);
      } else {
        HereMoves(p, slots);
      }
    } else {
      HereMoves(p, slots);
    }
  }

  lemma HereMoves(p: Proc, slots: Slots)
    requires p.stack.Push? && !StepHere(p, slots).Busy?
    requires p.stack.top.Join? ==> MatchesChild(p.stack.top.id, p.stack.top.child, slots) && p.stack.top.child.Finished?
    ensures StepProc(p, slots, Here).Moved?
  {
  }

  /** The protocol as the branch's own thread sees it. */
  lemma ActiveBelow(p: Proc, slots: Slots, others: set<nat>, id: nat, q: Proc, rest: Stack)
    requires Protocol(p.stack, slots, others) && others !! StackIds(p.stack)
             && p.stack == Push(Join(id, Active(q)), rest)
    ensures Protocol(q.stack, slots, others + {id} + Held(rest)) && others + {id} + Held(rest) !! StackIds(q.stack)
  {
    HeldWithin(rest);
    JoinOnTop(Result(0, false), id, Active(q), rest);
    assert OwnedChild(Active(q)) && MatchesChild(id, Active(q), slots);
    assert others + {id} + Held(rest) + Held(q.stack) == others + Held(p.stack);
  }
}
