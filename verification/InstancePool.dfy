/**
 The pool of policy instances: a channel of idle instances and a semaphore that bounds how many are created.
 Callers interleave one channel operation at a time. Closing the policy is outside this model.
 */
module InstancePool {

  /** Where one caller stands inside `Eval`. */
  datatype Caller =
    | Outside
    | PoolEmpty        // getInstance: the first, non-blocking receive found nothing
    | Creating         // holds a semaphore slot, instantiating
    | CreateFailed     // about to give the slot back with a blocking receive
    | Using            // has an instance, evaluating
    | Replacing        // evaluation failed: the instance is closed, a fresh one is being made
    | ReplaceFailed    // about to pop the semaphore without blocking
    | Putting          // putInstance: about to try the pool
    | PutFull          // the pool was full: the instance is closed, about to receive from the semaphore

  /** `idle` instances wait in the channel, `slots` tokens are in the semaphore; both channels have capacity `size`. */
  datatype Pool = Pool(size: nat, idle: nat, slots: nat, callers: seq<Caller>)

  datatype Step =
    | TryPool(i: nat)          // first select of getInstance
    | TakeIdle(i: nat)         // second select: an instance arrived
    | TakeSlot(i: nat)         // second select: a slot was free
    | GiveUp(i: nat)           // second select: the context is done
    | Created(i: nat, ok: bool)
    | Evaluated(i: nat, ok: bool)
    | Replaced(i: nat, ok: bool)
    | TryPut(i: nat)
    | ReceiveSlot(i: nat)      // the two blocking receives on the semaphore
    | PopSlot(i: nat)          // the non-blocking pop after a failed replacement

  /** `New`: one instance is made up front, without a slot. */
  function Initial(size: nat, callers: nat): Pool {
    Pool(size, 1, 0, seq(callers, _ => Outside))
  }

  function Enabled(p: Pool, s: Step): bool {
    s.i < |p.callers| &&
    var c := p.callers[s.i];
    match s
    case TryPool(_) => c == Outside
    case TakeIdle(_) => c == PoolEmpty && p.idle > 0
    case TakeSlot(_) => c == PoolEmpty && p.slots < p.size
    case GiveUp(_) => c == PoolEmpty
    case Created(_, _) => c == Creating
    case Evaluated(_, _) => c == Using
    case Replaced(_, _) => c == Replacing
    case TryPut(_) => c == Putting
    case ReceiveSlot(_) => (c == CreateFailed || c == PutFull) && p.slots > 0
    case PopSlot(_) => c == ReplaceFailed
  }

  function Next(p: Pool, s: Step): Pool
    requires Enabled(p, s)
  {
    var to := (c: Caller) => p.callers[s.i := c];
    match s
    case TryPool(_) => if p.idle > 0 then p.(idle := p.idle - 1, callers := to(Using)) else p.(callers := to(PoolEmpty))
    case TakeIdle(_) => p.(idle := p.idle - 1, callers := to(Using))
    case TakeSlot(_) => p.(slots := p.slots + 1, callers := to(Creating))
    case GiveUp(_) => p.(callers := to(Outside))
    case Created(_, ok) => p.(callers := to(if ok then Using else CreateFailed))
    case Evaluated(_, ok) => p.(callers := to(if ok then Putting else Replacing))
    case Replaced(_, ok) => p.(callers := to(if ok then Putting else ReplaceFailed))
    case TryPut(_) =>
      if p.idle < p.size then p.(idle := p.idle + 1, callers := to(Outside)) else p.(callers := to(PutFull))
    case ReceiveSlot(_) => p.(slots := p.slots - 1, callers := to(Outside))
    case PopSlot(_) => p.(slots := if p.slots > 0 then p.slots - 1 else 0, callers := to(Outside))
  }

  /** A run: every step is enabled when it is taken. */
  ghost predicate IsRun(p: Pool, steps: seq<Step>, q: Pool)
    decreases |steps|
  {
    if steps == [] then p == q else Enabled(p, steps[0]) && IsRun(Next(p, steps[0]), steps[1..], q)
  }

  // ---------- Counting ----------

  function Count(cs: seq<Caller>, kinds: set<Caller>): nat {
    if cs == [] then 0 else (if cs[0] in kinds then 1 else 0) + Count(cs[1..], kinds)
  }

  lemma {:induction false} CountUpdate(cs: seq<Caller>, kinds: set<Caller>, i: nat, c: Caller)
    requires i < |cs|
    ensures Count(cs[i := c], kinds) ==
            Count(cs, kinds) - (if cs[i] in kinds then 1 else 0) + (if c in kinds then 1 else 0)
  {
    if i == 0 {
      assert cs[i := c][1..] == cs[1..];
    } else {
      assert cs[i := c][1..] == cs[1..][i - 1 := c];
      CountUpdate(cs[1..], kinds, i - 1, c);
    }
  }

  lemma {:induction false} CountOutside(n: nat, kinds: set<Caller>)
    requires Outside !in kinds
    ensures Count(seq(n, _ => Outside), kinds) == 0
  {
    if n > 0 {
      assert seq(n, _ => Outside)[1..] == seq(n - 1, _ => Outside);
      CountOutside(n - 1, kinds);
    }
  }

  lemma {:induction false} CountAtLeastOne(cs: seq<Caller>, kinds: set<Caller>, i: nat)
    requires i < |cs| && cs[i] in kinds
    ensures Count(cs, kinds) >= 1
  {
    if i > 0 { CountAtLeastOne(cs[1..], kinds, i - 1); }
  }

  lemma {:induction false} CountSplit(cs: seq<Caller>, a: set<Caller>, b: set<Caller>)
    requires a !! b
    ensures Count(cs, a + b) == Count(cs, a) + Count(cs, b)
  {
    if cs != [] { CountSplit(cs[1..], a, b); }
  }

  /** Callers that have an instance, or are certain to get one while replacement succeeds. */
  const HOLDERS: set<Caller> := {Using, Replacing, Putting}
  /** Callers about to receive from the semaphore, blocking. */
  const OWING: set<Caller> := {CreateFailed, PutFull}
  const PENDING: set<Caller> := {Creating, Using, Replacing, ReplaceFailed, Putting, CreateFailed, PutFull}

  /** Instances idle, in use or being made, and those whose slot is still to be given back. */
  function LiveOrPending(p: Pool): nat {
    p.idle + Count(p.callers, PENDING)
  }

  // ---------- Accounting ----------

  /** The step pops a semaphore that is already empty: the instance that went was the one that never had a slot. */
  predicate LosesFounder(p: Pool, s: Step) {
    s.PopSlot? && p.slots == 0
  }

  ghost predicate FounderLost(p: Pool, steps: seq<Step>)
    decreases |steps|
  {
    steps != [] && Enabled(p, steps[0]) && (LosesFounder(p, steps[0]) || FounderLost(Next(p, steps[0]), steps[1..]))
  }

  /** Every instance live or pending has a slot, but for the founder, made up front, until it is lost. */
  ghost predicate Accounted(p: Pool, founder: bool) {
    p.idle <= p.size && p.slots <= p.size && LiveOrPending(p) == p.slots + if founder then 1 else 0
  }

  lemma NextAccounted(p: Pool, s: Step, founder: bool)
    requires 0 < p.size && Accounted(p, founder) && Enabled(p, s)
    ensures Accounted(Next(p, s), founder && !LosesFounder(p, s))
    ensures LosesFounder(p, s) ==> founder
    ensures Next(p, s).size == p.size && |Next(p, s).callers| == |p.callers|
  {
    CountUpdate(p.callers, PENDING, s.i, Next(p, s).callers[s.i]);
    if p.callers[s.i] in PENDING { CountAtLeastOne(p.callers, PENDING, s.i); }
  }

  lemma {:induction false} RunAccounted(p: Pool, steps: seq<Step>, q: Pool, founder: bool)
    requires 0 < p.size && Accounted(p, founder) && IsRun(p, steps, q)
    ensures Accounted(q, founder && !FounderLost(p, steps)) && q.size == p.size
    decreases |steps|
  {
    if steps != [] {
      NextAccounted(p, steps[0], founder);
      RunAccounted(Next(p, steps[0]), steps[1..], q, founder && !LosesFounder(p, steps[0]));
    }
  }

  /**
   In every interleaving, failures included: the instances live or pending are exactly the semaphore's occupancy, plus
   one until a failed replacement has popped the empty semaphore.
   */
  lemma ExactAccounting(size: nat, callers: nat, steps: seq<Step>, q: Pool)
    requires 0 < size && IsRun(Initial(size, callers), steps, q)
    ensures LiveOrPending(q) == q.slots + if FounderLost(Initial(size, callers), steps) then 0 else 1
    ensures q.slots <= size && q.size == size
  {
    CountOutside(callers, PENDING);
    RunAccounted(Initial(size, callers), steps, q, true);
  }

  /**
   So occupancy is within one of the instances live or pending, and at most `size + 1` instances ever exist at once.
   */
  lemma PoolAccounting(size: nat, callers: nat, steps: seq<Step>, q: Pool)
    requires 0 < size && IsRun(Initial(size, callers), steps, q)
    ensures q.slots <= LiveOrPending(q) <= q.slots + 1
    ensures LiveOrPending(q) <= size + 1
  {
    ExactAccounting(size, callers, steps, q);
  }

  // ---------- Failed instances ----------

  /** This step gives caller `i` an instance fit to be put back: one that evaluated, or a fresh replacement. */
  predicate MakesFit(s: Step, i: nat) {
    s == Evaluated(i, true) || s == Replaced(i, true)
  }

  lemma FitBeforePutting(p: Pool, s: Step, i: nat)
    requires Enabled(p, s) && i < |p.callers| && Next(p, s).callers[i] == Putting
    ensures p.callers[i] == Putting || MakesFit(s, i)
  {
  }

  /**
   An instance whose evaluation failed is never put back: over every run, a caller comes to put one back only by an
   evaluation that succeeded or a replacement that did.
   */
  lemma {:induction false} OnlyFitReturn(p: Pool, steps: seq<Step>, q: Pool, i: nat)
    requires i < |p.callers| && IsRun(p, steps, q) && i < |q.callers| && q.callers[i] == Putting
    ensures p.callers[i] == Putting || exists k :: 0 <= k < |steps| && MakesFit(steps[k], i)
    decreases |steps|
  {
    if steps != [] {
      var p1 := Next(p, steps[0]);
      OnlyFitReturn(p1, steps[1..], q, i);
      if p1.callers[i] == Putting {
        FitBeforePutting(p, steps[0], i);
      } else {
        var k :| 0 <= k < |steps[1..]| && MakesFit(steps[1..][k], i);
        assert MakesFit(steps[k + 1], i);
      }
    }
  }

  /** What an evaluation leads to: a success puts the instance back as it is, a failure asks for a replacement. */
  lemma EvaluatedMeans(p: Pool, i: nat, ok: bool)
    requires Enabled(p, Evaluated(i, ok))
    ensures Next(p, Evaluated(i, ok)).callers[i] == if ok then Putting else Replacing
    ensures Next(p, Evaluated(i, ok)).idle == p.idle && Next(p, Evaluated(i, ok)).slots == p.slots
  {
  }

  // ---------- When putInstance can block ----------

  ghost predicate ReplacementsSucceed(steps: seq<Step>) {
    forall i :: 0 <= i < |steps| ==> !(steps[i].Replaced? && !steps[i].ok)
  }

  /** Exact bookkeeping while no replacement has failed: one instance always exists without a slot. */
  ghost predicate Exact(p: Pool) {
    && p.idle <= p.size
    && LiveOrPending(p) == p.slots + 1
    && p.idle + Count(p.callers, HOLDERS) >= 1
    && Count(p.callers, {ReplaceFailed}) == 0
  }

  lemma NextExact(p: Pool, s: Step)
    requires 0 < p.size && Exact(p) && Enabled(p, s) && !(s.Replaced? && !s.ok)
    ensures Exact(Next(p, s)) && Next(p, s).size == p.size
  {
    var c := Next(p, s).callers[s.i];
    CountUpdate(p.callers, PENDING, s.i, c);
    CountUpdate(p.callers, HOLDERS, s.i, c);
    CountUpdate(p.callers, {ReplaceFailed}, s.i, c);
    if p.callers[s.i] == ReplaceFailed { CountAtLeastOne(p.callers, {ReplaceFailed}, s.i); }
  }

  lemma {:induction false} RunExact(p: Pool, steps: seq<Step>, q: Pool)
    requires 0 < p.size && Exact(p) && IsRun(p, steps, q) && ReplacementsSucceed(steps)
    ensures Exact(q)
    decreases |steps|
  {
    if steps != [] {
      assert !(steps[0].Replaced? && !steps[0].ok);
      NextExact(p, steps[0]);
      forall i | 0 <= i < |steps[1..]| ensures !(steps[1..][i].Replaced? && !steps[1..][i].ok) {
        assert steps[1..][i] == steps[i + 1];
      }
      RunExact(Next(p, steps[0]), steps[1..], q);
    }
  }

  /** Callers waiting in a blocking receive never outnumber the tokens there are, so none of them has to wait. */
  lemma ReceiveNeverBlocks(size: nat, callers: nat, steps: seq<Step>, q: Pool)
    requires 0 < size && IsRun(Initial(size, callers), steps, q) && ReplacementsSucceed(steps)
    ensures Count(q.callers, OWING) <= q.slots
    ensures forall i :: 0 <= i < |q.callers| && q.callers[i] in OWING ==> Enabled(q, ReceiveSlot(i))
  {
    CountOutside(callers, PENDING);
    CountOutside(callers, HOLDERS);
    CountOutside(callers, {ReplaceFailed});
    RunExact(Initial(size, callers), steps, q);
    CountSplit(q.callers, HOLDERS, OWING);
    CountSplit(q.callers, HOLDERS + OWING, {Creating});
    CountSplit(q.callers, HOLDERS + OWING + {Creating}, {ReplaceFailed});
    assert HOLDERS + OWING + {Creating} + {ReplaceFailed} == PENDING;
    forall i | 0 <= i < |q.callers| && q.callers[i] in OWING ensures Enabled(q, ReceiveSlot(i)) {
      CountAtLeastOne(q.callers, OWING, i);
    }
  }

  /**
   When a blocking receive has to wait, exactly, in every run: no failed replacement has yet popped the empty semaphore,
   and the waiting caller's own instance is the only one there is. So the founder is the one that waits.
   */
  lemma ReceiveBlocksIff(size: nat, callers: nat, steps: seq<Step>, q: Pool, i: nat)
    requires 0 < size && IsRun(Initial(size, callers), steps, q)
    requires i < |q.callers| && q.callers[i] in OWING
    ensures !Enabled(q, ReceiveSlot(i)) <==> LiveOrPending(q) == 1 && !FounderLost(Initial(size, callers), steps)
    ensures !Enabled(q, ReceiveSlot(i)) ==> q.idle == 0 && Count(q.callers, PENDING) == 1
  {
    ExactAccounting(size, callers, steps, q);
    CountAtLeastOne(q.callers, PENDING, i);
  }

  /** And it does happen: with a pool of one, a failed replacement leaves putInstance waiting on an empty semaphore. */
  lemma PutCanBlock()
    ensures exists steps, q ::
              IsRun(Initial(1, 3), steps, q) && |q.callers| == 3 && q.callers[0] == PutFull && q.slots == 0
  {
    var q := Pool(1, 0, 0, [PutFull, Outside, Outside]);
    var s3 := FailReplacement(q);
    var s2 := FillPool(s3, q);
    var s1 := SecondCaller(s2, q);
    var s0 := TwoCallers(s1, q);
    assert Initial(1, 3) == Pool(1, 1, 0, [Outside, Outside, Outside]);
  }

  lemma {:induction false} FailReplacement(q: Pool) returns (steps: seq<Step>)
    requires q == Pool(1, 0, 0, [PutFull, Outside, Outside])
    ensures IsRun(Pool(1, 1, 1, [PutFull, Outside, Outside]), steps, q)
  {
    steps := [];
    Prepend(Pool(1, 0, 1, [PutFull, Outside, ReplaceFailed]), PopSlot(2), q, steps, q);
    steps := [PopSlot(2)] + steps;
    Prepend(Pool(1, 0, 1, [PutFull, Outside, Replacing]), Replaced(2, false),
            Pool(1, 0, 1, [PutFull, Outside, ReplaceFailed]), steps, q);
    steps := [Replaced(2, false)] + steps;
    Prepend(Pool(1, 0, 1, [PutFull, Outside, Using]), Evaluated(2, false),
            Pool(1, 0, 1, [PutFull, Outside, Replacing]), steps, q);
    steps := [Evaluated(2, false)] + steps;
    Prepend(Pool(1, 1, 1, [PutFull, Outside, Outside]), TryPool(2), Pool(1, 0, 1, [PutFull, Outside, Using]), steps, q);
    steps := [TryPool(2)] + steps;
  }

  lemma {:induction false} SecondCaller(rest: seq<Step>, q: Pool) returns (steps: seq<Step>)
    requires IsRun(Pool(1, 0, 1, [Using, Using, Outside]), rest, q)
    ensures IsRun(Pool(1, 0, 0, [Using, PoolEmpty, Outside]), steps, q)
  {
    Prepend(Pool(1, 0, 1, [Using, Creating, Outside]), Created(1, true),
            Pool(1, 0, 1, [Using, Using, Outside]), rest, q);
    steps := [Created(1, true)] + rest;
    Prepend(Pool(1, 0, 0, [Using, PoolEmpty, Outside]), TakeSlot(1),
            Pool(1, 0, 1, [Using, Creating, Outside]), steps, q);
    steps := [TakeSlot(1)] + steps;
  }

  lemma {:induction false} TwoCallers(rest: seq<Step>, q: Pool) returns (steps: seq<Step>)
    requires IsRun(Pool(1, 0, 0, [Using, PoolEmpty, Outside]), rest, q)
    ensures IsRun(Pool(1, 1, 0, [Outside, Outside, Outside]), steps, q)
  {
    Prepend(Pool(1, 0, 0, [Using, Outside, Outside]), TryPool(1), Pool(1, 0, 0, [Using, PoolEmpty, Outside]), rest, q);
    steps := [TryPool(1)] + rest;
    Prepend(Pool(1, 1, 0, [Outside, Outside, Outside]), TryPool(0), Pool(1, 0, 0, [Using, Outside, Outside]), steps, q);
    steps := [TryPool(0)] + steps;
  }

  lemma {:induction false} FillPool(rest: seq<Step>, q: Pool) returns (steps: seq<Step>)
    requires IsRun(Pool(1, 1, 1, [PutFull, Outside, Outside]), rest, q)
    ensures IsRun(Pool(1, 0, 1, [Using, Using, Outside]), steps, q)
  {
    Prepend(Pool(1, 1, 1, [Putting, Outside, Outside]), TryPut(0), Pool(1, 1, 1, [PutFull, Outside, Outside]), rest, q);
    steps := [TryPut(0)] + rest;
    Prepend(Pool(1, 0, 1, [Putting, Putting, Outside]), TryPut(1),
            Pool(1, 1, 1, [Putting, Outside, Outside]), steps, q);
    steps := [TryPut(1)] + steps;
    Prepend(Pool(1, 0, 1, [Putting, Using, Outside]), Evaluated(1, true),
            Pool(1, 0, 1, [Putting, Putting, Outside]), steps, q);
    steps := [Evaluated(1, true)] + steps;
    Prepend(Pool(1, 0, 1, [Using, Using, Outside]), Evaluated(0, true),
            Pool(1, 0, 1, [Putting, Using, Outside]), steps, q);
    steps := [Evaluated(0, true)] + steps;
  }

  lemma Prepend(p: Pool, s: Step, p': Pool, rest: seq<Step>, q: Pool)
    requires Enabled(p, s) && Next(p, s) == p' && IsRun(p', rest, q)
    ensures IsRun(p, [s] + rest, q)
  {
    assert ([s] + rest)[1..] == rest;
  }
}
