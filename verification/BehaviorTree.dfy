/**
 Behaviour trees over a blackboard of type T. The tree is immutable; what its nodes remember between ticks (the running
 child, a repeat count, a cooldown) lives in a memory that mirrors the tree and is updated by every tick.
 */
module BehaviorTree {
  datatype Status = Running | Success | Failure
  datatype Policy = RequireAll | RequireOne

  /** Leaves and conditions get the blackboard by reference in the original, so both may change it. */
  datatype Tree<!T> =
    | Action(act: T -> (Status, T))
    | Condition(cond: T -> (bool, T))
    | Sequence(kids: seq<Tree<T>>)
    | Selector(kids: seq<Tree<T>>)
    | MemSequence(kids: seq<Tree<T>>)
    | MemSelector(kids: seq<Tree<T>>)
    | Parallel(policy: Policy, kids: seq<Tree<T>>)
    | Inverter(child: Tree<T>)
    | Succeeder(child: Tree<T>)
    | Repeater(limit: int, child: Tree<T>)
    | RepeatUntilFail(child: Tree<T>)
    | Guard(cond: T -> (bool, T), child: Tree<T>)
    | Cooldown(ticks: int, child: Tree<T>)

  /** `n` is the running index, repeat count or cooldown counter of a node; children without an entry are untouched. */
  datatype Mem = Mem(n: nat, kids: map<nat, Mem>)

  const FRESH: Mem := Mem(0, map[])

  function Kid(m: Mem, i: nat): Mem {
    if i in m.kids then m.kids[i] else FRESH
  }

  function SetKid(m: Mem, i: nat, k: Mem): Mem {
    m.(kids := m.kids[i := k])
  }

  /** A tick of child `child` that returned `status`. */
  datatype Event = Event(child: nat, status: Status)

  /** The result of one tick: status, memory, blackboard, and the ticks given to the node's own children, in order. */
  datatype Outcome<T> = Diverged | Done(status: Status, mem: Mem, bb: T, ticks: seq<Event>)

  datatype Walked<T> = WalkDiverged | Walked(status: Status, at: nat, mem: Mem, bb: T, ticks: seq<Event>)
  datatype Counted<T> = CountDiverged | Counted(successes: nat, failures: nat, mem: Mem, bb: T, ticks: seq<Event>)

  // ---------- The interpreter ----------

  /**
   One tick. `fuel` bounds only the iterations of a Repeater with a negative limit, the one node that can loop for ever
   inside a tick; running out of it is reported as divergence.
   */
  function Tick<T>(t: Tree<T>, m: Mem, bb: T, fuel: nat): Outcome<T>
    decreases t, 0
  {
    match t
    case Action(act) => var (s, b) := act(bb); Done(s, m, b, [])
    case Condition(cond) => var (c, b) := cond(bb); Done(if c then Success else Failure, m, b, [])
    case Sequence(kids) => Ended(Walk(kids, 0, Success, m, bb, fuel), |kids|, Success, false)
    case Selector(kids) => Ended(Walk(kids, 0, Failure, m, bb, fuel), |kids|, Failure, false)
    case MemSequence(kids) => Ended(Walk(kids, m.n, Success, m, bb, fuel), |kids|, Success, true)
    case MemSelector(kids) => Ended(Walk(kids, m.n, Failure, m, bb, fuel), |kids|, Failure, true)
    case Parallel(policy, kids) =>
      (match CountAll(kids, 0, m, bb, fuel)
       case CountDiverged => Diverged
       case Counted(s, f, m', b, es) => Done(Verdict(policy, s, f, |kids|), m', b, es))
    case Inverter(child) =>
      Through(Tick(child, Kid(m, 0), bb, fuel), m, Flip)
    case Succeeder(child) =>
      Through(Tick(child, Kid(m, 0), bb, fuel), m, s => if s == Running then Running else Success)
    case RepeatUntilFail(child) =>
      Through(Tick(child, Kid(m, 0), bb, fuel), m, s => if s == Failure then Success else Running)
    case Repeater(limit, child) => Repeat(limit, child, m, bb, fuel, fuel)
    case Guard(cond, child) =>
      var (c, b) := cond(bb);
      if !c then Done(Failure, m, b, []) else Through(Tick(child, Kid(m, 0), b, fuel), m, s => s)
    case Cooldown(ticks, child) =>
      if m.n > 0 then Done(Failure, m.(n := m.n - 1), bb, []) else
        var o := Through(Tick(child, Kid(m, 0), bb, fuel), m, s => s);
        if o.Done? && o.status == Success then o.(mem := o.mem.(n := if ticks > 0 then ticks else 0)) else o
  }

  function Flip(s: Status): Status {
    match s
    case Running => Running
    case Success => Failure
    case Failure => Success
  }

  /** A decorator with one child: keep the child's memory, translate its status. */
  function Through<T>(o: Outcome<T>, m: Mem, f: Status -> Status): Outcome<T> {
    match o
    case Diverged => Diverged
    case Done(s, k, b, _) => Done(f(s), SetKid(m, 0, k), b, [Event(0, s)])
  }

  /** Ticks children from `i` on for as long as they return `go`. */
  function Walk<T>(kids: seq<Tree<T>>, i: nat, go: Status, m: Mem, bb: T, fuel: nat): Walked<T>
    decreases kids, if i < |kids| then |kids| - i else 0
  {
    if i >= |kids| then Walked(go, |kids|, m, bb, []) else
      match Tick(kids[i], Kid(m, i), bb, fuel)
      case Diverged => WalkDiverged
      case Done(s, k, b, _) =>
        if s != go then Walked(s, i, SetKid(m, i, k), b, [Event(i, s)]) else
          match Walk(kids, i + 1, go, SetKid(m, i, k), b, fuel)
          case WalkDiverged => WalkDiverged
          case Walked(s', at, m', b', es) => Walked(s', at, m', b', [Event(i, s)] + es)
  }

  /** The end of a sequence or selector; the memory kinds note where they stopped, and only when running. */
  function Ended<T>(w: Walked<T>, total: nat, go: Status, remembers: bool): Outcome<T> {
    match w
    case WalkDiverged => Diverged
    case Walked(s, at, m, b, es) =>
      var status := if at == total then go else s;
      Done(status, if remembers then m.(n := if at < total && s == Running then at else 0) else m, b, es)
  }

  /** Ticks every child once, counting. */
  function CountAll<T>(kids: seq<Tree<T>>, i: nat, m: Mem, bb: T, fuel: nat): Counted<T>
    decreases kids, if i < |kids| then |kids| - i else 0
  {
    if i >= |kids| then Counted(0, 0, m, bb, []) else
      match Tick(kids[i], Kid(m, i), bb, fuel)
      case Diverged => CountDiverged
      case Done(s, k, b, _) =>
        match CountAll(kids, i + 1, SetKid(m, i, k), b, fuel)
        case CountDiverged => CountDiverged
        case Counted(ss, ff, m', b', es) =>
          Counted(ss + (if s == Success then 1 else 0), ff + (if s == Failure then 1 else 0), m', b',
                  [Event(i, s)] + es)
  }

  function Verdict(policy: Policy, successes: nat, failures: nat, total: nat): Status {
    match policy
    case RequireAll => if failures > 0 then Failure else if successes == total then Success else Running
    case RequireOne => if successes > 0 then Success else if failures == total then Failure else Running
  }

  /**
   The loop of a Repeater. With a positive limit the measure is limit - count; `left` matters only for negative limits.
   */
  function Repeat<T>(limit: int, child: Tree<T>, m: Mem, bb: T, left: nat, fuel: nat): Outcome<T>
    decreases child, 1, if limit > 0 then (if limit > m.n then limit - m.n else 0) else left
  {
    if limit > 0 && m.n >= limit then Done(Success, m.(n := 0), bb, [])
    else if limit < 0 && left == 0 then Diverged
    else
      match Tick(child, Kid(m, 0), bb, fuel)
      case Diverged => Diverged
      case Done(s, k, b, _) =>
        var m' := SetKid(m, 0, k);
        match s
        case Failure => Done(Failure, m'.(n := 0), b, [Event(0, s)])
        case Running => Done(Running, m', b, [Event(0, s)])
        case Success =>
          if limit == 0 then Done(Running, m'.(n := m.n + 1), b, [Event(0, s)]) else
            match Repeat(limit, child, m'.(n := m.n + 1), b, if left > 0 then left - 1 else 0, fuel)
            case Diverged => Diverged
            case Done(s', m'', b', es) => Done(s', m'', b', [Event(0, s)] + es)
  }

  // ---------- The original's loops ----------

  /**
   The loop that Sequence, Selector and their memory kinds share: `go` is the status that lets it continue, `start` is 0
   or the remembered index, and a memory kind stores where it stopped.
   */
  method TickInOrder<T>(kids: seq<Tree<T>>, start: nat, go: Status, remembers: bool, m: Mem, bb: T, fuel: nat)
    returns (o: Outcome<T>)
    requires go != Running
    ensures o == Ended(Walk(kids, start, go, m, bb, fuel), |kids|, go, remembers)
  {
    var mem, b, es := m, bb, [];
    var i := start;
    while i < |kids|
      invariant start <= i && (i <= |kids| || i == start)
      invariant Walk(kids, start, go, m, bb, fuel) == After(es, Walk(kids, i, go, mem, b, fuel))
    {
      var r := Tick(kids[i], Kid(mem, i), b, fuel);
      if r.Diverged? {
        return Diverged;
      }
      AfterAfter(es, [Event(i, r.status)], Walk(kids, i + 1, go, SetKid(mem, i, r.mem), r.bb, fuel));
      mem, b, es := SetKid(mem, i, r.mem), r.bb, es + [Event(i, r.status)];
      if r.status == Flip(go) {
        return Done(r.status, if remembers then mem.(n := 0) else mem, b, es);
      } else if r.status == Running {
        return Done(Running, if remembers then mem.(n := i) else mem, b, es);
      }
      i := i + 1;
    }
    o := Done(go, if remembers then mem.(n := 0) else mem, b, es);
  }

  function After<T>(es: seq<Event>, w: Walked<T>): Walked<T> {
    if w.WalkDiverged? then w else w.(ticks := es + w.ticks)
  }

  lemma AfterAfter<T>(a: seq<Event>, b: seq<Event>, w: Walked<T>)
    ensures After(a, After(b, w)) == After(a + b, w)
  {
    if w.Walked? { assert a + (b + w.ticks) == (a + b) + w.ticks; }
  }

  /** A count continued from what was counted before. */
  function Tally<T>(successes: nat, failures: nat, es: seq<Event>, w: Counted<T>): Counted<T> {
    if w.CountDiverged? then w else
      Counted(successes + w.successes, failures + w.failures, w.mem, w.bb, es + w.ticks)
  }

  lemma CountStep<T>(kids: seq<Tree<T>>, i: nat, m: Mem, bb: T, fuel: nat, ss: nat, ff: nat, es: seq<Event>)
    requires i < |kids|
    ensures var r := Tick(kids[i], Kid(m, i), bb, fuel);
            Tally(ss, ff, es, CountAll(kids, i, m, bb, fuel)) ==
            if r.Diverged? then CountDiverged else
              Tally(if r.status == Success then ss + 1 else ss, if r.status == Failure then ff + 1 else ff,
                    es + [Event(i, r.status)], CountAll(kids, i + 1, SetKid(m, i, r.mem), r.bb, fuel))
  {
    var r := Tick(kids[i], Kid(m, i), bb, fuel);
    if r.Done? {
      var w := CountAll(kids, i + 1, SetKid(m, i, r.mem), r.bb, fuel);
      if w.Counted? { assert es + ([Event(i, r.status)] + w.ticks) == (es + [Event(i, r.status)]) + w.ticks; }
    }
  }

  method TickParallel<T>(policy: Policy, kids: seq<Tree<T>>, m: Mem, bb: T, fuel: nat) returns (o: Outcome<T>)
    ensures o == Tick(Parallel(policy, kids), m, bb, fuel)
  {
    var mem, b, es := m, bb, [];
    var successes, failures := 0, 0;
    for i := 0 to |kids|
      invariant CountAll(kids, 0, m, bb, fuel) == Tally(successes, failures, es, CountAll(kids, i, mem, b, fuel))
    {
      var r := Tick(kids[i], Kid(mem, i), b, fuel);
      if r.Diverged? {
        return Diverged;
      }
      CountStep(kids, i, mem, b, fuel, successes, failures, es);
      mem, b, es := SetKid(mem, i, r.mem), r.bb, es + [Event(i, r.status)];
      match r.status {
        case Success => successes := successes + 1;
        case Failure => failures := failures + 1;
        case Running =>
      }
    }
    var total := |kids|;
    var status;
    match policy {
      case RequireAll => status := if failures > 0 then Failure else if successes == total then Success else Running;
      case RequireOne => status := if successes > 0 then Success else if failures == total then Failure else Running;
    }
    o := Done(status, mem, b, es);
  }

  /**
   The repeat loop. It ends because each success brings a positive limit one closer; a negative limit spends `fuel`.
   */
  method TickRepeater<T>(limit: int, child: Tree<T>, m: Mem, bb: T, fuel: nat) returns (o: Outcome<T>)
    ensures o == Tick(Repeater(limit, child), m, bb, fuel)
  {
    var mem, b, es, left := m, bb, [], fuel;
    while true
      invariant Repeat(limit, child, m, bb, fuel, fuel) == Preceded(es, Repeat(limit, child, mem, b, left, fuel))
      decreases if limit > 0 then (if limit > mem.n then limit - mem.n else 0) else left, limit <= 0
    {
      if limit > 0 && mem.n >= limit {
        return Done(Success, mem.(n := 0), b, es);
      }
      if limit < 0 && left == 0 {
        return Diverged;
      }
      var r := Tick(child, Kid(mem, 0), b, fuel);
      if r.Diverged? {
        return Diverged;
      }
      var mem' := SetKid(mem, 0, r.mem);
      match r.status {
        case Failure => return Done(Failure, mem'.(n := 0), r.bb, es + [Event(0, Failure)]);
        case Running => return Done(Running, mem', r.bb, es + [Event(0, Running)]);
        case Success =>
          if limit == 0 {
            return Done(Running, mem'.(n := mem.n + 1), r.bb, es + [Event(0, Success)]);
          }
          var left' := if left > 0 then left - 1 else 0;
          PrecededTwice(es, [Event(0, Success)], Repeat(limit, child, mem'.(n := mem.n + 1), r.bb, left', fuel));
          mem, b, es, left := mem'.(n := mem.n + 1), r.bb, es + [Event(0, Success)], left';
      }
    }
  }

  function Preceded<T>(es: seq<Event>, o: Outcome<T>): Outcome<T> {
    if o.Diverged? then o else o.(ticks := es + o.ticks)
  }

  lemma PrecededTwice<T>(a: seq<Event>, b: seq<Event>, o: Outcome<T>)
    ensures Preceded(a, Preceded(b, o)) == Preceded(a + b, o)
  {
    if o.Done? { assert a + (b + o.ticks) == (a + b) + o.ticks; }
  }

  // ---------- Termination ----------

  /** No Repeater with a negative limit anywhere. */
  predicate Bounded<T>(t: Tree<T>) {
    match t
    case Action(_) => true
    case Condition(_) => true
    case Sequence(ks) => forall i | 0 <= i < |ks| :: Bounded(ks[i])
    case Selector(ks) => forall i | 0 <= i < |ks| :: Bounded(ks[i])
    case MemSequence(ks) => forall i | 0 <= i < |ks| :: Bounded(ks[i])
    case MemSelector(ks) => forall i | 0 <= i < |ks| :: Bounded(ks[i])
    case Parallel(_, ks) => forall i | 0 <= i < |ks| :: Bounded(ks[i])
    case Repeater(limit, c) => limit >= 0 && Bounded(c)
    case Inverter(c) => Bounded(c)
    case Succeeder(c) => Bounded(c)
    case RepeatUntilFail(c) => Bounded(c)
    case Guard(_, c) => Bounded(c)
    case Cooldown(_, c) => Bounded(c)
  }

  /** A tree without negative limits ends every tick, with no fuel at all. */
  lemma {:induction false} BoundedTerminates<T>(t: Tree<T>, m: Mem, bb: T, fuel: nat)
    requires Bounded(t)
    ensures Tick(t, m, bb, fuel).Done?
    decreases t, 0
  {
    match t
    case Action(_) =>
    case Condition(_) =>
    case Sequence(ks) => WalkTerminates(ks, 0, Success, m, bb, fuel);
    case Selector(ks) => WalkTerminates(ks, 0, Failure, m, bb, fuel);
    case MemSequence(ks) => WalkTerminates(ks, m.n, Success, m, bb, fuel);
    case MemSelector(ks) => WalkTerminates(ks, m.n, Failure, m, bb, fuel);
    case Parallel(_, ks) => CountTerminates(ks, 0, m, bb, fuel);
    case Repeater(limit, c) => RepeatTerminates(limit, c, m, bb, fuel, fuel);
    case Guard(cond, c) => BoundedTerminates(c, Kid(m, 0), cond(bb).1, fuel);
    case _ => BoundedTerminates(t.child, Kid(m, 0), bb, fuel);
  }

  lemma {:induction false} WalkTerminates<T>(kids: seq<Tree<T>>, i: nat, go: Status, m: Mem, bb: T, fuel: nat)
    requires forall j | 0 <= j < |kids| :: Bounded(kids[j])
    ensures Walk(kids, i, go, m, bb, fuel).Walked?
    decreases kids, if i < |kids| then |kids| - i else 0
  {
    if i < |kids| {
      BoundedTerminates(kids[i], Kid(m, i), bb, fuel);
      var r := Tick(kids[i], Kid(m, i), bb, fuel);
      WalkTerminates(kids, i + 1, go, SetKid(m, i, r.mem), r.bb, fuel);
    }
  }

  lemma {:induction false} CountTerminates<T>(kids: seq<Tree<T>>, i: nat, m: Mem, bb: T, fuel: nat)
    requires forall j | 0 <= j < |kids| :: Bounded(kids[j])
    ensures CountAll(kids, i, m, bb, fuel).Counted?
    decreases kids, if i < |kids| then |kids| - i else 0
  {
    if i < |kids| {
      BoundedTerminates(kids[i], Kid(m, i), bb, fuel);
      var r := Tick(kids[i], Kid(m, i), bb, fuel);
      CountTerminates(kids, i + 1, SetKid(m, i, r.mem), r.bb, fuel);
    }
  }

  lemma {:induction false} RepeatTerminates<T>(limit: int, child: Tree<T>, m: Mem, bb: T, left: nat, fuel: nat)
    requires limit >= 0 && Bounded(child)
    ensures Repeat(limit, child, m, bb, left, fuel).Done?
    decreases child, 1, if limit > m.n then limit - m.n else 0
  {
    if !(limit > 0 && m.n >= limit) {
      BoundedTerminates(child, Kid(m, 0), bb, fuel);
      var r := Tick(child, Kid(m, 0), bb, fuel);
      if r.status == Success && limit != 0 {
        var left' := if left > 0 then left - 1 else 0;
        RepeatTerminates(limit, child, SetKid(m, 0, r.mem).(n := m.n + 1), r.bb, left', fuel);
      }
    }
  }

  /** The tick that a repeat loop gives its child after `k` repetitions, as if those had all succeeded. */
  function Repetition<T>(c: Tree<T>, m: Mem, bb: T, fuel: nat, k: nat): Outcome<T>
    decreases k
  {
    var o := Tick(c, Kid(m, 0), bb, fuel);
    if k == 0 || o.Diverged? then o else Repetition(c, SetKid(m, 0, o.mem).(n := m.n + 1), o.bb, fuel, k - 1)
  }

  /** The k-th repetition ends the loop. */
  predicate Stops<T>(c: Tree<T>, m: Mem, bb: T, fuel: nat, k: nat) {
    var o := Repetition(c, m, bb, fuel, k);
    o.Done? && o.status != Success
  }

  predicate Succeeds<T>(c: Tree<T>, m: Mem, bb: T, fuel: nat, k: nat) {
    var o := Repetition(c, m, bb, fuel, k);
    o.Done? && o.status == Success
  }

  /**
   With a negative limit, exactly when a tick ends: within so many repetitions if and only if one of them does not
   succeed.
   */
  lemma {:induction false} NegativeLimitEndsIff<T>(limit: int, c: Tree<T>, m: Mem, bb: T, left: nat, fuel: nat)
    requires limit < 0
    ensures Repeat(limit, c, m, bb, left, fuel).Done? <==> exists k: nat :: k < left && Stops(c, m, bb, fuel, k)
    decreases left
  {
    var o := Tick(c, Kid(m, 0), bb, fuel);
    if left > 0 && o.Done? {
      if o.status != Success {
        assert Stops(c, m, bb, fuel, 0);
      } else {
        var m1 := SetKid(m, 0, o.mem).(n := m.n + 1);
        NegativeLimitEndsIff(limit, c, m1, o.bb, left - 1, fuel);
        assert !Stops(c, m, bb, fuel, 0);
        forall k: nat | k < left - 1 ensures Stops(c, m, bb, fuel, k + 1) == Stops(c, m1, o.bb, fuel, k) {}
        if k: nat :| k < left && Stops(c, m, bb, fuel, k) {
          assert Stops(c, m1, o.bb, fuel, k - 1);
        }
      }
    }
  }

  /** Over a tree that itself ends its ticks, such a tick runs for ever if and only if every repetition succeeds. */
  lemma NegativeLimitDivergesIff<T>(limit: int, c: Tree<T>, m: Mem, bb: T, fuel: nat)
    requires limit < 0 && Bounded(c)
    ensures (forall left: nat :: Repeat(limit, c, m, bb, left, fuel).Diverged?)
       <==> forall k: nat :: Succeeds(c, m, bb, fuel, k)
  {
    forall k: nat ensures Stops(c, m, bb, fuel, k) <==> !Succeeds(c, m, bb, fuel, k) {
      RepetitionTerminates(c, m, bb, fuel, k);
    }
    if k: nat :| !Succeeds(c, m, bb, fuel, k) {
      NegativeLimitEndsIff(limit, c, m, bb, k + 1, fuel);
      assert Stops(c, m, bb, fuel, k);
      assert Repeat(limit, c, m, bb, k + 1, fuel).Done?;
    } else {
      forall left: nat ensures Repeat(limit, c, m, bb, left, fuel).Diverged? {
        NegativeLimitEndsIff(limit, c, m, bb, left, fuel);
        assert forall k: nat :: Succeeds(c, m, bb, fuel, k) && !Stops(c, m, bb, fuel, k);
      }
    }
  }

  lemma {:induction false} RepetitionTerminates<T>(c: Tree<T>, m: Mem, bb: T, fuel: nat, k: nat)
    requires Bounded(c)
    ensures Repetition(c, m, bb, fuel, k).Done?
    decreases k
  {
    BoundedTerminates(c, Kid(m, 0), bb, fuel);
    var o := Tick(c, Kid(m, 0), bb, fuel);
    if k > 0 { RepetitionTerminates(c, SetKid(m, 0, o.mem).(n := m.n + 1), o.bb, fuel, k - 1); }
  }

  /** In particular over an action that always succeeds. */
  lemma NegativeLimitDiverges<T(!new)>(limit: int, act: T -> (Status, T), m: Mem, bb: T, left: nat, fuel: nat)
    requires limit < 0 && forall b :: act(b).0 == Success
    ensures Repeat(limit, Action(act), m, bb, left, fuel) == Diverged
  {
    forall k: nat ensures !Stops(Action(act), m, bb, fuel, k) { ActionRepeats(act, m, bb, fuel, k); }
    NegativeLimitEndsIff(limit, Action(act), m, bb, left, fuel);
  }

  lemma {:induction false} ActionRepeats<T(!new)>(act: T -> (Status, T), m: Mem, bb: T, fuel: nat, k: nat)
    requires forall b :: act(b).0 == Success
    ensures Succeeds(Action(act), m, bb, fuel, k)
    decreases k
  {
    var o := Tick(Action(act), Kid(m, 0), bb, fuel);
    if k > 0 { ActionRepeats(act, SetKid(m, 0, o.mem).(n := m.n + 1), o.bb, fuel, k - 1); }
  }
}
