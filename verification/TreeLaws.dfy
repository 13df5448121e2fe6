/** Laws of behaviour trees over whole runs of ticks: fuel, duality, guards, memory nodes and repeaters. */
module TreeLaws {
  import opened Words
  import opened BehaviorTree

  // ---------- Runs ----------

  /**
   What an observer sees: after each outside change of the blackboard, a tick; `None` marks a tick that never ends.
   */
  function Run<T>(t: Tree<T>, m: Mem, bb: T, outside: seq<T -> T>, fuel: nat): seq<Option<(Status, T)>>
    decreases |outside|
  {
    if outside == [] then [] else
      match Tick(t, m, outside[0](bb), fuel)
      case Diverged => [None]
      case Done(s, m', b, _) => [Some((s, b))] + Run(t, m', b, outside[1..], fuel)
  }

  // ---------- More fuel changes nothing ----------

  lemma {:induction false} FuelMonotone<T>(t: Tree<T>, m: Mem, bb: T, f: nat, g: nat)
    requires f <= g && Tick(t, m, bb, f).Done?
    ensures Tick(t, m, bb, g) == Tick(t, m, bb, f)
    decreases t, 0
  {
    match t
    case Action(_) =>
    case Condition(_) =>
    case Sequence(ks) => WalkMonotone(ks, 0, Success, m, bb, f, g);
    case Selector(ks) => WalkMonotone(ks, 0, Failure, m, bb, f, g);
    case MemSequence(ks) => WalkMonotone(ks, m.n, Success, m, bb, f, g);
    case MemSelector(ks) => WalkMonotone(ks, m.n, Failure, m, bb, f, g);
    case Parallel(_, ks) => CountMonotone(ks, 0, m, bb, f, g);
    case Repeater(limit, c) => RepeatMonotone(limit, c, m, bb, f, f, g, g);
    case Guard(cond, c) => if cond(bb).0 { FuelMonotone(c, Kid(m, 0), cond(bb).1, f, g); }
    case Cooldown(_, c) => if m.n == 0 { FuelMonotone(c, Kid(m, 0), bb, f, g); }
    case Inverter(c) => FuelMonotone(c, Kid(m, 0), bb, f, g);
    case Succeeder(c) => FuelMonotone(c, Kid(m, 0), bb, f, g);
    case RepeatUntilFail(c) => FuelMonotone(c, Kid(m, 0), bb, f, g);
  }

  lemma {:induction false} WalkMonotone<T>(kids: seq<Tree<T>>, i: nat, go: Status, m: Mem, bb: T, f: nat, g: nat)
    requires f <= g && Walk(kids, i, go, m, bb, f).Walked?
    ensures Walk(kids, i, go, m, bb, g) == Walk(kids, i, go, m, bb, f)
    decreases kids, if i < |kids| then |kids| - i else 0
  {
    if i < |kids| {
      FuelMonotone(kids[i], Kid(m, i), bb, f, g);
      var r := Tick(kids[i], Kid(m, i), bb, f);
      if r.status == go { WalkMonotone(kids, i + 1, go, SetKid(m, i, r.mem), r.bb, f, g); }
    }
  }

  lemma {:induction false} CountMonotone<T>(kids: seq<Tree<T>>, i: nat, m: Mem, bb: T, f: nat, g: nat)
    requires f <= g && CountAll(kids, i, m, bb, f).Counted?
    ensures CountAll(kids, i, m, bb, g) == CountAll(kids, i, m, bb, f)
    decreases kids, if i < |kids| then |kids| - i else 0
  {
    if i < |kids| {
      FuelMonotone(kids[i], Kid(m, i), bb, f, g);
      var r := Tick(kids[i], Kid(m, i), bb, f);
      CountMonotone(kids, i + 1, SetKid(m, i, r.mem), r.bb, f, g);
    }
  }

  lemma {:induction false} RepeatMonotone<T>(limit: int, child: Tree<T>, m: Mem, bb: T, left: nat, f: nat, more: nat,
                                             g: nat)
    requires f <= g && left <= more && Repeat(limit, child, m, bb, left, f).Done?
    ensures Repeat(limit, child, m, bb, more, g) == Repeat(limit, child, m, bb, left, f)
    decreases child, 1, if limit > 0 then (if limit > m.n then limit - m.n else 0) else left
  {
    if !(limit > 0 && m.n >= limit) {
      FuelMonotone(child, Kid(m, 0), bb, f, g);
      var r := Tick(child, Kid(m, 0), bb, f);
      if r.status == Success && limit != 0 {
        RepeatMonotone(limit, child, SetKid(m, 0, r.mem).(n := m.n + 1), r.bb, if left > 0 then left - 1 else 0, f,
                       if more > 0 then more - 1 else 0, g);
      }
    }
  }

  lemma {:induction false} RepetitionMonotone<T>(c: Tree<T>, m: Mem, bb: T, f: nat, g: nat, k: nat)
    requires f <= g && Repetition(c, m, bb, f, k).Done?
    ensures Repetition(c, m, bb, g, k) == Repetition(c, m, bb, f, k)
    decreases k
  {
    FuelMonotone(c, Kid(m, 0), bb, f, g);
    var o := Tick(c, Kid(m, 0), bb, f);
    if k > 0 { RepetitionMonotone(c, SetKid(m, 0, o.mem).(n := m.n + 1), o.bb, f, g, k - 1); }
  }

  predicate TickEnds<T>(t: Tree<T>, m: Mem, bb: T, fuel: nat) {
    Tick(t, m, bb, fuel).Done?
  }

  /**
   When one tick of a Repeater with a negative limit ends, exactly and over any child, nested negative limits included:
   if and only if some repetition ends without Success, each one starting from what those before it left.
   */
  lemma RepeaterTickEndsIff<T>(limit: int, c: Tree<T>, m: Mem, bb: T)
    requires limit < 0
    ensures (exists fuel: nat :: TickEnds(Repeater(limit, c), m, bb, fuel))
       <==> exists fuel: nat, k: nat :: Stops(c, m, bb, fuel, k)
  {
    if fuel: nat :| TickEnds(Repeater(limit, c), m, bb, fuel) {
      NegativeLimitEndsIff(limit, c, m, bb, fuel, fuel);
    }
    if fuel: nat, k: nat :| Stops(c, m, bb, fuel, k) {
      var more := if fuel > k then fuel else k + 1;
      RepetitionMonotone(c, m, bb, fuel, more, k);
      assert Stops(c, m, bb, more, k);
      NegativeLimitEndsIff(limit, c, m, bb, more, more);
      assert TickEnds(Repeater(limit, c), m, bb, more);
    }
  }

  // ---------- Duality ----------

  function DualPolicy(p: Policy): Policy {
    match p
    case RequireAll => RequireOne
    case RequireOne => RequireAll
  }

  /**
   Swaps the connectives all the way down and puts an Inverter around (and, for decorators, inside) every other node.
   */
  function Dual<T>(t: Tree<T>): Tree<T>
    decreases t, 1
  {
    match t
    case Sequence(ks) => Selector(DualAll(ks))
    case Selector(ks) => Sequence(DualAll(ks))
    case MemSequence(ks) => MemSelector(DualAll(ks))
    case MemSelector(ks) => MemSequence(DualAll(ks))
    case Parallel(p, ks) => Parallel(DualPolicy(p), DualAll(ks))
    case Inverter(c) => Inverter(Dual(c))
    case _ => Inverter(WithDualChild(t))
  }

  predicate Decorates<T>(t: Tree<T>) {
    t.Succeeder? || t.Repeater? || t.RepeatUntilFail? || t.Guard? || t.Cooldown?
  }

  /** A decorator over the inverted dual of its child; leaves stay as they are. */
  function WithDualChild<T>(t: Tree<T>): Tree<T>
    decreases t, 0
  {
    match t
    case Succeeder(c) => Succeeder(Inverter(Dual(c)))
    case Repeater(n, c) => Repeater(n, Inverter(Dual(c)))
    case RepeatUntilFail(c) => RepeatUntilFail(Inverter(Dual(c)))
    case Guard(cond, c) => Guard(cond, Inverter(Dual(c)))
    case Cooldown(n, c) => Cooldown(n, Inverter(Dual(c)))
    case _ => t
  }

  function DualAll<T>(ks: seq<Tree<T>>): (r: seq<Tree<T>>)
    ensures |r| == |ks|
    ensures forall i :: 0 <= i < |ks| ==> r[i] == Dual(ks[i])
    decreases ks
  {
    if ks == [] then [] else [Dual(ks[0])] + DualAll(ks[1..])
  }

  /** The two memories hold the same indices, counts and counters, node for node. */
  ghost predicate Rel<T>(t: Tree<T>, m: Mem, m': Mem)
    decreases t, 0
  {
    match t
    case Action(_) => true
    case Condition(_) => true
    case Sequence(ks) => RelAll(ks, m, m')
    case Selector(ks) => RelAll(ks, m, m')
    case Parallel(_, ks) => RelAll(ks, m, m')
    case MemSequence(ks) => m.n == m'.n && RelAll(ks, m, m')
    case MemSelector(ks) => m.n == m'.n && RelAll(ks, m, m')
    case Inverter(c) => Rel(c, Kid(m, 0), Kid(m', 0))
    case _ => RelInside(t.child, m, Kid(m', 0))
  }

  ghost predicate RelAll<T>(ks: seq<Tree<T>>, m: Mem, m': Mem)
    decreases ks, 1
  {
    forall i | 0 <= i < |ks| :: Rel(ks[i], Kid(m, i), Kid(m', i))
  }

  /** A decorator over `c` with memory `m`, and the same decorator over the inverted dual of `c` with memory `d`. */
  ghost predicate RelInside<T>(c: Tree<T>, m: Mem, d: Mem)
    decreases c, 1
  {
    m.n == d.n && Rel(c, Kid(m, 0), Kid(Kid(d, 0), 0))
  }

  lemma {:induction false} RelFresh<T>(t: Tree<T>)
    ensures Rel(t, FRESH, FRESH)
    decreases t
  {
    match t
    case Action(_) =>
    case Condition(_) =>
    case Sequence(ks) => forall i | 0 <= i < |ks| ensures Rel(ks[i], FRESH, FRESH) { RelFresh(ks[i]); }
    case Selector(ks) => forall i | 0 <= i < |ks| ensures Rel(ks[i], FRESH, FRESH) { RelFresh(ks[i]); }
    case Parallel(_, ks) => forall i | 0 <= i < |ks| ensures Rel(ks[i], FRESH, FRESH) { RelFresh(ks[i]); }
    case MemSequence(ks) => forall i | 0 <= i < |ks| ensures Rel(ks[i], FRESH, FRESH) { RelFresh(ks[i]); }
    case MemSelector(ks) => forall i | 0 <= i < |ks| ensures Rel(ks[i], FRESH, FRESH) { RelFresh(ks[i]); }
    case _ => RelFresh(t.child);
  }

  /** Same blackboard, flipped status, related memories; or both ticks never end. */
  ghost predicate Mirrors<T>(t: Tree<T>, o: Outcome<T>, d: Outcome<T>) {
    match o
    case Diverged => d.Diverged?
    case Done(s, m, b, _) => d.Done? && d.status == Flip(s) && d.bb == b && Rel(t, m, d.mem)
  }

  lemma {:induction false} DualTick<T>(t: Tree<T>, m: Mem, m': Mem, bb: T, fuel: nat)
    requires Rel(t, m, m')
    ensures Mirrors(t, Tick(t, m, bb, fuel), Tick(Dual(t), m', bb, fuel))
    decreases t, 2
  {
    if Decorates(t) {
      DualDecorated(t, m, m', bb, fuel);
    } else if t.MemSequence? {
      DualMemSequence(t.kids, m, m', bb, fuel);
    } else if t.MemSelector? {
      DualMemSelector(t.kids, m, m', bb, fuel);
    } else if t.Sequence? {
      DualSequence(t.kids, m, m', bb, fuel);
    } else if t.Selector? {
      DualSelector(t.kids, m, m', bb, fuel);
    } else if t.Parallel? {
      DualParallel(t, m, m', bb, fuel);
    } else if t.Inverter? {
      DualTick(t.child, Kid(m, 0), Kid(m', 0), bb, fuel);
      assert Tick(Dual(t), m', bb, fuel) == Through(Tick(Dual(t.child), Kid(m', 0), bb, fuel), m', Flip);
    }
  }

  lemma DualDecorated<T>(t: Tree<T>, m: Mem, m': Mem, bb: T, fuel: nat)
    requires Decorates(t) && Rel(t, m, m')
    ensures Mirrors(t, Tick(t, m, bb, fuel), Tick(Dual(t), m', bb, fuel))
    decreases t, 1
  {
    DualDecorator(t, m, Kid(m', 0), bb, fuel);
    WrapMirrors(t, Tick(t, m, bb, fuel), Tick(WithDualChild(t), Kid(m', 0), bb, fuel), m');
    assert Tick(Dual(t), m', bb, fuel) == Through(Tick(WithDualChild(t), Kid(m', 0), bb, fuel), m', Flip);
  }

  lemma DualMemSequence<T>(ks: seq<Tree<T>>, m: Mem, m': Mem, bb: T, fuel: nat)
    requires Rel(MemSequence(ks), m, m')
    ensures Mirrors(MemSequence(ks), Tick(MemSequence(ks), m, bb, fuel), Tick(MemSelector(DualAll(ks)), m', bb, fuel))
    decreases ks, |ks| + 2
  {
    DualRow(ks, m.n, Success, true, m, m', bb, fuel);
  }

  lemma DualMemSelector<T>(ks: seq<Tree<T>>, m: Mem, m': Mem, bb: T, fuel: nat)
    requires Rel(MemSelector(ks), m, m')
    ensures Mirrors(MemSelector(ks), Tick(MemSelector(ks), m, bb, fuel), Tick(MemSequence(DualAll(ks)), m', bb, fuel))
    decreases ks, |ks| + 2
  {
    DualRow(ks, m.n, Failure, true, m, m', bb, fuel);
  }

  lemma DualSequence<T>(ks: seq<Tree<T>>, m: Mem, m': Mem, bb: T, fuel: nat)
    requires Rel(Sequence(ks), m, m')
    ensures Mirrors(Sequence(ks), Tick(Sequence(ks), m, bb, fuel), Tick(Selector(DualAll(ks)), m', bb, fuel))
    decreases ks, |ks| + 2
  {
    DualRow(ks, 0, Success, false, m, m', bb, fuel);
  }

  lemma DualSelector<T>(ks: seq<Tree<T>>, m: Mem, m': Mem, bb: T, fuel: nat)
    requires Rel(Selector(ks), m, m')
    ensures Mirrors(Selector(ks), Tick(Selector(ks), m, bb, fuel), Tick(Sequence(DualAll(ks)), m', bb, fuel))
    decreases ks, |ks| + 2
  {
    DualRow(ks, 0, Failure, false, m, m', bb, fuel);
  }

  lemma DualParallel<T>(t: Tree<T>, m: Mem, m': Mem, bb: T, fuel: nat)
    requires t.Parallel? && Rel(t, m, m')
    ensures Mirrors(t, Tick(t, m, bb, fuel), Tick(Dual(t), m', bb, fuel))
    decreases t, 1
  {
    DualCount(t.kids, 0, m, m', bb, fuel);
  }

  lemma {:induction false} DualRow<T>(ks: seq<Tree<T>>, i: nat, go: Status, remembers: bool, m: Mem, m': Mem, bb: T,
                                      fuel: nat)
    requires RelAll(ks, m, m') && go != Running
    ensures var o := Ended(Walk(ks, i, go, m, bb, fuel), |ks|, go, remembers);
            var d := Ended(Walk(DualAll(ks), i, Flip(go), m', bb, fuel), |ks|, Flip(go), remembers);
            if o.Diverged? then d.Diverged? else
              && d.Done? && d.status == Flip(o.status) && d.bb == o.bb
              && RelAll(ks, o.mem, d.mem) && (remembers ==> o.mem.n == d.mem.n)
    decreases ks, |ks| + 1
  {
    DualWalk(ks, i, go, m, m', bb, fuel);
    var w, v := Walk(ks, i, go, m, bb, fuel), Walk(DualAll(ks), i, Flip(go), m', bb, fuel);
    if w.Walked? { RelAllIndex(ks, w.mem, v.mem, if w.at < |ks| && w.status == Running then w.at else 0); }
  }

  /** Same status, same blackboard, related memories, for a decorator and its copy over the inverted dual child. */
  ghost predicate Same<T>(c: Tree<T>, o: Outcome<T>, d: Outcome<T>) {
    match o
    case Diverged => d.Diverged?
    case Done(s, m, b, _) => d.Done? && d.status == s && d.bb == b && RelInside(c, m, d.mem)
  }

  lemma WrapMirrors<T>(t: Tree<T>, o: Outcome<T>, d: Outcome<T>, m': Mem)
    requires Decorates(t) && Same(t.child, o, d)
    ensures Mirrors(t, o, Through(d, m', Flip))
  {
    if d.Done? { assert Kid(SetKid(m', 0, d.mem), 0) == d.mem; }
  }

  lemma RelAllIndex<T>(ks: seq<Tree<T>>, m: Mem, m': Mem, k: nat)
    requires RelAll(ks, m, m')
    ensures RelAll(ks, m.(n := k), m'.(n := k))
  {
    forall i | 0 <= i < |ks| ensures Rel(ks[i], Kid(m.(n := k), i), Kid(m'.(n := k), i)) {
      assert Kid(m.(n := k), i) == Kid(m, i) && Kid(m'.(n := k), i) == Kid(m', i);
    }
  }

  /** Replacing child i by related memories keeps all children related. */
  lemma RelSet<T>(ks: seq<Tree<T>>, m: Mem, m': Mem, i: nat, k: Mem, k': Mem)
    requires RelAll(ks, m, m') && i < |ks| && Rel(ks[i], k, k')
    ensures RelAll(ks, SetKid(m, i, k), SetKid(m', i, k'))
  {
    forall j | 0 <= j < |ks| ensures Rel(ks[j], Kid(SetKid(m, i, k), j), Kid(SetKid(m', i, k'), j)) {
      if j != i { assert Rel(ks[j], Kid(m, j), Kid(m', j)); }
    }
  }

  lemma {:induction false} DualWalk<T>(ks: seq<Tree<T>>, i: nat, go: Status, m: Mem, m': Mem, bb: T, fuel: nat)
    requires RelAll(ks, m, m') && go != Running
    ensures var w := Walk(ks, i, go, m, bb, fuel);
            var v := Walk(DualAll(ks), i, Flip(go), m', bb, fuel);
            if w.WalkDiverged? then v.WalkDiverged? else
              v.Walked? && v.status == Flip(w.status) && v.at == w.at && v.bb == w.bb && RelAll(ks, w.mem, v.mem)
    decreases ks, if i < |ks| then |ks| - i else 0
  {
    if i < |ks| {
      DualTick(ks[i], Kid(m, i), Kid(m', i), bb, fuel);
      var r, d := Tick(ks[i], Kid(m, i), bb, fuel), Tick(DualAll(ks)[i], Kid(m', i), bb, fuel);
      if r.Done? {
        RelSet(ks, m, m', i, r.mem, d.mem);
        if r.status == go { DualWalk(ks, i + 1, go, SetKid(m, i, r.mem), SetKid(m', i, d.mem), r.bb, fuel); }
      }
    }
  }

  lemma {:induction false} DualCount<T>(ks: seq<Tree<T>>, i: nat, m: Mem, m': Mem, bb: T, fuel: nat)
    requires RelAll(ks, m, m')
    ensures var w := CountAll(ks, i, m, bb, fuel);
            var v := CountAll(DualAll(ks), i, m', bb, fuel);
            if w.CountDiverged? then v.CountDiverged? else
              v.Counted? && v.successes == w.failures && v.failures == w.successes && v.bb == w.bb &&
                  RelAll(ks, w.mem, v.mem)
    decreases ks, if i < |ks| then |ks| - i else 0
  {
    if i < |ks| {
      DualTick(ks[i], Kid(m, i), Kid(m', i), bb, fuel);
      var r, d := Tick(ks[i], Kid(m, i), bb, fuel), Tick(DualAll(ks)[i], Kid(m', i), bb, fuel);
      if r.Done? {
        RelSet(ks, m, m', i, r.mem, d.mem);
        DualCount(ks, i + 1, SetKid(m, i, r.mem), SetKid(m', i, d.mem), r.bb, fuel);
      }
    }
  }

  /** Inverting the dual of a child gives the child's own status back. */
  lemma {:induction false} DualInside<T>(c: Tree<T>, m: Mem, d: Mem, bb: T, fuel: nat)
    requires RelInside(c, m, d)
    ensures var o := Tick(c, Kid(m, 0), bb, fuel);
            var v := Tick(Inverter(Dual(c)), Kid(d, 0), bb, fuel);
            if o.Diverged? then v.Diverged? else
              v.Done? && v.status == o.status && v.bb == o.bb && RelInside(c, SetKid(m, 0, o.mem), SetKid(d, 0, v.mem))
    decreases c, 3, 0
  {
    DualTick(c, Kid(m, 0), Kid(Kid(d, 0), 0), bb, fuel);
  }

  lemma RelInsideIndex<T>(c: Tree<T>, m: Mem, d: Mem, k: nat)
    requires RelInside(c, m, d)
    ensures RelInside(c, m.(n := k), d.(n := k))
  {
    assert Kid(m.(n := k), 0) == Kid(m, 0) && Kid(d.(n := k), 0) == Kid(d, 0);
  }

  lemma {:induction false} DualDecorator<T>(t: Tree<T>, m: Mem, d: Mem, bb: T, fuel: nat)
    requires Decorates(t) && RelInside(t.child, m, d)
    ensures Same(t.child, Tick(t, m, bb, fuel), Tick(WithDualChild(t), d, bb, fuel))
    decreases t.child, 5
  {
    var c := t.child;
    if t.Repeater? {
      DualRepeat(t.limit, c, m, d, bb, fuel, fuel);
      return;
    }
    var b := if t.Guard? then t.cond(bb).1 else bb;
    DualInside(c, m, d, b, fuel);
    var o, v := Tick(c, Kid(m, 0), b, fuel), Tick(Inverter(Dual(c)), Kid(d, 0), b, fuel);
    if t.Cooldown? {
      if m.n > 0 { RelInsideIndex(c, m, d, m.n - 1); }
      if o.Done? { RelInsideIndex(c, SetKid(m, 0, o.mem), SetKid(d, 0, v.mem), if t.ticks > 0 then t.ticks else 0); }
    }
  }

  lemma {:induction false} DualRepeat<T>(limit: int, c: Tree<T>, m: Mem, d: Mem, bb: T, left: nat, fuel: nat)
    requires RelInside(c, m, d)
    ensures Same(c, Repeat(limit, c, m, bb, left, fuel), Repeat(limit, Inverter(Dual(c)), d, bb, left, fuel))
    decreases c, 4, if limit > 0 then (if limit > m.n then limit - m.n else 0) else left
  {
    if limit > 0 && m.n >= limit {
      RelInsideIndex(c, m, d, 0);
    } else if !(limit < 0 && left == 0) {
      var o := Tick(c, Kid(m, 0), bb, fuel);
      if o.Done? && o.status == Success && limit != 0 {
        var m1, d1 := DualTurn(limit, c, m, d, bb, left, fuel);
        DualRepeat(limit, c, m1, d1, o.bb, if left > 0 then left - 1 else 0, fuel);
      } else {
        DualLastTurn(limit, c, m, d, bb, left, fuel);
      }
    }
  }

  /** A turn after which both loops go on. */
  lemma {:induction false} DualTurn<T>(limit: int, c: Tree<T>, m: Mem, d: Mem, bb: T, left: nat, fuel: nat)
    returns (m1: Mem, d1: Mem)
    requires RelInside(c, m, d) && !(limit > 0 && m.n >= limit) && !(limit < 0 && left == 0) && limit != 0
    requires var o := Tick(c, Kid(m, 0), bb, fuel); o.Done? && o.status == Success
    ensures RelInside(c, m1, d1) && m1.n == m.n + 1
    ensures var b, l := Tick(c, Kid(m, 0), bb, fuel).bb, if left > 0 then left - 1 else 0;
            && Repeat(limit, c, m, bb, left, fuel) == Preceded([Event(0, Success)], Repeat(limit, c, m1, b, l, fuel))
            && Repeat(limit, Inverter(Dual(c)), d, bb, left, fuel) ==
               Preceded([Event(0, Success)], Repeat(limit, Inverter(Dual(c)), d1, b, l, fuel))
    decreases c, 3, 1
  {
    DualInside(c, m, d, bb, fuel);
    var e := Inverter(Dual(c));
    var o, v := Tick(c, Kid(m, 0), bb, fuel), Tick(e, Kid(d, 0), bb, fuel);
    RepeatUnfold(limit, c, m, bb, left, fuel, o);
    RepeatUnfold(limit, e, d, bb, left, fuel, v);
    m1, d1 := SetKid(m, 0, o.mem).(n := m.n + 1), SetKid(d, 0, v.mem).(n := m.n + 1);
    RelInsideIndex(c, SetKid(m, 0, o.mem), SetKid(d, 0, v.mem), m.n + 1);
  }

  /** A turn after which both loops stop. */
  lemma {:induction false} DualLastTurn<T>(limit: int, c: Tree<T>, m: Mem, d: Mem, bb: T, left: nat, fuel: nat)
    requires RelInside(c, m, d) && !(limit > 0 && m.n >= limit) && !(limit < 0 && left == 0)
    requires var o := Tick(c, Kid(m, 0), bb, fuel); !(o.Done? && o.status == Success && limit != 0)
    ensures Same(c, Repeat(limit, c, m, bb, left, fuel), Repeat(limit, Inverter(Dual(c)), d, bb, left, fuel))
    decreases c, 3, 1
  {
    DualInside(c, m, d, bb, fuel);
    var e := Inverter(Dual(c));
    var o, v := Tick(c, Kid(m, 0), bb, fuel), Tick(e, Kid(d, 0), bb, fuel);
    RepeatUnfold(limit, c, m, bb, left, fuel, o);
    RepeatUnfold(limit, e, d, bb, left, fuel, v);
    if o.Done? {
      RelInsideIndex(c, SetKid(m, 0, o.mem), SetKid(d, 0, v.mem), 0);
      RelInsideIndex(c, SetKid(m, 0, o.mem), SetKid(d, 0, v.mem), m.n + 1);
    }
  }

  /** One turn of the repeat loop, given what the child's tick returned. */
  lemma RepeatUnfold<T>(limit: int, child: Tree<T>, m: Mem, bb: T, left: nat, fuel: nat, o: Outcome<T>)
    requires !(limit > 0 && m.n >= limit) && !(limit < 0 && left == 0) && o == Tick(child, Kid(m, 0), bb, fuel)
    ensures var r := Repeat(limit, child, m, bb, left, fuel);
            match o {
              case Diverged => r == Diverged
              case Done(s, k, b, _) =>
                var m1 := SetKid(m, 0, k);
                match s {
                  case Failure => r == Done(Failure, m1.(n := 0), b, [Event(0, s)])
                  case Running => r == Done(Running, m1, b, [Event(0, s)])
                  case Success =>
                    if limit == 0 then r == Done(Running, m1.(n := m.n + 1), b, [Event(0, s)])
                    else
                      var left' := if left > 0 then left - 1 else 0;
                      r == Preceded([Event(0, s)], Repeat(limit, child, m1.(n := m.n + 1), b, left', fuel))
                }
            }
  {
  }

  function Flipped<T>(run: seq<Option<(Status, T)>>): seq<Option<(Status, T)>> {
    if run == [] then [] else
      [match run[0] case None => None case Some((s, b)) => Some((Flip(s), b))] + Flipped(run[1..])
  }

  /**
   Duality over whole runs: whatever happens between ticks, the dual tree has the same effects and the flipped statuses.
   */
  lemma {:induction false} DualRun<T>(t: Tree<T>, m: Mem, m': Mem, bb: T, outside: seq<T -> T>, fuel: nat)
    requires Rel(t, m, m')
    ensures Run(Dual(t), m', bb, outside, fuel) == Flipped(Run(t, m, bb, outside, fuel))
    decreases |outside|
  {
    if outside != [] {
      var b := outside[0](bb);
      DualTick(t, m, m', b, fuel);
      var o, d := Tick(t, m, b, fuel), Tick(Dual(t), m', b, fuel);
      if o.Done? {
        DualRun(t, o.mem, d.mem, o.bb, outside[1..], fuel);
        var rest := Run(t, o.mem, o.bb, outside[1..], fuel);
        assert ([Some((o.status, o.bb))] + rest)[1..] == rest;
      }
    }
  }

  lemma DualityOverRuns<T>(t: Tree<T>, bb: T, outside: seq<T -> T>, fuel: nat)
    ensures Run(Dual(t), FRESH, bb, outside, fuel) == Flipped(Run(t, FRESH, bb, outside, fuel))
  {
    RelFresh(t);
    DualRun(t, FRESH, FRESH, bb, outside, fuel);
  }

  // ---------- Guard ----------

  /** A guard is a sequence of its condition and its child, tick after tick. */
  lemma {:induction false} GuardIsSequence<T>(cond: T -> (bool, T), t: Tree<T>, m: Mem, m': Mem, bb: T,
                                              outside: seq<T -> T>, fuel: nat)
    requires Kid(m, 0) == Kid(m', 1)
    ensures Run(Guard(cond, t), m, bb, outside, fuel) == Run(Sequence([Condition(cond), t]), m', bb, outside, fuel)
    decreases |outside|
  {
    if outside != [] {
      var b := outside[0](bb);
      GuardTick(cond, t, m, m', b, fuel);
      var o, d := Tick(Guard(cond, t), m, b, fuel), Tick(Sequence([Condition(cond), t]), m', b, fuel);
      if o.Done? { GuardIsSequence(cond, t, o.mem, d.mem, o.bb, outside[1..], fuel); }
    }
  }

  lemma GuardTick<T>(cond: T -> (bool, T), t: Tree<T>, m: Mem, m': Mem, b: T, fuel: nat)
    requires Kid(m, 0) == Kid(m', 1)
    ensures var o, d := Tick(Guard(cond, t), m, b, fuel), Tick(Sequence([Condition(cond), t]), m', b, fuel);
            if o.Diverged? then d.Diverged? else
              d.Done? && d.status == o.status && d.bb == o.bb && Kid(o.mem, 0) == Kid(d.mem, 1)
  {
    var ks := [Condition(cond), t];
    var (c, b1) := cond(b);
    var m1 := SetKid(m', 0, Kid(m', 0));
    assert Kid(m1, 1) == Kid(m', 1);
    assert Tick(ks[0], Kid(m', 0), b, fuel) == Done(if c then Success else Failure, Kid(m', 0), b1, []);
    if c {
      assert Walk(ks, 0, Success, m', b, fuel) == After([Event(0, Success)], Walk(ks, 1, Success, m1, b1, fuel));
      var r := Tick(t, Kid(m, 0), b1, fuel);
      assert ks[1] == t;
      if r.Done? {
        assert Walk(ks, 2, Success, SetKid(m1, 1, r.mem), r.bb, fuel) ==
            Walked(Success, 2, SetKid(m1, 1, r.mem), r.bb, []);
      }
    } else {
      assert Walk(ks, 0, Success, m', b, fuel) == Walked(Failure, 0, m1, b1, [Event(0, Failure)]);
    }
  }

  // ---------- Memory nodes and repeaters ----------

  /** Children that returned Success, in the order they did. */
  function Successes(es: seq<Event>): seq<nat> {
    if es == [] then [] else
      Successes(es[..|es| - 1]) + (if es[|es| - 1].status == Success then [es[|es| - 1].child] else [])
  }

  /** Every tick went to the child that comes right after those already completed. */
  predicate InOrder(es: seq<Event>) {
    es == [] || (var n := |es| - 1; InOrder(es[..n]) && es[n].child == |Successes(es[..n])|)
  }

  lemma InOrderSnoc(es: seq<Event>, e: Event)
    requires InOrder(es) && e.child == |Successes(es)|
    ensures InOrder(es + [e]) && |Successes(es + [e])| == |Successes(es)| + (if e.status == Success then 1 else 0)
  {
    assert (es + [e])[..|es|] == es;
  }

  /** In other words: children 0, 1, 2, ... complete in order, each once, and no tick goes to a completed child. */
  lemma {:induction false} InOrderMeans(es: seq<Event>)
    requires InOrder(es)
    ensures Successes(es) == seq(|Successes(es)|, i => i)
    ensures forall j, k :: 0 <= j < k < |es| && es[j].status == Success ==> es[k].child > es[j].child
    ensures forall k :: 0 <= k < |es| ==>
            es[k].child <= |Successes(es)| && (es[k].status == Success ==> es[k].child < |Successes(es)|)
  {
    if es != [] {
      var n := |es| - 1;
      InOrderMeans(es[..n]);
      assert forall k :: 0 <= k < n ==> es[..n][k] == es[k];
      var c := |Successes(es[..n])|;
      assert seq(c, i => i) + [c] == seq(c + 1, i => i);
    }
  }

  /** One turn of a walk, given what the child's tick returned. */
  lemma WalkUnfold<T>(ks: seq<Tree<T>>, i: nat, go: Status, m: Mem, bb: T, fuel: nat, r: Outcome<T>)
    requires i < |ks| && r == Tick(ks[i], Kid(m, i), bb, fuel)
    ensures Walk(ks, i, go, m, bb, fuel) ==
            match r {
              case Diverged => WalkDiverged
              case Done(s, k, b, _) =>
                if s != go then Walked(s, i, SetKid(m, i, k), b, [Event(i, s)])
                else After([Event(i, s)], Walk(ks, i + 1, go, SetKid(m, i, k), b, fuel))
            }
  {
  }

  ghost predicate Extends<T>(w: Walked<T>, total: nat, log: seq<Event>) {
    w.Walked? ==>
      && InOrder(log + w.ticks) && |Successes(log + w.ticks)| == w.at <= total
      && (w.at < total ==> w.status != Success)
  }

  lemma ExtendsAfter<T>(e: Event, w: Walked<T>, total: nat, log: seq<Event>)
    requires Extends(w, total, log + [e])
    ensures Extends(After([e], w), total, log)
  {
    if w.Walked? { assert log + ([e] + w.ticks) == (log + [e]) + w.ticks; }
  }

  /** From index i with the first i children completed in `log`, the walk extends the log in order. */
  lemma {:induction false} WalkInOrder<T>(ks: seq<Tree<T>>, i: nat, m: Mem, bb: T, fuel: nat, log: seq<Event>)
    requires InOrder(log) && |Successes(log)| == i <= |ks|
    ensures Extends(Walk(ks, i, Success, m, bb, fuel), |ks|, log)
    decreases ks, |ks| - i
  {
    if i == |ks| {
      assert log + [] == log;
    } else {
      var r := Tick(ks[i], Kid(m, i), bb, fuel);
      WalkUnfold(ks, i, Success, m, bb, fuel, r);
      if r.Done? {
        var e := Event(i, r.status);
        InOrderSnoc(log, e);
        if r.status == Success {
          var m1 := SetKid(m, i, r.mem);
          WalkInOrder(ks, i + 1, m1, r.bb, fuel, log + [e]);
          ExtendsAfter(e, Walk(ks, i + 1, Success, m1, r.bb, fuel), |ks|, log);
        }
      }
    }
  }

  /** Memory, blackboard, the child ticks since the node last returned Success or Failure, and the last full episode. */
  datatype Session<T> = Session(mem: Mem, bb: T, log: seq<Event>) | Stuck

  function Attend<T>(t: Tree<T>, s: Session<T>, change: T -> T, fuel: nat): (Session<T>, Option<(Status, seq<Event>)>) {
    if s.Stuck? then (Stuck, None) else
      match Tick(t, s.mem, change(s.bb), fuel)
      case Diverged => (Stuck, None)
      case Done(st, m, b, es) =>
        (Session(m, b, if st == Running then s.log + es else []), Some((st, s.log + es)))
  }

  function AttendAll<T>(t: Tree<T>, outside: seq<T -> T>, bb: T, fuel: nat): Session<T> {
    if outside == [] then Session(FRESH, bb, []) else
      Attend(t, AttendAll(t, outside[..|outside| - 1], bb, fuel), outside[|outside| - 1], fuel).0
  }

  lemma {:induction false} MemSequenceSession<T>(ks: seq<Tree<T>>, outside: seq<T -> T>, bb: T, fuel: nat)
    ensures var s := AttendAll(MemSequence(ks), outside, bb, fuel);
            s.Session? ==> InOrder(s.log) && |Successes(s.log)| == s.mem.n <= |ks|
    decreases |outside|
  {
    if outside != [] {
      var n := |outside| - 1;
      MemSequenceSession(ks, outside[..n], bb, fuel);
      var s := AttendAll(MemSequence(ks), outside[..n], bb, fuel);
      if s.Session? { WalkInOrder(ks, s.mem.n, s.mem, outside[n](s.bb), fuel, s.log); }
    }
  }

  /**
   MemSequence, over every run of ticks from a fresh node: since its last reset it ticks its children strictly in order,
   never again after they completed, and it returns Success exactly after each of them has succeeded once.
   */
  lemma MemSequenceCompletes<T>(ks: seq<Tree<T>>, outside: seq<T -> T>, bb: T, fuel: nat, change: T -> T)
    ensures var (_, seen) := Attend(MemSequence(ks), AttendAll(MemSequence(ks), outside, bb, fuel), change, fuel);
            seen.Some? ==>
              var (status, episode) := seen.value;
              && (status == Success <==> Successes(episode) == seq(|ks|, i => i))
              && Successes(episode) == seq(|Successes(episode)|, i => i)
              && forall j, k :: 0 <= j < k < |episode| && episode[j].status == Success ==>
                   episode[k].child > episode[j].child
  {
    MemSequenceSession(ks, outside, bb, fuel);
    var s := AttendAll(MemSequence(ks), outside, bb, fuel);
    if s.Session? {
      WalkInOrder(ks, s.mem.n, s.mem, change(s.bb), fuel, s.log);
      EpisodeInOrder(Walk(ks, s.mem.n, Success, s.mem, change(s.bb), fuel), |ks|, s.log);
    }
  }

  lemma EpisodeInOrder<T>(w: Walked<T>, total: nat, log: seq<Event>)
    requires Extends(w, total, log)
    ensures var o := Ended(w, total, Success, true);
            o.Done? ==>
              var episode := log + o.ticks;
              && (o.status == Success <==> Successes(episode) == seq(total, i => i))
              && Successes(episode) == seq(|Successes(episode)|, i => i)
              && forall j, k :: 0 <= j < k < |episode| && episode[j].status == Success ==>
                   episode[k].child > episode[j].child
  {
    if w.Walked? {
      InOrderMeans(log + w.ticks);
      assert |seq(total, i => i)| == total;
    }
  }

  lemma SuccessesConcat(a: seq<Event>, b: seq<Event>)
    ensures Successes(a + b) == Successes(a) + Successes(b)
  {
    if b == [] {
      assert a + b == a;
    } else {
      assert (a + b)[..|a + b| - 1] == a + b[..|b| - 1];
      SuccessesConcat(a, b[..|b| - 1]);
    }
  }

  lemma SuccessesOfOne(s: Status)
    ensures Successes([Event(0, s)]) == if s == Success then [0] else []
  {
    assert [Event(0, s)][..0] == [];
  }

  lemma {:induction false} RepeatCounts<T>(limit: int, c: Tree<T>, m: Mem, bb: T, left: nat, fuel: nat)
    requires 0 < limit && m.n <= limit
    ensures var o := Repeat(limit, c, m, bb, left, fuel);
            o.Done? ==> match o.status {
                          case Success => m.n + |Successes(o.ticks)| == limit && o.mem.n == 0
                          case Running => m.n + |Successes(o.ticks)| == o.mem.n < limit
                          case Failure => m.n + |Successes(o.ticks)| < limit && o.mem.n == 0
                        }
    decreases limit - m.n
  {
    if m.n < limit {
      var r := Tick(c, Kid(m, 0), bb, fuel);
      if r.Done? && r.status == Success {
        var m1 := SetKid(m, 0, r.mem).(n := m.n + 1);
        RepeatCounts(limit, c, m1, r.bb, if left > 0 then left - 1 else 0, fuel);
        var o := Repeat(limit, c, m1, r.bb, if left > 0 then left - 1 else 0, fuel);
        if o.Done? { SuccessesConcat([Event(0, Success)], o.ticks); }
      }
      if r.Done? { SuccessesOfOne(r.status); }
    }
  }

  lemma {:induction false} RepeaterSession<T>(limit: int, c: Tree<T>, outside: seq<T -> T>, bb: T, fuel: nat)
    requires 0 < limit
    ensures var s := AttendAll(Repeater(limit, c), outside, bb, fuel);
            s.Session? ==> |Successes(s.log)| == s.mem.n < limit
    decreases |outside|
  {
    if outside != [] {
      var n := |outside| - 1;
      RepeaterSession(limit, c, outside[..n], bb, fuel);
      var s := AttendAll(Repeater(limit, c), outside[..n], bb, fuel);
      if s.Session? {
        var b := outside[n](s.bb);
        RepeatCounts(limit, c, s.mem, b, fuel, fuel);
        var o := Repeat(limit, c, s.mem, b, fuel, fuel);
        if o.Done? { SuccessesConcat(s.log, o.ticks); }
      }
    }
  }

  /**
   Repeater with a positive limit, over every run: Success exactly when its child has succeeded `limit` times since the
   last reset.
   */
  lemma RepeaterCompletes<T>(limit: int, c: Tree<T>, outside: seq<T -> T>, bb: T, fuel: nat, change: T -> T)
    requires 0 < limit
    ensures var (_, seen) := Attend(Repeater(limit, c), AttendAll(Repeater(limit, c), outside, bb, fuel), change, fuel);
            seen.Some? ==>
              && (seen.value.0 == Success <==> |Successes(seen.value.1)| == limit)
              && |Successes(seen.value.1)| <= limit
  {
    RepeaterSession(limit, c, outside, bb, fuel);
    var s := AttendAll(Repeater(limit, c), outside, bb, fuel);
    if s.Session? {
      var b := change(s.bb);
      RepeatCounts(limit, c, s.mem, b, fuel, fuel);
      var o := Repeat(limit, c, s.mem, b, fuel, fuel);
      if o.Done? { SuccessesConcat(s.log, o.ticks); }
    }
  }
}
