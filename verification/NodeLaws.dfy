/**
 What one tick of each kind of node means, told from the ticks that its children really got: an account independent of
 the interpreter's own helper functions.
 */
module NodeLaws {
  import opened Words
  import opened BehaviorTree
  import opened TreeLaws

  // ---------- Recorded ticks are real ticks ----------

  /**
   Giving children these ticks one after the other, each on the blackboard that the one before it left, yields these
   statuses and ends with this memory and blackboard.
   */
  ghost predicate Performs<T>(kids: seq<Tree<T>>, es: seq<Event>, m: Mem, bb: T, fuel: nat, m': Mem, bb': T)
    decreases |es|
  {
    if es == [] then m' == m && bb' == bb else
      var k := es[0].child;
      && k < |kids|
      && var r := Tick(kids[k], Kid(m, k), bb, fuel);
         && r.Done? && r.status == es[0].status
         && Performs(kids, es[1..], SetKid(m, k, r.mem), r.bb, fuel, m', bb')
  }

  lemma {:induction false} PerformsFirst<T>(kids: seq<Tree<T>>, e: Event, es: seq<Event>, m: Mem, bb: T, fuel: nat,
                                            r: Outcome<T>, m': Mem, bb': T)
    requires e.child < |kids| && r == Tick(kids[e.child], Kid(m, e.child), bb, fuel) && r.Done? && r.status == e.status
    requires Performs(kids, es, SetKid(m, e.child, r.mem), r.bb, fuel, m', bb')
    ensures Performs(kids, [e] + es, m, bb, fuel, m', bb')
  {
    assert ([e] + es)[1..] == es;
  }

  /** Ticks go to consecutive children. */
  ghost predicate Consecutive(es: seq<Event>, first: nat) {
    forall j :: 0 <= j < |es| ==> es[j].child == first + j
  }

  lemma ConsecutiveFirst(e: Event, es: seq<Event>, first: nat)
    requires e.child == first && Consecutive(es, first + 1)
    ensures Consecutive([e] + es, first)
  {
  }

  // ---------- Sequences and selectors ----------

  /** All ticks but the last returned `go`. */
  ghost predicate GoesOn(es: seq<Event>, go: Status) {
    forall j :: 0 <= j < |es| - 1 ==> es[j].status == go
  }

  ghost predicate AllAre(es: seq<Event>, s: Status) {
    forall j :: 0 <= j < |es| ==> es[j].status == s
  }

  ghost predicate SomeIs(es: seq<Event>, s: Status) {
    exists j :: 0 <= j < |es| && es[j].status == s
  }

  ghost predicate Walks<T>(kids: seq<Tree<T>>, i: nat, go: Status, m: Mem, bb: T, fuel: nat, w: Walked<T>) {
    w.Walked? ==>
      && Performs(kids, w.ticks, m, bb, fuel, w.mem, w.bb)
      && Consecutive(w.ticks, i) && GoesOn(w.ticks, go)
      && (if AllAre(w.ticks, go) then w.at == |kids| && (i <= |kids| ==> |w.ticks| == |kids| - i)
          else w.at == i + |w.ticks| - 1 < |kids| && w.status == w.ticks[|w.ticks| - 1].status != go)
  }

  lemma {:induction false} WalksOn<T>(kids: seq<Tree<T>>, i: nat, go: Status, m: Mem, bb: T, fuel: nat, r: Outcome<T>,
                                      w: Walked<T>)
    requires i < |kids| && r == Tick(kids[i], Kid(m, i), bb, fuel) && r.Done? && r.status == go
    requires Walks(kids, i + 1, go, SetKid(m, i, r.mem), r.bb, fuel, w)
    ensures Walks(kids, i, go, m, bb, fuel, After([Event(i, go)], w))
  {
    if w.Walked? {
      var e := Event(i, go);
      PerformsFirst(kids, e, w.ticks, m, bb, fuel, r, w.mem, w.bb);
      ConsecutiveFirst(e, w.ticks, i);
      var es := [e] + w.ticks;
      if AllAre(w.ticks, go) {
        assert AllAre(es, go);
      } else {
        var j :| 0 <= j < |w.ticks| && w.ticks[j].status != go;
        assert es[j + 1].status != go;
      }
    }
  }

  lemma {:induction false} WalkWalks<T>(kids: seq<Tree<T>>, i: nat, go: Status, m: Mem, bb: T, fuel: nat)
    ensures Walks(kids, i, go, m, bb, fuel, Walk(kids, i, go, m, bb, fuel))
    decreases |kids| - i
  {
    if i < |kids| {
      var r := Tick(kids[i], Kid(m, i), bb, fuel);
      WalkUnfold(kids, i, go, m, bb, fuel, r);
      if r.Done? {
        var m1 := SetKid(m, i, r.mem);
        if r.status == go {
          WalkWalks(kids, i + 1, go, m1, r.bb, fuel);
          WalksOn(kids, i, go, m, bb, fuel, r, Walk(kids, i + 1, go, m1, r.bb, fuel));
        } else {
          PerformsFirst(kids, Event(i, r.status), [], m, bb, fuel, r, m1, r.bb);
          assert [Event(i, r.status)] + [] == [Event(i, r.status)];
          assert [Event(i, r.status)][0].status != go;
        }
      }
    }
  }

  /**
   A tick of a sequence (`go` is Success) or a selector (`go` is Failure) from child `start` on: it ticks consecutive
   children, each on what the one before left, for as long as they return `go`. It returns `go` exactly when all
   children did, and otherwise what its last child returned. A memory kind remembers that child exactly when it is
   running.
   */
  ghost predicate InOrderTick<T>(kids: seq<Tree<T>>, start: nat, go: Status, remembers: bool, m: Mem, bb: T, fuel: nat,
                                 o: Outcome<T>)
  {
    o.Done? ==>
      && Performs(kids, o.ticks, m, bb, fuel, o.mem.(n := m.n), o.bb)
      && Consecutive(o.ticks, start) && GoesOn(o.ticks, go)
      && (o.status == go <==> AllAre(o.ticks, go) && (start <= |kids| ==> |o.ticks| == |kids| - start))
      && (o.status != go ==> o.ticks != [] && o.status == o.ticks[|o.ticks| - 1].status)
      && (!remembers ==> o.mem.n == m.n)
      && (remembers && o.status != Running ==> o.mem.n == 0)
      && (remembers && o.status == Running ==> o.ticks != [] && o.mem.n == o.ticks[|o.ticks| - 1].child)
  }

  lemma {:induction false} PerformsKeepsIndex<T>(kids: seq<Tree<T>>, es: seq<Event>, m: Mem, bb: T, fuel: nat, m': Mem,
                                                 bb': T)
    requires Performs(kids, es, m, bb, fuel, m', bb')
    ensures m'.n == m.n
    decreases |es|
  {
    if es != [] {
      var r := Tick(kids[es[0].child], Kid(m, es[0].child), bb, fuel);
      PerformsKeepsIndex(kids, es[1..], SetKid(m, es[0].child, r.mem), r.bb, fuel, m', bb');
    }
  }

  lemma {:induction false} EndedMeans<T>(kids: seq<Tree<T>>, start: nat, go: Status, remembers: bool, m: Mem, bb: T,
                                         fuel: nat)
    requires go != Running
    ensures InOrderTick(kids, start, go, remembers, m, bb, fuel,
                        Ended(Walk(kids, start, go, m, bb, fuel), |kids|, go, remembers))
  {
    var w := Walk(kids, start, go, m, bb, fuel);
    WalkWalks(kids, start, go, m, bb, fuel);
    if w.Walked? {
      PerformsKeepsIndex(kids, w.ticks, m, bb, fuel, w.mem, w.bb);
    }
  }

  lemma OrderedMeans<T>(kids: seq<Tree<T>>, m: Mem, bb: T, fuel: nat)
    ensures InOrderTick(kids, 0, Success, false, m, bb, fuel, Tick(Sequence(kids), m, bb, fuel))
    ensures InOrderTick(kids, 0, Failure, false, m, bb, fuel, Tick(Selector(kids), m, bb, fuel))
    ensures InOrderTick(kids, m.n, Success, true, m, bb, fuel, Tick(MemSequence(kids), m, bb, fuel))
    ensures InOrderTick(kids, m.n, Failure, true, m, bb, fuel, Tick(MemSelector(kids), m, bb, fuel))
  {
    EndedMeans(kids, 0, Success, false, m, bb, fuel);
    EndedMeans(kids, 0, Failure, false, m, bb, fuel);
    EndedMeans(kids, m.n, Success, true, m, bb, fuel);
    EndedMeans(kids, m.n, Failure, true, m, bb, fuel);
  }

  // ---------- Parallel ----------

  /** How many ticks returned this status. */
  function Number(es: seq<Event>, s: Status): nat {
    if es == [] then 0 else (if es[0].status == s then 1 else 0) + Number(es[1..], s)
  }

  lemma {:induction false} NumberMeans(es: seq<Event>, s: Status)
    ensures Number(es, s) <= |es|
    ensures Number(es, s) > 0 <==> SomeIs(es, s)
    ensures Number(es, s) == |es| <==> AllAre(es, s)
  {
    if es != [] {
      NumberMeans(es[1..], s);
      assert forall j :: 0 < j < |es| ==> es[j] == es[1..][j - 1];
      assert SomeIs(es, s) <==> es[0].status == s || SomeIs(es[1..], s) by {
        if SomeIs(es[1..], s) {
          var j :| 0 <= j < |es[1..]| && es[1..][j].status == s;
          assert es[j + 1].status == s;
        }
      }
      assert AllAre(es, s) <==> es[0].status == s && AllAre(es[1..], s) by {
        assert forall j :: 0 <= j < |es[1..]| ==> es[1..][j] == es[j + 1];
      }
    }
  }

  lemma NotBoth(es: seq<Event>, s: Status, t: Status)
    requires s != t
    ensures AllAre(es, s) ==> !SomeIs(es, t)
  {
  }

  ghost predicate CountsTicks<T>(kids: seq<Tree<T>>, i: nat, m: Mem, bb: T, fuel: nat, w: Counted<T>) {
    w.Counted? ==>
      && Performs(kids, w.ticks, m, bb, fuel, w.mem, w.bb)
      && Consecutive(w.ticks, i) && (i <= |kids| ==> |w.ticks| == |kids| - i)
      && w.successes == Number(w.ticks, Success) && w.failures == Number(w.ticks, Failure)
  }

  lemma {:induction false} CountsOn<T>(kids: seq<Tree<T>>, i: nat, m: Mem, bb: T, fuel: nat, r: Outcome<T>,
                                       w: Counted<T>)
    requires i < |kids| && r == Tick(kids[i], Kid(m, i), bb, fuel) && r.Done?
    requires CountsTicks(kids, i + 1, SetKid(m, i, r.mem), r.bb, fuel, w) && w.Counted?
    ensures CountsTicks(kids, i, m, bb, fuel,
                        Counted(w.successes + (if r.status == Success then 1 else 0),
                                w.failures + (if r.status == Failure then 1 else 0),
                                w.mem, w.bb, [Event(i, r.status)] + w.ticks))
  {
    var e := Event(i, r.status);
    PerformsFirst(kids, e, w.ticks, m, bb, fuel, r, w.mem, w.bb);
    ConsecutiveFirst(e, w.ticks, i);
    assert ([e] + w.ticks)[1..] == w.ticks;
  }

  lemma {:induction false} CountAllCounts<T>(kids: seq<Tree<T>>, i: nat, m: Mem, bb: T, fuel: nat)
    ensures CountsTicks(kids, i, m, bb, fuel, CountAll(kids, i, m, bb, fuel))
    decreases |kids| - i
  {
    if i < |kids| {
      var r := Tick(kids[i], Kid(m, i), bb, fuel);
      if r.Done? {
        var m1 := SetKid(m, i, r.mem);
        CountAllCounts(kids, i + 1, m1, r.bb, fuel);
        var w := CountAll(kids, i + 1, m1, r.bb, fuel);
        if w.Counted? { CountsOn(kids, i, m, bb, fuel, r, w); }
      }
    }
  }

  /**
   A tick of a parallel node: every child is ticked once, in order, each on the blackboard that the one before left,
   even after the verdict is clear. Requiring all, it fails if and only if some child failed, and succeeds if and only
   if every one succeeded; requiring one, it succeeds if and only if some child did, and fails if and only if every one
   failed.
   */
  lemma {:induction false} ParallelMeans<T>(policy: Policy, kids: seq<Tree<T>>, m: Mem, bb: T, fuel: nat)
    ensures var o := Tick(Parallel(policy, kids), m, bb, fuel);
            o.Done? ==>
              && Performs(kids, o.ticks, m, bb, fuel, o.mem, o.bb)
              && |o.ticks| == |kids| && Consecutive(o.ticks, 0)
              && (policy == RequireAll ==>
                    && (o.status == Failure <==> SomeIs(o.ticks, Failure))
                    && (o.status == Success <==> AllAre(o.ticks, Success)))
              && (policy == RequireOne ==>
                    && (o.status == Success <==> SomeIs(o.ticks, Success))
                    && (o.status == Failure <==> AllAre(o.ticks, Failure)))
  {
    var w := CountAll(kids, 0, m, bb, fuel);
    CountAllCounts(kids, 0, m, bb, fuel);
    if w.Counted? {
      ParallelVerdict(policy, w.ticks, Verdict(policy, w.successes, w.failures, |kids|));
    }
  }

  lemma {:induction false} ParallelVerdict(policy: Policy, es: seq<Event>, s: Status)
    requires s == Verdict(policy, Number(es, Success), Number(es, Failure), |es|)
    ensures policy == RequireAll ==> (s == Failure <==> SomeIs(es, Failure)) && (s == Success <==> AllAre(es, Success))
    ensures policy == RequireOne ==> (s == Success <==> SomeIs(es, Success)) && (s == Failure <==> AllAre(es, Failure))
  {
    NumberMeans(es, Success);
    NumberMeans(es, Failure);
    NotBoth(es, Success, Failure);
    NotBoth(es, Failure, Success);
  }

  // ---------- Leaves and decorators ----------

  /** A tick that passes exactly one tick on to the child, which returned `s`. */
  ghost predicate PassesOn<T>(c: Tree<T>, m: Mem, bb: T, fuel: nat, o: Outcome<T>, s: Status) {
    && o.Done? && o.ticks == [Event(0, s)]
    && var r := Tick(c, Kid(m, 0), bb, fuel);
       r.Done? && r.status == s && o.bb == r.bb && Kid(o.mem, 0) == r.mem
  }

  /** Inverter swaps Success and Failure. */
  lemma {:induction false} InverterMeans<T>(c: Tree<T>, m: Mem, bb: T, fuel: nat)
    requires Tick(c, Kid(m, 0), bb, fuel).Done?
    ensures var s, o := Tick(c, Kid(m, 0), bb, fuel).status, Tick(Inverter(c), m, bb, fuel);
            PassesOn(c, m, bb, fuel, o, s) && (o.status == Success <==> s == Failure) &&
                (o.status == Failure <==> s == Success)
  {
  }

  /** Succeeder turns every finished child into Success. */
  lemma {:induction false} SucceederMeans<T>(c: Tree<T>, m: Mem, bb: T, fuel: nat)
    requires Tick(c, Kid(m, 0), bb, fuel).Done?
    ensures var s, o := Tick(c, Kid(m, 0), bb, fuel).status, Tick(Succeeder(c), m, bb, fuel);
            PassesOn(c, m, bb, fuel, o, s) && (o.status == Running <==> s == Running) && o.status != Failure
  {
  }

  /** RepeatUntilFail succeeds exactly when its child fails, and goes on otherwise. */
  lemma {:induction false} RepeatUntilFailMeans<T>(c: Tree<T>, m: Mem, bb: T, fuel: nat)
    requires Tick(c, Kid(m, 0), bb, fuel).Done?
    ensures var s, o := Tick(c, Kid(m, 0), bb, fuel).status, Tick(RepeatUntilFail(c), m, bb, fuel);
            PassesOn(c, m, bb, fuel, o, s) && (o.status == Success <==> s == Failure) && o.status != Failure
  {
  }

  /** A Repeater without a limit ticks its child once, fails exactly when the child does, and goes on otherwise. */
  lemma {:induction false} EndlessRepeaterMeans<T>(c: Tree<T>, m: Mem, bb: T, fuel: nat)
    requires Tick(c, Kid(m, 0), bb, fuel).Done?
    ensures var s, o := Tick(c, Kid(m, 0), bb, fuel).status, Tick(Repeater(0, c), m, bb, fuel);
            PassesOn(c, m, bb, fuel, o, s) && (o.status == Failure <==> s == Failure) && o.status != Success
  {
    RepeatUnfold(0, c, m, bb, fuel, fuel, Tick(c, Kid(m, 0), bb, fuel));
  }

  /** A condition and a guard look once; the guard's child is ticked, on what the look left, exactly when it holds. */
  lemma ConditionsMean<T>(cond: T -> (bool, T), c: Tree<T>, m: Mem, bb: T, fuel: nat)
    ensures var o := Tick(Condition(cond), m, bb, fuel);
            o.Done? && (o.status == Success <==> cond(bb).0) && o.status != Running && o.bb == cond(bb).1 && o.mem == m
    ensures var o := Tick(Guard(cond, c), m, bb, fuel);
            && (!cond(bb).0 ==> o == Done(Failure, m, cond(bb).1, []))
            && (cond(bb).0 && o.Done? ==> PassesOn(c, m, cond(bb).1, fuel, o, o.status))
  {
  }

  // ---------- Cooldown ----------

  /** The blackboards seen by a node that never touches them. */
  function Untouched<T>(bb: T, outside: seq<T -> T>): seq<Option<(Status, T)>> {
    if outside == [] then [] else
      [Some((Failure, outside[0](bb)))] + Untouched(outside[0](bb), outside[1..])
  }

  /**
   Cooldown, over runs: after its child succeeds, exactly the next `ticks` ticks fail without touching the child or the
   blackboard, and the one after them goes to the child again.
   */
  lemma {:induction false} CooldownWaits<T>(ticks: int, c: Tree<T>, m: Mem, bb: T, outside: seq<T -> T>, fuel: nat)
    requires |outside| == m.n
    ensures Run(Cooldown(ticks, c), m, bb, outside, fuel) == Untouched(bb, outside)
    decreases |outside|
  {
    if outside != [] {
      CooldownWaits(ticks, c, m.(n := m.n - 1), outside[0](bb), outside[1..], fuel);
    }
  }

  lemma CooldownStarts<T>(ticks: int, c: Tree<T>, m: Mem, bb: T, fuel: nat)
    ensures var o := Tick(Cooldown(ticks, c), m, bb, fuel);
            && (m.n > 0 ==> o == Done(Failure, m.(n := m.n - 1), bb, []))
            && (m.n == 0 && o.Done? ==>
                  && PassesOn(c, m, bb, fuel, o, o.status)
                  && o.mem.n == if o.status == Success && ticks > 0 then ticks else 0)
  {
  }
}
