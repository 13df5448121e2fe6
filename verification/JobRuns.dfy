/** Particular runs of the job queue: what undisturbed processes achieve, and how jobs are lost. */
module JobRuns {
  import opened JobQueue

  // ---------- Redelivery and retries ----------

  /** What a process is given that meets only job `id`, whose handler ends with `ok`. */
  function ChoiceFor(pc: Proc, id: Id, ok: bool): Choice {
    match pc
    case PopWaiting => Member(id)
    case RangeDelayed => Members([id])
    case PopClean(_, _) => Member(id)
    case InHandler(_, _) => Handler(ok)
    case _ => Nothing
  }

  /** `n` commands of one process, undisturbed. */
  function Alone(r: Redis, pc: Proc, id: Id, ok: bool, n: nat): (Redis, Proc)
    decreases n, r
  {
    if n == 0 then (r, pc) else
      var (r', pc') := Exec(r, pc, ChoiceFor(pc, id, ok));
      Alone(r', pc', id, ok, n - 1)
  }

  lemma AloneStep(r: Redis, pc: Proc, id: Id, ok: bool, n: nat, r': Redis, pc': Proc)
    requires 0 < n && Exec(r, pc, ChoiceFor(pc, id, ok)) == (r', pc')
    ensures Alone(r, pc, id, ok, n) == Alone(r', pc', id, ok, n - 1)
    ensures Alone(r', pc', id, ok, 0) == (r', pc')
  {
  }

  lemma {:induction false} AloneSplit(r: Redis, pc: Proc, id: Id, ok: bool, a: nat, b: nat)
    ensures var (r1, pc1) := Alone(r, pc, id, ok, a); Alone(r, pc, id, ok, a + b) == Alone(r1, pc1, id, ok, b)
    decreases a
  {
    if a > 0 {
      var (r', pc') := Exec(r, pc, ChoiceFor(pc, id, ok));
      AloneSplit(r', pc', id, ok, a - 1, b);
    }
  }

  /**
   At-least-once delivery after a crash inside a handler: a job left in `active` without its lock is put back into
   `waiting` under its own priority by the next checker that reaches it.
   */
  lemma StalledJobReturns(r: Redis, id: Id, rest: seq<Id>)
    requires id in r.active && id in r.jobs && id !in r.locks
    ensures var job := r.jobs[id].(state := Waiting);
            Alone(r, TestLock([id] + rest), id, false, 5) ==
            (r.(active := r.active - {id}, jobs := r.jobs[id := job], waiting := r.waiting[id := job.priority]),
             TestLock(rest))
  {
    var job := r.jobs[id].(state := Waiting);
    assert ([id] + rest)[1..] == rest;
    AloneStep(r, TestLock([id] + rest), id, false, 5, r, LoadStalled(id, rest));
    AloneStep(r, LoadStalled(id, rest), id, false, 4, r, RemStalled(id, job, rest));
    var r3 := r.(active := r.active - {id});
    AloneStep(r, RemStalled(id, job, rest), id, false, 3, r3, SaveStalled(id, job, rest));
    var r4 := r3.(jobs := r3.jobs[id := job]);
    AloneStep(r3, SaveStalled(id, job, rest), id, false, 2, r4, AddStalled(id, job, rest));
    var r5 := r4.(waiting := r4.waiting[id := job.priority]);
    AloneStep(r4, AddStalled(id, job, rest), id, false, 1, r5, TestLock(rest));
  }

  /** A checker that finds the lock held passes over the job and changes nothing. */
  lemma LockedJobIsLeft(r: Redis, id: Id, rest: seq<Id>)
    requires id in r.locks
    ensures Alone(r, TestLock([id] + rest), id, false, 1) == (r, TestLock(rest))
  {
    assert ([id] + rest)[1..] == rest;
    AloneStep(r, TestLock([id] + rest), id, false, 1, r, TestLock(rest));
  }

  /**
   A checker goes through exactly the jobs that are active when it lists them, a scheduler only through delayed ones.
   */
  lemma ScansSee(r: Redis, ch: Choice)
    ensures var pc := Exec(r, ListActive, ch).1;
            pc.TestLock? ==> forall id :: id in pc.rest <==> id in r.active
    ensures var pc := Exec(r, RangeDelayed, ch).1;
            pc.RemDelayed? ==> forall id :: id in pc.rest ==> id in r.delayed
  {
  }

  /**
   A worker goes idle without a job only when none is waiting, and a Clean ends only when it is done or finds none.
   */
  lemma EndsOnlyWhenEmpty(r: Redis, ch: Choice, failures: bool, count: nat)
    ensures Exec(r, PopWaiting, ch).1 == Idle ==> r.waiting == map[]
    ensures Exec(r, PopClean(failures, count), ch).1 == Idle ==>
              count == 0 || (if failures then r.failed else r.completed) == {}
  {
  }

  /** A submission that is not disturbed stores the job as waiting and queues it, under its priority or as delayed. */
  lemma SubmitQueues(r: Redis, id: Id, job: Job, later: bool)
    requires id != ""
    ensures Alone(r, InitialProc(Submit(id, job, later)), id, false, 2) ==
            (if later then r.(jobs := r.jobs[id := job.(state := Waiting)], delayed := r.delayed + {id})
             else r.(jobs := r.jobs[id := job.(state := Waiting)], waiting := r.waiting[id := job.priority]), Idle)
    ensures InitialProc(Submit("", job, later)) == Idle
  {
    var stored := job.(state := Waiting);
    var r1 := r.(jobs := r.jobs[id := stored]);
    AloneStep(r, SubmitSet(id, stored, later), id, false, 2, r1, SubmitAdd(id, stored, later));
    var (r2, pc2) := Exec(r1, SubmitAdd(id, stored, later), Nothing);
    AloneStep(r1, SubmitAdd(id, stored, later), id, false, 1, r2, pc2);
  }

  /** A Clean takes one job out of the set it was asked for, deletes its record, and has one fewer to go. */
  lemma CleanTakesOne(r: Redis, id: Id, failures: bool, count: nat)
    requires 0 < count && id in if failures then r.failed else r.completed
    ensures Alone(r, PopClean(failures, count), id, false, 2) ==
            (if failures then r.(failed := r.failed - {id}, jobs := r.jobs - {id})
             else r.(completed := r.completed - {id}, jobs := r.jobs - {id}), PopClean(failures, count - 1))
    ensures Alone(r, PopClean(failures, 0), id, false, 1) == (r, Idle)
  {
    var r1 := if failures then r.(failed := r.failed - {id}) else r.(completed := r.completed - {id});
    AloneStep(r, PopClean(failures, count), id, false, 2, r1, DelClean(id, failures, count - 1));
    AloneStep(r1, DelClean(id, failures, count - 1), id, false, 1, r1.(jobs := r1.jobs - {id}),
              PopClean(failures, count - 1));
    AloneStep(r, PopClean(failures, 0), id, false, 1, r, Idle);
  }

  /** A due job goes back to `waiting` under its own priority, and its record says so. */
  lemma DueJobReturns(r: Redis, id: Id)
    requires id in r.delayed && id in r.jobs
    ensures var job := r.jobs[id].(state := Waiting);
            Alone(r, RangeDelayed, id, false, 6) ==
            (r.(delayed := r.delayed - {id}, jobs := r.jobs[id := job], waiting := r.waiting[id := job.priority]), Idle)
  {
    var job := r.jobs[id].(state := Waiting);
    assert [id][1..] == [];
    AloneStep(r, RangeDelayed, id, false, 6, r, RemDelayed([id]));
    var r2 := r.(delayed := r.delayed - {id});
    AloneStep(r, RemDelayed([id]), id, false, 5, r2, LoadDue(id, []));
    AloneStep(r2, LoadDue(id, []), id, false, 4, r2, SaveDue(id, job, []));
    var r4 := r2.(jobs := r2.jobs[id := job]);
    AloneStep(r2, SaveDue(id, job, []), id, false, 3, r4, AddDue(id, job, []));
    var r5 := r4.(waiting := r4.waiting[id := job.priority]);
    AloneStep(r4, AddDue(id, job, []), id, false, 2, r5, RemDelayed([]));
    AloneStep(r5, RemDelayed([]), id, false, 1, r5, Idle);
  }

  /** No waiting job goes before this one. */
  predicate IsNext(r: Redis, id: Id) {
    id in r.waiting && forall k :: k in r.waiting ==> r.waiting[id] <= r.waiting[k]
  }

  lemma WorkerStarts(r: Redis, id: Id, ok: bool, job: Job)
    requires IsNext(r, id) && id in r.jobs && job == r.jobs[id].(state := Active, attempts := r.jobs[id].attempts + 1)
    ensures Alone(r, PopWaiting, id, ok, 5) ==
            (r.(waiting := r.waiting - {id}, active := r.active + {id}, locks := r.locks + {id},
                jobs := r.jobs[id := job]),
             InHandler(id, job))
  {
    var r1 := r.(waiting := r.waiting - {id});
    AloneStep(r, PopWaiting, id, ok, 5, r1, AddActive(id));
    var r2 := r1.(active := r.active + {id});
    AloneStep(r1, AddActive(id), id, ok, 4, r2, SetLock(id));
    var r3 := r2.(locks := r.locks + {id});
    AloneStep(r2, SetLock(id), id, ok, 3, r3, LoadJob(id));
    AloneStep(r3, LoadJob(id), id, ok, 2, r3, SaveActive(id, job));
    var r5 := r3.(jobs := r.jobs[id := job]);
    AloneStep(r3, SaveActive(id, job), id, ok, 1, r5, InHandler(id, job));
  }

  /** Where a job ends up after its handler: completed, delayed for a retry while attempts last, or failed. */
  function Placed(r: Redis, id: Id, job: Job, ok: bool): Redis {
    if ok then r.(completed := r.completed + {id}, jobs := r.jobs[id := job.(state := Completed)])
    else if job.attempts <= job.maxRetries then
      r.(delayed := r.delayed + {id}, jobs := r.jobs[id := job.(state := Delayed)])
    else r.(failed := r.failed + {id}, jobs := r.jobs[id := job.(state := Failed)])
  }

  lemma WorkerEnds(r: Redis, id: Id, ok: bool, job: Job)
    ensures Alone(r, InHandler(id, job), id, ok, 5) ==
            (Placed(r.(active := r.active - {id}, locks := r.locks - {id}), id, job, ok), Idle)
  {
    AloneStep(r, InHandler(id, job), id, ok, 5, r, DropLock(id, job, ok));
    var r2 := r.(locks := r.locks - {id});
    AloneStep(r, DropLock(id, job, ok), id, ok, 4, r2, RemActive(id, job, ok));
    var r3 := r2.(active := r.active - {id});
    var settled := Settled(job, ok);
    AloneStep(r2, RemActive(id, job, ok), id, ok, 3, r3, Settle(id, settled));
    SettleSteps(r3, id, ok, job);
  }

  lemma SettleSteps(r: Redis, id: Id, ok: bool, job: Job)
    ensures Alone(r, Settle(id, Settled(job, ok)), id, ok, 2) == (Placed(r, id, job, ok), Idle)
  {
    var settled := Settled(job, ok);
    var (r1, pc1) := Exec(r, Settle(id, settled), Nothing);
    AloneStep(r, Settle(id, settled), id, ok, 2, r1, pc1);
    AloneStep(r1, pc1, id, ok, 1, r1.(jobs := r1.jobs[id := settled]), Idle);
  }

  /** A worker that is not disturbed takes the next job exactly once and leaves nothing behind but its outcome. */
  lemma WorkerSettles(r: Redis, id: Id, ok: bool)
    requires IsNext(r, id) && id in r.jobs && id !in r.active && id !in r.locks
    ensures var job := r.jobs[id].(attempts := r.jobs[id].attempts + 1);
            Alone(r, PopWaiting, id, ok, 10) == (Placed(r.(waiting := r.waiting - {id}), id, job, ok), Idle)
  {
    var job := r.jobs[id].(state := Active, attempts := r.jobs[id].attempts + 1);
    AloneSplit(r, PopWaiting, id, ok, 5, 5);
    WorkerStarts(r, id, ok, job);
    var r5 := r.(waiting := r.waiting - {id}, active := r.active + {id}, locks := r.locks + {id},
                 jobs := r.jobs[id := job]);
    WorkerEnds(r5, id, ok, job);
    assert r5.active - {id} == r.active && r5.locks - {id} == r.locks;
    SaveTwice(r.jobs, id, job, Settled(job, ok));
  }

  lemma SaveTwice(jobs: map<Id, Job>, id: Id, a: Job, b: Job)
    ensures jobs[id := a][id := b] == jobs[id := b]
  {
  }

  /** One failed run of the job and, once it is due again, its return. */
  function FailAndReturn(r: Redis, id: Id): Redis {
    Alone(Alone(r, PopWaiting, id, false, 10).0, RangeDelayed, id, false, 6).0
  }

  function Rounds(r: Redis, id: Id, n: nat): Redis
    decreases n
  {
    if n == 0 then r else Rounds(FailAndReturn(r, id), id, n - 1)
  }

  /** This job is the next to run, with so many attempts behind it; others may wait too. */
  ghost predicate Ready(r: Redis, id: Id, attempts: int, maxRetries: int) {
    && IsNext(r, id) && id in r.jobs && r.waiting[id] == r.jobs[id].priority
    && id !in r.active && id !in r.locks
    && r.jobs[id].attempts == attempts && r.jobs[id].maxRetries == maxRetries
  }

  lemma RoundCounts(r: Redis, id: Id, a: int, m: int)
    requires Ready(r, id, a, m) && a < m
    ensures var r' := FailAndReturn(r, id); Ready(r', id, a + 1, m) && r'.failed == r.failed
  {
    WorkerSettles(r, id, false);
    DueJobReturns(Alone(r, PopWaiting, id, false, 10).0, id);
  }

  lemma {:induction false} RoundsCount(r: Redis, id: Id, a: int, m: int, n: nat)
    requires Ready(r, id, a, m) && a + n <= m
    ensures var r' := Rounds(r, id, n); Ready(r', id, a + n, m) && r'.failed == r.failed
    decreases n
  {
    if n > 0 {
      RoundCounts(r, id, a, m);
      RoundsCount(FailAndReturn(r, id), id, a + 1, m, n - 1);
    }
  }

  /**
   A job whose handler always fails is retried exactly as often as it asks for: after each of its first retries it
   comes back, and the run after the last one files it under `failed`, with one attempt more than the retries allowed.
   */
  lemma RetriesThenFails(r: Redis, id: Id, a: int, m: int)
    requires Ready(r, id, a, m) && a <= m
    ensures forall n: nat :: n <= m - a ==> Ready(Rounds(r, id, n), id, a + n, m)
    ensures var (r', pc') := Alone(Rounds(r, id, m - a), PopWaiting, id, false, 10);
            && pc' == Idle && r'.failed == r.failed + {id} && id !in r'.waiting
            && id in r'.jobs && r'.jobs[id].state == Failed && r'.jobs[id].attempts == m + 1
  {
    forall n: nat | n <= m - a ensures Ready(Rounds(r, id, n), id, a + n, m) {
      RoundsCount(r, id, a, m, n);
    }
    RoundsCount(r, id, a, m, m - a);
    WorkerSettles(Rounds(r, id, m - a), id, false);
  }

  // ---------- Undisturbed processes in the system ----------

  lemma RunFirst(y: System, step: Step, rest: seq<Step>)
    ensures Run(y, [step] + rest) == Run(Next(y, step), rest)
  {
    assert ([step] + rest)[1..] == rest;
  }

  lemma {:induction false} RunConcat(y: System, a: seq<Step>, b: seq<Step>)
    ensures Run(y, a + b) == Run(Run(y, a), b)
    decreases |a|
  {
    if a == [] {
      assert a + b == b;
    } else {
      assert (a + b)[1..] == a[1..] + b;
      RunConcat(Next(y, a[0]), a[1..], b);
    }
  }

  lemma {:induction false} RunThree(y: System, a: Step, b: Step, c: Step)
    ensures Run(y, [a, b, c]) == Next(Next(Next(y, a), b), c)
  {
    RunFirst(y, a, [b] + ([c] + []));
    RunFirst(Next(y, a), b, [c] + []);
    RunFirst(Next(Next(y, a), b), c, []);
    assert [a, b, c] == [a] + ([b] + ([c] + []));
  }

  /** Neither a submitter nor a cleaner. */
  predicate Serves(pc: Proc) {
    !pc.SubmitSet? && !pc.SubmitAdd? && !pc.PopClean? && !pc.DelClean?
  }

  function Turns(r: Redis, pc: Proc, p: nat, id: Id, ok: bool, n: nat): seq<Step>
    decreases n, r
  {
    if n == 0 then [] else
      var (r', pc') := Exec(r, pc, ChoiceFor(pc, id, ok));
      [Command(p, ChoiceFor(pc, id, ok))] + Turns(r', pc', p, id, ok, n - 1)
  }

  lemma ServeStep(y: System, p: nat, ch: Choice, r: Redis, pc: Proc)
    requires p in y.procs && Serves(y.procs[p]) && Exec(y.redis, y.procs[p], ch) == (r, pc)
    ensures Next(y, Command(p, ch)) == y.(redis := r, procs := y.procs[p := pc]) && Serves(pc)
  {
  }

  /** The results about undisturbed processes are results about runs in which that process takes the next `n` steps. */
  lemma {:induction false} TurnsRun(y: System, p: nat, id: Id, ok: bool, n: nat)
    requires p in y.procs && Serves(y.procs[p])
    ensures var (r', pc') := Alone(y.redis, y.procs[p], id, ok, n);
            Run(y, Turns(y.redis, y.procs[p], p, id, ok, n)) == y.(redis := r', procs := y.procs[p := pc'])
    decreases n
  {
    var pc := y.procs[p];
    if n == 0 {
      assert y.procs[p := pc] == y.procs;
    } else {
      var step := Command(p, ChoiceFor(pc, id, ok));
      var (r1, pc1) := Exec(y.redis, pc, ChoiceFor(pc, id, ok));
      var y1 := y.(redis := r1, procs := y.procs[p := pc1]);
      ServeStep(y, p, ChoiceFor(pc, id, ok), r1, pc1);
      RunFirst(y, step, Turns(r1, pc1, p, id, ok, n - 1));
      TurnsRun(y1, p, id, ok, n - 1);
      ProcTwice(y.procs, p, pc1, Alone(r1, pc1, id, ok, n - 1).1);
    }
  }

  lemma ProcTwice(procs: map<nat, Proc>, p: nat, a: Proc, b: Proc)
    ensures procs[p := a][p := b] == procs[p := b]
  {
  }

  // ---------- What processes see before they take a job ----------

  lemma {:induction false} RunLast(steps: seq<Step>)
    requires steps != []
    ensures Run(Initial(), steps) == Next(Run(Initial(), steps[..|steps| - 1]), steps[|steps| - 1])
  {
    var n := |steps| - 1;
    var y := Run(Initial(), steps[..n]);
    assert steps == steps[..n] + [steps[n]];
    RunConcat(Initial(), steps[..n], [steps[n]]);
    assert [steps[n]] == [steps[n]] + [];
    RunFirst(y, steps[n], []);
  }

  /** The process is a checker that has picked this job out and not put it back yet. */
  predicate Requeues(pc: Proc, id: Id) {
    (pc.LoadStalled? || pc.RemStalled? || pc.SaveStalled? || pc.AddStalled?) && pc.id == id
  }

  /** A checker looks at this job's lock, and there is none. */
  predicate FindsUnlocked(y: System, step: Step, p: nat, id: Id) {
    && step.Command? && step.p == p && p in y.procs
    && y.procs[p].TestLock? && y.procs[p].rest != [] && y.procs[p].rest[0] == id && id !in y.redis.locks
  }

  lemma RequeueStarts(y: System, step: Step, p: nat, id: Id)
    requires p in Next(y, step).procs && Requeues(Next(y, step).procs[p], id)
    ensures (p in y.procs && Requeues(y.procs[p], id)) || FindsUnlocked(y, step, p, id)
  {
  }

  /** A worker takes this job from the waiting jobs, and none of them has a lower score. */
  predicate PopsNext(y: System, step: Step, p: nat, id: Id) {
    step.Command? && step.p == p && p in y.procs && y.procs[p].PopWaiting? && IsNext(y.redis, id)
  }

  predicate Runs(pc: Proc, id: Id) {
    (pc.AddActive? || pc.SetLock? || pc.LoadJob? || pc.SaveActive? || pc.InHandler?) && pc.id == id
  }

  lemma RunStarts(y: System, step: Step, p: nat, id: Id)
    requires p in Next(y, step).procs && Runs(Next(y, step).procs[p], id)
    ensures (p in y.procs && Runs(y.procs[p], id)) || PopsNext(y, step, p, id)
  {
  }

  /**
   Over every run: a checker puts back only jobs whose lock it found missing when it looked, so a job whose worker holds
   the lock at that moment is left alone.
   */
  lemma {:induction false} RequeuedOnlyUnlocked(steps: seq<Step>, p: nat, id: Id)
    requires var y := Run(Initial(), steps); p in y.procs && Requeues(y.procs[p], id)
    ensures exists k :: 0 <= k < |steps| && FindsUnlocked(Run(Initial(), steps[..k]), steps[k], p, id)
    decreases |steps|
  {
    var n := |steps| - 1;
    RunLast(steps);
    var before := Run(Initial(), steps[..n]);
    RequeueStarts(before, steps[n], p, id);
    if FindsUnlocked(before, steps[n], p, id) {
      assert FindsUnlocked(Run(Initial(), steps[..n]), steps[n], p, id);
    } else {
      RequeuedOnlyUnlocked(steps[..n], p, id);
      var k :| 0 <= k < n && FindsUnlocked(Run(Initial(), steps[..n][..k]), steps[..n][k], p, id);
      assert steps[..n][..k] == steps[..k];
    }
  }

  /** Over every run: a worker runs only jobs that had the lowest score of all waiting jobs when it took them. */
  lemma {:induction false} RunOnlyNext(steps: seq<Step>, p: nat, id: Id)
    requires var y := Run(Initial(), steps); p in y.procs && Runs(y.procs[p], id)
    ensures exists k :: 0 <= k < |steps| && PopsNext(Run(Initial(), steps[..k]), steps[k], p, id)
    decreases |steps|
  {
    var n := |steps| - 1;
    RunLast(steps);
    var before := Run(Initial(), steps[..n]);
    RunStarts(before, steps[n], p, id);
    if PopsNext(before, steps[n], p, id) {
      assert PopsNext(Run(Initial(), steps[..n]), steps[n], p, id);
    } else {
      RunOnlyNext(steps[..n], p, id);
      var k :| 0 <= k < n && PopsNext(Run(Initial(), steps[..n][..k]), steps[..n][k], p, id);
      assert steps[..n][..k] == steps[..k];
    }
  }

  // ---------- Runs that lose a job ----------

  /** One queued job and nothing else. */
  function OneWaiting(id: Id, job: Job): System {
    System(Redis(map[id := job.priority], {}, {}, {}, {}, map[id := job], {}), map[0 := Idle], {id}, {}, {id})
  }

  lemma SubmitOne(id: Id, job: Job)
    requires id != "" && job.state == Waiting
    ensures Run(Initial(), [Call(0, Submit(id, job, false)), Command(0, Nothing), Command(0, Nothing)]) ==
            OneWaiting(id, job)
  {
    var a := Call(0, Submit(id, job, false));
    RunThree(Initial(), a, Command(0, Nothing), Command(0, Nothing));
    var y1 := Next(Initial(), a);
    assert y1.procs == map[0 := SubmitSet(id, job, false)];
    var y2 := Next(y1, Command(0, Nothing));
    assert y2.procs == map[0 := SubmitAdd(id, job, false)] && y2.redis.jobs == map[id := job];
    var y3 := Next(y2, Command(0, Nothing));
    assert y3.procs == map[0 := Idle] && y3.redis.waiting == map[id := job.priority];
  }

  /**
   The window is real: a worker that dies between ZPOPMIN and SADD takes its job with it, although nothing cleaned it.
   */
  lemma PopThenCrashLoses(id: Id, job: Job)
    requires id != "" && job.state == Waiting
    ensures var y := Run(Initial(), [Call(0, Submit(id, job, false)), Command(0, Nothing), Command(0, Nothing)] +
                                    [Call(1, Work), Command(1, Member(id)), Crash(1)]);
            id in y.tracked && id in y.lost && !Located(y, id)
  {
    var y := OneWaiting(id, job);
    RunConcat(Initial(), [Call(0, Submit(id, job, false)), Command(0, Nothing), Command(0, Nothing)],
              [Call(1, Work), Command(1, Member(id)), Crash(1)]);
    SubmitOne(id, job);
    RunThree(y, Call(1, Work), Command(1, Member(id)), Crash(1));
    var y1 := Next(y, Call(1, Work));
    assert y1.procs == map[0 := Idle, 1 := PopWaiting] && y1.redis == y.redis;
    var y2 := Next(y1, Command(1, Member(id)));
    assert y2.procs == map[0 := Idle, 1 := AddActive(id)] && y2.redis.waiting == map[];
    assert SoleHolder(y2, 1, id);
    assert Next(y2, Crash(1)).procs == map[0 := Idle];
  }

  /** Two processes, at these points. */
  predicate Two(y: System, a: Proc, b: Proc) {
    y.procs.Keys == {0, 1} && y.procs[0] == a && y.procs[1] == b
  }

  /** One completed job, and two processes that have nothing more to do. */
  predicate OneCompleted(y: System, id: Id) {
    && y.redis == Redis(map[], {}, {}, {id}, {}, y.redis.jobs, {}) && y.redis.jobs.Keys == {id}
    && Two(y, Idle, Idle) && y.lost == {}
  }

  lemma CompleteOne(id: Id, job: Job) returns (steps: seq<Step>)
    requires id != "" && job.state == Waiting
    ensures OneCompleted(Run(Initial(), steps), id) && NoCrash(steps)
  {
    var submit := [Call(0, Submit(id, job, false)), Command(0, Nothing), Command(0, Nothing)];
    SubmitOne(id, job);
    var y := OneWaiting(id, job);
    var y1 := Next(y, Call(1, Work));
    var turns := Turns(y1.redis, PopWaiting, 1, id, true, 10);
    TurnsRun(y1, 1, id, true, 10);
    WorkerSettles(y1.redis, id, true);
    assert y1.redis.waiting - {id} == map[];
    steps := submit + ([Call(1, Work)] + turns);
    RunConcat(Initial(), submit, [Call(1, Work)] + turns);
    RunFirst(y, Call(1, Work), turns);
    TurnsDoNotCrash(y1.redis, PopWaiting, 1, id, true, 10);
  }

  ghost predicate NoCrash(steps: seq<Step>) {
    forall i :: 0 <= i < |steps| ==> !steps[i].Crash?
  }

  lemma {:induction false} TurnsDoNotCrash(r: Redis, pc: Proc, p: nat, id: Id, ok: bool, n: nat)
    ensures NoCrash(Turns(r, pc, p, id, ok, n))
    decreases n
  {
    if n > 0 {
      var (r', pc') := Exec(r, pc, ChoiceFor(pc, id, ok));
      TurnsDoNotCrash(r', pc', p, id, ok, n - 1);
    }
  }

  /**
   A Clean pops the completed job and has yet to delete its record; meanwhile its ID is submitted again, with a delay.
   */
  lemma SubmitDuringClean(y: System, id: Id, job: Job)
    requires OneCompleted(y, id) && id != "" && job.state == Waiting
    ensures var z := Run(y, [Call(1, Clean(false, 1)), Command(1, Member(id)), Call(0, Submit(id, job, true))]);
            && z.redis == Redis(map[], {}, {}, {}, {}, y.redis.jobs, {})
            && Two(z, SubmitSet(id, job, true), DelClean(id, false, 0)) && z.lost == {}
  {
    RunThree(y, Call(1, Clean(false, 1)), Command(1, Member(id)), Call(0, Submit(id, job, true)));
    var y2 := Next(Next(y, Call(1, Clean(false, 1))), Command(1, Member(id)));
    assert y2.redis.completed == {};
  }

  lemma SubmitEnds(y: System, id: Id, job: Job, b: Proc)
    requires Two(y, SubmitSet(id, job, true), b) && y.lost == {} && y.redis.delayed == {}
    ensures var z := Next(Next(y, Command(0, Nothing)), Command(0, Nothing));
            && z.redis == y.redis.(delayed := {id}, jobs := y.redis.jobs[id := job])
            && Two(z, Idle, b) && id in z.tracked && z.lost == {}
  {
    var y1 := Next(y, Command(0, Nothing));
    assert Two(y1, SubmitAdd(id, job, true), b);
    assert {} + {id} == {id};
  }

  /** The Submit ends, and then the Clean deletes the record that it has just written. */
  lemma WipeAfterSubmit(y: System, id: Id, job: Job)
    requires y.redis == Redis(map[], {}, {}, {}, {}, y.redis.jobs, {}) && y.redis.jobs.Keys == {id}
    requires Two(y, SubmitSet(id, job, true), DelClean(id, false, 0)) && y.lost == {}
    ensures var z := Run(y, [Command(0, Nothing), Command(0, Nothing), Command(1, Nothing)]);
            && z.redis == Redis(map[], {id}, {}, {}, {}, map[], {})
            && Two(z, Idle, PopClean(false, 0)) && id in z.tracked && z.lost == {}
  {
    RunThree(y, Command(0, Nothing), Command(0, Nothing), Command(1, Nothing));
    SubmitEnds(y, id, job, DelClean(id, false, 0));
    assert y.redis.jobs[id := job] - {id} == map[];
  }

  /** A due job without a record leaves `delayed` for nowhere. */
  lemma DueJobDropped(r: Redis, id: Id)
    requires id in r.delayed && id !in r.jobs
    ensures Alone(r, RangeDelayed, id, false, 3) == (r.(delayed := r.delayed - {id}), RemDelayed([]))
  {
    assert [id][1..] == [];
    AloneStep(r, RangeDelayed, id, false, 3, r, RemDelayed([id]));
    var r' := r.(delayed := r.delayed - {id});
    AloneStep(r, RemDelayed([id]), id, false, 2, r', LoadDue(id, []));
    AloneStep(r', LoadDue(id, []), id, false, 1, r', RemDelayed([]));
  }

  /** The scheduler takes the due job out of `delayed`, finds no record, and drops it. */
  lemma SchedulerDrops(y: System, id: Id)
    requires y.redis == Redis(map[], {id}, {}, {}, {}, map[], {}) && Two(y, Idle, PopClean(false, 0))
    ensures var z := Run(y, [Call(0, Schedule)] + Turns(y.redis, RangeDelayed, 0, id, false, 3));
            !Located(z, id) && z.tracked == y.tracked && z.lost == y.lost
  {
    var y1 := Next(y, Call(0, Schedule));
    RunFirst(y, Call(0, Schedule), Turns(y.redis, RangeDelayed, 0, id, false, 3));
    assert y1 == y.(procs := y.procs[0 := RangeDelayed]);
    TurnsRun(y1, 0, id, false, 3);
    DueJobDropped(y.redis, id);
  }

  /**
   A job can be lost although nothing crashed: it is completed and a Clean pops it; its ID is submitted again with a
   delay; the Clean deletes the new record; and the scheduler drops the job that was accepted.
   */
  lemma ResubmitDuringCleanLoses(id: Id, job: Job) returns (steps: seq<Step>)
    requires id != "" && job.state == Waiting
    ensures NoCrash(steps)
    ensures var y := Run(Initial(), steps); id in y.tracked && y.lost == {} && !Located(y, id)
  {
    var first := CompleteOne(id, job);
    var y1 := Run(Initial(), first);
    var second := [Call(1, Clean(false, 1)), Command(1, Member(id)), Call(0, Submit(id, job, true))];
    SubmitDuringClean(y1, id, job);
    var y2 := Run(y1, second);
    var third := [Command(0, Nothing), Command(0, Nothing), Command(1, Nothing)];
    WipeAfterSubmit(y2, id, job);
    var y3 := Run(y2, third);
    var fourth := [Call(0, Schedule)] + Turns(y3.redis, RangeDelayed, 0, id, false, 3);
    SchedulerDrops(y3, id);
    TurnsDoNotCrash(y3.redis, RangeDelayed, 0, id, false, 3);
    steps := first + (second + (third + fourth));
    RunConcat(Initial(), first, second + (third + fourth));
    RunConcat(y1, second, third + fourth);
    RunConcat(y2, third, fourth);
  }
}
