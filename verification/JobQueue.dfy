/**
 The Redis job queue, one Redis command at a time. Any number of submitters, workers, delay schedulers, stalled-job
 checkers and cleaners interleave freely; a process may crash between any two commands, and a visibility lock may
 expire at any moment.
 */
module JobQueue {
  import opened Words

  type Id = string

  datatype JobState = Waiting | Delayed | Active | Completed | Failed
  datatype Job = Job(priority: int, maxRetries: int, attempts: int, state: JobState)

  /**
   The keys of one queue. `waiting` is a sorted set scored by priority; scores of `delayed` are real time and left
   abstract.
   */
  datatype Redis = Redis(
    waiting: map<Id, int>, delayed: set<Id>, active: set<Id>, completed: set<Id>, failed: set<Id>,
    jobs: map<Id, Job>, locks: set<Id>)

  datatype Operation =
    | Submit(id: Id, job: Job, later: bool)
    | Work
    | Schedule
    | Check
    | Clean(failures: bool, count: nat)

  /** The next command of a process, with what it remembers. `rest` is what remains of a list it is iterating over. */
  datatype Proc =
    | Idle
    // Submit: a pipeline of two commands
    | SubmitSet(id: Id, job: Job, later: bool)
    | SubmitAdd(id: Id, job: Job, later: bool)
    // dequeue and processJob
    | PopWaiting
    | AddActive(id: Id)
    | SetLock(id: Id)
    | LoadJob(id: Id)
    | SaveActive(id: Id, job: Job)
    | InHandler(id: Id, job: Job)
    | DropLock(id: Id, job: Job, ok: bool)
    | RemActive(id: Id, job: Job, ok: bool)
    | Settle(id: Id, job: Job)
    | SaveSettled(id: Id, job: Job)
    // delayScheduler
    | RangeDelayed
    | RemDelayed(rest: seq<Id>)
    | LoadDue(id: Id, rest: seq<Id>)
    | SaveDue(id: Id, job: Job, rest: seq<Id>)
    | AddDue(id: Id, job: Job, rest: seq<Id>)
    // stalledChecker
    | ListActive
    | TestLock(rest: seq<Id>)
    | LoadStalled(id: Id, rest: seq<Id>)
    | RemStalled(id: Id, job: Job, rest: seq<Id>)
    | SaveStalled(id: Id, job: Job, rest: seq<Id>)
    | AddStalled(id: Id, job: Job, rest: seq<Id>)
    // Clean
    | PopClean(failures: bool, count: nat)
    | DelClean(id: Id, failures: bool, count: nat)

  /**
   What the environment decides for a command: which member a pop returns, which list a scan returns, how a handler
   ends.
   */
  datatype Choice = Nothing | Member(id: Id) | Members(ids: seq<Id>) | Handler(ok: bool)

  function InitialProc(op: Operation): Proc {
    match op
    case Submit(id, job, later) => if id == "" then Idle else SubmitSet(id, job.(state := Waiting), later)
    case Work => PopWaiting
    case Schedule => RangeDelayed
    case Check => ListActive
    case Clean(f, n) => if n == 0 then Idle else PopClean(f, n)
  }

  /** The state a job is given once its handler has ended; attempts were counted when it started. */
  function Settled(job: Job, ok: bool): Job {
    if ok then job.(state := Completed)
    else if job.attempts <= job.maxRetries then job.(state := Delayed)
    else job.(state := Failed)
  }

  /** One Redis command of one process. A choice the command could not return leaves everything unchanged. */
  function Exec(r: Redis, pc: Proc, ch: Choice): (Redis, Proc) {
    match pc
    case Idle => (r, Idle)
    case SubmitSet(id, job, later) => (r.(jobs := r.jobs[id := job]), SubmitAdd(id, job, later))
    case SubmitAdd(id, job, later) =>
      (if later then r.(delayed := r.delayed + {id}) else r.(waiting := r.waiting[id := job.priority]), Idle)

    case PopWaiting =>
      if ch.Member? && ch.id in r.waiting && forall k :: k in r.waiting ==> r.waiting[ch.id] <= r.waiting[k] then
        (r.(waiting := r.waiting - {ch.id}), AddActive(ch.id))
      else if r.waiting == map[] then (r, Idle) else (r, pc)
    case AddActive(id) => (r.(active := r.active + {id}), SetLock(id))
    case SetLock(id) => (r.(locks := r.locks + {id}), LoadJob(id))
    case LoadJob(id) =>
      if id in r.jobs
      then (r, SaveActive(id, r.jobs[id].(state := Active, attempts := r.jobs[id].attempts + 1)))
      else (r, Idle)
    case SaveActive(id, job) => (r.(jobs := r.jobs[id := job]), InHandler(id, job))
    case InHandler(id, job) => if ch.Handler? then (r, DropLock(id, job, ch.ok)) else (r, pc)
    case DropLock(id, job, ok) => (r.(locks := r.locks - {id}), RemActive(id, job, ok))
    case RemActive(id, job, ok) => (r.(active := r.active - {id}), Settle(id, Settled(job, ok)))
    case Settle(id, job) =>
      (match job.state
       case Completed => r.(completed := r.completed + {id})
       case Delayed => r.(delayed := r.delayed + {id})
       case _ => r.(failed := r.failed + {id}),
       SaveSettled(id, job))
    case SaveSettled(id, job) => (r.(jobs := r.jobs[id := job]), Idle)

    case RangeDelayed =>
      if ch.Members? && forall k :: k in ch.ids ==> k in r.delayed
      then (r, if ch.ids == [] then Idle else RemDelayed(ch.ids)) else (r, pc)
    case RemDelayed(rest) =>
      if rest == [] then (r, Idle) else (r.(delayed := r.delayed - {rest[0]}), LoadDue(rest[0], rest[1..]))
    case LoadDue(id, rest) =>
      if id in r.jobs then (r, SaveDue(id, r.jobs[id].(state := Waiting), rest)) else (r, RemDelayed(rest))
    case SaveDue(id, job, rest) => (r.(jobs := r.jobs[id := job]), AddDue(id, job, rest))
    case AddDue(id, job, rest) => (r.(waiting := r.waiting[id := job.priority]), RemDelayed(rest))

    case ListActive =>
      if ch.Members? && (forall k :: k in ch.ids ==> k in r.active) && (forall k :: k in r.active ==> k in ch.ids)
      then (r, if ch.ids == [] then Idle else TestLock(ch.ids)) else (r, pc)
    case TestLock(rest) =>
      if rest == [] then (r, Idle)
      else if rest[0] in r.locks then (r, TestLock(rest[1..]))
      else (r, LoadStalled(rest[0], rest[1..]))
    case LoadStalled(id, rest) =>
      if id in r.jobs then (r, RemStalled(id, r.jobs[id].(state := Waiting), rest)) else (r, TestLock(rest))
    case RemStalled(id, job, rest) => (r.(active := r.active - {id}), SaveStalled(id, job, rest))
    case SaveStalled(id, job, rest) => (r.(jobs := r.jobs[id := job]), AddStalled(id, job, rest))
    case AddStalled(id, job, rest) => (r.(waiting := r.waiting[id := job.priority]), TestLock(rest))

    case PopClean(f, n) =>
      if n == 0 then (r, Idle)
      else if ch.Member? && ch.id in (if f then r.failed else r.completed) then
        (if f then r.(failed := r.failed - {ch.id}) else r.(completed := r.completed - {ch.id}),
         DelClean(ch.id, f, n - 1))
      else if (if f then r.failed else r.completed) == {} then (r, Idle) else (r, pc)
    case DelClean(id, f, n) => (r.(jobs := r.jobs - {id}), PopClean(f, n))
  }

  // ---------- Whole system ----------

  /**
   `tracked` holds the IDs that a Submit has queued and that no Clean has popped since; `lost` those whose only holder
   crashed since they were last queued; `known` every ID ever queued.
   */
  datatype System = System(redis: Redis, procs: map<nat, Proc>, tracked: set<Id>, lost: set<Id>, known: set<Id>)

  datatype Step = Call(p: nat, op: Operation) | Command(p: nat, choice: Choice) | Crash(p: nat) | LockExpires(id: Id)

  function Initial(): System {
    System(Redis(map[], {}, {}, {}, {}, map[], {}), map[], {}, {}, {})
  }

  /** The job a process has taken out of one set and not yet put into the next. */
  function Holding(pc: Proc): Option<Id> {
    match pc
    case AddActive(id) => Some(id)
    case Settle(id, _) => Some(id)
    case LoadDue(id, _) => Some(id)
    case SaveDue(id, _, _) => Some(id)
    case AddDue(id, _, _) => Some(id)
    case SaveStalled(id, _, _) => Some(id)
    case AddStalled(id, _, _) => Some(id)
    case _ => None
  }

  function Next(y: System, step: Step): System {
    match step
    case Call(p, op) =>
      if p in y.procs && y.procs[p] != Idle then y else y.(procs := y.procs[p := InitialProc(op)])
    case Command(p, ch) =>
      if p !in y.procs then y else
        var pc := y.procs[p];
        var (r, pc') := Exec(y.redis, pc, ch);
        var y' := y.(redis := r, procs := y.procs[p := pc']);
        (match pc
         case SubmitAdd(id, _, _) => y'.(known := y.known + {id}, tracked := y.tracked + {id}, lost := y.lost - {id})
         case PopClean(_, _) => if pc'.DelClean? then y'.(tracked := y.tracked - {pc'.id}) else y'
         case _ => y')
    case Crash(p) =>
      if p !in y.procs then y else
        var held := Holding(y.procs[p]);
        y.(procs := y.procs - {p},
           lost := if held.Some? && SoleHolder(y, p, held.value) then y.lost + {held.value} else y.lost)
    case LockExpires(id) => y.(redis := y.redis.(locks := y.redis.locks - {id}))
  }

  function Run(y: System, steps: seq<Step>): System
    decreases |steps|
  {
    if steps == [] then y else Run(Next(y, steps[0]), steps[1..])
  }

  predicate InSets(r: Redis, id: Id) {
    id in r.waiting || id in r.delayed || id in r.active || id in r.completed || id in r.failed
  }

  /** A process in one of its windows: holding the only trace of a job. */
  predicate SoleHolder(y: System, p: nat, id: Id) {
    && p in y.procs && Holding(y.procs[p]) == Some(id)
    && !InSets(y.redis, id)
    && forall q :: q in y.procs && q != p ==> Holding(y.procs[q]) != Some(id)
  }

  ghost predicate Held(y: System, id: Id) {
    exists p :: p in y.procs && Holding(y.procs[p]) == Some(id)
  }

  ghost predicate Located(y: System, id: Id) {
    InSets(y.redis, id) || Held(y, id)
  }

  /** The job is kept: it is in a set or held by a live process, and its record exists. */
  ghost predicate Safe(y: System, id: Id) {
    id in y.redis.jobs && Located(y, id)
  }

  // ---------- No lost job ----------

  /**
   A command moves a job between a set and its own process, and never drops it, but for Clean and a record that is gone.
   */
  lemma ExecKeeps(r: Redis, pc: Proc, ch: Choice, id: Id)
    requires InSets(r, id) || Holding(pc) == Some(id)
    ensures var (r', pc') := Exec(r, pc, ch);
            || InSets(r', id) || Holding(pc') == Some(id)
            || (pc.PopClean? && pc'.DelClean? && pc'.id == id)
            || (pc.LoadDue? && pc.id == id && id !in r.jobs)
  {
  }

  /**
   A crash loses a located job exactly when the process was the sole holder: never inside a handler, never elsewhere.
   */
  lemma CrashLosesIff(y: System, p: nat, id: Id)
    requires p in y.procs && Located(y, id)
    ensures !Located(Next(y, Crash(p)), id) <==> SoleHolder(y, p, id)
    ensures y.procs[p].InHandler? ==> Located(Next(y, Crash(p)), id)
  {
    var y' := Next(y, Crash(p));
    if !InSets(y.redis, id) && !SoleHolder(y, p, id) {
      if q :| q in y.procs && q != p && Holding(y.procs[q]) == Some(id) {
        assert q in y'.procs;
      }
    }
  }

  /** The step is a Clean's deletion of the record of this job. */
  predicate Wipes(y: System, step: Step, id: Id) {
    step.Command? && step.p in y.procs && y.procs[step.p].DelClean? && y.procs[step.p].id == id
  }

  /** The step is a Clean's pop of this job. */
  predicate Pops(y: System, step: Step, id: Id) {
    && step.Command? && step.p in y.procs && y.procs[step.p].PopClean? && y.procs[step.p].count > 0
    && step.choice == Member(id)
    && id in if y.procs[step.p].failures then y.redis.failed else y.redis.completed
  }

  /** The finished set that a Clean pops from is the only place of this job. */
  ghost predicate OnlyFinished(y: System, failures: bool, id: Id) {
    && id !in y.redis.waiting && id !in y.redis.delayed && id !in y.redis.active
    && id !in (if failures then y.redis.completed else y.redis.failed)
    && !Held(y, id)
  }

  /** The step is a crash of the only holder of this job. */
  predicate Strands(y: System, step: Step, id: Id) {
    step.Crash? && SoleHolder(y, step.p, id)
  }

  /** The three ways to lose a job, each visible before the step is taken. */
  ghost predicate Loses(y: System, step: Step, id: Id) {
    || Wipes(y, step, id)
    || Strands(y, step, id)
    || (Pops(y, step, id) && OnlyFinished(y, y.procs[step.p].failures, id))
  }

  lemma CommandKeepsIff(y: System, p: nat, ch: Choice, id: Id)
    requires Safe(y, id) && p in y.procs
    ensures Safe(Next(y, Command(p, ch)), id) <==> !Loses(y, Command(p, ch), id)
  {
    var pc := y.procs[p];
    if pc.PopClean? {
      PopKeepsIff(y, p, ch, id);
    } else {
      CommandKeeps(y, p, ch, id);
      assert pc.DelClean? || id in Next(y, Command(p, ch)).redis.jobs;
    }
  }

  /** Whoever holds the job after a Clean's command held it before. */
  lemma PopKeepsIff(y: System, p: nat, ch: Choice, id: Id)
    requires Safe(y, id) && p in y.procs && y.procs[p].PopClean?
    ensures Safe(Next(y, Command(p, ch)), id) <==> !Loses(y, Command(p, ch), id)
  {
    var y' := Next(y, Command(p, ch));
    assert y'.procs.Keys == y.procs.Keys && Holding(y'.procs[p]) == Holding(y.procs[p]) == None;
    assert Held(y', id) <==> Held(y, id) by {
      if Held(y, id) {
        var q :| q in y.procs && Holding(y.procs[q]) == Some(id);
        assert q in y'.procs && Holding(y'.procs[q]) == Some(id);
      }
    }
  }

  /** No other command takes a job out of its last place. */
  lemma CommandKeeps(y: System, p: nat, ch: Choice, id: Id)
    requires Safe(y, id) && p in y.procs && !y.procs[p].PopClean?
    ensures Located(Next(y, Command(p, ch)), id)
  {
    var y' := Next(y, Command(p, ch));
    if InSets(y.redis, id) || Holding(y.procs[p]) == Some(id) {
      ExecKeeps(y.redis, y.procs[p], ch, id);
      assert InSets(y'.redis, id) || Holding(y'.procs[p]) == Some(id);
    } else {
      var q :| q in y.procs && Holding(y.procs[q]) == Some(id);
      assert q in y'.procs && Holding(y'.procs[q]) == Some(id);
    }
  }

  /** One step, exactly: a job that is kept stays so unless the step is one of the three. */
  lemma StepKeepsIff(y: System, step: Step, id: Id)
    requires Safe(y, id)
    ensures Safe(Next(y, step), id) <==> !Loses(y, step, id)
  {
    match step
    case Command(p, ch) => if p in y.procs { CommandKeepsIff(y, p, ch, id); }
    case Crash(p) => if p in y.procs { CrashLosesIff(y, p, id); }
    case _ =>
      if Held(y, id) {
        var q :| q in y.procs && Holding(y.procs[q]) == Some(id);
        assert q in Next(y, step).procs && Holding(Next(y, step).procs[q]) == Some(id);
      }
  }

  /** The job is kept now and after every step. */
  ghost predicate AlwaysSafe(y: System, steps: seq<Step>, id: Id)
    decreases |steps|
  {
    Safe(y, id) && (steps == [] || AlwaysSafe(Next(y, steps[0]), steps[1..], id))
  }

  ghost predicate NeverLoses(y: System, steps: seq<Step>, id: Id)
    decreases |steps|
  {
    steps == [] || (!Loses(y, steps[0], id) && NeverLoses(Next(y, steps[0]), steps[1..], id))
  }

  lemma {:induction false} AlwaysSafeIff(y: System, steps: seq<Step>, id: Id)
    requires Safe(y, id)
    ensures AlwaysSafe(y, steps, id) <==> NeverLoses(y, steps, id)
    decreases |steps|
  {
    if steps != [] {
      StepKeepsIff(y, steps[0], id);
      if !Loses(y, steps[0], id) { AlwaysSafeIff(Next(y, steps[0]), steps[1..], id); }
    }
  }

  /**
   When a submitted job is kept, exactly, from any state and over every interleaving: if and only if its record is still
   there when Submit queues it, and from then on no Clean deletes its record, no sole holder of it crashes, and no Clean
   pops it out of its last place.
   */
  lemma SubmittedIsKeptIff(y: System, p: nat, steps: seq<Step>)
    requires p in y.procs && y.procs[p].SubmitAdd?
    ensures var id := y.procs[p].id;
            var y' := Next(y, Command(p, Nothing));
            AlwaysSafe(y', steps, id) <==> id in y.redis.jobs && NeverLoses(y', steps, id)
  {
    var id := y.procs[p].id;
    var y' := Next(y, Command(p, Nothing));
    assert InSets(y'.redis, id);
    if id in y.redis.jobs { AlwaysSafeIff(y', steps, id); }
  }

  // ---------- Jobs that no Clean has taken ----------

  /** A Clean has popped this job and its deletion is still to come. */
  ghost predicate Cleaning(y: System, id: Id) {
    exists q :: q in y.procs && y.procs[q].DelClean? && y.procs[q].id == id
  }

  /** From here on no Clean pops this job and no sole holder of it crashes. */
  ghost predicate NeverTaken(y: System, steps: seq<Step>, id: Id)
    decreases |steps|
  {
    steps == [] ||
    (!Pops(y, steps[0], id) && !Strands(y, steps[0], id) && NeverTaken(Next(y, steps[0]), steps[1..], id))
  }

  ghost predicate NeverWiped(y: System, steps: seq<Step>, id: Id)
    decreases |steps|
  {
    steps == [] || (!Wipes(y, steps[0], id) && NeverWiped(Next(y, steps[0]), steps[1..], id))
  }

  lemma {:induction false} LosesMeansWiped(y: System, steps: seq<Step>, id: Id)
    requires NeverTaken(y, steps, id)
    ensures NeverLoses(y, steps, id) <==> NeverWiped(y, steps, id)
    ensures !Cleaning(y, id) ==> NeverWiped(y, steps, id)
    decreases |steps|
  {
    if steps != [] {
      CleaningStartsWithPop(y, steps[0], id);
      LosesMeansWiped(Next(y, steps[0]), steps[1..], id);
      assert Wipes(y, steps[0], id) ==> Cleaning(y, id);
    }
  }

  /**
   The same for a job that no Clean pops after its Submit: it is kept if and only if no Clean deletes its record, and
   such a deletion can only come from a Clean that had popped the ID before, in its earlier life.
   */
  lemma KeptUnlessOldCleanWipes(y: System, p: nat, steps: seq<Step>)
    requires p in y.procs && y.procs[p].SubmitAdd?
    requires NeverTaken(Next(y, Command(p, Nothing)), steps, y.procs[p].id)
    ensures var id := y.procs[p].id;
            var y' := Next(y, Command(p, Nothing));
            && (AlwaysSafe(y', steps, id) <==> id in y.redis.jobs && NeverWiped(y', steps, id))
            && (!Cleaning(y, id) ==> NeverWiped(y', steps, id))
  {
    var id := y.procs[p].id;
    var y' := Next(y, Command(p, Nothing));
    SubmittedIsKeptIff(y, p, steps);
    LosesMeansWiped(y', steps, id);
    CleaningStartsWithPop(y, Command(p, Nothing), id);
  }

  ghost predicate Submitting(y: System, id: Id) {
    exists p :: p in y.procs && (y.procs[p].SubmitSet? || y.procs[p].SubmitAdd?) && y.procs[p].id == id
  }

  /** At no moment is a job being submitted while a Clean is between its pop and its deletion of the same ID. */
  ghost predicate NeverOverlaps(y: System, steps: seq<Step>, id: Id)
    decreases |steps|
  {
    !(Cleaning(y, id) && Submitting(y, id)) && (steps == [] || NeverOverlaps(Next(y, steps[0]), steps[1..], id))
  }

  ghost predicate Inv(y: System, id: Id) {
    && (id in y.tracked && id !in y.lost ==> Safe(y, id))
    && (id in y.tracked ==> !Cleaning(y, id))
    && (forall p :: p in y.procs && y.procs[p].SubmitAdd? && y.procs[p].id == id ==> id in y.redis.jobs)
  }

  lemma NextKeepsPlace(y: System, step: Step, id: Id)
    requires Inv(y, id) && !(Cleaning(y, id) && Submitting(y, id))
    ensures var y' := Next(y, step); id in y'.tracked && id !in y'.lost ==> Safe(y', id)
  {
    var y' := Next(y, step);
    if id in y'.tracked && id !in y'.lost {
      if step.Command? && step.p in y.procs && y.procs[step.p].SubmitAdd? && y.procs[step.p].id == id {
        assert InSets(y'.redis, id);
      } else {
        StepKeepsIff(y, step, id);
      }
    }
  }

  /** A deletion is pending only where one was before, or where a Clean has just popped the job. */
  lemma CleaningStartsWithPop(y: System, step: Step, id: Id)
    ensures Cleaning(Next(y, step), id) ==> Cleaning(y, id) || Pops(y, step, id)
    ensures Pops(y, step, id) ==> id !in Next(y, step).tracked
    ensures id in Next(y, step).tracked && id !in y.tracked ==> Submitting(y, id)
  {
    var y' := Next(y, step);
    if Cleaning(y', id) && !Pops(y, step, id) {
      var q :| q in y'.procs && y'.procs[q].DelClean? && y'.procs[q].id == id;
      assert q in y.procs && y.procs[q] == y'.procs[q];
    }
  }

  lemma NextKeepsApart(y: System, step: Step, id: Id)
    requires Inv(y, id) && !(Cleaning(y, id) && Submitting(y, id))
    ensures var y' := Next(y, step);
            && (id in y'.tracked ==> !Cleaning(y', id))
            && forall p :: p in y'.procs && y'.procs[p].SubmitAdd? && y'.procs[p].id == id ==> id in y'.redis.jobs
  {
    var y' := Next(y, step);
    CleaningStartsWithPop(y, step, id);
    forall p | p in y'.procs && y'.procs[p].SubmitAdd? && y'.procs[p].id == id ensures id in y'.redis.jobs {
      assert p in y.procs && (y.procs[p].SubmitAdd? || y.procs[p].SubmitSet?) && y.procs[p].id == id;
    }
  }

  lemma {:induction false} RunKeeps(y: System, steps: seq<Step>, id: Id)
    requires Inv(y, id) && NeverOverlaps(y, steps, id)
    ensures Inv(Run(y, steps), id)
    decreases |steps|
  {
    if steps != [] {
      NextKeepsPlace(y, steps[0], id);
      NextKeepsApart(y, steps[0], id);
      RunKeeps(Next(y, steps[0]), steps[1..], id);
    }
  }

  /**
   No lost job: after any interleaving of any number of processes in which an ID is never submitted while a Clean of it
   is under way, that job, once queued and until a Clean pops it or its sole holder crashes, is in one of the five sets
   or held by a live process between a removal and the matching insertion; and its record exists.
   */
  lemma NoLostJob(steps: seq<Step>, id: Id)
    requires NeverOverlaps(Initial(), steps, id)
    ensures var y := Run(Initial(), steps); id in y.tracked && id !in y.lost ==> Safe(y, id)
  {
    RunKeeps(Initial(), steps, id);
  }

  // ---------- A first submission is always tracked ----------

  function Mentions(pc: Proc): set<Id> {
    match pc
    case Idle => {}
    case SubmitSet(_, _, _) => {}
    case SubmitAdd(_, _, _) => {}
    case PopWaiting => {}
    case RangeDelayed => {}
    case ListActive => {}
    case PopClean(_, _) => {}
    case RemDelayed(rest) => set k | k in rest
    case LoadDue(id, rest) => {id} + set k | k in rest
    case SaveDue(id, _, rest) => {id} + set k | k in rest
    case AddDue(id, _, rest) => {id} + set k | k in rest
    case TestLock(rest) => set k | k in rest
    case LoadStalled(id, rest) => {id} + set k | k in rest
    case RemStalled(id, _, rest) => {id} + set k | k in rest
    case SaveStalled(id, _, rest) => {id} + set k | k in rest
    case AddStalled(id, _, rest) => {id} + set k | k in rest
    case _ => {pc.id}
  }

  /** Nobody but a submitter has heard of an ID that was never queued, so nobody can delete its record. */
  ghost predicate FreshInv(y: System) {
    && (forall id :: InSets(y.redis, id) ==> id in y.known)
    && (forall p, id :: p in y.procs && id in Mentions(y.procs[p]) ==> id in y.known)
    && (forall p :: p in y.procs && y.procs[p].SubmitAdd? && y.procs[p].id !in y.known ==>
        y.procs[p].id in y.redis.jobs)
  }

  lemma ExecMentions(r: Redis, pc: Proc, ch: Choice, known: set<Id>)
    requires forall id :: InSets(r, id) ==> id in known
    requires forall id :: id in Mentions(pc) ==> id in known
    ensures var (r', pc') := Exec(r, pc, ch);
            && (forall id :: InSets(r', id) ==> id in known || (pc.SubmitAdd? && id == pc.id))
            && (forall id :: id in Mentions(pc') ==> id in known)
  {
  }

  lemma ExecKeepsRecords(r: Redis, pc: Proc, ch: Choice, known: set<Id>)
    requires forall id :: id in Mentions(pc) ==> id in known
    ensures var (r', pc') := Exec(r, pc, ch);
            && (forall id :: id in r.jobs && id !in known ==> id in r'.jobs)
            && (pc'.SubmitAdd? ==> pc'.id in r'.jobs)
  {
  }

  lemma NextFresh(y: System, step: Step)
    requires FreshInv(y)
    ensures FreshInv(Next(y, step))
  {
    if step.Command? && step.p in y.procs {
      ExecMentions(y.redis, y.procs[step.p], step.choice, y.known);
      ExecKeepsRecords(y.redis, y.procs[step.p], step.choice, y.known);
    }
  }

  lemma {:induction false} RunFresh(y: System, steps: seq<Step>)
    requires FreshInv(y)
    ensures FreshInv(Run(y, steps))
    decreases |steps|
  {
    if steps != [] {
      NextFresh(y, steps[0]);
      RunFresh(Next(y, steps[0]), steps[1..]);
    }
  }

  /** Whatever else is going on, a Submit of an ID never queued before ends with that ID in its set, record in place. */
  lemma FirstSubmitIsTracked(steps: seq<Step>, p: nat)
    requires var y := Run(Initial(), steps); p in y.procs && y.procs[p].SubmitAdd? && y.procs[p].id !in y.known
    ensures var pc := Run(Initial(), steps).procs[p];
            var y := Next(Run(Initial(), steps), Command(p, Nothing));
            && pc.id in y.tracked && pc.id !in y.lost && Safe(y, pc.id)
            && (if pc.later then pc.id in y.redis.delayed
                else pc.id in y.redis.waiting && y.redis.waiting[pc.id] == pc.job.priority)
  {
    RunFresh(Initial(), steps);
  }
}
