/**
 The reconnect log: a ring buffer of per-frame commands and a ring buffer of checkpoints.
 The class keeps the two arrays; the functions below speak about the unbounded history
 that the arrays forget.
 */
module CmdLog {
  import opened Words

  datatype CmdEntry<C> = CmdEntry(frame: uint64, cmds: seq<C>)
  datatype SnapEntry<S> = SnapEntry(frame: uint64, state: S)

  datatype Recovery<S, C> = Recovery(
    snapshot: S,
    snapshotFrame: uint64,
    commands: seq<CmdEntry<C>>,
    latestFrame: uint64,
    fullReset: bool)

  // ---------- What a depth-bounded log may remember of a history ----------

  /** The last `depth` elements. */
  function Retained<T>(all: seq<T>, depth: int): seq<T>
    requires 0 < depth
  {
    all[|all| - Min(|all|, depth)..]
  }

  /** The elements a ring of `depth` slots has overwritten. */
  function Evicted<T>(all: seq<T>, depth: int): seq<T>
    requires 0 < depth
  {
    all[..|all| - Min(|all|, depth)]
  }

  function After<C>(es: seq<CmdEntry<C>>, frame: uint64): seq<CmdEntry<C>> {
    if es == [] then [] else
      var rest := After(es[..|es| - 1], frame);
      if es[|es| - 1].frame > frame then rest + [es[|es| - 1]] else rest
  }

  lemma AfterStep<C>(es: seq<CmdEntry<C>>, i: nat, frame: uint64)
    requires i < |es|
    ensures After(es[..i + 1], frame) == After(es[..i], frame) + (if es[i].frame > frame then [es[i]] else [])
  {
    assert es[..i + 1][..i] == es[..i];
  }

  function UpTo<C>(es: seq<CmdEntry<C>>, frame: uint64): seq<CmdEntry<C>> {
    if es == [] then [] else
      var rest := UpTo(es[..|es| - 1], frame);
      if es[|es| - 1].frame > frame then rest else rest + [es[|es| - 1]]
  }

  ghost predicate Increasing<C>(es: seq<CmdEntry<C>>) {
    forall i, j :: 0 <= i < j < |es| ==> es[i].frame < es[j].frame
  }

  function LatestOf<C>(h: seq<CmdEntry<C>>): uint64 {
    if h == [] then 0 else h[|h| - 1].frame
  }

  /** `j` is the newest of the checkpoints with the greatest frame not above `since`; -1 when there is none. */
  ghost predicate IsLatestUpTo<S>(snaps: seq<SnapEntry<S>>, since: uint64, j: int) {
    && -1 <= j < |snaps|
    && (j == -1 ==> forall k :: 0 <= k < |snaps| ==> snaps[k].frame > since)
    && (j >= 0 ==>
          && snaps[j].frame <= since
          && forall k :: 0 <= k < |snaps| && snaps[k].frame <= since ==>
               snaps[k].frame < snaps[j].frame || (snaps[k].frame == snaps[j].frame && k <= j))
  }

  function LatestUpTo<S>(snaps: seq<SnapEntry<S>>, since: uint64): (j: int)
    ensures IsLatestUpTo(snaps, since, j)
  {
    if snaps == [] then -1 else
      var n := |snaps| - 1;
      var b := LatestUpTo(snaps[..n], since);
      assert forall k :: 0 <= k < n ==> snaps[..n][k] == snaps[k];
      if snaps[n].frame <= since && (b == -1 || snaps[n].frame >= snaps[b].frame) then n else b
  }

  /** The search from the newest down to `low` has settled on `best`, or on nothing. */
  ghost predicate BestFrom<S>(snaps: seq<SnapEntry<S>>, since: uint64, low: int, best: int) {
    && 0 <= low <= |snaps|
    && (best == -1 || low <= best < |snaps|)
    && (best == -1 ==> forall k :: low <= k < |snaps| ==> snaps[k].frame > since)
    && (best != -1 ==>
          && snaps[best].frame <= since
          && forall k :: low <= k < |snaps| && snaps[k].frame <= since ==>
               snaps[k].frame < snaps[best].frame || (snaps[k].frame == snaps[best].frame && k <= best))
  }

  lemma BestStep<S>(snaps: seq<SnapEntry<S>>, since: uint64, low: int, best: int)
    requires BestFrom(snaps, since, low, best) && low > 0
    ensures var f := snaps[low - 1].frame;
            BestFrom(snaps, since, low - 1,
                     if f <= since && (best == -1 || f > snaps[best].frame) then low - 1 else best)
  {
  }

  lemma BestIsLatest<S>(snaps: seq<SnapEntry<S>>, since: uint64, best: int)
    requires BestFrom(snaps, since, 0, best)
    ensures best == LatestUpTo(snaps, since)
  {
    var j := LatestUpTo(snaps, since);
    assert IsLatestUpTo(snaps, since, j);
  }

  function ChosenSnap<S>(snaps: seq<SnapEntry<S>>, since: uint64): SnapEntry<S>
    requires snaps != []
  {
    var j := LatestUpTo(snaps, since);
    snaps[if j == -1 then 0 else j]
  }

  /** What `Recover` answers, as a function of everything that was ever recorded. */
  function RecoverOf<S, C>(h: seq<CmdEntry<C>>, cks: seq<SnapEntry<S>>, cmdDepth: int, snapDepth: int, since: uint64)
    : Option<Recovery<S, C>>
    requires 0 < cmdDepth && 0 < snapDepth
  {
    if cks == [] then None else
      var snap := ChosenSnap(Retained(cks, snapDepth), since);
      var rc := Retained(h, cmdDepth);
      Some(Recovery(snap.state, snap.frame, After(rc, snap.frame), LatestOf(h),
                    rc != [] && rc[0].frame > Succ64(snap.frame)))
  }

  // ---------- The ring buffer ----------

  /** The slots of `buf` hold the last `count` elements of `all`, and `head` is the next slot to write. */
  ghost predicate Ring<T>(buf: seq<T>, head: int, count: int, all: seq<T>) {
    && 0 < |buf|
    && count == Min(|all|, |buf|)
    && head == |all| % |buf|
    && forall k :: |all| - count <= k < |all| ==> buf[k % |buf|] == all[k]
  }

  /** Going back `j` slots from the head, as the original computes it, lands on the slot of the j-th last element. */
  lemma BackSlot(n: int, d: int, j: int)
    requires 0 < d && 0 <= j <= d && j <= n
    ensures (n % d - j + d) % d == (n - j) % d
  {
    var q := n / d;
    var p, r := (n - j) / d, (n - j) % d;
    assert n == q * d + n % d && n - j == p * d + r;
    assert n % d - j + d == (p - q + 1) * d + r;
    ModUnique(n % d - j + d, d, p - q + 1, r);
  }

  lemma NextSlot(n: int, d: int)
    requires 0 < d && 0 <= n
    ensures (n % d + 1) % d == (n + 1) % d
  {
    var p, r := (n + 1) / d, (n + 1) % d;
    assert n % d + 1 == (p - n / d) * d + r;
    ModUnique(n % d + 1, d, p - n / d, r);
  }

  lemma OtherSlot(n: int, d: int, k: int)
    requires 0 < d && 0 <= k < n < k + d
    ensures k % d != n % d
  {
    var e := n / d - k / d;
    assert n - k == e * d + (n % d - k % d);
    assert e >= 1 ==> e * d >= d;
    assert e <= 0 ==> e * d <= 0;
  }

  lemma RingPush<T>(buf: seq<T>, head: int, count: int, all: seq<T>, x: T)
    requires Ring(buf, head, count, all)
    ensures Ring(buf[head := x], (head + 1) % |buf|, if count < |buf| then count + 1 else count, all + [x])
  {
    var d, n := |buf|, |all|;
    NextSlot(n, d);
    forall k | n + 1 - Min(n + 1, d) <= k < n + 1
      ensures buf[head := x][k % d] == (all + [x])[k]
    {
      if k < n {
        OtherSlot(n, d, k);
        assert buf[k % d] == all[k];
      }
    }
  }

  /** Reading a ring `j` slots back from its head gives the j-th last element ever written. */
  lemma RingRead<T>(buf: seq<T>, head: int, count: int, all: seq<T>, j: int)
    requires Ring(buf, head, count, all) && 1 <= j <= count
    ensures 0 <= (head - j + |buf|) % |buf| < |buf|
    ensures buf[(head - j + |buf|) % |buf|] == all[|all| - j] == Retained(all, |buf|)[count - j]
  {
    BackSlot(|all|, |buf|, j);
    assert buf[(|all| - j) % |buf|] == all[|all| - j];
  }

  // ---------- The log itself ----------

  class Log<S(0), C> {
    var cmds: array<CmdEntry<C>>
    var cmdHead: int
    var cmdCount: int
    var snaps: array<SnapEntry<S>>
    var snapHead: int
    var snapCount: int
    var latestFrame: uint64

    ghost var history: seq<CmdEntry<C>>
    ghost var checkpoints: seq<SnapEntry<S>>

    ghost predicate Valid()
      reads this, cmds, snaps
    {
      && Ring(cmds[..], cmdHead, cmdCount, history)
      && Ring(snaps[..], snapHead, snapCount, checkpoints)
      && Increasing(history)
      && latestFrame == LatestOf(history)
    }

    /** Non-positive depths leave the defaults of 512 frames and 8 checkpoints in place. */
    constructor (cmdDepth: int, snapDepth: int)
      ensures Valid() && fresh(cmds) && fresh(snaps)
      ensures history == [] && checkpoints == []
      ensures cmds.Length == (if cmdDepth > 0 then cmdDepth else 512)
      ensures snaps.Length == (if snapDepth > 0 then snapDepth else 8)
    {
      var cd := if cmdDepth > 0 then cmdDepth else 512;
      var sd := if snapDepth > 0 then snapDepth else 8;
      cmds := new CmdEntry<C>[cd](_ => CmdEntry(0, []));
      snaps := new SnapEntry<S>[sd];
      cmdHead, cmdCount, snapHead, snapCount, latestFrame := 0, 0, 0, 0, 0;
      history, checkpoints := [], [];
    }

    /** Refuses exactly the frames that do not come after everything recorded so far. */
    method Record(frame: uint64, commands: seq<C>) returns (ok: bool)
      requires Valid()
      modifies this`cmdHead, this`cmdCount, this`latestFrame, this`history, cmds
      ensures Valid()
      ensures ok == (old(history) == [] || old(LatestOf(history)) < frame)
      ensures history == if ok then old(history) + [CmdEntry(frame, commands)] else old(history)
    {
      if cmdCount > 0 && frame <= latestFrame {
        return false;
      }
      RingPush(cmds[..], cmdHead, cmdCount, history, CmdEntry(frame, commands));
      ghost var before := cmds[..];
      cmds[cmdHead] := CmdEntry(frame, commands);
      assert cmds[..] == before[cmdHead := CmdEntry(frame, commands)];
      cmdHead := (cmdHead + 1) % cmds.Length;
      if cmdCount < cmds.Length {
        cmdCount := cmdCount + 1;
      }
      latestFrame := frame;
      history := history + [CmdEntry(frame, commands)];
      ok := true;
    }

    method Checkpoint(frame: uint64, state: S)
      requires Valid()
      modifies this`snapHead, this`snapCount, this`checkpoints, snaps
      ensures Valid()
      ensures checkpoints == old(checkpoints) + [SnapEntry(frame, state)]
    {
      RingPush(snaps[..], snapHead, snapCount, checkpoints, SnapEntry(frame, state));
      ghost var before := snaps[..];
      snaps[snapHead] := SnapEntry(frame, state);
      assert snaps[..] == before[snapHead := SnapEntry(frame, state)];
      snapHead := (snapHead + 1) % snaps.Length;
      if snapCount < snaps.Length {
        snapCount := snapCount + 1;
      }
      checkpoints := checkpoints + [SnapEntry(frame, state)];
    }

    /** The slot `j` places behind the head. */
    method SnapSlot(j: int) returns (idx: int)
      requires Valid() && 1 <= j <= snapCount
      ensures 0 <= idx < snaps.Length && snaps[idx] == Retained(checkpoints, snaps.Length)[snapCount - j]
    {
      RingRead(snaps[..], snapHead, snapCount, checkpoints, j);
      idx := (snapHead - j + snaps.Length) % snaps.Length;
    }

    /** The snapshot search: newest to oldest, keeping the first of the greatest frames up to `since`. */
    method FindSnap(since: uint64) returns (bestIdx: int)
      requires Valid() && snapCount > 0
      ensures 0 <= bestIdx < snaps.Length
      ensures snaps[bestIdx] == ChosenSnap(Retained(checkpoints, snaps.Length), since)
    {
      ghost var rs := Retained(checkpoints, snaps.Length);
      ghost var best := -1;
      bestIdx := -1;
      var bestFrame: uint64 := 0;
      for i := 0 to snapCount
        invariant BestFrom(rs, since, snapCount - i, best) && (best == -1 <==> bestIdx == -1)
        invariant best >= 0 ==>
                    0 <= bestIdx < snaps.Length && snaps[bestIdx] == rs[best] && bestFrame == rs[best].frame
      {
        var idx := SnapSlot(1 + i);
        BestStep(rs, since, snapCount - i, best);
        var sf := snaps[idx].frame;
        if sf <= since {
          if bestIdx == -1 || sf > bestFrame {
            bestIdx, bestFrame := idx, sf;
            best := snapCount - 1 - i;
          }
        }
      }
      BestIsLatest(rs, since, best);
      if bestIdx == -1 {
        bestIdx := SnapSlot(snapCount);
      }
    }

    /** The i-th oldest retained frame of commands. */
    method CmdAt(i: int) returns (entry: CmdEntry<C>)
      requires Valid() && 0 <= i < cmdCount
      ensures entry == Retained(history, cmds.Length)[i]
    {
      RingRead(cmds[..], cmdHead, cmdCount, history, cmdCount - i);
      var idx := (cmdHead - cmdCount + i + cmds.Length) % cmds.Length;
      entry := cmds[idx];
    }

    /**
     Collects, oldest first, the retained commands after `frame`, and says whether the ring starts too late for them.
     */
    method Collect(frame: uint64) returns (commands: seq<CmdEntry<C>>, fullReset: bool)
      requires Valid()
      ensures var rc := Retained(history, cmds.Length);
              && commands == After(rc, frame)
              && fullReset == (rc != [] && rc[0].frame > Succ64(frame))
    {
      ghost var rc := Retained(history, cmds.Length);
      commands, fullReset := [], false;
      if cmdCount > 0 {
        var oldest := CmdAt(0);
        if oldest.frame > Succ64(frame) {
          fullReset := true;
        }
        for i := 0 to cmdCount
          invariant commands == After(rc[..i], frame)
        {
          var entry := CmdAt(i);
          AfterStep(rc, i, frame);
          if entry.frame > frame {
            commands := commands + [entry];
          }
        }
        assert rc[..cmdCount] == rc;
      }
    }

    method Recover(since: uint64) returns (r: Option<Recovery<S, C>>)
      requires Valid()
      ensures r == RecoverOf(history, checkpoints, cmds.Length, snaps.Length, since)
    {
      if snapCount == 0 {
        return None;
      }
      var bestIdx := FindSnap(since);
      var snap := snaps[bestIdx];
      var commands, fullReset := Collect(snap.frame);
      r := Some(Recovery(snap.state, snap.frame, commands, latestFrame, fullReset));
    }
  }

  // ---------- Every history of calls ----------

  datatype Call<S, C> = Record(frame: uint64, cmds: seq<C>) | Checkpoint(ckFrame: uint64, state: S)

  /** The commands accepted by a sequence of calls: out-of-order frames are refused. */
  function Recorded<S, C>(calls: seq<Call<S, C>>): (h: seq<CmdEntry<C>>)
    ensures Increasing(h)
  {
    if calls == [] then [] else
      var h := Recorded(calls[..|calls| - 1]);
      match calls[|calls| - 1]
      case Record(f, cs) => if h == [] || LatestOf(h) < f then h + [CmdEntry(f, cs)] else h
      case Checkpoint(_, _) => h
  }

  function Checkpointed<S, C>(calls: seq<Call<S, C>>): seq<SnapEntry<S>> {
    if calls == [] then [] else
      var cks := Checkpointed(calls[..|calls| - 1]);
      match calls[|calls| - 1]
      case Record(_, _) => cks
      case Checkpoint(f, s) => cks + [SnapEntry(f, s)]
  }

  method PerformNext<S(0), C>(log: Log<S, C>, calls: seq<Call<S, C>>, i: nat)
    requires log.Valid() && i < |calls|
    requires log.history == Recorded(calls[..i]) && log.checkpoints == Checkpointed(calls[..i])
    modifies log, log.cmds, log.snaps
    ensures log.Valid() && log.cmds == old(log.cmds) && log.snaps == old(log.snaps)
    ensures log.history == Recorded(calls[..i + 1]) && log.checkpoints == Checkpointed(calls[..i + 1])
  {
    assert calls[..i + 1][..i] == calls[..i];
    match calls[i] {
      case Record(f, cs) => var _ := log.Record(f, cs);
      case Checkpoint(f, s) => log.Checkpoint(f, s);
    }
  }

  /** Any sequence of calls on a new log leaves exactly these two histories behind. */
  method Perform<S(0), C>(log: Log<S, C>, calls: seq<Call<S, C>>)
    requires log.Valid() && log.history == [] && log.checkpoints == []
    modifies log, log.cmds, log.snaps
    ensures log.Valid() && log.cmds == old(log.cmds) && log.snaps == old(log.snaps)
    ensures log.history == Recorded(calls) && log.checkpoints == Checkpointed(calls)
  {
    for i := 0 to |calls|
      invariant log.Valid() && log.cmds == old(log.cmds) && log.snaps == old(log.snaps)
      invariant log.history == Recorded(calls[..i]) && log.checkpoints == Checkpointed(calls[..i])
    {
      PerformNext(log, calls, i);
    }
    assert calls[..|calls|] == calls;
  }

  /** Replaying entries on a state, frame by frame. */
  ghost function Fold<S, C>(apply: (S, seq<C>) -> S, s: S, es: seq<CmdEntry<C>>): S {
    if es == [] then s else apply(Fold(apply, s, es[..|es| - 1]), es[|es| - 1].cmds)
  }

  lemma FoldConcat<S, C>(apply: (S, seq<C>) -> S, s: S, a: seq<CmdEntry<C>>, b: seq<CmdEntry<C>>)
    ensures Fold(apply, s, a + b) == Fold(apply, Fold(apply, s, a), b)
  {
    if b == [] {
      assert a + b == a;
    } else {
      assert (a + b)[..|a + b| - 1] == a + b[..|b| - 1];
      FoldConcat(apply, s, a, b[..|b| - 1]);
    }
  }

  /** An increasing history splits at every frame. */
  lemma {:induction false} SplitAtFrame<C>(h: seq<CmdEntry<C>>, frame: uint64)
    requires Increasing(h)
    ensures UpTo(h, frame) + After(h, frame) == h
  {
    if h != [] {
      var n := |h| - 1;
      var p, x := h[..n], h[n];
      SplitAtFrame(p, frame);
      assert h == p + [x];
      if x.frame <= frame {
        forall i | 0 <= i < |p| ensures p[i].frame <= frame {
          assert p[i] == h[i] && h[i].frame < h[n].frame;
        }
        NothingAfter(p, frame);
      }
    }
  }

  lemma {:induction false} PartsMean<C>(es: seq<CmdEntry<C>>, frame: uint64)
    ensures forall i :: 0 <= i < |UpTo(es, frame)| ==> UpTo(es, frame)[i].frame <= frame
    ensures forall i :: 0 <= i < |After(es, frame)| ==> After(es, frame)[i].frame > frame
  {
    if es != [] { PartsMean(es[..|es| - 1], frame); }
  }

  /** Where it splits: everything up to the frame is in front, and everything after it behind. */
  lemma SplitPoint<C>(h: seq<CmdEntry<C>>, frame: uint64) returns (k: nat)
    requires Increasing(h)
    ensures k <= |h| && UpTo(h, frame) == h[..k] && After(h, frame) == h[k..]
    ensures forall i :: 0 <= i < k ==> h[i].frame <= frame
    ensures forall i :: k <= i < |h| ==> h[i].frame > frame
  {
    var front, back := UpTo(h, frame), After(h, frame);
    SplitAtFrame(h, frame);
    PartsMean(h, frame);
    k := |front|;
    assert (front + back)[..k] == front && (front + back)[k..] == back;
    forall i | k <= i < |h| ensures h[i].frame > frame { assert h[i] == back[i - k]; }
    forall i | 0 <= i < k ensures h[i].frame <= frame { assert h[i] == front[i]; }
  }

  /**
   What comes with the snapshot: exactly the retained commands after it, oldest first and all of them, and the newest
   frame ever recorded.
   */
  lemma CommandsAreTheRest<S, C>(h: seq<CmdEntry<C>>, cks: seq<SnapEntry<S>>, cmdDepth: int, snapDepth: int,
                                 since: uint64)
      returns (k: nat)
    requires 0 < cmdDepth && 0 < snapDepth && cks != [] && Increasing(h)
    ensures var r, rc := RecoverOf(h, cks, cmdDepth, snapDepth, since).value, Retained(h, cmdDepth);
            && k <= |rc| && r.commands == rc[k..]
            && (forall i :: 0 <= i < k ==> rc[i].frame <= r.snapshotFrame)
            && (forall i :: k <= i < |rc| ==> rc[i].frame > r.snapshotFrame)
    ensures var r := RecoverOf(h, cks, cmdDepth, snapDepth, since).value;
            && (h == [] ==> r.latestFrame == 0)
            && (h != [] ==> r.latestFrame == h[|h| - 1].frame)
            && forall i :: 0 <= i < |h| ==> h[i].frame <= r.latestFrame
  {
    var snap := ChosenSnap(Retained(cks, snapDepth), since);
    var rc, e := Retained(h, cmdDepth), |Evicted(h, cmdDepth)|;
    forall i, j | 0 <= i < j < |rc| ensures rc[i].frame < rc[j].frame {
      assert rc[i] == h[e + i] && rc[j] == h[e + j];
    }
    k := SplitPoint(rc, snap.frame);
    forall i | 0 <= i < |h| ensures h[i].frame <= LatestOf(h) {
      assert i < |h| - 1 ==> h[i].frame < h[|h| - 1].frame;
    }
  }

  lemma {:induction false} NothingAfter<C>(es: seq<CmdEntry<C>>, frame: uint64)
    requires forall i :: 0 <= i < |es| ==> es[i].frame <= frame
    ensures After(es, frame) == []
  {
    if es != [] { NothingAfter(es[..|es| - 1], frame); }
  }

  /** Dropping entries up to `frame` does not change what comes after it. */
  lemma {:induction false} AfterIgnoresOlder<C>(a: seq<CmdEntry<C>>, b: seq<CmdEntry<C>>, frame: uint64)
    requires forall i :: 0 <= i < |a| ==> a[i].frame <= frame
    ensures After(a + b, frame) == After(b, frame)
  {
    if b == [] {
      assert a + b == a;
      NothingAfter(a, frame);
    } else {
      assert (a + b)[..|a + b| - 1] == a + b[..|b| - 1];
      AfterIgnoresOlder(a, b[..|b| - 1], frame);
    }
  }

  /**
   Central law of the log. Whatever the depths and whatever the calls, if every retained checkpoint is the
   replay of all commands up to its frame, then an answer that is not a full reset replays to the state of the
   whole unbounded history.
   */
  lemma ReplayReachesTruth<S, C>(apply: (S, seq<C>) -> S, init: S, calls: seq<Call<S, C>>,
                                 cmdDepth: int, snapDepth: int, since: uint64)
    requires 0 < cmdDepth && 0 < snapDepth
    requires forall k :: 0 <= k < |Retained(Checkpointed(calls), snapDepth)| ==>
               var ck := Retained(Checkpointed(calls), snapDepth)[k];
               ck.state == Fold(apply, init, UpTo(Recorded(calls), ck.frame))
    ensures var r := RecoverOf(Recorded(calls), Checkpointed(calls), cmdDepth, snapDepth, since);
            r.Some? && !r.value.fullReset ==>
              Fold(apply, r.value.snapshot, r.value.commands) == Fold(apply, init, Recorded(calls))
  {
    var h, cks := Recorded(calls), Checkpointed(calls);
    var r := RecoverOf(h, cks, cmdDepth, snapDepth, since);
    if r.Some? && !r.value.fullReset {
      var snap := ChosenSnap(Retained(cks, snapDepth), since);
      var gone, rc := Evicted(h, cmdDepth), Retained(h, cmdDepth);
      assert h == gone + rc;
      forall i | 0 <= i < |gone| ensures gone[i].frame <= snap.frame {
        assert gone[i] == h[i] && rc[0] == h[|gone|];
      }
      AfterIgnoresOlder(gone, rc, snap.frame);
      SplitAtFrame(h, snap.frame);
      FoldConcat(apply, init, UpTo(h, snap.frame), After(h, snap.frame));
    }
  }

  /**
   The snapshot handed out: greatest retained frame up to `since`, else the oldest retained (the least, if frames never
   go back).
   */
  lemma SnapshotChoice<S, C>(h: seq<CmdEntry<C>>, cks: seq<SnapEntry<S>>, cmdDepth: int, snapDepth: int, since: uint64)
    requires 0 < cmdDepth && 0 < snapDepth
    ensures var rs := Retained(cks, snapDepth);
            var r := RecoverOf(h, cks, cmdDepth, snapDepth, since);
            && (r.None? <==> cks == [])
            && (r.Some? ==>
                  && SnapEntry(r.value.snapshotFrame, r.value.snapshot) in rs
                  && ((exists k :: 0 <= k < |rs| && rs[k].frame <= since) ==>
                        && r.value.snapshotFrame <= since
                        && forall k :: 0 <= k < |rs| && rs[k].frame <= since ==> rs[k].frame <= r.value.snapshotFrame)
                  && ((forall k :: 0 <= k < |rs| ==> rs[k].frame > since) ==>
                        SnapEntry(r.value.snapshotFrame, r.value.snapshot) == rs[0])
                  && ((forall k :: 0 <= k < |rs| ==> rs[k].frame > since) &&
                      (forall i, j :: 0 <= i <= j < |cks| ==> cks[i].frame <= cks[j].frame) ==>
                        forall k :: 0 <= k < |rs| ==> r.value.snapshotFrame <= rs[k].frame))
  {
    if cks != [] {
      var rs := Retained(cks, snapDepth);
      var j := LatestUpTo(rs, since);
      assert IsLatestUpTo(rs, since, j);
      if j == -1 {
        assert rs[0] in rs;
        var e := |cks| - |rs|;
        forall k | 0 <= k < |rs| ensures rs[k] == cks[e + k] {}
      } else {
        assert rs[j] in rs;
      }
    }
  }

  /** Of several checkpoints at the chosen frame it is the newest. */
  lemma NewestOfItsFrame<S>(rs: seq<SnapEntry<S>>, since: uint64) returns (j: nat)
    requires exists k :: 0 <= k < |rs| && rs[k].frame <= since
    ensures j < |rs| && rs[j] == ChosenSnap(rs, since)
    ensures forall k :: j < k < |rs| ==> rs[k].frame != rs[j].frame
  {
    var b := LatestUpTo(rs, since);
    assert IsLatestUpTo(rs, since, b);
    j := b;
  }

  /** A needed command that was overwritten always forces the reset flag. */
  lemma LossIsReported<S, C>(h: seq<CmdEntry<C>>, cks: seq<SnapEntry<S>>, cmdDepth: int, snapDepth: int, since: uint64,
                             i: int)
    requires 0 < cmdDepth && 0 < snapDepth && cks != [] && Increasing(h)
    requires 0 <= i < |Evicted(h, cmdDepth)|
    requires h[i].frame > RecoverOf(h, cks, cmdDepth, snapDepth, since).value.snapshotFrame
    ensures RecoverOf(h, cks, cmdDepth, snapDepth, since).value.fullReset
  {
    var rc := Retained(h, cmdDepth);
    assert rc[0] == h[|h| - |rc|];
    assert h[i].frame < rc[0].frame;
  }

  /**
   When the reset flag is exact, for all increasing frames: it is raised just when a command after the snapshot was
   overwritten, if and only if the oldest command kept comes no later than right after the snapshot, or the newest one
   overwritten comes after the snapshot. In between, where frames were skipped, the flag is raised with nothing lost.
   */
  lemma ResetIsExactIff<S, C>(h: seq<CmdEntry<C>>, cks: seq<SnapEntry<S>>, cmdDepth: int, snapDepth: int, since: uint64)
    requires 0 < cmdDepth && 0 < snapDepth && cks != [] && h != [] && Increasing(h)
    ensures var r := RecoverOf(h, cks, cmdDepth, snapDepth, since).value;
            var n := |Evicted(h, cmdDepth)|;
            var lossy := exists i :: 0 <= i < n && h[i].frame > r.snapshotFrame;
            && (lossy ==> r.fullReset)
            && ((r.fullReset <==> lossy) <==>
                h[n].frame <= Succ64(r.snapshotFrame) || (n > 0 && h[n - 1].frame > r.snapshotFrame))
  {
    var r := RecoverOf(h, cks, cmdDepth, snapDepth, since).value;
    var n := |Evicted(h, cmdDepth)|;
    assert Retained(h, cmdDepth)[0] == h[n];
    if i :| 0 <= i < n && h[i].frame > r.snapshotFrame {
      assert h[i].frame <= h[n - 1].frame < h[n].frame;
    }
  }

  /**
   Exactness of the reset flag: for frames without gaps that start no later than just after the chosen checkpoint, the
   flag is raised if and only if some command after that checkpoint was overwritten; frames that start later raise it.
   The one exception is a checkpoint at the last representable frame, whose successor wraps to 0.
   */
  lemma ResetIffLoss<S, C>(h: seq<CmdEntry<C>>, cks: seq<SnapEntry<S>>, cmdDepth: int, snapDepth: int, since: uint64)
    requires 0 < cmdDepth && 0 < snapDepth && cks != [] && h != []
    requires forall i {:trigger h[i]} :: 0 <= i < |h| ==> h[i].frame == h[0].frame + i
    ensures var r := RecoverOf(h, cks, cmdDepth, snapDepth, since).value;
            && (r.snapshotFrame < TWO64 - 1 && h[0].frame <= r.snapshotFrame + 1 ==>
                 (r.fullReset <==> exists i :: 0 <= i < |Evicted(h, cmdDepth)| && h[i].frame > r.snapshotFrame))
            && (r.snapshotFrame < TWO64 - 1 && h[0].frame > r.snapshotFrame + 1 ==> r.fullReset)
            && (r.snapshotFrame == TWO64 - 1 ==>
                 (r.fullReset <==> Retained(h, cmdDepth)[0].frame > 0))
  {
    var r := RecoverOf(h, cks, cmdDepth, snapDepth, since).value;
    var rc, n := Retained(h, cmdDepth), |Evicted(h, cmdDepth)|;
    assert rc[0] == h[n];
    ResetIsExactIff(h, cks, cmdDepth, snapDepth, since);
  }

  /**
   Without the no-gap condition the flag is only cautious: here nothing was overwritten and the replay would be exact,
   yet the answer is a full reset, because the first recorded frame is not the one right after the checkpoint.
   It also shows that a full reset hands out the snapshot picked for `since`, not the newest one.
   */
  lemma ResetWithoutLoss()
    ensures var h := [CmdEntry(5, [7])];
            var cks := [SnapEntry(0, 0), SnapEntry(9, 7)];
            var r := RecoverOf<int, int>(h, cks, 4, 4, 3);
            && r.Some? && r.value.fullReset && Evicted(h, 4) == []
            && r.value.snapshotFrame == 0 != cks[1].frame
    ensures var r := RecoverOf<int, int>([CmdEntry(1, [7]), CmdEntry(5, [8])], [SnapEntry(1, 7)], 1, 1, 1);
            r.Some? && r.value.fullReset && Evicted([CmdEntry(1, [7]), CmdEntry(5, [8])], 1) == [CmdEntry(1, [7])]
  {
    var cks := [SnapEntry(0, 0), SnapEntry(9, 7)];
    assert Retained(cks, 4) == cks;
    assert IsLatestUpTo(cks, 3, LatestUpTo(cks, 3));
    assert cks[0].frame == 0;
  }
}
