/**
 Ownership transfer of one entity between two processes.
 `Source` and `Target` are the two state machines; the protocol is every interleaving of their calls with an
 ordered channel between them.
 */
module Handoff {
  import opened Words

  datatype Phase = Owned | Exporting | Released | Importing
  datatype Error = NotOwned | AlreadyExport | NotExporting | NotImporting | AlreadyReleased
  datatype Bundle<S, C> = Bundle(state: S, buffered: seq<C>)

  datatype SourceState<S, C> = SourceState(phase: Phase, state: S, buffer: seq<C>)
  datatype TargetState<S> = TargetState(phase: Phase, state: S)

  // ---------- The two objects ----------

  class Source<S, C> {
    var phase: Phase
    var state: S
    var buffer: seq<C>

    ghost function Value(): SourceState<S, C>
      reads this
    {
      SourceState(phase, state, buffer)
    }

    constructor (state: S)
      ensures Value() == SourceState(Owned, state, [])
    {
      this.phase, this.state, this.buffer := Owned, state, [];
    }

    method Begin() returns (err: Option<Error>)
      modifies this
      ensures Value() == Began(old(Value()))
      ensures err.None? <==> old(phase) == Owned
      ensures old(phase) == Exporting ==> err == Some(AlreadyExport)
      ensures old(phase) == Released ==> err == Some(AlreadyReleased)
    {
      match phase
      case Owned =>
        phase := Exporting;
        buffer := [];
        err := None;
      case Exporting => err := Some(AlreadyExport);
      case Released => err := Some(AlreadyReleased);
      case Importing => err := Some(NotOwned);
    }

    method Buffer(cmd: C) returns (buffered: bool, err: Option<Error>)
      modifies this
      ensures Value() == Buffered(old(Value()), cmd)
      ensures buffered <==> old(phase) == Exporting
      ensures err.None? <==> old(phase) == Owned || old(phase) == Exporting
      ensures old(phase) == Released ==> err == Some(AlreadyReleased)
    {
      match phase
      case Owned => buffered, err := false, None;
      case Exporting =>
        buffer := buffer + [cmd];
        buffered, err := true, None;
      case Released => buffered, err := false, Some(AlreadyReleased);
      case Importing => buffered, err := false, Some(NotOwned);
    }

    method Export() returns (bundle: Option<Bundle<S, C>>)
      modifies this
      ensures Value() == Taken(old(Value()))
      ensures bundle == if old(phase) == Exporting then Some(Bundle(old(state), old(buffer))) else None
    {
      if phase != Exporting {
        return None;
      }
      var buf := buffer;
      buffer := [];
      bundle := Some(Bundle(state, buf));
    }

    method DrainBuffer() returns (cmds: Option<seq<C>>)
      modifies this
      ensures Value() == Taken(old(Value()))
      ensures cmds == if old(phase) == Exporting then Some(old(buffer)) else None
    {
      if phase != Exporting {
        return None;
      }
      var buf := buffer;
      buffer := [];
      cmds := Some(buf);
    }

    method Release() returns (err: Option<Error>)
      modifies this
      ensures Value() == if old(phase) == Exporting then SourceState(Released, old(state), []) else old(Value())
      ensures err == if old(phase) == Exporting then None else Some(NotExporting)
    {
      if phase != Exporting {
        return Some(NotExporting);
      }
      phase := Released;
      buffer := [];
      err := None;
    }

    method Abort() returns (cmds: Option<seq<C>>)
      modifies this
      ensures Value() == if old(phase) == Exporting then SourceState(Owned, old(state), []) else old(Value())
      ensures cmds == if old(phase) == Exporting then Some(old(buffer)) else None
    {
      if phase != Exporting {
        return None;
      }
      phase := Owned;
      var buf := buffer;
      buffer := [];
      cmds := Some(buf);
    }
  }

  class Target<S, C> {
    var phase: Phase
    var state: S

    ghost function Value(): TargetState<S>
      reads this
    {
      TargetState(phase, state)
    }

    constructor (zero: S)
      ensures Value() == TargetState(Importing, zero)
    {
      phase, state := Importing, zero;
    }

    method Import(bundle: Bundle<S, C>) returns (buffered: Option<seq<C>>)
      modifies this
      ensures Value() == Imported(old(Value()), bundle)
      ensures buffered == if old(phase) == Importing then Some(bundle.buffered) else None
    {
      if phase != Importing {
        return None;
      }
      state := bundle.state;
      buffered := Some(bundle.buffered);
    }

    method Accept() returns (err: Option<Error>)
      modifies this
      ensures Value() == if old(phase) == Importing then TargetState(Owned, old(state)) else old(Value())
      ensures err == if old(phase) == Importing then None else Some(NotImporting)
    {
      if phase != Importing {
        return Some(NotImporting);
      }
      phase := Owned;
      err := None;
    }

    method UpdateState(state: S)
      modifies this
      ensures Value() == TargetState(old(phase), state)
    {
      this.state := state;
    }

    /** Replays operations one by one through `UpdateState`. */
    method Replay(cmds: seq<C>, apply: (S, C) -> S)
      modifies this
      ensures Value() == TargetState(old(phase), Fold(apply, old(state), cmds))
    {
      for i := 0 to |cmds|
        invariant Value() == TargetState(old(phase), Fold(apply, old(state), cmds[..i]))
      {
        assert cmds[..i + 1][..i] == cmds[..i];
        UpdateState(apply(state, cmds[i]));
      }
      assert cmds[..|cmds|] == cmds;
    }
  }

  function Began<S, C>(s: SourceState<S, C>): SourceState<S, C> {
    if s.phase == Owned then s.(phase := Exporting, buffer := []) else s
  }

  function Buffered<S, C>(s: SourceState<S, C>, c: C): SourceState<S, C> {
    if s.phase == Exporting then s.(buffer := s.buffer + [c]) else s
  }

  function Taken<S, C>(s: SourceState<S, C>): SourceState<S, C> {
    if s.phase == Exporting then s.(buffer := []) else s
  }

  function Imported<S, C>(t: TargetState<S>, b: Bundle<S, C>): TargetState<S> {
    if t.phase == Importing then t.(state := b.state) else t
  }

  function Fold<S, C>(apply: (S, C) -> S, s: S, cs: seq<C>): S {
    if cs == [] then s else apply(Fold(apply, s, cs[..|cs| - 1]), cs[|cs| - 1])
  }

  lemma FoldConcat<S, C>(apply: (S, C) -> S, s: S, a: seq<C>, b: seq<C>)
    ensures Fold(apply, s, a + b) == Fold(apply, Fold(apply, s, a), b)
  {
    if b == [] {
      assert a + b == a;
    } else {
      assert (a + b)[..|a + b| - 1] == a + b[..|b| - 1];
      FoldConcat(apply, s, a, b[..|b| - 1]);
    }
  }

  // ---------- The protocol ----------

  /** What travels from source to target, in order. */
  datatype Message<S, C> = Package(bundle: Bundle<S, C>) | Batch(cmds: seq<C>)

  /** Where a taken buffer went. */
  datatype Outlet<C> = Sent(cmds: seq<C>) | Returned(cmds: seq<C>) | Dropped(cmds: seq<C>)

  datatype Action<C> =
    | Begin | Offer(cmd: C) | Export | Drain | Deliver | Replay | Accept | Release | Abort

  /**
   A configuration of the protocol. `accepted` lists the operations the source has buffered, `outlets` what became of
   each buffer it gave up, `sent` the messages ever put on the channel and `delivered` how many have arrived. The target
   takes a message once it has replayed the one before: `toReplay` is what is left of the last message, `replayed` what
   was replayed since the last imported bundle.
   */
  datatype System<S, C> = System(
    src: SourceState<S, C>, tgt: TargetState<S>,
    sent: seq<Message<S, C>>, delivered: nat, toReplay: seq<C>, replayed: seq<C>, imported: bool, acked: bool,
    accepted: seq<C>, outlets: seq<Outlet<C>>)

  function Start<S, C>(state: S, zero: S): System<S, C> {
    System(SourceState(Owned, state, []), TargetState(Importing, zero), [], 0, [], [], false, false, [], [])
  }

  /** A message is there and the target is ready for it. */
  predicate Arrives<S, C>(y: System<S, C>) {
    y.delivered < |y.sent| && y.toReplay == []
  }

  /** One call on one side. A call that the object answers with an error changes nothing. */
  function Next<S, C>(y: System<S, C>, a: Action<C>, apply: (S, C) -> S): System<S, C> {
    var exporting := y.src.phase == Exporting;
    match a
    case Begin => y.(src := Began(y.src))
    case Offer(c) => y.(src := Buffered(y.src, c), accepted := if exporting then y.accepted + [c] else y.accepted)
    case Export =>
      if !exporting then y else
        y.(src := Taken(y.src), sent := y.sent + [Package(Bundle(y.src.state, y.src.buffer))],
           outlets := y.outlets + [Sent(y.src.buffer)])
    case Drain =>
      if !exporting then y else
        y.(src := Taken(y.src), sent := y.sent + [Batch(y.src.buffer)], outlets := y.outlets + [Sent(y.src.buffer)])
    case Deliver =>
      if !Arrives(y) then y else
        var next := y.(delivered := y.delivered + 1);
        (match y.sent[y.delivered]
         case Package(b) =>
           if y.tgt.phase != Importing then next
           else next.(tgt := Imported(y.tgt, b), toReplay := b.buffered, replayed := [], imported := true)
         case Batch(cs) => next.(toReplay := cs))
    case Replay =>
      if y.toReplay == [] then y else
        var c := y.toReplay[0];
        y.(tgt := TargetState(y.tgt.phase, apply(y.tgt.state, c)), toReplay := y.toReplay[1..],
           replayed := y.replayed + [c])
    case Accept =>
      if y.tgt.phase != Importing then y else y.(tgt := y.tgt.(phase := Owned), acked := true)
    case Release =>
      if !exporting then y else
        y.(src := SourceState(Released, y.src.state, []), outlets := y.outlets + [Dropped(y.src.buffer)])
    case Abort =>
      if !exporting then y else
        y.(src := SourceState(Owned, y.src.state, []), outlets := y.outlets + [Returned(y.src.buffer)])
  }

  function Run<S, C>(y: System<S, C>, acts: seq<Action<C>>, apply: (S, C) -> S): System<S, C>
    decreases |acts|
  {
    if acts == [] then y else Run(Next(y, acts[0], apply), acts[1..], apply)
  }

  function Flatten<C>(outs: seq<Outlet<C>>): seq<C> {
    if outs == [] then [] else Flatten(outs[..|outs| - 1]) + outs[|outs| - 1].cmds
  }

  /** Operations carried by messages, in channel order. */
  function Carried<S, C>(ms: seq<Message<S, C>>): seq<C> {
    if ms == [] then [] else Carried(ms[..|ms| - 1]) + Payload(ms[|ms| - 1])
  }

  function Payload<S, C>(m: Message<S, C>): seq<C> {
    match m
    case Package(b) => b.buffered
    case Batch(cs) => cs
  }

  // ---------- Conservation ----------

  /** No operation was handed back or dropped: every buffer the source gave up was sent. */
  ghost predicate AllSent<C>(outs: seq<Outlet<C>>) {
    forall i :: 0 <= i < |outs| ==> outs[i].Sent? || outs[i].cmds == []
  }

  /** What every interleaving keeps, with no discipline asked of anyone. */
  ghost predicate Conserved<S, C>(y: System<S, C>, state: S) {
    && y.accepted == Flatten(y.outlets) + y.src.buffer
    && (AllSent(y.outlets) ==> Flatten(y.outlets) == Carried(y.sent))
    && (y.src.phase != Exporting ==> y.src.buffer == [])
    && y.src.phase != Importing && (y.tgt.phase == Importing || y.tgt.phase == Owned)
    && y.src.state == state
    && y.delivered <= |y.sent|
    && BundlesCarry(y.sent, state)
  }

  /** Every bundle on the channel carries this state. */
  ghost predicate BundlesCarry<S, C>(ms: seq<Message<S, C>>, state: S) {
    forall i :: 0 <= i < |ms| && ms[i].Package? ==> ms[i].bundle.state == state
  }

  lemma FlattenSnoc<C>(outs: seq<Outlet<C>>, o: Outlet<C>)
    ensures Flatten(outs + [o]) == Flatten(outs) + o.cmds
    ensures AllSent(outs + [o]) <==> AllSent(outs) && (o.Sent? || o.cmds == [])
  {
    assert (outs + [o])[..|outs|] == outs;
    forall i | 0 <= i < |outs| ensures outs[i] == (outs + [o])[i] {}
    assert (outs + [o])[|outs|] == o;
  }

  lemma CarriedSnoc<S, C>(ms: seq<Message<S, C>>, m: Message<S, C>)
    ensures Carried(ms + [m]) == Carried(ms) + Payload(m)
  {
    assert (ms + [m])[..|ms|] == ms;
  }

  lemma SendConserves<S, C>(y: System<S, C>, a: Action<C>, apply: (S, C) -> S, state: S)
    requires Conserved(y, state) && (a.Export? || a.Drain?)
    ensures Conserved(Next(y, a, apply), state)
  {
    var m := if a.Export? then Package(Bundle(y.src.state, y.src.buffer)) else Batch(y.src.buffer);
    FlattenSnoc(y.outlets, Sent(y.src.buffer));
    CarriedSnoc(y.sent, m);
    assert BundlesCarry(y.sent + [m], state);
  }

  lemma EndConserves<S, C>(y: System<S, C>, a: Action<C>, apply: (S, C) -> S, state: S)
    requires Conserved(y, state) && (a.Release? || a.Abort?)
    ensures Conserved(Next(y, a, apply), state)
  {
    FlattenSnoc(y.outlets, if a.Release? then Dropped(y.src.buffer) else Returned(y.src.buffer));
  }

  lemma NextConserves<S, C>(y: System<S, C>, a: Action<C>, apply: (S, C) -> S, state: S)
    requires Conserved(y, state)
    ensures Conserved(Next(y, a, apply), state)
  {
    if a.Export? || a.Drain? {
      SendConserves(y, a, apply, state);
    } else if a.Release? || a.Abort? {
      EndConserves(y, a, apply, state);
    }
  }

  lemma {:induction false} RunConserves<S, C>(y: System<S, C>, acts: seq<Action<C>>, apply: (S, C) -> S, state: S)
    requires Conserved(y, state)
    ensures Conserved(Run(y, acts, apply), state)
    decreases |acts|
  {
    if acts != [] {
      NextConserves(y, acts[0], apply, state);
      RunConserves(Next(y, acts[0], apply), acts[1..], apply, state);
    }
  }

  /**
   No operation is lost, duplicated or reordered on its way out of the source: what it accepted is what it sent,
   handed back or dropped, in that order, followed by what it still holds. So `Begin` discards nothing,
   and the state that is exported is always the one the source was created with.
   */
  lemma Conservation<S, C>(state: S, zero: S, acts: seq<Action<C>>, apply: (S, C) -> S)
    ensures var y := Run(Start(state, zero), acts, apply);
            && y.accepted == Flatten(y.outlets) + y.src.buffer
            && (y.src.phase == Owned ==> y.src.buffer == [])
            && y.src.state == state
            && BundlesCarry(y.sent, state)
  {
    RunConserves(Start(state, zero), acts, apply, state);
  }

  // ---------- Linearization ----------

  /**
   The calls that lose an operation, each visible when it is made: an import over a state on which something was
   replayed, the refusal of a bundle that carries operations, and giving up a buffer that was not sent.
   */
  predicate Loses<S, C>(y: System<S, C>, a: Action<C>) {
    match a
    case Deliver =>
      Arrives(y) && y.sent[y.delivered].Package? &&
      (if y.tgt.phase == Importing then y.replayed != [] else y.sent[y.delivered].bundle.buffered != [])
    case Release => y.src.phase == Exporting && y.src.buffer != []
    case Abort => y.src.phase == Exporting && y.src.buffer != []
    case _ => false
  }

  ghost predicate NeverLoses<S, C>(y: System<S, C>, acts: seq<Action<C>>, apply: (S, C) -> S)
    decreases |acts|
  {
    acts == [] || (!Loses(y, acts[0]) && NeverLoses(Next(y, acts[0], apply), acts[1..], apply))
  }

  function Base<S, C>(y: System<S, C>, state: S, zero: S): S {
    if y.imported then state else zero
  }

  /** The target's state is the fold of what it has replayed since the last bundle that it imported. */
  ghost predicate Folds<S, C>(y: System<S, C>, apply: (S, C) -> S, state: S, zero: S) {
    Conserved(y, state) && y.tgt.state == Fold(apply, Base(y, state, zero), y.replayed)
  }

  /** All that was given arrived, in order; or, once something was lost, less than that. */
  ghost predicate Short<C>(taken: seq<C>, given: seq<C>, lost: bool) {
    if lost then |taken| < |given| else taken == given
  }

  lemma {:induction false} ShortLaws<C>(taken: seq<C>, given: seq<C>, lost: bool, more: seq<C>)
    requires Short(taken, given, lost)
    ensures Short(taken + more, given + more, lost)
    ensures Short(more, given + more, lost || taken != [])
    ensures Short(taken, given + more, lost || more != [])
  {
    assert [] + more == more && given + [] == given;
  }

  /** What the source gave up is what it sent, in order; once a buffer was given up otherwise, more than that. */
  ghost predicate OutAccount<S, C>(y: System<S, C>, lost: bool) {
    Short(Carried(y.sent), Flatten(y.outlets), lost)
  }

  /** What arrived is what the target has replayed or will; once an operation was lost on arrival, more than that. */
  ghost predicate InAccount<S, C>(y: System<S, C>, lost: bool) {
    && y.delivered <= |y.sent|
    && Short(y.replayed + y.toReplay, Carried(y.sent[..y.delivered]), lost)
  }

  lemma {:induction false} NextFolds<S, C>(y: System<S, C>, a: Action<C>, apply: (S, C) -> S, state: S, zero: S)
    requires Folds(y, apply, state, zero)
    ensures Folds(Next(y, a, apply), apply, state, zero)
  {
    NextConserves(y, a, apply, state);
    if a == Replay && y.toReplay != [] {
      assert (y.replayed + [y.toReplay[0]])[..|y.replayed|] == y.replayed;
    }
  }

  lemma {:induction false} SendOut<S, C>(y: System<S, C>, a: Action<C>, apply: (S, C) -> S, lost: bool)
    requires OutAccount(y, lost) && (a.Export? || a.Drain?)
    ensures OutAccount(Next(y, a, apply), lost)
  {
    ShortLaws(Carried(y.sent), Flatten(y.outlets), lost, y.src.buffer);
    FlattenSnoc(y.outlets, Sent(y.src.buffer));
    CarriedSnoc(y.sent, if a.Export? then Package(Bundle(y.src.state, y.src.buffer)) else Batch(y.src.buffer));
  }

  lemma {:induction false} EndOut<S, C>(y: System<S, C>, a: Action<C>, apply: (S, C) -> S, lost: bool)
    requires OutAccount(y, lost) && (a.Release? || a.Abort?)
    ensures OutAccount(Next(y, a, apply), lost || Loses(y, a))
  {
    ShortLaws(Carried(y.sent), Flatten(y.outlets), lost, y.src.buffer);
    FlattenSnoc(y.outlets, if a.Release? then Dropped(y.src.buffer) else Returned(y.src.buffer));
  }

  lemma {:induction false} NextOut<S, C>(y: System<S, C>, a: Action<C>, apply: (S, C) -> S, lost: bool)
    requires OutAccount(y, lost)
    ensures OutAccount(Next(y, a, apply), lost || (!a.Deliver? && Loses(y, a)))
  {
    if a.Export? || a.Drain? {
      SendOut(y, a, apply, lost);
    } else if a.Release? || a.Abort? {
      EndOut(y, a, apply, lost);
    }
  }

  /** What the target has replayed or will, once a message has come. */
  function TakenAfter<S, C>(y: System<S, C>, m: Message<S, C>): seq<C> {
    if m.Batch? then y.replayed + Payload(m) else if y.tgt.phase == Importing then Payload(m) else y.replayed
  }

  lemma {:induction false} DeliverTakes<S, C>(y: System<S, C>, apply: (S, C) -> S)
    requires Arrives(y)
    ensures var y', m := Next(y, Deliver, apply), y.sent[y.delivered];
            && y'.replayed + y'.toReplay == TakenAfter(y, m)
            && y'.sent == y.sent && y'.delivered == y.delivered + 1
  {
    var m := y.sent[y.delivered];
    assert y.replayed + [] == y.replayed && [] + Payload(m) == Payload(m);
  }

  lemma {:induction false} DeliverIn<S, C>(y: System<S, C>, y': System<S, C>, m: Message<S, C>, lost: bool)
    requires InAccount(y, lost) && Arrives(y) && m == y.sent[y.delivered]
    requires y'.replayed + y'.toReplay == TakenAfter(y, m) && y'.sent == y.sent && y'.delivered == y.delivered + 1
    ensures InAccount(y', lost || Loses(y, Deliver))
  {
    var got := y.sent[..y.delivered];
    CarriedSnoc(got, m);
    assert y'.sent[..y'.delivered] == got + [m];
    assert y.replayed + y.toReplay == y.replayed;
    ShortLaws(y.replayed, Carried(got), lost, Payload(m));
  }

  lemma {:induction false} NextIn<S, C>(y: System<S, C>, a: Action<C>, apply: (S, C) -> S, lost: bool)
    requires InAccount(y, lost)
    ensures InAccount(Next(y, a, apply), lost || (a.Deliver? && Loses(y, a)))
  {
    if a == Deliver && Arrives(y) {
      DeliverTakes(y, apply);
      DeliverIn(y, Next(y, a, apply), y.sent[y.delivered], lost);
    } else {
      var y' := Next(y, a, apply);
      assert y'.sent[..y.delivered] == y.sent[..y.delivered];
      assert y'.replayed + y'.toReplay == y.replayed + y.toReplay;
    }
  }

  /** At the end of a run: whether something was lost on the way out, and whether on arrival. */
  lemma {:induction false} RunAccounts<S, C>(y: System<S, C>, acts: seq<Action<C>>, apply: (S, C) -> S,
                                             state: S, zero: S, out: bool, into: bool)
      returns (out': bool, into': bool)
    requires Folds(y, apply, state, zero) && OutAccount(y, out) && InAccount(y, into)
    ensures var z := Run(y, acts, apply); Folds(z, apply, state, zero) && OutAccount(z, out') && InAccount(z, into')
    ensures out' || into' <==> out || into || !NeverLoses(y, acts, apply)
    decreases |acts|
  {
    out', into' := out, into;
    if acts != [] {
      var a := acts[0];
      NextFolds(y, a, apply, state, zero);
      NextOut(y, a, apply, out);
      NextIn(y, a, apply, into);
      out', into' := RunAccounts(Next(y, a, apply), acts[1..], apply, state, zero,
                                 out || (!a.Deliver? && Loses(y, a)), into || (a.Deliver? && Loses(y, a)));
    }
  }

  /** The source holds nothing back, and the target has taken and replayed every message. */
  ghost predicate Settled<S, C>(y: System<S, C>) {
    y.src.buffer == [] && y.delivered == |y.sent| && y.toReplay == []
  }

  /** In a settled state nothing was ever lost if and only if what was replayed is what was accepted. */
  lemma {:induction false} SettledIff<S, C>(y: System<S, C>, out: bool, into: bool)
    requires OutAccount(y, out) && InAccount(y, into)
    requires Settled(y) && y.accepted == Flatten(y.outlets) + y.src.buffer
    ensures y.replayed == y.accepted <==> !out && !into
  {
    assert y.sent[..y.delivered] == y.sent;
    assert y.replayed + [] == y.replayed && y.accepted == Flatten(y.outlets);
  }

  /**
   Handoff linearization, for every run with no discipline asked of anyone. The target's state is always the fold of
   what it replayed, over the exported state once it has imported a bundle. When everything has settled, what it
   replayed is every operation that the source ever accepted, in order, if and only if no call lost one.
   */
  lemma Linearization<S, C>(state: S, zero: S, acts: seq<Action<C>>, apply: (S, C) -> S)
    ensures var y := Run(Start(state, zero), acts, apply);
            && y.tgt.state == Fold(apply, Base(y, state, zero), y.replayed)
            && (Settled(y) ==> (y.replayed == y.accepted <==> NeverLoses(Start(state, zero), acts, apply)))
  {
    var y0, y := Start<S, C>(state, zero), Run(Start(state, zero), acts, apply);
    var out, into := RunAccounts(y0, acts, apply, state, zero, false, false);
    if Settled(y) { SettledIff(y, out, into); }
  }

  /** A state that is the list of operations applied to it. */
  function Append<C>(s: seq<C>, c: C): seq<C> { s + [c] }

  lemma {:induction false} FoldAppend<C>(s: seq<C>, cs: seq<C>)
    ensures Fold((t: seq<C>, c: C) => Append(t, c), s, cs) == s + cs
  {
    if cs != [] {
      FoldAppend(s, cs[..|cs| - 1]);
      assert s + cs == s + cs[..|cs| - 1] + [cs[|cs| - 1]];
    }
  }

  /**
   The same seen from outside, with states that list the operations applied: once everything has settled, the target
   lists every operation the source accepted, in order, if and only if no call of the run lost one.
   */
  lemma NothingLostIff<C>(state: seq<C>, zero: seq<C>, acts: seq<Action<C>>)
    requires Settled(Run(Start(state, zero), acts, (s: seq<C>, c: C) => Append(s, c)))
    ensures var f := (s: seq<C>, c: C) => Append(s, c);
            var y := Run(Start(state, zero), acts, f);
            y.tgt.state == Base(y, state, zero) + y.accepted <==> NeverLoses(Start(state, zero), acts, f)
  {
    var f := (s: seq<C>, c: C) => Append(s, c);
    var y := Run(Start(state, zero), acts, f);
    Linearization(state, zero, acts, f);
    var base := Base(y, state, zero);
    FoldAppend(base, y.replayed);
    assert (base + y.accepted)[|base|..] == y.accepted && (base + y.replayed)[|base|..] == y.replayed;
  }

  lemma {:induction false} RunFirst<S, C>(y: System<S, C>, a: Action<C>, rest: seq<Action<C>>, apply: (S, C) -> S)
    ensures Run(y, [a] + rest, apply) == Run(Next(y, a, apply), rest, apply)
  {
    assert ([a] + rest)[1..] == rest;
  }

  lemma {:induction false} RunFour<S, C>(y: System<S, C>, a: Action<C>, b: Action<C>, c: Action<C>, d: Action<C>,
                                         rest: seq<Action<C>>, apply: (S, C) -> S)
    ensures Run(y, [a, b, c, d] + rest, apply) ==
            Run(Next(Next(Next(Next(y, a, apply), b, apply), c, apply), d, apply), rest, apply)
  {
    assert [a, b, c, d] + rest == [a] + ([b] + ([c] + ([d] + rest)));
    RunFirst(y, a, [b] + ([c] + ([d] + rest)), apply);
    RunFirst(Next(y, a, apply), b, [c] + ([d] + rest), apply);
    RunFirst(Next(Next(y, a, apply), b, apply), c, [d] + rest, apply);
    RunFirst(Next(Next(Next(y, a, apply), b, apply), c, apply), d, rest, apply);
  }

  /** An exported source and a target that has accepted its bundle. */
  function Accepted(): System<int, int> {
    System(SourceState(Exporting, 0, []), TargetState(Owned, 0), [Package(Bundle(0, []))], 1, [], [], true, true,
           [], [Sent([])])
  }

  lemma {:induction false} EarlyBundleAccepted(f: (int, int) -> int)
    ensures Next(Next(Next(Next(Start(0, 0), Begin, f), Export, f), Deliver, f), Accept, f) == Accepted()
  {
    var y2 := Next(Next(Start(0, 0), Begin, f), Export, f);
    var first: Message<int, int>, out: Outlet<int> := Package(Bundle(0, [])), Sent([]);
    assert y2.sent == [first] && y2.outlets == [out];
  }

  /** A bundle that comes after acceptance is refused, and the operation in it, accepted and sent, is lost. */
  lemma {:induction false} LateBundleLoses(f: (int, int) -> int)
    ensures var acts: seq<Action<int>> := [Begin, Export, Deliver, Accept] +
            ([Offer(1), Export, Deliver, Release] + []);
            var y := Run(Start(0, 0), acts, f);
            y.accepted == [1] && y.src.phase == Released && Settled(y) && y.replayed == [] && y.tgt.state == 0
  {
    RunFour(Start(0, 0), Begin, Export, Deliver, Accept, [Offer(1), Export, Deliver, Release] + [], f);
    EarlyBundleAccepted(f);
    RunFour(Accepted(), Offer(1), Export, Deliver, Release, [], f);
    var y1 := Next(Accepted(), Offer(1), f);
    assert y1.src.buffer == y1.accepted == [1];
    var y2 := Next(y1, Export, f);
    assert y2.sent == [Package(Bundle(0, [])), Package(Bundle(0, [1]))];
  }

  // ---------- Bundles in time ----------

  /** Position of the last bundle among the messages, -1 if there is none. */
  function LastPackage<S, C>(ms: seq<Message<S, C>>): (k: int)
    ensures -1 <= k < |ms|
    ensures k >= 0 ==> ms[k].Package?
    ensures forall i :: k < i < |ms| ==> ms[i].Batch?
  {
    if ms == [] then -1 else
      if ms[|ms| - 1].Package? then |ms| - 1 else LastPackage(ms[..|ms| - 1])
  }

  /** What a target that was importing at every bundle has replayed on top of the last bundle's state. */
  function Replayed<S, C>(ms: seq<Message<S, C>>): seq<C> {
    if ms == [] then [] else
      match ms[|ms| - 1]
      case Package(b) => b.buffered
      case Batch(cs) => Replayed(ms[..|ms| - 1]) + cs
  }

  lemma {:induction false} CarriedSplit<S, C>(ms: seq<Message<S, C>>)
    ensures LastPackage(ms) >= 0 ==> Carried(ms) == Carried(ms[..LastPackage(ms)]) + Replayed(ms)
    ensures LastPackage(ms) < 0 ==> Carried(ms) == Replayed(ms)
  {
    if ms != [] {
      var n, k := |ms| - 1, LastPackage(ms);
      CarriedSplit(ms[..n]);
      if 0 <= k < n {
        assert ms[..n][..k] == ms[..k];
      }
    }
  }

  /**
   Exactly when the target ends up with every operation sent: nothing may travel before the last bundle, because
   importing a bundle overwrites the state. So exporting twice, or draining before exporting, loses what went before.
   */
  lemma ReplayIsComplete<S, C>(ms: seq<Message<S, C>>)
    ensures Replayed(ms) == Carried(ms) <==> LastPackage(ms) < 0 || Carried(ms[..LastPackage(ms)]) == []
  {
    CarriedSplit(ms);
    if LastPackage(ms) >= 0 && Replayed(ms) == Carried(ms) {
      assert |Carried(ms[..LastPackage(ms)])| == 0;
    }
  }

  /** Every bundle reaches the target while it is still importing. */
  ghost predicate BundlesInTime<S, C>(y: System<S, C>, acts: seq<Action<C>>, apply: (S, C) -> S)
    decreases |acts|
  {
    acts != [] ==>
    && (acts[0] == Deliver && Arrives(y) && y.sent[y.delivered].Package? ==> y.tgt.phase == Importing)
    && BundlesInTime(Next(y, acts[0], apply), acts[1..], apply)
  }

  ghost predicate Tracks<S, C>(y: System<S, C>, apply: (S, C) -> S, state: S, zero: S) {
    && Conserved(y, state)
    && var got := y.sent[..y.delivered];
       && (y.imported <==> LastPackage(got) >= 0)
       && y.replayed + y.toReplay == Replayed(got)
       && y.tgt.state == Fold(apply, if y.imported then state else zero, y.replayed)
  }

  lemma {:induction false} DeliverTracks<S, C>(y: System<S, C>, apply: (S, C) -> S, state: S, zero: S)
    requires Tracks(y, apply, state, zero) && Arrives(y)
    requires y.sent[y.delivered].Package? ==> y.tgt.phase == Importing
    ensures Tracks(Next(y, Deliver, apply), apply, state, zero)
  {
    var got, got' := y.sent[..y.delivered], y.sent[..y.delivered + 1];
    assert got'[..|got'| - 1] == got;
    assert y.replayed + [] == y.replayed;
  }

  lemma {:induction false} ReplayTracks<S, C>(y: System<S, C>, apply: (S, C) -> S, state: S, zero: S)
    requires Tracks(y, apply, state, zero) && y.toReplay != []
    ensures Tracks(Next(y, Replay, apply), apply, state, zero)
  {
    var c := y.toReplay[0];
    assert (y.replayed + [c])[..|y.replayed|] == y.replayed;
    assert y.replayed + [c] + y.toReplay[1..] == y.replayed + y.toReplay;
  }

  lemma {:induction false} NextTracks<S, C>(y: System<S, C>, a: Action<C>, apply: (S, C) -> S, state: S, zero: S)
    requires Tracks(y, apply, state, zero)
    requires a == Deliver && Arrives(y) && y.sent[y.delivered].Package? ==> y.tgt.phase == Importing
    ensures Tracks(Next(y, a, apply), apply, state, zero)
  {
    if a == Deliver && Arrives(y) {
      DeliverTracks(y, apply, state, zero);
    } else if a == Replay && y.toReplay != [] {
      ReplayTracks(y, apply, state, zero);
    } else {
      NextConserves(y, a, apply, state);
      assert Next(y, a, apply).sent[..y.delivered] == y.sent[..y.delivered];
    }
  }

  lemma {:induction false} RunTracks<S, C>(y: System<S, C>, acts: seq<Action<C>>, apply: (S, C) -> S, state: S, zero: S)
    requires Tracks(y, apply, state, zero) && BundlesInTime(y, acts, apply)
    ensures Tracks(Run(y, acts, apply), apply, state, zero)
    decreases |acts|
  {
    if acts != [] {
      NextTracks(y, acts[0], apply, state, zero);
      RunTracks(Next(y, acts[0], apply), acts[1..], apply, state, zero);
    }
  }

  /**
   When every bundle reaches an importing target, the messages alone decide: the target holds the fold of what was sent
   from the last bundle on, and this is every operation sent if and only if none was sent ahead of that bundle.
   */
  lemma LastBundleDecides<S, C>(state: S, zero: S, acts: seq<Action<C>>, apply: (S, C) -> S)
    requires BundlesInTime(Start(state, zero), acts, apply)
    requires var y := Run(Start(state, zero), acts, apply); Settled(y) && LastPackage(y.sent) >= 0
    ensures var y := Run(Start(state, zero), acts, apply);
            && y.tgt.state == Fold(apply, state, Replayed(y.sent))
            && (Replayed(y.sent) == Carried(y.sent) <==> Carried(y.sent[..LastPackage(y.sent)]) == [])
            && (AllSent(y.outlets) ==> y.accepted == Carried(y.sent))
  {
    var y := Run(Start(state, zero), acts, apply);
    RunTracks(Start(state, zero), acts, apply, state, zero);
    ReplayIsComplete(y.sent);
    assert y.sent[..y.delivered] == y.sent;
    assert y.replayed + [] == y.replayed;
  }

  /** Exporting a second time replaces what the first bundle built up: operation 1 is accepted, sent, and lost. */
  lemma SecondExportLoses()
    ensures var acts: seq<Action<int>> := [Begin, Offer(1), Export, Deliver, Replay, Export, Deliver];
            var y := Run(Start(0, 0), acts, (s: int, c: int) => s + c);
            y.accepted == [1] == Carried(y.sent) && y.delivered == |y.sent| && y.toReplay == [] && y.tgt.state == 0
  {
    var acts: seq<Action<int>> := [Begin, Offer(1), Export, Deliver, Replay, Export, Deliver];
    var f := (s: int, c: int) => s + c;
    var b1: Message<int, int>, b2: Message<int, int> := Package(Bundle(0, [1])), Package(Bundle(0, []));
    var y2 := Next(Next(Start(0, 0), Begin, f), Offer(1), f);
    assert y2.src.buffer == y2.accepted == [1];
    var y3 := Next(y2, Export, f);
    var y5 := Next(Next(y3, Deliver, f), Replay, f);
    var y7 := Next(Next(y5, Export, f), Deliver, f);
    assert y3.sent == [b1] && y5.toReplay == [] && y7.sent == [b1] + [b2];
    assert acts[1..][1..][1..] == [Deliver, Replay, Export, Deliver];
    assert acts[1..][1..][1..][1..][1..] == [Export, Deliver];
    assert Run(Start(0, 0), acts, f) == Run(y3, acts[1..][1..][1..], f);
    assert Run(y3, acts[1..][1..][1..], f) == Run(y5, acts[1..][1..][1..][1..][1..], f) == y7;
    CarriedSnoc([], b1);
    CarriedSnoc([b1], b2);
    assert [] + [b1] == [b1];
  }

  // ---------- Exclusive ownership ----------

  ghost predicate Exclusive<S, C>(y: System<S, C>) {
    !(y.src.phase == Owned && y.tgt.phase == Owned)
  }

  /** Ownership is exclusive now and after each action of the run. */
  ghost predicate AlwaysExclusive<S, C>(y: System<S, C>, acts: seq<Action<C>>, apply: (S, C) -> S)
    decreases |acts|
  {
    Exclusive(y) && (acts == [] || AlwaysExclusive(Next(y, acts[0], apply), acts[1..], apply))
  }

  /** The two calls that can hand out a second ownership, each while the other side is an owner. */
  ghost predicate Usurps<S, C>(y: System<S, C>, a: Action<C>) {
    || (a == Accept && y.tgt.phase == Importing && y.src.phase == Owned)
    || (a == Abort && y.src.phase == Exporting && y.tgt.phase == Owned)
  }

  ghost predicate NeverUsurps<S, C>(y: System<S, C>, acts: seq<Action<C>>, apply: (S, C) -> S)
    decreases |acts|
  {
    acts == [] || (!Usurps(y, acts[0]) && NeverUsurps(Next(y, acts[0], apply), acts[1..], apply))
  }

  /** Over whole runs: ownership is exclusive throughout if and only if neither side usurps it. */
  lemma {:induction false} ExclusiveIff<S, C>(y: System<S, C>, acts: seq<Action<C>>, apply: (S, C) -> S)
    requires Exclusive(y) && y.src.phase != Importing && (y.tgt.phase == Importing || y.tgt.phase == Owned)
    ensures AlwaysExclusive(y, acts, apply) <==> NeverUsurps(y, acts, apply)
    decreases |acts|
  {
    if acts != [] {
      var y' := Next(y, acts[0], apply);
      assert Exclusive(y') <==> !Usurps(y, acts[0]);
      if Exclusive(y') {
        ExclusiveIff(y', acts[1..], apply);
      }
    }
  }

  /**
   The intended discipline: accept after importing while not aborted, abort before the target accepts, release after the
   ack.
   */
  ghost predicate Disciplined<S, C>(y: System<S, C>, acts: seq<Action<C>>, apply: (S, C) -> S)
    decreases |acts|
  {
    acts != [] ==>
    && (acts[0] == Accept ==> y.imported && y.src.phase == Exporting)
    && (acts[0] == Abort ==> y.tgt.phase == Importing)
    && (acts[0] == Release ==> y.acked)
    && Disciplined(Next(y, acts[0], apply), acts[1..], apply)
  }

  ghost predicate OneOwner<S, C>(y: System<S, C>) {
    && y.src.phase != Importing && (y.tgt.phase == Importing || y.tgt.phase == Owned)
    && (y.src.phase == Released ==> y.tgt.phase == Owned)
    && (y.tgt.phase == Owned ==> y.src.phase == Exporting || y.src.phase == Released)
    && (y.acked <==> y.tgt.phase == Owned)
  }

  /** Under the discipline there is never more than one owner, and a source is released only to an owning target. */
  lemma {:induction false} OwnershipPasses<S, C>(y: System<S, C>, acts: seq<Action<C>>, apply: (S, C) -> S)
    requires OneOwner(y) && Disciplined(y, acts, apply)
    ensures OneOwner(Run(y, acts, apply)) && AlwaysExclusive(y, acts, apply)
    decreases |acts|
  {
    if acts != [] {
      OwnershipPasses(Next(y, acts[0], apply), acts[1..], apply);
    }
  }

  /** Released and target-Owned are final, and a released source accepts and sends nothing more. */
  lemma {:induction false} FinalPhases<S, C>(y: System<S, C>, acts: seq<Action<C>>, apply: (S, C) -> S)
    ensures y.src.phase == Released ==>
              var z := Run(y, acts, apply); z.src.phase == Released && z.accepted == y.accepted && z.sent == y.sent
    ensures y.tgt.phase == Owned ==> Run(y, acts, apply).tgt.phase == Owned
    decreases |acts|
  {
    if acts != [] {
      FinalPhases(Next(y, acts[0], apply), acts[1..], apply);
    }
  }

  /**
   Aborting before the target accepts is not enough on its own: a bundle already in flight can still be accepted,
   and then both processes own the entity.
   */
  lemma AbortedBundleStillAccepted(f: (int, int) -> int)
    ensures var acts: seq<Action<int>> := [Begin, Export, Abort, Deliver, Accept];
            && !NeverUsurps(Start(0, 0), acts, f)
            && !Exclusive(Run(Start(0, 0), acts, f))
  {
    var acts: seq<Action<int>> := [Begin, Export, Abort, Deliver, Accept];
    var y2 := Next(Next(Start(0, 0), Begin, f), Export, f);
    var y4 := Next(Next(y2, Abort, f), Deliver, f);
    assert acts[1..][1..] == [Abort, Deliver, Accept];
    assert acts[1..][1..][1..][1..] == [Accept];
    assert Run(Start(0, 0), acts, f) == Run(y2, acts[1..][1..], f) == Run(y4, [Accept], f);
    assert !Exclusive(Run(y4, [Accept], f));
    assert NeverUsurps(Start(0, 0), acts, f) ==> NeverUsurps(y2, acts[1..][1..], f);
    assert NeverUsurps(y2, acts[1..][1..], f) ==> NeverUsurps(y4, [Accept], f);
  }
}
