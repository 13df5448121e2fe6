/**
 Three separately written failover engines for a model client: `fallback` over a list of clients, `fallbackConfig` with
 a primary and per-error chains, and `retry` over one client. An attempt is the list of items one call would yield; the
 consumer may stop after any item.
 */
module Failover {
  import opened Words

  /** What an iterator yields: a chunk with an optional error. */
  datatype Item<C, E> = Item(chunk: C, err: Option<E>)

  datatype ErrorKind = General | RateLimit | ContextOverflow | MaxOutput

  /** `more(t)` says whether a consumer that has been given `t` wants to go on. */
  type Consumer<!C, !E> = seq<Item<C, E>> -> bool

  // ---------- Specification ----------

  predicate SetupFails<C, E>(items: seq<Item<C, E>>) {
    items != [] && items[0].err.Some?
  }

  /** Passing an attempt on: item after item, up to the first error or until the consumer stops. */
  function Relay<C, E>(items: seq<Item<C, E>>, sent: seq<Item<C, E>>, more: Consumer<C, E>): seq<Item<C, E>>
    decreases |items|
  {
    if items == [] then sent else
      var now := sent + [items[0]];
      if items[0].err.Some? || !more(now) then now else Relay(items[1..], now, more)
  }

  /** First attempt from `i` on that does not fail before its first chunk; the number of attempts if there is none. */
  function FirstServing<C, E>(attempts: seq<seq<Item<C, E>>>, i: nat): (k: nat)
    requires i <= |attempts|
    ensures i <= k <= |attempts|
    ensures forall j :: i <= j < k ==> SetupFails(attempts[j])
    ensures k < |attempts| ==> !SetupFails(attempts[k])
    decreases |attempts| - i
  {
    if i < |attempts| && SetupFails(attempts[i]) then FirstServing(attempts, i + 1) else i
  }

  /** The failover contract, with the context never cancelled. */
  function Expected<C, E>(attempts: seq<seq<Item<C, E>>>, zero: C, more: Consumer<C, E>): seq<Item<C, E>>
    requires attempts != []
  {
    var k := FirstServing(attempts, 0);
    if k < |attempts| then Relay(attempts[k], [], more) else [Item(zero, attempts[|attempts| - 1][0].err)]
  }

  /** The same with a context that may be cancelled: `ctx(i)` is its error once attempt `i` is over. */
  function Served<C, E>(attempts: seq<seq<Item<C, E>>>, i: nat, last: Option<E>, ctx: nat -> Option<E>, zero: C,
                        more: Consumer<C, E>)
    : seq<Item<C, E>>
    requires i <= |attempts|
    decreases |attempts| - i
  {
    if i == |attempts| then (if last.Some? then [Item(zero, last)] else [])
    else if !SetupFails(attempts[i]) then Relay(attempts[i], [], more)
    else if ctx(i).Some? then [Item(zero, ctx(i))]
    else Served(attempts, i + 1, attempts[i][0].err, ctx, zero, more)
  }

  function FallbackOf<C, E>(attempts: seq<seq<Item<C, E>>>, ctx: nat -> Option<E>, noClients: E, zero: C,
                            more: Consumer<C, E>)
    : seq<Item<C, E>>
  {
    if attempts == [] then [Item(zero, Some(noClients))] else Served(attempts, 0, None, ctx, zero, more)
  }

  // ---------- The engines ----------

  method FallbackStream<C, E>(attempts: seq<seq<Item<C, E>>>, ctx: nat -> Option<E>, noClients: E, zero: C,
                              more: Consumer<C, E>)
    returns (sent: seq<Item<C, E>>)
    ensures sent == FallbackOf(attempts, ctx, noClients, zero, more)
  {
    sent := [];
    if |attempts| == 0 {
      return [Item(zero, Some(noClients))];
    }
    var lastErr: Option<E> := None;
    for i := 0 to |attempts|
      invariant sent == []
      invariant Served(attempts, 0, None, ctx, zero, more) == Served(attempts, i, lastErr, ctx, zero, more)
    {
      var items := attempts[i];
      var started := false;
      var setupErr: Option<E> := None;
      var j := 0;
      while j < |items|
        invariant 0 <= j <= |items| && started == (j > 0)
        invariant setupErr == None
        invariant j == 0 ==> sent == []
        invariant j > 0 ==> !SetupFails(items)
        invariant Relay(items, [], more) == Relay(items[j..], sent, more)
      {
        assert items[j..][0] == items[j] && items[j..][1..] == items[j + 1..];
        if items[j].err.Some? {
          if started {
            sent := sent + [items[j]];
            return;
          }
          setupErr := items[j].err;
          break;
        }
        started := true;
        sent := sent + [items[j]];
        if !more(sent) {
          return;
        }
        j := j + 1;
      }
      if started || setupErr.None? {
        return;
      }
      lastErr := setupErr;
      if ctx(i).Some? {
        return [Item(zero, ctx(i))];
      }
    }
    if lastErr.Some? {
      sent := [Item(zero, lastErr)];
    }
  }

  /**
   `done`: the attempt was passed on (to its end, its error, or the consumer's stop); otherwise it failed before its
   first chunk.
   */
  method TryStream<C, E>(items: seq<Item<C, E>>, more: Consumer<C, E>)
    returns (done: bool, setupErr: Option<E>, sent: seq<Item<C, E>>)
    ensures done == !SetupFails(items)
    ensures done ==> setupErr == None && sent == Relay(items, [], more)
    ensures !done ==> setupErr == items[0].err && sent == []
  {
    var started := false;
    sent := [];
    for j := 0 to |items|
      invariant started == (j > 0)
      invariant j == 0 ==> sent == []
      invariant j > 0 ==> !SetupFails(items)
      invariant Relay(items, [], more) == Relay(items[j..], sent, more)
    {
      assert items[j..][0] == items[j] && items[j..][1..] == items[j + 1..];
      if items[j].err.Some? {
        if started {
          sent := sent + [items[j]];
          return true, None, sent;
        }
        return false, items[j].err, sent;
      }
      started := true;
      sent := sent + [items[j]];
      if !more(sent) {
        return true, None, sent;
      }
    }
    done, setupErr := true, None;
  }

  /** A primary call and the chains for each kind of error; `classify` stands for the error classifier. */
  datatype Config<A, !E> = Config(
    primary: Option<A>,
    onRateLimit: seq<A>,
    onContextOverflow: seq<A>,
    onError: seq<A>,
    classify: E -> ErrorKind)

  function ChainFor<A, E>(cfg: Config<A, E>, kind: ErrorKind): seq<A> {
    match kind
    case RateLimit => if |cfg.onRateLimit| > 0 then cfg.onRateLimit else cfg.onError
    case ContextOverflow => if |cfg.onContextOverflow| > 0 then cfg.onContextOverflow else cfg.onError
    case _ => cfg.onError
  }

  /**
   The clients that a configuration amounts to for one request: the primary, then the chain its first error selects.
   */
  function Route<C, E>(cfg: Config<seq<Item<C, E>>, E>): seq<seq<Item<C, E>>> {
    match cfg.primary
    case None => []
    case Some(p) => [p] + if SetupFails(p) then ChainFor(cfg, cfg.classify(p[0].err.value)) else []
  }

  /**
   A routed configuration is a plain fallback over its route, cancellation included: the primary alone if it serves; if
   it fails before its first chunk, the primary and then the chain for its kind of error, or the general chain.
   */
  method ConfigStream<C, E>(cfg: Config<seq<Item<C, E>>, E>, ctx: nat -> Option<E>, noClients: E, zero: C,
                            more: Consumer<C, E>)
    returns (sent: seq<Item<C, E>>)
    ensures sent == FallbackOf(Route(cfg), ctx, noClients, zero, more)
    ensures cfg.primary.None? ==> sent == [Item(zero, Some(noClients))]
    ensures cfg.primary.Some? && !SetupFails(cfg.primary.value) ==> sent == Relay(cfg.primary.value, [], more)
    ensures cfg.primary.Some? && SetupFails(cfg.primary.value) ==>
              var p := cfg.primary.value;
              var kind := cfg.classify(p[0].err.value);
              && (kind == RateLimit && cfg.onRateLimit != [] ==>
                    sent == FallbackOf([p] + cfg.onRateLimit, ctx, noClients, zero, more))
              && (kind == ContextOverflow && cfg.onContextOverflow != [] ==>
                    sent == FallbackOf([p] + cfg.onContextOverflow, ctx, noClients, zero, more))
              && ((kind == RateLimit ==> cfg.onRateLimit == []) &&
                  (kind == ContextOverflow ==> cfg.onContextOverflow == []) ==>
                    sent == FallbackOf([p] + cfg.onError, ctx, noClients, zero, more))
  {
    if cfg.primary.None? {
      return [Item(zero, Some(noClients))];
    }
    var p := cfg.primary.value;
    var done, setupErr, out := TryStream(p, more);
    ghost var route := Route(cfg);
    assert route[0] == p;
    if done {
      return out;
    }
    if ctx(0).Some? {
      return [Item(zero, ctx(0))];
    }
    if setupErr.None? {
      return [];
    }
    var chain := ChainFor(cfg, cfg.classify(setupErr.value));
    assert route == [p] + chain;
    assert Served(route, 0, None, ctx, zero, more) == Served(route, 1, setupErr, ctx, zero, more);
    if |chain| == 0 {
      return [Item(zero, setupErr)];
    }
    var lastErr := setupErr;
    for i := 0 to |chain|
      invariant lastErr.Some?
      invariant Served(route, 0, None, ctx, zero, more) == Served(route, i + 1, lastErr, ctx, zero, more)
    {
      assert route[i + 1] == chain[i];
      var done, err, out := TryStream(chain[i], more);
      if done {
        return out;
      }
      if err.Some? {
        lastErr := err;
      }
      if ctx(i + 1).Some? {
        return [Item(zero, ctx(i + 1))];
      }
    }
    sent := [Item(zero, lastErr)];
  }

  /**
   `calls(i)` is what the i-th call of the one client would yield; `quits(i)` says the context ends during the i-th
   backoff.
   */
  function RetryOf<C, E>(calls: nat -> seq<Item<C, E>>, attempts: nat, i: nat, quits: nat -> bool, zero: C,
                         more: Consumer<C, E>)
    : seq<Item<C, E>>
    requires i < attempts
    decreases attempts - i
  {
    if !SetupFails(calls(i)) then Relay(calls(i), [], more)
    else if i + 1 >= attempts || quits(i) then [Item(zero, calls(i)[0].err)]
    else RetryOf(calls, attempts, i + 1, quits, zero, more)
  }

  method RetryStream<C, E>(calls: nat -> seq<Item<C, E>>, n: int, quits: nat -> bool, zero: C, more: Consumer<C, E>)
    returns (sent: seq<Item<C, E>>)
    ensures sent == RetryOf(calls, if n < 1 then 1 else n, 0, quits, zero, more)
  {
    var attempts := if n < 1 then 1 else n;
    sent := [];
    var lastErr: Option<E> := None;
    var i := 0;
    while i < attempts
      invariant 0 <= i <= attempts && sent == []
      invariant i < attempts ==>
                RetryOf(calls, attempts, 0, quits, zero, more) == RetryOf(calls, attempts, i, quits, zero, more)
      invariant i == attempts ==>
                lastErr.Some? && RetryOf(calls, attempts, 0, quits, zero, more) == [Item(zero, lastErr)]
    {
      var items := calls(i);
      var started := false;
      var setupErr: Option<E> := None;
      var j := 0;
      while j < |items|
        invariant 0 <= j <= |items| && started == (j > 0)
        invariant setupErr == None
        invariant j == 0 ==> sent == []
        invariant j > 0 ==> !SetupFails(items)
        invariant Relay(items, [], more) == Relay(items[j..], sent, more)
      {
        assert items[j..][0] == items[j] && items[j..][1..] == items[j + 1..];
        if items[j].err.Some? {
          if started {
            sent := sent + [items[j]];
            return;
          }
          setupErr := items[j].err;
          break;
        }
        started := true;
        sent := sent + [items[j]];
        if !more(sent) {
          return;
        }
        j := j + 1;
      }
      if started || setupErr.None? {
        return;
      }
      lastErr := setupErr;
      if i >= attempts - 1 || quits(i) {
        break;
      }
      i := i + 1;
    }
    sent := [Item(zero, lastErr)];
  }

  // ---------- One contract ----------

  lemma {:induction false} ServedIsExpected<C, E>(attempts: seq<seq<Item<C, E>>>, i: nat, last: Option<E>,
                                                  ctx: nat -> Option<E>, zero: C, more: Consumer<C, E>)
    requires i <= |attempts| && attempts != [] && forall j :: ctx(j) == None
    requires forall j :: 0 <= j < i ==> SetupFails(attempts[j])
    requires i > 0 ==> SetupFails(attempts[i - 1]) && last == attempts[i - 1][0].err
    ensures Served(attempts, i, last, ctx, zero, more) == Expected(attempts, zero, more)
    decreases |attempts| - i
  {
    FirstServingFrom(attempts, i);
    if i < |attempts| && SetupFails(attempts[i]) {
      ServedIsExpected(attempts, i + 1, attempts[i][0].err, ctx, zero, more);
    }
  }

  lemma {:induction false} FirstServingFrom<C, E>(attempts: seq<seq<Item<C, E>>>, i: nat)
    requires i <= |attempts| && forall j :: 0 <= j < i ==> SetupFails(attempts[j])
    ensures FirstServing(attempts, 0) == FirstServing(attempts, i)
  {
    var a, b := FirstServing(attempts, 0), FirstServing(attempts, i);
    assert a >= i;
  }

  /** The first attempt from `i` on that does not fail before its first chunk, or after which the context is done. */
  function FirstSettled<C, E>(attempts: seq<seq<Item<C, E>>>, i: nat, ctx: nat -> Option<E>): (k: nat)
    requires i <= |attempts|
    ensures i <= k <= |attempts|
    ensures forall j :: i <= j < k ==> SetupFails(attempts[j]) && ctx(j).None?
    ensures k < |attempts| ==> !SetupFails(attempts[k]) || ctx(k).Some?
    decreases |attempts| - i
  {
    if i < |attempts| && SetupFails(attempts[i]) && ctx(i).None? then FirstSettled(attempts, i + 1, ctx) else i
  }

  /**
   What a fallback delivers under any context: the first serving attempt, if every one before it failed with the context
   alive; only the context's error, if that came first; and if neither came, only the last attempt's error.
   */
  lemma {:induction false} ServedIs<C, E>(attempts: seq<seq<Item<C, E>>>, i: nat, last: Option<E>,
                                          ctx: nat -> Option<E>, zero: C, more: Consumer<C, E>)
    requires i < |attempts|
    ensures var k := FirstSettled(attempts, i, ctx);
            Served(attempts, i, last, ctx, zero, more) ==
            if k == |attempts| then [Item(zero, attempts[k - 1][0].err)]
            else if SetupFails(attempts[k]) then [Item(zero, ctx(k))]
            else Relay(attempts[k], [], more)
    decreases |attempts| - i
  {
    if SetupFails(attempts[i]) && ctx(i).None? && i + 1 < |attempts| {
      ServedIs(attempts, i + 1, attempts[i][0].err, ctx, zero, more);
    }
  }

  /** Fallback with a live context meets the contract. */
  lemma FallbackMeetsContract<C, E>(attempts: seq<seq<Item<C, E>>>, ctx: nat -> Option<E>, noClients: E, zero: C,
                                    more: Consumer<C, E>)
    requires attempts != [] && forall j :: ctx(j) == None
    ensures FallbackOf(attempts, ctx, noClients, zero, more) == Expected(attempts, zero, more)
  {
    ServedIsExpected(attempts, 0, None, ctx, zero, more);
  }

  /**
   With no special chains, a configuration routes exactly like the fallback list it spells out, whatever the classifier
   says.
   */
  lemma ConfigIsFallback<C, E>(p: seq<Item<C, E>>, cs: seq<seq<Item<C, E>>>, classify: E -> ErrorKind,
                               ctx: nat -> Option<E>,
                               noClients: E, zero: C, more: Consumer<C, E>)
    ensures FallbackOf(Route(Config(Some(p), [], [], cs, classify)), ctx, noClients, zero, more)
         == FallbackOf([p] + cs, ctx, noClients, zero, more)
  {
    if !SetupFails(p) {
      assert ([p] + cs)[0] == p && ([p] + [])[0] == p;
    }
  }

  lemma {:induction false} RetryServes<C, E>(calls: nat -> seq<Item<C, E>>, attempts: nat, i: nat, quits: nat -> bool,
                                             zero: C, more: Consumer<C, E>,
                                             last: Option<E>, ctx: nat -> Option<E>)
    requires i < attempts && (forall j :: !quits(j)) && (forall j :: ctx(j) == None)
    ensures RetryOf(calls, attempts, i, quits, zero, more) ==
            Served(seq(attempts, k requires 0 <= k => calls(k)), i, last, ctx, zero, more)
    decreases attempts - i
  {
    var all := seq(attempts, k requires 0 <= k => calls(k));
    assert all[i] == calls(i);
    if SetupFails(calls(i)) && i + 1 < attempts {
      RetryServes(calls, attempts, i + 1, quits, zero, more, all[i][0].err, ctx);
    }
  }

  /** Retrying n times is falling back over the n successive calls. */
  lemma RetryIsFallback<C, E>(calls: nat -> seq<Item<C, E>>, attempts: nat, quits: nat -> bool, ctx: nat -> Option<E>,
                              noClients: E, zero: C, more: Consumer<C, E>)
    requires 0 < attempts && (forall j :: !quits(j)) && (forall j :: ctx(j) == None)
    ensures RetryOf(calls, attempts, 0, quits, zero, more)
         == FallbackOf(seq(attempts, k requires 0 <= k => calls(k)), ctx, noClients, zero, more)
  {
    RetryServes(calls, attempts, 0, quits, zero, more, None, ctx);
  }

  /**
   What retrying delivers, whenever the context ends: it calls again exactly after calls that failed before their first
   chunk, while attempts and context last, and delivers what the last call made yields, or only its error.
   */
  lemma {:induction false} RetryIs<C, E>(calls: nat -> seq<Item<C, E>>, attempts: nat, i: nat, quits: nat -> bool,
                                         zero: C, more: Consumer<C, E>)
      returns (k: nat)
    requires i < attempts
    ensures i <= k < attempts && (forall j :: i <= j < k ==> SetupFails(calls(j)) && !quits(j))
    ensures SetupFails(calls(k)) ==> k == attempts - 1 || quits(k)
    ensures RetryOf(calls, attempts, i, quits, zero, more) ==
            if SetupFails(calls(k)) then [Item(zero, calls(k)[0].err)] else Relay(calls(k), [], more)
    decreases attempts - i
  {
    k := i;
    if SetupFails(calls(i)) && i + 1 < attempts && !quits(i) {
      k := RetryIs(calls, attempts, i + 1, quits, zero, more);
    }
  }

  /** Item k is a chunk after which the consumer goes on. */
  predicate Passed<C, E>(items: seq<Item<C, E>>, k: nat, more: Consumer<C, E>)
    requires k < |items|
  {
    items[k].err.None? && more(items[..k + 1])
  }

  /**
   What a relayed attempt looks like: a prefix that stops at an error, at the consumer's wish, or at the end, and
   nowhere earlier.
   */
  lemma {:induction false} RelayShape<C, E>(items: seq<Item<C, E>>, done: nat, more: Consumer<C, E>)
    requires done <= |items|
    requires forall k :: 0 <= k < done ==> Passed(items, k, more)
    ensures var t := Relay(items[done..], items[..done], more);
            && t <= items && done <= |t|
            && (forall k :: 0 <= k < |t| - 1 ==> Passed(items, k, more))
            && (t == items || (t != [] && !Passed(items, |t| - 1, more)))
    decreases |items| - done
  {
    if done < |items| {
      var now := items[..done + 1];
      assert items[..done] + [items[done]] == now && items[done..][1..] == items[done + 1..];
      if Passed(items, done, more) { RelayShape(items, done + 1, more); }
    } else {
      assert items[..done] == items && items[done..] == [];
    }
  }

  /**
   The promises of failover, for all attempts and all consumers: chunks come from one attempt only, the first that does
   not fail before its first chunk, as far as its first error or the consumer's stop; there is at most one error, and it
   comes last; if every attempt fails, the consumer sees exactly the last one's error.
   */
  lemma FailoverPromises<C, E>(attempts: seq<seq<Item<C, E>>>, zero: C, more: Consumer<C, E>)
    requires attempts != []
    ensures var t, k := Expected(attempts, zero, more), FirstServing(attempts, 0);
            && (forall j :: 0 <= j < |t| - 1 ==> t[j].err.None?)
            && (k < |attempts| ==>
                  && t <= attempts[k]
                  && (forall j :: 0 <= j < |t| - 1 ==> Passed(attempts[k], j, more))
                  && (t == attempts[k] || (t != [] && !Passed(attempts[k], |t| - 1, more))))
            && (k == |attempts| ==> t == [Item(zero, attempts[k - 1][0].err)])
  {
    var k := FirstServing(attempts, 0);
    if k < |attempts| {
      var items := attempts[k];
      RelayShape(items, 0, more);
      assert items[0..] == items && items[..0] == [];
      var t := Relay(items, [], more);
      forall j | 0 <= j < |t| - 1 ensures t[j].err.None? {
        assert Passed(items, j, more) && t[j] == items[j];
      }
    }
  }

  // ---------- Generate ----------

  datatype Reply<R, E> = Ok(value: R) | Err(error: E)

  /** First success; else the context's error if it was cancelled after a failure; else the last failure. */
  function Answered<R, E>(attempts: seq<Reply<R, E>>, i: nat, last: E, ctx: nat -> Option<E>): Reply<R, E>
    requires i <= |attempts|
    decreases |attempts| - i
  {
    if i == |attempts| then Err(last)
    else if attempts[i].Ok? then attempts[i]
    else if ctx(i).Some? then Err(ctx(i).value)
    else Answered(attempts, i + 1, attempts[i].error, ctx)
  }

  /** The first attempt from `i` on that succeeds, or during which the context ends; their number if there is none. */
  function FirstSettling<R, E>(attempts: seq<Reply<R, E>>, i: nat, ctx: nat -> Option<E>): (k: nat)
    requires i <= |attempts|
    ensures i <= k <= |attempts|
    ensures forall j :: i <= j < k ==> attempts[j].Err? && ctx(j).None?
    ensures k < |attempts| ==> attempts[k].Ok? || ctx(k).Some?
    decreases |attempts| - i
  {
    if i < |attempts| && attempts[i].Err? && ctx(i).None? then FirstSettling(attempts, i + 1, ctx) else i
  }

  /**
   What a chain of attempts answers: the first success, if every attempt before it failed with the context alive; the
   context's error, if that came first; and if neither came, the last attempt's error.
   */
  lemma {:induction false} AnswerIs<R, E>(attempts: seq<Reply<R, E>>, i: nat, last: E, ctx: nat -> Option<E>)
    requires i <= |attempts|
    ensures var k := FirstSettling(attempts, i, ctx);
            Answered(attempts, i, last, ctx) ==
            if k == |attempts| then Err(if i == |attempts| then last else attempts[k - 1].error)
            else if attempts[k].Ok? then attempts[k]
            else Err(ctx(k).value)
    decreases |attempts| - i
  {
    if i < |attempts| && attempts[i].Err? && ctx(i).None? {
      AnswerIs(attempts, i + 1, attempts[i].error, ctx);
    }
  }

  function ReplyRoute<R, E>(cfg: Config<Reply<R, E>, E>): seq<Reply<R, E>> {
    match cfg.primary
    case None => []
    case Some(p) => [p] + if p.Err? then ChainFor(cfg, cfg.classify(p.error)) else []
  }

  method FallbackGenerate<R, E>(attempts: seq<Reply<R, E>>, ctx: nat -> Option<E>, noClients: E)
      returns (r: Reply<R, E>)
    ensures r == Answered(attempts, 0, noClients, ctx)
  {
    var lastErr := noClients;
    for i := 0 to |attempts|
      invariant Answered(attempts, 0, noClients, ctx) == Answered(attempts, i, lastErr, ctx)
    {
      if attempts[i].Ok? {
        return attempts[i];
      }
      lastErr := attempts[i].error;
      if ctx(i).Some? {
        return Err(ctx(i).value);
      }
    }
    r := Err(lastErr);
  }

  /**
   The same answer as a fallback over the primary and the chain for its kind of error, or the general chain; no primary
   means no clients.
   */
  method ConfigGenerate<R, E>(cfg: Config<Reply<R, E>, E>, ctx: nat -> Option<E>, noClients: E)
    returns (r: Reply<R, E>)
    ensures r == Answered(ReplyRoute(cfg), 0, noClients, ctx)
    ensures cfg.primary.None? ==> r == Err(noClients)
    ensures cfg.primary.Some? && cfg.primary.value.Ok? ==> r == cfg.primary.value
    ensures cfg.primary.Some? && cfg.primary.value.Err? ==>
              var p := cfg.primary.value;
              var kind := cfg.classify(p.error);
              && (kind == RateLimit && cfg.onRateLimit != [] ==>
                    r == Answered([p] + cfg.onRateLimit, 0, noClients, ctx))
              && (kind == ContextOverflow && cfg.onContextOverflow != [] ==>
                    r == Answered([p] + cfg.onContextOverflow, 0, noClients, ctx))
              && ((kind == RateLimit ==> cfg.onRateLimit == []) &&
                  (kind == ContextOverflow ==> cfg.onContextOverflow == []) ==>
                    r == Answered([p] + cfg.onError, 0, noClients, ctx))
  {
    if cfg.primary.None? {
      return Err(noClients);
    }
    var primary := cfg.primary.value;
    ghost var route := ReplyRoute(cfg);
    assert route[0] == primary;
    if primary.Ok? {
      return primary;
    }
    if ctx(0).Some? {
      return Err(ctx(0).value);
    }
    var rest := ChainFor(cfg, cfg.classify(primary.error));
    assert route == [primary] + rest;
    assert Answered(route, 0, noClients, ctx) == Answered(route, 1, primary.error, ctx);
    if |rest| == 0 {
      return Err(primary.error);
    }
    var lastErr := primary.error;
    for i := 0 to |rest|
      invariant Answered(route, 0, noClients, ctx) == Answered(route, i + 1, lastErr, ctx)
    {
      assert route[i + 1] == rest[i];
      if rest[i].Ok? {
        return rest[i];
      }
      lastErr := rest[i].error;
      if ctx(i + 1).Some? {
        return Err(ctx(i + 1).value);
      }
    }
    r := Err(lastErr);
  }

  /** Retry answers the first success among the calls it makes, and otherwise the error of the last call made. */
  method RetryGenerate<R, E>(calls: nat -> Reply<R, E>, n: int, quits: nat -> bool) returns (r: Reply<R, E>, made: nat)
    ensures var attempts := if n < 1 then 1 else n;
            && 1 <= made <= attempts
            && r == calls(made - 1)
            && (forall k :: 0 <= k < made - 1 ==> calls(k).Err? && !quits(k))
            && (r.Err? ==> made == attempts || quits(made - 1))
  {
    var attempts := if n < 1 then 1 else n;
    var i := 0;
    r := calls(0);
    while true
      invariant 0 <= i < attempts
      invariant forall k :: 0 <= k < i ==> calls(k).Err? && !quits(k)
      decreases attempts - i
    {
      r := calls(i);
      if r.Ok? || i >= attempts - 1 || quits(i) {
        return r, i + 1;
      }
      i := i + 1;
    }
  }
}
