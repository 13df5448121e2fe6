/**
 The token budget of a client: a shared counter that callers raise with compare-and-swap, interleaved one atomic
 operation at a time, and that anyone may reset.
 */
module Budget {
  import opened Words

  /** A caller of `add`: not in it, about to load the counter, or about to decide and swap on the value it loaded. */
  datatype Caller = Out | Load(tokens: int64) | Swap(tokens: int64, seen: int64)

  /** `spent` is what successful calls have added since the last reset. */
  datatype State = State(max: int64, used: int64, callers: map<nat, Caller>, spent: int)

  datatype Step = Add(p: nat, tokens: int64) | Go(p: nat) | Reset

  function Initial(max: int64): State {
    State(max, 0, map[], 0)
  }

  function Next(s: State, step: Step): State {
    match step
    case Add(p, tokens) =>
      if p in s.callers && s.callers[p] != Out then s
      else s.(callers := s.callers[p := if tokens <= 0 then Out else Load(tokens)])
    case Go(p) =>
      if p !in s.callers then s else
        (match s.callers[p]
         case Out => s
         case Load(tokens) => s.(callers := s.callers[p := Swap(tokens, s.used)])
         case Swap(tokens, seen) =>
           if seen >= s.max || Wrap64(seen + tokens) > s.max then s.(callers := s.callers[p := Out])
           else if s.used == seen then
             s.(used := Wrap64(seen + tokens), spent := s.spent + tokens, callers := s.callers[p := Out])
           else s.(callers := s.callers[p := Load(tokens)]))
    case Reset => s.(used := 0, spent := 0)
  }

  function Run(s: State, steps: seq<Step>): State
    decreases |steps|
  {
    if steps == [] then s else Run(Next(s, steps[0]), steps[1..])
  }

  /** No single request is so large that adding it to an unexhausted budget leaves 64 bits. */
  ghost predicate Modest(max: int64, steps: seq<Step>) {
    forall i :: 0 <= i < |steps| && steps[i].Add? ==> steps[i].tokens + max <= TWO63
  }

  ghost predicate Sound(s: State) {
    && 0 <= s.used && (s.used == 0 || s.used <= s.max)
    && s.used == s.spent
    && forall p :: p in s.callers ==>
         match s.callers[p]
         case Out => true
         case Load(tokens) => 0 < tokens && tokens + s.max <= TWO63
         case Swap(tokens, seen) => 0 < tokens && tokens + s.max <= TWO63 && 0 <= seen
  }

  lemma {:induction false} RunSound(s: State, steps: seq<Step>)
    requires Sound(s) && Modest(s.max, steps)
    ensures Sound(Run(s, steps)) && Run(s, steps).max == s.max
    decreases |steps|
  {
    if steps != [] {
      NextSound(s, steps[0]);
      forall i | 0 <= i < |steps[1..]| ensures steps[1..][i] == steps[i + 1] {}
      RunSound(Next(s, steps[0]), steps[1..]);
    }
  }

  lemma NextSound(s: State, step: Step)
    requires Sound(s) && (step.Add? ==> step.tokens + s.max <= TWO63)
    ensures Sound(Next(s, step)) && Next(s, step).max == s.max
  {
    if step.Go? && step.p in s.callers && s.callers[step.p].Swap? {
      var c := s.callers[step.p];
      if c.seen < s.max { assert Wrap64(c.seen + c.tokens) == c.seen + c.tokens; }
    }
  }

  /**
   Budget safety: in every interleaving of loads, swaps and resets, usage stays between 0 and the maximum and is exactly
   what was successfully added since the last reset. With a maximum of zero or less nothing is ever added.
   */
  lemma BudgetHolds(max: int64, steps: seq<Step>)
    requires Modest(max, steps)
    ensures var s := Run(Initial(max), steps);
            0 <= s.used <= (if max > 0 then max else 0) && s.used == s.spent
  {
    RunSound(Initial(max), steps);
  }

  /**
   One caller left alone: its request is added exactly if the budget is not used up and the request still fits in it,
   the case that fills it included; and after a reset any request up to the whole budget goes through.
   */
  lemma AloneAdds(s: State, p: nat, tokens: int64)
    requires 0 <= s.used <= s.max && tokens + s.max <= TWO63 && (p in s.callers ==> s.callers[p] == Out)
    ensures Run(s, [Add(p, tokens), Go(p), Go(p)] + []).used ==
            if 0 < tokens && s.used < s.max && s.used + tokens <= s.max then s.used + tokens else s.used
    ensures Next(s, Reset).used == 0 && Next(s, Reset).callers == s.callers
    ensures Run(Next(s, Reset), [Add(p, tokens), Go(p), Go(p)] + []).used == if 0 < tokens <= s.max then tokens else 0
  {
    AloneAddsFrom(s, p, tokens);
    AloneAddsFrom(Next(s, Reset), p, tokens);
  }

  lemma AloneAddsFrom(s: State, p: nat, tokens: int64)
    requires 0 <= s.used <= s.max && tokens + s.max <= TWO63 && (p in s.callers ==> s.callers[p] == Out)
    ensures Run(s, [Add(p, tokens), Go(p), Go(p)] + []).used ==
            if 0 < tokens && s.used < s.max && s.used + tokens <= s.max then s.used + tokens else s.used
  {
    RunThree(s, Add(p, tokens), Go(p), Go(p), []);
    if 0 < tokens && s.used < s.max { assert Wrap64(s.used + tokens) == s.used + tokens; }
  }

  /** The bound on requests cannot be relaxed: any larger request can drive the counter negative. */
  lemma HugeRequestBreaks(max: int64, tokens: int64)
    requires 0 < max && tokens + max > TWO63
    ensures Run(Initial(max), [Add(0, max - 1), Go(0), Go(0)] + ([Add(0, tokens), Go(0), Go(0)] + [])).used < 0
  {
    var s3 := Next(Next(Next(Initial(max), Add(0, max - 1)), Go(0)), Go(0));
    assert s3.used == max - 1 && s3.max == max && s3.callers == map[0 := Out];
    var s6 := Next(Next(Next(s3, Add(0, tokens)), Go(0)), Go(0));
    assert s6.used == Wrap64(max - 1 + tokens) < 0;
    RunThree(s3, Add(0, tokens), Go(0), Go(0), []);
    RunThree(Initial(max), Add(0, max - 1), Go(0), Go(0), [Add(0, tokens), Go(0), Go(0)] + []);
  }

  lemma RunThree(s: State, a: Step, b: Step, c: Step, rest: seq<Step>)
    ensures Run(s, [a, b, c] + rest) == Run(Next(Next(Next(s, a), b), c), rest)
  {
    var all := [a, b, c] + rest;
    assert all[1..] == [b, c] + rest && ([b, c] + rest)[1..] == [c] + rest && ([c] + rest)[1..] == rest;
    assert Run(Next(Next(s, a), b), [c] + rest) == Run(Next(Next(Next(s, a), b), c), rest);
    assert Run(Next(s, a), [b, c] + rest) == Run(Next(Next(s, a), b), [c] + rest);
  }
}
