/** Speculative decoding at temperature 0. A model is a deterministic function from the tokens it has
    consumed (its cache plus its inputs) to the logits of the next position; that is what causal means. */
module Speculative {
  import opened Wrappers

  /** First index of a largest logit. */
  function ArgMax(logits: seq<real>): (best: nat)
    ensures logits != [] ==> best < |logits|
  {
    if |logits| <= 1 then 0
    else
      var last := |logits| - 1;
      var best := ArgMax(logits[..last]);
      if logits[last] > logits[best] then last else best
  }

  lemma {:induction false} ArgMaxIsFirstLargest(logits: seq<real>)
    requires logits != []
    ensures forall i :: 0 <= i < |logits| ==> logits[i] <= logits[ArgMax(logits)]
    ensures forall i :: 0 <= i < ArgMax(logits) ==> logits[i] < logits[ArgMax(logits)]
  {
    if |logits| > 1 {
      var front := logits[..|logits| - 1];
      ArgMaxIsFirstLargest(front);
      assert forall i :: 0 <= i < |front| ==> front[i] == logits[i];
    }
  }

  datatype Model = Model(logits: seq<nat> -> seq<real>, fails: seq<nat> -> bool) {
    function Next(history: seq<nat>): nat {
      ArgMax(logits(history))
    }

    ghost predicate NeverFails() {
      forall h :: !fails(h)
    }
  }

  /** The model's own one-token-at-a-time decoding of n tokens. */
  function Greedy(m: Model, history: seq<nat>, n: nat): (tokens: seq<nat>)
    ensures |tokens| == n
    decreases n
  {
    if n == 0 then [] else var t := m.Next(history); [t] + Greedy(m, history + [t], n - 1)
  }

  datatype SpeculativeToken = SpeculativeToken(token: nat, logprobs: seq<real>, fromDraft: bool)

  datatype State = Prefill(prompt: seq<nat>) | Generate(lastToken: nat)

  /** What one call of next() returns. */
  datatype Item = Ok(value: SpeculativeToken) | Err

  /** The parts of a decoder that never change. */
  datatype Setup = Setup(target: Model, draft: Model, numDraftTokens: nat, normalise: seq<real> -> seq<real>)

  /** A decoder's whole state, its pending tokens in the order they will come out. */
  datatype Decoder = Decoder(targetCache: seq<nat>, draftCache: seq<nat>, state: State, tokenCount: nat,
                             queue: seq<SpeculativeToken>)

  /** num draft tokens from `start`: the draft cache afterwards and the tokens, unless a pass fails. */
  function DraftRun(m: Model, cache: seq<nat>, start: nat, num: nat): (seq<nat>, Option<seq<nat>>)
    decreases num
  {
    if num == 0 then (cache, Some([]))
    else
      var history := cache + [start];
      if m.fails(history) then (cache, None)
      else
        var t := m.Next(history);
        var (after, rest) := DraftRun(m, history, t, num - 1);
        (after, if rest.None? then None else Some([t] + rest.value))
  }

  /** The target's choice after each position of `inputs`. */
  function Targets(m: Model, cache: seq<nat>, inputs: seq<nat>): (targets: seq<nat>)
    ensures |targets| == |inputs|
  {
    seq(|inputs|, i requires 0 <= i < |inputs| => m.Next(cache + inputs[..i + 1]))
  }

  function Logprobs(s: Setup, cache: seq<nat>, inputs: seq<nat>): (logprobs: seq<seq<real>>)
    ensures |logprobs| == |inputs|
  {
    seq(|inputs|, i requires 0 <= i < |inputs| => s.normalise(s.target.logits(cache + inputs[..i + 1])))
  }

  /** Length of the longest agreeing prefix. */
  function Agreement(a: seq<nat>, b: seq<nat>): (n: nat)
    ensures n <= |a| && n <= |b| && a[..n] == b[..n]
    ensures n < |a| && n < |b| ==> a[n] != b[n]
  {
    if a != [] && b != [] && a[0] == b[0] then
      var n := Agreement(a[1..], b[1..]);
      assert a[..n + 1] == [a[0]] + a[1..][..n] && b[..n + 1] == [b[0]] + b[1..][..n];
      n + 1
    else 0
  }

  function AcceptedTokens(drafts: seq<nat>, logprobs: seq<seq<real>>, n: nat): (tokens: seq<SpeculativeToken>)
    requires n <= |drafts| && n <= |logprobs|
    ensures |tokens| == n
  {
    seq(n, i requires 0 <= i < n => SpeculativeToken(drafts[i], logprobs[i], true))
  }

  /** One call of next(), as a function of the decoder. */
  function Step(s: Setup, d: Decoder): (Decoder, Item) {
    if d.queue != [] then (d.(queue := d.queue[1..]), Ok(d.queue[0]))
    else match d.state
      case Prefill(prompt) => PrefillStep(s, d, prompt)
      case Generate(lastToken) => RoundStep(s, d, lastToken)
  }

  function PrefillStep(s: Setup, d: Decoder, prompt: seq<nat>): (Decoder, Item) {
    var targetHistory, draftHistory := d.targetCache + prompt, d.draftCache + prompt;
    if s.target.fails(targetHistory) then (d, Err)
    else if s.draft.fails(draftHistory) then (d.(targetCache := targetHistory), Err)
    else
      var token := s.target.Next(targetHistory);
      (Decoder(targetHistory, draftHistory, Generate(token), 1, d.queue),
       Ok(SpeculativeToken(token, s.normalise(s.target.logits(targetHistory)), false)))
  }

  function RoundStep(s: Setup, d: Decoder, lastToken: nat): (Decoder, Item) {
    var (draftCache, drafts) := DraftRun(s.draft, d.draftCache, lastToken, s.numDraftTokens);
    if drafts.None? then (d.(draftCache := draftCache), Err)
    else
      var inputs := [lastToken] + drafts.value;
      if s.target.fails(d.targetCache + inputs) then (d.(draftCache := draftCache), Err)
      else
        var targets := Targets(s.target, d.targetCache, inputs);
        var logprobs := Logprobs(s, d.targetCache, inputs);
        var accepted := Agreement(drafts.value, targets);
        DraftRunLength(s.draft, d.draftCache, lastToken, s.numDraftTokens);
        var tokens := AcceptedTokens(drafts.value, logprobs, accepted);
        var after := Decoder(d.targetCache + inputs, draftCache, Generate(targets[accepted]), d.tokenCount + 1, []);
        if tokens != [] then (after.(queue := tokens[1..]), Ok(tokens[0]))
        else (after, Ok(SpeculativeToken(targets[accepted], logprobs[accepted], false)))
  }

  lemma {:induction false} DraftRunLength(m: Model, cache: seq<nat>, start: nat, num: nat)
    ensures var (after, tokens) := DraftRun(m, cache, start, num); tokens.Some? ==> |tokens.value| == num
    decreases num
  {
    if num > 0 && !m.fails(cache + [start]) {
      DraftRunLength(m, cache + [start], m.Next(cache + [start]), num - 1);
    }
  }

  function Reversed<T>(s: seq<T>): (r: seq<T>)
    ensures |r| == |s|
  {
    if s == [] then [] else [s[|s| - 1]] + Reversed(s[..|s| - 1])
  }

  lemma {:induction false} ReversedTwice<T>(s: seq<T>)
    ensures Reversed(Reversed(s)) == s
  {
    if s != [] {
      var front, last := s[..|s| - 1], s[|s| - 1];
      ReversedTwice(front);
      ReversedCons(last, Reversed(front));
    }
  }

  lemma {:induction false} ReversedCons<T>(x: T, s: seq<T>)
    ensures Reversed([x] + s) == Reversed(s) + [x]
  {
    if s != [] {
      assert ([x] + s)[..|s|] == [x] + s[..|s| - 1];
      ReversedCons(x, s[..|s| - 1]);
    } else {
      assert [x] + s == [x];
    }
  }

  class SpeculativeGenerate {
    const setup: Setup
    var targetCache: seq<nat>
    var draftCache: seq<nat>
    var state: State
    var tokenCount: nat
    var pendingTokens: seq<SpeculativeToken>   // a stack: the last element comes out first

    constructor (setup: Setup, prompt: seq<nat>)
      ensures this.setup == setup && Abs() == Decoder([], [], Prefill(prompt), 0, [])
    {
      this.setup := setup;
      targetCache, draftCache, state, tokenCount, pendingTokens := [], [], Prefill(prompt), 0, [];
    }

    ghost function Abs(): Decoder
      reads this
    {
      Decoder(targetCache, draftCache, state, tokenCount, Reversed(pendingTokens))
    }

    method GenerateDraftTokens(start: nat) returns (tokens: Option<seq<nat>>)
      modifies this`draftCache
      ensures (draftCache, tokens) == DraftRun(setup.draft, old(draftCache), start, setup.numDraftTokens)
    {
      var drafts: seq<nat> := [];
      ghost var cache := draftCache;
      PrependNone(DraftRun(setup.draft, cache, start, setup.numDraftTokens));
      var current := start;
      for i := 0 to setup.numDraftTokens
        invariant |drafts| == i
        invariant DraftRun(setup.draft, old(draftCache), start, setup.numDraftTokens)
               == Prepend(drafts, DraftRun(setup.draft, draftCache, current, setup.numDraftTokens - i))
      {
        var history := draftCache + [current];
        if setup.draft.fails(history) {
          return None;
        }
        draftCache := history;
        var token := setup.draft.Next(history);
        PrependOne(drafts, token, DraftRun(setup.draft, history, token, setup.numDraftTokens - i - 1));
        drafts := drafts + [token];
        current := token;
      }
      assert drafts + [] == drafts;
      return Some(drafts);
    }

    method VerifyDraftTokens(inputs: seq<nat>) returns (r: Option<(seq<nat>, seq<seq<real>>)>)
      modifies this`targetCache
      ensures r.None? <==> setup.target.fails(old(targetCache) + inputs)
      ensures r.None? ==> targetCache == old(targetCache)
      ensures r.Some? ==> targetCache == old(targetCache) + inputs
      ensures r.Some? ==>
        r.value == (Targets(setup.target, old(targetCache), inputs), Logprobs(setup, old(targetCache), inputs))
      ensures r.Some? ==> |r.value.0| == |r.value.1| == |inputs|
      ensures r.Some? ==> forall i :: 0 <= i < |inputs| ==>
        && r.value.0[i] == ArgMax(setup.target.logits(old(targetCache) + inputs[..i + 1]))
        && r.value.1[i] == setup.normalise(setup.target.logits(old(targetCache) + inputs[..i + 1]))
    {
      var cache := targetCache;
      if setup.target.fails(cache + inputs) {
        return None;
      }
      targetCache := cache + inputs;
      var tokens, logprobs := [], [];
      for i := 0 to |inputs|
        invariant tokens == Targets(setup.target, cache, inputs)[..i]
        invariant logprobs == Logprobs(setup, cache, inputs)[..i]
      {
        var logits := setup.target.logits(cache + inputs[..i + 1]);
        tokens := tokens + [ArgMax(logits)];
        logprobs := logprobs + [setup.normalise(logits)];
      }
      assert tokens == Targets(setup.target, cache, inputs) && logprobs == Logprobs(setup, cache, inputs);
      return Some((tokens, logprobs));
    }

    /** Taking from the top of the stack takes the first of the queue. */
    method Pop(ghost queue: seq<SpeculativeToken>) returns (token: SpeculativeToken)
      requires pendingTokens != [] && Reversed(pendingTokens) == queue
      modifies this`pendingTokens
      ensures token == queue[0] && Reversed(pendingTokens) == queue[1..]
    {
      token := pendingTokens[|pendingTokens| - 1];
      pendingTokens := pendingTokens[..|pendingTokens| - 1];
    }

    method Next() returns (item: Item)
      modifies this
      ensures (Abs(), item) == Step(setup, old(Abs()))
    {
      if pendingTokens != [] {
        var token := Pop(Reversed(pendingTokens));
        return Ok(token);
      }
      match state
      case Prefill(prompt) =>
        var targetHistory, draftHistory := targetCache + prompt, draftCache + prompt;
        if setup.target.fails(targetHistory) {
          return Err;
        }
        targetCache := targetHistory;
        if setup.draft.fails(draftHistory) {
          return Err;
        }
        draftCache := draftHistory;
        var token := setup.target.Next(targetHistory);
        state, tokenCount := Generate(token), 1;
        item := Ok(SpeculativeToken(token, setup.normalise(setup.target.logits(targetHistory)), false));
      case Generate(lastToken) =>
        item := Round(lastToken);
    }

    method Round(lastToken: nat) returns (item: Item)
      requires state == Generate(lastToken) && pendingTokens == []
      modifies this
      ensures (Abs(), item) == RoundStep(setup, old(Abs()), lastToken)
    {
      hide Agreement, Targets, Logprobs, AcceptedTokens, DraftRun, Reversed;
      DraftRunLength(setup.draft, draftCache, lastToken, setup.numDraftTokens);
      var drafts := GenerateDraftTokens(lastToken);
      if drafts.None? {
        return Err;
      }
      var verified := VerifyDraftTokens([lastToken] + drafts.value);
      if verified.None? {
        return Err;
      }
      var (targetTokens, logprobs) := verified.value;
      var accepted := Accept(drafts.value, targetTokens, logprobs);
      state := Generate(targetTokens[accepted]);
      tokenCount := tokenCount + 1;
      ghost var tokens := pendingTokens;
      pendingTokens := Reversed(pendingTokens);
      if pendingTokens != [] {
        ReversedTwice(tokens);
        var token := Pop(tokens);
        item := Ok(token);
      } else {
        item := Ok(SpeculativeToken(targetTokens[accepted], logprobs[accepted], false));
      }
    }

    /** The comparison loop: pushes every draft that agrees, up to the first that does not. */
    method Accept(drafts: seq<nat>, targetTokens: seq<nat>, logprobs: seq<seq<real>>) returns (accepted: nat)
      requires |targetTokens| == |logprobs| == |drafts| + 1 && pendingTokens == []
      modifies this`pendingTokens
      ensures accepted == Agreement(drafts, targetTokens)
      ensures pendingTokens == AcceptedTokens(drafts, logprobs, accepted)
    {
      accepted := 0;
      for i := 0 to |drafts|
        invariant accepted == i && Agreement(drafts, targetTokens) == i + Agreement(drafts[i..], targetTokens[i..])
        invariant pendingTokens == AcceptedTokens(drafts, logprobs, i)
      {
        assert drafts[i..][1..] == drafts[i + 1..] && targetTokens[i..][1..] == targetTokens[i + 1..];
        if drafts[i] != targetTokens[i] {
          break;
        }
        accepted := accepted + 1;
        pendingTokens := pendingTokens + [SpeculativeToken(drafts[i], logprobs[i], true)];
      }
    }
  }

  ghost function Prepend(tokens: seq<nat>, r: (seq<nat>, Option<seq<nat>>)): (seq<nat>, Option<seq<nat>>) {
    (r.0, if r.1.None? then None else Some(tokens + r.1.value))
  }

  lemma PrependNone(r: (seq<nat>, Option<seq<nat>>))
    ensures Prepend([], r) == r
  {
    if r.1.Some? {
      assert [] + r.1.value == r.1.value;
    }
  }

  lemma PrependOne(tokens: seq<nat>, t: nat, r: (seq<nat>, Option<seq<nat>>))
    ensures Prepend(tokens + [t], r) == Prepend(tokens, Prepend([t], r))
  {
    if r.1.Some? {
      assert tokens + [t] + r.1.value == tokens + ([t] + r.1.value);
    }
  }
}
