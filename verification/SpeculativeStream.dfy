/** What a whole run of the speculative decoder emits. */
module SpeculativeStream {
  import opened Speculative
  import opened Wrappers

  // ---- one round ----

  lemma {:induction false} TargetsAreGreedy(m: Model, cache: seq<nat>, inputs: seq<nat>, n: nat)
    requires n < |inputs|
    requires forall i :: 0 <= i < n ==> inputs[i + 1] == Targets(m, cache, inputs)[i]
    ensures Targets(m, cache, inputs)[..n + 1] == Greedy(m, cache + [inputs[0]], n + 1)
    decreases n
  {
    var targets := Targets(m, cache, inputs);
    var history, rest := cache + [inputs[0]], inputs[1..];
    assert inputs[..1] == [inputs[0]];
    if n > 0 {
      forall i | 0 <= i < |rest| ensures Targets(m, history, rest)[i] == targets[i + 1] {
        assert cache + inputs[..i + 2] == history + rest[..i + 1];
      }
      TargetsAreGreedy(m, history, rest, n - 1);
      assert targets[..n + 1] == [targets[0]] + Targets(m, history, rest)[..n];
      assert history + [rest[0]] == history + [targets[0]];
    } else {
      assert Greedy(m, history, 1) == [m.Next(history)];
    }
  }

  /** Accepted drafts followed by the target's own token are the target's greedy continuation of the
      cache it was given, and acceptance stops only where the draft disagrees with it. */
  lemma RoundIsGreedy(m: Model, cache: seq<nat>, lastToken: nat, drafts: seq<nat>)
    ensures var targets := Targets(m, cache, [lastToken] + drafts);
      var accepted := Agreement(drafts, targets);
      && accepted < |targets|
      && drafts[..accepted] + [targets[accepted]] == Greedy(m, cache + [lastToken], accepted + 1)
      && (accepted < |drafts| ==> drafts[accepted] != targets[accepted])
  {
    var inputs := [lastToken] + drafts;
    var targets := Targets(m, cache, inputs);
    var accepted := Agreement(drafts, targets);
    forall i | 0 <= i < accepted ensures inputs[i + 1] == targets[i] {
      assert drafts[..accepted][i] == targets[..accepted][i];
    }
    hide Agreement, Greedy, Targets;
    TargetsAreGreedy(m, cache, inputs, accepted);
    assert targets[..accepted + 1] == targets[..accepted] + [targets[accepted]];
  }

  /** The part of a decoder that a round starts from. */
  datatype Core = Core(targetCache: seq<nat>, draftCache: seq<nat>, lastToken: nat)

  ghost function CoreOf(d: Decoder): Core
    requires d.state.Generate?
  {
    Core(d.targetCache, d.draftCache, d.state.lastToken)
  }

  /** A draft run that fails nowhere yields the draft model's greedy continuation. */
  lemma {:induction false} DraftRunIsGreedy(m: Model, cache: seq<nat>, start: nat, num: nat)
    requires DraftRun(m, cache, start, num).1.Some?
    ensures DraftRun(m, cache, start, num).1 == Some(Greedy(m, cache + [start], num))
    ensures DraftRun(m, cache, start, num).0 == cache + ([start] + Greedy(m, cache + [start], num))[..num]
    decreases num
  {
    if num > 0 {
      var history := cache + [start];
      var t := m.Next(history);
      DraftRunIsGreedy(m, history, t, num - 1);
      var rest := Greedy(m, history + [t], num - 1);
      assert ([start] + ([t] + rest))[..num] == [start] + ([t] + rest)[..num - 1];
    }
  }

  /** A draft run that fails has fed k tokens of that continuation to the cache and fails on the next. */
  lemma {:induction false} FailedDraftRun(m: Model, cache: seq<nat>, start: nat, num: nat) returns (k: nat)
    requires DraftRun(m, cache, start, num).1.None?
    ensures k < num
    ensures var inputs := [start] + Greedy(m, cache + [start], num);
      DraftRun(m, cache, start, num).0 == cache + inputs[..k] && m.fails(cache + inputs[..k + 1])
    decreases num
  {
    var history := cache + [start];
    if m.fails(history) {
      k := 0;
      assert ([start] + Greedy(m, history, num))[..1] == [start];
    } else {
      var t := m.Next(history);
      k := FailedDraftRun(m, history, t, num - 1);
      var rest := [t] + Greedy(m, history + [t], num - 1);
      assert Greedy(m, history, num) == rest;
      hide DraftRun, Greedy;
      OneFurther(cache, start, rest, k);
      OneFurther(cache, start, rest, k + 1);
      k := k + 1;
    }
  }

  lemma OneFurther(cache: seq<nat>, start: nat, rest: seq<nat>, k: nat)
    requires k <= |rest|
    ensures cache + [start] + rest[..k] == cache + ([start] + rest)[..k + 1]
  {
  }

  ghost function Drafts(s: Setup, c: Core): seq<nat> {
    Greedy(s.draft, c.draftCache + [c.lastToken], s.numDraftTokens)
  }

  ghost function Accepted(s: Setup, c: Core): (n: nat)
    ensures n <= s.numDraftTokens
  {
    Agreement(Drafts(s, c), Targets(s.target, c.targetCache, [c.lastToken] + Drafts(s, c)))
  }

  /** The target's greedy continuation that one round works out: accepted drafts and one more token. */
  ghost function Worked(s: Setup, c: Core): seq<nat> {
    Greedy(s.target, c.targetCache + [c.lastToken], Accepted(s, c) + 1)
  }

  /** The next round starts from caches that still hold every draft fed to them. */
  ghost function NextCore(s: Setup, c: Core): Core {
    Core(c.targetCache + [c.lastToken] + Drafts(s, c),
         c.draftCache + ([c.lastToken] + Drafts(s, c))[..s.numDraftTokens],
         Worked(s, c)[Accepted(s, c)])
  }

  /** What a round contributes to the stream: the accepted drafts, or the target's token if there are none. */
  ghost function RoundTokens(s: Setup, c: Core): (tokens: seq<SpeculativeToken>)
    ensures tokens != []
  {
    var logprobs := Logprobs(s, c.targetCache, [c.lastToken] + Drafts(s, c));
    if Accepted(s, c) > 0 then AcceptedTokens(Drafts(s, c), logprobs, Accepted(s, c))
    else [SpeculativeToken(Worked(s, c)[0], logprobs[0], false)]
  }

  ghost function Ids(tokens: seq<SpeculativeToken>): (ids: seq<nat>)
    ensures |ids| == |tokens| && forall i :: 0 <= i < |ids| ==> ids[i] == tokens[i].token
  {
    seq(|tokens|, i requires 0 <= i < |tokens| => tokens[i].token)
  }

  /** A round that accepted a drafts emits the first a tokens it worked out and drops the last one;
      a round that accepted none emits its single token. */
  lemma RoundDropsItsLastToken(s: Setup, c: Core)
    ensures Ids(RoundTokens(s, c)) == if Accepted(s, c) > 0 then Worked(s, c)[..Accepted(s, c)] else Worked(s, c)
    ensures forall i :: 0 <= i < |RoundTokens(s, c)| ==> RoundTokens(s, c)[i].fromDraft == (Accepted(s, c) > 0)
  {
    RoundIsGreedy(s.target, c.targetCache, c.lastToken, Drafts(s, c));
  }

  /** What the target has seen when it says the i-th token of a round: its cache, the round's first input and the
      tokens before it in the round. */
  ghost function Seen(s: Setup, c: Core, i: nat): seq<nat>
    requires i <= |RoundTokens(s, c)|
  {
    c.targetCache + [c.lastToken] + Ids(RoundTokens(s, c))[..i]
  }

  /** The target's own choice after this history, with the log-probabilities of the same forward pass. */
  ghost predicate SaidAfter(s: Setup, history: seq<nat>, token: SpeculativeToken) {
    token.token == ArgMax(s.target.logits(history)) && token.logprobs == s.normalise(s.target.logits(history))
  }

  /** Every token of a round, accepted draft or not, is what the target says after the tokens before it. */
  lemma RoundSays(s: Setup, c: Core, i: nat)
    requires i < |RoundTokens(s, c)|
    ensures SaidAfter(s, Seen(s, c, i), RoundTokens(s, c)[i])
  {
    var drafts, tokens := Drafts(s, c), RoundTokens(s, c);
    var inputs := [c.lastToken] + drafts;
    var targets := Targets(s.target, c.targetCache, inputs);
    RoundIsGreedy(s.target, c.targetCache, c.lastToken, drafts);
    hide Greedy, Agreement, Drafts;
    if Accepted(s, c) > 0 {
      assert targets[..Accepted(s, c)][i] == drafts[..Accepted(s, c)][i];
      assert Ids(tokens)[..i] == drafts[..i];
      assert c.targetCache + inputs[..i + 1] == c.targetCache + [c.lastToken] + drafts[..i];
    } else {
      assert inputs[..1] == [c.lastToken];
      assert Worked(s, c) == drafts[..0] + [targets[0]];
      assert c.targetCache + [c.lastToken] + Ids(tokens)[..0] == c.targetCache + [c.lastToken];
    }
  }

  /** next() on an empty queue, when it returns a token, performs exactly this round. */
  lemma RoundRefines(s: Setup, d: Decoder)
    requires d.state.Generate? && d.queue == [] && Step(s, d).1.Ok?
    ensures var (after, item) := Step(s, d);
      && after.state.Generate? && CoreOf(after) == NextCore(s, CoreOf(d))
      && [item.value] + after.queue == RoundTokens(s, CoreOf(d))
      && after.tokenCount == d.tokenCount + 1
  {
    hide Agreement, Greedy, Targets, Logprobs, AcceptedTokens, DraftRun;
    var c := CoreOf(d);
    DraftRunIsGreedy(s.draft, c.draftCache, c.lastToken, s.numDraftTokens);
    RoundIsGreedy(s.target, c.targetCache, c.lastToken, Drafts(s, c));
    assert c.targetCache + ([c.lastToken] + Drafts(s, c)) == c.targetCache + [c.lastToken] + Drafts(s, c);
  }

  // ---- failed calls ----

  /** A failed call in a generating state leaves the decoder as it was, but for the tokens the draft model has
      already taken: all of the round's when it was the target that failed. */
  lemma FailedRound(s: Setup, d: Decoder) returns (k: nat)
    requires d.state.Generate? && Step(s, d).1.Err?
    ensures var c := CoreOf(d);
      && d.queue == [] && k <= s.numDraftTokens
      && Step(s, d).0 == d.(draftCache := c.draftCache + ([c.lastToken] + Drafts(s, c))[..k])
      && (if k < s.numDraftTokens then s.draft.fails(c.draftCache + ([c.lastToken] + Drafts(s, c))[..k + 1])
          else s.target.fails(c.targetCache + ([c.lastToken] + Drafts(s, c))))
  {
    hide Greedy, Targets, Logprobs, AcceptedTokens, Agreement, DraftRun;
    var c := CoreOf(d);
    if DraftRun(s.draft, c.draftCache, c.lastToken, s.numDraftTokens).1.None? {
      k := FailedDraftRun(s.draft, c.draftCache, c.lastToken, s.numDraftTokens);
    } else {
      DraftRunIsGreedy(s.draft, c.draftCache, c.lastToken, s.numDraftTokens);
      k := s.numDraftTokens;
    }
  }

  /** A failed prefill leaves the decoder as it was, unless it is the draft model that fails: the prompt is then
      already in the target cache. */
  lemma FailedPrefill(s: Setup, d: Decoder, prompt: seq<nat>)
    requires d.state == Prefill(prompt) && d.queue == []
    ensures Step(s, d).1.Err? <==> s.target.fails(d.targetCache + prompt) || s.draft.fails(d.draftCache + prompt)
    ensures Step(s, d).1.Err? ==>
      Step(s, d).0 == if s.target.fails(d.targetCache + prompt) then d else d.(targetCache := d.targetCache + prompt)
  {
  }

  /** n calls of a decoder whose draft model refuses the prompt: the target is fed the prompt again by each. */
  lemma {:induction false} RefusedPrompt(s: Setup, d: Decoder, prompt: seq<nat>, n: nat)
    requires d.state == Prefill(prompt) && d.queue == [] && s.draft.fails(d.draftCache + prompt)
    requires forall i: nat {:trigger Repeated(prompt, i)} ::
      1 <= i <= n ==> !s.target.fails(d.targetCache + Repeated(prompt, i))
    ensures Reached(s, d, n) == d.(targetCache := d.targetCache + Repeated(prompt, n))
    ensures forall item :: item in Calls(s, d, n) ==> item.Err?
    decreases n
  {
    if n == 0 {
      assert d.targetCache + Repeated(prompt, 0) == d.targetCache;
    } else {
      RepeatedMore(d.targetCache, prompt, 0);
      FailedPrefill(s, d, prompt);
      var after := Step(s, d).0;
      hide Step, Repeated;
      forall i: nat | 1 <= i <= n - 1 ensures !s.target.fails(after.targetCache + Repeated(prompt, i)) {
        RepeatedMore(d.targetCache, prompt, i);
      }
      RefusedPrompt(s, after, prompt, n - 1);
      RepeatedMore(d.targetCache, prompt, n - 1);
    }
  }

  lemma RepeatedMore(cache: seq<nat>, prompt: seq<nat>, i: nat)
    ensures cache + prompt + Repeated(prompt, i) == cache + Repeated(prompt, i + 1)
    ensures i == 0 ==> cache + Repeated(prompt, 1) == cache + prompt
  {
  }

  function Repeated(prompt: seq<nat>, n: nat): seq<nat> {
    if n == 0 then [] else prompt + Repeated(prompt, n - 1)
  }

  // ---- whole runs ----

  /** The items of n consecutive calls of next(). */
  function Calls(s: Setup, d: Decoder, n: nat): (items: seq<Item>)
    ensures |items| == n
    decreases n
  {
    if n == 0 then [] else var (after, item) := Step(s, d); [item] + Calls(s, after, n - 1)
  }

  /** The decoder after n calls. */
  function Reached(s: Setup, d: Decoder, n: nat): Decoder
    decreases n
  {
    if n == 0 then d else Reached(s, Step(s, d).0, n - 1)
  }

  /** No call failed. */
  predicate AllOk(items: seq<Item>) {
    forall i :: 0 <= i < |items| ==> items[i].Ok?
  }

  function Start(prompt: seq<nat>): Decoder {
    Decoder([], [], Prefill(prompt), 0, [])
  }

  function Oks(tokens: seq<SpeculativeToken>): seq<Item> {
    seq(|tokens|, i requires 0 <= i < |tokens| => Ok(tokens[i]))
  }

  /** r rounds, back to back. */
  ghost function Rounds(s: Setup, c: Core, r: nat): (tokens: seq<SpeculativeToken>)
    ensures |tokens| >= r
    decreases r
  {
    if r == 0 then [] else RoundTokens(s, c) + Rounds(s, NextCore(s, c), r - 1)
  }

  lemma {:induction false} RoundsExtend(s: Setup, c: Core, r: nat)
    ensures Rounds(s, c, r) <= Rounds(s, c, r + 1)
    decreases r
  {
    hide RoundTokens, NextCore;
    if r > 0 {
      RoundsExtend(s, NextCore(s, c), r - 1);
      PrefixAfter(RoundTokens(s, c), Rounds(s, NextCore(s, c), r - 1), Rounds(s, NextCore(s, c), r));
    }
  }

  lemma PrefixAfter<T>(front: seq<T>, a: seq<T>, b: seq<T>)
    requires a <= b
    ensures front + a <= front + b
  {
  }

  /** Taking the head off a stream. */
  lemma HeadOff(first: SpeculativeToken, queue: seq<SpeculativeToken>, rest: seq<SpeculativeToken>, n: nat)
    requires 0 < n && n - 1 <= |queue| + |rest|
    ensures Oks([first] + queue + rest)[..n] == [Ok(first)] + Oks(queue + rest)[..n - 1]
  {
  }

  lemma SamePrefix(queue: seq<SpeculativeToken>, a: seq<SpeculativeToken>, b: seq<SpeculativeToken>, n: nat)
    requires a <= b && n <= |a|
    ensures Oks(queue + a)[..n] == Oks(queue + b)[..n]
  {
  }

  lemma AllOkSplits(s: Setup, d: Decoder, n: nat)
    requires n > 0
    ensures AllOk(Calls(s, d, n)) <==> Step(s, d).1.Ok? && AllOk(Calls(s, Step(s, d).0, n - 1))
    ensures Calls(s, d, n) == [Step(s, d).1] + Calls(s, Step(s, d).0, n - 1)
  {
    AllOkCons(Step(s, d).1, Calls(s, Step(s, d).0, n - 1));
    hide Step, AllOk;
  }

  lemma AllOkCons(item: Item, rest: seq<Item>)
    ensures AllOk([item] + rest) <==> item.Ok? && AllOk(rest)
  {
    var all := [item] + rest;
    assert all[0] == item && all[1..] == rest;
    if item.Ok? && AllOk(rest) {
      forall i | 0 <= i < |all| ensures all[i].Ok? {
        assert i > 0 ==> all[i] == rest[i - 1];
      }
    }
    if AllOk(all) {
      forall i | 0 <= i < |rest| ensures rest[i].Ok? {
        assert rest[i] == all[i + 1];
      }
    }
  }

  /** As long as no call fails, the stream is what is queued, then round after round; a round starts only on
      an empty queue. */
  lemma {:induction false} StreamIsRounds(s: Setup, d: Decoder, n: nat)
    requires d.state.Generate? && AllOk(Calls(s, d, n))
    ensures Calls(s, d, n) == Oks(d.queue + Rounds(s, CoreOf(d), n))[..n]
    decreases n
  {
    hide Rounds, Oks, RoundStep, CoreOf, RoundTokens, NextCore;
    if n > 0 {
      var (after, item) := Step(s, d);
      AllOkSplits(s, d, n);
      hide Calls, AllOk;
      if d.queue == [] {
        RoundRefines(s, d);
        StreamIsRounds(s, after, n - 1);
        StartsRound(s, d, after, item, n);
      } else {
        StreamIsRounds(s, after, n - 1);
        ServesQueue(s, d, after, item, n);
      }
    }
  }

  lemma {:induction false} CallsSplit(s: Setup, d: Decoder, i: nat, n: nat)
    ensures Calls(s, d, i + n)[i..] == Calls(s, Reached(s, d, i), n)
    decreases i
  {
    if i > 0 {
      var after := Step(s, d).0;
      CallsSplit(s, after, i - 1, n);
      assert Calls(s, d, i + n)[1..] == Calls(s, after, i - 1 + n);
    }
  }

  lemma {:induction false} StillGenerating(s: Setup, d: Decoder, n: nat)
    requires d.state.Generate?
    ensures Reached(s, d, n).state.Generate?
    decreases n
  {
    hide DraftRun, Targets, Logprobs, Agreement, AcceptedTokens;
    if n > 0 {
      StillGenerating(s, Step(s, d).0, n - 1);
    }
  }

  /** Behind a failed call, wherever it happens in a run, the stream goes on with rounds from the caches the
      failure left, until the next failed call. */
  lemma StreamAfterFailure(s: Setup, d: Decoder, i: nat, n: nat)
    requires d.state.Generate? && Calls(s, d, i + 1)[i].Err? && AllOk(Calls(s, d, i + 1 + n)[i + 1..])
    ensures Reached(s, d, i + 1).state.Generate?
    ensures Calls(s, d, i + 1 + n)[i + 1..] == Oks(Rounds(s, CoreOf(Reached(s, d, i + 1)), n))[..n]
  {
    hide Rounds, Oks, Step;
    var failing, after := Reached(s, d, i), Reached(s, d, i + 1);
    StillGenerating(s, d, i);
    StillGenerating(s, d, i + 1);
    CallsSplit(s, d, i, 1);
    assert Calls(s, failing, 1)[0] == Step(s, failing).1;
    ReachedNext(s, d, i);
    var k := FailedRound(s, failing);
    CallsSplit(s, d, i + 1, n);
    StreamIsRounds(s, after, n);
    assert [] + Rounds(s, CoreOf(after), n) == Rounds(s, CoreOf(after), n);
  }

  lemma {:induction false} ReachedNext(s: Setup, d: Decoder, i: nat)
    ensures Reached(s, d, i + 1) == Step(s, Reached(s, d, i)).0
    decreases i
  {
    hide Step;
    if i > 0 {
      ReachedNext(s, Step(s, d).0, i - 1);
    }
  }

  lemma StartsRound(s: Setup, d: Decoder, after: Decoder, item: Item, n: nat)
    requires n > 0 && d.queue == [] && d.state.Generate? && after.state.Generate? && item.Ok?
    requires CoreOf(after) == NextCore(s, CoreOf(d)) && [item.value] + after.queue == RoundTokens(s, CoreOf(d))
    ensures Oks(d.queue + Rounds(s, CoreOf(d), n))[..n]
         == [item] + Oks(after.queue + Rounds(s, CoreOf(after), n - 1))[..n - 1]
  {
    hide RoundTokens, NextCore, Oks;
    var later := Rounds(s, CoreOf(after), n - 1);
    HeadOff(item.value, after.queue, later, n);
    assert d.queue + Rounds(s, CoreOf(d), n) == [item.value] + after.queue + later;
  }

  lemma ServesQueue(s: Setup, d: Decoder, after: Decoder, item: Item, n: nat)
    requires n > 0 && d.queue != [] && d.state.Generate?
    requires after == d.(queue := d.queue[1..]) && item == Ok(d.queue[0])
    ensures Oks(d.queue + Rounds(s, CoreOf(d), n))[..n]
         == [item] + Oks(after.queue + Rounds(s, CoreOf(after), n - 1))[..n - 1]
  {
    hide Rounds, Oks;
    var all := Rounds(s, CoreOf(d), n);
    RoundsExtend(s, CoreOf(d), n - 1);
    SamePrefix(after.queue, Rounds(s, CoreOf(after), n - 1), all, n - 1);
    HeadOff(item.value, after.queue, all, n);
    assert d.queue + all == [item.value] + after.queue + all;
  }

  /** From the start: the prefill token, then the rounds. */
  lemma WholeStream(s: Setup, prompt: seq<nat>, n: nat)
    requires AllOk(Calls(s, Start(prompt), n + 1))
    ensures var first := s.target.Next(prompt);
      Calls(s, Start(prompt), n + 1)
        == [Ok(SpeculativeToken(first, s.normalise(s.target.logits(prompt)), false))]
         + Oks(Rounds(s, Core(prompt, prompt, first), n))[..n]
  {
    assert [] + prompt == prompt;
    var (after, item) := Step(s, Start(prompt));
    AllOkSplits(s, Start(prompt), n + 1);
    FailedPrefill(s, Start(prompt), prompt);
    StreamIsRounds(s, after, n);
    assert [] + Rounds(s, CoreOf(after), n) == Rounds(s, CoreOf(after), n);
  }

  /** The core of the j-th round. */
  ghost function NthCore(s: Setup, c: Core, j: nat): Core
    decreases j
  {
    if j == 0 then c else NthCore(s, NextCore(s, c), j - 1)
  }

  /** Every token of a stream of rounds belongs to one of the rounds. */
  lemma {:induction false} RoundOf(s: Setup, c: Core, r: nat, p: nat) returns (j: nat, i: nat)
    requires p < |Rounds(s, c, r)|
    ensures j < r && i < |RoundTokens(s, NthCore(s, c, j))| && p == |Rounds(s, c, j)| + i
    ensures Rounds(s, c, r)[p] == RoundTokens(s, NthCore(s, c, j))[i]
    decreases r
  {
    hide RoundTokens, NextCore;
    var width := |RoundTokens(s, c)|;
    if p < width {
      j, i := 0, p;
    } else {
      j, i := RoundOf(s, NextCore(s, c), r - 1, p - width);
      j := j + 1;
    }
  }

  /** Every token of a run without a failed call, from the first on: the prompt's, or the i-th of round j, is the
      target's own choice after what the target has seen by then, with the log-probabilities of that pass. */
  lemma StreamSays(s: Setup, prompt: seq<nat>, n: nat, p: nat) returns (j: nat, i: nat)
    requires p < n && AllOk(Calls(s, Start(prompt), n))
    ensures var token, first := Calls(s, Start(prompt), n)[p].value, Core(prompt, prompt, s.target.Next(prompt));
      var c := NthCore(s, first, j);
      if p == 0 then SaidAfter(s, prompt, token)
      else
        && i < |RoundTokens(s, c)| && p == 1 + |Rounds(s, first, j)| + i
        && SaidAfter(s, Seen(s, c, i), token)
  {
    hide Rounds, RoundTokens, NextCore, Calls, Oks, NthCore, Seen;
    j, i := 0, 0;
    WholeStream(s, prompt, n - 1);
    if p > 0 {
      var first := Core(prompt, prompt, s.target.Next(prompt));
      var tokens := Rounds(s, first, n - 1);
      TakenOf(Calls(s, Start(prompt), n)[0], tokens, n - 1, p);
      j, i := RoundOf(s, first, n - 1, p - 1);
      RoundSays(s, NthCore(s, first, j), i);
    }
  }

  lemma TakenOf(head: Item, tokens: seq<SpeculativeToken>, n: nat, p: nat)
    requires n <= |tokens| && 0 < p <= n
    ensures |Oks(tokens)| == |tokens| && ([head] + Oks(tokens)[..n])[p] == Ok(tokens[p - 1])
  {
  }

  // ---- is the emitted stream the target's own decoding? ----

  ghost function TokenIds(items: seq<Item>): (ids: seq<int>)
    ensures |ids| == |items|
  {
    seq(|items|, i requires 0 <= i < |items| => if items[i].Ok? then items[i].value.token else -1)
  }

  /** As long as no call fails, the emitted tokens are the target's own. */
  ghost predicate LosslessOn(s: Setup, prompt: seq<nat>) {
    forall n :: AllOk(Calls(s, Start(prompt), n)) ==>
      TokenIds(Calls(s, Start(prompt), n)) == Greedy(s.target, prompt, n)
  }

  /** Every row of logits has one entry per token of a vocabulary of this size. */
  ghost predicate HasVocabulary(m: Model, size: nat) {
    forall h :: |m.logits(h)| == size
  }

  /** Speculation with this many draft tokens never changes what a target with this vocabulary would have said. */
  ghost predicate Lossless(numDraftTokens: nat, size: nat) {
    forall s: Setup, prompt ::
      s.numDraftTokens == numDraftTokens && HasVocabulary(s.target, size) && HasVocabulary(s.draft, size)
      ==> LosslessOn(s, prompt)
  }

  /** Without drafts a round takes one step of the target's own decoding. */
  lemma RoundWithoutDrafts(s: Setup, c: Core)
    requires s.numDraftTokens == 0
    ensures var history := c.targetCache + [c.lastToken];
      var t := s.target.Next(history);
      Ids(RoundTokens(s, c)) == [t] && NextCore(s, c).targetCache == history && NextCore(s, c).lastToken == t
  {
    RoundDropsItsLastToken(s, c);
    var history := c.targetCache + [c.lastToken];
    assert Greedy(s.target, history, 1) == [s.target.Next(history)];
  }

  lemma IdsAppend(a: seq<SpeculativeToken>, b: seq<SpeculativeToken>)
    ensures Ids(a + b) == Ids(a) + Ids(b)
  {
  }

  lemma {:induction false} RoundsWithoutDrafts(s: Setup, c: Core, r: nat)
    requires s.numDraftTokens == 0
    ensures Ids(Rounds(s, c, r)) == Greedy(s.target, c.targetCache + [c.lastToken], r)
    decreases r
  {
    hide RoundTokens, NextCore;
    if r > 0 {
      RoundWithoutDrafts(s, c);
      RoundsWithoutDrafts(s, NextCore(s, c), r - 1);
      IdsAppend(RoundTokens(s, c), Rounds(s, NextCore(s, c), r - 1));
      hide Ids;
    }
  }

  /** The token ids of a run: the prefill token's, then those of the rounds, n in all. */
  lemma StreamIds(s: Setup, prompt: seq<nat>, n: nat)
    requires n > 0 && AllOk(Calls(s, Start(prompt), n))
    ensures var first := s.target.Next(prompt);
      TokenIds(Calls(s, Start(prompt), n)) == ([first] + Ids(Rounds(s, Core(prompt, prompt, first), n - 1)))[..n]
  {
    hide Rounds, Calls, AllOk;
    WholeStream(s, prompt, n - 1);
  }

  lemma WithoutDrafts(s: Setup, prompt: seq<nat>)
    requires s.numDraftTokens == 0
    ensures LosslessOn(s, prompt)
  {
    hide Rounds, Calls;
    forall n: nat | AllOk(Calls(s, Start(prompt), n))
      ensures TokenIds(Calls(s, Start(prompt), n)) == Greedy(s.target, prompt, n)
    {
      if n > 0 {
        StreamIds(s, prompt, n);
        RoundsWithoutDrafts(s, Core(prompt, prompt, s.target.Next(prompt)), n - 1);
      }
    }
  }

  // With one token in the vocabulary there is nothing to get wrong.

  lemma OneToken(m: Model, history: seq<nat>)
    requires HasVocabulary(m, 1)
    ensures m.Next(history) == 0
  {
    assert |m.logits(history)| == 1;
  }

  lemma {:induction false} OneTokenGreedy(m: Model, history: seq<nat>, n: nat)
    requires HasVocabulary(m, 1)
    ensures forall i :: 0 <= i < n ==> Greedy(m, history, n)[i] == 0
    decreases n
  {
    if n > 0 {
      OneToken(m, history);
      OneTokenGreedy(m, history + [0], n - 1);
    }
  }

  lemma {:induction false} OneTokenRounds(s: Setup, c: Core, r: nat)
    requires HasVocabulary(s.target, 1)
    ensures forall i :: 0 <= i < |Rounds(s, c, r)| ==> Rounds(s, c, r)[i].token == 0
    decreases r
  {
    hide NextCore, RoundTokens;
    if r > 0 {
      RoundDropsItsLastToken(s, c);
      OneTokenGreedy(s.target, c.targetCache + [c.lastToken], Accepted(s, c) + 1);
      forall i | 0 <= i < |RoundTokens(s, c)| ensures RoundTokens(s, c)[i].token == 0 {
        assert Ids(RoundTokens(s, c))[i] == 0;
      }
      OneTokenRounds(s, NextCore(s, c), r - 1);
    }
  }

  lemma OneTokenLossless(s: Setup, prompt: seq<nat>)
    requires HasVocabulary(s.target, 1)
    ensures LosslessOn(s, prompt)
  {
    hide Rounds, Calls, HasVocabulary;
    forall n: nat | AllOk(Calls(s, Start(prompt), n))
      ensures TokenIds(Calls(s, Start(prompt), n)) == Greedy(s.target, prompt, n)
    {
      if n > 0 {
        StreamIds(s, prompt, n);
        OneToken(s.target, prompt);
        OneTokenRounds(s, Core(prompt, prompt, s.target.Next(prompt)), n - 1);
        OneTokenGreedy(s.target, prompt, n);
        hide Greedy;
        assert TokenIds(Calls(s, Start(prompt), n)) == Greedy(s.target, prompt, n);
      }
    }
  }

  // A model that says whether it has consumed an even or odd number of tokens, used as target and as draft.

  function OneHot(size: nat, k: nat): (logits: seq<real>)
    ensures |logits| == size
  {
    seq(size, i => if i == k then 1.0 else 0.0)
  }

  function Parity(size: nat): Model {
    Model(history => OneHot(size, |history| % 2), history => false)
  }

  lemma ParityNext(size: nat, history: seq<nat>)
    requires size >= 2
    ensures Parity(size).Next(history) == |history| % 2
  {
    ArgMaxIsFirstLargest(OneHot(size, |history| % 2));
    assert OneHot(size, |history| % 2)[|history| % 2] == 1.0;
  }

  lemma {:induction false} ParityGreedy(size: nat, history: seq<nat>, n: nat)
    requires size >= 2
    ensures forall i :: 0 <= i < n ==> Greedy(Parity(size), history, n)[i] == (|history| + i) % 2
    decreases n
  {
    if n > 0 {
      ParityNext(size, history);
      var t := |history| % 2;
      ParityGreedy(size, history + [t], n - 1);
      hide Parity;
      var rest := Greedy(Parity(size), history + [t], n - 1);
      assert Greedy(Parity(size), history, n) == [t] + rest;
      hide Greedy;
      assert |history + [t]| == |history| + 1;
    }
  }

  lemma ParityTargets(size: nat, cache: seq<nat>, inputs: seq<nat>)
    requires size >= 2
    ensures forall i :: 0 <= i < |inputs| ==> Targets(Parity(size), cache, inputs)[i] == (|cache| + i + 1) % 2
  {
    forall i | 0 <= i < |inputs| ensures Targets(Parity(size), cache, inputs)[i] == (|cache| + i + 1) % 2 {
      ParityNext(size, cache + inputs[..i + 1]);
      hide Parity;
    }
  }

  ghost predicate IsParity(s: Setup, size: nat) {
    size >= 2 && s.target == s.draft == Parity(size) && s.numDraftTokens > 0
  }

  /** First round: every draft agrees, so k tokens come out and the k+1st is dropped. */
  lemma ParityFirstRound(s: Setup, size: nat)
    requires IsParity(s, size)
    ensures var c := Core([0], [0], 1);
      && Accepted(s, c) == |RoundTokens(s, c)| == s.numDraftTokens
      && |NextCore(s, c).targetCache| == s.numDraftTokens + 2
      && |NextCore(s, c).draftCache| == s.numDraftTokens + 1
  {
    var c := Core([0], [0], 1);
    ParityGreedy(size, [0] + [1], s.numDraftTokens);
    ParityTargets(size, [0], [1] + Drafts(s, c));
  }

  /** Second round: the draft cache lags behind by one, its first draft is refused, and the target's token
      is the one after the dropped one. */
  lemma ParitySecondRound(s: Setup, size: nat, c: Core)
    requires IsParity(s, size) && |c.targetCache| == |c.draftCache| + 1
    ensures RoundTokens(s, c)[0].token == (|c.targetCache| + 1) % 2
  {
    var drafts := Drafts(s, c);
    var targets := Targets(s.target, c.targetCache, [c.lastToken] + drafts);
    ParityGreedy(size, c.draftCache + [c.lastToken], s.numDraftTokens);
    ParityTargets(size, c.targetCache, [c.lastToken] + drafts);
    ParityGreedy(size, c.targetCache + [c.lastToken], 1);
    hide Parity, Greedy, Targets, Drafts;
    assert drafts[0] == (|c.draftCache| + 1) % 2 && targets[0] == (|c.targetCache| + 1) % 2;
    Disagreement(drafts, targets);
    hide Agreement, Logprobs, AcceptedTokens;
  }

  lemma Disagreement(a: seq<nat>, b: seq<nat>)
    requires a != [] && b != [] && a[0] != b[0]
    ensures Agreement(a, b) == 0
  {
  }

  lemma ParityRounds(s: Setup, size: nat)
    requires IsParity(s, size)
    ensures var k := s.numDraftTokens;
      Rounds(s, Core([0], [0], 1), k + 1)[k].token == (k + 3) % 2
  {
    hide RoundTokens, NextCore, Rounds;
    var k := s.numDraftTokens;
    var c := Core([0], [0], 1);
    var c' := NextCore(s, c);
    ParityFirstRound(s, size);
    ParitySecondRound(s, size, c');
    TwoRounds(s, c, k + 1);
  }

  lemma TwoRounds(s: Setup, c: Core, r: nat)
    requires r > 1
    ensures var c' := NextCore(s, c);
      && |Rounds(s, c, r)| > |RoundTokens(s, c)|
      && Rounds(s, c, r)[|RoundTokens(s, c)|] == RoundTokens(s, c')[0]
  {
    hide RoundTokens, NextCore;
    assert Rounds(s, c, r) == RoundTokens(s, c) + Rounds(s, NextCore(s, c), r - 1);
  }

  /** Models that never fail make runs without failed calls. */
  lemma {:induction false} NeverFailing(s: Setup, d: Decoder, n: nat)
    requires s.target.NeverFails() && s.draft.NeverFails()
    ensures AllOk(Calls(s, d, n))
    decreases n
  {
    if n > 0 {
      StepSucceeds(s, d);
      NeverFailing(s, Step(s, d).0, n - 1);
      AllOkSplits(s, d, n);
      hide *;
    }
  }

  lemma StepSucceeds(s: Setup, d: Decoder)
    requires s.target.NeverFails() && s.draft.NeverFails()
    ensures Step(s, d).1.Ok?
  {
    hide DraftRun, Targets, Logprobs, Agreement, AcceptedTokens;
    if Step(s, d).1.Err? && d.state.Generate? {
      var k := FailedRound(s, d);
    }
  }

  lemma WithDrafts(s: Setup, size: nat)
    requires IsParity(s, size)
    ensures !LosslessOn(s, [0])
  {
    hide Rounds, RoundTokens, NextCore, Calls, Greedy, CoreOf;
    var k := s.numDraftTokens;
    ParityNext(size, [0]);
    ParityRounds(s, size);
    NeverFailing(s, Start([0]), k + 2);
    WholeStream(s, [0], k + 1);
    ParityGreedy(size, [0], k + 2);
    assert TokenIds(Calls(s, Start([0]), k + 2))[k + 1] == (k + 3) % 2;
    assert Greedy(Parity(size), [0], k + 2)[k + 1] == (k + 2) % 2;
  }

  /** The emitted stream is the target's own greedy decoding, for all models over a vocabulary and all prompts,
      exactly when no draft tokens are asked for or there is only one token to say. */
  lemma LosslessIffNoDrafts(numDraftTokens: nat, size: nat)
    requires size > 0
    ensures Lossless(numDraftTokens, size) <==> numDraftTokens == 0 || size == 1
  {
    hide LosslessOn, HasVocabulary;
    if numDraftTokens == 0 || size == 1 {
      forall s: Setup, prompt | s.numDraftTokens == numDraftTokens && HasVocabulary(s.target, size)
        ensures LosslessOn(s, prompt)
      {
        if size == 1 {
          OneTokenLossless(s, prompt);
        } else {
          WithoutDrafts(s, prompt);
        }
      }
    } else {
      var s := Setup(Parity(size), Parity(size), numDraftTokens, logits => logits);
      WithDrafts(s, size);
      ParityVocabulary(size);
    }
  }

  lemma ParityVocabulary(size: nat)
    ensures HasVocabulary(Parity(size), size)
  {
  }

  // ---- a repaired round (not the code): queue the last token too, and trim the target cache ----

  ghost function RepairedRounds(s: Setup, cache: seq<nat>, lastToken: nat, drafts: nat -> seq<nat>, r: nat): seq<nat>
    decreases r
  {
    if r == 0 then []
    else
      var targets := Targets(s.target, cache, [lastToken] + drafts(r));
      var accepted := Agreement(drafts(r), targets);
      var kept := cache + [lastToken] + drafts(r)[..accepted];
      drafts(r)[..accepted] + [targets[accepted]] + RepairedRounds(s, kept, targets[accepted], drafts, r - 1)
  }

  lemma {:induction false} GreedySplit(m: Model, history: seq<nat>, a: nat, b: nat)
    ensures Greedy(m, history, a + b) == Greedy(m, history, a) + Greedy(m, history + Greedy(m, history, a), b)
    decreases a
  {
    if a == 0 {
      assert history + [] == history;
    } else {
      var t := m.Next(history);
      GreedySplit(m, history + [t], a - 1, b);
      assert history + [t] + Greedy(m, history + [t], a - 1) == history + Greedy(m, history, a);
    }
  }

  /** With those two changes the stream is the target's greedy decoding whatever drafts are proposed. */
  lemma {:induction false} RepairedIsLossless(s: Setup, cache: seq<nat>, lastToken: nat, drafts: nat -> seq<nat>,
                                              r: nat)
    ensures var tokens := RepairedRounds(s, cache, lastToken, drafts, r);
      tokens == Greedy(s.target, cache + [lastToken], |tokens|)
    decreases r
  {
    hide Agreement, Targets, Greedy;
    if r > 0 {
      var targets := Targets(s.target, cache, [lastToken] + drafts(r));
      var accepted := Agreement(drafts(r), targets);
      var kept := cache + [lastToken] + drafts(r)[..accepted];
      var rest := RepairedRounds(s, kept, targets[accepted], drafts, r - 1);
      RoundIsGreedy(s.target, cache, lastToken, drafts(r));
      RepairedIsLossless(s, kept, targets[accepted], drafts, r - 1);
      GreedySplit(s.target, cache + [lastToken], accepted + 1, |rest|);
      assert kept + [targets[accepted]] == cache + [lastToken] + (drafts(r)[..accepted] + [targets[accepted]]);
    }
  }
}
