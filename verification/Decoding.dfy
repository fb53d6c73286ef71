/**
 Greedy decoding with a key/value cache.  A model maps a cache and a run of new tokens to the
 logits after the last of them and the extended cache.  The reference meaning of a decode is
 uncached: every token is chosen from the logits of the whole text so far.
 */
module Decoding {
  import opened Binary16
  import opened Selection

  datatype Model<!C> = Model(empty: C, vocab: nat, forward: (C, seq<nat>) -> (seq<Ext>, C))

  /** Feeding a then b through the cache is feeding a + b at once. */
  ghost predicate CacheLaw<C>(m: Model<C>, c: C, a: seq<nat>, b: seq<nat>) {
    m.forward(m.forward(c, a).1, b) == m.forward(c, a + b)
  }

  /** The contract relied on from the model: causal caching, and one logit per vocabulary entry. */
  ghost predicate Causal<C(!new)>(m: Model<C>) {
    && m.vocab > 0
    && (forall c, a, b :: a != [] && b != [] ==> CacheLaw(m, c, a, b))
    && (forall c, a :: a != [] ==> |m.forward(c, a).0| == m.vocab)
  }

  /** How a logit vector becomes a token: directly, or through the binary16 LM-head boundary. */
  datatype Policy = F32 | F16LmHead

  function Choose(policy: Policy, logits: seq<Ext>): (token: nat)
    requires logits != []
    ensures token < |logits|
  {
    match policy
    case F32 => ArgMax(logits)
    case F16LmHead => ArgMax(RoundAll(logits))
  }

  function Logits<C>(m: Model<C>, text: seq<nat>): seq<Ext> {
    m.forward(m.empty, text).0
  }

  /** The first n tokens of the uncached greedy continuation of a prompt. */
  ghost function Greedy<C(!new)>(m: Model<C>, policy: Policy, prompt: seq<nat>, n: nat): (g: seq<nat>)
    requires Causal(m) && prompt != []
    ensures |g| == n
  {
    if n == 0 then []
    else
      var before := Greedy(m, policy, prompt, n - 1);
      before + [Choose(policy, Logits(m, prompt + before))]
  }

  /** Decoding fewer steps yields a prefix: the 32-step reference may be cut from the 128-step run. */
  lemma {:induction false} GreedyPrefix<C(!new)>(m: Model<C>, policy: Policy, prompt: seq<nat>, t: nat, s: nat)
    requires Causal(m) && prompt != [] && t <= s
    ensures Greedy(m, policy, prompt, s)[..t] == Greedy(m, policy, prompt, t)
  {
    if t < s {
      GreedyPrefix(m, policy, prompt, t, s - 1);
      assert Greedy(m, policy, prompt, s)[..t] == Greedy(m, policy, prompt, s - 1)[..t];
    }
  }

  /** Token i is chosen from the logits of the prompt followed by the i tokens before it. */
  lemma GreedyToken<C(!new)>(m: Model<C>, policy: Policy, prompt: seq<nat>, n: nat, i: nat)
    requires Causal(m) && prompt != [] && i < n
    ensures var g := Greedy(m, policy, prompt, n);
            |Logits(m, prompt + g[..i])| == m.vocab
            && g[i] == Choose(policy, Logits(m, prompt + g[..i])) < m.vocab
  {
    GreedyPrefix(m, policy, prompt, i, n);
    GreedyPrefix(m, policy, prompt, i + 1, n);
    var g := Greedy(m, policy, prompt, n);
    assert g[i] == g[..i + 1][i];
  }

  /**
   What every decode comes to: token i has the greatest logit of all those that the prompt and the
   tokens before it give, as they are or after rounding to binary16, and the lowest index of those.
   */
  lemma GreedyMeaning<C(!new)>(m: Model<C>, policy: Policy, prompt: seq<nat>, n: nat, g: seq<nat>, i: nat)
    requires Causal(m) && prompt != [] && i < n && g == Greedy(m, policy, prompt, n)
    ensures policy == F32 ==> IsArgMax(Logits(m, prompt + g[..i]), g[i])
    ensures policy == F16LmHead ==> IsArgMax(RoundAll(Logits(m, prompt + g[..i])), g[i])
  {
    hide Greedy, Logits, RoundAll, IsArgMax, ArgMax;
    GreedyToken(m, policy, prompt, n, i);
  }

  /** The cache after feeding a non-empty text, and the logits that came with it. */
  ghost predicate Fed<C(!new)>(m: Model<C>, text: seq<nat>, logits: seq<Ext>, past: C) {
    text != [] && (logits, past) == m.forward(m.empty, text)
  }

  lemma FeedOne<C(!new)>(m: Model<C>, text: seq<nat>, logits: seq<Ext>, past: C, token: nat)
    requires Causal(m) && Fed(m, text, logits, past)
    ensures Fed(m, text + [token], m.forward(past, [token]).0, m.forward(past, [token]).1)
    ensures |logits| == m.vocab
  {
    assert CacheLaw(m, m.empty, text, [token]);
  }

  /**
   The fixture's decode loop: the last chosen token is not fed back, so exactly
   prompt + steps - 1 positions are consumed (the prompt alone when no step is asked for).
   */
  method GreedyTokens<C(!new)>(m: Model<C>, policy: Policy, inputIds: seq<nat>, steps: nat)
      returns (generated: seq<nat>, consumed: nat)
    requires Causal(m) && inputIds != []
    ensures generated == Greedy(m, policy, inputIds, steps)
    ensures policy == F32 ==>
              forall i :: 0 <= i < steps ==> IsArgMax(Logits(m, inputIds + generated[..i]), generated[i])
    ensures policy == F16LmHead ==>
              forall i :: 0 <= i < steps ==> IsArgMax(RoundAll(Logits(m, inputIds + generated[..i])), generated[i])
    ensures consumed == |inputIds| + (if steps == 0 then 0 else steps - 1)
  {
    hide IsArgMax, RoundAll;
    var result := m.forward(m.empty, inputIds);
    var logits, past := result.0, result.1;
    generated, consumed := [], |inputIds|;
    ghost var text := inputIds;
    for step := 0 to steps
      invariant text == inputIds + generated && Fed(m, text, logits, past)
      invariant |generated| == step && generated == Greedy(m, policy, inputIds, step)
      invariant consumed == |inputIds| + step
      invariant steps == 0 || step < steps
    {
      FeedOne(m, text, logits, past, 0);
      var token := Choose(policy, logits);
      generated := generated + [token];
      if step + 1 == steps {
        break;
      }
      FeedOne(m, text, logits, past, token);
      result := m.forward(past, [token]);
      logits, past := result.0, result.1;
      consumed := consumed + 1;
      text := text + [token];
    }
    forall i | 0 <= i < steps
      ensures policy == F32 ==> IsArgMax(Logits(m, inputIds + generated[..i]), generated[i])
      ensures policy == F16LmHead ==> IsArgMax(RoundAll(Logits(m, inputIds + generated[..i])), generated[i])
    {
      GreedyMeaning(m, policy, inputIds, steps, generated, i);
    }
  }

  /**
   The reference-logits loop feeds every chosen token, the last one included: the same tokens,
   one more position, and one logit vector after the prompt and after each token.
   */
  method ReferenceLogits<C(!new)>(m: Model<C>, inputIds: seq<nat>, steps: nat)
      returns (generated: seq<nat>, recorded: seq<seq<Ext>>, consumed: nat)
    requires Causal(m) && inputIds != []
    ensures generated == Greedy(m, F32, inputIds, steps)
    ensures forall i :: 0 <= i < steps ==> IsArgMax(Logits(m, inputIds + generated[..i]), generated[i])
    ensures |recorded| == steps + 1
    ensures forall i :: 0 <= i <= steps ==> recorded[i] == Logits(m, inputIds + generated[..i])
    ensures consumed == |inputIds| + steps
  {
    hide IsArgMax;
    var result := m.forward(m.empty, inputIds);
    var logits, past := result.0, result.1;
    generated, recorded, consumed := [], [logits], |inputIds|;
    assert inputIds + [] == inputIds;
    for step := 0 to steps
      invariant |generated| == step && generated == Greedy(m, F32, inputIds, step)
      invariant Fed(m, inputIds + generated, logits, past)
      invariant |recorded| == step + 1
      invariant forall i :: 0 <= i <= step ==> recorded[i] == Logits(m, inputIds + generated[..i])
      invariant consumed == |inputIds| + step
    {
      FeedOne(m, inputIds + generated, logits, past, 0);
      var token := ArgMax(logits);
      FeedOne(m, inputIds + generated, logits, past, token);
      assert inputIds + generated + [token] == inputIds + (generated + [token]);
      ghost var before := generated;
      generated := generated + [token];
      result := m.forward(past, [token]);
      logits, past := result.0, result.1;
      consumed := consumed + 1;
      recorded := recorded + [logits];
      assert forall i :: 0 <= i <= step ==> generated[..i] == before[..i];
      assert generated[..step + 1] == generated;
    }
    forall i | 0 <= i < steps
      ensures IsArgMax(Logits(m, inputIds + generated[..i]), generated[i])
    {
      GreedyMeaning(m, F32, inputIds, steps, generated, i);
    }
  }

  /** The benchmark's decode loop also feeds the last token back; it needs at least one step. */
  method GenerateOnce<C(!new)>(m: Model<C>, inputIds: seq<nat>, decodeSteps: nat)
      returns (generated: seq<nat>, consumed: nat)
    requires Causal(m) && inputIds != [] && decodeSteps > 0
    ensures generated == Greedy(m, F32, inputIds, decodeSteps)
    ensures forall i :: 0 <= i < decodeSteps ==> IsArgMax(Logits(m, inputIds + generated[..i]), generated[i])
    ensures consumed == |inputIds| + decodeSteps
  {
    hide IsArgMax;
    var outputs := m.forward(m.empty, inputIds);
    var logits, past := outputs.0, outputs.1;
    generated, consumed := [], |inputIds|;
    assert inputIds + [] == inputIds;
    for step := 0 to decodeSteps
      invariant |generated| == step && generated == Greedy(m, F32, inputIds, step)
      invariant Fed(m, inputIds + generated, logits, past)
      invariant consumed == |inputIds| + step
    {
      FeedOne(m, inputIds + generated, logits, past, 0);
      var token := ArgMax(logits);
      FeedOne(m, inputIds + generated, logits, past, token);
      assert inputIds + generated + [token] == inputIds + (generated + [token]);
      generated := generated + [token];
      outputs := m.forward(past, [token]);
      logits, past := outputs.0, outputs.1;
      consumed := consumed + 1;
    }
    forall i | 0 <= i < decodeSteps
      ensures IsArgMax(Logits(m, inputIds + generated[..i]), generated[i])
    {
      GreedyMeaning(m, F32, inputIds, decodeSteps, generated, i);
    }
  }

  /**
   Every token of the binary16 oracle carries, after rounding, the maximum of the logits it
   was chosen from at the lowest index, and that never exceeds the binary32 argmax of the same logits.
   */
  lemma F16OracleToken<C(!new)>(m: Model<C>, prompt: seq<nat>, n: nat, i: nat)
    requires Causal(m) && prompt != [] && i < n
    ensures var g := Greedy(m, F16LmHead, prompt, n);
            var logits := Logits(m, prompt + g[..i]);
            && |logits| == m.vocab && g[i] < m.vocab
            && (forall j :: 0 <= j < m.vocab ==> !Gt(RoundToF16(logits[j]), RoundToF16(logits[g[i]])))
            && (forall j :: 0 <= j < g[i] ==> RoundToF16(logits[j]) != RoundToF16(logits[g[i]]))
            && RoundToF16(logits[g[i]]) == RoundToF16(logits[ArgMax(logits)])
            && g[i] <= ArgMax(logits)
  {
    hide Greedy, RoundToF16, ArgMax, Logits;
    GreedyToken(m, F16LmHead, prompt, n, i);
    var g := Greedy(m, F16LmHead, prompt, n);
    GreedyMeaning(m, F16LmHead, prompt, n, g, i);
    var logits := Logits(m, prompt + g[..i]);
    var rounded := RoundAll(logits);
    assert IsArgMax(rounded, g[i]);
    forall j | 0 <= j < m.vocab
      ensures !Gt(rounded[j], rounded[g[i]]) && (j < g[i] ==> rounded[j] != rounded[g[i]])
    {
      assert rounded[j] == RoundToF16(logits[j]) && rounded[g[i]] == RoundToF16(logits[g[i]]);
      if j != g[i] {
        assert Beats(rounded, g[i], j);
      }
    }
    RoundedArgMax(logits);
  }
}
