/**
 The oracle suite: the fixture builder that decodes it and the harness's validation of it.
 */
module ReferenceSuite {
  import opened Binary16
  import opened Decoding
  import opened PassStructure
  import opened Selection
  import opened Text
  import opened Wrappers

  datatype ReferenceCase = ReferenceCase(name: string, family: string, targetPromptTokens: nat,
                                         decodeSteps: nat, inputIds: seq<nat>, greedyIds: seq<nat>)

  const USIZE_MAX: nat := 0xFFFF_FFFF_FFFF_FFFF

  predicate IsSpace(c: char) {
    c == ' ' || ('\t' <= c <= '\r')
  }

  /** The string is empty or all white space. */
  predicate IsBlank(s: string) {
    forall i :: 0 <= i < |s| ==> IsSpace(s[i])
  }

  /** What the harness demands of one case. */
  predicate ValidCase(c: ReferenceCase, vocab: nat, maxPositions: nat) {
    && !IsBlank(c.name)
    && c.inputIds != [] && c.decodeSteps >= 2
    && c.targetPromptTokens == |c.inputIds|
    && |c.greedyIds| == c.decodeSteps
    && (forall i :: 0 <= i < |c.inputIds| ==> c.inputIds[i] < vocab)
    && (forall i :: 0 <= i < |c.greedyIds| ==> c.greedyIds[i] < vocab)
    && |c.inputIds| + (c.decodeSteps - 1) <= USIZE_MAX
    && |c.inputIds| + (c.decodeSteps - 1) <= maxPositions
  }

  /** In other words: a name, a prompt as long as it says, two steps at least with a token each, and room for them. */
  lemma ValidCaseMeans(c: ReferenceCase, vocab: nat, maxPositions: nat)
    ensures ValidCase(c, vocab, maxPositions) <==>
            && (exists i :: 0 <= i < |c.name|
                  && c.name[i] !in {' ', '\t', '\n', '\U{000B}', '\U{000C}', '\r'})
            && |c.inputIds| == c.targetPromptTokens > 0 && |c.greedyIds| == c.decodeSteps > 1
            && (forall x :: x in c.inputIds ==> x < vocab) && (forall x :: x in c.greedyIds ==> x < vocab)
            && |c.inputIds| + c.decodeSteps <= maxPositions + 1
            && |c.inputIds| + c.decodeSteps <= 0x1_0000_0000_0000_0000
  {
    AllBelow(c.inputIds, vocab);
    AllBelow(c.greedyIds, vocab);
  }

  lemma AllBelow(ids: seq<nat>, vocab: nat)
    ensures (forall i :: 0 <= i < |ids| ==> ids[i] < vocab) <==> forall x :: x in ids ==> x < vocab
  {
    if forall x :: x in ids ==> x < vocab {
      forall i | 0 <= i < |ids|
        ensures ids[i] < vocab
      {
        assert ids[i] in ids;
      }
    }
  }

  ghost predicate DistinctNames(cases: seq<ReferenceCase>) {
    forall i, j :: 0 <= i < j < |cases| ==> cases[i].name != cases[j].name
  }

  /** The case loop of the suite validation: accepted exactly when every case is valid and names differ. */
  method ValidateCases(cases: seq<ReferenceCase>, vocab: nat, maxPositions: nat) returns (ok: bool)
    ensures ok <==> cases != [] && DistinctNames(cases)
                    && forall i :: 0 <= i < |cases| ==> ValidCase(cases[i], vocab, maxPositions)
  {
    if cases == [] {
      return false;
    }
    var names: set<string> := {};
    for i := 0 to |cases|
      invariant names == set k | 0 <= k < i :: cases[k].name
      invariant DistinctNames(cases[..i])
      invariant forall k :: 0 <= k < i ==> ValidCase(cases[k], vocab, maxPositions)
    {
      var c := cases[i];
      if IsBlank(c.name) || c.name in names {
        assert c.name in names ==> exists k :: 0 <= k < i && cases[k].name == cases[i].name;
        return false;
      }
      names := names + {c.name};
      if !ValidCase(c, vocab, maxPositions) {
        return false;
      }
      assert cases[..i + 1] == cases[..i] + [c];
    }
    assert cases[..|cases|] == cases;
    return true;
  }

  /** A validated case fits the model: decoding it never consumes more positions than there are. */
  method DecodeValidatedCase<C(!new)>(m: Model<C>, policy: Policy, c: ReferenceCase, maxPositions: nat)
      returns (generated: seq<nat>, consumed: nat)
    requires Causal(m) && ValidCase(c, m.vocab, maxPositions)
    ensures consumed <= maxPositions && |generated| == c.decodeSteps
  {
    generated, consumed := GreedyTokens(m, policy, c.inputIds, c.decodeSteps);
  }

  // ----- The fixture builder -----

  const PROMPT_FAMILIES: seq<string> := ["prose", "code", "math"]
  const TARGET_PROMPT_TOKENS: seq<nat> := [8, 32, 128, 512, 1024]
  const STANDARD_DECODE_STEPS: nat := 32
  const DEEP_DECODE_STEPS: nat := 128
  const VOCAB_SIZE: nat := 32000
  const MAX_POSITIONS: nat := 2048

  function Repeat(s: seq<nat>, times: nat): (r: seq<nat>)
    ensures |r| == |s| * times
  {
    if times == 0 then []
    else
      assert |s| + |s| * (times - 1) == |s| * times;
      s + Repeat(s, times - 1)
  }

  lemma {:induction false} RepeatAt(s: seq<nat>, times: nat, i: nat)
    requires i < |s| * times
    ensures |s| > 0
    ensures Repeat(s, times)[i] == s[i % |s|]
  {
    NonZeroProduct(|s|, times);
    if i < |s| {
      ModUnique(i, |s|, 0, i);
    } else {
      RepeatTail(s, times, i);
      RepeatAt(s, times - 1, i - |s|);
      ModShift(i, |s|);
    }
  }

  lemma NonZeroProduct(n: nat, times: nat)
    requires n * times > 0
    ensures n > 0 && times > 0
  {
  }

  lemma RepeatTail(s: seq<nat>, times: nat, i: nat)
    requires times > 0 && |s| <= i < |s| * times
    ensures i - |s| < |s| * (times - 1)
    ensures Repeat(s, times)[i] == Repeat(s, times - 1)[i - |s|]
  {
    assert |s| * times == |s| + |s| * (times - 1);
  }

  lemma ModShift(i: nat, n: nat)
    requires 0 < n <= i
    ensures i % n == (i - n) % n
  {
    var q, r := (i - n) / n, (i - n) % n;
    assert i - n == q * n + r;
    assert (q + 1) * n == q * n + n;
    ModUnique(i, n, q + 1, r);
  }

  /** The remainder is determined by any decomposition. */
  lemma ModUnique(a: nat, n: nat, q: nat, r: nat)
    requires r < n && a == q * n + r
    ensures a % n == r
  {
    var p, t := a / n, a % n;
    assert a == p * n + t;
    assert (p + 1) * n == p * n + n && (q + 1) * n == q * n + n;
    if p < q {
      NatMulMonotone(p + 1, q, n);
    } else if q < p {
      NatMulMonotone(q + 1, p, n);
    }
  }

  /** An exact-length prompt: the start token, then the family's tokens over and over. */
  function PromptIds(seed: seq<nat>, bos: nat, target: nat): (r: seq<nat>)
    requires target >= 2 && seed != []
    ensures |r| == target && r[0] == bos
    ensures forall i :: 1 <= i < target ==> r[i] == seed[(i - 1) % |seed|]
  {
    var needed := target - 1;
    var times := (needed + |seed| - 1) / |seed|;
    EnoughRepeats(needed, |seed|);
    assert forall i :: 0 <= i < needed ==> Repeat(seed, times)[i] == seed[i % |seed|] by {
      forall i | 0 <= i < needed
        ensures Repeat(seed, times)[i] == seed[i % |seed|]
      {
        RepeatAt(seed, times, i);
      }
    }
    [bos] + Repeat(seed, times)[..needed]
  }

  lemma EnoughRepeats(needed: nat, n: nat)
    requires n > 0
    ensures n * ((needed + n - 1) / n) >= needed
  {
    var q, r := (needed + n - 1) / n, (needed + n - 1) % n;
    assert needed + n - 1 == n * q + r;
  }

  function CaseName(family: string, target: nat, steps: nat): string {
    family + "-p" + Padded(target, 4) + "-d" + Padded(steps, 3)
  }

  lemma CaseNameInjective(f: string, t: nat, s: nat, f': string, t': nat, s': nat)
    requires CaseName(f, t, s) == CaseName(f', t', s')
    requires t < 10000 && t' < 10000 && s < 1000 && s' < 1000
    ensures f == f' && t == t' && s == s'
  {
    hide Padded;
    var a, b, n := CaseName(f, t, s), CaseName(f', t', s'), |f|;
    assert |a| == n + 11 && |b| == |f'| + 11;
    assert f == a[..n] && f' == b[..n];
    assert Padded(t, 4) == a[n + 2..n + 6] && Padded(t', 4) == b[n + 2..n + 6];
    assert Padded(s, 3) == a[n + 8..] && Padded(s', 3) == b[n + 8..];
    PaddedInjective(t, t', 4);
    PaddedInjective(s, s', 3);
  }

  /** Which case this is: the indices of its family and prompt length, and whether it is the deep decode. */
  datatype Key = Key(family: nat, target: nat, deep: bool) {
    predicate Valid() {
      family < |PROMPT_FAMILIES| && target < |TARGET_PROMPT_TOKENS|
    }

    predicate Before(f: nat, t: nat) {
      family < f || (family == f && target < t)
    }

    function Steps(): nat {
      if deep then DEEP_DECODE_STEPS else STANDARD_DECODE_STEPS
    }

    function Name(): string
      requires Valid()
    {
      CaseName(PROMPT_FAMILIES[family], TARGET_PROMPT_TOKENS[target], Steps())
    }
  }

  lemma NamesDiffer(k: Key, l: Key)
    requires k.Valid() && l.Valid() && k != l
    ensures k.Name() != l.Name()
  {
    hide CaseName;
    if k.Name() == l.Name() {
      CaseNameInjective(PROMPT_FAMILIES[k.family], TARGET_PROMPT_TOKENS[k.target], k.Steps(),
                        PROMPT_FAMILIES[l.family], TARGET_PROMPT_TOKENS[l.target], l.Steps());
      FamiliesDiffer(k.family, l.family);
    }
  }

  lemma FamiliesDiffer(i: nat, j: nat)
    requires i < |PROMPT_FAMILIES| && j < |PROMPT_FAMILIES|
    requires PROMPT_FAMILIES[i] == PROMPT_FAMILIES[j]
    ensures i == j
  {
    assert PROMPT_FAMILIES[0][0] == 'p' && PROMPT_FAMILIES[1][0] == 'c' && PROMPT_FAMILIES[2][0] == 'm';
  }

  /** A case as the builder writes it: its name, its prompt, and the greedy continuation of that prompt. */
  ghost predicate CaseOf<C(!new)>(m: Model<C>, policy: Policy, seeds: seq<seq<nat>>, k: Key, c: ReferenceCase)
    requires Causal(m) && k.Valid() && |seeds| == |PROMPT_FAMILIES| && seeds[k.family] != []
  {
    && c.name == k.Name() && c.family == PROMPT_FAMILIES[k.family]
    && c.targetPromptTokens == TARGET_PROMPT_TOKENS[k.target]
    && c.decodeSteps == k.Steps()
    && c.inputIds == PromptIds(seeds[k.family], 1, TARGET_PROMPT_TOKENS[k.target])
    && c.greedyIds == Greedy(m, policy, c.inputIds, c.decodeSteps)
  }

  /**
   What such a case is: named after its family, prompt length and steps; a prompt that starts with the
   start token and cycles through the family's own; and for every step the lowest index of a greatest
   logit, rounded to binary16 or not, of the prompt and the tokens before.
   */
  lemma CaseContents<C(!new)>(m: Model<C>, policy: Policy, seeds: seq<seq<nat>>, k: Key, c: ReferenceCase)
    requires Causal(m) && k.Valid() && |seeds| == |PROMPT_FAMILIES| && seeds[k.family] != []
    requires CaseOf(m, policy, seeds, k, c)
    ensures c.family == ["prose", "code", "math"][k.family]
    ensures c.targetPromptTokens == |c.inputIds| == [8, 32, 128, 512, 1024][k.target]
    ensures c.decodeSteps == |c.greedyIds| == if k.deep then 128 else 32
    ensures c.name == c.family + "-p" + Padded(|c.inputIds|, 4) + "-d" + Padded(c.decodeSteps, 3)
    ensures c.inputIds[0] == 1
    ensures forall i :: 1 <= i < |c.inputIds| ==> c.inputIds[i] == seeds[k.family][(i - 1) % |seeds[k.family]|]
    ensures policy == F32 ==> forall i :: 0 <= i < |c.greedyIds| ==>
              IsArgMax(Logits(m, c.inputIds + c.greedyIds[..i]), c.greedyIds[i])
    ensures policy == F16LmHead ==> forall i :: 0 <= i < |c.greedyIds| ==>
              IsArgMax(RoundAll(Logits(m, c.inputIds + c.greedyIds[..i])), c.greedyIds[i])
  {
    hide Greedy, Logits, RoundAll, IsArgMax, Padded;
    forall i | 0 <= i < |c.greedyIds|
      ensures policy == F32 ==> IsArgMax(Logits(m, c.inputIds + c.greedyIds[..i]), c.greedyIds[i])
      ensures policy == F16LmHead ==> IsArgMax(RoundAll(Logits(m, c.inputIds + c.greedyIds[..i])), c.greedyIds[i])
    {
      GreedyMeaning(m, policy, c.inputIds, c.decodeSteps, c.greedyIds, i);
    }
  }

  ghost predicate TokensInVocab(seeds: seq<seq<nat>>, vocab: nat) {
    forall f, i :: 0 <= f < |seeds| && 0 <= i < |seeds[f]| ==> seeds[f][i] < vocab
  }

  lemma BuiltCaseIsValid<C(!new)>(m: Model<C>, policy: Policy, seeds: seq<seq<nat>>, k: Key, c: ReferenceCase)
    requires Causal(m) && m.vocab == VOCAB_SIZE
    requires k.Valid() && |seeds| == |PROMPT_FAMILIES| && seeds[k.family] != []
    requires TokensInVocab(seeds, VOCAB_SIZE) && CaseOf(m, policy, seeds, k, c)
    ensures ValidCase(c, VOCAB_SIZE, MAX_POSITIONS)
  {
    hide Greedy, Padded;
    forall i | 0 <= i < |c.greedyIds|
      ensures c.greedyIds[i] < VOCAB_SIZE
    {
      GreedyToken(m, policy, c.inputIds, c.decodeSteps, i);
    }
    assert !IsBlank(c.name) by {
      assert c.name[0] == PROMPT_FAMILIES[k.family][0];
    }
  }

  /**
   The suite builder.  A family that tokenizes to nothing is an error; otherwise the suite has
   one standard case per family and prompt length plus a deep one at 32 tokens, each holding
   the greedy continuation of its own prompt, and the harness accepts all of it.
   */
  method BuildReferenceCases<C(!new)>(m: Model<C>, policy: Policy, seeds: seq<seq<nat>>)
      returns (r: Option<seq<ReferenceCase>>)
    requires Causal(m) && m.vocab == VOCAB_SIZE
    requires |seeds| == |PROMPT_FAMILIES| && TokensInVocab(seeds, VOCAB_SIZE)
    ensures r.None? <==> exists f :: 0 <= f < |seeds| && seeds[f] == []
    ensures r.Some? ==>
              && |r.value| == 18 && DistinctNames(r.value)
              && (forall i :: 0 <= i < |r.value| ==> ValidCase(r.value[i], VOCAB_SIZE, MAX_POSITIONS))
              && (forall i :: 0 <= i < |r.value| ==>
                    r.value[i].inputIds != []
                    && r.value[i].greedyIds == Greedy(m, policy, r.value[i].inputIds, r.value[i].decodeSteps))
    ensures r.Some? ==>
              && (forall f :: 0 <= f < |seeds| ==> seeds[f] != [])
              && forall k: Key :: k.Valid() && (k.deep ==> k.target == 1) ==>
                   exists i :: 0 <= i < |r.value| && CaseOf(m, policy, seeds, k, r.value[i])
  {
    hide ValidCase, CaseOf;
    var cases: seq<ReferenceCase> := [];
    ghost var keys: seq<Key> := [];
    for f := 0 to |PROMPT_FAMILIES|
      invariant forall g :: 0 <= g < f ==> seeds[g] != []
      invariant Built(m, policy, seeds, keys, cases, f, 0) && Covered(keys, f, 0)
      invariant |cases| == 6 * f
    {
      if seeds[f] == [] {
        return None;
      }
      for t := 0 to |TARGET_PROMPT_TOKENS|
        invariant Built(m, policy, seeds, keys, cases, f, t) && Covered(keys, f, t)
        invariant |cases| == 6 * f + t + (if t > 1 then 1 else 0)
      {
        var standard, deep := DecodePrompt(m, policy, seeds, f, t);
        AddCaseKeepsBuilt(m, policy, seeds, keys, cases, f, t, Key(f, t, false), standard);
        cases, keys := cases + [standard], keys + [Key(f, t, false)];
        if deep.Some? {
          AddCaseKeepsBuilt(m, policy, seeds, keys, cases, f, t, Key(f, t, true), deep.value);
          cases, keys := cases + [deep.value], keys + [Key(f, t, true)];
        }
      }
    }
    BuiltSuiteIsValid(m, policy, seeds, keys, cases);
    forall k: Key | k.Valid() && (k.deep ==> k.target == 1)
      ensures exists i :: 0 <= i < |cases| && CaseOf(m, policy, seeds, k, cases[i])
    {
      assert k.Before(|PROMPT_FAMILIES|, 0) && k in keys;
      var i :| 0 <= i < |keys| && keys[i] == k;
      assert CaseOf(m, policy, seeds, keys[i], cases[i]);
    }
    return Some(cases);
  }

  /** The cases of one prompt: the standard one is cut from the deep run when there is one. */
  method DecodePrompt<C(!new)>(m: Model<C>, policy: Policy, seeds: seq<seq<nat>>, f: nat, t: nat)
      returns (standard: ReferenceCase, deep: Option<ReferenceCase>)
    requires Causal(m) && Key(f, t, false).Valid() && |seeds| == |PROMPT_FAMILIES| && seeds[f] != []
    ensures CaseOf(m, policy, seeds, Key(f, t, false), standard)
    ensures deep.Some? <==> t == 1
    ensures deep.Some? ==> CaseOf(m, policy, seeds, Key(f, t, true), deep.value)
  {
    hide Greedy, CaseName;
    var family, target := PROMPT_FAMILIES[f], TARGET_PROMPT_TOKENS[t];
    var ids := PromptIds(seeds[f], 1, target);
    var maxDecode := if target == 32 then DEEP_DECODE_STEPS else STANDARD_DECODE_STEPS;
    var generated, _ := GreedyTokens(m, policy, ids, maxDecode);
    GreedyPrefix(m, policy, ids, STANDARD_DECODE_STEPS, maxDecode);
    standard := ReferenceCase(CaseName(family, target, STANDARD_DECODE_STEPS), family, target,
                              STANDARD_DECODE_STEPS, ids, generated[..STANDARD_DECODE_STEPS]);
    deep := None;
    if target == 32 {
      deep := Some(ReferenceCase(CaseName(family, target, DEEP_DECODE_STEPS), family, target,
                                 DEEP_DECODE_STEPS, ids, generated));
    }
  }

  lemma AddCaseKeepsBuilt<C(!new)>(m: Model<C>, policy: Policy, seeds: seq<seq<nat>>, keys: seq<Key>,
                                   cases: seq<ReferenceCase>, f: nat, t: nat, k: Key, c: ReferenceCase)
    requires Causal(m) && |seeds| == |PROMPT_FAMILIES|
    requires Built(m, policy, seeds, keys, cases, f, t) || Built(m, policy, seeds, keys, cases, f, t + 1)
    requires k.Valid() && k.family == f && k.target == t && k !in keys && seeds[f] != []
    requires CaseOf(m, policy, seeds, k, c)
    ensures Built(m, policy, seeds, keys + [k], cases + [c], f, t + 1)
  {
    hide CaseOf;
  }

  lemma BuiltSuiteIsValid<C(!new)>(m: Model<C>, policy: Policy, seeds: seq<seq<nat>>, keys: seq<Key>,
                                   cases: seq<ReferenceCase>)
    requires Causal(m) && m.vocab == VOCAB_SIZE
    requires |seeds| == |PROMPT_FAMILIES| && TokensInVocab(seeds, VOCAB_SIZE)
    requires Built(m, policy, seeds, keys, cases, |PROMPT_FAMILIES|, 0)
    ensures DistinctNames(cases)
    ensures forall i :: 0 <= i < |cases| ==> ValidCase(cases[i], VOCAB_SIZE, MAX_POSITIONS)
    ensures forall i :: 0 <= i < |cases| ==>
              cases[i].inputIds != []
              && cases[i].greedyIds == Greedy(m, policy, cases[i].inputIds, cases[i].decodeSteps)
  {
    hide ValidCase, Greedy;
    forall i | 0 <= i < |cases|
      ensures ValidCase(cases[i], VOCAB_SIZE, MAX_POSITIONS)
    {
      BuiltCaseIsValid(m, policy, seeds, keys[i], cases[i]);
    }
    forall i, j | 0 <= i < j < |cases|
      ensures cases[i].name != cases[j].name
    {
      NamesDiffer(keys[i], keys[j]);
    }
  }

  /** Every prompt before (f, t) has its standard case, and the prompts of 32 tokens their deep one. */
  ghost predicate Covered(keys: seq<Key>, f: nat, t: nat) {
    forall k: Key :: k.Valid() && k.Before(f, t) && (k.deep ==> k.target == 1) ==> k in keys
  }

  ghost predicate Built<C(!new)>(m: Model<C>, policy: Policy, seeds: seq<seq<nat>>,
                                 keys: seq<Key>, cases: seq<ReferenceCase>, f: nat, t: nat)
    requires Causal(m) && |seeds| == |PROMPT_FAMILIES|
  {
    && |keys| == |cases|
    && (forall i :: 0 <= i < |keys| ==> keys[i].Valid() && keys[i].Before(f, t))
    && (forall i :: 0 <= i < |keys| ==>
          seeds[keys[i].family] != [] && CaseOf(m, policy, seeds, keys[i], cases[i]))
    && (forall i, j :: 0 <= i < j < |keys| ==> keys[i] != keys[j])
  }
}
