/**
 JSON documents as the Python tools see them after decoding.  Object keys are the ones the tools
 look up, and all others.  Python compares booleans, integers and floats by value.
 */
module Json {

  datatype Key =
    | SchemaVersion | Kind | Benchmark | SourceRepo | SourceRevision | SourceModelSha256 | Metadata
    | GitCommit | GitDirty | EnvironmentFingerprint | RunContextId | UnixTimestampSeconds
    | Candidates | CandidateReports | CandidateKey | RoundsPerCandidate | CaseCount | RoundsKey | BlocksKey | CasesKey
    | CaseEvidence | CampaignComplete | CompleteKey | SuccessKey | ExactOracleGreedy | GeneratedIds | DecodeSteps
    | CheckpointSpecName | CheckpointSpecVersion | TokenizerSha256 | ReferenceRuntime | ReferenceRuntimeVersion
    | ExecutionGitCommit | ExecutionGitDirty | ExecutionBackend | ParityLevel | Semantic | Logits | SourceEvidence
    | PromotionAuthorized | ClaimBoundary | Observations | ExactGreedyObservations | ExactGreedyAll
    | Atol | Rtol | Stages | Failures | NonFinite | MaxAbs | MaxRms | StrictToleranceAsserted | Artifact
    | Records | DistinctCheckpointCount
    | CaseName | GpuReferenceMs | GpuCandidateMs | GpuImprovement | WallImprovement | RequestImprovement
    | Other(name: string)

  /** The strings that the tools compare against or write, by what they stand for. */
  datatype Tag =
    | ParityRecordKind      // "nnis-nnml1-reference-parity-record-v1"
    | ParitySuiteKind       // "nnis-nnml1-multi-model-parity-suite-v1"
    | MassiveBenchmark      // "trained-llama-f16-massive-abba-v1"
    | ConsensusKind         // "nnis-tinyllama-trained-massive-f16-consensus-v1"
    | MassiveBackend        // "nnis-f16-cuda-massive-abba"
    | ConsensusFile         // "consensus.json"
    | GenerationTrajectory  // "generation_trajectory"
    | LogitAndGeneration    // "logit_and_generation"
    | Transformers          // "transformers"
    | TransformersVersion   // the pinned version of the reference runtime
    | SmolLm2               // "smollm2-135m-bf16"
    | SmolLm2Repo | SmolLm2Revision | SmolLm2Sha256
    | TinyLlama             // "tinyllama-1.1b-chat-v1.0-bf16"
    | TinyLlamaRepo | TinyLlamaRevision | TinyLlamaSha256
    | RecordClaim | SuiteClaim  // the fixed claim boundaries
    | TransposedPlan | FusedPlan | FusedMlpPlan | StagedPlan | FusedMlpStagedPlan | ReferencePlan  // the plan names

  /** A string is a Tag if it is one of those constants and a Str if it is any other. */
  datatype Json =
    | Null
    | Bool(b: bool)
    | Int(i: int)
    | Float(r: real)
    | Infinite
    | Str(s: string)
    | Constant(tag: Tag)
    | Arr(items: seq<Json>)
    | Obj(fields: map<Key, Json>)

  /** `document.get(key)`. */
  function Get(j: Json, k: Key): Json
    requires j.Obj?
  {
    if k in j.fields then j.fields[k] else Null
  }

  /** Python's `value == n` for an integer n. */
  predicate EqualsInt(j: Json, n: int) {
    j == Int(n) || j == Float(n as real) || (j == Bool(true) && n == 1) || (j == Bool(false) && n == 0)
  }

  /** What equals 1: the integer, the float, and true. */
  lemma EqualsOne(j: Json)
    ensures EqualsInt(j, 1) <==> j == Int(1) || j == Float(1.0) || j == Bool(true)
  {
  }

  /** An integer that is not a boolean, at least n. */
  predicate IntAtLeast(j: Json, n: int) {
    j.Int? && j.i >= n
  }

  /** White space as Python's `str.strip` removes it. */
  predicate IsPythonSpace(c: char) {
    || '\t' <= c <= '\r' || '\U{001C}' <= c <= ' ' || c == '\U{0085}' || c == '\U{00A0}' || c == '\U{1680}'
    || '\U{2000}' <= c <= '\U{200A}' || c == '\U{2028}' || c == '\U{2029}' || c == '\U{202F}'
    || c == '\U{205F}' || c == '\U{3000}'
  }

  /** The code points of those characters. */
  lemma PythonSpaces(c: char)
    ensures IsPythonSpace(c) <==>
            var n := c as int;
            || 9 <= n < 14 || 28 <= n < 33 || n == 133 || n == 160 || n == 5760 || 8192 <= n < 8203
            || n == 8232 || n == 8233 || n == 8239 || n == 8287 || n == 12288
  {
  }

  /** A string with something left after stripping. */
  predicate IsText(j: Json) {
    j.Constant? || (j.Str? && NonBlank(j.s))
  }

  predicate NonBlank(s: string) {
    exists i :: 0 <= i < |s| && !IsPythonSpace(s[i])
  }

  predicate IsHexDigit(c: char) {
    '0' <= c <= '9' || 'a' <= c <= 'f'
  }

  /** Exactly n lowercase hexadecimal digits. */
  predicate IsHex(s: string, n: nat) {
    |s| == n && forall i :: 0 <= i < |s| ==> IsHexDigit(s[i])
  }

  /** The code points of those digits. */
  lemma HexDigits(s: string, n: nat)
    ensures IsHex(s, n) <==>
            |s| == n && forall i :: 0 <= i < n ==> 48 <= s[i] as int < 58 || 97 <= s[i] as int < 103
  {
  }

  predicate IsHexString(j: Json, n: nat) {
    j.Str? && IsHex(j.s, n)
  }
}
