/**
 The canonical record of a tokenizer identity: one labelled line per field.  Fields are not
 escaped, so the record identifies an identity as long as no field spells a newline and a label.
 */
module TokenizerIdentity {
  import opened Json
  import opened Text

  /** The JSON values that Python finds equal to contract version 1, which print differently. */
  datatype ContractVersion = IntegerOne | FloatOne | True {
    function Rendered(): string {
      match this
      case IntegerOne => "1"
      case FloatOne => "1.0"
      case True => "True"
    }
  }

  datatype Identity = Identity(contractVersion: ContractVersion, specName: string, specVersion: nat,
                               sourceRepo: string, sourceRevision: string, sourceModelSha256: string,
                               tokenizerFile: string, tokenizerSha256: string, referenceKind: string,
                               referenceRuntime: string, referenceRuntimeVersion: string,
                               sourceWeightDtype: string, executionWeightDtype: string, oracleSemantics: string)

  /** `validate_identity` without expectations: positive version, non-blank fields, well-formed digests. */
  predicate Valid(id: Identity) {
    && id.specVersion > 0
    && NonBlank(id.specName) && NonBlank(id.sourceRepo) && NonBlank(id.sourceRevision) && NonBlank(id.tokenizerFile)
    && NonBlank(id.referenceKind) && NonBlank(id.referenceRuntime) && NonBlank(id.referenceRuntimeVersion)
    && NonBlank(id.sourceWeightDtype) && NonBlank(id.executionWeightDtype) && NonBlank(id.oracleSemantics)
    && IsHex(id.sourceModelSha256, 64) && IsHex(id.tokenizerSha256, 64)
  }

  /** A length and one character, which tell the keys apart. */
  function Mark(key: string): (nat, char) {
    (|key|, if |key| > 7 then key[7] else ' ')
  }

  function Header(): (s: string) ensures NewlineFree(s) { "NNIS-TOKENIZER-REFERENCE-IDENTITY-V" }
  function SpecNameLabel(): (s: string) ensures IsKey(s) && Mark(s) == (21, 'i') { "checkpoint_spec_name=" }
  function SpecVersionLabel(): (s: string) ensures IsKey(s) && Mark(s) == (24, 'i') { "checkpoint_spec_version=" }
  function RepoLabel(): (s: string) ensures IsKey(s) && Mark(s) == (12, 'r') { "source_repo=" }
  function RevisionLabel(): (s: string) ensures IsKey(s) && Mark(s) == (16, 'r') { "source_revision=" }
  function ModelShaLabel(): (s: string) ensures IsKey(s) && Mark(s) == (20, 'm') { "source_model_sha256=" }
  function TokenizerFileLabel(): (s: string) ensures IsKey(s) && Mark(s) == (15, 'e') { "tokenizer_file=" }
  function TokenizerShaLabel(): (s: string) ensures IsKey(s) && Mark(s) == (17, 'e') { "tokenizer_sha256=" }
  function KindLabel(): (s: string) ensures IsKey(s) && Mark(s) == (15, 'c') { "reference_kind=" }
  function RuntimeLabel(): (s: string) ensures IsKey(s) && Mark(s) == (18, 'c') { "reference_runtime=" }
  function RuntimeVersionLabel(): (s: string) ensures IsKey(s) && Mark(s) == (26, 'c') { "reference_runtime_version=" }
  function SourceDtypeLabel(): (s: string) ensures IsKey(s) && Mark(s) == (20, 'w') { "source_weight_dtype=" }
  function ExecutionDtypeLabel(): (s: string) ensures IsKey(s) && Mark(s) == (23, 'o') { "execution_weight_dtype=" }
  function OracleLabel(): (s: string) ensures IsKey(s) && Mark(s) == (17, 's') { "oracle_semantics=" }

  function Labels(): (labels: seq<string>)
    ensures |labels| == 14 && KeyLabels(labels)
  {
    LabelsDiffer();
    hide Header, SpecNameLabel, SpecVersionLabel, RepoLabel, RevisionLabel, ModelShaLabel, TokenizerFileLabel,
         TokenizerShaLabel, KindLabel, RuntimeLabel, RuntimeVersionLabel, SourceDtypeLabel, ExecutionDtypeLabel,
         OracleLabel;
    [Header()] + Keys()
  }

  function Keys(): (keys: seq<string>)
    ensures |keys| == 13 && forall i :: 0 <= i < 13 ==> IsKey(keys[i])
  {
    hide SpecNameLabel, SpecVersionLabel, RepoLabel, RevisionLabel, ModelShaLabel, TokenizerFileLabel,
         TokenizerShaLabel, KindLabel, RuntimeLabel, RuntimeVersionLabel, SourceDtypeLabel, ExecutionDtypeLabel,
         OracleLabel, IsKey;
    [SpecNameLabel(), SpecVersionLabel(), RepoLabel(), RevisionLabel(), ModelShaLabel(), TokenizerFileLabel(),
     TokenizerShaLabel(), KindLabel(), RuntimeLabel(), RuntimeVersionLabel(), SourceDtypeLabel(), ExecutionDtypeLabel(),
     OracleLabel()]
  }

  lemma LabelsDiffer()
    ensures forall i, j :: 0 <= i < j < 13 ==> Keys()[i] != Keys()[j]
  {
    hide Mark, SpecNameLabel, SpecVersionLabel, RepoLabel, RevisionLabel, ModelShaLabel, TokenizerFileLabel,
         TokenizerShaLabel, KindLabel, RuntimeLabel, RuntimeVersionLabel, SourceDtypeLabel, ExecutionDtypeLabel,
         OracleLabel, IsKey;
    var k := Keys();
    var marks := [Mark(k[0]), Mark(k[1]), Mark(k[2]), Mark(k[3]), Mark(k[4]), Mark(k[5]), Mark(k[6]), Mark(k[7]),
                  Mark(k[8]), Mark(k[9]), Mark(k[10]), Mark(k[11]), Mark(k[12])];
    assert forall i :: 0 <= i < 13 ==> marks[i] == Mark(k[i]);
    assert forall i, j :: 0 <= i < j < 13 ==> marks[i] != marks[j];
  }

  function Values(id: Identity): (values: seq<string>)
    ensures |values| == 14
  {
    [id.contractVersion.Rendered(), id.specName, Decimal(id.specVersion), id.sourceRepo, id.sourceRevision,
     id.sourceModelSha256, id.tokenizerFile, id.tokenizerSha256, id.referenceKind, id.referenceRuntime,
     id.referenceRuntimeVersion, id.sourceWeightDtype, id.executionWeightDtype, id.oracleSemantics]
  }

  function CanonicalRecord(id: Identity): string {
    Lines(Labels(), Values(id))
  }

  /** Which field stands on which line, and after which label. */
  lemma FieldUnderLabel(id: Identity)
    ensures var labels, values := Labels(), Values(id);
            && labels[0] == "NNIS-TOKENIZER-REFERENCE-IDENTITY-V"
            && values[0] == (match id.contractVersion case IntegerOne => "1" case FloatOne => "1.0" case True => "True")
            && labels[1] == "checkpoint_spec_name=" && values[1] == id.specName
            && labels[2] == "checkpoint_spec_version=" && values[2] == Decimal(id.specVersion)
            && labels[3] == "source_repo=" && values[3] == id.sourceRepo
            && labels[4] == "source_revision=" && values[4] == id.sourceRevision
            && labels[5] == "source_model_sha256=" && values[5] == id.sourceModelSha256
            && labels[6] == "tokenizer_file=" && values[6] == id.tokenizerFile
    ensures var labels, values := Labels(), Values(id);
            && labels[7] == "tokenizer_sha256=" && values[7] == id.tokenizerSha256
            && labels[8] == "reference_kind=" && values[8] == id.referenceKind
            && labels[9] == "reference_runtime=" && values[9] == id.referenceRuntime
            && labels[10] == "reference_runtime_version=" && values[10] == id.referenceRuntimeVersion
            && labels[11] == "source_weight_dtype=" && values[11] == id.sourceWeightDtype
            && labels[12] == "execution_weight_dtype=" && values[12] == id.executionWeightDtype
            && labels[13] == "oracle_semantics=" && values[13] == id.oracleSemantics
  {
    hide Decimal, IsKey;
  }

  /** The record has a line for every field, in that order: line k begins after the lines before it. */
  lemma RecordLine(id: Identity, k: nat)
    requires k < 14
    ensures CanonicalRecord(id)
            == Lines(Labels()[..k], Values(id)[..k]) + (Labels()[k] + Values(id)[k] + "\n")
               + Lines(Labels()[k + 1..], Values(id)[k + 1..])
  {
    hide Labels, Values;
    var labels, values := Labels(), Values(id);
    LinesSplit(labels, values, k);
    assert labels[k..][1..] == labels[k + 1..] && values[k..][1..] == values[k + 1..];
  }

  /** No free-text field contains a newline. */
  ghost predicate SingleLine(id: Identity) {
    && NewlineFree(id.specName) && NewlineFree(id.sourceRepo) && NewlineFree(id.sourceRevision)
    && NewlineFree(id.tokenizerFile) && NewlineFree(id.referenceKind) && NewlineFree(id.referenceRuntime)
    && NewlineFree(id.referenceRuntimeVersion) && NewlineFree(id.sourceWeightDtype)
    && NewlineFree(id.executionWeightDtype) && NewlineFree(id.oracleSemantics)
  }

  /** The version, the digests and the contract version never contain a newline. */
  lemma ValuesAreClean(id: Identity)
    requires Valid(id) && SingleLine(id)
    ensures AllNewlineFree(Values(id))
  {
    HexIsClean(id.sourceModelSha256);
    HexIsClean(id.tokenizerSha256);
    DecimalIsClean(id.specVersion);
    VersionIsClean(id.contractVersion);
    hide Decimal, IsHex, NonBlank, NewlineFree, ContractVersion.Rendered;
  }

  lemma SingleLineSpellsNoLabel(id: Identity)
    requires Valid(id) && SingleLine(id)
    ensures SpellsNoLabel(Labels(), Values(id))
  {
    hide Labels, Values, SingleLine, Valid;
    ValuesAreClean(id);
    forall i, k | 0 <= i < 14 && 1 <= k < 14
      ensures !Contains(Values(id)[i], "\n" + Labels()[k])
    {
      CleanHoldsNoMark(Values(id)[i], Labels()[k]);
    }
  }

  lemma CleanHoldsNoMark(s: string, key: string)
    requires NewlineFree(s)
    ensures !Contains(s, "\n" + key)
  {
    forall i
      ensures !OccursAt(s, "\n" + key, i)
    {
      StartsOccurrence(s, "\n" + key, i);
    }
  }

  lemma StartsOccurrence(s: string, mark: string, i: nat)
    requires mark != ""
    ensures OccursAt(s, mark, i) ==> s[i] == mark[0]
  {
    if OccursAt(s, mark, i) {
      assert s[i..i + |mark|][0] == s[i];
    }
  }

  lemma HexIsClean(s: string)
    requires IsHex(s, 64)
    ensures NewlineFree(s)
  {
  }

  lemma DecimalIsClean(n: nat)
    ensures NewlineFree(Decimal(n))
  {
  }

  lemma VersionIsClean(v: ContractVersion)
    ensures NewlineFree(v.Rendered())
  {
  }

  lemma RenderedInjective(v: ContractVersion, w: ContractVersion)
    requires v.Rendered() == w.Rendered()
    ensures v == w
  {
    assert |v.Rendered()| == |w.Rendered()|;
  }

  /**
   The record of an identity that spells no label after a newline, such as one whose fields are
   single lines, is its own: no other identity has it, whatever that one's fields contain.
   */
  lemma RecordIdentifies(a: Identity, b: Identity)
    requires SpellsNoLabel(Labels(), Values(a)) && CanonicalRecord(a) == CanonicalRecord(b)
    ensures a == b
  {
    hide Labels, Lines, Values, SpellsNoLabel, KeyLabels;
    LinesIdentify(Labels(), Values(a), Values(b));
    SameValues(a, b);
  }

  lemma SameValues(a: Identity, b: Identity)
    requires Values(a) == Values(b)
    ensures a == b
  {
    hide ContractVersion.Rendered, Decimal;
    var v, w := Values(a), Values(b);
    assert v[0] == w[0] && v[1] == w[1] && v[2] == w[2] && v[3] == w[3] && v[4] == w[4] && v[5] == w[5] && v[6] == w[6];
    assert v[7] == w[7] && v[8] == w[8] && v[9] == w[9] && v[10] == w[10] && v[11] == w[11] && v[12] == w[12] &&
        v[13] == w[13];
    RenderedInjective(a.contractVersion, b.contractVersion);
    DecimalInjective(a.specVersion, b.specVersion);
  }

  // ----- Collisions -----

  predicate IsFreeText(j: nat) {
    j == 1 || j == 3 || j == 4 || j == 6 || 8 <= j < 14
  }

  /** What validation asks: a version from 1 on, a digest on lines 5 and 7, and text that is not blank on all others. */
  lemma ValidIff(id: Identity)
    ensures Valid(id) <==>
            && id.specVersion >= 1 && IsHex(Values(id)[5], 64) && IsHex(Values(id)[7], 64)
            && forall j :: 0 <= j < 14 && IsFreeText(j) ==> NonBlank(Values(id)[j])
  {
    hide ContractVersion.Rendered, Decimal, NonBlank, IsHex;
    var v := Values(id);
    assert v[1] == id.specName && v[3] == id.sourceRepo && v[4] == id.sourceRevision && v[6] == id.tokenizerFile;
    assert v[8] == id.referenceKind && v[9] == id.referenceRuntime && v[10] == id.referenceRuntimeVersion;
    assert v[11] == id.sourceWeightDtype && v[12] == id.executionWeightDtype && v[13] == id.oracleSemantics;
  }

  function WithText(id: Identity, j: nat, text: string): Identity
    requires IsFreeText(j)
  {
    match j
    case 1 => id.(specName := text)
    case 3 => id.(sourceRepo := text)
    case 4 => id.(sourceRevision := text)
    case 6 => id.(tokenizerFile := text)
    case 8 => id.(referenceKind := text)
    case 9 => id.(referenceRuntime := text)
    case 10 => id.(referenceRuntimeVersion := text)
    case 11 => id.(sourceWeightDtype := text)
    case 12 => id.(executionWeightDtype := text)
    case 13 => id.(oracleSemantics := text)
  }

  lemma WithTextMeaning(id: Identity, j: nat, text: string)
    requires IsFreeText(j)
    ensures Values(WithText(id, j, text)) == Values(id)[j := text]
    ensures Valid(id) && NonBlank(text) ==> Valid(WithText(id, j, text))
  {
    hide ContractVersion.Rendered, Decimal, NonBlank, IsHex;
  }

  lemma FreeTextIsNonBlank(id: Identity, j: nat)
    requires Valid(id) && IsFreeText(j)
    ensures NonBlank(Values(id)[j])
  {
    hide ContractVersion.Rendered, Decimal, NonBlank, IsHex;
  }

  /** The identity whose fields j and j + 1 are these texts. */
  function WithTexts(id: Identity, j: nat, text: string, next: string): Identity
    requires IsFreeText(j) && IsFreeText(j + 1)
  {
    WithText(WithText(id, j, text), j + 1, next)
  }

  function Marked(x: string, key: string, y: string): string {
    x + ("\n" + key) + y
  }

  predicate Reads(text: string, x: string, key: string, y: string) {
    text == Marked(x, key, y)
  }

  /** A newline and the next label split two fields in two ways: at the first occurrence, or at the second. */
  lemma EmbeddedNewlinesCollide(id: Identity, j: nat, x: string, y: string, z: string)
    requires Valid(id) && IsFreeText(j) && IsFreeText(j + 1) && NonBlank(x) && NonBlank(z)
    ensures var key := Labels()[j + 1];
            var a, b := WithTexts(id, j, Marked(x, key, y), z), WithTexts(id, j, x, Marked(y, key, z));
            Valid(a) && Valid(b) && a != b && CanonicalRecord(a) == CanonicalRecord(b)
  {
    hide Labels, WithTexts, Values, Lines, NonBlank, Valid;
    var key := Labels()[j + 1];
    var mark := "\n" + key;
    PartIsNonBlank(x, mark + y);
    PartIsNonBlankRight(y + mark, z);
    assert x + (mark + y) == Marked(x, key, y);
    var a, b := WithTexts(id, j, Marked(x, key, y), z), WithTexts(id, j, x, Marked(y, key, z));
    WithTextsMeaning(id, j, Marked(x, key, y), z);
    WithTextsMeaning(id, j, x, Marked(y, key, z));
    assert |Values(a)[j]| > |Values(b)[j]|;
    SameLines(Labels(), Values(id), j, x, y, z);
  }

  lemma WithTextsMeaning(id: Identity, j: nat, text: string, next: string)
    requires IsFreeText(j) && IsFreeText(j + 1)
    ensures Values(WithTexts(id, j, text, next)) == Values(id)[j := text][j + 1 := next]
    ensures Valid(id) && NonBlank(text) && NonBlank(next) ==> Valid(WithTexts(id, j, text, next))
  {
    hide WithText, Values, NonBlank, Valid;
    WithTextMeaning(id, j, text);
    WithTextMeaning(WithText(id, j, text), j + 1, next);
  }

  ghost predicate SpellsAfterText(text: string, key: string) {
    exists x, y :: NonBlank(x) && Reads(text, x, key, y)
  }

  ghost predicate SpellsBeforeText(text: string, key: string) {
    exists y, z :: NonBlank(z) && Reads(text, y, key, z)
  }

  /** The field at j holds a newline and the next field's label after some text, or the next one its own before some. */
  ghost predicate SpellsBoundary(id: Identity, j: nat)
    requires j + 1 < 14
  {
    || SpellsAfterText(Values(id)[j], Labels()[j + 1])
    || SpellsBeforeText(Values(id)[j + 1], Labels()[j + 1])
  }

  /** A valid identity that spells the boundary of two neighbouring text fields shares its record with another one. */
  lemma SpelledBoundaryCollides(id: Identity, j: nat) returns (other: Identity)
    requires Valid(id) && IsFreeText(j) && IsFreeText(j + 1) && SpellsBoundary(id, j)
    ensures Valid(other) && other != id && CanonicalRecord(other) == CanonicalRecord(id)
  {
    hide Labels, WithTexts, Values, NonBlank, Valid, Marked, CanonicalRecord;
    FreeTextIsNonBlank(id, j);
    FreeTextIsNonBlank(id, j + 1);
    var key, k, r := Labels()[j + 1], Values(id)[j], Values(id)[j + 1];
    SameTexts(id, j);
    if SpellsAfterText(k, key) {
      var x, y :| NonBlank(x) && Reads(k, x, key, y);
      EmbeddedNewlinesCollide(id, j, x, y, r);
      other := WithTexts(id, j, x, Marked(y, key, r));
    } else {
      var y, z :| NonBlank(z) && Reads(r, y, key, z);
      EmbeddedNewlinesCollide(id, j, k, y, z);
      other := WithTexts(id, j, Marked(k, key, y), z);
    }
  }

  lemma SameTexts(id: Identity, j: nat)
    requires IsFreeText(j) && IsFreeText(j + 1)
    ensures WithTexts(id, j, Values(id)[j], Values(id)[j + 1]) == id
  {
    hide ContractVersion.Rendered, Decimal;
  }

  lemma PartIsNonBlank(s: string, t: string)
    requires NonBlank(s)
    ensures NonBlank(s + t)
  {
    var i :| 0 <= i < |s| && !IsPythonSpace(s[i]);
    assert (s + t)[i] == s[i];
  }

  lemma PartIsNonBlankRight(s: string, t: string)
    requires NonBlank(t)
    ensures NonBlank(s + t)
  {
    var i :| 0 <= i < |t| && !IsPythonSpace(t[i]);
    assert (s + t)[|s| + i] == t[i];
  }

  lemma SameLines(labels: seq<string>, values: seq<string>, j: nat, x: string, y: string, z: string)
    requires |labels| == |values| && j + 1 < |labels|
    ensures var mark := "\n" + labels[j + 1];
            Lines(labels, values[j := x + mark + y][j + 1 := z]) == Lines(labels, values[j := x][j + 1 := y + mark + z])
  {
    hide Lines;
    var mark := "\n" + labels[j + 1];
    var v, w := values[j := x + mark + y][j + 1 := z], values[j := x][j + 1 := y + mark + z];
    LinesSplit(labels, v, j);
    LinesSplit(labels, w, j);
    assert v[..j] == w[..j] && v[j..][2..] == w[j..][2..];
    TwoLines(labels[j..], v[j..]);
    TwoLines(labels[j..], w[j..]);
    SameTwoLines(labels[j], mark, x, y, z, Lines(labels[j..][2..], v[j..][2..]));
  }

  lemma TwoLines(labels: seq<string>, values: seq<string>)
    requires |labels| == |values| >= 2
    ensures Lines(labels, values)
            == labels[0] + values[0] + ("\n" + labels[1]) + values[1] + "\n" + Lines(labels[2..], values[2..])
  {
    assert labels[1..][1..] == labels[2..] && values[1..][1..] == values[2..];
  }

  lemma SameTwoLines(first: string, mark: string, x: string, y: string, z: string, rest: string)
    ensures first + (x + mark + y) + mark + z + "\n" + rest == first + x + mark + (y + mark + z) + "\n" + rest
  {
  }
}
