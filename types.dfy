/**
 * The benchmark's record types: the seven edit types, an edit operation and the
 * annotation of one page (ground truth and prediction share it), the per-edit
 * evaluation record `EditMatch`, and the evaluation result.
 *
 * Pydantic validation of a raw JSON object is modelled by `ValidateOperation` and
 * `ValidateAnnotation`: a raw record has every field optional; validation fails
 * when a required field is absent or `source` is not the literal "Little Dorrit".
 */
module Types {
  import opened Wrappers

  // ---------------------------------------------------------------------
  // EditType: a string-valued enumeration
  // ---------------------------------------------------------------------

  datatype EditType =
    | Insertion | Deletion | Replacement | Punctuation
    | Capitalization | Reordering | Italicize

  const AllEditTypes: seq<EditType> :=
    [Insertion, Deletion, Replacement, Punctuation, Capitalization, Reordering, Italicize]

  /** The enum member's value. */
  function EditTypeValue(t: EditType): string
  {
    match t
    case Insertion => "insertion"
    case Deletion => "deletion"
    case Replacement => "replacement"
    case Punctuation => "punctuation"
    case Capitalization => "capitalization"
    case Reordering => "reordering"
    case Italicize => "italicize"
  }

  /** `EditType(s)`: lookup by value; `None` stands for the `ValueError` Python raises. */
  function ParseEditType(s: string): Option<EditType>
  {
    if s == "insertion" then Some(Insertion)
    else if s == "deletion" then Some(Deletion)
    else if s == "replacement" then Some(Replacement)
    else if s == "punctuation" then Some(Punctuation)
    else if s == "capitalization" then Some(Capitalization)
    else if s == "reordering" then Some(Reordering)
    else if s == "italicize" then Some(Italicize)
    else None
  }

  /** There are exactly seven edit types, all distinct, with distinct values. */
  lemma EditTypesEnumerated()
    ensures |AllEditTypes| == 7
    ensures forall t: EditType :: t in AllEditTypes
    ensures forall i, j :: 0 <= i < j < 7 ==> EditTypeValue(AllEditTypes[i]) != EditTypeValue(AllEditTypes[j])
  {
    forall t: EditType ensures t in AllEditTypes {
      assert t == AllEditTypes[EditTypeIndex(t)];
    }
  }

  /** The position of an edit type in declaration order. */
  function EditTypeIndex(t: EditType): (i: nat)
    ensures i < |AllEditTypes| && AllEditTypes[i] == t
  {
    match t
    case Insertion => 0
    case Deletion => 1
    case Replacement => 2
    case Punctuation => 3
    case Capitalization => 4
    case Reordering => 5
    case Italicize => 6
  }

  /** Parsing is the inverse of taking the value, and accepts nothing else. */
  lemma ParseEditTypeExact(s: string, t: EditType)
    ensures ParseEditType(EditTypeValue(t)) == Some(t)
    ensures ParseEditType(s) == Some(t) <==> s == EditTypeValue(t)
  {
  }

  /** The "unknown" fallback and capitalised spellings are not edit types. */
  lemma NonValuesRejected()
    ensures ParseEditType("unknown") == None
    ensures ParseEditType("Punctuation") == None
    ensures ParseEditType("") == None
  {
  }

  // ---------------------------------------------------------------------
  // EditOperation and EditAnnotation
  // ---------------------------------------------------------------------

  /**
   * One edit. `editType` is the free string of the JSON record (not the enum);
   * `lineNumber` is 0 for a title and 1.. for body lines, and may be absent.
   */
  datatype EditOperation = EditOperation(
    editType: string,
    originalText: string,
    correctedText: string,
    lineNumber: Option<int>,
    page: Option<string>,
    confidence: Option<real>,
    notes: Option<string>)

  const LittleDorrit: string := "Little Dorrit"

  datatype EditAnnotation = EditAnnotation(
    image: string,
    pageNumber: int,
    source: string,
    edits: seq<EditOperation>,
    annotator: Option<string>,
    annotationDate: Option<string>,
    verified: Option<bool>,
    error: Option<string>,
    rawResponse: Option<string>)

  ghost predicate ValidAnnotation(a: EditAnnotation) {
    a.source == LittleDorrit
  }

  // A JSON object before validation: every field may be missing.
  datatype RawOperation = RawOperation(
    editType: Option<string>,
    originalText: Option<string>,
    correctedText: Option<string>,
    lineNumber: Option<int>,
    page: Option<string>,
    confidence: Option<real>,
    notes: Option<string>)

  datatype RawAnnotation = RawAnnotation(
    image: Option<string>,
    pageNumber: Option<int>,
    source: Option<string>,
    edits: Option<seq<RawOperation>>,
    annotator: Option<string>,
    annotationDate: Option<string>,
    verified: Option<bool>,
    error: Option<string>,
    rawResponse: Option<string>)

  datatype ValidationError =
    | MissingField(field: string)
    | NotTheLiteral(field: string, value: string)
    | InEdit(index: nat, cause: ValidationError)

  /** `EditOperation.model_validate`: `type`, `original_text` and `corrected_text` are required. */
  function ValidateOperation(raw: RawOperation): (r: Result<EditOperation, ValidationError>)
    ensures r.Success? <==>
            raw.editType.Some? && raw.originalText.Some? && raw.correctedText.Some?
    ensures r.Success? ==>
            && r.value.editType == raw.editType.value
            && r.value.originalText == raw.originalText.value
            && r.value.correctedText == raw.correctedText.value
            && r.value.lineNumber == raw.lineNumber
            && r.value.page == raw.page
            && r.value.confidence == raw.confidence
            && r.value.notes == raw.notes
  {
    if raw.editType.None? then Failure(MissingField("type"))
    else if raw.originalText.None? then Failure(MissingField("original_text"))
    else if raw.correctedText.None? then Failure(MissingField("corrected_text"))
    else Success(EditOperation(raw.editType.value, raw.originalText.value, raw.correctedText.value,
                               raw.lineNumber, raw.page, raw.confidence, raw.notes))
  }

  /** Validates the edits in order; the first invalid one is reported with its index. */
  function ValidateEdits(raws: seq<RawOperation>, offset: nat): (r: Result<seq<EditOperation>, ValidationError>)
    ensures r.Success? <==> forall i :: 0 <= i < |raws| ==> ValidateOperation(raws[i]).Success?
    ensures r.Success? ==> |r.value| == |raws|
    ensures r.Success? ==>
              forall i :: 0 <= i < |raws| ==> ValidateOperation(raws[i]) == Success(r.value[i])
    decreases |raws|
  {
    if raws == [] then Success([])
    else
      match ValidateOperation(raws[0])
      case Failure(e) => Failure(InEdit(offset, e))
      case Success(op) =>
        match ValidateEdits(raws[1..], offset + 1)
        case Failure(e) => Failure(e)
        case Success(ops) =>
          assert forall i :: 1 <= i < |raws| ==> raws[i] == raws[1..][i - 1];
          Success([op] + ops)
  }

  /**
   * `EditAnnotation.model_validate`: `image`, `page_number` and `edits` are required;
   * `source` defaults to, and must equal, "Little Dorrit".
   */
  function ValidateAnnotation(raw: RawAnnotation): (r: Result<EditAnnotation, ValidationError>)
    ensures r.Success? <==>
            && raw.image.Some? && raw.pageNumber.Some? && raw.edits.Some?
            && raw.source.GetOr(LittleDorrit) == LittleDorrit
            && ValidateEdits(raw.edits.value, 0).Success?
    ensures r.Success? ==>
            && ValidAnnotation(r.value)
            && r.value.image == raw.image.value
            && r.value.pageNumber == raw.pageNumber.value
            && r.value.source == LittleDorrit
            && r.value.edits == ValidateEdits(raw.edits.value, 0).value
            && |r.value.edits| == |raw.edits.value|
            && (forall i :: 0 <= i < |raw.edits.value| ==> ValidateOperation(raw.edits.value[i]) == Success(r.value.edits[i]))
            && r.value.annotator == raw.annotator
            && r.value.annotationDate == raw.annotationDate
            && r.value.verified == raw.verified
            && r.value.error == raw.error
            && r.value.rawResponse == raw.rawResponse
  {
    if raw.image.None? then Failure(MissingField("image"))
    else if raw.pageNumber.None? then Failure(MissingField("page_number"))
    else if raw.source.GetOr(LittleDorrit) != LittleDorrit then Failure(NotTheLiteral("source", raw.source.value))
    else if raw.edits.None? then Failure(MissingField("edits"))
    else
      match ValidateEdits(raw.edits.value, 0)
      case Failure(e) => Failure(e)
      case Success(ops) =>
        Success(EditAnnotation(raw.image.value, raw.pageNumber.value, LittleDorrit, ops,
                               raw.annotator, raw.annotationDate, raw.verified, raw.error, raw.rawResponse))
  }

  // ---------------------------------------------------------------------
  // EditMatch and EvaluationResult
  // ---------------------------------------------------------------------

  /** One evaluated edit: a matched pair, a pure false positive or a pure false negative. */
  datatype EditMatch = EditMatch(
    observedEditNum: Option<int>,
    expectedEditNum: Option<int>,
    tp: real,
    fp: real,
    fn: real,
    editType: Option<EditType>,
    originalText: Option<string>,
    correctedText: Option<string>,
    observedLineNumber: Option<int>,
    lineDiff: Option<int>,
    lineNumberPenalty: real,
    judgement: Option<string>)

  /** The invariant the record documents: the three weights add up to one. */
  predicate WeightsSumToOne(m: EditMatch) {
    m.tp + m.fp + m.fn == 1.0
  }

  /** `EditMatch(tp=…, fp=…, fn=…)`: only the weights are required, everything else defaults. */
  function NewEditMatch(tp: real, fp: real, fn: real): (m: EditMatch)
    ensures m.tp == tp && m.fp == fp && m.fn == fn
    ensures m.lineNumberPenalty == 0.0
    ensures m.observedEditNum.None? && m.expectedEditNum.None? && m.editType.None?
    ensures m.originalText.None? && m.correctedText.None?
    ensures m.observedLineNumber.None? && m.lineDiff.None? && m.judgement.None?
  {
    EditMatch(None, None, tp, fp, fn, None, None, None, None, None, 0.0, None)
  }

  datatype EvaluationResult = EvaluationResult(
    modelName: string,
    date: string,
    annotator: Option<string>,
    annotationDate: Option<string>,
    details: seq<EditMatch>)
}
