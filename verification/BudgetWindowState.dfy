/** One budget-window report's state, and the JSON document that carries it through the cache. */
module BudgetWindowState {
  import opened Outcome
  import opened CacheCore

  const BUDGET_WINDOW_CACHE_FAMILY := "budget-window"
  const BUDGET_WINDOW_CACHE_SCHEMA_VERSION: nat := 4

  datatype Status = Starting | Submitted | Completed | Failed

  datatype FailureType = SpmValidation | Execution

  datatype State = State(
    status: Status,
    observabilityId: Option<string>,
    submissionClaimId: Option<string>,
    batchJobId: Option<string>,
    result: Option<Document>,
    failureType: Option<FailureType>,
    error: Option<Document>)

  /** What the state model accepts: the fields its status requires, and no empty identifiers. */
  predicate Complete(state: State) {
    && state.submissionClaimId != Some("") && state.batchJobId != Some("")
    && match state.status
       case Starting => state.submissionClaimId.Some?
       case Submitted => state.batchJobId.Some?
       case Completed => state.result.Some?
       case Failed => state.failureType.Some? && state.error.Some?
  }

  // ---- Writing ----

  function StatusName(status: Status): string {
    match status
    case Starting => "starting"
    case Submitted => "submitted"
    case Completed => "completed"
    case Failed => "failed"
  }

  function FailureTypeName(failureType: FailureType): string {
    match failureType
    case SpmValidation => "spm_validation"
    case Execution => "execution"
  }

  function WithText(fields: Document, name: string, value: Option<string>): Document {
    if value.Some? then fields[name := Text(value.value)] else fields
  }

  function WithObject(fields: Document, name: string, value: Option<Document>): Document {
    if value.Some? then fields[name := Object(value.value)] else fields
  }

  /** The payload leaves out the fields that are not set. */
  function ToPayload(state: State): Document {
    var status := map["status" := Text(StatusName(state.status))];
    var observed := WithText(status, "observability_id", state.observabilityId);
    var claimed := WithText(observed, "submission_claim_id", state.submissionClaimId);
    var batched := WithText(claimed, "batch_job_id", state.batchJobId);
    var finished := WithObject(batched, "result", state.result);
    var typed := WithText(finished, "failure_type",
                          if state.failureType.Some? then Some(FailureTypeName(state.failureType.value)) else None);
    WithObject(typed, "error", state.error)
  }

  function EncodedState(state: State): Encoded {
    JsonText(EncodeEnvelope(BUDGET_WINDOW_CACHE_FAMILY, BUDGET_WINDOW_CACHE_SCHEMA_VERSION, Object(ToPayload(state))))
  }

  // ---- Reading back ----

  function ParseText(json: Json): Result<Option<string>> {
    match json
    case Null => Ok(None)
    case Text(text) => Ok(Some(text))
    case _ => Err("a string is required")
  }

  function ParseObject(json: Json): Result<Option<Document>> {
    match json
    case Null => Ok(None)
    case Object(fields) => Ok(Some(fields))
    case _ => Err("a dictionary is required")
  }

  function ParseStatus(json: Json): Result<Status> {
    if json == Text("starting") then Ok(Starting)
    else if json == Text("submitted") then Ok(Submitted)
    else if json == Text("completed") then Ok(Completed)
    else if json == Text("failed") then Ok(Failed)
    else Err("an unknown status")
  }

  function ParseFailureType(json: Json): Result<Option<FailureType>> {
    if json == Null then Ok(None)
    else if json == Text("spm_validation") then Ok(Some(SpmValidation))
    else if json == Text("execution") then Ok(Some(Execution))
    else Err("an unknown failure type")
  }

  function FromPayload(payload: Json): Option<State> {
    if !payload.Object? then None
    else
      var status := ParseStatus(Field(payload.fields, "status"));
      var observabilityId := ParseText(Field(payload.fields, "observability_id"));
      var claimId := ParseText(Field(payload.fields, "submission_claim_id"));
      var batchJobId := ParseText(Field(payload.fields, "batch_job_id"));
      var result := ParseObject(Field(payload.fields, "result"));
      var failureType := ParseFailureType(Field(payload.fields, "failure_type"));
      var error := ParseObject(Field(payload.fields, "error"));
      if status.Err? || observabilityId.Err? || claimId.Err? || batchJobId.Err? then None
      else if result.Err? || failureType.Err? || error.Err? then None
      else
        var state := State(status.value, observabilityId.value, claimId.value, batchJobId.value, result.value,
                           failureType.value, error.value);
        if Complete(state) then Some(state) else None
  }

  function DecodedState(value: Encoded): Option<State> {
    FromPayload(DecodeEnvelope(value, BUDGET_WINDOW_CACHE_FAMILY, BUDGET_WINDOW_CACHE_SCHEMA_VERSION))
  }

  // ---- Round trips ----

  function TextOrNull(value: Option<string>): Json { if value.Some? then Text(value.value) else Null }

  function ObjectOrNull(value: Option<Document>): Json { if value.Some? then Object(value.value) else Null }

  lemma WithTextField(fields: Document, name: string, value: Option<string>, other: string)
    requires name !in fields
    ensures Field(WithText(fields, name, value), other) == if other == name then TextOrNull(value) else Field(fields, other)
    ensures other != name ==> (other in WithText(fields, name, value) <==> other in fields)
  {
  }

  lemma WithObjectField(fields: Document, name: string, value: Option<Document>, other: string)
    requires name !in fields
    ensures Field(WithObject(fields, name, value), other) == if other == name then ObjectOrNull(value) else Field(fields, other)
    ensures other != name ==> (other in WithObject(fields, name, value) <==> other in fields)
  {
  }

  /** What a reader finds under each name, the last written first. */
  function FieldOf(state: State, name: string): Json {
    if name == "error" then ObjectOrNull(state.error)
    else if name == "failure_type" then
      TextOrNull(if state.failureType.Some? then Some(FailureTypeName(state.failureType.value)) else None)
    else if name == "result" then ObjectOrNull(state.result)
    else if name == "batch_job_id" then TextOrNull(state.batchJobId)
    else if name == "submission_claim_id" then TextOrNull(state.submissionClaimId)
    else if name == "observability_id" then TextOrNull(state.observabilityId)
    else if name == "status" then Text(StatusName(state.status))
    else Null
  }

  lemma PayloadField(state: State, name: string)
    ensures Field(ToPayload(state), name) == FieldOf(state, name)
  {
    NamesDiffer();
    var status := map["status" := Text(StatusName(state.status))];
    var observed := WithText(status, "observability_id", state.observabilityId);
    var claimed := WithText(observed, "submission_claim_id", state.submissionClaimId);
    var batched := WithText(claimed, "batch_job_id", state.batchJobId);
    var finished := WithObject(batched, "result", state.result);
    var failureType := if state.failureType.Some? then Some(FailureTypeName(state.failureType.value)) else None;
    WithTextField(status, "observability_id", state.observabilityId, name);
    WithTextField(observed, "submission_claim_id", state.submissionClaimId, name);
    WithTextField(claimed, "batch_job_id", state.batchJobId, name);
    WithObjectField(batched, "result", state.result, name);
    WithTextField(finished, "failure_type", failureType, name);
    WithObjectField(WithText(finished, "failure_type", failureType), "error", state.error, name);
  }

  lemma PayloadReadsBack(state: State)
    ensures var fields := ToPayload(state);
            && ParseStatus(Field(fields, "status")) == Ok(state.status)
            && ParseText(Field(fields, "observability_id")) == Ok(state.observabilityId)
            && ParseText(Field(fields, "submission_claim_id")) == Ok(state.submissionClaimId)
            && ParseText(Field(fields, "batch_job_id")) == Ok(state.batchJobId)
            && ParseObject(Field(fields, "result")) == Ok(state.result)
            && ParseFailureType(Field(fields, "failure_type")) == Ok(state.failureType)
            && ParseObject(Field(fields, "error")) == Ok(state.error)
  {
    NamesDiffer();
    StatusNamesDiffer();
    PayloadField(state, "status");
    PayloadField(state, "observability_id");
    PayloadField(state, "submission_claim_id");
    PayloadField(state, "batch_job_id");
    PayloadField(state, "result");
    PayloadField(state, "failure_type");
    PayloadField(state, "error");
  }

  predicate Distinct(names: seq<string>) { forall i, j :: 0 <= i < j < |names| ==> names[i] != names[j] }

  lemma NamesDiffer()
    ensures Distinct(["status", "observability_id", "submission_claim_id", "batch_job_id", "result", "failure_type", "error"])
  {
    assert "result"[0] == 'r' && "status"[0] == 's' && "failure_type"[0] == 'f' && "batch_job_id"[0] == 'b';
  }

  lemma StatusNamesDiffer()
    ensures Distinct(["starting", "submitted", "completed", "failed"]) && Distinct(["spm_validation", "execution"])
  {
    assert "submitted"[0] == 's' && "completed"[0] == 'c';
  }

  /** Every state the cache can write is read back as it was. */
  lemma StateRoundTrip(state: State)
    requires Complete(state)
    ensures DecodedState(EncodedState(state)) == Some(state)
  {
    PayloadReadsBack(state);
    EnvelopeRoundTrip(BUDGET_WINDOW_CACHE_FAMILY, BUDGET_WINDOW_CACHE_SCHEMA_VERSION, Object(ToPayload(state)),
                      BUDGET_WINDOW_CACHE_FAMILY, BUDGET_WINDOW_CACHE_SCHEMA_VERSION);
  }

  /** A state can be read back from some value exactly if it has what its status requires, and no
      empty identifiers: then the cache could have written it. */
  lemma ReadableAreWritable(state: State)
    ensures (exists value :: DecodedState(value) == Some(state))
       <==> && state.submissionClaimId != Some("") && state.batchJobId != Some("")
            && (state.status == Starting ==> state.submissionClaimId.Some?)
            && (state.status == Submitted ==> state.batchJobId.Some?)
            && (state.status == Completed ==> state.result.Some?)
            && (state.status == Failed ==> state.failureType.Some? && state.error.Some?)
  {
    if Complete(state) {
      StateRoundTrip(state);
      assert DecodedState(EncodedState(state)) == Some(state);
    }
  }

  /** Equal encodings are of equal states. */
  lemma EncodingIsInjective(a: State, b: State)
    requires Complete(a) && Complete(b)
    ensures EncodedState(a) == EncodedState(b) <==> a == b
  {
    StateRoundTrip(a);
    StateRoundTrip(b);
  }

  // ---- The states that requests write ----

  function StartingState(claimToken: string, observabilityId: Option<string>): State {
    State(Starting, observabilityId, Some(claimToken), None, None, None, None)
  }

  function SubmittedState(batchJobId: string, observabilityId: Option<string>): State {
    State(Submitted, observabilityId, None, Some(batchJobId), None, None, None)
  }

  function CompletedState(result: Document, observabilityId: Option<string>): State {
    State(Completed, observabilityId, None, None, Some(result), None, None)
  }

  function FailedState(failureType: FailureType, error: Document, observabilityId: Option<string>): State {
    State(Failed, observabilityId, None, None, None, Some(failureType), Some(error))
  }

  /** What a reader finds of each: the claim's token, the batch, the result or the typed failure, and
      always the diagnostic identifier of the request that wrote it. */
  lemma WrittenStatesAre(text: string, document: Document, failureType: FailureType, observabilityId: Option<string>)
    requires text != ""
    ensures DecodedState(EncodedState(StartingState(text, observabilityId)))
         == Some(State(Starting, observabilityId, Some(text), None, None, None, None))
    ensures DecodedState(EncodedState(SubmittedState(text, observabilityId)))
         == Some(State(Submitted, observabilityId, None, Some(text), None, None, None))
    ensures DecodedState(EncodedState(CompletedState(document, observabilityId)))
         == Some(State(Completed, observabilityId, None, None, Some(document), None, None))
    ensures DecodedState(EncodedState(FailedState(failureType, document, observabilityId)))
         == Some(State(Failed, observabilityId, None, None, None, Some(failureType), Some(document)))
  {
    StateRoundTrip(StartingState(text, observabilityId));
    StateRoundTrip(SubmittedState(text, observabilityId));
    StateRoundTrip(CompletedState(document, observabilityId));
    StateRoundTrip(FailedState(failureType, document, observabilityId));
  }
}
