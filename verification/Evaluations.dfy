/**
 Batch requests on values (evaluations.go, sections 7.1 and 7.1.1 of the
 OpenID AuthZEN Authorization API 1.0): defaulting and validation.
 */
module Evaluations {
  import opened Wrappers
  import opened Values

  /** None is a nil map; an empty one is Some of the empty map. */
  type Properties = Option<Props>

  datatype SubjectValue = SubjectValue(kind: string, id: string, properties: Properties)
  datatype ActionValue = ActionValue(name: string, properties: Properties)
  datatype ResourceValue = ResourceValue(kind: string, id: string, properties: Properties)

  /** The parts of a request, each None when omitted. */
  datatype EvaluationValue = EvaluationValue(
    subject: Option<SubjectValue>,
    action: Option<ActionValue>,
    resource: Option<ResourceValue>,
    context: Properties)

  const EXECUTE_ALL := "execute_all"
  const DENY_ON_FIRST_DENY := "deny_on_first_deny"
  const PERMIT_ON_FIRST_PERMIT := "permit_on_first_permit"

  datatype OptionsValue = OptionsValue(semantic: string, additional: Properties)

  /** defaults are the top-level subject, action, resource and context. */
  datatype BatchValue = BatchValue(
    defaults: EvaluationValue,
    evaluations: seq<EvaluationValue>,
    options: Option<OptionsValue>)

  datatype Response = Response(decision: bool, context: Properties)

  // ---- defaulting

  function Or<T>(own: Option<T>, default: Option<T>): Option<T> {
    if own.None? then default else own
  }

  /** A member with the defaults in place of what it omits. */
  function Defaulted(e: EvaluationValue, defaults: EvaluationValue): EvaluationValue {
    EvaluationValue(Or(e.subject, defaults.subject), Or(e.action, defaults.action),
                    Or(e.resource, defaults.resource), Or(e.context, defaults.context))
  }

  function DefaultedAll(es: seq<EvaluationValue>, defaults: EvaluationValue): (out: seq<EvaluationValue>)
    ensures |out| == |es| && forall i :: 0 <= i < |out| ==> out[i] == Defaulted(es[i], defaults)
  {
    seq(|es|, i requires 0 <= i < |es| => Defaulted(es[i], defaults))
  }

  /** What the batch asks for: its members, or the single request its top-level fields make. */
  function Resolution(b: BatchValue): seq<EvaluationValue> {
    if b.evaluations == [] then [b.defaults] else DefaultedAll(b.evaluations, b.defaults)
  }

  /** The semantic in force; the empty and the absent one mean execute_all. */
  function SemanticOf(options: Option<OptionsValue>): string {
    if options.Some? && options.value.semantic != "" then options.value.semantic else EXECUTE_ALL
  }

  // ---- validation

  datatype Flaw = MissingSubject | MissingAction | MissingResource | MissingType | MissingID | MissingName | InvalidSemantic

  /** A flaw and the field it is in. */
  datatype ValidationError = ValidationError(field: string, flaw: Flaw)

  function ValidateSubject(s: Option<SubjectValue>): Option<ValidationError> {
    if s.None? then Some(ValidationError("subject", MissingSubject))
    else if s.value.kind == "" then Some(ValidationError("subject.type", MissingType))
    else if s.value.id == "" then Some(ValidationError("subject.id", MissingID))
    else None
  }

  function ValidateAction(a: Option<ActionValue>): Option<ValidationError> {
    if a.None? then Some(ValidationError("action", MissingAction))
    else if a.value.name == "" then Some(ValidationError("action.name", MissingName))
    else None
  }

  function ValidateResource(r: Option<ResourceValue>): Option<ValidationError> {
    if r.None? then Some(ValidationError("resource", MissingResource))
    else if r.value.kind == "" then Some(ValidationError("resource.type", MissingType))
    else if r.value.id == "" then Some(ValidationError("resource.id", MissingID))
    else None
  }

  function Validate(e: EvaluationValue): Option<ValidationError> {
    Or(Or(ValidateSubject(e.subject), ValidateAction(e.action)), ValidateResource(e.resource))
  }

  /** An error of the request as a whole, or of the member at an index. */
  datatype BatchError = Whole(error: ValidationError) | Member(index: nat, error: ValidationError)

  predicate KnownSemantic(semantic: string) {
    semantic == "" || semantic == EXECUTE_ALL || semantic == DENY_ON_FIRST_DENY || semantic == PERMIT_ON_FIRST_PERMIT
  }

  /** The options name no semantic, or one of the defined ones. */
  predicate ValidOptions(options: Option<OptionsValue>) {
    options.None? || KnownSemantic(options.value.semantic)
  }

  /** The error of the first invalid request, from the i-th on. */
  function FirstError(es: seq<EvaluationValue>, single: bool, i: nat): Option<BatchError>
    decreases |es| - i
  {
    if i >= |es| then None
    else
      var err := Validate(es[i]);
      if err.None? then FirstError(es, single, i + 1)
      else Some(if single then Whole(err.value) else Member(i, err.value))
  }

  function ValidateBatch(b: BatchValue): Option<BatchError> {
    if !ValidOptions(b.options) then Some(Whole(ValidationError("options.evaluations_semantic", InvalidSemantic)))
    else FirstError(Resolution(b), b.evaluations == [], 0)
  }

  lemma {:induction false} FirstErrorIsFirst(es: seq<EvaluationValue>, single: bool, i: nat)
    ensures var err := FirstError(es, single, i);
            && (err.None? <==> forall k :: i <= k < |es| ==> Validate(es[k]).None?)
            && (err.Some? && !single ==>
                  && err.value.Member? && i <= err.value.index < |es|
                  && Validate(es[err.value.index]) == Some(err.value.error)
                  && forall k :: i <= k < err.value.index ==> Validate(es[k]).None?)
    decreases |es| - i
  {
    if i < |es| && Validate(es[i]).None? {
      FirstErrorIsFirst(es, single, i + 1);
    }
  }

  // ---- the same in terms of the fields

  /**
   One request for each member, in order; each part is the member's own if it has
   one, and that of the batch otherwise. Without members the batch is the request.
   */
  lemma OwnPartsComeFirst(b: BatchValue)
    ensures b.evaluations == [] ==> Resolution(b) == [b.defaults]
    ensures b.evaluations != [] ==> |Resolution(b)| == |b.evaluations|
    ensures forall i :: 0 <= i < |b.evaluations| ==>
              var own, batch, r := b.evaluations[i], b.defaults, Resolution(b)[i];
              && r.subject == (if own.subject.Some? then own.subject else batch.subject)
              && r.action == (if own.action.Some? then own.action else batch.action)
              && r.resource == (if own.resource.Some? then own.resource else batch.resource)
              && r.context == (if own.context.Some? then own.context else batch.context)
  {
  }

  /** Without options, and with an empty semantic, everything is executed; any other text is in force as it is. */
  lemma SemanticInForce(options: Option<OptionsValue>)
    ensures options.None? || options.value.semantic == "" ==> SemanticOf(options) == "execute_all"
    ensures options.Some? && options.value.semantic != "" ==> SemanticOf(options) == options.value.semantic
  {
  }

  predicate DefinedSemantic(options: Option<OptionsValue>) {
    || options.None?
    || options.value.semantic == "" || options.value.semantic == "execute_all"
    || options.value.semantic == "deny_on_first_deny" || options.value.semantic == "permit_on_first_permit"
  }

  predicate CompleteSubject(e: EvaluationValue) {
    e.subject.Some? && e.subject.value.kind != "" && e.subject.value.id != ""
  }

  predicate CompleteAction(e: EvaluationValue) {
    e.action.Some? && e.action.value.name != ""
  }

  predicate CompleteResource(e: EvaluationValue) {
    e.resource.Some? && e.resource.value.kind != "" && e.resource.value.id != ""
  }

  predicate Complete(e: EvaluationValue) {
    CompleteSubject(e) && CompleteAction(e) && CompleteResource(e)
  }

  /** err is about the first part that e lacks, in the order subject, action, resource. */
  predicate FirstLack(e: EvaluationValue, err: ValidationError) {
    if !CompleteSubject(e) then
      err == if e.subject.None? then ValidationError("subject", MissingSubject)
             else if e.subject.value.kind == "" then ValidationError("subject.type", MissingType)
             else ValidationError("subject.id", MissingID)
    else if !CompleteAction(e) then
      err == if e.action.None? then ValidationError("action", MissingAction) else ValidationError("action.name", MissingName)
    else
      && !CompleteResource(e)
      && err == if e.resource.None? then ValidationError("resource", MissingResource)
                else if e.resource.value.kind == "" then ValidationError("resource.type", MissingType)
                else ValidationError("resource.id", MissingID)
  }

  /** A request is accepted exactly when it is complete, and otherwise rejected for the first part it lacks. */
  lemma RejectedForFirstLack(e: EvaluationValue)
    ensures Validate(e).None? <==> Complete(e)
    ensures Validate(e).Some? ==> FirstLack(e, Validate(e).value)
  {
  }

  /** A batch is accepted exactly when its semantic is a defined one and every request it asks for is complete. */
  lemma AcceptedExactlyWhenValid(b: BatchValue)
    ensures ValidateBatch(b).None? <==> DefinedSemantic(b.options) && forall e :: e in Resolution(b) ==> Complete(e)
  {
    FirstErrorIsFirst(Resolution(b), b.evaluations == [], 0);
    forall e
      ensures Validate(e).None? <==> Complete(e)
    {
      RejectedForFirstLack(e);
    }
  }

  /**
   A rejection is of the semantic, if that is not a defined one; otherwise of the
   first incomplete request, for the first part it lacks, with its index if the
   batch has members.
   */
  lemma RejectionNamesFirstLack(b: BatchValue)
    requires ValidateBatch(b).Some?
    ensures match ValidateBatch(b).value
            case Whole(err) =>
              if !DefinedSemantic(b.options) then err == ValidationError("options.evaluations_semantic", InvalidSemantic)
              else b.evaluations == [] && FirstLack(b.defaults, err)
            case Member(i, err) =>
              && DefinedSemantic(b.options) && i < |b.evaluations|
              && FirstLack(Resolution(b)[i], err)
              && forall k :: 0 <= k < i ==> Complete(Resolution(b)[k])
  {
    FirstErrorIsFirst(Resolution(b), b.evaluations == [], 0);
    forall e
      ensures Validate(e).None? <==> Complete(e)
      ensures Validate(e).Some? ==> FirstLack(e, Validate(e).value)
    {
      RejectedForFirstLack(e);
    }
  }

}
