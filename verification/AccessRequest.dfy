/**
 Access request submissions (accessrequest/validate.go, section 10.1 of the
 AuthZEN Access Request and Approval Profile): one target or a bundle of items,
 every one of them covered by a denial.
 */
module AccessRequest {
  import opened Wrappers
  import opened Evaluations

  datatype Denial = Denial(evaluationID: string, expiresAt: string, bindingToken: string)

  datatype Item = Item(resource: Option<ResourceValue>, action: Option<ActionValue>, denial: Option<Denial>)

  /** callback is its endpoint, actor the id of the client's actor, if there is one. */
  datatype Submission = Submission(
    subject: Option<SubjectValue>,
    resource: Option<ResourceValue>,
    action: Option<ActionValue>,
    items: seq<Item>,
    denial: Option<Denial>,
    callback: Option<string>,
    actor: Option<string>)

  datatype ProfileFlaw =
    | MissingExpiresAt
    | MissingDenial
    | MissingDenialBinding
    | ConflictingTargets
    | MissingTarget
    | MissingEndpoint
    | MissingIdentifier

  /** An error of the core package, or of the profile, with the field it is in. */
  datatype Error = Core(error: ValidationError) | Profile(field: string, flaw: ProfileFlaw)

  function FromCore(err: Option<ValidationError>): Option<Error> {
    if err.None? then None else Some(Core(err.value))
  }

  /** The first error of the two. */
  function Then(first: Option<Error>, second: Option<Error>): Option<Error> {
    Or(first, second)
  }

  function ValidateDenial(d: Option<Denial>, field: string): Option<Error> {
    if d.None? then Some(Profile(field, MissingDenial))
    else if d.value.expiresAt == "" then Some(Profile(field + ".expires_at", MissingExpiresAt))
    else if d.value.evaluationID == "" && d.value.bindingToken == "" then Some(Profile(field, MissingDenialBinding))
    else None
  }

  function ValidateItem(it: Item): Option<Error> {
    Then(FromCore(Or(Evaluations.ValidateResource(it.resource), Evaluations.ValidateAction(it.action))),
         if it.denial.Some? then ValidateDenial(it.denial, "items.denial") else None)
  }

  /** What the loop over the items finds wrong with one of them. */
  function ItemError(it: Item, denial: Option<Denial>): Option<Error> {
    Then(ValidateItem(it), if it.denial.None? then ValidateDenial(denial, "denial") else None)
  }

  function ItemsError(items: seq<Item>, denial: Option<Denial>, i: nat): Option<Error>
    decreases |items| - i
  {
    if i >= |items| then None else Then(ItemError(items[i], denial), ItemsError(items, denial, i + 1))
  }

  /** validateItems: the items in order, up to the first that is malformed or covered by no denial. */
  method ValidateItems(s: Submission) returns (err: Option<Error>)
    ensures err == ItemsError(s.items, s.denial, 0)
  {
    var topLevelValid := s.denial.Some? && ValidateDenial(s.denial, "denial").None?;
    for i := 0 to |s.items|
      invariant ItemsError(s.items, s.denial, 0) == ItemsError(s.items, s.denial, i)
    {
      var it := s.items[i];
      err := ValidateItem(it);
      if err.Some? {
        return;
      }
      if it.denial.None? && !topLevelValid {
        if s.denial.Some? {
          err := ValidateDenial(s.denial, "denial");
          if err.Some? {
            return;
          }
        }
        return Some(Profile("denial", MissingDenial));
      }
    }
    err := None;
  }

  function ValidateTarget(s: Submission): Option<Error> {
    var hasSingle := s.resource.Some? || s.action.Some?;
    var hasItems := |s.items| > 0;
    if hasSingle && hasItems then Some(Profile("items", ConflictingTargets))
    else if !hasSingle && !hasItems then Some(Profile("items", MissingTarget))
    else if hasSingle then
      Then(FromCore(Or(Evaluations.ValidateResource(s.resource), Evaluations.ValidateAction(s.action))),
           ValidateDenial(s.denial, "denial"))
    else ItemsError(s.items, s.denial, 0)
  }

  function ValidateCallback(c: Option<string>): Option<Error> {
    if c == Some("") then Some(Profile("callback.endpoint", MissingEndpoint)) else None
  }

  function ValidateActor(a: Option<string>): Option<Error> {
    if a == Some("") then Some(Profile("client.actor.id", MissingIdentifier)) else None
  }

  /** Submission.Validate; a nil submission lacks its subject. */
  function Validate(s: Option<Submission>): Option<Error> {
    if s.None? then Some(Core(ValidationError("subject", MissingSubject)))
    else
      Then(FromCore(Evaluations.ValidateSubject(s.value.subject)),
           Then(ValidateTarget(s.value), Then(ValidateCallback(s.value.callback), ValidateActor(s.value.actor))))
  }

  // ---- what is accepted

  /** A denial that binds: it has an expiry, and an evaluation id or a token. */
  predicate Binds(d: Option<Denial>) {
    d.Some? && d.value.expiresAt != "" && (d.value.evaluationID != "" || d.value.bindingToken != "")
  }

  predicate NamesTarget(resource: Option<ResourceValue>, action: Option<ActionValue>) {
    && resource.Some? && resource.value.kind != "" && resource.value.id != ""
    && action.Some? && action.value.name != ""
  }

  /** An item names a target, and its own denial covers it, or that of the submission when it has none. */
  predicate Covered(it: Item, denial: Option<Denial>) {
    NamesTarget(it.resource, it.action) && Binds(Or(it.denial, denial))
  }

  predicate WellFormed(s: Submission) {
    && s.subject.Some? && s.subject.value.kind != "" && s.subject.value.id != ""
    && (if s.items == [] then NamesTarget(s.resource, s.action) && Binds(s.denial)
        else s.resource.None? && s.action.None? && forall it :: it in s.items ==> Covered(it, s.denial))
    && s.callback != Some("") && s.actor != Some("")
  }

  lemma ItemAcceptedExactlyWhenCovered(it: Item, denial: Option<Denial>)
    ensures ItemError(it, denial).None? <==> Covered(it, denial)
  {
  }

  lemma {:induction false} FirstItemError(items: seq<Item>, denial: Option<Denial>, i: nat)
    ensures var err := ItemsError(items, denial, i);
            && (err.None? <==> forall k :: i <= k < |items| ==> Covered(items[k], denial))
            && (err.Some? ==> exists k :: i <= k < |items| && !Covered(items[k], denial) && err == ItemError(items[k], denial)
                                         && forall j :: i <= j < k ==> Covered(items[j], denial))
    decreases |items| - i
  {
    if i < |items| {
      ItemAcceptedExactlyWhenCovered(items[i], denial);
      FirstItemError(items, denial, i + 1);
    }
  }

  /** A submission is accepted exactly when it is well formed. */
  lemma AcceptedExactlyWhenWellFormed(s: Submission)
    ensures Validate(Some(s)).None? <==> WellFormed(s)
  {
    FirstItemError(s.items, s.denial, 0);
    assert forall k :: 0 <= k < |s.items| ==> s.items[k] in s.items;
  }

  /** When a bundle of a valid subject is rejected for its items, the error is that of the first offending one. */
  lemma RejectedForFirstOffender(s: Submission)
    requires Evaluations.ValidateSubject(s.subject).None? && s.items != [] && s.resource.None? && s.action.None?
    requires exists it :: it in s.items && !Covered(it, s.denial)
    ensures exists k :: 0 <= k < |s.items| && !Covered(s.items[k], s.denial)
                        && Validate(Some(s)) == ItemError(s.items[k], s.denial)
                        && forall j :: 0 <= j < k ==> Covered(s.items[j], s.denial)
  {
    FirstItemError(s.items, s.denial, 0);
  }

  // ---- what a rejection says

  predicate CompleteSubject(s: Option<SubjectValue>) {
    s.Some? && s.value.kind != "" && s.value.id != ""
  }

  /** The errors that a subject, a target and a denial can have, and the order in which they are looked for. */
  predicate SubjectLacks(s: Option<SubjectValue>, err: Error) {
    && !CompleteSubject(s)
    && err == Core(if s.None? then ValidationError("subject", MissingSubject)
                   else if s.value.kind == "" then ValidationError("subject.type", MissingType)
                   else ValidationError("subject.id", MissingID))
  }

  predicate TargetLacks(r: Option<ResourceValue>, a: Option<ActionValue>, err: Error) {
    && !NamesTarget(r, a)
    && err == Core(if r.None? then ValidationError("resource", MissingResource)
                   else if r.value.kind == "" then ValidationError("resource.type", MissingType)
                   else if r.value.id == "" then ValidationError("resource.id", MissingID)
                   else if a.None? then ValidationError("action", MissingAction)
                   else ValidationError("action.name", MissingName))
  }

  predicate DenialLacks(d: Option<Denial>, field: string, err: Error) {
    && !Binds(d)
    && err == if d.None? then Profile(field, MissingDenial)
              else if d.value.expiresAt == "" then Profile(field + ".expires_at", MissingExpiresAt)
              else Profile(field, MissingDenialBinding)
  }

  /** An item is looked at for its target first; then comes its own denial, or that of the submission. */
  predicate ItemLacks(it: Item, denial: Option<Denial>, err: Error) {
    if !NamesTarget(it.resource, it.action) then TargetLacks(it.resource, it.action, err)
    else if it.denial.Some? then DenialLacks(it.denial, "items.denial", err)
    else DenialLacks(denial, "denial", err)
  }

  /** The error of the first item that lacks something. */
  predicate ItemsLack(s: Submission, err: Error) {
    exists k :: 0 <= k < |s.items| && ItemLacks(s.items[k], s.denial, err) && forall j :: 0 <= j < k ==> Covered(s.items[j], s.denial)
  }

  /** The error that is due: the subject comes first, then the target or the items, the callback and the actor. */
  predicate IsDue(s: Submission, err: Error) {
    if !CompleteSubject(s.subject) then SubjectLacks(s.subject, err)
    else if s.resource.Some? || s.action.Some? then
      if s.items != [] then err == Profile("items", ConflictingTargets)
      else if !NamesTarget(s.resource, s.action) then TargetLacks(s.resource, s.action, err)
      else if !Binds(s.denial) then DenialLacks(s.denial, "denial", err)
      else LastErrorIsDue(s, err)
    else if s.items == [] then err == Profile("items", MissingTarget)
    else if exists it :: it in s.items && !Covered(it, s.denial) then ItemsLack(s, err)
    else LastErrorIsDue(s, err)
  }

  predicate LastErrorIsDue(s: Submission, err: Error) {
    if s.callback == Some("") then err == Profile("callback.endpoint", MissingEndpoint)
    else s.actor == Some("") && err == Profile("client.actor.id", MissingIdentifier)
  }

  /** A submission that is rejected is rejected with the error that is due; none at all lacks its subject. */
  lemma RejectionIsDue(s: Submission)
    ensures Validate(Some(s)).Some? ==> IsDue(s, Validate(Some(s)).value)
    ensures Validate(None) == Some(Core(ValidationError("subject", MissingSubject)))
  {
    FirstItemError(s.items, s.denial, 0);
    forall it
      ensures ItemError(it, s.denial).Some? ==> ItemLacks(it, s.denial, ItemError(it, s.denial).value)
    {
      ItemErrorIsLack(it, s.denial);
    }
    assert forall k :: 0 <= k < |s.items| ==> s.items[k] in s.items;
  }

  lemma ItemErrorIsLack(it: Item, denial: Option<Denial>)
    ensures ItemError(it, denial).Some? ==> ItemLacks(it, denial, ItemError(it, denial).value)
  {
  }

  /** A top-level denial that no item needs is never looked at, valid or not. */
  lemma UnneededDenialIsIgnored(s: Submission, denial: Option<Denial>)
    requires s.items != [] && forall it :: it in s.items ==> it.denial.Some?
    ensures Validate(Some(s)) == Validate(Some(s.(denial := denial)))
  {
    ItemsWithOwnDenials(s.items, s.denial, denial, 0);
  }

  lemma {:induction false} ItemsWithOwnDenials(items: seq<Item>, d: Option<Denial>, e: Option<Denial>, i: nat)
    requires forall it :: it in items ==> it.denial.Some?
    ensures ItemsError(items, d, i) == ItemsError(items, e, i)
    decreases |items| - i
  {
    if i < |items| {
      ItemsWithOwnDenials(items, d, e, i + 1);
    }
  }
}
