/**
 What a batch evaluation must return (section 7.1.2.1 of the OpenID AuthZEN
 Authorization API 1.0), given what the PDP answers to each member.
 */
module BatchSemantics {
  import opened Wrappers
  import opened Values
  import opened Evaluations

  const STATUS_INTERNAL_SERVER_ERROR := 500
  const GENERIC_MESSAGE := "internal error evaluating this request"

  /** An answer of the PDP; done is the error of the request's context, if that has one when the PDP fails. */
  datatype Answer = Answered(response: Response) | Failed(message: string, done: Option<string>)
  {
    predicate Permits() {
      Answered? && response.decision
    }

    predicate Aborts() {
      Failed? && done.Some?
    }
  }

  /** correlationID(i) is the id under which the failure of member i is logged. */
  datatype Settings = Settings(verbose: bool, correlationID: nat -> string)

  /** memberError, in the context of a deny. */
  function MemberError(message: string, i: nat, s: Settings): Response {
    var shown := if s.verbose then message else GENERIC_MESSAGE;
    Response(false, Some(map["error" := EvaluationError(
                                STATUS_INTERNAL_SERVER_ERROR, shown + " (correlation id: " + s.correlationID(i) + ")")]))
  }

  function MemberResponse(a: Answer, i: nat, s: Settings): Response {
    match a
    case Answered(response) => response
    case Failed(message, _) => MemberError(message, i, s)
  }

  /** The decision that ends a batch early. */
  predicate Stops(semantic: string, decision: bool) {
    || (semantic == DENY_ON_FIRST_DENY && !decision)
    || (semantic == PERMIT_ON_FIRST_PERMIT && decision)
  }

  /** Nothing is asked after this answer. */
  predicate Final(semantic: string, a: Answer) {
    a.Aborts() || Stops(semantic, a.Permits())
  }

  /** How many members the PDP is asked about, counting from the k-th. */
  function AskedFrom(semantic: string, answers: seq<Answer>, k: nat): (n: nat)
    requires k <= |answers|
    ensures k <= n <= |answers|
    decreases |answers| - k
  {
    if k == |answers| then k
    else if Final(semantic, answers[k]) then k + 1
    else AskedFrom(semantic, answers, k + 1)
  }

  function Asked(semantic: string, answers: seq<Answer>): (n: nat)
    ensures n <= |answers|
  {
    AskedFrom(semantic, answers, 0)
  }

  /** The first n responses. */
  function Responses(answers: seq<Answer>, n: nat, s: Settings): (out: seq<Response>)
    requires n <= |answers|
    ensures |out| == n && forall i :: 0 <= i < n ==> out[i] == MemberResponse(answers[i], i, s)
  {
    seq(n, i requires 0 <= i < n => MemberResponse(answers[i], i, s))
  }

  /** The error of the request's context, or the responses in order. */
  function Outcome(semantic: string, answers: seq<Answer>, s: Settings): Result<seq<Response>, string> {
    var n := Asked(semantic, answers);
    if n > 0 && answers[n - 1].Aborts() then Err(answers[n - 1].done.value)
    else Ok(Responses(answers, n, s))
  }

  // ---- turn by turn

  /** No answer before the i-th ends the batch. */
  predicate Going(semantic: string, answers: seq<Answer>, i: nat) {
    && i <= |answers|
    && Asked(semantic, answers) == AskedFrom(semantic, answers, i)
    && (i > 0 ==> !answers[i - 1].Aborts())
  }

  /** What the i-th answer makes of the batch. */
  lemma TurnDecides(semantic: string, answers: seq<Answer>, i: nat, s: Settings)
    requires Going(semantic, answers, i) && i < |answers|
    ensures Responses(answers, i + 1, s) == Responses(answers, i, s) + [MemberResponse(answers[i], i, s)]
    ensures MemberResponse(answers[i], i, s).decision == answers[i].Permits()
    ensures if Final(semantic, answers[i]) then Asked(semantic, answers) == i + 1 else Going(semantic, answers, i + 1)
    ensures Final(semantic, answers[i]) ==>
              Outcome(semantic, answers, s) == if answers[i].Aborts() then Err(answers[i].done.value)
                                               else Ok(Responses(answers, i + 1, s))
  {
  }

  lemma NoneLeftDecides(semantic: string, answers: seq<Answer>, s: Settings)
    requires Going(semantic, answers, |answers|)
    ensures Asked(semantic, answers) == |answers|
    ensures Outcome(semantic, answers, s) == Ok(Responses(answers, |answers|, s))
  {
  }

  // ---- what that means

  lemma {:induction false} AskedFromIsShortest(semantic: string, answers: seq<Answer>, k: nat)
    requires k <= |answers|
    ensures var n := AskedFrom(semantic, answers, k);
            && (forall i :: k <= i < n - 1 ==> !Final(semantic, answers[i]))
            && (n == |answers| || (n > k && Final(semantic, answers[n - 1])))
            && (k < |answers| ==> n > k)
    decreases |answers| - k
  {
    if k < |answers| && !Final(semantic, answers[k]) {
      AskedFromIsShortest(semantic, answers, k + 1);
    }
  }

  /** The members asked are the shortest prefix that ends with a deciding one, or all. */
  lemma AskedIsShortestPrefix(semantic: string, answers: seq<Answer>)
    ensures var n := Asked(semantic, answers);
            && (forall i :: 0 <= i < n - 1 ==> !Final(semantic, answers[i]))
            && (n < |answers| ==> n > 0 && Final(semantic, answers[n - 1]))
            && (answers != [] ==> n > 0)
  {
    AskedFromIsShortest(semantic, answers, 0);
  }

  /** The call fails exactly when a member that is reached fails with the context done. */
  lemma FailsExactlyWhenDone(semantic: string, answers: seq<Answer>, s: Settings)
    ensures Outcome(semantic, answers, s).Err?
       <==> exists k :: 0 <= k < |answers| && answers[k].Aborts() && forall i :: 0 <= i < k ==> !Final(semantic, answers[i])
  {
    AskedIsShortestPrefix(semantic, answers);
    var n := Asked(semantic, answers);
    if Outcome(semantic, answers, s).Err? {
      assert answers[n - 1].Aborts();
    }
    forall k | 0 <= k < |answers| && answers[k].Aborts() && forall i :: 0 <= i < k ==> !Final(semantic, answers[i])
      ensures k == n - 1
    {
      assert Final(semantic, answers[k]);
    }
  }

  /** A member ends the batch if it fails with the context done, on the first deny, or on the first permit. */
  lemma EndsExactlyWhen(semantic: string, a: Answer)
    ensures Final(semantic, a) <==>
              || (a.Failed? && a.done.Some?)
              || (semantic == "deny_on_first_deny" && (a.Failed? || !a.response.decision))
              || (semantic == "permit_on_first_permit" && a.Answered? && a.response.decision)
  {
  }

  /** The error of the call is that of the context, as the first member to end the batch found it. */
  lemma FailsWithContextError(semantic: string, answers: seq<Answer>, s: Settings, k: nat)
    requires k < |answers| && answers[k].Failed? && answers[k].done.Some?
    requires forall i :: 0 <= i < k ==> !Final(semantic, answers[i])
    ensures Outcome(semantic, answers, s) == Err(answers[k].done.value)
  {
    AskedIsShortestPrefix(semantic, answers);
    var n := Asked(semantic, answers);
    assert Final(semantic, answers[k]);
  }

  /** What the caller is told about a failure: status 500, the message or a generic one, and the id it is logged under. */
  lemma FailureIsShown(semantic: string, answers: seq<Answer>, s: Settings, i: nat)
    requires Outcome(semantic, answers, s).Ok? && i < |Outcome(semantic, answers, s).value| && answers[i].Failed?
    ensures var shown := if s.verbose then answers[i].message else "internal error evaluating this request";
            Outcome(semantic, answers, s).value[i]
              == Response(false, Some(map["error" := EvaluationError(500, shown + " (correlation id: " + s.correlationID(i) + ")")]))
  {
  }

  /** Under deny_on_first_deny the last decision is the conjunction over all members, a failure being a deny. */
  lemma LastIsConjunction(answers: seq<Answer>, s: Settings)
    requires answers != [] && Outcome(DENY_ON_FIRST_DENY, answers, s).Ok?
    ensures var out := Outcome(DENY_ON_FIRST_DENY, answers, s).value;
            && out != []
            && (out[|out| - 1].decision <==> forall a :: a in answers ==> a.Permits())
            && forall i :: 0 <= i < |out| - 1 ==> out[i].decision
  {
    var n := Asked(DENY_ON_FIRST_DENY, answers);
    AskedIsShortestPrefix(DENY_ON_FIRST_DENY, answers);
    assert forall i :: 0 <= i < n - 1 ==> answers[i].Permits();
    if answers[n - 1].Permits() {
      assert n == |answers|;
    } else {
      assert answers[n - 1] in answers;
    }
  }

  /** Under permit_on_first_permit it is the disjunction. */
  lemma LastIsDisjunction(answers: seq<Answer>, s: Settings)
    requires answers != [] && Outcome(PERMIT_ON_FIRST_PERMIT, answers, s).Ok?
    ensures var out := Outcome(PERMIT_ON_FIRST_PERMIT, answers, s).value;
            && out != []
            && (out[|out| - 1].decision <==> exists a :: a in answers && a.Permits())
            && forall i :: 0 <= i < |out| - 1 ==> !out[i].decision
  {
    var n := Asked(PERMIT_ON_FIRST_PERMIT, answers);
    AskedIsShortestPrefix(PERMIT_ON_FIRST_PERMIT, answers);
    assert forall i :: 0 <= i < n - 1 ==> !answers[i].Permits();
    if answers[n - 1].Permits() {
      assert answers[n - 1] in answers;
    } else {
      assert n == |answers|;
    }
  }

  /** Any other semantic, known or not, answers every member, unless the context is done. */
  lemma OthersExecuteAll(semantic: string, answers: seq<Answer>, s: Settings)
    requires semantic != DENY_ON_FIRST_DENY && semantic != PERMIT_ON_FIRST_PERMIT
    ensures match Outcome(semantic, answers, s)
            case Err(_) => exists a :: a in answers && a.Aborts()
            case Ok(out) => |out| == |answers| && forall i :: 0 <= i < |out| ==> (out[i].decision <==> answers[i].Permits())
  {
    AskedIsShortestPrefix(semantic, answers);
    var n := Asked(semantic, answers);
    if n > 0 {
      assert answers[n - 1] in answers;
    }
  }

  /** A permit is always the PDP's own; a failure is a deny that carries an error and nothing else. */
  lemma FailuresAreClosed(semantic: string, answers: seq<Answer>, s: Settings, i: nat)
    requires Outcome(semantic, answers, s).Ok? && i < |Outcome(semantic, answers, s).value|
    ensures var r := Outcome(semantic, answers, s).value[i];
            && (r.decision <==> answers[i].Permits())
            && (answers[i].Answered? ==> r == answers[i].response)
            && (answers[i].Failed? ==> !r.decision && r.context.Some? && r.context.value.Keys == {"error"})
  {
  }

  /** Answers that differ only in the messages of failures. */
  predicate SameButMessages(a: Answer, b: Answer) {
    a == b || (a.Failed? && b.Failed? && a.done == b.done)
  }

  /** Unless verbose, no failure message reaches the caller in any way. */
  lemma MessagesAreRedacted(semantic: string, xs: seq<Answer>, ys: seq<Answer>, s: Settings)
    requires !s.verbose && |xs| == |ys| && forall i :: 0 <= i < |xs| ==> SameButMessages(xs[i], ys[i])
    ensures Outcome(semantic, xs, s) == Outcome(semantic, ys, s)
  {
    SameAsked(semantic, xs, ys, 0);
    var n := Asked(semantic, xs);
    assert forall i :: 0 <= i < n ==> MemberResponse(xs[i], i, s) == MemberResponse(ys[i], i, s);
    assert Responses(xs, n, s) == Responses(ys, n, s);
  }

  lemma {:induction false} SameAsked(semantic: string, xs: seq<Answer>, ys: seq<Answer>, k: nat)
    requires |xs| == |ys| && k <= |xs| && forall i :: 0 <= i < |xs| ==> SameButMessages(xs[i], ys[i])
    ensures AskedFrom(semantic, xs, k) == AskedFrom(semantic, ys, k)
    decreases |xs| - k
  {
    if k < |xs| {
      SameAsked(semantic, xs, ys, k + 1);
    }
  }
}
