/**
 The enforcement middleware of mcp/middleware.go. The extractor, the request
 assembly, the PDP, the wrapped handler and the responder are the environment:
 each may return, fail or panic as it likes.
 */
module Enforcement {
  import opened Wrappers
  import opened ChallengeText
  import opened Challenges
  import opened DenyContexts

  const STATUS_UNAUTHORIZED := 401
  const STATUS_FORBIDDEN := 403
  const ERROR_INVALID_TOKEN := "invalid_token"
  const ERROR_INSUFFICIENT_SCOPE := "insufficient_scope"

  /** An error value; Wrapped is what fmt.Errorf with %w builds, Joined what errors.Join or several %w build. */
  datatype Error =
    | NoToken
    | MissingSubject
    | Failure(detail: string)
    | Wrapped(detail: string, cause: Error)
    | Joined(causes: seq<Error>)

  /** errors.Is. */
  predicate Is(err: Error, target: Error) {
    || err == target
    || match err
       case Wrapped(_, cause) => Is(cause, target)
       case Joined(causes) => exists i | 0 <= i < |causes| :: Is(causes[i], target)
       case _ => false
  }

  datatype Outcome<+T> = Returned(value: T) | Failed(error: Error) | Panicked(detail: string)

  datatype Evaluation = Evaluation(decision: bool, context: Context)

  const NO_EVALUATION := Evaluation(false, map[])

  datatype DenyInfo = DenyInfo(challenge: Challenge, response: Evaluation, err: Option<Error>)

  /** The defaults an Enforcer advertises. */
  datatype Enforcer = Enforcer(scope: string, resourceMetadata: string, realm: string)

  /**
   How the surroundings of one request behave. panics(k) tells whether the
   responder panics on its k-th call.
   */
  datatype Environment<!Request, !Eval> = Environment(
    extract: Outcome<Request>,
    assemble: Request -> Result<Eval, Error>,
    evaluate: Eval -> Outcome<Evaluation>,
    next: Outcome<()>,
    panics: nat -> bool)

  datatype Event = Served | Responded(info: DenyInfo)

  // ---- challenges

  function InsufficientScope(scope: string, resourceMetadata: string): Challenge {
    Challenge(DEFAULT_SCHEME, ERROR_INSUFFICIENT_SCOPE, "", scope, resourceMetadata, "", STATUS_FORBIDDEN)
  }

  function Unauthorized(resourceMetadata: string): Challenge {
    Challenge(DEFAULT_SCHEME, "", "", "", resourceMetadata, "", STATUS_UNAUTHORIZED)
  }

  function InsufficientFor(e: Enforcer): Challenge {
    InsufficientScope(e.scope, e.resourceMetadata).(realm := e.realm)
  }

  function UnauthorizedFor(e: Enforcer): Challenge {
    Unauthorized(e.resourceMetadata).(scope := e.scope, realm := e.realm)
  }

  function ChallengeForError(e: Enforcer, err: Error): Challenge {
    if Is(err, NoToken) || Is(err, MissingSubject) then UnauthorizedFor(e) else InsufficientFor(e)
  }

  /** The PDP's challenge with its gaps filled by the enforcer's defaults. */
  function Filled(e: Enforcer, c: Challenge): Challenge {
    c.(status := if c.status == 0 then STATUS_FORBIDDEN else c.status,
       resourceMetadata := if c.resourceMetadata == "" then e.resourceMetadata else c.resourceMetadata,
       scope := if c.scope == "" then e.scope else c.scope,
       realm := if c.realm == "" then e.realm else c.realm)
  }

  function ForResponse(e: Enforcer, resp: Evaluation): Challenge {
    var c := Read(resp.context);
    if c.Some? then Filled(e, c.value) else InsufficientFor(e)
  }

  /** challengeFromResponse. */
  method ChallengeFromResponse(e: Enforcer, resp: Evaluation) returns (r: Challenge)
    ensures r == ForResponse(e, resp)
  {
    var c, ok := ChallengeFromDenyContext(resp.context);
    if ok {
      r := c;
      if r.status == 0 {
        r := r.(status := STATUS_FORBIDDEN);
      }
      if r.resourceMetadata == "" {
        r := r.(resourceMetadata := e.resourceMetadata);
      }
      if r.scope == "" {
        r := r.(scope := e.scope);
      }
      if r.realm == "" {
        r := r.(realm := e.realm);
      }
    } else {
      r := InsufficientFor(e);
    }
  }

  function ClampDenyStatus(status: int): int {
    if status < 400 || status > 599 then STATUS_FORBIDDEN else status
  }

  function Clamped(info: DenyInfo): DenyInfo {
    info.(challenge := info.challenge.(status := ClampDenyStatus(info.challenge.status)))
  }

  function Recovered(e: Enforcer, detail: string): DenyInfo {
    DenyInfo(InsufficientFor(e), NO_EVALUATION, Some(Failure("mcp: recovered panic in enforcement: " + detail)))
  }

  // ---- the handler

  /** Where a request ends: at the wrapped handler, at a deny, or at a panic on the way. */
  datatype Verdict = Permit | Deny(info: DenyInfo) | Crash(detail: string)

  function VerdictOf<Request, Eval>(e: Enforcer, env: Environment<Request, Eval>): Verdict {
    match env.extract
    case Panicked(d) => Crash(d)
    case Failed(err) => Deny(DenyInfo(ChallengeForError(e, err), NO_EVALUATION, Some(err)))
    case Returned(mreq) =>
      match env.assemble(mreq)
      case Err(err) => Deny(DenyInfo(ChallengeForError(e, err), NO_EVALUATION, Some(err)))
      case Ok(eval) =>
        match env.evaluate(eval)
        case Panicked(d) => Crash(d)
        case Failed(err) => Deny(DenyInfo(InsufficientFor(e), NO_EVALUATION, Some(err)))
        case Returned(resp) =>
          if resp.decision then Permit else Deny(DenyInfo(ForResponse(e, resp), resp, None))
  }

  /** The events and the panic that the verdict leads to. */
  predicate Follows<Request, Eval>(e: Enforcer, env: Environment<Request, Eval>, trace: seq<Event>, escaped: bool) {
    match VerdictOf(e, env)
    case Crash(d) => trace == [Responded(Recovered(e, d))] && escaped == env.panics(0)
    case Deny(info) =>
      && trace == [Responded(Clamped(info))] + (if env.panics(0) then [Responded(Recovered(e, "responder"))] else [])
      && escaped == (env.panics(0) && env.panics(1))
    case Permit =>
      && trace == [Served] + (if env.next.Panicked? then [Responded(Recovered(e, env.next.detail))] else [])
      && escaped == (env.next.Panicked? && env.panics(0))
  }

  /** Extraction, assembly and evaluation all succeed, with a permit. */
  predicate Permitted<Request, Eval>(env: Environment<Request, Eval>) {
    && env.extract.Returned?
    && var assembled := env.assemble(env.extract.value);
    && assembled.Ok?
    && var answer := env.evaluate(assembled.value);
    && answer.Returned?
    && answer.value.decision
  }

  /** Extraction and assembly succeed, and the PDP answers resp. */
  predicate Answers<Request, Eval>(env: Environment<Request, Eval>, resp: Evaluation) {
    && env.extract.Returned?
    && var assembled := env.assemble(env.extract.value);
    && assembled.Ok?
    && env.evaluate(assembled.value) == Returned(resp)
  }

  /** Extraction or assembly fails with err. */
  predicate FailsEarly<Request, Eval>(env: Environment<Request, Eval>, err: Error) {
    match env.extract
    case Panicked(_) => false
    case Failed(cause) => err == cause
    case Returned(mreq) => env.assemble(mreq) == Err(err)
  }

  /** Extraction and assembly succeed, and evaluation fails with err. */
  predicate FailsLate<Request, Eval>(env: Environment<Request, Eval>, err: Error) {
    && env.extract.Returned?
    && var assembled := env.assemble(env.extract.value);
    && assembled.Ok?
    && env.evaluate(assembled.value) == Failed(err)
  }

  /** Extraction or evaluation panics. */
  predicate Panics<Request, Eval>(env: Environment<Request, Eval>, detail: string) {
    match env.extract
    case Panicked(d) => d == detail
    case Failed(_) => false
    case Returned(mreq) =>
      var assembled := env.assemble(mreq);
      assembled.Ok? && env.evaluate(assembled.value) == Panicked(detail)
  }

  /** The default response that offers what the enforcer itself advertises. */
  predicate Advertises(out: Response, e: Enforcer, status: int) {
    && out.status == status
    && out.wwwAuthenticate == Rendered(Challenge("Bearer", if status == 401 then "" else "insufficient_scope", "",
                                                 e.scope, e.resourceMetadata, e.realm, 0))
    && out.error == (if status == 401 then "invalid_token" else "insufficient_scope")
    && out.errorDescription == ""
  }

  /** The default response that offers c, and the enforcer's scope, metadata and realm where c has none. */
  predicate Relays(out: Response, e: Enforcer, c: Challenge) {
    && out.status == (if 400 <= c.status <= 599 then c.status else 403)
    && out.wwwAuthenticate == Rendered(Challenge(c.scheme, c.error, c.errorDescription,
                                                 if c.scope == "" then e.scope else c.scope,
                                                 if c.resourceMetadata == "" then e.resourceMetadata else c.resourceMetadata,
                                                 if c.realm == "" then e.realm else c.realm, 0))
    && out.error == (if c.error != "" then c.error else if out.status == 401 then "invalid_token" else "insufficient_scope")
    && out.errorDescription == Stripped(c.errorDescription)
  }

  /** ctx is what a PDP in process, or one over JSON, denies with to ask for c. */
  ghost predicate Carries(ctx: Context, c: Challenge, toDouble: int -> real) {
    || ctx == DenyContext(c)
    || (ctx == OverJson(DenyContext(c), toDouble) && ExactDoubles(toDouble) && ExactRange(c.status))
  }

  /** The first event is the response to info, for the given answer of the PDP and the given cause. */
  predicate FirstResponse(trace: seq<Event>, resp: Evaluation, err: Option<Error>) {
    trace != [] && trace[0].Responded? && trace[0].info.response == resp && trace[0].info.err == err
  }

  /**
   Handler: what happens, in order, and whether a panic leaves the handler. The
   wrapped handler runs exactly for a permitted request, and first; every
   response carries an error status; a request that is not permitted, or whose
   handler panics, gets one; a panic escapes only from the responder itself,
   called to answer a recovered panic.
   */
  method Handle<Request, Eval>(e: Enforcer, env: Environment<Request, Eval>) returns (trace: seq<Event>, escaped: bool)
    ensures Permitted(env) <==> trace != [] && trace[0] == Served
    ensures forall i :: 0 < i < |trace| ==> trace[i] != Served
    ensures forall i :: 0 <= i < |trace| && trace[i].Responded? ==> 400 <= trace[i].info.challenge.status <= 599
    ensures !Permitted(env) || env.next.Panicked? ==> trace != [] && trace[|trace| - 1].Responded?
    ensures Permitted(env) && !env.next.Panicked? ==> trace == [Served] && !escaped
    ensures forall err :: FailsEarly(env, err) ==>
              && FirstResponse(trace, NO_EVALUATION, Some(err))
              && Advertises(DefaultResponse(trace[0].info), e,
                            if NoToken in Causes(err) || MissingSubject in Causes(err) then 401 else 403)
    ensures forall err :: FailsLate(env, err) ==>
              FirstResponse(trace, NO_EVALUATION, Some(err)) && Advertises(DefaultResponse(trace[0].info), e, 403)
    ensures forall resp :: Answers(env, resp) && !resp.decision ==> FirstResponse(trace, resp, None)
    ensures forall resp :: Answers(env, resp) && !resp.decision && Read(resp.context).None? ==>
              Advertises(DefaultResponse(trace[0].info), e, 403)
    ensures forall ctx, c, toDouble :: Carries(ctx, c, toDouble) && Answers(env, Evaluation(false, ctx)) ==>
              Relays(DefaultResponse(trace[0].info), e, c)
    ensures forall d :: Panics(env, d) ==>
              && FirstResponse(trace, NO_EVALUATION, Some(Failure("mcp: recovered panic in enforcement: " + d)))
              && Advertises(DefaultResponse(trace[0].info), e, 403)
              && |trace| == 1 && escaped == env.panics(0)
    ensures |trace| == 2 ==> trace[1].Responded? && Advertises(DefaultResponse(trace[1].info), e, 403)
    ensures Follows(e, env, trace, escaped)
  {
    var calls, panic;
    trace, calls, panic := Attempt(e, env);
    escaped := false;
    if panic.Some? {
      var info := Recovered(e, panic.value);
      trace := trace + [Responded(Clamped(info))];
      escaped := env.panics(calls);
    }
    TraceIsSafe(e, env, trace, escaped);
    ResponsesAreDue(e, env, trace, escaped);
  }

  /** The body under the deferred recovery: its events, its responder calls, and its panic. */
  method Attempt<Request, Eval>(e: Enforcer, env: Environment<Request, Eval>)
    returns (trace: seq<Event>, calls: nat, panic: Option<string>)
    ensures match VerdictOf(e, env)
            case Crash(d) => trace == [] && calls == 0 && panic == Some(d)
            case Deny(info) =>
              && trace == [Responded(Clamped(info))] && calls == 1
              && panic == (if env.panics(0) then Some("responder") else None)
            case Permit =>
              && trace == [Served] && calls == 0
              && panic == (if env.next.Panicked? then Some(env.next.detail) else None)
    ensures Permitted(env) <==> VerdictOf(e, env).Permit?
  {
    trace, calls, panic := [], 0, None;
    match env.extract
    case Panicked(d) =>
      panic := Some(d);
    case Failed(err) =>
      trace, calls, panic := Respond(env.panics, DenyInfo(ChallengeForError(e, err), NO_EVALUATION, Some(err)));
    case Returned(mreq) =>
      match env.assemble(mreq)
      case Err(err) =>
        trace, calls, panic := Respond(env.panics, DenyInfo(ChallengeForError(e, err), NO_EVALUATION, Some(err)));
      case Ok(eval) =>
        match env.evaluate(eval)
        case Panicked(d) =>
          panic := Some(d);
        case Failed(err) =>
          trace, calls, panic := Respond(env.panics, DenyInfo(InsufficientFor(e), NO_EVALUATION, Some(err)));
        case Returned(resp) =>
          if !resp.decision {
            var c := ChallengeFromResponse(e, resp);
            trace, calls, panic := Respond(env.panics, DenyInfo(c, resp, None));
          } else {
            trace := [Served];
            if env.next.Panicked? {
              panic := Some(env.next.detail);
            }
          }
  }

  /** deny, on the first call of the responder. */
  method Respond(panics: nat -> bool, info: DenyInfo) returns (trace: seq<Event>, calls: nat, panic: Option<string>)
    ensures trace == [Responded(Clamped(info))] && calls == 1
    ensures panic == if panics(0) then Some("responder") else None
  {
    trace, calls := [Responded(Clamped(info))], 1;
    panic := if panics(0) then Some("responder") else None;
  }

  // ---- the default responder

  datatype Response = Response(wwwAuthenticate: string, status: int, error: string, errorDescription: string)

  function DefaultResponse(info: DenyInfo): Response {
    var ch := info.challenge;
    var status := ClampDenyStatus(ch.status);
    Response(Rendered(ch), status,
             if ch.error != "" then ch.error
             else if status == STATUS_UNAUTHORIZED then ERROR_INVALID_TOKEN else ERROR_INSUFFICIENT_SCOPE,
             ch.errorDescription)
  }

  /** The first response is the one its cause calls for, and a second one is the answer to a panic. */
  lemma ResponsesAreDue<Request, Eval>(e: Enforcer, env: Environment<Request, Eval>, trace: seq<Event>, escaped: bool)
    requires Follows(e, env, trace, escaped)
    ensures forall err :: FailsEarly(env, err) ==>
              && FirstResponse(trace, NO_EVALUATION, Some(err))
              && Advertises(DefaultResponse(trace[0].info), e,
                            if NoToken in Causes(err) || MissingSubject in Causes(err) then 401 else 403)
    ensures forall err :: FailsLate(env, err) ==>
              FirstResponse(trace, NO_EVALUATION, Some(err)) && Advertises(DefaultResponse(trace[0].info), e, 403)
    ensures forall resp :: Answers(env, resp) && !resp.decision ==> FirstResponse(trace, resp, None)
    ensures forall resp :: Answers(env, resp) && !resp.decision && Read(resp.context).None? ==>
              Advertises(DefaultResponse(trace[0].info), e, 403)
    ensures forall ctx, c, toDouble :: Carries(ctx, c, toDouble) && Answers(env, Evaluation(false, ctx)) ==>
              Relays(DefaultResponse(trace[0].info), e, c)
    ensures forall d :: Panics(env, d) ==>
              && FirstResponse(trace, NO_EVALUATION, Some(Failure("mcp: recovered panic in enforcement: " + d)))
              && Advertises(DefaultResponse(trace[0].info), e, 403)
              && |trace| == 1 && escaped == env.panics(0)
    ensures |trace| == 2 ==> trace[1].Responded? && Advertises(DefaultResponse(trace[1].info), e, 403)
  {
    forall err | FailsEarly(env, err)
      ensures FirstResponse(trace, NO_EVALUATION, Some(err))
      ensures Advertises(DefaultResponse(trace[0].info), e,
                         if NoToken in Causes(err) || MissingSubject in Causes(err) then 401 else 403)
    {
      EarlyFailure(e, env, trace, escaped, err);
    }
    forall err | FailsLate(env, err)
      ensures FirstResponse(trace, NO_EVALUATION, Some(err)) && Advertises(DefaultResponse(trace[0].info), e, 403)
    {
      LateFailure(e, env, trace, escaped, err);
    }
    forall resp | Answers(env, resp) && !resp.decision
      ensures FirstResponse(trace, resp, None)
      ensures Read(resp.context).None? ==> Advertises(DefaultResponse(trace[0].info), e, 403)
    {
      PolicyDeny(e, env, trace, escaped, resp);
    }
    forall ctx, c, toDouble | Carries(ctx, c, toDouble) && Answers(env, Evaluation(false, ctx))
      ensures Relays(DefaultResponse(trace[0].info), e, c)
    {
      PolicyDeny(e, env, trace, escaped, Evaluation(false, ctx));
      PdpChallengeReachesClient(e, c, ctx, toDouble);
    }
    forall d | Panics(env, d)
      ensures FirstResponse(trace, NO_EVALUATION, Some(Failure("mcp: recovered panic in enforcement: " + d)))
      ensures Advertises(DefaultResponse(trace[0].info), e, 403) && |trace| == 1 && escaped == env.panics(0)
    {
      Panicking(e, env, trace, escaped, d);
    }
    if |trace| == 2 {
      DefaultsAreAdvertised(e, trace[1].info);
    }
  }

  lemma EarlyFailure<Request, Eval>(e: Enforcer, env: Environment<Request, Eval>, trace: seq<Event>, escaped: bool, err: Error)
    requires Follows(e, env, trace, escaped) && FailsEarly(env, err)
    ensures FirstResponse(trace, NO_EVALUATION, Some(err))
    ensures Advertises(DefaultResponse(trace[0].info), e,
                       if NoToken in Causes(err) || MissingSubject in Causes(err) then 401 else 403)
  {
    IsFindsCause(err, NoToken);
    IsFindsCause(err, MissingSubject);
    assert VerdictOf(e, env) == Deny(DenyInfo(ChallengeForError(e, err), NO_EVALUATION, Some(err)));
    DefaultsAreAdvertised(e, trace[0].info);
  }

  lemma LateFailure<Request, Eval>(e: Enforcer, env: Environment<Request, Eval>, trace: seq<Event>, escaped: bool, err: Error)
    requires Follows(e, env, trace, escaped) && FailsLate(env, err)
    ensures FirstResponse(trace, NO_EVALUATION, Some(err)) && Advertises(DefaultResponse(trace[0].info), e, 403)
  {
    assert VerdictOf(e, env) == Deny(DenyInfo(InsufficientFor(e), NO_EVALUATION, Some(err)));
    DefaultsAreAdvertised(e, trace[0].info);
  }

  lemma PolicyDeny<Request, Eval>(e: Enforcer, env: Environment<Request, Eval>, trace: seq<Event>, escaped: bool, resp: Evaluation)
    requires Follows(e, env, trace, escaped) && Answers(env, resp) && !resp.decision
    ensures FirstResponse(trace, resp, None)
    ensures trace[0].info == Clamped(DenyInfo(ForResponse(e, resp), resp, None))
    ensures Read(resp.context).None? ==> Advertises(DefaultResponse(trace[0].info), e, 403)
  {
    assert VerdictOf(e, env) == Deny(DenyInfo(ForResponse(e, resp), resp, None));
    DefaultsAreAdvertised(e, trace[0].info);
  }

  lemma Panicking<Request, Eval>(e: Enforcer, env: Environment<Request, Eval>, trace: seq<Event>, escaped: bool, d: string)
    requires Follows(e, env, trace, escaped) && Panics(env, d)
    ensures FirstResponse(trace, NO_EVALUATION, Some(Failure("mcp: recovered panic in enforcement: " + d)))
    ensures Advertises(DefaultResponse(trace[0].info), e, 403) && |trace| == 1 && escaped == env.panics(0)
  {
    assert VerdictOf(e, env) == Crash(d);
    DefaultsAreAdvertised(e, trace[0].info);
  }

  lemma DefaultsAreAdvertised(e: Enforcer, info: DenyInfo)
    ensures info.challenge == UnauthorizedFor(e) ==> Advertises(DefaultResponse(info), e, 401)
    ensures info.challenge == InsufficientFor(e) ==> Advertises(DefaultResponse(info), e, 403)
  {
  }

  /** What Handle promises of every trace, whatever the cause. */
  lemma TraceIsSafe<Request, Eval>(e: Enforcer, env: Environment<Request, Eval>, trace: seq<Event>, escaped: bool)
    requires Follows(e, env, trace, escaped)
    ensures Permitted(env) <==> trace != [] && trace[0] == Served
    ensures forall i :: 0 < i < |trace| ==> trace[i] != Served
    ensures forall i :: 0 <= i < |trace| && trace[i].Responded? ==> 400 <= trace[i].info.challenge.status <= 599
    ensures !Permitted(env) || env.next.Panicked? ==> trace != [] && trace[|trace| - 1].Responded?
    ensures Permitted(env) && !env.next.Panicked? ==> trace == [Served] && !escaped
  {
  }

  /**
   A PDP that denies with DenyContext(c), in process or over JSON, gets c on the
   wire: its rendering with the empty scope, realm and metadata filled in, and
   its own status when that is an error status.
   */
  lemma PdpChallengeReachesClient(e: Enforcer, c: Challenge, ctx: Context, toDouble: int -> real)
    requires Carries(ctx, c, toDouble)
    ensures var info := DenyInfo(ForResponse(e, Evaluation(false, ctx)), Evaluation(false, ctx), None);
            Relays(DefaultResponse(Clamped(info)), e, c)
  {
    RecoveredChallenge(c, ctx, toDouble);
    OnTheWire(e, c);
  }

  /** A challenge as the reader of its deny context gets it. */
  function AsRead(c: Challenge): Challenge {
    c.(scheme := RenderedScheme(c.scheme), errorDescription := Stripped(c.errorDescription))
  }

  lemma RecoveredChallenge(c: Challenge, ctx: Context, toDouble: int -> real)
    requires Carries(ctx, c, toDouble)
    ensures Read(ctx) == Some(AsRead(c))
  {
    DenyContextRoundTrip(c);
    if ctx != DenyContext(c) {
      DenyContextIsPlain(c);
      ReadOverJson(DenyContext(c), toDouble);
    }
  }

  lemma OnTheWire(e: Enforcer, c: Challenge)
    ensures Relays(DefaultResponse(Clamped(DenyInfo(Filled(e, AsRead(c)), NO_EVALUATION, None))), e, c)
  {
    SchemeIsFixed(c.scheme);
    KeptIsIdempotent(c.errorDescription, IsControl);
    SameNormalSameHeader(Clamped(DenyInfo(Filled(e, AsRead(c)), NO_EVALUATION, None)).challenge,
                         Challenge(c.scheme, c.error, c.errorDescription,
                                   if c.scope == "" then e.scope else c.scope,
                                   if c.resourceMetadata == "" then e.resourceMetadata else c.resourceMetadata,
                                   if c.realm == "" then e.realm else c.realm, 0));
  }

  /** What a client parses out of the header of any deny: its challenge, normalized. */
  lemma DenyHeaderParses(info: DenyInfo)
    ensures Parsed(DefaultResponse(Clamped(info)).wwwAuthenticate) == Some(Normalized(info.challenge))
  {
    ParseInvertsRender(Clamped(info).challenge);
  }

  /**
   A request denied before it is evaluated advertises the enforcer's scope, realm
   and metadata, and names an error in its header only when the status is 403.
   */
  lemma UnevaluatedDenyAdvertisesDefaults(e: Enforcer, err: Error)
    ensures var out := DefaultResponse(Clamped(DenyInfo(ChallengeForError(e, err), NO_EVALUATION, Some(err))));
            var error := if out.status == STATUS_UNAUTHORIZED then "" else ERROR_INSUFFICIENT_SCOPE;
            Parsed(out.wwwAuthenticate) == Some(Challenge(DEFAULT_SCHEME, error, "", Stripped(e.scope),
                                                          Stripped(e.resourceMetadata), Stripped(e.realm), 0))
  {
    var c := ChallengeForError(e, err);
    DenyHeaderParses(DenyInfo(c, NO_EVALUATION, Some(err)));
    ConstantsAreClean();
    CleanIsNormal(c);
  }

  lemma ConstantsAreClean()
    ensures DEFAULT_SCHEME != "" && forall i :: 0 <= i < |DEFAULT_SCHEME| ==> !NotInToken(DEFAULT_SCHEME[i])
    ensures NoControl(ERROR_INSUFFICIENT_SCOPE) && NoControl("")
  {
  }

  lemma CleanIsNormal(c: Challenge)
    requires c.scheme != "" && forall i :: 0 <= i < |c.scheme| ==> !NotInToken(c.scheme[i])
    requires NoControl(c.error) && c.errorDescription == ""
    ensures Normalized(c) == Challenge(c.scheme, c.error, "", Stripped(c.scope), Stripped(c.resourceMetadata), Stripped(c.realm), 0)
  {
    KeptIsIdentity(c.scheme, NotInToken);
    KeptIsIdentity(c.error, IsControl);
  }

  /** The status is 401 exactly when a missing token or subject is among the causes, however wrapped or joined. */
  lemma UnauthorizedExactlyWithoutIdentity(e: Enforcer, err: Error)
    ensures DefaultResponse(Clamped(DenyInfo(ChallengeForError(e, err), NO_EVALUATION, Some(err)))).status
         == (if NoToken in Causes(err) || MissingSubject in Causes(err) then STATUS_UNAUTHORIZED else STATUS_FORBIDDEN)
  {
    IsFindsCause(err, NoToken);
    IsFindsCause(err, MissingSubject);
  }

  /** The errors at the bottom of the tree. */
  function Causes(err: Error): set<Error> {
    match err
    case Wrapped(_, cause) => Causes(cause)
    case Joined(causes) => set i, x | 0 <= i < |causes| && x in Causes(causes[i]) :: x
    case _ => {err}
  }

  lemma {:induction false} IsFindsCause(err: Error, target: Error)
    requires !target.Wrapped? && !target.Joined?
    ensures Is(err, target) <==> target in Causes(err)
  {
    match err
    case Wrapped(_, cause) =>
      IsFindsCause(cause, target);
    case Joined(causes) =>
      forall i | 0 <= i < |causes|
        ensures Is(causes[i], target) <==> target in Causes(causes[i])
      {
        IsFindsCause(causes[i], target);
      }
    case _ =>
  }
}
