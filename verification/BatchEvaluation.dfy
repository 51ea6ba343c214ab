/** EvaluateBatch of server/server.go, against a PDP that may do anything to what it is given. */
module BatchEvaluation {
  import opened Wrappers
  import opened References
  import opened Evaluations
  import opened BatchSemantics
  import opened EvaluationObjects

  /** A response as it is handed over: with a context map that others may hold too. */
  datatype LiveResponse = LiveResponse(decision: bool, context: Ref<EvaluationObjects.Properties>)

  datatype LiveAnswer = Responded(response: LiveResponse) | Broke(message: string, done: Option<string>)

  /** The answer holds what the value says, just now. */
  ghost predicate Says(live: LiveAnswer, a: Answer)
    reads if live.Responded? then {live.response.context} else {}
  {
    match live
    case Responded(r) => a == Answered(Response(r.decision, r.context.target))
    case Broke(message, done) => a == Failed(message, done)
  }

  /**
   A PDP. Its answers are arbitrary: script(k) is the answer to its k-th call.
   It notes what it sees, and may then overwrite the request it was given, every
   one it was given before, and the contexts it has returned, unless rewrites is
   false, which spares the contexts. It may return a context again.
   */
  class PDP {
    const script: nat -> Answer
    const rewrites: bool
    var calls: nat
    ghost var seen: seq<EvaluationValue>
    ghost var kept: set<object>
    ghost var contexts: set<Ref<EvaluationObjects.Properties>>

    constructor (script: nat -> Answer, rewrites: bool)
      ensures this.script == script && this.rewrites == rewrites
      ensures calls == 0 && seen == [] && kept == {} && contexts == {}
    {
      this.script, this.rewrites, this.calls, this.seen, this.kept, this.contexts := script, rewrites, 0, [], {}, {};
    }

    method Evaluate(r: EvaluationRequest) returns (a: LiveAnswer)
      requires r.Valid() && this !in r.Repr + kept
      modifies this, r.Repr, kept
      ensures Says(a, script(old(calls))) && calls == old(calls) + 1
      ensures seen == old(seen) + [old(r.Value)]
      ensures old(kept) + old(r.Repr) <= kept && forall o | o in kept :: o in old(kept) + old(r.Repr) || fresh(o)
      ensures contexts == old(contexts) + (if a.Responded? then {a.response.context} else {})
      ensures a.Responded? ==> a.response.context in kept
      ensures !rewrites ==> forall c | c in old(contexts) :: c.target == old(c.target)
    {
      ghost var given := kept + r.Repr;
      var next := script(calls);
      calls, seen, kept := calls + 1, seen + [r.Value], given;
      if rewrites {
        modify given;
      } else {
        modify given - contexts;
      }
      match next
      case Answered(response) =>
        var c := new Ref(response.context);
        a := Responded(LiveResponse(response.decision, c));
        kept, contexts := kept + {c}, contexts + {c};
      case Failed(message, done) =>
        a := Broke(message, done);
    }

    /** The answers to the next n calls. */
    ghost function Upcoming(n: nat): (answers: seq<Answer>)
      reads this
      ensures |answers| == n && forall i :: 0 <= i < n ==> answers[i] == script(calls + i)
    {
      seq(n, i requires 0 <= i reads this => script(calls + i))
    }
  }

  // ---- what becomes of a response

  /**
   A response that was put into the result still has its decision. The context of
   a failure is out of the PDP's reach; one of the PDP's own still holds what it
   held if the PDP does not rewrite what it returned.
   */
  ghost predicate Stands(l: LiveResponse, v: Response, a: Answer, pdp: PDP, parts: set<object>)
    reads pdp, l.context
  {
    && l.decision == v.decision
    && (if a.Failed? then l.context !in pdp.kept + parts else l.context in pdp.contexts)
    && (a.Failed? || !pdp.rewrites ==> l.context.target == v.context)
  }

  ghost function Contexts(out: seq<LiveResponse>): set<Ref<EvaluationObjects.Properties>> {
    set j | 0 <= j < |out| :: out[j].context
  }

  ghost predicate AllStand(out: seq<LiveResponse>, vals: seq<Response>, answers: seq<Answer>, pdp: PDP, parts: set<object>)
    reads pdp, Contexts(out)
  {
    && |out| == |vals| && |out| <= |answers|
    && forall j {:trigger Stands(out[j], vals[j], answers[j], pdp, parts)} | 0 <= j < |out| ::
         out[j].context in Contexts(out) && Stands(out[j], vals[j], answers[j], pdp, parts)
  }

  /** And the last one, after which the PDP was not called, holds what it held. */
  ghost predicate LastHolds(out: seq<LiveResponse>, vals: seq<Response>)
    reads Contexts(out)
  {
    |out| == |vals| && (out != [] ==>
      out[|out| - 1].context in Contexts(out) && out[|out| - 1].context.target == vals[|vals| - 1].context)
  }

  /** The result is the outcome, as far as that is in its hands. */
  ghost predicate Reports(r: Result<seq<LiveResponse>, string>, outcome: Result<seq<Response>, string>,
                          answers: seq<Answer>, pdp: PDP, parts: set<object>)
    reads pdp, if r.Ok? then Contexts(r.value) else {}
  {
    match outcome
    case Err(e) => r == Err(e)
    case Ok(vals) => r.Ok? && AllStand(r.value, vals, answers, pdp, parts) && LastHolds(r.value, vals)
  }

  lemma OneMoreStands(out: seq<LiveResponse>, l: LiveResponse, answers: seq<Answer>, i: nat, s: Settings, pdp: PDP,
                      parts: set<object>)
    requires i < |answers| && AllStand(out, Responses(answers, i, s), answers, pdp, parts)
    requires Stands(l, MemberResponse(answers[i], i, s), answers[i], pdp, parts)
    requires l.context.target == MemberResponse(answers[i], i, s).context
    ensures AllStand(out + [l], Responses(answers, i + 1, s), answers, pdp, parts)
    ensures LastHolds(out + [l], Responses(answers, i + 1, s))
  {
    var vals, vals' := Responses(answers, i, s), Responses(answers, i + 1, s);
    forall j | 0 <= j < |out + [l]|
      ensures (out + [l])[j].context in Contexts(out + [l]) && Stands((out + [l])[j], vals'[j], answers[j], pdp, parts)
    {
      assert j < i ==> Stands(out[j], vals[j], answers[j], pdp, parts);
    }
  }

  lemma StandsAlone(out: seq<LiveResponse>, vals: seq<Response>, answers: seq<Answer>, pdp: PDP, parts: set<object>)
    requires AllStand(out, vals, answers, pdp, parts)
    ensures AllStand(out, vals, answers, pdp, {})
  {
    forall j | 0 <= j < |out|
      ensures out[j].context in Contexts(out) && Stands(out[j], vals[j], answers[j], pdp, {})
    {
      assert Stands(out[j], vals[j], answers[j], pdp, parts);
    }
  }

  // ---- the loop

  /** The PDP was never given any object of the requests from the k-th on. */
  ghost predicate Untouched(pdp: PDP, k: nat, rs: seq<EvaluationRequest>, parts: set<object>)
    reads pdp, parts
  {
    forall i {:trigger Unkept(rs[i], pdp.kept, parts)} | k <= i < |rs| :: Unkept(rs[i], pdp.kept, parts)
  }

  ghost predicate Unkept(r: EvaluationRequest, kept: set<object>, parts: set<object>)
    reads parts
  {
    r in parts && r.Repr !! kept
  }

  lemma NoneIsKept(pdp: PDP, rs: seq<EvaluationRequest>, es: seq<EvaluationValue>, parts: set<object>)
    requires Held(rs, es, 0, parts) && pdp.kept !! parts
    ensures Untouched(pdp, 0, rs, parts)
  {
    forall i | 0 <= i < |rs|
      ensures Unkept(rs[i], pdp.kept, parts)
    {
      assert Holds(rs[i], es[i], parts);
    }
  }

  /** pdp.Evaluate(ctx, &resolved[i]). */
  method AskNext(pdp: PDP, i: nat, resolved: seq<EvaluationRequest>, ghost es: seq<EvaluationValue>, ghost parts: set<object>)
    returns (a: LiveAnswer)
    requires Held(resolved, es, i, parts) && i < |resolved| && pdp !in parts + pdp.kept
    requires Untouched(pdp, i, resolved, parts)
    modifies pdp, pdp.kept, parts
    ensures Held(resolved, es, i + 1, parts) && Untouched(pdp, i + 1, resolved, parts)
    ensures forall o | o in pdp.kept :: o in old(pdp.kept) + parts || fresh(o)
    ensures Says(a, pdp.script(old(pdp.calls))) && pdp.calls == old(pdp.calls) + 1
    ensures pdp.seen == old(pdp.seen) + [es[i]]
    ensures pdp.contexts == old(pdp.contexts) + (if a.Responded? then {a.response.context} else {})
    ensures !pdp.rewrites ==> forall c | c in old(pdp.contexts) :: c.target == old(c.target)
  {
    assert Holds(resolved[i], es[i], parts);
    forall j | i < j < |resolved|
      ensures Holds(resolved[j], es[j], parts) && resolved[j].Repr !! resolved[i].Repr + pdp.kept
    {
      assert Separate(resolved[i], resolved[j], parts);
      assert Unkept(resolved[j], pdp.kept, parts);
    }
    a := pdp.Evaluate(resolved[i]);
    forall j | i < j < |resolved|
      ensures Holds(resolved[j], es[j], parts) && Unkept(resolved[j], pdp.kept, parts)
    {
      assert old(Holds(resolved[j], es[j], parts));
      assert old(Unkept(resolved[j], pdp.kept, parts));
    }
    forall j, k | i < j < k < |resolved|
      ensures Separate(resolved[j], resolved[k], parts)
    {
      assert old(Separate(resolved[j], resolved[k], parts));
      assert old(Holds(resolved[j], es[j], parts)) && old(Holds(resolved[k], es[k], parts));
    }
  }

  /** A turn of the loop up to the append: the PDP's own response, or a deny in its place, or the end of the batch. */
  method TakeTurn(pdp: PDP, i: nat, resolved: seq<EvaluationRequest>, s: Settings, out: seq<LiveResponse>,
                  ghost es: seq<EvaluationValue>, ghost parts: set<object>, ghost answers: seq<Answer>)
    returns (l: LiveResponse, aborted: Option<string>)
    requires Held(resolved, es, i, parts) && i < |resolved| == |answers| && pdp !in parts + pdp.kept
    requires Untouched(pdp, i, resolved, parts) && answers[i] == pdp.script(pdp.calls)
    requires AllStand(out, Responses(answers, i, s), answers, pdp, parts)
    modifies pdp, pdp.kept, parts
    ensures Held(resolved, es, i + 1, parts) && Untouched(pdp, i + 1, resolved, parts) && pdp !in pdp.kept
    ensures forall o | o in pdp.kept :: o in old(pdp.kept) + parts || fresh(o)
    ensures pdp.calls == old(pdp.calls) + 1 && pdp.seen == old(pdp.seen) + [es[i]]
    ensures AllStand(out, Responses(answers, i, s), answers, pdp, parts)
    ensures aborted == if answers[i].Failed? then answers[i].done else None
    ensures aborted.None? ==> Stands(l, MemberResponse(answers[i], i, s), answers[i], pdp, parts)
    ensures aborted.None? ==> l.context.target == MemberResponse(answers[i], i, s).context
  {
    ghost var vals := Responses(answers, i, s);
    assert forall j | 0 <= j < i :: Stands(out[j], vals[j], answers[j], pdp, parts);
    var a := AskNext(pdp, i, resolved, es, parts);
    forall j | 0 <= j < i
      ensures Stands(out[j], vals[j], answers[j], pdp, parts)
    {
      assert old(Stands(out[j], vals[j], answers[j], pdp, parts));
    }
    aborted := None;
    match a
    case Responded(response) =>
      l := response;
    case Broke(message, done) =>
      aborted := done;
      var failure := MemberError(message, i, s);
      var c := new Ref(failure.context);
      l := LiveResponse(failure.decision, c);
  }

  lemma SeenAll(before: seq<EvaluationValue>, es: seq<EvaluationValue>)
    ensures before + es[..|es|] == before + es && before + es[..0] == before
  {
  }

  lemma SeenOneMore(before: seq<EvaluationValue>, es: seq<EvaluationValue>, i: nat)
    requires i < |es|
    ensures before + es[..i] + [es[i]] == before + es[..i + 1]
  {
  }

  /** What the i-th turn makes of the result: the end of the batch, or a response more and a next turn. */
  lemma TurnReports(semantic: string, answers: seq<Answer>, i: nat, s: Settings, out: seq<LiveResponse>, l: LiveResponse,
                    aborted: Option<string>, pdp: PDP, parts: set<object>)
    requires Going(semantic, answers, i) && i < |answers|
    requires AllStand(out, Responses(answers, i, s), answers, pdp, parts)
    requires aborted == if answers[i].Failed? then answers[i].done else None
    requires aborted.None? ==> Stands(l, MemberResponse(answers[i], i, s), answers[i], pdp, parts)
    requires aborted.None? ==> l.context.target == MemberResponse(answers[i], i, s).context
    ensures var r := if aborted.Some? then Err(aborted.value) else Ok(out + [l]);
            if aborted.Some? || Stops(semantic, l.decision)
            then Asked(semantic, answers) == i + 1 && Reports(r, Outcome(semantic, answers, s), answers, pdp, parts)
            else
              && Going(semantic, answers, i + 1) && LastHolds(out + [l], Responses(answers, i + 1, s))
              && AllStand(out + [l], Responses(answers, i + 1, s), answers, pdp, parts)
  {
    TurnDecides(semantic, answers, i, s);
    if aborted.None? {
      OneMoreStands(out, l, answers, i, s, pdp, parts);
    }
  }

  method EvaluateAll(pdp: PDP, semantic: string, resolved: seq<EvaluationRequest>, s: Settings,
                     ghost es: seq<EvaluationValue>, ghost parts: set<object>)
    returns (r: Result<seq<LiveResponse>, string>)
    requires Held(resolved, es, 0, parts) && pdp !in parts + pdp.kept && pdp.kept !! parts
    modifies pdp, pdp.kept, parts
    ensures var answers := old(pdp.Upcoming(|es|));
            && Reports(r, Outcome(semantic, answers, s), answers, pdp, parts)
            && pdp.seen == old(pdp.seen) + es[..Asked(semantic, answers)]
  {
    ghost var answers := pdp.Upcoming(|es|);
    NoneIsKept(pdp, resolved, es, parts);
    SeenAll(pdp.seen, es);
    var out := [];
    for i := 0 to |resolved|
      invariant Held(resolved, es, i, parts) && Untouched(pdp, i, resolved, parts) && pdp !in pdp.kept
      invariant forall o | o in pdp.kept :: o in old(pdp.kept) + parts || fresh(o)
      invariant pdp.calls == old(pdp.calls) + i && pdp.seen == old(pdp.seen) + es[..i]
      invariant Going(semantic, answers, i)
      invariant AllStand(out, Responses(answers, i, s), answers, pdp, parts) && LastHolds(out, Responses(answers, i, s))
    {
      var l, aborted := TakeTurn(pdp, i, resolved, s, out, es, parts, answers);
      TurnReports(semantic, answers, i, s, out, l, aborted, pdp, parts);
      SeenOneMore(old(pdp.seen), es, i);
      if aborted.Some? {
        return Err(aborted.value);
      }
      out := out + [l];
      if Stops(semantic, l.decision) {
        return Ok(out);
      }
    }
    NoneLeftDecides(semantic, answers, s);
    SeenAll(old(pdp.seen), es);
    r := Ok(out);
  }

  /**
   The PDP is asked about the members of the batch in order, once each and no
   further than the semantic needs, and sees every one of them as the batch
   resolves it, whatever it did to those before. Decisions and the contexts of
   failures are beyond its reach; so are the contexts it returned, as far as it
   does not rewrite them itself. The request stays as it is unless the PDP held
   parts of it before.
   */
  method EvaluateBatch(pdp: PDP, req: EvaluationsRequest, s: Settings) returns (r: Result<seq<LiveResponse>, string>)
    requires req.Valid() && pdp !in pdp.kept
    modifies pdp, pdp.kept
    ensures old(req.Repr !! {pdp} + pdp.kept) ==> req.Valid() && req.View() == old(req.View())
    ensures var es := old(Resolution(req.View()));
            var semantic := SemanticOf(req.options);
            var answers := old(pdp.Upcoming(|es|));
            && Reports(r, Outcome(semantic, answers, s), answers, pdp, {})
            && pdp.seen == old(pdp.seen) + es[..Asked(semantic, answers)]
    ensures old(ValidateBatch(req.View())).None? ==>
              forall k :: |old(pdp.seen)| <= k < |pdp.seen| ==> Complete(pdp.seen[k])
  {
    ghost var es, answers := Resolution(req.View()), pdp.Upcoming(|Resolution(req.View())|);
    AcceptedExactlyWhenValid(req.View());
    var resolved;
    ghost var parts;
    resolved, parts := req.Resolved();
    r := EvaluateAll(pdp, SemanticOf(req.options), resolved, s, es, parts);
    if old(req.Repr !! {pdp} + pdp.kept) {
      req.Unwritten();
    }
    if r.Ok? {
      StandsAlone(r.value, Outcome(SemanticOf(req.options), answers, s).value, answers, pdp, parts);
    }
  }
}
