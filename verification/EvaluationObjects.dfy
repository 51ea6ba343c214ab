/**
 The request objects of evaluations.go. A pointer to a struct, and a map, is a
 Ref; a request, whose fields a PDP may overwrite, is a class of its own.
 Members of a batch may share anything with each other and with the defaults.
 */
module EvaluationObjects {
  import opened Wrappers
  import opened Values
  import opened References
  import Evaluations

  type Properties = Evaluations.Properties

  datatype Subject = Subject(kind: string, id: string, properties: Ref<Properties>)
  datatype Action = Action(name: string, properties: Ref<Properties>)
  datatype Resource = Resource(kind: string, id: string, properties: Ref<Properties>)

  ghost function SubjectView(s: Option<Subject>): Option<Evaluations.SubjectValue>
    reads if s.Some? then {s.value.properties} else {}
  {
    if s.None? then None else Some(Evaluations.SubjectValue(s.value.kind, s.value.id, s.value.properties.target))
  }

  ghost function SubjectParts(s: Option<Subject>): set<object> {
    if s.None? then {} else {s.value.properties}
  }

  ghost function ActionView(a: Option<Action>): Option<Evaluations.ActionValue>
    reads if a.Some? then {a.value.properties} else {}
  {
    if a.None? then None else Some(Evaluations.ActionValue(a.value.name, a.value.properties.target))
  }

  ghost function ActionParts(a: Option<Action>): set<object> {
    if a.None? then {} else {a.value.properties}
  }

  ghost function ResourceView(r: Option<Resource>): Option<Evaluations.ResourceValue>
    reads if r.Some? then {r.value.properties} else {}
  {
    if r.None? then None else Some(Evaluations.ResourceValue(r.value.kind, r.value.id, r.value.properties.target))
  }

  ghost function ResourceParts(r: Option<Resource>): set<object> {
    if r.None? then {} else {r.value.properties}
  }

  /** The clones copy a struct and the top level of its map. */
  method CloneSubject(p: Ref<Option<Subject>>) returns (c: Ref<Option<Subject>>, ghost parts: set<object>)
    ensures fresh(parts) && c in parts && SubjectParts(c.target) <= parts && SubjectView(c.target) == SubjectView(p.target)
  {
    if p.target.None? {
      c := new Ref(None);
      parts := {c};
    } else {
      var m := p.target.value.properties.Clone();
      c := new Ref(Some(p.target.value.(properties := m)));
      parts := {c, m};
    }
  }

  method CloneAction(p: Ref<Option<Action>>) returns (c: Ref<Option<Action>>, ghost parts: set<object>)
    ensures fresh(parts) && c in parts && ActionParts(c.target) <= parts && ActionView(c.target) == ActionView(p.target)
  {
    if p.target.None? {
      c := new Ref(None);
      parts := {c};
    } else {
      var m := p.target.value.properties.Clone();
      c := new Ref(Some(p.target.value.(properties := m)));
      parts := {c, m};
    }
  }

  method CloneResource(p: Ref<Option<Resource>>) returns (c: Ref<Option<Resource>>, ghost parts: set<object>)
    ensures fresh(parts) && c in parts && ResourceParts(c.target) <= parts && ResourceView(c.target) == ResourceView(p.target)
  {
    if p.target.None? {
      c := new Ref(None);
      parts := {c};
    } else {
      var m := p.target.value.properties.Clone();
      c := new Ref(Some(p.target.value.(properties := m)));
      parts := {c, m};
    }
  }

  /** One evaluation request. Repr holds it and every object it points to; Value is what they hold. */
  class EvaluationRequest {
    var subject: Ref<Option<Subject>>
    var action: Ref<Option<Action>>
    var resource: Ref<Option<Resource>>
    var context: Ref<Properties>
    ghost var Repr: set<object>
    ghost var Value: Evaluations.EvaluationValue

    ghost predicate Valid()
      reads this, Repr
    {
      && this in Repr && context in Repr
      && subject in Repr && SubjectParts(subject.target) <= Repr
      && action in Repr && ActionParts(action.target) <= Repr
      && resource in Repr && ResourceParts(resource.target) <= Repr
      && Value == Evaluations.EvaluationValue(
                    SubjectView(subject.target), ActionView(action.target), ResourceView(resource.target), context.target)
    }

    constructor (subject: Ref<Option<Subject>>, action: Ref<Option<Action>>, resource: Ref<Option<Resource>>,
                 context: Ref<Properties>, ghost parts: set<object>, ghost value: Evaluations.EvaluationValue)
      requires {subject, action, resource, context} <= parts && SubjectParts(subject.target) <= parts
      requires ActionParts(action.target) <= parts && ResourceParts(resource.target) <= parts
      requires value.subject == SubjectView(subject.target) && value.action == ActionView(action.target)
      requires value.resource == ResourceView(resource.target) && value.context == context.target
      ensures Valid() && Repr == {this} + parts && Value == value
    {
      this.subject, this.action, this.resource, this.context := subject, action, resource, context;
      Repr, Value := {this} + parts, value;
    }

    method Validate() returns (err: Option<Evaluations.ValidationError>)
      requires Valid()
      ensures err == Evaluations.Validate(Value)
      ensures if err.None? then Evaluations.Complete(Value) else Evaluations.FirstLack(Value, err.value)
    {
      Evaluations.RejectedForFirstLack(Value);
      err := ValidateSubject();
      if err.None? {
        err := ValidateAction();
      }
      if err.None? {
        err := ValidateResource();
      }
    }

    method ValidateSubject() returns (err: Option<Evaluations.ValidationError>)
      requires Valid()
      ensures err == Evaluations.ValidateSubject(Value.subject)
    {
      var s := subject.target;
      if s.None? {
        err := Some(Evaluations.ValidationError("subject", Evaluations.MissingSubject));
      } else if s.value.kind == "" {
        err := Some(Evaluations.ValidationError("subject.type", Evaluations.MissingType));
      } else if s.value.id == "" {
        err := Some(Evaluations.ValidationError("subject.id", Evaluations.MissingID));
      } else {
        err := None;
      }
    }

    method ValidateAction() returns (err: Option<Evaluations.ValidationError>)
      requires Valid()
      ensures err == Evaluations.ValidateAction(Value.action)
    {
      var a := action.target;
      if a.None? {
        err := Some(Evaluations.ValidationError("action", Evaluations.MissingAction));
      } else if a.value.name == "" {
        err := Some(Evaluations.ValidationError("action.name", Evaluations.MissingName));
      } else {
        err := None;
      }
    }

    method ValidateResource() returns (err: Option<Evaluations.ValidationError>)
      requires Valid()
      ensures err == Evaluations.ValidateResource(Value.resource)
    {
      var r := resource.target;
      if r.None? {
        err := Some(Evaluations.ValidationError("resource", Evaluations.MissingResource));
      } else if r.value.kind == "" {
        err := Some(Evaluations.ValidationError("resource.type", Evaluations.MissingType));
      } else if r.value.id == "" {
        err := Some(Evaluations.ValidationError("resource.id", Evaluations.MissingID));
      } else {
        err := None;
      }
    }
  }

  method CloneRequest(subject: Ref<Option<Subject>>, action: Ref<Option<Action>>, resource: Ref<Option<Resource>>,
                      context: Ref<Properties>)
    returns (c: EvaluationRequest)
    ensures c.Valid() && fresh(c.Repr)
    ensures c.Value == old(Evaluations.EvaluationValue(
                         SubjectView(subject.target), ActionView(action.target), ResourceView(resource.target), context.target))
  {
    ghost var v := Evaluations.EvaluationValue(
      SubjectView(subject.target), ActionView(action.target), ResourceView(resource.target), context.target);
    var s, a, r;
    ghost var sp, ap, rp;
    s, sp := CloneSubject(subject);
    a, ap := CloneAction(action);
    r, rp := CloneResource(resource);
    var m := context.Clone();
    ghost var parts := sp + ap + rp + {m};
    assert fresh(parts);
    c := new EvaluationRequest(s, a, r, m, parts, v);
    assert forall o | o in c.Repr :: o == c || o in parts;
  }

  // ---- requests in separate objects

  /** From the k-th on, the requests hold the given values, in separate objects among parts. */
  ghost predicate Held(rs: seq<EvaluationRequest>, vals: seq<Evaluations.EvaluationValue>, k: nat, parts: set<object>)
    reads parts
  {
    && |rs| == |vals|
    && (forall i {:trigger Holds(rs[i], vals[i], parts)} | k <= i < |rs| :: Holds(rs[i], vals[i], parts))
    && (forall i, j {:trigger Separate(rs[i], rs[j], parts)} | k <= i < j < |rs| :: Separate(rs[i], rs[j], parts))
  }

  ghost predicate Holds(r: EvaluationRequest, v: Evaluations.EvaluationValue, parts: set<object>)
    reads parts
  {
    Within(r, parts) && r.Value == v
  }

  ghost predicate Within(r: EvaluationRequest, parts: set<object>)
    reads parts
  {
    r in parts && r.Repr <= parts && r.Valid()
  }

  ghost function ValuesOf(rs: seq<EvaluationRequest>): (vals: seq<Evaluations.EvaluationValue>)
    reads rs
    ensures |vals| == |rs|
  {
    seq(|rs|, i requires 0 <= i < |rs| reads rs => rs[i].Value)
  }

  ghost predicate Separate(a: EvaluationRequest, b: EvaluationRequest, parts: set<object>)
    reads parts
  {
    a in parts && b in parts && a.Repr !! b.Repr
  }

  lemma HeldOneMore(rs: seq<EvaluationRequest>, vals: seq<Evaluations.EvaluationValue>, parts: set<object>, c: EvaluationRequest)
    requires Held(rs, vals, 0, parts) && c.Valid() && c.Repr !! parts
    ensures Held(rs + [c], vals + [c.Value], 0, parts + c.Repr)
  {
    forall i | 0 <= i < |rs|
      ensures Holds(rs[i], vals[i], parts + c.Repr) && Separate(rs[i], c, parts + c.Repr)
    {
      assert Holds(rs[i], vals[i], parts);
    }
    forall i, j | 0 <= i < j < |rs|
      ensures Separate(rs[i], rs[j], parts + c.Repr)
    {
      assert Separate(rs[i], rs[j], parts);
    }
  }

  /** A batch request, which evaluating it never changes. */
  class EvaluationsRequest {
    const subject: Ref<Option<Subject>>
    const action: Ref<Option<Action>>
    const resource: Ref<Option<Resource>>
    const context: Ref<Properties>
    const evaluations: seq<EvaluationRequest>
    const options: Option<Evaluations.OptionsValue>
    ghost const Repr: set<object>

    ghost predicate Valid()
      reads this, Repr
    {
      && this in Repr && context in Repr
      && subject in Repr && SubjectParts(subject.target) <= Repr
      && action in Repr && ActionParts(action.target) <= Repr
      && resource in Repr && ResourceParts(resource.target) <= Repr
      && forall i {:trigger Within(evaluations[i], Repr)} | 0 <= i < |evaluations| :: Within(evaluations[i], Repr)
    }

    ghost function Defaults(): Evaluations.EvaluationValue
      requires Valid()
      reads this, Repr
    {
      Evaluations.EvaluationValue(
        SubjectView(subject.target), ActionView(action.target), ResourceView(resource.target), context.target)
    }

    ghost function View(): Evaluations.BatchValue
      requires Valid()
      reads this, Repr, evaluations
    {
      Evaluations.BatchValue(Defaults(), ValuesOf(evaluations), options)
    }

    constructor (subject: Ref<Option<Subject>>, action: Ref<Option<Action>>, resource: Ref<Option<Resource>>,
                 context: Ref<Properties>, evaluations: seq<EvaluationRequest>, options: Option<Evaluations.OptionsValue>,
                 ghost parts: set<object>)
      requires {subject, action, resource, context} + SubjectParts(subject.target) + ActionParts(action.target)
               + ResourceParts(resource.target) <= parts
      requires forall i | 0 <= i < |evaluations| :: Within(evaluations[i], parts)
      ensures Valid() && Repr == parts + {this}
      ensures View().evaluations == ValuesOf(evaluations) && View().options == options
      ensures View().defaults == Evaluations.EvaluationValue(
                SubjectView(subject.target), ActionView(action.target), ResourceView(resource.target), context.target)
    {
      this.subject, this.action, this.resource, this.context := subject, action, resource, context;
      this.evaluations, this.options := evaluations, options;
      Repr := parts + {this};
      new;
      forall i | 0 <= i < |evaluations|
        ensures Within(evaluations[i], Repr)
      {
        assert Within(evaluations[i], parts);
      }
    }

    /** As long as none of its objects is written to, the batch says what it said. */
    twostate lemma Unwritten()
      requires old(Valid()) && unchanged(Repr)
      ensures Valid() && View() == old(View())
    {
      forall i | 0 <= i < |evaluations|
        ensures evaluations[i] in Repr && Within(evaluations[i], Repr)
      {
        assert old(Within(evaluations[i], Repr));
      }
      assert ValuesOf(evaluations) == old(ValuesOf(evaluations));
    }

    /** Resolved: each request in objects of its own, none shared with another or with the batch. */
    method Resolved() returns (out: seq<EvaluationRequest>, ghost parts: set<object>)
      requires Valid()
      ensures fresh(parts) && Held(out, Evaluations.Resolution(View()), 0, parts)
    {
      if |evaluations| == 0 {
        var c := CloneRequest(subject, action, resource, context);
        HeldOneMore([], [], {}, c);
        out, parts := [c], c.Repr;
        assert [] + [c] == [c] && [] + [c.Value] == [c.Value] && {} + c.Repr == c.Repr;
        return;
      }
      ghost var vals := Evaluations.DefaultedAll(View().evaluations, Defaults());
      out, parts := [], {};
      for i := 0 to |evaluations|
        invariant fresh(parts) && Held(out, vals[..i], 0, parts)
      {
        var c := ResolveMember(i);
        HeldOneMore(out, vals[..i], parts, c);
        assert vals[..i + 1] == vals[..i] + [c.Value];
        out, parts := out + [c], parts + c.Repr;
      }
      assert vals[..|evaluations|] == vals;
    }

    /** One turn of the loop in Resolved. */
    method ResolveMember(i: nat) returns (c: EvaluationRequest)
      requires Valid() && i < |evaluations|
      ensures c.Valid() && fresh(c.Repr)
      ensures c.Value == Evaluations.Defaulted(View().evaluations[i], Defaults())
    {
      var e := evaluations[i];
      assert Within(e, Repr);
      var s := if e.subject.target.None? then subject else e.subject;
      var a := if e.action.target.None? then action else e.action;
      var r := if e.resource.target.None? then resource else e.resource;
      var m := if e.context.target.None? then context else e.context;
      c := CloneRequest(s, a, r, m);
    }

    /** Validate: the options, then every request the batch resolves to. */
    method Validate() returns (err: Option<Evaluations.BatchError>)
      requires Valid()
      ensures err == Evaluations.ValidateBatch(View())
      ensures err.None? <==> Evaluations.DefinedSemantic(options)
                             && forall e :: e in Evaluations.Resolution(View()) ==> Evaluations.Complete(e)
    {
      Evaluations.AcceptedExactlyWhenValid(View());
      if !Evaluations.ValidOptions(options) {
        err := Some(Evaluations.Whole(Evaluations.ValidationError("options.evaluations_semantic", Evaluations.InvalidSemantic)));
      } else {
        ghost var es := Evaluations.Resolution(View());
        var resolved;
        ghost var parts;
        resolved, parts := Resolved();
        err := FirstError(resolved, |evaluations| == 0, es, parts);
      }
    }

    static method FirstError(resolved: seq<EvaluationRequest>, single: bool,
                             ghost es: seq<Evaluations.EvaluationValue>, ghost parts: set<object>)
      returns (err: Option<Evaluations.BatchError>)
      requires Held(resolved, es, 0, parts)
      ensures err == Evaluations.FirstError(es, single, 0)
    {
      for i := 0 to |resolved|
        invariant Evaluations.FirstError(es, single, 0) == Evaluations.FirstError(es, single, i)
      {
        assert Holds(resolved[i], es[i], parts);
        var flaw := resolved[i].Validate();
        if flaw.Some? {
          return Some(if single then Evaluations.Whole(flaw.value) else Evaluations.Member(i, flaw.value));
        }
      }
      return None;
    }
  }
}
