/**
 The gRPC conversions of grpc/conv.go. A message has the fields of the core type
 it carries, with a Struct, whose numbers are doubles, in place of each map;
 None is a Struct that is not set.
 */
module WireCodec {
  import opened Wrappers
  import opened Values
  import opened Evaluations
  import opened BatchSemantics

  datatype Failure = NotEncodable

  /** The EvaluationsSemantic enum; a number it does not define reads as Unspecified. */
  datatype WireSemantic = Unspecified | ExecuteAll | DenyOnFirstDeny | PermitOnFirstPermit

  datatype WireOptions = WireOptions(semantic: WireSemantic, additional: Properties)

  datatype WireBatch = WireBatch(
    defaults: EvaluationValue,
    evaluations: seq<EvaluationValue>,
    options: Option<WireOptions>)

  // ---- objects

  function Encoded(v: Any, toDouble: int -> real): Result<Any, Failure> {
    if Encodable(v) then Ok(Decoded(v, toDouble)) else Err(NotEncodable)
  }

  /** normalizeValue: an EvaluationError is spelled out, everything else goes through JSON. */
  method NormalizeValue(v: Any, toDouble: int -> real) returns (r: Result<Any, Failure>)
    ensures r == Encoded(v, toDouble)
  {
    match v
    case Null =>
      r := Ok(Null);
    case EvaluationError(status, message) =>
      r := Ok(Object(map["status" := Float(toDouble(status)), "message" := Str(message)]));
    case _ =>
      r := Encoded(v, toDouble);
  }

  /** normalizeMap: value by value, in any order, up to the first that fails. */
  method NormalizeMap(m: Props, toDouble: int -> real) returns (r: Result<Props, Failure>)
    ensures r == if Encodable(Object(m)) then Ok(Decoded(Object(m), toDouble).m) else Err(NotEncodable)
  {
    var out := map[];
    var todo := m.Keys;
    while todo != {}
      invariant todo <= m.Keys && out.Keys == m.Keys - todo
      invariant forall k | k in out :: Encodable(m[k]) && out[k] == Decoded(m[k], toDouble)
      decreases |todo|
    {
      var k :| k in todo;
      todo := todo - {k};
      var v := NormalizeValue(m[k], toDouble);
      if v.Err? {
        return Err(NotEncodable);
      }
      out := out[k := v.value];
    }
    assert out == Decoded(Object(m), toDouble).m;
    r := Ok(out);
  }

  /** What a map is on the wire: an empty one is not set. */
  function Struct(m: Properties, toDouble: int -> real): Result<Properties, Failure> {
    if m.None? || m.value == map[] then Ok(None)
    else if Encodable(Object(m.value)) then Ok(Some(Decoded(Object(m.value), toDouble).m))
    else Err(NotEncodable)
  }

  /** mapToStruct. */
  method MapToStruct(m: Properties, toDouble: int -> real) returns (r: Result<Properties, Failure>)
    ensures r == Struct(m, toDouble)
  {
    if m.None? || |m.value| == 0 {
      return Ok(None);
    }
    var n := NormalizeMap(m.value, toDouble);
    r := if n.Err? then Err(n.error) else Ok(Some(n.value));
  }

  // ---- entities and requests

  function SubjectToProto(s: Option<SubjectValue>, toDouble: int -> real): Result<Option<SubjectValue>, Failure> {
    if s.None? then Ok(None)
    else
      var p := Struct(s.value.properties, toDouble);
      if p.Err? then Err(p.error) else Ok(Some(s.value.(properties := p.value)))
  }

  function ActionToProto(a: Option<ActionValue>, toDouble: int -> real): Result<Option<ActionValue>, Failure> {
    if a.None? then Ok(None)
    else
      var p := Struct(a.value.properties, toDouble);
      if p.Err? then Err(p.error) else Ok(Some(a.value.(properties := p.value)))
  }

  function ResourceToProto(r: Option<ResourceValue>, toDouble: int -> real): Result<Option<ResourceValue>, Failure> {
    if r.None? then Ok(None)
    else
      var p := Struct(r.value.properties, toDouble);
      if p.Err? then Err(p.error) else Ok(Some(r.value.(properties := p.value)))
  }

  function RequestToProto(e: EvaluationValue, toDouble: int -> real): Result<EvaluationValue, Failure> {
    var s := SubjectToProto(e.subject, toDouble);
    var a := ActionToProto(e.action, toDouble);
    var r := ResourceToProto(e.resource, toDouble);
    var c := Struct(e.context, toDouble);
    if s.Err? || a.Err? || r.Err? || c.Err? then Err(NotEncodable)
    else Ok(EvaluationValue(s.value, a.value, r.value, c.value))
  }

  function SemanticToProto(semantic: string): WireSemantic {
    if semantic == EXECUTE_ALL then ExecuteAll
    else if semantic == DENY_ON_FIRST_DENY then DenyOnFirstDeny
    else if semantic == PERMIT_ON_FIRST_PERMIT then PermitOnFirstPermit
    else Unspecified
  }

  function SemanticFromProto(w: WireSemantic): string {
    match w
    case ExecuteAll => EXECUTE_ALL
    case DenyOnFirstDeny => DENY_ON_FIRST_DENY
    case PermitOnFirstPermit => PERMIT_ON_FIRST_PERMIT
    case Unspecified => ""
  }

  function OptionsToProto(o: Option<OptionsValue>, toDouble: int -> real): Result<Option<WireOptions>, Failure> {
    if o.None? then Ok(None)
    else
      var p := Struct(o.value.additional, toDouble);
      if p.Err? then Err(p.error) else Ok(Some(WireOptions(SemanticToProto(o.value.semantic), p.value)))
  }

  function OptionsFromProto(w: Option<WireOptions>): Option<OptionsValue> {
    if w.None? then None else Some(OptionsValue(SemanticFromProto(w.value.semantic), w.value.additional))
  }

  /** The members one by one; the first that fails fails the request. */
  function MembersToProto(es: seq<EvaluationValue>, toDouble: int -> real): Result<seq<EvaluationValue>, Failure> {
    if es == [] then Ok([])
    else
      var first := RequestToProto(es[0], toDouble);
      var rest := MembersToProto(es[1..], toDouble);
      if first.Err? || rest.Err? then Err(NotEncodable) else Ok([first.value] + rest.value)
  }

  function BatchToProto(b: BatchValue, toDouble: int -> real): Result<WireBatch, Failure> {
    var d := RequestToProto(b.defaults, toDouble);
    var o := OptionsToProto(b.options, toDouble);
    var es := MembersToProto(b.evaluations, toDouble);
    if d.Err? || o.Err? || es.Err? then Err(NotEncodable) else Ok(WireBatch(d.value, es.value, o.value))
  }

  function BatchFromProto(w: WireBatch): BatchValue {
    BatchValue(w.defaults, w.evaluations, OptionsFromProto(w.options))
  }

  /** evaluationsRequestToProto: the top-level fields, then the loop over the members. */
  method EvaluationsRequestToProto(b: BatchValue, toDouble: int -> real) returns (r: Result<WireBatch, Failure>)
    ensures r == BatchToProto(b, toDouble)
    ensures r.Ok? <==> RequestCanTravel(b.defaults) && (forall e :: e in b.evaluations ==> RequestCanTravel(e))
                       && (b.options.Some? ==> CanTravel(b.options.value.additional))
    ensures r.Ok? && b.options.Some? ==>
              var semantic := b.options.value.semantic;
              && r.value.options.Some?
              && r.value.options.value.semantic == if semantic == "execute_all" then ExecuteAll
                                                   else if semantic == "deny_on_first_deny" then DenyOnFirstDeny
                                                   else if semantic == "permit_on_first_permit" then PermitOnFirstPermit
                                                   else Unspecified
  {
    TripExactlyWhen(b, toDouble);
    var d := RequestToProto(b.defaults, toDouble);
    if d.Err? {
      return Err(NotEncodable);
    }
    var o := OptionsToProto(b.options, toDouble);
    if o.Err? {
      return Err(NotEncodable);
    }
    var members := [];
    assert b.evaluations[0..] == b.evaluations;
    assert forall rest: seq<EvaluationValue> :: [] + rest == rest;
    for i := 0 to |b.evaluations|
      invariant MembersToProto(b.evaluations, toDouble) == Prefixed(members, MembersToProto(b.evaluations[i..], toDouble))
    {
      var m := RequestToProto(b.evaluations[i], toDouble);
      assert b.evaluations[i..][1..] == b.evaluations[i + 1..];
      if m.Err? {
        return Err(NotEncodable);
      }
      PrefixedMore(members, m.value, MembersToProto(b.evaluations[i + 1..], toDouble));
      members := members + [m.value];
    }
    assert b.evaluations[|b.evaluations|..] == [] && members + [] == members;
    r := Ok(WireBatch(d.value, members, o.value));
  }

  /** What is converted so far, before what the rest converts to. */
  ghost function Prefixed<T>(done: seq<T>, rest: Result<seq<T>, Failure>): Result<seq<T>, Failure> {
    if rest.Err? then rest else Ok(done + rest.value)
  }

  lemma PrefixedMore<T>(done: seq<T>, x: T, rest: Result<seq<T>, Failure>)
    ensures rest.Ok? ==> Prefixed(done, Ok([x] + rest.value)) == Prefixed(done + [x], rest)
  {
    if rest.Ok? {
      assert done + ([x] + rest.value) == done + [x] + rest.value;
    }
  }

  // ---- what a trip over the wire keeps

  /** A request after the trip, when it can be made. */
  function Carried(e: EvaluationValue, toDouble: int -> real): EvaluationValue {
    EvaluationValue(
      if e.subject.None? then None else Some(e.subject.value.(properties := CarriedMap(e.subject.value.properties, toDouble))),
      if e.action.None? then None else Some(e.action.value.(properties := CarriedMap(e.action.value.properties, toDouble))),
      if e.resource.None? then None else Some(e.resource.value.(properties := CarriedMap(e.resource.value.properties, toDouble))),
      CarriedMap(e.context, toDouble))
  }

  function CarriedMap(m: Properties, toDouble: int -> real): Properties {
    if m.None? || m.value == map[] then None else Some(Decoded(Object(m.value), toDouble).m)
  }

  function CarriedAll(es: seq<EvaluationValue>, toDouble: int -> real): (out: seq<EvaluationValue>)
    ensures |out| == |es| && forall i :: 0 <= i < |out| ==> out[i] == Carried(es[i], toDouble)
  {
    seq(|es|, i requires 0 <= i < |es| => Carried(es[i], toDouble))
  }

  /** A batch after the trip, when it can be made. */
  function CarriedBatch(b: BatchValue, toDouble: int -> real): BatchValue {
    BatchValue(
      Carried(b.defaults, toDouble),
      CarriedAll(b.evaluations, toDouble),
      CarriedOptions(b.options, toDouble))
  }

  function CarriedOptions(o: Option<OptionsValue>, toDouble: int -> real): Option<OptionsValue> {
    if o.None? then None
    else Some(OptionsValue(SemanticFromProto(SemanticToProto(o.value.semantic)), CarriedMap(o.value.additional, toDouble)))
  }

  /** Converting there and back. */
  function Trip(b: BatchValue, toDouble: int -> real): Result<BatchValue, Failure> {
    var w := BatchToProto(b, toDouble);
    if w.Err? then Err(w.error) else Ok(BatchFromProto(w.value))
  }

  lemma RequestCarries(e: EvaluationValue, toDouble: int -> real)
    requires RequestToProto(e, toDouble).Ok?
    ensures RequestToProto(e, toDouble).value == Carried(e, toDouble)
  {
  }

  lemma OptionsCarry(o: Option<OptionsValue>, toDouble: int -> real)
    requires OptionsToProto(o, toDouble).Ok?
    ensures OptionsFromProto(OptionsToProto(o, toDouble).value) == CarriedOptions(o, toDouble)
  {
  }

  lemma TripCarries(b: BatchValue, toDouble: int -> real)
    requires Trip(b, toDouble).Ok?
    ensures Trip(b, toDouble).value == CarriedBatch(b, toDouble)
    ensures RequestToProto(b.defaults, toDouble) == Ok(Carried(b.defaults, toDouble))
    ensures forall i :: 0 <= i < |b.evaluations| ==>
              RequestToProto(b.evaluations[i], toDouble) == Ok(Carried(b.evaluations[i], toDouble))
  {
    MembersCarried(b.evaluations, toDouble);
    RequestCarries(b.defaults, toDouble);
    OptionsCarry(b.options, toDouble);
    forall i | 0 <= i < |b.evaluations|
      ensures RequestToProto(b.evaluations[i], toDouble) == Ok(Carried(b.evaluations[i], toDouble))
    {
      RequestCarries(b.evaluations[i], toDouble);
    }
  }

  lemma CarriedCons(es: seq<EvaluationValue>, toDouble: int -> real)
    requires es != []
    ensures var out := CarriedAll(es, toDouble);
            out[0] == Carried(es[0], toDouble) && out[1..] == CarriedAll(es[1..], toDouble)
            && out == [Carried(es[0], toDouble)] + CarriedAll(es[1..], toDouble)
  {
  }

  lemma {:induction false} MembersCarried(es: seq<EvaluationValue>, toDouble: int -> real)
    requires MembersToProto(es, toDouble).Ok?
    ensures MembersToProto(es, toDouble).value == CarriedAll(es, toDouble)
    ensures forall i :: 0 <= i < |es| ==> RequestToProto(es[i], toDouble).Ok?
  {
    if es != [] {
      MembersCarried(es[1..], toDouble);
      CarriedCons(es, toDouble);
    }
  }

  /** A present but empty member context, which overrides the top-level one, is lost on the wire. */
  predicate Clears(e: EvaluationValue, d: EvaluationValue) {
    e.context == Some(map[]) && d.context.Some? && d.context.value != map[]
  }

  predicate ClearsContext(b: BatchValue) {
    exists i :: 0 <= i < |b.evaluations| && Clears(b.evaluations[i], b.defaults)
  }

  lemma DecodedKeepsEmptiness(m: Props, toDouble: int -> real)
    ensures Decoded(Object(m), toDouble).m == map[] <==> m == map[]
  {
    assert Decoded(Object(m), toDouble).m.Keys == m.Keys;
  }

  lemma DefaultedCarries(e: EvaluationValue, d: EvaluationValue, toDouble: int -> real)
    ensures Defaulted(Carried(e, toDouble), Carried(d, toDouble)) == Carried(Defaulted(e, d), toDouble)
       <==> !Clears(e, d)
  {
  }

  /**
   Defaulting after the trip gives what the trip makes of the defaulted members,
   exactly when no member clears a context that the batch sets.
   */
  lemma WireCommutesWithDefaulting(b: BatchValue, toDouble: int -> real)
    requires Trip(b, toDouble).Ok?
    ensures Resolution(Trip(b, toDouble).value) == CarriedAll(Resolution(b), toDouble) <==> !ClearsContext(b)
  {
    TripCarries(b, toDouble);
    var xs, ys := Resolution(CarriedBatch(b, toDouble)), CarriedAll(Resolution(b), toDouble);
    if b.evaluations == [] {
      assert xs == ys;
    } else {
      forall i | 0 <= i < |b.evaluations|
        ensures xs[i] == ys[i] <==> !Clears(b.evaluations[i], b.defaults)
      {
        DefaultedCarries(b.evaluations[i], b.defaults, toDouble);
      }
      if ClearsContext(b) {
        var i :| 0 <= i < |b.evaluations| && Clears(b.evaluations[i], b.defaults);
        assert xs[i] != ys[i];
      }
    }
  }

  /** Every request the batch resolves to can make the trip when the batch can. */
  lemma ResolvedCanBeCarried(b: BatchValue, toDouble: int -> real, i: nat)
    requires Trip(b, toDouble).Ok? && i < |Resolution(b)|
    ensures RequestToProto(Resolution(b)[i], toDouble) == Ok(Carried(Resolution(b)[i], toDouble))
  {
    TripCarries(b, toDouble);
    if b.evaluations != [] {
      DefaultedCanBeCarried(b.evaluations[i], b.defaults, toDouble);
    }
  }

  lemma DefaultedCanBeCarried(e: EvaluationValue, d: EvaluationValue, toDouble: int -> real)
    requires RequestToProto(e, toDouble) == Ok(Carried(e, toDouble)) && RequestToProto(d, toDouble) == Ok(Carried(d, toDouble))
    ensures RequestToProto(Defaulted(e, d), toDouble) == Ok(Carried(Defaulted(e, d), toDouble))
  {
  }

  /** Validation gives the same verdict after the trip, with the same error, exactly when the semantic is known. */
  lemma WireKeepsValidation(b: BatchValue, toDouble: int -> real)
    requires Trip(b, toDouble).Ok?
    ensures ValidateBatch(Trip(b, toDouble).value) == ValidateBatch(b) <==> ValidOptions(b.options)
  {
    TripCarries(b, toDouble);
    var b' := CarriedBatch(b, toDouble);
    SameValidity(b, toDouble);
    SameFirstError(Resolution(b), Resolution(b'), b.evaluations == [], 0);
    FirstErrorFields(Resolution(b'), b.evaluations == [], 0);
  }

  lemma SameValidity(b: BatchValue, toDouble: int -> real)
    ensures var b' := CarriedBatch(b, toDouble);
            && |Resolution(b')| == |Resolution(b)|
            && forall k :: 0 <= k < |Resolution(b)| ==> Validate(Resolution(b)[k]) == Validate(Resolution(b')[k])
  {
    forall k | 0 <= k < |Resolution(b)|
      ensures Validate(Resolution(b)[k]) == Validate(Resolution(CarriedBatch(b, toDouble))[k])
    {
      if b.evaluations == [] {
        CarriedKeepsValidity(b.defaults, toDouble);
      } else {
        DefaultedKeepsValidity(b.evaluations[k], b.defaults, toDouble);
      }
    }
  }

  lemma CarriedKeepsValidity(e: EvaluationValue, toDouble: int -> real)
    ensures Validate(Carried(e, toDouble)) == Validate(e)
  {
  }

  lemma DefaultedKeepsValidity(e: EvaluationValue, d: EvaluationValue, toDouble: int -> real)
    ensures Validate(Defaulted(Carried(e, toDouble), Carried(d, toDouble))) == Validate(Defaulted(e, d))
  {
  }

  lemma {:induction false} SameFirstError(xs: seq<EvaluationValue>, ys: seq<EvaluationValue>, single: bool, i: nat)
    requires |xs| == |ys| && forall k :: 0 <= k < |xs| ==> Validate(xs[k]) == Validate(ys[k])
    ensures FirstError(xs, single, i) == FirstError(ys, single, i)
    decreases |xs| - i
  {
    if i < |xs| {
      SameFirstError(xs, ys, single, i + 1);
    }
  }

  lemma {:induction false} FirstErrorFields(xs: seq<EvaluationValue>, single: bool, i: nat)
    ensures var err := FirstError(xs, single, i);
            err.Some? ==> err.value.error.flaw != InvalidSemantic
    decreases |xs| - i
  {
    if i < |xs| {
      FirstErrorFields(xs, single, i + 1);
    }
  }

  /** The semantic in force is kept exactly when it is a known one. */
  lemma WireKeepsSemantic(b: BatchValue, toDouble: int -> real)
    requires Trip(b, toDouble).Ok?
    ensures SemanticOf(Trip(b, toDouble).value.options) == SemanticOf(b.options) <==> ValidOptions(b.options)
  {
    TripCarries(b, toDouble);
  }

  /** Yet the outcome of the batch is kept for every semantic: an unknown one executes all either way. */
  lemma WireKeepsOutcome(b: BatchValue, toDouble: int -> real, answers: seq<Answer>, s: Settings)
    requires Trip(b, toDouble).Ok?
    ensures Outcome(SemanticOf(Trip(b, toDouble).value.options), answers, s) == Outcome(SemanticOf(b.options), answers, s)
  {
    TripCarries(b, toDouble);
    var x, y := SemanticOf(b.options), SemanticOf(CarriedBatch(b, toDouble).options);
    assert forall d :: Stops(x, d) <==> Stops(y, d);
    SameStops(x, y, answers, 0);
  }

  function AnswersOf(pdp: EvaluationValue -> Answer, es: seq<EvaluationValue>): (answers: seq<Answer>)
    ensures |answers| == |es| && forall i :: 0 <= i < |es| ==> answers[i] == pdp(es[i])
  {
    seq(|es|, i requires 0 <= i < |es| => pdp(es[i]))
  }

  function Evaluated(b: BatchValue, pdp: EvaluationValue -> Answer, s: Settings): Result<seq<Response>, string> {
    Outcome(SemanticOf(b.options), AnswersOf(pdp, Resolution(b)), s)
  }

  /**
   A PDP that answers a request and its JSON form alike evaluates the batch to the
   same outcome before and after the trip, if no member clears a context.
   */
  lemma {:induction false} WireKeepsEvaluation(b: BatchValue, toDouble: int -> real, pdp: EvaluationValue -> Answer, s: Settings)
    requires Trip(b, toDouble).Ok? && !ClearsContext(b)
    requires forall e :: e in Resolution(b) ==> pdp(Carried(e, toDouble)) == pdp(e)
    ensures Evaluated(Trip(b, toDouble).value, pdp, s) == Evaluated(b, pdp, s)
  {
    WireCommutesWithDefaulting(b, toDouble);
    assert AnswersOf(pdp, CarriedAll(Resolution(b), toDouble)) == AnswersOf(pdp, Resolution(b));
    WireKeepsOutcome(b, toDouble, AnswersOf(pdp, Resolution(b)), s);
  }

  lemma {:induction false} SameStops(x: string, y: string, answers: seq<Answer>, k: nat)
    requires k <= |answers| && forall d :: Stops(x, d) <==> Stops(y, d)
    ensures AskedFrom(x, answers, k) == AskedFrom(y, answers, k)
    decreases |answers| - k
  {
    if k < |answers| {
      SameStops(x, y, answers, k + 1);
    }
  }

  lemma StructTwice(m: Properties, toDouble: int -> real)
    ensures Struct(CarriedMap(m, toDouble), toDouble) == Ok(CarriedMap(m, toDouble))
  {
    if m.Some? && m.value != map[] {
      DecodedKeepsEmptiness(m.value, toDouble);
      DecodedTwice(Object(m.value), toDouble);
    }
  }

  lemma RequestTwice(e: EvaluationValue, toDouble: int -> real)
    ensures RequestToProto(Carried(e, toDouble), toDouble) == Ok(Carried(e, toDouble))
  {
    StructTwice(e.context, toDouble);
    if e.subject.Some? {
      StructTwice(e.subject.value.properties, toDouble);
    }
    if e.action.Some? {
      StructTwice(e.action.value.properties, toDouble);
    }
    if e.resource.Some? {
      StructTwice(e.resource.value.properties, toDouble);
    }
  }

  lemma {:induction false} MembersTwice(es: seq<EvaluationValue>, toDouble: int -> real)
    ensures MembersToProto(CarriedAll(es, toDouble), toDouble) == Ok(CarriedAll(es, toDouble))
  {
    if es != [] {
      RequestTwice(es[0], toDouble);
      MembersTwice(es[1..], toDouble);
      CarriedCons(es, toDouble);
    }
  }

  /** A second trip always succeeds and changes nothing. */
  lemma WireIsIdempotent(b: BatchValue, toDouble: int -> real)
    requires Trip(b, toDouble).Ok?
    ensures Trip(Trip(b, toDouble).value, toDouble) == Trip(b, toDouble)
  {
    TripCarries(b, toDouble);
    RequestTwice(b.defaults, toDouble);
    MembersTwice(b.evaluations, toDouble);
    if b.options.Some? {
      StructTwice(b.options.value.additional, toDouble);
      SemanticTwice(b.options.value.semantic);
    }
  }

  lemma SemanticTwice(semantic: string)
    ensures var once := SemanticFromProto(SemanticToProto(semantic));
            SemanticFromProto(SemanticToProto(once)) == once
  {
  }

  // ---- the trip field by field

  /** Nothing in the map is rejected by encoding/json. */
  predicate CanTravel(m: Properties) {
    m.None? || forall k | k in m.value :: Encodable(m.value[k])
  }

  predicate RequestCanTravel(e: EvaluationValue) {
    && (e.subject.Some? ==> CanTravel(e.subject.value.properties))
    && (e.action.Some? ==> CanTravel(e.action.value.properties))
    && (e.resource.Some? ==> CanTravel(e.resource.value.properties))
    && CanTravel(e.context)
  }

  /** A batch can be converted exactly when every one of its maps can be encoded. */
  lemma TripExactlyWhen(b: BatchValue, toDouble: int -> real)
    ensures Trip(b, toDouble).Ok? <==>
            && RequestCanTravel(b.defaults)
            && (forall e :: e in b.evaluations ==> RequestCanTravel(e))
            && (b.options.Some? ==> CanTravel(b.options.value.additional))
  {
    RequestExactlyWhen(b.defaults, toDouble);
    MembersExactlyWhen(b.evaluations, toDouble);
    assert forall i :: 0 <= i < |b.evaluations| ==> b.evaluations[i] in b.evaluations;
    if b.options.Some? {
      MapExactlyWhen(b.options.value.additional, toDouble);
    }
  }

  lemma MapExactlyWhen(m: Properties, toDouble: int -> real)
    ensures Struct(m, toDouble).Ok? <==> CanTravel(m)
  {
  }

  lemma RequestExactlyWhen(e: EvaluationValue, toDouble: int -> real)
    ensures RequestToProto(e, toDouble).Ok? <==> RequestCanTravel(e)
  {
    MapExactlyWhen(e.context, toDouble);
    if e.subject.Some? {
      MapExactlyWhen(e.subject.value.properties, toDouble);
    }
    if e.action.Some? {
      MapExactlyWhen(e.action.value.properties, toDouble);
    }
    if e.resource.Some? {
      MapExactlyWhen(e.resource.value.properties, toDouble);
    }
  }

  lemma {:induction false} MembersExactlyWhen(es: seq<EvaluationValue>, toDouble: int -> real)
    ensures MembersToProto(es, toDouble).Ok? <==> forall i :: 0 <= i < |es| ==> RequestCanTravel(es[i])
  {
    if es != [] {
      RequestExactlyWhen(es[0], toDouble);
      MembersExactlyWhen(es[1..], toDouble);
      assert forall i :: 1 <= i < |es| ==> es[i] == es[1..][i - 1];
    }
  }

  /** What arrives for a map: nothing for an empty one, and otherwise the same keys with their JSON values. */
  predicate Arrives(m: Properties, w: Properties, toDouble: int -> real) {
    if m.None? || |m.value| == 0 then w == None
    else w.Some? && w.value.Keys == m.value.Keys && forall k | k in m.value :: JsonOf(m.value[k], w.value[k], toDouble)
  }

  predicate RequestArrives(e: EvaluationValue, w: EvaluationValue, toDouble: int -> real) {
    && (if e.subject.None? then w.subject.None?
        else w.subject.Some? && w.subject.value.kind == e.subject.value.kind && w.subject.value.id == e.subject.value.id
             && Arrives(e.subject.value.properties, w.subject.value.properties, toDouble))
    && (if e.action.None? then w.action.None?
        else w.action.Some? && w.action.value.name == e.action.value.name
             && Arrives(e.action.value.properties, w.action.value.properties, toDouble))
    && (if e.resource.None? then w.resource.None?
        else w.resource.Some? && w.resource.value.kind == e.resource.value.kind && w.resource.value.id == e.resource.value.id
             && Arrives(e.resource.value.properties, w.resource.value.properties, toDouble))
    && Arrives(e.context, w.context, toDouble)
  }

  predicate OptionsArrive(o: Option<OptionsValue>, w: Option<OptionsValue>, toDouble: int -> real) {
    if o.None? then w.None?
    else
      && w.Some? && Arrives(o.value.additional, w.value.additional, toDouble)
      && w.value.semantic == if o.value.semantic == "execute_all" || o.value.semantic == "deny_on_first_deny"
                                || o.value.semantic == "permit_on_first_permit" then o.value.semantic else ""
  }

  /** What arrives of a batch. */
  lemma TripFieldByField(b: BatchValue, toDouble: int -> real)
    requires Trip(b, toDouble).Ok?
    ensures var w := Trip(b, toDouble).value;
            && RequestArrives(b.defaults, w.defaults, toDouble)
            && |w.evaluations| == |b.evaluations|
            && (forall i :: 0 <= i < |b.evaluations| ==> RequestArrives(b.evaluations[i], w.evaluations[i], toDouble))
            && OptionsArrive(b.options, w.options, toDouble)
  {
    TripCarries(b, toDouble);
    CarriedArrives(b.defaults, toDouble);
    forall i | 0 <= i < |b.evaluations|
      ensures RequestArrives(b.evaluations[i], Carried(b.evaluations[i], toDouble), toDouble)
    {
      CarriedArrives(b.evaluations[i], toDouble);
    }
    if b.options.Some? {
      MapArrives(b.options.value.additional, toDouble);
    }
  }

  lemma MapArrives(m: Properties, toDouble: int -> real)
    ensures Arrives(m, CarriedMap(m, toDouble), toDouble)
  {
    if m.Some? && |m.value| != 0 {
      var d := Decoded(Object(m.value), toDouble).m;
      forall k | k in m.value
        ensures JsonOf(m.value[k], d[k], toDouble)
      {
        DecodedIsJsonOf(m.value[k], d[k], toDouble);
      }
    }
  }

  lemma CarriedArrives(e: EvaluationValue, toDouble: int -> real)
    ensures RequestArrives(e, Carried(e, toDouble), toDouble)
  {
    MapArrives(e.context, toDouble);
    if e.subject.Some? {
      MapArrives(e.subject.value.properties, toDouble);
    }
    if e.action.Some? {
      MapArrives(e.action.value.properties, toDouble);
    }
    if e.resource.Some? {
      MapArrives(e.resource.value.properties, toDouble);
    }
  }

  // ---- concrete batches

  const CALLER_CONTEXT: Props := map["ip" := Str("192.0.2.1")]

  /** A member with an empty context under a context of the batch. */
  const CLEARING := BatchValue(EvaluationValue(None, None, None, Some(CALLER_CONTEXT)),
                               [EvaluationValue(None, None, None, Some(map[]))], None)

  /** The member was to see no context; after the trip it sees that of the batch. */
  lemma ClearingIsLost(toDouble: int -> real)
    ensures ClearsContext(CLEARING) && Trip(CLEARING, toDouble).Ok?
    ensures Resolution(CLEARING)[0].context == Some(map[])
    ensures Resolution(Trip(CLEARING, toDouble).value)[0].context == Some(CALLER_CONTEXT)
  {
    assert "ip" in CALLER_CONTEXT;
    assert Clears(CLEARING.evaluations[0], CLEARING.defaults);
    assert IsJson(Object(CALLER_CONTEXT));
    JsonIsKept(Object(CALLER_CONTEXT), toDouble);
    assert MembersToProto(CLEARING.evaluations[1..], toDouble) == Ok([]);
    TripCarries(CLEARING, toDouble);
  }

  const WHOLE_REQUEST := EvaluationValue(Some(SubjectValue("user", "alice", None)), Some(ActionValue("read", None)),
                                         Some(ResourceValue("doc", "1", None)), None)

  /** A semantic that is not defined. */
  const MISSPELT := BatchValue(WHOLE_REQUEST, [], Some(OptionsValue("deny_first", None)))

  /** It is rejected before the trip and accepted after it. */
  lemma MisspeltIsForgiven(toDouble: int -> real)
    ensures Trip(MISSPELT, toDouble).Ok?
    ensures ValidateBatch(MISSPELT).Some? && ValidateBatch(Trip(MISSPELT, toDouble).value).None?
  {
    TripCarries(MISSPELT, toDouble);
  }
}
