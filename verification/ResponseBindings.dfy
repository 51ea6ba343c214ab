/**
 The two bindings of a batch response (evaluations.go and grpc/conv.go): JSON,
 which has a shape for a single decision and one for a batch, and gRPC, which
 has the batch only.
 */
module ResponseBindings {
  import opened Wrappers
  import opened Values
  import opened Evaluations
  import opened WireCodec

  /** Either shape, or both; None is a nil slice. */
  datatype BatchResponse = BatchResponse(
    decision: Option<bool>,
    context: Properties,
    evaluations: Option<seq<Response>>)
  {
    function Members(): seq<Response> {
      if evaluations.None? then [] else evaluations.value
    }

    /** What a client reads off the response: the single decision, or the members. */
    function Items(): seq<Response> {
      if decision.Some? then [Response(decision.value, context)] else Members()
    }

    predicate BothShapes() {
      decision.Some? && Members() != []
    }
  }

  // ---- JSON: one document, encoded or rejected as a whole

  /** The JSON object of one decision; an empty context is omitted. */
  function ItemObject(r: Response): Props {
    map["decision" := Bool(r.decision)]
    + (if r.context.None? || r.context.value == map[] then map[] else map["context" := Object(r.context.value)])
  }

  function ItemValues(rs: seq<Response>): (vs: seq<Any>)
    ensures |vs| == |rs| && forall i :: 0 <= i < |vs| ==> vs[i] == Object(ItemObject(rs[i]))
  {
    seq(|rs|, i requires 0 <= i < |rs| => Object(ItemObject(rs[i])))
  }

  /** What MarshalJSON encodes: a single decision, or else an array, never null. */
  function Marshalled(r: BatchResponse): Any {
    if r.decision.Some? then Object(ItemObject(Response(r.decision.value, r.context)))
    else Object(map["evaluations" := List(ItemValues(r.Members()))])
  }

  datatype WrongType = WrongType

  /** A member of the object that is there and not null. */
  function Field(m: Props, key: string): Option<Any> {
    if key in m && !m[key].Null? then Some(m[key]) else None
  }

  function ReadItem(v: Any): Result<Response, WrongType> {
    match v
    case Null => Ok(Response(false, None))
    case Object(m) =>
      var d, c := Field(m, "decision"), Field(m, "context");
      if (d.Some? && !d.value.Bool?) || (c.Some? && !c.value.Object?) then Err(WrongType)
      else Ok(Response(d.Some? && d.value.b, if c.Some? then Some(c.value.m) else None))
    case _ => Err(WrongType)
  }

  function ReadItems(vs: seq<Any>): Result<seq<Response>, WrongType> {
    if vs == [] then Ok([])
    else
      var first := ReadItem(vs[0]);
      var rest := ReadItems(vs[1..]);
      if first.Err? || rest.Err? then Err(WrongType) else Ok([first.value] + rest.value)
  }

  /** The struct that UnmarshalJSON decodes into first. */
  function Raw(data: Any): Result<BatchResponse, WrongType> {
    match data
    case Null => Ok(BatchResponse(None, None, None))
    case Object(m) =>
      var d, c, e := Field(m, "decision"), Field(m, "context"), Field(m, "evaluations");
      if (d.Some? && !d.value.Bool?) || (c.Some? && !c.value.Object?) || (e.Some? && !e.value.List?) then Err(WrongType)
      else
        var es := if e.Some? then ReadItems(e.value.items) else Ok([]);
        if es.Err? then Err(WrongType)
        else
          Ok(BatchResponse(if d.Some? then Some(d.value.b) else None,
                           if c.Some? then Some(c.value.m) else None,
                           if e.Some? then Some(es.value) else None))
    case _ => Err(WrongType)
  }

  /**
   UnmarshalJSON: an evaluations array is the batch, and a client reads its items
   whatever else the document says; a document without one is a single decision.
   The result never sets both shapes.
   */
  method UnmarshalJSON(data: Any) returns (r: Result<BatchResponse, WrongType>)
    ensures r == FromJson(data)
    ensures r.Ok? <==> Raw(data).Ok?
    ensures r.Ok? ==> !r.value.BothShapes()
    ensures r.Ok? && data.Object? && Field(data.m, "evaluations").Some? ==>
              Ok(r.value.Items()) == ReadItems(Field(data.m, "evaluations").value.items)
    ensures r.Ok? && data.Object? && Field(data.m, "evaluations").None? ==>
              r.value.Items() == if Field(data.m, "decision").None? then [] else [ReadItem(data).value]
  {
    var raw := Raw(data);
    if raw.Err? {
      return Err(raw.error);
    }
    var out := BatchResponse(None, None, None);
    if raw.value.evaluations.Some? {
      out := out.(evaluations := raw.value.evaluations);
    } else {
      out := out.(decision := raw.value.decision);
      out := out.(context := raw.value.context);
    }
    r := Ok(out);
  }

  function FromJson(data: Any): Result<BatchResponse, WrongType> {
    var raw := Raw(data);
    if raw.Err? then raw
    else if raw.value.evaluations.Some? then Ok(BatchResponse(None, None, raw.value.evaluations))
    else Ok(BatchResponse(raw.value.decision, raw.value.context, None))
  }

  datatype JsonError = EncodeError | DecodeError

  /** Encoding the response and decoding it again. */
  function OverJson(r: BatchResponse, toDouble: int -> real): Result<BatchResponse, JsonError> {
    if !Encodable(Marshalled(r)) then Err(EncodeError)
    else
      var back := FromJson(Decoded(Marshalled(r), toDouble));
      if back.Err? then Err(DecodeError) else Ok(back.value)
  }

  // ---- gRPC: message by message, up to the first that fails

  function ResponseToProto(r: Response, toDouble: int -> real): Result<Response, Failure> {
    var c := Struct(r.context, toDouble);
    if c.Err? then Err(c.error) else Ok(Response(r.decision, c.value))
  }

  function ResponsesToProto(rs: seq<Response>, toDouble: int -> real): Result<seq<Response>, Failure> {
    if rs == [] then Ok([])
    else
      var first := ResponseToProto(rs[0], toDouble);
      var rest := ResponsesToProto(rs[1..], toDouble);
      if first.Err? || rest.Err? then Err(NotEncodable) else Ok([first.value] + rest.value)
  }

  /** A single decision travels as a batch of one, unless there are members too. */
  function OnTheWire(r: BatchResponse): seq<Response> {
    if r.decision.Some? && r.Members() == [] then [Response(r.decision.value, r.context)] else r.Members()
  }

  function OverGrpc(r: BatchResponse, toDouble: int -> real): Result<BatchResponse, Failure> {
    var es := ResponsesToProto(OnTheWire(r), toDouble);
    if es.Err? then Err(es.error) else Ok(BatchResponse(None, None, Some(es.value)))
  }

  /** evaluationsResponseToProto. */
  method EvaluationsResponseToProto(r: BatchResponse, toDouble: int -> real) returns (w: Result<seq<Response>, Failure>)
    ensures w == ResponsesToProto(OnTheWire(r), toDouble)
  {
    if r.decision.Some? && |r.Members()| == 0 {
      OneResponse(Response(r.decision.value, r.context), toDouble);
      var single := ResponseToProto(Response(r.decision.value, r.context), toDouble);
      if single.Err? {
        return Err(NotEncodable);
      }
      return Ok([single.value]);
    }
    var rs := r.Members();
    var out := [];
    assert rs[0..] == rs;
    assert forall rest: seq<Response> :: [] + rest == rest;
    for i := 0 to |rs|
      invariant ResponsesToProto(rs, toDouble) == Prefixed(out, ResponsesToProto(rs[i..], toDouble))
    {
      var m := ResponseToProto(rs[i], toDouble);
      assert rs[i..][1..] == rs[i + 1..];
      if m.Err? {
        return Err(NotEncodable);
      }
      PrefixedMore(out, m.value, ResponsesToProto(rs[i + 1..], toDouble));
      out := out + [m.value];
    }
    assert rs[|rs|..] == [] && out + [] == out;
    w := Ok(out);
  }

  lemma OneResponse(r: Response, toDouble: int -> real)
    ensures var c := Struct(r.context, toDouble);
            ResponsesToProto([r], toDouble) == if c.Err? then Err(NotEncodable) else Ok([Response(r.decision, c.value)])
  {
    assert ResponsesToProto([r][1..], toDouble) == Ok([]);
    var c := Struct(r.context, toDouble);
    assert c.Err? ==> c.error == NotEncodable;
    assert c.Ok? ==> [Response(r.decision, c.value)] + [] == [Response(r.decision, c.value)];
  }

  // ---- what either trip makes of the responses

  predicate CanEncode(r: Response) {
    r.context.None? || Encodable(Object(r.context.value))
  }

  function CarriedResponse(r: Response, toDouble: int -> real): Response {
    Response(r.decision, CarriedMap(r.context, toDouble))
  }

  function CarriedResponses(rs: seq<Response>, toDouble: int -> real): (out: seq<Response>)
    ensures |out| == |rs| && forall i :: 0 <= i < |out| ==> out[i] == CarriedResponse(rs[i], toDouble)
  {
    seq(|rs|, i requires 0 <= i < |rs| => CarriedResponse(rs[i], toDouble))
  }

  lemma CarriedResponsesCons(rs: seq<Response>, toDouble: int -> real)
    requires rs != []
    ensures CarriedResponses(rs, toDouble) == [CarriedResponse(rs[0], toDouble)] + CarriedResponses(rs[1..], toDouble)
  {
  }

  /** Over gRPC the first failure stops the conversion; it succeeds exactly when every response can be encoded. */
  lemma {:induction false} GrpcCarries(rs: seq<Response>, toDouble: int -> real)
    ensures ResponsesToProto(rs, toDouble)
         == if forall i :: 0 <= i < |rs| ==> CanEncode(rs[i]) then Ok(CarriedResponses(rs, toDouble)) else Err(NotEncodable)
  {
    if rs != [] {
      GrpcCarries(rs[1..], toDouble);
      CarriedResponsesCons(rs, toDouble);
      assert forall i :: 1 <= i < |rs| ==> rs[i] == rs[1..][i - 1];
      assert (forall i :: 0 <= i < |rs| ==> CanEncode(rs[i]))
         <==> CanEncode(rs[0]) && forall i :: 0 <= i < |rs[1..]| ==> CanEncode(rs[1..][i]);
    }
  }

  lemma ItemTrip(r: Response, toDouble: int -> real)
    ensures Encodable(Object(ItemObject(r))) <==> CanEncode(r)
    ensures ReadItem(Decoded(Object(ItemObject(r)), toDouble)) == Ok(CarriedResponse(r, toDouble))
  {
    var o := ItemObject(r);
    var d := Decoded(Object(o), toDouble).m;
    assert o["decision"] == Bool(r.decision);
    assert d["decision"] == Decoded(o["decision"], toDouble) == Bool(r.decision);
    if r.context.Some? && r.context.value != map[] {
      assert o["context"] == Object(r.context.value);
      assert d["context"] == Decoded(Object(r.context.value), toDouble);
    }
  }

  lemma {:induction false} ItemsTrip(rs: seq<Response>, vs: seq<Any>, toDouble: int -> real)
    requires |vs| == |rs| && forall i :: 0 <= i < |rs| ==> vs[i] == Decoded(Object(ItemObject(rs[i])), toDouble)
    ensures ReadItems(vs) == Ok(CarriedResponses(rs, toDouble))
  {
    if rs != [] {
      ItemTrip(rs[0], toDouble);
      ItemsTrip(rs[1..], vs[1..], toDouble);
      CarriedResponsesCons(rs, toDouble);
    }
  }

  lemma ArrayTrip(rs: seq<Response>, toDouble: int -> real)
    ensures var v := Object(map["evaluations" := List(ItemValues(rs))]);
            && (Encodable(v) <==> forall i :: 0 <= i < |rs| ==> CanEncode(rs[i]))
            && FromJson(Decoded(v, toDouble)) == Ok(BatchResponse(None, None, Some(CarriedResponses(rs, toDouble))))
  {
    var l := List(ItemValues(rs));
    OneField("evaluations", l, toDouble);
    forall i | 0 <= i < |rs|
      ensures Encodable(ItemValues(rs)[i]) <==> CanEncode(rs[i])
    {
      ItemTrip(rs[i], toDouble);
    }
    ListEncodes(ItemValues(rs));
    ListDecodes(ItemValues(rs), toDouble);
    ItemsTrip(rs, Decoded(l, toDouble).items, toDouble);
    ReadArray(Decoded(l, toDouble));
  }

  lemma OneField(key: string, v: Any, toDouble: int -> real)
    ensures Encodable(Object(map[key := v])) <==> Encodable(v)
    ensures Decoded(Object(map[key := v]), toDouble) == Object(map[key := Decoded(v, toDouble)])
  {
    var m := map[key := v];
    assert Encodable(Object(m)) <==> Encodable(m[key]);
    assert Decoded(Object(m), toDouble).m == map[key := Decoded(v, toDouble)];
  }

  lemma ListEncodes(vs: seq<Any>)
    ensures Encodable(List(vs)) <==> forall i :: 0 <= i < |vs| ==> Encodable(vs[i])
  {
  }

  lemma ListDecodes(vs: seq<Any>, toDouble: int -> real)
    ensures var d := Decoded(List(vs), toDouble);
            d.List? && |d.items| == |vs| && forall i :: 0 <= i < |vs| ==> d.items[i] == Decoded(vs[i], toDouble)
  {
  }

  lemma ReadArray(l: Any)
    requires l.List? && ReadItems(l.items).Ok?
    ensures FromJson(Object(map["evaluations" := l])) == Ok(BatchResponse(None, None, Some(ReadItems(l.items).value)))
  {
    var m := map["evaluations" := l];
    assert Field(m, "decision") == None && Field(m, "context") == None && Field(m, "evaluations") == Some(l);
  }

  /** A single decision or the members, all or nothing: that is what JSON carries. */
  lemma JsonCarries(r: BatchResponse, toDouble: int -> real)
    ensures OverJson(r, toDouble)
         == if exists x :: x in r.Items() && !CanEncode(x) then Err(EncodeError)
            else if r.decision.Some? then Ok(BatchResponse(r.decision, CarriedMap(r.context, toDouble), None))
            else Ok(BatchResponse(None, None, Some(CarriedResponses(r.Members(), toDouble))))
  {
    if r.decision.Some? {
      SingleTrip(Response(r.decision.value, r.context), toDouble);
    } else {
      ArrayTrip(r.Members(), toDouble);
      assert forall i :: 0 <= i < |r.Members()| ==> r.Members()[i] in r.Items();
    }
  }

  lemma SingleTrip(x: Response, toDouble: int -> real)
    ensures FromJson(Decoded(Object(ItemObject(x)), toDouble))
         == Ok(BatchResponse(Some(x.decision), CarriedMap(x.context, toDouble), None))
    ensures Encodable(Object(ItemObject(x))) <==> CanEncode(x)
  {
    ItemTrip(x, toDouble);
    var d := Decoded(Object(ItemObject(x)), toDouble).m;
    assert d.Keys == ItemObject(x).Keys && "evaluations" !in d;
    assert d["decision"] == Bool(x.decision);
  }

  // ---- the bindings agree

  /** Unless a response sets both shapes, both bindings carry it or neither does, and a client reads the same from both. */
  lemma BindingsAgree(r: BatchResponse, toDouble: int -> real)
    requires !r.BothShapes()
    ensures OverJson(r, toDouble).Ok? <==> OverGrpc(r, toDouble).Ok?
    ensures OverJson(r, toDouble).Ok? ==> OverJson(r, toDouble).value.Items() == OverGrpc(r, toDouble).value.Items()
  {
    JsonCarries(r, toDouble);
    GrpcCarries(OnTheWire(r), toDouble);
    assert r.Items() == OnTheWire(r);
    assert forall i :: 0 <= i < |r.Items()| ==> r.Items()[i] in r.Items();
    if OverJson(r, toDouble).Ok? {
      assert OverJson(r, toDouble).value.Items() == CarriedResponses(r.Items(), toDouble);
    }
  }

  function Decisions(rs: seq<Response>): (ds: seq<bool>)
    ensures |ds| == |rs| && forall i :: 0 <= i < |rs| ==> ds[i] == rs[i].decision
  {
    seq(|rs|, i requires 0 <= i < |rs| => rs[i].decision)
  }

  /**
   When both bindings can carry a response, they show the same decisions exactly
   when it does not set both shapes, or its one member repeats its single decision.
   */
  lemma DecisionsAgreeExactly(r: BatchResponse, toDouble: int -> real)
    requires OverJson(r, toDouble).Ok? && OverGrpc(r, toDouble).Ok?
    ensures Decisions(OverJson(r, toDouble).value.Items()) == Decisions(OverGrpc(r, toDouble).value.Items())
       <==> (r.BothShapes() ==> |r.Members()| == 1 && r.Members()[0].decision == r.decision.value)
  {
    if r.BothShapes() {
      JsonCarries(r, toDouble);
      GrpcCarries(r.Members(), toDouble);
      var j, g := OverJson(r, toDouble).value.Items(), OverGrpc(r, toDouble).value.Items();
      assert Decisions(j) == [r.decision.value];
      assert Decisions(g) == Decisions(r.Members());
      if |r.Members()| == 1 && r.Members()[0].decision == r.decision.value {
        assert Decisions(r.Members()) == [r.decision.value];
      } else {
        assert |Decisions(r.Members())| == 1 ==> Decisions(r.Members())[0] != [r.decision.value][0];
      }
    } else {
      BindingsAgree(r, toDouble);
    }
  }

  lemma CarriedTwice(r: Response, toDouble: int -> real)
    ensures CanEncode(CarriedResponse(r, toDouble))
    ensures CarriedResponse(CarriedResponse(r, toDouble), toDouble) == CarriedResponse(r, toDouble)
  {
    StructTwice(r.context, toDouble);
  }

  lemma CarriedAllTwice(rs: seq<Response>, toDouble: int -> real)
    ensures forall i :: 0 <= i < |rs| ==> CanEncode(CarriedResponses(rs, toDouble)[i])
    ensures CarriedResponses(CarriedResponses(rs, toDouble), toDouble) == CarriedResponses(rs, toDouble)
  {
    forall i | 0 <= i < |rs|
      ensures CanEncode(CarriedResponses(rs, toDouble)[i])
      ensures CarriedResponse(CarriedResponses(rs, toDouble)[i], toDouble) == CarriedResponses(rs, toDouble)[i]
    {
      CarriedTwice(rs[i], toDouble);
    }
  }

  /** A second trip over the same binding changes nothing. */
  lemma BindingsAreIdempotent(r: BatchResponse, toDouble: int -> real)
    ensures var j := OverJson(r, toDouble); j.Ok? ==> OverJson(j.value, toDouble) == j
    ensures var g := OverGrpc(r, toDouble); g.Ok? ==> OverGrpc(g.value, toDouble) == g
  {
    var j, g := OverJson(r, toDouble), OverGrpc(r, toDouble);
    CarriedAllTwice(r.Members(), toDouble);
    CarriedAllTwice(OnTheWire(r), toDouble);
    JsonCarries(r, toDouble);
    if j.Ok? {
      JsonCarries(j.value, toDouble);
      if r.decision.Some? {
        CarriedTwice(Response(r.decision.value, r.context), toDouble);
      }
    }
    GrpcCarries(OnTheWire(r), toDouble);
    if g.Ok? {
      GrpcCarries(g.value.Members(), toDouble);
    }
  }

  // ---- the documents key by key

  /** The key is there, with a value other than null. */
  predicate Has(m: Props, key: string) {
    key in m && m[key] != Null
  }

  /** The document v is one decision r; without a decision of its own it is a deny. */
  predicate ReadsAs(v: Any, r: Response) {
    match v
    case Null => !r.decision && r.context == None
    case Object(m) =>
      && (if Has(m, "decision") then m["decision"] == Bool(r.decision) else !r.decision)
      && (if Has(m, "context") then r.context.Some? && m["context"] == Object(r.context.value) else r.context == None)
    case _ => false
  }

  /** Each member is read by itself, and one without a decision as a deny. */
  lemma ItemIsRead(v: Any, r: Response)
    ensures ReadItem(v) == Ok(r) <==> ReadsAs(v, r)
  {
  }

  lemma {:induction false} ItemsAreRead(vs: seq<Any>, rs: seq<Response>)
    ensures ReadItems(vs) == Ok(rs) <==> |vs| == |rs| && forall i :: 0 <= i < |vs| ==> ReadsAs(vs[i], rs[i])
  {
    if vs != [] && rs != [] {
      ItemIsRead(vs[0], rs[0]);
      ItemsAreRead(vs[1..], rs[1..]);
      assert rs == [rs[0]] + rs[1..];
      assert forall i :: 1 <= i < |vs| ==> vs[i] == vs[1..][i - 1];
      assert forall i :: 1 <= i < |rs| ==> rs[i] == rs[1..][i - 1];
      if ReadItems(vs) == Ok(rs) {
        assert ReadItems(vs).value[1..] == ReadItems(vs[1..]).value;
      }
    }
  }

  /** The top-level decision and context, where they are given, are of the right type. */
  predicate WellTyped(m: Props) {
    && (Has(m, "decision") ==> m["decision"].Bool?)
    && (Has(m, "context") ==> m["context"].Object?)
  }

  /** The document is the response r: the members if it has an array of them, and the single decision otherwise. */
  predicate DocumentReadsAs(data: Any, r: BatchResponse) {
    match data
    case Null => r == BatchResponse(None, None, None)
    case Object(m) =>
      WellTyped(m) &&
      if Has(m, "evaluations") then
        && r.decision == None && r.context == None
        && m["evaluations"].List? && r.evaluations.Some? && |r.evaluations.value| == |m["evaluations"].items|
        && forall i :: 0 <= i < |r.evaluations.value| ==> ReadsAs(m["evaluations"].items[i], r.evaluations.value[i])
      else
        && r.evaluations == None
        && r.decision == (if Has(m, "decision") then Some(m["decision"].b) else None)
        && r.context == (if Has(m, "context") then Some(m["context"].m) else None)
    case _ => false
  }

  lemma DocumentIsRead(data: Any, r: BatchResponse)
    ensures FromJson(data) == Ok(r) <==> DocumentReadsAs(data, r)
  {
    if data.Object? && Has(data.m, "evaluations") && data.m["evaluations"].List? {
      var items := data.m["evaluations"].items;
      if r.evaluations.Some? {
        ItemsAreRead(items, r.evaluations.value);
      }
    }
  }

  /** The object of one decision: the decision, and the context unless that is empty. */
  predicate Says(m: Props, r: Response) {
    && "decision" in m && m["decision"] == Bool(r.decision)
    && (if r.context.None? || |r.context.value| == 0 then m.Keys == {"decision"}
        else m.Keys == {"decision", "context"} && m["context"] == Object(r.context.value))
  }

  lemma ItemSays(r: Response)
    ensures Says(ItemObject(r), r)
  {
  }

  /** A single decision is sent as its object, and anything else as an object with nothing but the array of members. */
  lemma DocumentIsSent(r: BatchResponse)
    ensures Marshalled(r).Object?
    ensures var m := Marshalled(r).m;
            if r.decision.Some? then Says(m, Response(r.decision.value, r.context))
            else
              var rs := if r.evaluations.Some? then r.evaluations.value else [];
              && m.Keys == {"evaluations"} && m["evaluations"].List? && |m["evaluations"].items| == |rs|
              && forall i :: 0 <= i < |rs| ==> m["evaluations"].items[i].Object? && Says(m["evaluations"].items[i].m, rs[i])
  {
    if r.decision.Some? {
      ItemSays(Response(r.decision.value, r.context));
    } else {
      forall i | 0 <= i < |r.Members()|
        ensures Says(ItemObject(r.Members()[i]), r.Members()[i])
      {
        ItemSays(r.Members()[i]);
      }
    }
  }

  /** Over gRPC only members arrive; a single decision without members is one of them. */
  lemma GrpcMemberByMember(r: BatchResponse, toDouble: int -> real)
    requires OverGrpc(r, toDouble).Ok?
    ensures var w := OverGrpc(r, toDouble).value;
            var members := if r.evaluations.Some? then r.evaluations.value else [];
            var sent := if r.decision.Some? && members == [] then [Response(r.decision.value, r.context)] else members;
            && w.decision == None && w.context == None && w.evaluations.Some? && |w.evaluations.value| == |sent|
            && forall i :: 0 <= i < |sent| ==>
                 && w.evaluations.value[i].decision == sent[i].decision
                 && Arrives(sent[i].context, w.evaluations.value[i].context, toDouble)
  {
    var sent := OnTheWire(r);
    GrpcCarries(sent, toDouble);
    forall i | 0 <= i < |sent|
      ensures Arrives(sent[i].context, CarriedResponse(sent[i], toDouble).context, toDouble)
    {
      MapArrives(sent[i].context, toDouble);
    }
  }

  /** A permit and a denying member in one response. */
  const TWO_SHAPES := BatchResponse(Some(true), None, Some([Response(false, None)]))

  /** JSON shows the permit, gRPC the deny. */
  lemma TwoShapesDiffer(toDouble: int -> real)
    ensures OverJson(TWO_SHAPES, toDouble).Ok? && OverGrpc(TWO_SHAPES, toDouble).Ok?
    ensures OverJson(TWO_SHAPES, toDouble).value.Items() == [Response(true, None)]
    ensures OverGrpc(TWO_SHAPES, toDouble).value.Items() == [Response(false, None)]
  {
    JsonCarries(TWO_SHAPES, toDouble);
    OneResponse(Response(false, None), toDouble);
  }
}
