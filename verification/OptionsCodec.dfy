/** The JSON form of batch options (evaluations.go): one object with a reserved key. */
module OptionsCodec {
  import opened Wrappers
  import opened Values
  import opened Evaluations
  import opened WireCodec

  const RESERVED := "evaluations_semantic"

  /** The object that stands for the options. */
  function OptionsObject(o: OptionsValue): Props {
    (if o.additional.None? then map[] else o.additional.value)
    + (if o.semantic != "" then map[RESERVED := Str(o.semantic)] else map[])
  }

  /** MarshalJSON, up to the encoding: a copy, and the reserved key over it. */
  method Marshal(o: OptionsValue) returns (m: Props)
    ensures m == OptionsObject(o)
  {
    m := CopyMap(if o.additional.None? then map[] else o.additional.value);
    if o.semantic != "" {
      m := m[RESERVED := Str(o.semantic)];
    }
  }

  /** The copying loop, in any order. */
  method CopyMap(from: Props) returns (m: Props)
    ensures m == from
  {
    m := map[];
    var todo := from.Keys;
    while todo != {}
      invariant todo <= from.Keys && m.Keys == from.Keys - todo
      invariant forall k | k in m :: m[k] == from[k]
      decreases |todo|
    {
      var k :| k in todo;
      todo := todo - {k};
      m := m[k := from[k]];
    }
  }

  datatype DecodeError = NotJson | Rejected(error: ValidationError)

  /** What the object stands for; a semantic that is not a string is rejected. */
  function OptionsOf(m: Props): Result<OptionsValue, DecodeError> {
    if RESERVED in m && !m[RESERVED].Str? then
      Err(Rejected(ValidationError("options.evaluations_semantic", InvalidSemantic)))
    else
      var rest := m - {RESERVED};
      Ok(OptionsValue(if RESERVED in m then m[RESERVED].s else "", if rest == map[] then None else Some(rest)))
  }

  /** UnmarshalJSON, once the object is decoded. */
  method Unmarshal(data: Props) returns (r: Result<OptionsValue, DecodeError>)
    ensures r == OptionsOf(data)
  {
    var m := data;
    var o := OptionsValue("", None);
    if RESERVED in m {
      if !m[RESERVED].Str? {
        return Err(Rejected(ValidationError("options.evaluations_semantic", InvalidSemantic)));
      }
      o := o.(semantic := m[RESERVED].s);
      m := m - {RESERVED};
    }
    if |m| > 0 {
      o := o.(additional := Some(m));
    }
    assert m == data - {RESERVED};
    r := Ok(o);
  }

  function OptionsOverJson(o: OptionsValue, toDouble: int -> real): Result<OptionsValue, DecodeError> {
    var m := OptionsObject(o);
    if Encodable(Object(m)) then OptionsOf(Decoded(Object(m), toDouble).m) else Err(NotJson)
  }

  predicate UsesReservedKey(o: OptionsValue) {
    o.additional.Some? && RESERVED in o.additional.value
  }

  lemma DecodedUnion(a: Props, b: Props, toDouble: int -> real)
    ensures Decoded(Object(a + b), toDouble).m == Decoded(Object(a), toDouble).m + Decoded(Object(b), toDouble).m
  {
  }

  lemma WithoutKey(a: Props, b: Props, key: string)
    requires key !in a && b.Keys <= {key}
    ensures a + b - {key} == a
  {
  }

  lemma ObjectOfAdditional(o: OptionsValue, toDouble: int -> real)
    requires !UsesReservedKey(o)
    ensures var d := Decoded(Object(OptionsObject(o)), toDouble).m;
            var a := if o.additional.None? then map[] else o.additional.value;
            && (RESERVED in d <==> o.semantic != "")
            && (o.semantic != "" ==> d[RESERVED] == Str(o.semantic))
            && d - {RESERVED} == Decoded(Object(a), toDouble).m
  {
    var a: Props := if o.additional.None? then map[] else o.additional.value;
    var r: Props := if o.semantic != "" then map[RESERVED := Str(o.semantic)] else map[];
    DecodedUnion(a, r, toDouble);
    ReservedDecodes(o.semantic, toDouble);
    WithoutKey(Decoded(Object(a), toDouble).m, Decoded(Object(r), toDouble).m, RESERVED);
  }

  lemma ReservedDecodes(semantic: string, toDouble: int -> real)
    ensures Decoded(Object(map[RESERVED := Str(semantic)]), toDouble).m == map[RESERVED := Str(semantic)]
    ensures Decoded(Object(map[]), toDouble).m == map[]
  {
    var m := map[RESERVED := Str(semantic)];
    assert Decoded(m[RESERVED], toDouble) == Str(semantic);
  }

  /** Options that can be encoded come back, their numbers as doubles, exactly when they leave the reserved key alone. */
  lemma OptionsRoundTrip(o: OptionsValue, toDouble: int -> real)
    requires Encodable(Object(OptionsObject(o)))
    ensures OptionsOverJson(o, toDouble) == Ok(OptionsValue(o.semantic, CarriedMap(o.additional, toDouble)))
       <==> !UsesReservedKey(o)
  {
    if !UsesReservedKey(o) {
      ObjectOfAdditional(o, toDouble);
      if o.additional.Some? {
        DecodedKeepsEmptiness(o.additional.value, toDouble);
      } else {
        DecodedKeepsEmptiness(map[], toDouble);
      }
    } else {
      assert RESERVED in CarriedMap(o.additional, toDouble).value;
      var r := OptionsOverJson(o, toDouble);
      if r.Ok? && r.value.additional.Some? {
        assert RESERVED !in r.value.additional.value;
      }
    }
  }

  /** What the reserved key among the additional ones does: it is lost under a semantic, and taken for one otherwise. */
  lemma ReservedKeyIsTaken(o: OptionsValue, toDouble: int -> real)
    requires Encodable(Object(OptionsObject(o))) && UsesReservedKey(o)
    ensures var r := OptionsOverJson(o, toDouble);
            if o.semantic != "" then r.Ok? && r.value.semantic == o.semantic
            else
              var v := Decoded(o.additional.value[RESERVED], toDouble);
              if v.Str? then r.Ok? && r.value.semantic == v.s
              else r == Err(Rejected(ValidationError("options.evaluations_semantic", InvalidSemantic)))
  {
    var m := OptionsObject(o);
    assert m[RESERVED] == if o.semantic != "" then Str(o.semantic) else o.additional.value[RESERVED];
    assert Decoded(Object(m), toDouble).m[RESERVED] == Decoded(m[RESERVED], toDouble);
  }

  /** The object has the additional keys, and the semantic, if there is one, under its own. */
  lemma ObjectKeyByKey(o: OptionsValue, k: string)
    ensures var m := OptionsObject(o);
            if k == "evaluations_semantic" && o.semantic != "" then k in m && m[k] == Str(o.semantic)
            else
              && (k in m <==> o.additional.Some? && k in o.additional.value)
              && (k in m ==> m[k] == o.additional.value[k])
  {
  }

  /** Read back, the object gives its reserved key as the semantic and every other one as it is. */
  lemma ReadKeyByKey(m: Props)
    ensures match OptionsOf(m)
            case Err(e) =>
              && "evaluations_semantic" in m && !m["evaluations_semantic"].Str?
              && e == Rejected(ValidationError("options.evaluations_semantic", InvalidSemantic))
            case Ok(o) =>
              && (if "evaluations_semantic" in m then m["evaluations_semantic"] == Str(o.semantic) else o.semantic == "")
              && (o.additional == None <==> m.Keys <= {"evaluations_semantic"})
              && (o.additional.Some? ==>
                    && o.additional.value.Keys == m.Keys - {"evaluations_semantic"}
                    && forall k | k in o.additional.value :: o.additional.value[k] == m[k])
  {
    var rest := m - {RESERVED};
    assert rest.Keys == m.Keys - {RESERVED};
    assert rest == map[] <==> rest.Keys == {};
  }

  /** An additional key that reads as a semantic, and one that does not. */
  lemma ReservedKeyExamples(toDouble: int -> real)
    ensures OptionsOverJson(OptionsValue("", Some(map[RESERVED := Str(DENY_ON_FIRST_DENY)])), toDouble)
         == Ok(OptionsValue(DENY_ON_FIRST_DENY, None))
    ensures OptionsOverJson(OptionsValue("", Some(map[RESERVED := Bool(true)])), toDouble).Err?
  {
    OneReserved(Str(DENY_ON_FIRST_DENY), toDouble);
    OneReserved(Bool(true), toDouble);
  }

  lemma OneReserved(v: Any, toDouble: int -> real)
    requires IsJson(v)
    ensures OptionsOverJson(OptionsValue("", Some(map[RESERVED := v])), toDouble) == OptionsOf(map[RESERVED := v])
    ensures v.Str? ==> OptionsOf(map[RESERVED := v]) == Ok(OptionsValue(v.s, None))
  {
    var m := map[RESERVED := v];
    assert OptionsObject(OptionsValue("", Some(m))) == m;
    assert IsJson(Object(m));
    JsonIsKept(Object(m), toDouble);
    assert m - {RESERVED} == map[];
  }
}
