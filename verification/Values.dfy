/**
 Free-form values: what a Go program puts into a map[string]any, and what comes
 back after a trip through JSON, where every number is a double.
 */
module Values {
  import opened Wrappers

  /**
   A Go value. Other is a value of any further type (a struct, a named type, a
   typed slice or map), given by what it encodes to; None is one that
   encoding/json rejects, such as a channel or an infinite float.
   */
  datatype Any =
    | Null
    | Bool(b: bool)
    | Int(n: int)
    | Int64(n: int)
    | Float(r: real)
    | Str(s: string)
    | List(items: seq<Any>)
    | Object(m: map<string, Any>)
    | EvaluationError(status: int, message: string)
    | Other(json: Option<Any>)

  type Props = map<string, Any>

  /** encoding/json accepts the value, and so do all its parts. */
  predicate Encodable(v: Any) {
    match v
    case List(items) => forall i | 0 <= i < |items| :: Encodable(items[i])
    case Object(m) => forall k | k in m :: Encodable(m[k])
    case Other(json) => json.Some? && Encodable(json.value)
    case _ => true
  }

  /** The value that encoding an encodable value and decoding it gives; toDouble is the nearest double. */
  function Decoded(v: Any, toDouble: int -> real): Any {
    match v
    case Int(n) => Float(toDouble(n))
    case Int64(n) => Float(toDouble(n))
    case List(items) => List(seq(|items|, i requires 0 <= i < |items| => Decoded(items[i], toDouble)))
    case Object(m) => Object(map k | k in m :: Decoded(m[k], toDouble))
    case EvaluationError(status, message) => Object(ErrorObject(status, message, toDouble))
    case Other(json) => if json.Some? then Decoded(json.value, toDouble) else Null
    case _ => v
  }

  /** The JSON object of an EvaluationError. */
  function ErrorObject(status: int, message: string, toDouble: int -> real): Props {
    map["status" := Float(toDouble(status)), "message" := Str(message)]
  }

  /** The value is what JSON decodes to: no integers and no Go types of its own. */
  predicate IsJson(v: Any) {
    match v
    case List(items) => forall i | 0 <= i < |items| :: IsJson(items[i])
    case Object(m) => forall k | k in m :: IsJson(m[k])
    case _ => v.Null? || v.Bool? || v.Float? || v.Str?
  }

  lemma {:induction false} DecodedIsJson(v: Any, toDouble: int -> real)
    ensures IsJson(Decoded(v, toDouble))
  {
    match v
    case List(items) =>
      forall i | 0 <= i < |items|
        ensures IsJson(Decoded(items[i], toDouble))
      {
        DecodedIsJson(items[i], toDouble);
      }
    case Object(m) =>
      forall k | k in m
        ensures IsJson(Decoded(m[k], toDouble))
      {
        DecodedIsJson(m[k], toDouble);
      }
    case Other(json) =>
      if json.Some? {
        DecodedIsJson(json.value, toDouble);
      }
    case _ =>
  }

  /** JSON values come back as they are. */
  lemma {:induction false} JsonIsKept(v: Any, toDouble: int -> real)
    requires IsJson(v)
    ensures Encodable(v) && Decoded(v, toDouble) == v
  {
    match v
    case List(items) =>
      forall i | 0 <= i < |items|
        ensures Encodable(items[i]) && Decoded(items[i], toDouble) == items[i]
      {
        JsonIsKept(items[i], toDouble);
      }
    case Object(m) =>
      forall k | k in m
        ensures Encodable(m[k]) && Decoded(m[k], toDouble) == m[k]
      {
        JsonIsKept(m[k], toDouble);
      }
      assert Decoded(v, toDouble).m == m;
    case _ =>
  }

  /** A second trip changes nothing. */
  lemma DecodedTwice(v: Any, toDouble: int -> real)
    ensures Encodable(Decoded(v, toDouble))
    ensures Decoded(Decoded(v, toDouble), toDouble) == Decoded(v, toDouble)
  {
    DecodedIsJson(v, toDouble);
    JsonIsKept(Decoded(v, toDouble), toDouble);
  }

  // ---- encoding part by part

  /** The value and everything it is built of. */
  function Parts(v: Any): set<Any> {
    {v} + match v
          case List(items) => set i, x | 0 <= i < |items| && x in Parts(items[i]) :: x
          case Object(m) => set k, x | k in m && x in Parts(m[k]) :: x
          case Other(json) => if json.Some? then Parts(json.value) else {}
          case _ => {}
  }

  /** A value can be encoded exactly when none of its parts is one that encoding/json rejects. */
  lemma {:induction false} EncodableExactlyWhen(v: Any)
    ensures Encodable(v) <==> Other(None) !in Parts(v)
  {
    match v
    case List(items) =>
      forall i | 0 <= i < |items|
        ensures Encodable(items[i]) <==> Other(None) !in Parts(items[i])
      {
        EncodableExactlyWhen(items[i]);
      }
    case Object(m) =>
      forall k | k in m
        ensures Encodable(m[k]) <==> Other(None) !in Parts(m[k])
      {
        EncodableExactlyWhen(m[k]);
      }
    case Other(json) =>
      if json.Some? {
        EncodableExactlyWhen(json.value);
      }
    case _ =>
  }

  /** d is what v is after encoding and decoding: every number a double, every type of Go's own spelled out. */
  predicate JsonOf(v: Any, d: Any, toDouble: int -> real) {
    match v
    case Int(n) => d == Float(toDouble(n))
    case Int64(n) => d == Float(toDouble(n))
    case List(items) => d.List? && |d.items| == |items| && forall i | 0 <= i < |items| :: JsonOf(items[i], d.items[i], toDouble)
    case Object(m) => d.Object? && d.m.Keys == m.Keys && forall k | k in m :: JsonOf(m[k], d.m[k], toDouble)
    case EvaluationError(status, message) =>
      d.Object? && d.m.Keys == {"status", "message"} && d.m["status"] == Float(toDouble(status)) && d.m["message"] == Str(message)
    case Other(json) => if json.Some? then JsonOf(json.value, d, toDouble) else d == Null
    case _ => d == v
  }

  /** There is exactly one such value, the decoded one. */
  lemma {:induction false} DecodedIsJsonOf(v: Any, d: Any, toDouble: int -> real)
    ensures Decoded(v, toDouble) == d <==> JsonOf(v, d, toDouble)
  {
    match v
    case List(items) =>
      if d.List? && |d.items| == |items| {
        forall i | 0 <= i < |items|
          ensures Decoded(items[i], toDouble) == d.items[i] <==> JsonOf(items[i], d.items[i], toDouble)
        {
          DecodedIsJsonOf(items[i], d.items[i], toDouble);
        }
      }
    case Object(m) =>
      if d.Object? && d.m.Keys == m.Keys {
        forall k | k in m
          ensures Decoded(m[k], toDouble) == d.m[k] <==> JsonOf(m[k], d.m[k], toDouble)
        {
          DecodedIsJsonOf(m[k], d.m[k], toDouble);
        }
      }
    case Other(json) =>
      if json.Some? {
        DecodedIsJsonOf(json.value, d, toDouble);
      }
    case _ =>
  }
}
