/**
 The decision context a PDP embeds for a deny (mcp/challenge.go): DenyContext
 and its reader ChallengeFromDenyContext.
 */
module DenyContexts {
  import opened Wrappers
  import opened ChallengeText
  import opened Challenges
  import opened Values

  type Context = Props

  function DenyContext(c: Challenge): Context {
    map["mcp" := Object(McpObject(c))]
  }

  function McpObject(c: Challenge): Context {
    map["www_authenticate" := Object(HeaderObject(c))]
    + (if c.status != 0 then map["status" := Int(c.status)] else map[])
    + OptionalStr("error", c.error)
  }

  function HeaderObject(c: Challenge): Context {
    map["header" := Str(Rendered(c))]
    + OptionalStr("scope", c.scope)
    + OptionalStr("resource_metadata", c.resourceMetadata)
    + OptionalStr("realm", c.realm)
  }

  function OptionalStr(key: string, s: string): Context {
    if s != "" then map[key := Str(s)] else map[]
  }

  function Lookup(m: Context, key: string): Option<Any> {
    if key in m then Some(m[key]) else None
  }

  function StringField(v: Option<Any>): Option<string> {
    if v.Some? && v.value.Str? && v.value.s != "" then Some(v.value.s) else None
  }

  function ObjectField(v: Option<Any>): Option<Context> {
    if v.Some? && v.value.Object? then Some(v.value.m) else None
  }

  /** Go's float-to-int conversion, for values in range. */
  function Truncated(r: real): int {
    if r >= 0.0 then r.Floor else -((-r).Floor)
  }

  function IntField(v: Option<Any>): Option<int> {
    if v.None? then None
    else
      match v.value
      case Int(n) => Some(n)
      case Int64(n) => Some(n)
      case Float(r) => Some(Truncated(r))
      case _ => None
  }

  function Or<T>(v: Option<T>, default: T): T {
    if v.Some? then v.value else default
  }

  /** The header read first, then the structured fields over it. */
  function Read(ctx: Context): Option<Challenge> {
    var mcp := ObjectField(Lookup(ctx, "mcp"));
    if mcp.None? then None else ReadMcp(mcp.value)
  }

  function ReadMcp(m: Context): Option<Challenge> {
    Overridden(ReadHeader(ObjectField(Lookup(m, "www_authenticate"))),
               StringField(Lookup(m, "error")), IntField(Lookup(m, "status")))
  }

  function Overridden(base: Option<Challenge>, error: Option<string>, status: Option<int>): Option<Challenge> {
    if base.None? && error.None? && status.None? then None
    else
      var c := Or(base, NO_CHALLENGE);
      Some(c.(error := Or(error, c.error), status := Or(status, c.status)))
  }

  function ReadHeader(wa: Option<Context>): Option<Challenge> {
    if wa.None? then None else Some(FromHeader(wa.value))
  }

  function FromHeader(wa: Context): Challenge {
    var h := StringField(Lookup(wa, "header"));
    var c := if h.Some? then Or(Parsed(h.value), NO_CHALLENGE) else NO_CHALLENGE;
    c.(scope := Or(StringField(Lookup(wa, "scope")), c.scope),
       resourceMetadata := Or(StringField(Lookup(wa, "resource_metadata")), c.resourceMetadata),
       realm := Or(StringField(Lookup(wa, "realm")), c.realm))
  }

  /** ChallengeFromDenyContext. */
  method ChallengeFromDenyContext(ctx: Context) returns (c: Challenge, found: bool)
    ensures Read(ctx) == if found then Some(c) else None
  {
    c, found := NO_CHALLENGE, false;
    var mcp := ObjectField(Lookup(ctx, "mcp"));
    if mcp.None? {
      return;
    }
    var m := mcp.value;
    var wa := ObjectField(Lookup(m, "www_authenticate"));
    if wa.Some? {
      found := true;
      var h := StringField(Lookup(wa.value, "header"));
      if h.Some? {
        var parsed := ParseChallenge(h.value);
        if parsed.Some? {
          c := parsed.value;
        }
      }
      var scope := StringField(Lookup(wa.value, "scope"));
      if scope.Some? {
        c := c.(scope := scope.value);
      }
      var rm := StringField(Lookup(wa.value, "resource_metadata"));
      if rm.Some? {
        c := c.(resourceMetadata := rm.value);
      }
      var realm := StringField(Lookup(wa.value, "realm"));
      if realm.Some? {
        c := c.(realm := realm.value);
      }
    }
    var error := StringField(Lookup(m, "error"));
    if error.Some? {
      c, found := c.(error := error.value), true;
    }
    var status := IntField(Lookup(m, "status"));
    if status.Some? {
      c, found := c.(status := status.value), true;
    }
  }

  lemma HeaderIsNotEmpty(c: Challenge)
    ensures Rendered(c) != ""
  {
    SchemeIsToken(c.scheme);
  }

  /**
   Reading back a deny context recovers the challenge exactly, but for the
   scheme and the error description, which only the header carries.
   */
  lemma DenyContextRoundTrip(c: Challenge)
    ensures Read(DenyContext(c)) == Some(c.(scheme := RenderedScheme(c.scheme), errorDescription := Stripped(c.errorDescription)))
  {
    McpPart(c);
    HeaderPart(c);
  }

  lemma McpPart(c: Challenge)
    ensures ObjectField(Lookup(DenyContext(c), "mcp")) == Some(McpObject(c))
    ensures ObjectField(Lookup(McpObject(c), "www_authenticate")) == Some(HeaderObject(c))
    ensures StringField(Lookup(McpObject(c), "error")) == if c.error != "" then Some(c.error) else None
    ensures IntField(Lookup(McpObject(c), "status")) == if c.status != 0 then Some(c.status) else None
  {
  }

  lemma HeaderFields(c: Challenge)
    ensures Lookup(HeaderObject(c), "header") == Some(Str(Rendered(c)))
    ensures StringField(Lookup(HeaderObject(c), "scope")) == if c.scope != "" then Some(c.scope) else None
    ensures StringField(Lookup(HeaderObject(c), "resource_metadata"))
         == if c.resourceMetadata != "" then Some(c.resourceMetadata) else None
    ensures StringField(Lookup(HeaderObject(c), "realm")) == if c.realm != "" then Some(c.realm) else None
  {
  }

  lemma HeaderPart(c: Challenge)
    ensures FromHeader(HeaderObject(c))
         == Normalized(c).(scope := c.scope, resourceMetadata := c.resourceMetadata, realm := c.realm)
  {
    HeaderFields(c);
    HeaderIsNotEmpty(c);
    ParseInvertsRender(c);
  }

  /** The recovered challenge renders to the header of the original. */
  lemma DenyContextKeepsHeader(c: Challenge)
    ensures Read(DenyContext(c)).Some?
    ensures Rendered(Read(DenyContext(c)).value) == Rendered(c)
  {
    DenyContextRoundTrip(c);
    SchemeIsFixed(c.scheme);
    KeptIsIdempotent(c.errorDescription, IsControl);
    SameNormalSameHeader(Read(DenyContext(c)).value, c);
  }

  // ---- the fields in terms of the keys

  /** The string at the key, and the empty one if there is none. */
  function TextAt(m: Context, key: string): string {
    if key in m && m[key].Str? then m[key].s else ""
  }

  /** n is the number at the key, a fractional one cut off towards zero. */
  predicate NumberAt(m: Context, key: string, n: int) {
    && key in m
    && match m[key]
       case Int(k) => n == k
       case Int64(k) => n == k
       case Float(r) =>
         if r >= 0.0 then n as real <= r < n as real + 1.0 else r <= n as real < r + 1.0
       case _ => false
  }

  predicate ObjectAt(m: Context, key: string, o: Context) {
    key in m && m[key] == Object(o)
  }

  /** A field set by itself, or else what the header says. */
  function Prefer(text: string, fromHeader: string): string {
    if text != "" then text else fromHeader
  }

  /** A context holds a challenge exactly when its mcp object has a header object, an error or a status. */
  lemma HoldsChallengeExactly(ctx: Context)
    ensures Read(ctx).Some? <==>
            exists m :: && ObjectAt(ctx, "mcp", m)
                        && ((exists wa :: ObjectAt(m, "www_authenticate", wa)) || TextAt(m, "error") != ""
                            || exists n :: NumberAt(m, "status", n))
  {
    var mcp := ObjectField(Lookup(ctx, "mcp"));
    if mcp.Some? {
      var m := mcp.value;
      assert ObjectAt(ctx, "mcp", m);
      NumberIsRead(m, "status");
      var wa := ObjectField(Lookup(m, "www_authenticate"));
      assert wa.Some? ==> ObjectAt(m, "www_authenticate", wa.value);
    }
  }

  lemma NumberIsRead(m: Context, key: string)
    ensures var read := IntField(Lookup(m, key));
            && (read.Some? ==> NumberAt(m, key, read.value))
            && forall n :: NumberAt(m, key, n) ==> read == Some(n)
  {
  }

  /**
   The challenge of an mcp object with a header object: the header, when it is
   one, gives every field, and the keys set one by one take precedence.
   */
  lemma KeysOverrideHeader(ctx: Context, m: Context, wa: Context)
    requires ObjectAt(ctx, "mcp", m) && ObjectAt(m, "www_authenticate", wa)
    ensures Read(ctx).Some?
    ensures var c := Read(ctx).value;
            var header := Parsed(TextAt(wa, "header"));
            var h := if header.Some? then header.value else Challenge("", "", "", "", "", "", 0);
            && c.scheme == h.scheme && c.errorDescription == h.errorDescription
            && c.error == Prefer(TextAt(m, "error"), h.error)
            && c.scope == Prefer(TextAt(wa, "scope"), h.scope)
            && c.resourceMetadata == Prefer(TextAt(wa, "resource_metadata"), h.resourceMetadata)
            && c.realm == Prefer(TextAt(wa, "realm"), h.realm)
            && (forall n :: NumberAt(m, "status", n) ==> c.status == n)
            && ((forall n :: !NumberAt(m, "status", n)) ==> c.status == 0)
  {
    NumberIsRead(m, "status");
    HeaderStatus(TextAt(wa, "header"));
  }

  lemma HeaderStatus(h: string)
    ensures Parsed(h).Some? ==> h != "" && Parsed(h).value.status == 0
  {
  }

  /** Without a header object the error and the status are all there is. */
  lemma NoHeaderNoMore(ctx: Context, m: Context)
    requires ObjectAt(ctx, "mcp", m) && forall wa :: !ObjectAt(m, "www_authenticate", wa)
    ensures Read(ctx).Some? ==>
              var c := Read(ctx).value;
              && c == Challenge("", TextAt(m, "error"), "", "", "", "", c.status)
              && (forall n :: NumberAt(m, "status", n) ==> c.status == n)
              && ((forall n :: !NumberAt(m, "status", n)) ==> c.status == 0)
  {
    NumberIsRead(m, "status");
    var wa := ObjectField(Lookup(m, "www_authenticate"));
    assert wa.Some? ==> ObjectAt(m, "www_authenticate", wa.value);
  }

  /** Where DenyContext puts the challenge, and what it leaves out. */
  lemma DenyContextKeys(c: Challenge)
    ensures DenyContext(c).Keys == {"mcp"} && DenyContext(c)["mcp"].Object? && DenyMcpKeys(DenyContext(c)["mcp"].m, c)
  {
    McpKeys(c);
  }

  lemma McpKeys(c: Challenge)
    ensures DenyMcpKeys(McpObject(c), c)
  {
    HeaderKeys(c);
    McpKeysAround(HeaderObject(c), c.status, c.error);
  }

  lemma McpKeysAround(header: Context, status: int, error: string)
    ensures var m := map["www_authenticate" := Object(header)]
                     + (if status != 0 then map["status" := Int(status)] else map[]) + OptionalStr("error", error);
            && m.Keys <= {"www_authenticate", "status", "error"}
            && "www_authenticate" in m && m["www_authenticate"] == Object(header)
            && ("status" in m <==> status != 0) && (status != 0 ==> m["status"] == Int(status))
            && TextAt(m, "error") == error && ("error" in m <==> error != "")
  {
  }

  lemma HeaderKeys(c: Challenge)
    ensures DenyHeaderKeys(HeaderObject(c), c)
  {
  }

  predicate DenyMcpKeys(m: Context, c: Challenge) {
    && "www_authenticate" in m && m["www_authenticate"].Object? && DenyHeaderKeys(m["www_authenticate"].m, c)
    && ("status" in m <==> c.status != 0) && (c.status != 0 ==> m["status"] == Int(c.status))
    && TextAt(m, "error") == c.error && ("error" in m <==> c.error != "")
    && m.Keys <= {"www_authenticate", "status", "error"}
  }

  predicate DenyHeaderKeys(wa: Context, c: Challenge) {
    && "header" in wa && wa["header"] == Str(Rendered(c))
    && TextAt(wa, "scope") == c.scope && ("scope" in wa <==> c.scope != "")
    && TextAt(wa, "resource_metadata") == c.resourceMetadata && ("resource_metadata" in wa <==> c.resourceMetadata != "")
    && TextAt(wa, "realm") == c.realm && ("realm" in wa <==> c.realm != "")
    && wa.Keys <= {"header", "scope", "resource_metadata", "realm"}
  }

  // ---- the same context after a trip through JSON

  /** The context decoded from its JSON. */
  function OverJson(ctx: Context, toDouble: int -> real): Context {
    Decoded(Object(ctx), toDouble).m
  }

  /** Built of the types the reader tells apart and of none that JSON turns into one of them. */
  predicate Plain(v: Any) {
    match v
    case Object(m) => forall k | k in m :: Plain(m[k])
    case _ => !v.EvaluationError? && !v.Other?
  }

  /** toDouble is exact on the integers that every double format of 53 bits holds. */
  ghost predicate ExactDoubles(toDouble: int -> real) {
    forall n {:trigger toDouble(n)} :: ExactRange(n) ==> toDouble(n) == n as real
  }

  predicate ExactRange(n: int) {
    -0x20_0000_0000_0000 <= n <= 0x20_0000_0000_0000
  }

  /** A status no double can misrepresent, as every HTTP status is. */
  predicate StatusInRange(ctx: Context) {
    var m := ObjectField(Lookup(ctx, "mcp"));
    m.Some? && "status" in m.value ==>
      match m.value["status"]
      case Int(n) => ExactRange(n)
      case Int64(n) => ExactRange(n)
      case _ => true
  }

  /** Carrying the context over JSON changes nothing that the reader returns. */
  lemma ReadOverJson(ctx: Context, toDouble: int -> real)
    requires ExactDoubles(toDouble) && StatusInRange(ctx) && ("mcp" in ctx ==> Plain(ctx["mcp"]))
    ensures Read(OverJson(ctx, toDouble)) == Read(ctx)
  {
    ObjectOverJson(ctx, "mcp", toDouble);
    var mcp := ObjectField(Lookup(ctx, "mcp"));
    if mcp.Some? {
      StringOverJson(mcp.value, "error", toDouble);
      NumberOverJson(mcp.value, "status", toDouble);
      ObjectOverJson(mcp.value, "www_authenticate", toDouble);
      var wa := ObjectField(Lookup(mcp.value, "www_authenticate"));
      if wa.Some? {
        HeaderOverJson(wa.value, toDouble);
      }
    }
  }

  /** Decoded one level down. */
  lemma FieldOverJson(m: Context, key: string, toDouble: int -> real)
    requires key in m ==> Plain(m[key])
    ensures Lookup(OverJson(m, toDouble), key) == if key in m then Some(Decoded(m[key], toDouble)) else None
    ensures key in m ==> match m[key]
                         case Object(o) => Decoded(m[key], toDouble) == Object(OverJson(o, toDouble))
                         case Str(_) => Decoded(m[key], toDouble) == m[key]
                         case Float(_) => Decoded(m[key], toDouble) == m[key]
                         case Int(n) => Decoded(m[key], toDouble) == Float(toDouble(n))
                         case Int64(n) => Decoded(m[key], toDouble) == Float(toDouble(n))
                         case _ => var d := Decoded(m[key], toDouble); d.Null? || d.Bool? || d.List?
  {
  }

  lemma HeaderOverJson(wa: Context, toDouble: int -> real)
    requires Plain(Object(wa))
    ensures FromHeader(OverJson(wa, toDouble)) == FromHeader(wa)
  {
    StringOverJson(wa, "header", toDouble);
    StringOverJson(wa, "scope", toDouble);
    StringOverJson(wa, "resource_metadata", toDouble);
    StringOverJson(wa, "realm", toDouble);
  }

  lemma ObjectOverJson(m: Context, key: string, toDouble: int -> real)
    requires key in m ==> Plain(m[key])
    ensures var o := ObjectField(Lookup(m, key));
            && (o.Some? ==> Plain(Object(o.value)))
            && ObjectField(Lookup(OverJson(m, toDouble), key)) == if o.Some? then Some(OverJson(o.value, toDouble)) else None
  {
    FieldOverJson(m, key, toDouble);
  }

  lemma StringOverJson(m: Context, key: string, toDouble: int -> real)
    requires key in m ==> Plain(m[key])
    ensures StringField(Lookup(OverJson(m, toDouble), key)) == StringField(Lookup(m, key))
  {
    FieldOverJson(m, key, toDouble);
  }

  lemma NumberOverJson(m: Context, key: string, toDouble: int -> real)
    requires ExactDoubles(toDouble) && (key in m ==> Plain(m[key]))
    requires key in m && (m[key].Int? || m[key].Int64?) ==> ExactRange(m[key].n)
    ensures IntField(Lookup(OverJson(m, toDouble), key)) == IntField(Lookup(m, key))
  {
    FieldOverJson(m, key, toDouble);
    if key in m && (m[key].Int? || m[key].Int64?) {
      var n := m[key].n;
      assert toDouble(n) == n as real;
      assert -(n as real) == (-n) as real;
    }
  }

  lemma PlainUnion(a: Context, b: Context)
    requires Plain(Object(a)) && Plain(Object(b))
    ensures Plain(Object(a + b))
  {
  }

  lemma PlainField(key: string, v: Any)
    requires Plain(v)
    ensures Plain(Object(map[key := v]))
  {
  }

  lemma DenyContextIsPlain(c: Challenge)
    ensures Plain(Object(DenyContext(c)))
    ensures StatusInRange(DenyContext(c)) <==> ExactRange(c.status)
  {
    McpIsPlain(c);
    PlainField("mcp", Object(McpObject(c)));
    StatusOfDenyContext(c);
  }

  lemma StatusOfDenyContext(c: Challenge)
    ensures StatusInRange(DenyContext(c)) <==> ExactRange(c.status)
  {
    McpPart(c);
    assert "status" in McpObject(c) <==> c.status != 0;
    assert c.status != 0 ==> McpObject(c)["status"] == Int(c.status);
  }

  lemma McpIsPlain(c: Challenge)
    ensures Plain(Object(McpObject(c)))
  {
    HeaderIsPlain(c);
    PlainField("www_authenticate", Object(HeaderObject(c)));
    PlainField("status", Int(c.status));
    OptionalIsPlain("error", c.error);
    var status := if c.status != 0 then map["status" := Int(c.status)] else map[];
    PlainUnion(map["www_authenticate" := Object(HeaderObject(c))], status);
    PlainUnion(map["www_authenticate" := Object(HeaderObject(c))] + status, OptionalStr("error", c.error));
  }

  lemma OptionalIsPlain(key: string, s: string)
    ensures Plain(Object(OptionalStr(key, s)))
  {
    PlainField(key, Str(s));
  }

  lemma HeaderIsPlain(c: Challenge)
    ensures Plain(Object(HeaderObject(c)))
  {
    var h := map["header" := Str(Rendered(c))];
    PlainField("header", Str(Rendered(c)));
    OptionalIsPlain("scope", c.scope);
    OptionalIsPlain("resource_metadata", c.resourceMetadata);
    OptionalIsPlain("realm", c.realm);
    PlainUnion(h, OptionalStr("scope", c.scope));
    PlainUnion(h + OptionalStr("scope", c.scope), OptionalStr("resource_metadata", c.resourceMetadata));
    PlainUnion(h + OptionalStr("scope", c.scope) + OptionalStr("resource_metadata", c.resourceMetadata),
               OptionalStr("realm", c.realm));
  }
}
