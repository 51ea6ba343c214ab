/** The WWW-Authenticate challenge of mcp/challenge.go: rendering and parsing. */
module Challenges {
  import opened Wrappers
  import opened ChallengeText
  import opened ChallengeScanner
  import opened ChallengeGrammar

  const DEFAULT_SCHEME := "Bearer"

  datatype Challenge = Challenge(
    scheme: string,
    error: string,
    errorDescription: string,
    scope: string,
    resourceMetadata: string,
    realm: string,
    status: int)

  const NO_CHALLENGE := Challenge("", "", "", "", "", "", 0)

  // ---- rendering

  function RenderedScheme(scheme: string): string {
    var s := SanitizedScheme(scheme);
    if s == "" then DEFAULT_SCHEME else s
  }

  /** The parameters in the order they are emitted. */
  function Fields(c: Challenge): seq<Pair> {
    [Pair("realm", c.realm), Pair("error", c.error), Pair("error_description", c.errorDescription),
     Pair("scope", c.scope), Pair("resource_metadata", c.resourceMetadata)]
  }

  /** key="value" for every field whose stripped value is not empty. */
  function Emitted(fields: seq<Pair>): seq<string> {
    if fields == [] then []
    else
      var f := fields[0];
      (if Stripped(f.value) != "" then [f.key + "=" + Quoted(f.value)] else []) + Emitted(fields[1..])
  }

  function Join(parts: seq<string>, sep: string): string {
    if parts == [] then "" else if |parts| == 1 then parts[0] else parts[0] + sep + Join(parts[1..], sep)
  }

  function Rendered(c: Challenge): string {
    var params := Emitted(Fields(c));
    if params == [] then RenderedScheme(c.scheme)
    else RenderedScheme(c.scheme) + " " + Join(params, ", ")
  }

  /** Challenge.String. */
  method String(c: Challenge) returns (r: string)
    ensures r == Rendered(c)
  {
    var scheme := SanitizedScheme(c.scheme);
    if scheme == "" {
      scheme := DEFAULT_SCHEME;
    }
    var params := [];
    params := Add(params, "realm", c.realm);
    params := Add(params, "error", c.error);
    params := Add(params, "error_description", c.errorDescription);
    params := Add(params, "scope", c.scope);
    params := Add(params, "resource_metadata", c.resourceMetadata);
    EmittedFields(c);
    assert params == Emitted(Fields(c));
    if |params| == 0 {
      return scheme;
    }
    r := scheme + " " + Join(params, ", ");
  }

  method Add(params: seq<string>, key: string, val: string) returns (r: seq<string>)
    ensures r == params + Emitted([Pair(key, val)])
  {
    r := params;
    var stripped := StripControl(val);
    if stripped != "" {
      r := r + [key + "=" + Quoted(val)];
    }
  }

  lemma {:induction false} EmittedAppend(xs: seq<Pair>, ys: seq<Pair>)
    ensures Emitted(xs + ys) == Emitted(xs) + Emitted(ys)
  {
    if xs == [] {
      assert xs + ys == ys;
    } else {
      assert (xs + ys)[1..] == xs[1..] + ys;
      EmittedAppend(xs[1..], ys);
    }
  }

  lemma EmittedFields(c: Challenge)
    ensures Emitted(Fields(c))
         == Emitted([Pair("realm", c.realm)]) + Emitted([Pair("error", c.error)])
            + Emitted([Pair("error_description", c.errorDescription)]) + Emitted([Pair("scope", c.scope)])
            + Emitted([Pair("resource_metadata", c.resourceMetadata)])
  {
    var f := Fields(c);
    EmittedAppend(f[..4], f[4..]);
    EmittedAppend(f[..3], f[3..4]);
    EmittedAppend(f[..2], f[2..3]);
    EmittedAppend(f[..1], f[1..2]);
    assert f == f[..4] + f[4..] && f[..4] == f[..3] + f[3..4] && f[..3] == f[..2] + f[2..3] && f[..2] == f[..1] + f[1..2];
  }

  // ---- parsing

  function Param(params: map<string, string>, key: string): string {
    if key in params then params[key] else ""
  }

  function FromParams(scheme: string, params: map<string, string>): Challenge {
    Challenge(scheme, Param(params, "error"), Param(params, "error_description"), Param(params, "scope"),
              Param(params, "resource_metadata"), Param(params, "realm"), 0)
  }

  /** None when the header is blank, the only input that is rejected. */
  function Parsed(header: string): Option<Challenge> {
    var s := TrimSpace(header);
    if s == "" then None else Some(ParsedTrimmed(s))
  }

  /** The scheme up to the first space, and the parameters after it. */
  function ParsedTrimmed(s: string): Challenge {
    var i := IndexOf(s, ' ');
    FromParams(s[..i], Assigned(map[], Pairs(if i < |s| then s[i + 1..] else "")))
  }

  /** ParseChallenge. */
  method ParseChallenge(header: string) returns (r: Option<Challenge>)
    ensures r == Parsed(header)
  {
    var s := TrimSpace(header);
    if s == "" {
      return None;
    }
    var c := ParseTrimmed(s);
    r := Some(c);
  }

  method ParseTrimmed(s: string) returns (c: Challenge)
    ensures c == ParsedTrimmed(s)
  {
    var scheme, rest := s, "";
    var i := IndexOf(s, ' ');
    if i < |s| {
      scheme, rest := s[..i], s[i + 1..];
    }
    assert scheme == s[..i];
    var params := ParseAuthParams(rest);
    c := FromParams(scheme, params);
  }

  /**
   What survives on the wire: the scheme sanitized or defaulted, control
   characters removed from every parameter, no status.
   */
  function Normalized(c: Challenge): Challenge {
    Challenge(RenderedScheme(c.scheme), Stripped(c.error), Stripped(c.errorDescription), Stripped(c.scope),
              Stripped(c.resourceMetadata), Stripped(c.realm), 0)
  }

  // ---- the rendered parameters as a list of the grammar

  function EscapedPieces(s: string): seq<Piece> {
    if s == "" then []
    else [if s[0] == '\\' || s[0] == '"' then Escape(s[0]) else Plain(s[0])] + EscapedPieces(s[1..])
  }

  lemma {:induction false} EscapedIsPieces(s: string)
    ensures ValidPieces(EscapedPieces(s))
    ensures PiecesText(EscapedPieces(s)) == Escaped(s)
    ensures PiecesValue(EscapedPieces(s)) == s
  {
    if s != "" {
      EscapedIsPieces(s[1..]);
      assert EscapedPieces(s)[1..] == EscapedPieces(s[1..]);
    }
  }

  /** The emitted fields as grammar parameters; lead separates each from the text before it. */
  function AsParams(fields: seq<Pair>, lead: string): seq<ChallengeGrammar.Param> {
    if fields == [] then []
    else
      var f := fields[0];
      if Stripped(f.value) != "" then
        [ChallengeGrammar.Param(lead, f.key, QuotedForm(EscapedPieces(Stripped(f.value))))] + AsParams(fields[1..], ", ")
      else AsParams(fields[1..], lead)
  }

  /** The emitted fields as the pairs they mean. */
  function AsPairs(fields: seq<Pair>): seq<Pair> {
    if fields == [] then []
    else
      var f := fields[0];
      (if Stripped(f.value) != "" then [Pair(f.key, Stripped(f.value))] else []) + AsPairs(fields[1..])
  }

  predicate PlainKey(k: string) {
    && k != ""
    && forall i :: 0 <= i < |k| ==> ('a' <= k[i] <= 'z' || k[i] == '_')
  }

  lemma PlainKeyIsKept(k: string)
    requires PlainKey(k)
    ensures ValidName(k) && Lower(TrimSpace(k)) == k
  {
    assert TrimSpace(k) == k;
  }

  lemma {:induction false} ParamsAreWellFormed(fields: seq<Pair>, lead: string)
    requires forall i :: 0 <= i < |fields| ==> PlainKey(fields[i].key)
    requires AllSeparators(lead)
    ensures WellFormed(AsParams(fields, lead), Junk(""))
    ensures Meaning(AsParams(fields, lead), Junk("")) == AsPairs(fields)
  {
    if fields != [] {
      var f := fields[0];
      var next := if Stripped(f.value) != "" then ", " else lead;
      ParamsAreWellFormed(fields[1..], next);
      if Stripped(f.value) != "" {
        EscapedIsPieces(Stripped(f.value));
        PlainKeyIsKept(f.key);
        assert AsParams(fields, lead)[1..] == AsParams(fields[1..], ", ");
      }
    }
  }

  lemma FieldText(f: Pair, lead: string)
    ensures ParamText(ChallengeGrammar.Param(lead, f.key, QuotedForm(EscapedPieces(Stripped(f.value)))))
         == lead + (f.key + "=" + Quoted(f.value))
  {
    EscapedIsPieces(Stripped(f.value));
  }

  lemma JoinCons(part: string, parts: seq<string>)
    ensures Join([part] + parts, ", ") == if parts == [] then part else part + (", " + Join(parts, ", "))
  {
    assert ([part] + parts)[1..] == parts;
  }

  lemma {:induction false} ParamsText(fields: seq<Pair>, lead: string)
    ensures var text := ListText(AsParams(fields, lead), Junk(""));
            if Emitted(fields) == [] then text == "" else text == lead + Join(Emitted(fields), ", ")
  {
    if fields != [] {
      var f := fields[0];
      var parts := Emitted(fields[1..]);
      if Stripped(f.value) == "" {
        ParamsText(fields[1..], lead);
        assert Emitted(fields) == parts;
      } else {
        ParamsText(fields[1..], ", ");
        FieldText(f, lead);
        assert AsParams(fields, lead)[1..] == AsParams(fields[1..], ", ");
        JoinCons(f.key + "=" + Quoted(f.value), parts);
      }
    }
  }

  /** Reading a parameter back gives its stripped value, emitted or not. */
  lemma {:induction false} AssignedFields(m: map<string, string>, fields: seq<Pair>, i: nat)
    requires i < |fields|
    requires forall j :: 0 <= j < |fields| ==> fields[j].key != "" && fields[j].key !in m
    requires forall j, k :: 0 <= j < k < |fields| ==> fields[j].key != fields[k].key
    ensures Param(Assigned(m, AsPairs(fields)), fields[i].key) == Stripped(fields[i].value)
    decreases |fields|
  {
    var f := fields[0];
    var m' := if Stripped(f.value) != "" then m[f.key := Stripped(f.value)] else m;
    if Stripped(f.value) != "" {
      PutFirst(m, Pair(f.key, Stripped(f.value)), AsPairs(fields[1..]));
    } else {
      assert AsPairs(fields) == AsPairs(fields[1..]);
    }
    if i == 0 {
      AssignedKeeps(m', fields[1..], f.key);
    } else {
      AssignedFields(m', fields[1..], i - 1);
    }
  }

  lemma {:induction false} AssignedKeeps(m: map<string, string>, fields: seq<Pair>, key: string)
    requires forall j :: 0 <= j < |fields| ==> fields[j].key != key
    ensures Param(Assigned(m, AsPairs(fields)), key) == Param(m, key)
    decreases |fields|
  {
    if fields != [] {
      var f := fields[0];
      if Stripped(f.value) != "" {
        var p := Pair(f.key, Stripped(f.value));
        PutFirst(m, p, AsPairs(fields[1..]));
        AssignedKeeps(Put(m, p), fields[1..], key);
      } else {
        assert AsPairs(fields) == AsPairs(fields[1..]);
        AssignedKeeps(m, fields[1..], key);
      }
    }
  }

  lemma FieldsReadBack(c: Challenge)
    ensures FromParams(RenderedScheme(c.scheme), Assigned(map[], AsPairs(Fields(c)))) == Normalized(c)
  {
    AssignedFields(map[], Fields(c), 0);
    AssignedFields(map[], Fields(c), 1);
    AssignedFields(map[], Fields(c), 2);
    AssignedFields(map[], Fields(c), 3);
    AssignedFields(map[], Fields(c), 4);
  }

  // ---- the header around the parameters

  lemma SchemeIsToken(scheme: string)
    ensures var s := RenderedScheme(scheme);
            s != "" && forall i :: 0 <= i < |s| ==> !NotInToken(s[i])
  {
    KeptDropsAll(scheme, NotInToken);
  }

  lemma TrimNothing(s: string)
    requires s != "" && !IsSpace(s[0]) && !IsSpace(s[|s| - 1])
    ensures TrimSpace(s) == s
  {
  }

  lemma {:induction false} JoinEndsQuoted(parts: seq<string>)
    requires parts != []
    requires forall i :: 0 <= i < |parts| ==> parts[i] != "" && parts[i][|parts[i]| - 1] == '"'
    ensures var j := Join(parts, ", "); j != "" && j[|j| - 1] == '"'
  {
    if |parts| > 1 {
      JoinEndsQuoted(parts[1..]);
    }
  }

  lemma {:induction false} EmittedEndsQuoted(fields: seq<Pair>)
    ensures forall i :: 0 <= i < |Emitted(fields)| ==>
              Emitted(fields)[i] != "" && Emitted(fields)[i][|Emitted(fields)[i]| - 1] == '"'
  {
    if fields != [] {
      EmittedEndsQuoted(fields[1..]);
    }
  }

  /** The rendered header splits back into its scheme and its parameter list. */
  lemma HeaderSplits(scheme: string, rest: string)
    requires scheme != "" && forall i :: 0 <= i < |scheme| ==> !NotInToken(scheme[i])
    requires rest != "" ==> !IsSpace(rest[|rest| - 1])
    ensures var h := if rest == "" then scheme else scheme + " " + rest;
            Parsed(h) == Some(FromParams(scheme, Assigned(map[], Pairs(rest))))
  {
    var tail := if rest == "" then "" else " " + rest;
    Append3(scheme, " ", rest);
    TrimWhole(scheme, tail);
    HeaderParts(scheme, rest, tail);
  }

  lemma Append3(a: string, b: string, c: string)
    ensures a + (b + c) == a + b + c && a + "" == a
  {
  }

  lemma TrimWhole(scheme: string, tail: string)
    requires scheme != "" && forall i :: 0 <= i < |scheme| ==> !NotInToken(scheme[i])
    requires tail != "" ==> !IsSpace(tail[|tail| - 1])
    ensures TrimSpace(scheme + tail) == scheme + tail
  {
    var h := scheme + tail;
    assert h[0] == scheme[0];
    assert h[|h| - 1] == if tail == "" then scheme[|scheme| - 1] else tail[|tail| - 1];
    TrimNothing(h);
  }

  lemma HeaderParts(scheme: string, rest: string, tail: string)
    requires ' ' !in scheme && tail == if rest == "" then "" else " " + rest
    ensures var h := scheme + tail;
            && IndexOf(h, ' ') == |scheme| && h[..|scheme|] == scheme
            && (if |scheme| < |h| then h[|scheme| + 1..] == rest else rest == "")
  {
    var h := scheme + tail;
    assert h[..|scheme|] == scheme;
    IndexOfAt(h, ' ', |scheme|);
    assert rest != "" ==> tail[1..] == rest;
  }

  /** Parsing what was rendered gives the challenge back, normalized. */
  lemma ParseInvertsRender(c: Challenge)
    ensures Parsed(Rendered(c)) == Some(Normalized(c))
  {
    FieldsArePlain(c);
    ListReadsBack(Fields(c));
    SchemeIsToken(c.scheme);
    HeaderSplits(RenderedScheme(c.scheme), Join(Emitted(Fields(c)), ", "));
    FieldsReadBack(c);
  }

  lemma FieldsArePlain(c: Challenge)
    ensures forall i :: 0 <= i < |Fields(c)| ==> PlainKey(Fields(c)[i].key)
  {
  }

  lemma ListReadsBack(fields: seq<Pair>)
    requires forall i :: 0 <= i < |fields| ==> PlainKey(fields[i].key)
    ensures var rest := Join(Emitted(fields), ", ");
            && Pairs(rest) == AsPairs(fields)
            && (rest == "" <==> Emitted(fields) == [])
            && (rest != "" ==> !IsSpace(rest[|rest| - 1]))
  {
    var params := AsParams(fields, "");
    ParamsAreWellFormed(fields, "");
    ScannerMeetsGrammar(params, Junk(""));
    ParamsText(fields, "");
    assert "" + Join(Emitted(fields), ", ") == Join(Emitted(fields), ", ");
    ListEnds(fields);
  }

  lemma ListEnds(fields: seq<Pair>)
    ensures var rest := Join(Emitted(fields), ", ");
            if Emitted(fields) == [] then rest == "" else rest != "" && rest[|rest| - 1] == '"'
  {
    EmittedEndsQuoted(fields);
    if Emitted(fields) != [] {
      JoinEndsQuoted(Emitted(fields));
    }
  }

  lemma SchemeIsFixed(scheme: string)
    ensures RenderedScheme(RenderedScheme(scheme)) == RenderedScheme(scheme)
  {
    SchemeIsToken(scheme);
    KeptIsIdentity(RenderedScheme(scheme), NotInToken);
  }

  lemma {:induction false} EmittedDependsOnStripped(xs: seq<Pair>, ys: seq<Pair>)
    requires |xs| == |ys|
    requires forall i :: 0 <= i < |xs| ==> xs[i].key == ys[i].key && Stripped(xs[i].value) == Stripped(ys[i].value)
    ensures Emitted(xs) == Emitted(ys)
  {
    if xs != [] {
      EmittedDependsOnStripped(xs[1..], ys[1..]);
    }
  }

  /** The header depends on nothing but the normalized challenge. */
  lemma SameNormalSameHeader(c: Challenge, d: Challenge)
    requires Normalized(c) == Normalized(d)
    ensures Rendered(c) == Rendered(d)
  {
    EmittedDependsOnStripped(Fields(c), Fields(d));
  }

  lemma NormalizedIsFixed(c: Challenge)
    ensures Normalized(Normalized(c)) == Normalized(c)
  {
    SchemeIsFixed(c.scheme);
    KeptIsIdempotent(c.error, IsControl);
    KeptIsIdempotent(c.errorDescription, IsControl);
    KeptIsIdempotent(c.scope, IsControl);
    KeptIsIdempotent(c.resourceMetadata, IsControl);
    KeptIsIdempotent(c.realm, IsControl);
  }

  /** For every header the parser accepts, parse-and-render is stable after one round. */
  lemma RenderIsFixpoint(h: string)
    requires Parsed(h).Some?
    ensures var once := Rendered(Parsed(h).value);
            Parsed(once).Some? && Rendered(Parsed(once).value) == once
  {
    var c := Parsed(h).value;
    ParseInvertsRender(c);
    NormalizedIsFixed(c);
    SameNormalSameHeader(Normalized(c), c);
  }

  /** Two challenges render alike exactly when they agree once normalized. */
  lemma RenderIsInjectiveOnNormalized(c: Challenge, d: Challenge)
    ensures Rendered(c) == Rendered(d) <==> Normalized(c) == Normalized(d)
  {
    ParseInvertsRender(c);
    ParseInvertsRender(d);
    if Normalized(c) == Normalized(d) {
      SameNormalSameHeader(c, d);
    }
  }

  // ---- headers of other making

  predicate IsScheme(s: string) {
    s != "" && forall i :: 0 <= i < |s| ==> !IsSpace(s[i])
  }

  lemma HeaderIsCut(scheme: string, text: string)
    requires IsScheme(scheme)
    ensures Parsed(scheme + " " + text) == Some(FromParams(scheme, Assigned(map[], Pairs(TrimRight(text)))))
  {
    var rest := TrimRight(text);
    var tail := if rest == "" then "" else " " + rest;
    Append3(scheme, " ", text);
    assert (scheme + " " + text)[0] == scheme[0];
    TrimRightConcat(scheme + " ", text);
    TrimRightStep(scheme, ' ');
    TrimRightKeeps(scheme);
    Append3(scheme, " ", rest);
    assert TrimSpace(scheme + " " + text) == scheme + tail;
    HeaderParts(scheme, rest, tail);
  }

  /**
   What a header with a well-formed list is parsed to: the meaning of the list, last
   writer winning, where white space at the end of the header is no part of a value.
   Every text after the scheme is such a list.
   */
  lemma HeaderMeansItsList(scheme: string, ps: seq<ChallengeGrammar.Param>, t: Tail)
    requires IsScheme(scheme) && WellFormed(ps, t)
    ensures Parsed(scheme + " " + ListText(ps, t)) == Some(FromParams(scheme, Assigned(map[], Meaning(ps, CutTail(t)))))
    ensures Meaning(ps, CutTail(t)) == Meaning(ps, t) <==> EndsCleanly(t)
  {
    HeaderIsCut(scheme, ListText(ps, t));
    CutListIsScanned(ps, t);
    CutKeepsMeaning(ps, t);
  }

  /** The keys that a challenge is made of occur at most once. */
  predicate ReadOnce(pairs: seq<Pair>) {
    && Once(pairs, "error") && Once(pairs, "error_description") && Once(pairs, "scope")
    && Once(pairs, "resource_metadata") && Once(pairs, "realm")
  }

  lemma SameParam(xs: seq<Pair>, ys: seq<Pair>, key: string)
    requires Once(xs, key) && key != "" && multiset(xs) == multiset(ys)
    ensures Param(Assigned(map[], xs), key) == Param(Assigned(map[], ys), key)
  {
    AssignedPermuted(xs, ys, key);
  }

  /**
   Two headers whose lists mean the same up to order parse to the same challenge,
   however they are spaced or quoted and whatever other keys they hold.
   */
  lemma {:induction false} ParametersMayBeReordered(
    scheme: string, ps: seq<ChallengeGrammar.Param>, t: Tail, qs: seq<ChallengeGrammar.Param>, u: Tail)
    requires IsScheme(scheme) && WellFormed(ps, t) && WellFormed(qs, u)
    requires multiset(Meaning(ps, CutTail(t))) == multiset(Meaning(qs, CutTail(u)))
    requires ReadOnce(Meaning(ps, CutTail(t)))
    ensures Parsed(scheme + " " + ListText(ps, t)) == Parsed(scheme + " " + ListText(qs, u))
  {
    HeaderMeansItsList(scheme, ps, t);
    HeaderMeansItsList(scheme, qs, u);
    var xs, ys := Meaning(ps, CutTail(t)), Meaning(qs, CutTail(u));
    SameParam(xs, ys, "error");
    SameParam(xs, ys, "error_description");
    SameParam(xs, ys, "scope");
    SameParam(xs, ys, "resource_metadata");
    SameParam(xs, ys, "realm");
  }

  /** No control character reaches the header, so it stays on one line. */
  lemma HeaderHasNoControl(c: Challenge)
    ensures forall i :: 0 <= i < |Rendered(c)| ==> !IsControl(Rendered(c)[i])
  {
    SchemeIsToken(c.scheme);
    FieldsArePlain(c);
    EmittedHasNoControl(Fields(c));
    JoinHasNoControl(Emitted(Fields(c)));
  }

  predicate NoControl(s: string) {
    forall i :: 0 <= i < |s| ==> !IsControl(s[i])
  }

  lemma {:induction false} EscapedHasNoControl(s: string)
    requires NoControl(s)
    ensures NoControl(Escaped(s))
  {
    if s != "" {
      EscapedHasNoControl(s[1..]);
    }
  }

  lemma {:induction false} EmittedHasNoControl(fields: seq<Pair>)
    requires forall i :: 0 <= i < |fields| ==> PlainKey(fields[i].key)
    ensures forall i :: 0 <= i < |Emitted(fields)| ==> NoControl(Emitted(fields)[i])
  {
    if fields != [] {
      KeptDropsAll(fields[0].value, IsControl);
      EscapedHasNoControl(Stripped(fields[0].value));
      EmittedHasNoControl(fields[1..]);
    }
  }

  lemma {:induction false} JoinHasNoControl(parts: seq<string>)
    requires forall i :: 0 <= i < |parts| ==> NoControl(parts[i])
    ensures NoControl(Join(parts, ", "))
  {
    if |parts| > 1 {
      JoinHasNoControl(parts[1..]);
    }
  }
}
