/**
 The header as a reader of RFC 6750 and RFC 7235 sees it: characters, white
 space, parameter names and repeated parameters, in terms of the text alone.
 */
module ChallengePromises {
  import opened Wrappers
  import opened ChallengeText
  import opened ChallengeScanner
  import opened ChallengeGrammar
  import opened Challenges

  // ---- characters

  /** Stripping goes character by character and drops U+0000 to U+001F and U+007F. */
  lemma StrippedByCharacter(s: string, t: string, c: char)
    ensures Stripped("") == "" && Stripped(s + t) == Stripped(s) + Stripped(t)
    ensures Stripped([c]) == if c as int < 0x20 || c as int == 0x7F then "" else [c]
  {
    KeptConcat(s, t, IsControl);
    assert [c][1..] == "";
  }

  /** So does sanitizing a scheme, which drops white space as well. */
  lemma SanitizedByCharacter(s: string, t: string, c: char)
    ensures SanitizedScheme("") == "" && SanitizedScheme(s + t) == SanitizedScheme(s) + SanitizedScheme(t)
    ensures SanitizedScheme([c]) == if c as int < 0x20 || c as int == 0x7F || IsSpace(c) then "" else [c]
  {
    KeptConcat(s, t, NotInToken);
    assert [c][1..] == "";
  }

  lemma {:induction false} KeptConcat(s: string, t: string, drop: char -> bool)
    ensures Kept(s + t, drop) == Kept(s, drop) + Kept(t, drop)
  {
    if s == "" {
      assert s + t == t;
    } else {
      assert (s + t)[1..] == s[1..] + t;
      KeptConcat(s[1..], t, drop);
    }
  }

  /** White space is that of Unicode: below U+0100 these eight characters, above it the given ones. */
  lemma WhiteSpace(c: char)
    ensures IsSpace(c) <==> c as int in {0x09, 0x0A, 0x0B, 0x0C, 0x0D, 0x20, 0x85, 0xA0, 0x1680, 0x2000, 0x2001, 0x2002,
                                         0x2003, 0x2004, 0x2005, 0x2006, 0x2007, 0x2008, 0x2009, 0x200A, 0x2028, 0x2029,
                                         0x202F, 0x205F, 0x3000}
  {
  }

  predicate AllSpace(s: string) {
    forall i :: 0 <= i < |s| ==> IsSpace(s[i])
  }

  /** Trimming takes white space off both ends and nothing else. */
  lemma TrimmedText(s: string) returns (before: string, after: string)
    ensures s == before + TrimSpace(s) + after && AllSpace(before) && AllSpace(after)
    ensures TrimSpace(s) == "" || (!IsSpace(TrimSpace(s)[0]) && !IsSpace(TrimSpace(s)[|TrimSpace(s)| - 1]))
  {
    before := LeftPart(s);
    after := RightPart(TrimLeft(s));
    assert s == before + (TrimSpace(s) + after);
  }

  lemma {:induction false} LeftPart(s: string) returns (before: string)
    ensures s == before + TrimLeft(s) && AllSpace(before)
    ensures TrimLeft(s) == "" || !IsSpace(TrimLeft(s)[0])
  {
    if s != "" && IsSpace(s[0]) {
      var b := LeftPart(s[1..]);
      before := [s[0]] + b;
    } else {
      before := "";
    }
  }

  lemma {:induction false} RightPart(s: string) returns (after: string)
    ensures s == TrimRight(s) + after && AllSpace(after)
    ensures TrimRight(s) == "" || !IsSpace(TrimRight(s)[|TrimRight(s)| - 1])
    ensures TrimRight(s) != "" ==> TrimRight(s)[0] == s[0]
    decreases |s|
  {
    if s != "" && IsSpace(s[|s| - 1]) {
      var a := RightPart(s[..|s| - 1]);
      after := a + [s[|s| - 1]];
    } else {
      after := "";
    }
  }

  // ---- what is rejected and what is ignored

  lemma {:induction false} BlankTrims(s: string)
    requires AllSpace(s)
    ensures TrimLeft(s) == "" && TrimRight(s) == ""
    decreases |s|
  {
    if s != "" {
      BlankTrims(s[1..]);
      BlankTrims(s[..|s| - 1]);
    }
  }

  lemma SpaceConcat(a: string, b: string)
    requires AllSpace(a) && AllSpace(b)
    ensures AllSpace(a + b)
  {
  }

  /** A header is rejected exactly when it holds nothing but white space. */
  lemma OnlyBlankIsRejected(h: string)
    ensures Parsed(h).None? <==> AllSpace(h)
  {
    var before, after := TrimmedText(h);
    SpaceConcat(before, after);
    assert TrimSpace(h) == "" ==> h == before + after;
    if AllSpace(h) {
      BlankTrims(h);
    }
  }

  /** White space around a header is ignored. */
  lemma SurroundingSpaceIsIgnored(before: string, h: string, after: string)
    requires AllSpace(before) && AllSpace(after)
    ensures Parsed(before + h + after) == Parsed(h)
  {
    TrimLeftSkips(before, h + after);
    assert before + (h + after) == before + h + after;
    TrimRightConcat(h, after);
    BlankTrims(after);
    TrimsCommute(h + after);
    TrimsCommute(h);
  }

  lemma {:induction false} TrimLeftSkips(before: string, s: string)
    requires AllSpace(before)
    ensures TrimLeft(before + s) == TrimLeft(s)
  {
    if before == "" {
      assert before + s == s;
    } else {
      assert (before + s)[1..] == before[1..] + s;
      TrimLeftSkips(before[1..], s);
    }
  }

  lemma TrimsCommute(s: string)
    ensures TrimRight(TrimLeft(s)) == TrimLeft(TrimRight(s))
  {
    var before := LeftPart(s);
    var core := TrimLeft(s);
    TrimRightConcat(before, core);
    BlankTrims(before);
    var after := RightPart(core);
    if TrimRight(core) != "" {
      TrimLeftSkips(before, TrimRight(core));
    }
  }

  /** A header of one word is a scheme without parameters. */
  lemma SchemeAlone(scheme: string)
    requires IsScheme(scheme)
    ensures Parsed(scheme) == Some(Challenge(scheme, "", "", "", "", "", 0))
  {
    TrimNothing(scheme);
    assert scheme[..|scheme|] == scheme;
    IndexOfAt(scheme, ' ', |scheme|);
    assert Pairs("") == [];
  }

  // ---- names of parameters

  /** d is c, or its lower case. */
  predicate LowerCaseOf(d: char, c: char) {
    || d == c
    || ('A' <= c <= 'Z' && d as int == c as int + 32)
    || (c == '\U{130}' && d == 'i')
    || (c == '\U{212A}' && d == 'k')
  }

  /** The name is the key, in whatever case. */
  predicate Spells(name: string, key: string) {
    |name| == |key| && forall i :: 0 <= i < |name| ==> LowerCaseOf(key[i], name[i])
  }

  /** The texts differ in nothing but the case of ASCII letters. */
  predicate SameButCase(a: string, b: string) {
    |a| == |b| && forall i :: 0 <= i < |a| ==> CaseAside(a[i], b[i])
  }

  predicate CaseAside(c: char, d: char) {
    || c == d
    || ('A' <= c <= 'Z' && d as int == c as int + 32)
    || ('A' <= d <= 'Z' && c as int == d as int + 32)
  }

  lemma LowerForgetsCase(a: string, b: string)
    requires SameButCase(a, b)
    ensures Lower(a) == Lower(b)
  {
    forall i | 0 <= i < |a|
      ensures LowerChar(a[i]) == LowerChar(b[i])
    {
      assert CaseAside(a[i], b[i]);
    }
  }

  lemma SliceKeepsCase(a: string, b: string, lo: nat, hi: nat)
    requires SameButCase(a, b) && lo <= hi <= |a|
    ensures SameButCase(a[lo..hi], b[lo..hi])
  {
    var x, y := a[lo..hi], b[lo..hi];
    forall i | 0 <= i < |x|
      ensures CaseAside(x[i], y[i])
    {
      assert CaseAside(a[lo + i], b[lo + i]);
    }
  }

  lemma {:induction false} TrimLeftKeepsCase(a: string, b: string)
    requires SameButCase(a, b)
    ensures SameButCase(TrimLeft(a), TrimLeft(b))
  {
    if a != "" {
      assert CaseAside(a[0], b[0]);
      assert a[1..|a|] == a[1..] && b[1..|b|] == b[1..];
      SliceKeepsCase(a, b, 1, |a|);
      TrimLeftKeepsCase(a[1..], b[1..]);
    }
  }

  lemma {:induction false} TrimRightKeepsCase(a: string, b: string)
    requires SameButCase(a, b)
    ensures SameButCase(TrimRight(a), TrimRight(b))
    decreases |a|
  {
    if a != "" {
      assert CaseAside(a[|a| - 1], b[|b| - 1]);
      assert a[0..|a| - 1] == a[..|a| - 1] && b[0..|b| - 1] == b[..|b| - 1];
      SliceKeepsCase(a, b, 0, |a| - 1);
      TrimRightKeepsCase(a[..|a| - 1], b[..|b| - 1]);
    }
  }

  /** The same parameters, and the same tail, but for the case of the names. */
  predicate SameParams(ps: seq<ChallengeGrammar.Param>, t: Tail, qs: seq<ChallengeGrammar.Param>, u: Tail) {
    && |ps| == |qs|
    && (forall i :: 0 <= i < |ps| ==> SameButCase(ps[i].name, qs[i].name) && ps[i].form == qs[i].form)
    && match t
       case Junk(_) => u.Junk?
       case Unclosed(_, name, pieces, backslash) =>
         u.Unclosed? && SameButCase(name, u.name) && pieces == u.pieces && backslash == u.backslash
  }

  lemma SameKey(a: string, b: string)
    requires SameButCase(a, b)
    ensures Lower(TrimSpace(a)) == Lower(TrimSpace(b))
  {
    TrimLeftKeepsCase(a, b);
    TrimRightKeepsCase(TrimLeft(a), TrimLeft(b));
    LowerForgetsCase(TrimSpace(a), TrimSpace(b));
  }

  lemma {:induction false} SameMeaning(ps: seq<ChallengeGrammar.Param>, t: Tail, qs: seq<ChallengeGrammar.Param>, u: Tail)
    requires SameParams(ps, t, qs, u)
    ensures Meaning(ps, CutTail(t)) == Meaning(qs, CutTail(u))
  {
    if ps == [] {
      if t.Unclosed? {
        SameKey(t.name, u.name);
      }
    } else {
      SameKey(ps[0].name, qs[0].name);
      SameMeaning(ps[1..], t, qs[1..], u);
    }
  }

  /** Headers whose parameter names differ only in the case of ASCII letters parse to the same challenge. */
  lemma {:induction false} NamesAreCaseInsensitive(
    scheme: string, ps: seq<ChallengeGrammar.Param>, t: Tail, qs: seq<ChallengeGrammar.Param>, u: Tail)
    requires IsScheme(scheme) && WellFormed(ps, t) && WellFormed(qs, u) && SameParams(ps, t, qs, u)
    ensures Parsed(scheme + " " + ListText(ps, t)) == Parsed(scheme + " " + ListText(qs, u))
  {
    HeaderMeansItsList(scheme, ps, t);
    HeaderMeansItsList(scheme, qs, u);
    SameMeaning(ps, t, qs, u);
  }

  /** Neither a quote nor a backslash. */
  predicate IsPlainText(v: string) {
    '"' !in v && '\\' !in v
  }

  function PlainPieces(v: string): (ps: seq<Piece>)
    ensures |ps| == |v| && forall i :: 0 <= i < |v| ==> ps[i] == Plain(v[i])
  {
    seq(|v|, i requires 0 <= i < |v| => Plain(v[i]))
  }

  lemma {:induction false} PlainPiecesRead(v: string)
    ensures PiecesText(PlainPieces(v)) == v && PiecesValue(PlainPieces(v)) == v
  {
    if v != "" {
      assert PlainPieces(v)[1..] == PlainPieces(v[1..]);
      PlainPiecesRead(v[1..]);
    }
  }

  lemma SpelledIsLower(name: string, key: string)
    requires Spells(name, key) && PlainKey(key)
    ensures ValidName(name) && Lower(TrimSpace(name)) == key
  {
    forall i | 0 <= i < |name|
      ensures LowerChar(name[i]) == key[i] && !IsSpace(name[i]) && name[i] != '=' && !IsSeparator(name[i])
    {
      assert LowerCaseOf(key[i], name[i]);
      assert 'a' <= key[i] <= 'z' || key[i] == '_';
    }
    TrimNothing(name);
    assert Lower(name) == key;
  }

  lemma OneParamMeans(scheme: string, name: string, key: string, v: string)
    requires IsScheme(scheme) && Spells(name, key) && PlainKey(key) && IsPlainText(v)
    ensures Parsed(scheme + " " + (name + ("=" + ("\"" + v + "\"")))) == Some(FromParams(scheme, map[key := v]))
  {
    var p := ChallengeGrammar.Param("", name, QuotedForm(PlainPieces(v)));
    SpelledIsLower(name, key);
    PlainPiecesRead(v);
    assert ListText([p], Junk("")) == name + ("=" + ("\"" + v + "\"")) by {
      assert [p][1..] == [];
      EmptyEnd(ParamText(p));
      assert "" + (name + ("=" + FormText(p.form))) == name + ("=" + FormText(p.form));
    }
    forall i | 0 <= i < |v|
      ensures v[i] != '"' && v[i] != '\\'
    {
      assert v[i] in v;
    }
    assert [p][1..] == [];
    assert WellFormed([p], Junk(""));
    HeaderMeansItsList(scheme, [p], Junk(""));
    assert TrimRight("") == "";
    assert Meaning([p], CutTail(Junk(""))) == [Pair(key, v)];
    PutFirst(map[], Pair(key, v), []);
    assert [Pair(key, v)] + [] == [Pair(key, v)];
  }

  /** A parameter fills the field of its name, in whatever case the name is written, and no other. */
  lemma NameFillsField(scheme: string, name: string, key: string, v: string)
    requires IsScheme(scheme) && Spells(name, key) && PlainKey(key) && IsPlainText(v)
    ensures Parsed(scheme + " " + (name + ("=" + ("\"" + v + "\""))))
         == Some(Challenge(scheme,
                           if key == "error" then v else "",
                           if key == "error_description" then v else "",
                           if key == "scope" then v else "",
                           if key == "resource_metadata" then v else "",
                           if key == "realm" then v else "",
                           0))
  {
    OneParamMeans(scheme, name, key, v);
  }

  /** A bare value as it is written: nothing that ends it, and no white space around it. */
  predicate IsBareText(v: string) {
    v != "" && v[0] != '"' && ',' !in v && !IsSpace(v[0]) && !IsSpace(v[|v| - 1])
  }

  /** A comma, and then any more commas, spaces and tabs. */
  predicate Separates(lead: string) {
    lead != "" && lead[0] == ',' && forall i :: 0 <= i < |lead| ==> lead[i] in {',', ' ', '\t'}
  }

  /** The value of the field, given two parameters. */
  function Of(field: string, key: string, v: string, key': string, v': string): string {
    if field == key then v else if field == key' then v' else ""
  }

  /** Two parameters, the first one bare and the second one quoted, each fill their field. */
  lemma TwoNamesFillTheirFields(scheme: string, first: string, key: string, v: string, lead: string,
                                second: string, key': string, v': string)
    requires IsScheme(scheme) && Spells(first, key) && PlainKey(key) && IsBareText(v) && Separates(lead)
    requires Spells(second, key') && PlainKey(key') && IsPlainText(v') && key != key'
    ensures var text := (first + ("=" + v)) + (lead + (second + ("=" + ("\"" + v' + "\""))));
            Parsed(scheme + " " + text)
              == Some(Challenge(scheme,
                                Of("error", key, v, key', v'),
                                Of("error_description", key, v, key', v'),
                                Of("scope", key, v, key', v'),
                                Of("resource_metadata", key, v, key', v'),
                                Of("realm", key, v, key', v'),
                                0))
  {
    TwoParamsMean(scheme, first, key, v, lead, second, key', v');
    FieldsOfTwo(scheme, key, v, key', v');
  }

  lemma FieldsOfTwo(scheme: string, key: string, v: string, key': string, v': string)
    requires key != key'
    ensures FromParams(scheme, map[key := v, key' := v'])
         == Challenge(scheme, Of("error", key, v, key', v'), Of("error_description", key, v, key', v'),
                      Of("scope", key, v, key', v'), Of("resource_metadata", key, v, key', v'), Of("realm", key, v, key', v'), 0)
  {
    forall field
      ensures Challenges.Param(map[key := v, key' := v'], field) == Of(field, key, v, key', v')
    {
    }
  }

  lemma TwoParamsMean(scheme: string, first: string, key: string, v: string, lead: string,
                      second: string, key': string, v': string)
    requires IsScheme(scheme) && Spells(first, key) && PlainKey(key) && IsBareText(v) && Separates(lead)
    requires Spells(second, key') && PlainKey(key') && IsPlainText(v') && key != key'
    ensures var text := (first + ("=" + v)) + (lead + (second + ("=" + ("\"" + v' + "\""))));
            Parsed(scheme + " " + text) == Some(FromParams(scheme, map[key := v, key' := v']))
  {
    var p := ChallengeGrammar.Param("", first, TokenForm(v));
    var q := ChallengeGrammar.Param(lead, second, QuotedForm(PlainPieces(v')));
    SpelledIsLower(first, key);
    SpelledIsLower(second, key');
    PlainPiecesRead(v');
    TrimNothing(v);
    QuotedIsWellFormed(q, v');
    TwoParams(p, q);
    HeaderMeansItsList(scheme, [p, q], Junk(""));
    assert TrimRight("") == "";
    PutFirst(map[], Pair(key, v), [Pair(key', v')]);
    PutFirst(map[key := v], Pair(key', v'), []);
    assert [Pair(key', v')] + [] == [Pair(key', v')];
    assert map[key := v][key' := v'] == map[key := v, key' := v'];
  }

  lemma QuotedIsWellFormed(q: ChallengeGrammar.Param, v: string)
    requires Separates(q.lead) && ValidName(q.name) && IsPlainText(v) && q.form == QuotedForm(PlainPieces(v))
    ensures WellFormed([q], Junk("")) && ListText([q], Junk("")) == ParamText(q) && ParamText(q) != "" && ParamText(q)[0] == ','
  {
    forall i | 0 <= i < |v|
      ensures v[i] != '"' && v[i] != '\\'
    {
      assert v[i] in v;
    }
    assert [q][1..] == [];
    EmptyEnd(ParamText(q));
  }

  lemma TwoParams(p: ChallengeGrammar.Param, q: ChallengeGrammar.Param)
    requires p.lead == "" && ValidName(p.name) && ValidForm(p.form) && p.form.TokenForm?
    requires WellFormed([q], Junk("")) && ListText([q], Junk("")) == ParamText(q) && ParamText(q) != "" && ParamText(q)[0] == ','
    ensures WellFormed([p, q], Junk(""))
    ensures ListText([p, q], Junk("")) == (p.name + ("=" + p.form.raw)) + ParamText(q)
    ensures Meaning([p, q], Junk("")) == [ParamMeaning(p)] + [ParamMeaning(q)]
  {
    assert [p, q][1..] == [q] && [q][1..] == [];
    assert "" + (p.name + ("=" + p.form.raw)) == p.name + ("=" + p.form.raw);
    assert [ParamMeaning(q)] + [] == [ParamMeaning(q)];
    assert Meaning([], Junk("")) == [] && Meaning([q], Junk("")) == [ParamMeaning(q)];
  }

  /** Realm and SCOPE, for two, are read as realm and scope. */
  lemma CapitalsAreRead(scheme: string, v: string)
    requires IsScheme(scheme) && IsPlainText(v)
    ensures Parsed(scheme + " " + ("Realm" + ("=" + ("\"" + v + "\"")))) == Some(Challenge(scheme, "", "", "", "", v, 0))
    ensures Parsed(scheme + " " + ("SCOPE" + ("=" + ("\"" + v + "\"")))) == Some(Challenge(scheme, "", "", v, "", "", 0))
  {
    Capitals();
    FilledRealm(scheme, "Realm", v);
    FilledScope(scheme, "SCOPE", v);
  }

  lemma Capitals()
    ensures Spells("Realm", "realm") && Spells("SCOPE", "scope")
  {
  }

  lemma FilledRealm(scheme: string, name: string, v: string)
    requires IsScheme(scheme) && IsPlainText(v) && Spells(name, "realm")
    ensures Parsed(scheme + " " + (name + ("=" + ("\"" + v + "\"")))) == Some(Challenge(scheme, "", "", "", "", v, 0))
  {
    var key := "realm";
    assert PlainKey(key) && key[0] == 'r' && "error"[0] == 'e' && "scope"[0] == 's' && |key| == 5;
    NameFillsField(scheme, name, key, v);
  }

  lemma FilledScope(scheme: string, name: string, v: string)
    requires IsScheme(scheme) && IsPlainText(v) && Spells(name, "scope")
    ensures Parsed(scheme + " " + (name + ("=" + ("\"" + v + "\"")))) == Some(Challenge(scheme, "", "", v, "", "", 0))
  {
    var key := "scope";
    assert PlainKey(key) && key[0] == 's' && "error"[0] == 'e' && "realm"[0] == 'r' && |key| == 5;
    NameFillsField(scheme, name, key, v);
  }

  // ---- repeated parameters

  /** The last pair of a key is the one that counts; a key without a pair, and the empty key, have no value. */
  lemma {:induction false} LastPairCounts(pairs: seq<Pair>, i: nat)
    requires i < |pairs| && pairs[i].key != ""
    requires forall j :: i < j < |pairs| ==> pairs[j].key != pairs[i].key
    ensures pairs[i].key in Assigned(map[], pairs) && Assigned(map[], pairs)[pairs[i].key] == pairs[i].value
  {
    LastPairCountsIn(map[], pairs, i);
  }

  lemma {:induction false} LastPairCountsIn(m: map<string, string>, pairs: seq<Pair>, i: nat)
    requires i < |pairs| && pairs[i].key != ""
    requires forall j :: i < j < |pairs| ==> pairs[j].key != pairs[i].key
    ensures pairs[i].key in Assigned(m, pairs) && Assigned(m, pairs)[pairs[i].key] == pairs[i].value
    decreases |pairs|
  {
    if i == 0 {
      OthersDoNotCount(Put(m, pairs[0]), pairs[1..], pairs[0].key);
    } else {
      LastPairCountsIn(Put(m, pairs[0]), pairs[1..], i - 1);
    }
  }

  lemma {:induction false} OthersDoNotCount(m: map<string, string>, pairs: seq<Pair>, key: string)
    requires forall j :: 0 <= j < |pairs| ==> pairs[j].key != key
    ensures var r := Assigned(m, pairs);
            (key in r <==> key in m) && (key in m ==> r[key] == m[key])
    decreases |pairs|
  {
    if pairs != [] {
      OthersDoNotCount(Put(m, pairs[0]), pairs[1..], key);
    }
  }

  // ---- the printed header

  /** key="value" with a backslash before each quote and backslash of the value. */
  predicate IsField(text: string, key: string, v: string) {
    text == key + ("=" + ("\"" + Escaped(v) + "\""))
  }

  /** A backslash comes before each quote and each backslash, and nothing else is added. */
  lemma EscapedByCharacter(s: string, t: string, c: char)
    ensures Escaped("") == "" && Escaped(s + t) == Escaped(s) + Escaped(t)
    ensures Escaped([c]) == if c == '"' || c == '\\' then ['\\', c] else [c]
  {
    EscapedConcat(s, t);
    assert [c][1..] == "";
  }

  lemma {:induction false} EscapedConcat(s: string, t: string)
    ensures Escaped(s + t) == Escaped(s) + Escaped(t)
  {
    if s == "" {
      assert s + t == t;
    } else {
      assert (s + t)[1..] == s[1..] + t;
      EscapedConcat(s[1..], t);
    }
  }

  /** A challenge with every field prints them in this order, separated by a comma and a space. */
  lemma FieldsAreInOrder(c: Challenge, realm: string, error: string, description: string, scope: string, metadata: string)
    requires Stripped(c.realm) != "" && Stripped(c.error) != "" && Stripped(c.errorDescription) != ""
    requires Stripped(c.scope) != "" && Stripped(c.resourceMetadata) != ""
    requires IsField(realm, "realm", Stripped(c.realm)) && IsField(error, "error", Stripped(c.error))
    requires IsField(description, "error_description", Stripped(c.errorDescription))
    requires IsField(scope, "scope", Stripped(c.scope)) && IsField(metadata, "resource_metadata", Stripped(c.resourceMetadata))
    ensures Rendered(c) == RenderedScheme(c.scheme) + " "
           + (realm + (", " + (error + (", " + (description + (", " + (scope + (", " + metadata))))))))
  {
    EmittedFields(c);
    var parts := [realm, error, description, scope, metadata];
    OneEmitted("realm", c.realm, realm);
    OneEmitted("error", c.error, error);
    OneEmitted("error_description", c.errorDescription, description);
    OneEmitted("scope", c.scope, scope);
    OneEmitted("resource_metadata", c.resourceMetadata, metadata);
    assert Emitted(Fields(c)) == parts;
    JoinFive(realm, error, description, scope, metadata);
  }

  lemma JoinFive(a: string, b: string, c: string, d: string, e: string)
    ensures Join([a, b, c, d, e], ", ") == a + (", " + (b + (", " + (c + (", " + (d + (", " + e)))))))
  {
    assert [a] + [b, c, d, e] == [a, b, c, d, e] && [b] + [c, d, e] == [b, c, d, e];
    assert [c] + [d, e] == [c, d, e] && [d] + [e] == [d, e];
    JoinCons(a, [b, c, d, e]);
    JoinCons(b, [c, d, e]);
    JoinCons(c, [d, e]);
    JoinCons(d, [e]);
  }

  lemma OneEmitted(key: string, v: string, text: string)
    requires Stripped(v) != "" && IsField(text, key, Stripped(v))
    ensures Emitted([Pair(key, v)]) == [text]
  {
    assert [Pair(key, v)][1..] == [];
    Associative(key, "=", Quoted(v));
  }

  /** A field that is empty, or nothing but control characters, is not printed; without any the header is the scheme. */
  lemma EmptyFieldsAreLeftOut(c: Challenge)
    requires Stripped(c.realm) == "" && Stripped(c.error) == "" && Stripped(c.errorDescription) == ""
    requires Stripped(c.scope) == "" && Stripped(c.resourceMetadata) == ""
    ensures Rendered(c) == if SanitizedScheme(c.scheme) == "" then "Bearer" else SanitizedScheme(c.scheme)
  {
    EmittedFields(c);
  }
}
