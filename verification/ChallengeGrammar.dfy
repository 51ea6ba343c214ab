/**
 The auth-param list as a grammar (RFC 7235 section 2.1, RFC 7230 section
 3.2.6): parameters with their separators, names, and quoted or bare values,
 and a tail. Every text has exactly one reading of this shape as far as the
 scanner is concerned, and the scanner returns the meaning of that reading.
 */
module ChallengeGrammar {
  import opened ChallengeText
  import opened ChallengeScanner

  /** A character of a quoted-string: itself, or a quoted-pair. */
  datatype Piece = Plain(c: char) | Escape(c: char)

  datatype Form = QuotedForm(pieces: seq<Piece>) | TokenForm(raw: string)

  /** Separators, the name up to '=', and the value. */
  datatype Param = Param(lead: string, name: string, form: Form)

  /**
   What follows the last parameter: text without '=', or a parameter whose
   quoted-string is not closed and may end in a lone backslash.
   */
  datatype Tail =
    | Junk(text: string)
    | Unclosed(lead: string, name: string, pieces: seq<Piece>, backslash: bool)

  function PieceText(p: Piece): string {
    match p
    case Plain(c) => [c]
    case Escape(c) => ['\\', c]
  }

  function PiecesText(ps: seq<Piece>): string {
    if ps == [] then "" else PieceText(ps[0]) + PiecesText(ps[1..])
  }

  function PiecesValue(ps: seq<Piece>): string {
    if ps == [] then "" else [ps[0].c] + PiecesValue(ps[1..])
  }

  function FormText(f: Form): string {
    match f
    case QuotedForm(ps) => "\"" + PiecesText(ps) + "\""
    case TokenForm(raw) => raw
  }

  function FormValue(f: Form): string {
    match f
    case QuotedForm(ps) => PiecesValue(ps)
    case TokenForm(raw) => TrimSpace(raw)
  }

  function ParamText(p: Param): string {
    p.lead + (p.name + ("=" + FormText(p.form)))
  }

  function TailText(t: Tail): string {
    match t
    case Junk(text) => text
    case Unclosed(lead, name, pieces, backslash) =>
      lead + (name + ("=" + ("\"" + (PiecesText(pieces) + (if backslash then "\\" else "")))))
  }

  function ListText(ps: seq<Param>, t: Tail): string {
    if ps == [] then TailText(t) else ParamText(ps[0]) + ListText(ps[1..], t)
  }

  function TailMeaning(t: Tail): seq<Pair> {
    match t
    case Junk(_) => []
    case Unclosed(_, name, pieces, backslash) =>
      [Pair(Lower(TrimSpace(name)), PiecesValue(pieces) + (if backslash then "\\" else ""))]
  }

  function ParamMeaning(p: Param): Pair {
    Pair(Lower(TrimSpace(p.name)), FormValue(p.form))
  }

  function Meaning(ps: seq<Param>, t: Tail): seq<Pair> {
    if ps == [] then TailMeaning(t) else [ParamMeaning(ps[0])] + Meaning(ps[1..], t)
  }

  predicate AllSeparators(s: string) {
    forall i :: 0 <= i < |s| ==> IsSeparator(s[i])
  }

  predicate ValidName(s: string) {
    '=' !in s && (s != "" ==> !IsSeparator(s[0]))
  }

  predicate ValidPieces(ps: seq<Piece>) {
    forall i :: 0 <= i < |ps| && ps[i].Plain? ==> ps[i].c != '"' && ps[i].c != '\\'
  }

  predicate ValidForm(f: Form) {
    match f
    case QuotedForm(ps) => ValidPieces(ps)
    case TokenForm(raw) => ',' !in raw && (raw != "" ==> raw[0] != '"')
  }

  predicate ValidTail(t: Tail) {
    match t
    case Junk(text) => '=' !in text
    case Unclosed(lead, name, pieces, _) => AllSeparators(lead) && ValidName(name) && ValidPieces(pieces)
  }

  /** Each part is well formed, and a bare value ends the text or is followed by a comma. */
  predicate WellFormed(ps: seq<Param>, t: Tail) {
    if ps == [] then ValidTail(t)
    else
      var rest := ListText(ps[1..], t);
      && AllSeparators(ps[0].lead) && ValidName(ps[0].name) && ValidForm(ps[0].form)
      && (ps[0].form.TokenForm? && rest != "" ==> rest[0] == ',')
      && WellFormed(ps[1..], t)
  }

  // ---- from the grammar to the scanner

  lemma {:induction false} SkipLead(lead: string, s: string)
    requires AllSeparators(lead)
    requires s != "" ==> !IsSeparator(s[0])
    ensures SkipSeparators(lead + s) == s
  {
    if lead == "" {
      assert lead + s == s;
    } else {
      assert (lead + s)[1..] == lead[1..] + s;
      SkipLead(lead[1..], s);
    }
  }

  lemma NameThenValue(lead: string, name: string, s: string)
    requires AllSeparators(lead) && ValidName(name)
    ensures Pairs(lead + (name + ("=" + s)))
         == [Pair(Lower(TrimSpace(name)), ReadValue(s).value)] + Pairs(ReadValue(s).rest)
  {
    var t := name + ("=" + s);
    SkipLead(lead, t);
    assert t[..|name|] == name && t[|name| + 1..] == s;
    IndexOfAt(t, '=', |name|);
  }

  lemma {:induction false} ReadClosed(ps: seq<Piece>, rest: string)
    requires ValidPieces(ps)
    ensures ReadQuoted(PiecesText(ps) + ("\"" + rest)) == QuotedRead(PiecesValue(ps), rest)
  {
    var s := PiecesText(ps) + ("\"" + rest);
    if ps == [] {
      assert s == "\"" + rest;
      assert s[1..] == rest;
    } else {
      var tail := PiecesText(ps[1..]) + ("\"" + rest);
      assert s == PieceText(ps[0]) + tail;
      assert s[|PieceText(ps[0])|..] == tail;
      ReadClosed(ps[1..], rest);
    }
  }

  lemma {:induction false} ReadUnclosed(ps: seq<Piece>, end: string)
    requires ValidPieces(ps)
    requires end == "" || end == "\\"
    ensures ReadQuoted(PiecesText(ps) + end) == QuotedRead(PiecesValue(ps) + end, "")
  {
    var s := PiecesText(ps) + end;
    if ps == [] {
      assert s == end;
      assert end != "" ==> end[1..] == "";
    } else {
      var tail := PiecesText(ps[1..]) + end;
      assert s == PieceText(ps[0]) + tail;
      assert s[|PieceText(ps[0])|..] == tail;
      ReadUnclosed(ps[1..], end);
      assert [ps[0].c] + (PiecesValue(ps[1..]) + end) == PiecesValue(ps) + end;
    }
  }

  lemma Associative(a: string, b: string, c: string)
    ensures (a + b) + c == a + (b + c)
  {
  }

  lemma ReadForm(f: Form, rest: string)
    requires ValidForm(f)
    requires f.TokenForm? && rest != "" ==> rest[0] == ','
    ensures ReadValue(FormText(f) + rest) == QuotedRead(FormValue(f), rest)
  {
    var s := FormText(f) + rest;
    match f
    case QuotedForm(ps) =>
      var q, body := "\"", PiecesText(ps);
      Associative(q + body, q, rest);
      Associative(q, body, q + rest);
      assert s[1..] == body + (q + rest);
      ReadClosed(ps, rest);
    case TokenForm(raw) =>
      assert s[..|raw|] == raw && s[|raw|..] == rest;
      IndexOfAt(s, ',', |raw|);
  }

  lemma JunkHasNoPairs(s: string)
    requires '=' !in s
    ensures Pairs(s) == []
  {
    if s != "" && IsSeparator(s[0]) {
      JunkHasNoPairs(s[1..]);
    } else {
      assert s[..|s|] == s;
      IndexOfAt(s, '=', |s|);
    }
  }

  lemma TailIsScanned(t: Tail)
    requires ValidTail(t)
    ensures Pairs(TailText(t)) == TailMeaning(t)
  {
    match t
    case Junk(text) => JunkHasNoPairs(text);
    case Unclosed(lead, name, pieces, backslash) =>
      var end := if backslash then "\\" else "";
      var s := "\"" + (PiecesText(pieces) + end);
      NameThenValue(lead, name, s);
      assert s[1..] == PiecesText(pieces) + end;
      ReadUnclosed(pieces, end);
      assert Pairs("") == [];
  }

  lemma ParamThenRest(p: Param, rest: string)
    requires AllSeparators(p.lead) && ValidName(p.name) && ValidForm(p.form)
    requires p.form.TokenForm? && rest != "" ==> rest[0] == ','
    ensures Pairs(ParamText(p) + rest) == [ParamMeaning(p)] + Pairs(rest)
  {
    var form := FormText(p.form);
    Associative(p.lead, p.name + ("=" + form), rest);
    Associative(p.name, "=" + form, rest);
    Associative("=", form, rest);
    NameThenValue(p.lead, p.name, form + rest);
    ReadForm(p.form, rest);
  }

  /** The scanner returns the meaning of every well-formed text. */
  lemma {:induction false} ScannerMeetsGrammar(ps: seq<Param>, t: Tail)
    requires WellFormed(ps, t)
    ensures Pairs(ListText(ps, t)) == Meaning(ps, t)
  {
    if ps == [] {
      TailIsScanned(t);
    } else {
      var p, rest := ps[0], ListText(ps[1..], t);
      ParamThenRest(p, rest);
      ScannerMeetsGrammar(ps[1..], t);
    }
  }

  // ---- from any text to the grammar

  lemma {:induction false} SplitLead(s: string) returns (lead: string)
    ensures AllSeparators(lead) && s == lead + SkipSeparators(s)
  {
    if s != "" && IsSeparator(s[0]) {
      var l := SplitLead(s[1..]);
      lead := [s[0]] + l;
    } else {
      lead := "";
    }
  }

  /** The first c of s splits it. */
  lemma {:induction false} SplitAt(s: string, c: char)
    ensures c !in s[..IndexOf(s, c)]
    ensures IndexOf(s, c) < |s| ==> s[IndexOf(s, c)] == c
  {
    if s != "" && s[0] != c {
      SplitAt(s[1..], c);
      assert s[..IndexOf(s, c)] == [s[0]] + s[1..][..IndexOf(s[1..], c)];
    }
  }

  /** A quoted-string body: its pieces, then a closing quote or the end of the text. */
  lemma {:induction false} SplitQuoted(s: string) returns (ps: seq<Piece>, closed: bool, end: string)
    ensures ValidPieces(ps)
    ensures closed ==> s == PiecesText(ps) + ("\"" + end)
    ensures !closed ==> s == PiecesText(ps) + end && (end == "" || end == "\\")
    decreases |s|
  {
    if s == "" || s == "\\" {
      ps, closed, end := [], false, s;
    } else if s[0] == '"' {
      ps, closed, end := [], true, s[1..];
    } else if s[0] == '\\' {
      var qs;
      qs, closed, end := SplitQuoted(s[2..]);
      ps := [Escape(s[1])] + qs;
      assert s == PieceText(ps[0]) + s[2..];
      assert ps[1..] == qs;
    } else {
      var qs;
      qs, closed, end := SplitQuoted(s[1..]);
      ps := [Plain(s[0])] + qs;
      assert s == PieceText(ps[0]) + s[1..];
      assert ps[1..] == qs;
    }
  }

  /** A text with '=' starts with separators, a name and '='. */
  lemma SplitName(s: string) returns (lead: string, name: string, v: string)
    requires '=' in s
    ensures AllSeparators(lead) && ValidName(name)
    ensures s == lead + (name + ("=" + v))
  {
    lead := SplitLead(s);
    InRest(lead, SkipSeparators(s), '=');
    name, v := SplitFirst(SkipSeparators(s), '=');
  }

  lemma InRest(a: string, b: string, c: char)
    requires c in a + b && c !in a
    ensures c in b
  {
  }

  lemma SplitFirst(u: string, c: char) returns (before: string, after: string)
    requires c in u
    ensures u == before + ([c] + after) && c !in before
    ensures before != "" ==> before[0] == u[0]
  {
    SplitAt(u, c);
    var k := IndexOf(u, c);
    assert u == u[..k] + u[k..];
    InRest(u[..k], u[k..], c);
    before, after := u[..k], u[k + 1..];
  }

  /** A value is well formed, up to an unclosed quote. */
  lemma SplitValue(v: string) returns (closed: bool, form: Form, rest: string)
    ensures closed ==> ValidForm(form) && v == FormText(form) + rest
    ensures closed && form.TokenForm? && rest != "" ==> rest[0] == ','
    ensures !closed ==> form.QuotedForm? && ValidPieces(form.pieces)
    ensures !closed ==> rest == "" || rest == "\\"
    ensures !closed ==> v == "\"" + (PiecesText(form.pieces) + rest)
  {
    if v != "" && v[0] == '"' {
      var ps;
      ps, closed, rest := SplitQuoted(v[1..]);
      form := QuotedForm(ps);
      assert v == "\"" + v[1..];
    } else {
      SplitAt(v, ',');
      var j := IndexOf(v, ',');
      assert v == v[..j] + v[j..];
      closed, form, rest := true, TokenForm(v[..j]), v[j..];
    }
  }

  /** Every text is a well-formed list. */
  lemma {:induction false} EveryTextIsWellFormed(s: string) returns (ps: seq<Param>, t: Tail)
    ensures WellFormed(ps, t) && s == ListText(ps, t)
    decreases |s|, 0
  {
    if '=' !in s {
      ps, t := [], Junk(s);
    } else {
      var lead, name, v := SplitName(s);
      var closed, form, rest := SplitValue(v);
      if closed {
        ps, t := PrependParam(Param(lead, name, form), rest);
      } else {
        ps, t := [], Unclosed(lead, name, form.pieces, rest == "\\");
      }
    }
  }

  lemma {:induction false} PrependParam(p: Param, rest: string) returns (ps: seq<Param>, t: Tail)
    requires AllSeparators(p.lead) && ValidName(p.name) && ValidForm(p.form)
    requires p.form.TokenForm? && rest != "" ==> rest[0] == ','
    ensures WellFormed(ps, t) && ListText(ps, t) == ParamText(p) + rest
    decreases |rest|, 1
  {
    var qs;
    qs, t := EveryTextIsWellFormed(rest);
    ps := [p] + qs;
    assert ps[1..] == qs;
  }

  // ---- white space at the end

  function LastIsSpace(s: string): bool {
    s != "" && IsSpace(s[|s| - 1])
  }

  /** The tail that is left when white space is cut off the end of an unclosed quoted-string. */
  function CutPieces(ps: seq<Piece>): (seq<Piece>, bool)
  {
    if ps == [] || !IsSpace(ps[|ps| - 1].c) then (ps, false)
    else if ps[|ps| - 1].Escape? then (ps[..|ps| - 1], true)
    else CutPieces(ps[..|ps| - 1])
  }

  lemma {:induction false} PiecesAppend(ps: seq<Piece>, p: Piece)
    ensures PiecesText(ps + [p]) == PiecesText(ps) + PieceText(p)
    ensures PiecesValue(ps + [p]) == PiecesValue(ps) + [p.c]
  {
    if ps == [] {
      assert [p][1..] == [];
    } else {
      assert (ps + [p])[1..] == ps[1..] + [p];
      PiecesAppend(ps[1..], p);
    }
  }

  lemma TrimRightKeeps(s: string)
    requires !LastIsSpace(s)
    ensures TrimRight(s) == s
  {
  }

  lemma TrimRightStep(s: string, c: char)
    requires IsSpace(c)
    ensures TrimRight(s + [c]) == TrimRight(s)
  {
    assert (s + [c])[..|s|] == s;
  }

  /** Cutting white space changes what an unclosed quoted-string means, unless it does not end in any. */
  lemma {:induction false} CutIsTrimmed(before: string, ps: seq<Piece>)
    requires ValidPieces(ps) && before != "" && !LastIsSpace(before)
    ensures var (qs, backslash) := CutPieces(ps);
            var end := if backslash then "\\" else "";
            && ValidPieces(qs)
            && TrimRight(before + PiecesText(ps)) == before + (PiecesText(qs) + end)
            && (PiecesValue(qs) + end == PiecesValue(ps) <==> !LastIsSpace(PiecesText(ps)))
            && |PiecesValue(qs) + end| <= |PiecesValue(ps)|
    decreases |ps|
  {
    if ps == [] {
      assert before + "" == before;
    } else {
      var front, p := ps[..|ps| - 1], ps[|ps| - 1];
      assert ps == front + [p];
      PiecesAppend(front, p);
      assert before + PiecesText(ps) == before + PiecesText(front) + PieceText(p);
      CutOne(before, front, p);
      if IsSpace(p.c) && p.Plain? {
        CutIsTrimmed(before, front);
        assert |PiecesValue(ps)| == |PiecesValue(front)| + 1;
      } else if IsSpace(p.c) {
        assert (PiecesValue(front) + "\\")[|PiecesValue(front)|] != PiecesValue(ps)[|PiecesValue(front)|];
      } else {
        assert before + (PiecesText(ps) + "") == before + PiecesText(ps) && PiecesValue(ps) + "" == PiecesValue(ps);
      }
    }
  }

  /** The last piece: nothing to cut, or one character to cut off it. */
  lemma CutOne(before: string, front: seq<Piece>, p: Piece)
    ensures var text := before + PiecesText(front) + PieceText(p);
            && LastIsSpace(text) == IsSpace(p.c) == LastIsSpace(PiecesText(front) + PieceText(p))
            && (!IsSpace(p.c) ==> TrimRight(text) == text)
            && (IsSpace(p.c) && p.Plain? ==> TrimRight(text) == TrimRight(before + PiecesText(front)))
            && (IsSpace(p.c) && p.Escape? ==> TrimRight(text) == before + (PiecesText(front) + "\\"))
  {
    var t := before + PiecesText(front);
    if IsSpace(p.c) {
      if p.Plain? {
        TrimRightStep(t, p.c);
      } else {
        assert t + PieceText(p) == t + "\\" + [p.c];
        TrimRightStep(t + "\\", p.c);
        TrimRightKeeps(t + "\\");
        assert t + "\\" == before + (PiecesText(front) + "\\");
      }
    }
  }

  lemma {:induction false} TrimRightConcat(a: string, b: string)
    ensures TrimRight(a + b) == if TrimRight(b) == "" then TrimRight(a) else a + TrimRight(b)
    decreases |b|
  {
    if b == "" {
      assert a + b == a;
    } else {
      var front, c := b[..|b| - 1], b[|b| - 1];
      assert a + b == a + front + [c];
      if IsSpace(c) {
        TrimRightStep(a + front, c);
        TrimRightConcat(a, front);
      } else {
        TrimRightKeeps(a + b);
      }
    }
  }

  lemma {:induction false} TrimRightIsPrefix(s: string)
    ensures TrimRight(s) <= s && TrimRight(TrimRight(s)) == TrimRight(s)
    decreases |s|
  {
    if LastIsSpace(s) {
      TrimRightIsPrefix(s[..|s| - 1]);
    }
  }

  lemma {:induction false} TrimSpaceOfTrimmed(s: string)
    ensures TrimSpace(TrimRight(s)) == TrimSpace(s)
  {
    TrimRightIsPrefix(s);
    if s != "" {
      assert s == [s[0]] + s[1..];
      TrimRightConcat([s[0]], s[1..]);
      TrimSpaceOfTrimmed(s[1..]);
    }
  }

  /** The tail that is left when white space is cut off the end of the text. */
  function CutTail(t: Tail): Tail {
    match t
    case Junk(text) => Junk(TrimRight(text))
    case Unclosed(lead, name, pieces, backslash) =>
      if backslash then t
      else
        var (qs, b) := CutPieces(pieces);
        Unclosed(lead, name, qs, b)
  }

  /** White space at the end of the text is no part of a value. */
  predicate EndsCleanly(t: Tail) {
    t.Unclosed? && !t.backslash ==> !LastIsSpace(PiecesText(t.pieces))
  }

  function UnclosedStart(lead: string, name: string): string {
    lead + (name + ("=" + "\""))
  }

  lemma UnclosedText(lead: string, name: string, body: string)
    ensures lead + (name + ("=" + ("\"" + body))) == UnclosedStart(lead, name) + body
    ensures UnclosedStart(lead, name) != "" && !LastIsSpace(UnclosedStart(lead, name))
  {
  }

  lemma TailIsCut(t: Tail)
    requires ValidTail(t)
    ensures Pairs(TrimRight(TailText(t))) == TailMeaning(CutTail(t))
    ensures TailMeaning(CutTail(t)) == TailMeaning(t) <==> EndsCleanly(t)
  {
    match t
    case Junk(text) =>
      TrimRightIsPrefix(text);
      JunkHasNoPairs(TrimRight(text));
    case Unclosed(lead, name, pieces, backslash) =>
      if backslash {
        UnclosedText(lead, name, PiecesText(pieces) + "\\");
        TrimRightKeeps(UnclosedStart(lead, name) + (PiecesText(pieces) + "\\"));
      } else {
        UnclosedIsCut(lead, name, pieces);
      }
      TailIsScanned(CutTail(t));
  }

  lemma UnclosedIsCut(lead: string, name: string, pieces: seq<Piece>)
    requires ValidPieces(pieces) && ValidName(name) && AllSeparators(lead)
    ensures var t := Unclosed(lead, name, pieces, false);
            && ValidTail(CutTail(t))
            && TrimRight(TailText(t)) == TailText(CutTail(t))
            && (TailMeaning(CutTail(t)) == TailMeaning(t) <==> EndsCleanly(t))
  {
    var (qs, backslash) := CutPieces(pieces);
    var end := if backslash then "\\" else "";
    EmptyEnd(PiecesText(pieces));
    EmptyEnd(PiecesValue(pieces));
    UnclosedText(lead, name, PiecesText(pieces));
    UnclosedText(lead, name, PiecesText(qs) + end);
    CutIsTrimmed(UnclosedStart(lead, name), pieces);
  }

  lemma EmptyEnd(s: string)
    ensures s + "" == s
  {
  }

  /** Cut at the end, a well-formed text means what it meant, but for an unclosed quoted-string that ends in white space. */
  lemma {:induction false} CutListIsScanned(ps: seq<Param>, t: Tail)
    requires WellFormed(ps, t)
    ensures Pairs(TrimRight(ListText(ps, t))) == Meaning(ps, CutTail(t))
  {
    if ps == [] {
      TailIsCut(t);
    } else {
      var p, rest := ps[0], ListText(ps[1..], t);
      CutListIsScanned(ps[1..], t);
      TrimRightConcat(ParamText(p), rest);
      TrimRightIsPrefix(rest);
      if TrimRight(rest) != "" {
        ParamThenRest(p, TrimRight(rest));
      } else {
        LastParamIsCut(p);
        assert Pairs("") == [];
        assert Meaning(ps, CutTail(t)) == [ParamMeaning(p)] + [];
      }
    }
  }

  lemma LastParamIsCut(p: Param)
    requires AllSeparators(p.lead) && ValidName(p.name) && ValidForm(p.form)
    ensures Pairs(TrimRight(ParamText(p))) == [ParamMeaning(p)]
  {
    match p.form
    case QuotedForm(pieces) =>
      Associative(p.lead, p.name, "=" + FormText(p.form));
      TrimRightKeeps(ParamText(p));
      LastParam(p);
    case TokenForm(raw) =>
      var q := p.(form := TokenForm(TrimRight(raw)));
      TrimRightIsPrefix(raw);
      TrimSpaceOfTrimmed(raw);
      TokenText(p.lead, p.name, raw);
      TokenText(p.lead, p.name, TrimRight(raw));
      TrimRightConcat(TokenStart(p.lead, p.name), raw);
      TrimRightKeeps(TokenStart(p.lead, p.name));
      EmptyEnd(TokenStart(p.lead, p.name));
      LastParam(q);
  }

  lemma LastParam(p: Param)
    requires AllSeparators(p.lead) && ValidName(p.name) && ValidForm(p.form)
    ensures Pairs(ParamText(p)) == [ParamMeaning(p)]
  {
    EmptyEnd(ParamText(p));
    ParamThenRest(p, "");
    assert Pairs("") == [];
  }

  function TokenStart(lead: string, name: string): string {
    lead + (name + "=")
  }

  lemma TokenText(lead: string, name: string, raw: string)
    ensures ParamText(Param(lead, name, TokenForm(raw))) == TokenStart(lead, name) + raw
    ensures !LastIsSpace(TokenStart(lead, name))
  {
    Associative(name, "=", raw);
    Associative(lead, name + "=", raw);
  }

  lemma {:induction false} CutKeepsMeaning(ps: seq<Param>, t: Tail)
    requires WellFormed(ps, t)
    ensures Meaning(ps, CutTail(t)) == Meaning(ps, t) <==> EndsCleanly(t)
  {
    if ps == [] {
      TailIsCut(t);
    } else {
      CutKeepsMeaning(ps[1..], t);
      assert Meaning(ps, CutTail(t))[1..] == Meaning(ps[1..], CutTail(t));
      assert Meaning(ps, t)[1..] == Meaning(ps[1..], t);
    }
  }

  // ---- order independence

  /** At most one pair has the key. */
  predicate Once(pairs: seq<Pair>, key: string) {
    forall i, j :: 0 <= i < j < |pairs| && pairs[i].key == key ==> pairs[j].key != key
  }

  /** A key that occurs at most once is assigned its pair, wherever that stands. */
  lemma {:induction false} AssignedOnce(m: map<string, string>, pairs: seq<Pair>, key: string)
    requires Once(pairs, key) && key != ""
    ensures var r := Assigned(m, pairs);
            if exists p :: p in pairs && p.key == key
            then key in r && Pair(key, r[key]) in pairs
            else (key in r <==> key in m) && (key in m ==> r[key] == m[key])
    decreases |pairs|
  {
    if pairs != [] {
      var p := pairs[0];
      AssignedOnce(Put(m, p), pairs[1..], key);
      assert pairs == [p] + pairs[1..];
      if p.key == key {
        assert p in pairs;
        assert forall q :: q in pairs[1..] ==> q.key != key;
      }
    }
  }

  lemma {:induction false} AtMostOnce(xs: seq<Pair>, p: Pair)
    requires Once(xs, p.key)
    ensures multiset(xs)[p] <= 1
  {
    if xs != [] {
      assert xs == [xs[0]] + xs[1..];
      AtMostOnce(xs[1..], p);
      assert xs[0] == p ==> p !in multiset(xs[1..]);
    }
  }

  lemma Twice(ys: seq<Pair>, i: nat, j: nat)
    requires i < j < |ys| && ys[i] == ys[j]
    ensures multiset(ys)[ys[i]] >= 2
  {
    assert ys == ys[..i] + [ys[i]] + ys[i + 1..j] + [ys[j]] + ys[j + 1..];
  }

  lemma OncePermuted(xs: seq<Pair>, ys: seq<Pair>, key: string)
    requires Once(xs, key) && multiset(xs) == multiset(ys)
    ensures Once(ys, key)
  {
    forall i, j | 0 <= i < j < |ys| && ys[i].key == key
      ensures ys[j].key != key
    {
      AtMostOnce(xs, ys[i]);
      if ys[i] == ys[j] {
        Twice(ys, i, j);
      }
      assert ys[i] in multiset(ys) && ys[j] in multiset(ys);
      assert ys[i] in xs && ys[j] in xs;
    }
  }

  /** Lists of the same pairs assign the same value to a key that occurs at most once. */
  lemma AssignedPermuted(xs: seq<Pair>, ys: seq<Pair>, key: string)
    requires Once(xs, key) && key != "" && multiset(xs) == multiset(ys)
    ensures var f, g := Assigned(map[], xs), Assigned(map[], ys);
            (key in f <==> key in g) && (key in f ==> f[key] == g[key])
  {
    OncePermuted(xs, ys, key);
    AssignedOnce(map[], xs, key);
    AssignedOnce(map[], ys, key);
    var f, g := Assigned(map[], xs), Assigned(map[], ys);
    assert forall p :: p in xs <==> p in multiset(xs);
    assert forall p :: p in ys <==> p in multiset(ys);
    if key in f {
      assert Pair(key, f[key]) in xs && Pair(key, g[key]) in ys;
      assert Pair(key, f[key]) in ys;
    }
    if key in g {
      assert Pair(key, g[key]) in ys && Pair(key, g[key]) in xs;
    }
  }
}
