/**
 Text operations of mcp/challenge.go. A Go string is modelled as a sequence of
 Unicode code points.
 */
module ChallengeText {

  /** unicode.IsSpace: the code points with the White_Space property. */
  predicate IsSpace(c: char) {
    || '\t' <= c <= '\r' || c == ' ' || c == '\U{85}' || c == '\U{A0}'
    || c == '\U{1680}' || '\U{2000}' <= c <= '\U{200A}' || c == '\U{2028}' || c == '\U{2029}'
    || c == '\U{202F}' || c == '\U{205F}' || c == '\U{3000}'
  }

  predicate IsControl(c: char) {
    c < ' ' || c == '\U{7F}'
  }

  predicate NotInToken(c: char) {
    IsControl(c) || IsSpace(c)
  }

  /** The characters of s that are not dropped, in order. */
  function Kept(s: string, drop: char -> bool): string {
    if s == "" then ""
    else if drop(s[0]) then Kept(s[1..], drop)
    else [s[0]] + Kept(s[1..], drop)
  }

  function Stripped(s: string): string {
    Kept(s, IsControl)
  }

  function SanitizedScheme(s: string): string {
    Kept(s, NotInToken)
  }

  lemma {:induction false} KeptDropsAll(s: string, drop: char -> bool)
    ensures forall i :: 0 <= i < |Kept(s, drop)| ==> !drop(Kept(s, drop)[i])
  {
    if s != "" {
      KeptDropsAll(s[1..], drop);
    }
  }

  lemma {:induction false} KeptIsIdentity(s: string, drop: char -> bool)
    requires forall i :: 0 <= i < |s| ==> !drop(s[i])
    ensures Kept(s, drop) == s
  {
    if s != "" {
      KeptIsIdentity(s[1..], drop);
    }
  }

  lemma KeptIsIdempotent(s: string, drop: char -> bool)
    ensures Kept(Kept(s, drop), drop) == Kept(s, drop)
  {
    KeptDropsAll(s, drop);
    KeptIsIdentity(Kept(s, drop), drop);
  }

  lemma {:induction false} KeptAppend(s: string, c: char, drop: char -> bool)
    ensures Kept(s + [c], drop) == Kept(s, drop) + (if drop(c) then "" else [c])
  {
    if s != "" {
      assert (s + [c])[1..] == s[1..] + [c];
      KeptAppend(s[1..], c, drop);
    }
  }

  /** stripControl: the builder loop, skipped when there is nothing to remove. */
  method StripControl(s: string) returns (r: string)
    ensures r == Stripped(s)
  {
    if forall i :: 0 <= i < |s| ==> !IsControl(s[i]) {
      KeptIsIdentity(s, IsControl);
      return s;
    }
    r := "";
    for i := 0 to |s|
      invariant r == Stripped(s[..i])
    {
      assert s[..i + 1] == s[..i] + [s[i]];
      KeptAppend(s[..i], s[i], IsControl);
      if !IsControl(s[i]) {
        r := r + [s[i]];
      }
    }
    assert s[..|s|] == s;
  }

  /** The strings.NewReplacer of quoteString: a backslash before each backslash and quote. */
  function Escaped(s: string): string {
    if s == "" then ""
    else (if s[0] == '\\' || s[0] == '"' then ['\\', s[0]] else [s[0]]) + Escaped(s[1..])
  }

  function Quoted(s: string): string {
    "\"" + Escaped(Stripped(s)) + "\""
  }

  function TrimLeft(s: string): string {
    if s != "" && IsSpace(s[0]) then TrimLeft(s[1..]) else s
  }

  function TrimRight(s: string): string {
    if s != "" && IsSpace(s[|s| - 1]) then TrimRight(s[..|s| - 1]) else s
  }

  function TrimSpace(s: string): string {
    TrimRight(TrimLeft(s))
  }

  /**
   unicode.ToLower as far as it can reach ASCII: besides A-Z only U+0130 and
   U+212A have an ASCII lower case.
   */
  function LowerChar(c: char): char {
    if 'A' <= c <= 'Z' then (c as int + 32) as char
    else if c == '\U{130}' then 'i'
    else if c == '\U{212A}' then 'k'
    else c
  }

  function Lower(s: string): string {
    seq(|s|, i requires 0 <= i < |s| => LowerChar(s[i]))
  }

  /** The index of the first c in s, or |s|. */
  function IndexOf(s: string, c: char): (k: nat)
    ensures k <= |s|
  {
    if s == "" || s[0] == c then 0 else 1 + IndexOf(s[1..], c)
  }

  lemma {:induction false} IndexOfAt(s: string, c: char, k: nat)
    requires k <= |s|
    requires c !in s[..k]
    requires k < |s| ==> s[k] == c
    ensures IndexOf(s, c) == k
  {
    if k > 0 {
      assert s[0] == s[..k][0];
      assert s[1..][..k - 1] == s[..k][1..];
      IndexOfAt(s[1..], c, k - 1);
    }
  }
}
