/**
 The auth-param scanner of mcp/challenge.go (RFC 7235 section 4.1): what it
 returns as a function of the remaining text, and the index-driven loop proved
 to compute it.
 */
module ChallengeScanner {
  import opened ChallengeText

  /** One key=value occurrence, key lowercased and trimmed, value decoded. */
  datatype Pair = Pair(key: string, value: string)

  /** A decoded quoted-string and the text after its closing quote. */
  datatype QuotedRead = QuotedRead(value: string, rest: string)

  predicate IsSeparator(c: char) {
    c == ' ' || c == '\t' || c == ','
  }

  function SkipSeparators(s: string): (t: string)
    ensures |t| <= |s|
    ensures t != "" ==> !IsSeparator(t[0])
  {
    if s != "" && IsSeparator(s[0]) then SkipSeparators(s[1..]) else s
  }

  /** Reads up to the first unescaped quote, or to the end of the text. */
  function ReadQuoted(s: string): (r: QuotedRead)
    ensures |r.rest| <= |s|
  {
    if s == "" then QuotedRead("", "")
    else if s[0] == '\\' && |s| > 1 then
      var r := ReadQuoted(s[2..]);
      QuotedRead([s[1]] + r.value, r.rest)
    else if s[0] == '"' then QuotedRead("", s[1..])
    else
      var r := ReadQuoted(s[1..]);
      QuotedRead([s[0]] + r.value, r.rest)
  }

  /** The value at the start of s, quoted or bare, and the text after it. */
  function ReadValue(s: string): (r: QuotedRead)
    ensures |r.rest| <= |s|
  {
    if s != "" && s[0] == '"' then ReadQuoted(s[1..])
    else
      var j := IndexOf(s, ',');
      QuotedRead(TrimSpace(s[..j]), s[j..])
  }

  /** Every key=value occurrence of the text, in order. */
  function Pairs(s: string): seq<Pair>
    decreases |s|
  {
    var t := SkipSeparators(s);
    var k := IndexOf(t, '=');
    if k == |t| then []
    else
      var r := ReadValue(t[k + 1..]);
      [Pair(Lower(TrimSpace(t[..k])), r.value)] + Pairs(r.rest)
  }

  /** One map assignment of the scanner; an empty key is ignored. */
  function Put(m: map<string, string>, p: Pair): map<string, string> {
    if p.key == "" then m else m[p.key := p.value]
  }

  /** The pairs put into m one after the other. */
  function Assigned(m: map<string, string>, pairs: seq<Pair>): map<string, string>
    decreases |pairs|
  {
    if pairs == [] then m else Assigned(Put(m, pairs[0]), pairs[1..])
  }

  /** parseAuthParams: i strictly advances with every pair that is read. */
  method ParseAuthParams(s: string) returns (out: map<string, string>)
    ensures out == Assigned(map[], Pairs(s))
  {
    out := map[];
    var i := 0;
    assert s[0..] == s;
    while i < |s|
      invariant 0 <= i <= |s|
      invariant Assigned(out, Pairs(s[i..])) == Assigned(map[], Pairs(s))
    {
      var found, key, val, next := ScanPair(s, i);
      if !found {
        return;
      }
      PutFirst(out, Pair(key, val), Pairs(s[next..]));
      i := next;
      if key != "" {
        out := out[key := val];
      }
    }
  }

  lemma PutFirst(m: map<string, string>, p: Pair, rest: seq<Pair>)
    ensures Assigned(m, [p] + rest) == Assigned(Put(m, p), rest)
  {
    assert ([p] + rest)[1..] == rest;
  }

  /** One round of the loop: separators, a key up to '=', a quoted or bare value. */
  method ScanPair(s: string, from: nat) returns (found: bool, key: string, val: string, i: nat)
    requires from < |s|
    ensures !found ==> Pairs(s[from..]) == []
    ensures found ==> from < i <= |s| && Pairs(s[from..]) == [Pair(key, val)] + Pairs(s[i..])
  {
    found, key, val := false, "", "";
    i := ScanSeparators(s, from);
    if i >= |s| {
      NoPairs(s, from, i);
      return;
    }
    var start := i;
    i := ScanUntil(s, start, '=');
    if i >= |s| {
      assert s[start..i] == s[start..];
      NoPairs(s, from, start);
      return;
    }
    key := Lower(TrimSpace(s[start..i]));
    PairsStep(s, from, start, i);
    val, i := ScanValue(s, i + 1);
    found := true;
  }

  lemma NoPairs(s: string, from: nat, start: nat)
    requires from <= start <= |s|
    requires s[start..] == SkipSeparators(s[from..]) && '=' !in s[start..]
    ensures Pairs(s[from..]) == []
  {
    var t := s[start..];
    assert t[..|t|] == t;
    IndexOfAt(t, '=', |t|);
  }

  /** The value after '=': a quoted-string, or bare text up to a comma. */
  method ScanValue(s: string, from: nat) returns (val: string, i: nat)
    requires from <= |s|
    ensures from <= i <= |s|
    ensures ReadValue(s[from..]) == QuotedRead(val, s[i..])
  {
    if from < |s| && s[from] == '"' {
      assert s[from..][1..] == s[from + 1..];
      val, i := ScanQuoted(s, from + 1);
    } else {
      i := ScanUntil(s, from, ',');
      val := TrimSpace(s[from..i]);
      assert s[from..][..i - from] == s[from..i];
      assert s[from..][i - from..] == s[i..];
      IndexOfAt(s[from..], ',', i - from);
    }
  }

  /** One round of the scan, with the positions it stops at. */
  lemma PairsStep(s: string, from: nat, start: nat, eq: nat)
    requires from <= start <= eq < |s|
    requires s[start..] == SkipSeparators(s[from..])
    requires s[eq] == '=' && '=' !in s[start..eq]
    ensures Pairs(s[from..]) == [Pair(Lower(TrimSpace(s[start..eq])), ReadValue(s[eq + 1..]).value)]
                              + Pairs(ReadValue(s[eq + 1..]).rest)
  {
    var t, k := s[start..], eq - start;
    assert t[..k] == s[start..eq];
    IndexOfAt(t, '=', k);
    assert t[k + 1..] == s[eq + 1..];
  }

  /** The inner loop over separators. */
  method ScanSeparators(s: string, from: nat) returns (i: nat)
    requires from <= |s|
    ensures from <= i <= |s|
    ensures s[i..] == SkipSeparators(s[from..])
  {
    i := from;
    while i < |s| && (s[i] == ' ' || s[i] == '\t' || s[i] == ',')
      invariant from <= i <= |s|
      invariant SkipSeparators(s[from..]) == SkipSeparators(s[i..])
    {
      i := i + 1;
    }
  }

  /** The inner loops that look for one character: '=' after a key, ',' after a bare value. */
  method ScanUntil(s: string, from: nat, c: char) returns (i: nat)
    requires from <= |s|
    ensures from <= i <= |s|
    ensures c !in s[from..i]
    ensures i < |s| ==> s[i] == c
  {
    i := from;
    while i < |s| && s[i] != c
      invariant from <= i <= |s|
      invariant c !in s[from..i]
    {
      i := i + 1;
    }
  }

  /** The inner loop over a quoted-string, entered after the opening quote. */
  method ScanQuoted(s: string, from: nat) returns (val: string, i: nat)
    requires from <= |s|
    ensures from <= i <= |s|
    ensures ReadQuoted(s[from..]) == QuotedRead(val, s[i..])
  {
    val, i := "", from;
    QuotedStart(s, from);
    while i < |s|
      invariant from <= i <= |s|
      invariant ReadQuoted(s[from..]) == Prepend(val, ReadQuoted(s[i..]))
    {
      var ch := s[i];
      QuotedStep(s, i, val);
      if ch == '\\' && i + 1 < |s| {
        val := val + [s[i + 1]];
        i := i + 2;
      } else if ch == '"' {
        i := i + 1;
        return;
      } else {
        val := val + [ch];
        i := i + 1;
      }
    }
    QuotedEnd(s, val);
  }

  lemma QuotedEnd(s: string, val: string)
    ensures Prepend(val, ReadQuoted(s[|s|..])) == QuotedRead(val, s[|s|..])
  {
    assert s[|s|..] == "" && val + "" == val;
  }

  lemma QuotedStart(s: string, from: nat)
    requires from <= |s|
    ensures Prepend("", ReadQuoted(s[from..])) == ReadQuoted(s[from..])
  {
    var r := ReadQuoted(s[from..]);
    assert "" + r.value == r.value;
  }

  /** What one turn of the loop over a quoted-string leaves to be read. */
  lemma QuotedStep(s: string, i: nat, val: string)
    requires i < |s|
    ensures Prepend(val, ReadQuoted(s[i..]))
         == if s[i] == '\\' && i + 1 < |s| then Prepend(val + [s[i + 1]], ReadQuoted(s[i + 2..]))
            else if s[i] == '"' then QuotedRead(val, s[i + 1..])
            else Prepend(val + [s[i]], ReadQuoted(s[i + 1..]))
  {
    var t := s[i..];
    assert t[1..] == s[i + 1..];
    if s[i] == '\\' && i + 1 < |s| {
      assert t[2..] == s[i + 2..];
      PrependMore(val, s[i + 1], ReadQuoted(t[2..]));
    } else if s[i] != '"' {
      PrependMore(val, s[i], ReadQuoted(t[1..]));
    }
  }

  ghost function Prepend(val: string, r: QuotedRead): QuotedRead {
    QuotedRead(val + r.value, r.rest)
  }

  lemma PrependMore(val: string, c: char, r: QuotedRead)
    ensures Prepend(val, QuotedRead([c] + r.value, r.rest)) == Prepend(val + [c], r)
  {
  }
}
