/** ASCII text: whitespace and trimming. */
module Text {

  /** The ASCII characters trimming and word splitting treat as white space. */
  predicate IsSpace(c: char)
  {
    c == ' ' || c == '\t' || c == '\n' || c == '\r' || c == '\U{0B}' || c == '\U{0C}'
  }

  function TrimStart(s: string): string
  {
    if s != [] && IsSpace(s[0]) then TrimStart(s[1..]) else s
  }

  function TrimEnd(s: string): string
  {
    if s != [] && IsSpace(s[|s| - 1]) then TrimEnd(s[..|s| - 1]) else s
  }

  function Trim(s: string): string
  {
    TrimEnd(TrimStart(s))
  }

  /** No white space at either end. */
  predicate Trimmed(s: string)
  {
    s != [] ==> !IsSpace(s[0]) && !IsSpace(s[|s| - 1])
  }

  lemma {:induction false} TrimStartEnds(s: string)
    ensures var t := TrimStart(s);
            (t != [] ==> !IsSpace(t[0])) && |t| <= |s| && t == s[|s| - |t|..]
  {
    if s != [] && IsSpace(s[0]) {
      TrimStartEnds(s[1..]);
    }
  }

  lemma {:induction false} TrimEndEnds(s: string)
    ensures var t := TrimEnd(s);
            (t != [] ==> !IsSpace(t[|t| - 1])) && |t| <= |s| && t == s[..|t|]
  {
    if s != [] && IsSpace(s[|s| - 1]) {
      TrimEndEnds(s[..|s| - 1]);
    }
  }

  /** Trimming leaves no outer white space, and a second trim changes nothing. */
  lemma TrimIdempotent(s: string)
    ensures Trimmed(Trim(s)) && Trim(Trim(s)) == Trim(s)
    ensures Trimmed(s) ==> Trim(s) == s
  {
    TrimStartEnds(s);
    TrimEndEnds(TrimStart(s));
  }

  /** The white space characters are the blank and those from tab (9) to carriage return (13). */
  lemma SpacesAre(c: char)
    ensures IsSpace(c) <==> c == ' ' || '\t' <= c <= '\r'
  {
  }

  predicate AllSpace(s: string)
  {
    forall i | 0 <= i < |s| :: IsSpace(s[i])
  }

  lemma {:induction false} TrimStartOff(s: string) returns (before: string)
    ensures s == before + TrimStart(s) && AllSpace(before)
  {
    before := "";
    if s != [] && IsSpace(s[0]) {
      before := TrimStartOff(s[1..]);
      before := [s[0]] + before;
    }
  }

  lemma {:induction false} TrimEndOff(s: string) returns (after: string)
    ensures s == TrimEnd(s) + after && AllSpace(after)
  {
    after := "";
    if s != [] && IsSpace(s[|s| - 1]) {
      after := TrimEndOff(s[..|s| - 1]);
      after := after + [s[|s| - 1]];
    }
  }

  /** Trimming takes off white space at both ends, all of it and nothing else. */
  lemma TrimTakesSpaceOff(s: string) returns (before: string, after: string)
    ensures s == before + Trim(s) + after && AllSpace(before) && AllSpace(after) && Trimmed(Trim(s))
  {
    before := TrimStartOff(s);
    after := TrimEndOff(TrimStart(s));
    TrimIdempotent(s);
  }

  lemma BlankIffAllSpace(s: string)
    ensures Trim(s) == "" <==> AllSpace(s)
  {
    var before, after := TrimTakesSpaceOff(s);
    if Trim(s) != "" {
      assert s[|before|] == Trim(s)[0];
    }
  }

  lemma {:induction false} TrimStartPast(before: string, s: string)
    requires AllSpace(before) && (s != [] ==> !IsSpace(s[0]))
    ensures TrimStart(before + s) == s
  {
    if before == [] {
      assert before + s == s;
    } else {
      assert (before + s)[1..] == before[1..] + s;
      TrimStartPast(before[1..], s);
    }
  }

  lemma {:induction false} TrimEndPast(s: string, after: string)
    requires AllSpace(after) && (s != [] ==> !IsSpace(s[|s| - 1]))
    ensures TrimEnd(s + after) == s
  {
    if after == [] {
      assert s + after == s;
    } else {
      assert (s + after)[..|s + after| - 1] == s + after[..|after| - 1];
      TrimEndPast(s, after[..|after| - 1]);
    }
  }

  /** White space around a text does not change what it trims to. */
  lemma TrimPadded(before: string, s: string, after: string)
    requires AllSpace(before) && AllSpace(after)
    ensures Trim(before + s + after) == Trim(s)
  {
    var b, a := TrimTakesSpaceOff(s);
    var t := Trim(s);
    var all := before + s + after;
    assert all == (before + b) + (t + (a + after));
    if t == [] {
      assert AllSpace(all);
      AllSpaceTrims(all);
    } else {
      TrimStartPast(before + b, t + (a + after));
      TrimEndPast(t, a + after);
    }
  }

  lemma {:induction false} AllSpaceTrims(s: string)
    requires AllSpace(s)
    ensures Trim(s) == ""
  {
    if s != [] {
      AllSpaceTrims(s[1..]);
    }
  }
}
