/** Field-level normalisation of ingested records, on ASCII text. */
module Normalizer {
  import opened Sequences
  import opened Wrappers
  import opened Text
  import Decimal
  import Dates

  datatype Transform = Lowercase | Uppercase | TitleCase | StripWhitespace | PhoneE164 | EmailNormalize | DateIso8601

  /** A JSON value; everything but strings passes through unchanged. */
  datatype Value = Str(text: string) | Other(id: nat)

  datatype Mapping = Mapping(sourceField: string, canonicalField: string, transform: Option<Transform>)

  type Fields = map<string, Value>

  function LowerChar(c: char): char { if 'A' <= c <= 'Z' then c - 'A' + 'a' else c }

  function UpperChar(c: char): char { if 'a' <= c <= 'z' then c - 'a' + 'A' else c }

  function Lower(s: string): (r: string)
    ensures |r| == |s| && forall i | 0 <= i < |s| :: r[i] == LowerChar(s[i])
  {
    if s == [] then [] else [LowerChar(s[0])] + Lower(s[1..])
  }

  function Upper(s: string): (r: string)
    ensures |r| == |s| && forall i | 0 <= i < |s| :: r[i] == UpperChar(s[i])
  {
    if s == [] then [] else [UpperChar(s[0])] + Upper(s[1..])
  }

  /** The length of the word a text starts with. */
  function WordLength(s: string): (n: nat)
    ensures n <= |s| && (forall i | 0 <= i < n :: !IsSpace(s[i])) && (n < |s| ==> IsSpace(s[n]))
  {
    if s == [] || IsSpace(s[0]) then 0 else 1 + WordLength(s[1..])
  }

  function Words(s: string): seq<string>
  {
    if s == [] then []
    else if IsSpace(s[0]) then Words(s[1..])
    else [s[..WordLength(s)]] + Words(s[WordLength(s)..])
  }

  function Capitalized(word: string): string
  {
    if word == [] then [] else [UpperChar(word[0])] + word[1..]
  }

  function JoinWords(words: seq<string>): string
  {
    if words == [] then []
    else if |words| == 1 then words[0]
    else words[0] + " " + JoinWords(words[1..])
  }

  function AllCapitalized(words: seq<string>): (r: seq<string>)
    ensures |r| == |words| && forall i | 0 <= i < |words| :: r[i] == Capitalized(words[i])
  {
    if words == [] then [] else [Capitalized(words[0])] + AllCapitalized(words[1..])
  }

  function ToTitleCase(s: string): string { JoinWords(AllCapitalized(Words(s))) }

  function DigitsOf(s: string): (d: string)
    ensures Decimal.AllDigits(d)
  {
    if s == [] then [] else (if Decimal.IsDigit(s[0]) then [s[0]] else []) + DigitsOf(s[1..])
  }

  function NormalizePhone(s: string): string
  {
    var digits := DigitsOf(s);
    if |digits| == 10 then "+1" + digits
    else if |digits| == 11 && digits[0] == '1' then "+" + digits
    else if digits != [] then "+" + digits
    else s
  }

  function NormalizeEmail(s: string): string { Lower(Trim(s)) }

  function TransformText(t: Transform, s: string): string
  {
    match t
    case Lowercase => Lower(s)
    case Uppercase => Upper(s)
    case TitleCase => ToTitleCase(s)
    case StripWhitespace => Trim(s)
    case PhoneE164 => NormalizePhone(s)
    case EmailNormalize => NormalizeEmail(s)
    case DateIso8601 => Dates.DateTransform(s)
  }

  function ApplyTransform(v: Value, t: Transform): Value
  {
    match v
    case Str(s) => Str(TransformText(t, s))
    case Other(_) => v
  }

  /** The effect of a mapping list: each mapping in turn on its canonical field. */
  function Normalized(fields: Fields, mappings: seq<Mapping>): Fields
  {
    if mappings == [] then fields
    else
      var before, m := Normalized(fields, mappings[..|mappings| - 1]), mappings[|mappings| - 1];
      if m.transform.Some? && m.canonicalField in before
      then before[m.canonicalField := ApplyTransform(before[m.canonicalField], m.transform.value)]
      else before
  }

  method NormalizeRecord(rawFields: Fields, mappings: seq<Mapping>) returns (fields: Fields)
    ensures fields == Normalized(rawFields, mappings)
  {
    fields := rawFields;
    for i := 0 to |mappings|
      invariant fields == Normalized(rawFields, mappings[..i])
    {
      assert mappings[..i + 1][..i] == mappings[..i];
      var m := mappings[i];
      if m.transform.Some? {
        if m.canonicalField in fields {
          var value := fields[m.canonicalField];
          fields := fields - {m.canonicalField};
          fields := fields[m.canonicalField := ApplyTransform(value, m.transform.value)];
        }
      }
    }
    assert mappings[..|mappings|] == mappings;
  }

  // -- Each transform is idempotent ------------------------------------------------------

  lemma {:induction false} JoinedWords(words: seq<string>)
    requires forall i | 0 <= i < |words| :: words[i] != [] && WordLength(words[i]) == |words[i]|
    ensures Words(JoinWords(words)) == words
  {
    if |words| == 1 {
      assert Words([]) == [];
      assert words[0][..|words[0]|] == words[0] && words[0][|words[0]|..] == [];
    } else if |words| > 1 {
      JoinedWords(words[1..]);
      FirstWord(words[0], JoinWords(words[1..]));
    }
  }

  lemma FirstWord(word: string, rest: string)
    requires word != [] && WordLength(word) == |word|
    ensures Words(word + " " + rest) == [word] + Words(rest)
  {
    var s := word + " " + rest;
    assert forall i | 0 <= i < |word| :: s[i] == word[i];
    assert s[|word|] == ' ';
    assert WordLength(s) == |word|;
    assert s[..|word|] == word && s[|word|..] == " " + rest;
    assert (" " + rest)[1..] == rest;
  }

  lemma {:induction false} WordsAreWords(s: string)
    ensures forall i | 0 <= i < |Words(s)| :: Words(s)[i] != [] && WordLength(Words(s)[i]) == |Words(s)[i]|
  {
    if s != [] {
      if IsSpace(s[0]) {
        WordsAreWords(s[1..]);
      } else {
        var w := s[..WordLength(s)];
        WordsAreWords(s[WordLength(s)..]);
        assert forall i | 0 <= i < |w| :: !IsSpace(w[i]);
      }
    }
  }

  lemma TitleCaseIdempotent(s: string)
    ensures ToTitleCase(ToTitleCase(s)) == ToTitleCase(s)
  {
    WordsAreWords(s);
    var words := AllCapitalized(Words(s));
    forall i | 0 <= i < |words| ensures words[i] != [] && WordLength(words[i]) == |words[i]| && Capitalized(words[i]) == words[i] {
      var w := Words(s)[i];
      assert forall k | 0 <= k < |words[i]| :: !IsSpace(words[i][k]);
    }
    JoinedWords(words);
    assert AllCapitalized(words) == words;
  }

  lemma {:induction false} DigitsOfDigits(s: string)
    requires Decimal.AllDigits(s)
    ensures DigitsOf(s) == s
  {
    if s != [] {
      DigitsOfDigits(s[1..]);
      assert [s[0]] + s[1..] == s;
    }
  }

  lemma DigitsAfter(c: char, s: string)
    ensures DigitsOf([c] + s) == (if Decimal.IsDigit(c) then [c] else []) + DigitsOf(s)
  {
    assert ([c] + s)[1..] == s;
  }

  /** The digits a phone number is normalised to: its own, after a 1 when there are exactly ten. */
  function PhoneDigits(s: string): string
  {
    if |DigitsOf(s)| == 10 then "1" + DigitsOf(s) else DigitsOf(s)
  }

  lemma PlusOne(digits: string)
    ensures "+1" + digits == "+" + ("1" + digits)
  {
  }

  lemma PhoneCases(s: string)
    ensures NormalizePhone(s) == if DigitsOf(s) == "" then s else "+" + PhoneDigits(s)
  {
    PlusOne(DigitsOf(s));
  }

  /** A phone number with digits becomes a plus sign and its digits, after a 1 when there are exactly
      ten of them, and those are then all its digits; one without stays as it is. */
  lemma PhoneYields(s: string)
    ensures var digits := DigitsOf(s);
            var r := TransformText(PhoneE164, s);
            if digits == "" then r == s
            else r == "+" + (if |digits| == 10 then "1" + digits else digits)
                 && DigitsOf(r) == if |digits| == 10 then "1" + digits else digits
  {
    PhoneCases(s);
    DigitsOfDigits(PhoneDigits(s));
    DigitsAfter('+', PhoneDigits(s));
    assert [] + PhoneDigits(s) == PhoneDigits(s);
  }

  /** A normalised phone number normalises to itself, on every string. */
  lemma PhoneIdempotent(s: string)
    ensures NormalizePhone(NormalizePhone(s)) == NormalizePhone(s)
  {
    PhoneYields(s);
  }

  lemma LowerTwice(s: string)
    ensures Lower(Lower(s)) == Lower(s)
  {
    assert forall i | 0 <= i < |s| :: Lower(Lower(s))[i] == LowerChar(Lower(s)[i]) == Lower(s)[i];
  }

  lemma LowerKeepsTrimmed(s: string)
    requires Trimmed(s)
    ensures Trimmed(Lower(s))
  {
  }

  lemma EmailIdempotent(s: string)
    ensures NormalizeEmail(NormalizeEmail(s)) == NormalizeEmail(s)
  {
    TrimIdempotent(s);
    LowerKeepsTrimmed(Trim(s));
    TrimIdempotent(Lower(Trim(s)));
    LowerTwice(Trim(s));
  }

  /** Every transform applied twice is the same as applied once, on every ASCII string. */
  lemma TransformIdempotent(t: Transform, s: string)
    ensures TransformText(t, TransformText(t, s)) == TransformText(t, s)
  {
    match t
    case Lowercase => LowerTwice(s);
    case Uppercase => assert Upper(Upper(s)) == Upper(s);
    case TitleCase => TitleCaseIdempotent(s);
    case StripWhitespace => TrimIdempotent(s);
    case PhoneE164 => PhoneIdempotent(s);
    case EmailNormalize => EmailIdempotent(s);
    case DateIso8601 => Dates.DateIdempotent(s);
  }

  // -- What each transform yields --------------------------------------------------------

  /** Lower and upper case work character by character, 32 apart, on letters alone. */
  lemma CasesYield(s: string)
    ensures var low, up := TransformText(Lowercase, s), TransformText(Uppercase, s);
            |low| == |up| == |s|
            && forall i | 0 <= i < |s| ::
                 low[i] as int == (if 'A' <= s[i] <= 'Z' then s[i] as int + 32 else s[i] as int)
                 && up[i] as int == (if 'a' <= s[i] <= 'z' then s[i] as int - 32 else s[i] as int)
  {
  }

  /** Stripping takes off outer white space and nothing else; an e-mail address is lower case too. */
  lemma StripsYield(s: string) returns (before: string, after: string)
    ensures AllSpace(before) && AllSpace(after)
    ensures s == before + TransformText(StripWhitespace, s) + after && Trimmed(TransformText(StripWhitespace, s))
    ensures TransformText(EmailNormalize, s) == TransformText(Lowercase, TransformText(StripWhitespace, s))
  {
    before, after := TrimTakesSpaceOff(s);
  }

  function DigitIn(c: char): Option<char> { if Decimal.IsDigit(c) then Some(c) else None }

  lemma {:induction false} DigitsArePicked(s: string)
    ensures DigitsOf(s) == FilterMap(s, DigitIn)
  {
    if s != [] {
      DigitsArePicked(s[1..]);
      FilterMapFront(s[0], s[1..], DigitIn);
      assert [s[0]] + s[1..] == s;
    }
  }

  /** The digits of a text, in order, and all of them. */
  lemma DigitsAt(s: string) returns (at: seq<nat>)
    ensures Ascending(at, |s|) && |at| == |DigitsOf(s)|
    ensures forall k | 0 <= k < |at| :: DigitsOf(s)[k] == s[at[k]]
    ensures forall i: nat | i < |s| && '0' <= s[i] <= '9' :: i in at
  {
    DigitsArePicked(s);
    at := FilterMapAt(s, DigitIn);
    forall k | 0 <= k < |at| ensures DigitsOf(s)[k] == s[at[k]] {
      assert DigitIn(s[at[k]]) == Some(DigitsOf(s)[k]);
    }
    forall i: nat | i < |s| && '0' <= s[i] <= '9' ensures i in at {
      assert DigitIn(s[i]).Some?;
    }
  }

  /** A date that can be read becomes its canonical form, and anything else stays as it is. */
  lemma DateYields(s: string)
    ensures TransformText(DateIso8601, s) == match Dates.NormalizeDate(s) case Some(date) => date case None => s
  {
  }

  /** `word` stands in `s` at `at`, with white space or an end of the text on either side. */
  predicate WordAt(s: string, word: string, at: nat)
  {
    && word != "" && at + |word| <= |s| && s[at..at + |word|] == word
    && (forall i | 0 <= i < |word| :: !IsSpace(word[i]))
    && (at == 0 || IsSpace(s[at - 1])) && (at + |word| == |s| || IsSpace(s[at + |word|]))
  }

  /** A word covers a position. */
  ghost predicate Covered(words: seq<string>, at: seq<nat>, i: int)
    requires |at| == |words|
  {
    exists k :: 0 <= k < |at| && at[k] <= i < at[k] + |words[k]|
  }

  ghost predicate AllStand(s: string, words: seq<string>, at: seq<nat>)
    requires |at| == |words|
  {
    forall k: nat | k < |at| :: WordAt(s, words[k], at[k])
  }

  ghost predicate Apart(words: seq<string>, at: seq<nat>)
    requires |at| == |words|
  {
    forall k: nat, l: nat | k < l < |at| :: at[k] + |words[k]| < at[l]
  }

  ghost predicate AllCovered(s: string, words: seq<string>, at: seq<nat>)
    requires |at| == |words|
  {
    forall i: nat | i < |s| && !IsSpace(s[i]) :: Covered(words, at, i)
  }

  /** The words stand in the text one after the other, and every other character is white space. */
  ghost predicate WordsAt(s: string, words: seq<string>, at: seq<nat>)
  {
    |at| == |words| && AllStand(s, words, at) && Apart(words, at) && AllCovered(s, words, at)
  }

  lemma WordLater(s: string, n: nat, word: string, at: nat)
    requires n <= |s| && WordAt(s[n..], word, at) && (at > 0 || n == 0 || IsSpace(s[n - 1]))
    ensures WordAt(s, word, at + n)
  {
    assert s[at + n..at + n + |word|] == s[n..][at..at + |word|];
    assert at + |word| < |s[n..]| ==> s[at + n + |word|] == s[n..][at + |word|];
    assert at > 0 ==> s[at + n - 1] == s[n..][at - 1];
  }

  lemma CoveredLater(words: seq<string>, at: seq<nat>, i: int, d: nat)
    requires |at| == |words| && Covered(words, at, i)
    ensures Covered(words, Shifted(at, d), i + d)
  {
    var k :| 0 <= k < |at| && at[k] <= i < at[k] + |words[k]|;
    assert Shifted(at, d)[k] <= i + d < Shifted(at, d)[k] + |words[k]|;
  }

  lemma StandAfterSpace(s: string, words: seq<string>, at: seq<nat>)
    requires s != [] && IsSpace(s[0]) && |at| == |words| && AllStand(s[1..], words, at)
    ensures AllStand(s, words, Shifted(at, 1))
  {
    forall k: nat | k < |at| ensures WordAt(s, words[k], Shifted(at, 1)[k]) {
      WordLater(s, 1, words[k], at[k]);
    }
  }

  lemma CoveredAfterSpace(s: string, words: seq<string>, at: seq<nat>)
    requires s != [] && IsSpace(s[0]) && |at| == |words| && AllCovered(s[1..], words, at)
    ensures AllCovered(s, words, Shifted(at, 1))
  {
    forall i: nat | i < |s| && !IsSpace(s[i]) ensures Covered(words, Shifted(at, 1), i) {
      assert s[1..][i - 1] == s[i];
      CoveredLater(words, at, i - 1, 1);
    }
  }

  lemma WordsAfterSpace(s: string, words: seq<string>, at: seq<nat>)
    requires s != [] && IsSpace(s[0]) && WordsAt(s[1..], words, at)
    ensures WordsAt(s, words, Shifted(at, 1))
  {
    StandAfterSpace(s, words, at);
    CoveredAfterSpace(s, words, at);
  }

  /** No word stands at the beginning of a text that begins with white space. */
  lemma NotAtStart(s: string, word: string, at: nat)
    requires WordAt(s, word, at) && IsSpace(s[0])
    ensures at > 0
  {
    assert s[at] == s[at..at + |word|][0] == word[0];
  }

  lemma LaterWord(s: string, n: nat, word: string, at: nat)
    requires 0 < n <= |s| && n == WordLength(s) && WordAt(s[n..], word, at)
    ensures at > 0 && WordAt(s, word, at + n)
  {
    assert s[n..][0] == s[n];
    NotAtStart(s[n..], word, at);
    WordLater(s, n, word, at);
  }

  lemma CoveredAfterFirst(first: string, words: seq<string>, at: seq<nat>, d: nat, i: int)
    requires |at| == |words| && Covered(words, at, i)
    ensures Covered([first] + words, AfterFirst(at, d), i + d)
  {
    var k :| 0 <= k < |at| && at[k] <= i < at[k] + |words[k]|;
    assert AfterFirst(at, d)[k + 1] == at[k] + d && ([first] + words)[k + 1] == words[k];
  }

  lemma WordsAreCovered(s: string, n: nat, words: seq<string>, at: seq<nat>, i: nat)
    requires 0 < n <= |s| && WordsAt(s[n..], words, at) && i < |s| && !IsSpace(s[i])
    ensures Covered([s[..n]] + words, AfterFirst(at, n), i)
  {
    if i < n {
      assert AfterFirst(at, n)[0] <= i < AfterFirst(at, n)[0] + |([s[..n]] + words)[0]|;
    } else {
      assert s[n..][i - n] == s[i];
      CoveredAfterFirst(s[..n], words, at, n, i - n);
    }
  }

  lemma AllCoveredAfterWord(s: string, n: nat, words: seq<string>, at: seq<nat>)
    requires 0 < n <= |s| && WordsAt(s[n..], words, at)
    ensures AllCovered(s, [s[..n]] + words, AfterFirst(at, n))
  {
    forall i: nat | i < |s| && !IsSpace(s[i]) ensures Covered([s[..n]] + words, AfterFirst(at, n), i) {
      WordsAreCovered(s, n, words, at, i);
    }
  }

  lemma FirstWordStands(s: string)
    requires s != [] && !IsSpace(s[0])
    ensures WordAt(s, s[..WordLength(s)], 0)
  {
  }

  lemma LaterEntry(first: string, words: seq<string>, at: seq<nat>, d: nat, k: nat)
    requires 0 < k <= |at| == |words|
    ensures ([first] + words)[k] == words[k - 1] && AfterFirst(at, d)[k] == at[k - 1] + d
  {
    assert AfterFirst(at, d)[k - 1 + 1] == at[k - 1] + d;
  }

  lemma EntryStands(s: string, n: nat, words: seq<string>, at: seq<nat>, k: nat, word: string, start: nat)
    requires 0 < n <= |s| && n == WordLength(s) && |at| == |words| && AllStand(s[n..], words, at)
    requires 0 < k <= |at| && word == words[k - 1] && start == at[k - 1] + n
    ensures WordAt(s, word, start)
  {
    LaterWord(s, n, words[k - 1], at[k - 1]);
  }

  lemma StandAfterWord(s: string, n: nat, words: seq<string>, at: seq<nat>)
    requires 0 < n <= |s| && n == WordLength(s) && |at| == |words| && AllStand(s[n..], words, at)
    ensures AllStand(s, [s[..n]] + words, AfterFirst(at, n))
  {
    var all, at' := [s[..n]] + words, AfterFirst(at, n);
    FirstWordStands(s);
    forall k: nat | k < |at'| ensures WordAt(s, all[k], at'[k]) {
      if k > 0 {
        LaterEntry(s[..n], words, at, n, k);
        EntryStands(s, n, words, at, k, all[k], at'[k]);
      }
    }
  }

  lemma ApartAfterWord(first: string, words: seq<string>, at: seq<nat>)
    requires |at| == |words| && Apart(words, at) && forall k: nat | k < |at| :: at[k] > 0
    ensures Apart([first] + words, AfterFirst(at, |first|))
  {
    var all, at' := [first] + words, AfterFirst(at, |first|);
    forall k: nat, l: nat | k < l < |at'| ensures at'[k] + |all[k]| < at'[l] {
      assert at'[l] == at[l - 1] + |first|;
      if k > 0 {
        assert at'[k] == at[k - 1] + |first| && all[k] == words[k - 1];
      }
    }
  }

  lemma WordsAfterWord(s: string, n: nat, words: seq<string>, at: seq<nat>)
    requires 0 < n <= |s| && n == WordLength(s) && WordsAt(s[n..], words, at)
    ensures WordsAt(s, [s[..n]] + words, AfterFirst(at, n))
  {
    StandAfterWord(s, n, words, at);
    forall k: nat | k < |at| ensures at[k] > 0 {
      LaterWord(s, n, words[k], at[k]);
    }
    ApartAfterWord(s[..n], words, at);
    AllCoveredAfterWord(s, n, words, at);
  }

  /** Splitting finds the words of a text: all of them, whole and in order. */
  lemma {:induction false} WordsFound(s: string) returns (at: seq<nat>)
    ensures WordsAt(s, Words(s), at)
    decreases |s|
  {
    if s == [] {
      at := [];
    } else if IsSpace(s[0]) {
      var later := WordsFound(s[1..]);
      at := Shifted(later, 1);
      WordsAfterSpace(s, Words(s[1..]), later);
    } else {
      var n := WordLength(s);
      var later := WordsFound(s[n..]);
      at := AfterFirst(later, n);
      WordsAfterWord(s, n, Words(s[n..]), later);
    }
  }

  /** The next word begins one blank after a word that begins at `start`. */
  predicate BlankBetween(s: string, start: nat, word: string, next: nat)
  {
    next == start + |word| + 1 && next <= |s| && s[next - 1] == ' '
  }

  predicate BlankBefore(s: string, words: seq<string>, at: seq<nat>, k: nat)
    requires 0 < k < |at| == |words|
  {
    BlankBetween(s, at[k - 1], words[k - 1], at[k])
  }

  /** The words fill the text from its beginning to its end, with one blank between them. */
  predicate SpacedOnce(s: string, words: seq<string>, at: seq<nat>)
  {
    && |at| == |words|
    && (if at == [] then s == "" else at[0] == 0 && at[|at| - 1] + |words[|at| - 1]| == |s|)
    && (forall k: nat | 0 < k < |at| :: BlankBefore(s, words, at, k))
  }

  lemma BlankShifts(lead: string, s: string, start: nat, word: string, next: nat)
    requires BlankBetween(s, start, word, next)
    ensures BlankBetween(lead + s, start + |lead|, word, next + |lead|)
  {
    assert (lead + s)[next + |lead| - 1] == s[next - 1];
  }

  lemma BlankAfterFirst(word: string, s: string)
    ensures BlankBetween(word + " " + s, 0, word, |word| + 1)
  {
    assert (word + " " + s)[|word|] == ' ';
  }

  lemma BlankLater(word: string, s: string, words: seq<string>, at: seq<nat>, k: nat)
    requires SpacedOnce(s, words, at) && 1 < k <= |at|
    ensures BlankBetween(word + " " + s, at[k - 2] + |word| + 1, words[k - 2], at[k - 1] + |word| + 1)
  {
    assert BlankBefore(s, words, at, k - 1);
    BlankShifts(word + " ", s, at[k - 2], words[k - 2], at[k - 1]);
  }

  lemma BlankBeforeMore(word: string, s: string, words: seq<string>, at: seq<nat>, k: nat)
    requires SpacedOnce(s, words, at) && 0 < k <= |at|
    ensures BlankBefore(word + " " + s, [word] + words, AfterFirst(at, |word| + 1), k)
  {
    LaterEntry(word, words, at, |word| + 1, k);
    if k == 1 {
      BlankAfterFirst(word, s);
    } else {
      LaterEntry(word, words, at, |word| + 1, k - 1);
      BlankLater(word, s, words, at, k);
    }
  }

  lemma SpacedOnceMore(word: string, s: string, words: seq<string>, at: seq<nat>)
    requires at != [] && SpacedOnce(s, words, at)
    ensures SpacedOnce(word + " " + s, [word] + words, AfterFirst(at, |word| + 1))
  {
    var r, all, at' := word + " " + s, [word] + words, AfterFirst(at, |word| + 1);
    forall k: nat | 0 < k < |at'| ensures BlankBefore(r, all, at', k) {
      BlankBeforeMore(word, s, words, at, k);
    }
    LaterEntry(word, words, at, |word| + 1, |at|);
  }

  lemma {:induction false} JoinedSpacedOnce(words: seq<string>) returns (at: seq<nat>)
    ensures SpacedOnce(JoinWords(words), words, at)
  {
    if words == [] {
      at := [];
    } else if |words| == 1 {
      at := [0];
    } else {
      var word, rest := words[0], words[1..];
      var later := JoinedSpacedOnce(rest);
      at := AfterFirst(later, |word| + 1);
      SpacedOnceMore(word, JoinWords(rest), rest, later);
      assert [word] + rest == words;
      assert JoinWords(words) == word + " " + JoinWords(rest);
    }
  }

  /** Title case keeps the words of a text and their order, gives each an upper-case first letter,
      and leaves one blank between them and none around. */
  lemma TitleCaseYields(s: string) returns (at: seq<nat>)
    ensures var r := TransformText(TitleCase, s);
            |Words(r)| == |Words(s)| && SpacedOnce(r, Words(r), at)
            && forall k | 0 <= k < |Words(s)| ::
                 Words(s)[k] != "" && Words(r)[k] == [UpperChar(Words(s)[k][0])] + Words(s)[k][1..]
  {
    WordsAreWords(s);
    var words := AllCapitalized(Words(s));
    forall i | 0 <= i < |words| ensures words[i] != [] && WordLength(words[i]) == |words[i]| {
      assert forall k | 0 <= k < |words[i]| :: !IsSpace(words[i][k]);
    }
    JoinedWords(words);
    at := JoinedSpacedOnce(words);
  }

  // -- Whole records ---------------------------------------------------------------------

  /** No two transforming mappings have the same canonical field. */
  predicate DistinctTargets(mappings: seq<Mapping>)
  {
    forall i, j | 0 <= i < j < |mappings| && mappings[i].transform.Some? && mappings[j].transform.Some? ::
      mappings[i].canonicalField != mappings[j].canonicalField
  }

  /** The mapping's own effect on a field: its transform, if it has one and the field is its. */
  predicate Targets(m: Mapping, field: string)
  {
    m.transform.Some? && m.canonicalField == field
  }

  /** The transform the last mapping of a field asks for. */
  function TransformFor(mappings: seq<Mapping>, field: string): Option<Transform>
  {
    if mappings == [] then None
    else if Targets(mappings[|mappings| - 1], field) then mappings[|mappings| - 1].transform
    else TransformFor(mappings[..|mappings| - 1], field)
  }

  function Once(t: Option<Transform>, v: Value): Value
  {
    if t.Some? then ApplyTransform(v, t.value) else v
  }

  lemma {:induction false} TransformForIs(mappings: seq<Mapping>, field: string)
    requires DistinctTargets(mappings)
    ensures forall i | 0 <= i < |mappings| && Targets(mappings[i], field) :: TransformFor(mappings, field) == mappings[i].transform
    ensures TransformFor(mappings, field).Some? ==> exists i :: 0 <= i < |mappings| && Targets(mappings[i], field)
  {
    if mappings != [] {
      var front := mappings[..|mappings| - 1];
      TransformForIs(front, field);
      if TransformFor(front, field).Some? {
        var i :| 0 <= i < |front| && Targets(front[i], field);
        assert Targets(mappings[i], field);
      }
      forall i | 0 <= i < |mappings| && Targets(mappings[i], field)
        ensures TransformFor(mappings, field) == mappings[i].transform
      {
        if i < |front| {
          assert front[i] == mappings[i];
        }
      }
    }
  }

  /** With distinct targets, every field is transformed at most once, by its own mapping. */
  lemma {:induction false} FieldByField(fields: Fields, mappings: seq<Mapping>)
    requires DistinctTargets(mappings)
    ensures Normalized(fields, mappings).Keys == fields.Keys
    ensures forall f | f in fields :: Normalized(fields, mappings)[f] == Once(TransformFor(mappings, f), fields[f])
  {
    if mappings != [] {
      var front, m := mappings[..|mappings| - 1], mappings[|mappings| - 1];
      FieldByField(fields, front);
      if m.transform.Some? {
        TransformForIs(front, m.canonicalField);
        assert TransformFor(front, m.canonicalField) == None;
      }
    }
  }

  /** A field that no transforming mapping targets keeps its value, and so does every field whose
      value is not a string. */
  lemma OthersUnchanged(fields: Fields, mappings: seq<Mapping>, field: string)
    requires DistinctTargets(mappings) && field in fields
    requires fields[field].Other? || forall i | 0 <= i < |mappings| :: mappings[i].transform.Some? ==> mappings[i].canonicalField != field
    ensures field in Normalized(fields, mappings) && Normalized(fields, mappings)[field] == fields[field]
  {
    FieldByField(fields, mappings);
    TransformForIs(mappings, field);
  }

  lemma OnceIdempotent(t: Option<Transform>, v: Value)
    ensures Once(t, Once(t, v)) == Once(t, v)
  {
    if t.Some? && v.Str? {
      TransformIdempotent(t.value, v.text);
    }
  }

  /** Normalising a record twice is normalising it once, when no field is targeted twice. */
  lemma NormalizeIdempotent(fields: Fields, mappings: seq<Mapping>)
    requires DistinctTargets(mappings)
    ensures Normalized(Normalized(fields, mappings), mappings) == Normalized(fields, mappings)
  {
    var once := Normalized(fields, mappings);
    FieldByField(fields, mappings);
    FieldByField(once, mappings);
    forall f | f in fields ensures Normalized(once, mappings)[f] == once[f] {
      OnceIdempotent(TransformFor(mappings, f), fields[f]);
    }
  }

  /** The order of the mappings does not matter when no field is targeted twice. */
  lemma NormalizeOrderIrrelevant(fields: Fields, mappings: seq<Mapping>, reordered: seq<Mapping>)
    requires DistinctTargets(mappings) && DistinctTargets(reordered)
    requires forall m :: m in mappings <==> m in reordered
    ensures Normalized(fields, mappings) == Normalized(fields, reordered)
  {
    FieldByField(fields, mappings);
    FieldByField(fields, reordered);
    forall f | f in fields ensures TransformFor(mappings, f) == TransformFor(reordered, f) {
      SameTransform(mappings, reordered, f);
      SameTransform(reordered, mappings, f);
    }
  }

  lemma SameTransform(mappings: seq<Mapping>, reordered: seq<Mapping>, f: string)
    requires DistinctTargets(mappings) && DistinctTargets(reordered)
    requires forall m :: m in mappings ==> m in reordered
    ensures TransformFor(mappings, f).Some? ==> TransformFor(reordered, f) == TransformFor(mappings, f)
  {
    TransformForIs(mappings, f);
    TransformForIs(reordered, f);
    if TransformFor(mappings, f).Some? {
      var i :| 0 <= i < |mappings| && Targets(mappings[i], f);
      assert mappings[i] in reordered;
      var j :| 0 <= j < |reordered| && reordered[j] == mappings[i];
      assert Targets(reordered[j], f);
    }
  }

  predicate IsLetter(c: char) { 'A' <= c <= 'Z' || 'a' <= c <= 'z' }

  lemma TwoMappings(fields: Fields, field: string, text: string, first: Mapping, second: Mapping)
    requires field in fields && fields[field] == Str(text)
    requires first.transform.Some? && second.transform.Some? && first.canonicalField == second.canonicalField == field
    ensures Normalized(fields, [first, second])
            == fields[field := Str(TransformText(second.transform.value, TransformText(first.transform.value, text)))]
  {
    assert [first, second][..1] == [first] && [first][..0] == [];
    assert Normalized(fields, [first]) == fields[field := Str(TransformText(first.transform.value, text))];
  }

  lemma CharCases(c: char)
    ensures UpperChar(LowerChar(c)) == LowerChar(UpperChar(c)) <==> !IsLetter(c)
  {
  }

  lemma {:induction false} CasesDiffer(s: string)
    ensures Upper(Lower(s)) != Lower(Upper(s)) <==> exists i :: 0 <= i < |s| && IsLetter(s[i])
  {
    if s != [] {
      var c, rest := s[0], s[1..];
      CharCases(c);
      CasesDiffer(rest);
      var a, b := Upper(Lower(rest)), Lower(Upper(rest));
      assert Lower(s)[1..] == Lower(rest) && Upper(s)[1..] == Upper(rest);
      assert Upper(Lower(s)) == [UpperChar(LowerChar(c))] + a && Lower(Upper(s)) == [LowerChar(UpperChar(c))] + b;
      assert Upper(Lower(s))[1..] == a && Lower(Upper(s))[1..] == b;
      if i :| 0 <= i < |s| && IsLetter(s[i]) {
        assert i > 0 ==> IsLetter(rest[i - 1]);
      } else {
        assert forall i | 0 <= i < |rest| :: rest[i] == s[i + 1];
      }
    }
  }

  /** With two mappings on one field the order can matter: lower and upper case, in one order and
      in the other, give different records exactly when the field's text has a letter. */
  lemma OrderMattersOnOneField(fields: Fields, field: string, text: string)
    requires field in fields && fields[field] == Str(text)
    ensures var low, up := Mapping(field, field, Some(Lowercase)), Mapping(field, field, Some(Uppercase));
            Normalized(fields, [low, up]) != Normalized(fields, [up, low])
            <==> exists i :: 0 <= i < |text| && IsLetter(text[i])
  {
    var low, up := Mapping(field, field, Some(Lowercase)), Mapping(field, field, Some(Uppercase));
    TwoMappings(fields, field, text, low, up);
    TwoMappings(fields, field, text, up, low);
    CasesDiffer(text);
    if Upper(Lower(text)) != Lower(Upper(text)) {
      assert Normalized(fields, [low, up])[field] != Normalized(fields, [up, low])[field];
    }
  }
}
