/** Assembling retrieved documents into one bounded prompt context, on ASCII text. */
module ContextBuilder {
  import Decimal

  datatype Doc = Doc(docType: string, title: string, content: string)

  const SEPARATOR := "\n\n---\n\n"

  const NO_CONTEXT := "No relevant context found."

  /** A text cut to at most `n` characters. */
  function Prefix(s: string, n: nat): string { if |s| <= n then s else s[..n] }

  function Header(number: nat, doc: Doc): string
  {
    "[" + Decimal.Print(number) + "] " + doc.title + " (" + doc.docType + ")\n"
  }

  /** A document's header and content, the content cut to the per-document limit. */
  function Section(number: nat, doc: Doc, maxDocChars: nat): (s: string)
    ensures s != []
  {
    Header(number, doc) + Prefix(doc.content, maxDocChars)
  }

  /** The sections of all documents, numbered from `number`, with no overall limit. */
  function AllSections(docs: seq<Doc>, number: nat, maxDocChars: nat): (all: seq<string>)
    ensures |all| == |docs|
  {
    if docs == [] then [] else [Section(number, docs[0], maxDocChars)] + AllSections(docs[1..], number + 1, maxDocChars)
  }

  lemma {:induction false} SectionAt(docs: seq<Doc>, number: nat, maxDocChars: nat, i: nat)
    requires i < |docs|
    ensures AllSections(docs, number, maxDocChars)[i] == Section(number + i, docs[i], maxDocChars)
  {
    if i > 0 {
      SectionAt(docs[1..], number + 1, maxDocChars, i - 1);
    }
  }

  function Concat(parts: seq<string>): string
  {
    if parts == [] then [] else parts[0] + Concat(parts[1..])
  }

  function Join(parts: seq<string>): string
  {
    if parts == [] then []
    else if |parts| == 1 then parts[0]
    else parts[0] + SEPARATOR + Join(parts[1..])
  }

  /** The sections that fit a budget, the last one perhaps cut. */
  function Fitting(all: seq<string>, budget: nat): seq<string>
  {
    if all == [] || budget == 0 then []
    else if |all[0]| > budget then [all[0][..budget]]
    else [all[0]] + Fitting(all[1..], budget - |all[0]|)
  }

  /** `parts` are the fitting sections among the first `i`, and `remaining` is what they leave. */
  ghost predicate Emitted(docs: seq<Doc>, maxDocChars: nat, parts: seq<string>, i: nat, budget: nat, remaining: nat)
    requires i <= |docs|
  {
    Fitting(AllSections(docs, 1, maxDocChars), budget) == parts + Fitting(AllSections(docs[i..], i + 1, maxDocChars), remaining)
  }

  lemma NoneEmitted(docs: seq<Doc>, maxDocChars: nat, budget: nat)
    ensures Emitted(docs, maxDocChars, [], 0, budget, budget)
  {
    assert docs[0..] == docs;
    var all := Fitting(AllSections(docs, 1, maxDocChars), budget);
    assert [] + all == all;
  }

  lemma EmittedAll(docs: seq<Doc>, maxDocChars: nat, parts: seq<string>, i: nat, budget: nat, remaining: nat)
    requires i <= |docs| && Emitted(docs, maxDocChars, parts, i, budget, remaining) && (i == |docs| || remaining == 0)
    ensures parts == Fitting(AllSections(docs, 1, maxDocChars), budget)
  {
    assert parts + [] == parts;
  }

  lemma FittingStep(all: seq<string>, remaining: nat, section: string)
    requires all != [] && 0 < remaining && section == Prefix(all[0], remaining)
    ensures Fitting(all, remaining) == [section] + Fitting(all[1..], remaining - |section|)
  {
    if |all[0]| > remaining {
      assert [section] + [] == [section];
    }
  }

  /** Emitting one more section. */
  lemma EmitOne(docs: seq<Doc>, maxDocChars: nat, parts: seq<string>, i: nat, budget: nat, remaining: nat, section: string)
    requires i < |docs| && 0 < remaining && section == Prefix(Section(i + 1, docs[i], maxDocChars), remaining)
    requires Emitted(docs, maxDocChars, parts, i, budget, remaining)
    ensures |section| <= remaining
    ensures Emitted(docs, maxDocChars, parts + [section], i + 1, budget, remaining - |section|)
  {
    var all := AllSections(docs[i..], i + 1, maxDocChars);
    var later := AllSections(docs[i + 1..], i + 2, maxDocChars);
    assert docs[i..][1..] == docs[i + 1..];
    assert all[1..] == later;
    FittingStep(all, remaining, section);
    var rest := Fitting(later, remaining - |section|);
    assert parts + ([section] + rest) == parts + [section] + rest;
  }

  method FormatContext(docs: seq<Doc>, maxDocChars: nat, maxContextChars: nat) returns (context: string)
    ensures docs == [] ==> context == "No relevant context found."
    ensures docs != [] ==> context == Join(Fitting(AllSections(docs, 1, maxDocChars), maxContextChars))
  {
    if docs == [] {
      return NO_CONTEXT;
    }
    NoneEmitted(docs, maxDocChars, maxContextChars);
    var totalChars := 0;
    var parts: seq<string> := [];
    var i := 0;
    while i < |docs| && totalChars < maxContextChars
      invariant i <= |docs| && totalChars <= maxContextChars
      invariant Emitted(docs, maxDocChars, parts, i, maxContextChars, maxContextChars - totalChars)
    {
      var content := Prefix(docs[i].content, maxDocChars);
      var whole := Header(i + 1, docs[i]) + content;
      var remaining := maxContextChars - totalChars;
      var section := Prefix(whole, remaining);
      EmitOne(docs, maxDocChars, parts, i, maxContextChars, remaining, section);
      totalChars := totalChars + |section|;
      parts := parts + [section];
      i := i + 1;
    }
    EmittedAll(docs, maxDocChars, parts, i, maxContextChars, maxContextChars - totalChars);
    context := Join(parts);
  }

  /** The emitted sections, put end to end, are the first `budget` characters of all sections. */
  lemma {:induction false} FittingIsPrefix(all: seq<string>, budget: nat)
    ensures Concat(Fitting(all, budget)) == Prefix(Concat(all), budget)
  {
    if all != [] && budget > 0 {
      if |all[0]| > budget {
        assert [all[0][..budget]][1..] == [];
      } else {
        FittingIsPrefix(all[1..], budget - |all[0]|);
        var rest := Fitting(all[1..], budget - |all[0]|);
        assert ([all[0]] + rest)[1..] == rest;
      }
    }
  }

  /** Only the last emitted section can be cut. */
  lemma {:induction false} OnlyLastIsCut(all: seq<string>, budget: nat)
    ensures |Fitting(all, budget)| <= |all|
    ensures forall i | 0 <= i < |Fitting(all, budget)| :: Fitting(all, budget)[i] <= all[i]
    ensures forall i | 0 <= i < |Fitting(all, budget)| - 1 :: Fitting(all, budget)[i] == all[i]
  {
    if all != [] && budget > 0 && |all[0]| <= budget {
      OnlyLastIsCut(all[1..], budget - |all[0]|);
    }
  }

  lemma {:induction false} JoinLength(parts: seq<string>)
    ensures |Join(parts)| == |Concat(parts)| + (if parts == [] then 0 else 7 * (|parts| - 1))
  {
    if |parts| == 1 {
      assert Concat(parts[1..]) == [];
    } else if |parts| > 1 {
      JoinLength(parts[1..]);
      assert |SEPARATOR| == 7;
    }
  }

  /** What `FormatContext` returns for at least one document: sections that together are the
      budgeted prefix of all sections, joined to at most the budget plus the separators. */
  lemma ContextIsBoundedPrefix(docs: seq<Doc>, maxDocChars: nat, maxContextChars: nat)
    ensures var all := AllSections(docs, 1, maxDocChars);
            var parts := Fitting(all, maxContextChars);
            Concat(parts) == Prefix(Concat(all), maxContextChars)
            && (parts != [] ==> |Join(parts)| <= maxContextChars + 7 * (|parts| - 1))
            && (parts == [] ==> Join(parts) == [])
            && |parts| <= |docs|
            && (forall i | 0 <= i < |parts| - 1 :: parts[i] == Section(i + 1, docs[i], maxDocChars))
            && (parts == [] <==> docs == [] || maxContextChars == 0)
  {
    var all := AllSections(docs, 1, maxDocChars);
    FittingIsPrefix(all, maxContextChars);
    OnlyLastIsCut(all, maxContextChars);
    forall i | 0 <= i < |docs| ensures all[i] == Section(i + 1, docs[i], maxDocChars) {
      SectionAt(docs, 1, maxDocChars, i);
    }
    JoinLength(Fitting(all, maxContextChars));
  }

  /** Where the i-th of several joined parts begins: after the parts before it and a separator of
      seven characters for each. */
  function Offset(parts: seq<string>, i: nat): nat
    requires i <= |parts|
  {
    if i == 0 then 0 else Offset(parts, i - 1) + |parts[i - 1]| + 7
  }

  lemma {:induction false} OffsetOfRest(parts: seq<string>, i: nat)
    requires 0 < i <= |parts|
    ensures Offset(parts, i) == |parts[0]| + 7 + Offset(parts[1..], i - 1)
  {
    if i > 1 {
      OffsetOfRest(parts, i - 1);
    }
  }

  /** `part` stands in `text` at `at`. */
  predicate StandsAt(text: string, part: string, at: nat)
  {
    at + |part| <= |text| && text[at..at + |part|] == part
  }

  lemma StandsLater(first: string, text: string, part: string, at: nat)
    requires StandsAt(text, part, at)
    ensures StandsAt(first + text, part, |first| + at)
  {
    assert (first + text)[|first| + at..|first| + at + |part|] == text[at..at + |part|];
  }

  lemma JoinFirst(parts: seq<string>)
    requires |parts| > 1
    ensures Join(parts) == parts[0] + SEPARATOR + Join(parts[1..])
    ensures StandsAt(Join(parts), parts[0], 0) && StandsAt(Join(parts), SEPARATOR, |parts[0]|)
  {
    var rest := Join(parts[1..]);
    assert (parts[0] + SEPARATOR + rest)[..|parts[0]|] == parts[0];
    assert (parts[0] + SEPARATOR + rest)[|parts[0]|..|parts[0]| + 7] == SEPARATOR;
  }

  /** Joining keeps the parts whole and in order, with a separator after each but the last, which
      ends the text. */
  lemma {:induction false} JoinedInOrder(parts: seq<string>, i: nat)
    requires i < |parts|
    ensures StandsAt(Join(parts), parts[i], Offset(parts, i))
    ensures if i + 1 < |parts| then StandsAt(Join(parts), "\n\n---\n\n", Offset(parts, i) + |parts[i]|)
            else |Join(parts)| == Offset(parts, i) + |parts[i]|
  {
    if |parts| > 1 {
      JoinFirst(parts);
      if i > 0 {
        var lead, rest := parts[0] + SEPARATOR, parts[1..];
        var text, at := Join(rest), Offset(rest, i - 1);
        JoinedInOrder(rest, i - 1);
        OffsetOfRest(parts, i);
        StandsLater(lead, text, parts[i], at);
        if i + 1 < |parts| {
          StandsLater(lead, text, SEPARATOR, at + |parts[i]|);
        }
      }
    }
  }

  /** A document's section: its number, then its title, then its type in brackets, a line break, and
      the first characters of its content. */
  lemma SectionText(number: nat, doc: Doc, maxDocChars: nat)
    ensures Section(number, doc, maxDocChars)
            == "[" + Decimal.Print(number) + "] " + doc.title + " (" + doc.docType + ")\n"
               + (if |doc.content| <= maxDocChars then doc.content else doc.content[..maxDocChars])
  {
  }

  /** The i-th emitted section is that of the i-th document, whole except perhaps the last. */
  lemma EmittedSection(docs: seq<Doc>, maxDocChars: nat, maxContextChars: nat, parts: seq<string>, i: nat)
    requires parts == Fitting(AllSections(docs, 1, maxDocChars), maxContextChars) && i < |parts|
    ensures i < |docs| && parts[i] <= Section(i + 1, docs[i], maxDocChars)
    ensures i + 1 < |parts| ==> parts[i] == Section(i + 1, docs[i], maxDocChars)
  {
    OnlyLastIsCut(AllSections(docs, 1, maxDocChars), maxContextChars);
    SectionAt(docs, 1, maxDocChars, i);
  }

  /** What `FormatContext` joins for at least one document: sections in the order of the documents,
      each at its offset, with a separator after each but the last, which ends the context. */
  lemma ContextLayout(docs: seq<Doc>, maxDocChars: nat, maxContextChars: nat, parts: seq<string>, i: nat)
    requires parts == Fitting(AllSections(docs, 1, maxDocChars), maxContextChars) && i < |parts|
    ensures i < |docs| && parts[i] <= Section(i + 1, docs[i], maxDocChars)
    ensures StandsAt(Join(parts), parts[i], Offset(parts, i))
    ensures if i + 1 < |parts| then
              parts[i] == Section(i + 1, docs[i], maxDocChars)
              && StandsAt(Join(parts), "\n\n---\n\n", Offset(parts, i) + |parts[i]|)
            else |Join(parts)| == Offset(parts, i) + |parts[i]|
  {
    EmittedSection(docs, maxDocChars, maxContextChars, parts, i);
    JoinedInOrder(parts, i);
  }
}
