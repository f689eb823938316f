/** The reader of the model server's newline-delimited JSON stream. */
module StreamReader {
  import opened Sequences
  import opened Wrappers
  import Text

  /** What a line says: not JSON, or an object with its `done` flag and its text, if any. */
  datatype Line = Unreadable | Message(done: bool, response: Option<string>)

  /** What the network hands over: some bytes (ASCII), or an error. */
  datatype Piece = Bytes(text: string) | Broken

  datatype Item = Token(text: string) | StreamError

  type Parser = string -> Line

  /** The position of the first newline, or the length. */
  function FindNewline(s: string): (p: nat)
    ensures p <= |s|
  {
    if s == [] || s[0] == '\n' then 0 else 1 + FindNewline(s[1..])
  }

  /** The newline-terminated lines of a text, without their newlines, and what follows the last. */
  function CompleteLines(s: string): seq<string>
  {
    var p := FindNewline(s);
    if p == |s| then [] else [s[..p]] + CompleteLines(s[p + 1..])
  }

  function Leftover(s: string): string
  {
    var p := FindNewline(s);
    if p == |s| then s else Leftover(s[p + 1..])
  }

  /** The token a line carries; blank and unreadable lines and empty texts carry none. */
  function TokenOf(parse: Parser, line: string): seq<Item>
  {
    var trimmed := Text.Trim(line);
    if trimmed == "" then []
    else
      match parse(trimmed)
      case Message(_, Some(text)) => if text == "" then [] else [Token(text)]
      case _ => []
  }

  predicate IsDone(parse: Parser, line: string)
  {
    var trimmed := Text.Trim(line);
    trimmed != "" && parse(trimmed).Message? && parse(trimmed).done
  }

  function Tokens(parse: Parser, lines: seq<string>): seq<Item>
  {
    if lines == [] then [] else TokenOf(parse, lines[0]) + Tokens(parse, lines[1..])
  }

  predicate AnyDone(parse: Parser, lines: seq<string>)
  {
    lines != [] && (IsDone(parse, lines[0]) || AnyDone(parse, lines[1..]))
  }

  /** The lines up to and including the first that is done. */
  function UpToDone(parse: Parser, lines: seq<string>): seq<string>
  {
    if lines == [] then []
    else if IsDone(parse, lines[0]) then [lines[0]]
    else [lines[0]] + UpToDone(parse, lines[1..])
  }

  /** The bytes received before the first error. */
  function Received(pieces: seq<Piece>): string
  {
    if pieces == [] || pieces[0].Broken? then [] else pieces[0].text + Received(pieces[1..])
  }

  predicate Breaks(pieces: seq<Piece>)
  {
    exists i :: 0 <= i < |pieces| && pieces[i].Broken?
  }

  /** What a stream comes to, whichever way its bytes are cut: the tokens of its lines up to the
      first done one, and an error if the network fails before that. */
  function Meaning(parse: Parser, data: string, broken: bool): seq<Item>
  {
    var lines := CompleteLines(data);
    Tokens(parse, UpToDone(parse, lines)) + (if broken && !AnyDone(parse, lines) then [StreamError] else [])
  }

  function FirstOf(items: seq<Item>, n: nat): (r: seq<Item>)
    ensures r <= items && |r| == if n < |items| then n else |items|
  {
    if |items| <= n then items else items[..n]
  }

  // -- Lines of concatenations -----------------------------------------------------------

  /** `FindNewline` finds the first newline. */
  lemma {:induction false} FindsFirst(s: string)
    ensures var p := FindNewline(s); (p < |s| ==> s[p] == '\n') && '\n' !in s[..p]
  {
    if s != [] && s[0] != '\n' {
      FindsFirst(s[1..]);
      assert s[..FindNewline(s)] == [s[0]] + s[1..][..FindNewline(s[1..])];
    }
  }

  /** A text's first line comes off whatever follows the text. */
  lemma {:induction false} FirstLineOff(a: string, b: string)
    requires FindNewline(a) < |a|
    ensures var p := FindNewline(a);
            FindNewline(a + b) == p && (a + b)[..p] == a[..p] && (a + b)[p + 1..] == a[p + 1..] + b
  {
    if a[0] != '\n' {
      assert (a + b)[1..] == a[1..] + b;
      FirstLineOff(a[1..], b);
    }
  }

  /** The first line of a text, alone or with more text after it. */
  lemma LinesFrom(a: string, b: string, line: string, rest: string)
    requires FindNewline(a) < |a| && line == a[..FindNewline(a)] && rest == a[FindNewline(a) + 1..]
    ensures CompleteLines(a) == [line] + CompleteLines(rest) && Leftover(a) == Leftover(rest)
    ensures CompleteLines(a + b) == [line] + CompleteLines(rest + b) && Leftover(a + b) == Leftover(rest + b)
  {
    FirstLineOff(a, b);
  }

  lemma Associative(line: string, x: seq<string>, y: seq<string>)
    ensures [line] + (x + y) == [line] + x + y
  {
  }

  /** Lines of a concatenation: those of the first text, then those its leftover begins. */
  lemma {:induction false} LinesSplit(a: string, b: string)
    ensures CompleteLines(a + b) == CompleteLines(a) + CompleteLines(Leftover(a) + b)
    ensures Leftover(a + b) == Leftover(Leftover(a) + b)
    decreases |a|
  {
    if FindNewline(a) == |a| {
      assert CompleteLines(a) == [] && Leftover(a) == a;
    } else {
      var line, rest := a[..FindNewline(a)], a[FindNewline(a) + 1..];
      LinesSplit(rest, b);
      LinesFrom(a, b, line, rest);
      Associative(line, CompleteLines(rest), CompleteLines(Leftover(rest) + b));
    }
  }

  lemma {:induction false} TokensAppend(parse: Parser, a: seq<string>, b: seq<string>)
    ensures Tokens(parse, a + b) == Tokens(parse, a) + Tokens(parse, b)
    ensures AnyDone(parse, a + b) <==> AnyDone(parse, a) || AnyDone(parse, b)
  {
    if a == [] {
      assert a + b == b;
    } else {
      assert (a + b)[1..] == a[1..] + b;
      TokensAppend(parse, a[1..], b);
    }
  }

  lemma {:induction false} UpToDoneAppend(parse: Parser, a: seq<string>, b: seq<string>)
    requires !AnyDone(parse, a)
    ensures UpToDone(parse, a + b) == a + UpToDone(parse, b)
  {
    if a == [] {
      assert a + b == b;
    } else {
      assert (a + b)[1..] == a[1..] + b;
      UpToDoneAppend(parse, a[1..], b);
    }
  }

  /** The tokens before, of and after a line, when no line before it is done. */
  lemma MeaningAt(parse: Parser, before: seq<string>, line: string, after: seq<string>)
    requires !AnyDone(parse, before)
    ensures var lines := before + [line] + after;
            var tokens := Tokens(parse, UpToDone(parse, lines));
            var soFar := Tokens(parse, before) + TokenOf(parse, line);
            (if IsDone(parse, line) then tokens == soFar && AnyDone(parse, lines)
             else |soFar| <= |tokens| && tokens[..|soFar|] == soFar)
    ensures Tokens(parse, before + [line]) == Tokens(parse, before) + TokenOf(parse, line)
    ensures AnyDone(parse, before + [line]) <==> IsDone(parse, line)
  {
    var rest := [line] + after;
    assert before + [line] + after == before + rest;
    assert rest[1..] == after;
    UpToDoneAppend(parse, before, rest);
    TokensAppend(parse, before, rest);
    TokensAppend(parse, before, [line]);
    TokensAppend(parse, before, UpToDone(parse, rest));
    assert UpToDone(parse, rest)[1..] == if IsDone(parse, line) then [] else UpToDone(parse, after);
    assert Tokens(parse, [line]) == TokenOf(parse, line) + Tokens(parse, []) by { assert [line][1..] == []; }
  }

  lemma {:induction false} ReceivedSplit(a: seq<Piece>, b: seq<Piece>)
    requires !Breaks(a)
    ensures Received(a + b) == Received(a) + Received(b)
  {
    if a == [] {
      assert a + b == b;
    } else {
      assert a[0].Bytes?;
      assert forall i | 0 <= i < |a[1..]| :: a[1..][i] == a[i + 1];
      assert (a + b)[1..] == a[1..] + b;
      ReceivedSplit(a[1..], b);
    }
  }

  lemma ReceivedFirst(pieces: seq<Piece>)
    requires pieces != []
    ensures Received(pieces) == if pieces[0].Broken? then [] else pieces[0].text + Received(pieces[1..])
  {
  }

  /** What is received before a piece, and from it on. */
  lemma ReceivedAround(pieces: seq<Piece>, i: nat)
    requires i < |pieces| && !Breaks(pieces[..i])
    ensures Received(pieces)
            == Received(pieces[..i]) + if pieces[i].Broken? then [] else pieces[i].text + Received(pieces[i + 1..])
  {
    var rest := pieces[i..];
    assert pieces == pieces[..i] + rest;
    assert rest[1..] == pieces[i + 1..];
    ReceivedSplit(pieces[..i], rest);
    ReceivedFirst(rest);
  }

  lemma PrefixGrows(pieces: seq<Piece>, i: nat)
    requires i < |pieces| && pieces[i].Bytes? && !Breaks(pieces[..i])
    ensures !Breaks(pieces[..i + 1]) && Received(pieces[..i + 1]) == Received(pieces[..i]) + pieces[i].text
  {
    assert pieces[..i + 1] == pieces[..i] + [pieces[i]];
    ReceivedSplit(pieces[..i], [pieces[i]]);
    assert Received([pieces[i]]) == pieces[i].text + [];
    assert forall k | 0 <= k < i :: pieces[..i][k] == pieces[k];
  }

  // -- The reader ------------------------------------------------------------------------

  /** The lines taken so far, what is still buffered of the bytes read, and the items sent. */
  ghost predicate Reading(parse: Parser, data: string, lines: seq<string>, buf: string, items: seq<Item>, accepts: nat)
  {
    && CompleteLines(data) == lines + CompleteLines(buf) && Leftover(data) == Leftover(buf)
    && !AnyDone(parse, lines)
    && items == Tokens(parse, lines) && |items| <= accepts
  }

  /** Taking one line off the buffer. */
  lemma TakeLine(parse: Parser, data: string, lines: seq<string>, buf: string, items: seq<Item>, accepts: nat)
    requires Reading(parse, data, lines, buf, items, accepts) && FindNewline(buf) < |buf|
    ensures var line, rest := buf[..FindNewline(buf)], buf[FindNewline(buf) + 1..];
            var sent := items + TokenOf(parse, line);
            CompleteLines(data) == lines + [line] + CompleteLines(rest)
            && (!IsDone(parse, line) && |sent| <= accepts ==> Reading(parse, data, lines + [line], rest, sent, accepts))
  {
    var line, rest := buf[..FindNewline(buf)], buf[FindNewline(buf) + 1..];
    assert lines + [line] + CompleteLines(rest) == lines + ([line] + CompleteLines(rest));
    MeaningAt(parse, lines, line, CompleteLines(rest));
  }

  /** More bytes arrive after every line of the buffer has been taken. */
  lemma MoreBytes(parse: Parser, data: string, lines: seq<string>, buf: string, items: seq<Item>, accepts: nat, bytes: string)
    requires Reading(parse, data, lines, buf, items, accepts) && FindNewline(buf) == |buf|
    ensures Reading(parse, data + bytes, lines, buf + bytes, items, accepts)
  {
    LinesSplit(data, bytes);
    assert lines + [] == lines;
  }

  /** The lines of the whole stream, around the next one in the buffer. */
  lemma LinesToCome(data: string, more: string, lines: seq<string>, buf: string) returns (after: seq<string>)
    requires CompleteLines(data) == lines + CompleteLines(buf) && FindNewline(buf) < |buf|
    ensures CompleteLines(data + more) == lines + [buf[..FindNewline(buf)]] + after
  {
    var rest := CompleteLines(buf[FindNewline(buf) + 1..]);
    LinesSplit(data, more);
    after := rest + CompleteLines(Leftover(data) + more);
    assert CompleteLines(buf) == [buf[..FindNewline(buf)]] + rest;
  }

  /** All the stream means begins with what has been sent, and ends there at a done line. */
  lemma SentIsPrefix(parse: Parser, data: string, more: string, lines: seq<string>, buf: string, items: seq<Item>, accepts: nat, broken: bool)
    requires Reading(parse, data, lines, buf, items, accepts) && FindNewline(buf) < |buf|
    ensures var line := buf[..FindNewline(buf)];
            var sent := items + TokenOf(parse, line);
            sent <= Meaning(parse, data + more, broken)
            && (IsDone(parse, line) ==> sent == Meaning(parse, data + more, broken))
  {
    var after := LinesToCome(data, more, lines, buf);
    MeaningAt(parse, lines, buf[..FindNewline(buf)], after);
  }

  /** Reading stops at a done line, or when the receiver takes no more. */
  lemma StopAt(parse: Parser, data: string, more: string, lines: seq<string>, buf: string, items: seq<Item>, accepts: nat, broken: bool)
    requires Reading(parse, data, lines, buf, items, accepts) && FindNewline(buf) < |buf|
    ensures var line := buf[..FindNewline(buf)];
            var sent := items + TokenOf(parse, line);
            (IsDone(parse, line) && |sent| <= accepts ==> sent == FirstOf(Meaning(parse, data + more, broken), accepts))
            && (|sent| > accepts ==> items == FirstOf(Meaning(parse, data + more, broken), accepts))
  {
    SentIsPrefix(parse, data, more, lines, buf, items, accepts, broken);
    Cut(items, TokenOf(parse, buf[..FindNewline(buf)]), Meaning(parse, data + more, broken), accepts);
  }

  lemma Cut(items: seq<Item>, extra: seq<Item>, all: seq<Item>, accepts: nat)
    requires |extra| <= 1 && items + extra <= all && |items| <= accepts
    ensures |items + extra| > accepts ==> items == FirstOf(all, accepts)
  {
    if |items + extra| > accepts {
      assert all[..accepts] == (items + extra)[..accepts] == items;
    }
  }

  /** The stream ends, or breaks, with no done line received. */
  lemma StreamEnds(parse: Parser, data: string, lines: seq<string>, buf: string, items: seq<Item>, accepts: nat, broken: bool)
    requires Reading(parse, data, lines, buf, items, accepts) && FindNewline(buf) == |buf|
    ensures FirstOf(Meaning(parse, data, broken), accepts)
            == items + (if broken && |items| < accepts then [StreamError] else [])
  {
    assert lines + [] == lines;
    UpToDoneAppend(parse, lines, []);
  }

  /** The reader's inner loop, over the lines in the buffer. `stop` says that reading is over: a
      done line was met or the receiver is gone. `data` has been read and `more` would follow. */
  method DrainLines(parse: Parser, buffered: string, sent: seq<Item>, accepts: nat,
                    ghost data: string, ghost taken: seq<string>, ghost more: string, ghost broken: bool)
    returns (buf: string, items: seq<Item>, stop: bool, ghost lines: seq<string>)
    requires Reading(parse, data, taken, buffered, sent, accepts)
    ensures !stop ==> Reading(parse, data, lines, buf, items, accepts) && FindNewline(buf) == |buf|
    ensures stop ==> items == FirstOf(Meaning(parse, data + more, broken), accepts)
  {
    buf, items, stop, lines := buffered, sent, false, taken;
    while true
      invariant Reading(parse, data, lines, buf, items, accepts) && !stop
      decreases |buf|
    {
      var p := FindNewline(buf);
      if p == |buf| {
        break;
      }
      TakeLine(parse, data, lines, buf, items, accepts);
      StopAt(parse, data, more, lines, buf, items, accepts, broken);
      lines := lines + [buf[..p]];
      var line := Text.Trim(buf[..p]);
      buf := buf[p + 1..];
      if line == "" {
        continue;
      }
      var val := parse(line);
      if val.Message? {
        if val.response.Some? && val.response.value != "" {
          if |items| == accepts {
            stop := true;
            return;
          }
          items := items + [Token(val.response.value)];
        }
        if val.done {
          stop := true;
          return;
        }
      }
    }
  }

  /** The reader task: `accepts` is how many items the receiver takes before it is dropped. */
  method ReadStream(pieces: seq<Piece>, parse: Parser, accepts: nat) returns (items: seq<Item>)
    ensures items == FirstOf(Meaning(parse, Received(pieces), Breaks(pieces)), accepts)
  {
    items := [];
    var buf := "";
    ghost var lines: seq<string> := [];
    for i := 0 to |pieces|
      invariant !Breaks(pieces[..i])
      invariant Reading(parse, Received(pieces[..i]), lines, buf, items, accepts) && FindNewline(buf) == |buf|
    {
      ghost var data := Received(pieces[..i]);
      ReceivedAround(pieces, i);
      if pieces[i].Broken? {
        StreamEnds(parse, data, lines, buf, items, accepts, true);
        assert Received(pieces) == data;
        return if |items| < accepts then items + [StreamError] else items;
      }
      var bytes := pieces[i].text;
      ghost var more := Received(pieces[i + 1..]);
      assert Received(pieces) == data + bytes + more;
      PrefixGrows(pieces, i);
      MoreBytes(parse, data, lines, buf, items, accepts, bytes);
      var stop;
      buf, items, stop, lines := DrainLines(parse, buf + bytes, items, accepts, data + bytes, lines, more, Breaks(pieces));
      if stop {
        return;
      }
    }
    assert pieces[..|pieces|] == pieces;
    StreamEnds(parse, Received(pieces), lines, buf, items, accepts, false);
  }

  /** Cutting any piece of a stream in two changes nothing of what it means. */
  lemma CutsDoNotMatter(parse: Parser, before: seq<Piece>, x: string, y: string, after: seq<Piece>)
    ensures var whole, cut := before + [Bytes(x + y)] + after, before + [Bytes(x), Bytes(y)] + after;
            Meaning(parse, Received(whole), Breaks(whole)) == Meaning(parse, Received(cut), Breaks(cut))
  {
    var whole, cut := before + [Bytes(x + y)] + after, before + [Bytes(x), Bytes(y)] + after;
    BreaksWithin(before, [Bytes(x + y)], after);
    BreaksWithin(before, [Bytes(x), Bytes(y)], after);
    ReceivedRecut(before, x, y, after);
  }

  lemma BreaksWithin(a: seq<Piece>, b: seq<Piece>, c: seq<Piece>)
    ensures Breaks(a + b + c) <==> Breaks(a) || Breaks(b) || Breaks(c)
  {
    var all := a + b + c;
    if Breaks(a) {
      var i :| 0 <= i < |a| && a[i].Broken?;
      assert all[i].Broken?;
    } else if Breaks(b) {
      var i :| 0 <= i < |b| && b[i].Broken?;
      assert all[|a| + i].Broken?;
    } else if Breaks(c) {
      var i :| 0 <= i < |c| && c[i].Broken?;
      assert all[|a| + |b| + i].Broken?;
    }
  }

  lemma {:induction false} ReceivedRecut(before: seq<Piece>, x: string, y: string, after: seq<Piece>)
    ensures Received(before + [Bytes(x + y)] + after) == Received(before + [Bytes(x), Bytes(y)] + after)
  {
    var whole, cut := before + [Bytes(x + y)] + after, before + [Bytes(x), Bytes(y)] + after;
    if before == [] {
      assert whole[1..] == after && cut[1..] == [Bytes(y)] + after && cut[1..][1..] == after;
      assert x + y + Received(after) == x + (y + Received(after));
    } else {
      assert whole[1..] == before[1..] + [Bytes(x + y)] + after;
      assert cut[1..] == before[1..] + [Bytes(x), Bytes(y)] + after;
      ReceivedRecut(before[1..], x, y, after);
    }
  }

  // -- What is sent, line by line --------------------------------------------------------

  /** A line is a JSON object, once trimmed, that carries a text worth sending. */
  predicate Carries(parse: Parser, line: string, text: string)
  {
    Text.Trim(line) != "" && text != ""
    && parse(Text.Trim(line)).Message? && parse(Text.Trim(line)).response == Some(text)
  }

  /** A line is a JSON object, once trimmed, that says the stream is done. */
  predicate SaysDone(parse: Parser, line: string)
  {
    Text.Trim(line) != "" && parse(Text.Trim(line)).Message? && parse(Text.Trim(line)).done
  }

  predicate NoneDoneBefore(parse: Parser, lines: seq<string>, i: nat)
  {
    forall j | 0 <= j < i && j < |lines| :: !SaysDone(parse, lines[j])
  }

  predicate SomeDone(parse: Parser, lines: seq<string>)
  {
    exists i :: 0 <= i < |lines| && SaysDone(parse, lines[i])
  }

  /** Each item is the text of the line at its position, unchanged, with no done line before. */
  ghost predicate AreTexts(parse: Parser, lines: seq<string>, items: seq<Item>, at: seq<nat>)
  {
    && Ascending(at, |lines|) && |at| == |items|
    && forall k | 0 <= k < |at| ::
         items[k].Token? && Carries(parse, lines[at[k]], items[k].text) && NoneDoneBefore(parse, lines, at[k])
  }

  /** Every line that carries a text with no done line before it is among the positions. */
  ghost predicate AllTexts(parse: Parser, lines: seq<string>, at: seq<nat>)
  {
    forall i: nat, text | i < |lines| && NoneDoneBefore(parse, lines, i) && Carries(parse, lines[i], text) :: i in at
  }

  /** `items` are exactly the texts of the lines up to and including the first done one, in order. */
  ghost predicate TextsOf(parse: Parser, lines: seq<string>, items: seq<Item>, at: seq<nat>)
  {
    AreTexts(parse, lines, items, at) && AllTexts(parse, lines, at)
  }

  lemma BeforeShifts(parse: Parser, lines: seq<string>, i: nat)
    requires lines != [] && i < |lines| - 1
    ensures NoneDoneBefore(parse, lines, i + 1) <==> !SaysDone(parse, lines[0]) && NoneDoneBefore(parse, lines[1..], i)
  {
    if !SaysDone(parse, lines[0]) && NoneDoneBefore(parse, lines[1..], i) {
      forall j | 0 <= j < i + 1 && j < |lines| ensures !SaysDone(parse, lines[j]) {
        assert j > 0 ==> lines[j] == lines[1..][j - 1];
      }
    }
    if NoneDoneBefore(parse, lines, i + 1) {
      assert forall j | 0 <= j < i :: lines[1..][j] == lines[j + 1];
    }
  }

  lemma TokenCarries(parse: Parser, line: string)
    ensures var own := TokenOf(parse, line);
            own != [] ==> |own| == 1 && own[0].Token? && Carries(parse, line, own[0].text)
  {
  }

  /** The item at one later position. */
  lemma LaterText(parse: Parser, lines: seq<string>, items: seq<Item>, at: seq<nat>, j: nat)
    requires lines != [] && !SaysDone(parse, lines[0]) && AreTexts(parse, lines[1..], items, at) && j < |at|
    ensures at[j] + 1 < |lines| && items[j].Token?
            && Carries(parse, lines[at[j] + 1], items[j].text) && NoneDoneBefore(parse, lines, at[j] + 1)
  {
    BeforeShifts(parse, lines, at[j]);
    assert lines[at[j] + 1] == lines[1..][at[j]];
  }

  lemma AreTextsMore(parse: Parser, lines: seq<string>, items: seq<Item>, at: seq<nat>)
    requires lines != [] && !SaysDone(parse, lines[0]) && AreTexts(parse, lines[1..], items, at)
    ensures AreTexts(parse, lines, TokenOf(parse, lines[0]) + items, InFront(TokenOf(parse, lines[0]) != [], at))
  {
    var own := TokenOf(parse, lines[0]);
    var all, at' := own + items, InFront(own != [], at);
    TokenCarries(parse, lines[0]);
    InFrontAscends(own != [], at, |lines| - 1);
    forall k | 0 <= k < |at'|
      ensures all[k].Token? && Carries(parse, lines[at'[k]], all[k].text) && NoneDoneBefore(parse, lines, at'[k])
    {
      if k >= |own| {
        LaterText(parse, lines, items, at, k - |own|);
      }
    }
  }

  lemma AllTextsMore(parse: Parser, lines: seq<string>, at: seq<nat>)
    requires lines != [] && AllTexts(parse, lines[1..], at)
    ensures AllTexts(parse, lines, InFront(TokenOf(parse, lines[0]) != [], at))
  {
    var at' := InFront(TokenOf(parse, lines[0]) != [], at);
    forall i: nat, text | i < |lines| && NoneDoneBefore(parse, lines, i) && Carries(parse, lines[i], text) ensures i in at' {
      if i == 0 {
        assert at'[0] == 0;
      } else {
        BeforeShifts(parse, lines, i - 1);
        assert lines[i] == lines[1..][i - 1];
        ShiftedMember(at, 1, i - 1);
      }
    }
  }

  lemma FirstDoneStops(parse: Parser, lines: seq<string>, i: nat)
    requires lines != [] && SaysDone(parse, lines[0]) && NoneDoneBefore(parse, lines, i)
    ensures i == 0
  {
  }

  /** The first line alone, when it is done. */
  lemma TextsOfLast(parse: Parser, lines: seq<string>) returns (at: seq<nat>)
    requires lines != [] && SaysDone(parse, lines[0])
    ensures TextsOf(parse, lines, TokenOf(parse, lines[0]), at)
  {
    at := if TokenOf(parse, lines[0]) != [] then [0] else [];
    forall i: nat, text | i < |lines| && NoneDoneBefore(parse, lines, i) && Carries(parse, lines[i], text) ensures i in at {
      FirstDoneStops(parse, lines, i);
      assert at[0] == 0;
    }
  }

  lemma {:induction false} SentTexts(parse: Parser, lines: seq<string>) returns (at: seq<nat>)
    ensures TextsOf(parse, lines, Tokens(parse, UpToDone(parse, lines)), at)
  {
    if lines == [] {
      at := [];
    } else {
      var line, rest := lines[0], lines[1..];
      if IsDone(parse, line) {
        at := TextsOfLast(parse, lines);
        assert [line][1..] == [];
        assert TokenOf(parse, line) + Tokens(parse, []) == TokenOf(parse, line);
      } else {
        var later := SentTexts(parse, rest);
        var items := Tokens(parse, UpToDone(parse, rest));
        at := InFront(TokenOf(parse, line) != [], later);
        AreTextsMore(parse, lines, items, later);
        AllTextsMore(parse, lines, later);
        assert ([line] + UpToDone(parse, rest))[1..] == UpToDone(parse, rest);
      }
    }
  }

  lemma {:induction false} AnyDoneIs(parse: Parser, lines: seq<string>)
    ensures AnyDone(parse, lines) <==> SomeDone(parse, lines)
  {
    if lines != [] {
      var rest := lines[1..];
      AnyDoneIs(parse, rest);
      if i :| 0 <= i < |rest| && SaysDone(parse, rest[i]) {
        assert SaysDone(parse, lines[i + 1]);
      }
      if i :| 0 <= i < |lines| && SaysDone(parse, lines[i]) {
        assert i > 0 ==> SaysDone(parse, rest[i - 1]);
      }
    }
  }

  /** What a stream means: the texts of its lines up to and including the first done one, each as it
      stands there, and after them an error exactly when the stream breaks and no line is done. */
  lemma MeaningIsTexts(parse: Parser, data: string, broken: bool) returns (texts: seq<Item>, at: seq<nat>)
    ensures TextsOf(parse, CompleteLines(data), texts, at)
    ensures var lines := CompleteLines(data);
            Meaning(parse, data, broken)
            == texts + (if broken && !SomeDone(parse, lines) then [StreamError] else [])
  {
    texts := Tokens(parse, UpToDone(parse, CompleteLines(data)));
    at := SentTexts(parse, CompleteLines(data));
    AnyDoneIs(parse, CompleteLines(data));
  }

  /** The lines with their newlines back, end to end. */
  function Unlines(lines: seq<string>): string
  {
    if lines == [] then "" else lines[0] + "\n" + Unlines(lines[1..])
  }

  lemma UnlinesFirst(line: string, lines: seq<string>, leftover: string)
    ensures Unlines([line] + lines) + leftover == line + "\n" + (Unlines(lines) + leftover)
  {
    assert ([line] + lines)[1..] == lines;
  }

  lemma CutAtNewline(s: string, p: nat)
    requires p < |s| && s[p] == '\n'
    ensures s[..p] + "\n" + s[p + 1..] == s
  {
  }

  /** The lines of a text and its leftover make up the text ... */
  lemma {:induction false} LinesMakeUpText(s: string)
    ensures Unlines(CompleteLines(s)) + Leftover(s) == s
    decreases |s|
  {
    FindsFirst(s);
    var p := FindNewline(s);
    if p == |s| {
      assert "" + s == s;
    } else {
      var line, rest := s[..p], s[p + 1..];
      LinesMakeUpText(rest);
      UnlinesFirst(line, CompleteLines(rest), Leftover(rest));
      CutAtNewline(s, p);
    }
  }

  /** ... and have no newline in them. */
  lemma {:induction false} LinesHaveNoNewline(s: string)
    ensures '\n' !in Leftover(s) && forall i | 0 <= i < |CompleteLines(s)| :: '\n' !in CompleteLines(s)[i]
    decreases |s|
  {
    FindsFirst(s);
    var p := FindNewline(s);
    if p == |s| {
      assert s[..p] == s;
    } else {
      LinesHaveNoNewline(s[p + 1..]);
    }
  }
}
