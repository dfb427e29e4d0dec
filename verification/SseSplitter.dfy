/** Event streams cut into chunks: server/collectors/LlmStreaming.js:649-672. When do the cuts not matter? */
module SseSplitter {

  // --- Text ---------------------------------------------------------------------------------------

  ghost predicate Contains(text: string, part: string) {
    exists i :: Occurs(text, part, i)
  }

  predicate Occurs(text: string, part: string, i: int) {
    0 <= i <= |text| - |part| && text[i..i + |part|] == part
  }

  const CRLF := "\r\n"
  const CR_CRLF := "\r\r\n"
  const BLANK_LINE := "\n\n"

  predicate StartsCrLf(s: string) {
    |s| >= 2 && s[0] == '\r' && s[1] == '\n'
  }

  /** One pass of replacing CRLF by LF. */
  function Normalized(s: string): string {
    if s == "" then ""
    else if StartsCrLf(s) then "\n" + Normalized(s[2..])
    else [s[0]] + Normalized(s[1..])
  }

  lemma OccursInTail(s: string, part: string, k: nat)
    requires k <= |s| && Contains(s[k..], part)
    ensures Contains(s, part)
  {
    var i :| Occurs(s[k..], part, i);
    assert s[k..][i..i + |part|] == s[k + i..k + i + |part|];
    assert Occurs(s, part, k + i);
  }

  lemma OccursInHead(a: string, b: string, part: string)
    requires Contains(a, part)
    ensures Contains(a + b, part)
  {
    var i :| Occurs(a, part, i);
    assert (a + b)[i..i + |part|] == a[i..i + |part|];
    assert Occurs(a + b, part, i);
  }

  lemma NormalizedCrLf(s: string)
    requires StartsCrLf(s)
    ensures Normalized(s) == "\n" + Normalized(s[2..])
  {
  }

  lemma NormalizedChar(s: string)
    requires s != "" && !StartsCrLf(s)
    ensures Normalized(s) == [s[0]] + Normalized(s[1..])
  {
  }

  lemma Associative(a: string, b: string, c: string)
    ensures a + (b + c) == (a + b) + c
  {
  }

  lemma TailOfSum(a: string, b: string, k: nat)
    requires k <= |a|
    ensures (a + b)[k..] == a[k..] + b
  {
  }

  /** Behind anything but a lone CR, normalising continues as if from the start. */
  lemma {:induction false} NormalizedConcat(a: string, b: string)
    requires a == "" || a[|a| - 1] != '\r'
    ensures Normalized(a + b) == Normalized(a) + Normalized(b)
  {
    if a == "" {
      assert a + b == b;
      assert Normalized(a) == "";
    } else {
      hide Normalized;
      if StartsCrLf(a) {
        NormalizedCrLf(a);
        NormalizedCrLf(a + b);
        TailOfSum(a, b, 2);
        NormalizedConcat(a[2..], b);
        Associative("\n", Normalized(a[2..]), Normalized(b));
      } else {
        NormalizedChar(a);
        NormalizedChar(a + b);
        TailOfSum(a, b, 1);
        NormalizedConcat(a[1..], b);
        Associative([a[0]], Normalized(a[1..]), Normalized(b));
      }
    }
  }

  lemma FirstOfNormalized(s: string)
    requires s != "" && !StartsCrLf(s)
    ensures Normalized(s) != "" && Normalized(s)[0] == s[0]
  {
  }

  lemma CrThenCrLf(a: string)
    requires |a| >= 2 && a[0] == '\r' && StartsCrLf(a[1..])
    ensures Contains(a, CR_CRLF)
  {
    assert a[1..][0] == a[1] && a[1..][1] == a[2];
    assert Occurs(a, CR_CRLF, 0);
  }

  lemma TailsLack(a: string, k: nat, part: string)
    requires !Contains(a, part) && k <= |a|
    ensures !Contains(a[k..], part)
  {
    if Contains(a[k..], part) { OccursInTail(a, part, k); }
  }

  /** Normalising what was normalised so far together with what comes next is normalising all at once. */
  lemma {:induction false} NormalizedTwice(a: string, b: string)
    requires !Contains(a, CR_CRLF)
    ensures Normalized(Normalized(a) + b) == Normalized(a + b)
  {
    if a != "" {
      hide Normalized, Contains;
      if StartsCrLf(a) {
        TailsLack(a, 2, CR_CRLF);
        NormalizedTwice(a[2..], b);
        NormalizedCrLf(a);
        NormalizedCrLf(a + b);
        TailOfSum(a, b, 2);
        Associative("\n", Normalized(a[2..]), b);
        NormalizedBehindChar('\n', Normalized(a[2..]) + b);
      } else {
        TailsLack(a, 1, CR_CRLF);
        NormalizedTwice(a[1..], b);
        NormalizedChar(a);
        if |a| == 1 {
          OneChar(a);
        } else {
          StillNoCrLf(a, b);
          NormalizedChar(a + b);
          TailOfSum(a, b, 1);
          Associative([a[0]], Normalized(a[1..]), b);
          NormalizedBehindChar(a[0], Normalized(a[1..]) + b);
        }
      }
    } else {
      assert Normalized(a) == "";
    }
  }

  /** No CRLF appears at the start of a text by normalising what follows, unless a CR came before a CRLF. */
  lemma StillNoCrLf(a: string, b: string)
    requires a != "" && !StartsCrLf(a) && !Contains(a, CR_CRLF)
    requires Normalized(a) == [a[0]] + Normalized(a[1..])
    requires |a| > 1
    ensures !StartsCrLf(a + b) && !StartsCrLf([a[0]] + (Normalized(a[1..]) + b))
  {
    hide Contains;
    if a[0] == '\r' {
      NoCrBeforeCrLf(a);
      FirstOfNormalized(a[1..]);
    }
  }

  lemma OneChar(a: string)
    requires |a| == 1
    ensures Normalized(a) == a
  {
    assert Normalized(a[1..]) == "";
  }

  lemma NormalizedBehindChar(c: char, s: string)
    requires !StartsCrLf([c] + s)
    ensures Normalized([c] + s) == [c] + Normalized(s)
  {
    assert ([c] + s)[1..] == s;
  }

  lemma NoCrBeforeCrLf(a: string)
    requires |a| >= 2 && a[0] == '\r' && !Contains(a, CR_CRLF)
    ensures !StartsCrLf(a[1..])
  {
    if StartsCrLf(a[1..]) { CrThenCrLf(a); }
  }

  lemma {:induction false} NothingToNormalize(s: string)
    requires !Contains(s, CRLF)
    ensures Normalized(s) == s
  {
    if s != "" {
      if StartsCrLf(s) { assert Occurs(s, CRLF, 0); }
      if Contains(s[1..], CRLF) { OccursInTail(s, CRLF, 1); }
      NothingToNormalize(s[1..]);
    }
  }

  lemma {:induction false} NormalizedHasNoCrLf(s: string)
    requires !Contains(s, CR_CRLF)
    ensures !Contains(Normalized(s), CRLF)
  {
    NormalizedTwice(s, "");
    assert s + "" == s && Normalized(s) + "" == Normalized(s);
    if Contains(Normalized(s), CRLF) {
      FewerReturns(Normalized(s));
    }
  }

  // --- Counting carriage returns --------------------------------------------------------------------

  function Returns(s: string): nat {
    if s == "" then 0 else (if s[0] == '\r' then 1 else 0) + Returns(s[1..])
  }

  lemma {:induction false} ReturnsConcat(a: string, b: string)
    ensures Returns(a + b) == Returns(a) + Returns(b)
  {
    if a == "" {
      assert a + b == b;
    } else {
      assert (a + b)[1..] == a[1..] + b;
      ReturnsConcat(a[1..], b);
    }
  }

  lemma ReturnsBehind(c: char, s: string)
    ensures Returns([c] + s) == (if c == '\r' then 1 else 0) + Returns(s)
  {
    assert ([c] + s)[1..] == s;
  }

  lemma CrLfLater(s: string)
    requires Contains(s, CRLF) && !StartsCrLf(s)
    ensures s != "" && Contains(s[1..], CRLF)
  {
    var i :| Occurs(s, CRLF, i);
    assert s[i] == CRLF[0] && s[i + 1] == CRLF[1];
    assert s[1..][i - 1..i + 1] == s[i..i + 2];
    assert Occurs(s[1..], CRLF, i - 1);
  }

  /** Normalising removes a carriage return for every CRLF, and nothing else. */
  lemma {:induction false} FewerReturns(s: string)
    ensures Returns(Normalized(s)) <= Returns(s)
    ensures Contains(s, CRLF) ==> Returns(Normalized(s)) < Returns(s)
  {
    hide Normalized, Contains;
    if s == "" {
      EmptyHasNothing();
    } else if StartsCrLf(s) {
      FewerReturns(s[2..]);
      NormalizedCrLf(s);
      ReturnsBehind('\n', Normalized(s[2..]));
      assert s == ['\r'] + (['\n'] + s[2..]);
      ReturnsBehind('\r', ['\n'] + s[2..]);
      ReturnsBehind('\n', s[2..]);
    } else {
      FewerReturns(s[1..]);
      NormalizedChar(s);
      ReturnsBehind(s[0], Normalized(s[1..]));
      if Contains(s, CRLF) { CrLfLater(s); }
    }
  }

  lemma EmptyHasNothing()
    ensures Normalized("") == "" && !Contains("", CRLF)
  {
  }

  // --- Cutting at blank lines -------------------------------------------------------------------------

  /** Complete events, and what is left over behind the last blank line. */
  datatype Parsed = Parsed(events: seq<string>, rest: string)

  /** Index of the first blank line, or -1: `indexOf`. */
  function FirstBlankLine(s: string): (i: int)
    ensures i == -1 || 0 <= i <= |s| - 2
  {
    if |s| < 2 then -1
    else if s[0] == '\n' && s[1] == '\n' then 0
    else
      var i := FirstBlankLine(s[1..]);
      if i < 0 then -1 else i + 1
  }

  function Split(s: string): Parsed
    decreases |s|
  {
    var sep := FirstBlankLine(s);
    if sep < 0 then Parsed([], s)
    else
      var later := Split(s[sep + 2..]);
      Parsed([s[..sep]] + later.events, later.rest)
  }

  predicate BlankAt(s: string, i: int) {
    0 <= i && i + 2 <= |s| && s[i] == '\n' && s[i + 1] == '\n'
  }

  lemma OccursIsBlankAt(s: string, i: int)
    ensures Occurs(s, BLANK_LINE, i) <==> BlankAt(s, i)
  {
    if 0 <= i && i + 2 <= |s| {
      assert s[i..i + 2][0] == s[i] && s[i..i + 2][1] == s[i + 1];
      assert s[i..i + 2] == [s[i], s[i + 1]];
    }
  }

  lemma {:induction false} FirstBlankLineAt(s: string)
    ensures FirstBlankLine(s) >= 0 ==> BlankAt(s, FirstBlankLine(s))
    ensures forall i :: BlankAt(s, i) ==> 0 <= FirstBlankLine(s) <= i
  {
    if |s| >= 2 {
      var tail := s[1..];
      FirstBlankLineAt(tail);
      forall i | BlankAt(s, i) ensures 0 <= FirstBlankLine(s) <= i {
        if i > 0 { assert BlankAt(tail, i - 1); }
      }
    }
  }

  lemma FirstBlankLineIs(s: string)
    ensures FirstBlankLine(s) >= 0 ==> Occurs(s, BLANK_LINE, FirstBlankLine(s))
    ensures forall i :: Occurs(s, BLANK_LINE, i) ==> 0 <= FirstBlankLine(s) <= i
  {
    hide FirstBlankLine, Occurs, BlankAt;
    FirstBlankLineAt(s);
    OccursIsBlankAt(s, FirstBlankLine(s));
    forall i | Occurs(s, BLANK_LINE, i) ensures 0 <= FirstBlankLine(s) <= i {
      OccursIsBlankAt(s, i);
    }
  }

  /** The text that events and leftover were cut from. */
  function Joined(events: seq<string>): string {
    if events == [] then "" else events[0] + BLANK_LINE + Joined(events[1..])
  }

  /** An event ends at the first blank line behind its start. */
  predicate IsEvent(e: string) {
    FirstBlankLine(e + BLANK_LINE) == |e|
  }

  /** The reference: nothing is lost or invented, every event ends as early as possible, and none is left behind. */
  ghost predicate IsParse(s: string, p: Parsed) {
    && s == Joined(p.events) + p.rest
    && (forall i :: 0 <= i < |p.events| ==> IsEvent(p.events[i]))
    && !Contains(p.rest, BLANK_LINE)
  }

  lemma {:induction false} BlankLineStays(s: string, more: string)
    requires FirstBlankLine(s) >= 0
    ensures FirstBlankLine(s + more) == FirstBlankLine(s)
  {
    if !(s[0] == '\n' && s[1] == '\n') {
      assert (s + more)[1..] == s[1..] + more;
      BlankLineStays(s[1..], more);
    }
  }

  lemma CutIsEvent(s: string)
    requires FirstBlankLine(s) >= 0
    ensures var sep := FirstBlankLine(s); IsEvent(s[..sep]) && s == s[..sep] + BLANK_LINE + s[sep + 2..]
  {
    hide FirstBlankLine;
    var sep := FirstBlankLine(s);
    FirstBlankLineAt(s);
    var head := s[..sep] + BLANK_LINE;
    assert head == s[..sep + 2];
    FirstBlankLineAt(head);
    assert BlankAt(head, sep);
    assert BlankAt(s, FirstBlankLine(head));
    assert s == s[..sep + 2] + s[sep + 2..];
  }

  lemma {:induction false} SplitIsParse(s: string)
    ensures IsParse(s, Split(s))
    decreases |s|
  {
    hide FirstBlankLine, IsEvent;
    var sep := FirstBlankLine(s);
    if sep >= 0 {
      CutIsEvent(s);
      SplitIsParse(s[sep + 2..]);
      OneMoreEvent(s[..sep], s[sep + 2..], Split(s[sep + 2..]));
    } else {
      NoBlankLine(s);
      assert Joined([]) + s == s;
    }
  }

  lemma NoBlankLine(s: string)
    ensures FirstBlankLine(s) < 0 <==> !Contains(s, BLANK_LINE)
  {
    FirstBlankLineIs(s);
  }

  lemma OneMoreEvent(e: string, tail: string, later: Parsed)
    requires IsEvent(e) && IsParse(tail, later)
    ensures IsParse(e + BLANK_LINE + tail, Parsed([e] + later.events, later.rest))
  {
    hide IsEvent, Contains;
    var events := [e] + later.events;
    assert events[1..] == later.events;
    assert Joined(events) + later.rest == e + BLANK_LINE + (Joined(later.events) + later.rest);
    forall i | 0 <= i < |events| ensures IsEvent(events[i]) {
      if i > 0 { assert events[i] == later.events[i - 1]; }
    }
  }

  /** There is only one way to meet the reference. */
  lemma {:induction false} ParseIsUnique(s: string, p: Parsed)
    requires IsParse(s, p)
    ensures p == Split(s)
    decreases |p.events|
  {
    FirstBlankLineIs(s);
    if p.events == [] {
      assert s == p.rest;
    } else {
      var e, later := p.events[0], Parsed(p.events[1..], p.rest);
      var tail := Joined(later.events) + later.rest;
      assert s == e + BLANK_LINE + tail;
      assert IsEvent(p.events[0]);
      BlankLineStays(e + BLANK_LINE, tail);
      assert s[|e| + 2..] == tail && s[..|e|] == e;
      forall i | 0 <= i < |later.events| ensures IsEvent(later.events[i]) {
        assert later.events[i] == p.events[i + 1];
      }
      ParseIsUnique(tail, later);
    }
  }

  /** The cutter meets the reference, and nothing else does. */
  lemma SplitIffParse(s: string, p: Parsed)
    ensures IsParse(s, p) <==> p == Split(s)
  {
    SplitIsParse(s);
    if IsParse(s, p) { ParseIsUnique(s, p); }
  }

  lemma {:induction false} JoinedConcat(a: seq<string>, b: seq<string>)
    ensures Joined(a + b) == Joined(a) + Joined(b)
  {
    if a == [] {
      assert a + b == b;
    } else {
      assert (a + b)[1..] == a[1..] + b;
      JoinedConcat(a[1..], b);
    }
  }

  /** Cutting behind events that were cut before. */
  lemma SplitResumes(events: seq<string>, tail: string)
    requires forall i :: 0 <= i < |events| ==> IsEvent(events[i])
    ensures Split(Joined(events) + tail) == Parsed(events + Split(tail).events, Split(tail).rest)
  {
    hide Split, Joined, IsEvent;
    var later := Split(tail);
    SplitIsParse(tail);
    JoinedConcat(events, later.events);
    assert Joined(events + later.events) + later.rest == Joined(events) + (Joined(later.events) + later.rest);
    ParseIsUnique(Joined(events) + tail, Parsed(events + later.events, later.rest));
  }

  // --- Feeding chunks -----------------------------------------------------------------------------------

  /** One chunk: events found so far, and the new buffer. */
  function Fed(p: Parsed, chunk: string): Parsed {
    var next := Split(Normalized(p.rest + chunk));
    Parsed(p.events + next.events, next.rest)
  }

  function FedAll(chunks: seq<string>): Parsed {
    if chunks == [] then Parsed([], "") else Fed(FedAll(chunks[..|chunks| - 1]), chunks[|chunks| - 1])
  }

  function Text(chunks: seq<string>): string {
    if chunks == [] then "" else Text(chunks[..|chunks| - 1]) + chunks[|chunks| - 1]
  }

  lemma {:induction false} JoinedEnd(events: seq<string>)
    ensures events != [] ==> Joined(events) != "" && Joined(events)[|Joined(events)| - 1] == '\n'
  {
    if events != [] {
      JoinedEnd(events[1..]);
      if events[1..] == [] {
        assert Joined(events) == events[0] + BLANK_LINE;
      } else {
        var later := Joined(events[1..]);
        assert Joined(events)[|Joined(events)| - 1] == later[|later| - 1];
      }
    }
  }

  /** The next chunk is handled as if the buffer still held everything. */
  lemma FedAsWhole(text: string, chunk: string)
    requires !Contains(text, CR_CRLF)
    ensures Fed(Split(Normalized(text)), chunk) == Split(Normalized(text + chunk))
  {
    hide Normalized, Split;
    var p := Split(Normalized(text));
    SplitIsParse(Normalized(text));
    var done := Joined(p.events);
    NormalizedTwice(text, chunk);
    assert Normalized(text) + chunk == done + (p.rest + chunk);
    JoinedEnd(p.events);
    NormalizedConcat(done, p.rest + chunk);
    NormalizedHasNoCrLf(text);
    if Contains(done, CRLF) { OccursInHead(done, p.rest, CRLF); }
    NothingToNormalize(done);
    SplitResumes(p.events, Normalized(p.rest + chunk));
  }

  lemma {:induction false} FedAllIsWhole(chunks: seq<string>)
    requires !Contains(Text(chunks), CR_CRLF)
    ensures FedAll(chunks) == Split(Normalized(Text(chunks)))
  {
    if chunks == [] {
      assert Split("") == Parsed([], "");
    } else {
      var before, chunk := chunks[..|chunks| - 1], chunks[|chunks| - 1];
      if Contains(Text(before), CR_CRLF) { OccursInHead(Text(before), chunk, CR_CRLF); }
      FedAllIsWhole(before);
      FedAsWhole(Text(before), chunk);
    }
  }

  lemma FedOnce(text: string)
    ensures FedAll([text]) == Split(Normalized(text)) && Text([text]) == text
  {
    assert [text][..0] == [];
    assert "" + text == text;
    assert Text([text]) == Text([]) + text;
  }

  /** Where the two halves of a text end up when it is cut right behind a CR CRLF: one carriage return is lost. */
  lemma CutBehindCrCrLf(a: string, b: string)
    requires |a| >= 3 && a[|a| - 3..] == CR_CRLF
    ensures FedAll([a, b]) != FedAll([a + b])
  {
    hide Normalized, Split;
    var first := Split(Normalized(a));
    SplitIsParse(Normalized(a));
    FedOnce(a);
    FedOnce(a + b);
    assert [a, b][..1] == [a];
    assert FedAll([a, b]) == Fed(first, b);
    NormalizedConcat(a, b);
    EndsWithCrLf(a);
    RestEndsWithCrLf(Normalized(a), first);
    NormalizedConcat(first.rest, b);
    FewerReturns(first.rest);
    var second := Split(Normalized(first.rest + b));
    SplitIsParse(Normalized(first.rest + b));
    CountBoth(a, b, first, second);
    var whole := Split(Normalized(a + b));
    SplitIsParse(Normalized(a + b));
  }

  lemma CountBoth(a: string, b: string, first: Parsed, second: Parsed)
    requires Normalized(a) == Joined(first.events) + first.rest
    requires Normalized(first.rest + b) == Joined(second.events) + second.rest == Normalized(first.rest) + Normalized(b)
    requires Normalized(a + b) == Normalized(a) + Normalized(b)
    requires Returns(Normalized(first.rest)) < Returns(first.rest)
    ensures Joined(first.events + second.events) + second.rest != Normalized(a + b)
  {
    hide Normalized, Joined;
    JoinedConcat(first.events, second.events);
    assert Joined(first.events + second.events) + second.rest
           == Joined(first.events) + (Normalized(first.rest) + Normalized(b));
    ReturnsConcat(Joined(first.events), first.rest);
    ReturnsConcat(Normalized(a), Normalized(b));
    ReturnsConcat(Joined(first.events), Normalized(first.rest) + Normalized(b));
    ReturnsConcat(Normalized(first.rest), Normalized(b));
  }

  predicate Ends(s: string) {
    |s| >= 2 && s[|s| - 2] == '\r' && s[|s| - 1] == '\n'
  }

  /** After one pass a trailing CR CRLF has become a trailing CRLF. */
  lemma {:induction false} EndsWithCrLf(a: string)
    requires |a| >= 3 && a[|a| - 3..] == CR_CRLF
    ensures Ends(Normalized(a))
  {
    var n := |a|;
    assert a[n - 3..][0] == a[n - 3] && a[n - 3..][1] == a[n - 2] && a[n - 3..][2] == a[n - 1];
    if n == 3 {
      assert a == CR_CRLF;
      assert !StartsCrLf(a) && StartsCrLf(a[1..]);
      assert Normalized(a[1..][2..]) == "";
      assert Normalized(a[1..]) == "\n";
      assert Normalized(a) == "\r" + "\n";
    } else if StartsCrLf(a) {
      assert n > 4;
      assert a[2..][n - 5..] == CR_CRLF;
      EndsWithCrLf(a[2..]);
    } else {
      assert a[1..][n - 4..] == CR_CRLF;
      EndsWithCrLf(a[1..]);
    }
  }

  /** A trailing CRLF cannot be part of a blank line, so it stays in the leftover. */
  lemma RestEndsWithCrLf(s: string, p: Parsed)
    requires Ends(s) && IsParse(s, p)
    ensures Ends(p.rest) && Contains(p.rest, CRLF)
  {
    var done := Joined(p.events);
    JoinedBlank(p.events);
    assert s == done + p.rest;
    assert |p.rest| >= 2;
    assert p.rest[|p.rest| - 2] == s[|s| - 2];
    assert p.rest[|p.rest| - 2..] == CRLF;
    assert Occurs(p.rest, CRLF, |p.rest| - 2);
  }

  lemma {:induction false} JoinedBlank(events: seq<string>)
    ensures events != [] ==>
              |Joined(events)| >= 2 && Joined(events)[|Joined(events)| - 2] == '\n'
                && Joined(events)[|Joined(events)| - 1] == '\n'
    ensures events == [] ==> Joined(events) == ""
  {
    if events != [] {
      var later := Joined(events[1..]);
      JoinedBlank(events[1..]);
      if events[1..] == [] {
        assert Joined(events) == events[0] + BLANK_LINE;
      } else {
        assert Joined(events)[|Joined(events)| - 2] == later[|later| - 2]
               && Joined(events)[|Joined(events)| - 1] == later[|later| - 1];
      }
    }
  }

  ghost predicate CutsDoNotMatter(text: string) {
    forall chunks :: Text(chunks) == text ==> FedAll(chunks) == FedAll([text])
  }

  /**
    Every way of cutting a text into chunks, cuts inside a CRLF included, yields the same events and the same
    leftover as feeding it whole, exactly when the text has no CR directly before a CRLF.
   */
  lemma ChunkInvariantIff(text: string)
    ensures CutsDoNotMatter(text) <==> !Contains(text, CR_CRLF)
  {
    hide FedAll, Fed, Split, Normalized;
    if Contains(text, CR_CRLF) {
      var i :| Occurs(text, CR_CRLF, i);
      var a, b := text[..i + 3], text[i + 3..];
      assert a[|a| - 3..] == text[i..i + 3];
      assert a + b == text;
      CutBehindCrCrLf(a, b);
      TextOfTwo(a, b);
      assert Text([a, b]) == text && FedAll([a, b]) != FedAll([text]);
    } else {
      forall chunks | Text(chunks) == text ensures FedAll(chunks) == FedAll([text]) {
        FedAllIsWhole(chunks);
        FedOnce(text);
      }
    }
  }

  lemma TextOfTwo(a: string, b: string)
    ensures Text([a, b]) == a + b
  {
    assert [a, b][..1] == [a];
    assert [a][..0] == [];
    assert Text([a]) == "" + a;
  }

  /** A text that consists of events and something behind its last blank line. */
  ghost predicate EndsBehind(text: string, events: seq<string>, rest: string) {
    text == Joined(events) + rest && !Contains(rest, BLANK_LINE)
  }

  /**
    What a stream ends with behind its last blank line is never handed on: two streams, cut in any way, hand on
    the same events exactly when they differ at most in that.
   */
  lemma UnterminatedIsDroppedIff(chunks: seq<string>, others: seq<string>)
    requires !Contains(Text(chunks), CR_CRLF) && !Contains(Text(others), CR_CRLF)
    ensures FedAll(others).events == FedAll(chunks).events <==>
              exists rest :: EndsBehind(Normalized(Text(others)), FedAll(chunks).events, rest)
  {
    hide Split, Normalized, FedAll, Text, Contains;
    var text, other := Normalized(Text(chunks)), Normalized(Text(others));
    FedAllIsWhole(chunks);
    FedAllIsWhole(others);
    SplitIsParse(text);
    SplitIsParse(other);
    if FedAll(others).events == FedAll(chunks).events {
      assert EndsBehind(other, FedAll(chunks).events, Split(other).rest);
    }
    if rest :| EndsBehind(other, FedAll(chunks).events, rest) {
      ParseIsUnique(other, Parsed(FedAll(chunks).events, rest));
    }
  }

  // --- The loop -------------------------------------------------------------------------------------------

  /** `indexOf` for a blank line. */
  method IndexOfBlankLine(s: string) returns (sep: int)
    ensures sep == FirstBlankLine(s)
  {
    sep := 0;
    assert s[0..] == s;
    while sep + 2 <= |s|
      invariant 0 <= sep <= |s|
      invariant FirstBlankLine(s) == if FirstBlankLine(s[sep..]) < 0 then -1 else sep + FirstBlankLine(s[sep..])
    {
      if s[sep] == '\n' && s[sep + 1] == '\n' {
        return;
      }
      assert s[sep..][1..] == s[sep + 1..];
      sep := sep + 1;
    }
    sep := -1;
  }

  /** Reads all chunks of a stream, handing on every complete event; the leftover is dropped at the end. */
  method ReadStream(chunks: seq<string>) returns (events: seq<string>, buffer: string)
    ensures Parsed(events, buffer) == FedAll(chunks)
  {
    hide Normalized, FirstBlankLine;
    events, buffer := [], "";
    for i := 0 to |chunks|
      invariant Parsed(events, buffer) == FedAll(chunks[..i])
    {
      assert chunks[..i + 1][..i] == chunks[..i];
      buffer := Normalized(buffer + chunks[i]);
      ghost var before, goal := events, Split(buffer);
      var sep := IndexOfBlankLine(buffer);
      while sep != -1
        invariant sep == FirstBlankLine(buffer)
        invariant before + goal.events == events + Split(buffer).events && goal.rest == Split(buffer).rest
        decreases |buffer|
      {
        var rawEvent := buffer[..sep];
        buffer := buffer[sep + 2..];
        events := events + [rawEvent];
        sep := IndexOfBlankLine(buffer);
      }
    }
    assert chunks[..|chunks|] == chunks;
  }
}
