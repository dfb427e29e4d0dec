/**
  The text of a showcase stream in server/collectors/ShowcaseManager.js: growing under a shared cap,
  replaced once at the end, and sent to a polling client as deltas.
 */
module ShowcaseState {
  import opened Options

  datatype Stream = Stream(content: string, reasoning: string, capped: bool)

  function Size(s: Stream): nat {
    |s.content| + |s.reasoning|
  }

  /** `min(max(1, maxTokens) * 16, 200000)`. */
  function ContentCap(maxTokens: int): (cap: nat)
    ensures 16 <= cap <= 200_000
    ensures maxTokens < 1 ==> cap == 16
    ensures 1 <= maxTokens <= 12_500 ==> cap == maxTokens * 16
    ensures maxTokens > 12_500 ==> cap == 200_000
  {
    var tokens := if maxTokens < 1 then 1 else maxTokens;
    if tokens * 16 < 200_000 then tokens * 16 else 200_000
  }

  // --- Growing ------------------------------------------------------------------------------------

  /** As much of a text as there is room for. */
  function Fitting(text: string, room: nat): string {
    if |text| <= room then text else text[..room]
  }

  /** Reasoning first, then the answer; the flag is raised when one of them had to be cut. */
  function Appended(s: Stream, cap: nat, answer: string, reasoning: string): Stream {
    if s.capped then s
    else if Size(s) >= cap then s.(capped := true)
    else
      var room := cap - Size(s);
      var left := room - |Fitting(reasoning, room)|;
      Stream(s.content + Fitting(answer, left), s.reasoning + Fitting(reasoning, room), |reasoning| > room
             || (0 < left < |answer|))
  }

  /**
    The texts that the request returned at its end replace shorter live ones, and are cut to the cap, the answer
    first.
   */
  function Filled(s: Stream, cap: nat, answer: string, reasoning: string): Stream {
    var content := if |answer| > |s.content| then answer else s.content;
    var thought := if |reasoning| > |s.reasoning| then reasoning else s.reasoning;
    if |content| + |thought| <= cap then Stream(content, thought, s.capped)
    else
      var over := |content| + |thought| - cap;
      if |content| >= over then Stream(content[..|content| - over], thought, true)
      else Stream("", thought[..|thought| - (over - |content|)], true)
  }

  lemma AppendKeepsCap(s: Stream, cap: nat, answer: string, reasoning: string)
    requires Size(s) <= cap
    ensures Size(Appended(s, cap, answer, reasoning)) <= cap
    ensures s.content <= Appended(s, cap, answer, reasoning).content
    ensures s.reasoning <= Appended(s, cap, answer, reasoning).reasoning
  {
  }

  /** The cap is met after the final fill whatever came before it, and used up if anything had to be cut. */
  lemma FillMeetsCap(s: Stream, cap: nat, answer: string, reasoning: string)
    ensures Size(Filled(s, cap, answer, reasoning)) <= cap
    ensures Filled(s, cap, answer, reasoning).capped && !s.capped ==> Size(Filled(s, cap, answer, reasoning)) == cap
  {
  }

  /** The texts grow by all that arrived. */
  predicate KeptAll(s: Stream, s': Stream, answer: string, reasoning: string) {
    s'.content == s.content + answer && s'.reasoning == s.reasoning + reasoning
  }

  /**
    The capped flag tells whether anything was cut, except when the reasoning fills the room to the last
    character: then the answer that came with it is dropped and the flag stays down.
   */
  lemma FlagIsHonestIff(s: Stream, cap: nat, answer: string, reasoning: string)
    requires !s.capped && Size(s) < cap
    ensures var s' := Appended(s, cap, answer, reasoning);
            (s'.capped <==> !KeptAll(s, s', answer, reasoning)) <==> !(|reasoning| == cap - Size(s) && answer != "")
  {
    var s' := Appended(s, cap, answer, reasoning);
    var room := cap - Size(s);
    assert |s'.content| == |s.content| + |Fitting(answer, room - |Fitting(reasoning, room)|)|;
    assert |s'.reasoning| == |s.reasoning| + |Fitting(reasoning, room)|;
  }

  /**
    A stream that is capped takes nothing, and a full one is only marked. Otherwise the room goes to the reasoning
    first and what it leaves to the answer; the mark is set exactly when one of them found some room, but too little.
   */
  lemma AppendTakesReasoningFirst(s: Stream, cap: nat, answer: string, reasoning: string)
    ensures var s', room := Appended(s, cap, answer, reasoning), cap - Size(s);
            if s.capped then s' == s
            else if room <= 0 then s' == Stream(s.content, s.reasoning, true)
            else if |reasoning| >= room then
              s' == Stream(s.content, s.reasoning + reasoning[..room], |reasoning| > room)
            else if |answer| > room - |reasoning| then
              s' == Stream(s.content + answer[..room - |reasoning|], s.reasoning + reasoning, true)
            else s' == Stream(s.content + answer, s.reasoning + reasoning, false)
  {
    assert |reasoning| >= cap - Size(s) > 0 ==> s.content + Fitting(answer, 0) == s.content;
  }

  function Longer(a: string, b: string): string {
    if |b| > |a| then b else a
  }

  /**
    The fill takes the longer of both texts each and cuts them to the cap, the answer first; only a cut sets the mark.
   */
  lemma FillTakesLonger(s: Stream, cap: nat, answer: string, reasoning: string)
    ensures var s', full := Filled(s, cap, answer, reasoning),
            Client(Longer(s.content, answer), Longer(s.reasoning, reasoning));
            && Texts(s') == CutToCap(full, cap)
            && (s'.capped <==> s.capped || |full.content| + |full.reasoning| > cap)
  {
  }

  // --- Polling ------------------------------------------------------------------------------------

  /** Lengths of the two texts as last sent. */
  datatype Sent = Sent(content: nat, reasoning: nat)

  /** What a poll answers for a stream: both texts, or what was appended to them. */
  datatype Delta = Delta(texts: Option<Client>, contentAppend: string, reasoningAppend: string, resetContent: bool)

  /** The two texts as the client holds them. */
  datatype Client = Client(content: string, reasoning: string)

  const BLANK := Client("", "")

  function Texts(s: Stream): Client {
    Client(s.content, s.reasoning)
  }

  function SentOf(s: Stream): Sent {
    Sent(|s.content|, |s.reasoning|)
  }

  /** One of the texts became shorter than what was sent of it. */
  predicate Shrunk(s: Stream, sent: Sent) {
    sent.content > |s.content| || sent.reasoning > |s.reasoning|
  }

  function DeltaOf(s: Stream, sent: Sent, full: bool): Delta {
    if full then Delta(Some(Texts(s)), "", "", false)
    else if Shrunk(s, sent) then Delta(Some(Texts(s)), "", "", true)
    else Delta(None, s.content[sent.content..], s.reasoning[sent.reasoning..], false)
  }

  function Applied(c: Client, d: Delta): Client {
    if d.texts.Some? then d.texts.value else Client(c.content + d.contentAppend, c.reasoning + d.reasoningAppend)
  }

  function LengthsOf(c: Client): Sent {
    Sent(|c.content|, |c.reasoning|)
  }

  /**
    A poll that asks for a full snapshot gets both texts; one that was sent more than there is of a text gets both and
    the order to start over; any other gets what lies behind the sent lengths.
   */
  lemma PollAnswers(s: Stream, sent: Sent, full: bool)
    ensures var d := DeltaOf(s, sent, full);
            && (d.resetContent <==> !full && (sent.content > |s.content| || sent.reasoning > |s.reasoning|))
            && (full || d.resetContent ==> d == Delta(Some(Texts(s)), "", "", d.resetContent))
            && (!full && !d.resetContent ==>
                d == Delta(None, s.content[sent.content..], s.reasoning[sent.reasoning..], false))
  {
  }

  /**
    After a poll the client holds the server's texts exactly when they were sent in full, or extend what the client
    held.
   */
  lemma PollIsRightIff(s: Stream, c: Client, full: bool)
    ensures Applied(c, DeltaOf(s, LengthsOf(c), full)) == Texts(s) <==>
              full || Shrunk(s, LengthsOf(c)) || (c.content <= s.content && c.reasoning <= s.reasoning)
  {
    if !full && !Shrunk(s, LengthsOf(c)) {
      PrefixIff(c.content, s.content);
      PrefixIff(c.reasoning, s.reasoning);
    }
  }

  lemma PrefixIff(a: string, b: string)
    requires |a| <= |b|
    ensures a + b[|a|..] == b <==> a <= b
  {
    assert (a + b[|a|..])[..|a|] == a;
    if a <= b { assert b == b[..|a|] + b[|a|..]; }
  }

  // --- Runs ---------------------------------------------------------------------------------------

  /**
    One stream; what its request has collected so far; whether the session still runs, without which deltas no
    longer reach the stream; whether the request has ended; what was sent; and the one client that polls.
   */
  datatype System = System(stream: Stream, collected: Client, stopped: bool, ended: bool, sent: Sent, client: Client)

  const START := System(Stream("", "", false), BLANK, false, false, Sent(0, 0), BLANK)

  datatype Event = Append(answer: string, reasoning: string) | Stop | Fill | Poll(full: bool)

  function Collected(c: Client, answer: string, reasoning: string): Client {
    Client(c.content + answer, c.reasoning + reasoning)
  }

  /**
    A piece of the response goes into what the request collects and, while the session runs, to the stream. The
    fill comes once, when the request has ended, with all that it collected. Every poll's answer reaches the client.
   */
  function Next(s: System, cap: nat, e: Event): System {
    match e
    case Append(answer, reasoning) =>
      if s.ended then s
      else
        var live := if s.stopped then s.stream else Appended(s.stream, cap, answer, reasoning);
        s.(stream := live, collected := Collected(s.collected, answer, reasoning))
    case Stop => s.(stopped := true)
    case Fill =>
      if s.ended then s
      else s.(stream := Filled(s.stream, cap, s.collected.content, s.collected.reasoning), ended := true)
    case Poll(full) => s.(sent := SentOf(s.stream), client := Applied(s.client, DeltaOf(s.stream, s.sent, full)))
  }

  function Run(cap: nat, events: seq<Event>): System {
    if events == [] then START else Next(Run(cap, events[..|events| - 1]), cap, events[|events| - 1])
  }

  /** A response cut to the cap, its answer first. */
  function CutToCap(c: Client, cap: nat): Client {
    if |c.content| + |c.reasoning| <= cap then c
    else if |c.reasoning| <= cap then Client(c.content[..cap - |c.reasoning|], c.reasoning)
    else Client("", c.reasoning[..cap])
  }

  predicate Comparable(a: string, b: string) {
    a <= b || b <= a
  }

  predicate Within(a: Client, b: Client) {
    a.content <= b.content && a.reasoning <= b.reasoning
  }

  /**
    The live texts are the beginnings of what was collected, and all of it unless the session or the cap got in the
    way.
   */
  predicate Live(s: System, cap: nat) {
    && Within(Texts(s.stream), s.collected)
    && (s.stopped || s.stream.capped || Size(s.stream) == cap || Texts(s.stream) == s.collected)
  }

  /**
    What the client holds was sent, and is comparable to the server's texts: while the request runs it is a
    beginning of the live texts, and at its end the stream is the response cut to the cap.
   */
  predicate Synced(s: System, cap: nat) {
    && s.sent == LengthsOf(s.client)
    && Size(s.stream) <= cap
    && Comparable(s.client.content, s.stream.content) && Comparable(s.client.reasoning, s.stream.reasoning)
    && (if s.ended then Texts(s.stream) == CutToCap(s.collected, cap)
        else Live(s, cap) && Within(s.client, Texts(s.stream)))
  }

  lemma CutComparable(a: string, b: string, k: nat)
    requires a <= b && k <= |b|
    ensures Comparable(a, b[..k])
  {
    if |a| <= k { assert b[..k][..|a|] == a; } else { assert a[..k] == b[..k]; }
  }

  lemma PrefixOfPrefix(a: string, b: string, c: string)
    requires a <= b && b <= c
    ensures a <= c
  {
  }

  lemma WithinWithin(a: Client, b: Client, c: Client)
    requires Within(a, b) && Within(b, c)
    ensures Within(a, c)
  {
    PrefixOfPrefix(a.content, b.content, c.content);
    PrefixOfPrefix(a.reasoning, b.reasoning, c.reasoning);
  }

  lemma AppendKeepsLive(s: System, cap: nat, answer: string, reasoning: string)
    requires Live(s, cap) && Size(s.stream) <= cap && !s.ended
    ensures Live(Next(s, cap, Append(answer, reasoning)), cap)
  {
    var after := Next(s, cap, Append(answer, reasoning));
    WithinWithin(Texts(s.stream), s.collected, after.collected);
  }

  /**
    The fill replaces beginnings by the whole, so all that is left of the live texts is what the cap would leave
    anyway.
   */
  lemma FillIsCutToCap(s: Stream, cap: nat, c: Client)
    requires Within(Texts(s), c)
    ensures Texts(Filled(s, cap, c.content, c.reasoning)) == CutToCap(c, cap)
  {
  }

  lemma CutKeepsComparable(a: Client, c: Client, cap: nat)
    requires Within(a, c)
    ensures Comparable(a.content, CutToCap(c, cap).content) && Comparable(a.reasoning, CutToCap(c, cap).reasoning)
  {
    if |c.content| + |c.reasoning| > cap {
      if |c.reasoning| <= cap {
        CutComparable(a.content, c.content, cap - |c.reasoning|);
      } else {
        CutComparable(a.content, c.content, 0);
        CutComparable(a.reasoning, c.reasoning, cap);
      }
    }
  }

  lemma FillKeepsSynced(s: System, cap: nat)
    requires Synced(s, cap) && !s.ended
    ensures Synced(Next(s, cap, Fill), cap)
  {
    hide Filled, CutToCap;
    WithinWithin(s.client, Texts(s.stream), s.collected);
    FillIsCutToCap(s.stream, cap, s.collected);
    FillMeetsCap(s.stream, cap, s.collected.content, s.collected.reasoning);
    CutKeepsComparable(s.client, s.collected, cap);
  }

  lemma AppendKeepsSynced(s: System, cap: nat, answer: string, reasoning: string)
    requires Synced(s, cap) && !s.ended
    ensures Synced(Next(s, cap, Append(answer, reasoning)), cap)
  {
    hide Appended, Live;
    AppendKeepsLive(s, cap, answer, reasoning);
    if !s.stopped {
      AppendKeepsCap(s.stream, cap, answer, reasoning);
      WithinWithin(s.client, Texts(s.stream), Texts(Appended(s.stream, cap, answer, reasoning)));
    }
  }

  lemma PollKeepsSynced(s: System, cap: nat, full: bool)
    requires Synced(s, cap)
    ensures Synced(Next(s, cap, Poll(full)), cap)
    ensures Next(s, cap, Poll(full)).client == Texts(s.stream)
  {
    PollIsRightIff(s.stream, s.client, full);
  }

  lemma NextKeepsSynced(s: System, cap: nat, e: Event)
    requires Synced(s, cap)
    ensures Synced(Next(s, cap, e), cap)
  {
    match e
    case Append(answer, reasoning) => if !s.ended { AppendKeepsSynced(s, cap, answer, reasoning); }
    case Stop =>
    case Fill => if !s.ended { FillKeepsSynced(s, cap); }
    case Poll(full) => PollKeepsSynced(s, cap, full);
  }

  lemma {:induction false} RunIsSynced(cap: nat, events: seq<Event>)
    ensures Synced(Run(cap, events), cap)
  {
    hide Synced, Next;
    if events == [] {
      StartIsSynced(cap);
    } else {
      RunIsSynced(cap, events[..|events| - 1]);
      NextKeepsSynced(Run(cap, events[..|events| - 1]), cap, events[|events| - 1]);
    }
  }

  lemma StartIsSynced(cap: nat)
    ensures Synced(START, cap)
  {
  }

  /**
    A single client that appends deltas, or replaces its texts when told to, holds exactly the server's two texts
    after every poll of any run, and the texts together never exceed the cap.
   */
  lemma ClientHoldsServerTexts(cap: nat, events: seq<Event>)
    ensures Size(Run(cap, events).stream) <= cap
    ensures events != [] && events[|events| - 1].Poll? ==> Run(cap, events).client == Texts(Run(cap, events).stream)
  {
    hide Next;
    RunIsSynced(cap, events);
    if events != [] && events[|events| - 1].Poll? {
      var before, poll := Run(cap, events[..|events| - 1]), events[|events| - 1];
      RunIsSynced(cap, events[..|events| - 1]);
      PollKeepsSynced(before, cap, poll.full);
      PollKeepsStream(before, cap, poll.full);
    }
  }

  lemma PollKeepsStream(s: System, cap: nat, full: bool)
    ensures Next(s, cap, Poll(full)).stream == s.stream
  {
  }

  /**
    Whatever the deltas were, wherever the cap cut them and whenever the session stopped: once the request has
    ended, the stream is its whole answer and reasoning, cut to the cap with the answer giving way first.
   */
  lemma {:induction false} EndsAsCutToCap(cap: nat, events: seq<Event>)
    ensures var s := Run(cap, events); s.ended ==> Texts(s.stream) == CutToCap(s.collected, cap)
    ensures var s := Run(cap, events); !s.ended ==> Live(s, cap)
  {
    hide Run, Live, CutToCap;
    RunIsSynced(cap, events);
  }

  /** At the end of the request a stream without the mark is the whole response. */
  lemma {:induction false} UnmarkedIsWhole(cap: nat, events: seq<Event>)
    ensures var s := Run(cap, events); s.ended && !s.stream.capped ==> Texts(s.stream) == s.collected
  {
    hide Synced, Appended, Filled;
    if events != [] {
      var before, e := Run(cap, events[..|events| - 1]), events[|events| - 1];
      UnmarkedIsWhole(cap, events[..|events| - 1]);
      if e.Fill? && !before.ended {
        RunIsLive(cap, events[..|events| - 1]);
        FillIsCutToCap(before.stream, cap, before.collected);
        FillTakesLonger(before.stream, cap, before.collected.content, before.collected.reasoning);
        LongerWithin(Texts(before.stream), before.collected);
      }
    }
  }

  lemma RunIsLive(cap: nat, events: seq<Event>)
    ensures !Run(cap, events).ended ==> Within(Texts(Run(cap, events).stream), Run(cap, events).collected)
  {
    hide Run, Comparable;
    RunIsSynced(cap, events);
  }

  lemma LongerWithin(a: Client, b: Client)
    requires Within(a, b)
    ensures Client(Longer(a.content, b.content), Longer(a.reasoning, b.reasoning)) == b
  {
  }

  /** With a second poller of the same session, a client misses what the other one was sent. */
  lemma SecondPollerMisses(s: System, cap: nat, answer: string)
    requires Synced(s, cap) && !s.ended && !s.stream.capped && answer != "" && Size(s.stream) + |answer| <= cap
    ensures var grown := Appended(s.stream, cap, answer, "");
            Applied(s.client, DeltaOf(grown, SentOf(grown), false)) != Texts(grown)
  {
    var grown := Appended(s.stream, cap, answer, "");
    assert grown.content == s.stream.content + answer;
    assert |grown.content| > |s.client.content|;
    assert grown.content[|grown.content|..] == "";
    assert s.client.content + "" == s.client.content;
  }
}

/** A showcase session: its streams and sent lengths, updated in place. */
module ShowcaseSessions {
  import opened Options
  import opened ShowcaseState

  class ShowcaseSession {
    const cap: nat
    const streams: array<Stream>
    const sent: array<Sent>

    ghost predicate Valid()
      reads this, streams, sent
    {
      && sent.Length == streams.Length
      && forall i :: 0 <= i < streams.Length ==> Size(streams[i]) <= cap
    }

    constructor (count: nat, maxTokens: int)
      ensures Valid() && fresh(streams) && fresh(sent)
      ensures streams.Length == count && cap == ContentCap(maxTokens)
      ensures forall i :: 0 <= i < count ==> streams[i] == START.stream && sent[i] == START.sent
    {
      cap := ContentCap(maxTokens);
      streams := new Stream[count](_ => START.stream);
      sent := new Sent[count](_ => START.sent);
    }

    /** Appends to the reasoning, then to the answer, of one stream. */
    method AppendParts(i: nat, answer: string, reasoning: string)
      requires Valid() && i < streams.Length
      modifies streams
      ensures Valid()
      ensures streams[..] == old(streams[..])[i := Appended(old(streams[i]), cap, answer, reasoning)]
    {
      AppendKeepsCap(streams[i], cap, answer, reasoning);
      var s := streams[i];
      if s.capped {
        assert streams[..] == old(streams[..])[i := s];
        return;
      }
      if Size(s) >= cap {
        streams[i] := s.(capped := true);
        return;
      }
      var room := cap - Size(s);
      var grownReasoning, afterReasoning, cutReasoning := AppendOne(s.reasoning, reasoning, room);
      var grownContent, _, cutContent := AppendOne(s.content, answer, afterReasoning);
      streams[i] := Stream(grownContent, grownReasoning, cutReasoning || cutContent);
    }

    /** Appends as much of a text as there is room for; with no room at all nothing happens, not even the flag. */
    static method AppendOne(field: string, text: string, room: nat) returns (grown: string, left: nat, cut: bool)
      ensures grown == field + Fitting(text, room)
      ensures left == room - |Fitting(text, room)|
      ensures cut <==> 0 < room < |text|
    {
      grown, left, cut := field, room, false;
      if text == "" || room == 0 {
        assert Fitting(text, room) == "";
        return;
      }
      if |text| <= room {
        grown := field + text;
        left := room - |text|;
      } else {
        grown := field + text[..room];
        left := 0;
        cut := true;
      }
    }

    /** Fills gaps of the live texts from the result of the request, then enforces the cap. */
    method FinalFill(i: nat, answer: string, reasoning: string)
      requires Valid() && i < streams.Length
      modifies streams
      ensures Valid()
      ensures streams[..] == old(streams[..])[i := Filled(old(streams[i]), cap, answer, reasoning)]
    {
      FillMeetsCap(streams[i], cap, answer, reasoning);
      var s := streams[i];
      if |answer| > |s.content| {
        s := s.(content := answer);
      }
      if |reasoning| > |s.reasoning| {
        s := s.(reasoning := reasoning);
      }
      var total := |s.content| + |s.reasoning|;
      if total > cap {
        var over := total - cap;
        if |s.content| >= over {
          s := s.(content := s.content[..|s.content| - over]);
        } else {
          var rest := over - |s.content|;
          s := s.(content := "", reasoning := s.reasoning[..|s.reasoning| - rest]);
        }
        s := s.(capped := true);
      }
      streams[i] := s;
    }

    /** One poll: a delta for every stream, and the lengths sent brought up to date. */
    method GetSession(full: bool) returns (deltas: seq<Delta>)
      requires Valid()
      modifies sent
      ensures Valid()
      ensures |deltas| == streams.Length
      ensures forall i :: 0 <= i < streams.Length ==>
                deltas[i] == DeltaOf(streams[i], old(sent[i]), full) && sent[i] == SentOf(streams[i])
    {
      deltas := [];
      for i := 0 to streams.Length
        invariant Valid() && |deltas| == i
        invariant forall j :: 0 <= j < i ==>
                    deltas[j] == DeltaOf(streams[j], old(sent[j]), full) && sent[j] == SentOf(streams[j])
        invariant forall j :: i <= j < sent.Length ==> sent[j] == old(sent[j])
      {
        var s, last := streams[i], sent[i];
        var resetContent := !full && (last.content > |s.content| || last.reasoning > |s.reasoning|);
        sent[i] := Sent(|s.content|, |s.reasoning|);
        if full || resetContent {
          deltas := deltas + [Delta(Some(Texts(s)), "", "", resetContent)];
        } else {
          deltas := deltas + [Delta(None, s.content[last.content..], s.reasoning[last.reasoning..], false)];
        }
      }
    }
  }
}
