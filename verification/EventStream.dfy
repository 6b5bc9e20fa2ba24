/**
 * Server-sent events in the command-line client: the line reader of
 * `cli_client/client.py` and the loop of `cli_client/commands.py` that consumes
 * what it yields. The reader gives each data line its own event; unlike section
 * 9.2.6 of the WHATWG HTML Living Standard it never joins several data lines.
 */
module EventStream {
  import opened Prelude
  import opened Text

  /** A named event and its payload, still as text. */
  datatype Event = Event(name: string, payload: string)

  // -------------------------------------------------------------- decoding

  /** How the reader sees a line. */
  datatype Line = Blank | Named(name: string) | Payload(text: string) | Other

  function Classify(raw: string): Line {
    var line := Strip(raw);
    if line == "" then Blank
    else if StartsWith(line, "event:") then Named(Strip(line[6..]))
    else if StartsWith(line, "data:") then Payload(Strip(line[5..]))
    else Other
  }

  function Classified(lines: seq<string>): seq<Line> {
    if lines == [] then [] else [Classify(lines[0])] + Classified(lines[1..])
  }

  /** What is yielded for these lines when `name` is the current event name. */
  function Yields(lines: seq<Line>, name: string): seq<Event> {
    if lines == [] then []
    else
      match lines[0]
      case Blank => Yields(lines[1..], "")
      case Named(name') => Yields(lines[1..], name')
      case Payload(text) => [Event(name, text)] + Yields(lines[1..], name)
      case Other => Yields(lines[1..], name)
  }

  function Decode(lines: seq<string>): seq<Event> {
    Yields(Classified(lines), "")
  }

  method StreamMessage(lines: seq<string>) returns (yielded: seq<Event>)
    ensures yielded == Decode(lines)
  {
    var eventName := "";
    yielded := [];
    for i := 0 to |lines|
      invariant yielded + Yields(Classified(lines[i..]), eventName) == Decode(lines)
    {
      var raw := lines[i];
      assert lines[i..][1..] == lines[i + 1..];
      assert Classified(lines[i..])[1..] == Classified(lines[i + 1..]);
      var line := Strip(raw);
      if line == "" {
        assert Classify(raw) == Blank;
        eventName := "";
      } else if StartsWith(line, "event:") {
        eventName := Strip(line[6..]);
        assert Classify(raw) == Named(eventName);
      } else if StartsWith(line, "data:") {
        var payload := Strip(line[5..]);
        assert Classify(raw) == Payload(payload);
        yielded := yielded + [Event(eventName, payload)];
      }
    }
  }

  // -------------------------------------------------------------- encoding

  /** A comment, or any other line that is neither blank nor an event or data line. */
  predicate Ignored(raw: string) {
    Strip(raw) != "" && !StartsWith(Strip(raw), "event:") && !StartsWith(Strip(raw), "data:")
  }

  predicate BlankLine(raw: string) { Strip(raw) == "" }

  /** Extra lines before an event, and ignored ones between its two lines. */
  datatype Gap = Gap(before: seq<string>, inside: seq<string>)

  predicate Harmless(gap: Gap) {
    && (forall l | l in gap.before :: Ignored(l) || BlankLine(l))
    && (forall l | l in gap.inside :: Ignored(l))
  }

  function EncodeOne(e: Event, gap: Gap): seq<string> {
    gap.before + ["event: " + e.name] + gap.inside + ["data: " + e.payload, ""]
  }

  function Encode(events: seq<Event>, gaps: seq<Gap>): seq<string>
    requires |gaps| == |events|
  {
    if events == [] then [] else EncodeOne(events[0], gaps[0]) + Encode(events[1..], gaps[1..])
  }

  predicate Plain(e: Event) { Trimmed(e.name) && Trimmed(e.payload) }

  lemma IgnoredIsOther(raw: string)
    requires Ignored(raw)
    ensures Classify(raw) == Other
  {}

  /** A tag followed by a space and a trimmed value is stripped to a line with that tag and value. */
  lemma FieldLine(tag: string, value: string, line: string)
    requires tag != "" && Trimmed(tag) && Trimmed(value) && line == Strip(tag + " " + value)
    ensures StartsWith(line, tag) && line[0] == tag[0] && Strip(line[|tag|..]) == value
  {
    if value == "" {
      assert AllSpace(" ");
      assert tag + " " + value == "" + tag + " ";
      StripPadded("", tag, " ");
      StripTrimmed("");
    } else {
      StripTrimmed(tag + " " + value);
      assert (tag + " " + value)[|tag|..] == " " + value + "";
      StripPadded(" ", value, "");
    }
  }

  lemma EventLine(name: string)
    requires Trimmed(name)
    ensures Classify("event: " + name) == Named(name)
  {
    assert "event: " + name == "event:" + " " + name;
    FieldLine("event:", name, Strip("event: " + name));
  }

  lemma DataLine(payload: string)
    requires Trimmed(payload)
    ensures Classify("data: " + payload) == Payload(payload)
  {
    assert "data: " + payload == "data:" + " " + payload;
    FieldLine("data:", payload, Strip("data: " + payload));
    assert "event:"[0] == 'e';
  }

  lemma {:induction false} ClassifiedAppend(a: seq<string>, b: seq<string>)
    ensures Classified(a + b) == Classified(a) + Classified(b)
    ensures |Classified(a)| == |a|
  {
    if a == [] {
      assert a + b == b;
    } else {
      assert (a + b)[1..] == a[1..] + b;
      ClassifiedAppend(a[1..], b);
    }
  }

  lemma {:induction false} NoiseClassified(noise: seq<string>)
    ensures (forall l | l in noise :: Ignored(l) || BlankLine(l)) ==>
              forall k | k in Classified(noise) :: k.Other? || k.Blank?
    ensures (forall l | l in noise :: Ignored(l)) ==> forall k | k in Classified(noise) :: k.Other?
  {
    if noise != [] {
      NoiseClassified(noise[1..]);
      if Ignored(noise[0]) { IgnoredIsOther(noise[0]); }
    }
  }

  lemma {:induction false} SkipNoise(noise: seq<Line>, rest: seq<Line>, name: string)
    requires forall k | k in noise :: k.Other? || (k.Blank? && name == "")
    ensures Yields(noise + rest, name) == Yields(rest, name)
  {
    if noise == [] {
      assert noise + rest == rest;
    } else {
      assert noise[0] in noise;
      assert (noise + rest)[1..] == noise[1..] + rest;
      SkipNoise(noise[1..], rest, name);
    }
  }

  lemma EncodedLines(e: Event, gap: Gap)
    requires Plain(e)
    ensures Classified(EncodeOne(e, gap))
         == Classified(gap.before) + [Named(e.name)] + Classified(gap.inside) + [Payload(e.payload), Blank]
  {
    EventLine(e.name);
    DataLine(e.payload);
    StripTrimmed("");
    var head, ends := ["event: " + e.name], ["data: " + e.payload, ""];
    assert Classified(head) == [Named(e.name)];
    assert Classify("") == Blank && Classified([""]) == [Blank];
    assert ends[1..] == [""];
    assert Classified(ends) == [Payload(e.payload), Blank];
    ClassifiedAppend(gap.before + head + gap.inside, ends);
    ClassifiedAppend(gap.before + head, gap.inside);
    ClassifiedAppend(gap.before, head);
  }

  lemma YieldsOne(before: seq<Line>, inside: seq<Line>, e: Event, rest: seq<Line>)
    requires forall k | k in before :: k.Other? || k.Blank?
    requires forall k | k in inside :: k.Other?
    ensures Yields(before + [Named(e.name)] + inside + [Payload(e.payload), Blank] + rest, "")
         == [e] + Yields(rest, "")
  {
    var last := [Blank] + rest;
    var tail := [Payload(e.payload)] + last;
    var fromName := [Named(e.name)] + (inside + tail);
    assert before + [Named(e.name)] + inside + [Payload(e.payload), Blank] + rest == before + fromName;
    SkipNoise(before, fromName, "");
    assert fromName[1..] == inside + tail;
    SkipNoise(inside, tail, e.name);
    assert tail[1..] == last && last[1..] == rest;
  }

  /** Decoding inverts encoding, whatever comments, unknown and blank lines come in between. */
  lemma {:induction false} DecodeInvertsEncode(events: seq<Event>, gaps: seq<Gap>, trailing: seq<string>)
    requires |gaps| == |events| && forall i | 0 <= i < |events| :: Plain(events[i]) && Harmless(gaps[i])
    requires forall l | l in trailing :: Ignored(l) || BlankLine(l)
    ensures Decode(Encode(events, gaps) + trailing) == events
  {
    if events == [] {
      assert Encode(events, gaps) + trailing == trailing;
      NoiseClassified(trailing);
      SkipNoise(Classified(trailing), [], "");
      assert Classified(trailing) + [] == Classified(trailing);
    } else {
      var e, gap := events[0], gaps[0];
      var rest := Encode(events[1..], gaps[1..]) + trailing;
      assert Encode(events, gaps) + trailing == EncodeOne(e, gap) + rest;
      ClassifiedAppend(EncodeOne(e, gap), rest);
      EncodedLines(e, gap);
      NoiseClassified(gap.before);
      NoiseClassified(gap.inside);
      YieldsOne(Classified(gap.before), Classified(gap.inside), e, Classified(rest));
      DecodeInvertsEncode(events[1..], gaps[1..], trailing);
    }
  }

  // ------------------------------------------------------- any lines at all

  /** The event name in force after these lines. */
  function NameAfter(lines: seq<Line>, name: string): string {
    if lines == [] then name
    else
      match lines[0]
      case Blank => NameAfter(lines[1..], "")
      case Named(name') => NameAfter(lines[1..], name')
      case _ => NameAfter(lines[1..], name)
  }

  lemma {:induction false} YieldsAppend(a: seq<Line>, b: seq<Line>, name: string)
    ensures Yields(a + b, name) == Yields(a, name) + Yields(b, NameAfter(a, name))
    ensures NameAfter(a + b, name) == NameAfter(b, NameAfter(a, name))
  {
    if a == [] {
      assert a + b == b;
    } else {
      assert (a + b)[1..] == a[1..] + b;
      var name' := match a[0] case Blank => "" case Named(n) => n case _ => name;
      YieldsAppend(a[1..], b, name');
    }
  }

  predicate EventLineOf(raw: string, name: string) {
    StartsWith(Strip(raw), "event:") && name == Strip(Strip(raw)[6..])
  }

  /** Line `k` is the last event line, and no blank line follows it. */
  ghost predicate NamedAt(lines: seq<string>, k: int, name: string) {
    && 0 <= k < |lines| && EventLineOf(lines[k], name)
    && forall j | k < j < |lines| :: Strip(lines[j]) != "" && !StartsWith(Strip(lines[j]), "event:")
  }

  /** A blank line follows every event line. */
  ghost predicate AllEnded(lines: seq<string>) {
    forall k | 0 <= k < |lines| && StartsWith(Strip(lines[k]), "event:") :: EndedAfter(lines, k)
  }

  ghost predicate EndedAfter(lines: seq<string>, k: int) {
    exists j :: k < j < |lines| && j >= 0 && BlankLine(lines[j])
  }

  /** The last event line gives the name, unless a blank line has ended it. */
  ghost predicate InForce(lines: seq<string>, name: string) {
    (exists k :: NamedAt(lines, k, name)) || (name == "" && AllEnded(lines))
  }

  lemma BlankEnds(lines: seq<string>, raw: string)
    requires BlankLine(raw)
    ensures InForce(lines + [raw], "")
  {
    var more, n := lines + [raw], |lines|;
    assert BlankLine(more[n]);
    forall k | 0 <= k < |more| && StartsWith(Strip(more[k]), "event:")
      ensures EndedAfter(more, k)
    {
      assert k < n;
    }
  }

  lemma EventNames(lines: seq<string>, raw: string, name: string)
    requires EventLineOf(raw, name)
    ensures InForce(lines + [raw], name)
  {
    assert NamedAt(lines + [raw], |lines|, name);
  }

  lemma OthersKeepName(lines: seq<string>, raw: string, name: string)
    requires InForce(lines, name) && !BlankLine(raw) && !StartsWith(Strip(raw), "event:")
    ensures InForce(lines + [raw], name)
  {
    var more := lines + [raw];
    assert more[|lines|] == raw && forall j | 0 <= j < |lines| :: more[j] == lines[j];
    if k :| NamedAt(lines, k, name) {
      assert NamedAt(more, k, name);
    } else {
      forall k | 0 <= k < |more| && StartsWith(Strip(more[k]), "event:")
        ensures EndedAfter(more, k)
      {
        assert EndedAfter(lines, k);
        var j :| k < j < |lines| && j >= 0 && BlankLine(lines[j]);
        assert BlankLine(more[j]);
      }
    }
  }

  lemma {:induction false} NameInForce(lines: seq<string>)
    ensures InForce(lines, NameAfter(Classified(lines), ""))
  {
    if lines != [] {
      var front, raw := lines[..|lines| - 1], lines[|lines| - 1];
      NameInForce(front);
      FrontLast(lines, front, raw);
      ClassifiedAppend(front, [raw]);
      YieldsAppend(Classified(front), Classified([raw]), "");
      assert Classified([raw]) == [Classify(raw)];
      if BlankLine(raw) {
        BlankEnds(front, raw);
      } else if StartsWith(Strip(raw), "event:") {
        EventNames(front, raw, Strip(Strip(raw)[6..]));
      } else {
        OthersKeepName(front, raw, NameAfter(Classified(front), ""));
      }
    }
  }

  lemma DataIsPayload(raw: string)
    requires StartsWith(Strip(raw), "data:")
    ensures Classify(raw) == Payload(Strip(Strip(raw)[5..]))
  {
    assert Strip(raw)[..5][0] == 'd' && "event:"[0] == 'e';
  }

  /**
   * Any lines at all: each data line yields an event of its own, under the name
   * in force, and no other line yields anything.
   */
  lemma DecodeOutright(lines: seq<string>, raw: string) returns (name: string)
    ensures InForce(lines, name)
    ensures StartsWith(Strip(raw), "data:") ==>
              Decode(lines + [raw]) == Decode(lines) + [Event(name, Strip(Strip(raw)[5..]))]
    ensures !StartsWith(Strip(raw), "data:") ==> Decode(lines + [raw]) == Decode(lines)
  {
    name := NameAfter(Classified(lines), "");
    NameInForce(lines);
    ClassifiedAppend(lines, [raw]);
    assert Classified([raw]) == [Classify(raw)];
    YieldsAppend(Classified(lines), [Classify(raw)], "");
    if StartsWith(Strip(raw), "data:") {
      DataIsPayload(raw);
    }
  }

  // -------------------------------------------------------------- consuming

  /** A decoded payload, as far as the consumer looks into it. */
  datatype Data =
    | Object(delta: DeltaField, approvals: seq<string>, runId: Option<string>, detail: string)
    | NotAnObject

  datatype DeltaField = Absent | Words(s: string) | Unusable

  /** Payloads that are not JSON are taken as the text itself. */
  function ToData(payload: string, parse: string -> Option<Data>): Data {
    match parse(payload)
    case Some(data) => data
    case None => Object(Words(payload), [], None, "Streaming error")
  }

  datatype Shown =
    | Answered(buffer: string)
    | Paused(buffer: string, approvals: seq<string>, runId: Option<string>)
    | Errored(detail: string)
    | Failed

  /** Events that end the loop: the three terminal ones, and any that raises. */
  predicate Ends(name: string, data: Data) {
    name in {"run_paused", "message_end", "error"} || Raises(name, data)
  }

  predicate Raises(name: string, data: Data) {
    || (name in {"content_delta", "run_paused", "error"} && data.NotAnObject?)
    || (name == "content_delta" && data.Object? && data.delta.Unusable?)
  }

  function DeltaOf(name: string, data: Data): string {
    if name == "content_delta" && data.Object? && data.delta.Words? then data.delta.s else ""
  }

  function Deltas(events: seq<(string, Data)>): seq<string> {
    seq(|events|, i requires 0 <= i < |events| => DeltaOf(events[i].0, events[i].1))
  }

  /** The position of the first event that ends the loop, or the length. */
  function StopAt(events: seq<(string, Data)>): (n: nat)
    ensures n <= |events|
    ensures forall i | 0 <= i < n :: !Ends(events[i].0, events[i].1)
    ensures n < |events| ==> Ends(events[n].0, events[n].1)
  {
    if events == [] || Ends(events[0].0, events[0].1) then 0 else 1 + StopAt(events[1..])
  }

  lemma StopAtIs(events: seq<(string, Data)>, n: nat)
    requires n < |events| && Ends(events[n].0, events[n].1)
    requires forall i | 0 <= i < n :: !Ends(events[i].0, events[i].1)
    ensures StopAt(events) == n
  {}

  lemma DeltasAppend(events: seq<(string, Data)>, k: nat)
    requires k < |events|
    ensures Concat(Deltas(events[..k + 1])) == Concat(Deltas(events[..k])) + DeltaOf(events[k].0, events[k].1)
  {
    var d := DeltaOf(events[k].0, events[k].1);
    assert Deltas(events[..k + 1]) == Deltas(events[..k]) + [d];
    ConcatAppend(Deltas(events[..k]), [d]);
    assert Concat([d]) == d;
  }

  /** What the first event that ends the loop makes of the text collected before it. */
  function Ending(e: (string, Data), buffer: string): Shown
    requires Ends(e.0, e.1)
  {
    if Raises(e.0, e.1) then Failed
    else if e.0 == "message_end" then Answered(buffer)
    else if e.0 == "run_paused" then Paused(buffer, e.1.approvals, e.1.runId)
    else Errored(e.1.detail)
  }

  /** What ends up on the screen: the text before the first event that ended the stream, and that event. */
  function Display(events: seq<(string, Data)>): Shown {
    var stop := StopAt(events);
    var buffer := Concat(Deltas(events[..stop]));
    if stop == |events| then Answered(buffer) else Ending(events[stop], buffer)
  }

  /** The event loop. */
  method Consume(events: seq<(string, Data)>) returns (shown: Shown)
    ensures shown == Display(events)
  {
    var buffer := "";
    for k := 0 to |events|
      invariant forall i | 0 <= i < k :: !Ends(events[i].0, events[i].1)
      invariant buffer == Concat(Deltas(events[..k]))
    {
      var (eventName, data) := events[k];
      if Ends(eventName, data) { StopAtIs(events, k); }
      DeltasAppend(events, k);
      if eventName == "content_delta" {
        if data.NotAnObject? || data.delta.Unusable? {
          return Failed;
        }
        buffer := buffer + (if data.delta.Words? then data.delta.s else "");
      } else if eventName == "run_paused" {
        if data.NotAnObject? {
          return Failed;
        }
        return Paused(buffer, data.approvals, data.runId);
      } else if eventName == "message_end" {
        return Answered(buffer);
      } else if eventName == "error" {
        if data.NotAnObject? {
          return Failed;
        }
        return Errored(data.detail);
      }
    }
    assert events[..|events|] == events;
    shown := Answered(buffer);
  }

  function Parsed(events: seq<Event>, parse: string -> Option<Data>): seq<(string, Data)> {
    seq(|events|, i requires 0 <= i < |events| => (events[i].name, ToData(events[i].payload, parse)))
  }

  method HandleSendMessage(lines: seq<string>, parse: string -> Option<Data>) returns (shown: Shown)
    ensures shown == Display(Parsed(Decode(lines), parse))
  {
    var yielded := StreamMessage(lines);
    shown := Consume(Parsed(yielded, parse));
  }

  /** The payloads as the consumer sees them: text that is not JSON counts as a delta. */
  ghost predicate SeenAs(events: seq<Event>, parse: string -> Option<Data>, seen: seq<(string, Data)>) {
    && |seen| == |events|
    && forall i | 0 <= i < |events| ::
         && seen[i].0 == events[i].name
         && seen[i].1 == match parse(events[i].payload)
                         case Some(data) => data
                         case None => Object(Words(events[i].payload), [], None, "Streaming error")
  }

  /** Event `n` is the first one that ends the loop: a final one, or a delta that cannot be added. */
  ghost predicate EndsAt(seen: seq<(string, Data)>, n: nat) {
    && n <= |seen|
    && (forall i | 0 <= i < n ::
          && seen[i].0 !in {"run_paused", "message_end", "error"}
          && (seen[i].0 == "content_delta" ==> seen[i].1.Object? && !seen[i].1.delta.Unusable?))
    && (n < |seen| && seen[n].0 !in {"run_paused", "message_end", "error"} ==>
          seen[n].0 == "content_delta" && (seen[n].1.NotAnObject? || seen[n].1.delta.Unusable?))
  }

  /** The text each of the first `n` events adds. */
  ghost predicate Adds(seen: seq<(string, Data)>, n: nat, texts: seq<string>) {
    && n <= |seen| && |texts| == n
    && forall i | 0 <= i < n ::
         texts[i] == if seen[i].0 == "content_delta" && seen[i].1.Object? && seen[i].1.delta.Words?
                     then seen[i].1.delta.s else ""
  }

  /** What the loop shows, from the deltas before its end and the event that ends it. */
  lemma ShownOutright(seen: seq<(string, Data)>, n: nat, texts: seq<string>)
    requires EndsAt(seen, n) && Adds(seen, n, texts)
    ensures n == |seen| || seen[n].0 == "message_end" ==> Display(seen) == Answered(Concat(texts))
    ensures n < |seen| && seen[n].0 == "run_paused" && seen[n].1.Object? ==>
              Display(seen) == Paused(Concat(texts), seen[n].1.approvals, seen[n].1.runId)
    ensures n < |seen| && seen[n].0 == "error" && seen[n].1.Object? ==> Display(seen) == Errored(seen[n].1.detail)
    ensures n < |seen| && seen[n].0 != "message_end" && (seen[n].0 == "content_delta" || seen[n].1.NotAnObject?) ==>
              Display(seen) == Failed
  {
    if n < |seen| { StopAtIs(seen, n); }
    assert StopAt(seen) == n;
    assert Deltas(seen[..n]) == texts;
  }

  /**
   * From the server's events to the screen: noise on the wire makes no
   * difference, so what is shown is what `ShownOutright` says of the events
   * that were sent.
   */
  lemma AnswerIsWhatWasSent(events: seq<Event>, gaps: seq<Gap>, trailing: seq<string>,
                            parse: string -> Option<Data>, seen: seq<(string, Data)>)
    requires |gaps| == |events| && forall i | 0 <= i < |events| :: Plain(events[i]) && Harmless(gaps[i])
    requires forall l | l in trailing :: Ignored(l) || BlankLine(l)
    requires SeenAs(events, parse, seen)
    ensures Display(Parsed(Decode(Encode(events, gaps) + trailing), parse)) == Display(seen)
  {
    DecodeInvertsEncode(events, gaps, trailing);
    assert Parsed(events, parse) == seen;
  }
}
