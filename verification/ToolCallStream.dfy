/**
 * Reassembling a streamed answer (`_run_streaming` in
 * `scripts/debug_vllm_toolcalls.py`): text, reasoning and tool calls arrive in
 * pieces, the pieces of different calls interleaved, and are put together per
 * call index.
 */
module ToolCallStream {
  import opened Prelude
  import opened Sorting

  datatype FunctionDelta = FunctionDelta(name: Option<string>, arguments: Option<string>)

  /** One piece of one tool call. */
  datatype Fragment = Fragment(index: int, id: Option<string>, func: Option<FunctionDelta>)

  datatype Delta = Delta(
    content: Option<string>,
    reasoningContent: Option<string>,
    reasoning: Option<string>,
    toolCalls: seq<Fragment>)

  datatype Choice = Choice(delta: Delta, finishReason: Option<string>)

  datatype Usage = Usage(promptTokens: int, completionTokens: int)

  datatype Chunk = Chunk(choices: seq<Choice>, usage: Option<Usage>)

  datatype Slot = Slot(id: Option<string>, name: string, arguments: string)

  datatype Answer = Answer(
    finishReason: Option<string>,
    usage: Option<Usage>,
    text: string,
    reasoning: string,
    toolCalls: seq<Slot>)

  // -------------------------------------------------------- specification

  /** A missing string counts as an empty one. */
  function Or(s: Option<string>): string {
    if s.Some? then s.value else ""
  }

  function Name(f: Fragment): string {
    if f.func.Some? then Or(f.func.value.name) else ""
  }

  function Arguments(f: Fragment): string {
    if f.func.Some? then Or(f.func.value.arguments) else ""
  }

  function Names(fs: seq<Fragment>): seq<string> {
    if fs == [] then [] else [Name(fs[0])] + Names(fs[1..])
  }

  function ArgumentsOf(fs: seq<Fragment>): seq<string> {
    if fs == [] then [] else [Arguments(fs[0])] + ArgumentsOf(fs[1..])
  }

  /** The last id that is not empty. */
  function LastId(fs: seq<Fragment>): Option<string> {
    if fs == [] then None
    else
      var last := fs[|fs| - 1];
      if Or(last.id) != "" then last.id else LastId(fs[..|fs| - 1])
  }

  /** The pieces of one call, in order of arrival. */
  function OfIndex(fs: seq<Fragment>, i: int): seq<Fragment> {
    Filter(fs, (f: Fragment) => f.index == i)
  }

  /** The call the pieces spell. */
  function Spelled(fs: seq<Fragment>): Slot {
    Slot(LastId(fs), Concat(Names(fs)), Concat(ArgumentsOf(fs)))
  }

  function Extend(slot: Slot, f: Fragment): Slot {
    Slot(if Or(f.id) != "" then f.id else slot.id, slot.name + Name(f), slot.arguments + Arguments(f))
  }

  /** What has been gathered under an index, piece by piece. */
  function Gathered(fs: seq<Fragment>, i: int): Slot {
    if fs == [] then Slot(None, "", "")
    else
      var front, last := fs[..|fs| - 1], fs[|fs| - 1];
      if last.index == i then Extend(Gathered(front, i), last) else Gathered(front, i)
  }

  /** Call indices in order of first arrival, as a dictionary keeps its keys. */
  function IndexOrder(fs: seq<Fragment>): (r: seq<int>)
    ensures Distinct(r)
  {
    if fs == [] then []
    else
      var before := IndexOrder(fs[..|fs| - 1]);
      if fs[|fs| - 1].index in before then before else before + [fs[|fs| - 1].index]
  }

  lemma {:induction false} IndexOrderHolds(fs: seq<Fragment>, i: int)
    ensures i in IndexOrder(fs) <==> exists f :: f in fs && f.index == i
  {
    if fs != [] {
      var front, last := fs[..|fs| - 1], fs[|fs| - 1];
      assert fs == front + [last];
      IndexOrderHolds(front, i);
      assert last in fs;
    }
  }

  predicate AtMost(a: int, b: int) { a <= b }

  function GatheredAt(fs: seq<Fragment>, ks: seq<int>): (r: seq<Slot>)
    ensures |r| == |ks| && forall j | 0 <= j < |ks| :: r[j] == Gathered(fs, ks[j])
  {
    seq(|ks|, j requires 0 <= j < |ks| => Gathered(fs, ks[j]))
  }

  function ToolCalls(fs: seq<Fragment>): seq<Slot> {
    GatheredAt(fs, StableSort(IndexOrder(fs), AtMost))
  }

  /** What a chunk adds; chunks without a choice add nothing. */
  function ChunkText(c: Chunk): string {
    if c.choices == [] then "" else Or(c.choices[0].delta.content)
  }

  function ChunkReasoning(c: Chunk): string {
    if c.choices == [] then ""
    else
      var d := c.choices[0].delta;
      if Or(d.reasoningContent) != "" then d.reasoningContent.value else Or(d.reasoning)
  }

  function ChunkFragments(c: Chunk): seq<Fragment> {
    if c.choices == [] then [] else c.choices[0].delta.toolCalls
  }

  function Texts(cs: seq<Chunk>): seq<string> {
    seq(|cs|, i requires 0 <= i < |cs| => ChunkText(cs[i]))
  }

  function Reasonings(cs: seq<Chunk>): seq<string> {
    seq(|cs|, i requires 0 <= i < |cs| => ChunkReasoning(cs[i]))
  }

  function Fragments(cs: seq<Chunk>): seq<Fragment> {
    Concat(seq(|cs|, i requires 0 <= i < |cs| => ChunkFragments(cs[i])))
  }

  /** The last finish reason that is not empty, and the last usage report. */
  function LastFinish(cs: seq<Chunk>): Option<string> {
    if cs == [] then None
    else
      var last := cs[|cs| - 1];
      if last.choices != [] && Or(last.choices[0].finishReason) != "" then last.choices[0].finishReason
      else LastFinish(cs[..|cs| - 1])
  }

  function LastUsage(cs: seq<Chunk>): Option<Usage> {
    if cs == [] then None
    else if cs[|cs| - 1].usage.Some? then cs[|cs| - 1].usage
    else LastUsage(cs[..|cs| - 1])
  }

  // -------------------------------------------------------------- the code

  /** The accumulator agrees with the pieces seen so far. */
  ghost predicate Accumulated(acc: map<int, Slot>, order: seq<int>, fs: seq<Fragment>) {
    && order == IndexOrder(fs)
    && (forall i :: i in acc <==> i in order)
    && (forall i | i in acc :: acc[i] == Gathered(fs, i))
  }

  lemma {:induction false} NothingGathered(fs: seq<Fragment>, i: int)
    requires i !in IndexOrder(fs)
    ensures Gathered(fs, i) == Slot(None, "", "")
  {
    if fs != [] {
      NothingGathered(fs[..|fs| - 1], i);
    }
  }

  lemma GatheredStep(fs: seq<Fragment>, f: Fragment, i: int)
    ensures Gathered(fs + [f], i) == (if f.index == i then Extend(Gathered(fs, i), f) else Gathered(fs, i))
  {
    assert (fs + [f])[..|fs|] == fs;
  }

  lemma AccumulateStep(acc: map<int, Slot>, order: seq<int>, fs: seq<Fragment>, f: Fragment)
    requires Accumulated(acc, order, fs)
    ensures var slot := if f.index in acc then acc[f.index] else Slot(None, "", "");
            var order' := if f.index in acc then order else order + [f.index];
            Accumulated(acc[f.index := Extend(slot, f)], order', fs + [f])
  {
    var fs' := fs + [f];
    IndexOrderStep(fs, f);
    if f.index !in acc {
      NothingGathered(fs, f.index);
    }
    forall i
      ensures Gathered(fs', i) == (if f.index == i then Extend(Gathered(fs, i), f) else Gathered(fs, i))
    {
      GatheredStep(fs, f, i);
    }
  }

  lemma IndexOrderStep(fs: seq<Fragment>, f: Fragment)
    ensures IndexOrder(fs + [f])
         == if f.index in IndexOrder(fs) then IndexOrder(fs) else IndexOrder(fs) + [f.index]
  {
    assert (fs + [f])[..|fs|] == fs;
  }

  method AddFragment(acc: map<int, Slot>, order: seq<int>, tc: Fragment, ghost fs: seq<Fragment>)
    returns (acc': map<int, Slot>, order': seq<int>)
    requires Accumulated(acc, order, fs)
    ensures Accumulated(acc', order', fs + [tc])
  {
    var slot := Slot(None, "", "");
    order' := order;
    if tc.index in acc {
      slot := acc[tc.index];
    } else {
      order' := order + [tc.index];
    }
    ghost var before := slot;
    if Or(tc.id) != "" {
      slot := slot.(id := tc.id);
    }
    if tc.func.Some? {
      if Or(tc.func.value.name) != "" {
        slot := slot.(name := slot.name + tc.func.value.name.value);
      }
      if Or(tc.func.value.arguments) != "" {
        slot := slot.(arguments := slot.arguments + tc.func.value.arguments.value);
      }
    }
    assert slot == Extend(before, tc);
    acc' := acc[tc.index := slot];
    AccumulateStep(acc, order, fs, tc);
  }

  lemma ChunkAppend(cs: seq<Chunk>, c: Chunk)
    ensures Concat(Texts(cs + [c])) == Concat(Texts(cs)) + ChunkText(c)
    ensures Concat(Reasonings(cs + [c])) == Concat(Reasonings(cs)) + ChunkReasoning(c)
    ensures Fragments(cs + [c]) == Fragments(cs) + ChunkFragments(c)
  {
    var pieces := seq(|cs|, i requires 0 <= i < |cs| => ChunkFragments(cs[i]));
    assert Texts(cs + [c]) == Texts(cs) + [ChunkText(c)];
    assert Reasonings(cs + [c]) == Reasonings(cs) + [ChunkReasoning(c)];
    assert seq(|cs + [c]|, i requires 0 <= i < |cs + [c]| => ChunkFragments((cs + [c])[i]))
        == pieces + [ChunkFragments(c)];
    ConcatAppend(Texts(cs), [ChunkText(c)]);
    ConcatAppend(Reasonings(cs), [ChunkReasoning(c)]);
    ConcatAppend(pieces, [ChunkFragments(c)]);
    assert Concat([ChunkText(c)]) == ChunkText(c) && Concat([ChunkReasoning(c)]) == ChunkReasoning(c);
    assert Concat([ChunkFragments(c)]) == ChunkFragments(c);
  }

  method AddFragments(acc: map<int, Slot>, order: seq<int>, tcs: seq<Fragment>, ghost fs: seq<Fragment>)
    returns (acc': map<int, Slot>, order': seq<int>)
    requires Accumulated(acc, order, fs)
    ensures Accumulated(acc', order', fs + tcs)
  {
    acc', order' := acc, order;
    assert fs + tcs[..0] == fs;
    for j := 0 to |tcs|
      invariant Accumulated(acc', order', fs + tcs[..j])
    {
      acc', order' := AddFragment(acc', order', tcs[j], fs + tcs[..j]);
      assert fs + tcs[..j] + [tcs[j]] == fs + tcs[..j + 1];
    }
    assert tcs[..|tcs|] == tcs;
  }

  /** `[tool_calls_acc[i] for i in sorted(tool_calls_acc)]` */
  method Collect(acc: map<int, Slot>, sorted: seq<int>, ghost fs: seq<Fragment>) returns (calls: seq<Slot>)
    requires forall k | k in sorted :: k in acc && acc[k] == Gathered(fs, k)
    ensures calls == GatheredAt(fs, sorted)
  {
    calls := [];
    for i := 0 to |sorted|
      invariant calls == GatheredAt(fs, sorted[..i])
    {
      assert sorted[i] in sorted;
      assert sorted[..i + 1] == sorted[..i] + [sorted[i]];
      GatheredAtAppend(fs, sorted[..i], sorted[i]);
      calls := calls + [acc[sorted[i]]];
    }
    assert sorted[..|sorted|] == sorted;
  }

  lemma GatheredAtAppend(fs: seq<Fragment>, ks: seq<int>, k: int)
    ensures GatheredAt(fs, ks + [k]) == GatheredAt(fs, ks) + [Gathered(fs, k)]
  {}

  lemma SortedFromOrder(order: seq<int>)
    ensures forall k :: k in StableSort(order, AtMost) <==> k in order
  {
    forall k
      ensures k in StableSort(order, AtMost) <==> k in order
    {
      assert k in multiset(StableSort(order, AtMost)) <==> k in multiset(order);
    }
  }

  lemma ChunkStep(stream: seq<Chunk>, k: nat)
    requires k < |stream|
    ensures var before, after, c := stream[..k], stream[..k + 1], stream[k];
            && Concat(Texts(after)) == Concat(Texts(before)) + ChunkText(c)
            && Concat(Reasonings(after)) == Concat(Reasonings(before)) + ChunkReasoning(c)
            && Fragments(after) == Fragments(before) + ChunkFragments(c)
            && LastFinish(after) == (if c.choices != [] && Or(c.choices[0].finishReason) != ""
                                     then c.choices[0].finishReason else LastFinish(before))
            && LastUsage(after) == (if c.usage.Some? then c.usage else LastUsage(before))
  {
    assert stream[..k + 1] == stream[..k] + [stream[k]] && stream[..k + 1][..k] == stream[..k];
    ChunkAppend(stream[..k], stream[k]);
  }

  method RunStreaming(stream: seq<Chunk>) returns (answer: Answer)
    ensures answer.text == Concat(Texts(stream))
    ensures answer.reasoning == Concat(Reasonings(stream))
    ensures answer.toolCalls == ToolCalls(Fragments(stream))
    ensures answer.finishReason == LastFinish(stream) && answer.usage == LastUsage(stream)
  {
    var text, reasoning := "", "";
    var acc: map<int, Slot>, order: seq<int> := map[], [];
    var finish: Option<string>, usage: Option<Usage> := None, None;
    for k := 0 to |stream|
      invariant text == Concat(Texts(stream[..k])) && reasoning == Concat(Reasonings(stream[..k]))
      invariant Accumulated(acc, order, Fragments(stream[..k]))
      invariant finish == LastFinish(stream[..k]) && usage == LastUsage(stream[..k])
    {
      var chunk := stream[k];
      ChunkStep(stream, k);
      if chunk.choices != [] {
        var ch := chunk.choices[0];
        text := text + Or(ch.delta.content);
        if Or(ch.delta.reasoningContent) != "" {
          reasoning := reasoning + ch.delta.reasoningContent.value;
        } else {
          reasoning := reasoning + Or(ch.delta.reasoning);
        }
        acc, order := AddFragments(acc, order, ch.delta.toolCalls, Fragments(stream[..k]));
        if Or(ch.finishReason) != "" {
          finish := ch.finishReason;
        }
      } else {
        assert Fragments(stream[..k + 1]) == Fragments(stream[..k]);
      }
      if chunk.usage.Some? {
        usage := chunk.usage;
      }
    }
    assert stream[..|stream|] == stream;
    SortedFromOrder(order);
    var calls := Collect(acc, StableSort(order, AtMost), Fragments(stream));
    answer := Answer(finish, usage, text, reasoning, calls);
  }

  // ------------------------------------------------------------ reassembly

  lemma {:induction false} NamesAppend(fs: seq<Fragment>, f: Fragment)
    ensures Names(fs + [f]) == Names(fs) + [Name(f)]
    ensures ArgumentsOf(fs + [f]) == ArgumentsOf(fs) + [Arguments(f)]
  {
    if fs == [] {
      assert fs + [f] == [f];
    } else {
      assert (fs + [f])[1..] == fs[1..] + [f];
      NamesAppend(fs[1..], f);
    }
  }

  /** One more piece of a call lengthens what it spells. */
  lemma SpelledAppend(fs: seq<Fragment>, f: Fragment)
    ensures Spelled(fs + [f]) == Slot(
              if Or(f.id) != "" then f.id else LastId(fs),
              Concat(Names(fs)) + Name(f), Concat(ArgumentsOf(fs)) + Arguments(f))
  {
    NamesAppend(fs, f);
    ConcatAppend(Names(fs), [Name(f)]);
    ConcatAppend(ArgumentsOf(fs), [Arguments(f)]);
    assert Concat([Name(f)]) == Name(f) && Concat([Arguments(f)]) == Arguments(f);
    assert (fs + [f])[..|fs|] == fs;
  }

  /** Gathering piece by piece is spelling out the pieces of the index. */
  lemma {:induction false} GatheredIsSpelled(fs: seq<Fragment>, i: int)
    ensures Gathered(fs, i) == Spelled(OfIndex(fs, i))
  {
    if fs != [] {
      var front, last := fs[..|fs| - 1], fs[|fs| - 1];
      assert fs == front + [last];
      FilterConcat(front, [last], (g: Fragment) => g.index == i);
      GatheredIsSpelled(front, i);
      if last.index == i {
        assert OfIndex(fs, i) == OfIndex(front, i) + [last];
        SpelledAppend(OfIndex(front, i), last);
      } else {
        assert OfIndex(fs, i) == OfIndex(front, i);
      }
    }
  }

  /** `fs` is some interleaving of the parts, each part kept in order. */
  ghost predicate Interleaves(fs: seq<Fragment>, parts: map<int, seq<Fragment>>) {
    if fs == [] then forall i | i in parts :: parts[i] == []
    else
      var i := fs[0].index;
      i in parts && parts[i] != [] && parts[i][0] == fs[0] && Interleaves(fs[1..], parts[i := parts[i][1..]])
  }

  /** The name and the arguments each piece carries; a missing one counts as empty. */
  ghost predicate Carried(part: seq<Fragment>, names: seq<string>, arguments: seq<string>) {
    && |names| == |part| && |arguments| == |part|
    && (forall j | 0 <= j < |part| ::
          names[j] == if part[j].func.Some? && part[j].func.value.name.Some? then part[j].func.value.name.value else "")
    && (forall j | 0 <= j < |part| ::
          arguments[j] == if part[j].func.Some? && part[j].func.value.arguments.Some?
                          then part[j].func.value.arguments.value else "")
  }

  /** `id` is the last one that is not empty, or none if all are missing or empty. */
  ghost predicate LastIdIs(part: seq<Fragment>, id: Option<string>) {
    match id
    case None => forall f | f in part :: f.id in {None, Some("")}
    case Some(x) =>
      x != "" && exists j :: 0 <= j < |part| && part[j].id == id && forall k | j < k < |part| :: part[k].id in {None, Some("")}
  }

  /** `part` is some way of cutting a call into pieces that carry its index. */
  ghost predicate Cuts(part: seq<Fragment>, i: int, call: Slot) {
    && part != []
    && (forall f | f in part :: f.index == i)
    && LastIdIs(part, call.id)
    && exists names, arguments :: Carried(part, names, arguments)
                                  && Concat(names) == call.name && Concat(arguments) == call.arguments
  }

  lemma {:induction false} CarriedIs(part: seq<Fragment>, names: seq<string>, arguments: seq<string>)
    requires Carried(part, names, arguments)
    ensures names == Names(part) && arguments == ArgumentsOf(part)
  {
    if part != [] {
      CarriedIs(part[1..], names[1..], arguments[1..]);
      assert names == [names[0]] + names[1..] && arguments == [arguments[0]] + arguments[1..];
    }
  }

  lemma {:induction false} LastIdIsIt(part: seq<Fragment>, id: Option<string>)
    requires LastIdIs(part, id)
    ensures LastId(part) == id
  {
    if part != [] {
      var n := |part| - 1;
      assert part[n] in part;
      if Or(part[n].id) == "" {
        if id.Some? {
          var j :| 0 <= j < |part| && part[j].id == id && forall k | j < k < |part| :: part[k].id in {None, Some("")};
          assert j < n && part[..n][j].id == id;
        }
        assert LastIdIs(part[..n], id);
        LastIdIsIt(part[..n], id);
      }
    }
  }

  /** A cut call is what its pieces spell. */
  lemma CutsSpell(part: seq<Fragment>, i: int, call: Slot)
    requires Cuts(part, i, call)
    ensures Spelled(part) == call
  {
    var names, arguments :| Carried(part, names, arguments)
                            && Concat(names) == call.name && Concat(arguments) == call.arguments;
    CarriedIs(part, names, arguments);
    LastIdIsIt(part, call.id);
  }

  lemma {:induction false} InterleavingProjects(fs: seq<Fragment>, parts: map<int, seq<Fragment>>)
    requires Interleaves(fs, parts)
    requires forall i, f | i in parts && f in parts[i] :: f.index == i
    ensures forall i | i in parts :: OfIndex(fs, i) == parts[i]
    ensures forall f | f in fs :: f.index in parts
  {
    if fs != [] {
      var k := fs[0].index;
      var parts' := parts[k := parts[k][1..]];
      InterleavingProjects(fs[1..], parts');
      assert forall f | f in fs :: f == fs[0] || f in fs[1..];
      forall i | i in parts
        ensures OfIndex(fs, i) == parts[i]
      {
        assert OfIndex(fs[1..], i) == parts'[i];
        assert fs == [fs[0]] + fs[1..];
      }
    }
  }

  ghost predicate Increasing(ks: seq<int>) {
    forall i, j | 0 <= i < j < |ks| :: ks[i] < ks[j]
  }

  lemma SortedOrderIncreases(fs: seq<Fragment>)
    ensures var ks := StableSort(IndexOrder(fs), AtMost);
            Increasing(ks) && forall i :: i in ks <==> i in IndexOrder(fs)
  {
    var order := IndexOrder(fs);
    var ks := StableSort(order, AtMost);
    assert TotalPreorder(AtMost);
    SortSorted(order, AtMost);
    SortedFromOrder(order);
    DistinctStays(order, ks);
    forall i, j | 0 <= i < j < |ks|
      ensures ks[i] < ks[j]
    {
      assert AtMost(ks[i], ks[j]);
    }
  }

  lemma {:induction false} DistinctCount(s: seq<int>, x: int)
    requires Distinct(s)
    ensures multiset(s)[x] <= 1
  {
    if s != [] {
      assert s == [s[0]] + s[1..];
      DistinctCount(s[1..], x);
      assert s[0] !in s[1..];
      assert s[0] !in multiset(s[1..]);
    }
  }

  lemma DistinctStays(s: seq<int>, t: seq<int>)
    requires Distinct(s) && multiset(s) == multiset(t)
    ensures Distinct(t)
  {
    forall i, j | 0 <= i < j < |t|
      ensures t[i] != t[j]
    {
      if t[i] == t[j] {
        assert t == t[..i] + [t[i]] + t[i + 1..j] + [t[j]] + t[j + 1..];
        assert multiset(t)[t[i]] >= 2;
        DistinctCount(s, t[i]);
      }
    }
  }

  /**
   * However calls are cut into pieces and however the pieces interleave, the
   * accumulator gives back exactly the calls, in index order.
   */
  lemma ReassemblyIsExact(fs: seq<Fragment>, parts: map<int, seq<Fragment>>, calls: map<int, Slot>)
    requires parts.Keys == calls.Keys && Interleaves(fs, parts)
    requires forall i | i in parts :: Cuts(parts[i], i, calls[i])
    ensures var ks := StableSort(IndexOrder(fs), AtMost);
            && Increasing(ks) && (forall i :: i in ks <==> i in calls)
            && |ToolCalls(fs)| == |ks|
            && forall j | 0 <= j < |ks| :: ks[j] in calls && ToolCalls(fs)[j] == calls[ks[j]]
  {
    IndicesAreCalls(fs, parts);
    SortedOrderIncreases(fs);
    var ks := StableSort(IndexOrder(fs), AtMost);
    forall j | 0 <= j < |ks|
      ensures ks[j] in calls && Gathered(fs, ks[j]) == calls[ks[j]]
    {
      assert ks[j] in ks;
      InterleavingProjects(fs, parts);
      GatheredIsSpelled(fs, ks[j]);
      CutsSpell(parts[ks[j]], ks[j], calls[ks[j]]);
    }
  }

  lemma IndicesAreCalls(fs: seq<Fragment>, parts: map<int, seq<Fragment>>)
    requires Interleaves(fs, parts)
    requires forall i | i in parts :: parts[i] != [] && forall f | f in parts[i] :: f.index == i
    ensures forall i :: i in IndexOrder(fs) <==> i in parts
  {
    InterleavingProjects(fs, parts);
    forall i
      ensures i in IndexOrder(fs) <==> i in parts
    {
      IndexOrderHolds(fs, i);
      if i in parts {
        assert parts[i][0] in OfIndex(fs, i);
      }
    }
  }

  /** Calls numbered from zero come back as the list they were. */
  lemma ReassemblyOfList(fs: seq<Fragment>, parts: map<int, seq<Fragment>>, calls: seq<Slot>)
    requires forall i :: i in parts <==> 0 <= i < |calls|
    requires Interleaves(fs, parts) && forall i | 0 <= i < |calls| :: Cuts(parts[i], i, calls[i])
    ensures ToolCalls(fs) == calls
  {
    var byIndex := map i | 0 <= i < |calls| :: calls[i];
    assert parts.Keys == byIndex.Keys;
    ReassemblyIsExact(fs, parts, byIndex);
    CountingUp(StableSort(IndexOrder(fs), AtMost), |calls|);
  }

  // ---------------------------------------------------- from the stream itself

  /** The tool-call pieces of each chunk; a chunk without a choice has none. */
  ghost predicate Delivers(stream: seq<Chunk>, pieces: seq<seq<Fragment>>) {
    && |pieces| == |stream|
    && forall k | 0 <= k < |stream| ::
         pieces[k] == if stream[k].choices == [] then [] else stream[k].choices[0].delta.toolCalls
  }

  lemma PiecesDelivered(stream: seq<Chunk>, pieces: seq<seq<Fragment>>)
    requires Delivers(stream, pieces)
    ensures Fragments(stream) == Concat(pieces)
  {
    assert pieces == seq(|stream|, i requires 0 <= i < |stream| => ChunkFragments(stream[i]));
  }

  /** Only one increasing list has these members. */
  lemma {:induction false} IncreasingUnique(a: seq<int>, b: seq<int>)
    requires Increasing(a) && Increasing(b) && forall i :: i in a <==> i in b
    ensures a == b
  {
    assert (a != [] ==> a[0] in a) && (b != [] ==> b[0] in b);
    if a != [] {
      var m, n := |a| - 1, |b| - 1;
      assert a[m] in a && b[n] in b;
      var j :| 0 <= j <= n && b[j] == a[m];
      var k :| 0 <= k <= m && a[k] == b[n];
      assert a[m] == b[n];
      forall i
        ensures i in a[..m] <==> i in b[..n]
      {
        assert i in a <==> i in a[..m] || i == a[m];
        assert i in b <==> i in b[..n] || i == b[n];
      }
      IncreasingUnique(a[..m], b[..n]);
      assert a == a[..m] + [a[m]] && b == b[..n] + [b[n]];
    }
  }

  /**
   * From the chunks of a stream to the calls: if the pieces they deliver, end
   * to end, interleave cuts of some calls, the answer has exactly those calls,
   * in the order of their indices `ks`.
   */
  lemma StreamReassembles(stream: seq<Chunk>, pieces: seq<seq<Fragment>>, parts: map<int, seq<Fragment>>,
                          calls: map<int, Slot>, ks: seq<int>)
    requires Delivers(stream, pieces) && Interleaves(Concat(pieces), parts)
    requires parts.Keys == calls.Keys && forall i | i in parts :: Cuts(parts[i], i, calls[i])
    requires Increasing(ks) && forall i :: i in ks <==> i in calls
    ensures var answer := ToolCalls(Fragments(stream));
            |answer| == |ks| && forall j | 0 <= j < |ks| :: ks[j] in calls && answer[j] == calls[ks[j]]
  {
    PiecesDelivered(stream, pieces);
    ReassemblyIsExact(Concat(pieces), parts, calls);
    IncreasingUnique(ks, StableSort(IndexOrder(Concat(pieces)), AtMost));
  }

  /** The content of each chunk, and its reasoning under the one field name or else the other. */
  ghost predicate Says(stream: seq<Chunk>, texts: seq<string>, reasonings: seq<string>) {
    && |texts| == |stream| && |reasonings| == |stream|
    && (forall k | 0 <= k < |stream| ::
          texts[k] == if stream[k].choices != [] && stream[k].choices[0].delta.content.Some?
                      then stream[k].choices[0].delta.content.value else "")
    && (forall k | 0 <= k < |stream| ::
          reasonings[k] == if stream[k].choices == [] then ""
                           else if stream[k].choices[0].delta.reasoningContent !in {None, Some("")}
                           then stream[k].choices[0].delta.reasoningContent.value
                           else if stream[k].choices[0].delta.reasoning.Some?
                           then stream[k].choices[0].delta.reasoning.value
                           else "")
  }

  lemma StreamSays(stream: seq<Chunk>, texts: seq<string>, reasonings: seq<string>)
    requires Says(stream, texts, reasonings)
    ensures Concat(Texts(stream)) == Concat(texts) && Concat(Reasonings(stream)) == Concat(reasonings)
  {
    assert Texts(stream) == texts;
    assert Reasonings(stream) == reasonings;
  }

  ghost predicate Finishes(c: Chunk, reason: string) {
    c.choices != [] && c.choices[0].finishReason == Some(reason) && reason != ""
  }

  /** Chunk `k` is the last one with a finish reason. */
  ghost predicate FinishesLast(stream: seq<Chunk>, k: int, reason: string) {
    && 0 <= k < |stream| && Finishes(stream[k], reason)
    && forall j, other | k < j < |stream| :: !Finishes(stream[j], other)
  }

  /** The finish reason is that of the last chunk that has one. */
  lemma {:induction false} StreamFinishes(stream: seq<Chunk>)
    ensures LastFinish(stream).None? ==> forall i, reason | 0 <= i < |stream| :: !Finishes(stream[i], reason)
    ensures LastFinish(stream).Some? ==> exists k :: FinishesLast(stream, k, LastFinish(stream).value)
  {
    if stream != [] {
      var n := |stream| - 1;
      var front, last := stream[..n], stream[n];
      StreamFinishes(front);
      assert forall i | 0 <= i < n :: front[i] == stream[i];
      if last.choices != [] && Or(last.choices[0].finishReason) != "" {
        assert FinishesLast(stream, n, LastFinish(stream).value);
      } else if LastFinish(front).Some? {
        var k :| FinishesLast(front, k, LastFinish(front).value);
        assert FinishesLast(stream, k, LastFinish(stream).value);
      }
    }
  }

  ghost predicate ReportsLast(stream: seq<Chunk>, k: int) {
    && 0 <= k < |stream| && stream[k].usage.Some?
    && forall j | k < j < |stream| :: stream[j].usage.None?
  }

  /** The usage is that of the last chunk that reports one. */
  lemma {:induction false} StreamReports(stream: seq<Chunk>)
    ensures LastUsage(stream).None? ==> forall i | 0 <= i < |stream| :: stream[i].usage.None?
    ensures LastUsage(stream).Some? ==> exists k :: ReportsLast(stream, k) && stream[k].usage == LastUsage(stream)
  {
    if stream != [] {
      var n := |stream| - 1;
      var front := stream[..n];
      StreamReports(front);
      assert forall i | 0 <= i < n :: front[i] == stream[i];
      if stream[n].usage.Some? {
        assert ReportsLast(stream, n);
      } else if LastUsage(front).Some? {
        var k :| ReportsLast(front, k) && front[k].usage == LastUsage(front);
        assert ReportsLast(stream, k);
      }
    }
  }

  lemma LastIsGreatest(ks: seq<int>, n: nat) returns (front: seq<int>)
    requires n > 0 && Increasing(ks) && forall i :: i in ks <==> 0 <= i < n
    ensures ks == front + [n - 1] && Increasing(front)
    ensures forall i :: i in front <==> 0 <= i < n - 1
  {
    assert n - 1 in ks;
    var j :| 0 <= j < |ks| && ks[j] == n - 1;
    var last := |ks| - 1;
    assert ks[last] in ks && ks[j] <= ks[last];
    front := ks[..last];
    assert ks == front + [n - 1];
    forall i
      ensures i in front <==> 0 <= i < n - 1
    {
      assert i in ks <==> i in front || i == n - 1;
    }
  }

  lemma {:induction false} CountingUp(ks: seq<int>, n: nat)
    requires Increasing(ks) && forall i :: i in ks <==> 0 <= i < n
    ensures |ks| == n && forall j | 0 <= j < n :: ks[j] == j
    decreases n
  {
    assert ks == [] || ks[0] in ks;
    if n > 0 {
      var front := LastIsGreatest(ks, n);
      CountingUp(front, n - 1);
    }
  }
}
