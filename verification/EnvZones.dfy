/**
 * Marker-delimited zones of `.env.example` (`scripts/generate_env_defaults.py`):
 * the text between two marker lines is replaced by generated text. The script
 * is meant to be run again and again, so a second run must find its own output
 * in order, and text outside the zones must never move.
 */
module EnvZones {

  // ------------------------------------------------------ substring search

  predicate OccursAt(s: string, t: string, i: int) {
    0 <= i && i + |t| <= |s| && s[i..i + |t|] == t
  }

  ghost predicate Contains(s: string, t: string) {
    exists i :: OccursAt(s, t, i)
  }

  function FindFrom(s: string, t: string, start: nat): (r: int)
    requires forall i | 0 <= i < start :: !OccursAt(s, t, i)
    ensures r == -1 ==> !Contains(s, t)
    ensures r != -1 ==> OccursAt(s, t, r) && forall i | 0 <= i < r :: !OccursAt(s, t, i)
    decreases |s| - start
  {
    if start + |t| > |s| then -1
    else if OccursAt(s, t, start) then start
    else FindFrom(s, t, start + 1)
  }

  /** `s.find(t)`: the first occurrence, or -1. */
  function Find(s: string, t: string): (r: int)
    ensures r == -1 <==> !Contains(s, t)
    ensures r != -1 ==> OccursAt(s, t, r) && forall i | 0 <= i < r :: !OccursAt(s, t, i)
  {
    FindFrom(s, t, 0)
  }

  lemma FirstOccurrence(s: string, t: string, i: int)
    requires OccursAt(s, t, i) && forall j | 0 <= j < i :: !OccursAt(s, t, j)
    ensures Find(s, t) == i
  {}

  // ------------------------------------------------------------ the rewriter

  /** A zone: its two markers and the generated text that belongs between them. */
  datatype Zone = Zone(begin: string, end: string, text: string)

  /** What stands between the line break after the begin marker and the end marker. */
  function Body(z: Zone): string {
    if z.text != "" then z.text + "\n\n" else ""
  }

  function RewriteZone(content: string, z: Zone): string {
    var b, e := Find(content, z.begin), Find(content, z.end);
    if b == -1 || e == -1 then content
    else content[..b] + z.begin + "\n" + Body(z) + z.end + content[e + |z.end|..]
  }

  predicate Marked(content: string, z: Zone) {
    Find(content, z.begin) != -1 && Find(content, z.end) != -1
  }

  /** Where the begin marker ends. */
  function Opens(content: string, z: Zone): int { Find(content, z.begin) + |z.begin| }

  /** Where the end marker begins. */
  function Closes(content: string, z: Zone): int { Find(content, z.end) }

  /** The begin marker ends before the end marker begins. */
  predicate Placed(content: string, z: Zone) {
    Marked(content, z) && Opens(content, z) <= Closes(content, z)
  }

  predicate MarkerLine(m: string) { m != "" && '\n' !in m }

  // ------------------------------------------------------- occurrence reasoning

  lemma SliceOfSlice(s: string, n: nat, hi: nat, i: nat, j: nat)
    requires n <= hi <= |s| && i <= j <= hi - n
    ensures s[n..hi][i..j] == s[n + i..n + j]
  {
    var a, b := s[n..hi][i..j], s[n + i..n + j];
    assert |a| == |b| && forall k | 0 <= k < |a| :: a[k] == b[k];
  }

  lemma SamePrefixSlice(s: string, t: string, n: nat, i: nat, j: nat)
    requires n <= |s| && n <= |t| && s[..n] == t[..n] && i <= j <= n
    ensures s[i..j] == t[i..j]
  {
    SliceOfSlice(s, 0, n, i, j);
    SliceOfSlice(t, 0, n, i, j);
    assert s[..n] == s[0..n] && t[..n] == t[0..n];
  }

  lemma SuffixSlice(a: string, rest: string, i: nat, j: nat)
    requires |a| <= i <= j <= |a| + |rest|
    ensures (a + rest)[i..j] == rest[i - |a|..j - |a|]
  {
    var x, y := (a + rest)[i..j], rest[i - |a|..j - |a|];
    assert |x| == |y| && forall k | 0 <= k < |x| :: x[k] == y[k];
  }

  lemma SamePrefix(s: string, t: string, n: nat, m: string, i: int)
    requires n <= |s| && n <= |t| && s[..n] == t[..n] && i + |m| <= n
    ensures OccursAt(s, m, i) <==> OccursAt(t, m, i)
  {
    if 0 <= i {
      SamePrefixSlice(s, t, n, i, i + |m|);
    }
  }

  lemma OccursInSuffix(a: string, rest: string, m: string, i: int)
    requires i >= |a|
    ensures OccursAt(a + rest, m, i) <==> OccursAt(rest, m, i - |a|)
  {
    if i + |m| <= |a| + |rest| {
      SuffixSlice(a, rest, i, i + |m|);
    }
  }

  lemma NoLineBreakInside(s: string, m: string, i: int, p: int)
    requires MarkerLine(m) && OccursAt(s, m, i) && i <= p < i + |m|
    ensures s[p] != '\n'
  {
    assert s[i..i + |m|][p - i] == m[p - i];
  }

  lemma TextInside(s: string, z: Zone, n: nat)
    requires n + 1 + |Body(z)| <= |s| && s[n..n + 1 + |Body(z)|] == "\n" + Body(z)
    ensures |z.text| <= |Body(z)| && s[n + 1..n + 1 + |z.text|] == z.text
  {
    SliceOfSlice(s, n, n + 1 + |Body(z)|, 1, 1 + |z.text|);
    assert ("\n" + Body(z))[1..1 + |z.text|] == z.text;
  }

  lemma OccursInText(s: string, z: Zone, n: nat, m: string, i: int)
    requires n + 1 + |Body(z)| <= |s| && s[n..n + 1 + |Body(z)|] == "\n" + Body(z)
    requires OccursAt(s, m, i) && n < i && i + |m| <= n + 1 + |z.text|
    ensures Contains(z.text, m)
  {
    TextInside(s, z, n);
    SliceOfSlice(s, n + 1, n + 1 + |z.text|, i - n - 1, i - n - 1 + |m|);
    assert OccursAt(z.text, m, i - n - 1);
  }

  /**
   * A marker that occurs in freshly written text beyond position `n`, where the
   * line break stands, occurs after the whole of the generated body.
   */
  lemma NotInFreshBody(s: string, z: Zone, n: nat, m: string, i: int)
    requires n + 1 + |Body(z)| <= |s| && s[n..n + 1 + |Body(z)|] == "\n" + Body(z)
    requires MarkerLine(m) && !Contains(z.text, m)
    requires OccursAt(s, m, i) && i + |m| > n
    ensures i >= n + 1 + |Body(z)|
  {
    var inner := s[n..n + 1 + |Body(z)|];
    assert inner[0] == '\n' == s[n];
    if i <= n {
      NoLineBreakInside(s, m, i, n);
    } else if z.text != "" && i < n + 1 + |Body(z)| {
      var stop := n + 1 + |z.text|;
      assert inner[stop - n] == '\n' == s[stop];
      assert inner[stop - n + 1] == '\n' == s[stop + 1];
      if i + |m| <= stop {
        OccursInText(s, z, n, m, i);
      } else if i <= stop {
        NoLineBreakInside(s, m, i, stop);
      } else {
        NoLineBreakInside(s, m, i, stop + 1);
      }
    }
  }

  // -------------------------------------------------------------- one zone

  /** Framing: only what stands between the two markers is replaced. */
  lemma RewriteFrames(content: string, z: Zone)
    requires Marked(content, z)
    ensures RewriteZone(content, z)
         == content[..Opens(content, z)] + "\n" + Body(z) + content[Closes(content, z)..]
  {
    var b, e := Find(content, z.begin), Find(content, z.end);
    PrefixWith(content, z.begin, b);
    SuffixWith(content, z.end, e);
    calc {
      RewriteZone(content, z);
      content[..b] + z.begin + "\n" + Body(z) + z.end + content[e + |z.end|..];
      { Regroup(content[..b] + z.begin + "\n" + Body(z), z.end, content[e + |z.end|..]); }
      content[..b] + z.begin + "\n" + Body(z) + (z.end + content[e + |z.end|..]);
    }
  }

  /** Position `i` is where `t` first stands in `s`. */
  predicate FirstAt(s: string, t: string, i: nat) {
    && i + |t| <= |s| && s[i..i + |t|] == t
    && forall j | 0 <= j < i :: !OccursAt(s, t, j)
  }

  /**
   * The rewritten text written out: all up to and with the begin marker, a line
   * break, the generated text and an empty line if there is any, and all from
   * the end marker on. Without one of the markers nothing changes.
   */
  lemma RewriteOutright(content: string, z: Zone, b: nat, e: nat)
    ensures !Contains(content, z.begin) || !Contains(content, z.end) ==> RewriteZone(content, z) == content
    ensures FirstAt(content, z.begin, b) && FirstAt(content, z.end, e) ==>
              RewriteZone(content, z) == content[..b + |z.begin|] + "\n"
                                       + (if z.text == "" then "" else z.text + "\n\n") + content[e..]
  {
    if FirstAt(content, z.begin, b) && FirstAt(content, z.end, e) {
      FirstOccurrence(content, z.begin, b);
      FirstOccurrence(content, z.end, e);
      RewriteFrames(content, z);
    }
  }

  lemma PrefixWith(s: string, m: string, i: int)
    requires OccursAt(s, m, i)
    ensures s[..i] + m == s[..i + |m|]
  {}

  lemma SuffixWith(s: string, m: string, i: int)
    requires OccursAt(s, m, i)
    ensures m + s[i + |m|..] == s[i..]
  {}

  lemma Regroup(a: string, b: string, c: string)
    ensures a + b + c == a + (b + c)
  {}

  /** Everything through the begin marker, and the freshly written body after it. */
  function NewHead(content: string, z: Zone): string
    requires Marked(content, z)
  {
    content[..Opens(content, z)] + "\n" + Body(z)
  }

  /** `out` is `content` with the zone's interior replaced. */
  ghost predicate Rewritten(content: string, out: string, z: Zone) {
    && Marked(content, z)
    && out == NewHead(content, z) + content[Closes(content, z)..]
  }

  lemma HeadParts(content: string, out: string, z: Zone)
    requires Rewritten(content, out, z)
    ensures var n := Opens(content, z);
            var p := n + 1 + |Body(z)|;
            && |NewHead(content, z)| == p <= |out| && |out| - |content| == p - Closes(content, z)
            && out[..n] == content[..n] && out[n..p] == "\n" + Body(z)
  {
    var n := Opens(content, z);
    assert out == content[..n] + ("\n" + Body(z)) + content[Closes(content, z)..];
  }

  /** Occurrences in the text after a zone move with that text. */
  lemma FollowingOccurrence(content: string, out: string, z: Zone, m: string, i: int)
    requires Rewritten(content, out, z) && i >= Closes(content, z)
    ensures OccursAt(content, m, i) <==> OccursAt(out, m, i + |out| - |content|)
  {
    var e, head := Closes(content, z), NewHead(content, z);
    var k, tail := i + |out| - |content|, content[e..];
    assert out == head + tail && |tail| == |content| - e;
    assert k - |head| == i - e;
    OccursInTail(content, e, m, i);
    OccursInSuffix(head, tail, m, k);
  }

  lemma OccursInTail(s: string, e: nat, m: string, i: int)
    requires e <= |s| && i >= e
    ensures OccursAt(s, m, i) <==> OccursAt(s[e..], m, i - e)
  {
    assert s == s[..e] + s[e..];
    OccursInSuffix(s[..e], s[e..], m, i);
  }

  /** The pieces of the rewritten text, by position. */
  lemma RewriteParts(content: string, z: Zone)
    requires Marked(content, z)
    ensures var out, n := RewriteZone(content, z), Opens(content, z);
            var p := n + 1 + |Body(z)|;
            && Rewritten(content, out, z)
            && p <= |out| && |out| - |content| == p - Closes(content, z)
            && out[..n] == content[..n] && out[n..p] == "\n" + Body(z)
            && OccursAt(out, z.end, p)
  {
    RewriteFrames(content, z);
    var out := RewriteZone(content, z);
    HeadParts(content, out, z);
    FollowingOccurrence(content, out, z, z.end, Closes(content, z));
  }

  /** The begin marker stays where it was. */
  lemma BeginStays(content: string, z: Zone)
    requires Marked(content, z)
    ensures Find(RewriteZone(content, z), z.begin) == Find(content, z.begin)
  {
    RewriteParts(content, z);
    var out, b := RewriteZone(content, z), Find(content, z.begin);
    forall i | 0 <= i <= b
      ensures OccursAt(out, z.begin, i) <==> i == b
    {
      SamePrefix(content, out, Opens(content, z), z.begin, i);
    }
    FirstOccurrence(out, z.begin, b);
  }

  /** The markers are in order and the generated text cannot be mistaken for the end marker. */
  ghost predicate Stable(content: string, z: Zone) {
    Opens(content, z) < Closes(content, z) + |z.end| && !Contains(z.text, z.end)
  }

  lemma EndFollowsBody(content: string, z: Zone)
    requires Marked(content, z) && MarkerLine(z.end) && Stable(content, z)
    ensures Closes(RewriteZone(content, z), z) == Opens(content, z) + 1 + |Body(z)|
  {
    RewriteParts(content, z);
    var out, n := RewriteZone(content, z), Opens(content, z);
    forall i | 0 <= i < n + 1 + |Body(z)|
      ensures !OccursAt(out, z.end, i)
    {
      if i + |z.end| <= n {
        SamePrefix(content, out, n, z.end, i);
      } else if OccursAt(out, z.end, i) {
        NotInFreshBody(out, z, n, z.end, i);
      }
    }
    FirstOccurrence(out, z.end, n + 1 + |Body(z)|);
  }

  /** The zone already holds exactly the generated text. */
  predicate UpToDate(content: string, z: Zone) {
    Placed(content, z) && content[Opens(content, z)..Closes(content, z)] == "\n" + Body(z)
  }

  lemma ThreeParts(s: string, n: nat, e: nat)
    requires n <= e <= |s|
    ensures s == s[..n] + s[n..e] + s[e..]
  {}

  lemma UpToDateIsFixed(content: string, z: Zone)
    requires UpToDate(content, z)
    ensures RewriteZone(content, z) == content
  {
    var n, e := Opens(content, z), Closes(content, z);
    calc {
      RewriteZone(content, z);
      { RewriteFrames(content, z); }
      content[..n] + "\n" + Body(z) + content[e..];
      { assert content[..n] + "\n" + Body(z) == content[..n] + ("\n" + Body(z)); }
      content[..n] + content[n..e] + content[e..];
      { ThreeParts(content, n, e); }
      content;
    }
  }

  lemma RewriteBringsUpToDate(content: string, z: Zone)
    requires Marked(content, z) && MarkerLine(z.end) && Stable(content, z)
    ensures UpToDate(RewriteZone(content, z), z)
    ensures Opens(RewriteZone(content, z), z) == Opens(content, z)
  {
    RewriteParts(content, z);
    BeginStays(content, z);
    EndFollowsBody(content, z);
  }

  /** An end marker within what the begin marker closes is found again, in the same place. */
  lemma EarlyEndFoundAgain(content: string, z: Zone)
    requires Marked(content, z) && Closes(content, z) + |z.end| <= Opens(content, z)
    ensures OccursAt(RewriteZone(content, z), z.end, Closes(content, z))
  {
    RewriteParts(content, z);
    SamePrefix(content, RewriteZone(content, z), Opens(content, z), z.end, Closes(content, z));
  }

  /** An end marker in the generated text is found before the real one. */
  lemma EndInTextFound(content: string, z: Zone, k: int)
    requires Marked(content, z) && OccursAt(z.text, z.end, k)
    ensures OccursAt(RewriteZone(content, z), z.end, Opens(content, z) + 1 + k)
  {
    var out, n := RewriteZone(content, z), Opens(content, z);
    assert out[n + 1..n + 1 + |z.text|] == z.text by {
      RewriteParts(content, z);
      TextInside(out, z, n);
    }
    OccursWithin(out, n + 1, z.text, z.end, k);
  }

  lemma OccursWithin(s: string, start: nat, text: string, m: string, k: int)
    requires start + |text| <= |s| && s[start..start + |text|] == text && OccursAt(text, m, k)
    ensures OccursAt(s, m, start + k)
  {
    SliceOfSlice(s, start, start + |text|, k, k + |m|);
  }

  lemma MisplacedEndStays(content: string, z: Zone)
    requires Marked(content, z) && MarkerLine(z.end) && !Stable(content, z)
    ensures Closes(RewriteZone(content, z), z) < Opens(content, z) + 1 + |Body(z)|
    ensures Marked(RewriteZone(content, z), z)
  {
    BeginStays(content, z);
    if Closes(content, z) + |z.end| <= Opens(content, z) {
      EarlyEndFoundAgain(content, z);
    } else {
      var k :| OccursAt(z.text, z.end, k);
      EndInTextFound(content, z, k);
    }
  }

  /**
   * Rewriting twice equals rewriting once exactly when a marker is missing, or
   * the first end marker does not lie within what the begin marker closes and
   * the generated text does not contain the end marker.
   */
  lemma IdempotentExactly(content: string, z: Zone)
    requires MarkerLine(z.end)
    ensures RewriteZone(RewriteZone(content, z), z) == RewriteZone(content, z)
            <==> !Marked(content, z) || Stable(content, z)
  {
    if Marked(content, z) {
      var out := RewriteZone(content, z);
      if Stable(content, z) {
        RewriteBringsUpToDate(content, z);
        UpToDateIsFixed(out, z);
      } else {
        MisplacedMarkersGrow(content, z);
      }
    }
  }

  /** Markers in the wrong order: every run makes the file longer. */
  lemma MisplacedMarkersGrow(content: string, z: Zone)
    requires Marked(content, z) && MarkerLine(z.end) && !Stable(content, z)
    ensures |RewriteZone(RewriteZone(content, z), z)| > |RewriteZone(content, z)|
  {
    var out := RewriteZone(content, z);
    MisplacedEndStays(content, z);
    BeginStays(content, z);
    RewriteParts(out, z);
  }

  /** A file in which that happens. */
  lemma ReversedMarkersExist()
    ensures var z := Zone("B", "E", "x");
            Marked("EB", z) && MarkerLine(z.end) && !Stable("EB", z)
  {
    assert "EB"[0..1] == "E" && "EB"[1..2] == "B";
    assert OccursAt("EB", "E", 0) && OccursAt("EB", "B", 1);
    assert "EB"[0..1][0] != 'B';
    assert !OccursAt("EB", "B", 0);
    FirstOccurrence("EB", "E", 0);
    FirstOccurrence("EB", "B", 1);
  }

  // -------------------------------------------------------------- two zones

  function UpdateEnvExample(content: string, tool: Zone, auth: Zone): string {
    RewriteZone(RewriteZone(content, tool), auth)
  }

  /** The whole of `first` lies before `second`. */
  predicate Before(content: string, first: Zone, second: Zone) {
    Closes(content, first) + |first.end| <= Find(content, second.begin)
  }

  /** The markers are lines, and `other`'s generated text cannot be taken for one of them. */
  ghost predicate Clean(z: Zone, other: Zone) {
    && MarkerLine(z.begin) && MarkerLine(z.end)
    && !Contains(other.text, z.begin) && !Contains(other.text, z.end)
  }

  /** A first occurrence that ends before the rewritten zone opens stays put. */
  lemma EarlierMarkerStays(content: string, out: string, z: Zone, m: string)
    requires Rewritten(content, out, z)
    requires Find(content, m) != -1 && Find(content, m) + |m| <= Opens(content, z)
    ensures Find(out, m) == Find(content, m)
  {
    var f := Find(content, m);
    HeadParts(content, out, z);
    forall i | 0 <= i <= f
      ensures OccursAt(out, m, i) <==> i == f
    {
      SamePrefix(content, out, Opens(content, z), m, i);
    }
    FirstOccurrence(out, m, f);
  }

  /** A marker occurring in the new head would occur in the old one. */
  lemma NoNewOccurrence(content: string, out: string, z: Zone, m: string, i: int)
    requires Rewritten(content, out, z) && MarkerLine(m) && !Contains(z.text, m)
    requires OccursAt(out, m, i) && i < |NewHead(content, z)|
    ensures i + |m| <= Opens(content, z) && OccursAt(content, m, i)
  {
    HeadParts(content, out, z);
    if i + |m| <= Opens(content, z) {
      SamePrefix(content, out, Opens(content, z), m, i);
    } else {
      NotInFreshBody(out, z, Opens(content, z), m, i);
    }
  }

  /** Nothing occurs earlier in the new text than the image of the old first occurrence. */
  lemma NoneBeforeShifted(content: string, out: string, z: Zone, m: string, i: int)
    requires Rewritten(content, out, z) && Placed(content, z) && MarkerLine(m) && !Contains(z.text, m)
    requires Find(content, m) >= Closes(content, z)
    requires i < Find(content, m) + |out| - |content|
    ensures !OccursAt(out, m, i)
  {
    if OccursAt(out, m, i) {
      HeadParts(content, out, z);
      if i < |NewHead(content, z)| {
        NoNewOccurrence(content, out, z, m, i);
      } else {
        FollowingOccurrence(content, out, z, m, i - (|out| - |content|));
      }
    }
  }

  /** A first occurrence after the rewritten zone moves with the text that follows the zone. */
  lemma LaterMarkerShifts(content: string, out: string, z: Zone, m: string)
    requires Rewritten(content, out, z) && Placed(content, z) && MarkerLine(m) && !Contains(z.text, m)
    requires Find(content, m) >= Closes(content, z)
    ensures Find(out, m) == Find(content, m) + |out| - |content|
  {
    var f, d := Find(content, m), |out| - |content|;
    FollowingOccurrence(content, out, z, m, f);
    forall i | 0 <= i < f + d
      ensures !OccursAt(out, m, i)
    {
      NoneBeforeShifted(content, out, z, m, i);
    }
    FirstOccurrence(out, m, f + d);
  }

  /** Rewriting the later zone leaves the earlier one where it was. */
  lemma LaterRewriteKeepsEarlier(content: string, out: string, first: Zone, second: Zone)
    requires Placed(content, first) && Placed(content, second) && Before(content, first, second)
    requires Rewritten(content, out, second) && UpToDate(out, second)
    requires Find(out, second.begin) == Find(content, second.begin)
    ensures Placed(out, first) && Before(out, first, second)
    ensures UpToDate(content, first) ==> UpToDate(out, first)
  {
    EarlierMarkerStays(content, out, second, first.begin);
    EarlierMarkerStays(content, out, second, first.end);
    HeadParts(content, out, second);
    if UpToDate(content, first) {
      PrefixKeeps(content, out, Opens(content, second), first);
    }
  }

  lemma PrefixKeeps(content: string, out: string, n: nat, z: Zone)
    requires n <= |content| && n <= |out| && content[..n] == out[..n]
    requires UpToDate(content, z) && Closes(content, z) <= n
    requires Find(out, z.begin) == Find(content, z.begin) && Find(out, z.end) == Find(content, z.end)
    ensures UpToDate(out, z)
  {
    var i, j := Opens(content, z), Closes(content, z);
    assert Opens(out, z) == i && Closes(out, z) == j;
    SamePrefixSlice(content, out, n, i, j);
  }

  /** Rewriting the earlier zone moves the markers of the later one alike. */
  lemma EarlierRewriteShiftsLater(content: string, out: string, first: Zone, second: Zone)
    requires Placed(content, first) && Placed(content, second) && Before(content, first, second)
    requires Rewritten(content, out, first) && UpToDate(out, first) && Opens(out, first) == Opens(content, first)
    requires Clean(second, first)
    ensures Opens(out, second) == Opens(content, second) + |out| - |content|
    ensures Closes(out, second) == Closes(content, second) + |out| - |content|
    ensures Placed(out, second) && Before(out, first, second)
  {
    LaterMarkerShifts(content, out, first, second.begin);
    LaterMarkerShifts(content, out, first, second.end);
    HeadParts(content, out, first);
    assert |out[Opens(out, first)..Closes(out, first)]| == 1 + |Body(first)|;
  }

  lemma InteriorInTail(a: string, rest: string, z: Zone, i: nat, j: nat)
    requires UpToDate(a + rest, z) && i <= j <= |rest|
    requires Opens(a + rest, z) == |a| + i && Closes(a + rest, z) == |a| + j
    ensures rest[i..j] == "\n" + Body(z)
  {
    SuffixSlice(a, rest, |a| + i, |a| + j);
  }

  lemma TailIsUpToDate(b: string, rest: string, z: Zone, i: nat, j: nat)
    requires Placed(b + rest, z) && i <= j <= |rest| && rest[i..j] == "\n" + Body(z)
    requires Opens(b + rest, z) == |b| + i && Closes(b + rest, z) == |b| + j
    ensures UpToDate(b + rest, z)
  {
    SuffixSlice(b, rest, |b| + i, |b| + j);
  }

  /** What the later zone holds moves with it. */
  lemma EarlierRewriteKeepsLater(content: string, out: string, first: Zone, second: Zone)
    requires Placed(content, first) && UpToDate(content, second) && Before(content, first, second)
    requires Rewritten(content, out, first) && UpToDate(out, first) && Opens(out, first) == Opens(content, first)
    requires Clean(second, first)
    ensures UpToDate(out, second)
  {
    EarlierRewriteShiftsLater(content, out, first, second);
    HeadParts(content, out, first);
    var e := Closes(content, first);
    assert content == content[..e] + content[e..];
    var i, j := Opens(content, second) - e, Closes(content, second) - e;
    InteriorInTail(content[..e], content[e..], second, i, j);
    TailIsUpToDate(NewHead(content, first), content[e..], second, i, j);
  }

  /** Everything one rewrite of a well placed zone achieves. */
  lemma RewriteAchieves(content: string, z: Zone)
    requires Placed(content, z) && Clean(z, z)
    ensures var out := RewriteZone(content, z);
            && Rewritten(content, out, z) && UpToDate(out, z)
            && Opens(out, z) == Opens(content, z) && Find(out, z.begin) == Find(content, z.begin)
  {
    RewriteParts(content, z);
    RewriteBringsUpToDate(content, z);
    BeginStays(content, z);
  }

  lemma ToolBeforeAuth(content: string, tool: Zone, auth: Zone)
    requires Placed(content, tool) && Placed(content, auth) && Before(content, tool, auth)
    requires Clean(tool, tool) && Clean(tool, auth) && Clean(auth, tool) && Clean(auth, auth)
    ensures UpToDate(UpdateEnvExample(content, tool, auth), tool)
    ensures UpToDate(UpdateEnvExample(content, tool, auth), auth)
  {
    var middle := RewriteZone(content, tool);
    RewriteAchieves(content, tool);
    EarlierRewriteShiftsLater(content, middle, tool, auth);
    RewriteAchieves(middle, auth);
    LaterRewriteKeepsEarlier(middle, RewriteZone(middle, auth), tool, auth);
  }

  lemma AuthBeforeTool(content: string, tool: Zone, auth: Zone)
    requires Placed(content, tool) && Placed(content, auth) && Before(content, auth, tool)
    requires Clean(tool, tool) && Clean(tool, auth) && Clean(auth, tool) && Clean(auth, auth)
    ensures UpToDate(UpdateEnvExample(content, tool, auth), tool)
    ensures UpToDate(UpdateEnvExample(content, tool, auth), auth)
  {
    var middle := RewriteZone(content, tool);
    RewriteAchieves(content, tool);
    LaterRewriteKeepsEarlier(content, middle, auth, tool);
    RewriteAchieves(middle, auth);
    EarlierRewriteKeepsLater(middle, RewriteZone(middle, auth), auth, tool);
  }

  /** A marker the text does not have is not brought in by rewriting a zone. */
  lemma AbsentStays(content: string, out: string, z: Zone, m: string)
    requires Rewritten(content, out, z) && MarkerLine(m) && !Contains(z.text, m)
    requires Find(content, m) == -1
    ensures Find(out, m) == -1
  {
    var i := Find(out, m);
    if i != -1 {
      HeadParts(content, out, z);
      if i < |NewHead(content, z)| {
        NoNewOccurrence(content, out, z, m, i);
      } else {
        FollowingOccurrence(content, out, z, m, i - (|out| - |content|));
      }
    }
  }

  /** A zone that is skipped for want of a marker is still skipped after another one is rewritten. */
  lemma UnmarkedStays(content: string, z: Zone, missing: Zone)
    requires !Marked(content, missing) && Clean(missing, z)
    ensures !Marked(RewriteZone(content, z), missing)
  {
    if Marked(content, z) {
      RewriteParts(content, z);
      var m := if Find(content, missing.begin) == -1 then missing.begin else missing.end;
      AbsentStays(content, RewriteZone(content, z), z, m);
    }
  }

  /** With a marker missing, the full update is the rewriting of the other zone. */
  lemma UpdateWithoutZone(content: string, tool: Zone, auth: Zone)
    requires Clean(auth, tool)
    ensures !Marked(content, tool) ==> UpdateEnvExample(content, tool, auth) == RewriteZone(content, auth)
    ensures !Marked(content, auth) ==> UpdateEnvExample(content, tool, auth) == RewriteZone(content, tool)
  {
    if !Marked(content, auth) {
      UnmarkedStays(content, tool, auth);
    }
  }

  /** Each zone is in order or lacks a marker, and two zones do not overlap. */
  predicate Laid(content: string, tool: Zone, auth: Zone) {
    && (Marked(content, tool) ==> Placed(content, tool))
    && (Marked(content, auth) ==> Placed(content, auth))
    && (Marked(content, tool) && Marked(content, auth) ==>
          Before(content, tool, auth) || Before(content, auth, tool))
  }

  /**
   * Running the full update on its own output changes nothing, whichever zone
   * comes first and whether or not one is skipped.
   */
  lemma UpdateIdempotent(content: string, tool: Zone, auth: Zone)
    requires Laid(content, tool, auth)
    requires Clean(tool, tool) && Clean(tool, auth) && Clean(auth, tool) && Clean(auth, auth)
    ensures var once := UpdateEnvExample(content, tool, auth);
            UpdateEnvExample(once, tool, auth) == once
  {
    var once := UpdateEnvExample(content, tool, auth);
    if !Marked(content, tool) {
      UnmarkedStays(content, auth, tool);
      RewriteSettles(content, auth);
    } else if !Marked(content, auth) {
      UpdateWithoutZone(content, tool, auth);
      UnmarkedStays(content, tool, auth);
      RewriteSettles(content, tool);
    } else {
      if Before(content, tool, auth) {
        ToolBeforeAuth(content, tool, auth);
      } else {
        AuthBeforeTool(content, tool, auth);
      }
      UpToDateIsFixed(once, tool);
      UpToDateIsFixed(once, auth);
    }
  }

  lemma RewriteSettles(content: string, z: Zone)
    requires Clean(z, z) && (Marked(content, z) ==> Placed(content, z))
    ensures RewriteZone(RewriteZone(content, z), z) == RewriteZone(content, z)
  {
    IdempotentExactly(content, z);
  }

  lemma SplitAfter(head: string, content: string, e: nat, i: nat, j: nat, x: nat, y: nat)
    requires e <= i <= j <= |content| && x == i - e + |head| && y == j - e + |head|
    ensures (head + content[e..])[..x] == head + content[e..i]
    ensures (head + content[e..])[y..] == content[j..]
  {
    var s := head + content[e..];
    assert s[..x] == head + content[e..][..i - e];
    assert content[e..][..i - e] == content[e..i];
    assert s[y..] == content[e..][j - e..] == content[j..];
  }

  lemma TwoRewritesFrame(content: string, middle: string, out: string, first: Zone, second: Zone)
    requires Placed(content, first) && Placed(content, second) && Before(content, first, second)
    requires Rewritten(content, middle, first) && Rewritten(middle, out, second)
    requires Opens(middle, second) == Opens(content, second) + |middle| - |content|
    requires Closes(middle, second) == Closes(content, second) + |middle| - |content|
    ensures out == BothReplaced(content, first, second)
  {
    assert |middle| - |content| == |NewHead(content, first)| - Closes(content, first) by {
      HeadParts(content, middle, first);
    }
    SplitAfter(NewHead(content, first), content, Closes(content, first), Opens(content, second),
               Closes(content, second), Opens(middle, second), Closes(middle, second));
  }

  /** The text with the interiors of two zones replaced, the first of which stands before the second. */
  function BothReplaced(content: string, first: Zone, second: Zone): string
    requires Placed(content, first) && Placed(content, second) && Before(content, first, second)
  {
    content[..Opens(content, first)] + "\n" + Body(first)
    + content[Closes(content, first)..Opens(content, second)] + "\n" + Body(second)
    + content[Closes(content, second)..]
  }

  lemma SplitBefore(content: string, tail: string, n: nat, e: nat, i: nat)
    requires n <= e <= i <= |content|
    ensures (content[..i] + tail)[..n] == content[..n]
    ensures (content[..i] + tail)[e..] == content[e..i] + tail
  {
    var s := content[..i] + tail;
    assert forall k | 0 <= k < n :: s[k] == content[k];
    assert forall k | e <= k < i :: s[k] == content[k];
  }

  /** The later zone rewritten first, then the earlier one. */
  lemma LaterThenEarlier(content: string, middle: string, out: string, first: Zone, second: Zone)
    requires Placed(content, first) && Placed(content, second) && Before(content, first, second)
    requires Rewritten(content, middle, second) && Rewritten(middle, out, first)
    requires Opens(middle, first) == Opens(content, first) && Closes(middle, first) == Closes(content, first)
    ensures out == BothReplaced(content, first, second)
  {
    var n, e, i := Opens(content, first), Closes(content, first), Opens(content, second);
    var rest := content[Closes(content, second)..];
    var tail := "\n" + Body(second) + rest;
    RegroupFour(content[..i], "\n", Body(second), rest);
    SplitBefore(content, tail, n, e, i);
    RegroupFour(content[..n] + "\n" + Body(first) + content[e..i], "\n", Body(second), rest);
    Regroup(content[..n] + "\n" + Body(first), content[e..i], tail);
  }

  lemma RegroupFour(a: string, b: string, c: string, d: string)
    ensures a + b + c + d == a + (b + c + d)
  {}

  /** Outside the two zones not a character changes, whichever comes first. */
  lemma UpdateFrames(content: string, tool: Zone, auth: Zone)
    requires Placed(content, tool) && Placed(content, auth)
    requires Clean(tool, tool) && Clean(auth, tool)
    ensures Before(content, tool, auth) ==> UpdateEnvExample(content, tool, auth) == BothReplaced(content, tool, auth)
    ensures Before(content, auth, tool) ==> UpdateEnvExample(content, tool, auth) == BothReplaced(content, auth, tool)
  {
    var middle := RewriteZone(content, tool);
    RewriteAchieves(content, tool);
    if Before(content, tool, auth) {
      EarlierRewriteShiftsLater(content, middle, tool, auth);
      RewriteParts(middle, auth);
      TwoRewritesFrame(content, middle, RewriteZone(middle, auth), tool, auth);
    } else if Before(content, auth, tool) {
      LaterRewriteKeepsEarlier(content, middle, auth, tool);
      EarlierMarkerStays(content, middle, tool, auth.begin);
      EarlierMarkerStays(content, middle, tool, auth.end);
      RewriteParts(middle, auth);
      LaterThenEarlier(content, middle, RewriteZone(middle, auth), auth, tool);
    }
  }

  // ------------------------------------------------------- the real markers

  const RULE := "──────────────"

  const TOOL_MARKER_BEGIN :=
    "# ── BEGIN TOOL " + "DEFAULTS (auto-" + "generated — do " + "not edit manually) " + RULE
  const TOOL_MARKER_END :=
    "# ── END TOOL " + "DEFAULTS (auto-" + "generated) " + RULE + RULE + "──────────"
  const AUTH_MARKER_BEGIN :=
    "# ── BEGIN AUTH " + "PROVIDER DEFAULTS " + "(auto-generated " + "— do not edit " + "manually) " + "─────"
  const AUTH_MARKER_END :=
    "# ── END AUTH " + "PROVIDER DEFAULTS " + "(auto-generated) " + RULE + RULE + "──"

  lemma LineGrows(a: string, b: string)
    requires MarkerLine(a) && '\n' !in b
    ensures MarkerLine(a + b)
  {}

  lemma ToolBeginIsLine()
    ensures MarkerLine(TOOL_MARKER_BEGIN)
  {
    var m := "# ── BEGIN TOOL ";
    LineGrows(m, "DEFAULTS (auto-");
    m := m + "DEFAULTS (auto-";
    LineGrows(m, "generated — do ");
    m := m + "generated — do ";
    LineGrows(m, "not edit manually) ");
    m := m + "not edit manually) ";
    LineGrows(m, RULE);
    m := m + RULE;
  }

  lemma ToolEndIsLine()
    ensures MarkerLine(TOOL_MARKER_END)
  {
    var m := "# ── END TOOL ";
    LineGrows(m, "DEFAULTS (auto-");
    m := m + "DEFAULTS (auto-";
    LineGrows(m, "generated) ");
    m := m + "generated) ";
    LineGrows(m, RULE);
    m := m + RULE;
    LineGrows(m, RULE);
    m := m + RULE;
    LineGrows(m, "──────────");
    m := m + "──────────";
  }

  lemma AuthBeginIsLine()
    ensures MarkerLine(AUTH_MARKER_BEGIN)
  {
    var m := "# ── BEGIN AUTH ";
    LineGrows(m, "PROVIDER DEFAULTS ");
    m := m + "PROVIDER DEFAULTS ";
    LineGrows(m, "(auto-generated ");
    m := m + "(auto-generated ";
    LineGrows(m, "— do not edit ");
    m := m + "— do not edit ";
    LineGrows(m, "manually) ");
    m := m + "manually) ";
    LineGrows(m, "─────");
    m := m + "─────";
  }

  lemma AuthEndIsLine()
    ensures MarkerLine(AUTH_MARKER_END)
  {
    var m := "# ── END AUTH ";
    LineGrows(m, "PROVIDER DEFAULTS ");
    m := m + "PROVIDER DEFAULTS ";
    LineGrows(m, "(auto-generated) ");
    m := m + "(auto-generated) ";
    LineGrows(m, RULE);
    m := m + RULE;
    LineGrows(m, RULE);
    m := m + RULE;
    LineGrows(m, "──");
    m := m + "──";
  }

  /** The script on a file whose zones are in order or missing: a second run is a no-op. */
  lemma EnvExampleSettles(content: string, toolText: string, authText: string)
    requires var tool := Zone(TOOL_MARKER_BEGIN, TOOL_MARKER_END, toolText);
             var auth := Zone(AUTH_MARKER_BEGIN, AUTH_MARKER_END, authText);
             Laid(content, tool, auth)
    requires forall m | m in [TOOL_MARKER_BEGIN, TOOL_MARKER_END, AUTH_MARKER_BEGIN, AUTH_MARKER_END] ::
               !Contains(toolText, m) && !Contains(authText, m)
    ensures var tool := Zone(TOOL_MARKER_BEGIN, TOOL_MARKER_END, toolText);
            var auth := Zone(AUTH_MARKER_BEGIN, AUTH_MARKER_END, authText);
            var once := UpdateEnvExample(content, tool, auth);
            UpdateEnvExample(once, tool, auth) == once
  {
    ToolBeginIsLine();
    ToolEndIsLine();
    AuthBeginIsLine();
    AuthEndIsLine();
    UpdateIdempotent(content, Zone(TOOL_MARKER_BEGIN, TOOL_MARKER_END, toolText),
                     Zone(AUTH_MARKER_BEGIN, AUTH_MARKER_END, authText));
  }
}
