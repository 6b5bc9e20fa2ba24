/**
 * Grouping tools for the generated documentation and merging the configuration
 * of a group (`group_tools` and `merge_schemas` in
 * `scripts/generate_tools_docs.py`). Discovery order is accidental, so the
 * output is meant not to depend on it. `group_tools` alone meets that except
 * where a single tool clashes with a family; its caller sorts by name first,
 * and then the groups never depend on it.
 */
module ToolGroups {
  import opened Prelude
  import opened Sorting
  import opened Text

  /** A schema property as written; anything but an object is ignored. */
  datatype Property = Info(description: string) | NotAnObject

  datatype Tool = Tool(
    name: string,
    namespace: Option<string>,
    properties: map<string, Property>,
    required: seq<string>,
    defaults: map<string, string>)

  datatype Group = Group(groupId: string, namespace: Option<string>, tools: seq<Tool>)

  // ------------------------------------------------------------------ orders

  predicate ByName(a: Tool, b: Tool) { AtMost(a.name, b.name) }

  /** `g.namespace or g.group_id` */
  function SortKey(g: Group): string {
    if g.namespace.Some? && g.namespace.value != "" then g.namespace.value else g.groupId
  }

  predicate BySortKey(a: Group, b: Group) { AtMost(SortKey(a), SortKey(b)) }

  lemma OrdersAreTotal()
    ensures TotalPreorder(ByName) && TotalPreorder(BySortKey)
  {
    forall a: string, b: string { AtMostTotal(a, b); }
    forall a: Tool, b: Tool, c: Tool | ByName(a, b) && ByName(b, c)
      ensures ByName(a, c)
    {
      AtMostTransitive(a.name, b.name, c.name);
    }
    forall a: Group, b: Group, c: Group | BySortKey(a, b) && BySortKey(b, c)
      ensures BySortKey(a, c)
    {
      AtMostTransitive(SortKey(a), SortKey(b), SortKey(c));
    }
  }

  // -------------------------------------------------------- specification

  predicate Namespaced(t: Tool) { t.namespace.Some? && t.namespace.value != "" }

  const SINGLE := "__single__::"

  /** The dictionary key a tool is filed under. */
  function Key(t: Tool): string {
    if Namespaced(t) then t.namespace.value else SINGLE + t.name
  }

  /** The empty group a tool founds when its key is new. */
  function Founded(t: Tool): Group {
    if Namespaced(t) then Group(Key(t), t.namespace, []) else Group(t.name, None, [])
  }

  function Members(tools: seq<Tool>, k: string): seq<Tool> {
    Filter(tools, (t: Tool) => Key(t) == k)
  }

  /** Keys in order of first use. */
  function Keys(tools: seq<Tool>): (r: seq<string>)
    ensures Distinct(r)
    ensures forall k :: k in r <==> exists t :: t in tools && Key(t) == k
  {
    if tools == [] then []
    else
      var front, last := tools[..|tools| - 1], tools[|tools| - 1];
      assert tools == front + [last];
      if Key(last) in Keys(front) then Keys(front) else Keys(front) + [Key(last)]
  }

  lemma KeyHasMembers(tools: seq<Tool>, k: string)
    requires k in Keys(tools)
    ensures Members(tools, k) != []
  {
    var t :| t in tools && Key(t) == k;
    assert t in Members(tools, k);
  }

  /** The group of a key: founded by its first member. */
  function GroupOf(tools: seq<Tool>, k: string): Group
    requires k in Keys(tools)
  {
    KeyHasMembers(tools, k);
    Founded(Members(tools, k)[0]).(tools := Members(tools, k))
  }

  function SortMembers(g: Group): Group {
    g.(tools := StableSort(g.tools, ByName))
  }

  function SortedGroup(tools: seq<Tool>, k: string): Group
    requires k in Keys(tools)
  {
    SortMembers(GroupOf(tools, k))
  }

  function SortedGroups(tools: seq<Tool>, ks: seq<string>): (r: seq<Group>)
    requires forall k | k in ks :: k in Keys(tools)
    ensures |r| == |ks| && forall i | 0 <= i < |ks| :: r[i] == SortedGroup(tools, ks[i])
  {
    seq(|ks|, i requires 0 <= i < |ks| => SortedGroup(tools, ks[i]))
  }

  function Grouped(tools: seq<Tool>): seq<Group> {
    StableSort(SortedGroups(tools, Keys(tools)), BySortKey)
  }

  // -------------------------------------------------------------- the code

  method IndexOf(ks: seq<string>, k: string) returns (i: nat)
    ensures i <= |ks| && (i < |ks| ==> ks[i] == k) && (k !in ks <==> i == |ks|)
  {
    i := 0;
    while i < |ks| && ks[i] != k
      invariant i <= |ks| && k !in ks[..i]
    {
      i := i + 1;
    }
    assert ks == ks[..i] + ks[i..];
  }

  /** The dictionary after some tools: keys in insertion order, and a group for each. */
  ghost predicate Filed(ks: seq<string>, groups: seq<Group>, tools: seq<Tool>) {
    && ks == Keys(tools) && |groups| == |ks|
    && forall i | 0 <= i < |ks| :: groups[i] == GroupOf(tools, ks[i])
  }

  lemma MembersAppend(tools: seq<Tool>, t: Tool, k: string)
    ensures Members(tools + [t], k) == Members(tools, k) + (if Key(t) == k then [t] else [])
  {
    FilterConcat(tools, [t], (u: Tool) => Key(u) == k);
  }

  /** What one more tool does to the group of a key already in use. */
  lemma GroupGrows(tools: seq<Tool>, t: Tool, k: string)
    requires k in Keys(tools)
    ensures k in Keys(tools + [t])
    ensures GroupOf(tools + [t], k)
         == if Key(t) == k then GroupOf(tools, k).(tools := GroupOf(tools, k).tools + [t]) else GroupOf(tools, k)
  {
    assert (tools + [t])[..|tools|] == tools;
    KeyHasMembers(tools, k);
    MembersAppend(tools, t, k);
    if Key(t) != k {
      assert Members(tools + [t], k) == Members(tools, k);
    }
  }

  lemma GroupStarts(tools: seq<Tool>, t: Tool)
    requires Key(t) !in Keys(tools)
    ensures Keys(tools + [t]) == Keys(tools) + [Key(t)]
    ensures GroupOf(tools + [t], Key(t)) == Founded(t).(tools := [t])
  {
    assert (tools + [t])[..|tools|] == tools;
    MembersAppend(tools, t, Key(t));
    FilterNone(tools, (u: Tool) => Key(u) == Key(t));
  }

  /** A tool of a key already in use joins the group of that key. */
  lemma FiledJoin(ks: seq<string>, groups: seq<Group>, tools: seq<Tool>, t: Tool, i: nat)
    requires Filed(ks, groups, tools) && i < |ks| && ks[i] == Key(t)
    ensures Filed(ks, groups[i := groups[i].(tools := groups[i].tools + [t])], tools + [t])
  {
    KeysStep(tools, t);
    forall j | 0 <= j < |ks|
      ensures GroupOf(tools + [t], ks[j])
           == if j == i then groups[j].(tools := groups[j].tools + [t]) else groups[j]
    {
      GroupGrows(tools, t, ks[j]);
    }
  }

  /** A tool of a new key founds a group. */
  lemma FiledFound(ks: seq<string>, groups: seq<Group>, tools: seq<Tool>, t: Tool)
    requires Filed(ks, groups, tools) && Key(t) !in ks
    ensures Filed(ks + [Key(t)], groups + [Founded(t).(tools := [t])], tools + [t])
  {
    GroupStarts(tools, t);
    forall j | 0 <= j < |ks|
      ensures GroupOf(tools + [t], ks[j]) == groups[j]
    {
      GroupGrows(tools, t, ks[j]);
    }
  }

  lemma KeysStep(tools: seq<Tool>, t: Tool)
    ensures Keys(tools + [t]) == if Key(t) in Keys(tools) then Keys(tools) else Keys(tools) + [Key(t)]
  {
    assert (tools + [t])[..|tools|] == tools;
  }

  method FileTools(tools: seq<Tool>) returns (ks: seq<string>, groups: seq<Group>)
    ensures Filed(ks, groups, tools)
  {
    ks, groups := [], [];
    for n := 0 to |tools|
      invariant Filed(ks, groups, tools[..n])
    {
      var t := tools[n];
      assert tools[..n + 1] == tools[..n] + [t];
      var i := IndexOf(ks, Key(t));
      if i == |ks| {
        FiledFound(ks, groups, tools[..n], t);
        ks, groups := ks + [Key(t)], groups + [Founded(t).(tools := [t])];
      } else {
        FiledJoin(ks, groups, tools[..n], t, i);
        groups := groups[i := groups[i].(tools := groups[i].tools + [t])];
      }
    }
    assert tools[..|tools|] == tools;
  }

  /** The loop that puts each group in name order. */
  method SortEach(groups: seq<Group>) returns (r: seq<Group>)
    ensures |r| == |groups| && forall i | 0 <= i < |r| :: r[i] == SortMembers(groups[i])
  {
    r := groups;
    for i := 0 to |groups|
      invariant |r| == |groups|
      invariant forall j | 0 <= j < i :: r[j] == SortMembers(groups[j])
      invariant forall j | i <= j < |groups| :: r[j] == groups[j]
    {
      r := r[i := SortMembers(r[i])];
    }
  }

  method GroupTools(tools: seq<Tool>) returns (r: seq<Group>)
    ensures r == Grouped(tools)
  {
    var ks, filed := FileTools(tools);
    var groups := SortEach(filed);
    assert groups == SortedGroups(tools, ks) by {
      forall i | 0 <= i < |ks|
        ensures groups[i] == SortedGroup(tools, ks[i])
      {
        assert groups[i] == SortMembers(GroupOf(tools, ks[i]));
      }
    }
    r := StableSort(groups, BySortKey);
  }

  // ------------------------------------------------------------- partition

  function AllTools(groups: seq<Group>): multiset<Tool> {
    if groups == [] then multiset{} else multiset(groups[0].tools) + AllTools(groups[1..])
  }

  /** If only group `i` may hold `t`, its count there is the count overall. */
  lemma {:induction false} AllToolsCount(groups: seq<Group>, t: Tool, i: int)
    requires forall j | 0 <= j < |groups| && j != i :: multiset(groups[j].tools)[t] == 0
    ensures AllTools(groups)[t] == if 0 <= i < |groups| then multiset(groups[i].tools)[t] else 0
  {
    if groups != [] {
      AllToolsCount(groups[1..], t, i - 1);
    }
  }

  lemma {:induction false} AllToolsPermutes(a: seq<Group>, b: seq<Group>)
    requires multiset(a) == multiset(b)
    ensures AllTools(a) == AllTools(b)
  {
    if a == [] {
      assert |multiset(b)| == 0;
    } else {
      var i := PermutationSplit(a, b);
      AllToolsPermutes(a[1..], b[..i] + b[i + 1..]);
      AllToolsInsert(b[..i], a[0], b[i + 1..]);
    }
  }

  lemma AllToolsInsert(x: seq<Group>, g: Group, y: seq<Group>)
    ensures AllTools(x + [g] + y) == multiset(g.tools) + AllTools(x + y)
  {
    AllToolsAppend(x, y);
    assert x + [g] + y == x + ([g] + y);
    AllToolsAppend(x, [g] + y);
    assert ([g] + y)[1..] == y;
  }

  lemma {:induction false} AllToolsAppend(a: seq<Group>, b: seq<Group>)
    ensures AllTools(a + b) == AllTools(a) + AllTools(b)
  {
    if a == [] {
      assert a + b == b;
    } else {
      assert (a + b)[1..] == a[1..] + b;
      AllToolsAppend(a[1..], b);
    }
  }

  lemma CountInGroup(tools: seq<Tool>, k: string, t: Tool)
    requires k in Keys(tools)
    ensures multiset(SortedGroup(tools, k).tools)[t] == if Key(t) == k then multiset(tools)[t] else 0
  {
    FilterCount(tools, (u: Tool) => Key(u) == k, t);
  }

  lemma CountByKey(ks: seq<string>, groups: seq<Group>, t: Tool, k: string, n: nat)
    requires |ks| == |groups| && Distinct(ks) && (k in ks || n == 0)
    requires forall j | 0 <= j < |ks| :: multiset(groups[j].tools)[t] == if ks[j] == k then n else 0
    ensures AllTools(groups)[t] == n
  {
    if k in ks {
      var i :| 0 <= i < |ks| && ks[i] == k;
      AllToolsCount(groups, t, i);
    } else {
      AllToolsCount(groups, t, -1);
    }
  }

  lemma EachToolCounted(tools: seq<Tool>, t: Tool)
    ensures AllTools(SortedGroups(tools, Keys(tools)))[t] == multiset(tools)[t]
  {
    var ks := Keys(tools);
    forall j | 0 <= j < |ks|
      ensures multiset(SortedGroup(tools, ks[j]).tools)[t] == if ks[j] == Key(t) then multiset(tools)[t] else 0
    {
      CountInGroup(tools, ks[j], t);
    }
    assert t in tools <==> multiset(tools)[t] > 0;
    CountByKey(ks, SortedGroups(tools, ks), t, Key(t), multiset(tools)[t]);
  }

  /** Every tool lands in exactly one group, as often as it was given. */
  lemma GroupingIsPartition(tools: seq<Tool>)
    ensures AllTools(Grouped(tools)) == multiset(tools)
    ensures forall g, t | g in Grouped(tools) && t in g.tools :: g.tools == StableSort(Members(tools, Key(t)), ByName)
  {
    var ks := Keys(tools);
    var groups := SortedGroups(tools, ks);
    AllToolsPermutes(Grouped(tools), groups);
    forall t: Tool
      ensures AllTools(groups)[t] == multiset(tools)[t]
    {
      EachToolCounted(tools, t);
    }
    forall g, t | g in Grouped(tools) && t in g.tools
      ensures g.tools == StableSort(Members(tools, Key(t)), ByName)
    {
      MemberOfItsGroup(tools, g, t);
    }
  }

  lemma MemberOfItsGroup(tools: seq<Tool>, g: Group, t: Tool)
    requires g in Grouped(tools) && t in g.tools
    ensures Key(t) in Keys(tools) && g == SortedGroup(tools, Key(t))
  {
    var ks := Keys(tools);
    SameElements(Grouped(tools), SortedGroups(tools, ks));
    var j :| 0 <= j < |ks| && SortedGroup(tools, ks[j]) == g;
    CountInGroup(tools, ks[j], t);
    assert t in multiset(g.tools);
  }

  // ---------------------------------------------------- order independence

  ghost predicate DistinctNames(tools: seq<Tool>) {
    forall a, b | a in tools && b in tools && a.name == b.name :: a == b
  }

  /** No single tool goes by a family's name, as a title or as a dictionary key. */
  ghost predicate NoClash(tools: seq<Tool>) {
    forall a, b | a in tools && b in tools && Namespaced(a) && !Namespaced(b) ::
      a.namespace.value != b.name && a.namespace.value != SINGLE + b.name
  }

  lemma SameElements<T(!new)>(a: seq<T>, b: seq<T>)
    requires multiset(a) == multiset(b)
    ensures forall x :: x in a <==> x in b
  {
    forall x
      ensures x in a <==> x in b
    {
      assert x in a <==> x in multiset(a);
      assert x in b <==> x in multiset(b);
    }
  }

  /** Without clashes a key alone says which group it is. */
  lemma FounderDoesNotMatter(tools: seq<Tool>, a: Tool, b: Tool)
    requires NoClash(tools) && a in tools && b in tools && Key(a) == Key(b)
    ensures Founded(a) == Founded(b)
  {
    if !Namespaced(a) && !Namespaced(b) {
      assert Key(a)[|SINGLE|..] == a.name && Key(b)[|SINGLE|..] == b.name;
    }
  }

  lemma SameSortedGroup(a: seq<Tool>, b: seq<Tool>, k: string)
    requires multiset(a) == multiset(b) && DistinctNames(a) && NoClash(a)
    requires k in Keys(a)
    ensures k in Keys(b) && SortedGroup(a, k) == SortedGroup(b, k)
  {
    SameElements(a, b);
    KeyHasMembers(a, k);
    assert k in Keys(b) by {
      var t :| t in a && Key(t) == k;
      assert t in b;
    }
    KeyHasMembers(b, k);
    var p := (t: Tool) => Key(t) == k;
    FilterMultiset(a, b, p);
    OrdersAreTotal();
    forall x, y | x in Members(a, k) && y in Members(a, k) && ByName(x, y) && ByName(y, x)
      ensures x == y
    {
      AtMostTotal(x.name, y.name);
    }
    SortPermutation(Members(a, k), Members(b, k), ByName);
    assert Members(a, k)[0] in Members(a, k) && Members(b, k)[0] in Members(b, k);
    FounderDoesNotMatter(a, Members(a, k)[0], Members(b, k)[0]);
  }

  lemma DistinctPermutation(a: seq<string>, b: seq<string>)
    requires Distinct(a) && Distinct(b) && forall k :: k in a <==> k in b
    ensures multiset(a) == multiset(b)
  {
    forall k
      ensures multiset(a)[k] == multiset(b)[k]
    {
      DistinctOnce(a, k);
      DistinctOnce(b, k);
    }
  }

  lemma {:induction false} DistinctOnce(a: seq<string>, k: string)
    requires Distinct(a)
    ensures multiset(a)[k] == if k in a then 1 else 0
  {
    if a != [] {
      assert a == [a[0]] + a[1..];
      DistinctOnce(a[1..], k);
      assert a[0] !in a[1..];
    }
  }

  lemma SortKeyIsUnique(tools: seq<Tool>, k: string, k': string)
    requires NoClash(tools) && k in Keys(tools) && k' in Keys(tools)
    requires SortKey(SortedGroup(tools, k)) == SortKey(SortedGroup(tools, k'))
    ensures k == k'
  {
    KeyHasMembers(tools, k);
    KeyHasMembers(tools, k');
    assert Members(tools, k)[0] in Members(tools, k) && Members(tools, k')[0] in Members(tools, k');
  }

  lemma TiedGroupsAreEqual(tools: seq<Tool>, ks: seq<string>, x: Group, y: Group)
    requires NoClash(tools) && ks == Keys(tools)
    requires x in SortedGroups(tools, ks) && y in SortedGroups(tools, ks)
    requires SortKey(x) == SortKey(y)
    ensures x == y
  {
    var i :| 0 <= i < |ks| && SortedGroup(tools, ks[i]) == x;
    var j :| 0 <= j < |ks| && SortedGroup(tools, ks[j]) == y;
    SortKeyIsUnique(tools, ks[i], ks[j]);
  }

  lemma SortKeysDiffer(tools: seq<Tool>)
    requires NoClash(tools)
    ensures AntisymmetricOn(SortedGroups(tools, Keys(tools)), BySortKey)
  {
    var ks := Keys(tools);
    var gs := SortedGroups(tools, ks);
    forall x, y | x in gs && y in gs && BySortKey(x, y) && BySortKey(y, x)
      ensures x == y
    {
      AtMostTotal(SortKey(x), SortKey(y));
      TiedGroupsAreEqual(tools, ks, x, y);
    }
  }

  lemma SameKeys(a: seq<Tool>, b: seq<Tool>)
    requires multiset(a) == multiset(b)
    ensures multiset(Keys(a)) == multiset(Keys(b))
  {
    SameElements(a, b);
    DistinctPermutation(Keys(a), Keys(b));
  }

  lemma SameGroupAt(a: seq<Tool>, b: seq<Tool>, i: nat, j: nat)
    requires multiset(a) == multiset(b) && DistinctNames(a) && NoClash(a)
    requires i < |Keys(a)| && j < |Keys(b)| && Keys(a)[i] == Keys(b)[j]
    ensures SortedGroups(a, Keys(a))[i] == SortedGroups(b, Keys(b))[j]
  {
    SameSortedGroup(a, b, Keys(a)[i]);
  }

  lemma SameGroups(a: seq<Tool>, b: seq<Tool>)
    requires multiset(a) == multiset(b) && DistinctNames(a) && NoClash(a)
    ensures multiset(SortedGroups(a, Keys(a))) == multiset(SortedGroups(b, Keys(b)))
  {
    var ka, kb := Keys(a), Keys(b);
    var ga, gb := SortedGroups(a, ka), SortedGroups(b, kb);
    SameKeys(a, b);
    forall i, j | 0 <= i < |ka| && 0 <= j < |kb| && ka[i] == kb[j]
      ensures ga[i] == gb[j]
    {
      SameGroupAt(a, b, i, j);
    }
    PairedPermutation(ka, ga, kb, gb);
  }

  /** Any order of discovery gives the same groups in the same order. */
  lemma GroupingIgnoresOrder(a: seq<Tool>, b: seq<Tool>)
    requires multiset(a) == multiset(b) && DistinctNames(a) && NoClash(a)
    ensures Grouped(a) == Grouped(b)
  {
    SameGroups(a, b);
    OrdersAreTotal();
    SortKeysDiffer(a);
    SortPermutation(SortedGroups(a, Keys(a)), SortedGroups(b, Keys(b)), BySortKey);
  }

  // --------------------------------------------------- exactly when it holds

  lemma {:induction false} KeysStart(a: Tool, rest: seq<Tool>)
    ensures var ks := Keys([a] + rest);
            ks != [] && ks[0] == Key(a)
    decreases |rest|
  {
    var all := [a] + rest;
    if rest == [] {
      assert all[..0] == [];
    } else {
      assert all[..|all| - 1] == [a] + rest[..|rest| - 1];
      KeysStart(a, rest[..|rest| - 1]);
    }
  }

  lemma FounderGivesNames(a: Tool, rest: seq<Tool>)
    ensures Key(a) in Keys([a] + rest)
    ensures var g := SortedGroup([a] + rest, Key(a));
            g.namespace == Founded(a).namespace && g.groupId == Founded(a).groupId && a in g.tools
  {
    var all := [a] + rest;
    KeysStart(a, rest);
    assert all[0] == a && all[1..] == rest;
    assert Members(all, Key(a))[0] == a;
    CountInGroup(all, Key(a), a);
    assert a in multiset(all);
  }

  /** The group founded by the first tool heads the groups that tie with it. */
  lemma FirstFounderLeads(a: Tool, rest: seq<Tool>, z: Group)
    requires BySortKey(Founded(a), z) && BySortKey(z, Founded(a))
    ensures var tied := Ties(Grouped([a] + rest), z, BySortKey);
            tied != [] && tied[0].namespace == Founded(a).namespace
  {
    var all := [a] + rest;
    KeysStart(a, rest);
    FounderGivesNames(a, rest);
    OrdersAreTotal();
    FirstLeadsTies(SortedGroups(all, Keys(all)), z, BySortKey);
  }

  lemma ClashByTitle(a: Tool, b: Tool, rest: seq<Tool>)
    requires Namespaced(a) && !Namespaced(b) && a.namespace.value == b.name
    ensures Grouped([a] + ([b] + rest)) != Grouped([b] + ([a] + rest))
  {
    var z := Founded(a);
    AtMostTotal(SortKey(z), SortKey(Founded(b)));
    FirstFounderLeads(a, [b] + rest, z);
    FirstFounderLeads(b, [a] + rest, z);
  }

  lemma ClashByKey(a: Tool, b: Tool, rest: seq<Tool>)
    requires Namespaced(a) && !Namespaced(b) && Key(a) == Key(b)
    ensures Grouped([a] + ([b] + rest)) != Grouped([b] + ([a] + rest))
  {
    var p, q := [a] + ([b] + rest), [b] + ([a] + rest);
    FounderGivesNames(a, [b] + rest);
    FounderGivesNames(b, [a] + rest);
    var g := SortedGroup(p, Key(a));
    GroupIsListed(p, Key(a));
    if g in Grouped(q) {
      MemberOfItsGroup(q, g, a);
    }
  }

  lemma GroupIsListed(tools: seq<Tool>, k: string)
    requires k in Keys(tools)
    ensures SortedGroup(tools, k) in Grouped(tools)
  {
    var gs := SortedGroups(tools, Keys(tools));
    SameElements(Grouped(tools), gs);
    var i :| 0 <= i < |Keys(tools)| && Keys(tools)[i] == k;
    assert gs[i] in gs;
  }

  lemma WithoutOne(s: seq<Tool>, x: Tool) returns (rest: seq<Tool>)
    requires x in s
    ensures multiset(s) == multiset(rest) + multiset{x}
  {
    var i :| 0 <= i < |s| && s[i] == x;
    rest := s[..i] + s[i + 1..];
    assert s == s[..i] + [x] + s[i + 1..];
  }

  /** Two different tools moved to the front. */
  lemma MoveToFront(tools: seq<Tool>, a: Tool, b: Tool) returns (rest: seq<Tool>)
    requires a in tools && b in tools && a != b
    ensures multiset([a] + ([b] + rest)) == multiset(tools)
    ensures multiset([b] + ([a] + rest)) == multiset(tools)
  {
    var others := WithoutOne(tools, a);
    assert b in multiset(tools) && b in multiset(others);
    rest := WithoutOne(others, b);
  }

  ghost predicate IgnoresOrder(tools: seq<Tool>) {
    forall p | multiset(p) == multiset(tools) :: Grouped(p) == Grouped(tools)
  }

  /**
   * The grouping is independent of the order of discovery exactly when no
   * single tool shares its title, or its dictionary key, with a family.
   */
  lemma OrderIgnoredExactly(tools: seq<Tool>)
    requires DistinctNames(tools)
    ensures IgnoresOrder(tools) <==> NoClash(tools)
  {
    if NoClash(tools) {
      forall p | multiset(p) == multiset(tools)
        ensures Grouped(p) == Grouped(tools)
      {
        GroupingIgnoresOrder(tools, p);
      }
    } else {
      var a, b :| a in tools && b in tools && Namespaced(a) && !Namespaced(b)
        && (a.namespace.value == b.name || a.namespace.value == SINGLE + b.name);
      ClashBreaksOrder(tools, a, b);
    }
  }

  /** The same for a list of just these two. */
  lemma ClashOfTwo(a: Tool, b: Tool, p: seq<Tool>, q: seq<Tool>, none: seq<Tool>)
    requires none == [] && p == [a] + ([b] + none) && q == [b] + ([a] + none)
    requires Namespaced(a) && !Namespaced(b) && a.namespace.value == b.name
    ensures Grouped(p) != Grouped(q)
  {
    ClashByTitle(a, b, none);
  }

  lemma BothOrders(a: Tool, b: Tool, p: seq<Tool>, q: seq<Tool>)
    requires p == [a, b] && q == [b, a] && a.name != b.name
    ensures multiset(p) == multiset(q) && DistinctNames(p)
    ensures p == [a] + ([b] + []) && q == [b] + ([a] + [])
  {}

  /** A single tool named like a family: which of the two comes first decides the order of the groups. */
  lemma ClashExample(member: Tool, single: Tool, p: seq<Tool>, q: seq<Tool>)
    requires member == Tool("dns_query", Some("dns"), map[], [], map[]) && single == Tool("dns", None, map[], [], map[])
    requires p == [member, single] && q == [single, member]
    ensures multiset(p) == multiset(q) && DistinctNames(p) && Grouped(p) != Grouped(q)
  {
    assert |member.name| != |single.name|;
    BothOrders(member, single, p, q);
    ClashOfTwo(member, single, p, q, []);
  }

  /** The groups as the script builds them: it sorts the tools by name before it groups them. */
  lemma DocumentedGroupsIgnoreOrder(a: seq<Tool>, b: seq<Tool>)
    requires multiset(a) == multiset(b) && DistinctNames(a)
    ensures Grouped(StableSort(a, ByName)) == Grouped(StableSort(b, ByName))
  {
    OrdersAreTotal();
    forall x, y | x in a && y in a && ByName(x, y) && ByName(y, x)
      ensures x == y
    {
      AtMostTotal(x.name, y.name);
    }
    SortPermutation(a, b, ByName);
  }

  lemma ClashBreaksOrder(tools: seq<Tool>, a: Tool, b: Tool)
    requires a in tools && b in tools && Namespaced(a) && !Namespaced(b)
    requires a.namespace.value == b.name || a.namespace.value == SINGLE + b.name
    ensures !IgnoresOrder(tools)
  {
    var rest := MoveToFront(tools, a, b);
    assert Grouped([a] + ([b] + rest)) != Grouped([b] + ([a] + rest)) by {
      if a.namespace.value == b.name {
        ClashByTitle(a, b, rest);
      } else {
        ClashByKey(a, b, rest);
      }
    }
    TwoOrdersDiffer(tools, [a] + ([b] + rest), [b] + ([a] + rest));
  }

  lemma TwoOrdersDiffer(tools: seq<Tool>, p: seq<Tool>, q: seq<Tool>)
    requires multiset(p) == multiset(tools) && multiset(q) == multiset(tools) && Grouped(p) != Grouped(q)
    ensures !IgnoresOrder(tools)
  {
    assert IgnoresOrder(tools) ==> Grouped(p) == Grouped(tools) && Grouped(q) == Grouped(tools);
  }

  // ------------------------------------------------- the groups, outright

  /** The tool belongs under this dictionary key. */
  ghost predicate UnderKey(t: Tool, k: string) {
    if t.namespace.Some? && t.namespace.value != "" then k == t.namespace.value else k == "__single__::" + t.name
  }

  /** Tool `i` is the first one under the key. */
  ghost predicate FirstUnder(tools: seq<Tool>, k: string, i: int) {
    0 <= i < |tools| && UnderKey(tools[i], k) && forall j | 0 <= j < i :: !UnderKey(tools[j], k)
  }

  function Named(tools: seq<Tool>, n: string): seq<Tool> {
    Filter(tools, (t: Tool) => t.name == n)
  }

  ghost function NamedUnder(tools: seq<Tool>, k: string, n: string): seq<Tool> {
    Filter(tools, (t: Tool) => UnderKey(t, k) && t.name == n)
  }

  ghost function WithTitle(groups: seq<Group>, title: string): seq<Group> {
    Filter(groups, (g: Group) => Titled(g, title))
  }

  /**
   * The group of a key: all tools under it, in name order and otherwise in the
   * order given, with the identity of its first one.
   */
  ghost predicate GroupIs(tools: seq<Tool>, k: string, g: Group) {
    && (forall i, j | 0 <= i < j < |g.tools| :: AtMost(g.tools[i].name, g.tools[j].name))
    && (forall n :: Named(g.tools, n) == NamedUnder(tools, k, n))
    && (exists i :: FirstUnder(tools, k, i)
          && if tools[i].namespace.Some? && tools[i].namespace.value != ""
             then g.namespace == tools[i].namespace && g.groupId == tools[i].namespace.value
             else g.namespace == None && g.groupId == tools[i].name)
  }

  lemma KeyIs(t: Tool, k: string)
    ensures UnderKey(t, k) <==> Key(t) == k
  {}

  lemma {:induction false} FirstMember(tools: seq<Tool>, k: string) returns (i: nat)
    requires Members(tools, k) != []
    ensures FirstUnder(tools, k, i) && Members(tools, k)[0] == tools[i]
  {
    if Key(tools[0]) == k {
      i := 0;
    } else {
      var j := FirstMember(tools[1..], k);
      i := j + 1;
      assert forall b | 0 < b < i :: tools[b] == tools[1..][b - 1];
    }
  }

  lemma {:induction false} FilterTwice(tools: seq<Tool>, k: string, n: string)
    ensures Named(Members(tools, k), n) == NamedUnder(tools, k, n)
  {
    if tools != [] {
      FilterTwice(tools[1..], k, n);
      assert Members(tools, k)
          == if Key(tools[0]) == k then [tools[0]] + Members(tools[1..], k) else Members(tools[1..], k);
    }
  }

  lemma SameNameKept(members: seq<Tool>, n: string)
    ensures Named(StableSort(members, ByName), n) == Named(members, n)
  {
    var z := Tool(n, None, map[], [], map[]);
    OrdersAreTotal();
    SortStable(members, z, ByName);
    forall t: Tool
      ensures t.name == n <==> ByName(t, z) && ByName(z, t)
    {
      AtMostTotal(t.name, n);
    }
    TiesAre(StableSort(members, ByName), z, ByName, (t: Tool) => t.name == n);
    TiesAre(members, z, ByName, (t: Tool) => t.name == n);
  }

  lemma SortedGroupIs(tools: seq<Tool>, k: string)
    requires k in Keys(tools)
    ensures GroupIs(tools, k, SortedGroup(tools, k))
  {
    var g, members := SortedGroup(tools, k), Members(tools, k);
    KeyHasMembers(tools, k);
    OrdersAreTotal();
    SortSorted(members, ByName);
    forall i, j | 0 <= i < j < |g.tools|
      ensures AtMost(g.tools[i].name, g.tools[j].name)
    {
      assert ByName(g.tools[i], g.tools[j]);
    }
    forall n
      ensures Named(g.tools, n) == NamedUnder(tools, k, n)
    {
      SameNameKept(members, n);
      FilterTwice(tools, k, n);
    }
    var i := FirstMember(tools, k);
    assert FirstUnder(tools, k, i);
  }

  /** There is a group for every key in use, and no other. */
  lemma GroupsOutright(tools: seq<Tool>)
    ensures |Grouped(tools)| == |Keys(tools)|
    ensures forall k, t | t in tools && UnderKey(t, k) :: exists g :: g in Grouped(tools) && GroupIs(tools, k, g)
    ensures forall g | g in Grouped(tools) :: exists k :: GroupIs(tools, k, g)
  {
    var ks := Keys(tools);
    SameElements(Grouped(tools), SortedGroups(tools, ks));
    forall k, t | t in tools && UnderKey(t, k)
      ensures exists g :: g in Grouped(tools) && GroupIs(tools, k, g)
    {
      KeyIs(t, k);
      GroupIsListed(tools, k);
      SortedGroupIs(tools, k);
    }
    forall g | g in Grouped(tools)
      ensures exists k :: GroupIs(tools, k, g)
    {
      var i :| 0 <= i < |ks| && SortedGroup(tools, ks[i]) == g;
      SortedGroupIs(tools, ks[i]);
    }
  }

  /** The title a group stands under in the output. */
  ghost predicate Titled(g: Group, title: string) {
    title == if g.namespace.Some? && g.namespace.value != "" then g.namespace.value else g.groupId
  }

  /**
   * The groups stand in dictionary order of their titles, and groups with the
   * same title in the order in which their keys were first used.
   */
  lemma GroupsInTitleOrder(tools: seq<Tool>)
    ensures forall i, j, a, b | 0 <= i < j < |Grouped(tools)| && Titled(Grouped(tools)[i], a) && Titled(Grouped(tools)[j], b) ::
              AtMost(a, b)
    ensures forall title :: WithTitle(Grouped(tools), title) == WithTitle(SortedGroups(tools, Keys(tools)), title)
  {
    OrdersAreTotal();
    SortSorted(SortedGroups(tools, Keys(tools)), BySortKey);
    forall i, j, a, b | 0 <= i < j < |Grouped(tools)| && Titled(Grouped(tools)[i], a) && Titled(Grouped(tools)[j], b)
      ensures AtMost(a, b)
    {
      assert BySortKey(Grouped(tools)[i], Grouped(tools)[j]);
    }
    forall title
      ensures WithTitle(Grouped(tools), title) == WithTitle(SortedGroups(tools, Keys(tools)), title)
    {
      SameTitleKept(SortedGroups(tools, Keys(tools)), title);
    }
  }

  lemma SameTitleKept(groups: seq<Group>, title: string)
    ensures WithTitle(StableSort(groups, BySortKey), title) == WithTitle(groups, title)
  {
    var z := Group(title, None, []);
    OrdersAreTotal();
    SortStable(groups, z, BySortKey);
    forall g: Group
      ensures Titled(g, title) <==> BySortKey(g, z) && BySortKey(z, g)
    {
      AtMostTotal(SortKey(g), title);
    }
    TiesAre(StableSort(groups, BySortKey), z, BySortKey, (g: Group) => Titled(g, title));
    TiesAre(groups, z, BySortKey, (g: Group) => Titled(g, title));
  }

  /** Some tool is under `k` before any is under `k'`. */
  ghost predicate UsedBefore(tools: seq<Tool>, k: string, k': string) {
    exists i :: FirstUnder(tools, k, i) && forall j | 0 <= j <= i :: !UnderKey(tools[j], k')
  }

  lemma UsedBeforeStays(tools: seq<Tool>, t: Tool, k: string, k': string)
    requires UsedBefore(tools, k, k')
    ensures UsedBefore(tools + [t], k, k')
  {
    var i :| FirstUnder(tools, k, i) && forall j | 0 <= j <= i :: !UnderKey(tools[j], k');
    assert forall j | 0 <= j <= i :: (tools + [t])[j] == tools[j];
    assert FirstUnder(tools + [t], k, i);
  }

  lemma NewKeyIsLast(tools: seq<Tool>, t: Tool, k: string)
    requires k in Keys(tools) && Key(t) !in Keys(tools)
    ensures UsedBefore(tools + [t], k, Key(t))
  {
    KeyHasMembers(tools, k);
    var i := FirstMember(tools, k);
    forall j | 0 <= j <= i
      ensures !UnderKey(tools[j], Key(t))
    {
      assert tools[j] in tools;
    }
    assert UsedBefore(tools, k, Key(t));
    UsedBeforeStays(tools, t, k, Key(t));
  }

  /** Keys stand in the order in which they were first used. */
  lemma {:induction false} KeysInOrderOfUse(tools: seq<Tool>)
    ensures forall i, j | 0 <= i < j < |Keys(tools)| :: UsedBefore(tools, Keys(tools)[i], Keys(tools)[j])
  {
    if tools != [] {
      var front, t := tools[..|tools| - 1], tools[|tools| - 1];
      KeysInOrderOfUse(front);
      FrontLast(tools, front, t);
      KeysStep(front, t);
      var ks := Keys(tools);
      forall i, j | 0 <= i < j < |ks|
        ensures UsedBefore(tools, ks[i], ks[j])
      {
        if j < |Keys(front)| {
          UsedBeforeStays(front, t, ks[i], ks[j]);
        } else {
          assert ks[i] in Keys(front);
          NewKeyIsLast(front, t, ks[i]);
        }
      }
    }
  }

  // ------------------------------------------------------- merging schemas

  predicate Declares(t: Tool, field: string) {
    field in t.properties && t.properties[field].Info?
  }

  function PropertyOf(t: Tool, field: string): Option<Property> {
    if Declares(t, field) then Some(t.properties[field]) else None
  }

  function DefaultOf(t: Tool, field: string): Option<string> {
    if field in t.defaults then Some(t.defaults[field]) else None
  }

  /** What the first tool that has something to give gives. */
  function FirstGiven<T>(tools: seq<Tool>, given: Tool -> Option<T>): Option<T> {
    if tools == [] then None
    else
      var earlier := FirstGiven(tools[..|tools| - 1], given);
      if earlier.Some? then earlier else given(tools[|tools| - 1])
  }

  function FirstProperty(tools: seq<Tool>, field: string): Option<Property> {
    FirstGiven(tools, (t: Tool) => PropertyOf(t, field))
  }

  function FirstDefault(tools: seq<Tool>, field: string): Option<string> {
    FirstGiven(tools, (t: Tool) => DefaultOf(t, field))
  }

  /** The required fields in order of first mention, each once. */
  function AddNew(known: seq<string>, fields: seq<string>): (r: seq<string>)
    requires Distinct(known)
    ensures Distinct(r)
    decreases fields
  {
    if fields == [] then known
    else if fields[0] in known then AddNew(known, fields[1..])
    else AddNew(known + [fields[0]], fields[1..])
  }

  lemma {:induction false} AddNewMembers(known: seq<string>, fields: seq<string>)
    requires Distinct(known)
    ensures forall f :: f in AddNew(known, fields) <==> f in known || f in fields
    decreases fields
  {
    if fields != [] {
      AddNewMembers(if fields[0] in known then known else known + [fields[0]], fields[1..]);
    }
  }

  function AllRequired(tools: seq<Tool>): (r: seq<string>)
    ensures Distinct(r)
    ensures forall f :: f in r <==> exists t :: t in tools && f in t.required
  {
    if tools == [] then []
    else
      var front, last := tools[..|tools| - 1], tools[|tools| - 1];
      assert tools == front + [last];
      AddNewMembers(AllRequired(front), last.required);
      AddNew(AllRequired(front), last.required)
  }

  /** All mentions of required fields, tool by tool. */
  function Mentions(tools: seq<Tool>): seq<string> {
    if tools == [] then [] else Mentions(tools[..|tools| - 1]) + tools[|tools| - 1].required
  }

  /** Some mention of `x` comes before every mention of `y`. */
  ghost predicate MentionedBefore(mentions: seq<string>, x: string, y: string) {
    exists a :: 0 <= a < |mentions| && mentions[a] == x && y !in mentions[..a + 1]
  }

  /** The fields are those mentioned, in order of first mention. */
  ghost predicate ByFirstMention(fields: seq<string>, mentions: seq<string>) {
    && Distinct(fields)
    && (forall f :: f in fields <==> f in mentions)
    && (forall i, j | 0 <= i < j < |fields| :: MentionedBefore(mentions, fields[i], fields[j]))
  }

  lemma StillBefore(mentions: seq<string>, f: string, x: string, y: string)
    requires MentionedBefore(mentions, x, y)
    ensures MentionedBefore(mentions + [f], x, y)
  {
    var a :| 0 <= a < |mentions| && mentions[a] == x && y !in mentions[..a + 1];
    assert (mentions + [f])[..a + 1] == mentions[..a + 1];
  }

  lemma NewComesAfter(mentions: seq<string>, f: string, x: string)
    requires x in mentions && f !in mentions
    ensures MentionedBefore(mentions + [f], x, f)
  {
    var a :| 0 <= a < |mentions| && mentions[a] == x;
    assert (mentions + [f])[..a + 1] == mentions[..a + 1];
  }

  lemma OneMoreMention(fields: seq<string>, mentions: seq<string>, f: string)
    requires ByFirstMention(fields, mentions)
    ensures ByFirstMention(if f in fields then fields else fields + [f], mentions + [f])
  {
    var fields' := if f in fields then fields else fields + [f];
    forall i, j | 0 <= i < j < |fields'|
      ensures MentionedBefore(mentions + [f], fields'[i], fields'[j])
    {
      if j < |fields| {
        StillBefore(mentions, f, fields[i], fields[j]);
      } else {
        assert fields[i] in fields;
        NewComesAfter(mentions, f, fields[i]);
      }
    }
  }

  lemma MovedOver(s: seq<string>, t: seq<string>)
    requires t != []
    ensures s + [t[0]] + t[1..] == s + t
  {}

  lemma {:induction false} MoreMentions(known: seq<string>, mentions: seq<string>, fields: seq<string>)
    requires ByFirstMention(known, mentions)
    ensures ByFirstMention(AddNew(known, fields), mentions + fields)
    decreases fields
  {
    if fields == [] {
      assert mentions + fields == mentions;
    } else {
      var f := fields[0];
      var known' := if f in known then known else known + [f];
      OneMoreMention(known, mentions, f);
      MoreMentions(known', mentions + [f], fields[1..]);
      MovedOver(mentions, fields);
      assert AddNew(known, fields) == AddNew(known', fields[1..]);
    }
  }

  /** The merged required fields, each at the place of its first mention. */
  lemma {:induction false} RequiredByFirstMention(tools: seq<Tool>)
    ensures ByFirstMention(AllRequired(tools), Mentions(tools))
  {
    if tools != [] {
      var front := tools[..|tools| - 1];
      RequiredByFirstMention(front);
      MoreMentions(AllRequired(front), Mentions(front), tools[|tools| - 1].required);
    }
  }

  method AddRequired(known: seq<string>, fields: seq<string>) returns (required: seq<string>)
    requires Distinct(known)
    ensures required == AddNew(known, fields)
  {
    required := known;
    for i := 0 to |fields|
      invariant Distinct(required) && AddNew(required, fields[i..]) == AddNew(known, fields)
    {
      assert fields[i..][1..] == fields[i + 1..];
      if fields[i] !in required {
        required := required + [fields[i]];
      }
    }
  }

  method AddProperties(props: map<string, Property>, t: Tool) returns (r: map<string, Property>)
    ensures forall f :: f in r <==> f in props || Declares(t, f)
    ensures forall f | f in props :: f in r && r[f] == props[f]
    ensures forall f | f !in props && Declares(t, f) :: f in r && r[f] == t.properties[f]
  {
    r := props;
    var left := t.properties.Keys;
    while left != {}
      invariant left <= t.properties.Keys
      invariant forall f :: f in r <==> f in props || (f !in left && Declares(t, f))
      invariant forall f | f in props :: r[f] == props[f]
      invariant forall f | f in r && f !in props :: f in t.properties && r[f] == t.properties[f]
      decreases left
    {
      var f :| f in left;
      if f !in r && t.properties[f].Info? {
        r := r[f := t.properties[f]];
      }
      left := left - {f};
    }
  }

  method AddDefaults(defaults: map<string, string>, t: Tool) returns (r: map<string, string>)
    ensures forall f :: f in r <==> f in defaults || f in t.defaults
    ensures forall f | f in r :: r[f] == if f in defaults then defaults[f] else t.defaults[f]
  {
    r := defaults;
    var left := t.defaults.Keys;
    while left != {}
      invariant left <= t.defaults.Keys
      invariant forall f :: f in r <==> f in defaults || (f in t.defaults && f !in left)
      invariant forall f | f in r :: r[f] == if f in defaults then defaults[f] else t.defaults[f]
      decreases left
    {
      var f :| f in left;
      if f !in r {
        r := r[f := t.defaults[f]];
      }
      left := left - {f};
    }
  }

  method MergeSchemas(tools: seq<Tool>)
    returns (props: map<string, Property>, required: seq<string>, defaults: map<string, string>)
    ensures forall f :: (if f in props then Some(props[f]) else None) == FirstProperty(tools, f)
    ensures required == AllRequired(tools) && ByFirstMention(required, Mentions(tools))
    ensures forall f :: (if f in defaults then Some(defaults[f]) else None) == FirstDefault(tools, f)
  {
    props, required, defaults := map[], [], map[];
    for i := 0 to |tools|
      invariant forall f :: (if f in props then Some(props[f]) else None) == FirstProperty(tools[..i], f)
      invariant required == AllRequired(tools[..i])
      invariant forall f :: (if f in defaults then Some(defaults[f]) else None) == FirstDefault(tools[..i], f)
    {
      assert tools[..i + 1][..i] == tools[..i];
      props := AddProperties(props, tools[i]);
      required := AddRequired(required, tools[i].required);
      defaults := AddDefaults(defaults, tools[i]);
    }
    assert tools[..|tools|] == tools;
    RequiredByFirstMention(tools);
  }

  /** Tool `i` is the first with something to give. */
  ghost predicate FirstGiver<T>(tools: seq<Tool>, given: Tool -> Option<T>, i: int) {
    0 <= i < |tools| && given(tools[i]).Some? && forall j | 0 <= j < i :: given(tools[j]).None?
  }

  /** The first tool with something to give is the one whose value is taken. */
  lemma {:induction false} FirstGivenIs<T>(tools: seq<Tool>, given: Tool -> Option<T>)
    ensures FirstGiven(tools, given).None? <==> forall t | t in tools :: given(t).None?
    ensures FirstGiven(tools, given).Some? ==>
              exists i :: FirstGiver(tools, given, i) && FirstGiven(tools, given) == given(tools[i])
  {
    if tools != [] {
      var n := |tools| - 1;
      var front := tools[..n];
      FirstGivenIs(front, given);
      assert tools == front + [tools[n]];
      if FirstGiven(front, given).Some? {
        var i :| FirstGiver(front, given, i) && FirstGiven(front, given) == given(front[i]);
        assert FirstGiver(tools, given, i);
      } else {
        assert forall j | 0 <= j < n :: tools[j] in front;
        assert given(tools[n]).Some? ==> FirstGiver(tools, given, n);
      }
    }
  }

  lemma GroupIsSorted(tools: seq<Tool>, g: Group, t: Tool)
    requires g in Grouped(tools) && t in g.tools
    ensures Sorted(g.tools, ByName)
  {
    MemberOfItsGroup(tools, g, t);
    OrdersAreTotal();
    SortSorted(Members(tools, Key(t)), ByName);
  }

  /** In a group the value taken is that of the tool first in name order that has one. */
  lemma FirstGivenByName<T>(tools: seq<Tool>, g: Group, given: Tool -> Option<T>) returns (t: Tool)
    requires g in Grouped(tools) && FirstGiven(g.tools, given).Some?
    ensures t in g.tools && given(t) == FirstGiven(g.tools, given)
    ensures forall u | u in g.tools && given(u).Some? :: AtMost(t.name, u.name)
  {
    FirstGivenIs(g.tools, given);
    var i :| FirstGiver(g.tools, given, i) && FirstGiven(g.tools, given) == given(g.tools[i]);
    t := g.tools[i];
    GroupIsSorted(tools, g, t);
    FirstGiverLeads(g.tools, given, i);
  }

  lemma FirstGiverLeads<T>(tools: seq<Tool>, given: Tool -> Option<T>, i: int)
    requires Sorted(tools, ByName) && FirstGiver(tools, given, i)
    ensures forall u | u in tools && given(u).Some? :: AtMost(tools[i].name, u.name)
  {
    forall u | u in tools && given(u).Some?
      ensures AtMost(tools[i].name, u.name)
    {
      var j :| 0 <= j < |tools| && tools[j] == u;
      AtMostTotal(u.name, u.name);
      assert i < j ==> ByName(tools[i], tools[j]);
    }
  }

  /**
   * Within a family the property that wins is that of the tool first in name
   * order that declares the field, whatever order the tools were discovered in.
   */
  lemma FirstByNameWins(tools: seq<Tool>, g: Group, field: string)
    requires g in Grouped(tools)
    ensures FirstProperty(g.tools, field).None? <==>
              forall t | t in g.tools :: !(field in t.properties && t.properties[field].Info?)
    ensures FirstProperty(g.tools, field).Some? ==>
              exists t :: t in g.tools && field in t.properties && t.properties[field].Info?
                && t.properties[field] == FirstProperty(g.tools, field).value
                && forall u | u in g.tools && field in u.properties && u.properties[field].Info? :: AtMost(t.name, u.name)
  {
    var given := (t: Tool) => PropertyOf(t, field);
    FirstGivenIs(g.tools, given);
    if FirstProperty(g.tools, field).Some? {
      var t := FirstGivenByName(tools, g, given);
      assert forall u :: Declares(u, field) ==> given(u).Some?;
    }
  }

  /** And so it is for the defaults. */
  lemma FirstDefaultByNameWins(tools: seq<Tool>, g: Group, field: string)
    requires g in Grouped(tools)
    ensures FirstDefault(g.tools, field).None? <==> forall t | t in g.tools :: field !in t.defaults
    ensures FirstDefault(g.tools, field).Some? ==>
              exists t :: t in g.tools && field in t.defaults
                && t.defaults[field] == FirstDefault(g.tools, field).value
                && forall u | u in g.tools && field in u.defaults :: AtMost(t.name, u.name)
  {
    var given := (t: Tool) => DefaultOf(t, field);
    FirstGivenIs(g.tools, given);
    if FirstDefault(g.tools, field).Some? {
      var t := FirstGivenByName(tools, g, given);
      assert forall u: Tool :: field in u.defaults ==> given(u).Some?;
    }
  }
}
