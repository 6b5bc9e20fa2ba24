/**
 * The two-pane selector of the admin console (`admin_console/widgets/shuttle.py`):
 * items move between an available and an assigned pane, alone, as a
 * multi-selection tracked by value, or all at once.
 */
module Shuttle {
  import opened Prelude
  import opened Sorting
  import opened Text

  datatype Item = Item(caption: string, value: string)

  datatype Panes = Panes(
    availableItems: seq<Item>,
    assignedItems: seq<Item>,
    selAvailable: set<string>,
    selAssigned: set<string>)

  datatype Pane = Available | Assigned

  datatype Button = MoveRight | MoveLeft | AllRight | AllLeft | OtherButton

  datatype Key = RightArrow | LeftArrow | Space | ShiftDown | ShiftUp | OtherKey

  /** `index` is the highlighted row of the pane concerned, if any. */
  datatype Event =
    | Pressed(button: Button, index: Option<int>)
    | Entered(pane: Pane, index: Option<int>)
    | Typed(pane: Pane, key: Key, index: Option<int>)

  // ---------------------------------------------------------- display order

  predicate ByLabel(a: Item, b: Item) { AtMost(a.caption, b.caption) }

  /** The value shown at a row; the panes are displayed by label. */
  function ValueAt(items: seq<Item>, index: Option<int>): (r: Option<string>)
    ensures r.Some? ==> r.value in Values(items)
  {
    var shown := StableSort(items, ByLabel);
    if index.Some? && 0 <= index.value < |shown| then
      assert shown[index.value] in multiset(shown);
      Some(shown[index.value].value)
    else None
  }

  function Values(items: seq<Item>): set<string> {
    set i | i in items :: i.value
  }

  // ---------------------------------------------------------------- moving

  function Chosen(items: seq<Item>, values: set<string>): seq<Item> {
    Filter(items, (i: Item) => i.value in values)
  }

  function Others(items: seq<Item>, values: set<string>): seq<Item> {
    Filter(items, (i: Item) => i.value !in values)
  }

  /** `list.remove(x)`: drops the first element equal to `x`. */
  function Remove(s: seq<Item>, x: Item): seq<Item>
    requires x in s
  {
    if s[0] == x then s[1..] else [s[0]] + Remove(s[1..], x)
  }

  lemma {:induction false} RemoveFirstChosen(s: seq<Item>, values: set<string>, x: Item)
    requires Chosen(s, values) != [] && Chosen(s, values)[0] == x
    ensures x in s && Chosen(Remove(s, x), values) == Chosen(s, values)[1..]
    ensures Others(Remove(s, x), values) == Others(s, values)
  {
    assert x in Chosen(s, values);
    if s[0].value !in values {
      RemoveFirstChosen(s[1..], values, x);
      var rest := Remove(s[1..], x);
      assert Remove(s, x) == [s[0]] + rest;
      assert Remove(s, x)[1..] == rest;
    }
  }

  lemma {:induction false} NoneChosen(s: seq<Item>, values: set<string>)
    requires Chosen(s, values) == []
    ensures Others(s, values) == s
  {
    if s != [] {
      assert s[0].value !in values;
      NoneChosen(s[1..], values);
      assert s == [s[0]] + s[1..];
    }
  }

  /** All items with one of the values go to the end of the other list, in order. */
  method MoveByValues(source: seq<Item>, dest: seq<Item>, values: set<string>)
    returns (source': seq<Item>, dest': seq<Item>)
    ensures source' == Others(source, values) && dest' == dest + Chosen(source, values)
  {
    var toMove := Chosen(source, values);
    source', dest' := source, dest;
    for k := 0 to |toMove|
      invariant Chosen(source', values) == toMove[k..] && Others(source', values) == Others(source, values)
      invariant dest' == dest + toMove[..k]
    {
      RemoveFirstChosen(source', values, toMove[k]);
      source' := Remove(source', toMove[k]);
      dest' := dest' + [toMove[k]];
    }
    NoneChosen(source', values);
  }

  // ------------------------------------------------------- state and events

  function Source(s: Panes, pane: Pane): seq<Item> {
    if pane.Available? then s.availableItems else s.assignedItems
  }

  function Selection(s: Panes, pane: Pane): set<string> {
    if pane.Available? then s.selAvailable else s.selAssigned
  }

  function WithSelection(s: Panes, pane: Pane, sel: set<string>): Panes {
    if pane.Available? then s.(selAvailable := sel) else s.(selAssigned := sel)
  }

  /** Items move out of `pane`; its selection is used up. */
  function MoveOut(s: Panes, pane: Pane, values: set<string>): Panes {
    if pane.Available? then
      Panes(Others(s.availableItems, values), s.assignedItems + Chosen(s.availableItems, values), {}, s.selAssigned)
    else
      Panes(s.availableItems + Chosen(s.assignedItems, values), Others(s.assignedItems, values), s.selAvailable, {})
  }

  /** What a button moves: the selection, or else the highlighted item. */
  function MovePane(s: Panes, pane: Pane, index: Option<int>): Panes {
    if Selection(s, pane) != {} then MoveOut(s, pane, Selection(s, pane))
    else
      match ValueAt(Source(s, pane), index)
      case Some(v) => MoveOut(s, pane, {v})
      case None => s
  }

  /** Enter and the arrow keys do nothing without a highlighted item. */
  function MoveHighlighted(s: Panes, pane: Pane, index: Option<int>): Panes {
    match ValueAt(Source(s, pane), index)
    case None => s
    case Some(v) => MoveOut(s, pane, if Selection(s, pane) != {} then Selection(s, pane) else {v})
  }

  function Toggle(sel: set<string>, v: string): set<string> {
    if v in sel then sel - {v} else sel + {v}
  }

  /** The row a shifted arrow leads to. */
  function NextRow(key: Key, index: Option<int>, rows: nat): Option<int> {
    var i := if index.Some? then index.value else 0;
    if key == ShiftDown && i < rows - 1 then Some(i + 1)
    else if key == ShiftUp && i > 0 then Some(i - 1)
    else index
  }

  function AddIfAny(sel: set<string>, v: Option<string>): set<string> {
    if v.Some? then sel + {v.value} else sel
  }

  /** The arrow that leads out of the pane. */
  predicate Outward(pane: Pane, key: Key) {
    (key == RightArrow && pane == Available) || (key == LeftArrow && pane == Assigned)
  }

  /** The selection after a key that moves nothing. */
  function Selected(s: Panes, pane: Pane, key: Key, index: Option<int>): set<string> {
    var items, sel := Source(s, pane), Selection(s, pane);
    var here := ValueAt(items, index);
    if key == Space then (if here.Some? then Toggle(sel, here.value) else sel)
    else if key == ShiftDown || key == ShiftUp then
      AddIfAny(AddIfAny(sel, here), ValueAt(items, NextRow(key, index, |items|)))
    else sel
  }

  function Step(s: Panes, event: Event): Panes {
    match event
    case Pressed(button, index) =>
      (match button
       case MoveRight => MovePane(s, Available, index)
       case MoveLeft => MovePane(s, Assigned, index)
       case AllRight => Panes([], s.assignedItems + s.availableItems, {}, s.selAssigned)
       case AllLeft => Panes(s.availableItems + s.assignedItems, [], s.selAvailable, {})
       case OtherButton => s)
    case Entered(pane, index) => MoveHighlighted(s, pane, index)
    case Typed(pane, key, index) =>
      if Outward(pane, key) then MoveHighlighted(s, pane, index)
      else WithSelection(s, pane, Selected(s, pane, key, index))
  }

  // ------------------------------------------------------------ the widget

  class ShuttleWidget {
    var availableItems: seq<Item>
    var assignedItems: seq<Item>
    var selAvailable: set<string>
    var selAssigned: set<string>

    function State(): Panes reads this { Panes(availableItems, assignedItems, selAvailable, selAssigned) }

    constructor (availableItems: seq<Item>, assignedItems: seq<Item>)
      ensures State() == Panes(availableItems, assignedItems, {}, {})
    {
      this.availableItems, this.assignedItems := availableItems, assignedItems;
      selAvailable, selAssigned := {}, {};
    }

    method SetItems(availableItems: seq<Item>, assignedItems: seq<Item>)
      modifies this
      ensures State() == Panes(availableItems, assignedItems, {}, {})
    {
      this.availableItems, this.assignedItems := availableItems, assignedItems;
      selAvailable, selAssigned := {}, {};
    }

    method MoveFrom(pane: Pane, values: set<string>)
      modifies this
      ensures State() == MoveOut(old(State()), pane, values)
    {
      if pane.Available? {
        availableItems, assignedItems := MoveByValues(availableItems, assignedItems, values);
        selAvailable := {};
      } else {
        assignedItems, availableItems := MoveByValues(assignedItems, availableItems, values);
        selAssigned := {};
      }
    }

    method OnButtonPressed(button: Button, index: Option<int>)
      modifies this
      ensures State() == Step(old(State()), Pressed(button, index))
    {
      match button {
        case MoveRight => ButtonMove(Available, index);
        case MoveLeft => ButtonMove(Assigned, index);
        case AllRight =>
          assignedItems := assignedItems + availableItems;
          availableItems, selAvailable := [], {};
        case AllLeft =>
          availableItems := availableItems + assignedItems;
          assignedItems, selAssigned := [], {};
        case OtherButton =>
      }
    }

    method ButtonMove(pane: Pane, index: Option<int>)
      modifies this
      ensures State() == MovePane(old(State()), pane, index)
    {
      var sel := Selection(State(), pane);
      if sel != {} {
        MoveFrom(pane, sel);
      } else {
        var current := ValueAt(Source(State(), pane), index);
        if current.Some? {
          MoveFrom(pane, {current.value});
        }
      }
    }

    method OnListViewSelected(pane: Pane, index: Option<int>)
      modifies this
      ensures State() == Step(old(State()), Entered(pane, index))
    {
      MoveIfHighlighted(pane, index);
    }

    method SetSelection(pane: Pane, sel: set<string>)
      modifies this
      ensures State() == WithSelection(old(State()), pane, sel)
    {
      if pane.Available? {
        selAvailable := sel;
      } else {
        selAssigned := sel;
      }
    }

    method OnKey(pane: Pane, key: Key, index: Option<int>)
      modifies this
      ensures State() == Step(old(State()), Typed(pane, key, index))
    {
      if Outward(pane, key) {
        MoveIfHighlighted(pane, index);
      } else {
        SelectByKey(pane, key, index);
      }
    }

    method SelectByKey(pane: Pane, key: Key, index: Option<int>)
      modifies this
      ensures State() == WithSelection(old(State()), pane, Selected(old(State()), pane, key, index))
    {
      var source, sel := Source(State(), pane), Selection(State(), pane);
      var current := ValueAt(source, index);
      if key == Space {
        if current.Some? {
          sel := if current.value in sel then sel - {current.value} else sel + {current.value};
        }
      } else if key == ShiftDown || key == ShiftUp {
        if current.Some? {
          sel := sel + {current.value};
        }
        var next := ValueAt(source, NextRow(key, index, |source|));
        if next.Some? {
          sel := sel + {next.value};
        }
      }
      SetSelection(pane, sel);
    }

    method MoveIfHighlighted(pane: Pane, index: Option<int>)
      modifies this
      ensures State() == MoveHighlighted(old(State()), pane, index)
    {
      var current := ValueAt(Source(State(), pane), index);
      if current.Some? {
        var sel := Selection(State(), pane);
        MoveFrom(pane, if sel != {} then sel else {current.value});
      }
    }
  }

  // ------------------------------------------------- what an event does, outright

  /** The rows of a pane: its items in dictionary order of their captions, and otherwise in the order they have. */
  ghost predicate Rows(items: seq<Item>, rows: seq<Item>) {
    && multiset(rows) == multiset(items)
    && (forall i, j | 0 <= i < j < |rows| :: AtMost(rows[i].caption, rows[j].caption))
    && (forall c :: Captioned(rows, c) == Captioned(items, c))
  }

  function Captioned(items: seq<Item>, c: string): seq<Item> {
    Filter(items, (i: Item) => i.caption == c)
  }

  /** A row shows the value of the item that stands there, and there is nothing outside the rows. */
  lemma ValueAtOutright(items: seq<Item>) returns (rows: seq<Item>)
    ensures Rows(items, rows) && |rows| == |items|
    ensures forall i | 0 <= i < |rows| :: ValueAt(items, Some(i)) == Some(rows[i].value)
    ensures ValueAt(items, None) == None && forall i | i < 0 || i >= |rows| :: ValueAt(items, Some(i)) == None
  {
    rows := StableSort(items, ByLabel);
    forall a: Item, b: Item, c: Item | ByLabel(a, b) && ByLabel(b, c)
      ensures ByLabel(a, c)
    {
      AtMostTransitive(a.caption, b.caption, c.caption);
    }
    forall a: Item, b: Item
      ensures ByLabel(a, b) || ByLabel(b, a)
    {
      AtMostTotal(a.caption, b.caption);
    }
    SortSorted(items, ByLabel);
    forall i, j | 0 <= i < j < |rows|
      ensures AtMost(rows[i].caption, rows[j].caption)
    {
      assert ByLabel(rows[i], rows[j]);
    }
    forall c
      ensures Captioned(rows, c) == Captioned(items, c)
    {
      var z := Item(c, "");
      SortStable(items, z, ByLabel);
      forall a: Item
        ensures a.caption == c <==> ByLabel(a, z) && ByLabel(z, a)
      {
        AtMostTotal(a.caption, c);
      }
      TiesAre(rows, z, ByLabel, (i: Item) => i.caption == c);
      TiesAre(items, z, ByLabel, (i: Item) => i.caption == c);
    }
  }

  /** The items with one of the values leave the pane, in order, for the end of the other; its selection is used up. */
  ghost predicate MovedOut(s: Panes, s': Panes, pane: Pane, values: set<string>) {
    match pane
    case Available =>
      && s'.availableItems == Filter(s.availableItems, (i: Item) => i.value !in values)
      && s'.assignedItems == s.assignedItems + Filter(s.availableItems, (i: Item) => i.value in values)
      && s'.selAvailable == {} && s'.selAssigned == s.selAssigned
    case Assigned =>
      && s'.assignedItems == Filter(s.assignedItems, (i: Item) => i.value !in values)
      && s'.availableItems == s.availableItems + Filter(s.assignedItems, (i: Item) => i.value in values)
      && s'.selAssigned == {} && s'.selAvailable == s.selAvailable
  }

  /** The highlighted value moves, or the selection in its place; with neither, nothing does. */
  ghost predicate MovesOneOrSelected(s: Panes, s': Panes, pane: Pane, here: Option<string>) {
    var sel := if pane == Available then s.selAvailable else s.selAssigned;
    if sel != {} then MovedOut(s, s', pane, sel)
    else if here.Some? then MovedOut(s, s', pane, {here.value})
    else s' == s
  }

  lemma MoveOutIs(s: Panes, pane: Pane, values: set<string>)
    ensures MovedOut(s, MoveOut(s, pane, values), pane, values)
  {
    var items := if pane == Available then s.availableItems else s.assignedItems;
    FilterSame(Source(s, pane), (i: Item) => i.value in values, (i: Item) => i.value in values);
    assert Chosen(items, values) == Filter(items, (i: Item) => i.value in values);
    assert Others(items, values) == Filter(items, (i: Item) => i.value !in values);
  }

  lemma MovePaneIs(s: Panes, pane: Pane, index: Option<int>)
    ensures MovesOneOrSelected(s, MovePane(s, pane, index), pane, ValueAt(Source(s, pane), index))
    ensures ValueAt(Source(s, pane), index).Some? ==> MoveHighlighted(s, pane, index) == MovePane(s, pane, index)
    ensures ValueAt(Source(s, pane), index).None? ==> MoveHighlighted(s, pane, index) == s
  {
    var here := ValueAt(Source(s, pane), index);
    MoveOutIs(s, pane, Selection(s, pane));
    if here.Some? {
      MoveOutIs(s, pane, {here.value});
    }
  }

  /** The two single arrows. */
  lemma MoveRightOutright(s: Panes, index: Option<int>)
    ensures MovesOneOrSelected(s, Step(s, Pressed(MoveRight, index)), Available, ValueAt(s.availableItems, index))
  {
    MovePaneIs(s, Available, index);
    assert Source(s, Available) == s.availableItems;
  }

  lemma MoveLeftOutright(s: Panes, index: Option<int>)
    ensures MovesOneOrSelected(s, Step(s, Pressed(MoveLeft, index)), Assigned, ValueAt(s.assignedItems, index))
  {
    MovePaneIs(s, Assigned, index);
    assert Source(s, Assigned) == s.assignedItems;
  }

  /** The two double arrows, and any other button. */
  lemma AllButtonsOutright(s: Panes, index: Option<int>)
    ensures Step(s, Pressed(AllRight, index))
         == s.(availableItems := [], assignedItems := s.assignedItems + s.availableItems, selAvailable := {})
    ensures Step(s, Pressed(AllLeft, index))
         == s.(assignedItems := [], availableItems := s.availableItems + s.assignedItems, selAssigned := {})
    ensures Step(s, Pressed(OtherButton, index)) == s
  {}

  /** Enter, and the arrow that points to the other pane, move only if a row is highlighted. */
  lemma EnteredOutright(s: Panes, pane: Pane, index: Option<int>)
    ensures var here := ValueAt(if pane == Available then s.availableItems else s.assignedItems, index);
            var s' := Step(s, Entered(pane, index));
            && (here.None? ==> s' == s) && (here.Some? ==> MovesOneOrSelected(s, s', pane, here))
  {
    MovePaneIs(s, pane, index);
    assert Source(s, pane) == if pane == Available then s.availableItems else s.assignedItems;
  }

  lemma OutwardArrow(s: Panes, pane: Pane, key: Key, index: Option<int>)
    requires key == if pane == Available then RightArrow else LeftArrow
    ensures Step(s, Typed(pane, key, index)) == Step(s, Entered(pane, index))
  {
    assert Outward(pane, key);
  }

  lemma OtherKeysDoNothing(s: Panes, pane: Pane, key: Key, index: Option<int>)
    requires key == OtherKey || key == if pane == Available then LeftArrow else RightArrow
    ensures Step(s, Typed(pane, key, index)) == s
  {
    assert !Outward(pane, key);
    assert Selected(s, pane, key, index) == Selection(s, pane);
  }

  ghost function OneOrNone(v: Option<string>): set<string> {
    if v.Some? then {v.value} else {}
  }

  /** Space adds the highlighted value to the selection, or removes it if it is there. */
  lemma SpaceOutright(s: Panes, pane: Pane, index: Option<int>)
    ensures var items := if pane == Available then s.availableItems else s.assignedItems;
            var sel := if pane == Available then s.selAvailable else s.selAssigned;
            var here := OneOrNone(ValueAt(items, index));
            Step(s, Typed(pane, Space, index)) == WithSel(s, pane, (sel - here) + (here - sel))
  {
    var items, sel := Source(s, pane), Selection(s, pane);
    var here := OneOrNone(ValueAt(items, index));
    assert Selected(s, pane, Space, index) == (sel - here) + (here - sel);
  }

  lemma ShiftAddsBoth(s: Panes, pane: Pane, key: Key, index: Option<int>, here: Option<string>, next: Option<string>)
    requires key == ShiftDown || key == ShiftUp
    requires here == ValueAt(Source(s, pane), index)
    requires next == ValueAt(Source(s, pane), NextRow(key, index, |Source(s, pane)|))
    ensures Step(s, Typed(pane, key, index)) == WithSel(s, pane, Selection(s, pane) + OneOrNone(here) + OneOrNone(next))
  {
    AddIs(Selection(s, pane), here);
    AddIs(Selection(s, pane) + OneOrNone(here), next);
    assert !Outward(pane, key);
  }

  /** A shifted arrow adds the highlighted value and that of the row it leads to. */
  lemma ShiftOutright(s: Panes, pane: Pane, index: Option<int>, down: bool, to: Option<int>)
    requires var items, i := if pane == Available then s.availableItems else s.assignedItems, if index.Some? then index.value else 0;
             to == if down && i < |items| - 1 then Some(i + 1) else if !down && i > 0 then Some(i - 1) else index
    ensures var items := if pane == Available then s.availableItems else s.assignedItems;
            var sel := if pane == Available then s.selAvailable else s.selAssigned;
            Step(s, Typed(pane, if down then ShiftDown else ShiftUp, index))
            == WithSel(s, pane, sel + OneOrNone(ValueAt(items, index)) + OneOrNone(ValueAt(items, to)))
  {
    var key := if down then ShiftDown else ShiftUp;
    assert NextRow(key, index, |Source(s, pane)|) == to;
    ShiftAddsBoth(s, pane, key, index, ValueAt(Source(s, pane), index), ValueAt(Source(s, pane), to));
  }

  lemma AddIs(sel: set<string>, v: Option<string>)
    ensures AddIfAny(sel, v) == sel + OneOrNone(v)
  {}

  ghost function WithSel(s: Panes, pane: Pane, sel: set<string>): Panes {
    if pane == Available then Panes(s.availableItems, s.assignedItems, sel, s.selAssigned)
    else Panes(s.availableItems, s.assignedItems, s.selAvailable, sel)
  }

  // -------------------------------------------------------------- invariants

  function AllItems(s: Panes): multiset<Item> { multiset(s.availableItems) + multiset(s.assignedItems) }

  predicate PanesDisjoint(s: Panes) { Values(s.availableItems) !! Values(s.assignedItems) }

  predicate SelectionsInside(s: Panes) {
    s.selAvailable <= Values(s.availableItems) && s.selAssigned <= Values(s.assignedItems)
  }

  lemma SplitKeepsItems(items: seq<Item>, values: set<string>)
    ensures multiset(Chosen(items, values)) + multiset(Others(items, values)) == multiset(items)
  {
    forall x
      ensures multiset(Chosen(items, values))[x] + multiset(Others(items, values))[x] == multiset(items)[x]
    {
      FilterCount(items, (i: Item) => i.value in values, x);
      FilterCount(items, (i: Item) => i.value !in values, x);
    }
  }

  /** Items are conserved, the panes stay apart, and selections stay in their panes. */
  ghost predicate Keeps(s: Panes, s': Panes) {
    && AllItems(s') == AllItems(s)
    && (PanesDisjoint(s) ==> PanesDisjoint(s'))
    && (SelectionsInside(s) ==> SelectionsInside(s'))
  }

  lemma ApartAfterMove(source: seq<Item>, dest: seq<Item>, values: set<string>)
    requires Values(source) !! Values(dest)
    ensures Values(Others(source, values)) !! Values(dest + Chosen(source, values))
  {
    forall v | v in Values(Others(source, values))
      ensures v !in Values(dest + Chosen(source, values))
    {
      assert v in Values(source) && v !in values;
    }
  }

  lemma ValuesGrow(dest: seq<Item>, more: seq<Item>)
    ensures Values(dest) <= Values(dest + more)
  {
    assert forall i | i in dest :: i in dest + more;
  }

  lemma MoveOutKeeps(s: Panes, pane: Pane, values: set<string>)
    ensures Keeps(s, MoveOut(s, pane, values))
  {
    var source, dest := Source(s, pane), Source(s, if pane.Available? then Assigned else Available);
    SplitKeepsItems(source, values);
    ValuesGrow(dest, Chosen(source, values));
    if PanesDisjoint(s) {
      ApartAfterMove(source, dest, values);
    }
  }

  lemma ButtonKeeps(s: Panes, pane: Pane, index: Option<int>)
    ensures Keeps(s, MovePane(s, pane, index)) && Keeps(s, MoveHighlighted(s, pane, index))
  {
    MoveOutKeeps(s, pane, Selection(s, pane));
    match ValueAt(Source(s, pane), index)
    case Some(v) => MoveOutKeeps(s, pane, {v});
    case None =>
  }

  lemma AllMovedKeeps(s: Panes)
    ensures Keeps(s, Step(s, Pressed(AllRight, None))) && Keeps(s, Step(s, Pressed(AllLeft, None)))
  {
    ValuesGrow(s.assignedItems, s.availableItems);
    ValuesGrow(s.availableItems, s.assignedItems);
  }

  lemma SelectingKeeps(s: Panes, pane: Pane, sel: set<string>)
    requires Selection(s, pane) <= Values(Source(s, pane)) ==> sel <= Values(Source(s, pane))
    ensures Keeps(s, WithSelection(s, pane, sel))
  {}

  lemma SelectedInside(s: Panes, pane: Pane, key: Key, index: Option<int>)
    requires Selection(s, pane) <= Values(Source(s, pane))
    ensures Selected(s, pane, key, index) <= Values(Source(s, pane))
  {}

  lemma PressedKeeps(s: Panes, button: Button, index: Option<int>)
    ensures Keeps(s, Step(s, Pressed(button, index)))
  {
    match button
    case MoveRight => ButtonKeeps(s, Available, index);
    case MoveLeft => ButtonKeeps(s, Assigned, index);
    case AllRight => AllMovedKeeps(s);
    case AllLeft => AllMovedKeeps(s);
    case OtherButton =>
  }

  lemma TypedKeeps(s: Panes, pane: Pane, key: Key, index: Option<int>)
    ensures Keeps(s, Step(s, Typed(pane, key, index)))
  {
    if Outward(pane, key) {
      ButtonKeeps(s, pane, index);
    } else {
      if Selection(s, pane) <= Values(Source(s, pane)) {
        SelectedInside(s, pane, key, index);
      }
      SelectingKeeps(s, pane, Selected(s, pane, key, index));
    }
  }

  /** One event keeps the items, keeps the panes apart and the selections in their panes. */
  lemma StepKeeps(s: Panes, event: Event)
    ensures Keeps(s, Step(s, event))
  {
    match event
    case Pressed(button, index) => PressedKeeps(s, button, index);
    case Entered(pane, index) => ButtonKeeps(s, pane, index);
    case Typed(pane, key, index) => TypedKeeps(s, pane, key, index);
  }

  function Run(s: Panes, events: seq<Event>): Panes
    decreases |events|
  {
    if events == [] then s else Run(Step(s, events[0]), events[1..])
  }

  /** The same over any session of events. */
  lemma {:induction false} RunKeeps(s: Panes, events: seq<Event>)
    ensures Keeps(s, Run(s, events))
    decreases |events|
  {
    if events != [] {
      StepKeeps(s, events[0]);
      RunKeeps(Step(s, events[0]), events[1..]);
    }
  }

  /** What is assigned in the end is what was assigned or available at the start. */
  lemma AssignedComesFromTheStart(availableItems: seq<Item>, assignedItems: seq<Item>, events: seq<Event>)
    requires Values(availableItems) !! Values(assignedItems)
    ensures var s := Run(Panes(availableItems, assignedItems, {}, {}), events);
            && Values(s.availableItems) + Values(s.assignedItems) == Values(availableItems) + Values(assignedItems)
            && Values(s.availableItems) !! Values(s.assignedItems)
            && s.selAvailable <= Values(s.availableItems) && s.selAssigned <= Values(s.assignedItems)
  {
    var start := Panes(availableItems, assignedItems, {}, {});
    RunKeeps(start, events);
    ValuesOfAll(start);
    ValuesOfAll(Run(start, events));
  }

  lemma ValuesOfAll(s: Panes)
    ensures Values(s.availableItems) + Values(s.assignedItems) == set i | i in AllItems(s) :: i.value
  {
    forall i | i in AllItems(s)
      ensures i in s.availableItems || i in s.assignedItems
    {}
  }

  /**
   * Moving values over and back. The assigned pane is as it was exactly when
   * none of its own items has one of the values, and then the available pane
   * has its items again, with the moved ones now last.
   */
  lemma MoveThereAndBack(s: Panes, values: set<string>)
    ensures var back := MoveOut(MoveOut(s, Available, values), Assigned, values);
            && (back.assignedItems == s.assignedItems <==> values !! Values(s.assignedItems))
            && (values !! Values(s.assignedItems) ==>
                  && back.availableItems == Others(s.availableItems, values) + Chosen(s.availableItems, values)
                  && multiset(back.availableItems) == multiset(s.availableItems))
  {
    JoinedBySplit(s.assignedItems, s.availableItems, values);
    Untouched(s.assignedItems, values);
    SplitKeepsItems(s.availableItems, values);
  }

  /** What the second move finds in the pane that the first one extended. */
  lemma JoinedBySplit(items: seq<Item>, from: seq<Item>, values: set<string>)
    ensures var extended := items + Chosen(from, values);
            && Others(extended, values) == Others(items, values)
            && Chosen(extended, values) == Chosen(items, values) + Chosen(from, values)
  {
    var moved := Chosen(from, values);
    AllChosen(moved, values);
    FilterConcat(items, moved, (i: Item) => i.value in values);
    FilterConcat(items, moved, (i: Item) => i.value !in values);
    FilterNone(moved, (i: Item) => i.value !in values);
  }

  lemma Untouched(items: seq<Item>, values: set<string>)
    ensures Others(items, values) == items <==> values !! Values(items)
    ensures values !! Values(items) ==> Chosen(items, values) == []
  {
    if values !! Values(items) {
      FilterNone(items, (i: Item) => i.value in values);
      NoneChosen(items, values);
    } else {
      var i :| i in items && i.value in values;
      assert i !in Others(items, values);
    }
  }

  lemma {:induction false} AllChosen(s: seq<Item>, values: set<string>)
    requires forall i | i in s :: i.value in values
    ensures Chosen(s, values) == s
  {
    if s != [] {
      assert s[0] in s;
      AllChosen(s[1..], values);
    }
  }
}
