// Resolving extension menus and tidying their separators (crates/key-extension-gpui/src/menu.rs).
module Menu {
  import opened Options

  datatype BooleanSource = Constant(value: bool) | Binding(path: string)

  type StateMap = map<string, bool>

  /** A binding counts as true only when the state holds a true boolean there. */
  predicate ResolveBoolean(source: BooleanSource, state: StateMap) {
    match source
    case Constant(value) => value
    case Binding(path) => path in state && state[path]
  }

  datatype Action = Action(command: string, payload: Option<string>)

  datatype MenuItem = MenuItem(visible: BooleanSource, kind: Kind)
  datatype Kind =
    | CommandKind(caption: string, action: Action, enabled: BooleanSource, checked: Option<BooleanSource>)
    | SubmenuKind(caption: string, children: seq<MenuItem>)
    | SeparatorKind

  datatype Resolved =
    | Command(caption: string, action: Action, enabled: bool, checked: Option<bool>)
    | Submenu(caption: string, children: seq<Resolved>)
    | Separator

  datatype Native =
    | NativeAction(caption: string, action: Action)
    | NativeMenu(caption: string, items: seq<Native>)
    | NativeSeparator

  // ---------- separators ----------

  predicate EndsInSeparator(items: seq<Resolved>) {
    items != [] && items[|items| - 1].Separator?
  }

  /** Nothing to tidy: no separator at either end and no two in a row. */
  predicate Tidy(items: seq<Resolved>) {
    && (items != [] ==> !items[0].Separator?) && !EndsInSeparator(items)
    && forall i :: 0 < i < |items| && items[i].Separator? ==> !items[i - 1].Separator?
  }

  function TrimFront(items: seq<Resolved>): seq<Resolved> {
    if items != [] && items[0].Separator? then TrimFront(items[1..]) else items
  }

  function TrimBack(items: seq<Resolved>): seq<Resolved> {
    if EndsInSeparator(items) then TrimBack(items[..|items| - 1]) else items
  }

  /** Drops a separator that follows a separator. */
  function Dedupe(items: seq<Resolved>): seq<Resolved> {
    if items == [] then []
    else
      var front, last := items[..|items| - 1], items[|items| - 1];
      if last.Separator? && EndsInSeparator(front) then Dedupe(front) else Dedupe(front) + [last]
  }

  function Normalize(items: seq<Resolved>): seq<Resolved> { Dedupe(TrimBack(TrimFront(items))) }

  method NormalizeSeparators(items0: seq<Resolved>) returns (items: seq<Resolved>)
    ensures items == Normalize(items0)
  {
    items := items0;
    while items != [] && items[0].Separator?
      invariant TrimFront(items) == TrimFront(items0)
    {
      items := items[1..];
    }
    while EndsInSeparator(items)
      invariant TrimBack(items) == TrimBack(TrimFront(items0))
      decreases |items|
    {
      items := items[..|items| - 1];
    }
    var kept, previousSeparator := [], false;
    for i := 0 to |items|
      invariant kept == Dedupe(items[..i]) && previousSeparator == EndsInSeparator(items[..i])
    {
      assert items[..i + 1][..i] == items[..i];
      var separator := items[i].Separator?;
      if !(separator && previousSeparator) {
        kept := kept + [items[i]];
      }
      previousSeparator := separator;
    }
    assert items[..|items|] == items;
    items := kept;
  }

  // ---------- what tidying means ----------

  /** The runs of items between separators, in order. */
  function Groups(items: seq<Resolved>): (groups: seq<seq<Resolved>>)
    ensures items != [] && !EndsInSeparator(items) ==> groups != []
  {
    if items == [] then []
    else
      var front, last := items[..|items| - 1], items[|items| - 1];
      var groups := Groups(front);
      if last.Separator? then groups
      else if front != [] && !EndsInSeparator(front) then groups[..|groups| - 1] + [groups[|groups| - 1] + [last]]
      else groups + [[last]]
  }

  /** One separator between neighbouring groups. */
  function Spread(groups: seq<seq<Resolved>>): seq<Resolved> {
    if groups == [] then []
    else if |groups| == 1 then groups[0]
    else Spread(groups[..|groups| - 1]) + ([Separator] + groups[|groups| - 1])
  }

  lemma GroupsAfter(front: seq<Resolved>, last: Resolved)
    ensures Groups(front + [last]) ==
      if last.Separator? then Groups(front)
      else if front != [] && !EndsInSeparator(front)
        then Groups(front)[..|Groups(front)| - 1] + [Groups(front)[|Groups(front)| - 1] + [last]]
      else Groups(front) + [[last]]
  {
    assert (front + [last])[..|front|] == front;
  }

  lemma SpreadNext(groups: seq<seq<Resolved>>, group: seq<Resolved>)
    ensures Spread(groups + [group]) == if groups == [] then group else Spread(groups) + ([Separator] + group)
  {
    assert (groups + [group])[..|groups|] == groups;
  }

  lemma SpreadLonger(front: seq<seq<Resolved>>, group: seq<Resolved>, last: Resolved)
    ensures Spread(front + [group + [last]]) == Spread(front + [group]) + [last]
  {
    hide Spread;
    SpreadNext(front, group);
    SpreadNext(front, group + [last]);
    if front != [] {
      assert Spread(front) + ([Separator] + (group + [last])) == (Spread(front) + ([Separator] + group)) + [last];
    }
  }

  /** A tidy list is its groups with one separator between them, so the groups determine it. */
  lemma {:induction false} TidyIsSpread(items: seq<Resolved>)
    requires Tidy(items)
    ensures Spread(Groups(items)) == items
    decreases |items|
  {
    hide Groups, Spread;
    NoGroups();
    if items != [] {
      var n := |items| - 1;
      var front, last := items[..n], items[n];
      assert items == front + [last];
      GroupsAfter(front, last);
      SpreadNext([], [last]);
      if front == [] {
        assert Groups(items) == [] + [[last]];
      } else if EndsInSeparator(front) {
        var before := front[..n - 1];
        assert front == before + [Separator] && Tidy(before);
        GroupsAfter(before, Separator);
        TidyIsSpread(before);
        SpreadNext(Groups(before), [last]);
        assert items == before + ([Separator] + [last]);
      } else {
        assert Tidy(front);
        TidyIsSpread(front);
        var groups := Groups(front);
        var k := |groups| - 1;
        assert groups == groups[..k] + [groups[k]];
        SpreadLonger(groups[..k], groups[k], last);
      }
    }
  }

  lemma TidyIsUnique(a: seq<Resolved>, b: seq<Resolved>)
    requires Tidy(a) && Tidy(b) && Groups(a) == Groups(b)
    ensures a == b
  {
    TidyIsSpread(a);
    TidyIsSpread(b);
  }

  lemma {:induction false} GroupsIgnoreFront(items: seq<Resolved>)
    ensures Groups([Separator] + items) == Groups(items)
    ensures EndsInSeparator([Separator] + items) == (items == [] || EndsInSeparator(items))
    decreases |items|
  {
    if items == [] {
      GroupsAfter([], Separator);
      assert [Separator] + items == [] + [Separator];
    } else {
      var front, last := items[..|items| - 1], items[|items| - 1];
      assert items == front + [last] && [Separator] + items == ([Separator] + front) + [last];
      GroupsIgnoreFront(front);
      GroupsAfter(front, last);
      GroupsAfter([Separator] + front, last);
    }
  }

  lemma {:induction false} TrimFrontTidies(items: seq<Resolved>)
    ensures var r := TrimFront(items); Groups(r) == Groups(items) && (r != [] ==> !r[0].Separator?)
  {
    if items != [] && items[0].Separator? {
      TrimFrontTidies(items[1..]);
      GroupsIgnoreFront(items[1..]);
      assert items == [Separator] + items[1..];
    }
  }

  lemma {:induction false} TrimBackTidies(items: seq<Resolved>)
    requires items != [] ==> !items[0].Separator?
    ensures var r := TrimBack(items);
      Groups(r) == Groups(items) && (r != [] ==> !r[0].Separator?) && !EndsInSeparator(r)
  {
    if EndsInSeparator(items) {
      TrimBackTidies(items[..|items| - 1]);
    }
  }

  lemma {:induction false} DedupeTidies(items: seq<Resolved>)
    ensures var r := Dedupe(items);
      && Groups(r) == Groups(items) && EndsInSeparator(r) == EndsInSeparator(items)
      && (items == [] <==> r == []) && (items != [] ==> r[0].Separator? == items[0].Separator?)
      && forall i :: 0 < i < |r| && r[i].Separator? ==> !r[i - 1].Separator?
  {
    hide Groups;
    if items != [] {
      var front, last := items[..|items| - 1], items[|items| - 1];
      assert items == front + [last];
      DedupeTidies(front);
      GroupsAfter(front, last);
      GroupsAfter(Dedupe(front), last);
    }
  }

  /** Tidying gives the one tidy list with the same groups of items. */
  lemma NormalizeTidies(items: seq<Resolved>)
    ensures Tidy(Normalize(items)) && Groups(Normalize(items)) == Groups(items)
    ensures Normalize(items) == Spread(Groups(items))
  {
    TrimFrontTidies(items);
    TrimBackTidies(TrimFront(items));
    DedupeTidies(TrimBack(TrimFront(items)));
    TidyIsSpread(Normalize(items));
  }

  /** A list is left alone exactly when it is tidy; so tidying twice is tidying once. */
  lemma NormalizeFixes(items: seq<Resolved>)
    ensures Normalize(items) == items <==> Tidy(items)
    ensures Normalize(Normalize(items)) == Normalize(items)
  {
    hide Normalize, Groups;
    NormalizeTidies(items);
    NormalizeTidies(Normalize(items));
    if Tidy(items) {
      TidyIsUnique(items, Normalize(items));
    }
    TidyIsUnique(Normalize(items), Normalize(Normalize(items)));
  }

  function Others(items: seq<Resolved>): seq<Resolved> {
    if items == [] then []
    else Others(items[..|items| - 1]) + (if EndsInSeparator(items) then [] else [items[|items| - 1]])
  }

  function Flat(groups: seq<seq<Resolved>>): seq<Resolved> {
    if groups == [] then [] else Flat(groups[..|groups| - 1]) + groups[|groups| - 1]
  }

  lemma {:induction false} OthersAreGrouped(items: seq<Resolved>)
    ensures Others(items) == Flat(Groups(items))
  {
    if items != [] {
      var front, last := items[..|items| - 1], items[|items| - 1];
      OthersAreGrouped(front);
      var groups := Groups(front);
      if !last.Separator? {
        if front != [] && !EndsInSeparator(front) {
          var n := |groups| - 1;
          assert (groups[..n] + [groups[n] + [last]])[..n] == groups[..n];
          assert Flat(groups) + [last] == Flat(groups[..n]) + (groups[n] + [last]);
        } else {
          assert (groups + [[last]])[..|groups|] == groups;
        }
      }
    }
  }

  /** Every other item stays, in order. */
  lemma NormalizeKeepsItems(items: seq<Resolved>)
    ensures Others(Normalize(items)) == Others(items)
  {
    hide Normalize, Groups;
    NormalizeTidies(items);
    OthersAreGrouped(items);
    OthersAreGrouped(Normalize(items));
  }

  /** Tidy lists in a row are tidy, so contributions that share a slot need no second pass. */
  lemma TidyListsJoin(a: seq<Resolved>, b: seq<Resolved>)
    requires Tidy(a) && Tidy(b)
    ensures Tidy(a + b) && Normalize(a + b) == a + b
  {
    hide Normalize;
    var c := a + b;
    assert forall i :: 0 < i < |c| && c[i].Separator? ==> !c[i - 1].Separator?;
    NormalizeFixes(c);
  }

  // ---------- growing a list item by item ----------

  lemma NormalizeAfterSeparator(items: seq<Resolved>)
    ensures Normalize(items + [Separator]) == Normalize(items)
  {
    hide Normalize, Groups, Tidy;
    NormalizeTidies(items);
    NormalizeTidies(items + [Separator]);
    GroupsAfter(items, Separator);
  }

  lemma NormalizeAfterItem(items: seq<Resolved>, item: Resolved)
    requires !item.Separator?
    ensures Normalize(items + [item]) ==
      if Normalize(items) != [] && EndsInSeparator(items) then Normalize(items) + [Separator] + [item]
      else Normalize(items) + [item]
  {
    hide Normalize, Groups;
    var tidy := Normalize(items);
    NormalizeTidies(items);
    NormalizeTidies(items + [item]);
    GroupsAfter(items, item);
    NoGroups();
    if tidy != [] && EndsInSeparator(items) {
      GroupsAfter(tidy, Separator);
      GroupsAfter(tidy + [Separator], item);
      TidyIsUnique(tidy + [Separator] + [item], Normalize(items + [item]));
    } else {
      GroupsAfter(tidy, item);
      TidyIsUnique(tidy + [item], Normalize(items + [item]));
    }
  }

  lemma NoGroups()
    ensures Groups([]) == [] && Spread([]) == []
  {
  }

  // ---------- resolving a contribution ----------

  /** Tidy at every level, with no empty submenu. */
  predicate TidyThroughout(items: seq<Resolved>)
    decreases items, 0
  {
    Tidy(items) && forall i :: 0 <= i < |items| ==> TidyInside(items[i])
  }

  predicate TidyInside(item: Resolved)
    decreases item, 1
  {
    item.Submenu? ==> item.children != [] && TidyThroughout(item.children)
  }

  function ResolveItem(item: MenuItem, state: StateMap): seq<Resolved>
    decreases item, 1
  {
    if !ResolveBoolean(item.visible, state) then []
    else
      match item.kind
      case CommandKind(caption, action, enabled, checked) =>
        var shown := if checked.Some? then Some(ResolveBoolean(checked.value, state)) else None;
        [Command(caption, action, ResolveBoolean(enabled, state), shown)]
      case SubmenuKind(caption, children) =>
        var resolved := Normalize(ResolveItems(children, state));
        if resolved == [] then [] else [Submenu(caption, resolved)]
      case SeparatorKind => [Separator]
  }

  function ResolveAll(items: seq<MenuItem>, state: StateMap): seq<Resolved>
    decreases items, 0
  {
    if items == [] then [] else ResolveAll(items[..|items| - 1], state) + ResolveItem(items[|items| - 1], state)
  }

  function ResolveItems(items: seq<MenuItem>, state: StateMap): seq<Resolved>
    decreases items, 2
  {
    Normalize(ResolveAll(items, state))
  }

  method ResolveMenuContributionItems(items: seq<MenuItem>, state: StateMap) returns (resolved: seq<Resolved>)
    ensures resolved == ResolveItems(items, state)
    decreases items
  {
    hide Normalize;
    resolved := [];
    for i := 0 to |items|
      invariant resolved == ResolveAll(items[..i], state)
    {
      assert items[..i + 1][..i] == items[..i];
      if !ResolveBoolean(items[i].visible, state) {
        continue;
      }
      var item := items[i];
      assert (items decreases to item);
      match item.kind
      case CommandKind(caption, action, enabled, checked) =>
        var shown := if checked.Some? then Some(ResolveBoolean(checked.value, state)) else None;
        resolved := resolved + [Command(caption, action, ResolveBoolean(enabled, state), shown)];
      case SubmenuKind(caption, children) =>
        assert (item decreases to children);
        var inside := ResolveMenuContributionItems(children, state);
        inside := NormalizeSeparators(inside);
        if inside != [] {
          resolved := resolved + [Submenu(caption, inside)];
        }
      case SeparatorKind => resolved := resolved + [Separator];
    }
    assert items[..|items|] == items;
    resolved := NormalizeSeparators(resolved);
  }

  /** What a step keeps true of a list is true of the tidied list: submenus are tidy and not empty. */
  predicate AllInside(items: seq<Resolved>) {
    forall i :: 0 <= i < |items| ==> TidyInside(items[i])
  }

  lemma {:induction false} DedupeSelects(items: seq<Resolved>, item: Resolved)
    requires item in Dedupe(items)
    ensures item in items
  {
    if items != [] {
      var front := items[..|items| - 1];
      if item in Dedupe(front) {
        DedupeSelects(front, item);
      }
    }
  }

  lemma {:induction false} TrimBackSelects(items: seq<Resolved>, item: Resolved)
    requires item in TrimBack(items)
    ensures item in items
  {
    if EndsInSeparator(items) {
      TrimBackSelects(items[..|items| - 1], item);
    }
  }

  lemma {:induction false} TrimFrontSelects(items: seq<Resolved>, item: Resolved)
    requires item in TrimFront(items)
    ensures item in items
  {
    if items != [] && items[0].Separator? {
      TrimFrontSelects(items[1..], item);
    }
  }

  lemma NormalizeSelects(items: seq<Resolved>, item: Resolved)
    requires item in Normalize(items)
    ensures item in items
  {
    DedupeSelects(TrimBack(TrimFront(items)), item);
    TrimBackSelects(TrimFront(items), item);
    TrimFrontSelects(items, item);
  }

  lemma NormalizeTidiesThroughout(items: seq<Resolved>)
    requires AllInside(items)
    ensures TidyThroughout(Normalize(items))
  {
    hide TidyInside, Normalize;
    NormalizeTidies(items);
    forall i | 0 <= i < |Normalize(items)|
      ensures TidyInside(Normalize(items)[i])
    {
      NormalizeSelects(items, Normalize(items)[i]);
    }
  }

  /** A resolved contribution is tidy at every level and shows no empty submenu. */
  lemma {:induction false} ResolvedIsTidyThroughout(items: seq<MenuItem>, state: StateMap)
    ensures TidyThroughout(ResolveItems(items, state))
    decreases items, 3
  {
    hide Normalize, ResolveAll;
    ResolveAllIsTidyInside(items, state);
    NormalizeTidiesThroughout(ResolveAll(items, state));
  }

  lemma {:induction false} ResolveAllIsTidyInside(items: seq<MenuItem>, state: StateMap)
    ensures AllInside(ResolveAll(items, state))
    decreases items, 0
  {
    hide ResolveItem;
    if items != [] {
      ResolveAllIsTidyInside(items[..|items| - 1], state);
      ResolveItemIsTidyInside(items[|items| - 1], state);
    }
  }

  lemma {:induction false} ResolveItemIsTidyInside(item: MenuItem, state: StateMap)
    ensures AllInside(ResolveItem(item, state))
    decreases item, 1
  {
    hide Normalize, ResolveAll, TidyThroughout;
    if item.kind.SubmenuKind? {
      ResolvedIsTidyThroughout(item.kind.children, state);
      var resolved := ResolveItems(item.kind.children, state);
      assert Tidy(resolved) by { TidyHere(resolved); }
      NormalizeFixes(resolved);
    }
  }

  lemma TidyHere(items: seq<Resolved>)
    requires TidyThroughout(items)
    ensures Tidy(items)
  {
  }

  // ---------- contributions that share a slot ----------

  datatype Contribution = Contribution(slot: string, items: seq<MenuItem>, state: StateMap)

  /** All that was contributed to a slot, in order. */
  function SlotItems(contributions: seq<Contribution>, slot: string): seq<Resolved> {
    if contributions == [] then []
    else
      var front, last := contributions[..|contributions| - 1], contributions[|contributions| - 1];
      SlotItems(front, slot) + (if last.slot == slot then ResolveItems(last.items, last.state) else [])
  }

  lemma {:induction false} SlotItemsAreTidy(contributions: seq<Contribution>, slot: string)
    ensures Tidy(SlotItems(contributions, slot))
      && Normalize(SlotItems(contributions, slot)) == SlotItems(contributions, slot)
  {
    hide Normalize, ResolveItems;
    if contributions == [] {
      NormalizeFixes([]);
    } else {
      var front, last := contributions[..|contributions| - 1], contributions[|contributions| - 1];
      SlotItemsAreTidy(front, slot);
      ResolvedIsTidyThroughout(last.items, last.state);
      TidyHere(ResolveItems(last.items, last.state));
      TidyListsJoin(SlotItems(front, slot), ResolveItems(last.items, last.state));
      assert SlotItems(front, slot) + [] == SlotItems(front, slot);
      NormalizeFixes(SlotItems(contributions, slot));
    }
  }

  /** One entry a slot that has items: exactly what was contributed to it, resolved and in order. */
  method ResolveMenuSlots(contributions: seq<Contribution>) returns (slots: map<string, seq<Resolved>>)
    ensures forall slot :: slot in slots <==> SlotItems(contributions, slot) != []
    ensures forall slot :: slot in slots ==> slots[slot] == SlotItems(contributions, slot)
  {
    hide Normalize, ResolveItems, Tidy;
    var open: map<string, seq<Resolved>> := map[];
    for i := 0 to |contributions|
      invariant forall slot :: slot in open ==> open[slot] == SlotItems(contributions[..i], slot)
      invariant forall slot :: slot !in open ==> SlotItems(contributions[..i], slot) == []
    {
      assert contributions[..i + 1][..i] == contributions[..i];
      var c := contributions[i];
      var resolved := ResolveMenuContributionItems(c.items, c.state);
      var target := (if c.slot in open then open[c.slot] else []) + resolved;
      assert target == SlotItems(contributions[..i + 1], c.slot);
      target := NormalizeSeparators(target);
      SlotItemsAreTidy(contributions[..i + 1], c.slot);
      open := open[c.slot := target];
    }
    assert contributions[..|contributions|] == contributions;
    slots := map[];
    var rest := open.Keys;
    while rest != {}
      invariant rest <= open.Keys
      invariant forall slot :: slot in slots <==> slot in open && slot !in rest && open[slot] != []
      invariant forall slot :: slot in slots ==> slots[slot] == open[slot]
      decreases |rest|
    {
      var slot :| slot in rest;
      rest := rest - {slot};
      SlotItemsAreTidy(contributions, slot);
      var items := NormalizeSeparators(open[slot]);
      if items != [] {
        slots := slots[slot := items];
      }
    }
  }

  // ---------- the native menu in one pass ----------

  /** First pass: disabled commands and empty submenus are dropped at every level. */
  function DropItem(item: Resolved): seq<Resolved>
    decreases item, 1
  {
    match item
    case Command(_, _, enabled, _) => if enabled then [item] else []
    case Submenu(caption, children) =>
      var kept := TwoPass(children);
      if kept == [] then [] else [Submenu(caption, kept)]
    case Separator => [Separator]
  }

  function Drop(items: seq<Resolved>): seq<Resolved>
    decreases items, 0
  {
    if items == [] then [] else Drop(items[..|items| - 1]) + DropItem(items[|items| - 1])
  }

  /** Second pass: what is left is tidied. */
  function TwoPass(items: seq<Resolved>): seq<Resolved>
    decreases items, 2
  {
    Normalize(Drop(items))
  }

  function ToNative(item: Resolved): Native
    decreases item, 1
  {
    match item
    case Command(caption, action, _, _) => NativeAction(caption, action)
    case Submenu(caption, children) => NativeMenu(caption, AllToNative(children))
    case Separator => NativeSeparator
  }

  function AllToNative(items: seq<Resolved>): (r: seq<Native>)
    ensures |r| == |items|
    decreases items, 0
  {
    if items == [] then [] else AllToNative(items[..|items| - 1]) + [ToNative(items[|items| - 1])]
  }

  lemma ToNativeAfter(front: seq<Resolved>, last: Resolved)
    ensures AllToNative(front + [last]) == AllToNative(front) + [ToNative(last)]
  {
    assert (front + [last])[..|front|] == front;
  }

  method PushPendingSeparator(native0: seq<Native>, pending0: bool) returns (native: seq<Native>, pending: bool)
    ensures native == (if pending0 then native0 + [NativeSeparator] else native0) && !pending
  {
    native, pending := native0, pending0;
    if pending {
      native := native + [NativeSeparator];
      pending := false;
    }
  }

  /** Where one pass stands: the tidied list so far, and whether a separator waits for an item. */
  ghost predicate Stands(dropped: seq<Resolved>, native: seq<Native>, pending: bool) {
    native == AllToNative(Normalize(dropped)) && pending == (native != [] && EndsInSeparator(dropped))
  }

  lemma StandsAfter(dropped: seq<Resolved>, native: seq<Native>, pending: bool, item: Resolved)
    requires Stands(dropped, native, pending)
    ensures item.Separator? ==> Stands(dropped + [item], native, native != [])
    ensures !item.Separator? ==>
      Stands(dropped + [item], (if pending then native + [NativeSeparator] else native) + [ToNative(item)], false)
  {
    hide Normalize, AllToNative;
    var tidy := Normalize(dropped);
    assert native == [] <==> tidy == [];
    if item.Separator? {
      NormalizeAfterSeparator(dropped);
    } else {
      NormalizeAfterItem(dropped, item);
      ToNativeAfter(tidy, item);
      ToNativeAfter(tidy, Separator);
      ToNativeAfter(tidy + [Separator], item);
      assert ToNative(Separator) == NativeSeparator;
    }
  }

  /** One pass with a pending separator gives what dropping and then tidying gives. */
  method NativeItems(items: seq<Resolved>) returns (native: seq<Native>)
    ensures native == AllToNative(TwoPass(items))
    decreases items
  {
    hide Normalize, AllToNative, Drop;
    native := [];
    var pending := false;
    assert Stands(Drop([]), native, pending) by { NothingStands(); }
    for i := 0 to |items|
      invariant Stands(Drop(items[..i]), native, pending)
    {
      var item := items[i];
      DropAfter(items, i);
      StandsAfter(Drop(items[..i]), native, pending, item);
      match item
      case Command(caption, action, enabled, _) =>
        if enabled {
          native, pending := PushPendingSeparator(native, pending);
          native := native + [NativeAction(caption, action)];
        }
      case Submenu(caption, children) =>
        assert (items decreases to item);
        var inside := NativeItems(children);
        if inside != [] {
          StandsAfter(Drop(items[..i]), native, pending, Submenu(caption, TwoPass(children)));
          native, pending := PushPendingSeparator(native, pending);
          native := native + [NativeMenu(caption, inside)];
        }
      case Separator =>
        if native != [] {
          pending := true;
        }
    }
    assert items[..|items|] == items;
  }

  lemma NothingStands()
    ensures Stands(Drop([]), [], false) && Drop([]) == []
  {
    NormalizeFixes([]);
  }

  lemma DropAfter(items: seq<Resolved>, i: nat)
    requires i < |items|
    ensures Drop(items[..i + 1]) == Drop(items[..i]) + DropItem(items[i])
    ensures Drop(items[..i]) + [] == Drop(items[..i])
  {
    assert items[..i + 1][..i] == items[..i];
  }

  /** Nothing disabled and no empty submenu at any level. */
  predicate Usable(items: seq<Resolved>)
    decreases items, 0
  {
    Tidy(items) && forall i :: 0 <= i < |items| ==> UsableItem(items[i])
  }

  predicate UsableItem(item: Resolved)
    decreases item, 1
  {
    match item
    case Command(_, _, enabled, _) => enabled
    case Submenu(_, children) => children != [] && Usable(children)
    case Separator => true
  }

  /** A menu without anything to drop is shown whole; so the native menu is a fixed point of the two passes. */
  lemma {:induction false} UsableIsShownWhole(items: seq<Resolved>)
    requires Usable(items)
    ensures TwoPass(items) == items
    decreases items, 2
  {
    hide Normalize, Drop;
    DropNothing(items, |items|);
    assert items[..|items|] == items;
    NormalizeFixes(items);
  }

  lemma {:induction false} DropNothing(items: seq<Resolved>, n: nat)
    requires Usable(items) && n <= |items|
    ensures Drop(items[..n]) == items[..n]
    decreases items, 0, n
  {
    hide Normalize, Drop;
    if n > 0 {
      DropNothing(items, n - 1);
      DropAfter(items, n - 1);
      var item := items[n - 1];
      assert UsableItem(item);
      if item.Submenu? {
        assert (items decreases to item);
        UsableIsShownWhole(item.children);
      }
      assert items[..n - 1] + [item] == items[..n];
    } else {
      NothingStands();
    }
  }

  /** What the native menu shows is usable at every level. */
  lemma {:induction false} TwoPassIsUsable(items: seq<Resolved>)
    ensures Usable(TwoPass(items))
    decreases items, 2
  {
    hide Normalize, Drop;
    var dropped := Drop(items);
    NormalizeTidies(dropped);
    forall i | 0 <= i < |TwoPass(items)|
      ensures UsableItem(TwoPass(items)[i])
    {
      NormalizeSelects(dropped, TwoPass(items)[i]);
      assert items[..|items|] == items;
      DroppedIsUsable(items, |items|, TwoPass(items)[i]);
    }
  }

  lemma {:induction false} DroppedIsUsable(items: seq<Resolved>, n: nat, kept: Resolved)
    requires n <= |items| && kept in Drop(items[..n])
    ensures UsableItem(kept)
    decreases items, 0, n
  {
    hide Normalize, Drop;
    if n == 0 {
      NothingStands();
    } else {
      DropAfter(items, n - 1);
      if kept in Drop(items[..n - 1]) {
        DroppedIsUsable(items, n - 1, kept);
      } else if kept.Submenu? {
        var item := items[n - 1];
        assert (items decreases to item);
        TwoPassIsUsable(item.children);
      }
    }
  }
}
