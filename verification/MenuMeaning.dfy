// Which commands a menu offers: exactly the visible ones, in order, each under its captions and in its state
// (crates/key-extension-gpui/src/menu.rs, crates/key-extension-gpui/src/state.rs).
module MenuMeaning {
  import opened Collections
  import opened Options
  import opened Menu

  /** A command where a user finds it: below the captions that lead to it. */
  datatype Entry = Entry(path: seq<string>, caption: string, action: Action, enabled: bool, checked: Option<bool>)

  /** A constant is itself; a bound value is true exactly when the state says true there. */
  predicate Holds(source: BooleanSource, state: StateMap) {
    source == Constant(true) || exists path :: path in state && source == Binding(path) && state[path] == true
  }

  lemma HoldsExactly(source: BooleanSource, state: StateMap)
    ensures Holds(source, state) <==> ResolveBoolean(source, state)
  {
  }

  // ---------- what was contributed and what is shown ----------

  /** The commands of a contribution that are visible together with all submenus around them. */
  function WantedOf(item: MenuItem, state: StateMap, path: seq<string>): seq<Entry>
    decreases item, 1
  {
    if !Holds(item.visible, state) then []
    else
      match item.kind
      case CommandKind(caption, action, enabled, checked) =>
        var mark := match checked case None => None case Some(source) => Some(Holds(source, state));
        [Entry(path, caption, action, Holds(enabled, state), mark)]
      case SubmenuKind(caption, children) => Wanted(children, state, path + [caption])
      case SeparatorKind => []
  }

  function Wanted(items: seq<MenuItem>, state: StateMap, path: seq<string>): seq<Entry>
    decreases items, 0
  {
    if items == [] then []
    else Wanted(items[..|items| - 1], state, path) + WantedOf(items[|items| - 1], state, path)
  }

  function EntriesOf(item: Resolved, path: seq<string>): seq<Entry>
    decreases item, 1
  {
    match item
    case Command(caption, action, enabled, checked) => [Entry(path, caption, action, enabled, checked)]
    case Submenu(caption, children) => Entries(children, path + [caption])
    case Separator => []
  }

  /** The commands of a resolved menu. */
  function Entries(items: seq<Resolved>, path: seq<string>): seq<Entry>
    decreases items, 0
  {
    if items == [] then [] else Entries(items[..|items| - 1], path) + EntriesOf(items[|items| - 1], path)
  }

  lemma EntriesAfter(front: seq<Resolved>, last: Resolved, path: seq<string>)
    ensures Entries(front + [last], path) == Entries(front, path) + EntriesOf(last, path)
  {
    assert (front + [last])[..|front|] == front;
  }

  /** Separators carry no commands. */
  lemma {:induction false} EntriesOfOthers(items: seq<Resolved>, path: seq<string>)
    ensures Entries(Others(items), path) == Entries(items, path)
    decreases |items|
  {
    hide EntriesOf;
    if items != [] {
      var front, last := items[..|items| - 1], items[|items| - 1];
      EntriesOfOthers(front, path);
      if last.Separator? {
        NoEntries(path);
        assert last == Separator && Others(items) == Others(front);
        assert Entries(front, path) + [] == Entries(front, path);
      } else {
        EntriesAfter(Others(front), last, path);
      }
    }
  }

  lemma NoEntries(path: seq<string>)
    ensures EntriesOf(Separator, path) == []
  {
  }

  lemma TidyKeepsEntries(items: seq<Resolved>, path: seq<string>)
    ensures Entries(Normalize(items), path) == Entries(items, path)
  {
    hide Normalize, Entries, Others;
    EntriesOfOthers(items, path);
    EntriesOfOthers(Normalize(items), path);
    NormalizeKeepsItems(items);
  }

  /** A resolved contribution shows exactly its visible commands, in order, enabled and checked as the state says. */
  lemma {:induction false} ResolvedShowsWanted(items: seq<MenuItem>, state: StateMap, path: seq<string>)
    ensures Entries(ResolveItems(items, state), path) == Wanted(items, state, path)
    decreases items, 2
  {
    hide Normalize, ResolveAll, Wanted;
    TidyKeepsEntries(ResolveAll(items, state), path);
    AllShowWanted(items, state, path);
  }

  lemma {:induction false} AllShowWanted(items: seq<MenuItem>, state: StateMap, path: seq<string>)
    ensures Entries(ResolveAll(items, state), path) == Wanted(items, state, path)
    decreases items, 0
  {
    hide ResolveItem, WantedOf;
    if items != [] {
      var front, last := items[..|items| - 1], items[|items| - 1];
      AllShowWanted(front, state, path);
      ItemShowsWanted(last, state, path);
      EntriesConcat(ResolveAll(front, state), ResolveItem(last, state), path);
    }
  }

  lemma {:induction false} EntriesConcat(a: seq<Resolved>, b: seq<Resolved>, path: seq<string>)
    ensures Entries(a + b, path) == Entries(a, path) + Entries(b, path)
    decreases |b|
  {
    hide EntriesOf;
    if b == [] {
      assert a + b == a;
    } else {
      var front, last := b[..|b| - 1], b[|b| - 1];
      EntriesConcat(a, front, path);
      EntriesAfter(a + front, last, path);
      assert a + b == (a + front) + [last] && b == front + [last];
    }
  }

  lemma {:induction false} ItemShowsWanted(item: MenuItem, state: StateMap, path: seq<string>)
    ensures Entries(ResolveItem(item, state), path) == WantedOf(item, state, path)
    decreases item, 1
  {
    hide Normalize, ResolveItems, Wanted, Holds, ResolveBoolean, Entries;
    HoldsExactly(item.visible, state);
    EmptyHasNone(path);
    if ResolveBoolean(item.visible, state) {
      match item.kind
      case CommandKind(_, _, _, _) => CommandShowsWanted(item, state, path);
      case SubmenuKind(caption, children) =>
        ResolvedShowsWanted(children, state, path + [caption]);
        TidyKeepsEntries(ResolveItems(children, state), path + [caption]);
        var inside := Normalize(ResolveItems(children, state));
        EmptyHasNone(path + [caption]);
        OneEntry(Submenu(caption, inside), path);
      case SeparatorKind => OneEntry(Separator, path);
    }
  }

  lemma CommandShowsWanted(item: MenuItem, state: StateMap, path: seq<string>)
    requires item.kind.CommandKind?
    ensures Entries(ResolveItem(item, state), path) == WantedOf(item, state, path)
  {
    hide Holds, ResolveBoolean, Entries;
    HoldsExactly(item.visible, state);
    HoldsExactly(item.kind.enabled, state);
    if item.kind.checked.Some? {
      HoldsExactly(item.kind.checked.value, state);
    }
    EmptyHasNone(path);
    if ResolveBoolean(item.visible, state) {
      OneEntry(ResolveItem(item, state)[0], path);
    }
  }

  lemma OneEntry(item: Resolved, path: seq<string>)
    ensures Entries([item], path) == EntriesOf(item, path)
  {
    hide EntriesOf;
    assert [item][..0] == [];
    assert Entries([], path) == [];
  }

  lemma EmptyHasNone(path: seq<string>)
    ensures Entries([], path) == []
  {
  }

  // ---------- native menus ----------

  datatype NativeEntry = NativeEntry(path: seq<string>, caption: string, action: Action)

  function NativeEntriesOf(item: Native, path: seq<string>): seq<NativeEntry>
    decreases item, 1
  {
    match item
    case NativeAction(caption, action) => [NativeEntry(path, caption, action)]
    case NativeMenu(caption, items) => NativeEntries(items, path + [caption])
    case NativeSeparator => []
  }

  function NativeEntries(items: seq<Native>, path: seq<string>): seq<NativeEntry>
    decreases items, 0
  {
    if items == [] then [] else NativeEntries(items[..|items| - 1], path) + NativeEntriesOf(items[|items| - 1], path)
  }

  /** The enabled commands. */
  function Offered(entries: seq<Entry>): seq<NativeEntry> {
    if entries == [] then []
    else
      var last := entries[|entries| - 1];
      Offered(entries[..|entries| - 1])
      + (if last.enabled then [NativeEntry(last.path, last.caption, last.action)] else [])
  }

  lemma {:induction false} OfferedConcat(a: seq<Entry>, b: seq<Entry>)
    ensures Offered(a + b) == Offered(a) + Offered(b)
    decreases |b|
  {
    if b == [] {
      assert a + b == a;
    } else {
      OfferedConcat(a, b[..|b| - 1]);
      assert (a + b)[..|a + b| - 1] == a + b[..|b| - 1];
    }
  }

  /** In a usable menu everything is offered. */
  lemma {:induction false} UsableIsOffered(items: seq<Resolved>, n: nat, path: seq<string>)
    requires n <= |items| && forall i :: 0 <= i < n ==> UsableItem(items[i])
    ensures NativeEntries(AllToNative(items[..n]), path) == Offered(Entries(items[..n], path))
    decreases items, 0, n
  {
    hide UsableItem, ToNative, EntriesOf, NativeEntriesOf;
    if n > 0 {
      var front, last := items[..n - 1], items[n - 1];
      assert items[..n] == front + [last];
      UsableIsOffered(items, n - 1, path);
      ToNativeAfter(front, last);
      var native := AllToNative(front);
      assert (native + [ToNative(last)])[..|native|] == native;
      EntriesAfter(front, last, path);
      OfferedConcat(Entries(front, path), EntriesOf(last, path));
      UsableItemIsOffered(last, path);
    }
  }

  lemma {:induction false} UsableItemIsOffered(item: Resolved, path: seq<string>)
    requires UsableItem(item)
    ensures NativeEntriesOf(ToNative(item), path) == Offered(EntriesOf(item, path))
    decreases item, 1
  {
    hide AllToNative, Entries, NativeEntries, Tidy;
    match item
    case Command(_, _, _, _) => assert EntriesOf(item, path)[..0] == [];
    case Submenu(caption, children) =>
      UsableIsOffered(children, |children|, path + [caption]);
      assert children[..|children|] == children;
    case Separator =>
  }

  /** Dropping and tidying keep what is enabled. */
  lemma {:induction false} TwoPassOffers(items: seq<Resolved>, path: seq<string>)
    ensures Offered(Entries(TwoPass(items), path)) == Offered(Entries(items, path))
    decreases items, 2
  {
    hide Normalize, Drop, Entries, Offered;
    TidyKeepsEntries(Drop(items), path);
    DropOffers(items, |items|, path);
    assert items[..|items|] == items;
  }

  lemma {:induction false} DropOffers(items: seq<Resolved>, n: nat, path: seq<string>)
    requires n <= |items|
    ensures Offered(Entries(Drop(items[..n]), path)) == Offered(Entries(items[..n], path))
    decreases items, 0, n
  {
    hide DropItem, EntriesOf, Offered, Entries;
    if n > 0 {
      var front, last := items[..n - 1], items[n - 1];
      assert items[..n] == front + [last];
      DropOffers(items, n - 1, path);
      DropAfter(items, n - 1);
      EntriesConcat(Drop(front), DropItem(last), path);
      EntriesAfter(front, last, path);
      OfferedConcat(Entries(Drop(front), path), Entries(DropItem(last), path));
      OfferedConcat(Entries(front, path), EntriesOf(last, path));
      DropItemOffers(last, path);
    }
  }

  lemma {:induction false} DropItemOffers(item: Resolved, path: seq<string>)
    ensures Offered(Entries(DropItem(item), path)) == Offered(EntriesOf(item, path))
    decreases item, 1
  {
    hide TwoPass, Entries, Offered;
    EmptyHasNone(path);
    NothingOffered();
    OneEntry(item, path);
    match item
    case Command(caption, action, enabled, checked) =>
      if !enabled {
        DisabledIsNotOffered(Entry(path, caption, action, enabled, checked));
        assert EntriesOf(item, path) == [Entry(path, caption, action, enabled, checked)];
      }
    case Submenu(caption, children) =>
      TwoPassOffers(children, path + [caption]);
      EmptyHasNone(path + [caption]);
      OneEntry(Submenu(caption, TwoPass(children)), path);
    case Separator =>
  }

  lemma NothingOffered()
    ensures Offered([]) == []
  {
  }

  lemma DisabledIsNotOffered(entry: Entry)
    requires !entry.enabled
    ensures Offered([entry]) == []
  {
    assert [entry][..0] == [];
  }

  /** The native menu offers exactly the visible and enabled commands of the contribution, in order. */
  lemma NativeOffersWanted(items: seq<MenuItem>, state: StateMap, path: seq<string>)
    ensures NativeEntries(AllToNative(TwoPass(ResolveItems(items, state))), path) == Offered(Wanted(items, state, path))
  {
    hide TwoPass, ResolveItems, Entries, Offered, Wanted, NativeEntries, AllToNative;
    var resolved := ResolveItems(items, state);
    ResolvedShowsWanted(items, state, path);
    TwoPassOffers(resolved, path);
    TwoPassIsUsable(resolved);
    var native := TwoPass(resolved);
    assert native[..|native|] == native;
    UsableIsOffered(native, |native|, path);
  }

  // ---------- shared slots ----------

  /** What was contributed to a slot, one contribution after the other. */
  function WantedIn(contributions: seq<Contribution>, slot: string, path: seq<string>): seq<Entry> {
    if contributions == [] then []
    else
      var first := contributions[0];
      (if first.slot == slot then Wanted(first.items, first.state, path) else [])
      + WantedIn(contributions[1..], slot, path)
  }

  /** A slot shows the visible commands of all its contributions, in the order of the contributions. */
  lemma {:induction false} SlotShowsWanted(contributions: seq<Contribution>, slot: string, path: seq<string>)
    ensures Entries(SlotItems(contributions, slot), path) == WantedIn(contributions, slot, path)
    decreases |contributions|
  {
    hide ResolveItems, Wanted, Entries;
    EmptyHasNone(path);
    if contributions != [] {
      var front, last := contributions[..|contributions| - 1], contributions[|contributions| - 1];
      SlotShowsWanted(front, slot, path);
      EntriesConcat(SlotItems(front, slot), if last.slot == slot then ResolveItems(last.items, last.state) else [],
          path);
      ResolvedShowsWanted(last.items, last.state, path);
      WantedAfter(front, last, slot, path);
      assert contributions == front + [last];
    }
  }

  lemma {:induction false} WantedAfter(front: seq<Contribution>, last: Contribution, slot: string, path: seq<string>)
    ensures WantedIn(front + [last], slot, path)
      == WantedIn(front, slot, path) + if last.slot == slot then Wanted(last.items, last.state, path) else []
  {
    hide Wanted;
    if front == [] {
      assert front + [last] == [last] && [last][1..] == [];
      assert WantedIn([], slot, path) == [];
    } else {
      assert (front + [last])[1..] == front[1..] + [last];
      WantedAfter(front[1..], last, slot, path);
    }
  }
}
