/** What a comparison reports, read off the items' own fields: which items are the same thing, and which differ. */
module SnapshotFields {
  import opened Dedupe
  import opened SnapshotDiff

  // ---------------------------------------------------------------- when two items are the same thing

  /** Python takes the field for false: it is missing, null, empty or zero. */
  predicate Blank(item: Item, name: string) {
    name in item.fields ==> item.fields[name] in {Null, Text(""), Num(0), Real(0.0), Bool(false)}
  }

  /** The device goes by this value: its serial number, else its address, else its hostname, else its whole text. */
  predicate GoesBy(item: Item, v: Val, r: Rendering) {
    if !Blank(item, "serial") then v == item.fields["serial"]
    else if !Blank(item, "management_ip") then v == item.fields["management_ip"]
    else if !Blank(item, "hostname") then v == item.fields["hostname"]
    else v == Text(r.repr(item))
  }

  /** The field is missing in both, counting null as missing, or is the same in both. */
  predicate SameField(x: Item, y: Item, name: string) {
    Get(x, name) == Get(y, name)
  }

  /** The items of this section are the same thing. */
  ghost predicate SameThing(section: Section, x: Item, y: Item, r: Rendering) {
    match section
    case Devices => exists v :: GoesBy(x, v, r) && GoesBy(y, v, r)
    case Links => SameField(x, y, "interface_a") && SameField(x, y, "interface_b") && SameField(x, y, "method")
    case Vlans => SameField(x, y, "device") && SameField(x, y, "vlan_id")
    case Interfaces => SameField(x, y, "device") && SameField(x, y, "name")
  }

  /** The two values are only shown alike when they are the same. */
  predicate ToldApart(r: Rendering, x: Item, y: Item, name: string) {
    r.show(Get(x, name)) == r.show(Get(y, name)) ==> Get(x, name) == Get(y, name)
  }

  predicate Free(r: Rendering, x: Item, y: Item, name: string, separator: char) {
    separator !in r.show(Get(x, name)) && separator !in r.show(Get(y, name))
  }

  /** The renderings tell the items apart: the values differ in text, and no part but the last holds the separator. */
  predicate Legible(section: Section, x: Item, y: Item, r: Rendering) {
    match section
    case Devices => true
    case Links =>
      && ToldApart(r, x, y, "interface_a") && ToldApart(r, x, y, "interface_b") && ToldApart(r, x, y, "method")
      && Free(r, x, y, "interface_a", '|') && Free(r, x, y, "interface_b", '|')
    case Vlans => ToldApart(r, x, y, "device") && ToldApart(r, x, y, "vlan_id") && Free(r, x, y, "device", ':')
    case Interfaces => ToldApart(r, x, y, "device") && ToldApart(r, x, y, "name") && Free(r, x, y, "device", ':')
  }

  lemma NotLonger(a: string, b: string, c: string, d: string, separator: char)
    requires a + [separator] + b == c + [separator] + d && separator !in a
    ensures |a| <= |c|
  {
    assert (c + [separator] + d)[|c|] == separator;
    assert forall i :: 0 <= i < |a| ==> (a + [separator] + b)[i] == a[i];
  }

  /** A text can be cut at its first separator in one way only. */
  lemma CutOnce(a: string, b: string, c: string, d: string, separator: char)
    requires separator !in a && separator !in c
    ensures a + [separator] + b == c + [separator] + d <==> a == c && b == d
  {
    var left, right := a + [separator] + b, c + [separator] + d;
    if left == right {
      NotLonger(a, b, c, d, separator);
      NotLonger(c, d, a, b, separator);
      assert left[..|a|] == a && right[..|a|] == c;
      assert left[|a| + 1..] == b && right[|a| + 1..] == d;
    }
  }

  lemma CutTwice(a: string, b: string, c: string, x: string, y: string, z: string, separator: char)
    requires separator !in a && separator !in x && separator !in b && separator !in y
    ensures a + [separator] + b + [separator] + c == x + [separator] + y + [separator] + z
            <==> a == x && b == y && c == z
  {
    assert a + [separator] + b + [separator] + c == a + [separator] + (b + [separator] + c);
    assert x + [separator] + y + [separator] + z == x + [separator] + (y + [separator] + z);
    CutOnce(a, b + [separator] + c, x, y + [separator] + z, separator);
    CutOnce(b, c, y, z, separator);
  }

  /** A device's key is what it goes by. */
  lemma DeviceKeyIs(item: Item, r: Rendering, v: Val)
    ensures Key(Devices, item, r) == v <==> GoesBy(item, v, r)
  {
    BlankIsFalse(item, "serial");
    BlankIsFalse(item, "management_ip");
    BlankIsFalse(item, "hostname");
  }

  lemma BlankIsFalse(item: Item, name: string)
    ensures Truthy(Get(item, name)) <==> !Blank(item, name)
  {
  }

  /** Items that are told apart share a key exactly when they are the same thing. */
  lemma SameKeyIff(section: Section, x: Item, y: Item, r: Rendering)
    requires Legible(section, x, y, r)
    ensures Key(section, x, r) == Key(section, y, r) <==> SameThing(section, x, y, r)
  {
    match section
    case Devices =>
      DeviceKeyIs(x, r, Key(Devices, x, r));
      DeviceKeyIs(y, r, Key(Devices, x, r));
      if v :| GoesBy(x, v, r) && GoesBy(y, v, r) {
        DeviceKeyIs(x, r, v);
        DeviceKeyIs(y, r, v);
      }
    case Links =>
      CutTwice(r.show(Get(x, "interface_a")), r.show(Get(x, "interface_b")), r.show(Get(x, "method")),
               r.show(Get(y, "interface_a")), r.show(Get(y, "interface_b")), r.show(Get(y, "method")), '|');
    case Vlans =>
      CutOnce(r.show(Get(x, "device")), r.show(Get(x, "vlan_id")), r.show(Get(y, "device")), r.show(Get(y, "vlan_id")), ':');
    case Interfaces =>
      CutOnce(r.show(Get(x, "device")), r.show(Get(x, "name")), r.show(Get(y, "device")), r.show(Get(y, "name")), ':');
  }

  /** Some field is in only one of the items, or differs. */
  ghost predicate SomeFieldDiffers(x: Item, y: Item) {
    exists name :: FieldDiffers(x, y, name)
  }

  predicate FieldDiffers(x: Item, y: Item, name: string) {
    (name in x.fields) != (name in y.fields) || (name in x.fields && x.fields[name] != y.fields[name])
  }

  /** Normal forms differ exactly when some field does, in whatever order the fields were written. */
  lemma NormalizeTellsFields(x: Item, y: Item)
    ensures Normalize(x) != Normalize(y) <==> SomeFieldDiffers(x, y)
  {
    if !SomeFieldDiffers(x, y) {
      forall name ensures name in x.fields <==> name in y.fields {
        assert !FieldDiffers(x, y, name);
      }
      forall name | name in x.fields ensures x.fields[name] == y.fields[name] {
        assert !FieldDiffers(x, y, name);
      }
      assert x.fields == y.fields;
    }
  }

  // ---------------------------------------------------------------- what is reported

  /** Every section that is there is compared with all its items; one that is missing counts as empty. */
  lemma ItemsAre(snapshot: Snapshot, section: Section, items: seq<Item>)
    ensures section in snapshot && snapshot[section] == items ==> ItemsOf(snapshot, section) == items
    ensures section !in snapshot ==> ItemsOf(snapshot, section) == []
  {
  }

  ghost predicate AllLegible(section: Section, xs: seq<Item>, ys: seq<Item>, r: Rendering) {
    forall x, y :: x in xs && y in ys ==> Legible(section, x, y, r)
  }

  /** All items of this section, of both snapshots, are told apart. */
  ghost predicate ToldApartIn(left: Snapshot, right: Snapshot, section: Section, r: Rendering) {
    var ls, rs := ItemsOf(left, section), ItemsOf(right, section);
    && AllLegible(section, ls, ls, r) && AllLegible(section, rs, rs, r)
    && AllLegible(section, ls, rs, r) && AllLegible(section, rs, ls, r)
  }

  /** No later item of the list is the same thing. */
  ghost predicate IsLatest(section: Section, items: seq<Item>, k: nat, r: Rendering) {
    k < |items| && forall j :: k < j < |items| ==> !SameThing(section, items[j], items[k], r)
  }

  ghost predicate Lacks(section: Section, items: seq<Item>, item: Item, r: Rendering) {
    forall i :: 0 <= i < |items| ==> !SameThing(section, items[i], item, r)
  }

  /** The item is what the section's dictionary has under its key. */
  ghost predicate IsIndexed(section: Section, items: seq<Item>, item: Item, r: Rendering) {
    var d := Index(section, items, r).items;
    Key(section, item, r) in d && d[Key(section, item, r)] == item
  }

  lemma LatestIsIndexed(section: Section, items: seq<Item>, k: nat, r: Rendering)
    requires AllLegible(section, items, items, r) && IsLatest(section, items, k, r)
    ensures IsIndexed(section, items, items[k], r)
  {
    forall j | k < j < |items| ensures Key(section, items[j], r) != Key(section, items[k], r) {
      SameKeyIff(section, items[j], items[k], r);
    }
    IndexHoldsLast(section, items, r, k);
  }

  lemma LackedIsNotIndexed(section: Section, items: seq<Item>, item: Item, r: Rendering)
    requires AllLegible(section, items, [item], r)
    ensures Lacks(section, items, item, r) <==> Key(section, item, r) !in Index(section, items, r).items
  {
    IndexHoldsKeys(section, items, r, Key(section, item, r));
    forall i | 0 <= i < |items|
      ensures SameThing(section, items[i], item, r) <==> Key(section, items[i], r) == Key(section, item, r)
    {
      assert item in [item] && items[i] in items;
      SameKeyIff(section, items[i], item, r);
    }
  }

  /** The latest item of a thing is reported as added exactly when the left snapshot lacks the thing. */
  lemma AddedIff(left: Snapshot, right: Snapshot, section: Section, r: Rendering, k: nat)
    requires ToldApartIn(left, right, section, r) && IsLatest(section, ItemsOf(right, section), k, r)
    ensures var item := ItemsOf(right, section)[k];
            Entry(section, Key(section, item, r), item) in Diff(left, right, r).added
            <==> Lacks(section, ItemsOf(left, section), item, r)
  {
    var item := ItemsOf(right, section)[k];
    LatestIsIndexed(section, ItemsOf(right, section), k, r);
    OneOfThem(section, ItemsOf(left, section), ItemsOf(right, section), k, r);
    LackedIsNotIndexed(section, ItemsOf(left, section), item, r);
    IndexedIsAddedIff(left, right, section, item, r);
  }

  lemma OneOfThem(section: Section, xs: seq<Item>, ys: seq<Item>, k: nat, r: Rendering)
    requires AllLegible(section, xs, ys, r) && k < |ys|
    ensures AllLegible(section, xs, [ys[k]], r)
  {
  }

  lemma IndexedIsAddedIff(left: Snapshot, right: Snapshot, section: Section, item: Item, r: Rendering)
    requires IsIndexed(section, ItemsOf(right, section), item, r)
    ensures Entry(section, Key(section, item, r), item) in Diff(left, right, r).added
            <==> Key(section, item, r) !in Index(section, ItemsOf(left, section), r).items
  {
    AddedIsOnlyOnRight(left, right, r, Entry(section, Key(section, item, r), item));
  }

  lemma AddedIsOnlyOnRight(left: Snapshot, right: Snapshot, r: Rendering, e: Entry)
    ensures e in Diff(left, right, r).added <==> OnlyOnRight(left, right, r, e)
  {
    DiffExplains(left, right, r);
    KeyedEverywhere(left, r, At(e));
    KeyedEverywhere(right, r, At(e));
  }

  /** The latest item of a thing is reported as removed exactly when the right snapshot lacks the thing. */
  lemma RemovedIff(left: Snapshot, right: Snapshot, section: Section, r: Rendering, k: nat)
    requires ToldApartIn(left, right, section, r) && IsLatest(section, ItemsOf(left, section), k, r)
    ensures var item := ItemsOf(left, section)[k];
            Entry(section, Key(section, item, r), item) in Diff(left, right, r).removed
            <==> Lacks(section, ItemsOf(right, section), item, r)
  {
    SwapInverts(right, left, r, |SECTIONS|);
    AddedIff(right, left, section, r, k);
  }

  /** Two latest items are reported as a change exactly when they are the same thing and some field differs. */
  lemma ChangedIff(left: Snapshot, right: Snapshot, section: Section, r: Rendering, i: nat, k: nat)
    requires ToldApartIn(left, right, section, r)
    requires IsLatest(section, ItemsOf(left, section), i, r) && IsLatest(section, ItemsOf(right, section), k, r)
    ensures var before, after := ItemsOf(left, section)[i], ItemsOf(right, section)[k];
            Change(section, Key(section, after, r), before, after) in Diff(left, right, r).changed
            <==> SameThing(section, before, after, r) && SomeFieldDiffers(before, after)
  {
    var before, after := ItemsOf(left, section)[i], ItemsOf(right, section)[k];
    LatestIsIndexed(section, ItemsOf(left, section), i, r);
    LatestIsIndexed(section, ItemsOf(right, section), k, r);
    SameKeyIff(section, before, after, r);
    NormalizeTellsFields(before, after);
    IndexedIsChangedIff(left, right, section, before, after, r);
  }

  lemma IndexedIsChangedIff(left: Snapshot, right: Snapshot, section: Section, before: Item, after: Item, r: Rendering)
    requires IsIndexed(section, ItemsOf(left, section), before, r)
    requires IsIndexed(section, ItemsOf(right, section), after, r)
    ensures Change(section, Key(section, after, r), before, after) in Diff(left, right, r).changed
            <==> Key(section, before, r) == Key(section, after, r) && Normalize(before) != Normalize(after)
  {
    var c := Change(section, Key(section, after, r), before, after);
    ChangedDiffersThere(left, right, r, c);
    if c.key in Index(section, ItemsOf(left, section), r).items {
      IndexedHasKey(section, ItemsOf(left, section), r, c.key);
    }
  }

  lemma ChangedDiffersThere(left: Snapshot, right: Snapshot, r: Rendering, c: Change)
    ensures c in Diff(left, right, r).changed <==> DiffersThere(left, right, r, c)
  {
    DiffExplains(left, right, r);
    KeyedEverywhere(left, r, Where(c));
    KeyedEverywhere(right, r, Where(c));
  }

  /** What is indexed under a key has that key. */
  lemma {:induction false} IndexedHasKey(section: Section, items: seq<Item>, r: Rendering, key: Val)
    requires key in Index(section, items, r).items
    ensures var item := Index(section, items, r).items[key]; item in items && Key(section, item, r) == key
  {
    var n := |items| - 1;
    if Key(section, items[n], r) != key { IndexedHasKey(section, items[..n], r, key); }
  }

  /** Nothing else is reported: every entry is about an item of its section, and stands under that item's key. */
  lemma EveryEntryIsAnItem(left: Snapshot, right: Snapshot, r: Rendering, e: Entry)
    ensures e in Diff(left, right, r).added ==> e.item in ItemsOf(right, e.section) && Key(e.section, e.item, r) == e.key
    ensures e in Diff(left, right, r).removed ==> e.item in ItemsOf(left, e.section) && Key(e.section, e.item, r) == e.key
  {
    if e in Diff(left, right, r).added {
      AddedIsAnItem(left, right, r, e);
    }
    if e in Diff(left, right, r).removed {
      SwapInverts(right, left, r, |SECTIONS|);
      AddedIsAnItem(right, left, r, e);
    }
  }

  lemma AddedIsAnItem(left: Snapshot, right: Snapshot, r: Rendering, e: Entry)
    requires e in Diff(left, right, r).added
    ensures e.item in ItemsOf(right, e.section) && Key(e.section, e.item, r) == e.key
  {
    AddedIsOnlyOnRight(left, right, r, e);
    IndexedHasKey(e.section, ItemsOf(right, e.section), r, e.key);
  }

  lemma EveryChangeIsOfItems(left: Snapshot, right: Snapshot, r: Rendering, c: Change)
    requires c in Diff(left, right, r).changed
    ensures c.before in ItemsOf(left, c.section) && Key(c.section, c.before, r) == c.key
    ensures c.after in ItemsOf(right, c.section) && Key(c.section, c.after, r) == c.key
  {
    ChangedDiffersThere(left, right, r, c);
    IndexedHasKey(c.section, ItemsOf(left, c.section), r, c.key);
    IndexedHasKey(c.section, ItemsOf(right, c.section), r, c.key);
  }

  // ---------------------------------------------------------------- in which order it is reported

  function KeysOf(section: Section, items: seq<Item>, r: Rendering): seq<Val> {
    if items == [] then []
    else KeysOf(section, items[..|items| - 1], r) + [Key(section, items[|items| - 1], r)]
  }

  lemma {:induction false} OccursInKeys(section: Section, items: seq<Item>, r: Rendering, k: Val)
    ensures Occurs(KeysOf(section, items, r), Itself, k) <==> k in Index(section, items, r).items
  {
    if items != [] {
      var init, key := items[..|items| - 1], Key(section, items[|items| - 1], r);
      OccursInKeys(section, init, r, k);
      OccursInSnoc(KeysOf(section, init, r), key, Itself);
    }
  }

  /** A dictionary has the keys of the items in the order in which they first come. */
  lemma {:induction false} KeysInFirstOrder(section: Section, items: seq<Item>, r: Rendering)
    ensures Index(section, items, r).keys == KeepFirst(KeysOf(section, items, r), Itself)
  {
    if items != [] {
      var init, key := items[..|items| - 1], Key(section, items[|items| - 1], r);
      KeysInFirstOrder(section, init, r);
      OccursInKeys(section, init, r, key);
      KeepFirstSnoc(KeysOf(section, init, r), key, Itself);
    }
  }

  ghost predicate Precedes(keys: seq<Val>, x: Val, y: Val) {
    exists p, q :: 0 <= p < q < |keys| && keys[p] == x && keys[q] == y
  }

  ghost predicate InKeyOrder(entries: seq<Entry>, keys: seq<Val>) {
    forall i, j :: 0 <= i < j < |entries| ==> Precedes(keys, entries[i].key, entries[j].key)
  }

  ghost predicate ChangesInKeyOrder(changes: seq<Change>, keys: seq<Val>) {
    forall i, j :: 0 <= i < j < |changes| ==> Precedes(keys, changes[i].key, changes[j].key)
  }

  lemma PrecedesLonger(init: seq<Val>, k: Val, x: Val, y: Val)
    ensures Precedes(init, x, y) ==> Precedes(init + [k], x, y)
    ensures x in init ==> Precedes(init + [k], x, k)
  {
    var keys := init + [k];
    if Precedes(init, x, y) {
      var p, q :| 0 <= p < q < |init| && init[p] == x && init[q] == y;
      assert keys[p] == x && keys[q] == y;
    }
    if x in init {
      var p :| 0 <= p < |init| && init[p] == x;
      assert keys[p] == x && keys[|init|] == k;
    }
  }

  /** Entries that only one side has come in the order of its keys. */
  lemma {:induction false} OnlyInOrder(section: Section, keys: seq<Val>, here: map<Val, Item>, there: map<Val, Item>)
    requires forall k :: k in keys ==> k in here
    ensures InKeyOrder(Only(section, keys, here, there), keys)
    ensures forall i :: 0 <= i < |Only(section, keys, here, there)| ==> Only(section, keys, here, there)[i].key in keys
  {
    if keys != [] {
      var init, k := keys[..|keys| - 1], keys[|keys| - 1];
      assert keys == init + [k];
      OnlyInOrder(section, init, here, there);
      var before, after := Only(section, init, here, there), Only(section, keys, here, there);
      forall i, j | 0 <= i < j < |after| ensures Precedes(keys, after[i].key, after[j].key) {
        PrecedesLonger(init, k, after[i].key, after[j].key);
      }
    }
  }

  lemma {:induction false} DifferingInOrder(
      section: Section, keys: seq<Val>, before: map<Val, Item>, after: map<Val, Item>)
    requires forall k :: k in keys ==> k in after
    ensures ChangesInKeyOrder(Differing(section, keys, before, after), keys)
    ensures forall i :: 0 <= i < |Differing(section, keys, before, after)| ==>
              Differing(section, keys, before, after)[i].key in keys
  {
    if keys != [] {
      var init, k := keys[..|keys| - 1], keys[|keys| - 1];
      assert keys == init + [k];
      DifferingInOrder(section, init, before, after);
      var all := Differing(section, keys, before, after);
      forall i, j | 0 <= i < j < |all| ensures Precedes(keys, all[i].key, all[j].key) {
        PrecedesLonger(init, k, all[i].key, all[j].key);
      }
    }
  }

  /** What is added or changed in a section comes in the order of the right snapshot, what is removed in that of the left. */
  lemma SectionInOrder(section: Section, left: Snapshot, right: Snapshot, r: Rendering)
    ensures var report := SectionReport(section, left, right, r);
            var ls, rs := KeysOf(section, ItemsOf(left, section), r), KeysOf(section, ItemsOf(right, section), r);
            && InKeyOrder(report.added, KeepFirst(rs, Itself)) && InKeyOrder(report.removed, KeepFirst(ls, Itself))
            && ChangesInKeyOrder(report.changed, KeepFirst(rs, Itself))
  {
    var l, rt := Index(section, ItemsOf(left, section), r), Index(section, ItemsOf(right, section), r);
    KeysInFirstOrder(section, ItemsOf(left, section), r);
    KeysInFirstOrder(section, ItemsOf(right, section), r);
    OnlyInOrder(section, rt.keys, rt.items, l.items);
    OnlyInOrder(section, l.keys, l.items, rt.items);
    DifferingInOrder(section, rt.keys, l.items, rt.items);
  }

  /** The four parts one after the other. */
  predicate IsFour(report: Report, a: Report, b: Report, c: Report, d: Report) {
    && report.added == a.added + b.added + c.added + d.added
    && report.removed == a.removed + b.removed + c.removed + d.removed
    && report.changed == a.changed + b.changed + c.changed + d.changed
  }

  lemma JoinsToFour(a: Report, b: Report, c: Report, d: Report)
    ensures IsFour(Join(Join(Join(Join(Report([], [], []), a), b), c), d), a, b, c, d)
  {
    assert [] + a.added == a.added && [] + a.removed == a.removed && [] + a.changed == a.changed;
  }

  lemma SectionsAre()
    ensures SECTIONS[0] == Devices && SECTIONS[1] == Links && SECTIONS[2] == Vlans && SECTIONS[3] == Interfaces
  {
  }

  /** The whole report is that of the devices, then of the links, then of the VLANs, then of the interfaces. */
  lemma ReportIsBySection(left: Snapshot, right: Snapshot, r: Rendering)
    ensures IsFour(Diff(left, right, r),
                   SectionReport(Devices, left, right, r), SectionReport(Links, left, right, r),
                   SectionReport(Vlans, left, right, r), SectionReport(Interfaces, left, right, r))
  {
    SectionsAre();
    SectionAdds(left, right, r, 1);
    SectionAdds(left, right, r, 2);
    SectionAdds(left, right, r, 3);
    SectionAdds(left, right, r, 4);
    JoinsToFour(SectionReport(Devices, left, right, r), SectionReport(Links, left, right, r),
                SectionReport(Vlans, left, right, r), SectionReport(Interfaces, left, right, r));
  }
}
