/** Comparing two snapshots section by section, and what the resulting report means as a patch. */
module SnapshotDiff {
  datatype Val = Null | Text(text: string) | Num(n: int) | Real(x: real) | Bool(on: bool)

  /** A snapshot item: its fields, and the order they were written in (which canonical JSON forgets). */
  datatype Item = Item(fields: map<string, Val>, order: seq<string>)

  datatype Section = Devices | Links | Vlans | Interfaces

  type Snapshot = map<Section, seq<Item>>

  /** Python's text renderings, of a value inside an f-string and of a whole item. */
  datatype Rendering = Rendering(show: Val -> string, repr: Item -> string)

  const SECTIONS: seq<Section> := [Devices, Links, Vlans, Interfaces]

  // ---------------------------------------------------------------- keys and normal forms

  function Get(item: Item, name: string): Val { if name in item.fields then item.fields[name] else Null }

  predicate Truthy(v: Val) {
    match v
    case Null => false
    case Text(text) => text != ""
    case Num(n) => n != 0
    case Real(x) => x != 0.0
    case Bool(on) => on
  }

  function Key(section: Section, item: Item, r: Rendering): Val {
    match section
    case Devices =>
      if Truthy(Get(item, "serial")) then Get(item, "serial")
      else if Truthy(Get(item, "management_ip")) then Get(item, "management_ip")
      else if Truthy(Get(item, "hostname")) then Get(item, "hostname")
      else Text(r.repr(item))
    case Links =>
      Text(r.show(Get(item, "interface_a")) + "|" + r.show(Get(item, "interface_b")) + "|" + r.show(Get(item, "method")))
    case Vlans => Text(r.show(Get(item, "device")) + ":" + r.show(Get(item, "vlan_id")))
    case Interfaces => Text(r.show(Get(item, "device")) + ":" + r.show(Get(item, "name")))
  }

  /** The canonical JSON of an item: its fields, whatever order they came in. */
  function Normalize(item: Item): map<string, Val> { item.fields }

  function ItemsOf(snapshot: Snapshot, section: Section): seq<Item> {
    if section in snapshot then snapshot[section] else []
  }

  // ---------------------------------------------------------------- insertion-ordered dictionaries

  /** A dictionary that remembers the order in which its keys first came. */
  datatype Dict = Dict(keys: seq<Val>, items: map<Val, Item>)

  ghost predicate IsDict(d: Dict) {
    && (forall k :: k in d.keys <==> k in d.items)
    && (forall i, j :: 0 <= i < j < |d.keys| ==> d.keys[i] != d.keys[j])
  }

  /** The section as a dictionary: a later item of the same key replaces the earlier one in its place. */
  function Index(section: Section, items: seq<Item>, r: Rendering): (d: Dict)
    ensures IsDict(d)
  {
    if items == [] then Dict([], map[])
    else
      var d, item := Index(section, items[..|items| - 1], r), items[|items| - 1];
      var k := Key(section, item, r);
      Dict(if k in d.items then d.keys else d.keys + [k], d.items[k := item])
  }

  /** Exactly the keys of the items are indexed. */
  lemma {:induction false} IndexHoldsKeys(section: Section, items: seq<Item>, r: Rendering, k: Val)
    ensures k in Index(section, items, r).items <==> exists i :: 0 <= i < |items| && Key(section, items[i], r) == k
  {
    if items != [] {
      var n := |items| - 1;
      IndexHoldsKeys(section, items[..n], r, k);
      if exists i :: 0 <= i < |items| && Key(section, items[i], r) == k {
        var i :| 0 <= i < |items| && Key(section, items[i], r) == k;
        assert i == n || Key(section, items[..n][i], r) == k;
      }
      if k in Index(section, items[..n], r).items {
        var i :| 0 <= i < n && Key(section, items[..n][i], r) == k;
        assert Key(section, items[i], r) == k;
      }
    }
  }

  /** Of several items with one key, the last one is indexed. */
  lemma {:induction false} IndexHoldsLast(section: Section, items: seq<Item>, r: Rendering, i: nat)
    requires i < |items|
    requires forall j :: i < j < |items| ==> Key(section, items[j], r) != Key(section, items[i], r)
    ensures Key(section, items[i], r) in Index(section, items, r).items
    ensures Index(section, items, r).items[Key(section, items[i], r)] == items[i]
  {
    var n := |items| - 1;
    var init, last := items[..n], items[n];
    assert Index(section, items, r).items == Index(section, init, r).items[Key(section, last, r) := last];
    if i < n {
      forall j | i < j < n ensures Key(section, init[j], r) != Key(section, init[i], r) {
        assert init[j] == items[j];
      }
      IndexHoldsLast(section, init, r, i);
    }
  }

  // ---------------------------------------------------------------- the report

  datatype Entry = Entry(section: Section, key: Val, item: Item)
  datatype Change = Change(section: Section, key: Val, before: Item, after: Item)
  datatype Report = Report(added: seq<Entry>, removed: seq<Entry>, changed: seq<Change>)

  /** The entries of `here`, in the order `keys`, that `there` lacks. */
  function Only(section: Section, keys: seq<Val>, here: map<Val, Item>, there: map<Val, Item>): seq<Entry>
    requires forall k :: k in keys ==> k in here
  {
    if keys == [] then []
    else
      var init, k := keys[..|keys| - 1], keys[|keys| - 1];
      assert k in keys;
      Only(section, init, here, there) + if k in there then [] else [Entry(section, k, here[k])]
  }

  /** The keys of both whose items differ in normal form. */
  function Differing(section: Section, keys: seq<Val>, before: map<Val, Item>, after: map<Val, Item>): seq<Change>
    requires forall k :: k in keys ==> k in after
  {
    if keys == [] then []
    else
      var init, k := keys[..|keys| - 1], keys[|keys| - 1];
      assert k in keys;
      Differing(section, init, before, after)
      + if k in before && Normalize(before[k]) != Normalize(after[k]) then [Change(section, k, before[k], after[k])] else []
  }

  function SectionReport(section: Section, left: Snapshot, right: Snapshot, r: Rendering): Report {
    var l, rt := Index(section, ItemsOf(left, section), r), Index(section, ItemsOf(right, section), r);
    Report(Only(section, rt.keys, rt.items, l.items),
           Only(section, l.keys, l.items, rt.items),
           Differing(section, rt.keys, l.items, rt.items))
  }

  function Join(a: Report, b: Report): Report {
    Report(a.added + b.added, a.removed + b.removed, a.changed + b.changed)
  }

  /** The report over the first `n` sections. */
  function Diff(left: Snapshot, right: Snapshot, r: Rendering, n: nat := |SECTIONS|): Report
    requires n <= |SECTIONS|
  {
    if n == 0 then Report([], [], [])
    else Join(Diff(left, right, r, n - 1), SectionReport(SECTIONS[n - 1], left, right, r))
  }

  method BuildIndex(section: Section, items: seq<Item>, r: Rendering) returns (d: Dict)
    ensures d == Index(section, items, r)
  {
    d := Dict([], map[]);
    for i := 0 to |items|
      invariant d == Index(section, items[..i], r)
    {
      assert items[..i + 1][..i] == items[..i];
      var k := Key(section, items[i], r);
      d := Dict(if k in d.items then d.keys else d.keys + [k], d.items[k := items[i]]);
    }
    assert items[..|items|] == items;
  }

  /** The loop over the right dictionary. */
  method ScanRight(section: Section, leftMap: Dict, rightMap: Dict) returns (added: seq<Entry>, changed: seq<Change>)
    requires IsDict(rightMap)
    ensures added == Only(section, rightMap.keys, rightMap.items, leftMap.items)
    ensures changed == Differing(section, rightMap.keys, leftMap.items, rightMap.items)
  {
    added, changed := [], [];
    for i := 0 to |rightMap.keys|
      invariant added == Only(section, rightMap.keys[..i], rightMap.items, leftMap.items)
      invariant changed == Differing(section, rightMap.keys[..i], leftMap.items, rightMap.items)
    {
      var key := rightMap.keys[i];
      assert rightMap.keys[..i + 1][..i] == rightMap.keys[..i];
      var item := rightMap.items[key];
      if key !in leftMap.items {
        added := added + [Entry(section, key, item)];
      } else if Normalize(leftMap.items[key]) != Normalize(item) {
        changed := changed + [Change(section, key, leftMap.items[key], item)];
      }
    }
    assert rightMap.keys[..|rightMap.keys|] == rightMap.keys;
  }

  /** The loop over the left dictionary. */
  method ScanLeft(section: Section, leftMap: Dict, rightMap: Dict) returns (removed: seq<Entry>)
    requires IsDict(leftMap)
    ensures removed == Only(section, leftMap.keys, leftMap.items, rightMap.items)
  {
    removed := [];
    for i := 0 to |leftMap.keys|
      invariant removed == Only(section, leftMap.keys[..i], leftMap.items, rightMap.items)
    {
      var key := leftMap.keys[i];
      assert leftMap.keys[..i + 1][..i] == leftMap.keys[..i];
      if key !in rightMap.items {
        removed := removed + [Entry(section, key, leftMap.items[key])];
      }
    }
    assert leftMap.keys[..|leftMap.keys|] == leftMap.keys;
  }

  method CompareSection(section: Section, left: Snapshot, right: Snapshot, r: Rendering) returns (report: Report)
    ensures report == SectionReport(section, left, right, r)
  {
    var leftMap := BuildIndex(section, ItemsOf(left, section), r);
    var rightMap := BuildIndex(section, ItemsOf(right, section), r);
    var added, changed := ScanRight(section, leftMap, rightMap);
    var removed := ScanLeft(section, leftMap, rightMap);
    report := Report(added, removed, changed);
  }

  method Compare(left: Snapshot, right: Snapshot, r: Rendering) returns (report: Report)
    ensures report == Diff(left, right, r)
  {
    report := Report([], [], []);
    for n := 0 to |SECTIONS|
      invariant report == Diff(left, right, r, n)
    {
      var next := CompareSection(SECTIONS[n], left, right, r);
      report := Join(report, next);
    }
  }

  // ---------------------------------------------------------------- the keyed view and what is in a report

  datatype Place = Place(section: Section, key: Val)

  /** A snapshot as one keyed map over all four sections. */
  function Keyed(snapshot: Snapshot, r: Rendering, n: nat := |SECTIONS|): map<Place, Item>
    requires n <= |SECTIONS|
  {
    if n == 0 then map[]
    else Keyed(snapshot, r, n - 1) + Placed(SECTIONS[n - 1], Items(snapshot, SECTIONS[n - 1], r))
  }

  lemma SectionsDistinct(i: nat, j: nat)
    requires i < |SECTIONS| && j < |SECTIONS| && SECTIONS[i] == SECTIONS[j]
    ensures i == j
  {
  }

  lemma EarlierSectionsDiffer(n: nat)
    requires n < |SECTIONS|
    ensures forall i :: 0 <= i < n ==> SECTIONS[i] != SECTIONS[n]
  {
    forall i | 0 <= i < n ensures SECTIONS[i] != SECTIONS[n] {
      if SECTIONS[i] == SECTIONS[n] { SectionsDistinct(i, n); }
    }
  }

  predicate OneOfFirst(section: Section, n: nat)
    requires n <= |SECTIONS|
  {
    exists i :: 0 <= i < n && SECTIONS[i] == section
  }

  lemma OneMoreSection(section: Section, n: nat)
    requires n < |SECTIONS|
    ensures OneOfFirst(section, n + 1) <==> OneOfFirst(section, n) || SECTIONS[n] == section
  {
  }

  lemma EverySectionIsCompared(section: Section)
    ensures OneOfFirst(section, |SECTIONS|)
  {
    assert SECTIONS[0] == Devices && SECTIONS[1] == Links && SECTIONS[2] == Vlans && SECTIONS[3] == Interfaces;
    match section {
      case Devices => assert SECTIONS[0] == section;
      case Links => assert SECTIONS[1] == section;
      case Vlans => assert SECTIONS[2] == section;
      case Interfaces => assert SECTIONS[3] == section;
    }
  }

  /** The dictionary of one section of a snapshot. */
  function Items(snapshot: Snapshot, section: Section, r: Rendering): map<Val, Item> {
    Index(section, ItemsOf(snapshot, section), r).items
  }

  /** The entries of one section as a keyed view. */
  function Placed(section: Section, items: map<Val, Item>): (m: map<Place, Item>)
    ensures forall p :: p in m <==> p.section == section && p.key in items
    ensures forall p :: p in m ==> m[p] == items[p.key]
  {
    map k | k in items :: Place(section, k) := items[k]
  }

  /** The place is one of the section's dictionary and has that item. */
  ghost predicate KeyedBy(m: map<Place, Item>, p: Place, there: bool, items: map<Val, Item>) {
    (p in m <==> there && p.key in items) && (p in m ==> m[p] == items[p.key])
  }

  lemma PlacedOver(m: map<Place, Item>, section: Section, items: map<Val, Item>, p: Place, there: bool, own: map<Val, Item>)
    requires KeyedBy(m, p, there, own)
    requires p.section == section ==> items == own && !there
    ensures KeyedBy(m + Placed(section, items), p, there || section == p.section, own)
  {
  }

  /** The keyed view at a place of one of the first `n` sections is that section's dictionary. */
  lemma {:induction false} KeyedAt(snapshot: Snapshot, r: Rendering, n: nat, p: Place)
    requires n <= |SECTIONS|
    ensures KeyedBy(Keyed(snapshot, r, n), p, OneOfFirst(p.section, n), Items(snapshot, p.section, r))
  {
    if n > 0 {
      KeyedAt(snapshot, r, n - 1, p);
      OneMoreSection(p.section, n - 1);
      NotTwice(n - 1);
      PlacedOver(Keyed(snapshot, r, n - 1), SECTIONS[n - 1], Items(snapshot, SECTIONS[n - 1], r), p,
                 OneOfFirst(p.section, n - 1), Items(snapshot, p.section, r));
    }
  }

  lemma NotTwice(n: nat)
    requires n < |SECTIONS|
    ensures !OneOfFirst(SECTIONS[n], n)
  {
    EarlierSectionsDiffer(n);
  }

  lemma KeyedEverywhere(snapshot: Snapshot, r: Rendering, p: Place)
    ensures p in Keyed(snapshot, r) <==> p.key in Items(snapshot, p.section, r)
    ensures p in Keyed(snapshot, r) ==> Keyed(snapshot, r)[p] == Items(snapshot, p.section, r)[p.key]
  {
    KeyedAt(snapshot, r, |SECTIONS|, p);
    EverySectionIsCompared(p.section);
  }

  lemma {:induction false} OnlyIs(section: Section, keys: seq<Val>, here: map<Val, Item>, there: map<Val, Item>, e: Entry)
    requires forall k :: k in keys ==> k in here
    ensures e in Only(section, keys, here, there) <==>
              e.section == section && e.key in keys && e.key !in there && e.item == here[e.key]
  {
    if keys != [] {
      var n := |keys| - 1;
      OnlyIs(section, keys[..n], here, there, e);
      assert keys == keys[..n] + [keys[n]];
    }
  }

  lemma {:induction false} DifferingIs(section: Section, keys: seq<Val>, before: map<Val, Item>, after: map<Val, Item>, c: Change)
    requires forall k :: k in keys ==> k in after
    ensures c in Differing(section, keys, before, after) <==>
              && c.section == section && c.key in keys && c.key in before
              && c.before == before[c.key] && c.after == after[c.key]
              && Normalize(c.before) != Normalize(c.after)
  {
    if keys != [] {
      var n := |keys| - 1;
      DifferingIs(section, keys[..n], before, after, c);
      assert keys == keys[..n] + [keys[n]];
    }
  }

  function At(e: Entry): Place { Place(e.section, e.key) }
  function Where(c: Change): Place { Place(c.section, c.key) }

  /** Membership in a report, read off the keyed views alone. */
  ghost predicate Explains(report: Report, left: map<Place, Item>, right: map<Place, Item>) {
    && (forall e :: e in report.added <==> At(e) in right && At(e) !in left && e.item == right[At(e)])
    && (forall e :: e in report.removed <==> At(e) in left && At(e) !in right && e.item == left[At(e)])
    && (forall c :: c in report.changed <==>
          && Where(c) in left && Where(c) in right
          && c.before == left[Where(c)] && c.after == right[Where(c)]
          && Normalize(c.before) != Normalize(c.after))
  }

  /** What the added list must hold, section by section. */
  predicate OnlyOnRight(left: Snapshot, right: Snapshot, r: Rendering, e: Entry) {
    var l, rt := Items(left, e.section, r), Items(right, e.section, r);
    e.key in rt && e.key !in l && e.item == rt[e.key]
  }

  predicate DiffersThere(left: Snapshot, right: Snapshot, r: Rendering, c: Change) {
    var l, rt := Items(left, c.section, r), Items(right, c.section, r);
    c.key in l && c.key in rt && c.before == l[c.key] && c.after == rt[c.key]
    && Normalize(c.before) != Normalize(c.after)
  }

  lemma SectionSays(section: Section, left: Snapshot, right: Snapshot, r: Rendering, e: Entry, c: Change)
    ensures e in SectionReport(section, left, right, r).added
            <==> e.section == section && OnlyOnRight(left, right, r, e)
    ensures c in SectionReport(section, left, right, r).changed
            <==> c.section == section && DiffersThere(left, right, r, c)
  {
    var l, rt := Index(section, ItemsOf(left, section), r), Index(section, ItemsOf(right, section), r);
    OnlyIs(section, rt.keys, rt.items, l.items, e);
    DifferingIs(section, rt.keys, l.items, rt.items, c);
  }

  /** What a report over the first `n` sections must hold. */
  ghost predicate Says(report: Report, n: nat, left: Snapshot, right: Snapshot, r: Rendering, e: Entry, c: Change)
    requires n <= |SECTIONS|
  {
    && (e in report.added <==> OneOfFirst(e.section, n) && OnlyOnRight(left, right, r, e))
    && (c in report.changed <==> OneOfFirst(c.section, n) && DiffersThere(left, right, r, c))
  }

  lemma OneMoreSays(report: Report, n: nat, left: Snapshot, right: Snapshot, r: Rendering, e: Entry, c: Change)
    requires n < |SECTIONS| && Says(report, n, left, right, r, e, c)
    ensures Says(Join(report, SectionReport(SECTIONS[n], left, right, r)), n + 1, left, right, r, e, c)
  {
    SectionSays(SECTIONS[n], left, right, r, e, c);
    OneMoreSection(e.section, n);
    OneMoreSection(c.section, n);
    JoinHolds(report, SectionReport(SECTIONS[n], left, right, r), e, c);
  }

  /** Exactly what only the right has is added, and exactly what differs is changed, section by section. */
  lemma {:induction false} ReportSays(left: Snapshot, right: Snapshot, r: Rendering, n: nat, e: Entry, c: Change)
    requires n <= |SECTIONS|
    ensures Says(Diff(left, right, r, n), n, left, right, r, e, c)
  {
    if n > 0 {
      ReportSays(left, right, r, n - 1, e, c);
      OneMoreSays(Diff(left, right, r, n - 1), n - 1, left, right, r, e, c);
    }
  }

  lemma JoinHolds(a: Report, b: Report, e: Entry, c: Change)
    ensures e in Join(a, b).added <==> e in a.added || e in b.added
    ensures c in Join(a, b).changed <==> c in a.changed || c in b.changed
  {
  }

  /** A report says exactly how the two keyed views differ. */
  lemma DiffExplains(left: Snapshot, right: Snapshot, r: Rendering)
    ensures Explains(Diff(left, right, r), Keyed(left, r), Keyed(right, r))
  {
    SwapInverts(left, right, r, |SECTIONS|);
    forall e: Entry
      ensures e in Diff(left, right, r).added <==>
                At(e) in Keyed(right, r) && At(e) !in Keyed(left, r) && e.item == Keyed(right, r)[At(e)]
      ensures e in Diff(left, right, r).removed <==>
                At(e) in Keyed(left, r) && At(e) !in Keyed(right, r) && e.item == Keyed(left, r)[At(e)]
    {
      EntryExplained(left, right, r, e);
      EntryExplained(right, left, r, e);
    }
    forall c: Change
      ensures c in Diff(left, right, r).changed <==>
                && Where(c) in Keyed(left, r) && Where(c) in Keyed(right, r)
                && c.before == Keyed(left, r)[Where(c)] && c.after == Keyed(right, r)[Where(c)]
                && Normalize(c.before) != Normalize(c.after)
    {
      ChangeExplained(left, right, r, c);
    }
  }

  lemma EntryExplained(left: Snapshot, right: Snapshot, r: Rendering, e: Entry)
    ensures e in Diff(left, right, r).added <==>
              At(e) in Keyed(right, r) && At(e) !in Keyed(left, r) && e.item == Keyed(right, r)[At(e)]
  {
    EverySectionIsCompared(e.section);
    ReportSays(left, right, r, |SECTIONS|, e, Change(e.section, e.key, e.item, e.item));
    KeyedEverywhere(left, r, At(e));
    KeyedEverywhere(right, r, At(e));
  }

  lemma ChangeExplained(left: Snapshot, right: Snapshot, r: Rendering, c: Change)
    ensures c in Diff(left, right, r).changed <==>
              && Where(c) in Keyed(left, r) && Where(c) in Keyed(right, r)
              && c.before == Keyed(left, r)[Where(c)] && c.after == Keyed(right, r)[Where(c)]
              && Normalize(c.before) != Normalize(c.after)
  {
    EverySectionIsCompared(c.section);
    ReportSays(left, right, r, |SECTIONS|, Entry(c.section, c.key, c.before), c);
    KeyedEverywhere(left, r, Where(c));
    KeyedEverywhere(right, r, Where(c));
  }

  // ---------------------------------------------------------------- the report as a patch

  function Drop(m: map<Place, Item>, removed: seq<Entry>): map<Place, Item> {
    if removed == [] then m else Drop(m, removed[..|removed| - 1]) - {At(removed[|removed| - 1])}
  }

  function Put(m: map<Place, Item>, added: seq<Entry>): map<Place, Item> {
    if added == [] then m
    else Put(m, added[..|added| - 1])[At(added[|added| - 1]) := added[|added| - 1].item]
  }

  function Amend(m: map<Place, Item>, changed: seq<Change>): map<Place, Item> {
    if changed == [] then m
    else Amend(m, changed[..|changed| - 1])[Where(changed[|changed| - 1]) := changed[|changed| - 1].after]
  }

  /** Removes, then adds, then amends, entry by entry. */
  function Apply(report: Report, m: map<Place, Item>): map<Place, Item> {
    Amend(Put(Drop(m, report.removed), report.added), report.changed)
  }

  /** Equal up to normal form, key by key. */
  ghost predicate SameContent(x: map<Place, Item>, y: map<Place, Item>) {
    x.Keys == y.Keys && forall p :: p in x ==> Normalize(x[p]) == Normalize(y[p])
  }

  lemma {:induction false} DropIs(m: map<Place, Item>, removed: seq<Entry>, p: Place)
    ensures p in Drop(m, removed) <==> p in m && forall k :: 0 <= k < |removed| ==> At(removed[k]) != p
    ensures p in Drop(m, removed) ==> Drop(m, removed)[p] == m[p]
  {
    if removed != [] {
      DropIs(m, removed[..|removed| - 1], p);
    }
  }

  lemma {:induction false} PutIs(m: map<Place, Item>, added: seq<Entry>, p: Place)
    ensures if exists k :: 0 <= k < |added| && At(added[k]) == p
            then p in Put(m, added) && exists k :: 0 <= k < |added| && At(added[k]) == p && Put(m, added)[p] == added[k].item
            else (p in Put(m, added) <==> p in m) && (p in m ==> Put(m, added)[p] == m[p])
  {
    if added != [] {
      var n := |added| - 1;
      var init := added[..n];
      PutIs(m, init, p);
      if exists k :: 0 <= k < |added| && At(added[k]) == p {
        if At(added[n]) == p {
          assert Put(m, added)[p] == added[n].item;
        } else {
          var k :| 0 <= k < |added| && At(added[k]) == p;
          assert At(init[k]) == p;
          var j :| 0 <= j < n && At(init[j]) == p && Put(m, init)[p] == init[j].item;
          assert At(added[j]) == p && Put(m, added)[p] == added[j].item;
        }
      } else {
        assert forall k :: 0 <= k < n ==> At(init[k]) == At(added[k]);
      }
    }
  }

  lemma {:induction false} AmendIs(m: map<Place, Item>, changed: seq<Change>, p: Place)
    ensures if exists k :: 0 <= k < |changed| && Where(changed[k]) == p
            then p in Amend(m, changed)
                 && exists k :: 0 <= k < |changed| && Where(changed[k]) == p && Amend(m, changed)[p] == changed[k].after
            else (p in Amend(m, changed) <==> p in m) && (p in m ==> Amend(m, changed)[p] == m[p])
  {
    if changed != [] {
      var n := |changed| - 1;
      var init := changed[..n];
      AmendIs(m, init, p);
      if exists k :: 0 <= k < |changed| && Where(changed[k]) == p {
        if Where(changed[n]) == p {
          assert Amend(m, changed)[p] == changed[n].after;
        } else {
          var k :| 0 <= k < |changed| && Where(changed[k]) == p;
          assert Where(init[k]) == p;
          var j :| 0 <= j < n && Where(init[j]) == p && Amend(m, init)[p] == init[j].after;
          assert Where(changed[j]) == p && Amend(m, changed)[p] == changed[j].after;
        }
      } else {
        assert forall k :: 0 <= k < n ==> Where(init[k]) == Where(changed[k]);
      }
    }
  }

  /** A report that explains the difference turns the left side into the right side. */
  lemma PatchAt(report: Report, left: map<Place, Item>, right: map<Place, Item>, p: Place)
    requires Explains(report, left, right)
    ensures p in Apply(report, left) <==> p in right
    ensures p in right ==> Normalize(Apply(report, left)[p]) == Normalize(right[p])
  {
    var dropped := Drop(left, report.removed);
    var put := Put(dropped, report.added);
    DropIs(left, report.removed, p);
    PutIs(dropped, report.added, p);
    AmendIs(put, report.changed, p);
    if p in left && p !in right {
      var e := Entry(p.section, p.key, left[p]);
      assert e in report.removed && At(e) == p;
    }
    if p in right && p !in left {
      var e := Entry(p.section, p.key, right[p]);
      assert e in report.added && At(e) == p;
    }
    if p in left && p in right && Normalize(left[p]) != Normalize(right[p]) {
      var c := Change(p.section, p.key, left[p], right[p]);
      assert c in report.changed && Where(c) == p;
    }
    forall k | 0 <= k < |report.added| ensures report.added[k] in report.added {}
    forall k | 0 <= k < |report.removed| ensures report.removed[k] in report.removed {}
    forall k | 0 <= k < |report.changed| ensures report.changed[k] in report.changed {}
  }

  lemma PatchGives(report: Report, left: map<Place, Item>, right: map<Place, Item>)
    requires Explains(report, left, right)
    ensures SameContent(Apply(report, left), right)
  {
    var patched := Apply(report, left);
    forall p: Place
      ensures p in patched <==> p in right
      ensures p in right ==> Normalize(patched[p]) == Normalize(right[p])
    {
      PatchAt(report, left, right, p);
    }
  }

  /** Applying the comparison to the left snapshot gives the right one, and applying the opposite one goes back. */
  lemma PatchRoundTrip(left: Snapshot, right: Snapshot, r: Rendering)
    ensures SameContent(Apply(Diff(left, right, r), Keyed(left, r)), Keyed(right, r))
    ensures SameContent(Apply(Diff(right, left, r), Keyed(right, r)), Keyed(left, r))
  {
    DiffExplains(left, right, r);
    DiffExplains(right, left, r);
    PatchGives(Diff(left, right, r), Keyed(left, r), Keyed(right, r));
    PatchGives(Diff(right, left, r), Keyed(right, r), Keyed(left, r));
  }

  lemma NothingToSayIffSame(report: Report, l: map<Place, Item>, rt: map<Place, Item>)
    requires Explains(report, l, rt)
    ensures report == Report([], [], []) <==> SameContent(l, rt)
  {
    assert report.added != [] ==> report.added[0] in report.added;
    assert report.removed != [] ==> report.removed[0] in report.removed;
    assert report.changed != [] ==> report.changed[0] in report.changed;
    if report == Report([], [], []) {
      var nothing := Item(map[], []);
      forall p ensures p in l <==> p in rt {
        assert At(Entry(p.section, p.key, if p in l then l[p] else nothing)) == p;
        assert At(Entry(p.section, p.key, if p in rt then rt[p] else nothing)) == p;
      }
      forall p | p in l ensures Normalize(l[p]) == Normalize(rt[p]) {
        assert Where(Change(p.section, p.key, l[p], rt[p])) == p;
      }
    }
  }

  /** The diff is empty exactly when the keyed sections agree up to normal form. */
  lemma EmptyIffSameContent(left: Snapshot, right: Snapshot, r: Rendering)
    ensures Diff(left, right, r) == Report([], [], []) <==> SameContent(Keyed(left, r), Keyed(right, r))
  {
    DiffExplains(left, right, r);
    NothingToSayIffSame(Diff(left, right, r), Keyed(left, r), Keyed(right, r));
  }

  /** No place occurs in two of the three lists. */
  ghost predicate Disjoint(report: Report) {
    && (forall e, f :: e in report.added && f in report.removed ==> At(e) != At(f))
    && (forall e, c :: e in report.added && c in report.changed ==> At(e) != Where(c))
    && (forall e, c :: e in report.removed && c in report.changed ==> At(e) != Where(c))
  }

  lemma ListsDisjoint(left: Snapshot, right: Snapshot, r: Rendering)
    ensures Disjoint(Diff(left, right, r))
  {
    DiffExplains(left, right, r);
  }

  function Swapped(c: Change): Change { Change(c.section, c.key, c.after, c.before) }

  /** The one report adds what the other removes, and removes what it adds, in the same order. */
  predicate Opposite(a: Report, b: Report) { a.added == b.removed && a.removed == b.added }

  lemma JoinOpposite(a: Report, b: Report, c: Report, d: Report)
    requires Opposite(a, b) && Opposite(c, d)
    ensures Opposite(Join(a, c), Join(b, d))
  {
  }

  /** Swapping the arguments swaps added with removed, and before with after in every change. */
  lemma {:induction false} SwapInverts(left: Snapshot, right: Snapshot, r: Rendering, n: nat)
    requires n <= |SECTIONS|
    ensures Opposite(Diff(right, left, r, n), Diff(left, right, r, n))
  {
    if n > 0 {
      var section := SECTIONS[n - 1];
      SwapInverts(left, right, r, n - 1);
      SectionSwaps(section, left, right, r);
      JoinOpposite(Diff(right, left, r, n - 1), Diff(left, right, r, n - 1),
                   SectionReport(section, right, left, r), SectionReport(section, left, right, r));
    }
  }

  lemma SectionSwaps(section: Section, left: Snapshot, right: Snapshot, r: Rendering)
    ensures Opposite(SectionReport(section, right, left, r), SectionReport(section, left, right, r))
  {
  }

  lemma SwapInvertsChanges(left: Snapshot, right: Snapshot, r: Rendering, c: Change)
    ensures c in Diff(left, right, r).changed <==> Swapped(c) in Diff(right, left, r).changed
  {
    ChangeExplained(left, right, r, c);
    ChangeExplained(right, left, r, Swapped(c));
  }

  // ---------------------------------------------------------------- every place is reported once

  ghost predicate DistinctKeys(keys: seq<Val>) {
    forall i, j :: 0 <= i < j < |keys| ==> keys[i] != keys[j]
  }

  ghost predicate EntriesOnce(entries: seq<Entry>) {
    forall i, j :: 0 <= i < j < |entries| ==> At(entries[i]) != At(entries[j])
  }

  ghost predicate ChangesOnce(changes: seq<Change>) {
    forall i, j :: 0 <= i < j < |changes| ==> Where(changes[i]) != Where(changes[j])
  }

  /** The entries are about the given keys of one section. */
  ghost predicate EntriesAbout(entries: seq<Entry>, section: Section, keys: seq<Val>) {
    forall i :: 0 <= i < |entries| ==> entries[i].section == section && entries[i].key in keys
  }

  ghost predicate ChangesAbout(changes: seq<Change>, section: Section, keys: seq<Val>) {
    forall i :: 0 <= i < |changes| ==> changes[i].section == section && changes[i].key in keys
  }

  lemma EntrySnoc(entries: seq<Entry>, e: Entry, section: Section, init: seq<Val>)
    requires EntriesOnce(entries) && EntriesAbout(entries, section, init) && e.section == section && e.key !in init
    ensures EntriesOnce(entries + [e]) && EntriesAbout(entries + [e], section, init + [e.key])
  {
  }

  lemma ChangeSnoc(changes: seq<Change>, c: Change, section: Section, init: seq<Val>)
    requires ChangesOnce(changes) && ChangesAbout(changes, section, init) && c.section == section && c.key !in init
    ensures ChangesOnce(changes + [c]) && ChangesAbout(changes + [c], section, init + [c.key])
  {
  }

  lemma {:induction false} OnlyOnce(section: Section, keys: seq<Val>, here: map<Val, Item>, there: map<Val, Item>)
    requires DistinctKeys(keys) && forall k :: k in keys ==> k in here
    ensures EntriesOnce(Only(section, keys, here, there))
    ensures EntriesAbout(Only(section, keys, here, there), section, keys)
  {
    if keys != [] {
      var init, k := keys[..|keys| - 1], keys[|keys| - 1];
      assert keys == init + [k] && k !in init;
      OnlyOnce(section, init, here, there);
      if k !in there { EntrySnoc(Only(section, init, here, there), Entry(section, k, here[k]), section, init); }
    }
  }

  lemma {:induction false} DifferingOnce(
      section: Section, keys: seq<Val>, before: map<Val, Item>, after: map<Val, Item>)
    requires DistinctKeys(keys) && forall k :: k in keys ==> k in after
    ensures ChangesOnce(Differing(section, keys, before, after))
    ensures ChangesAbout(Differing(section, keys, before, after), section, keys)
  {
    if keys != [] {
      var init, k := keys[..|keys| - 1], keys[|keys| - 1];
      assert keys == init + [k] && k !in init;
      DifferingOnce(section, init, before, after);
      if k in before && Normalize(before[k]) != Normalize(after[k]) {
        ChangeSnoc(Differing(section, init, before, after), Change(section, k, before[k], after[k]), section, init);
      }
    }
  }

  /** The report is about the first `n` sections only. */
  ghost predicate AboutFirst(report: Report, n: nat)
    requires n <= |SECTIONS|
  {
    && (forall i :: 0 <= i < |report.added| ==> report.added[i].section in SECTIONS[..n])
    && (forall i :: 0 <= i < |report.removed| ==> report.removed[i].section in SECTIONS[..n])
    && (forall i :: 0 <= i < |report.changed| ==> report.changed[i].section in SECTIONS[..n])
  }

  ghost predicate ReportsOnce(report: Report) {
    EntriesOnce(report.added) && EntriesOnce(report.removed) && ChangesOnce(report.changed)
  }

  ghost predicate AboutOne(report: Report, section: Section) {
    && (forall i :: 0 <= i < |report.added| ==> report.added[i].section == section)
    && (forall i :: 0 <= i < |report.removed| ==> report.removed[i].section == section)
    && (forall i :: 0 <= i < |report.changed| ==> report.changed[i].section == section)
  }

  // The matches keep this definition and the next folded until a proof takes the report apart.
  ghost predicate OnceAt(report: Report, section: Section) {
    match report
    case Report(_, _, _) => ReportsOnce(report) && AboutOne(report, section)
  }

  lemma SectionOnce(section: Section, left: Snapshot, right: Snapshot, r: Rendering)
    ensures OnceAt(SectionReport(section, left, right, r), section)
  {
    var l, rt := Index(section, ItemsOf(left, section), r), Index(section, ItemsOf(right, section), r);
    OnlyOnce(section, rt.keys, rt.items, l.items);
    OnlyOnce(section, l.keys, l.items, rt.items);
    DifferingOnce(section, rt.keys, l.items, rt.items);
  }

  ghost predicate OnceUpTo(report: Report, n: nat)
    requires n <= |SECTIONS|
  {
    match report
    case Report(_, _, _) => ReportsOnce(report) && AboutFirst(report, n)
  }

  lemma NothingOnce()
    ensures OnceUpTo(Report([], [], []), 0)
  {
  }

  lemma SectionAdds(left: Snapshot, right: Snapshot, r: Rendering, n: nat)
    requires 0 < n <= |SECTIONS|
    ensures Diff(left, right, r, n) == Join(Diff(left, right, r, n - 1), SectionReport(SECTIONS[n - 1], left, right, r))
  {
  }

  lemma JoinOnce(a: Report, b: Report, n: nat)
    requires n < |SECTIONS| && OnceUpTo(a, n) && OnceAt(b, SECTIONS[n])
    ensures OnceUpTo(Join(a, b), n + 1)
  {
    EarlierSectionsDiffer(n);
    assert SECTIONS[n] !in SECTIONS[..n];
    assert SECTIONS[..n + 1] == SECTIONS[..n] + [SECTIONS[n]];
  }

  /** No list of a report names a place twice, however often the snapshots repeat a key. */
  lemma {:induction false} EachPlaceOnce(left: Snapshot, right: Snapshot, r: Rendering, n: nat)
    requires n <= |SECTIONS|
    ensures OnceUpTo(Diff(left, right, r, n), n)
  {
    if n == 0 {
      NothingOnce();
    } else {
      var section := SECTIONS[n - 1];
      EachPlaceOnce(left, right, r, n - 1);
      SectionOnce(section, left, right, r);
      JoinOnce(Diff(left, right, r, n - 1), SectionReport(section, left, right, r), n - 1);
      SectionAdds(left, right, r, n);
    }
  }
}
