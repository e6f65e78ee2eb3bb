/** The inventory tables, the rules every step must keep, and what replacing a device's interfaces means. */
module Inventory {
  import opened Common
  import opened DeviceIdentity

  /** Row identifiers; their text order is their numeric order, as for UUIDs. */
  datatype Id = Uuid(n: nat)

  datatype IfaceFields = IfaceFields(
    ifIndex: Option<string>, description: Option<string>, mac: Option<string>, mtu: Option<int>,
    duplex: Option<string>, speedBps: Option<int>, poeEnabled: bool, adminStatus: string, operStatus: string,
    isTrunk: bool, nativeVlan: Option<int>, lacpGroup: Option<string>, taggedVlans: seq<int>)

  datatype IfaceRow = IfaceRow(deviceId: Id, name: string, fields: IfaceFields)

  datatype DiscoveryMethod = Lldp | Cdp | Fdb | Arp | ManualSeed

  datatype LinkFacts = LinkFacts(
    discovery: DiscoveryMethod, speedBps: Option<int>, lacpKey: Option<string>, isTrunk: bool,
    vlans: seq<int>, confidence: real, linkStatus: string)

  datatype LinkRow = LinkRow(a: Id, b: Id, facts: LinkFacts)

  /** An IPAM address that may point at an interface (a foreign key without a delete rule). */
  datatype AddressRow = AddressRow(address: string, interfaceId: Option<Id>)

  datatype Db = Db(
    devices: map<Id, DeviceRow>, interfaces: map<Id, IfaceRow>,
    links: map<Id, LinkRow>, addresses: map<Id, AddressRow>)

  // ---------------------------------------------------------------- integrity

  predicate SameKey(interfaces: map<Id, IfaceRow>, i: Id, j: Id) {
    && i in interfaces && j in interfaces
    && interfaces[i].deviceId == interfaces[j].deviceId && interfaces[i].name == interfaces[j].name
  }

  ghost predicate UniqueNames(interfaces: map<Id, IfaceRow>) {
    forall i, j {:trigger SameKey(interfaces, i, j)} :: SameKey(interfaces, i, j) ==> i == j
  }

  predicate SamePair(links: map<Id, LinkRow>, k: Id, l: Id) {
    k in links && l in links && links[k].a == links[l].a && links[k].b == links[l].b
  }

  ghost predicate LinksIntact(links: map<Id, LinkRow>, interfaces: map<Id, IfaceRow>) {
    && (forall l :: l in links ==> links[l].a.n <= links[l].b.n && links[l].a in interfaces && links[l].b in interfaces)
    && (forall k, l {:trigger SamePair(links, k, l)} :: SamePair(links, k, l) ==> k == l)
  }

  ghost predicate AddressesIntact(addresses: map<Id, AddressRow>, interfaces: map<Id, IfaceRow>) {
    forall x :: x in addresses && addresses[x].interfaceId.Some? ==> addresses[x].interfaceId.value in interfaces
  }

  ghost predicate InterfacesIntact(interfaces: map<Id, IfaceRow>, devices: map<Id, DeviceRow>) {
    && UniqueNames(interfaces)
    && (forall i :: i in interfaces ==> interfaces[i].name != "" && interfaces[i].deviceId in devices)
  }

  /** Unique keys, no empty names, canonical link pairs, no dangling reference. */
  ghost predicate Intact(db: Db) {
    match db
    case Db(devices, interfaces, links, addresses) =>
      && InterfacesIntact(interfaces, devices)
      && LinksIntact(links, interfaces)
      && AddressesIntact(addresses, interfaces)
  }

  // ---------------------------------------------------------------- an interface list as a keyed map

  /** One entry of the list a caller hands over. */
  datatype Spec = Spec(id: Id, name: string, fields: IfaceFields)

  /** Interface rows of one device by name. */
  function ByName(interfaces: map<Id, IfaceRow>, device: Id): (m: map<string, Id>)
    requires UniqueNames(interfaces)
    ensures forall i :: i in interfaces && interfaces[i].deviceId == device ==>
              interfaces[i].name in m && m[interfaces[i].name] == i
    ensures forall s :: s in m ==>
              m[s] in interfaces && interfaces[m[s]].deviceId == device && interfaces[m[s]].name == s
  {
    assert forall i, j :: i in interfaces && j in interfaces && interfaces[i].deviceId == device
                          && interfaces[j].deviceId == device && interfaces[i].name == interfaces[j].name ==>
                          SameKey(interfaces, i, j);
    map i | i in interfaces && interfaces[i].deviceId == device :: interfaces[i].name := i
  }

  /** The named entries of a list as a keyed map: a later entry of the same name overrides an earlier one. */
  function Kept(specs: seq<Spec>): map<string, IfaceFields> {
    if specs == [] then map[]
    else
      var init, last := Kept(specs[..|specs| - 1]), specs[|specs| - 1];
      if last.name == "" then init else init[last.name := last.fields]
  }

  /** For every name of a list, the identifier its first entry carries. */
  function FirstIds(specs: seq<Spec>): (m: map<string, Id>)
    ensures m.Keys == Kept(specs).Keys
  {
    if specs == [] then map[]
    else
      var init, last := FirstIds(specs[..|specs| - 1]), specs[|specs| - 1];
      if last.name == "" || last.name in init then init else init[last.name := last.id]
  }

  /** The names a list keeps: those that are not empty. */
  function Names(specs: seq<Spec>): set<string> { Kept(specs).Keys }

  lemma {:induction false} NamesAreNonEmptyNames(specs: seq<Spec>, s: string)
    ensures s in Names(specs) <==> s != "" && exists k :: 0 <= k < |specs| && specs[k].name == s
  {
    if specs != [] {
      var n := |specs| - 1;
      NamesAreNonEmptyNames(specs[..n], s);
      if s in Names(specs[..n]) {
        var k :| 0 <= k < n && specs[..n][k].name == s;
        assert specs[k].name == s;
      }
      if s != "" && exists k :: 0 <= k < |specs| && specs[k].name == s {
        var k :| 0 <= k < |specs| && specs[k].name == s;
        if k < n { assert specs[..n][k].name == s; }
      }
    }
  }

  /** The map holds the fields of the last entry of each name. */
  lemma {:induction false} KeptIsLast(specs: seq<Spec>, k: nat)
    requires k < |specs| && specs[k].name != ""
    requires forall j :: k < j < |specs| ==> specs[j].name != specs[k].name
    ensures specs[k].name in Kept(specs) && Kept(specs)[specs[k].name] == specs[k].fields
  {
    var n := |specs| - 1;
    if k < n {
      KeptIsLast(specs[..n], k);
    }
  }

  lemma {:induction false} FirstIdIsFirst(specs: seq<Spec>, k: nat)
    requires k < |specs| && specs[k].name != ""
    requires forall j :: 0 <= j < k ==> specs[j].name != specs[k].name
    ensures specs[k].name in FirstIds(specs) && FirstIds(specs)[specs[k].name] == specs[k].id
  {
    var n := |specs| - 1;
    if k < n {
      FirstIdIsFirst(specs[..n], k);
    } else {
      NamesAreNonEmptyNames(specs[..n], specs[k].name);
    }
  }

  /** The identifier a kept name ends up with: its old one, or else the one its first entry brought along. */
  function IdFor(interfaces: map<Id, IfaceRow>, device: Id, specs: seq<Spec>, name: string): Id
    requires UniqueNames(interfaces) && name in Names(specs)
  {
    var stored := ByName(interfaces, device);
    if name in stored then stored[name] else FirstIds(specs)[name]
  }

  /** New names bring unused and distinct identifiers: the primary key of the table. */
  ghost predicate BringsNewIds(interfaces: map<Id, IfaceRow>, device: Id, specs: seq<Spec>)
    requires UniqueNames(interfaces)
  {
    var stored := ByName(interfaces, device);
    && (forall s :: s in Names(specs) && s !in stored ==> FirstIds(specs)[s] !in interfaces)
    && (forall s, t :: s in Names(specs) && t in Names(specs) && s !in stored && t !in stored && s != t ==>
          FirstIds(specs)[s] != FirstIds(specs)[t])
  }

  // ---------------------------------------------------------------- replacement

  /** Every kept name is there under its identifier, with the fields of its last entry. */
  ghost predicate RowAt(before: map<Id, IfaceRow>, after: map<Id, IfaceRow>, device: Id, specs: seq<Spec>, name: string)
    requires UniqueNames(before) && name in Names(specs)
  {
    var id := IdFor(before, device, specs, name);
    id in after && after[id] == IfaceRow(device, name, Kept(specs)[name])
  }

  /** A row of this device is there because its name is kept. */
  ghost predicate RowKept(before: map<Id, IfaceRow>, after: map<Id, IfaceRow>, device: Id, specs: seq<Spec>, i: Id)
    requires UniqueNames(before) && i in after
  {
    after[i].name in Names(specs) && i == IdFor(before, device, specs, after[i].name)
  }

  /** The interface table after a replacement: exactly the kept names, other devices as they were. */
  ghost predicate RowsReplaced(before: map<Id, IfaceRow>, after: map<Id, IfaceRow>, device: Id, specs: seq<Spec>)
    requires UniqueNames(before)
  {
    && (forall s :: s in Names(specs) ==> RowAt(before, after, device, specs, s))
    && (forall i :: i in before && before[i].deviceId != device ==> i in after && after[i] == before[i])
    && (forall i :: i in after && after[i].deviceId != device ==> i in before && before[i] == after[i])
    && (forall i :: i in after && after[i].deviceId == device ==> RowKept(before, after, device, specs, i))
  }

  /** Deleting interfaces cascades to the links on them. */
  function Cascade(links: map<Id, LinkRow>, interfaces: map<Id, IfaceRow>): map<Id, LinkRow> {
    map l | l in links && links[l].a in interfaces && links[l].b in interfaces :: links[l]
  }

  /** Addresses lose a reference to an interface that is about to go. */
  function Detach(addresses: map<Id, AddressRow>, interfaces: map<Id, IfaceRow>): map<Id, AddressRow> {
    map x | x in addresses ::
      var row := addresses[x];
      if row.interfaceId.Some? && row.interfaceId.value !in interfaces then row.(interfaceId := None) else row
  }

  ghost predicate IsReplacement(before: Db, after: Db, device: Id, specs: seq<Spec>)
    requires UniqueNames(before.interfaces)
  {
    match after
    case Db(devices, interfaces, links, addresses) =>
      && devices == before.devices
      && RowsReplaced(before.interfaces, interfaces, device, specs)
      && links == Cascade(before.links, interfaces)
      && addresses == Detach(before.addresses, interfaces)
  }

  /** The description determines the result: two replacements of the same tables agree. */
  lemma ReplacementUnique(before: Db, x: Db, y: Db, device: Id, specs: seq<Spec>)
    requires UniqueNames(before.interfaces)
    requires IsReplacement(before, x, device, specs) && IsReplacement(before, y, device, specs)
    ensures x == y
  {
    RowsDetermined(before.interfaces, x.interfaces, y.interfaces, device, specs);
    RowsDetermined(before.interfaces, y.interfaces, x.interfaces, device, specs);
    assert x.interfaces == y.interfaces;
  }

  lemma RowsDetermined(before: map<Id, IfaceRow>, x: map<Id, IfaceRow>, y: map<Id, IfaceRow>,
                       device: Id, specs: seq<Spec>)
    requires UniqueNames(before)
    requires RowsReplaced(before, x, device, specs) && RowsReplaced(before, y, device, specs)
    ensures forall i :: i in x ==> i in y && y[i] == x[i]
  {
    forall i | i in x ensures i in y && y[i] == x[i] {
      if x[i].deviceId == device {
        assert RowKept(before, x, device, specs, i);
        assert RowAt(before, x, device, specs, x[i].name) && RowAt(before, y, device, specs, x[i].name);
      }
    }
  }

  lemma ReplacementKeepsIntact(before: Db, after: Db, device: Id, specs: seq<Spec>)
    requires Intact(before) && device in before.devices
    requires IsReplacement(before, after, device, specs)
    ensures Intact(after)
  {
    forall k, l | SamePair(after.links, k, l) ensures k == l {
      assert SamePair(before.links, k, l);
    }
    forall i, j | SameKey(after.interfaces, i, j) ensures i == j {
      if after.interfaces[i].deviceId == device {
        assert RowKept(before.interfaces, after.interfaces, device, specs, i);
        assert RowKept(before.interfaces, after.interfaces, device, specs, j);
      } else {
        assert SameKey(before.interfaces, i, j);
      }
    }
    forall i | i in after.interfaces
      ensures after.interfaces[i].name != "" && after.interfaces[i].deviceId in after.devices
    {
      if after.interfaces[i].deviceId == device {
        assert RowKept(before.interfaces, after.interfaces, device, specs, i);
        NamesAreNonEmptyNames(specs, after.interfaces[i].name);
      }
    }
  }

  /** A name the device had before keeps its row if it is kept, and otherwise loses it. */
  lemma KeptNamesKeepIds(before: Db, after: Db, device: Id, specs: seq<Spec>, i: Id)
    requires Intact(before) && IsReplacement(before, after, device, specs)
    requires BringsNewIds(before.interfaces, device, specs)
    requires i in before.interfaces && before.interfaces[i].deviceId == device
    ensures i in after.interfaces <==> before.interfaces[i].name in Names(specs)
    ensures i in after.interfaces ==>
              after.interfaces[i].deviceId == device && after.interfaces[i].name == before.interfaces[i].name
  {
    var name := before.interfaces[i].name;
    if name in Names(specs) {
      assert RowAt(before.interfaces, after.interfaces, device, specs, name);
    }
    if i in after.interfaces && after.interfaces[i].deviceId == device {
      assert RowKept(before.interfaces, after.interfaces, device, specs, i);
    }
  }

  /** Whether a replacement on `device` leaves this interface in place. */
  ghost predicate Stays(row: IfaceRow, device: Id, specs: seq<Spec>) {
    row.deviceId != device || row.name in Names(specs)
  }

  /** A link survives exactly when the names of both its ends are kept, and survives unchanged. */
  lemma LinkSurvivesIffBothEndsKept(before: Db, after: Db, device: Id, specs: seq<Spec>, l: Id)
    requires Intact(before) && IsReplacement(before, after, device, specs)
    requires BringsNewIds(before.interfaces, device, specs)
    requires l in before.links
    ensures l in after.links <==>
              && Stays(before.interfaces[before.links[l].a], device, specs)
              && Stays(before.interfaces[before.links[l].b], device, specs)
    ensures l in after.links ==> after.links[l] == before.links[l]
  {
    OldIdStaysIffRowStays(before, after, device, specs, before.links[l].a);
    OldIdStaysIffRowStays(before, after, device, specs, before.links[l].b);
  }

  lemma OldIdStaysIffRowStays(before: Db, after: Db, device: Id, specs: seq<Spec>, i: Id)
    requires Intact(before) && IsReplacement(before, after, device, specs)
    requires BringsNewIds(before.interfaces, device, specs)
    requires i in before.interfaces
    ensures i in after.interfaces <==> Stays(before.interfaces[i], device, specs)
  {
    if before.interfaces[i].deviceId == device {
      KeptNamesKeepIds(before, after, device, specs, i);
    }
  }

  /**
   * Every IPAM address stays, with its text; it loses its reference exactly when the port it points at goes, and keeps
   * it otherwise. Devices stay as they are, and no link comes up.
   */
  lemma AddressesLoseOnlyReferences(before: Db, after: Db, device: Id, specs: seq<Spec>, x: Id)
    requires Intact(before) && IsReplacement(before, after, device, specs)
    requires BringsNewIds(before.interfaces, device, specs)
    ensures after.addresses.Keys == before.addresses.Keys && after.links.Keys <= before.links.Keys
    ensures after.devices == before.devices
    ensures x in before.addresses ==>
              var was, now := before.addresses[x], after.addresses[x];
              && now.address == was.address
              && match was.interfaceId
                 case None => now.interfaceId == None
                 case Some(i) => now.interfaceId == if Stays(before.interfaces[i], device, specs) then Some(i) else None
  {
    if x in before.addresses && before.addresses[x].interfaceId.Some? {
      OldIdStaysIffRowStays(before, after, device, specs, before.addresses[x].interfaceId.value);
    }
  }

  /** No later entry of the list has the name of entry `k`, and entry `f` is the first that has it. */
  ghost predicate IsLastAndFirst(specs: seq<Spec>, k: nat, f: nat) {
    && f <= k < |specs| && specs[k].name != "" && specs[f].name == specs[k].name
    && (forall j :: k < j < |specs| ==> specs[j].name != specs[k].name)
    && forall j :: 0 <= j < f ==> specs[j].name != specs[k].name
  }

  /** The port is stored as entry `k` says: in the row it had, or under the identifier the first such entry brought. */
  ghost predicate StoredFromEntry(before: map<Id, IfaceRow>, after: map<Id, IfaceRow>, device: Id, specs: seq<Spec>,
                                  k: nat, f: nat)
    requires k < |specs| && f < |specs|
  {
    var row := IfaceRow(device, specs[k].name, specs[k].fields);
    && (forall i :: i in after && after[i].deviceId == device && after[i].name == row.name ==> after[i] == row)
    && (forall i :: i in before && before[i].deviceId == device && before[i].name == row.name ==>
          i in after && after[i] == row)
    && ((forall i :: i in before && before[i].deviceId == device ==> before[i].name != row.name) ==>
          specs[f].id in after && after[specs[f].id] == row)
  }

  lemma EntryIsStored(before: Db, after: Db, device: Id, specs: seq<Spec>, k: nat, f: nat)
    requires UniqueNames(before.interfaces) && IsReplacement(before, after, device, specs)
    requires IsLastAndFirst(specs, k, f)
    ensures StoredFromEntry(before.interfaces, after.interfaces, device, specs, k, f)
  {
    var name := specs[k].name;
    NamesAreNonEmptyNames(specs, name);
    KeptIsLast(specs, k);
    FirstIdIsFirst(specs, f);
    assert RowAt(before.interfaces, after.interfaces, device, specs, name);
    forall i | i in after.interfaces && after.interfaces[i].deviceId == device && after.interfaces[i].name == name
      ensures after.interfaces[i] == IfaceRow(device, name, specs[k].fields)
    {
      assert RowKept(before.interfaces, after.interfaces, device, specs, i);
    }
  }

  /** The list the caller is left holding: every named entry now carries its stored identifier. */
  ghost predicate CarriesStoredIds(before: Db, device: Id, specs: seq<Spec>, left: seq<Spec>)
    requires UniqueNames(before.interfaces)
  {
    && |left| == |specs|
    && forall k :: 0 <= k < |specs| ==> CarriesStoredId(before, device, specs, specs[k], left[k])
  }

  ghost predicate CarriesStoredId(before: Db, device: Id, specs: seq<Spec>, given: Spec, left: Spec)
    requires UniqueNames(before.interfaces)
  {
    && left.name == given.name && left.fields == given.fields
    && left.id == if given.name in Names(specs) then IdFor(before.interfaces, device, specs, given.name) else given.id
  }

  /** Replacing again with the same list changes nothing: neither the tables nor the list. */
  lemma ReplacingTwiceIsReplacingOnce(before: Db, once: Db, twice: Db, device: Id,
                                      specs: seq<Spec>, left: seq<Spec>)
    requires Intact(before) && device in before.devices
    requires IsReplacement(before, once, device, specs) && CarriesStoredIds(before, device, specs, left)
    requires Intact(once) && IsReplacement(once, twice, device, left)
    ensures twice == once
    ensures CarriesStoredIds(once, device, left, left)
  {
    forall k | 0 <= k < |specs| ensures left[k].name == specs[k].name && left[k].fields == specs[k].fields {
      assert CarriesStoredId(before, device, specs, specs[k], left[k]);
    }
    SameKept(specs, left);
    RowsAlreadyReplaced(before, once, device, specs, left);
    StillCarriesStoredIds(before, once, device, specs, left);
    NothingLost(once, once.interfaces);
    ReplacementUnique(once, twice, once, device, left);
  }

  lemma {:induction false} SameKept(specs: seq<Spec>, left: seq<Spec>)
    requires |left| == |specs|
    requires forall k :: 0 <= k < |specs| ==> left[k].name == specs[k].name && left[k].fields == specs[k].fields
    ensures Kept(left) == Kept(specs)
  {
    if specs != [] {
      SameKept(specs[..|specs| - 1], left[..|left| - 1]);
    }
  }

  lemma StillCarriesStoredIds(before: Db, once: Db, device: Id, specs: seq<Spec>, left: seq<Spec>)
    requires UniqueNames(before.interfaces) && UniqueNames(once.interfaces)
    requires RowsReplaced(before.interfaces, once.interfaces, device, specs)
    requires CarriesStoredIds(before, device, specs, left) && Names(left) == Names(specs)
    ensures CarriesStoredIds(once, device, left, left)
  {
    forall k | 0 <= k < |left| ensures CarriesStoredId(once, device, left, left[k], left[k]) {
      assert CarriesStoredId(before, device, specs, specs[k], left[k]);
      if left[k].name in Names(left) {
        SameIdAgain(before, once, device, specs, left, left[k].name);
      }
    }
  }

  lemma SameIdAgain(before: Db, once: Db, device: Id, specs: seq<Spec>, left: seq<Spec>, s: string)
    requires UniqueNames(before.interfaces) && UniqueNames(once.interfaces)
    requires RowsReplaced(before.interfaces, once.interfaces, device, specs)
    requires s in Names(specs) && s in Names(left)
    ensures IdFor(once.interfaces, device, left, s) == IdFor(before.interfaces, device, specs, s)
  {
    assert RowAt(before.interfaces, once.interfaces, device, specs, s);
  }

  lemma RowsAlreadyReplaced(before: Db, once: Db, device: Id, specs: seq<Spec>, left: seq<Spec>)
    requires UniqueNames(before.interfaces) && UniqueNames(once.interfaces)
    requires RowsReplaced(before.interfaces, once.interfaces, device, specs)
    requires Kept(left) == Kept(specs)
    ensures RowsReplaced(once.interfaces, once.interfaces, device, left)
  {
    forall s | s in Names(left) ensures RowAt(once.interfaces, once.interfaces, device, left, s) {
      assert RowAt(before.interfaces, once.interfaces, device, specs, s);
      SameIdAgain(before, once, device, specs, left, s);
    }
    forall i | i in once.interfaces && once.interfaces[i].deviceId == device
      ensures RowKept(once.interfaces, once.interfaces, device, left, i)
    {
      assert RowKept(before.interfaces, once.interfaces, device, specs, i);
      SameIdAgain(before, once, device, specs, left, once.interfaces[i].name);
    }
  }

  // ---------------------------------------------------------------- adding one interface to a full list

  /** The list holds every interface of the device, as stored, exactly once. */
  ghost predicate ListsDevice(interfaces: map<Id, IfaceRow>, device: Id, specs: seq<Spec>) {
    && (forall k :: 0 <= k < |specs| ==>
          specs[k].id in interfaces && interfaces[specs[k].id] == IfaceRow(device, specs[k].name, specs[k].fields))
    && (forall i :: i in interfaces && interfaces[i].deviceId == device ==>
          Spec(i, interfaces[i].name, interfaces[i].fields) in specs)
    && (forall j, k :: 0 <= j < k < |specs| ==> specs[j].id != specs[k].id)
  }

  ghost predicate SameOrRewritten(before: IfaceRow, after: IfaceRow, device: Id, extra: Spec) {
    || after == before
    || (before.deviceId == device && before.name == extra.name && after == IfaceRow(device, extra.name, extra.fields))
  }

  /** Replacing with the full list plus one entry deletes nothing and touches only that entry's name. */
  lemma AppendingKeepsEverything(before: Db, after: Db, device: Id, specs: seq<Spec>, extra: Spec)
    requires Intact(before) && ListsDevice(before.interfaces, device, specs) && extra.name != ""
    requires IsReplacement(before, after, device, specs + [extra])
    ensures forall i :: i in before.interfaces ==>
              i in after.interfaces && SameOrRewritten(before.interfaces[i], after.interfaces[i], device, extra)
    ensures after.links == before.links && after.addresses == before.addresses && after.devices == before.devices
  {
    forall i | i in before.interfaces
      ensures i in after.interfaces && SameOrRewritten(before.interfaces[i], after.interfaces[i], device, extra)
    {
      if before.interfaces[i].deviceId == device {
        ListedRowStays(before, after, device, specs, extra, i);
      }
    }
    NothingLost(before, after.interfaces);
  }

  /** When no interface goes, nothing cascades and no reference is cleared. */
  lemma NothingLost(db: Db, interfaces: map<Id, IfaceRow>)
    requires Intact(db) && forall i :: i in db.interfaces ==> i in interfaces
    ensures Cascade(db.links, interfaces) == db.links
    ensures Detach(db.addresses, interfaces) == db.addresses
  {
  }

  /** The appended entry's name is stored, under its old identifier or the one it brought along. */
  lemma AppendedEntryIsStored(before: Db, after: Db, device: Id, specs: seq<Spec>, extra: Spec)
    requires UniqueNames(before.interfaces) && extra.name != ""
    requires IsReplacement(before, after, device, specs + [extra])
    ensures extra.name in Names(specs + [extra])
    ensures var id := IdFor(before.interfaces, device, specs + [extra], extra.name);
            id in after.interfaces && after.interfaces[id] == IfaceRow(device, extra.name, extra.fields)
  {
    var all := specs + [extra];
    assert all[|specs|] == extra;
    KeptIsLast(all, |specs|);
    assert RowAt(before.interfaces, after.interfaces, device, all, extra.name);
  }

  lemma ListedRowStays(before: Db, after: Db, device: Id, specs: seq<Spec>, extra: Spec, i: Id)
    requires Intact(before) && ListsDevice(before.interfaces, device, specs) && extra.name != ""
    requires IsReplacement(before, after, device, specs + [extra])
    requires i in before.interfaces && before.interfaces[i].deviceId == device
    ensures i in after.interfaces && SameOrRewritten(before.interfaces[i], after.interfaces[i], device, extra)
  {
    var row := before.interfaces[i];
    assert Spec(i, row.name, row.fields) in specs;
    var k :| 0 <= k < |specs| && specs[k] == Spec(i, row.name, row.fields);
    ListedIsKept(before.interfaces, device, specs, extra, k);
    assert RowAt(before.interfaces, after.interfaces, device, specs + [extra], row.name);
  }

  /** A listed name is kept with its own fields, unless the appended entry has that name. */
  lemma ListedIsKept(interfaces: map<Id, IfaceRow>, device: Id, specs: seq<Spec>, extra: Spec, k: nat)
    requires UniqueNames(interfaces) && ListsDevice(interfaces, device, specs) && k < |specs|
    requires specs[k].name != "" && extra.name != ""
    ensures var kept := Kept(specs + [extra]);
            && specs[k].name in kept
            && kept[specs[k].name] == if specs[k].name == extra.name then extra.fields else specs[k].fields
  {
    var all := specs + [extra];
    if specs[k].name == extra.name {
      KeptIsLast(all, |specs|);
    } else {
      forall j | k < j < |all| ensures all[j].name != all[k].name {
        if j < |specs| && specs[j].name == specs[k].name { assert SameKey(interfaces, specs[j].id, specs[k].id); }
      }
      KeptIsLast(all, k);
    }
  }
}
