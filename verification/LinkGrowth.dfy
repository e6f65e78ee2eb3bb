/** What turning neighbour facts into links may do to the tables: nothing is lost, and only what a fact asks for is added. */
module LinkGrowth {
  import opened Common
  import opened DeviceIdentity
  import opened Inventory
  import opened InventoryStore

  const PLACEHOLDER := "unknown"

  function Confidence(discovery: DiscoveryMethod): real {
    match discovery
    case Lldp => 1.0
    case Cdp => 1.0
    case Fdb => 0.6
    case _ => 0.4
  }

  /** What is stored for a device of which only a name and an address are known. */
  function Stub(hostname: string, ip: string): DeviceRow {
    DeviceRow(hostname, "unknown", "unknown", None, None, None, Some(ip), None, "unknown", "unknown", map[])
  }

  // ---------------------------------------------------------------- rows that are there already

  /** Rows may be added and enriched, never deleted or re-keyed. */
  ghost predicate Grows(before: Db, after: Db, discovery: DiscoveryMethod) {
    match after
    case Db(devices, interfaces, links, addresses) =>
      && (forall d :: d in before.devices ==>
            d in devices && Undegraded(before.devices[d], devices[d]))
      && (forall i :: i in before.interfaces ==> i in interfaces && SamePort(before.interfaces[i], interfaces[i]))
      && (forall l :: l in before.links ==> l in links && SameCable(before.links[l], links[l], discovery))
      && addresses == before.addresses
  }

  /** Real text stays, up to surrounding white space. */
  ghost predicate KeptText(before: string, after: string, stubs: set<string>) {
    !IsStub(before, stubs) ==> Strip(after) == Strip(before)
  }

  /** Stubs leave a device row as rich as it was; only its hostname may become another real one. */
  ghost predicate Undegraded(before: DeviceRow, after: DeviceRow) {
    && KeptText(before.vendor, after.vendor, VENDOR_STUBS) && KeptText(before.model, after.model, MODEL_STUBS)
    && (!IsStub(before.hostname, HOSTNAME_STUBS) ==> !IsStub(after.hostname, HOSTNAME_STUBS))
    && after == before.(hostname := after.hostname, vendor := after.vendor, model := after.model)
  }

  /** Only the placeholder port of a device may have its details rewritten. */
  ghost predicate SamePort(before: IfaceRow, after: IfaceRow) {
    && after.deviceId == before.deviceId && after.name == before.name
    && (before.name != PLACEHOLDER ==> after == before)
  }

  ghost predicate SameCable(before: LinkRow, after: LinkRow, discovery: DiscoveryMethod) {
    && after.a == before.a && after.b == before.b
    && (after == before || (after.facts.discovery == discovery && after.facts.confidence == Confidence(discovery)))
  }

  /** Which addresses are ambiguous does not change. */
  ghost predicate SameAmbiguity(before: map<Id, DeviceRow>, after: map<Id, DeviceRow>) {
    forall ip :: Ambiguous(before, ip) <==> Ambiguous(after, ip)
  }

  /** There is a link row between the local port and the named port of a device with that address. */
  ghost predicate LinkedTo(db: Db, localId: Id, ip: string, remoteName: string, discovery: DiscoveryMethod) {
    match db
    case Db(_, interfaces, links, _) =>
      exists l, r :: l in links && r in interfaces && IsCableTo(db, links[l], localId, r, ip, remoteName, discovery)
  }

  ghost predicate IsCableTo(db: Db, link: LinkRow, localId: Id, r: Id, ip: string, remoteName: string,
                            discovery: DiscoveryMethod)
    requires r in db.interfaces
  {
    && db.interfaces[r].name == remoteName
    && db.interfaces[r].deviceId in db.devices
    && db.devices[db.interfaces[r].deviceId].managementIp == Some(ip)
    && link.a.n <= link.b.n && multiset{link.a, link.b} == multiset{localId, r}
    && link.facts.discovery == discovery && link.facts.confidence == Confidence(discovery)
  }

  lemma StubLeavesUndegraded(stored: DeviceRow, hostname: string, ip: string)
    requires stored.managementIp == Some(ip) && ip != ""
    ensures Undegraded(stored, Merge(stored, Stub(hostname, ip)))
  {
    UnknownIsStub();
    StripIdempotent(stored.vendor);
    StripIdempotent(stored.model);
    if !IsStub(stored.hostname, HOSTNAME_STUBS) { RealHostnameStays(hostname, stored.hostname); }
  }

  lemma UnknownIsStub()
    ensures Strip("unknown") == "unknown" && Lower("unknown") == "unknown"
  {
    var unknown := "unknown";
    forall i | 0 <= i < 7 ensures LowerChar(unknown[i]) == unknown[i] {
    }
  }

  lemma RealHostnameStays(incoming: string, stored: string)
    requires !IsStub(stored, HOSTNAME_STUBS)
    ensures !IsStub(PreferStr(incoming, stored, HOSTNAME_STUBS), HOSTNAME_STUBS)
  {
    StripIdempotent(incoming);
    StripIdempotent(stored);
  }

  lemma GrowsTransitive(x: Db, y: Db, z: Db, discovery: DiscoveryMethod)
    requires Grows(x, y, discovery) && Grows(y, z, discovery)
    ensures Grows(x, z, discovery)
  {
    forall d | d in x.devices ensures d in z.devices && Undegraded(x.devices[d], z.devices[d]) {
      UndegradedTransitive(x.devices[d], y.devices[d], z.devices[d]);
    }
    forall i | i in x.interfaces ensures i in z.interfaces && SamePort(x.interfaces[i], z.interfaces[i]) {
      assert SamePort(x.interfaces[i], y.interfaces[i]) && SamePort(y.interfaces[i], z.interfaces[i]);
    }
    forall l | l in x.links ensures l in z.links && SameCable(x.links[l], z.links[l], discovery) {
      assert SameCable(x.links[l], y.links[l], discovery) && SameCable(y.links[l], z.links[l], discovery);
    }
  }

  lemma UndegradedTransitive(x: DeviceRow, y: DeviceRow, z: DeviceRow)
    requires Undegraded(x, y) && Undegraded(y, z)
    ensures Undegraded(x, z)
  {
  }

  lemma LinkedToStays(before: Db, after: Db, localId: Id, ip: string, remoteName: string, discovery: DiscoveryMethod)
    requires Grows(before, after, discovery) && LinkedTo(before, localId, ip, remoteName, discovery)
    ensures LinkedTo(after, localId, ip, remoteName, discovery)
  {
    var l, r :| l in before.links && r in before.interfaces
                && IsCableTo(before, before.links[l], localId, r, ip, remoteName, discovery);
    assert SamePort(before.interfaces[r], after.interfaces[r]);
    assert SameCable(before.links[l], after.links[l], discovery);
    assert IsCableTo(after, after.links[l], localId, r, ip, remoteName, discovery);
  }

  lemma GrowsReflexive(db: Db, discovery: DiscoveryMethod)
    ensures Grows(db, db, discovery)
  {
  }

  /** The upsert of a stub found by address. */
  ghost predicate StubStored(before: Db, after: Db, hostname: string, ip: string, id: Id, row: Id) {
    && ip != "" && id !in before.devices && !Ambiguous(before.devices, ip)
    && Identifies(before.devices, Stub(hostname, ip), id, row)
    && after == before.(devices := before.devices[row := Stored(before.devices, row, Stub(hostname, ip))])
  }

  /** The stub goes to the row with its address, if there is one. */
  lemma StubGoesToAddress(before: Db, after: Db, hostname: string, ip: string, id: Id, row: Id)
    requires StubStored(before, after, hostname, ip, id, row)
    ensures row in after.devices && after.devices[row].managementIp == Some(ip)
    ensures row in before.devices ==> before.devices[row].managementIp == Some(ip)
    ensures forall d :: d in ByIp(before.devices, Some(ip)) ==> d == row
  {
    assert BySerial(before.devices, Stub(hostname, ip)) == {};
  }

  /** It leaves every row as rich as it was. */
  lemma StubUpsertGrows(before: Db, after: Db, hostname: string, ip: string, id: Id, row: Id, discovery: DiscoveryMethod)
    requires StubStored(before, after, hostname, ip, id, row)
    ensures Grows(before, after, discovery)
  {
    StubGoesToAddress(before, after, hostname, ip, id, row);
    if row in before.devices { StubLeavesUndegraded(before.devices[row], hostname, ip); }
    DeviceWriteGrows(before, row, Stored(before.devices, row, Stub(hostname, ip)), discovery);
  }

  lemma DeviceWriteGrows(before: Db, row: Id, stored: DeviceRow, discovery: DiscoveryMethod)
    requires row in before.devices ==> Undegraded(before.devices[row], stored)
    ensures Grows(before, before.(devices := before.devices[row := stored]), discovery)
  {
  }

  /** It changes the ambiguity of no address. */
  lemma StubKeepsAmbiguity(before: Db, after: Db, hostname: string, ip: string, id: Id, row: Id)
    requires StubStored(before, after, hostname, ip, id, row)
    ensures SameAmbiguity(before.devices, after.devices)
  {
    StubGoesToAddress(before, after, hostname, ip, id, row);
    forall other ensures Ambiguous(before.devices, other) <==> Ambiguous(after.devices, other) {
      if other != ip || row in before.devices {
        assert ByIp(before.devices, Some(other)) == ByIp(after.devices, Some(other));
      } else {
        assert ByIp(after.devices, Some(ip)) == {row};
      }
    }
  }

  lemma PortAppendGrows(before: Db, after: Db, device: Id, specs: seq<Spec>, extra: Spec, discovery: DiscoveryMethod)
    requires Intact(before) && ListsDevice(before.interfaces, device, specs) && extra.name != ""
    requires IsReplacement(before, after, device, specs + [extra])
    requires extra.name == PLACEHOLDER || NotListed(specs, extra.name)
    ensures Grows(before, after, discovery)
  {
    AppendingKeepsEverything(before, after, device, specs, extra);
    AppendedGrows(before, after, device, specs, extra, discovery);
  }

  lemma AppendedGrows(before: Db, after: Db, device: Id, specs: seq<Spec>, extra: Spec, discovery: DiscoveryMethod)
    requires ListsDevice(before.interfaces, device, specs)
    requires extra.name == PLACEHOLDER || NotListed(specs, extra.name)
    requires forall i :: i in before.interfaces ==>
               i in after.interfaces && SameOrRewritten(before.interfaces[i], after.interfaces[i], device, extra)
    requires after.links == before.links && after.addresses == before.addresses && after.devices == before.devices
    ensures Grows(before, after, discovery)
  {
    forall i | i in before.interfaces ensures SamePort(before.interfaces[i], after.interfaces[i]) {
      RewrittenIsSamePort(before.interfaces, i, after.interfaces[i], device, specs, extra);
    }
  }

  /** Adding a name that is the placeholder, or not listed, rewrites no other port. */
  lemma RewrittenIsSamePort(interfaces: map<Id, IfaceRow>, i: Id, after: IfaceRow, device: Id, specs: seq<Spec>,
                            extra: Spec)
    requires ListsDevice(interfaces, device, specs) && i in interfaces
    requires SameOrRewritten(interfaces[i], after, device, extra)
    requires extra.name == PLACEHOLDER || NotListed(specs, extra.name)
    ensures SamePort(interfaces[i], after)
  {
    if interfaces[i].deviceId == device {
      assert Spec(i, interfaces[i].name, interfaces[i].fields) in specs;
    }
  }

  /** Appending one entry with an unused identifier to the full list of a device is a legal replacement. */
  lemma AppendBringsNewId(interfaces: map<Id, IfaceRow>, device: Id, specs: seq<Spec>, extra: Spec)
    requires UniqueNames(interfaces) && ListsDevice(interfaces, device, specs) && extra.id !in interfaces
    ensures BringsNewIds(interfaces, device, specs + [extra])
  {
    var all, stored := specs + [extra], ByName(interfaces, device);
    assert all[..|specs|] == specs;
    forall s | s in Names(all) && s !in stored ensures s == extra.name && FirstIds(all)[s] == extra.id {
      ListedNameIsStored(interfaces, device, specs, s);
    }
  }

  lemma ListedNameIsStored(interfaces: map<Id, IfaceRow>, device: Id, specs: seq<Spec>, s: string)
    requires UniqueNames(interfaces) && ListsDevice(interfaces, device, specs)
    ensures s in Names(specs) ==> s in ByName(interfaces, device)
  {
    NamesAreNonEmptyNames(specs, s);
    if k :| 0 <= k < |specs| && specs[k].name == s {
      assert interfaces[specs[k].id].name == s;
    }
  }

  ghost predicate NotListed(specs: seq<Spec>, name: string) {
    forall k :: 0 <= k < |specs| ==> specs[k].name != name
  }

  // ---------------------------------------------------------------- rows that are added

  /** The table has at most gained the port, which is the only one of that device and name. */
  ghost predicate PortAdded(before: Db, after: Db, device: Id, name: string, port: Id) {
    match after
    case Db(devices, interfaces, links, _) =>
      && devices == before.devices && links == before.links && interfaces.Keys == before.interfaces.Keys + {port}
      && interfaces[port].deviceId == device && interfaces[port].name == name
      && forall r :: r in before.interfaces && before.interfaces[r].deviceId == device && before.interfaces[r].name == name
                     ==> r == port
  }

  lemma KnownPort(db: Db, device: Id, name: string, port: Id)
    requires Intact(db) && port in db.interfaces
    requires db.interfaces[port].deviceId == device && db.interfaces[port].name == name
    ensures PortAdded(db, db, device, name, port)
  {
    forall r | r in db.interfaces && db.interfaces[r].deviceId == device && db.interfaces[r].name == name
      ensures r == port
    {
      assert SameKey(db.interfaces, r, port);
    }
  }

  lemma OnlyPortAdded(before: Db, after: Db, device: Id, specs: seq<Spec>, extra: Spec)
    requires Intact(before) && ListsDevice(before.interfaces, device, specs) && extra.name in Names(specs + [extra])
    requires IsReplacement(before, after, device, specs + [extra]) && after.links == before.links
    requires forall i :: i in before.interfaces ==> i in after.interfaces
    ensures PortAdded(before, after, device, extra.name, IdFor(before.interfaces, device, specs + [extra], extra.name))
  {
    var port := IdFor(before.interfaces, device, specs + [extra], extra.name);
    assert RowAt(before.interfaces, after.interfaces, device, specs + [extra], extra.name);
    forall i | i in after.interfaces && i !in before.interfaces ensures i == port {
      NewRowIsExtra(before.interfaces, after.interfaces, device, specs, extra, i);
    }
  }

  lemma NewRowIsExtra(before: map<Id, IfaceRow>, after: map<Id, IfaceRow>, device: Id, specs: seq<Spec>, extra: Spec,
                      i: Id)
    requires UniqueNames(before) && ListsDevice(before, device, specs) && RowsReplaced(before, after, device, specs + [extra])
    requires i in after && i !in before
    ensures extra.name in Names(specs + [extra]) && i == IdFor(before, device, specs + [extra], extra.name)
  {
    assert RowKept(before, after, device, specs + [extra], i);
    forall k | 0 <= k < |specs| ensures specs[k].name in ByName(before, device) {
      assert before[specs[k].id].name == specs[k].name;
    }
    NamesAreNonEmptyNames(specs + [extra], after[i].name);
  }

  lemma PortAppended(before: Db, after: Db, device: Id, specs: seq<Spec>, extra: Spec, left: seq<Spec>,
                     discovery: DiscoveryMethod)
    requires Intact(before) && ListsDevice(before.interfaces, device, specs) && extra.name != ""
    requires Performs(before, ReplaceInterfaces(device, specs + [extra]), after)
    requires CarriesStoredIds(before, device, specs + [extra], left)
    requires extra.name == PLACEHOLDER || NotListed(specs, extra.name)
    ensures Grows(before, after, discovery)
    ensures |left| == |specs| + 1 && PortAdded(before, after, device, extra.name, left[|specs|].id)
  {
    PortAppendGrows(before, after, device, specs, extra, discovery);
    AppendingKeepsEverything(before, after, device, specs, extra);
    AppendedEntryIsStored(before, after, device, specs, extra);
    OnlyPortAdded(before, after, device, specs, extra);
    assert (specs + [extra])[|specs|] == extra;
    assert CarriesStoredId(before, device, specs + [extra], extra, left[|specs|]);
  }

  /** The appended entry's port has the entry's details. */
  lemma AppendedHasFields(before: Db, after: Db, device: Id, specs: seq<Spec>, extra: Spec, port: Id)
    requires UniqueNames(before.interfaces) && extra.name != ""
    requires IsReplacement(before, after, device, specs + [extra])
    requires PortAdded(before, after, device, extra.name, port)
    ensures after.interfaces[port] == IfaceRow(device, extra.name, extra.fields)
  {
    var all := specs + [extra];
    KeptIsLast(all, |specs|);
    assert RowKept(before.interfaces, after.interfaces, device, all, port);
    assert RowAt(before.interfaces, after.interfaces, device, all, extra.name);
  }

  /** The link table has at most gained this row, which is the only one of the two ports. */
  ghost predicate CableAdded(before: Db, after: Db, x: Id, y: Id, row: Id, discovery: DiscoveryMethod) {
    match after
    case Db(devices, interfaces, links, _) =>
      && devices == before.devices && interfaces == before.interfaces
      && links.Keys == before.links.Keys + {row} && IsCable(links[row], x, y, discovery)
      && forall l :: HasPair(before.links, l, Min(x, y), Max(x, y)) ==> row in before.links
  }

  predicate IsCable(link: LinkRow, x: Id, y: Id, discovery: DiscoveryMethod) {
    && link.a == Min(x, y) && link.b == Max(x, y)
    && link.facts.discovery == discovery && link.facts.confidence == Confidence(discovery)
  }

  /** The interface is the named port of a device with that address. */
  ghost predicate IsPortOf(db: Db, i: Id, ip: string, name: string) {
    && i in db.interfaces && db.interfaces[i].name == name
    && db.interfaces[i].deviceId in db.devices && db.devices[db.interfaces[i].deviceId].managementIp == Some(ip)
  }

  /** What storing a link amounts to. */
  lemma NowLinked(before: Db, after: Db, row: Id, x: Id, y: Id, facts: LinkFacts, discovery: DiscoveryMethod)
    requires facts.discovery == discovery && facts.confidence == Confidence(discovery)
    requires Performs(before, StoreLink(row, x, y, facts), after)
    ensures CableAdded(before, after, x, y, row, discovery) && Grows(before, after, discovery)
  {
    LinkUpsertGrows(before, after, row, x, y, facts, discovery);
  }

  lemma LinkUpsertGrows(before: Db, after: Db, row: Id, x: Id, y: Id, facts: LinkFacts, discovery: DiscoveryMethod)
    requires facts.discovery == discovery && facts.confidence == Confidence(discovery)
    requires row in before.links ==> HasPair(before.links, row, Min(x, y), Max(x, y))
    requires after == before.(links := before.links[row := LinkRow(Min(x, y), Max(x, y), facts)])
    ensures Grows(before, after, discovery)
  {
  }

  lemma StillStored(before: Db, after: Db, i: Id, discovery: DiscoveryMethod)
    requires Grows(before, after, discovery) && i in before.interfaces
    ensures i in after.interfaces
  {
    assert SamePort(before.interfaces[i], after.interfaces[i]);
  }

  // ---------------------------------------------------------------- what one fact adds

  ghost predicate IsLinkTo(db: Db, l: Id, localId: Id, ip: string, name: string, discovery: DiscoveryMethod) {
    l in db.links && exists r :: r in db.interfaces && IsCableTo(db, db.links[l], localId, r, ip, name, discovery)
  }

  /** New devices have the address, new ports are the named port of such a device, new links join it to the local port. */
  ghost predicate AddsOnlyFor(before: Db, after: Db, localId: Id, ip: string, name: string, discovery: DiscoveryMethod) {
    match after
    case Db(devices, interfaces, links, _) =>
      && (forall d :: d in devices && d !in before.devices ==> devices[d].managementIp == Some(ip))
      && (forall i :: i in interfaces && i !in before.interfaces ==> IsPortOf(after, i, ip, name))
      && (forall l :: l in links && l !in before.links ==> IsLinkTo(after, l, localId, ip, name, discovery))
  }

  ghost predicate SameKeys(before: Db, after: Db) {
    match after
    case Db(devices, interfaces, links, _) =>
      && devices.Keys == before.devices.Keys && interfaces.Keys == before.interfaces.Keys
      && links.Keys == before.links.Keys
  }

  /** The stub's row, the port and the link of one fact: the tables step by step. */
  ghost predicate FactStored(db0: Db, db1: Db, db2: Db, db3: Db, device: Id, port: Id, row: Id, localId: Id, ip: string,
                             name: string, discovery: DiscoveryMethod) {
    match db1
    case Db(devices, interfaces, links, _) =>
      && interfaces == db0.interfaces && links == db0.links
      && devices.Keys == db0.devices.Keys + {device} && devices[device].managementIp == Some(ip)
      && PortAdded(db1, db2, device, name, port) && CableAdded(db2, db3, localId, port, row, discovery)
  }

  lemma OneFactAdds(db0: Db, db1: Db, db2: Db, db3: Db, device: Id, port: Id, row: Id, localId: Id, ip: string,
                    name: string, discovery: DiscoveryMethod)
    requires FactStored(db0, db1, db2, db3, device, port, row, localId, ip, name, discovery)
    ensures LinkedTo(db3, localId, ip, name, discovery)
    ensures AddsOnlyFor(db0, db3, localId, ip, name, discovery)
  {
    assert IsCableTo(db3, db3.links[row], localId, port, ip, name, discovery);
    assert IsLinkTo(db3, row, localId, ip, name, discovery);
  }

  /** A fact whose link is there adds nothing. */
  lemma LinkedFactAddsNothing(db0: Db, db1: Db, db2: Db, db3: Db, device: Id, port: Id, row: Id, localId: Id, ip: string,
                              name: string, discovery: DiscoveryMethod)
    requires FactStored(db0, db1, db2, db3, device, port, row, localId, ip, name, discovery)
    requires LinkedTo(db0, localId, ip, name, discovery) && forall d :: d in ByIp(db0.devices, Some(ip)) ==> d == device
    requires ip != ""
    ensures SameKeys(db0, db3)
  {
    var l, r := CableOf(db0, device, localId, ip, name, discovery);
    assert r == port;
    assert HasPair(db2.links, l, Min(localId, port), Max(localId, port));
  }

  /** The link row of a linked fact, and the port at its other end. */
  lemma CableOf(db: Db, device: Id, localId: Id, ip: string, name: string, discovery: DiscoveryMethod)
    returns (l: Id, r: Id)
    requires LinkedTo(db, localId, ip, name, discovery) && ip != ""
    requires forall d :: d in ByIp(db.devices, Some(ip)) ==> d == device
    ensures device in db.devices && r in db.interfaces
    ensures db.interfaces[r].deviceId == device && db.interfaces[r].name == name
    ensures HasPair(db.links, l, Min(localId, r), Max(localId, r))
  {
    l, r :| l in db.links && r in db.interfaces && IsCableTo(db, db.links[l], localId, r, ip, name, discovery);
    assert db.interfaces[r].deviceId in ByIp(db.devices, Some(ip));
  }

  /** What the upsert of a stub amounts to. */
  ghost predicate StubDone(before: Db, after: Db, ip: string, row: Id, discovery: DiscoveryMethod) {
    match after
    case Db(devices, interfaces, links, _) =>
      && Grows(before, after, discovery) && SameAmbiguity(before.devices, devices)
      && interfaces == before.interfaces && links == before.links
      && devices.Keys == before.devices.Keys + {row} && devices[row].managementIp == Some(ip)
      && forall d :: d in ByIp(before.devices, Some(ip)) ==> d == row
  }

  lemma StubIsStored(before: Db, after: Db, hostname: string, ip: string, id: Id, row: Id, discovery: DiscoveryMethod)
    requires ip != "" && Performs(before, StoreDevice(row, id, Stub(hostname, ip)), after)
    ensures StubDone(before, after, ip, row, discovery) && after.interfaces == before.interfaces
  {
    StubGoesToAddress(before, after, hostname, ip, id, row);
    StubUpsertGrows(before, after, hostname, ip, id, row, discovery);
    StubKeepsAmbiguity(before, after, hostname, ip, id, row);
  }

  lemma StubDoneStores(before: Db, after: Db, ip: string, row: Id, discovery: DiscoveryMethod)
    requires StubDone(before, after, ip, row, discovery)
    ensures row in after.devices
  {
  }

  // In this and the other predicates that match on tables of one form only, the match binds nothing: it keeps the
  // definition folded in proofs that only pass the fact on.

  /** What one usable fact does to the tables. */
  ghost predicate Materialized(before: Db, after: Db, localId: Id, ip: string, name: string, discovery: DiscoveryMethod) {
    match after
    case Db(_, _, _, _) =>
      && Grows(before, after, discovery) && SameAmbiguity(before.devices, after.devices)
      && LinkedTo(after, localId, ip, name, discovery)
      && AddsOnlyFor(before, after, localId, ip, name, discovery)
      && (LinkedTo(before, localId, ip, name, discovery) ==> SameKeys(before, after))
  }

  lemma FactMaterialized(db0: Db, db1: Db, db2: Db, db3: Db, device: Id, port: Id, row: Id, localId: Id, ip: string,
                         name: string, discovery: DiscoveryMethod)
    requires ip != "" && StubDone(db0, db1, ip, device, discovery)
    requires Grows(db1, db2, discovery) && PortAdded(db1, db2, device, name, port)
    requires Grows(db2, db3, discovery) && CableAdded(db2, db3, localId, port, row, discovery)
    ensures Materialized(db0, db3, localId, ip, name, discovery)
  {
    GrowsTransitive(db0, db1, db2, discovery);
    GrowsTransitive(db0, db2, db3, discovery);
    OneFactAdds(db0, db1, db2, db3, device, port, row, localId, ip, name, discovery);
    if LinkedTo(db0, localId, ip, name, discovery) {
      LinkedFactAddsNothing(db0, db1, db2, db3, device, port, row, localId, ip, name, discovery);
    }
  }

  // ---------------------------------------------------------------- what several facts add

  /** A usable fact: the local port it names, and the name and address of the other end. */
  datatype Usage = Usage(localId: Id, ip: string, name: string)

  /** Every new row belongs to one of the first `k` facts that are usable. */
  ghost predicate AddsOnlyForAll(before: Db, after: Db, usages: seq<Option<Usage>>, k: nat, discovery: DiscoveryMethod)
    requires k <= |usages|
  {
    match after
    case Db(devices, interfaces, links, _) =>
      && (forall d :: d in devices && d !in before.devices ==> exists j :: 0 <= j < k && DeviceOf(after, d, usages[j]))
      && (forall i :: i in interfaces && i !in before.interfaces ==> exists j :: 0 <= j < k && PortOf(after, i, usages[j]))
      && (forall l :: l in links && l !in before.links ==>
            exists j :: 0 <= j < k && LinkOf(after, l, usages[j], discovery))
  }

  ghost predicate DeviceOf(db: Db, d: Id, usage: Option<Usage>) {
    usage.Some? && d in db.devices && db.devices[d].managementIp == Some(usage.value.ip)
  }

  ghost predicate PortOf(db: Db, i: Id, usage: Option<Usage>) {
    usage.Some? && IsPortOf(db, i, usage.value.ip, usage.value.name)
  }

  ghost predicate LinkOf(db: Db, l: Id, usage: Option<Usage>, discovery: DiscoveryMethod) {
    usage.Some? && IsLinkTo(db, l, usage.value.localId, usage.value.ip, usage.value.name, discovery)
  }

  lemma OwnersStay(before: Db, after: Db, usage: Option<Usage>, discovery: DiscoveryMethod)
    requires Grows(before, after, discovery)
    ensures forall d :: DeviceOf(before, d, usage) ==> DeviceOf(after, d, usage)
    ensures forall i :: PortOf(before, i, usage) ==> PortOf(after, i, usage)
    ensures forall l :: LinkOf(before, l, usage, discovery) ==> LinkOf(after, l, usage, discovery)
  {
    forall i | PortOf(before, i, usage) ensures PortOf(after, i, usage) {
      assert SamePort(before.interfaces[i], after.interfaces[i]);
    }
    forall l | LinkOf(before, l, usage, discovery) ensures LinkOf(after, l, usage, discovery) {
      LinkStays(before, after, l, usage.value.localId, usage.value.ip, usage.value.name, discovery);
    }
  }

  lemma LinkStays(before: Db, after: Db, l: Id, localId: Id, ip: string, name: string, discovery: DiscoveryMethod)
    requires Grows(before, after, discovery) && IsLinkTo(before, l, localId, ip, name, discovery)
    ensures IsLinkTo(after, l, localId, ip, name, discovery)
  {
    var r :| r in before.interfaces && IsCableTo(before, before.links[l], localId, r, ip, name, discovery);
    assert SamePort(before.interfaces[r], after.interfaces[r]);
    assert SameCable(before.links[l], after.links[l], discovery);
    assert IsCableTo(after, after.links[l], localId, r, ip, name, discovery);
  }

  lemma AddsOneMore(before: Db, here: Db, after: Db, usages: seq<Option<Usage>>, k: nat, discovery: DiscoveryMethod)
    requires k < |usages| && AddsOnlyForAll(before, here, usages, k, discovery) && Grows(here, after, discovery)
    requires usages[k].Some?
    requires var u := usages[k].value; AddsOnlyFor(here, after, u.localId, u.ip, u.name, discovery)
    ensures AddsOnlyForAll(before, after, usages, k + 1, discovery)
  {
    forall j | 0 <= j < k
      ensures forall d :: DeviceOf(here, d, usages[j]) ==> DeviceOf(after, d, usages[j])
      ensures forall i :: PortOf(here, i, usages[j]) ==> PortOf(after, i, usages[j])
      ensures forall l :: LinkOf(here, l, usages[j], discovery) ==> LinkOf(after, l, usages[j], discovery)
    {
      OwnersStay(here, after, usages[j], discovery);
    }
    forall d | d in after.devices && d !in before.devices
      ensures exists j :: 0 <= j < k + 1 && DeviceOf(after, d, usages[j])
    {
      if d !in here.devices { assert DeviceOf(after, d, usages[k]); }
    }
    forall i | i in after.interfaces && i !in before.interfaces
      ensures exists j :: 0 <= j < k + 1 && PortOf(after, i, usages[j])
    {
      if i !in here.interfaces { assert PortOf(after, i, usages[k]); }
    }
    forall l | l in after.links && l !in before.links
      ensures exists j :: 0 <= j < k + 1 && LinkOf(after, l, usages[j], discovery)
    {
      if l !in here.links { assert LinkOf(after, l, usages[k], discovery); }
    }
  }

  lemma AddsNoMore(before: Db, after: Db, usages: seq<Option<Usage>>, k: nat, n: nat, discovery: DiscoveryMethod)
    requires k <= n <= |usages| && AddsOnlyForAll(before, after, usages, k, discovery)
    ensures AddsOnlyForAll(before, after, usages, n, discovery)
  {
  }

  // ---------------------------------------------------------------- all facts of a device

  /** The link of a usable fact is there. */
  ghost predicate IsMaterialized(db: Db, usage: Option<Usage>, discovery: DiscoveryMethod) {
    usage.Some? ==> LinkedTo(db, usage.value.localId, usage.value.ip, usage.value.name, discovery)
  }

  /** The fact is usable but names an address more than one device row carries. */
  ghost predicate IsAmbiguous(devices: map<Id, DeviceRow>, usage: Option<Usage>) {
    usage.Some? && Ambiguous(devices, usage.value.ip)
  }

  ghost predicate AnyAmbiguous(devices: map<Id, DeviceRow>, usages: seq<Option<Usage>>) {
    exists k :: 0 <= k < |usages| && IsAmbiguous(devices, usages[k])
  }

  ghost predicate AllMaterialized(db: Db, usages: seq<Option<Usage>>, discovery: DiscoveryMethod) {
    forall k :: 0 <= k < |usages| ==> IsMaterialized(db, usages[k], discovery)
  }

  ghost predicate NoneAmbiguous(devices: map<Id, DeviceRow>, usages: seq<Option<Usage>>, k: nat)
    requires k <= |usages|
  {
    forall j :: 0 <= j < k ==> !IsAmbiguous(devices, usages[j])
  }

  ghost predicate FirstMaterialized(db: Db, usages: seq<Option<Usage>>, k: nat, discovery: DiscoveryMethod)
    requires k <= |usages|
  {
    forall j :: 0 <= j < k ==> IsMaterialized(db, usages[j], discovery)
  }

  /** What holds once the first `k` facts have been handled. Kept folded by its match, as above. */
  ghost predicate Handled(before: Db, after: Db, usages: seq<Option<Usage>>, k: nat, discovery: DiscoveryMethod)
    requires k <= |usages|
  {
    match after
    case Db(_, _, _, _) =>
      && Grows(before, after, discovery) && SameAmbiguity(before.devices, after.devices)
      && NoneAmbiguous(before.devices, usages, k) && FirstMaterialized(after, usages, k, discovery)
      && AddsOnlyForAll(before, after, usages, k, discovery)
      && (AllMaterialized(before, usages, discovery) ==> SameKeys(before, after))
  }

  lemma NothingHandled(db: Db, usages: seq<Option<Usage>>, discovery: DiscoveryMethod)
    ensures Handled(db, db, usages, 0, discovery)
  {
    GrowsReflexive(db, discovery);
  }

  /** What one fact does, usable or not. */
  ghost predicate FactStep(before: Db, after: Db, usage: Option<Usage>, discovery: DiscoveryMethod) {
    match usage
    case None => after == before
    case Some(u) => !Ambiguous(before.devices, u.ip) && Materialized(before, after, u.localId, u.ip, u.name, discovery)
  }

  lemma StepKeepsInterfaces(before: Db, after: Db, usage: Option<Usage>, discovery: DiscoveryMethod)
    requires FactStep(before, after, usage, discovery)
    ensures forall i :: i in before.interfaces ==> i in after.interfaces
  {
    if usage.Some? {
      forall i | i in before.interfaces ensures i in after.interfaces { StillStored(before, after, i, discovery); }
    }
  }

  ghost predicate TraceStep(trace: seq<Db>, usages: seq<Option<Usage>>, k: nat, discovery: DiscoveryMethod)
    requires k + 1 < |trace| <= |usages| + 1
  {
    FactStep(trace[k], trace[k + 1], usages[k], discovery)
  }

  /** The tables after each of the first facts. */
  ghost predicate IsTrace(trace: seq<Db>, usages: seq<Option<Usage>>, discovery: DiscoveryMethod)
    requires |trace| <= |usages| + 1
  {
    forall k: nat {:trigger TraceStep(trace, usages, k, discovery)} :: k + 1 < |trace| ==>
      TraceStep(trace, usages, k, discovery)
  }

  lemma TraceGrows(trace: seq<Db>, next: Db, usages: seq<Option<Usage>>, discovery: DiscoveryMethod)
    requires 0 < |trace| <= |usages| && IsTrace(trace, usages, discovery)
    requires FactStep(trace[|trace| - 1], next, usages[|trace| - 1], discovery)
    ensures IsTrace(trace + [next], usages, discovery)
  {
    var grown := trace + [next];
    forall k: nat | k + 1 < |grown| ensures TraceStep(grown, usages, k, discovery) {
      if k + 1 < |trace| {
        assert TraceStep(trace, usages, k, discovery);
        StepInLonger(trace, next, usages, k, discovery);
      } else {
        LastStep(trace, next, usages, discovery);
      }
    }
  }

  lemma StepInLonger(trace: seq<Db>, next: Db, usages: seq<Option<Usage>>, k: nat, discovery: DiscoveryMethod)
    requires k + 1 < |trace| <= |usages| && TraceStep(trace, usages, k, discovery)
    ensures TraceStep(trace + [next], usages, k, discovery)
  {
  }

  lemma LastStep(trace: seq<Db>, next: Db, usages: seq<Option<Usage>>, discovery: DiscoveryMethod)
    requires 0 < |trace| <= |usages|
    requires FactStep(trace[|trace| - 1], next, usages[|trace| - 1], discovery)
    ensures TraceStep(trace + [next], usages, |trace| - 1, discovery)
  {
  }

  lemma {:induction false} TraceIsHandled(trace: seq<Db>, usages: seq<Option<Usage>>, k: nat, discovery: DiscoveryMethod)
    requires k < |trace| <= |usages| + 1 && IsTrace(trace, usages, discovery)
    ensures Handled(trace[0], trace[k], usages, k, discovery)
  {
    if k == 0 {
      NothingHandled(trace[0], usages, discovery);
    } else {
      TraceIsHandled(trace, usages, k - 1, discovery);
      HandledTraceStep(trace, usages, k - 1, discovery);
    }
  }

  lemma HandledTraceStep(trace: seq<Db>, usages: seq<Option<Usage>>, k: nat, discovery: DiscoveryMethod)
    requires k + 1 < |trace| <= |usages| + 1 && IsTrace(trace, usages, discovery)
    requires Handled(trace[0], trace[k], usages, k, discovery)
    ensures Handled(trace[0], trace[k + 1], usages, k + 1, discovery)
  {
    assert TraceStep(trace, usages, k, discovery);
    HandledFact(trace[0], trace[k], trace[k + 1], usages, k, discovery);
  }

  lemma HandledFact(before: Db, here: Db, after: Db, usages: seq<Option<Usage>>, k: nat, discovery: DiscoveryMethod)
    requires k < |usages| && Handled(before, here, usages, k, discovery) && FactStep(here, after, usages[k], discovery)
    ensures Handled(before, after, usages, k + 1, discovery)
  {
    match usages[k]
    case None => HandledSkip(before, here, usages, k, discovery);
    case Some(u) => HandledStep(before, here, after, usages, k, u, discovery);
  }

  /** What the whole trace amounts to: the facts failed if it stops before the last of them. */
  lemma TraceConcludes(trace: seq<Db>, usages: seq<Option<Usage>>, discovery: DiscoveryMethod)
    requires 0 < |trace| <= |usages| + 1 && IsTrace(trace, usages, discovery)
    requires |trace| <= |usages| ==> IsAmbiguous(trace[|trace| - 1].devices, usages[|trace| - 1])
    ensures Concluded(trace[0], trace[|trace| - 1], usages, |trace| <= |usages|, discovery)
  {
    TraceIsHandled(trace, usages, |trace| - 1, discovery);
    HandledSoFar(trace[0], trace[|trace| - 1], usages, |trace| - 1, discovery);
  }

  lemma HandledStep(before: Db, here: Db, after: Db, usages: seq<Option<Usage>>, k: nat, u: Usage,
                    discovery: DiscoveryMethod)
    requires k < |usages| && Handled(before, here, usages, k, discovery) && usages[k] == Some(u)
    requires !Ambiguous(here.devices, u.ip) && Materialized(here, after, u.localId, u.ip, u.name, discovery)
    ensures Handled(before, after, usages, k + 1, discovery)
  {
    assert !IsAmbiguous(here.devices, usages[k]) && IsMaterialized(after, usages[k], discovery);
    GrowsTransitive(before, here, after, discovery);
    LinksStep(before, here, after, usages, k, discovery);
    AddsOneMore(before, here, after, usages, k, discovery);
    if AllMaterialized(before, usages, discovery) {
      assert IsMaterialized(before, usages[k], discovery);
      MaterializedStays(before, here, usages[k], discovery);
      SameKeysTransitive(before, here, after);
    }
  }

  lemma LinksStep(before: Db, here: Db, after: Db, usages: seq<Option<Usage>>, k: nat, discovery: DiscoveryMethod)
    requires k < |usages| && Grows(here, after, discovery) && SameAmbiguity(before.devices, here.devices)
    requires NoneAmbiguous(before.devices, usages, k) && FirstMaterialized(here, usages, k, discovery)
    requires !IsAmbiguous(here.devices, usages[k]) && IsMaterialized(after, usages[k], discovery)
    ensures NoneAmbiguous(before.devices, usages, k + 1) && FirstMaterialized(after, usages, k + 1, discovery)
  {
    NotAmbiguousBefore(before.devices, here.devices, usages, k);
    FirstStayMaterialized(here, after, usages, k, discovery);
  }

  lemma NotAmbiguousBefore(before: map<Id, DeviceRow>, here: map<Id, DeviceRow>, usages: seq<Option<Usage>>, k: nat)
    requires k < |usages| && SameAmbiguity(before, here)
    requires NoneAmbiguous(before, usages, k) && !IsAmbiguous(here, usages[k])
    ensures NoneAmbiguous(before, usages, k + 1)
  {
  }

  lemma FirstStayMaterialized(here: Db, after: Db, usages: seq<Option<Usage>>, k: nat, discovery: DiscoveryMethod)
    requires k < |usages| && Grows(here, after, discovery)
    requires FirstMaterialized(here, usages, k, discovery) && IsMaterialized(after, usages[k], discovery)
    ensures FirstMaterialized(after, usages, k + 1, discovery)
  {
    forall j | 0 <= j < k ensures IsMaterialized(after, usages[j], discovery) {
      MaterializedStays(here, after, usages[j], discovery);
    }
  }

  lemma SameKeysTransitive(x: Db, y: Db, z: Db)
    requires SameKeys(x, y) && SameKeys(y, z)
    ensures SameKeys(x, z)
  {
  }

  lemma MaterializedStays(before: Db, after: Db, usage: Option<Usage>, discovery: DiscoveryMethod)
    requires Grows(before, after, discovery) && IsMaterialized(before, usage, discovery)
    ensures IsMaterialized(after, usage, discovery)
  {
    if usage.Some? {
      LinkedToStays(before, after, usage.value.localId, usage.value.ip, usage.value.name, discovery);
    }
  }

  lemma HandledSkip(before: Db, here: Db, usages: seq<Option<Usage>>, k: nat, discovery: DiscoveryMethod)
    requires k < |usages| && Handled(before, here, usages, k, discovery) && usages[k].None?
    ensures Handled(before, here, usages, k + 1, discovery)
  {
    AddsNoMore(before, here, usages, k, k + 1, discovery);
  }

  /** What materializing all facts does to the tables. Kept folded by its match, as above. */
  ghost predicate Concluded(before: Db, after: Db, usages: seq<Option<Usage>>, failed: bool, discovery: DiscoveryMethod) {
    match after
    case Db(_, _, _, _) =>
      && Grows(before, after, discovery) && AddsOnlyForAll(before, after, usages, |usages|, discovery)
      && (AllMaterialized(before, usages, discovery) ==> SameKeys(before, after))
      && (failed <==> AnyAmbiguous(before.devices, usages))
      && (!failed ==> AllMaterialized(after, usages, discovery))
  }

  /** What is known when the loop ends, or stops at fact `k`. */
  lemma HandledSoFar(before: Db, after: Db, usages: seq<Option<Usage>>, k: nat, discovery: DiscoveryMethod)
    requires k <= |usages| && Handled(before, after, usages, k, discovery)
    requires k < |usages| ==> IsAmbiguous(after.devices, usages[k])
    ensures Concluded(before, after, usages, k < |usages|, discovery)
  {
    AddsNoMore(before, after, usages, k, |usages|, discovery);
  }
}
