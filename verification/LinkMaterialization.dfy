/** Turning neighbour facts into link rows: what it writes, when it fails, and that it never deletes. */
module LinkMaterialization {
  import opened Common
  import opened DeviceIdentity
  import opened Inventory
  import opened InventoryStore
  import opened LinkGrowth

  // ---------------------------------------------------------------- neighbour facts

  datatype NeighborFact = NeighborFact(
    localInterface: string, remoteHostname: Option<string>, remoteInterface: Option<string>, remoteMgmtIp: Option<string>)

  function LastNamed(ifaces: seq<Interface>, port: string): (r: Option<Interface>)
    ensures r.Some? ==> r.value in ifaces
  {
    if ifaces == [] then None
    else if ifaces[|ifaces| - 1].name == port then Some(ifaces[|ifaces| - 1])
    else LastNamed(ifaces[..|ifaces| - 1], port)
  }

  function LastIndexed(ifaces: seq<Interface>, port: string): (r: Option<Interface>)
    ensures r.Some? ==> r.value in ifaces
  {
    if ifaces == [] || port == "" then None
    else if ifaces[|ifaces| - 1].fields.ifIndex == Some(port) then Some(ifaces[|ifaces| - 1])
    else LastIndexed(ifaces[..|ifaces| - 1], port)
  }

  /** The local port a fact names, by interface name or else by interface index. */
  function LocalPort(ifaces: seq<Interface>, port: string): (r: Option<Interface>)
    ensures r.Some? ==> r.value in ifaces
  {
    if LastNamed(ifaces, port).Some? then LastNamed(ifaces, port) else LastIndexed(ifaces, port)
  }

  /** It has that name if any interface has it, else that index if any has it, and there is none otherwise. */
  lemma LocalPortIs(ifaces: seq<Interface>, port: string)
    ensures var named, indexed := (exists i :: i in ifaces && i.name == port),
                                  port != "" && exists i :: i in ifaces && i.fields.ifIndex == Some(port);
            && (LocalPort(ifaces, port).Some? <==> named || indexed)
            && (named ==> LocalPort(ifaces, port).value.name == port)
            && (!named && indexed ==> LocalPort(ifaces, port).value.fields.ifIndex == Some(port))
  {
    LastNamedIs(ifaces, port);
    LastIndexedIs(ifaces, port);
  }

  lemma {:induction false} LastNamedIs(ifaces: seq<Interface>, port: string)
    ensures LastNamed(ifaces, port).Some? <==> exists i :: i in ifaces && i.name == port
    ensures LastNamed(ifaces, port).Some? ==> LastNamed(ifaces, port).value.name == port
  {
    if ifaces != [] {
      var init, last := ifaces[..|ifaces| - 1], ifaces[|ifaces| - 1];
      assert ifaces == init + [last];
      LastNamedIs(init, port);
    }
  }

  lemma {:induction false} LastIndexedIs(ifaces: seq<Interface>, port: string)
    ensures LastIndexed(ifaces, port).Some? <==> port != "" && exists i :: i in ifaces && i.fields.ifIndex == Some(port)
    ensures LastIndexed(ifaces, port).Some? ==> LastIndexed(ifaces, port).value.fields.ifIndex == Some(port)
  {
    if ifaces != [] && port != "" {
      var init, last := ifaces[..|ifaces| - 1], ifaces[|ifaces| - 1];
      assert ifaces == init + [last];
      LastIndexedIs(init, port);
    }
  }

  /** A fact becomes a link when its local port is known and it carries a management address. */
  predicate Usable(ifaces: seq<Interface>, fact: NeighborFact) {
    LocalPort(ifaces, fact.localInterface).Some? && fact.remoteMgmtIp.Some? && fact.remoteMgmtIp.value != ""
  }

  /** Of several interfaces of that name the last one is taken; so for an index. */
  lemma {:induction false} LastNamedIsLast(ifaces: seq<Interface>, port: string, k: nat)
    requires k < |ifaces| && ifaces[k].name == port && forall j :: k < j < |ifaces| ==> ifaces[j].name != port
    ensures LastNamed(ifaces, port) == Some(ifaces[k])
  {
    if k < |ifaces| - 1 { LastNamedIsLast(ifaces[..|ifaces| - 1], port, k); }
  }

  lemma {:induction false} LastIndexedIsLast(ifaces: seq<Interface>, port: string, k: nat)
    requires k < |ifaces| && port != "" && ifaces[k].fields.ifIndex == Some(port)
    requires forall j :: k < j < |ifaces| ==> ifaces[j].fields.ifIndex != Some(port)
    ensures LastIndexed(ifaces, port) == Some(ifaces[k])
  {
    if k < |ifaces| - 1 { LastIndexedIsLast(ifaces[..|ifaces| - 1], port, k); }
  }

  /** A fact is usable exactly when some interface has its local name or index and it carries an address. */
  lemma UsableIff(ifaces: seq<Interface>, fact: NeighborFact)
    ensures Usable(ifaces, fact)
            <==> && fact.remoteMgmtIp.Some? && fact.remoteMgmtIp.value != ""
                 && (|| (exists i :: i in ifaces && i.name == fact.localInterface)
                     || (fact.localInterface != ""
                         && exists i :: i in ifaces && i.fields.ifIndex == Some(fact.localInterface)))
  {
    LocalPortIs(ifaces, fact.localInterface);
  }

  function CountUsable(ifaces: seq<Interface>, facts: seq<NeighborFact>): nat {
    if facts == [] then 0
    else CountUsable(ifaces, facts[..|facts| - 1]) + if Usable(ifaces, facts[|facts| - 1]) then 1 else 0
  }

  function UsableAmong(ifaces: seq<Interface>, facts: seq<NeighborFact>): set<nat> {
    set k: nat | k < |facts| && Usable(ifaces, facts[k])
  }

  /** One is counted for each usable fact. */
  lemma {:induction false} CountUsableCounts(ifaces: seq<Interface>, facts: seq<NeighborFact>)
    ensures CountUsable(ifaces, facts) == |UsableAmong(ifaces, facts)|
  {
    if facts == [] {
      assert UsableAmong(ifaces, facts) == {};
    } else {
      var n := |facts| - 1;
      CountUsableCounts(ifaces, facts[..n]);
      assert UsableAmong(ifaces, facts)
             == UsableAmong(ifaces, facts[..n]) + if Usable(ifaces, facts[n]) then {n} else {};
    }
  }

  function RemoteName(fact: NeighborFact): string { OrElse(fact.remoteInterface, PLACEHOLDER) }

  function OperStatus(fields: IfaceFields): string {
    Lower(if fields.operStatus != "" then fields.operStatus else "unknown")
  }

  function VlansOf(local: IfaceFields): seq<int> {
    var native := if local.nativeVlan.Some? && local.nativeVlan.value != 0 then [local.nativeVlan.value] else [];
    native + Without(local.taggedVlans, native)
  }

  function FactsFor(local: IfaceFields, remote: IfaceFields, discovery: DiscoveryMethod): LinkFacts {
    LinkFacts(
      discovery, local.speedBps, local.lacpGroup, local.isTrunk,
      VlansOf(local),
      Confidence(discovery),
      if OperStatus(local) == "up" && OperStatus(remote) == "up" then "up"
      else if OperStatus(local) == "down" || OperStatus(remote) == "down" then "down" else "unknown")
  }

  function Without(s: seq<int>, drop: seq<int>): seq<int> {
    if s == [] then []
    else if s[0] in drop then Without(s[1..], drop)
    else [s[0]] + Without(s[1..], drop)
  }

  function StubFor(fact: NeighborFact, ip: string): DeviceRow { Stub(OrElse(fact.remoteHostname, ip), ip) }

  predicate SaysUp(fields: IfaceFields) { Lower(fields.operStatus) == "up" }
  predicate SaysDown(fields: IfaceFields) { Lower(fields.operStatus) == "down" }

  predicate NoNative(fields: IfaceFields) { fields.nativeVlan == None || fields.nativeVlan == Some(0) }

  /** A link takes speed, aggregation key and trunk flag from the local port, and its certainty from the protocol. */
  lemma FactsAre(local: IfaceFields, remote: IfaceFields, discovery: DiscoveryMethod)
    ensures var facts := FactsFor(local, remote, discovery);
            && facts.discovery == discovery && facts.speedBps == local.speedBps && facts.vlans == VlansOf(local)
            && facts.lacpKey == local.lacpGroup && facts.isTrunk == local.isTrunk
            && (discovery == Lldp || discovery == Cdp ==> facts.confidence == 1.0)
            && (discovery == Fdb ==> facts.confidence == 0.6)
            && (discovery == Arp || discovery == ManualSeed ==> facts.confidence == 0.4)
  {
  }

  /** The VLANs are the native one, unless zero, then the tagged ones but for that. */
  lemma VlansAre(local: IfaceFields)
    ensures NoNative(local) ==> VlansOf(local) == local.taggedVlans
    ensures !NoNative(local) ==>
              VlansOf(local) == [local.nativeVlan.value] + Without(local.taggedVlans, [local.nativeVlan.value])
  {
    WithoutNothing(local.taggedVlans);
    assert [] + local.taggedVlans == local.taggedVlans;
  }

  /** The link is up when both ports say so, down when either says so, in any case of letters, and unknown otherwise. */
  lemma LinkStatusIs(local: IfaceFields, remote: IfaceFields, discovery: DiscoveryMethod)
    ensures FactsFor(local, remote, discovery).linkStatus
            == if SaysUp(local) && SaysUp(remote) then "up"
               else if SaysDown(local) || SaysDown(remote) then "down" else "unknown"
  {
    StatusIs(local);
    StatusIs(remote);
  }

  lemma StatusIs(fields: IfaceFields)
    ensures OperStatus(fields) == "up" <==> SaysUp(fields)
    ensures OperStatus(fields) == "down" <==> SaysDown(fields)
  {
    var up, down, unknown := "up", "down", "unknown";
    assert |up| == 2 && |down| == 4 && |unknown| == 7;
    assert |Lower(unknown)| == 7 && |Lower("")| == 0;
  }

  lemma {:induction false} WithoutNothing(s: seq<int>)
    ensures Without(s, []) == s
  {
    if s != [] { WithoutNothing(s[1..]); }
  }

  /** An entry is kept unless it is one of those to leave out. */
  lemma WithoutHead(x: int, rest: seq<int>, drop: seq<int>)
    ensures Without([x] + rest, drop) == (if x in drop then [] else [x]) + Without(rest, drop)
  {
    assert ([x] + rest)[1..] == rest;
  }

  /** What is kept of two lists in a row is what is kept of each, in order. */
  lemma {:induction false} WithoutSplits(s: seq<int>, t: seq<int>, drop: seq<int>)
    ensures Without(s + t, drop) == Without(s, drop) + Without(t, drop)
  {
    if s == [] {
      assert s + t == t;
    } else {
      var x, rest := s[0], s[1..];
      WithoutSplits(rest, t, drop);
      assert s == [x] + rest && s + t == [x] + (rest + t);
      WithoutHead(x, rest, drop);
      WithoutHead(x, rest + t, drop);
    }
  }

  /** A port of which nothing is known but the speed of the port it is cabled to. */
  predicate IsBarePort(fields: IfaceFields, local: IfaceFields) {
    && fields.speedBps == local.speedBps && fields.description == Some("auto-created from discovery")
    && fields.ifIndex == fields.mac == fields.duplex == fields.lacpGroup == None
    && fields.mtu == fields.nativeVlan == None && fields.taggedVlans == []
    && !fields.poeEnabled && !fields.isTrunk && fields.adminStatus == fields.operStatus == "unknown"
  }

  /** A device of which nothing is known but the address and, if the fact has one, a name. */
  predicate IsBareDevice(row: DeviceRow, fact: NeighborFact, ip: string) {
    && row.managementIp == Some(ip)
    && row.hostname == (if fact.remoteHostname in {None, Some("")} then ip else fact.remoteHostname.value)
    && row.vendor == row.model == row.platform == row.status == "unknown"
    && row.serial == row.firmware == row.osVersion == row.managementMac == None && row.attributes == map[]
  }

  /** New devices and ports are bare, and the fact's link row has the details of its two ports. */
  ghost predicate IsBareGrowth(before: Db, after: Db, localId: Id, local: IfaceFields, fact: NeighborFact, ip: string,
                               discovery: DiscoveryMethod) {
    match after
    case Db(devices, interfaces, links, _) =>
      && (forall d :: d in devices && d !in before.devices ==> IsBareDevice(devices[d], fact, ip))
      && (forall i :: i in interfaces && i !in before.interfaces ==> IsBarePort(interfaces[i].fields, local))
      && exists l, r :: l in links && r in interfaces
                        && IsCableTo(after, links[l], localId, r, ip, RemoteName(fact), discovery)
                        && links[l].facts == FactsFor(local, interfaces[r].fields, discovery)
  }

  function AutoCreatedFields(local: IfaceFields): IfaceFields {
    IfaceFields(None, Some("auto-created from discovery"), None, None, None, local.speedBps, false,
                "unknown", "unknown", false, None, None, [])
  }

  // ---------------------------------------------------------------- one fact

  function FindNamed(list: seq<Interface>, name: string): (r: Option<Interface>)
    ensures r.Some? ==> r.value in list && r.value.name == name
    ensures r.None? ==> forall k :: 0 <= k < |list| ==> list[k].name != name
  {
    if list == [] then None
    else if list[0].name == name then Some(list[0])
    else FindNamed(list[1..], name)
  }

  /** Finds the remote port a fact names, or creates it (or the placeholder port) on the remote device. */
  method RemotePort(store: Store, device: Id, fact: NeighborFact, local: IfaceFields, ghost discovery: DiscoveryMethod)
    returns (port: Interface)
    requires store.Valid() && device in store.db.devices
    modifies store
    ensures store.Valid() && Grows(old(store.db), store.db, discovery)
    ensures PortAdded(old(store.db), store.db, device, RemoteName(fact), port.id)
    ensures store.db.interfaces[port.id].fields == port.fields
    ensures port.id !in old(store.db).interfaces ==> IsBarePort(port.fields, local)
  {
    var list := store.ListForDevice(device);
    ghost var specs := Specs(list);
    if fact.remoteInterface.Some? && fact.remoteInterface.value != "" {
      var known := FindNamed(list, fact.remoteInterface.value);
      if known.Some? {
        port := known.value;
        GrowsReflexive(store.db, discovery);
        KnownPort(store.db, device, RemoteName(fact), port.id);
        return;
      }
    }
    port := CreatePort(store, device, list, RemoteName(fact), AutoCreatedFields(local), discovery);
  }

  /** Adds an interface of that name to the full list of a device, and stores the list. */
  method CreatePort(store: Store, device: Id, list: seq<Interface>, name: string, fields: IfaceFields,
                    ghost discovery: DiscoveryMethod)
    returns (port: Interface)
    requires store.Valid() && device in store.db.devices && name != ""
    requires ListsDevice(store.db.interfaces, device, Specs(list))
    requires name == PLACEHOLDER || NotListed(Specs(list), name)
    modifies store, set o | o in list
    ensures store.Valid() && Grows(old(store.db), store.db, discovery)
    ensures PortAdded(old(store.db), store.db, device, name, port.id)
    ensures store.db.interfaces[port.id].fields == port.fields == fields
  {
    var id := store.NewId();
    port := new Interface(id, name, fields);
    ghost var before, specs, extra := store.db, Specs(list), Spec(id, name, fields);
    StoreLonger(store, device, list, port);
    PortAppended(before, store.db, device, specs, extra, Specs(list + [port]), discovery);
    AppendedHasFields(before, store.db, device, specs, extra, port.id);
  }

  /** Replaces the full list of a device by the same list and one more port. */
  method StoreLonger(store: Store, device: Id, list: seq<Interface>, port: Interface)
    requires store.Valid() && device in store.db.devices
    requires ListsDevice(store.db.interfaces, device, Specs(list))
    requires port.id !in store.db.interfaces && port.id.n < store.nextId
    modifies store`db, port, set o | o in list
    ensures store.Valid()
    ensures var specs := old(Specs(list)) + [Spec(old(port.id), port.name, port.fields)];
            && Performs(old(store.db), ReplaceInterfaces(device, specs), store.db)
            && CarriesStoredIds(old(store.db), device, specs, Specs(list + [port]))
  {
    SpecsSnoc(list, port);
    AppendBringsNewId(store.db.interfaces, device, Specs(list), Spec(port.id, port.name, port.fields));
    ListedBelow(store.db, store.nextId, device, list, port);
    store.ReplaceForDevice(device, list + [port]);
  }

  lemma SpecsSnoc(list: seq<Interface>, port: Interface)
    ensures Specs(list + [port]) == Specs(list) + [Spec(port.id, port.name, port.fields)]
  {
    assert (list + [port])[..|list|] == list;
  }

  lemma ListedBelow(db: Db, bound: nat, device: Id, list: seq<Interface>, port: Interface)
    requires ListsDevice(db.interfaces, device, Specs(list)) && IdsBelow(db, bound) && port.id.n < bound
    ensures forall k :: 0 <= k < |list + [port]| ==> (list + [port])[k].id.n < bound
  {
    forall k | 0 <= k < |list| ensures list[k].id.n < bound {
      assert Specs(list)[k].id in db.interfaces;
    }
  }

  lemma StubForIsBare(fact: NeighborFact, ip: string)
    ensures IsBareDevice(StubFor(fact, ip), fact, ip)
  {
  }

  lemma NewStubIsBare(before: Db, after: Db, fact: NeighborFact, ip: string, id: Id, row: Id)
    requires Performs(before, StoreDevice(row, id, StubFor(fact, ip)), after)
    ensures row in after.devices && (row !in before.devices ==> IsBareDevice(after.devices[row], fact, ip))
  {
    StubForIsBare(fact, ip);
  }

  /** Stores the link of one usable fact; fails, changing nothing, exactly when the remote address is ambiguous. */
  method MaterializeOne(store: Store, local: Interface, fact: NeighborFact, ip: string, discovery: DiscoveryMethod)
    returns (ok: bool)
    requires store.Valid() && local.id in store.db.interfaces && ip != ""
    modifies store
    ensures store.Valid()
    ensures ok <==> !Ambiguous(old(store.db.devices), ip)
    ensures !ok ==> store.db == old(store.db)
    ensures ok ==> Materialized(old(store.db), store.db, old(local.id), ip, RemoteName(fact), discovery)
    ensures ok ==> IsBareGrowth(old(store.db), store.db, old(local.id), local.fields, fact, ip, discovery)
  {
    ghost var before := store.db;
    var id := store.NewId();
    var found := store.UpsertByIdentity(id, StubFor(fact, ip));
    if found.None? { return false; }
    StubIsStored(before, store.db, OrElse(fact.remoteHostname, ip), ip, id, found.value, discovery);
    NewStubIsBare(before, store.db, fact, ip, id, found.value);
    LinkRemote(store, local, fact, ip, found.value, discovery, before);
    ok := true;
  }

  /** Finds or creates the remote port on a stored device, and stores the link to it. */
  method LinkRemote(store: Store, local: Interface, fact: NeighborFact, ip: string, device: Id,
                    discovery: DiscoveryMethod, ghost before: Db)
    requires store.Valid() && local.id in store.db.interfaces && ip != ""
    requires StubDone(before, store.db, ip, device, discovery)
    requires device !in before.devices ==> IsBareDevice(store.db.devices[device], fact, ip)
    modifies store
    ensures store.Valid()
    ensures Materialized(before, store.db, old(local.id), ip, RemoteName(fact), discovery)
    ensures IsBareGrowth(before, store.db, old(local.id), local.fields, fact, ip, discovery)
  {
    ghost var db1 := store.db;
    StubDoneStores(before, db1, ip, device, discovery);
    ghost var db2;
    var port, row;
    port, row, db2 := JoinPorts(store, local, fact, device, discovery);
    GrowsBare(before, db1, db2, store.db, device, port, row, old(local.id), local.fields, fact, ip, discovery);
    FactMaterialized(before, db1, db2, store.db, device, port, row, old(local.id), ip, RemoteName(fact), discovery);
  }

  lemma GrowsBare(before: Db, db1: Db, db2: Db, after: Db, device: Id, port: Id, row: Id, localId: Id, local: IfaceFields,
                  fact: NeighborFact, ip: string, discovery: DiscoveryMethod)
    requires StubDone(before, db1, ip, device, discovery)
    requires device !in before.devices ==> IsBareDevice(db1.devices[device], fact, ip)
    requires PortAdded(db1, db2, device, RemoteName(fact), port) && CableAdded(db2, after, localId, port, row, discovery)
    requires port !in db1.interfaces ==> IsBarePort(db2.interfaces[port].fields, local)
    requires after.links[row].facts == FactsFor(local, db2.interfaces[port].fields, discovery)
    ensures IsBareGrowth(before, after, localId, local, fact, ip, discovery)
  {
    assert IsCableTo(after, after.links[row], localId, port, ip, RemoteName(fact), discovery);
  }

  method JoinPorts(store: Store, local: Interface, fact: NeighborFact, device: Id, discovery: DiscoveryMethod)
    returns (port: Id, row: Id, ghost between: Db)
    requires store.Valid() && local.id in store.db.interfaces && device in store.db.devices
    modifies store
    ensures store.Valid()
    ensures Grows(old(store.db), between, discovery)
    ensures PortAdded(old(store.db), between, device, RemoteName(fact), port)
    ensures Grows(between, store.db, discovery)
    ensures CableAdded(between, store.db, old(local.id), port, row, discovery)
    ensures port !in old(store.db).interfaces ==> IsBarePort(between.interfaces[port].fields, local.fields)
    ensures store.db.links[row].facts == FactsFor(local.fields, between.interfaces[port].fields, discovery)
  {
    var remote := RemotePort(store, device, fact, local.fields, discovery);
    between := store.db;
    row := StoreCable(store, local, remote, discovery);
    port := remote.id;
  }

  /** Stores the link between the two ports. */
  method StoreCable(store: Store, local: Interface, port: Interface, discovery: DiscoveryMethod) returns (row: Id)
    requires store.Valid() && local.id in store.db.interfaces && port.id in store.db.interfaces
    modifies store
    ensures store.Valid() && Grows(old(store.db), store.db, discovery)
    ensures CableAdded(old(store.db), store.db, local.id, port.id, row, discovery)
    ensures store.db.links[row].facts == FactsFor(local.fields, port.fields, discovery)
  {
    ghost var before := store.db;
    var linkId := store.NewId();
    var facts := FactsFor(local.fields, port.fields, discovery);
    var link := new Link(linkId, local.id, port.id, facts);
    row := store.UpsertLink(link);
    NowLinked(before, store.db, row, local.id, port.id, facts, discovery);
  }

  // ---------------------------------------------------------------- all facts of a device

  /** What a fact asks for, if it is usable. */
  ghost function UsageOf(ifaces: seq<Interface>, fact: NeighborFact): Option<Usage>
    reads ifaces
  {
    if Usable(ifaces, fact)
    then Some(Usage(LocalPort(ifaces, fact.localInterface).value.id, fact.remoteMgmtIp.value, RemoteName(fact)))
    else None
  }

  /** A usable fact asks for a link from its local port to the port it names, or the placeholder, at its address. */
  lemma UsageIs(ifaces: seq<Interface>, fact: NeighborFact)
    requires Usable(ifaces, fact)
    ensures var usage := UsageOf(ifaces, fact);
            && usage.Some? && usage.value.localId == LocalPort(ifaces, fact.localInterface).value.id
            && fact.remoteMgmtIp == Some(usage.value.ip)
            && (fact.remoteInterface in {None, Some("")} ==> usage.value.name == "unknown")
            && (fact.remoteInterface !in {None, Some("")} ==> fact.remoteInterface == Some(usage.value.name))
  {
  }

  ghost function Usages(ifaces: seq<Interface>, facts: seq<NeighborFact>): (usages: seq<Option<Usage>>)
    reads ifaces
    ensures |usages| == |facts|
    ensures forall k :: 0 <= k < |facts| ==> usages[k] == UsageOf(ifaces, facts[k])
  {
    if facts == [] then [] else Usages(ifaces, facts[..|facts| - 1]) + [UsageOf(ifaces, facts[|facts| - 1])]
  }

  /** The interface objects carry the identifiers of stored rows. */
  ghost predicate AllStored(ifaces: seq<Interface>, db: Db)
    reads ifaces
  {
    forall i :: i in ifaces ==> i.id in db.interfaces
  }

  /** One usable fact as a step over the tables. */
  method MaterializeStep(store: Store, local: Interface, fact: NeighborFact, ip: string, discovery: DiscoveryMethod)
    returns (ok: bool)
    requires store.Valid() && local.id in store.db.interfaces && ip != ""
    modifies store
    ensures store.Valid()
    ensures !ok ==> Ambiguous(old(store.db.devices), ip) && store.db == old(store.db)
    ensures ok ==> FactStep(old(store.db), store.db, Some(Usage(old(local.id), ip, RemoteName(fact))), discovery)
  {
    ok := MaterializeOne(store, local, fact, ip, discovery);
  }

  /** One round: handles the next fact, or fails on an ambiguous address. */
  method MaterializeFact(store: Store, ifaces: seq<Interface>, fact: NeighborFact, discovery: DiscoveryMethod,
                         ghost trace: seq<Db>, ghost usages: seq<Option<Usage>>)
    returns (ok: bool, added: nat)
    requires store.Valid() && AllStored(ifaces, store.db)
    requires 0 < |trace| <= |usages| && usages[|trace| - 1] == UsageOf(ifaces, fact)
    requires trace[|trace| - 1] == store.db && IsTrace(trace, usages, discovery)
    modifies store
    ensures store.Valid() && AllStored(ifaces, store.db)
    ensures ok ==> IsTrace(trace + [store.db], usages, discovery)
    ensures ok ==> added == if Usable(ifaces, fact) then 1 else 0
    ensures !ok ==> IsAmbiguous(old(store.db.devices), usages[|trace| - 1]) && store.db == old(store.db)
  {
    var local := LocalPort(ifaces, fact.localInterface);
    ghost var before := store.db;
    if local.None? || fact.remoteMgmtIp.None? || fact.remoteMgmtIp.value == "" {
      TraceGrows(trace, before, usages, discovery);
      return true, 0;
    }
    ok := MaterializeStep(store, local.value, fact, fact.remoteMgmtIp.value, discovery);
    added := 1;
    if ok {
      StepKeepsInterfaces(before, store.db, usages[|trace| - 1], discovery);
      TraceGrows(trace, store.db, usages, discovery);
    }
  }

  /**
   * Stores a link for every usable fact. It fails exactly when some usable fact's address is ambiguous beforehand. In
   * no case is anything deleted or a device degraded, and every new row belongs to a usable fact; when all links are
   * there already, no row is added to any table.
   */
  method MaterializeLinks(store: Store, ifaces: seq<Interface>, facts: seq<NeighborFact>, discovery: DiscoveryMethod)
    returns (count: Option<nat>)
    requires store.Valid() && AllStored(ifaces, store.db)
    modifies store
    ensures store.Valid()
    ensures Concluded(old(store.db), store.db, old(Usages(ifaces, facts)), count.None?, discovery)
    ensures count.Some? ==> count.value == CountUsable(ifaces, facts)
  {
    ghost var usages := Usages(ifaces, facts);
    ghost var trace;
    count, trace := MaterializeAll(store, ifaces, facts, discovery, usages);
    TraceConcludes(trace, usages, discovery);
  }

  /** The loop over the facts, up to the first one that fails; the trace has the tables after each fact. */
  method MaterializeAll(store: Store, ifaces: seq<Interface>, facts: seq<NeighborFact>, discovery: DiscoveryMethod,
                        ghost usages: seq<Option<Usage>>)
    returns (count: Option<nat>, ghost trace: seq<Db>)
    requires store.Valid() && AllStored(ifaces, store.db) && |usages| == |facts|
    requires forall k :: 0 <= k < |facts| ==> usages[k] == UsageOf(ifaces, facts[k])
    modifies store
    ensures store.Valid() && 0 < |trace| <= |usages| + 1
    ensures trace[0] == old(store.db) && trace[|trace| - 1] == store.db && IsTrace(trace, usages, discovery)
    ensures if count.None? then |trace| <= |usages| && IsAmbiguous(store.db.devices, usages[|trace| - 1])
            else |trace| == |usages| + 1 && count.value == CountUsable(ifaces, facts)
  {
    var n := 0;
    trace := [store.db];
    for i := 0 to |facts|
      invariant store.Valid() && AllStored(ifaces, store.db) && n == CountUsable(ifaces, facts[..i])
      invariant |trace| == i + 1 && trace[0] == old(store.db) && trace[i] == store.db
      invariant IsTrace(trace, usages, discovery)
    {
      assert facts[..i + 1][..i] == facts[..i];
      var ok, added := MaterializeFact(store, ifaces, facts[i], discovery, trace, usages);
      if !ok { return None, trace; }
      trace := trace + [store.db];
      n := n + added;
    }
    assert facts[..|facts|] == facts;
    count := Some(n);
  }
}
