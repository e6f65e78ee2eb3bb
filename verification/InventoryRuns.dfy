/** Whole runs of the store: any mix of interface replacements, link upserts and device upserts. */
module InventoryRuns {
  import opened Common
  import opened DeviceIdentity
  import opened Inventory
  import opened InventoryStore

  /** A run: the tables after each call of a list of calls, each made on intact tables. */
  ghost predicate IsRun(run: seq<Db>, actions: seq<Action>) {
    && |run| == |actions| + 1 && Intact(run[0])
    && forall k :: 0 <= k < |actions| ==> Intact(run[k]) ==> Performs(run[k], actions[k], run[k + 1])
  }

  lemma ActionKeepsIntact(before: Db, action: Action, after: Db)
    requires Performs(before, action, after)
    ensures Intact(after)
  {
    match action
    case ReplaceInterfaces(device, specs) =>
      ReplacementKeepsIntact(before, after, device, specs);
    case StoreLink(row, x, y, facts) =>
      var links := after.links;
      forall k, l | SamePair(links, k, l) ensures k == l {
        assert SamePair(before.links, k, l) || HasPair(before.links, k, Min(x, y), Max(x, y))
               || HasPair(before.links, l, Min(x, y), Max(x, y)) || k == l;
      }
    case StoreDevice(row, id, identity) =>
  }

  /** Unique keys, canonical pairs and references hold after every call of every run. */
  lemma {:induction false} RunsStayIntact(run: seq<Db>, actions: seq<Action>, k: nat)
    requires IsRun(run, actions) && k <= |actions|
    ensures Intact(run[k])
  {
    if k > 0 {
      RunsStayIntact(run, actions, k - 1);
      assert Performs(run[k - 1], actions[k - 1], run[k]);
      ActionKeepsIntact(run[k - 1], actions[k - 1], run[k]);
    }
  }

  /** The call leaves out neither this device's port of that name nor the device. */
  ghost predicate KeepsPort(action: Action, device: Id, name: string) {
    action.ReplaceInterfaces? && action.device == device ==> name in Names(action.specs)
  }

  ghost predicate HasPort(db: Db, i: Id, device: Id, name: string) {
    i in db.interfaces && db.interfaces[i].deviceId == device && db.interfaces[i].name == name
  }

  /** A port keeps its identifier through any run in which every list for its device names it. */
  lemma {:induction false} PortKeepsItsId(run: seq<Db>, actions: seq<Action>, k: nat, i: Id, device: Id, name: string)
    requires IsRun(run, actions) && k <= |actions|
    requires HasPort(run[0], i, device, name)
    requires forall j :: 0 <= j < k ==> KeepsPort(actions[j], device, name)
    ensures HasPort(run[k], i, device, name)
  {
    if k > 0 {
      PortKeepsItsId(run, actions, k - 1, i, device, name);
      RunsStayIntact(run, actions, k - 1);
      assert Performs(run[k - 1], actions[k - 1], run[k]);
      assert KeepsPort(actions[k - 1], device, name);
      if actions[k - 1].ReplaceInterfaces? && actions[k - 1].device == device {
        KeptNamesKeepIds(run[k - 1], run[k], device, actions[k - 1].specs, i);
      }
    }
  }

  /** A link row keeps its identifier and its pair as long as both its ports are named by every list. */
  lemma {:induction false} LinkKeepsItsRow(run: seq<Db>, actions: seq<Action>, k: nat, l: Id)
    requires IsRun(run, actions) && k <= |actions|
    requires l in run[0].links
    requires forall j :: 0 <= j < k ==> KeepsEnds(run[0], actions[j], l)
    ensures HasPair(run[k].links, l, run[0].links[l].a, run[0].links[l].b)
  {
    if k > 0 {
      LinkKeepsItsRow(run, actions, k - 1, l);
      RunsStayIntact(run, actions, k - 1);
      assert Performs(run[k - 1], actions[k - 1], run[k]);
      if actions[k - 1].ReplaceInterfaces? {
        EndStays(run, actions, k, l, run[0].links[l].a);
        EndStays(run, actions, k, l, run[0].links[l].b);
      }
    }
  }

  ghost predicate KeepsEnds(start: Db, action: Action, l: Id)
    requires Intact(start) && l in start.links
  {
    var a, b := start.interfaces[start.links[l].a], start.interfaces[start.links[l].b];
    KeepsPort(action, a.deviceId, a.name) && KeepsPort(action, b.deviceId, b.name)
  }

  lemma EndStays(run: seq<Db>, actions: seq<Action>, k: nat, l: Id, end: Id)
    requires IsRun(run, actions) && k <= |actions| && l in run[0].links
    requires end == run[0].links[l].a || end == run[0].links[l].b
    requires forall j :: 0 <= j < k ==> KeepsEnds(run[0], actions[j], l)
    ensures end in run[k].interfaces
  {
    var port := run[0].interfaces[end];
    forall j | 0 <= j < k ensures KeepsPort(actions[j], port.deviceId, port.name) {
      assert KeepsEnds(run[0], actions[j], l);
    }
    PortKeepsItsId(run, actions, k, end, port.deviceId, port.name);
  }

  // ---------------------------------------------------------------- how lookups come to fail

  /** The row the upsert goes to, as the lookups find it, if they find one. */
  function Found(devices: map<Id, DeviceRow>, facts: DeviceRow): set<Id> {
    if BySerial(devices, facts) != {} then BySerial(devices, facts) else ByIp(devices, facts.managementIp)
  }

  /** When others keep answering as before and several answer now, the row has joined one that answered before. */
  lemma NewcomerMeets(olds: set<Id>, news: set<Id>, row: Id) returns (d: Id)
    requires forall i :: i != row ==> (i in olds <==> i in news)
    requires Several(news) && !Several(olds)
    ensures row in news && row !in olds && d in olds && d in news && d != row
  {
    var i, j :| i in news && j in news && i != j;
    d := if i == row then j else i;
  }

  /** The facts are found by serial number and bring along the address of a row that is not the one so found. */
  ghost predicate BringsTakenAddress(devices: map<Id, DeviceRow>, facts: DeviceRow, ip: string) {
    && facts.managementIp == Some(ip) && BySerial(devices, facts) != {}
    && exists d :: d in ByIp(devices, Some(ip)) && d !in BySerial(devices, facts)
  }

  lemma TakenAddressClashes(before: Db, after: Db, row: Id, id: Id, facts: DeviceRow, ip: string)
    requires Performs(before, StoreDevice(row, id, facts), after) && ip != ""
    requires BringsTakenAddress(before.devices, facts, ip)
    ensures Ambiguous(after.devices, ip)
  {
    var d :| d in ByIp(before.devices, Some(ip)) && d !in BySerial(before.devices, facts);
    assert row in ByIp(after.devices, Some(ip)) && d in ByIp(after.devices, Some(ip));
  }

  lemma ClashBringsTakenAddress(before: Db, after: Db, row: Id, id: Id, facts: DeviceRow, ip: string)
    requires Performs(before, StoreDevice(row, id, facts), after) && ip != "" && !Ambiguous(before.devices, ip)
    requires Ambiguous(after.devices, ip)
    ensures BringsTakenAddress(before.devices, facts, ip)
  {
    var d := NewcomerMeets(ByIp(before.devices, Some(ip)), ByIp(after.devices, Some(ip)), row);
    assert facts.managementIp == Some(ip);
    assert d in BySerial(before.devices, facts) ==> d == row;
  }

  /** Two rows come to share an address exactly when a row found by serial number takes on the address of another. */
  lemma AddressClashIff(before: Db, after: Db, row: Id, id: Id, facts: DeviceRow, ip: string)
    requires Performs(before, StoreDevice(row, id, facts), after) && ip != "" && !Ambiguous(before.devices, ip)
    ensures Ambiguous(after.devices, ip) <==> BringsTakenAddress(before.devices, facts, ip)
  {
    if BringsTakenAddress(before.devices, facts, ip) {
      TakenAddressClashes(before, after, row, id, facts, ip);
    } else if Ambiguous(after.devices, ip) {
      ClashBringsTakenAddress(before, after, row, id, facts, ip);
    }
  }

  /** Row `r`, which is not `d`, has this serial number and vendor once the facts are merged into it. */
  predicate TakesOn(devices: map<Id, DeviceRow>, r: Id, d: Id, facts: DeviceRow, serial: string, vendor: string)
    requires r in devices
  {
    && r != d
    && Later(facts.serial, devices[r].serial) == Some(serial)
    && PreferStr(facts.vendor, devices[r].vendor, VENDOR_STUBS) == vendor
  }

  /** The row the lookups find takes on the serial number and vendor of another row. */
  ghost predicate TakesOnTaken(devices: map<Id, DeviceRow>, facts: DeviceRow, serial: string, vendor: string) {
    exists r, d :: && r in Found(devices, facts) && d in WithSerial(devices, serial, vendor)
                   && TakesOn(devices, r, d, facts, serial, vendor)
  }

  lemma TakerHasSerial(devices: map<Id, DeviceRow>, r: Id, d: Id, facts: DeviceRow, serial: string, vendor: string)
    requires r in devices && TakesOn(devices, r, d, facts, serial, vendor)
    ensures HasSerial(Stored(devices, r, facts), serial, vendor)
  {
  }

  lemma FoundIsRow(before: Db, after: Db, row: Id, id: Id, facts: DeviceRow, r: Id)
    requires Performs(before, StoreDevice(row, id, facts), after) && r in Found(before.devices, facts)
    ensures r == row
  {
  }

  lemma BothHave(before: map<Id, DeviceRow>, after: map<Id, DeviceRow>, r: Id, d: Id, serial: string, vendor: string,
                 stored: DeviceRow)
    requires r != d && d in WithSerial(before, serial, vendor) && HasSerial(stored, serial, vendor)
    requires after == before[r := stored]
    ensures Several(WithSerial(after, serial, vendor))
  {
    assert r in WithSerial(after, serial, vendor) && d in WithSerial(after, serial, vendor);
  }

  lemma TakenSerialClashes(before: Db, after: Db, row: Id, id: Id, facts: DeviceRow, serial: string, vendor: string)
    requires Performs(before, StoreDevice(row, id, facts), after)
    requires TakesOnTaken(before.devices, facts, serial, vendor)
    ensures Several(WithSerial(after.devices, serial, vendor))
  {
    var r, d :| && r in Found(before.devices, facts) && d in WithSerial(before.devices, serial, vendor)
                && TakesOn(before.devices, r, d, facts, serial, vendor);
    TakerHasSerial(before.devices, r, d, facts, serial, vendor);
    FoundIsRow(before, after, row, id, facts, r);
    BothHave(before.devices, after.devices, r, d, serial, vendor, Stored(before.devices, r, facts));
  }

  lemma WouldTakeOn(before: Db, after: Db, row: Id, id: Id, facts: DeviceRow, serial: string, vendor: string, d: Id)
    requires Performs(before, StoreDevice(row, id, facts), after) && serial != ""
    requires row in WithSerial(after.devices, serial, vendor) && d in WithSerial(before.devices, serial, vendor)
    requires d != row
    ensures row in Found(before.devices, facts) && TakesOn(before.devices, row, d, facts, serial, vendor)
  {
    assert row !in before.devices ==> d in BySerial(before.devices, facts);
  }

  /**
   * Two rows come to share a serial number and vendor exactly when the row found takes them on while another row has
   * them: it keeps its own vendor when the facts bring none, and takes theirs without surrounding white space.
   */
  lemma SerialClashIff(before: Db, after: Db, row: Id, id: Id, facts: DeviceRow, serial: string, vendor: string)
    requires Performs(before, StoreDevice(row, id, facts), after) && serial != ""
    requires !Several(WithSerial(before.devices, serial, vendor))
    ensures Several(WithSerial(after.devices, serial, vendor)) <==> TakesOnTaken(before.devices, facts, serial, vendor)
  {
    if TakesOnTaken(before.devices, facts, serial, vendor) {
      TakenSerialClashes(before, after, row, id, facts, serial, vendor);
    } else if Several(WithSerial(after.devices, serial, vendor)) {
      var d := NewcomerMeets(WithSerial(before.devices, serial, vendor), WithSerial(after.devices, serial, vendor), row);
      WouldTakeOn(before, after, row, id, facts, serial, vendor, d);
    }
  }

  function Seen(serial: Option<string>, vendor: string, ip: string): DeviceRow {
    DeviceRow("switch", vendor, "x1", serial, None, None, Some(ip), None, "unknown", "up", map[])
  }

  const FIRST := Uuid(0)
  const SECOND := Uuid(1)

  /** A device with a serial number, and another of the same vendor at another address. */
  function TwoSwitches(): Db {
    Db(map[FIRST := Seen(Some("S1"), "acme", "10.0.0.1"), SECOND := Seen(None, "acme", "10.0.0.2")],
       map[], map[], map[])
  }

  lemma LookupsOfTwo()
    ensures ByIp(TwoSwitches().devices, Some("10.0.0.2")) == {SECOND}
    ensures WithSerial(TwoSwitches().devices, "S1", "acme") == {FIRST}
    ensures WithSerial(TwoSwitches().devices, "S1", "unknown") == {}
  {
    var ip1, ip2, acme, unknown := "10.0.0.1", "10.0.0.2", "acme", "unknown";
    assert ip1[7] != ip2[7] && acme[0] != unknown[0];
  }

  function AfterUpsert(before: Db, row: Id, facts: DeviceRow): Db {
    before.(devices := before.devices[row := Stored(before.devices, row, facts)])
  }

  lemma UpsertPerforms(row: Id, facts: DeviceRow)
    requires !Unidentifiable(TwoSwitches().devices, facts) && Identifies(TwoSwitches().devices, facts, Uuid(2), row)
    ensures Performs(TwoSwitches(), StoreDevice(row, Uuid(2), facts), AfterUpsert(TwoSwitches(), row, facts))
  {
  }

  /** An address clash does happen: the serial number of one device seen at the address of another. */
  lemma AddressClashHappens()
    ensures var before, facts := TwoSwitches(), Seen(Some("S1"), "acme", "10.0.0.2");
            var after := AfterUpsert(before, FIRST, facts);
            && Performs(before, StoreDevice(FIRST, Uuid(2), facts), after)
            && !Ambiguous(before.devices, "10.0.0.2") && Ambiguous(after.devices, "10.0.0.2")
  {
    var before, facts := TwoSwitches(), Seen(Some("S1"), "acme", "10.0.0.2");
    LookupsOfTwo();
    UpsertPerforms(FIRST, facts);
    AddressClashIff(before, AfterUpsert(before, FIRST, facts), FIRST, Uuid(2), facts, "10.0.0.2");
  }

  /** So does a serial clash: a serial number seen without its vendor, at the address of another device of that vendor. */
  lemma SerialClashHappens()
    ensures var before, facts := TwoSwitches(), Seen(Some("S1"), "unknown", "10.0.0.2");
            var after := AfterUpsert(before, SECOND, facts);
            && Performs(before, StoreDevice(SECOND, Uuid(2), facts), after)
            && !Several(WithSerial(before.devices, "S1", "acme")) && Several(WithSerial(after.devices, "S1", "acme"))
  {
    var before, facts := TwoSwitches(), Seen(Some("S1"), "unknown", "10.0.0.2");
    LookupsOfTwo();
    AcmeStays();
    UpsertPerforms(SECOND, facts);
    assert TakesOn(before.devices, SECOND, FIRST, facts, "S1", "acme");
    SerialClashIff(before, AfterUpsert(before, SECOND, facts), SECOND, Uuid(2), facts, "S1", "acme");
  }

  lemma AcmeStays()
    ensures PreferStr("unknown", "acme", VENDOR_STUBS) == "acme" && "acme" != "unknown"
  {
    var acme, unknown := "acme", "unknown";
    assert acme[0] != unknown[0];
    assert Strip(acme) == acme && Strip(unknown) == unknown;
    forall i | 0 <= i < 7 ensures LowerChar(unknown[i]) == unknown[i] {
    }
    assert Lower(unknown) == unknown;
  }

  // ---------------------------------------------------------------- what a device row holds

  /** The identities a run has stored to a row, in order. */
  function StoredTo(actions: seq<Action>, d: Id): seq<DeviceRow> {
    if actions == [] then []
    else
      var last := actions[|actions| - 1];
      StoredTo(actions[..|actions| - 1], d)
      + if last.StoreDevice? && last.row == d then [last.identity] else []
  }

  /** The row as it was, if it was there, then everything stored to it. */
  function Contents(start: Db, actions: seq<Action>, d: Id): seq<DeviceRow> {
    (if d in start.devices then [start.devices[d]] else []) + StoredTo(actions, d)
  }

  /** The row is there exactly when something was written, and is what merging the writes leaves. */
  ghost predicate IsLanded(devices: map<Id, DeviceRow>, d: Id, writes: seq<DeviceRow>) {
    (d in devices <==> writes != []) && (d in devices ==> devices[d] == Landed(writes))
  }

  lemma NothingStoredYet(start: Db, actions: seq<Action>, d: Id)
    ensures IsLanded(start.devices, d, Contents(start, actions[..0], d))
  {
    assert actions[..0] == [];
  }

  lemma CallOf(run: seq<Db>, actions: seq<Action>, k: nat)
    requires IsRun(run, actions) && k < |actions|
    ensures Performs(run[k], actions[k], run[k + 1])
  {
    RunsStayIntact(run, actions, k);
  }

  /** At any point of a run, a device row is what the merges of everything stored to it leave. */
  lemma {:induction false} RowIsLanded(run: seq<Db>, actions: seq<Action>, k: nat, d: Id)
    requires IsRun(run, actions) && k <= |actions|
    ensures IsLanded(run[k].devices, d, Contents(run[0], actions[..k], d))
  {
    if k == 0 {
      NothingStoredYet(run[0], actions, d);
    } else {
      RowIsLanded(run, actions, k - 1, d);
      CallOf(run, actions, k - 1);
      ContentsSnoc(run[0], actions, k - 1, d);
      LandedStep(run[k - 1], actions[k - 1], run[k], d, Contents(run[0], actions[..k - 1], d));
    }
  }

  /** One call more: the row is what is left of one write more, if the call stored to it. */
  lemma LandedStep(before: Db, action: Action, after: Db, d: Id, writes: seq<DeviceRow>)
    requires Performs(before, action, after)
    requires IsLanded(before.devices, d, writes)
    ensures IsLanded(after.devices, d, WithWrite(action, d, writes))
  {
    RowAfter(before, action, after, d);
    if action.StoreDevice? && action.row == d { LandedSnoc(writes, action.identity); }
  }

  function WithWrite(action: Action, d: Id, writes: seq<DeviceRow>): seq<DeviceRow> {
    if action.StoreDevice? && action.row == d then writes + [action.identity] else writes
  }

  lemma ContentsSnoc(start: Db, actions: seq<Action>, k: nat, d: Id)
    requires k < |actions|
    ensures Contents(start, actions[..k + 1], d) == WithWrite(actions[k], d, Contents(start, actions[..k], d))
  {
    assert actions[..k + 1][..k] == actions[..k];
  }

  /** What one call makes of a device row. */
  lemma RowAfter(before: Db, action: Action, after: Db, d: Id)
    requires Performs(before, action, after)
    ensures if action.StoreDevice? && action.row == d
            then d in after.devices && after.devices[d] == Stored(before.devices, d, action.identity)
            else (d in after.devices <==> d in before.devices)
                 && (d in after.devices ==> after.devices[d] == before.devices[d])
  {
  }

  lemma LandedSnoc(writes: seq<DeviceRow>, last: DeviceRow)
    ensures Landed(writes + [last]) == if writes == [] then last else Merge(Landed(writes), last)
  {
    assert (writes + [last])[..|writes|] == writes;
  }

  /** At the end of any run, each column of a device row holds the last real, known, given or deciding value written. */
  lemma RunsKeepRichRecords(run: seq<Db>, actions: seq<Action>, d: Id)
    requires IsRun(run, actions)
    ensures var writes, now := Contents(run[0], actions, d), run[|actions|].devices;
            && (d in now <==> writes != [])
            && (d in now ==> && HoldsLastReal(now[d], writes) && HoldsLastKnown(now[d], writes)
                             && HoldsLastGiven(now[d], writes) && HoldsLastAttributes(now[d], writes))
  {
    assert actions[..|actions|] == actions;
    RowIsLanded(run, actions, |actions|, d);
    var writes := Contents(run[0], actions, d);
    if writes != [] {
      RichRecordSurvives(writes);
      LastKnownStateStays(writes);
      LastGivenFactsStay(writes);
      LastAttributesStay(writes);
    }
  }
}
