/** The repositories as operations on one mutable store. */
module InventoryStore {
  import opened Common
  import opened DeviceIdentity
  import opened Inventory

  /** An interface object as callers hold it; `ReplaceForDevice` writes the stored identifier back into it. */
  class Interface {
    var id: Id
    const name: string
    const fields: IfaceFields

    constructor (id: Id, name: string, fields: IfaceFields)
      ensures this.id == id && this.name == name && this.fields == fields
    {
      this.id, this.name, this.fields := id, name, fields;
    }
  }

  /** A link object as callers hold it; `UpsertLink` leaves its ends sorted. */
  class Link {
    const id: Id
    var a: Id
    var b: Id
    const facts: LinkFacts

    constructor (id: Id, a: Id, b: Id, facts: LinkFacts)
      ensures this.id == id && this.a == a && this.b == b && this.facts == facts
    {
      this.id, this.a, this.b, this.facts := id, a, b, facts;
    }
  }

  ghost function Specs(ifaces: seq<Interface>): (specs: seq<Spec>)
    reads ifaces
    ensures |specs| == |ifaces|
    ensures forall k :: 0 <= k < |ifaces| ==>
              specs[k].id == ifaces[k].id && specs[k].name == ifaces[k].name && specs[k].fields == ifaces[k].fields
  {
    if ifaces == [] then []
    else
      var last := ifaces[|ifaces| - 1];
      Specs(ifaces[..|ifaces| - 1]) + [Spec(last.id, last.name, last.fields)]
  }

  /** The object still has its own identifier, or has been given the one planned for its name. */
  ghost predicate WritesBack(iface: Interface, given: Id, ids: map<string, Id>, done: set<string>, visited: bool)
    reads iface
  {
    && (iface.id == given || (iface.name in ids && iface.name in done && iface.id == ids[iface.name]))
    && (visited && iface.name in ids ==> iface.id == ids[iface.name])
  }

  // ---------------------------------------------------------------- the upsert loop on values

  /** The identifier planned for every kept name. */
  ghost function Planned(before: map<Id, IfaceRow>, device: Id, specs: seq<Spec>): map<string, Id>
    requires UniqueNames(before)
  {
    map s | s in Names(specs) :: IdFor(before, device, specs, s)
  }

  /** Stored names keep their identifier; new names get unused ones; no two names share one. */
  ghost predicate Fits(before: map<Id, IfaceRow>, device: Id, stored: map<string, Id>, ids: map<string, Id>) {
    && (forall j :: j in before && before[j].deviceId == device ==>
          before[j].name in stored && stored[before[j].name] == j)
    && (forall s :: s in stored ==>
          stored[s] in before && before[stored[s]].deviceId == device && before[stored[s]].name == s)
    && (forall s :: s in ids && s in stored ==> ids[s] == stored[s])
    && (forall s :: s in ids && s !in stored ==> ids[s] !in before)
    && (forall s, t {:trigger SameId(ids, s, t)} :: SameId(ids, s, t) ==> s == t)
  }

  predicate SameId(ids: map<string, Id>, s: string, t: string) { s in ids && t in ids && ids[s] == ids[t] }

  lemma PlanFits(before: map<Id, IfaceRow>, device: Id, specs: seq<Spec>)
    requires UniqueNames(before) && BringsNewIds(before, device, specs)
    ensures Fits(before, device, ByName(before, device), Planned(before, device, specs))
  {
    var stored, ids := ByName(before, device), Planned(before, device, specs);
    forall s, t | SameId(ids, s, t) ensures s == t {
      assert s in stored <==> t in stored;
    }
  }

  /** The working tables of one replacement: the rows, the name index and the names kept so far. */
  datatype Pass = Pass(rows: map<Id, IfaceRow>, byName: map<string, Id>, keep: set<string>)

  /** Writes one named entry: an insertion if the name is new, and in any case an update. */
  function Write(pass: Pass, device: Id, name: string, id: Id, f: IfaceFields): Pass {
    Pass(pass.rows[id := IfaceRow(device, name, f)], pass.byName[name := id], pass.keep + {name})
  }

  /** The name index once the names `keep` have been upserted. */
  ghost predicate Indexed(byName: map<string, Id>, stored: map<string, Id>, ids: map<string, Id>, keep: set<string>) {
    && keep <= ids.Keys && byName.Keys == stored.Keys + keep
    && (forall s :: s in stored ==> byName[s] == stored[s])
    && (forall s :: s in keep ==> byName[s] == ids[s])
  }

  /** The rows once the names in `fields` have been upserted, before any deletion. */
  ghost predicate Written(rows: map<Id, IfaceRow>, before: map<Id, IfaceRow>, device: Id,
                          ids: map<string, Id>, fields: map<string, IfaceFields>) {
    && fields.Keys <= ids.Keys
    && (forall s :: s in fields ==> ids[s] in rows && rows[ids[s]] == IfaceRow(device, s, fields[s]))
    && (forall j :: j in before && !(before[j].deviceId == device && before[j].name in fields) ==>
          j in rows && rows[j] == before[j])
    && (forall j :: j in rows && j !in before ==>
          rows[j].deviceId == device && rows[j].name in fields && ids[rows[j].name] == j)
  }

  /** The working tables once exactly the names in `fields` have been upserted. */
  ghost predicate Upserted(pass: Pass, before: map<Id, IfaceRow>, device: Id, stored: map<string, Id>,
                           ids: map<string, Id>, fields: map<string, IfaceFields>) {
    && pass.keep == fields.Keys
    && Indexed(pass.byName, stored, ids, fields.Keys)
    && Written(pass.rows, before, device, ids, fields)
  }

  lemma UpsertStep(pass: Pass, before: map<Id, IfaceRow>, device: Id, stored: map<string, Id>,
                   ids: map<string, Id>, fields: map<string, IfaceFields>, name: string, f: IfaceFields)
    requires Fits(before, device, stored, ids) && Upserted(pass, before, device, stored, ids, fields) && name in ids
    ensures Upserted(Write(pass, device, name, ids[name], f), before, device, stored, ids, fields[name := f])
  {
    IndexStep(pass.byName, before, device, stored, ids, fields.Keys, name);
    WriteStep(pass.rows, before, device, stored, ids, fields, name, f);
    assert fields[name := f].Keys == fields.Keys + {name};
  }

  lemma IndexStep(byName: map<string, Id>, before: map<Id, IfaceRow>, device: Id, stored: map<string, Id>,
                  ids: map<string, Id>, keep: set<string>, name: string)
    requires Fits(before, device, stored, ids) && Indexed(byName, stored, ids, keep) && name in ids
    ensures Indexed(byName[name := ids[name]], stored, ids, keep + {name})
  {
  }

  lemma WriteStep(rows: map<Id, IfaceRow>, before: map<Id, IfaceRow>, device: Id, stored: map<string, Id>,
                  ids: map<string, Id>, fields: map<string, IfaceFields>, name: string, f: IfaceFields)
    requires Fits(before, device, stored, ids) && Written(rows, before, device, ids, fields) && name in ids
    ensures Written(rows[ids[name] := IfaceRow(device, name, f)], before, device, ids, fields[name := f])
  {
    var id := ids[name];
    var rows', fields' := rows[id := IfaceRow(device, name, f)], fields[name := f];
    forall s | s in fields' ensures ids[s] in rows' && rows'[ids[s]] == IfaceRow(device, s, fields'[s]) {
      assert SameId(ids, s, name) <==> ids[s] == id;
    }
    forall j | j in before && !(before[j].deviceId == device && before[j].name in fields')
      ensures j in rows' && rows'[j] == before[j]
    {
      assert j != id;
    }
  }

  /** The working tables after the first `i` entries, every name written under its planned identifier. */
  ghost function PassAfter(before: map<Id, IfaceRow>, device: Id, stored: map<string, Id>, ids: map<string, Id>,
                           specs: seq<Spec>, i: nat): Pass
    requires i <= |specs|
  {
    if i == 0 then Pass(before, stored, {})
    else
      var pass, spec := PassAfter(before, device, stored, ids, specs, i - 1), specs[i - 1];
      if spec.name in ids then Write(pass, device, spec.name, ids[spec.name], spec.fields) else pass
  }

  lemma {:induction false} PassUpserts(before: map<Id, IfaceRow>, device: Id, stored: map<string, Id>,
                                       ids: map<string, Id>, specs: seq<Spec>, i: nat)
    requires i <= |specs| && Fits(before, device, stored, ids) && ids.Keys == Names(specs)
    ensures Upserted(PassAfter(before, device, stored, ids, specs, i), before, device, stored, ids, Kept(specs[..i]))
  {
    if i > 0 {
      PassUpserts(before, device, stored, ids, specs, i - 1);
      PrefixKept(specs, i - 1);
      NamesAreNonEmptyNames(specs, "");
      if specs[i - 1].name != "" {
        UpsertStep(PassAfter(before, device, stored, ids, specs, i - 1), before, device, stored, ids,
                   Kept(specs[..i - 1]), specs[i - 1].name, specs[i - 1].fields);
      }
    }
  }

  /** At entry `i` the index knows the planned identifier, or the entry itself brings it along. */
  ghost predicate RoundFits(before: map<Id, IfaceRow>, device: Id, stored: map<string, Id>, ids: map<string, Id>,
                            specs: seq<Spec>, i: nat)
    requires i < |specs|
  {
    var byName, spec := PassAfter(before, device, stored, ids, specs, i).byName, specs[i];
    && (spec.name != "" <==> spec.name in ids)
    && (spec.name in ids ==> ids[spec.name] == if spec.name in byName then byName[spec.name] else spec.id)
  }

  lemma RoundsFit(before: map<Id, IfaceRow>, device: Id, specs: seq<Spec>, i: nat)
    requires UniqueNames(before) && BringsNewIds(before, device, specs) && i < |specs|
    ensures RoundFits(before, device, ByName(before, device), Planned(before, device, specs), specs, i)
  {
    var stored, ids, name := ByName(before, device), Planned(before, device, specs), specs[i].name;
    PlanFits(before, device, specs);
    NamesAreNonEmptyNames(specs, name);
    PassUpserts(before, device, stored, ids, specs, i);
    if name != "" && name !in stored && name !in Names(specs[..i]) {
      NamesAreNonEmptyNames(specs[..i], name);
      assert forall j :: 0 <= j < i ==> specs[..i][j].name == specs[j].name;
      FirstIdIsFirst(specs, i);
    }
  }

  lemma AllRoundsFit(before: map<Id, IfaceRow>, device: Id, specs: seq<Spec>)
    requires UniqueNames(before) && BringsNewIds(before, device, specs)
    ensures forall k :: 0 <= k < |specs| ==>
              RoundFits(before, device, ByName(before, device), Planned(before, device, specs), specs, k)
  {
    forall k | 0 <= k < |specs|
      ensures RoundFits(before, device, ByName(before, device), Planned(before, device, specs), specs, k)
    {
      RoundsFit(before, device, specs, k);
    }
  }

  /** Deleting the rows whose names were not kept completes the replacement. */
  lemma PurgeCompletes(pass: Pass, before: map<Id, IfaceRow>, device: Id, specs: seq<Spec>,
                       ids: map<string, Id>, stale: set<Id>)
    requires UniqueNames(before) && BringsNewIds(before, device, specs) && ids == Planned(before, device, specs)
    requires Upserted(pass, before, device, ByName(before, device), ids, Kept(specs))
    requires stale == set s | s in pass.byName && s !in Names(specs) :: pass.byName[s]
    ensures RowsReplaced(before, pass.rows - stale, device, specs)
    ensures forall j :: j in before ==> (j in pass.rows - stale <==> j !in stale)
  {
    var after, fields := pass.rows - stale, Kept(specs);
    PlanFits(before, device, specs);
    StaleIffNotKept(pass, before, device, ByName(before, device), ids, fields, stale);
    PurgedRows(pass, before, device, ByName(before, device), ids, fields, stale);
    forall s | s in Names(specs) ensures RowAt(before, after, device, specs, s) {
      assert after[ids[s]] == IfaceRow(device, s, fields[s]);
    }
    forall j | j in after && after[j].deviceId == device ensures RowKept(before, after, device, specs, j) {
      assert after[j].name in fields && ids[after[j].name] == j;
    }
  }

  lemma StaleIffNotKept(pass: Pass, before: map<Id, IfaceRow>, device: Id, stored: map<string, Id>,
                        ids: map<string, Id>, fields: map<string, IfaceFields>, stale: set<Id>)
    requires Fits(before, device, stored, ids) && fields.Keys == ids.Keys
    requires Upserted(pass, before, device, stored, ids, fields)
    requires stale == set s | s in pass.byName && s !in ids :: pass.byName[s]
    ensures forall j :: j in stale <==> j in before && before[j].deviceId == device && before[j].name !in ids
  {
  }

  lemma PurgedRows(pass: Pass, before: map<Id, IfaceRow>, device: Id, stored: map<string, Id>,
                   ids: map<string, Id>, fields: map<string, IfaceFields>, stale: set<Id>)
    requires Fits(before, device, stored, ids) && fields.Keys == ids.Keys
    requires Upserted(pass, before, device, stored, ids, fields)
    requires forall j :: j in stale <==> j in before && before[j].deviceId == device && before[j].name !in ids
    ensures var after := pass.rows - stale;
            && (forall s :: s in fields ==> ids[s] in after && after[ids[s]] == IfaceRow(device, s, fields[s]))
            && (forall j :: j in before && before[j].deviceId != device ==> j in after && after[j] == before[j])
            && (forall j :: j in after && after[j].deviceId == device ==>
                  after[j].name in fields && ids[after[j].name] == j)
            && (forall j :: j in after && after[j].deviceId != device ==> j in before && before[j] == after[j])
            && (forall j :: j in before ==> (j in after <==> j !in stale))
  {
    var rows := pass.rows;
    forall j | j in before && before[j].deviceId == device && before[j].name in ids
      ensures j in rows && rows[j] == IfaceRow(device, before[j].name, fields[before[j].name])
      ensures ids[before[j].name] == j
    {
      assert ids[before[j].name] == j;
    }
  }

  function ClearStale(addresses: map<Id, AddressRow>, stale: set<Id>): map<Id, AddressRow> {
    map x | x in addresses ::
      var row := addresses[x];
      if row.interfaceId.Some? && row.interfaceId.value in stale then row.(interfaceId := None) else row
  }

  function DropStale(links: map<Id, LinkRow>, stale: set<Id>): map<Id, LinkRow> {
    map l | l in links && links[l].a !in stale && links[l].b !in stale :: links[l]
  }

  /** The tables after the rows in `stale` and what refers to them are gone. */
  function Deleted(db: Db, rows: map<Id, IfaceRow>, stale: set<Id>): Db {
    Db(db.devices, rows - stale, DropStale(db.links, stale), ClearStale(db.addresses, stale))
  }

  lemma DeletionCompletes(pass: Pass, before: Db, device: Id, specs: seq<Spec>, ids: map<string, Id>,
                          stale: set<Id>, bound: nat)
    requires Intact(before) && device in before.devices && BringsNewIds(before.interfaces, device, specs)
    requires ids == Planned(before.interfaces, device, specs)
    requires pass == PassAfter(before.interfaces, device, ByName(before.interfaces, device), ids, specs, |specs|)
    requires stale == set s | s in pass.byName && s !in pass.keep :: pass.byName[s]
    requires IdsBelow(before, bound) && forall k :: 0 <= k < |specs| ==> specs[k].id.n < bound
    ensures IsReplacement(before, Deleted(before, pass.rows, stale), device, specs)
    ensures Intact(Deleted(before, pass.rows, stale)) && IdsBelow(Deleted(before, pass.rows, stale), bound)
  {
    PlanFits(before.interfaces, device, specs);
    PassUpserts(before.interfaces, device, ByName(before.interfaces, device), ids, specs, |specs|);
    assert specs[..|specs|] == specs;
    PurgeCompletes(pass, before.interfaces, device, specs, ids, stale);
    StaleIsGone(before, pass.rows - stale, stale);
    PlanBelow(before.interfaces, device, specs, bound);
    WrittenBelow(pass, before.interfaces, device, ByName(before.interfaces, device), ids, Kept(specs), bound);
    ReplacementKeepsIntact(before, Deleted(before, pass.rows, stale), device, specs);
  }

  /** Dropping what refers to stale rows is what the cascade and the cleared references amount to. */
  lemma StaleIsGone(before: Db, after: map<Id, IfaceRow>, stale: set<Id>)
    requires LinksIntact(before.links, before.interfaces) && AddressesIntact(before.addresses, before.interfaces)
    requires forall j :: j in before.interfaces ==> (j in after <==> j !in stale)
    ensures DropStale(before.links, stale) == Cascade(before.links, after)
    ensures ClearStale(before.addresses, stale) == Detach(before.addresses, after)
  {
  }

  lemma PrefixKept(specs: seq<Spec>, i: nat)
    requires i < |specs|
    ensures specs[i].name != "" ==> specs[i].name in Names(specs)
    ensures Kept(specs[..i + 1])
         == if specs[i].name == "" then Kept(specs[..i]) else Kept(specs[..i])[specs[i].name := specs[i].fields]
  {
    NamesAreNonEmptyNames(specs, specs[i].name);
    assert specs[..i + 1][..i] == specs[..i];
  }

  lemma PlanBelow(before: map<Id, IfaceRow>, device: Id, specs: seq<Spec>, bound: nat)
    requires UniqueNames(before)
    requires forall j :: j in before ==> j.n < bound
    requires forall k :: 0 <= k < |specs| ==> specs[k].id.n < bound
    ensures forall s :: s in Names(specs) ==> Planned(before, device, specs)[s].n < bound
  {
    FirstIdsBelow(specs, bound);
  }

  lemma WrittenBelow(pass: Pass, before: map<Id, IfaceRow>, device: Id, stored: map<string, Id>,
                     ids: map<string, Id>, fields: map<string, IfaceFields>, bound: nat)
    requires Upserted(pass, before, device, stored, ids, fields)
    requires forall j :: j in before ==> j.n < bound
    requires forall s :: s in ids ==> ids[s].n < bound
    ensures forall j :: j in pass.rows ==> j.n < bound
  {
  }

  lemma {:induction false} FirstIdsBelow(specs: seq<Spec>, bound: nat)
    requires forall k :: 0 <= k < |specs| ==> specs[k].id.n < bound
    ensures forall s :: s in FirstIds(specs) ==> FirstIds(specs)[s].n < bound
  {
    if specs != [] {
      FirstIdsBelow(specs[..|specs| - 1], bound);
    }
  }

  ghost predicate IdsBelow(db: Db, bound: nat) {
    forall i :: i in db.devices || i in db.interfaces || i in db.links ==> i.n < bound
  }

  /** One round of the replacement loop: finds or inserts the row of that name, updates it, hands its id back. */
  method WriteEntry(pass: Pass, device: Id, iface: Interface) returns (next: Pass)
    modifies iface
    ensures iface.id == if iface.name in pass.byName then pass.byName[iface.name] else old(iface.id)
    ensures next == Write(pass, device, iface.name, iface.id, iface.fields)
  {
    var rows, byName := pass.rows, pass.byName;
    if iface.name !in byName {
      rows := rows[iface.id := IfaceRow(device, iface.name, iface.fields)];
      byName := byName[iface.name := iface.id];
    }
    var rowId := byName[iface.name];
    rows := rows[rowId := IfaceRow(device, iface.name, iface.fields)];
    iface.id := rowId;
    assert byName == pass.byName[iface.name := rowId];
    next := Pass(rows, byName, pass.keep + {iface.name});
  }

  lemma CarriedBack(before: Db, device: Id, ifaces: seq<Interface>, specs: seq<Spec>, ids: map<string, Id>, keep: set<string>)
    requires UniqueNames(before.interfaces) && ids == Planned(before.interfaces, device, specs)
    requires |ifaces| == |specs|
    requires forall k :: 0 <= k < |specs| ==> specs[k].name == ifaces[k].name && specs[k].fields == ifaces[k].fields
    requires forall k :: 0 <= k < |ifaces| ==> WritesBack(ifaces[k], specs[k].id, ids, keep, true)
    ensures CarriesStoredIds(before, device, specs, Specs(ifaces))
  {
    var left := Specs(ifaces);
    forall k | 0 <= k < |specs| ensures CarriesStoredId(before, device, specs, specs[k], left[k]) {
      assert WritesBack(ifaces[k], specs[k].id, ids, keep, true);
    }
  }

  // ---------------------------------------------------------------- device lookup

  predicate HasSerial(row: DeviceRow, serial: string, vendor: string) {
    row.serial == Some(serial) && row.vendor == vendor
  }

  /** The rows that carry this serial number and vendor. */
  function WithSerial(devices: map<Id, DeviceRow>, serial: string, vendor: string): set<Id> {
    set d | d in devices && HasSerial(devices[d], serial, vendor)
  }

  function BySerial(devices: map<Id, DeviceRow>, facts: DeviceRow): set<Id> {
    if facts.serial.None? || facts.serial.value == "" then {}
    else WithSerial(devices, facts.serial.value, facts.vendor)
  }

  function ByIp(devices: map<Id, DeviceRow>, ip: Option<string>): set<Id> {
    if ip.None? || ip.value == "" then {} else set d | d in devices && devices[d].managementIp == ip
  }

  /** More than one row answers a lookup that must find at most one. */
  predicate Several(ids: set<Id>) { exists i, j :: i in ids && j in ids && i != j }

  /** The lookup by management address would fail. */
  predicate Ambiguous(devices: map<Id, DeviceRow>, ip: string) { Several(ByIp(devices, Some(ip))) }

  /** A lookup of the upsert would find several rows: by serial, or by address when no row has the serial. */
  ghost predicate Unidentifiable(devices: map<Id, DeviceRow>, facts: DeviceRow) {
    Several(BySerial(devices, facts)) || (BySerial(devices, facts) == {} && Several(ByIp(devices, facts.managementIp)))
  }

  /** The row an upsert goes to: the one found by serial, else the one found by address, else a new one. */
  ghost predicate Identifies(devices: map<Id, DeviceRow>, facts: DeviceRow, id: Id, row: Id) {
    if BySerial(devices, facts) != {} then row in BySerial(devices, facts)
    else if ByIp(devices, facts.managementIp) != {} then row in ByIp(devices, facts.managementIp)
    else row == id
  }

  /** What the row holds afterwards. */
  function Stored(devices: map<Id, DeviceRow>, row: Id, facts: DeviceRow): DeviceRow {
    if row in devices then Merge(devices[row], facts) else facts
  }

  /** The row has the serial number and vendor of the facts, and that serial number is given. */
  predicate SharesSerial(row: DeviceRow, facts: DeviceRow) {
    facts.serial !in {None, Some("")} && row.serial == facts.serial && row.vendor == facts.vendor
  }

  /** The row has the management address of the facts, and that address is given. */
  predicate SharesAddress(row: DeviceRow, facts: DeviceRow) {
    facts.managementIp !in {None, Some("")} && row.managementIp == facts.managementIp
  }

  lemma LookupsAre(devices: map<Id, DeviceRow>, facts: DeviceRow)
    ensures forall d :: d in BySerial(devices, facts) <==> d in devices && SharesSerial(devices[d], facts)
    ensures forall d :: d in ByIp(devices, facts.managementIp) <==> d in devices && SharesAddress(devices[d], facts)
  {
  }

  ghost predicate AnySharesSerial(devices: map<Id, DeviceRow>, facts: DeviceRow) {
    exists d :: d in devices && SharesSerial(devices[d], facts)
  }

  ghost predicate AnySharesAddress(devices: map<Id, DeviceRow>, facts: DeviceRow) {
    exists d :: d in devices && SharesAddress(devices[d], facts)
  }

  /** The lookups raise when two rows share the serial number and vendor, or none does and two share the address. */
  lemma RaisesIff(devices: map<Id, DeviceRow>, facts: DeviceRow)
    ensures Unidentifiable(devices, facts)
            <==> || (exists i, j :: i in devices && j in devices && i != j
                                    && SharesSerial(devices[i], facts) && SharesSerial(devices[j], facts))
                 || (!AnySharesSerial(devices, facts)
                     && exists i, j :: i in devices && j in devices && i != j
                                       && SharesAddress(devices[i], facts) && SharesAddress(devices[j], facts))
  {
    LookupsAre(devices, facts);
    EmptyIffNone(devices, facts);
  }

  lemma EmptyIffNone(devices: map<Id, DeviceRow>, facts: DeviceRow)
    ensures BySerial(devices, facts) == {} <==> !AnySharesSerial(devices, facts)
    ensures ByIp(devices, facts.managementIp) == {} <==> !AnySharesAddress(devices, facts)
  {
    LookupsAre(devices, facts);
    if BySerial(devices, facts) != {} {
      var d :| d in BySerial(devices, facts);
      assert SharesSerial(devices[d], facts);
    }
    if ByIp(devices, facts.managementIp) != {} {
      var d :| d in ByIp(devices, facts.managementIp);
      assert SharesAddress(devices[d], facts);
    }
  }

  /** An upsert goes to a row with the serial number, else to one with the address, else to the new row. */
  lemma GoesToSharer(devices: map<Id, DeviceRow>, facts: DeviceRow, id: Id, row: Id)
    ensures Identifies(devices, facts, id, row)
            <==> if AnySharesSerial(devices, facts) then row in devices && SharesSerial(devices[row], facts)
                 else if AnySharesAddress(devices, facts) then row in devices && SharesAddress(devices[row], facts)
                 else row == id
  {
    LookupsAre(devices, facts);
    EmptyIffNone(devices, facts);
  }

  predicate HasPair(links: map<Id, LinkRow>, l: Id, a: Id, b: Id) {
    l in links && links[l].a == a && links[l].b == b
  }

  lemma LinkStoredIntact(db: Db, row: Id, a: Id, b: Id, facts: LinkFacts, bound: nat)
    requires Intact(db) && IdsBelow(db, bound)
    requires a in db.interfaces && b in db.interfaces && a.n <= b.n && row.n < bound
    requires if row in db.links then HasPair(db.links, row, a, b) else !exists l :: HasPair(db.links, l, a, b)
    ensures Intact(db.(links := db.links[row := LinkRow(a, b, facts)]))
    ensures IdsBelow(db.(links := db.links[row := LinkRow(a, b, facts)]), bound)
  {
    var links := db.links[row := LinkRow(a, b, facts)];
    forall k, l | SamePair(links, k, l) ensures k == l {
      assert SamePair(db.links, k, l) || HasPair(db.links, k, a, b) || HasPair(db.links, l, a, b) || k == l;
    }
  }

  ghost predicate IsCopyOf(interfaces: map<Id, IfaceRow>, iface: Interface)
    reads iface
  {
    && iface.id in interfaces
    && interfaces[iface.id].name == iface.name && interfaces[iface.id].fields == iface.fields
  }

  method Enumerate(ids: set<Id>) returns (list: seq<Id>)
    ensures forall i :: i in list <==> i in ids
    ensures forall j, k :: 0 <= j < k < |list| ==> list[j] != list[k]
  {
    list := [];
    var todo := ids;
    while todo != {}
      invariant todo <= ids && forall i :: i in list <==> i in ids - todo
      invariant forall j, k :: 0 <= j < k < |list| ==> list[j] != list[k]
      decreases |todo|
    {
      var i :| i in todo;
      assert i !in list;
      list := list + [i];
      todo := todo - {i};
    }
  }

  lemma CopiesListDevice(interfaces: map<Id, IfaceRow>, device: Id, list: seq<Interface>, ids: seq<Id>)
    requires |list| == |ids|
    requires forall k :: 0 <= k < |list| ==> list[k].id == ids[k] && IsCopyOf(interfaces, list[k])
    requires forall i :: i in ids <==> i in interfaces && interfaces[i].deviceId == device
    requires forall j, k :: 0 <= j < k < |ids| ==> ids[j] != ids[k]
    ensures ListsDevice(interfaces, device, Specs(list))
  {
    var specs := Specs(list);
    forall k | 0 <= k < |specs|
      ensures specs[k].id in interfaces && interfaces[specs[k].id] == IfaceRow(device, specs[k].name, specs[k].fields)
    {
      assert IsCopyOf(interfaces, list[k]) && ids[k] in ids;
    }
    forall i | i in interfaces && interfaces[i].deviceId == device
      ensures Spec(i, interfaces[i].name, interfaces[i].fields) in specs
    {
      assert i in ids;
      var k :| 0 <= k < |ids| && ids[k] == i;
      assert IsCopyOf(interfaces, list[k]);
      assert specs[k] == Spec(i, interfaces[i].name, interfaces[i].fields);
    }
  }

  function Min(x: Id, y: Id): Id { if x.n <= y.n then x else y }
  function Max(x: Id, y: Id): Id { if x.n <= y.n then y else x }

  lemma PairIsSorted(x: Id, y: Id)
    ensures Min(x, y).n <= Max(x, y).n && multiset{Min(x, y), Max(x, y)} == multiset{x, y}
  {
  }

  /** In intact tables no two rows join the same two ports, whichever is named first. */
  lemma OnlyRowOfPair(db: Db, row: Id)
    requires Intact(db) && row in db.links
    ensures var ends := multiset{db.links[row].a, db.links[row].b};
            forall l :: l in db.links && multiset{db.links[l].a, db.links[l].b} == ends ==> l == row
  {
    forall l | l in db.links && multiset{db.links[l].a, db.links[l].b} == multiset{db.links[row].a, db.links[row].b}
      ensures l == row
    {
      SameSortedPair(db.links[l].a, db.links[l].b, db.links[row].a, db.links[row].b);
      assert SamePair(db.links, l, row);
    }
  }

  lemma SameSortedPair(a: Id, b: Id, x: Id, y: Id)
    requires a.n <= b.n && x.n <= y.n && multiset{a, b} == multiset{x, y}
    ensures a == x && b == y
  {
    assert a in multiset{a, b} && b in multiset{a, b} && x in multiset{x, y} && y in multiset{x, y};
    if a == b {
      assert multiset{a, b}[a] == 2;
    }
  }

  // ---------------------------------------------------------------- one repository call on the tables

  datatype Action =
    | ReplaceInterfaces(device: Id, specs: seq<Spec>)
    | StoreLink(row: Id, x: Id, y: Id, facts: LinkFacts)
    | StoreDevice(row: Id, id: Id, identity: DeviceRow)

  /** The tables before and after one repository call. */
  ghost predicate Performs(before: Db, action: Action, after: Db) {
    && Intact(before)
    && match action
       case ReplaceInterfaces(device, specs) =>
         && device in before.devices && BringsNewIds(before.interfaces, device, specs)
         && IsReplacement(before, after, device, specs)
       case StoreLink(row, x, y, facts) =>
         && x in before.interfaces && y in before.interfaces
         && LinkGoesTo(before.links, row, Min(x, y), Max(x, y))
         && after == before.(links := before.links[row := LinkRow(Min(x, y), Max(x, y), facts)])
       case StoreDevice(row, id, identity) =>
         && id !in before.devices && !Unidentifiable(before.devices, identity)
         && Identifies(before.devices, identity, id, row)
         && after == before.(devices := before.devices[row := Stored(before.devices, row, identity)])
  }

  /** The row of the pair if there is one, and otherwise a new row. */
  ghost predicate LinkGoesTo(links: map<Id, LinkRow>, row: Id, a: Id, b: Id) {
    if row in links then HasPair(links, row, a, b) else !exists l :: HasPair(links, l, a, b)
  }

  // ---------------------------------------------------------------- the store

  class Store {
    var db: Db
    /** All identifiers handed out so far are numbered below this. */
    var nextId: nat

    ghost predicate Valid()
      reads this
    {
      Intact(db) && IdsBelow(db, nextId)
    }

    constructor ()
      ensures Valid() && db == Db(map[], map[], map[], map[])
    {
      db, nextId := Db(map[], map[], map[], map[]), 0;
    }

    /** A fresh identifier, as from uuid4(). */
    method NewId() returns (id: Id)
      requires Valid()
      modifies this`nextId
      ensures Valid() && nextId == old(nextId) + 1 && id == Uuid(old(nextId))
      ensures id !in db.devices && id !in db.interfaces && id !in db.links
    {
      id := Uuid(nextId);
      nextId := nextId + 1;
    }

    /** The replacement loop: writes every named entry in turn, inserting rows for names not met before. */
    method UpsertEach(device: Id, ifaces: seq<Interface>, index: map<string, Id>, ghost ids: map<string, Id>)
      returns (pass: Pass)
      requires forall k :: 0 <= k < |ifaces| ==> RoundFits(db.interfaces, device, index, ids, Specs(ifaces), k)
      modifies set o | o in ifaces
      ensures pass == PassAfter(db.interfaces, device, index, ids, old(Specs(ifaces)), |ifaces|)
      ensures forall k :: 0 <= k < |ifaces| ==> WritesBack(ifaces[k], old(ifaces[k].id), ids, pass.keep, true)
    {
      ghost var specs := Specs(ifaces);
      pass := Pass(db.interfaces, index, {});
      for i := 0 to |ifaces|
        invariant pass == PassAfter(db.interfaces, device, index, ids, specs, i)
        invariant pass.keep <= pass.byName.Keys
        invariant forall k :: 0 <= k < |ifaces| ==> WritesBack(ifaces[k], specs[k].id, ids, pass.keep, k < i)
      {
        assert RoundFits(db.interfaces, device, index, ids, specs, i);
        assert WritesBack(ifaces[i], specs[i].id, ids, pass.keep, false);
        if ifaces[i].name != "" {
          label Round:
          var next := WriteEntry(pass, device, ifaces[i]);
          forall k | 0 <= k < |ifaces| ensures WritesBack(ifaces[k], specs[k].id, ids, next.keep, k < i + 1) {
            assert old@Round(WritesBack(ifaces[k], specs[k].id, ids, pass.keep, k < i));
          }
          pass := next;
        }
      }
    }

    method ReplaceForDevice(device: Id, ifaces: seq<Interface>)
      requires Valid() && device in db.devices
      requires BringsNewIds(db.interfaces, device, Specs(ifaces))
      requires forall k :: 0 <= k < |ifaces| ==> ifaces[k].id.n < nextId
      modifies this`db, set o | o in ifaces
      ensures Valid()
      ensures CarriesStoredIds(old(db), device, old(Specs(ifaces)), Specs(ifaces))
      ensures Performs(old(db), ReplaceInterfaces(device, old(Specs(ifaces))), db)
    {
      ghost var specs := Specs(ifaces);
      ghost var ids := Planned(db.interfaces, device, specs);
      AllRoundsFit(db.interfaces, device, specs);
      var pass := UpsertEach(device, ifaces, ByName(db.interfaces, device), ids);
      CarriedBack(db, device, ifaces, specs, ids, pass.keep);
      Purge(device, pass, specs);
    }

    /** Deletes the interfaces whose names were not kept, clearing what refers to them. */
    method Purge(device: Id, pass: Pass, ghost specs: seq<Spec>)
      requires Valid() && device in db.devices && BringsNewIds(db.interfaces, device, specs)
      requires pass == PassAfter(db.interfaces, device, ByName(db.interfaces, device),
                                 Planned(db.interfaces, device, specs), specs, |specs|)
      requires forall k :: 0 <= k < |specs| ==> specs[k].id.n < nextId
      modifies this`db
      ensures Valid() && Performs(old(db), ReplaceInterfaces(device, specs), db)
    {
      var stale := set s | s in pass.byName && s !in pass.keep :: pass.byName[s];
      DeletionCompletes(pass, db, device, specs, Planned(db.interfaces, device, specs), stale, nextId);
      db := Deleted(db, pass.rows, stale);
    }

    /** Stores a link under its sorted pair of ends, updating the row that pair already has. */
    method UpsertLink(link: Link) returns (row: Id)
      requires Valid() && link.a in db.interfaces && link.b in db.interfaces
      requires link.id !in db.links && link.id.n < nextId
      modifies this`db, link
      ensures Valid() && (row in old(db).links || row == link.id)
      ensures Performs(old(db), StoreLink(row, old(link.a), old(link.b), link.facts), db)
      ensures link.a.n <= link.b.n && multiset{link.a, link.b} == multiset{old(link.a), old(link.b)}
      ensures row in db.links && db.links[row] == LinkRow(link.a, link.b, link.facts)
      ensures forall l :: l in db.links && multiset{db.links[l].a, db.links[l].b} == multiset{link.a, link.b} ==> l == row
    {
      PairIsSorted(link.a, link.b);
      var a, b := Min(link.a, link.b), Max(link.a, link.b);
      row := link.id;
      if exists l :: l in db.links && HasPair(db.links, l, a, b) {
        row :| row in db.links && HasPair(db.links, row, a, b);
      }
      LinkStoredIntact(db, row, a, b, link.facts, nextId);
      db := db.(links := db.links[row := LinkRow(a, b, link.facts)]);
      link.a := a;
      link.b := b;
      OnlyRowOfPair(db, row);
    }

    /** Finds the device by serial and vendor, else by management address, and merges; else inserts it. */
    method UpsertByIdentity(id: Id, facts: DeviceRow) returns (found: Option<Id>)
      requires Valid() && id !in db.devices && id.n < nextId
      modifies this`db
      ensures Valid()
      ensures found.None? <==> Unidentifiable(old(db.devices), facts)
      ensures found.None? ==> db == old(db)
      ensures found.Some? ==> Performs(old(db), StoreDevice(found.value, id, facts), db)
    {
      var rows := BySerial(db.devices, facts);
      if Several(rows) { return None; }
      if rows == {} {
        rows := ByIp(db.devices, facts.managementIp);
        if Several(rows) { return None; }
      }
      var row := id;
      if rows != {} {
        row :| row in rows;
      }
      db := db.(devices := db.devices[row := Stored(db.devices, row, facts)]);
      return Some(row);
    }

    /** The stored interfaces of a device, as fresh objects. */
    method ListForDevice(device: Id) returns (list: seq<Interface>)
      requires Valid()
      ensures fresh(list) && ListsDevice(db.interfaces, device, Specs(list))
    {
      var ids := Enumerate(set i | i in db.interfaces && db.interfaces[i].deviceId == device);
      list := [];
      for k := 0 to |ids|
        invariant fresh(list) && |list| == k
        invariant forall j :: 0 <= j < k ==> list[j].id == ids[j] && IsCopyOf(db.interfaces, list[j])
      {
        assert ids[k] in ids;
        var row := db.interfaces[ids[k]];
        var copy := new Interface(ids[k], row.name, row.fields);
        list := list + [copy];
      }
      CopiesListDevice(db.interfaces, device, list, ids);
    }
  }
}
