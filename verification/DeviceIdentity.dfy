/** Merging discovery facts into a stored device row without letting stubs wipe a richer record. */
module DeviceIdentity {
  import opened Common

  datatype AttrValue = Flag(on: bool) | Text(text: string)

  /** The columns of a device row that discovery writes. */
  datatype DeviceRow = DeviceRow(
    hostname: string, vendor: string, model: string,
    serial: Option<string>, firmware: Option<string>, osVersion: Option<string>,
    managementIp: Option<string>, managementMac: Option<string>,
    platform: string, status: string, attributes: map<string, AttrValue>)

  // ---------------------------------------------------------------- text

  predicate IsBlank(c: char) { c == ' ' || '\t' <= c <= '\r' || '\U{1c}' <= c <= '\U{1f}' }

  /** Text without its leading and trailing white space. */
  function Strip(s: string): (r: string)
    ensures |r| <= |s|
    ensures r != "" ==> !IsBlank(r[0]) && !IsBlank(r[|r| - 1])
    ensures s != "" && !IsBlank(s[0]) && !IsBlank(s[|s| - 1]) ==> r == s
    decreases |s|
  {
    if s == "" then ""
    else if IsBlank(s[0]) then Strip(s[1..])
    else if IsBlank(s[|s| - 1]) then Strip(s[..|s| - 1])
    else s
  }

  lemma {:induction false} StripTrims(text: string)
    ensures Trims(text, Strip(text), IsBlank)
    decreases |text|
  {
    if text != "" && IsBlank(text[0]) {
      StripTrims(text[1..]);
      TrimsFirst(text, Strip(text), IsBlank);
    } else if text != "" && IsBlank(text[|text| - 1]) {
      StripTrims(text[..|text| - 1]);
      TrimsLast(text, Strip(text), IsBlank);
    } else {
      TrimsNothing(text, IsBlank);
    }
  }

  /** Exactly the ASCII white space at both ends is taken off. */
  lemma StripIs(text: string, part: string)
    requires Trims(text, part, c => c == ' ' || '\t' <= c <= '\r' || '\U{1c}' <= c <= '\U{1f}')
    ensures Strip(text) == part
  {
    TrimsAlike(text, part, c => c == ' ' || '\t' <= c <= '\r' || '\U{1c}' <= c <= '\U{1f}', IsBlank);
    StripTrims(text);
    TrimsOnce(text, part, Strip(text), IsBlank);
  }

  lemma StripIdempotent(s: string)
    ensures Strip(Strip(s)) == Strip(s)
  {
  }

  function LowerChar(c: char): char { if 'A' <= c <= 'Z' then c + ' ' else c }

  function Lower(s: string): (r: string)
    ensures |r| == |s|
  {
    seq(|s|, k requires 0 <= k < |s| => LowerChar(s[k]))
  }

  /** Capital letters become the small letters of the same place in the alphabet; other characters stay. */
  lemma LowerIs(s: string, k: nat)
    requires k < |s|
    ensures 'A' <= s[k] <= 'Z' ==> Lower(s)[k] as int - 'a' as int == s[k] as int - 'A' as int
    ensures !('A' <= s[k] <= 'Z') ==> Lower(s)[k] == s[k]
  {
  }

  // ---------------------------------------------------------------- the preference rule

  const HOSTNAME_STUBS: set<string> := {"", "unknown", "unknown device", "generic", "none"}
  const VENDOR_STUBS: set<string> := {"unknown", "generic", ""}
  const MODEL_STUBS: set<string> := {"unknown", "unknown device", ""}

  /** A value that carries no identity: blank, or one of the placeholder words in any case. */
  predicate IsStub(s: string, stubs: set<string>) {
    Strip(s) == "" || Lower(Strip(s)) in stubs
  }

  /** Case and surrounding white space do not make a placeholder a value. */
  lemma StubInAnyCase(s: string, t: string, stubs: set<string>)
    requires Lower(Strip(s)) == Lower(Strip(t))
    ensures IsStub(s, stubs) <==> IsStub(t, stubs)
  {
    assert |Lower(Strip(s))| == |Strip(s)| && |Lower(Strip(t))| == |Strip(t)|;
  }

  lemma BlankAndListedAreStubs(s: string, stubs: set<string>)
    ensures Strip(s) == "" ==> IsStub(s, stubs)
    ensures Lower(s) in stubs && Strip(s) == s ==> IsStub(s, stubs)
  {
  }

  function PreferStr(incoming: string, stored: string, stubs: set<string>): string {
    var newS, oldS := Strip(incoming), Strip(stored);
    if newS == "" || Lower(newS) in stubs then
      if oldS != "" then oldS else newS
    else if oldS == "" || Lower(oldS) in stubs then
      newS
    else
      newS
  }

  function Later(incoming: Option<string>, stored: Option<string>): Option<string> {
    if incoming.Some? && incoming.value != "" then incoming else stored
  }

  function KnownOr(incoming: string, stored: string): string {
    if incoming != "" && incoming != "unknown" then incoming else stored
  }

  const AUTO_CLASSIFIED := "auto_classified"

  predicate IsAutoClassified(attributes: map<string, AttrValue>) {
    AUTO_CLASSIFIED in attributes &&
    match attributes[AUTO_CLASSIFIED]
    case Flag(on) => on
    case Text(text) => text != ""
  }

  function MergeAttributes(incoming: map<string, AttrValue>, stored: map<string, AttrValue>): map<string, AttrValue> {
    (if incoming != map[] && !IsAutoClassified(incoming) then stored - {AUTO_CLASSIFIED} else stored) + incoming
  }

  /** The row after an upsert that found it. */
  function Merge(stored: DeviceRow, incoming: DeviceRow): DeviceRow {
    DeviceRow(
      PreferStr(incoming.hostname, stored.hostname, HOSTNAME_STUBS),
      PreferStr(incoming.vendor, stored.vendor, VENDOR_STUBS),
      PreferStr(incoming.model, stored.model, MODEL_STUBS),
      Later(incoming.serial, stored.serial),
      Later(incoming.firmware, stored.firmware),
      Later(incoming.osVersion, stored.osVersion),
      Later(incoming.managementIp, stored.managementIp),
      Later(incoming.managementMac, stored.managementMac),
      KnownOr(incoming.platform, stored.platform),
      KnownOr(incoming.status, stored.status),
      MergeAttributes(incoming.attributes, stored.attributes))
  }

  // ---------------------------------------------------------------- whole runs of upserts on one row

  /** The row after a run of upserts that all landed on it; the first one inserted it verbatim. */
  function Landed(writes: seq<DeviceRow>): DeviceRow
    requires writes != []
  {
    if |writes| == 1 then writes[0] else Merge(Landed(writes[..|writes| - 1]), writes[|writes| - 1])
  }

  /** Index `k` holds the last value of the run that is not a stub. */
  ghost predicate IsLastReal(values: seq<string>, k: nat, stubs: set<string>) {
    && k < |values| && !IsStub(values[k], stubs)
    && forall j :: k < j < |values| ==> IsStub(values[j], stubs)
  }

  /** What the preference rule leaves after a run of values, the first stored verbatim. */
  function Preferred(values: seq<string>, stubs: set<string>): string
    requires values != []
  {
    if |values| == 1 then values[0]
    else PreferStr(values[|values| - 1], Preferred(values[..|values| - 1], stubs), stubs)
  }

  /** The last real value wins, however many stubs come after it. */
  lemma {:induction false} LastRealValueStays(values: seq<string>, k: nat, stubs: set<string>)
    requires IsLastReal(values, k, stubs)
    ensures Strip(Preferred(values, stubs)) == Strip(values[k])
  {
    var n := |values| - 1;
    if n > 0 {
      StripIdempotent(values[n]);
      if k < n {
        var init := values[..n];
        LastRealValueStays(init, k, stubs);
        StripIdempotent(Preferred(init, stubs));
        StripIdempotent(init[k]);
      }
    }
  }

  /** When nothing real was ever written, the first value that is not blank stays. */
  lemma {:induction false} FirstStubStays(values: seq<string>, k: nat, stubs: set<string>)
    requires k < |values| && Strip(values[k]) != ""
    requires forall j :: 0 <= j < |values| ==> IsStub(values[j], stubs)
    requires forall j :: 0 <= j < k ==> Strip(values[j]) == ""
    ensures Strip(Preferred(values, stubs)) == Strip(values[k])
  {
    var n := |values| - 1;
    if n > 0 {
      var init := values[..n];
      StripIdempotent(values[n]);
      if k < n {
        FirstStubStays(init, k, stubs);
        StripIdempotent(Preferred(init, stubs));
      } else {
        AllBlankStays(init, stubs);
      }
    }
  }

  lemma {:induction false} AllBlankStays(values: seq<string>, stubs: set<string>)
    requires values != [] && forall j :: 0 <= j < |values| ==> Strip(values[j]) == ""
    ensures Strip(Preferred(values, stubs)) == ""
  {
    var n := |values| - 1;
    if n > 0 {
      AllBlankStays(values[..n], stubs);
    }
  }

  ghost function Hostnames(writes: seq<DeviceRow>): (column: seq<string>)
    ensures |column| == |writes| && forall k :: 0 <= k < |writes| ==> column[k] == writes[k].hostname
  {
    if writes == [] then [] else Hostnames(writes[..|writes| - 1]) + [writes[|writes| - 1].hostname]
  }

  ghost function Vendors(writes: seq<DeviceRow>): (column: seq<string>)
    ensures |column| == |writes| && forall k :: 0 <= k < |writes| ==> column[k] == writes[k].vendor
  {
    if writes == [] then [] else Vendors(writes[..|writes| - 1]) + [writes[|writes| - 1].vendor]
  }

  ghost function Models(writes: seq<DeviceRow>): (column: seq<string>)
    ensures |column| == |writes| && forall k :: 0 <= k < |writes| ==> column[k] == writes[k].model
  {
    if writes == [] then [] else Models(writes[..|writes| - 1]) + [writes[|writes| - 1].model]
  }

  lemma PreferredSnoc(values: seq<string>, last: string, stubs: set<string>)
    requires values != []
    ensures Preferred(values + [last], stubs) == PreferStr(last, Preferred(values, stubs), stubs)
  {
    assert (values + [last])[..|values|] == values;
  }

  /** The three identity columns evolve independently, each under its own list of placeholder words. */
  lemma {:induction false} LandedByColumn(writes: seq<DeviceRow>)
    requires writes != []
    ensures Landed(writes).hostname == Preferred(Hostnames(writes), HOSTNAME_STUBS)
    ensures Landed(writes).vendor == Preferred(Vendors(writes), VENDOR_STUBS)
    ensures Landed(writes).model == Preferred(Models(writes), MODEL_STUBS)
  {
    var n := |writes| - 1;
    if n > 0 {
      var init, last := writes[..n], writes[n];
      LandedByColumn(init);
      PreferredSnoc(Hostnames(init), last.hostname, HOSTNAME_STUBS);
      PreferredSnoc(Vendors(init), last.vendor, VENDOR_STUBS);
      PreferredSnoc(Models(init), last.model, MODEL_STUBS);
    }
  }

  /** Each identity column of the row that had a real value among the writes is the last such, up to white space. */
  ghost predicate HoldsLastReal(row: DeviceRow, writes: seq<DeviceRow>) {
    && (forall k: nat :: IsLastReal(Hostnames(writes), k, HOSTNAME_STUBS) ==>
          Strip(row.hostname) == Strip(writes[k].hostname))
    && (forall k: nat :: IsLastReal(Vendors(writes), k, VENDOR_STUBS) ==> Strip(row.vendor) == Strip(writes[k].vendor))
    && (forall k: nat :: IsLastReal(Models(writes), k, MODEL_STUBS) ==> Strip(row.model) == Strip(writes[k].model))
  }

  /** No run of stubs degrades a record: each identity column keeps its last real value, whatever the others hold. */
  lemma {:induction false} RichRecordSurvives(writes: seq<DeviceRow>)
    requires writes != []
    ensures HoldsLastReal(Landed(writes), writes)
  {
    LandedByColumn(writes);
    forall k: nat | IsLastReal(Hostnames(writes), k, HOSTNAME_STUBS)
      ensures Strip(Landed(writes).hostname) == Strip(writes[k].hostname)
    {
      LastRealValueStays(Hostnames(writes), k, HOSTNAME_STUBS);
    }
    forall k: nat | IsLastReal(Vendors(writes), k, VENDOR_STUBS)
      ensures Strip(Landed(writes).vendor) == Strip(writes[k].vendor)
    {
      LastRealValueStays(Vendors(writes), k, VENDOR_STUBS);
    }
    forall k: nat | IsLastReal(Models(writes), k, MODEL_STUBS)
      ensures Strip(Landed(writes).model) == Strip(writes[k].model)
    {
      LastRealValueStays(Models(writes), k, MODEL_STUBS);
    }
  }

  /** What `KnownOr` leaves after a run of values, the first stored verbatim. */
  function Known(values: seq<string>): string
    requires values != []
  {
    if |values| == 1 then values[0] else KnownOr(values[|values| - 1], Known(values[..|values| - 1]))
  }

  ghost predicate IsLastKnown(values: seq<string>, k: nat) {
    && k < |values| && values[k] != "" && values[k] != "unknown"
    && forall j :: k < j < |values| ==> values[j] == "" || values[j] == "unknown"
  }

  lemma {:induction false} LastKnownValueStays(values: seq<string>, k: nat)
    requires IsLastKnown(values, k)
    ensures Known(values) == values[k]
  {
    var n := |values| - 1;
    if k < n {
      LastKnownValueStays(values[..n], k);
    }
  }

  ghost function Platforms(writes: seq<DeviceRow>): (column: seq<string>)
    ensures |column| == |writes| && forall k: nat :: 0 <= k < |writes| ==> column[k] == writes[k].platform
  {
    if writes == [] then [] else Platforms(writes[..|writes| - 1]) + [writes[|writes| - 1].platform]
  }

  ghost function Statuses(writes: seq<DeviceRow>): (column: seq<string>)
    ensures |column| == |writes| && forall k: nat :: 0 <= k < |writes| ==> column[k] == writes[k].status
  {
    if writes == [] then [] else Statuses(writes[..|writes| - 1]) + [writes[|writes| - 1].status]
  }

  lemma KnownSnoc(values: seq<string>, last: string)
    requires values != []
    ensures Known(values + [last]) == KnownOr(last, Known(values))
  {
    assert (values + [last])[..|values|] == values;
  }

  lemma {:induction false} LandedStateByColumn(writes: seq<DeviceRow>)
    requires writes != []
    ensures Landed(writes).platform == Known(Platforms(writes))
    ensures Landed(writes).status == Known(Statuses(writes))
  {
    var n := |writes| - 1;
    if n > 0 {
      var init, last := writes[..n], writes[n];
      LandedStateByColumn(init);
      KnownSnoc(Platforms(init), last.platform);
      KnownSnoc(Statuses(init), last.status);
    }
  }

  /** Platform and status, where they were ever known, are the last known value written. */
  ghost predicate HoldsLastKnown(row: DeviceRow, writes: seq<DeviceRow>) {
    && (forall k: nat :: IsLastKnown(Platforms(writes), k) ==> row.platform == writes[k].platform)
    && (forall k: nat :: IsLastKnown(Statuses(writes), k) ==> row.status == writes[k].status)
  }

  lemma {:induction false} LastKnownStateStays(writes: seq<DeviceRow>)
    requires writes != []
    ensures HoldsLastKnown(Landed(writes), writes)
  {
    LandedStateByColumn(writes);
    forall k: nat | IsLastKnown(Platforms(writes), k) ensures Landed(writes).platform == writes[k].platform {
      LastKnownValueStays(Platforms(writes), k);
    }
    forall k: nat | IsLastKnown(Statuses(writes), k) ensures Landed(writes).status == writes[k].status {
      LastKnownValueStays(Statuses(writes), k);
    }
  }

  /** The columns that may be missing. */
  datatype FactColumn = Serial | Firmware | OsVersion | ManagementIp | ManagementMac

  function Fact(row: DeviceRow, column: FactColumn): Option<string> {
    match column
    case Serial => row.serial
    case Firmware => row.firmware
    case OsVersion => row.osVersion
    case ManagementIp => row.managementIp
    case ManagementMac => row.managementMac
  }

  /** What `Later` leaves after a run of facts. */
  function Given(facts: seq<Option<string>>): Option<string> {
    if facts == [] then None else Later(facts[|facts| - 1], Given(facts[..|facts| - 1]))
  }

  predicate IsGiven(fact: Option<string>) { fact.Some? && fact.value != "" }

  ghost predicate IsLastGiven(facts: seq<Option<string>>, k: nat) {
    && k < |facts| && IsGiven(facts[k])
    && forall j :: k < j < |facts| ==> !IsGiven(facts[j])
  }

  lemma {:induction false} LastGivenFactStays(facts: seq<Option<string>>, k: nat)
    requires IsLastGiven(facts, k)
    ensures Given(facts) == facts[k]
  {
    var n := |facts| - 1;
    if k < n {
      LastGivenFactStays(facts[..n], k);
    }
  }

  ghost function Facts(writes: seq<DeviceRow>, column: FactColumn): (facts: seq<Option<string>>)
    ensures |facts| == |writes| && forall k :: 0 <= k < |writes| ==> facts[k] == Fact(writes[k], column)
  {
    if writes == [] then [] else Facts(writes[..|writes| - 1], column) + [Fact(writes[|writes| - 1], column)]
  }

  lemma MergedFact(stored: DeviceRow, incoming: DeviceRow, column: FactColumn)
    ensures Fact(Merge(stored, incoming), column) == Later(Fact(incoming, column), Fact(stored, column))
  {
  }

  lemma GivenSnoc(facts: seq<Option<string>>, last: Option<string>)
    ensures Given(facts + [last]) == Later(last, Given(facts))
  {
    assert (facts + [last])[..|facts|] == facts;
  }

  /** Each of these columns evolves on its own too; an inserted fact that is not given counts as none. */
  lemma {:induction false} LandedFactByColumn(writes: seq<DeviceRow>, column: FactColumn)
    requires writes != []
    ensures var fact := Fact(Landed(writes), column);
            if IsGiven(fact) then Given(Facts(writes, column)) == fact else !IsGiven(Given(Facts(writes, column)))
  {
    var n := |writes| - 1;
    GivenSnoc(Facts(writes[..n], column), Fact(writes[n], column));
    if n > 0 {
      LandedFactByColumn(writes[..n], column);
      MergedFact(Landed(writes[..n]), writes[n], column);
    }
  }

  /** Serial number, versions and addresses, where they were ever given, are the last given ones written. */
  ghost predicate HoldsLastGiven(row: DeviceRow, writes: seq<DeviceRow>) {
    forall column, k: nat :: IsLastGiven(Facts(writes, column), k) ==> Fact(row, column) == Fact(writes[k], column)
  }

  lemma {:induction false} LastGivenFactsStay(writes: seq<DeviceRow>)
    requires writes != []
    ensures HoldsLastGiven(Landed(writes), writes)
  {
    forall column, k: nat | IsLastGiven(Facts(writes, column), k)
      ensures Fact(Landed(writes), column) == Fact(writes[k], column)
    {
      LandedFactByColumn(writes, column);
      LastGivenFactStays(Facts(writes, column), k);
    }
  }

  /** What `MergeAttributes` leaves after a run of attribute tables. */
  function Attributed(tables: seq<map<string, AttrValue>>): map<string, AttrValue> {
    if tables == [] then map[] else MergeAttributes(tables[|tables| - 1], Attributed(tables[..|tables| - 1]))
  }

  /** The table decides about the key: for the mark of automatic classification, every table that is not empty does. */
  predicate DecidesKey(table: map<string, AttrValue>, key: string) {
    if key == AUTO_CLASSIFIED then table != map[] else key in table
  }

  ghost predicate IsLastDeciding(tables: seq<map<string, AttrValue>>, key: string, k: nat) {
    && k < |tables| && DecidesKey(tables[k], key)
    && forall j :: k < j < |tables| ==> !DecidesKey(tables[j], key)
  }

  predicate SameAt(left: map<string, AttrValue>, right: map<string, AttrValue>, key: string) {
    (key in left <==> key in right) && (key in left ==> left[key] == right[key])
  }

  /** An attribute is as the last table that decides about it has it, or missing there. */
  lemma {:induction false} LastDecidingTableStays(tables: seq<map<string, AttrValue>>, key: string, k: nat)
    requires IsLastDeciding(tables, key, k)
    ensures SameAt(Attributed(tables), tables[k], key)
  {
    var n := |tables| - 1;
    if k < n {
      LastDecidingTableStays(tables[..n], key, k);
    }
  }

  /** A key that no table decides about does not come up. */
  lemma {:induction false} UndecidedStaysOut(tables: seq<map<string, AttrValue>>, key: string)
    requires forall j :: 0 <= j < |tables| ==> !DecidesKey(tables[j], key)
    ensures key !in Attributed(tables)
  {
    if tables != [] {
      UndecidedStaysOut(tables[..|tables| - 1], key);
    }
  }

  ghost function Attributes(writes: seq<DeviceRow>): (tables: seq<map<string, AttrValue>>)
    ensures |tables| == |writes| && forall k :: 0 <= k < |writes| ==> tables[k] == writes[k].attributes
  {
    if writes == [] then [] else Attributes(writes[..|writes| - 1]) + [writes[|writes| - 1].attributes]
  }

  lemma AttributedSnoc(tables: seq<map<string, AttrValue>>, last: map<string, AttrValue>)
    ensures Attributed(tables + [last]) == MergeAttributes(last, Attributed(tables))
  {
    assert (tables + [last])[..|tables|] == tables;
  }

  lemma MergedAttributes(stored: DeviceRow, incoming: DeviceRow)
    ensures Merge(stored, incoming).attributes == MergeAttributes(incoming.attributes, stored.attributes)
  {
  }

  lemma {:induction false} LandedAttributes(writes: seq<DeviceRow>)
    requires writes != []
    ensures Landed(writes).attributes == Attributed(Attributes(writes))
  {
    var n := |writes| - 1;
    AttributedSnoc(Attributes(writes[..n]), writes[n].attributes);
    if n > 0 {
      LandedAttributes(writes[..n]);
      MergedAttributes(Landed(writes[..n]), writes[n]);
    }
  }

  ghost predicate AnyDecides(writes: seq<DeviceRow>, key: string) {
    exists j :: 0 <= j < |writes| && DecidesKey(writes[j].attributes, key)
  }

  /** Every attribute is as the last write deciding about it left it, and there are no others. */
  ghost predicate HoldsLastAttributes(row: DeviceRow, writes: seq<DeviceRow>) {
    && (forall key, k: nat :: IsLastDeciding(Attributes(writes), key, k) ==>
          SameAt(row.attributes, writes[k].attributes, key))
    && (forall key :: !AnyDecides(writes, key) ==> key !in row.attributes)
  }

  lemma {:induction false} LastAttributesStay(writes: seq<DeviceRow>)
    requires writes != []
    ensures HoldsLastAttributes(Landed(writes), writes)
  {
    LandedAttributes(writes);
    forall key, k: nat | IsLastDeciding(Attributes(writes), key, k)
      ensures SameAt(Landed(writes).attributes, writes[k].attributes, key)
    {
      LastDecidingTableStays(Attributes(writes), key, k);
    }
    forall key | !AnyDecides(writes, key) ensures key !in Landed(writes).attributes {
      UndecidedStaysOut(Attributes(writes), key);
    }
  }

  /** A rich value is kept exactly when the incoming one is a stub or says the same. */
  lemma KeptIffStub(incoming: string, stored: string, stubs: set<string>)
    requires !IsStub(stored, stubs)
    ensures PreferStr(incoming, stored, stubs) == Strip(stored)
       <==> IsStub(incoming, stubs) || Strip(incoming) == Strip(stored)
  {
  }

  /** A bare address is not a stub, so a neighbour fact without a hostname does overwrite a real one. */
  lemma BareAddressOverwritesHostname()
    ensures !IsStub("core-sw", HOSTNAME_STUBS)
    ensures PreferStr("10.0.0.9", "core-sw", HOSTNAME_STUBS) == "10.0.0.9"
  {
    assert Strip("10.0.0.9") == "10.0.0.9" && Strip("core-sw") == "core-sw";
    var a, b := Lower("10.0.0.9"), Lower("core-sw");
    assert a[0] == '1' && b[0] == 'c';
    assert "unknown"[0] == 'u' && "unknown device"[0] == 'u' && "generic"[0] == 'g' && "none"[0] == 'n';
  }
}
