# NetAtlas: a verified model

NetAtlas discovers network devices, keeps an inventory of devices, interfaces and links, and answers questions over
that graph. This project models the logic behind it in Dafny and proves what that logic is meant to guarantee.
`dafny verify dfyconfig.toml` checks everything.

- `CablePath`: the breadth-first path resolver and the topology the map draws from the same links.
- `DeviceIdentity`, `Inventory`, `InventoryStore`, `InventoryRuns`: the device, interface and link tables, the
  repositories that change them in place, and whole runs of repository calls.
- `LinkGrowth`, `LinkMaterialization`: turning neighbour facts into link rows on top of the repositories.
- `SnapshotDiff`, `SnapshotFields`: comparing two snapshots, the comparison read as a patch, and what it says of the
  items' own fields.
- `MetricRates`, `CounterResets`, `RateAgreement`, `OutboundAgreement`: octet counters turned into bit rates, for the
  device and for each interface.
- `LoginLimiter`, `SyslogFraming`: two online algorithms proved against the full history they forget.
- `DiscoveryRun`, `JobControl`: one discovery run with cancellation, failing targets and rollbacks; and a job under
  its operator, who may cancel and retry between any two steps of a worker that may die or be given the job again.
- `Triggers`: periodic passes and syslog events over stored triggers.
- `Dedupe`, `Credentials`: order-preserving deduplication, credential candidates, merging and probing.
- `Layout`: ranks, columns and degrees of the hierarchical map.

Loops and in-place updates of the program are methods proved against functions on values; the lemmas then speak about
those functions. Identifiers come from an inexhaustible supply in which text order is numeric order. Times and rates
are exact reals with an explicit rounding to two decimals. What a run cannot decide itself (each cancel check, each
target's outcome, each failing rollback, the answers of hosts, pattern matches, samples) is an input, and statements
hold for all of them. The uniqueness and cascade rules are those of the table definitions
(`backend/src/netatlas/infrastructure/persistence/models/__init__.py`, lines 141, 185, 188-189 and 386).

Where the code and what is said about it differ, the model follows the code:

- `_prefer_str` (repositories, lines 42-43) announces that a hostname is preferred over a bare address; it returns the
  incoming value, so a neighbour fact without a hostname replaces a real one with its address.
- `upsert_by_identity` raises when a lookup finds several rows, and link materialization then fails for the target.
  Two rows come to share an address when a device found by serial number brings the address of another, and a serial
  number and vendor when a device found by address takes on those of another; both exact conditions are proved.
- An operator's cancel that arrives while a target is visited is overwritten by an update that writes the whole job
  (repositories, lines 638-648), and the job can then complete without a retry. A session that writes only the columns
  it sees changed, as one that keeps loaded rows across commits does
  (`backend/src/netatlas/infrastructure/persistence/session.py`, line 18), keeps the cancel. Both are modelled.
- `run` does not clear the end time of a job it starts again, so a completed job delivered twice is for a while, or for
  good if its worker dies, running with an end time.
- The counters of a run are ordered in every record only because the worker commits after every update; a caller that
  rolls back without committing would break them.
- A syslog severity of 0 counts as 7, so an emergency passes no severity filter below 7.
- Merging credential candidates lowers the community and ignores the authentication keys, so it can drop the one
  candidate a host answers; the exact condition is proved.
- The login limiter's window bound holds exactly on clocks that never run more than 60 seconds past a reading and then
  come back to within 60 seconds of it; its answers are those of the full history exactly on clocks that never step back.
- A row that leaves an interface out shortens the interval of its next rate, which then spreads the whole movement since
  the last reading over the time since that row.
- The outbound aggregate series is empty unless the inbound one is asked for too, and a missing outbound total counts
  as nothing sent.

## Model

| member | source | states |
|---|---|---|
| CablePath.BuildAdjacency | backend/src/netatlas/domain/services/__init__.py:92-100 | The adjacency index lists exactly the neighbours that some link with two known ends joins, with both interface names, from either end. |
| CablePath.Search | backend/src/netatlas/domain/services/__init__.py:107-117 | The queue loop ends; its parent pointers form a tree of real cables rooted at the start; a reachable goal is in it, at a depth below the length of every path. |
| CablePath.FrontierCutsPaths | backend/src/netatlas/domain/services/__init__.py:109-117 | At any moment of the search, along any path whatever, either its end is already reached at no greater depth or the queue head is shallower than it: the reason why the first visit is a shortest one. |
| CablePath.WalkBack | backend/src/netatlas/domain/services/__init__.py:122-131 | The walk over parent pointers ends at the start and gives the tree route, reversed into order. |
| CablePath.Resolve | backend/src/netatlas/domain/services/__init__.py:83-131 | The answer is non-empty exactly when the goal is reachable or is the start; it then runs from start to goal along real cables without repeating a device, each later hop naming the interface on which it is entered, and no path has fewer devices. |
| CablePath.HopCountSymmetric | backend/src/netatlas/domain/services/__init__.py:99-100 | Resolving from start to goal and from goal to start gives answers of the same length (both empty or equally long). |
| CablePath.Build | backend/src/netatlas/domain/services/__init__.py:40-77 | One node per device with its fallback label, and one edge per link whose ends are known, in link order. |
| CablePath.DrawnIffCabled | backend/src/netatlas/domain/services/__init__.py:55-77 | The drawn graph and the graph of the resolver have the same cables: an edge can be walked onto an interface exactly when some link joins the devices there. |
| CablePath.RouteIsDrawn | backend/src/netatlas/domain/services/__init__.py:55-131 | Each hop of a resolved route runs along an edge of the drawn graph that bears the interface name of the hop. |
| CablePath.EdgesFollowLinks | backend/src/netatlas/domain/services/__init__.py:55-77 | Each link with two known ends is drawn as one edge, in link order, from the device of its first interface to that of its second. |
| CablePath.LabelIs | backend/src/netatlas/domain/services/__init__.py:102-128 | A hop is labelled with the hostname, or with the identifier when the device is unknown or has no hostname. |
| DeviceIdentity.LastRealValueStays | backend/src/netatlas/infrastructure/persistence/repositories/__init__.py:34-43 | After any run of writes under the preference rule, the value is, up to surrounding white space, the last one that is not a stub. |
| DeviceIdentity.FirstStubStays | backend/src/netatlas/infrastructure/persistence/repositories/__init__.py:34-43 | When only stubs were written, the first that is not blank stays. |
| DeviceIdentity.StubInAnyCase | backend/src/netatlas/infrastructure/persistence/repositories/__init__.py:36-41 | Neither case nor surrounding white space makes a placeholder word a value. |
| DeviceIdentity.BlankAndListedAreStubs | backend/src/netatlas/infrastructure/persistence/repositories/__init__.py:38-40 | Blank text and every listed word are placeholders. |
| DeviceIdentity.StripIs | backend/src/netatlas/infrastructure/persistence/repositories/__init__.py:36-37 | Stripping takes exactly the leading and trailing white space. |
| DeviceIdentity.LowerIs | backend/src/netatlas/infrastructure/persistence/repositories/__init__.py:38-40 | Lower case maps capital letters within the alphabet and leaves all other characters. |
| DeviceIdentity.RichRecordSurvives | backend/src/netatlas/infrastructure/persistence/repositories/__init__.py:158-164 | After any sequence of upserts on one row, each of hostname, vendor and model that ever had a real value is its last real value, under its own list of stub words and whatever the other columns hold: no run of stubs degrades a record. |
| DeviceIdentity.LastKnownStateStays | backend/src/netatlas/infrastructure/persistence/repositories/__init__.py:170-175 | Each of platform and status that was ever known is the last value written that is not unknown. |
| DeviceIdentity.LastGivenFactsStay | backend/src/netatlas/infrastructure/persistence/repositories/__init__.py:165-169 | Serial number, firmware, system version and both addresses are each the last value given, when one was. |
| DeviceIdentity.LastAttributesStay | backend/src/netatlas/infrastructure/persistence/repositories/__init__.py:176-182 | An attribute is what the last write that has it says, and there are no others; the mark of automatic classification is that of the last write with any attributes, or gone if that has none. |
| DeviceIdentity.KeptIffStub | backend/src/netatlas/infrastructure/persistence/repositories/__init__.py:34-43 | A real value is kept exactly when the incoming one is a stub or says the same. |
| DeviceIdentity.BareAddressOverwritesHostname | backend/src/netatlas/infrastructure/persistence/repositories/__init__.py:42-43 | A bare address is not a stub: it replaces a real hostname, although the comment there prefers the hostname. |
| Inventory.ReplacementUnique | backend/src/netatlas/infrastructure/persistence/repositories/__init__.py:224-268 | The description of a replacement leaves no freedom: two results of the same call on the same tables are equal. |
| Inventory.ReplacementKeepsIntact | backend/src/netatlas/infrastructure/persistence/repositories/__init__.py:224-268 | A replacement keeps unique (device, name), non-empty names, sorted unique link pairs, and every link end and address reference pointing at an existing interface. |
| Inventory.KeptNamesKeepIds | backend/src/netatlas/infrastructure/persistence/repositories/__init__.py:231-256 | An interface of the device survives, with its identifier, exactly when the list names it. |
| Inventory.LinkSurvivesIffBothEndsKept | backend/src/netatlas/infrastructure/persistence/models/__init__.py:185-189 | A link survives a replacement, unchanged, exactly when the names of both its ends are kept. |
| Inventory.AddressesLoseOnlyReferences | backend/src/netatlas/infrastructure/persistence/repositories/__init__.py:256-264 | Every IPAM address stays with its text; it keeps its reference when its port stays and has none when its port goes. Devices stay, and no link comes up. |
| Inventory.EntryIsStored | backend/src/netatlas/infrastructure/persistence/repositories/__init__.py:231-255 | The port of each name is stored with the fields of the last entry of that name, in the row it had, or under the identifier of the first such entry. |
| Inventory.ReplacingTwiceIsReplacingOnce | backend/src/netatlas/infrastructure/persistence/repositories/__init__.py:224-268 | Repeating the call with the list it left behind changes neither the tables nor the list. |
| Inventory.NamesAreNonEmptyNames | backend/src/netatlas/infrastructure/persistence/repositories/__init__.py:233-236 | The names kept are exactly the non-empty names in the list. |
| Inventory.KeptIsLast | backend/src/netatlas/infrastructure/persistence/repositories/__init__.py:237-254 | Of several entries with one name, the last one gives the fields. |
| Inventory.FirstIdIsFirst | backend/src/netatlas/infrastructure/persistence/repositories/__init__.py:238-241 | Of several entries with one new name, the first one gives the identifier. |
| Inventory.AppendingKeepsEverything | backend/src/netatlas/application/use_cases/discovery.py:697-699 | Replacing with the full list of a device and one more entry deletes no interface and no link, clears no reference, and rewrites at most the row of that name. |
| InventoryStore.PassUpserts | backend/src/netatlas/infrastructure/persistence/repositories/__init__.py:233-256 | The working tables after the upsert loop hold exactly the kept names under their planned identifiers, nothing else being touched. |
| InventoryStore.PurgeCompletes | backend/src/netatlas/infrastructure/persistence/repositories/__init__.py:257-268 | Deleting the rows whose names were not kept turns those tables into the replacement. |
| InventoryStore.Store.ReplaceForDevice | backend/src/netatlas/infrastructure/persistence/repositories/__init__.py:224-268 | The in-place algorithm does the replacement: exactly the given names with the fields of their last occurrence, old names under their old identifiers, other devices untouched, stale address references cleared, links cascaded, and the callers’ objects carrying the stored identifiers. |
| InventoryStore.Store.UpsertLink | backend/src/netatlas/infrastructure/persistence/repositories/__init__.py:279-315 | The stored row and the object left behind hold exactly the two given ends in order; no other row joins the same two ports, whichever is named first; nothing else changes. |
| InventoryStore.Store.UpsertByIdentity | backend/src/netatlas/infrastructure/persistence/repositories/__init__.py:126-185 | The device found by serial and vendor, else by address, is merged into; else a row is inserted. It fails, changing nothing, exactly when the lookup finds several rows. |
| InventoryStore.GoesToSharer | backend/src/netatlas/infrastructure/persistence/repositories/__init__.py:127-143 | An upsert goes to a row with the given serial number and vendor, else to one with the given address, else to the new row. |
| InventoryStore.RaisesIff | backend/src/netatlas/infrastructure/persistence/repositories/__init__.py:130-142 | It raises when two rows have the given serial number and vendor, or none has and two have the given address. |
| InventoryStore.Store.ListForDevice | backend/src/netatlas/infrastructure/persistence/repositories/__init__.py:196-222 | Fresh objects that list the stored interfaces of the device, each once. |
| InventoryRuns.ActionKeepsIntact | backend/src/netatlas/infrastructure/persistence/repositories/__init__.py:126-315 | Each repository call takes intact tables to intact tables. |
| InventoryRuns.RunsStayIntact | backend/src/netatlas/infrastructure/persistence/models/__init__.py:141-189 | After every call of every run of replacements, link upserts and device upserts, all table rules hold. |
| InventoryRuns.PortKeepsItsId | backend/src/netatlas/infrastructure/persistence/repositories/__init__.py:225 | A port keeps its identifier through any run whose lists for its device all name it. |
| InventoryRuns.LinkKeepsItsRow | backend/src/netatlas/infrastructure/persistence/repositories/__init__.py:225 | A link row keeps its identifier and pair through any run whose lists name both its ports. |
| InventoryRuns.AddressClashIff | backend/src/netatlas/infrastructure/persistence/repositories/__init__.py:127-168 | Two rows come to share an address exactly when the facts are found by serial number and vendor and bring the address of a row that is not the one so found. |
| InventoryRuns.AddressClashHappens | backend/src/netatlas/infrastructure/persistence/repositories/__init__.py:127-168 | That does happen, on two devices; later lookups by that address then fail. |
| InventoryRuns.SerialClashIff | backend/src/netatlas/infrastructure/persistence/repositories/__init__.py:127-168 | Two rows come to share a serial number and vendor exactly when the row the lookups find takes them on (its own vendor if the facts bring none, theirs trimmed otherwise) while another row has them. |
| InventoryRuns.SerialClashHappens | backend/src/netatlas/infrastructure/persistence/repositories/__init__.py:136-165 | That does happen too: a serial number without a vendor, seen at the address of another device of that vendor. |
| InventoryRuns.RowIsLanded | backend/src/netatlas/infrastructure/persistence/repositories/__init__.py:143-182 | At every point of every run, a device row is there exactly when something was stored to it, and is what merging everything stored to it leaves. |
| InventoryRuns.RunsKeepRichRecords | backend/src/netatlas/infrastructure/persistence/repositories/__init__.py:158-182 | So at the end of any run every column of a device row holds the last real, known or given value stored to it, each column on its own, and attributes as above. |
| LinkGrowth.StubUpsertGrows | backend/src/netatlas/application/use_cases/discovery.py:657-672 | A stub upsert keeps every row and address and degrades no device: serial, platform, status and the other columns stay, real vendor and model stay, and a real hostname stays a real one. |
| LinkGrowth.StubKeepsAmbiguity | backend/src/netatlas/application/use_cases/discovery.py:657-672 | It makes no address ambiguous, nor any ambiguous address unambiguous. |
| LinkGrowth.NewRowIsExtra | backend/src/netatlas/application/use_cases/discovery.py:697-699 | Storing the full list and one more port adds no row but that port. |
| LinkGrowth.LinkedFactAddsNothing | backend/src/netatlas/application/use_cases/discovery.py:650-725 | A fact whose link is there adds no device, port or link. |
| LinkMaterialization.LocalPortIs | backend/src/netatlas/application/use_cases/discovery.py:647-651 | The local port of a fact has the name it gives if any does, else that interface index if any has it. |
| LinkMaterialization.LastNamedIsLast | backend/src/netatlas/application/use_cases/discovery.py:647-649 | Of several local interfaces of one name the last is taken. |
| LinkMaterialization.LastIndexedIsLast | backend/src/netatlas/application/use_cases/discovery.py:648-649 | Of several local interfaces of one index the last is taken. |
| LinkMaterialization.UsableIff | backend/src/netatlas/application/use_cases/discovery.py:649-672 | A fact is used exactly when some interface has its local name or index and it carries an address. |
| LinkMaterialization.UsageIs | backend/src/netatlas/application/use_cases/discovery.py:653-699 | It asks for a link from its local port to the port it names, or to one named unknown, at its address. |
| LinkMaterialization.FactsAre | backend/src/netatlas/application/use_cases/discovery.py:700-721 | A link takes speed, aggregation key and trunk flag from the local port; it is certain (1.0) for LLDP and CDP, and rated 0.6 for FDB and 0.4 otherwise. |
| LinkMaterialization.VlansAre | backend/src/netatlas/application/use_cases/discovery.py:701-702 | Its VLANs are the native one, unless zero, then the tagged ones but for that. |
| LinkMaterialization.WithoutSplits | backend/src/netatlas/application/use_cases/discovery.py:702 | Leaving a VLAN out keeps the order of the others. |
| LinkMaterialization.LinkStatusIs | backend/src/netatlas/application/use_cases/discovery.py:703-707 | It is up when both ports say so, down when either says so, in any case of letters, and unknown otherwise. |
| LinkMaterialization.CreatePort | backend/src/netatlas/application/use_cases/discovery.py:679-699 | Creating a port by storing the longer list deletes nothing and adds at most that port, which the returned object then identifies and which is the only one of its device and name. |
| LinkMaterialization.MaterializeOne | backend/src/netatlas/application/use_cases/discovery.py:650-725 | One usable fact: afterwards its link row has exactly the local port and the named port of a device with that address as its ends, with the details those two ports give it. Every new row is that device or port, of which nothing else is known, or that link, and nothing is new if the link was there. It fails, changing nothing, exactly when the address is ambiguous. |
| LinkMaterialization.MaterializeLinks | backend/src/netatlas/application/use_cases/discovery.py:640-726 | It fails exactly when some usable fact names an address that several rows carry beforehand. Otherwise the result counts the facts with a local port and an address, and each of them has its link row at the end, also when facts share a remote device or name the device itself. In no case is an interface or link deleted or a device degraded; every new row belongs to a usable fact; and when all links are there, as in a second call, no table gains a row. |
| LinkMaterialization.CountUsableCounts | backend/src/netatlas/application/use_cases/discovery.py:650-725 | The returned count is the number of usable facts. |
| SnapshotDiff.Compare | backend/src/netatlas/domain/services/__init__.py:238-261 | The loops over the two keyed dictionaries compute the report, in dictionary order. |
| SnapshotDiff.IndexHoldsKeys | backend/src/netatlas/domain/services/__init__.py:244-245 | A section’s dictionary has exactly the keys of its items. |
| SnapshotDiff.IndexHoldsLast | backend/src/netatlas/domain/services/__init__.py:244-245 | Under a repeated key the last item counts. |
| SnapshotDiff.DiffExplains | backend/src/netatlas/domain/services/__init__.py:246-260 | The three lists hold exactly the keys that only the right has, only the left has, and both have with different normal forms, each with the right items. |
| SnapshotDiff.PatchRoundTrip | backend/src/netatlas/domain/services/__init__.py:238-261 | Applied as a patch to the left snapshot the report gives the right one up to normal form, and the opposite report leads back. |
| SnapshotDiff.EmptyIffSameContent | backend/src/netatlas/domain/services/__init__.py:238-261 | The report is empty exactly when the keyed sections agree up to normal form. |
| SnapshotDiff.ListsDisjoint | backend/src/netatlas/domain/services/__init__.py:246-260 | No key of a section is in two of the three lists, whichever of them are empty. |
| SnapshotDiff.EachPlaceOnce | backend/src/netatlas/domain/services/__init__.py:246-260 | No list names a key of a section twice, however often the snapshots repeat keys. |
| SnapshotDiff.SwapInverts | backend/src/netatlas/domain/services/__init__.py:238-261 | Swapping the arguments swaps the added list with the removed list. |
| SnapshotDiff.SwapInvertsChanges | backend/src/netatlas/domain/services/__init__.py:249-257 | Swapping the arguments swaps before with after in every change. |
| SnapshotFields.SameKeyIff | backend/src/netatlas/domain/services/__init__.py:264-273 | Two items share a key exactly when they are the same thing by their own fields: links by both interfaces and the method, VLANs by device and VLAN, interfaces by device and name, devices by what they go by. Where the renderings tell the values apart and the separator is only in the last part. |
| SnapshotFields.DeviceKeyIs | backend/src/netatlas/domain/services/__init__.py:265-266 | A device goes by its serial number, else its address, else its hostname, else its whole text. |
| SnapshotFields.NormalizeTellsFields | backend/src/netatlas/domain/services/__init__.py:276-277 | Normal forms differ exactly when some field is in one item only or differs. |
| SnapshotFields.AddedIff | backend/src/netatlas/domain/services/__init__.py:246-248 | The last item of a thing on the right is added exactly when the left has no item of the same thing. |
| SnapshotFields.RemovedIff | backend/src/netatlas/domain/services/__init__.py:258-260 | The last item of a thing on the left is removed exactly when the right has no item of the same thing. |
| SnapshotFields.ChangedIff | backend/src/netatlas/domain/services/__init__.py:249-257 | Two last items are a change exactly when they are the same thing and some field differs. |
| SnapshotFields.EveryEntryIsAnItem | backend/src/netatlas/domain/services/__init__.py:246-260 | Every added entry is an item of the right and every removed one an item of the left, under its own key. |
| SnapshotFields.EveryChangeIsOfItems | backend/src/netatlas/domain/services/__init__.py:249-257 | Every change is of an item of the left and one of the right under one key. |
| SnapshotFields.SectionInOrder | backend/src/netatlas/domain/services/__init__.py:243-260 | Within a section the lists follow the order in which the keys first come, on the right for added and changed, on the left for removed. |
| SnapshotFields.ReportIsBySection | backend/src/netatlas/domain/services/__init__.py:243-261 | The report is that of the devices, then of the links, the VLANs and the interfaces. |
| SnapshotFields.ItemsAre | backend/src/netatlas/domain/services/__init__.py:244-245 | A section that is missing counts as empty. |
| MetricRates.BuildMetricSeries | backend/src/netatlas/infrastructure/observability/metrics_history.py:49-134 | The loop with carried state computes the aggregate and per-interface rate series; the outbound aggregate is filled only when the inbound one is asked for too. |
| MetricRates.RoundingError | backend/src/netatlas/infrastructure/observability/metrics_history.py:92-94 | Rounding to two decimals, ties to even, is off by at most 0.005 and keeps non-negative rates non-negative. |
| MetricRates.RoundEvenIs | backend/src/netatlas/infrastructure/observability/metrics_history.py:92-94 | Rounding takes the nearest value, and the even one of two equally near. |
| MetricRates.RatesAreOrdered | backend/src/netatlas/infrastructure/observability/metrics_history.py:80-94 | Every aggregate rate is non-negative, and the points are strictly in time order over rows in time order. |
| MetricRates.PortRatesAreOrdered | backend/src/netatlas/infrastructure/observability/metrics_history.py:97-130 | Every rate of every interface is non-negative, and its points are in time order over rows in time order. |
| MetricRates.DeltasSplit | backend/src/netatlas/infrastructure/observability/metrics_history.py:80-94 | The intervals of two stretches of rows that share a row are those of the one, then those of the other. |
| MetricRates.ResetCostsOneInterval | backend/src/netatlas/infrastructure/observability/metrics_history.py:89-92 | An inbound total that drops removes the point of that interval and no other. |
| CounterResets.OutResetCostsOneInterval | backend/src/netatlas/infrastructure/observability/metrics_history.py:89-94 | So for the outbound total and the outbound series. |
| CounterResets.PortResetCostsOneInterval | backend/src/netatlas/infrastructure/observability/metrics_history.py:119-130 | So for each interface, inbound and outbound, at a row that names it once: its series is the one up to the last reading before the drop, then the one from the drop on. |
| CounterResets.ReadingAppends | backend/src/netatlas/infrastructure/observability/metrics_history.py:97-130 | A row that names an interface once appends the rates since the row before, from the last counters seen, the outbound one only when both inbound counters are there. |
| CounterResets.SilenceAppendsNothing | backend/src/netatlas/infrastructure/observability/metrics_history.py:97-130 | A row that does not name an interface leaves its series and its last counters. |
| CounterResets.GapShortensInterval | backend/src/netatlas/infrastructure/observability/metrics_history.py:119-131 | When a row leaves an interface out, the next rate spreads the whole movement since its last reading over the time since that row. |
| CounterResets.SeriesAreOfNames | backend/src/netatlas/infrastructure/observability/metrics_history.py:97-104 | The interfaces that have series are those that some row names, the empty name aside. |
| MetricRates.DeltasTelescope | backend/src/netatlas/infrastructure/observability/metrics_history.py:80-92 | When every row has a total, times increase and the total never drops, there is a point per pair of rows and the intervals add up to last minus first. |
| MetricRates.RatesTelescope | backend/src/netatlas/infrastructure/observability/metrics_history.py:80-92 | Then the sum of rate times interval over 8 differs from last minus first by at most 0.005*T/8. |
| MetricRates.OutRatesTelescope | backend/src/netatlas/infrastructure/observability/metrics_history.py:80-94 | So for the outbound rates, when times increase, every row has both totals and the outbound one never drops, even where the inbound one does. |
| MetricRates.StoredSumsTelescope | backend/src/netatlas/infrastructure/observability/metrics_history.py:66-94 | Over rows that carry both stored sums, the rates of each direction account for the last of its stored sums less the first, whatever the counters in the rows say. |
| MetricRates.RecomputedSumsTelescope | backend/src/netatlas/infrastructure/observability/metrics_history.py:68-73 | Over rows that lack either sum but have counters, they account for the sums over the counters. |
| MetricRates.InboundSumsTelescope | backend/src/netatlas/infrastructure/observability/metrics_history.py:66-92 | Over rows without counters, the inbound rates account for the inbound sum, whether the outbound one is there or not. |
| MetricRates.SumsSplit | backend/src/netatlas/infrastructure/observability/metrics_history.py:72-73 | The sums run over all counters, a missing one counting as zero. |
| MetricRates.MissingOutboundReadsZero | backend/src/netatlas/infrastructure/observability/metrics_history.py:90-94 | Where an outbound sum is missing, the outbound rate reads zero. |
| RateAgreement.SameNamesSameSum | backend/src/netatlas/infrastructure/observability/metrics_history.py:69-73 | A sum over the same distinct names does not depend on the order in which rows list them. |
| RateAgreement.BucketIsPerInterval | backend/src/netatlas/infrastructure/observability/metrics_history.py:97-130 | Over rows that all report the same distinctly named, non-decreasing counters, each interface has one interval per pair of rows, with its own movement. |
| RateAgreement.AggregateIsPerInterval | backend/src/netatlas/infrastructure/observability/metrics_history.py:66-92 | Over such rows the aggregate has one interval per pair of rows, with the movement of the sum. |
| RateAgreement.AggregateAgrees | backend/src/netatlas/infrastructure/observability/metrics_history.py:66-134 | Over such rows with n interfaces, the aggregate rate at each row is the sum of the interface rates within 0.005*(n+1). |
| OutboundAgreement.OutboundIsInboundTurned | backend/src/netatlas/infrastructure/observability/metrics_history.py:119-130 | When every reading counts inbound octets, the outbound series of an interface is its inbound series over the rows with the two directions exchanged. |
| OutboundAgreement.OutboundAgrees | backend/src/netatlas/infrastructure/observability/metrics_history.py:66-134 | The aggregate outbound rate agrees with the interfaces in the same way, over rows that are uniform in what was sent and count what was received, even where an inbound counter drops. |
| LoginLimiter.LoginRateLimiter.Dispatch | backend/src/netatlas/api/middleware/__init__.py:33-47 | On any clock a login is answered as the queue of its own address alone would; with a non-decreasing clock it goes through exactly when fewer than the limit of all logins ever accepted from its address lie in the last 60 seconds; anything that is not a login always goes through and changes nothing. |
| LoginLimiter.LoginsAre | backend/src/netatlas/api/middleware/__init__.py:34 | Exactly the POST requests to a path that ends in /auth/login count. |
| LoginLimiter.ShareQueueIff | backend/src/netatlas/api/middleware/__init__.py:35 | Two requests share a queue exactly when they have the same client address, unknown standing for none. |
| LoginLimiter.QueueIsRecentHistory | backend/src/netatlas/api/middleware/__init__.py:37-46 | The queue is always a tail of the accepted history, and all before it is out of the window. |
| LoginLimiter.AnswersAsFullHistory | backend/src/netatlas/api/middleware/__init__.py:38-46 | The evicting queue answers as counting over the whole accepted history would. |
| LoginLimiter.WindowBoundWithoutComingBack | backend/src/netatlas/api/middleware/__init__.py:33-47 | If no reading runs more than 60 seconds past an earlier one and a later reading is then back within 60 seconds of that, every closed 60-second window holds at most the limit of accepted logins, for every limit. |
| LoginLimiter.ComingBackBreaksBound | backend/src/netatlas/api/middleware/__init__.py:38-46 | From any clock that does come back, two logins at the first reading and one at each of the other two all pass a limit of two, three of them in one window. |
| LoginLimiter.BoundHoldsIff | backend/src/netatlas/api/middleware/__init__.py:33-47 | The window bound holds for all logins drawn from a clock, all limits and all windows exactly when the clock never comes back in this way. |
| LoginLimiter.WindowHoldsAtMostLimit | backend/src/netatlas/api/middleware/__init__.py:33-47 | So with a non-decreasing clock any closed 60-second window holds at most the limit of accepted logins of one address. |
| LoginLimiter.AnswersHoldIff | backend/src/netatlas/api/middleware/__init__.py:38-46 | The limiter answers as counting the whole accepted history would, for all logins and limits, exactly on clocks that never step back. |
| LoginLimiter.AddressesAreIndependent | backend/src/netatlas/api/middleware/__init__.py:31-37 | The queue of an address depends on its own logins only, whatever other addresses do. |
| SyslogFraming.LinesSplit | backend/src/netatlas/infrastructure/observability/syslog_server.py:62-64 | The lines of a stream cut anywhere are those of the first part, then those of its unterminated tail joined to the rest. |
| SyslogFraming.Drain | backend/src/netatlas/infrastructure/observability/syslog_server.py:63-68 | The inner loop hands on the non-empty stripped lines in order, leaves the unterminated tail, and stops at the hand-over that raises. |
| SyslogFraming.HandleStreamClient | backend/src/netatlas/infrastructure/observability/syslog_server.py:55-70 | However the stream is cut into reads, what is handed on is the messages of the bytes received up to the first empty read, or their prefix up to the hand-over that raises. |
| SyslogFraming.FramingRoundTrip | backend/src/netatlas/infrastructure/observability/syslog_server.py:63-67 | Lines without newlines, written with a newline each, come back exactly, and an unterminated rest is dropped. |
| SyslogFraming.StreamIsFramedLines | backend/src/netatlas/infrastructure/observability/syslog_server.py:63-64 | Every stream is its lines, framed, followed by its tail; no line and no tail holds a newline. |
| SyslogFraming.OneLineOneMessage | backend/src/netatlas/infrastructure/observability/syslog_server.py:66-70 | A line gives its decoded text, without NUL and CR at either end, as a message, or none when nothing is left. |
| SyslogFraming.AttemptedIsPrefix | backend/src/netatlas/infrastructure/observability/syslog_server.py:64-72 | What is handed on is all messages, or those up to and with the one whose ingestion raises. |
| DiscoveryRun.ExpandTargets | backend/src/netatlas/application/use_cases/discovery.py:463-482 | The targets are exactly the addresses of the enabled, valid seeds, none twice. |
| DiscoveryRun.MoreSeedsAddTargets | backend/src/netatlas/application/use_cases/discovery.py:463-482 | Targets keep the order of the seeds: more seeds only add targets at the end. |
| DiscoveryRun.HostsOfSeed | backend/src/netatlas/application/use_cases/discovery.py:465-474 | A seed gives its addresses in order when it is enabled and valid, and none otherwise. |
| DiscoveryRun.DiscoveryOrchestrator.VisitTarget | backend/src/netatlas/application/use_cases/discovery.py:221-431 | One target’s effect on the job, the stored records and the log, on every success and failure path. |
| DiscoveryRun.DiscoveryOrchestrator.RunJob | backend/src/netatlas/application/use_cases/discovery.py:182-461 | The run, with its early returns and its two exception handlers, has the effect of the whole-run function about which the lemmas below speak; the exception is passed on exactly when the job ends failed. |
| DiscoveryRun.EveryRecordIsOrdered | backend/src/netatlas/application/use_cases/discovery.py:194-231 | Every stats record a run writes satisfies inventoried <= alive <= scanned <= targets, whatever fails, is rolled back and is reloaded, for callers that commit every update or never roll back. |
| DiscoveryRun.UncommittedRollbackBreaksOrder | backend/src/netatlas/application/use_cases/discovery.py:415-431 | A caller that rolls back without committing breaks that: two targets suffice. |
| DiscoveryRun.OrderedIffRecoverable | backend/src/netatlas/application/use_cases/discovery.py:408-431 | All records of all runs are ordered exactly when the caller commits every update or never rolls back. The worker does commit. |
| DiscoveryRun.FinalCountsAreExact | backend/src/netatlas/application/use_cases/discovery.py:194-221 | When every update is committed or none undone, the final counters are exact: stored devices, failures and links count once each; targets that answered and unknown devices count unless the visit failed and reloaded the job; and scanned is the number of targets visited, or of the last one written and not undone when the last visit ended in a reload. |
| DiscoveryRun.RecordsAreCounted | backend/src/netatlas/application/use_cases/discovery.py:194-225 | A run writes one record at its start, one with the targets, one for each target but silent ones whose number is no multiple of 25, and one at its end that holds the final counters. |
| DiscoveryRun.VisitsProbe | backend/src/netatlas/application/use_cases/discovery.py:211-223 | The targets are probed in order up to the first whose cancel check sees the flag. |
| DiscoveryRun.CancelStopsProbing | backend/src/netatlas/application/use_cases/discovery.py:211-219 | If the check before a target sees the flag, neither that target nor a later one is probed, and the run ends cancelled. |
| DiscoveryRun.EveryRunEnds | backend/src/netatlas/application/use_cases/discovery.py:433-461 | Every run of a job that is not cancelled ends completed, cancelled or failed with its end time set and stored; a snapshot is stored exactly when it ends completed. |
| DiscoveryRun.CancelledJobIsNotRun | backend/src/netatlas/application/use_cases/discovery.py:186-190 | A job that is cancelled already gets an end time and one record, and nothing is probed. |
| DiscoveryRun.NothingCommittedWithoutCallback | backend/src/netatlas/application/use_cases/discovery.py:194-210 | Without a progress callback the run commits nothing. |
| DiscoveryRun.EndIsDecidedBy | backend/src/netatlas/application/use_cases/discovery.py:433-461 | Which of the three it is: cancelled if a check saw the flag, completed if nothing outside the targets failed, and otherwise failed or cancelled as the handler’s own check decides. |
| JobControl.JobDesk.CancelJob | backend/src/netatlas/api/routes/ops.py:247-275 | Accepted exactly for pending and running jobs; the job is then cancelled, flagged and has its end time. A refusal changes nothing. |
| JobControl.JobDesk.RetryJob | backend/src/netatlas/api/routes/ops.py:279-306 | Refused exactly for running jobs; otherwise the job waits again with empty stats, no end time and no flag. |
| JobControl.CancelInVisitIsSeenIff | backend/src/netatlas/application/use_cases/discovery.py:211-231 | A cancel that arrives while a target is visited is seen by the next check exactly when the session writes changed columns only, or the visit writes no update, or it reloads the job. |
| JobControl.CancelHoldsIff | backend/src/netatlas/infrastructure/persistence/repositories/__init__.py:638-648 | Through any history of operator requests and worker steps, a cancelled job stays cancelled exactly when no event overrides it (a retry, an update that writes the run’s own status, or a snapshot already under way); the worker then at most finishes the target it is at and stores no snapshot. |
| JobControl.SoundIffNeverBroken | backend/src/netatlas/application/use_cases/discovery.py:186-196 | Through any history a job has an end time exactly when it has ended, and carries the flag only when it has ended, exactly when no event of it is one of two: a start of a completed or failed job, or a changed-columns update that writes a status back onto a row ended since the operator retried the job under the worker. |
| JobControl.StuckMovesIff | backend/src/netatlas/api/routes/ops.py:290-291 | A job left running by a dead worker moves exactly when the operator cancels it or a worker is given it again; a retry is refused. |
| JobControl.StuckUntilMoved | backend/src/netatlas/api/routes/ops.py:290-291 | Until then no history changes anything of it. |
| JobControl.WholeRunIsPlayed | backend/src/netatlas/application/use_cases/discovery.py:182-461 | Every run as DiscoveryRun describes it is a history of these steps, with the operator’s cancels where the run sees them: same row, records, probes and snapshots. |
| JobControl.CancelDuringOnlyTarget | backend/src/netatlas/infrastructure/persistence/repositories/__init__.py:638-648 | A cancel during the only target: with whole-row updates it is lost and the job completes without a retry; with changed columns it is kept. |
| JobControl.SecondDeliveryLeavesEndTime | backend/src/netatlas/application/use_cases/discovery.py:192-196 | A completed job delivered again to a worker that dies is left running with its end time set. |
| Triggers.TriggerEngine.ApplyState | backend/src/netatlas/infrastructure/observability/trigger_engine.py:210-244 | The trigger takes the verdict’s status and value; an event is recorded exactly when the status changes, and it is the one returned. |
| Triggers.TriggerEngine.EvaluateAll | backend/src/netatlas/infrastructure/observability/trigger_engine.py:32-48 | A pass evaluates the enabled triggers, and its problem and recovery counters are the numbers of events this pass recorded. |
| Triggers.TriggerEngine.EvaluateSyslogEvent | backend/src/netatlas/infrastructure/observability/trigger_engine.py:50-80 | A syslog event raises exactly the enabled syslog triggers whose filters it passes; the message is searched ignoring case, the source address with case. |
| Triggers.EventsAlternate | backend/src/netatlas/infrastructure/observability/trigger_engine.py:210-244 | Over any interleaving of passes and syslog events, the events of each trigger strictly alternate, the first differs from its initial status, and its status is that of its last event. |
| Triggers.ChainedAlternates | backend/src/netatlas/infrastructure/observability/trigger_engine.py:217-233 | Neighbouring events of such a history are of different kinds. |
| Triggers.PassIsPointwise | backend/src/netatlas/infrastructure/observability/trigger_engine.py:38-47 | A pass does to each trigger what evaluating it alone does. |
| Triggers.PassBringsTo | backend/src/netatlas/infrastructure/observability/trigger_engine.py:32-47 | A pass leaves disabled triggers alone, brings those of unknown kind to ok without a value, sampled ones to what their samples say, and leaves syslog ones a problem exactly when they were; each change is recorded once, with value and previous status. |
| Triggers.EventBringsTo | backend/src/netatlas/infrastructure/observability/trigger_engine.py:49-77 | A syslog event brings the enabled syslog triggers whose filters let it through to problem with the first 500 characters of the message, and leaves all others. |
| Triggers.FiltersOf | backend/src/netatlas/infrastructure/observability/trigger_engine.py:58-71 | A message passes a rule exactly when it passes each of its filters, and what each filter asks: same device unless either is missing, same category, patterns found in the message and in the source address. |
| Triggers.EnabledCountCounts | backend/src/netatlas/infrastructure/observability/trigger_engine.py:32-47 | The number of triggers evaluated is that of the enabled ones. |
| Triggers.PassLeavesSyslogTriggers | backend/src/netatlas/infrastructure/observability/trigger_engine.py:92-94 | A pass leaves an enabled syslog trigger unchanged, with no event, exactly when its status is ok or problem. |
| Triggers.SyslogTriggerLatches | backend/src/netatlas/infrastructure/observability/trigger_engine.py:50-95 | A syslog trigger that starts in ok records exactly one PROBLEM if some message matched, none otherwise, and never an OK. |
| Triggers.EmergenciesAreFilteredOut | backend/src/netatlas/infrastructure/observability/trigger_engine.py:61-73 | For every rule and message: it passes exactly when its other filters and the severity let it through and it is not an emergency under a minimum of 0 to 6 (severity 0 counts as 7); so a rule differs from what its filters ask exactly on emergencies that all its other filters let through. |
| Dedupe.Distinct | backend/src/netatlas/infrastructure/security/credential_resolver.py:32-40 | The loop with a seen-set keeps the first entry of every key, in order. |
| Dedupe.KeptOncePerKey | backend/src/netatlas/infrastructure/security/credential_resolver.py:32-40 | No key is kept twice and no key is lost. |
| Dedupe.KeptComesFirst | backend/src/netatlas/infrastructure/security/credential_resolver.py:43-63 | What is kept of a list comes first in what is kept of any longer one. |
| Credentials.ProbeCandidates | backend/src/netatlas/workers/celery_app.py:179-211 | The winner is the first candidate the host answers, with the labels of exactly those tried; nothing is tried without the library. |
| Credentials.MergeCandidates | backend/src/netatlas/workers/celery_app.py:158-176 | The merged list has each key once, loses no key, and starts with the device’s own candidates. |
| Credentials.SameKeyIff | backend/src/netatlas/workers/celery_app.py:166-171 | Two candidates are one when versions agree (none and 0 as 2), communities agree up to case, and usernames agree; keys and profiles do not matter. |
| Credentials.QueryIs | backend/src/netatlas/workers/celery_app.py:195-211 | Probing sends and labels the candidate with its own fields, version 2 for none and public for a missing or empty community. |
| Credentials.MergeKeepsWinnerIff | backend/src/netatlas/workers/celery_app.py:158-211 | Probing the merged list finds the winner of the full list exactly when no earlier candidate has the winner’s key. |
| Credentials.MergeIsSafeIff | backend/src/netatlas/workers/celery_app.py:158-211 | Merging keeps the winner on every host exactly for lists in which a repeated key never hides a query that no earlier candidate sends. |
| Credentials.KeyOnlyHostsKeepWinner | backend/src/netatlas/workers/celery_app.py:158-211 | It keeps the winner on every host whose answer depends only on version, lowered community and username. |
| Credentials.CaseOnlyDifferenceLosesHost | backend/src/netatlas/workers/celery_app.py:168-172 | Communities that differ in case only lose a host that answers the second. |
| Credentials.MergeProfilePayload | backend/src/netatlas/infrastructure/security/credential_resolver.py:85-108 | One profile merged into the bag: it sets the keys its protocol stands for, and those parts an ideco payload brings along, and leaves all others. |
| Credentials.SecretsByProtocol | backend/src/netatlas/infrastructure/security/credential_resolver.py:85-108 | Which keys a protocol sets: snmp for every SNMP one, vsphere and esxi for either, ideco with the parts it brings, and itself for any other. |
| Credentials.LastProfileWins | backend/src/netatlas/infrastructure/security/credential_resolver.py:158-171 | Of several profiles with a secret for one key, the last one in order wins. |
| Credentials.LoadProfileCandidates | backend/src/netatlas/infrastructure/security/credential_resolver.py:133-184 | One candidate per stored SNMP profile in the order of the given identifiers, each once, with the version its protocol implies and the public community appended if missing; the other profiles are merged, in the same order, into the bag over which each candidate is laid. |
| Credentials.CandidateOfProfile | backend/src/netatlas/infrastructure/security/credential_resolver.py:164-171 | An SNMP profile gives one candidate: its payload, with version 3 for snmpv3 and 2 for others if it has none. |
| Credentials.CandidatesSplit | backend/src/netatlas/infrastructure/security/credential_resolver.py:158-173 | The candidates of a list are those of its parts in order. |
| Credentials.DefaultAddsPublic | backend/src/netatlas/infrastructure/security/credential_resolver.py:174-184 | The public community is appended exactly when asked for and no candidate has it in any case of letters. |
| Credentials.SeedProfilesComeFirst | backend/src/netatlas/infrastructure/security/credential_resolver.py:43-63 | The candidates of the seeds’ profiles come first, whatever global profiles follow. |
| Credentials.PublicIsTriedOnce | backend/src/netatlas/infrastructure/security/credential_resolver.py:173-183 | With the default asked for, the public community is always among the candidates, and when it is appended it is last and no other candidate has it. |
| Credentials.Fingerprint | backend/src/netatlas/application/use_cases/discovery.py:497-530 | The first candidate that identifies the host gives the description, the credentials to go on with and the profile; with none, the caller’s own credentials stay, and are the ones asked when there are no candidates at all. |
| Credentials.IdentifiesIff | backend/src/netatlas/application/use_cases/discovery.py:513-518 | A candidate identifies a host exactly when it has some SNMP data and the host answers its query with a description. |
| Credentials.RotationAgreesWithProbing | backend/src/netatlas/application/use_cases/discovery.py:514-526 | When no candidate is empty or has an empty community, fingerprinting and probing find the same winner, or neither finds one. |
| Layout.SortIsStableByName | backend/src/netatlas/domain/services/intelligence.py:250-251 | Sorting a layer orders it by name, keeps every device, and keeps devices of equal name in their order. |
| Layout.LayerHolds | backend/src/netatlas/domain/services/intelligence.py:245-251 | A layer holds exactly the devices of its rank, each once, in name order. |
| Layout.Assign | backend/src/netatlas/domain/services/intelligence.py:231-271 | Every known device, and no other, gets its rank, its place in the layer of that rank, its degree and its clustering hint. |
| Layout.FieldsDecide | backend/src/netatlas/domain/services/intelligence.py:238-259 | The layer is the network role, else the role, else unknown; the sorting name is the hostname, else the identifier, in lower case; of repeated identifiers the last device counts. |
| Layout.LayerDecidesRank | backend/src/netatlas/domain/services/intelligence.py:240-241 | The rank follows from the layer in lower case, 5 for any other; devices of the two last ranks with at most one edge end collapse. |
| Layout.DegreeCountsEnds | backend/src/netatlas/domain/services/intelligence.py:263-268 | The degree is the number of edges that start at the device plus those that end there. |
| Layout.AtMostIsLexicographic | backend/src/netatlas/domain/services/intelligence.py:250-251 | Names compare by their first differing character, a prefix first. |
| Layout.IdsKeepOrder | backend/src/netatlas/domain/services/intelligence.py:237 | Devices come in the order in which their identifiers first occur. |
| Layout.SlotsAreUnique | backend/src/netatlas/domain/services/intelligence.py:253-262 | No two devices share a rank and column. |
| Layout.ColumnsAreFilled | backend/src/netatlas/domain/services/intelligence.py:254-262 | The columns taken in a layer are exactly 0 to one less than its size. |
| Layout.ColumnsFollowNames | backend/src/netatlas/domain/services/intelligence.py:250-251 | Within a layer, columns follow the names. |
| Layout.LayoutConservesEdgeEnds | backend/src/netatlas/domain/services/intelligence.py:263-270 | The degrees add up to the edge ends at known devices, and to twice the edges exactly when all ends are known. |

## Left out

- Collectors, transports (SNMP, SSH, HTTP, ICMP), CLI parsing, plugins and exporters: network input and text heuristics.
- Web routing beyond the two job requests, task queue, authentication, vault, RBAC, notification, connectors, frontend.
- Link health scoring, role detection, progress figures, message categories, OUI lookup and media guessing: threshold tables.
- Neighbours guessed from FDB and ARP tables, and the writers of FDB, ARP, VLAN, route and neighbour tables.
- Path to the core, clustering beyond the hint, and the snapshot checksum: canonical JSON is equality of fields.
- ORM change detection on the stats dictionary, which the source mutates after handing it over: each update counts as writing the stats it is given. Which other columns an update writes is an input of JobControl.
- Two workers on one job at the same time.
- A job that does not exist (`run` raises), start times, error texts and dispatch details of a job.
- Timestamps of devices and links (first seen, last seen, last confirmed), and the row order of listings.
- Link columns that only hold telemetry, and interface attributes other than tagged VLANs.
- Column length limits, case folding and white space outside ASCII.
- The map's edge labels and the data dictionaries of nodes and edges.
- Gauge, error, discard and status series, and counters that are not integers. A counter comes with its label (name, else index, without surrounding white space); reading the label off a record is not modelled.
- Regular expressions that do not compile, texts of trigger messages, and the samples behind the five sampled trigger kinds.
- The bounded queue of the UDP syslog receiver.
- Encryption of profiles, the single merged bag of `load_profiles`, and an SNMP version that is present but null.
- CounterResets.PortResetCostsOneInterval: only for a row that names the interface once; a row that names it twice compares the two readings with each other.
- RateAgreement.AggregateAgrees: only for rows that all report the same distinctly named interfaces; across rows in which an interface is missing its next rate is computed over a shorter interval, so there is no agreement to state.
- DiscoveryRun.EveryRunEnds: assumes that reading and writing the job itself never fails; a failing store leaves the job as last written.
- SnapshotDiff.DiffExplains: keys of different types are different keys, although a dictionary takes 1, 1.0 and true for one key; no snapshot the program writes has such keys.
- SnapshotFields.SameKeyIff: for renderings that tell the values apart; Python shows a missing value and the text None alike, and such items share a key.
- SnapshotDiff.SwapInvertsChanges: compares the changes as a set; their order follows the right-hand snapshot and so differs after swapping.
