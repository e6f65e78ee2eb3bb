/** SNMP credential rotation: which candidates are tried, in which order, and which one wins. */
module Credentials {
  import opened Common
  import opened Dedupe
  import DeviceIdentity

  // ---------------------------------------------------------------- candidates and hosts

  /** The SNMP part of a credential bag; None for an entry that is not there. */
  datatype Snmp = Snmp(
    version: Option<int>, community: Option<string>, username: Option<string>, authKey: Option<string>,
    privKey: Option<string>)

  datatype Candidate = Candidate(snmp: Snmp, profile: Option<nat>)

  /** What two candidates are compared by when lists are merged. */
  datatype Key = Key(version: int, community: string, username: string)

  /** What is sent to a host. */
  datatype Query = Query(
    version: int, community: string, username: Option<string>, authKey: Option<string>, privKey: Option<string>)

  /** A host: the system description it gives to each query it answers. */
  datatype Host = Host(answers: map<Query, string>)

  datatype Label = Label(version: int, name: string)

  function KeyOf(candidate: Candidate): Key {
    var snmp := candidate.snmp;
    Key(if snmp.version == None || snmp.version == Some(0) then 2 else snmp.version.value,
        DeviceIdentity.Lower(OrElse(snmp.community, "")),
        OrElse(snmp.username, ""))
  }

  function QueryOf(candidate: Candidate): Query {
    var snmp := candidate.snmp;
    Query(if snmp.version.Some? then snmp.version.value else 2, OrElse(snmp.community, "public"),
          snmp.username, snmp.authKey, snmp.privKey)
  }

  function LabelOf(candidate: Candidate): Label {
    var query := QueryOf(candidate);
    Label(query.version, OrElse(candidate.snmp.username, query.community))
  }

  function Answer(host: Host, candidate: Candidate): string {
    if QueryOf(candidate) in host.answers then host.answers[QueryOf(candidate)] else ""
  }

  predicate Hits(host: Host, candidate: Candidate) { Answer(host, candidate) != "" }

  /** The texts are the same up to the case of ASCII letters. */
  predicate SameUpToCase(a: string, b: string) { DeviceIdentity.Lower(a) == DeviceIdentity.Lower(b) }

  predicate SameText(a: Option<string>, b: Option<string>) {
    a == b || (a in {None, Some("")} && b in {None, Some("")})
  }

  predicate SameVersion(a: Option<int>, b: Option<int>) {
    a == b || (a in {None, Some(0), Some(2)} && b in {None, Some(0), Some(2)})
  }

  /**
   * Two candidates are one when their versions agree, nothing and zero standing for 2; their communities agree up to
   * case; and their usernames agree, an empty text standing for none. Keys and profiles do not matter.
   */
  lemma SameKeyIff(c: Candidate, d: Candidate)
    ensures KeyOf(c) == KeyOf(d)
            <==> && SameVersion(c.snmp.version, d.snmp.version)
                 && SameUpToCase(OrElse(c.snmp.community, ""), OrElse(d.snmp.community, ""))
                 && SameText(c.snmp.username, d.snmp.username)
  {
  }

  /** Probing sends the candidate's own fields, version 2 for a missing version, "public" for a missing or empty community. */
  lemma QueryIs(c: Candidate)
    ensures var q := QueryOf(c);
            && (c.snmp.version.Some? ==> c.snmp.version == Some(q.version)) && (c.snmp.version.None? ==> q.version == 2)
            && (c.snmp.community in {None, Some("")} ==> q.community == "public")
            && (c.snmp.community !in {None, Some("")} ==> c.snmp.community == Some(q.community))
            && q.username == c.snmp.username && q.authKey == c.snmp.authKey && q.privKey == c.snmp.privKey
            && LabelOf(c).version == q.version
            && (c.snmp.username in {None, Some("")} ==> LabelOf(c).name == q.community)
            && (c.snmp.username !in {None, Some("")} ==> c.snmp.username == Some(LabelOf(c).name))
  {
  }

  /** Position of the first candidate the host answers, or the length when there is none. */
  function FirstHit(candidates: seq<Candidate>, host: Host): (k: nat)
    ensures k <= |candidates| && (k < |candidates| ==> Hits(host, candidates[k]))
    ensures forall i :: 0 <= i < k ==> !Hits(host, candidates[i])
  {
    if candidates == [] || Hits(host, candidates[0]) then 0 else 1 + FirstHit(candidates[1..], host)
  }

  function Winner(candidates: seq<Candidate>, host: Host): Option<Candidate> {
    var k := FirstHit(candidates, host);
    if k < |candidates| then Some(candidates[k]) else None
  }

  lemma FirstHitIs(candidates: seq<Candidate>, host: Host, k: nat)
    requires k <= |candidates| && (k < |candidates| ==> Hits(host, candidates[k]))
    requires forall i :: 0 <= i < k ==> !Hits(host, candidates[i])
    ensures FirstHit(candidates, host) == k
  {
  }

  // ---------------------------------------------------------------- probing

  function Labels(candidates: seq<Candidate>): seq<Label> {
    if candidates == [] then []
    else Labels(candidates[..|candidates| - 1]) + [LabelOf(candidates[|candidates| - 1])]
  }

  /** Tries the candidates in order until the host answers one. */
  method ProbeCandidates(candidates: seq<Candidate>, host: Host,
                         libraryProblem: Option<string>, lastError: Option<string>)
    returns (winner: Option<Candidate>, description: Option<string>, tried: seq<Label>, error: Option<string>)
    ensures libraryProblem.Some? ==> winner == None && description == None && tried == [] && error == libraryProblem
    ensures libraryProblem.None? ==>
              var k := FirstHit(candidates, host);
              && winner == Winner(candidates, host)
              && if k < |candidates| then
                   && tried == Labels(candidates[..k + 1]) && error == None
                   && description == Some(Shortened(Answer(host, candidates[k])))
                 else
                   tried == Labels(candidates) && error == lastError && description == None
  {
    if libraryProblem.Some? { return None, None, [], libraryProblem; }
    tried := [];
    var i := 0;
    while i < |candidates|
      invariant i <= |candidates| && tried == Labels(candidates[..i])
      invariant forall j :: 0 <= j < i ==> !Hits(host, candidates[j])
    {
      assert candidates[..i + 1][..i] == candidates[..i];
      tried := tried + [LabelOf(candidates[i])];
      var probe := Answer(host, candidates[i]);
      if probe != "" {
        FirstHitIs(candidates, host, i);
        return Some(candidates[i]), Some(Shortened(probe)), tried, None;
      }
      i := i + 1;
    }
    FirstHitIs(candidates, host, i);
    assert candidates[..i] == candidates;
    return None, None, tried, lastError;
  }

  // ---------------------------------------------------------------- merging

  /** Device links first, then global profiles, each key once. */
  method MergeCandidates(primary: seq<Candidate>, extra: seq<Candidate>) returns (merged: seq<Candidate>)
    ensures merged == Merged(primary + extra)
    ensures DistinctKeys(merged, KeyOf) && KeepFirst(primary, KeyOf) <= merged
    ensures forall k :: Occurs(merged, KeyOf, k) <==> Occurs(primary + extra, KeyOf, k)
  {
    merged := Distinct(primary + extra, KeyOf);
    KeptOncePerKey(primary + extra, KeyOf);
    KeptComesFirst(primary, extra, KeyOf);
  }

  function Merged(candidates: seq<Candidate>): seq<Candidate> { KeepFirst(candidates, KeyOf) }

  /** Whether the candidate at `k` is left out because an earlier one has its key. */
  predicate DroppedAt(candidates: seq<Candidate>, k: nat)
    requires k < |candidates|
  {
    Occurs(candidates[..k], KeyOf, KeyOf(candidates[k]))
  }

  lemma WinnerOfSnoc(candidates: seq<Candidate>, last: Candidate, host: Host)
    ensures Winner(candidates + [last], host)
            == if Winner(candidates, host).Some? then Winner(candidates, host)
               else if Hits(host, last) then Some(last) else None
  {
    var k, all := FirstHit(candidates, host), candidates + [last];
    FirstHitIs(all, host, if k < |candidates| || Hits(host, last) then k else |all|);
  }

  /** The merged list finds the first hit that was not dropped. */
  lemma {:induction false} MergedWinnerIsKept(candidates: seq<Candidate>, host: Host)
    ensures var k := FirstHit(candidates, host);
            k < |candidates| && !DroppedAt(candidates, k) ==> Winner(Merged(candidates), host) == Some(candidates[k])
    ensures FirstHit(candidates, host) == |candidates| ==> Winner(Merged(candidates), host) == None
  {
    if candidates != [] {
      var init, last := candidates[..|candidates| - 1], candidates[|candidates| - 1];
      assert candidates == init + [last];
      MergedWinnerIsKept(init, host);
      WinnerOfSnoc(init, last, host);
      WinnerOfSnoc(Merged(init), last, host);
      var k := FirstHit(candidates, host);
      if k < |init| {
        FirstHitIs(init, host, k);
        assert init[..k] == candidates[..k];
      } else {
        FirstHitIs(init, host, |init|);
        assert k == |init| ==> candidates[..k] == init;
      }
    }
  }

  /** A candidate in the merged list was kept at its first occurrence. */
  lemma {:induction false} KeptAtFirstOccurrence(candidates: seq<Candidate>, k: nat)
    requires k < |candidates| && candidates[k] in Merged(candidates)
    requires forall i :: 0 <= i < k ==> candidates[i] != candidates[k]
    ensures !DroppedAt(candidates, k)
  {
    var n := |candidates| - 1;
    var init := candidates[..n];
    if k < n {
      assert KeyOf(init[k]) == KeyOf(candidates[k]);
      KeptAtFirstOccurrence(init, k);
      assert init[..k] == candidates[..k];
    } else {
      KeptAreFromList(init);
    }
  }

  lemma {:induction false} KeptAreFromList(candidates: seq<Candidate>)
    ensures forall c :: c in Merged(candidates) ==> c in candidates
  {
    if candidates != [] {
      var init, last := candidates[..|candidates| - 1], candidates[|candidates| - 1];
      KeptAreFromList(init);
      assert candidates == init + [last];
    }
  }

  /** Merging keeps the winner exactly when the winner's key did not occur before it. */
  lemma MergeKeepsWinnerIff(candidates: seq<Candidate>, host: Host)
    ensures var k := FirstHit(candidates, host);
            Winner(Merged(candidates), host) == Winner(candidates, host)
            <==> k == |candidates| || !DroppedAt(candidates, k)
  {
    var k := FirstHit(candidates, host);
    MergedWinnerIsKept(candidates, host);
    if k < |candidates| && candidates[k] in Merged(candidates) {
      KeptAtFirstOccurrence(candidates, k);
    }
  }

  /** Every candidate that merging drops sends a query that an earlier candidate sent. */
  ghost predicate DropsNothingNew(candidates: seq<Candidate>) {
    forall k :: 0 <= k < |candidates| && DroppedAt(candidates, k)
                ==> Occurs(candidates[..k], QueryOf, QueryOf(candidates[k]))
  }

  /**
   * Merging keeps the winner on every host exactly for lists in which a repeated key never hides a new query. Keys
   * lower the community and leave out the authentication and privacy keys, so not every list is like that.
   */
  lemma MergeIsSafeIff(candidates: seq<Candidate>)
    ensures (forall host: Host :: Winner(Merged(candidates), host) == Winner(candidates, host))
            <==> DropsNothingNew(candidates)
  {
    if DropsNothingNew(candidates) {
      forall host: Host ensures Winner(Merged(candidates), host) == Winner(candidates, host) {
        MergeKeepsWinnerIff(candidates, host);
      }
    } else {
      var k :| 0 <= k < |candidates| && DroppedAt(candidates, k)
               && !Occurs(candidates[..k], QueryOf, QueryOf(candidates[k]));
      var host := Host(map[QueryOf(candidates[k]) := "up"]);
      forall i | 0 <= i < k ensures !Hits(host, candidates[i]) {
        assert QueryOf(candidates[..k][i]) != QueryOf(candidates[k]);
      }
      FirstHitIs(candidates, host, k);
      MergeKeepsWinnerIff(candidates, host);
    }
  }

  /** A host whose answer depends only on version, lowered community and username never loses its winner. */
  lemma KeyOnlyHostsKeepWinner(candidates: seq<Candidate>, host: Host)
    requires forall i, j :: 0 <= i < j < |candidates| && KeyOf(candidates[i]) == KeyOf(candidates[j])
                            ==> Hits(host, candidates[i]) == Hits(host, candidates[j])
    ensures Winner(Merged(candidates), host) == Winner(candidates, host)
  {
    MergeKeepsWinnerIff(candidates, host);
  }

  function Community(name: string): Candidate { Candidate(Snmp(Some(2), Some(name), None, None, None), None) }

  lemma SameLowered()
    ensures DeviceIdentity.Lower("Public") == DeviceIdentity.Lower("public") && "Public" != "public"
  {
    var capital, small := "Public", "public";
    assert capital[0] != small[0] && capital[1..] == small[1..];
    forall i | 0 <= i < 6 ensures DeviceIdentity.LowerChar(capital[i]) == DeviceIdentity.LowerChar(small[i]) {
      assert i > 0 ==> capital[i] == capital[1..][i - 1] && small[i] == small[1..][i - 1];
    }
  }

  /** Of two candidates with one key, merging drops the second. */
  lemma SecondIsDropped(first: Candidate, second: Candidate)
    requires KeyOf(first) == KeyOf(second)
    ensures Merged([first, second]) == [first]
  {
    KeepFirstSnoc([], first, KeyOf);
    KeepFirstSnoc([first], second, KeyOf);
    assert [] + [first] == [first] && [first] + [second] == [first, second];
    assert KeyOf([first][0]) == KeyOf(second);
  }

  /** Communities that differ in case only: the host answers the second, which merging drops. */
  lemma CaseOnlyDifferenceLosesHost()
    ensures var candidates := [Community("Public"), Community("public")];
            var host := Host(map[QueryOf(Community("public")) := "up"]);
            Winner(candidates, host) == Some(Community("public")) && Winner(Merged(candidates), host) == None
  {
    var upper, lower := Community("Public"), Community("public");
    var host := Host(map[QueryOf(lower) := "up"]);
    SameLowered();
    SecondIsDropped(upper, lower);
    assert !Hits(host, upper) && Hits(host, lower);
    FirstHitIs([upper, lower], host, 1);
    FirstHitIs([upper], host, 1);
  }

  // ---------------------------------------------------------------- candidates from stored profiles

  /**
   * A stored profile: its SNMP payload and its whole payload once decrypted, and the SSH and SNMP parts that the payload
   * of an "ideco" profile may have.
   */
  datatype Profile = Profile(
    protocol: string, payload: Snmp, secret: string, sshPart: Option<string>, snmpPart: Option<string>)

  predicate IsSnmp(profile: Profile) { "snmp" <= profile.protocol }

  function Lookup(bag: map<string, string>, key: string): Option<string> {
    if key in bag then Some(bag[key]) else None
  }

  /** What a profile puts under a key of the credential bag. */
  function SecretFor(profile: Profile, key: string): Option<string> {
    if IsSnmp(profile) then if key == "snmp" then Some(profile.secret) else None
    else if profile.protocol == "ideco" && key == "ssh" then profile.sshPart
    else if profile.protocol == "ideco" && key == "snmp" then profile.snmpPart
    else if (profile.protocol == "esxi" || profile.protocol == "vsphere") && (key == "esxi" || key == "vsphere")
    then Some(profile.secret)
    else if key == profile.protocol then Some(profile.secret)
    else None
  }

  /** Every protocol sets the keys that stand for it and no others; an "ideco" profile also sets the parts it brings. */
  lemma SecretsByProtocol(profile: Profile, key: string)
    ensures IsSnmp(profile) <==> exists rest: string :: profile.protocol == "snmp" + rest
    ensures IsSnmp(profile) ==> SecretFor(profile, key) == if key == "snmp" then Some(profile.secret) else None
    ensures profile.protocol in {"esxi", "vsphere"} ==>
              SecretFor(profile, key) == if key in {"esxi", "vsphere"} then Some(profile.secret) else None
    ensures profile.protocol == "ideco" ==>
              SecretFor(profile, key) == match key
                                         case "ssh" => profile.sshPart
                                         case "snmp" => profile.snmpPart
                                         case "ideco" => Some(profile.secret)
                                         case _ => None
    ensures !IsSnmp(profile) && profile.protocol !in {"esxi", "vsphere", "ideco"} ==>
              SecretFor(profile, key) == if key == profile.protocol then Some(profile.secret) else None
  {
    var snmp, p := "snmp", profile.protocol;
    if IsSnmp(profile) { assert p == snmp + p[|snmp|..] && p[0] == 's' && p[1] == 'n'; }
    var esxi, vsphere, ideco := "esxi", "vsphere", "ideco";
    assert esxi[0] == 'e' && vsphere[0] == 'v' && ideco[0] == 'i';
  }

  /** Merges one profile into the bag. */
  method MergeProfilePayload(bag0: map<string, string>, profile: Profile) returns (bag: map<string, string>)
    ensures forall key ::
              Lookup(bag, key) == if SecretFor(profile, key).Some? then SecretFor(profile, key) else Lookup(bag0, key)
  {
    bag := bag0;
    if IsSnmp(profile) {
      bag := bag["snmp" := profile.secret];
    } else if profile.protocol == "esxi" || profile.protocol == "vsphere" {
      bag := bag["vsphere" := profile.secret];
      bag := bag["esxi" := profile.secret];
    } else if profile.protocol == "ideco" {
      if profile.sshPart.Some? { bag := bag["ssh" := profile.sshPart.value]; }
      if profile.snmpPart.Some? { bag := bag["snmp" := profile.snmpPart.value]; }
      bag := bag["ideco" := profile.secret];
    } else {
      bag := bag[profile.protocol := profile.secret];
    }
  }

  /** The secret under a key once all non-SNMP profiles are merged in order. */
  function LastSecret(ids: seq<nat>, profiles: map<nat, Profile>, key: string): Option<string> {
    if ids == [] then None
    else
      var id, before := ids[|ids| - 1], LastSecret(ids[..|ids| - 1], profiles, key);
      if id in profiles && !IsSnmp(profiles[id]) && SecretFor(profiles[id], key).Some?
      then SecretFor(profiles[id], key) else before
  }

  /** The last profile that has a secret for a key wins. */
  lemma {:induction false} LastProfileWins(ids: seq<nat>, profiles: map<nat, Profile>, key: string, k: nat)
    requires k < |ids| && ids[k] in profiles && !IsSnmp(profiles[ids[k]]) && SecretFor(profiles[ids[k]], key).Some?
    requires forall j :: k < j < |ids| && ids[j] in profiles && !IsSnmp(profiles[ids[j]]) ==>
               SecretFor(profiles[ids[j]], key) == None
    ensures LastSecret(ids, profiles, key) == SecretFor(profiles[ids[k]], key)
  {
    var n := |ids| - 1;
    if k < n {
      LastProfileWins(ids[..n], profiles, key, k);
    }
  }

  const PUBLIC := Candidate(Snmp(Some(2), Some("public"), None, None, None), None)

  /** A payload without a version gets the one its protocol implies. */
  function WithVersion(profile: Profile): Snmp {
    if profile.payload.version.Some? then profile.payload
    else profile.payload.(version := Some(if profile.protocol == "snmpv3" then 3 else 2))
  }

  /** One candidate per identifier of a stored SNMP profile. */
  function FromProfiles(ids: seq<nat>, profiles: map<nat, Profile>): seq<Candidate> {
    if ids == [] then []
    else
      var id := ids[|ids| - 1];
      FromProfiles(ids[..|ids| - 1], profiles)
      + if id in profiles && IsSnmp(profiles[id]) then [Candidate(WithVersion(profiles[id]), Some(id))] else []
  }

  /** An SNMP profile gives one candidate: its payload, with the version its protocol implies if it has none. */
  lemma CandidateOfProfile(id: nat, profiles: map<nat, Profile>)
    ensures id !in profiles || !IsSnmp(profiles[id]) ==> FromProfiles([id], profiles) == []
    ensures id in profiles && IsSnmp(profiles[id]) ==>
              var payload := profiles[id].payload;
              var version := if payload.version.Some? then payload.version
                             else if profiles[id].protocol == "snmpv3" then Some(3) else Some(2);
              FromProfiles([id], profiles) == [Candidate(payload.(version := version), Some(id))]
  {
    assert [id][..0] == [];
  }

  /** The candidates of a list are those of its first part, then those of the rest. */
  lemma {:induction false} CandidatesSplit(xs: seq<nat>, ys: seq<nat>, profiles: map<nat, Profile>)
    ensures FromProfiles(xs + ys, profiles) == FromProfiles(xs, profiles) + FromProfiles(ys, profiles)
  {
    if ys == [] {
      assert xs + ys == xs;
    } else {
      CandidatesSplit(xs, ys[..|ys| - 1], profiles);
      assert (xs + ys)[..|xs + ys| - 1] == xs + ys[..|ys| - 1];
    }
  }

  predicate IsPublic(candidate: Candidate) {
    DeviceIdentity.Lower(OrElse(candidate.snmp.community, "")) == "public"
  }

  predicate AnyPublic(candidates: seq<Candidate>) {
    exists i :: 0 <= i < |candidates| && IsPublic(candidates[i])
  }

  /** The candidates of the given profiles in order, each profile once, and the public community last if missing. */
  function ProfileCandidates(ids: seq<nat>, profiles: map<nat, Profile>, defaultSnmp: bool): seq<Candidate> {
    var found := FromProfiles(KeepFirst(ids, Itself), profiles);
    if defaultSnmp && !AnyPublic(found) then found + [PUBLIC] else found
  }

  /** With the default asked for, "public" under version 2 is appended exactly when no community is "public" up to case. */
  lemma DefaultAddsPublic(ids: seq<nat>, profiles: map<nat, Profile>, defaultSnmp: bool)
    ensures var found := FromProfiles(KeepFirst(ids, Itself), profiles);
            var missing := forall i :: 0 <= i < |found| ==> !SameUpToCase(OrElse(found[i].snmp.community, ""), "public");
            ProfileCandidates(ids, profiles, defaultSnmp)
            == found + if defaultSnmp && missing then [Candidate(Snmp(Some(2), Some("public"), None, None, None), None)]
                       else []
  {
    PublicInLowerCase();
    var found := FromProfiles(KeepFirst(ids, Itself), profiles);
    forall i | 0 <= i < |found|
      ensures IsPublic(found[i]) <==> SameUpToCase(OrElse(found[i].snmp.community, ""), "public")
    {
    }
    assert found + [] == found;
  }

  lemma PublicInLowerCase()
    ensures DeviceIdentity.Lower("public") == "public"
  {
    var community := "public";
    forall i | 0 <= i < 6 ensures DeviceIdentity.LowerChar(community[i]) == community[i] {
    }
    assert DeviceIdentity.Lower(community) == community;
  }

  /**
   * The candidates, and the bag of other secrets over which each of them is laid; a candidate's own SNMP payload hides
   * the one an "ideco" profile may have put there.
   */
  method LoadProfileCandidates(ids: seq<nat>, profiles: map<nat, Profile>, defaultSnmp: bool)
    returns (candidates: seq<Candidate>, others: map<string, string>)
    ensures candidates == ProfileCandidates(ids, profiles, defaultSnmp)
    ensures forall key :: Lookup(others, key) == LastSecret(KeepFirst(ids, Itself), profiles, key)
  {
    others := map[];
    if ids == [] {
      assert FromProfiles(KeepFirst(ids, Itself), profiles) == [];
      candidates := if defaultSnmp then [PUBLIC] else [];
      return;
    }
    var distinct := Distinct(ids, Itself);
    candidates := [];
    var communities: set<string> := {};
    for i := 0 to |distinct|
      invariant candidates == FromProfiles(distinct[..i], profiles)
      invariant "public" in communities <==> AnyPublic(candidates)
      invariant forall key :: Lookup(others, key) == LastSecret(distinct[..i], profiles, key)
    {
      assert distinct[..i + 1][..i] == distinct[..i];
      var id := distinct[i];
      if id in profiles && IsSnmp(profiles[id]) {
        var next := Candidate(WithVersion(profiles[id]), Some(id));
        PublicInSnoc(candidates, next);
        communities := communities + {DeviceIdentity.Lower(OrElse(next.snmp.community, ""))};
        candidates := candidates + [next];
      } else if id in profiles {
        others := MergeProfilePayload(others, profiles[id]);
      }
    }
    assert distinct[..|distinct|] == distinct;
    if defaultSnmp && "public" !in communities {
      candidates := candidates + [PUBLIC];
    }
  }

  lemma PublicInSnoc(candidates: seq<Candidate>, last: Candidate)
    ensures AnyPublic(candidates + [last]) <==> AnyPublic(candidates) || IsPublic(last)
  {
    var all := candidates + [last];
    if AnyPublic(candidates) {
      var i :| 0 <= i < |candidates| && IsPublic(candidates[i]);
      assert IsPublic(all[i]);
    }
    if IsPublic(last) { assert IsPublic(all[|candidates|]); }
  }

  /** Seed profiles come before global ones, whatever global profiles there are. */
  lemma SeedProfilesComeFirst(seedIds: seq<nat>, globalIds: seq<nat>, profiles: map<nat, Profile>, defaultSnmp: bool)
    ensures FromProfiles(KeepFirst(seedIds, Itself), profiles)
            <= ProfileCandidates(seedIds + globalIds, profiles, defaultSnmp)
  {
    KeptComesFirst(seedIds, globalIds, Itself);
    FromPrefix(KeepFirst(seedIds, Itself), KeepFirst(seedIds + globalIds, Itself), profiles);
  }

  lemma {:induction false} FromPrefix(shorter: seq<nat>, longer: seq<nat>, profiles: map<nat, Profile>)
    requires shorter <= longer
    ensures FromProfiles(shorter, profiles) <= FromProfiles(longer, profiles)
  {
    if |shorter| < |longer| {
      FromPrefix(shorter, longer[..|longer| - 1], profiles);
    } else {
      assert shorter == longer;
    }
  }

  /** With the default asked for, some candidate has the public community; an appended one is tried after all others. */
  lemma PublicIsTriedOnce(ids: seq<nat>, profiles: map<nat, Profile>)
    ensures var candidates := ProfileCandidates(ids, profiles, true);
            && AnyPublic(candidates)
            && forall i :: 0 <= i < |candidates| && candidates[i].profile == None
                           ==> i == |candidates| - 1 && !AnyPublic(candidates[..i])
  {
    var found := FromProfiles(KeepFirst(ids, Itself), profiles);
    var candidates := ProfileCandidates(ids, profiles, true);
    ProfilesAreNamed(KeepFirst(ids, Itself), profiles);
    if !AnyPublic(found) {
      PublicInSnoc(found, PUBLIC);
      PublicInLowerCase();
      assert candidates[..|found|] == found;
    }
  }

  lemma {:induction false} ProfilesAreNamed(ids: seq<nat>, profiles: map<nat, Profile>)
    ensures forall i :: 0 <= i < |FromProfiles(ids, profiles)| ==> FromProfiles(ids, profiles)[i].profile.Some?
  {
    if ids != [] { ProfilesAreNamed(ids[..|ids| - 1], profiles); }
  }

  // ---------------------------------------------------------------- fingerprinting with rotation

  const NO_SNMP := Snmp(None, None, None, None, None)

  /** What fingerprinting sends: unlike probing, it sends an empty community as it is. */
  function FingerprintQuery(snmp: Snmp): Query {
    Query(if snmp.version.Some? then snmp.version.value else 2,
          if snmp.community.Some? then snmp.community.value else "public",
          snmp.username, snmp.authKey, snmp.privKey)
  }

  /** The two searches send the same, except for an empty community. */
  lemma FingerprintSends(c: Candidate)
    ensures c.snmp.community != Some("") ==> FingerprintQuery(c.snmp) == QueryOf(c)
    ensures c.snmp.community == Some("") ==> FingerprintQuery(c.snmp) == QueryOf(c).(community := "")
  {
  }

  function Described(host: Host, snmp: Snmp): string {
    if FingerprintQuery(snmp) in host.answers then host.answers[FingerprintQuery(snmp)] else ""
  }

  predicate Identifies(host: Host, candidate: Candidate) {
    candidate.snmp != NO_SNMP && Described(host, candidate.snmp) != ""
  }

  /** Fingerprinting passes over a candidate without any SNMP data, even on a host that would answer its query. */
  lemma IdentifiesIff(host: Host, c: Candidate)
    ensures Identifies(host, c)
            <==> && (c.snmp.version.Some? || c.snmp.community.Some? || c.snmp.username.Some? || c.snmp.authKey.Some?
                     || c.snmp.privKey.Some?)
                 && FingerprintQuery(c.snmp) in host.answers && host.answers[FingerprintQuery(c.snmp)] != ""
  {
  }

  /** The candidate fingerprinting settles on. */
  ghost predicate IsFirstIdentifying(candidates: seq<Candidate>, host: Host, k: nat) {
    && k <= |candidates| && (k < |candidates| ==> Identifies(host, candidates[k]))
    && forall i :: 0 <= i < k ==> !Identifies(host, candidates[i])
  }

  /** The description, the credentials to go on with, and the profile that answered. */
  method Fingerprint(candidates: seq<Candidate>, own: Snmp, host: Host)
    returns (description: string, used: Snmp, profile: Option<nat>)
    ensures candidates == [] ==> description == Described(host, own) && used == own && profile == None
    ensures candidates != [] ==>
              exists k: nat :: IsFirstIdentifying(candidates, host, k) &&
                if k < |candidates| then
                  && description == Described(host, candidates[k].snmp) && used == candidates[k].snmp
                  && profile == candidates[k].profile
                else description == "" && used == own && profile == None
  {
    if candidates == [] { return Described(host, own), own, None; }
    for i := 0 to |candidates|
      invariant forall j :: 0 <= j < i ==> !Identifies(host, candidates[j])
    {
      if candidates[i].snmp != NO_SNMP {
        var answer := Described(host, candidates[i].snmp);
        if answer != "" {
          assert IsFirstIdentifying(candidates, host, i);
          return answer, candidates[i].snmp, candidates[i].profile;
        }
      }
    }
    assert IsFirstIdentifying(candidates, host, |candidates|);
    return "", own, None;
  }

  /**
   * Unless a candidate is empty or has an empty community, fingerprinting and probing find the same candidate, or none
   * of them finds any.
   */
  lemma RotationAgreesWithProbing(candidates: seq<Candidate>, host: Host, k: nat)
    requires forall i :: 0 <= i < |candidates| ==>
               candidates[i].snmp != NO_SNMP && candidates[i].snmp.community != Some("")
    requires IsFirstIdentifying(candidates, host, k)
    ensures Winner(candidates, host) == if k < |candidates| then Some(candidates[k]) else None
  {
    forall i | 0 <= i < |candidates| ensures Hits(host, candidates[i]) == Identifies(host, candidates[i]) {
      FingerprintSends(candidates[i]);
    }
    FirstHitIs(candidates, host, k);
  }
}
