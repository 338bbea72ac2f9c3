/** The deployment registry of the on-chain contract: registering a deployment
    (app/onchain/scripts/register-deployment.py), looking one up (verify-deployment.py), and the
    contract registry generated from all of them (generate-registry.py). */
module DeploymentRegistry {
  import opened Basics
  import opened Sorting

  /** Dates are ISO texts. A registered deployment names no contract of its own (""). */
  datatype Deployment = Deployment(
    contractName: string, network: string, version: string, contractId: string, wasmHash: string, deployedAt: string)

  predicate SameArtifact(a: Deployment, b: Deployment) {
    a.network == b.network && a.version == b.version && a.contractId == b.contractId
  }

  predicate ByDate(a: Deployment, b: Deployment) {
    TextLe(a.deployedAt, b.deployedAt)
  }

  function Without(ds: seq<Deployment>, d: Deployment): seq<Deployment> {
    Select(ds, (x: Deployment) => !SameArtifact(x, d))
  }

  function Registered(ds: seq<Deployment>, d: Deployment): seq<Deployment> {
    Sort(Without(ds, d) + [d], ByDate)
  }

  /** How often a record is listed once `d` is registered: `d` once, what it replaces not at all, and
      every other record as often as before. */
  function CountAfter(ds: seq<Deployment>, d: Deployment, x: Deployment): nat {
    if x == d then 1 else if SameArtifact(x, d) then 0 else multiset(ds)[x]
  }

  class Registry {
    var deployments: seq<Deployment>

    /** A record of the same artifact is replaced; the list is kept in order of dates. */
    method Register(entry: Deployment)
      modifies this
      ensures deployments == Registered(old(deployments), entry)
      ensures SortedBy(deployments, ByDate)
      ensures FindDeployment(deployments, entry.contractId, entry.network, entry.version) == Some(entry)
      ensures forall x :: multiset(deployments)[x] == CountAfter(old(deployments), entry, x)
    {
      RegisteredExactly(deployments, entry);
      deployments := Without(deployments, entry);
      deployments := deployments + [entry];
      deployments := Sort(deployments, ByDate);
    }
  }

  function FindDeployment(ds: seq<Deployment>, contractId: string, network: string, version: string): Option<Deployment> {
    if ds == [] then None
    else if ds[0].contractId == contractId && ds[0].network == network && ds[0].version == version then Some(ds[0])
    else FindDeployment(ds[1..], contractId, network, version)
  }

  /** The registry after some registrations, starting from none. */
  function Run(entries: seq<Deployment>): seq<Deployment> {
    if entries == [] then [] else Registered(Run(entries[..|entries| - 1]), entries[|entries| - 1])
  }

  lemma ByDateOrder()
    ensures TotalOrder(ByDate)
  {
    TextLeOrder();
    forall x: Deployment, y: Deployment ensures ByDate(x, y) || ByDate(y, x) {
      assert TextLe(x.deployedAt, y.deployedAt) || TextLe(y.deployedAt, x.deployedAt);
    }
    forall x: Deployment, y: Deployment, z: Deployment | ByDate(x, y) && ByDate(y, z) ensures ByDate(x, z) {
      assert TextLe(x.deployedAt, y.deployedAt) && TextLe(y.deployedAt, z.deployedAt);
    }
  }

  // ----- One record per artifact ------------------------------------------------------------

  /** How often an artifact is listed. */
  function Listed(ds: seq<Deployment>, d: Deployment): seq<Deployment> {
    Select(ds, (x: Deployment) => SameArtifact(x, d))
  }

  lemma {:induction false} SelectNone(s: seq<Deployment>, p: Deployment -> bool)
    requires forall x :: x in s ==> !p(x)
    ensures Select(s, p) == []
  {
    if s == [] {
    } else {
      SelectNone(s[1..], p);
    }
  }

  lemma {:induction false} SelectSwap(s: seq<Deployment>, p: Deployment -> bool, q: Deployment -> bool)
    ensures Select(Select(s, p), q) == Select(Select(s, q), p)
  {
    if s == [] {
    } else {
      SelectSwap(s[1..], p, q);
      var a, b := Select(s[1..], p), Select(s[1..], q);
      assert p(s[0]) ==> ([s[0]] + a)[1..] == a;
      assert q(s[0]) ==> ([s[0]] + b)[1..] == b;
      assert Select(s, p) == (if p(s[0]) then [s[0]] + a else a);
      assert Select(s, q) == (if q(s[0]) then [s[0]] + b else b);
    }
  }

  /** The registrations that still stand, in the order they were made. */
  function Standing(entries: seq<Deployment>): seq<Deployment> {
    if entries == [] then []
    else Without(Standing(entries[..|entries| - 1]), entries[|entries| - 1]) + [entries[|entries| - 1]]
  }

  /** Sorting never loses or adds a record: the registry lists exactly what still stands. */
  lemma {:induction false} RunStands(entries: seq<Deployment>)
    ensures multiset(Run(entries)) == multiset(Standing(entries))
  {
    if entries == [] {
    } else {
      var earlier, d := entries[..|entries| - 1], entries[|entries| - 1];
      RunStands(earlier);
      SelectMultiset(Run(earlier), Standing(earlier), (x: Deployment) => !SameArtifact(x, d));
      assert multiset(Without(Run(earlier), d)) == multiset(Without(Standing(earlier), d));
    }
  }

  /** The last registration of an artifact. */
  function LastOf(entries: seq<Deployment>, d: Deployment): Option<Deployment> {
    if entries == [] then None
    else if SameArtifact(entries[|entries| - 1], d) then Some(entries[|entries| - 1])
    else LastOf(entries[..|entries| - 1], d)
  }

  /** Of every artifact ever registered one record stands, the last; of any other, none. */
  lemma {:induction false} LastStands(entries: seq<Deployment>, d: Deployment)
    ensures Listed(Standing(entries), d) == (match LastOf(entries, d) case Some(x) => [x] case None => [])
  {
    if entries == [] {
    } else {
      var earlier, e := entries[..|entries| - 1], entries[|entries| - 1];
      var same, others := (x: Deployment) => SameArtifact(x, d), (x: Deployment) => !SameArtifact(x, e);
      LastStands(earlier, d);
      SelectConcat(Without(Standing(earlier), e), [e], same);
      SelectSwap(Standing(earlier), others, same);
      assert [e][1..] == [];
      assert Select([e], same) == (if SameArtifact(e, d) then [e] else []);
      if SameArtifact(e, d) {
        SelectNone(Listed(Standing(earlier), d), others) by {
          forall x | x in Listed(Standing(earlier), d) ensures SameArtifact(x, e) {
            SelectMember(Standing(earlier), same, x);
          }
        }
      } else if LastOf(earlier, d).Some? {
        LastIsSame(earlier, d);
        var x := LastOf(earlier, d).value;
        assert [x][1..] == [];
        assert Select([x], others) == [x];
      }
    }
  }

  lemma {:induction false} LastIsSame(entries: seq<Deployment>, d: Deployment)
    requires LastOf(entries, d).Some?
    ensures SameArtifact(LastOf(entries, d).value, d) && LastOf(entries, d).value in entries
  {
    if !SameArtifact(entries[|entries| - 1], d) {
      LastIsSame(entries[..|entries| - 1], d);
    }
  }

  lemma {:induction false} FindIsFirstListed(ds: seq<Deployment>, d: Deployment)
    ensures FindDeployment(ds, d.contractId, d.network, d.version) ==
            if Listed(ds, d) == [] then None else Some(Listed(ds, d)[0])
  {
    if ds == [] {
    } else {
      FindIsFirstListed(ds[1..], d);
    }
  }

  /** What registering does to any list, sorted before or not. */
  lemma RegisteredExactly(ds: seq<Deployment>, d: Deployment)
    ensures SortedBy(Registered(ds, d), ByDate)
    ensures FindDeployment(Registered(ds, d), d.contractId, d.network, d.version) == Some(d)
    ensures forall x :: multiset(Registered(ds, d))[x] == CountAfter(ds, d, x)
  {
    ByDateOrder();
    SortSorts(Without(ds, d) + [d], ByDate);
    forall x ensures multiset(Registered(ds, d))[x] == CountAfter(ds, d, x) {
      SelectCount(ds, (y: Deployment) => !SameArtifact(y, d), x);
    }
    var now := Registered(ds, d);
    var same := (y: Deployment) => SameArtifact(y, d);
    FindIsFirstListed(now, d);
    assert d in multiset(now);
    SelectMember(now, same, d);
    var found := Listed(now, d)[0];
    SelectMember(now, same, found);
    assert multiset(now)[found] == CountAfter(ds, d, found);
  }

  /** After any registrations the registry has at most one record of an artifact, and it is the one
      that looking the artifact up returns: the last that was registered. */
  lemma OneRecordPerArtifact(entries: seq<Deployment>, d: Deployment)
    ensures |Listed(Run(entries), d)| <= 1
    ensures FindDeployment(Run(entries), d.contractId, d.network, d.version) == LastOf(entries, d)
  {
    RunStands(entries);
    LastStands(entries, d);
    SelectMultiset(Run(entries), Standing(entries), (x: Deployment) => SameArtifact(x, d));
    FindIsFirstListed(Run(entries), d);
    var a, b := Listed(Run(entries), d), Listed(Standing(entries), d);
    assert multiset(a) == multiset(b);
    assert |a| == |multiset(a)| == |b|;
    if b != [] {
      assert a[0] in multiset(b);
    }
  }

  // ----- The generated registry -----------------------------------------------------------------

  datatype Contract = Contract(version: string, networks: map<string, Deployment>)

  /** Later records of a network overwrite earlier ones; nameless records are skipped. */
  function Placed(contracts: map<string, Contract>, primary: string, d: Deployment): map<string, Contract> {
    var name := if d.contractName == "" then primary else d.contractName;
    if name == "" || d.network == "" then contracts
    else
      var c := if name in contracts then contracts[name] else Contract(d.version, map[]);
      contracts[name := c.(networks := c.networks[d.network := d])]
  }

  function Discovered(sources: map<string, string>): map<string, Contract> {
    map name | name in sources :: Contract(sources[name], map[])
  }

  function Built(sources: map<string, string>, primary: string, ds: seq<Deployment>): map<string, Contract> {
    if ds == [] then Discovered(sources)
    else Placed(Built(sources, primary, ds[..|ds| - 1]), primary, ds[|ds| - 1])
  }

  method BuildContractRegistry(sources: map<string, string>, primary: string, ds: seq<Deployment>)
    returns (contracts: map<string, Contract>)
    ensures contracts == Built(sources, primary, ds)
  {
    contracts := Discovered(sources);
    for i := 0 to |ds|
      invariant contracts == Built(sources, primary, ds[..i])
    {
      assert ds[..i + 1][..i] == ds[..i];
      var d := ds[i];
      var name := if d.contractName == "" then primary else d.contractName;
      if name != "" && d.network != "" {
        if name !in contracts {
          contracts := contracts[name := Contract(d.version, map[])];
        }
        contracts := contracts[name := contracts[name].(networks := contracts[name].networks[d.network := d])];
      }
    }
    assert ds[..|ds|] == ds;
  }

  /** A record that names no contract belongs to the primary one. */
  predicate BelongsTo(d: Deployment, name: string, primary: string) {
    d.contractName == name || (d.contractName == "" && primary == name)
  }

  function RecordsOf(ds: seq<Deployment>, primary: string, name: string, network: string): seq<Deployment> {
    Select(ds, (d: Deployment) => BelongsTo(d, name, primary) && d.network == network)
  }

  lemma PlacedShowsAny(contracts: map<string, Contract>, primary: string, name: string, network: string, here: seq<Deployment>, d: Deployment)
    requires name != "" && network != "" && Shows(contracts, name, network, here)
    ensures Shows(Placed(contracts, primary, d), name, network,
                  if BelongsTo(d, name, primary) && d.network == network then here + [d] else here)
  {
  }

  lemma RecordsOfSnoc(before: seq<Deployment>, d: Deployment, primary: string, name: string, network: string)
    ensures RecordsOf(before + [d], primary, name, network) ==
            if BelongsTo(d, name, primary) && d.network == network then RecordsOf(before, primary, name, network) + [d]
            else RecordsOf(before, primary, name, network)
  {
    SelectConcat(before, [d], (x: Deployment) => BelongsTo(x, name, primary) && x.network == network);
    assert [d][1..] == [];
  }

  /** For every contract, whether its records name it or it is the primary one, and every network: the
      registry shows the last of these records, and nothing if there is none. */
  lemma {:induction false} ShowsLastOfEach(sources: map<string, string>, primary: string, ds: seq<Deployment>, name: string, network: string)
    requires name != "" && network != ""
    ensures Shows(Built(sources, primary, ds), name, network, RecordsOf(ds, primary, name, network))
  {
    if ds == [] {
    } else {
      var before, d := ds[..|ds| - 1], ds[|ds| - 1];
      assert ds == before + [d];
      ShowsLastOfEach(sources, primary, before, name, network);
      PlacedShowsAny(Built(sources, primary, before), primary, name, network, RecordsOf(before, primary, name, network), d);
      RecordsOfSnoc(before, d, primary, name, network);
    }
  }

  /** The records of a contract, on whatever network. */
  function Mentions(ds: seq<Deployment>, primary: string, name: string): seq<Deployment> {
    Select(ds, (d: Deployment) => BelongsTo(d, name, primary) && d.network != "")
  }

  lemma MentionsSnoc(before: seq<Deployment>, d: Deployment, primary: string, name: string)
    ensures Mentions(before + [d], primary, name) ==
            if BelongsTo(d, name, primary) && d.network != "" then Mentions(before, primary, name) + [d]
            else Mentions(before, primary, name)
  {
    SelectConcat(before, [d], (x: Deployment) => BelongsTo(x, name, primary) && x.network != "");
    assert [d][1..] == [];
  }

  ghost predicate ListsContract(contracts: map<string, Contract>, sources: map<string, string>, name: string, mentions: seq<Deployment>) {
    && (name in contracts <==> name in sources || mentions != [])
    && (name in contracts ==> contracts[name].version == if name in sources then sources[name] else mentions[0].version)
  }

  lemma PlacedLists(contracts: map<string, Contract>, sources: map<string, string>, primary: string, name: string,
                    mentions: seq<Deployment>, d: Deployment)
    requires name != "" && ListsContract(contracts, sources, name, mentions)
    ensures ListsContract(Placed(contracts, primary, d), sources, name,
                          if BelongsTo(d, name, primary) && d.network != "" then mentions + [d] else mentions)
  {
  }

  /** Listed are the contracts of the workspace, with their own versions, and those with a record, with
      the version of the first one. */
  lemma {:induction false} ListedExactly(sources: map<string, string>, primary: string, ds: seq<Deployment>, name: string)
    requires name != ""
    ensures ListsContract(Built(sources, primary, ds), sources, name, Mentions(ds, primary, name))
  {
    if ds == [] {
    } else {
      var before, d := ds[..|ds| - 1], ds[|ds| - 1];
      assert ds == before + [d];
      ListedExactly(sources, primary, before, name);
      PlacedLists(Built(sources, primary, before), sources, primary, name, Mentions(before, primary, name), d);
      MentionsSnoc(before, d, primary, name);
    }
  }

  function OnNetwork(ds: seq<Deployment>, network: string): seq<Deployment> {
    Select(ds, (x: Deployment) => x.network == network)
  }

  predicate OfPrimary(ds: seq<Deployment>) {
    forall d :: d in ds ==> d.contractName == ""
  }

  /** The registry shows for each network the last record of the list, and no other network. */
  ghost predicate Shows(contracts: map<string, Contract>, primary: string, network: string, here: seq<Deployment>) {
    if here == [] then primary in contracts ==> network !in contracts[primary].networks
    else
      && primary in contracts && network in contracts[primary].networks
      && contracts[primary].networks[network] == here[|here| - 1]
  }

  lemma PlacedShows(contracts: map<string, Contract>, primary: string, network: string, here: seq<Deployment>, d: Deployment)
    requires d.contractName == "" && primary != "" && network != "" && Shows(contracts, primary, network, here)
    ensures Shows(Placed(contracts, primary, d), primary, network, if d.network == network then here + [d] else here)
  {
  }

  lemma {:induction false} ShowsLast(sources: map<string, string>, primary: string, ds: seq<Deployment>, network: string)
    requires OfPrimary(ds) && primary != "" && network != ""
    ensures Shows(Built(sources, primary, ds), primary, network, OnNetwork(ds, network))
  {
    if ds == [] {
    } else {
      var before, d := ds[..|ds| - 1], ds[|ds| - 1];
      assert ds == before + [d];
      ShowsLast(sources, primary, before, network);
      assert d in ds;
      PlacedShows(Built(sources, primary, before), primary, network, OnNetwork(before, network), d);
      OnNetworkSnoc(before, d, network);
    }
  }

  lemma OnNetworkSnoc(before: seq<Deployment>, d: Deployment, network: string)
    ensures OnNetwork(before + [d], network) == OnNetwork(before, network) + if d.network == network then [d] else []
  {
    SelectConcat(before, [d], (x: Deployment) => x.network == network);
    assert [d][1..] == [];
  }

  /** Every contract of the workspace is listed, with its own version, deployed or not. */
  lemma {:induction false} EveryContractListed(sources: map<string, string>, primary: string, ds: seq<Deployment>, name: string)
    requires name in sources
    ensures name in Built(sources, primary, ds) && Built(sources, primary, ds)[name].version == sources[name]
  {
    if ds == [] {
    } else {
      EveryContractListed(sources, primary, ds[..|ds| - 1], name);
    }
  }

  // ----- The newest deployment of a network -------------------------------------------------------

  /** On one network and date, the registry keeps the order of registration. */
  lemma {:induction false} SameDateSameOrder(entries: seq<Deployment>, network: string, date: string)
    ensures var p := (x: Deployment) => x.network == network && x.deployedAt == date;
            Select(Run(entries), p) == Select(Standing(entries), p)
  {
    var p := (x: Deployment) => x.network == network && x.deployedAt == date;
    if entries == [] {
    } else {
      var earlier, d := entries[..|entries| - 1], entries[|entries| - 1];
      var others := (x: Deployment) => !SameArtifact(x, d);
      SameDateSameOrder(earlier, network, date);
      ByDateOrder();
      forall y, z | p(y) && p(z) ensures ByDate(y, z) {
        assert ByDate(y, z) || ByDate(z, y);
      }
      SortStable(Without(Run(earlier), d) + [d], ByDate, p);
      SelectConcat(Without(Run(earlier), d), [d], p);
      SelectConcat(Without(Standing(earlier), d), [d], p);
      SelectSwap(Run(earlier), others, p);
      SelectSwap(Standing(earlier), others, p);
    }
  }

  /** The last element is the last of those that satisfy what it satisfies. */
  lemma {:induction false} LastSelected(s: seq<Deployment>, p: Deployment -> bool)
    requires s != [] && p(s[|s| - 1])
    ensures Select(s, p) != [] && Select(s, p)[|Select(s, p)| - 1] == s[|s| - 1]
  {
    if |s| > 1 {
      LastSelected(s[1..], p);
    } else {
      assert s[1..] == [];
    }
  }

  /** From registration to the generated registry: for each network it shows, of the deployments
      that still stand there, one with the greatest date, and of those the one registered last. */
  lemma ShowsNewest(sources: map<string, string>, primary: string, entries: seq<Deployment>, network: string)
    requires OfPrimary(entries) && primary != "" && network != "" && OnNetwork(Standing(entries), network) != []
    ensures NewestShown(Built(sources, primary, Run(entries)), primary, network, Standing(entries))
  {
    RunOfPrimary(entries);
    NetworkListed(entries, network);
    var here := OnNetwork(Run(entries), network);
    LastIsNewest(entries, network, here);
    ShowsLast(sources, primary, Run(entries), network);
    LastShown(Built(sources, primary, Run(entries)), primary, network, here, Standing(entries));
  }

  ghost predicate NewestShown(contracts: map<string, Contract>, primary: string, network: string, standing: seq<Deployment>) {
    && primary in contracts && network in contracts[primary].networks
    && IsNewest(contracts[primary].networks[network], standing, network)
  }

  lemma LastShown(contracts: map<string, Contract>, primary: string, network: string, here: seq<Deployment>, standing: seq<Deployment>)
    requires here != [] && Shows(contracts, primary, network, here) && IsNewest(here[|here| - 1], standing, network)
    ensures NewestShown(contracts, primary, network, standing)
  {
  }

  ghost predicate IsNewest(shown: Deployment, standing: seq<Deployment>, network: string) {
    var ties := Select(standing, (x: Deployment) => x.network == network && x.deployedAt == shown.deployedAt);
    && (forall x :: x in standing && x.network == network ==> TextLe(x.deployedAt, shown.deployedAt))
    && ties != [] && shown == ties[|ties| - 1]
  }

  lemma LastIsNewest(entries: seq<Deployment>, network: string, here: seq<Deployment>)
    requires here == OnNetwork(Run(entries), network) && here != []
    ensures IsNewest(here[|here| - 1], Standing(entries), network)
  {
    var shown := here[|here| - 1];
    forall x | x in Standing(entries) && x.network == network ensures TextLe(x.deployedAt, shown.deployedAt) {
      NewestOfNetwork(entries, network, x);
    }
    var onIt, sameDate := (x: Deployment) => x.network == network, (x: Deployment) => x.deployedAt == shown.deployedAt;
    LastSelected(here, sameDate);
    SelectBoth(Run(entries), onIt, sameDate, (x: Deployment) => x.network == network && x.deployedAt == shown.deployedAt);
    SameDateSameOrder(entries, network, shown.deployedAt);
  }

  lemma RunSorted(entries: seq<Deployment>)
    ensures SortedBy(Run(entries), ByDate)
  {
    if entries != [] {
      ByDateOrder();
      SortSorts(Without(Run(entries[..|entries| - 1]), entries[|entries| - 1]) + [entries[|entries| - 1]], ByDate);
    }
  }

  lemma NetworkListed(entries: seq<Deployment>, network: string)
    ensures multiset(OnNetwork(Run(entries), network)) == multiset(OnNetwork(Standing(entries), network))
    ensures |OnNetwork(Run(entries), network)| == |OnNetwork(Standing(entries), network)|
  {
    RunStands(entries);
    var onIt := (x: Deployment) => x.network == network;
    SelectMultiset(Run(entries), Standing(entries), onIt);
    assert |OnNetwork(Run(entries), network)| == |multiset(OnNetwork(Run(entries), network))|;
  }

  lemma NewestOfNetwork(entries: seq<Deployment>, network: string, x: Deployment)
    requires x in Standing(entries) && x.network == network
    ensures var here := OnNetwork(Run(entries), network);
            here != [] && TextLe(x.deployedAt, here[|here| - 1].deployedAt)
  {
    var onIt := (x: Deployment) => x.network == network;
    NetworkListed(entries, network);
    SelectMember(Standing(entries), onIt, x);
    var here := OnNetwork(Run(entries), network);
    SameMembers(here, OnNetwork(Standing(entries), network), x);
    RunSorted(entries);
    SelectSorted(Run(entries), ByDate, onIt);
    LastIsLatest(here, x);
  }

  lemma LastIsLatest(ds: seq<Deployment>, x: Deployment)
    requires SortedBy(ds, ByDate) && x in ds
    ensures ByDate(x, ds[|ds| - 1])
  {
    var i :| 0 <= i < |ds| && ds[i] == x;
    ByDateOrder();
    assert ByDate(x, x);
    assert i < |ds| - 1 ==> ByDate(ds[i], ds[|ds| - 1]);
  }

  lemma {:induction false} RunOfPrimary(entries: seq<Deployment>)
    requires OfPrimary(entries)
    ensures OfPrimary(Run(entries)) && OfPrimary(Standing(entries))
  {
    RunStands(entries);
    if entries == [] {
    } else {
      var earlier, d := entries[..|entries| - 1], entries[|entries| - 1];
      RunOfPrimary(earlier);
      assert d in entries;
      forall x | x in Standing(entries) ensures x.contractName == "" {
        SelectMember(Standing(earlier), (y: Deployment) => !SameArtifact(y, d), x);
      }
    }
    forall x | x in Run(entries) ensures x.contractName == "" {
      SameMembers(Run(entries), Standing(entries), x);
    }
  }
}
