# Control Center decision logic

The Control Center is the browser console of a storage and disaster-recovery platform. Most of what it decides, it
decides in plain script code: it proposes recovery tiers, gates, paths and test networks from what agents report,
checks what an operator types, groups storage nodes into machines, balances failure domains, keeps an editor's lanes
in order and puts a sharded dependency graph back together. This project models that code and proves what its callers
rely on. `fetch`, React and the Kubernetes client are cut away; what they deliver is an input.

The modules follow the source files.

- **Discovery engine** (`control-center/discovery.jsx`): `Selectors` and `SelectorForms` (the label selector language:
  parser, printer, matcher, and which texts it accepts), `TierEditor` and `TierEditorLaws` (a recovery spec as editor
  rows and gates, and back), `Report` (objects and label pairs of the reported namespaces, the PVC selector),
  `TierProposal`, `TierProposalLaws` and `TierContents` (proposed tiers and gates, what they hold and how the
  validators written for typed ones judge them), `RowChecks` (those validators for any row), `Addressing` (IPv4 and
  CIDR arithmetic on 32-bit masks, as in section 3.1 of RFC 4632, computed bit by bit and refined to intervals),
  `Networks` and `GuestNetworks` (guest subnets, reserved host ids, guest rows and servers), `TestNetworks` (isolated
  networks and their servers), `Paths` (recovery paths, proposed and declared).
- **Control-plane read model** (`control-center/cpapi.jsx`): `RequestCache` (the cache that shares requests in flight,
  as a state machine over calls, answers and failure handlers), `Hosts` (storage nodes grouped into machines),
  `HostRecords` (three sources merged into one record, each field with its source).
- **Deployment and expansion** (`control-center/deploy.jsx`, `control-center/actions.jsx`): `FailureDomains` (the
  wizard's balance test and the Expand dialog's filter), `Overrides` (the wizard's per-host chips), `DeployPlan` (the
  plan they give), `Lanes` (the priority-lane editor).
- **Dependency graph** (`control-center/discover.jsx`): `Shards` (reassembly and the kept graphs), `GraphView` (scope
  and box layout).
- **Replication** (`control-center/api.jsx`): `Replication` (pairs, policies and slots joined by name).
- `Text` and `Seqs` hold the string and list operations of the scripts and their laws.

Code that loops or updates fields in the source is a method or a class here, proved equal to a function of its inputs
or of its old state; the lemmas then say what those functions mean. Where the source builds an expression, so does the
model.

Some properties one would expect do not hold of the code. Each has a lemma with an input that shows it and one that
says exactly when the code does meet it:

- Comma-joined selectors that give one key two values select more than either part: the last one wins
  (`Selectors.ConflictExample`, `Selectors.JoinedMeansBoth`, `Selectors.ConflictLosesFirst`).
- A label with an empty value, which Kubernetes allows, makes a text the selector parser refuses and the matcher takes
  to select everything. It can become the proposed PVC selector, the label of the proposed tools tier or the pod of a
  proposed gate, and the validators then refuse the proposal (`Report.RefusedSelectorExample`,
  `Report.ProposedSelectsAll`, `TierProposalLaws.ToolsRefusedExample`, `TierProposalLaws.ToolsTakeEmptyValue`,
  `TierProposalLaws.GateRefusedExample`, `TierProposalLaws.ProposedGatesAccepted`).
- A tier label value of more than 30 characters is cut after its outer dashes are stripped: the proposed tier can get a
  name that ends in a dash, which the validator refuses, or the name of another tier
  (`TierProposalLaws.CutNameExample`, `TierProposalLaws.LabelValuesAccepted`, `TierProposalLaws.DnsValuesAccepted`).
- A proposed path name of more than 63 characters is cut likewise, and is refused when the cut leaves a dash at its end
  (`Paths.CutNameExample`, `Paths.ProposalAccepted`).
- The tier editor is not idempotent on a port check whose host holds a colon, and rewrites https to http
  (`TierEditorLaws.ColonHostExample`, `TierEditorLaws.HttpsBecomesHttp`, `TierEditorLaws.RenewIsIdempotent`).
- Two different pairs of sites can be proposed one path name (`Paths.NamesCanClash`, `Paths.NameClash`,
  `Paths.NamesAreDistinct`).
- The test network and the guest networks can be given one registered DHCP server
  (`TestNetworks.SharedConfigExample`, `TestNetworks.ChoicesCanCoincide`).
- The handler of a failed request deletes by path, so it can drop a newer entry and let two requests run side by side
  (`RequestCache.LateFailureExample`, `RequestCache.LateFailureDropsNewer`, `RequestCache.CloseStartsHaveFailure`).
- The Expand filter also admits a host of a new domain, which breaks the balance the wizard asks for
  (`FailureDomains.NewDomainExample`, `FailureDomains.AddKeepsBalance`, `FailureDomains.NewDomainRecovers`).
- The Expand filter's minimum counts the entry of nodes without a domain, so fewer of those than in every real domain
  close all existing domains (`FailureDomains.UnassignedClosesAll`, `FailureDomains.SomeDomainIsEligible`).
- The comment on lanes says an emptied lane closes up; removing an item does not do that
  (`Lanes.RemovalGapExample`, `Lanes.RemovalLeavesGap`).
- The test for a bad shard index can never fire, because `some` skips the holes of a sparse array: a duplicate or
  missing index cuts the stream short (`Shards.DuplicateIndexCutsStream`, `Shards.MissingIndexCutsStream`,
  `Shards.HolesGoUnseen`, `Shards.ReassemblyIsExact`). What is left then has to get past decompression and the
  generation check (`Shards.DigestStopsLoss`).
- A device clicked on under one device class stays in the plan after the class is changed
  (`DeployPlan.WrongClassExample`, `DeployPlan.PlanOfClass`).
- When one node's device list cannot be read, devices that other nodes did report are put down to the deployment draft
  (`HostRecords.DraftSourceExample`, `HostRecords.DraftSourceIsWhole`).
- A pair counts fewer slots than its policies together when it has two policies of one name that a slot gives
  (`Replication.DoubleCountExample`, `Replication.PairCountIsSum`).
- A candidate whose nodes the graph no longer holds is drawn without a height
  (`GraphView.NoHeightExample`, `GraphView.ScopeHasHeight`).

## Model

| member | source | states |
|---|---|---|
| `Selectors.ParseSelector` | control-center/discovery.jsx:130-149 | the parsing loop returns what the parse function says, error by error; SelectorForms says what that is |
| `Text.TrimIs` | control-center/discovery.jsx:133-144 | trimming takes the white space off both ends and nothing else |
| `Text.SpaceIs` | control-center/discovery.jsx:133-144 | white space by code point, as trim and \s see it |
| `Selectors.SelectorRoundTrip` | control-center/discovery.jsx:130-151 | reading a printed selector gives it back exactly when it is well formed: distinct clean keys, clean non-empty values, Exists requirements only |
| `Selectors.ParsedIsWellFormed` | control-center/discovery.jsx:130-149 | whatever text is accepted, the selector read is well formed, and holds no Exists requirement where those are refused |
| `Selectors.PairsRoundTrip` | control-center/discovery.jsx:130-151 | labels joined with ", " read back as themselves under either reading, the form of gate pods and label rows |
| `Selectors.ReparseIsStable` | control-center/discovery.jsx:130-151 | printing an accepted selector and reading it again changes nothing |
| `Selectors.ParseJoined` | control-center/discovery.jsx:130-149 | a comma-joined text is accepted exactly when both parts are; its requirements are those of both and on every key the later part wins |
| `Selectors.JoinedMeansBoth` | control-center/discovery.jsx:130-153 | matching a comma-joined text is matching both parts, when the parts agree on the keys they share |
| `Selectors.ConflictLosesFirst` | control-center/discovery.jsx:130-153 | where two parts give one key different values, some labels match the joined text and not the first part: the condition of JoinedMeansBoth is needed |
| `Selectors.ConflictExample` | control-center/discovery.jsx:130-153 | a=1,a=2 selects what a=2 selects, and a=1 selects nothing of it |
| `Selectors.PairMatches` | control-center/discovery.jsx:119-153 | a k=v text selects exactly the labels whose k is v |
| `Selectors.EmptyValueRefused` | control-center/discovery.jsx:130-153 | the text of a label without a value is refused, and the matcher takes a refused text to select everything |
| `Selectors.TidyPairSelects` | control-center/discovery.jsx:130-153 | a label text is accepted exactly when the label has a value; it then selects the objects that carry the label, else every object |
| `SelectorForms.AcceptedTexts` | control-center/discovery.jsx:130-149 | a text is accepted exactly when each non-empty trimmed piece between commas holds a "=" with a text before the first one and after it or, where allowed, is key characters, white space and exists in any letter case |
| `SelectorForms.SelectionOf` | control-center/discovery.jsx:130-149 | an accepted text asks for the last value given for each key, keys in the order in which they are first given, and for the keys of its exists pieces in order |
| `SelectorForms.RefusedTexts` | control-center/discovery.jsx:130-149 | a text is refused for its first other piece: exists not allowed, no "=", no key or no value |
| `SelectorForms.PieceReads` | control-center/discovery.jsx:137-147 | what one piece is read as, for every text: a pair, a key, or one of the four errors |
| `TierEditor.ReadChecks` | control-center/discovery.jsx:591-600 | the inner loop appends one gate per exec check and keeps the conditions under the tier name |
| `TierEditor.TierEditorRows` | control-center/discovery.jsx:586-603 | the reading loop gives one row per tier, the gates of all tiers in order, and under every name exactly the conditions of the tiers of that name |
| `TierEditor.TcpRoundTrip` | control-center/discovery.jsx:529-599 | a port check survives the editor exactly when it has the written form with no colon in the host |
| `TierEditor.HttpRoundTrip` | control-center/discovery.jsx:529-599 | a wget command survives the editor exactly when it has the written form; one pass always gives that form |
| `TierEditor.CustomRoundTrip` | control-center/discovery.jsx:529-598 | any other command is re-split at white space, and survives exactly when no word holds white space or is empty |
| `TierEditor.CommandRoundTrip` | control-center/discovery.jsx:529-599 | over all commands: reading and writing gives the command back exactly when it is canonical |
| `TierEditor.CommandStability` | control-center/discovery.jsx:529-599 | a second pass over a command changes nothing exactly when the command is stable: no colon left in the host of a port check, no text that turns into a template |
| `TierEditor.GateRoundTrip` | control-center/discovery.jsx:529-599 | writing a gate and reading it back gives the gate exactly when its pod text is printed form and its command or target is what its template reads |
| `TierEditor.ChipsAreTexts` | control-center/discovery.jsx:577-590 | the label chips of a well-formed selector are its printed parts and read back as the selector |
| `TierEditorLaws.RowsRoundTrip` | control-center/discovery.jsx:576-603 | rows to spec to rows is the identity exactly when every row is canonical: trimmed non-empty name, printed labels, known ready types |
| `TierEditorLaws.GatesRoundTrip` | control-center/discovery.jsx:576-603 | for canonical rows, the gates come back grouped by row exactly when every gate of a row is canonical |
| `TierEditorLaws.GroupedKeepsGates` | control-center/discovery.jsx:576-603 | grouping by rows of distinct names loses and repeats no gate that has a row |
| `TierEditorLaws.KeptRoundTrip` | control-center/discovery.jsx:583-592 | conditions kept beside the rows come back under the row's name |
| `TierEditorLaws.KeepIs` | control-center/discovery.jsx:586-603 | what the reading loop keeps is exactly the map of tier names to their conditions that the next rows write back |
| `TierEditorLaws.RenewTierwise` | control-center/discovery.jsx:576-603 | spec to rows to spec treats every named tier on its own when tier names are distinct |
| `TierEditorLaws.RenewIsIdempotent` | control-center/discovery.jsx:576-603 | that pass is an idempotent normaliser exactly when every exec command of a named tier is stable |
| `TierEditorLaws.TierRoundTrip` | control-center/discovery.jsx:576-603 | a tier survives the editor exactly when it is canonical: trimmed name, well-formed selector, plain type checks first, then canonical exec checks, then conditions |
| `TierEditorLaws.ExecRoundTrip` | control-center/discovery.jsx:581-599 | an exec check survives exactly when its selector is clean, its command canonical and its timeout not zero; a second pass is the same exactly when the command is stable |
| `TierEditorLaws.ColonHostExample` | control-center/discovery.jsx:529-599 | a port check whose host holds a colon changes at every pass |
| `TierEditorLaws.HttpsBecomesHttp` | control-center/discovery.jsx:530-599 | an https check is always rewritten to http |
| `Report.NsObjects` | control-center/discovery.jsx:220-225 | the inner loop lists the objects of one namespace |
| `Report.CollectObjects` | control-center/discovery.jsx:215-228 | the loop lists the objects of the reported namespaces, in order |
| `RowChecks.ObjectsAre` | control-center/discovery.jsx:155-229 | an object is listed exactly when the first report of a chosen namespace holds it as a workload, as the pods of one that reports their labels, or as a PVC; for gates as the pods of a workload |
| `Report.CountPairs` | control-center/discovery.jsx:191-196 | the counting loop is the tally of all label pairs |
| `Report.TallyCounts` | control-center/discovery.jsx:191-235 | a tally holds every key once, with exactly how often it occurs |
| `Report.PairCountsAre` | control-center/discovery.jsx:191-235 | sorted pair counts are still exact counts, and a pair is offered exactly when some object carries it |
| `Report.MostCommonFirst` | control-center/discovery.jsx:231-235 | pairs are offered most common first, equally common ones in the order of their texts, and those that collate alike in the order they are reported |
| `Report.PairOnAll` | control-center/discovery.jsx:190-196 | a label is counted once per object that carries it, and for all objects exactly when all carry it, values being possibly empty |
| `Report.FirstOffered` | control-center/discovery.jsx:190-235 | the first pair offered is the label that most objects carry, of equally common ones the first by its text; none is offered exactly when no object has a label |
| `Report.ProposedSelectsAll` | control-center/discovery.jsx:494-502 | where some label is on all PVCs, the proposed selector is the one of them with the best key, of equally good ones the first by its text; it is accepted and selects every PVC exactly when there is such a label and it has a value |
| `Report.ProposedOtherwise` | control-center/discovery.jsx:494-502 | where no label is on all PVCs, the proposal is the label with the best key, then the one on most PVCs, then the first by its text; it is empty exactly when no PVC has a label |
| `Report.RefusedSelectorExample` | control-center/discovery.jsx:494-502 | a PVC whose only label has an empty value gets a selector that is refused |
| `TierProposal.DnsifyIsLabel` | control-center/discovery.jsx:516 | a value makes a DNS label exactly when it has a letter or digit and what is left of it is not cut right behind a dash |
| `TierProposal.DnsifyOfLabel` | control-center/discovery.jsx:516 | a DNS label of any length is its own tier name, cut to 30 characters, which is a DNS label exactly when the cut is not right behind a dash |
| `TierProposal.CollectGroups` | control-center/discovery.jsx:560-561 | the loop groups the objects by their tier label |
| `TierProposal.CollectGates` | control-center/discovery.jsx:566-571 | the loop gives a gate to every data tier with a service, when there is a tools pod |
| `TierProposal.ProposeTiers` | control-center/discovery.jsx:546-574 | the proposal is the config row, the tools row and one row per tier label value in boot order, with those gates |
| `TierContents.ProposedRowsSay` | control-center/discovery.jsx:546-565 | the rows are config with configmaps, secrets, serviceaccounts and services, the tools with the label chosen for them or their kinds, and one row per tier label with that label; each waits for the kinds of workload it has |
| `TierContents.ToolsSay` | control-center/discovery.jsx:548-550 | the tools are the Deployments and StatefulSets none of whose label keys is tier or ends in /tier |
| `TierContents.ValueGroupsSay` | control-center/discovery.jsx:560-565 | there is one group for each pair that is the first tier label of some object, and it holds those objects in their order |
| `TierContents.GatesSay` | control-center/discovery.jsx:566-571 | a gate is proposed exactly for each group named db, database, data, storage or cache, if there is a pod, with the target of its first object that has one, TCP and 900 seconds |
| `TierContents.TargetsSay` | control-center/discovery.jsx:532-537 | the targets are the ports of the services in the first report of each chosen namespace |
| `TierProposalLaws.ProposedSelections` | control-center/discovery.jsx:546-618 | a proposed row draws a selection error exactly when it takes a label without a value; else it selects something of its kinds |
| `RowChecks.KindsAre` | control-center/discovery.jsx:205-212 | the kinds of a row are those its resource types name before the first dot in any letter case, without types those its ready checks wait for, without either all five, which then are only assumed |
| `RowChecks.TierRowChecked` | control-center/discovery.jsx:605-619 | any tier row is accepted exactly when its name is a DNS label of at most 30 characters that no other row has, it names kinds or labels, its labels parse, and, where all chosen namespaces are reported and its kinds known, some reported object of its kinds carries every pair and key; each other row draws the error of the first thing wrong |
| `Text.DnsLabelIs` | control-center/discovery.jsx:24 | a DNS label is lower-case letters, digits and dashes without a dash at either end |
| `TierProposalLaws.ToolsTakeEmptyValue` | control-center/discovery.jsx:551-556 | the tools row takes a label without a value exactly when, most common first, such a label comes before every label that all tools carry |
| `TierProposalLaws.ToolsRefusedExample` | control-center/discovery.jsx:546-612 | a Deployment whose only label has an empty value gets a tools row that is refused |
| `TierProposalLaws.ProposedTiersAccepted` | control-center/discovery.jsx:546-619 | a proposed row is accepted by the independent validator exactly when its name is a DNS label of at most 30 characters that no other row has and it takes no label without a value |
| `TierProposalLaws.LabelValuesAccepted` | control-center/discovery.jsx:546-619 | for any tier values, all rows are accepted, but for a tools row that takes a label without a value, exactly when every value gives a name that is not empty, not cut right behind a dash, not config, not tools beside a tools row, and no two are cut to one name |
| `TierProposalLaws.DnsValuesAccepted` | control-center/discovery.jsx:546-619 | where the values are DNS labels of any length, the condition is on the values themselves |
| `TierProposalLaws.CutNameExample` | control-center/discovery.jsx:516-607 | the tier value of 29 letters a and -b, a DNS label, gets a row that is refused for its name |
| `TierProposalLaws.EveryWorkloadIsInATier` | control-center/discovery.jsx:546-565 | every reported Deployment and StatefulSet is selected by some proposed tier, and by one with an accepted selection unless it carries a label without a value or the tier is that of the tools |
| `TierProposalLaws.TiersInBootOrder` | control-center/discovery.jsx:513-565 | the rows of tier label values stand in the order of the sixteen listed names, others between app and api, one stage in the order of the names |
| `TierProposalLaws.StagesAre` | control-center/discovery.jsx:513-514 | each of the sixteen names boots before those listed after it, and an unlisted name after app and before api |
| `TierProposalLaws.ProposedGateIs` | control-center/discovery.jsx:567-571 | a proposed gate is a port check of a data tier against a reported service that has the name of one of the tier's objects |
| `TierProposalLaws.ProposedGatesAccepted` | control-center/discovery.jsx:557-638 | a proposed gate finds its pod by the label that most pods of the tools carry, of equally common ones the first by its text, and is accepted exactly when that label has a value |
| `TierProposalLaws.GateRefusedExample` | control-center/discovery.jsx:551-638 | a Deployment whose pods have one label, without a value, and a data tier with a service: the one gate proposed is refused for its pod |
| `RowChecks.GateRowChecked` | control-center/discovery.jsx:628-638 | any gate row is accepted exactly when it gates a tier, names a pod and a target or command, waits 1 to 3600 seconds if any, and its pod text parses and finds a pod where all is reported; each other row draws the error of the first thing wrong |
| `Addressing.AndLow` | control-center/discovery.jsx:329-333 | and-ing with a low mask, bit by bit, is the remainder |
| `Addressing.AndHigh` | control-center/discovery.jsx:329-333 | and-ing with a high mask, bit by bit, clears the low bits |
| `Addressing.MaskIs` | control-center/discovery.jsx:331 | the shifted 32-bit mask of every prefix 0 to 32 is 2^32 - 2^(32-bits) |
| `Addressing.BaseIs` | control-center/discovery.jsx:331 | the masked base is the block's first address, and the block stays within 32 bits |
| `Addressing.MaskRefinesInterval` | control-center/discovery.jsx:332-333 | the mask test is base <= ip < base + 2^(32-bits), for every prefix; a host id is below that size exactly inside, and base plus host id gives the address back |
| `Addressing.SameBlock` | control-center/discovery.jsx:331-332 | an address is in a block exactly when it has the same block itself |
| `Addressing.DecimalReads` | control-center/discovery.jsx:329-330 | a printed number reads back as itself, without a leading zero |
| `Addressing.NumeralPrints` | control-center/discovery.jsx:329-330 | a numeral without a leading zero prints back as itself |
| `Addressing.IpRoundTrip` | control-center/discovery.jsx:329-330 | every 32-bit number printed as an address reads back, and the print is canonical |
| `Addressing.CanonicalRoundTrip` | control-center/discovery.jsx:329-330 | an address that reads prints back as itself exactly when it is canonical |
| `Addressing.IpRange` | control-center/discovery.jsx:329 | an address reads as a number below 2^32 |
| `Addressing.AddressIs` | control-center/discovery.jsx:329 | a text is an address exactly when it is four numbers up to 255 with dots between them, leading zeros allowed, and the number is theirs in base 256 |
| `Addressing.ParsedCidr` | control-center/discovery.jsx:331 | whatever CIDR text is accepted is a block of some address and prefix |
| `Addressing.BlockIs` | control-center/discovery.jsx:331 | a text is a block exactly when it is, between white space, an address, a slash and one or two digits of at most 32 |
| `Addressing.BlockTextReads` | control-center/discovery.jsx:331-336 | a printed block reads back as the block |
| `Networks.InferredSubnet` | control-center/discovery.jsx:334-336 | a subnet is inferred exactly when there are addresses and all share one /24; it is that /24 and contains them all |
| `GuestNetworks.SubnetIs` | control-center/discovery.jsx:341-347 | a NAD's subnet is the first of its IPAM ranges that is a block, else what its VMs' addresses infer |
| `GuestNetworks.AddressesAre` | control-center/discovery.jsx:334-339 | the addresses on a NAD are the IPv4 ones its VMs report there, without their prefix length |
| `GuestNetworks.SegmentsAre` | control-center/discovery.jsx:350-355 | two NADs are one segment exactly when they share a bridge or master and a VLAN and have one of them |
| `Networks.ProposeReserved` | control-center/discovery.jsx:442-446 | the nested loops collect the reserved ids the function gives |
| `Networks.ReservedAre` | control-center/discovery.jsx:442-446 | the proposed ids are strictly ascending and are exactly 1 and the host ids of the DHCP servers of the segment |
| `Networks.ReservedTextReads` | control-center/discovery.jsx:442-455 | the joined ids are read back by the validator as the same numerals |
| `Networks.ProposedRowAccepted` | control-center/discovery.jsx:442-460 | the guest row validator accepts the proposed ids with any DHCP reference exactly when the prefix is at most 30, the VMs are inside, every server sits on a host address and the reference is empty or known |
| `Networks.InferredRowAccepted` | control-center/discovery.jsx:336-460 | on an inferred subnet, acceptance comes down to the servers sitting on host addresses and the DHCP reference being empty or known |
| `GuestNetworks.GuestRowChecked` | control-center/discovery.jsx:448-460 | any guest row is accepted exactly when it has no block or one that holds every VM address on the NAD and every reserved id as a host, and its DHCP server is known; each other row draws the error of the first thing wrong |
| `TestNetworks.BubbleServersAre` | control-center/discovery.jsx:421-427 | a server is a bubble server exactly when it serves a test network, by NAD or by bridge and VLAN, or is attached to a NAD with a bubble name |
| `GuestNetworks.IsolatedIs` | control-center/discovery.jsx:259-266 | a site's isolated NAD is the first outside the namespaces of DHCP servers that mentions drtest, isolat or bubble, else the first that mentions test, else none |
| `GuestNetworks.TestNadsAre` | control-center/discovery.jsx:383-386 | a site's test networks are the isolated NADs of the paths that test on it and the one it reports |
| `TestNetworks.TestChoiceIs` | control-center/discovery.jsx:362-378 | the recommendation is a registration for the cluster whose ConfigMap is that of a server seen on the isolated network, and there is one whenever any suits; else the candidate is a server there whose ConfigMap no registration names, whenever there is one |
| `GuestNetworks.TestChoiceIsFirst` | control-center/discovery.jsx:362-378 | the recommendation is the first by name of the registrations that suit, the candidate the first server on the NAD that can be registered |
| `GuestNetworks.GuestProposalIs` | control-center/discovery.jsx:432-439 | a registration is proposed exactly when one names the ConfigMap of a server on a role's NAD that is no bubble server, as the first to name that of the server given beside it; else such a server with a ConfigMap is given exactly when there is one; none on an earlier NAD is left aside |
| `TestNetworks.TestAndGuestServersApart` | control-center/discovery.jsx:362-439 | where no two servers read one ConfigMap, the server of the test network and the one proposed for guest networks never coincide, registered or discovered |
| `TestNetworks.SameServerSharesConfig` | control-center/discovery.jsx:362-439 | discovered servers never coincide at all, and registered ones only where a server of the test network shares its ConfigMap with another found for the guests |
| `TestNetworks.ChoicesCanCoincide` | control-center/discovery.jsx:362-439 | for some registrations they do coincide exactly when two such servers share a ConfigMap |
| `TestNetworks.SharedConfigExample` | control-center/discovery.jsx:362-439 | two servers of one ConfigMap: both networks are given the same registration |
| `TestNetworks.IsolatedIsOffered` | control-center/discovery.jsx:394-417 | the site's isolated network, when there is one, is offered, marked isolated and never refused; isolated networks come first and production networks last, each in the order of their names |
| `TestNetworks.ProductionIsRefused` | control-center/discovery.jsx:394-417 | an offered network is refused exactly when it is no test network and production VMs or a server that is no bubble server are on it |
| `TestNetworks.OfferedAre` | control-center/discovery.jsx:397-401 | a NAD is offered unless a DHCP server has it in its own namespace and is attached to it |
| `Paths.ProposeFrom` | control-center/discovery.jsx:271-280 | the inner loop lists the paths from one site |
| `Paths.ProposePaths` | control-center/discovery.jsx:267-282 | the nested loops list the paths of all sites |
| `Paths.ProposedPathsAre` | control-center/discovery.jsx:267-282 | for distinct sites there are exactly k(k-1) proposals, each ordered pair of two sites once |
| `Paths.ProposalJoins` | control-center/discovery.jsx:267-282 | each proposal joins two sites of the plan: sync exactly when they share a cluster, with the isolated NAD of the target's cluster, Failover and Relocate always and Test exactly when the clusters differ and there is such a NAD, and the plan's first method of its kind, else its first, else none |
| `Paths.MarksAreDeclarations` | control-center/discovery.jsx:276-279 | a proposal is marked exactly when its pair is declared, with the name of the first path that declares it |
| `Paths.ProposalAccepted` | control-center/discovery.jsx:267-300 | between sites whose names are DNS labels a proposal is accepted by the validator exactly when it is not declared, its name is not cut right behind a dash and is on no path, and a tested NAD has the form namespace/name; between any sites the name has to be a DNS label |
| `Paths.PathNameIsLabel` | control-center/discovery.jsx:277 | the name proposed for two sites whose names are DNS labels is one exactly when it is not cut, or not right behind a dash |
| `Paths.CutNameExample` | control-center/discovery.jsx:277 | from a site whose name has 59 or 62 characters every proposed name ends in a dash of the separator |
| `Paths.PathChecked` | control-center/discovery.jsx:284-302 | any path can be declared exactly when it joins two different sites of the plan, is not declared, has a fresh DNS label of at most 63 characters and, if it tests, a NAD of two DNS labels and well-formed figures; each other one draws the error of the first thing wrong |
| `Paths.NamesCanClash` | control-center/discovery.jsx:267-282 | a plan of four sites named by DNS labels has two proposals of one name |
| `Paths.NameClash` | control-center/discovery.jsx:277 | two ordered pairs get one name exactly when the sources are equal and the targets agree as far as 63 characters reach, or the source and separator of one, or all but the last character of them, begin the other source and the targets continue alike; sources over 59 characters clash by their own text alone |
| `Paths.UncutNameClash` | control-center/discovery.jsx:277 | for uncut names, one source being shorter: the other is it, the separator and some m, with m and the separator before the other target, or it and -to, with to- before the other target |
| `Paths.NamesAreDistinct` | control-center/discovery.jsx:267-282 | the proposals of a plan have distinct names exactly when no two of its pairs are so related |
| `Paths.ProposalsStayAccepted` | control-center/discovery.jsx:267-300 | declaring one acceptable proposal leaves another acceptable exactly when their pairs are not so related |
| `Paths.RunsStayConsistent` | control-center/discovery.jsx:284-300 | over every run of admitted declarations and removals, (plan, from, to) triples and names stay unique and no path joins a site to itself |
| `Paths.RunsJoinSites` | control-center/discovery.jsx:284-300 | over every run each path joins two sites of its plan as the plan was when it was declared, unless it was there at first |
| `Paths.OthersStayAccepted` | control-center/discovery.jsx:284-300 | declaring one accepted path leaves another acceptable exactly when they share neither name nor pair |
| `RequestCache.ControlPlane.constructor` | control-center/cpapi.jsx:29-30 | the cache starts empty |
| `RequestCache.ControlPlane.Get` | control-center/cpapi.jsx:38-61 | a call is the Call step of the state machine and returns the request that step serves |
| `RequestCache.ControlPlane.Finish` | control-center/cpapi.jsx:42-57 | a settled request is the Succeed or Reject step |
| `RequestCache.ControlPlane.HandleFailure` | control-center/cpapi.jsx:59 | the rejection handler is the step that empties the entry of its path |
| `RequestCache.RunKeeps` | control-center/cpapi.jsx:29-61 | every run keeps the invariant that ties cache, requests and history together |
| `RequestCache.ServesOnlyFresh` | control-center/cpapi.jsx:38-61 | after any run a call is served a request for its path started less than 3000 ms before and not yet handled as failed; it starts none exactly when the history remembers a young one |
| `RequestCache.HandledIsGone` | control-center/cpapi.jsx:58-59 | no failed request whose handler ran is in the cache, and the handler leaves its path empty |
| `RequestCache.CloseStartsHaveFailure` | control-center/cpapi.jsx:38-61 | two starts on one path less than 3000 ms apart have a handled failure on the path between them |
| `RequestCache.LoadIsBounded` | control-center/cpapi.jsx:38-61 | without such a failure, a window of w ms holds at most w/3000 + 1 starts on a path |
| `RequestCache.LateFailureDropsNewer` | control-center/cpapi.jsx:58-59 | the handler of a failed request removes another request's entry exactly when a later start on its path is still remembered; the next call starts another however young that entry was |
| `RequestCache.LateFailureExample` | control-center/cpapi.jsx:58-59 | a run in which that starts a third request beside a pending one |
| `FailureDomains.CountDomains` | control-center/deploy.jsx:213-214 | the counting loop is the tally of the labels that are there |
| `FailureDomains.LevelIsEven` | control-center/deploy.jsx:215-219 | counts differ by at most one exactly when they are even shares of their sum: sum mod k of them one above the others |
| `FailureDomains.ReadyMeansEvenShares` | control-center/deploy.jsx:211-227 | the wizard's failure-domain checks pass exactly when all n hosts are labelled, there are at least two domains, n is at least twice their number and each holds its even share of n; then n is at least 4 |
| `FailureDomains.EligibleHosts` | control-center/actions.jsx:623-628 | the filter offers, in order, the hosts the rule admits |
| `FailureDomains.AddKeepsBalance` | control-center/actions.jsx:623-628 | where the real domains are balanced, adding a labelled host keeps them so exactly when its domain is one of the smallest existing ones; the filter admits just these if the nodes without a domain are not fewer, else no existing one |
| `FailureDomains.RunsKeepBalance` | control-center/actions.jsx:623-628 | every run of admitted hosts into existing domains keeps the real domains balanced |
| `FailureDomains.SomeDomainIsEligible` | control-center/actions.jsx:623-628 | some existing domain is open to a host exactly when the nodes without a domain, if there are any, are not fewer than those of every real one |
| `FailureDomains.EligibleIs` | control-center/actions.jsx:623-628 | an existing domain is admitted exactly when it is one of the smallest real ones and the nodes without a domain are not fewer |
| `FailureDomains.UnassignedClosesAll` | control-center/actions.jsx:623-628 | two domains of three nodes and two nodes in none: neither domain is admitted, although either could take a node |
| `FailureDomains.RunsLevelOut` | control-center/actions.jsx:623-628 | from any state, once the deficit to the largest real domain is filled, the real domains hold even shares from there on |
| `FailureDomains.EqualStaysEven` | control-center/actions.jsx:623-628 | from real domains of m nodes each, j additions leave exactly j mod k domains at m + j/k + 1 and the others at m + j/k |
| `FailureDomains.NewDomainRecovers` | control-center/actions.jsx:623-628 | the rule also admits a new domain, which breaks the balance of the real ones; admitted additions that fill the deficit restore it |
| `FailureDomains.NewDomainExample` | control-center/actions.jsx:623-628 | two domains of two nodes: a host of a third is admitted and breaks the balance |
| `Lanes.Renumber` | control-center/actions.jsx:1773-1775 | the renumbering by sorted distinct priorities gives every item its lane |
| `Lanes.LanesField.constructor` | control-center/actions.jsx:1762 | the field starts with the chosen items |
| `Lanes.LanesField.Put` | control-center/actions.jsx:1768-1776 | put replaces the value by the list with the item taken out, put in its place and lanes closed up |
| `Lanes.LanesField.Remove` | control-center/actions.jsx:1800 | removal takes the item out and renumbers nothing |
| `Lanes.UsedPriorities` | control-center/actions.jsx:1774-1775 | the position of a priority among the sorted distinct ones is the number of distinct priorities up to it |
| `Lanes.LanesKeepOrder` | control-center/actions.jsx:1774-1775 | renumbering keeps lower lower and equal equal, both ways |
| `Lanes.ClosedIsContiguous` | control-center/actions.jsx:1773-1775 | after renumbering the lanes are exactly 1 to k, whatever the gaps before |
| `Lanes.PutKeepsList` | control-center/actions.jsx:1768-1776 | the other items keep their list order, and the moved item stands immediately before the given one when that is present, else last |
| `Lanes.PutKeepsLanes` | control-center/actions.jsx:1768-1776 | from any state, lanes are 1 to k after put and keep the order of the priorities given |
| `Lanes.PutKeepsDistinct` | control-center/actions.jsx:1769 | items stay distinct |
| `Lanes.RemovalLeavesGap` | control-center/actions.jsx:1800 | after removal lanes are still 1 to k exactly when the item shared its lane or was alone above all others |
| `Lanes.RemovalGapExample` | control-center/actions.jsx:1800 | removing the only item of lane 1 leaves the other in lane 2 |
| `Lanes.RunsKeepItems` | control-center/actions.jsx:1768-1800 | over every run of puts and removals items stay distinct, and lanes are 1 to k whenever the last edit was a put |
| `Shards.GraphCache.constructor` | control-center/discover.jsx:108 | the cache starts empty |
| `Shards.Decode` | control-center/discover.jsx:134-143 | a wrong count, mixed generations, bytes that do not decompress and a text of another digest are told apart, else the text is returned; the bad-index error never is |
| `Shards.GraphCache.LoadGraph` | control-center/discover.jsx:121-148 | a call answers what is kept for its key, else reads, decodes and keeps what decodes; a missing graph and a failed read are told apart and keep nothing |
| `Shards.CacheHoldsFirst` | control-center/discover.jsx:121-148 | over every run a graph is kept for a key exactly when some call decoded it, and it is what the first such call gave |
| `Shards.Fill` | control-center/discover.jsx:137-138 | the loop scatters the shards by index over a sparse array |
| `Shards.Concatenate` | control-center/discover.jsx:140-141 | copying at a moving offset fills the buffer with the chunks in index order |
| `Shards.Copy` | control-center/discover.jsx:141 | set writes the data at the offset and nothing else |
| `Shards.HolesGoUnseen` | control-center/discover.jsx:134-139 | the array has a hole exactly when an index below its length is missing; a test that skips holes cannot see it |
| `Shards.ReassembledIs` | control-center/discover.jsx:134-141 | whatever the indices, the bytes are the last data under each index in ascending order; data under no index is dropped |
| `Shards.PresentThenPast` | control-center/discover.jsx:134-141 | the bytes are the chunks that are there, in order, and then what was stored past the end |
| `Shards.ReassemblyIsExact` | control-center/discover.jsx:134-141 | with nothing stored past the end the stream comes back exactly when every chunk no shard carries is empty; otherwise only if just as many bytes are missing as were stored there |
| `Shards.AnyOrderReassembles` | control-center/discover.jsx:134-141 | shards with distinct indices in range give back the stream they were cut from in any order of arrival |
| `Shards.DigestStopsLoss` | control-center/discover.jsx:134-143 | where the digest tells the written text from all others, shards of one write decode to it or not at all, whatever their indices, and do decode when nothing is lost |
| `Shards.DuplicateIndexCutsStream` | control-center/discover.jsx:134-143 | two shards of one index lose a chunk |
| `Shards.MissingIndexCutsStream` | control-center/discover.jsx:134-141 | a shard without an index is dropped, and count and generation agree |
| `Overrides.DeployWizard.constructor` | control-center/deploy.jsx:173-187 | the wizard starts without overrides |
| `Overrides.DeployWizard.SetForm` | control-center/deploy.jsx:269 | editing the form touches no override |
| `Overrides.DeployWizard.SetOvOf` | control-center/deploy.jsx:199 | a patch replaces one host's override |
| `Overrides.DeployWizard.SetQuickFilter` | control-center/deploy.jsx:340 | editing the quick filter sets it and clears the host's device overrides |
| `Overrides.DeployWizard.ToggleSocket` | control-center/deploy.jsx:337-338 | a click on a socket chip fixes the host's socket list without or with it |
| `Overrides.DeployWizard.ToggleDevice` | control-center/deploy.jsx:346-349 | a click on a device chip records it as dropped or as added |
| `Overrides.ClickFlips` | control-center/deploy.jsx:198-201 | a click flips its device and changes no other device, host or socket |
| `Overrides.LogDecides` | control-center/deploy.jsx:198-201 | after every run of clicks, searches and form edits, a device is selected as its last click since the last search on its host says, else as the filters say now; and none is both added and dropped |
| `Overrides.FiltersSay` | control-center/deploy.jsx:201 | where nothing was clicked a device is selected exactly when it is free, of the chosen class if any, fits the other filters and matches the search if any |
| `Overrides.SocketFlips` | control-center/deploy.jsx:337-338 | a click flips its socket and keeps the others, each once |
| `Overrides.LogDecidesSockets` | control-center/deploy.jsx:192-200 | after every run the sockets in use, each once, are those the form gives until the first click on the host and every click flips from then on |
| `Overrides.SocketsSay` | control-center/deploy.jsx:192-200 | where no socket was clicked those in use are the two or the one of the form that the host has, a host without a count having one |
| `DeployPlan.PlanFollowsLog` | control-center/deploy.jsx:198-207 | after every run the plan holds a device exactly when it is free, on a socket in use and selected, and holds it once |
| `DeployPlan.PlanOfClass` | control-center/deploy.jsx:198-207 | the plan is of the chosen device class exactly when no click made under another class still selects a free device on a socket in use |
| `DeployPlan.WrongClassExample` | control-center/deploy.jsx:198-207 | a click and then a change of class put a device of the wrong class into the plan |
| `DeployPlan.PlanIsDocument` | control-center/deploy.jsx:203-207 | the page's device count and bytes are those of the very devices the deployment document lists |
| `Hosts.HostKeyIs` | control-center/cpapi.jsx:67 | the machine of hostname name_port is name, and any other hostname is its own machine |
| `Hosts.AddNicsTo` | control-center/cpapi.jsx:442 | the loop adds the NICs whose name is not there yet |
| `Hosts.GroupHosts` | control-center/cpapi.jsx:431-444 | the loop over the nodes gives one machine per key, each summed up over exactly its nodes in their order |
| `Hosts.NodesByKey` | control-center/cpapi.jsx:431-444 | every node is on the machine its hostname names and on no other; machines have distinct names, at least one node and the sum of their nodes' capacity |
| `Hosts.GroupingConserves` | control-center/cpapi.jsx:431-444 | the machines together hold every node once, every device that was read and all the capacity |
| `Hosts.NicsAreFirst` | control-center/cpapi.jsx:442 | a machine lists every reported NIC name once, with the first NIC of that name |
| `Hosts.CountIsHostsCount` | control-center/cpapi.jsx:211-218 | the host view has as many hosts as the cluster counts |
| `Hosts.AvailableIsHostsAvailable` | control-center/cpapi.jsx:213-218 | it has as many available hosts as the cluster counts, before the inventory has its say |
| `HostRecords.DraftGroupOf` | control-center/cpapi.jsx:284-292 | the search returns the first group, in the order of deployments, node sets and groups, that has the host among its workers, and none exactly when no group has it |
| `HostRecords.HostRecord.constructor` | control-center/cpapi.jsx:433-436 | a record starts with its devices, its availability and the mapped site as a field without a source |
| `HostRecords.HostRecord.Set` | control-center/cpapi.jsx:298-301 | a known value is written with its source, an unknown one leaves both as they were |
| `HostRecords.HostRecord.FromNodes` | control-center/cpapi.jsx:302-312 | the fields the storage nodes give are written in order |
| `HostRecords.HostRecord.FromInventory` | control-center/cpapi.jsx:314-323 | the inventory's fields are written over them, and a host not ready is no longer available |
| `HostRecords.HostRecord.AddDrafts` | control-center/cpapi.jsx:332-336 | the loop adds a device for every draft address not listed |
| `HostRecords.HostRecord.FromDraft` | control-center/cpapi.jsx:325-338 | the draft's fields are written, two of them only where no source is recorded |
| `HostRecords.HostRecord.CountDevices` | control-center/cpapi.jsx:341-343 | assigned and free devices add up to all devices |
| `HostRecords.HostRecord.MergeHost` | control-center/cpapi.jsx:296-347 | the merge is the three sources one after the other and what follows from the devices |
| `HostRecords.MaxIs` | control-center/cpapi.jsx:303-308 | the maximum over the nodes is the highest positive number one of them gives, and missing exactly when none gives one |
| `HostRecords.SumIs` | control-center/cpapi.jsx:303-309 | the sum over the nodes adds the positive numbers they give, and is missing when none gives one |
| `HostRecords.NicNamesSay` | control-center/cpapi.jsx:312 | the data NICs are the names of the NICs in order, without empty ones |
| `HostRecords.KnownIs` | control-center/cpapi.jsx:298-301 | a source knows a field unless it has nothing there, an empty text or an empty list |
| `HostRecords.FieldsHaveTheirSource` | control-center/cpapi.jsx:296-331 | every field holds the value of the first source that knows it, in the order inventory, storage nodes, draft, and is recorded under that source; a field no source knows has no source |
| `HostRecords.DevicesSourceIs` | control-center/cpapi.jsx:310-340 | the device list is put down to the control plane when every node answered, else to the draft when there is one and any device; the host class is made of the device kinds under that source |
| `HostRecords.DraftsListed` | control-center/cpapi.jsx:332-336 | the host's devices stay, every draft address is listed, what is added was not listed before, and addresses are distinct after exactly when they were before |
| `HostRecords.DraftsAreFree` | control-center/cpapi.jsx:332-343 | draft devices count as free |
| `HostRecords.DraftSourceIsWhole` | control-center/cpapi.jsx:310-337 | a device list put down to the draft is all the draft's exactly when no node gave a device |
| `HostRecords.DraftSourceExample` | control-center/cpapi.jsx:284-337 | with one node's devices unread, a device of another node is put down to the draft found for the host, which names none |
| `HostRecords.DemotedAreTheDifference` | control-center/cpapi.jsx:314-323 | after the merge the available hosts are the cluster's count less the online hosts the inventory has as not ready |
| `Replication.PairCountIsSum` | control-center/api.jsx:488-509 | a pair counts at most as many slots as its policies together, and as many exactly when no slot names a policy that the pair has twice |
| `Replication.DoubleCountExample` | control-center/api.jsx:488-511 | two policies of one name in a pair: their lists hold a slot twice, the pair's list once |
| `Replication.StatesCommute` | control-center/api.jsx:504-506 | counting the slots of a state before or after the join is the same, for a pair and for a policy |
| `Replication.LateAreReplicating` | control-center/api.jsx:513-525 | late slots are the replicating ones last moved more than two intervals ago, and as the clock goes on none stops being late |
| `Replication.ListedWhenNamed` | control-center/api.jsx:490-492 | a slot is on a pair's list exactly when some policy of the pair has the name the slot gives |
| `Replication.PairsShareOutSlots` | control-center/api.jsx:488-509 | with distinct names the pairs' lists are disjoint and hold together, once each, exactly the slots whose policy and pair exist |
| `Replication.ClusterListIs` | control-center/api.jsx:981-986 | a policy is on a cluster's list exactly when a pair of the name it gives has that source cluster |
| `Replication.ListedWhereShown` | control-center/api.jsx:517-532 | a policy is listed for the cluster it shows and for no other exactly when no pair of that name has another source cluster |
| `GraphView.ScopeNodes` | control-center/discover.jsx:300-306 | the loop gives the core and every node an edge joins to it |
| `GraphView.FillColumns` | control-center/discover.jsx:313-314 | the loop puts every node into the column of its kind, in order |
| `GraphView.SortedKeys` | control-center/discover.jsx:315 | the used columns come in ascending order |
| `GraphView.Layout` | control-center/discover.jsx:316-318 | every node gets the place of its column and row |
| `GraphView.BoxesApart` | control-center/discover.jsx:313-320 | boxes keep their gaps exactly when no two nodes share an id; then all are inside the drawing, and columns run from left to right: external, services, workloads, volumes, networks, namespaces |
| `GraphView.DrawingSays` | control-center/discover.jsx:316-320 | boxes of 168 by 22 stand 64 and 10 apart with 8 around the drawing |
| `GraphView.ScopeHasHeight` | control-center/discover.jsx:300-320 | what a namespace shows always has a height; what a candidate shows has one exactly when the graph holds a member or a node an edge joins to one |
| `GraphView.NoHeightExample` | control-center/discover.jsx:300-320 | a candidate whose member is gone has ids to draw and no height |
| `GraphView.CoreEdgesDrawn` | control-center/discover.jsx:300-321 | an edge of the core is drawn exactly when its kind is chosen and the graph holds both its ends |

## Left out

Parts of the console that are not modelled:

- React components, rendering, menus, toasts, local storage and navigation; `fetch`, the Kubernetes client and promise
  plumbing beyond the start, settle and handle steps of the request cache.
- The Dialog's grouping of fields into sections, the dialog registries, the action gating tables and the wire-to-view
  field renames: each is read off one body.
- Cross-site role pairing (`proposeRoles`), storage-class matching, namespace options and test-id naming.
- gzip, base64 and SHA-256: decompression is any function from bytes to a text that may fail, a digest any function
  from texts to texts. Reading the JSON text and the indexes made from it are not modelled, nor why a read failed.
- The texts of error messages: a validator returns which error it found, or which branch it took.
- The pattern tests on names (isolated NADs, bubble names, tier keys) and the formats of quantities and durations are
  parameters or are modelled only as far as a property needs them; `localeCompare` is a parameter, required to be an
  ordering where sorting matters.
- JavaScript number readings other than plain decimal numerals (`Number("")`, hexadecimal, exponents), inherited
  property names as map keys, and the order in which objects list integer-like keys. Maps keep the order of insertion.
- Letter case beyond ASCII in lower-casing and in the word exists.

Where a contract says less than the source does:

- Selectors.ParseSelector: carries the parts of an error, not its wording.
- TestNetworks.TestAndGuestServersApart: compares servers by what they hold, where the code compares references.
- TierProposalLaws.ProposedTiersAccepted: is about objects whose labels have distinct keys without separators or outer
  blanks, as Kubernetes guarantees, and values that are empty or likewise clean.
- Paths.RunsStayConsistent: a run starts from the paths given, and two consoles that declare at the same moment are not
  modelled.
- FailureDomains.EligibleHosts: takes the hosts after the tests on status, zone, node count and free devices, by their
  domain label, and the domains by distinct names; the dialog's free-text domain field, which can name another domain
  than the host's, is not modelled.
- FailureDomains.RunsKeepBalance: no host is in a domain that is itself called unassigned.
- Lanes.LanesField.Put: takes the priority it is given; that the editor offers only lanes up to one more than the
  highest is not modelled.
- Shards.GraphCache.LoadGraph: takes what reading the shards gives as an input, and the key as one text.
- Overrides.LogDecides: reads the state as it is at a click; a click handled with the values of an earlier rendering is
  not modelled. The text search and the other device filters are parameters.
- Hosts.GroupHosts: the machines are values while they are gathered; the record a machine becomes is an object, and the
  merge changes its fields in place.
- HostRecords.FieldsHaveTheirSource: quantities of the inventory and of the draft come as numbers already read, and the
  zone id as the text made from site and zone.
- Replication.PairCountIsSum: is about the lists; a policy's own count shows the operator's figure when there is one.
- GraphView.BoxesApart: gives the boxes; the curves of edges and their widths are not modelled.
