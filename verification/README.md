# Verified models of the inventory builder, the Terraform inventory and the test runner

Three programs of the repository are modelled in Dafny and proved correct against their own promises.

**The inventory builder** (`contrib/inventory_builder/inventory.py`) turns command-line arguments and a saved
inventory into a new inventory. `Inventory.dfy` says what one invocation computes; the class in
`KubesprayInventory.dfy` updates hosts and role groups in place, as the program does, and is proved to compute just
that. On top of it stand laws about one build (`BuildLaws.dfy`), about each kind of argument and about which command
lines save (`ArgumentLaws.dfy`), about host names given on the command line (`GivenNames.dfy`), about purging and roles (`RoleLaws.dfy`, resting on `GroupOrder.dfy`), about keeping the roles of a
large cluster apart and about the groups by the place of each host (`Separation.dfy`), about whole sequences of invocations, each with its own settings and reading the
file the previous one left (`RunLaws.dfy`), and about runs made of addresses only (`AddressRuns.dfy`). `Ranges.dfy` holds IPv4 addresses and ranges, and `Counterexamples.dfy` concrete
command lines on which a natural promise fails.

**The Terraform inventory** (`contrib/terraform/terraform.py`) flattens state attributes into dotted keys and reads
structure back from them (`Flatten.dfy`, `FlattenLaws.dfy`, `Paths.dfy`, `ReadBack.dfy`, `ParseLaws.dfy`), then groups
hosts and patches floating addresses (`HostGroups.dfy`).

**The test runner** (`tests/shebang-unit`) counts test functions in an on-disk database and writes a JUnit report.
`TestRun.dfy` gives a run on values, `TestRunner.dfy` the program over its database, `Accounting.dfy` the laws of the
counters, `JunitReport.dfy` a strict reader of reports, outputs included, `JunitLaws.dfy` the proof that this reader
accepts every report, `JunitNames.dfy` exactly what it finds there, and `ReportTexts.dfy` the titles, times and trimmed
outputs that are written. `XmlText.dfy` is the escaper, `Shuffle.dfy` the random order.

`Text.dfy`, `OrderedDict.dfy`, `Outcomes.dfy` and `NameLists.dfy` hold strings, insertion-ordered dictionaries,
results and list laws. `dafny verify dfyconfig.toml` checks everything.

## Where a promise holds only under a condition

The code is modelled as it stands; where a natural promise fails, the exact boundary is proved.

- A host named like a role is never purged from `all`: the saved hosts are the built ones if and only if no deleted
  host has such a name (`RoleLaws.SavedNamesAreBuiltNames`); `Counterexamples.RoleNameSurvivesDeletion` shows two runs
  that leave a deleted host.
- The saved hosts stand in another order than the built ones when a deleted host is added back: the two tables are equal
  if and only if the survivors stand in front in their old order (`RoleLaws.SavedTableIsBuiltTableIff`).
- Therefore deleting hosts and adding them back in one run can break the etcd prefix. One run keeps it if and only if,
  with three hosts or more, every surviving member is among the first three built hosts, and no host that joins
  `etcd` overtakes another: whatever precedes it in the saved order precedes it in the built order
  (`RoleLaws.EtcdStaysPrefixIff`, over sequences of runs `RunLaws.EtcdAlwaysPrefixIff`). The first half alone decides
  the size (`RoleLaws.ThreeEtcdMembersIff`); `RunLaws.ReaddingAnEtcdHostExceedsThree` breaks it, and
  `Counterexamples.ReaddingSwapsHosts` breaks only the second half. The control plane has the same kind of condition
  (`RunLaws.ControlPlaneAfterRunIff`, `RunLaws.ControlPlaneAlwaysFirstIff`), broken in
  `RunLaws.ReaddingDisplacesControlPlane`; the nodes need none (`RunLaws.NodesOverRuns`).
- Members are never moved from one group to another, and `set_calico_rr` looks hosts up in the group record instead of
  its hosts, so a cluster that grows past a threshold does not get the separate roles that a fresh one gets
  (`AddressRuns.FreshRunAtScale`). `Separation.EtcdApartFromNodesIff` and the four lemmas beside it say exactly when two
  groups stay apart; in `Counterexamples.GrowingKeepsRolesTogether` the first host ends up in all four.
- A generated name can overwrite a host that the same command line named. A given name is never generated as well,
  whatever else is on the command line, if and only if it is no generated name with a number above the highest loaded
  one (`GivenNames.GivenNameIsHarmlessIff`); a concrete case is `BuildLaws.GivenNameCanBeOverwritten`.
- The search for the highest host number works exactly for prefixes without a dot (`BuildLaws.GeneratedNameIdIff`).
- A dictionary value with a key `%` overwrites its own length marker: flattening is lossless over well-named trees if
  and only if no dictionary value has that key (`FlattenLaws.NothingIsLostIff`, `FlattenLaws.PercentLosesLength`).
- A test file that exits the shell while it is sourced loses its tests unless an earlier failure left the
  `global_setup` flag at "yes": the counters add up if and only if this never happens
  (`Accounting.AccountingIsConservedIff`, `Accounting.LostTestIsNotCounted`), and the same condition decides whether every
  suite of the report declares as many tests as it has cases (`JunitNames.DeclaredCountsIff`).
- The end of a test fills its time in wherever the time variable stands in the whole report: suites and cases carry the
  names and outputs of their files and tests if and only if no text that meets a time holds that variable
  (`JunitNames.ReportTellsRunIff`). Test functions cannot have such a name, as the declarations that are found hold only
  letters, digits, `_` and `-` (line 38 of `tests/shebang-unit`); file names can (`JunitNames.VariableFileIsNotTold`).
- `exit 0` in `setup` or `teardown` counts a test as passed whatever the test did (`Accounting.SuccessOfATest`).
- A host in both the group `all` and the group without a name is listed twice under `all`: `all` lists each of its hosts
  once if and only if there is no such host (`HostGroups.AllListsOnceIff`, `HostGroups.ListedTwice`).
- A group called `_meta` gives way to the host variables: the listing conserves all memberships if and only if no host
  names that group (`HostGroups.ListingConservesMembershipsIff`, `HostGroups.MetaIsLost`).
- Hosts can share a name: the query for one host agrees with the listing if and only if the first and the last host of
  the name carry the same variables (`HostGroups.HostQueryAgreesIff`, `HostGroups.HostQueryDiffers`).
- `RANDOM` gives no number above 32767: every order of distinct elements can come out of the shuffle if and only if there
  are at most 32768 of them (`Shuffle.EveryOrderComesOutIff`).

The header comment of `inventory.py` (lines 18-19) says that a bare address adds a host to an existing inventory; the
code starts a new inventory unless the first argument is `add` or starts with `-`. The model follows the code.

## Model

| member | source | states |
|---|---|---|
| Ranges.PrintedAddressParses | contrib/inventory_builder/inventory.py:273-282 | printing any 32-bit address in dotted form and parsing it gives the address back |
| Ranges.ParsedAddressPrints | contrib/inventory_builder/inventory.py:273-282 | the parser accepts exactly one spelling of each address (dec-octet, section 3.2.2 of RFC 3986) |
| Ranges.ExpandPrinted | contrib/inventory_builder/inventory.py:270-293 | expanding printed addresses and ranges gives, in order, exactly the addresses they mean |
| Ranges.Range2Ips | contrib/inventory_builder/inventory.py:284-293 | the loop over the arguments computes their expansion, or fails at a range that does not parse |
| BuildLaws.DeletedMeans | contrib/inventory_builder/inventory.py:213-220 | a deletion removes the host of that name, or else of that address, and nothing else |
| ArgumentLaws.DeletionMeans | contrib/inventory_builder/inventory.py:211-220 | a `-x` argument removes the host named x, or else the host with the address x, and changes nothing else |
| ArgumentLaws.KnownArgumentIsSkipped | contrib/inventory_builder/inventory.py:230-232 | an argument that is itself a host name adds nothing |
| ArgumentLaws.BareNameMeans | contrib/inventory_builder/inventory.py:251-266 | a name without a comma writes the last name that came with an address, with the last address read, or fails when there is none |
| ArgumentLaws.ArgumentsLeaveVariables | contrib/inventory_builder/inventory.py:223-257 | which name and address an argument leaves for such a bare name |
| ArgumentLaws.NoRangeStays | contrib/inventory_builder/inventory.py:285-292 | names, deletions and arguments without a dash are passed through unchanged |
| ArgumentLaws.RangeMeans | contrib/inventory_builder/inventory.py:273-290 | any other argument with a dash gives the addresses between the two it holds, and fails if and only if it does not hold two |
| ArgumentLaws.StripMeans | contrib/inventory_builder/inventory.py:286-286 | what is stripped from a range is the space around it and nothing else |
| ArgumentLaws.IpRangeMeans | contrib/inventory_builder/inventory.py:273-282 | a range holds every address from its start up to and including its end, in order |
| ArgumentLaws.OtherArgumentIsSkipped | contrib/inventory_builder/inventory.py:211-251 | an argument that starts with neither dash, digit nor letter is passed over |
| BuildLaws.AddressPairMeans | contrib/inventory_builder/inventory.py:223-249 | `ip,access` adds a generated host with both addresses in their places, unless the address is known |
| BuildLaws.NamedHostMeans | contrib/inventory_builder/inventory.py:251-266 | `name,ip,access` writes that host, overwriting one of the same name in its place, unless the address is known |
| BuildLaws.BuildKeepsDistinctAddresses | contrib/inventory_builder/inventory.py:211-267 | names and addresses stay pairwise distinct through every argument list |
| BuildLaws.BuildInOrder | contrib/inventory_builder/inventory.py:210-267 | without re-adding, surviving hosts keep their order and precede all new hosts |
| BuildLaws.GeneratedNameId | contrib/inventory_builder/inventory.py:174-180 | the number read back from prefix and n is at least n, and exactly n when the prefix does not end in a digit |
| BuildLaws.HostIdMeans | contrib/inventory_builder/inventory.py:174-180 | the number of any name is the run of digits at the end of its part before the first dot, or none |
| BuildLaws.HighestIdIsMaximum | contrib/inventory_builder/inventory.py:188-204 | the highest number is the largest one on a loaded host with the prefix, and the search fails if and only if such a host has none |
| BuildLaws.GeneratedNameIdIff | contrib/inventory_builder/inventory.py:174-180 | that reading works for all numbers if and only if the prefix has no dot |
| BuildLaws.GeneratedNamesAreFresh | contrib/inventory_builder/inventory.py:190-249 | accepted addresses get maximum+1, maximum+2, ... in argument order, pairwise distinct, and never the name of a loaded host |
| BuildLaws.AcceptedAddressesAppendIf | contrib/inventory_builder/inventory.py:190-249 | every accepted address becomes a new last host if no given name is a generated one above the highest loaded number |
| BuildLaws.UnprefixedNamesAppend | contrib/inventory_builder/inventory.py:190-249 | in particular if no given name starts with the prefix |
| GivenNames.GivenNameIsHarmlessIff | contrib/inventory_builder/inventory.py:223-266 | a given name is never generated as well, whatever else is on the command line, if and only if it is no generated name above the highest loaded number |
| GivenNames.GivenNameIsKeptIff | contrib/inventory_builder/inventory.py:223-266 | on the command lines that give no other name every accepted address appends if and only if it is no such name |
| BuildLaws.GivenNameCanBeOverwritten | contrib/inventory_builder/inventory.py:243-249 | a concrete command line on which a generated name overwrites a given host |
| RoleLaws.SavedNamesAreBuiltNames | contrib/inventory_builder/inventory.py:311-347 | the saved hosts are the built hosts if and only if no deleted host is named like a role |
| RoleLaws.SavedTable | contrib/inventory_builder/inventory.py:320-347 | the saved table holds exactly the built entries: surviving loaded hosts in their old order, then the new ones as built |
| RoleLaws.SavedTableIsBuiltTableIff | contrib/inventory_builder/inventory.py:320-347 | the saved table is the built one, order included, if and only if the survivors stand in front in their old order |
| RoleLaws.RolesCoverHosts | contrib/inventory_builder/inventory.py:311-385 | role members are hosts, every host has a main role, and a surviving host loses no role |
| RoleLaws.EtcdStaysPrefixIff | contrib/inventory_builder/inventory.py:122-126 | one run keeps etcd a prefix of the host list, with its size, if and only if the built table keeps it in front |
| RoleLaws.ThreeEtcdMembersIff | contrib/inventory_builder/inventory.py:122-126 | with three hosts or more, exactly three etcd members if and only if all surviving ones are among the first three |
| RoleLaws.ControlPlaneStaysFirstIff | contrib/inventory_builder/inventory.py:130-131 | below the scale threshold the control plane stays exactly the first hosts if and only if the built table keeps it in front |
| RoleLaws.NodesStayHosts | contrib/inventory_builder/inventory.py:132-132 | below the thresholds the nodes stay exactly the hosts, in their order, whatever is added, deleted or added back |
| RoleLaws.FreshScaleSlices | contrib/inventory_builder/inventory.py:125-135 | a fresh large cluster cuts etcd, control plane, nodes and calico_rr as slices of the host list |
| Separation.FreshRoles | contrib/inventory_builder/inventory.py:122-135 | the groups of a fresh run of any size, in order, from the host list and the thresholds |
| Separation.RolesByPlace | contrib/inventory_builder/inventory.py:122-135 | the groups after any run, from the loaded groups and the place of each host: three etcd hosts or one, the control plane, calico_rr and the nodes |
| RoleLaws.AssignTwice | contrib/inventory_builder/inventory.py:122-135 | purging and assigning the same table again changes nothing |
| RunLaws.RunSavesBuiltHosts | contrib/inventory_builder/inventory.py:118-140 | each run saves exactly the hosts it built and takes no role from a surviving host |
| ArgumentLaws.RunSavesIff | contrib/inventory_builder/inventory.py:92-140 | when names come with a comma, a run saves if and only if it is no other command, names a host, finds the file it needs, and every argument and loaded name fits |
| ArgumentLaws.RunSavesOnlyIf | contrib/inventory_builder/inventory.py:92-140 | whatever the arguments are, a run that saves names a host and finds the file it needs |
| ArgumentLaws.RunWithoutHosts | contrib/inventory_builder/inventory.py:92-140 | without a host the program fails with its usage, or for want of a file; other commands never reach the builder |
| ArgumentLaws.FileChangesOnlyBySaving | contrib/inventory_builder/inventory.py:136-140 | the file changes only when a run saves, and no arguments and a bare `add` leave it alone |
| RunLaws.EveryRunIsSound | contrib/inventory_builder/inventory.py:82-140 | over every sequence of runs with any settings: distinct names and addresses, roles hold only hosts, every host holds a role |
| RunLaws.EtcdPrefixAfterRunIff | contrib/inventory_builder/inventory.py:82-140 | after one run etcd is a prefix of the saved hosts if and only if that run keeps it in front |
| RunLaws.EtcdAlwaysPrefixIff | contrib/inventory_builder/inventory.py:82-140 | over every sequence of runs etcd is a prefix after each of them if and only if each of them keeps it in front |
| RunLaws.EtcdPrefixOverRuns | contrib/inventory_builder/inventory.py:82-140 | over every sequence of runs that add back nothing they deleted, etcd is a prefix of the hosts: three if possible, never more, never empty |
| RunLaws.NodesOverRuns | contrib/inventory_builder/inventory.py:82-140 | over every sequence of runs below the thresholds the nodes are exactly all hosts, in their order |
| RunLaws.ControlPlaneAfterRunIff | contrib/inventory_builder/inventory.py:82-140 | below the scale threshold the control plane is the first hosts after one more run if and only if the run keeps it in front |
| RunLaws.ControlPlaneAlwaysFirstIff | contrib/inventory_builder/inventory.py:82-140 | over every sequence of runs below the scale threshold the control plane is the first hosts after each of them if and only if each of them keeps it in front |
| RunLaws.ControlPlaneOverRuns | contrib/inventory_builder/inventory.py:82-140 | over every sequence of careful runs below the scale threshold the control plane is exactly the first hosts |
| RunLaws.ReaddingAnEtcdHostExceedsThree | contrib/inventory_builder/inventory.py:213-266 | on every sound inventory of four hosts or more whose first name can be given as `name,ip` (a letter first, no comma), deleting and re-adding that host leaves more than three etcd members |
| RunLaws.ReaddingDisplacesControlPlane | contrib/inventory_builder/inventory.py:213-266 | deleting and re-adding such a first host below the scale threshold leaves a control plane that is not the first hosts |
| Counterexamples.ReaddingSwapsHosts | contrib/inventory_builder/inventory.py:122-126 | a concrete run that keeps three etcd members, all surviving ones among the first three built hosts, and still breaks the prefix |
| Counterexamples.RoleNameSurvivesDeletion | contrib/inventory_builder/inventory.py:311-326 | two concrete runs after which a deleted host named like a role is still saved |
| Separation.EtcdApartFromNodesIff | contrib/inventory_builder/inventory.py:367-381 | at scale etcd and the nodes share no host if and only if no surviving node was or becomes an etcd host |
| Separation.EtcdApartFromControlPlaneIff | contrib/inventory_builder/inventory.py:122-131 | at scale etcd and control plane share no host if and only if no old member of one was or becomes a member of the other |
| Separation.ControlPlaneApartFromNodesIff | contrib/inventory_builder/inventory.py:367-381 | at massive scale control plane and nodes share no host if and only if no surviving node was or becomes a control-plane host |
| Separation.CalicoRrApartFromControlPlaneIff | contrib/inventory_builder/inventory.py:354-360 | calico_rr and control plane share no host if and only if no old member of one was or becomes a member of the other |
| Separation.CalicoRrApartFromNodesIff | contrib/inventory_builder/inventory.py:361-365 | calico_rr and the nodes share no host if and only if no surviving node was or becomes a calico_rr host and all old calico_rr hosts are kept out of the nodes |
| Counterexamples.GrowingKeepsRolesTogether | contrib/inventory_builder/inventory.py:354-381 | whenever one more host takes a small cluster to the scale threshold its first host is in all four groups |
| Counterexamples.FourHostsGrow | contrib/inventory_builder/inventory.py:354-381 | a concrete cluster and command line on which this happens |
| AddressRuns.AddAllIsFirstOccurrences | contrib/inventory_builder/inventory.py:232-234 | skipping known addresses keeps the first occurrences in order |
| AddressRuns.FreshAddressRun | contrib/inventory_builder/inventory.py:223-293 | a fresh run over addresses and ranges saves the deduplicated expansion in order under consecutive names |
| AddressRuns.RebuildIsIdle | contrib/inventory_builder/inventory.py:184-249 | building again from the same addresses leaves the table as it is |
| AddressRuns.ReaddingIsIdempotent | contrib/inventory_builder/inventory.py:82-140 | `add` with the same address arguments saves the identical configuration |
| AddressRuns.FreshRunAtScale | contrib/inventory_builder/inventory.py:125-135 | fresh runs at scale divide the hosts into etcd, control plane and nodes as the thresholds ask |
| KubesprayBuilder.KubesprayInventory.constructor | contrib/inventory_builder/inventory.py:82-86 | a new object has the file as given and empty groups |
| KubesprayBuilder.KubesprayInventory.ExistsIp | contrib/inventory_builder/inventory.py:298-302 | true exactly when some host has the address |
| KubesprayBuilder.KubesprayInventory.DeleteHostByIp | contrib/inventory_builder/inventory.py:304-309 | removes the first host with the address, or reports that there is none |
| KubesprayBuilder.KubesprayInventory.HighestHostId | contrib/inventory_builder/inventory.py:188-204 | the loop finds the maximum of the numbers on loaded hosts with the prefix, and fails exactly when one has none |
| KubesprayBuilder.KubesprayInventory.BuildHostnames | contrib/inventory_builder/inventory.py:184-267 | the loop computes the specified table for every argument list, including every failure |
| KubesprayBuilder.KubesprayInventory.AddAddress | contrib/inventory_builder/inventory.py:223-249 | one address argument: a generated host, or nothing when the argument or the address is known |
| KubesprayBuilder.KubesprayInventory.AddName | contrib/inventory_builder/inventory.py:251-266 | one name argument: the host is written, overwritten or skipped, with the variables an earlier argument left |
| KubesprayBuilder.KubesprayInventory.PurgeInvalidHosts | contrib/inventory_builder/inventory.py:311-326 | deletes from every group and from `all` exactly the hosts neither built nor protected |
| KubesprayBuilder.KubesprayInventory.SetAllHosts | contrib/inventory_builder/inventory.py:345-347 | writes every built host into `all`, keeping the place of those already there |
| KubesprayBuilder.KubesprayInventory.AddHostToGroup | contrib/inventory_builder/inventory.py:328-339 | appends a host to a role unless it is in it; nothing else changes |
| KubesprayBuilder.KubesprayInventory.SetRole | contrib/inventory_builder/inventory.py:341-343 | adds a list of hosts to one role and changes nothing else |
| KubesprayBuilder.KubesprayInventory.SetKubeNode | contrib/inventory_builder/inventory.py:367-381 | adds the hosts that the thresholds do not keep apart |
| KubesprayBuilder.KubesprayInventory.SetCalicoRr | contrib/inventory_builder/inventory.py:354-365 | adds the etcd slice, passing over only a host called `hosts` |
| KubesprayBuilder.KubesprayInventory.AssignRoles | contrib/inventory_builder/inventory.py:122-135 | the role pipeline computes the specified configuration |
| KubesprayBuilder.KubesprayInventory.Invoke | contrib/inventory_builder/inventory.py:82-140 | one invocation saves the specified configuration; when it fails the file is as before |
| KubesprayBuilder.InvokeAll | contrib/inventory_builder/inventory.py:472-476 | any sequence of starts, each with its own settings, leaves the file that the run laws speak about |
| Flatten.ConvertToV3 | contrib/terraform/terraform.py:41-60 | recursion and loops leave the dictionary of all assignments in order |
| Flatten.ParseAttrList | contrib/terraform/terraform.py:167-173 | the grouping loop, or the failure when a key cannot be unpacked |
| ParseLaws.ParsePrefixMeans | contrib/terraform/terraform.py:154-164 | for any separator the readers see, in order, the entries behind the prefix and one separator, without the list marker |
| ParseLaws.ParseDictMeans | contrib/terraform/terraform.py:176-177 | a dictionary read with any separator holds under x what the source has at prefix, separator and x |
| ParseLaws.ParseListMeans | contrib/terraform/terraform.py:180-181 | a list read with any separator holds the values of those entries in order |
| ParseLaws.ParseAttrListMeans | contrib/terraform/terraform.py:167-173 | records read with any separator hold, by index and key, what the source has there; it fails if and only if a key has no second separator |
| ParseLaws.ConvertedDictMeans | contrib/terraform/terraform.py:154-177 | flattened attributes read with any separator give what the tree has at prefix, separator and x |
| ParseLaws.ScalarReadsBehindSeparator | contrib/terraform/terraform.py:154-177 | a scalar attribute `flavor_x` is found under x by reading `flavor` with the separator `_` |
| ParseLaws.ScalarReadsAsNothing | contrib/terraform/terraform.py:154-181 | a scalar attribute reads as the empty list, dictionary and list of records |
| FlattenLaws.ConvertUnderPrefix | contrib/terraform/terraform.py:41-60 | flattening under a prefix is flattening without one and prefixing every key |
| FlattenLaws.DistinctKeysIff | contrib/terraform/terraform.py:48-59 | over well-named trees no two assignments share a key if and only if no dictionary value has a key `%` |
| FlattenLaws.NothingIsLostIff | contrib/terraform/terraform.py:41-60 | the number of flat keys is leaves plus lists plus dictionary values under exactly that condition, and then the values are conserved |
| FlattenLaws.PercentLosesLength | contrib/terraform/terraform.py:55-58 | a concrete well-named tree with a key `%` whose length marker is lost |
| Paths.FlatKeysArePaths | contrib/terraform/terraform.py:41-60 | every flat key is a path of the tree and holds what the tree has there, and every path of a leaf or length is a key, whatever is drawn |
| ReadBack.AttrListReadsBack | contrib/terraform/terraform.py:154-173 | reading a list attribute gives the flattening of every non-empty item, in order, for all draws |
| ReadBack.ScalarRecordsReadBack | contrib/terraform/terraform.py:154-173 | lists of scalar records come back unchanged |
| ReadBack.StringsReadBack | contrib/terraform/terraform.py:180-181 | lists of strings come back unchanged and in order, whatever suffixes are drawn |
| ReadBack.DictReadsBack | contrib/terraform/terraform.py:176-177 | exactly which entries a dictionary value reads back as |
| HostGroups.QueryList | contrib/terraform/terraform.py:370-386 | the listing does not depend on the order of the set of groups; `_meta` holds the last variables of each name |
| HostGroups.AppendHost | contrib/terraform/terraform.py:375-381 | the inner loop appends a host to each of its groups, the empty name counting as `all` |
| HostGroups.GroupingIsInverted | contrib/terraform/terraform.py:370-386 | in a listing every group but `all` and `_meta` holds its hosts in order and once per host, and `_meta` none |
| HostGroups.AllListsOnceIff | contrib/terraform/terraform.py:375-381 | `all` lists each host of the groups `all` and "" once and in order if and only if no host is in both |
| HostGroups.ListedTwice | contrib/terraform/terraform.py:375-381 | a concrete host that is listed twice |
| HostGroups.ListingConservesMembershipsIff | contrib/terraform/terraform.py:370-386 | the lists of the listing together lack exactly the memberships in `_meta`, so they are conserved if and only if no host names it |
| HostGroups.MetaIsLost | contrib/terraform/terraform.py:370-386 | a concrete host whose one membership is in no list |
| HostGroups.QueryHost | contrib/terraform/terraform.py:362-367 | the variables of the first host of a name, or none |
| HostGroups.HostQueryAgreesIff | contrib/terraform/terraform.py:362-386 | the single-host query agrees with the `_meta` of a listing if and only if first and last host of the name carry the same variables |
| HostGroups.HostQueryAgrees | contrib/terraform/terraform.py:362-386 | in particular when all hosts of the name agree |
| HostGroups.HostQueryDiffers | contrib/terraform/terraform.py:362-386 | two hosts of one name for which query and listing differ |
| HostGroups.IterHostIps | contrib/terraform/terraform.py:340-358 | the loop patches every host or fails on a missing key |
| HostGroups.PatchSucceedsIff | contrib/terraform/terraform.py:340-358 | the pass succeeds if and only if every host has the keys that are read and an `access_ip` to drop when it is to go |
| HostGroups.UnassociatedHostStays | contrib/terraform/terraform.py:343-358 | a host without an association that keeps its access address comes back unchanged |
| HostGroups.PatchedVars | contrib/terraform/terraform.py:345-356 | the pass touches only the four address keys and sets them to the associated address |
| HostGroups.LastPairWins | contrib/terraform/terraform.py:437-437 | the address of a port is that of its last association |
| HostGroups.PatchCommutesWithGrouping | contrib/terraform/terraform.py:439-443 | a listing of patched hosts has the same groups and lists as one of unpatched hosts |
| XmlText.FivePassesAreOne | tests/shebang-unit:802-809 | the five sequential replacements are one character-by-character encoding |
| XmlText.EncodingIsInvertible | tests/shebang-unit:802-809 | strict decoding of the predefined entities (section 4.6 of XML 1.0) inverts the escaper in both directions |
| XmlText.EncodedHasNoMarkup | tests/shebang-unit:802-809 | encoded text has no angle bracket and no quote |
| Shuffle.Randomize | tests/shebang-unit:932-940 | the shrinking loop prints the specified order |
| Shuffle.ShuffledIsPermutation | tests/shebang-unit:932-940 | whatever is drawn, the order is a permutation |
| Shuffle.EveryOrderIsDrawn | tests/shebang-unit:932-940 | every permutation can be drawn, with draws smaller than the size of the array |
| Shuffle.EveryOrderComesOutIff | tests/shebang-unit:932-944 | with the numbers of RANDOM every order of distinct elements can come out if and only if there are at most 32768 |
| TestRunner.Runner.IncrementTests | tests/shebang-unit:383-387 | a counter stored as text grows by one and nothing else changes |
| TestRunner.Runner.ResetResults | tests/shebang-unit:341-345 | the three counters start at zero |
| TestRunner.Runner.TestFileStartsRunning | tests/shebang-unit:668-677 | the suite tag, the current suite name, and emptied suite outputs |
| TestRunner.Runner.TestStartsRunning | tests/shebang-unit:683-691 | the case tag with the time still open, and fresh outputs |
| TestRunner.Runner.TestEndsRunning | tests/shebang-unit:707-721 | the report rewritten with the time, the captured outputs moved from the database to the report, the end tag |
| TestRunner.Runner.TestFileEndsRunning | tests/shebang-unit:723-727 | the outputs of the suite moved from the database to the report, its end tag, no current suite |
| TestRunner.Runner.RunOneTest | tests/shebang-unit:390-427 | one test is counted by its status and reported |
| TestRunner.Runner.SkipOneTest | tests/shebang-unit:437-443 | one skipped test is counted and reported |
| TestRunner.Runner.RunInSubshell | tests/shebang-unit:220-223 | what the subshell of a file does to counters, flag and report |
| TestRunner.Runner.RunTestFile | tests/shebang-unit:215-226 | one file: all tests run, all skipped, or none |
| TestRunner.Runner.RunAllTestFiles | tests/shebang-unit:181-212 | a whole run leaves the specified counters and report and returns the exit condition |
| Accounting.SuccessOfATest | tests/shebang-unit:390-427 | exactly when a test counts as a success, early exits included |
| Accounting.GlobalSetupSucceedsIff | tests/shebang-unit:262-266 | a global setup succeeds if and only if there is none or it returns zero |
| Accounting.CountFile | tests/shebang-unit:215-244 | each test of a file is counted in one class, all in the same way |
| Accounting.AccountingIsConservedIff | tests/shebang-unit:341-387 | the counters add up to all tests if and only if no file with tests is lost while sourced |
| Accounting.LostTestIsNotCounted | tests/shebang-unit:215-226 | a concrete run that succeeds with its only, failing, test uncounted |
| Accounting.LostTests | tests/shebang-unit:215-226 | a file lost while sourced changes no counter and not the exit condition |
| Accounting.SuccessIff | tests/shebang-unit:209-212 | success with everything counted is that all tests are successes |
| Accounting.ExitConditionIff | tests/shebang-unit:209-226 | a run succeeds exactly when no file with tests stands under a failed global setup and all tests of the completely sourced files succeed |
| Accounting.SourcedRunSucceedsIff | tests/shebang-unit:209-226 | with complete sourcing every test is counted, and success is that every test and its global setup succeeds |
| JunitReport.TimeReads | tests/shebang-unit:714-721 | rewriting the report with a time changes attribute values and outputs only, never tags or nesting |
| JunitNames.ReportReadsBack | tests/shebang-unit:662-731 | every report has a prolog and one root, is well nested with only space between elements, and holds exactly one suite per file and one case per test that was run or skipped |
| JunitNames.ReportTellsRunIff | tests/shebang-unit:662-792 | with entities decoded, suites and cases carry the names, verdicts, times, standard outputs and error outputs of the run if and only if no text that meets a time holds the time variable |
| JunitNames.VariableFileIsNotTold | tests/shebang-unit:707-721 | a concrete file name that does not come back from the report |
| ReportTexts.SuiteTitleMeans | tests/shebang-unit:733-738 | the title of a file, character by character: dots become underscores and slashes become dots |
| ReportTexts.PrintedTimeParses | tests/shebang-unit:330-338 | a printed time parses to the seconds, sign included |
| ReportTexts.TrimNewlinesMeans | tests/shebang-unit:761-764 | exactly the newlines at the end of an output are cut off |
| JunitNames.CountersMatchReport | tests/shebang-unit:341-443 | the counters equal the numbers of passed, failed and skipped cases that are read from the report |
| JunitNames.DeclaredCountsIff | tests/shebang-unit:668-674 | the counts declared in the report equal the cases read inside if and only if the accounting adds up |

## Left out

- Reading and writing YAML, JSON, environment variables, help and debug output: the saved inventory is a value.
- KubesprayBuilder.KubesprayInventory.Invoke: the `load` command, a separate JSON import that writes the file itself, is treated as a command that saves nothing.
- `USE_REAL_HOSTNAME`: names would come from remote hosts.
- IPv6 ranges: only IPv4 ranges expand in the model, with the strict octets of current Python releases.
- Characters outside ASCII in Python's `isdigit`, `isalpha`, `strip` and `\d`.
- Negative values of `KUBE_CONTROL_HOSTS` and the thresholds.
- Inventory files written by hand: the model starts from no file or from a file with unique keys, an `ip` on every host, and all role groups present.
- The group `k8s_cluster`: it is the same constant after every run.
- JSON numbers with a fraction: a number is an integer in the model of attribute values.
- Flatten.ConvertToV3: list items that are neither strings nor objects are excluded, because the program fails on them without handling it.
- The random suffixes of flattened strings are a function of the prefix, one draw for each place.
- `metal_device`, `openstack_host`, `iterips` and the reading of state files: long attribute copying around the parsers; the pairs of ports and addresses are given.
- In-place sharing of host variables between the hosts before and after `iter_host_ips`: the pass returns new values.
- RunLaws.EtcdPrefixOverRuns: adding back nothing deleted is sufficient, not necessary; the exact condition is that of `RunLaws.EtcdAlwaysPrefixIff`.
- RunLaws.ControlPlaneOverRuns: sufficient in the same way; the exact condition is that of `RunLaws.ControlPlaneAlwaysFirstIff`.
- The other reporters, colours, mocks, usage text, file descriptors and the parsing of shell functions: a test file comes with its test functions.
- The base directory that is cut from file names in suite names: file names are relative.
- What test bodies do to the database or the report themselves.

Nothing was executed.
