# host-config: a verified model of the inventory pipeline

The repository drives a Netbox inventory to a declared state, loads a typed host
intent back from it, checks the intent and brings it into one canonical form
before rendering. This project models that pipeline and proves what it is for:

- **Populating** (`Inventory`, `Client`, `PopulateSpec`, `Populate`). Netbox is a
  store of keyed tables with an id sequence each, plus the three interface columns
  populate rewrites (lag, parent, primary MAC). A fixture list compiles to a list of
  steps; `Exec` runs them. The imperative populator works against a client whose
  calls may raise before or after taking effect, and every method is proved to run
  exactly its steps. On `Exec` stand safety and framing (`PopulateSafety`), the
  meaning of conflicts (`Conflicts`), crash/restart convergence and idempotence
  (`Restart`), and the consequences for fixture lists (`Programs`). `ProgramOrder` and
  `Success` give the condition on fixtures and store under which a run raises nothing,
  `Rows` what every added row holds, `Decisions` what the report adds up to.
- **Loading** (`Loader`). A record is read as a view; views are partitioned by name and
  built into an intent. `Reading` gives the loader a declarative meaning, both ways;
  `LoadOrder` bounds what record order can show; `FixtureView` reads a fixture directly, and
  `RoundTrip` proves that loading what populate wrote gives that intent, also after
  interrupted runs.
- **Checking and canonicalising** (`Models`, `Invariants`, `Emitter`, `Sorting`,
  `Addresses`). The eleven checks equal one declarative predicate; the render context
  is a normal form exactly when VLAN ids are distinct, which populated devices are
  shown to guarantee.
- **The custom-field schema** (`Schema`, `SchemaLaws`, `SchemaRestart`,
  `SchemaMeaning`). A reconciler against a server that may wrap values, reorder lists and
  show ids as URLs: convergence, protection, prefix behaviour on refusal, crash
  convergence, and what each field's record then says.
- **The service** (`Service`). The render handler, the middleware, and the metrics of any
  number of interleaved requests, tied together from the populated inventory to the
  served body.
- **Lab tooling** (`PrepareImage`, `Launch`). Verified image installation as a machine over
  disk states, and a QEMU command line whose NICs parse back.

`Samples` writes out a host of each role. `Basics` holds sequences, ASCII strings and splitting.

Where code and documentation disagree the model follows the code:

- `apply_schema` documents that an apply ending in `SchemaError` does not partially
  complete. It does (`SchemaLaws.RefusedApplyIsPartial`). `SchemaLaws.RefusalIsAPrefix`
  says what it completes, and `SchemaLaws.RefusedUntouchedExactly` when that is nothing.
- A second populate is documented to be a no-op. It is one exactly when the fixtures ask
  for one LAG, one parent and one MAC per asset tag and interface name
  (`Programs.PopulateTwice`). `Samples.SecondPopulateRewires` has a fixture with two LAGs
  that fails, and `Programs.TwoMacsRewrite` a family with two MACs under one name. The
  store stays the same in any case.
- `populate` documents `NetboxQueryError` for transport failures; the code lets the
  client's own exception escape. The model calls it `Transport`.
- `load_host_intent` documents `InvariantError` for a device without nsa or nsb. The code
  raises `NetboxQueryError` before any invariant is tested (`Reading.MissingParts`).
- `to_payload` documents a `choice_set` entry for select fields. The code writes `choices`
  (`SchemaMeaning.PayloadSays`).
- The renderer documents that its output does not depend on upstream order. That needs
  distinct VLAN ids, which no invariant demands (`Emitter.OrderLeaks`).
- A bond is documented to refuse repeated members. Only a list is refused: a tuple with
  repeats passes (`Invariants.TupleMembersEscape`, `Invariants.BondIsTheTwoNics`).
- `prepare` documents verification before the final path is written. An output name with
  the suffix `.tmp` is its own temporary file (`PrepareImage.TmpSuffixLosesTheImage`).

`dafny verify dfyconfig.toml` checks the project.

## Model

| member | source | states |
|---|---|---|
| `Restart.RestartConverges` | fixtures/netbox/populate.py:214-295 | Cut a run at any API call, any number of times (`AfterCuts`): one run to completion then ends in exactly the store, ids included, and with exactly the success or conflict, of a single uninterrupted run |
| `Populate.RerunAfterFailures` | fixtures/netbox/populate.py:214-295 | The same for the imperative populator: any number of earlier runs, each cut short by a failing API call, before or after the call took effect, or ended otherwise, and then one that no call fails |
| `Restart.SecondRun` | fixtures/netbox/populate.py:197-200 | After a successful run a second one always succeeds and leaves the same store; its report is a no-op exactly when no two actions want different ids in one column |
| `Programs.PopulateTwice` | fixtures/netbox/populate.py:214-260 | The same for every fixture list: the second report is a no-op exactly when the fixtures ask for one LAG, one parent and one MAC per asset tag and interface name |
| `Programs.PlainPopulateTwice` | fixtures/netbox/populate.py:214-260 | With distinct asset tags and interface names that means: exactly when no interface is claimed by two LAGs |
| `Programs.TwoMacsRewrite` | fixtures/netbox/populate.py:529-537 | Two different MACs under one interface name: the second report is not a no-op, with no LAG involved |
| `Samples.SecondPopulateRewires` | fixtures/netbox/populate.py:452-473 | A concrete plain fixture with two LAGs over one interface: populated from an empty Netbox, both runs succeed and the second report is not a no-op |
| `PopulateSafety.ExecSafe` | fixtures/netbox/populate.py:263-295 | At every point of every run, also where it stops on a conflict: every stored id names an object of the right table, every earlier record keeps its id and fields, and only lag, parent and primary MAC of interfaces of a tagged device may differ |
| `PopulateSafety.StepSafe` | fixtures/netbox/populate.py:404-449 | One create or update keeps referential integrity and every earlier record |
| `PopulateSafety.ExecAccounts` | fixtures/netbox/populate.py:180-206 | Along any run each table grows by exactly its kind's created events, and every action taken is logged once |
| `Populate.ReportAccounts` | fixtures/netbox/populate.py:180-206 | The report of every run, also one ended by a failing call: each table grew by its kind's `created` count, but for one more row of one kind exactly when the failing call was a create the server had applied; created plus skipped over all kinds equals the decisions taken |
| `PopulateSafety.CreatedMeansChanged` | fixtures/netbox/populate.py:303-449 | A step is counted as created exactly when it changed the store |
| `Success.SucceedsExactly` | fixtures/netbox/populate.py:214-295 | populate raises no conflict and no KeyError exactly when the fixtures are consistent, which can be checked before the run: every LAG member and parent is declared, no row on record says something else, and no two fixtures give one key different contents |
| `Success.AloneSucceedsExactly` | fixtures/netbox/populate.py:214-295 | One fixture populates an empty Netbox exactly when it declares the names it uses, names each VLAN number once, and puts no MAC and no address on two interface names |
| `Success.Origin` | fixtures/netbox/populate.py:303-568 | What contradicts a step in the middle of a run was on record before the run or was asked for by an earlier step |
| `ProgramOrder.NeverUnresolved` | fixtures/netbox/populate.py:263-295 | The order of the passes: no step of any run looks up an object that no earlier step has ensured |
| `ProgramOrder.PhasesInOrder` | fixtures/netbox/populate.py:263-295 | A fixture is applied in ten phases in this order: site, manufacturer, device type, role, VLANs, device, interfaces, wiring, MACs, addresses |
| `ProgramOrder.FixturesInOrder` | fixtures/netbox/populate.py:252-260 | Fixtures are applied one after the other, in the order they are listed |
| `Conflicts.ConflictExactly` | fixtures/netbox/populate.py:327-449 | A conflict is raised exactly when a row with the action's key says something else (device type height, VLAN name, host name, MAC or IP owner), read off the rows alone |
| `Conflicts.RunLeavesOnRecord` | fixtures/netbox/populate.py:263-295 | After a run that raised nothing every row its actions ask for is there, and no row contradicts them |
| `Rows.CatalogueAsAsked` | fixtures/netbox/populate.py:303-383 | Wherever a run has come to, every site, role, manufacturer, device type and VLAN it added is one a fixture asks for, with just its contents: name, slug, model, height, the manufacturer and the site it refers to |
| `Rows.HostsAsAsked` | fixtures/netbox/populate.py:386-568 | The same for devices, interfaces, MACs and addresses: name, status, custom fields, site, type and role of the device; type, MTU, VLAN and custom fields of the interface; owner of the MAC or address |
| `Decisions.DecidedAsAsked` | fixtures/netbox/populate.py:180-206 | When the report is returned, created plus skipped of each of the twelve kinds is the number of things of that kind in the fixtures, so LAG members, parents, MACs and addresses are told apart |
| `Programs.RelationsHold` | fixtures/netbox/populate.py:452-537 | After a successful run every LAG membership, parent and primary MAC of every fixture is in its column exactly when the fixtures ask for one of each per asset tag and interface name |
| `Restart.LastWrite` | fixtures/netbox/populate.py:467-484 | A wired column holds the id its last writer put there |
| `Restart.EnsureReplays` | fixtures/netbox/populate.py:303-449 | Wherever an ensure step once succeeded it finds its object again, in every later store |
| `Restart.Replay` | fixtures/netbox/populate.py:303-538 | Re-running part of a program over what it left takes every step, creates nothing, and leaves only columns still to be rewritten |
| `Restart.NoOpStays` | fixtures/netbox/populate.py:197-200 | A run whose report is a no-op changed nothing, and every one of its steps would skip again |
| `Programs.InCompileAll` | fixtures/netbox/populate.py:263-295 | The program of a fixture list consists of exactly the steps some fixture asks for |
| `PopulateSpec.ExecSplit` | fixtures/netbox/populate.py:252-260 | A run of a list of steps is the run of a prefix, continued, or stopped where the prefix stopped |
| `PopulateSpec.SlugIsSlug` | fixtures/netbox/populate.py:576-578 | A slug holds no space, underscore or capital, has nothing left to strip, and is its own slug |
| `PopulateSpec.SlugLetters` | fixtures/netbox/populate.py:576-578 | A slug is, letter by letter, the lowered and stripped name with a dash for every space and underscore |
| `Basics.LowerLetters` | fixtures/netbox/populate.py:578-578 | Lowering maps each capital to the small letter at its place in the alphabet and leaves every other ASCII character alone |
| `Basics.StripMeaning` | fixtures/netbox/populate.py:578-578 | Stripping takes all white space off both ends and nothing else |
| `Populate.PopulateReport.AddCreated` | fixtures/netbox/populate.py:191-192 | Counts one created object of the kind |
| `Populate.PopulateReport.AddSkipped` | fixtures/netbox/populate.py:194-195 | Counts one skipped object of the kind |
| `Populate.PopulateReport.NoOpReport` | fixtures/netbox/populate.py:197-200 | `is_no_op` holds exactly when nothing was created on the run |
| `Populate.EnsureSite` | fixtures/netbox/populate.py:303-312 | Runs the site step in every way it can end: skipped, created, or cut by a failing call before or after its effect |
| `Populate.EnsureManufacturer` | fixtures/netbox/populate.py:315-324 | Runs the manufacturer step, keyed by slug |
| `Populate.EnsureDeviceType` | fixtures/netbox/populate.py:327-355 | Runs the device-type step, refusing another height |
| `Populate.EnsureDeviceRole` | fixtures/netbox/populate.py:358-366 | Runs the device-role step |
| `Populate.EnsureVlan` | fixtures/netbox/populate.py:369-383 | Runs the VLAN step, keyed by number and site, refusing another name |
| `Populate.EnsureDevice` | fixtures/netbox/populate.py:386-417 | Runs the device step, keyed by asset tag, refusing another host name |
| `Populate.EnsureInterface` | fixtures/netbox/populate.py:420-449 | Runs the interface step and returns the handle of that record |
| `Populate.Wire` | fixtures/netbox/populate.py:463-484 | Writes one column unless it already holds the wanted id |
| `Populate.WireRelationships` | fixtures/netbox/populate.py:452-484 | Runs the LAG and parent steps of one interface, a missing name ending the run as KeyError |
| `Populate.EnsureMacAddress` | fixtures/netbox/populate.py:487-538 | Runs the MAC step and the primary-MAC step of one interface |
| `Populate.EnsureIpAddress` | fixtures/netbox/populate.py:541-568 | Runs the address step of one interface |
| `Populate.EnsureVlans` | fixtures/netbox/populate.py:269-269 | Runs the VLAN steps in order and returns the handles by number |
| `Populate.EnsureDeviceChain` | fixtures/netbox/populate.py:265-271 | Runs every step up to the device |
| `Populate.CreateInterfaces` | fixtures/netbox/populate.py:273-279 | Runs pass 1; `iface_by_name` then holds exactly the fixture's names, each with its record's handle |
| `Populate.WireInterfaces` | fixtures/netbox/populate.py:281-284 | Runs pass 2 over all interfaces |
| `Populate.AssignMacs` | fixtures/netbox/populate.py:286-290 | Runs pass 3 over the interfaces with a MAC |
| `Populate.AssignIps` | fixtures/netbox/populate.py:292-295 | Runs pass 4 over the interfaces with an address |
| `Populate.ApplyOne` | fixtures/netbox/populate.py:263-295 | Runs exactly the fixture's program |
| `Populate.PopulateAll` | fixtures/netbox/populate.py:214-260 | Runs exactly the program of the fixture list: same store, report and conflict; under a failing call, the store and the log of a prefix of it, or that store with the write in progress applied and not logged |
| `RoundTrip.LoadAfterPopulate` | src/host_config/netbox/loader.py:115-152 | For a device populated as new, alone or among fixtures with other tags, loading gives the fixture's own intent up to VLAN order; or it fails with the same error, or both errors are of records of one class (VLAN, RoCE, InfiniBand), so a violated invariant is the same one. Whatever order the interfaces are listed in and whether or not interface names repeat |
| `RoundTrip.LoadAfterInterruptedPopulate` | fixtures/netbox/populate.py:214-295 | The same when the populating runs were interrupted any number of times |
| `RoundTrip.ExecMade` | fixtures/netbox/populate.py:263-295 | Everything on record for a device that was absent was made by a step of the run: the device, each interface by the first step of its name, each primary MAC by the last, the addresses |
| `RoundTrip.DeviceReadBack` | fixtures/netbox/populate.py:386-417 | The device comes back with the fixture's host name, role slug, site, type, status and custom fields |
| `RoundTrip.ViewReadBack` | fixtures/netbox/populate.py:273-295 | Every interface record of the device reads as its name does in the fixture: the first spec's type, MTU, VLAN and custom fields, the last MAC, all addresses |
| `RoundTrip.UntaggedReadBack` | fixtures/netbox/populate.py:420-449 | An access port comes back with the number and name the fixture gave its VLAN |
| `RoundTrip.MacReadBack` | fixtures/netbox/populate.py:529-537 | The primary MAC comes back as the last one the fixture gives the name, or not at all |
| `RoundTrip.IpsReadBack` | fixtures/netbox/populate.py:541-568 | The addresses of a record are exactly those the fixture gives its name |
| `RoundTrip.ViewsReadBack` | src/host_config/netbox/loader.py:172-179 | The listed records read as the fixture's interface names do, each once |
| `FixtureView.PlainFixtureViews` | fixtures/netbox/populate.py:273-279 | Reading a fixture record by record is reading it spec by spec exactly when no interface name is given twice |
| `FixtureView.FirstMaker` | fixtures/netbox/populate.py:273-279 | The first step of a program that asks for an interface name is that of the fixture's first spec of the name |
| `FixtureView.LastSetter` | fixtures/netbox/populate.py:286-290 | The last step that assigns a name's primary MAC is that of the fixture's last spec with a MAC |
| `Reading.LoaderMeaning` | src/host_config/netbox/loader.py:66-152 | An intent is loaded from records exactly when it describes them: role by slug, nsa and nsb by name, the bond over the two, one VLAN child per record named bond0.<anything> in order, one rail per record named gpu<digits> or ib<digits> in dictionary order of names, every field bound, and all invariants |
| `Reading.Conventions` | src/host_config/netbox/loader.py:59-63 | Character by character: VLAN records start with bond0., RoCE records are gpu and at least one digit and nothing else, InfiniBand records ib and the same |
| `Reading.MissingParts` | src/host_config/netbox/loader.py:182-236 | An unknown role, a missing nsa or nsb, and a missing bond0 are failed queries, each under its own operation |
| `Reading.MissingFields` | src/host_config/netbox/loader.py:239-446 | The first of VLAN, VLAN role, MAC and address missing from a record is a failed query under its own operation |
| `Reading.OnlyMissingHosts` | src/host_config/netbox/loader.py:160-169 | Loading reports an unknown host exactly when no device has the asset tag |
| `Reading.LoadedDescribesFixture` | src/host_config/netbox/loader.py:115-152 | If an intent describes the populated fixture, loading returns it up to VLAN order |
| `Reading.LoadedOnlyIfDescribed` | src/host_config/netbox/loader.py:115-152 | If loading the populated device succeeds, some intent describes its fixture |
| `Samples.LabLoads` | src/host_config/netbox/loader.py:115-152 | One concrete host for each of the four roles: an empty Netbox takes its fixture without a conflict and then loads the intent written out for it, with no rails for cpu, eight RoCE rails for gpu-b300 and gpu-b200, eight InfiniBand rails at MTU 2044 for gpu-h200 |
| `Reading.NsNicsMeaning` | src/host_config/netbox/loader.py:203-218 | The N-S NICs are built exactly when both records are there with a canonical MAC and an MTU in bounds |
| `Reading.BondMeaning` | src/host_config/netbox/loader.py:221-236 | The bond is built exactly over nsa and nsb with the bond0 record's MTU or 9000 |
| `Reading.VlanMeaning` | src/host_config/netbox/loader.py:239-274 | A VLAN child is built exactly from a record with an untagged VLAN of a known role name, one IPv4 address and fields in bounds; the mgmt one alone has a gateway, the least host of its network |
| `Reading.RoceMeaning` | src/host_config/netbox/loader.py:277-312 | A RoCE rail is built exactly from a record with a canonical MAC, one address, MTU or 9000, VF count or 16 |
| `Reading.IbMeaning` | src/host_config/netbox/loader.py:315-345 | An InfiniBand rail is built exactly from a record with a canonical MAC, one address, MTU or 2044 |
| `Reading.CollectMeaning` | src/host_config/netbox/loader.py:239-345 | The builders' loops yield one model per matching record, in order, or fail |
| `LoadOrder.BuildIgnoresOrder` | src/host_config/netbox/loader.py:203-345 | Two orders of the same records: both load, with intents equal up to VLAN order, or both fail, with the same error or with errors of two records of one class |
| `LoadOrder.RecordErrors` | src/host_config/netbox/loader.py:348-446 | What is wrong with a record is a query error or a field error, never a violated invariant or a missing host |
| `LoadOrder.RocePermuted` | src/host_config/netbox/loader.py:277-312 | The sorted RoCE rails do not depend on record order |
| `LoadOrder.IbPermuted` | src/host_config/netbox/loader.py:315-345 | The sorted InfiniBand rails do not depend on record order |
| `Loader.OneClass` | src/host_config/netbox/loader.py:59-63 | The naming conventions never classify one interface two ways |
| `Addresses.GatewayIsLeastHost` | src/host_config/netbox/loader.py:449-457 | For every 32-bit address and prefix length the derived gateway is the least host of the address's network |
| `Addresses.NetworkRange` | src/host_config/netbox/loader.py:449-457 | The network of an address is the range from its network to its broadcast address, inside 32 bits |
| `Loader.FetchSingleIp` | src/host_config/netbox/loader.py:428-446 | Returns the record's one IPv4 address, an error when there is none or several, or a query error |
| `Loader.FetchInterfaces` | src/host_config/netbox/loader.py:172-179 | Returns every interface of the device once, in no particular order |
| `Loader.ReadVlan` | src/host_config/netbox/loader.py:239-274 | Reads one record into a VLAN child, stopping at the first field that fails |
| `Loader.ReadRoce` | src/host_config/netbox/loader.py:277-312 | Reads one record into a RoCE rail |
| `Loader.ReadIb` | src/host_config/netbox/loader.py:315-345 | Reads one record into an InfiniBand rail |
| `Loader.BuildVlans` | src/host_config/netbox/loader.py:239-274 | The loop over all records delivers the specified list or first error |
| `Loader.BuildRoceUnderlays` | src/host_config/netbox/loader.py:277-312 | The loop and the sort deliver the specified list or first error |
| `Loader.BuildIbUnderlays` | src/host_config/netbox/loader.py:315-345 | The loop and the sort deliver the specified list or first error |
| `Loader.LoadHostIntent` | src/host_config/netbox/loader.py:66-152 | Changes nothing; without a failing call it returns exactly what the records it listed amount to, with one it may report the failed query |
| `Models.CheckInvariants` | src/host_config/models/intent.py:108-126 | The verdict of the first failing check in the listed order; none exactly when all eleven pass |
| `Models.ScanGatewayOnMgmt` | src/host_config/models/validators.py:194-219 | The scan agrees with its rule and reports the first VLAN that breaks it |
| `Models.ScanUniqueIps` | src/host_config/models/validators.py:313-350 | The `seen` scan agrees with pairwise distinct addresses, and reports the first repeated one with its first two owners |
| `Invariants.AcceptedIsWellFormed` | src/host_config/models/intent.py:108-126 | The eleven checks pass exactly on the intents that satisfy one declarative predicate |
| `Invariants.RolesRule` | src/host_config/models/validators.py:107-133 | The Counter comparison says: three VLANs that cover the three roles |
| `Invariants.OneGatewayIsMgmts` | src/host_config/models/validators.py:164-219 | Under one VLAN per role, the two gateway checks say: the mgmt VLAN and no other has a gateway |
| `Invariants.MgmtsIsOneGateway` | src/host_config/models/validators.py:164-219 | The converse |
| `Invariants.MtuRule` | src/host_config/models/validators.py:222-249 | The maximum comparison says: no VLAN MTU above the bond's |
| `Invariants.UniqueNamesCheck` | src/host_config/models/validators.py:353-392 | The Counter of names says: pairwise distinct names |
| `Invariants.RailsRule` | src/host_config/models/validators.py:252-310 | Rail counts per role: eight RoCE for the B-series, eight InfiniBand for the H200, else none |
| `Invariants.VerdictIgnoresOrder` | src/host_config/models/intent.py:108-126 | Every check's verdict, and so the invariant reported as violated, does not depend on the order of any list |
| `Invariants.ReportedInvariant` | src/host_config/models/intent.py:108-126 | The identifier reported is that of the first broken rule, in the order of the eleven rules, each rule and identifier spelled out |
| `Invariants.BondExactly` | src/host_config/models/interface.py:113-131 | A bond can be made exactly from a name of 1 to 15 characters, 2 to 8 members, an MTU from 1500 to 9216 and, for a list, distinct members |
| `Invariants.BondIsTheTwoNics` | src/host_config/models/interface.py:124-131 | On an accepted host the bond's members are a permutation of the two N-S NIC names exactly when the members it was given, as list or tuple, do not repeat |
| `Invariants.ListedBondIsTheTwoNics` | src/host_config/models/interface.py:124-131 | Members given as a list are always that permutation |
| `Invariants.TupleMembersEscape` | src/host_config/models/interface.py:124-131 | Given as a tuple, repeated members pass every check: a concrete accepted host whose bond lacks a NIC |
| `Invariants.HostShape` | src/host_config/models/validators.py:107-310 | Every accepted host: three VLANs of three roles, one gateway in all and on the mgmt VLAN, never both kinds of rails |
| `Emitter.Canonicalize` | src/host_config/render/emitter.py:66-85 | The fresh context holds the intent with its five lists sorted |
| `Emitter.PrepareRender` | src/host_config/render/emitter.py:122-133 | Unknown file kinds are refused; otherwise the template name, the canonical context and the clock |
| `Emitter.CanonicalKeepsLists` | src/host_config/render/emitter.py:77-85 | Canonicalisation keeps every list's multiset and every other field |
| `Emitter.CanonicalIdempotent` | src/host_config/render/emitter.py:77-85 | Canonicalising twice is canonicalising once |
| `Emitter.CanonicalOrder` | src/host_config/render/emitter.py:77-85 | The context lists VLANs by rising id, and NICs, rails and bond members in dictionary order of their names |
| `Emitter.FileKinds` | src/host_config/render/emitter.py:37-54 | Exactly the texts meta-data, user-data and network-config are file kinds |
| `Emitter.NormalForm` | src/host_config/render/emitter.py:77-85 | For accepted intents with distinct VLAN ids the contexts are equal exactly when the intents agree up to list order |
| `Emitter.OrderLeaksExactlyOnEqualIds` | src/host_config/render/emitter.py:79-79 | Among accepted intents the context is blind to list order exactly when the VLAN ids are distinct |
| `Emitter.OrderLeaks` | src/host_config/render/emitter.py:79-79 | A concrete accepted host with two VLANs of id 100 whose order shows in the context |
| `Emitter.ListingOrderDoesNotShow` | src/host_config/render/emitter.py:9-15 | Two listings of a device's interfaces: both load or neither, and with distinct VLAN ids the contexts are equal |
| `Emitter.ListingShowsExactly` | src/host_config/render/emitter.py:9-15 | A listing that loads gives the same context as every other listing of the device exactly when the loaded VLAN ids are distinct |
| `Emitter.DirectIdsDistinct` | src/host_config/render/emitter.py:79-79 | A fixture's own intent never has two VLANs of one id |
| `Emitter.PopulatedContextIsTheFixtures` | src/host_config/render/emitter.py:66-85 | For a populated device no side condition is left: the context is the fixture's, whatever the listing order |
| `Sorting.SortIsTheStableSort` | src/host_config/render/emitter.py:78-84 | The sort used in the model is the only ordered, order-keeping rearrangement, hence Python's |
| `Sorting.StrLeIsDictionaryOrder` | src/host_config/render/emitter.py:78-84 | The order of names is dictionary order: a prefix, or the smaller character at the first difference |
| `Sorting.SortPermutation` | src/host_config/render/emitter.py:78-84 | When keys separate the elements the order of arrival does not matter |
| `Schema.ApplySchema` | src/host_config/netbox/schema.py:244-318 | Whatever form the server shows its records in, the outcome, report, drift and server state are those of the specified reconciliation; however it ends, also by a transport error, the server is where a prefix of the specs leads |
| `Schema.Diff` | src/host_config/netbox/schema.py:349-357 | The drift set, key by key |
| `Schema.ToPayload` | src/host_config/netbox/schema.py:94-126 | The payload with the optional entries left out when unset |
| `SchemaMeaning.PayloadSays` | src/host_config/netbox/schema.py:94-126 | Key by key: which entries a spec gives, and that each has the spec's own field, with the six field types as their texts |
| `SchemaMeaning.ServerHolds` | src/host_config/netbox/schema.py:244-318 | After a successful apply of specs that agree, every field's record says what its spec says: label, type, object types, required, and description, default, choices, minimum and maximum where given |
| `SchemaMeaning.StepWrites` | src/host_config/netbox/schema.py:290-346 | A created or patched field holds every given entry just as the spec says it, and any other as it was or as the server fills it in |
| `SchemaMeaning.NotGivenStays` | src/host_config/netbox/schema.py:290-346 | On every run, also a refused one, an entry that no spec gives stays as it was |
| `SchemaMeaning.ComparedAs` | src/host_config/netbox/schema.py:381-398 | Values compare as Python compares them, booleans as 0 and 1; object types compare as multisets, with null as none |
| `SchemaMeaning.DefaultsOnEmpty` | src/host_config/netbox/schema.py:165-236 | The default fields on a server without custom fields: exactly seven, with the captions, types, object types, defaults and ranges tabled |
| `Schema.PatchField` | src/host_config/netbox/schema.py:340-346 | One more lookup and an update that writes the payload over the record |
| `Schema.DriftIgnoresRepresentation` | src/host_config/netbox/schema.py:381-398 | Wrapped values, reordered object types and ids shown as trailing-slash URLs, in any mixture that compares equal as a whole, give the drift of the stored record |
| `Schema.UrlsCompareEqualExactly` | src/host_config/netbox/schema.py:394-397 | A list of ids, each shown as it is or as a URL, compares equal to itself exactly when the last path segments of the URLs make up, with the rest, the multiset the ids themselves are compared as |
| `Schema.OneUrlComparesEqualExactly` | src/host_config/netbox/schema.py:394-397 | One id shown as a URL compares equal to itself exactly when it has no "/" or its last two segments are equal |
| `Schema.SwappedIdsCompareEqual` | src/host_config/netbox/schema.py:394-397 | Two concrete ids that would drift alone and compare equal together |
| `Schema.SlashedIdDrifts` | src/host_config/netbox/schema.py:394-397 | A concrete id for which the URL form reads as permanent drift |
| `Schema.SameTypesIsPermutation` | src/host_config/netbox/schema.py:394-397 | The sorted comparison of object types is equality as multisets of normalised ids |
| `SchemaLaws.RefusesExactly` | src/host_config/netbox/schema.py:292-315 | An existing field is refused exactly for another name, type or set of object types; patched exactly for any other mismatch; kept exactly when every payload entry matches |
| `SchemaLaws.SecondApply` | src/host_config/netbox/schema.py:270-282 | After a successful apply a second one creates and updates nothing exactly when same-named specs agree; then it reports every name unchanged and every spec has empty drift in any form the server may show |
| `SchemaLaws.DistinctNamesAreCompatible` | src/host_config/netbox/schema.py:270-282 | Specs with distinct names always agree |
| `SchemaLaws.DefaultFieldsAgree` | src/host_config/netbox/schema.py:165-236 | The seven default fields have distinct names, so they agree, whatever their descriptions |
| `SchemaRestart.InterruptedApplyConverges` | src/host_config/netbox/schema.py:290-318 | For every list of specs, any number of interrupted applies and then a complete one end with the refusal of one apply and with fields no comparison tells apart from its fields; with the very same fields when same-named specs agree |
| `SchemaLaws.AgreeingApplyConverges` | src/host_config/netbox/schema.py:290-318 | When same-named specs agree, interrupted applies and then a complete one leave exactly the server one apply leaves |
| `SchemaRestart.ApplyAfterErrors` | src/host_config/netbox/schema.py:244-318 | The same for any chain of servers that applies leave behind, also ones ended by a transport error |
| `SchemaLaws.FieldsProtected` | src/host_config/netbox/schema.py:363-378 | On every run, also one that raises, no existing field changes its name entry, its type or its normalised object types, and no field is touched that no spec names |
| `SchemaLaws.RefusalIsAPrefix` | src/host_config/netbox/schema.py:306-311 | A run refused at spec i left the server exactly as the specs before i alone do, each of them matched at the end when same-named specs agree; fields they do not name are as before |
| `SchemaLaws.RefusedUntouchedExactly` | src/host_config/netbox/schema.py:279-311 | For every list of specs: a refused apply creates and updates nothing exactly when the server already matched every spec before one that it refuses; the server is then as it was, and when same-named specs agree only then |
| `SchemaLaws.RefusedApplyIsPartial` | src/host_config/netbox/schema.py:279-280 | A concrete refused apply that had created a field: the claim that an apply does not partially complete fails |
| `SchemaLaws.ReportAccounts` | src/host_config/netbox/schema.py:129-146 | Every spec taken is reported once, and the server gained exactly the created fields |
| `Service.RenderEndpoint` | src/host_config/service/routes.py:63-123 | The handler serves, or fails with, exactly what the load and the template engine give, and counts at most one outcome, one load and one duration accordingly |
| `Service.CountLoadFailure` | src/host_config/service/routes.py:81-88 | Lookup and query errors count as netbox_error, invariant errors as validation_error, field errors not at all |
| `Service.RenderBody` | src/host_config/service/routes.py:102-123 | Template errors count as template_error, a rendered body as success |
| `Service.ServedIsTheFixtures` | src/host_config/service/routes.py:79-123 | What is served for a populated device is what its fixture's own intent renders to; for an invalid fixture the same error, or one of another record of the same class, and 422 exactly when the fixture itself violates an invariant |
| `Service.OutcomeAccounting` | src/host_config/service/routes.py:79-123 | On every run success counts the handlers that returned a body, and the outcomes fall short of the finished render handlers by exactly those ended by an exception none of the clauses names |
| `Service.InFlightAccounting` | src/host_config/service/middleware.py:158-190 | In every reachable state of any number of interleaved requests the gauge is the number inside, and the counter has one increment per exit by return, exception or cancellation |
| `Service.CountersAgree` | src/host_config/service/app.py:96-136 | In every reachable state, per verdict, the render counter exceeds the request counter's matching statuses on render routes by exactly the requests still inside and those cancelled after their handler ended |
| `Service.StatusMatchesOutcome` | src/host_config/service/app.py:96-136 | A handler's status is 200, 404 or 502, or 422 exactly when it counted success, netbox_error or validation_error |
| `Service.Answers` | src/host_config/service/app.py:96-136 | 404 is an unknown host, 422 a violated invariant, 502 a failed query, 200 a body; field and template errors escape and an interruption cancels, both counted as 500 |
| `Service.Outcomes` | src/host_config/service/routes.py:79-123 | Which outcome is counted for each way a handler ends, and under which role |
| `Service.Routes` | src/host_config/service/middleware.py:65-110 | Render routes are those under /v1/render/, and a request no route takes has a label of its own |
| `Service.TemplateOf` | src/host_config/render/emitter.py:122-123 | The template is the role's directory and the file's name with .j2 |
| `Service.Middleware.Begin` | src/host_config/service/middleware.py:158-158 | Entering raises the gauge by one |
| `Service.Middleware.Finish` | src/host_config/service/middleware.py:163-190 | Every exit lowers the gauge and counts one request under the route template and the response's status or 500; cache headers go on 200 responses under the render prefix only |
| `Service.Serve` | src/host_config/service/middleware.py:146-191 | Under any interleaving the middleware object's gauge and counter are those of the run |
| `PrepareImage.VerifiedInstall` | fixtures/vms/prepare_image.py:188-204 | With a temporary path of its own, every state of the disk has the old output or a verified one; success leaves the verified image and no temporary file; a raising run leaves the old output, and a temporary file only if removing it raised |
| `PrepareImage.InstalledExactly` | fixtures/vms/prepare_image.py:167-204 | The image is installed exactly when the run was asked for, the sums file lists the image, all of it arrived and could be read, its digest is the listed one and the rename succeeds; the disk is then as before but for the new output and no temporary file |
| `PrepareImage.EndsExactly` | fixtures/vms/prepare_image.py:167-204 | Every other ending and the error it gives, each exactly by its cause; nothing is touched before the image is known to be listed, and a raising run leaves no temporary file unless removing it raised |
| `PrepareImage.PreparedIsVerified` | fixtures/vms/prepare_image.py:175-204 | The same for the whole run with the digest the sums file gives; nothing happens before that digest is known or when the image exists |
| `PrepareImage.TmpIsOut` | fixtures/vms/prepare_image.py:188-188 | The temporary path is the output path exactly for names with the suffix .tmp |
| `PrepareImage.TmpPathMeaning` | fixtures/vms/prepare_image.py:188-188 | The temporary path has .tmp in place of the extension, or after a name without one |
| `PrepareImage.TmpSuffixLosesTheImage` | fixtures/vms/prepare_image.py:175-204 | For every such name a forced run whose download does not have the digest in the sums file overwrites and then deletes the old output |
| `PrepareImage.Prepare` | fixtures/vms/prepare_image.py:138-204 | Takes the disk through exactly the specified states and ends as specified |
| `PrepareImage.Install` | fixtures/vms/prepare_image.py:189-204 | The same for the download, verify and rename block with its cleanup |
| `PrepareImage.FetchFile` | fixtures/vms/prepare_image.py:230-243 | Empties the destination and appends the chunks; says whether the transfer completed |
| `PrepareImage.Sha256Of` | fixtures/vms/prepare_image.py:268-274 | The chunked read hashes the whole file |
| `PrepareImage.ExtractSha256` | fixtures/vms/prepare_image.py:246-265 | Returns the digest of the first entry for the file |
| `PrepareImage.ExtractPublished` | fixtures/vms/prepare_image.py:249-265 | Reading a published sums file back, text or binary entries, finds each listed file's first digest, lower-cased, and nothing for other files |
| `PrepareImage.FirstLine` | fixtures/vms/prepare_image.py:261-261 | The first line of a text ends at its first line break, a carriage return and line feed counting as one |
| `PrepareImage.OneLine` | fixtures/vms/prepare_image.py:261-261 | A text without a line break is one line, or none when empty |
| `PrepareImage.RunVirtCustomize` | fixtures/vms/prepare_image.py:294-381 | Issues the full command, and on failure the filtered one; fails only if both fail |
| `PrepareImage.DropInstall` | fixtures/vms/prepare_image.py:368-372 | The comprehension filters the command word by word |
| `PrepareImage.FullCommand` | fixtures/vms/prepare_image.py:309-360 | The full command is the fallback with --install and the three packages after the image; the key command comes last and ends in the stripped key |
| `PrepareImage.FallbackKeepsTheRest` | fixtures/vms/prepare_image.py:368-372 | The fallback is the command without its --install pair exactly when the image path is neither of the two filtered words |
| `PrepareImage.PairDropped` | fixtures/vms/prepare_image.py:368-372 | Whatever argument follows --install is dropped with it |
| `Launch.HostCmdline` | fixtures/vms/launch.py:415-465 | For every loader-built host and no extra arguments: all netdev ids differ, every -device names the -netdev right before it and there are no others, and the list parses back to the NIC, MAC and tap sequence exactly when the two given tap names hold no comma |
| `Launch.CmdlineRoundTrip` | fixtures/vms/launch.py:440-465 | For any NICs with comma-free ids, parsing gives them back in order exactly when no tap name and no MAC holds a comma |
| `Launch.NicRoundTrip` | fixtures/vms/launch.py:458-465 | The same for one NIC's two options |
| `Launch.PairsOfCmdline` | fixtures/vms/launch.py:440-465 | The -netdev/-device pairs are the management NIC and then the NICs in order |
| `Launch.BuildCmdline` | fixtures/vms/launch.py:334-477 | The loop builds exactly the specified command line |
| `Launch.FindMac` | fixtures/vms/launch.py:485-501 | The first NIC of the name decides; no MAC exactly when there is none |
| `Launch.CollectRails` | fixtures/vms/launch.py:279-283 | The RoCE rails in name order, each on the tap named after it |
| `Launch.LaunchHost` | fixtures/vms/launch.py:273-316 | On a loaded host no MAC lookup fails; the command line and MAC list are the host's, in order |
| `Launch.LoadedNics` | fixtures/vms/launch.py:276-277 | Every loader-built host has nsa and nsb, with canonical MACs |
| `Launch.GuestReachesSeed` | fixtures/vms/launch.py:165-204 | A seed server on the loopback, or without a host, is forwarded at exactly the endpoint of 10.0.2.100 the guest's seed URL names, on its own port or its scheme's; any other is addressed as given |
| `Launch.UnslashedMeaning` | fixtures/vms/launch.py:199-199 | Only slashes go from the end of the server's text, and all of them |
| `Launch.DecimalReadsBack` | fixtures/vms/launch.py:418-421 | A number in the command line reads back as that number |
| `Launch.MachineOptions` | fixtures/vms/launch.py:415-477 | Option by option: -m reads as the memory and -smp as the processors, the image is a snapshot drive, the serial number is the seed URL, the asset tag its own, and the line ends headless with the extra arguments |
| `Launch.NicOptions` | fixtures/vms/launch.py:429-460 | The option texts of a tap NIC and its device, and of the management NIC's device, as QEMU reads them |
| `Launch.SshForward` | fixtures/vms/launch.py:147-162 | The management NIC forwards the given port to SSH, or nothing |
| `Launch.HostNicWords` | fixtures/vms/launch.py:273-283 | nsa0 and nsb0 on the given taps, then each RoCE rail in dictionary order, its name with 0 as id, on the tap named after it |

## Left out

- Netbox itself, pynetbox and HTTP: one writer, unique lookup keys, canonical MAC strings, and a client that fails a chosen call before or after its effect stand in for them. Each table has its own id sequence, and a create that raises uses up no id unless the server applied it.
- Record objects: a handle is an id, and an update is visible to the record that issued it. Stale local copies and nested records are not modelled.
- Values the loader converts with `int()`: MTUs and VLAN numbers are integers; a textual `sriov_vfs` is a field error. Address texts come already told apart by whether `IPv4Interface` accepts them.
- Unicode: strings are ASCII for case, white space, digits and line breaks.
- Pydantic beyond the bounds of the modelled fields, attribute assignment and mutation after construction; the bond's fixed mode, LACP and hash fields.
- The YAML fixture reader and its own checks; command lines, logging, timing values and Prometheus registration. Durations are counted, not measured.
- Populated: describes a device that was absent before; what loading gives for devices that existed with other interfaces is not stated.
- Templates, their engine and the golden files: the engine is a parameter, and the model stops at the template's name and context. Missing templates are not modelled.
- The ETag, Last-Modified and request-id values, the nginx cache, the health, readiness and metrics handlers (they appear as handlers with a status of their own), and header-writing failures inside a run of the interleaving model.
- The JSON bodies of error responses.
- BaseExceptions other than cancellation and an interrupted template: the load stage is taken to raise only the loader's errors.
- Custom-field values that are neither null, booleans, integers, strings nor lists of strings, so also JSON defaults and floats; object types that are neither a list nor null.
- A server that changes what it is sent beyond filling in defaults for new fields, such as removing duplicate object types.
- RefusedUntouchedExactly: for lists holding disagreeing specs of one name the converse about the server itself is not stated, since such a run can change a field and change it back before the refusal; whether it wrote anything is.
- The description texts of the default fields, which the model takes as a parameter; what else is in the cloud-config around the SSH key, whose command is kept as its first words and the key.
- Creating the image directory, the SSH key file lookup and the effect of virt-customize on the image: the command lines it is given are modelled.
- `urlparse`: a seed server comes with its scheme, host and port already found; an invalid port is not modelled.
- Starting QEMU and the handle's shutdown and destroy.
- `scripts/validate_h200_host.py`: parsing of tool output with a count.
