# A verified model of Barcode Manager

Barcode Manager is a set of GObject libraries, a daemon and an applet that share connection
settings, devices and permissions over D-Bus. Around the plumbing there are a few pieces of logic
that other code relies on without checking. This project models them in Dafny and proves what they
promise, for all inputs and all runs.

- **Values.** Settings hold GValues, and are compared by a recursive comparison whose results are
  used as an order and as an equality. `GValues.dfy` says what a comparison may return, hash tables
  being walked in any order; `GValuesCompare.dfy` has the routines with their loops;
  `GValuesOrder.dfy` says which value comes first, `GValuesProofs.dfy` for exactly which values the
  results are an equality and an order.
- **Settings and connections.** A setting is a record of properties under a schema, a connection a
  table of settings. `Settings.dfy` gives them as values, for any schema; `SettingObjects.dfy`,
  `ConnectionObjects.dfy` and `NeedSecrets.dfy` are the objects that the code changes in place;
  `SettingsProofs.dfy` shows what serializing, parsing, redacting, comparing and diffing amount to;
  `StandardSettings.dfy` has the three registered schemas, `StandardAccepts.dfy` what they read and
  accept. `Diffs.dfy` and `Maps.dfy` help.
- **Authorization chains.** Asynchronous checks share a reference-counted chain, whose done callback
  may drop it. `AuthHistory.dfy` says what histories a chain may have and what they mean,
  `AuthChain.dfy` the protocol's steps and the invariant of all runs, `AuthWorld.dfy` the code.
- **Objects, cache and devices.** `ObjectCache.dfy` and `ClientDevices.dfy` have the counts, the
  path index and the arrays, with all runs of signals and re-entrant handlers; `ClientObjects.dfy`
  is the code.
- **Call store and notifications.** `CallStore.dfy`, `CallStoreObjects.dfy` and `NotifyQueue.dfy`:
  two structures that callbacks change while they are being worked through.
- **Codec and permissions.** `HexCodec.dfy` decodes udev escapes and prints hex digits between
  buffers; `Permissions.dfy` has a table and the mirror that an applet keeps from signals.

Freed memory is modelled by absence: allocated chains, calls, objects and inner tables are entries
of tables, freeing removes the entry, and every access is a lookup that must be shown to be defined.
A callback, handler or creator is an arbitrary input: it may do anything that the interface lets it
do, and may depend on all that it has been told so far. Where code walks a hash table, the loop takes
keys in an arbitrary order.

`dafny verify dfyconfig.toml` checks the project.

## Where the code does not do what it says

- Names of settings are compared but not diffed. The property's own text says that a name cannot be
  changed after creation and is shared by the whole class, but it is an ordinary writable property
  (`barcode-manager/libbm-util/bm-setting.c:855-862`). Renaming a setting is a difference that no diff
  reports (`StandardSettings.StandardRenamed`), and a renamed setting does not come back from its
  serialization (`StandardSettings.StandardRoundTrip`). Diff and comparison
  agree on two connections over the registered classes just when names agree
  (`StandardSettings.StandardSameIff`). For any classes, a setting without a property that the diff
  looks at is not reported either; `SettingsProofs.SameIff` is the exact condition.
- Settings shown to callers without access to secrets are prepared by duplicating a connection, and a
  duplicate does not take every value that parsing may leave. Where a property refuses a value and is
  left zero out of its range, the own serialization has it and the public one has not
  (`StandardSettings.BitsNotShown`); otherwise redaction drops secrets only (`SettingsProofs.PublicIff`).
- Announcing a batch of properties holds no reference to the object: handlers that drop the last one
  before the last notification leave the rest without an object (`NotifyQueue.LastRefDropped`).
- Comparing values as an equality or as an order works for exactly the values described by
  `GValuesProofs.ExactIff`, `GValuesProofs.AntisymmetricIff` and `GValuesProofs.TransitiveIff`.
- The call store copies its outer table "so that callbacks can modify" the store, but follows the
  copy's references to inner tables: `CallStore.TableStaysIff` says exactly when they are still there.
  Iterating over all objects is safe for exactly the callbacks that never empty an object still to
  be visited (`CallStoreObjects.ServesIff`); one that does is `CallStoreObjects.EmptyingNotServed`.
- Destroying a call store that still has pairs leaves weak references behind
  (`CallStore.DestroyLeaves`).
- A device announced while the device array cannot be fetched leaks a reference, and nothing else
  does (`ClientDevices.AddedLeaksIff`, `ClientDevices.RunLeaksNothing`).
- A done callback that adds calls makes its chain fire again (`AuthChain.FiresTwice`); a chain fires
  at most once just when no call is added after a fire (`AuthChain.RunFiresIff`).

## Model

| member | source | states |
|---|---|---|
| `GValuesCompare.Compare` | barcode-manager/libbm-util/bm-param-spec-specialized.c:510-564 | The deep comparison tells which value comes first, as OutcomeMeans says, for every pair of values and whatever order hash tables are walked in; and all the laws below hold of the code |
| `GValuesCompare.CompareStrv` | barcode-manager/libbm-util/bm-param-spec-specialized.c:196-221 | -1 iff the first vector has a string with a smaller first differing byte, or ends, at the first place where they differ |
| `GValuesCompare.CompareCollection` | barcode-manager/libbm-util/bm-param-spec-specialized.c:252-300 | Collections compare by length, then packed ones by their memory and others from the last element back to the first |
| `GValuesCompare.CompareMap` | barcode-manager/libbm-util/bm-param-spec-specialized.c:302-371 | A map compares as zero only if each of its keys is in the other map with a value that compares as zero; otherwise the result is that of some differing key, or 1 for a missing one |
| `GValuesCompare.CompareIp6Address` | barcode-manager/libbm-util/bm-param-spec-specialized.c:373-429 | -1 iff the first difference in prefix, address, gateway is smaller on the first side |
| `GValuesCompare.CompareIp6Route` | barcode-manager/libbm-util/bm-param-spec-specialized.c:431-491 | -1 iff the first difference in prefix, metric, destination, next hop is smaller on the first side, although the metric is looked at last |
| `GValuesOrder.OutcomeMeans` | barcode-manager/libbm-util/bm-param-spec-specialized.c:88-491 | Any possible result is -1 just when the first value comes before: the smaller number, by more than the tolerance for floats; the string with the smaller first differing byte, or a proper prefix; the shorter collection or map; a value before NULL. Of lists of one length the last elements that differ decide, and of maps some key that differs or is missing |
| `GValuesProofs.ZeroIffEqual` | barcode-manager/libbm-util/bm-param-spec-specialized.c:252-371 | For a value without floats and without types that cannot be compared, zero means structurally equal to any other value whatever, maps included and in any walk order |
| `GValuesProofs.ExactIff` | barcode-manager/libbm-util/bm-param-spec-specialized.c:342-346 | Comparing as equal is being equal for exactly those values: any other value has a different twin that compares as equal |
| `GValuesProofs.ZeroDecides` | barcode-manager/libbm-util/bm-param-spec-specialized.c:317-331 | Whether the result is zero never depends on the walk order, for any two values |
| `GValuesProofs.Reflexive` | barcode-manager/libbm-util/bm-param-spec-specialized.c:517-518 | Every value, floats included, compares as equal to itself, so the shortcuts for equal pointers change no result |
| `GValuesProofs.SubsetOfSameSize` | barcode-manager/libbm-util/bm-param-spec-specialized.c:356-365 | Why checking the keys of one map is enough: as many keys, all of them in the other |
| `GValuesProofs.OneOutcome` | barcode-manager/libbm-util/bm-param-spec-specialized.c:510-564 | Without map entries there is one result, which is -1, 0 or 1 |
| `GValuesProofs.AntisymmetricIff` | barcode-manager/libbm-util/bm-param-spec-specialized.c:329-330 | Swapping the arguments negates the result for exactly the values without map entries at any depth; a map with a renamed key is greater both ways round |
| `GValuesProofs.Transitive` | barcode-manager/libbm-util/bm-param-spec-specialized.c:88-300 | Without map entries and floats results compose: at most zero twice is at most zero, and zero only if both were |
| `GValuesProofs.TransitiveIff` | barcode-manager/libbm-util/bm-param-spec-specialized.c:157-171 | The order is transitive from exactly the values without floats: two tolerated steps make one that is not tolerated |
| `SettingObjects.Setting.constructor` | barcode-manager/libbm-util/bm-setting.c:762-784 | A new setting has the initial values of its class, with the name its class has given it |
| `SettingObjects.Setting.ToHash` | barcode-manager/libbm-util/bm-setting.c:117-159 | The hash holds exactly the SERIALIZE properties that do not have their default value |
| `SettingObjects.Setting.CollectParams` | barcode-manager/libbm-util/bm-setting.c:167-192 | Of a hash, exactly the entries that name a SERIALIZE property are used |
| `SettingObjects.Setting.NewFromHash` | barcode-manager/libbm-util/bm-setting.c:210-238 | A new object that has the given value for each usable entry that its property takes, and its own initial values otherwise |
| `SettingObjects.Setting.Duplicate` | barcode-manager/libbm-util/bm-setting.c:240-274 | A new object with the same value of every writable property that takes its own value |
| `SettingObjects.Setting.ClearSecrets` | barcode-manager/libbm-util/bm-setting.c:557-581 | Every secret property goes to its default; no other changes |
| `SettingObjects.Setting.Compare` | barcode-manager/libbm-util/bm-setting.c:320-400 | True iff both are of one type and agree on every property that the flags do not exclude |
| `SettingObjects.Setting.DiffProp` | barcode-manager/libbm-util/bm-setting.c:478-500 | The bits for one property tell which side has a value other than the default, with the sides swapped when inverted |
| `SettingObjects.Setting.Diff` | barcode-manager/libbm-util/bm-setting.c:422-512 | The results are those given, with this pass's results OR-ed in; NULL rather than a new empty table |
| `Diffs.MergedBits` | barcode-manager/libbm-util/bm-setting.c:478-500 | Results are OR-ed bit by bit, and none is lost |
| `ConnectionObjects.Connection.AddSetting` | barcode-manager/libbm-util/bm-connection.c:323-331 | A setting replaces an earlier one of its type and touches no other |
| `ConnectionObjects.Connection.ToHash` | barcode-manager/libbm-util/bm-connection.c:784-837 | Every setting has a section under the name it has, and every section is the serialization of a setting with that name; NULL for a connection without settings |
| `ConnectionObjects.Connection.ParseOne` | barcode-manager/libbm-util/bm-connection.c:299-311 | A section with an unregistered name is skipped, any other replaces the setting of the type registered for it |
| `ConnectionObjects.Connection.NewFromHash` | barcode-manager/libbm-util/bm-connection.c:1027-1043 | The parsed connection, whatever the order of the sections, or NULL with an error iff it does not verify |
| `ConnectionObjects.Connection.Verify` | barcode-manager/libbm-util/bm-connection.c:585-630 | True iff there is a connection setting and every setting's own verify accepts it with the names of all; an error is one that some setting reports |
| `ConnectionObjects.Connection.Compare` | barcode-manager/libbm-util/bm-connection.c:427-483 | True iff each connection's settings are all in the other and agree there; NULL equals only NULL |
| `ConnectionObjects.Connection.DiffSetting` | barcode-manager/libbm-util/bm-connection.c:498-515 | One setting's results are OR-ed into the entry of the setting's name, and never make an empty entry |
| `ConnectionObjects.Connection.Diff` | barcode-manager/libbm-util/bm-connection.c:535-566 | NULL iff there is nothing to report on any type, whatever settings are called; where they have the names of their classes, the result of the two passes is exactly the symmetric pointwise diff |
| `ConnectionObjects.Connection.Duplicate` | barcode-manager/libbm-util/bm-connection.c:1045-1073 | A connection of fresh settings with the same scope and path, sharing nothing with the original |
| `ConnectionObjects.Connection.ClearSecrets` | barcode-manager/libbm-util/bm-connection.c:760-782 | All secrets of all settings are cleared, although settings are separate objects changed in place |
| `ConnectionObjects.Connection.GetSettings` | barcode-manager/libbm-glib/bm-exported-connection.c:70-104 | The table shown is the connection's own serialization without secret keys and values out of range, and with the tracked timestamp; it leaves out no more than secrets if no value is out of range; nothing that existed before is modified |
| `SettingsProofs.ShownIs` | barcode-manager/libbm-util/bm-setting.c:240-274 | Duplicating a setting, clearing its secrets and serializing it drops exactly the secret keys and the values out of range, for any schema and any values that properties may hold |
| `SettingsProofs.RedactedIff` | barcode-manager/libbm-util/bm-setting.c:557-581 | It drops just the secret keys iff every serialized property that is not secret has a value in its range |
| `SettingsProofs.RefusedNotShown` | barcode-manager/libbm-util/bm-setting.c:210-238 | A value that parsing refuses, leaving one out of range, is in the own serialization and is not shown |
| `SettingsProofs.PublicIs` | barcode-manager/libbm-glib/bm-exported-connection.c:70-104 | For every schema and every connection that holds what properties may hold: duplicate, clear, stamp and serialize amounts to the own serialization without secret keys and values out of range, and with its timestamp replaced, which is left out if the tracked one is zero |
| `SettingsProofs.PublicIff` | barcode-manager/libbm-glib/bm-exported-connection.c:70-104 | No more than redacting and restamping iff every serialized property that is not secret has a value in its range, but for a timestamp that is replaced |
| `SettingsProofs.SharedPass` | barcode-manager/libbm-util/bm-setting.c:466-501 | On a setting that both have, the first pass and the inverted second one report the same |
| `SettingsProofs.TwoPassesIsDiff` | barcode-manager/libbm-util/bm-connection.c:486-566 | A-to-B and then inverted B-to-A is the pointwise diff: IN_A iff non-default in A, IN_B iff non-default in B, one side's properties for a setting that only it has, nothing else |
| `SettingsProofs.EmptyDiff` | barcode-manager/libbm-util/bm-connection.c:560-565 | The table of diffs is empty iff there is nothing to report on any type |
| `SettingsProofs.ParsedValid` | barcode-manager/libbm-util/bm-setting.c:210-238 | Whatever the hash, a parsed property holds a valid value or what a refused one leaves, and parsed settings have their classes' names |
| `SettingsProofs.ParsedConverts` | barcode-manager/libbm-util/bm-setting.c:210-238 | A parsed property holds what the given value converts to, if it takes that, else what construction leaves; properties that are not given hold their initial values |
| `SettingsProofs.RoundTrip` | barcode-manager/libbm-util/bm-connection.c:1027-1043 | Parsing what a connection serializes to gives it back, values out of range included, but for properties that are not serialized, if settings have their classes' names |
| `SettingsProofs.RoundTripIff` | barcode-manager/libbm-util/bm-connection.c:299-311 | What a connection serializes to is parsed to one that compares as the same under EXACT iff properties that are not serialized, the name among them, have their initial values, and then it is equal |
| `SettingsProofs.SameExact` | barcode-manager/libbm-util/bm-connection.c:456-483 | An EXACT comparison of valid connections is equality |
| `SettingsProofs.SameReflexive` | barcode-manager/libbm-util/bm-connection.c:456-483 | Comparing is reflexive for every set of flags |
| `SettingsProofs.SameTransitive` | barcode-manager/libbm-util/bm-connection.c:456-483 | Comparing is transitive and symmetric for every set of flags |
| `SettingsProofs.SerializeParsed` | barcode-manager/libbm-util/bm-connection.c:816-837 | Serializing a parsed hash gives the hash restricted to known sections, SERIALIZE keys and values that are not the default, malformed values having given way to what construction leaves |
| `SettingsProofs.SerializeParseIdempotent` | barcode-manager/libbm-util/bm-connection.c:816-837 | Parsing and serializing a second time changes nothing, for any hash at all |
| `SettingsProofs.DiffAgrees` | barcode-manager/libbm-util/bm-connection.c:486-566 | If settings of one type have the same name and the diff looks at some property of every class, it reports nothing iff comparing succeeds |
| `SettingsProofs.SameIff` | barcode-manager/libbm-util/bm-setting.c:475-476 | For any two connections, renamed settings and values out of range included: comparing succeeds iff the diff has nothing to report, the names of settings of one type agree where names are compared, and a setting of a type without a property to diff is in both or in neither |
| `SettingsProofs.RenamedPair` | barcode-manager/libbm-util/bm-setting.c:475-476 | A setting and the same one renamed compare as different with nothing for the diff to report |
| `SettingsProofs.UndiffedPair` | barcode-manager/libbm-util/bm-connection.c:498-515 | A connection with just a setting of a type without a property to diff differs from an empty one, and the diff does not say so |
| `SettingsProofs.DiffAgreesIff` | barcode-manager/libbm-util/bm-connection.c:486-566 | Diff and comparison agree on all connections iff every class has a property to diff and a name that is not compared or cannot differ |
| `SettingsProofs.NamedAgreesIff` | barcode-manager/libbm-util/bm-connection.c:486-566 | They agree on all connections whose settings kept the names their classes gave them iff every class has a property to diff |
| `SettingsProofs.FlagsIff` | barcode-manager/libbm-util/bm-setting.c:318-341 | For any schema, two settings compare as the same iff all properties agree but those left out: with FUZZY marked ones and secrets, with the other flags secrets and the id of the connection setting; a diff reports just the same ones |
| `NeedSecrets.SettingsByPriority` | barcode-manager/libbm-util/bm-connection.c:692-698 | Sorted insertion in any table order gives each setting once, in order of priority |
| `NeedSecrets.Ask` | barcode-manager/libbm-util/bm-connection.c:718-758 | The name is that of a setting that needs the hinted secrets, and none of lower priority number needs any; NULL iff no setting needs any |
| `NeedSecrets.OneAnswer` | barcode-manager/libbm-util/bm-connection.c:209-220 | With distinct priorities setting and hints do not depend on the order of the table |
| `StandardSettings.ValidateUuid` | barcode-manager/libbm-util/bm-setting-connection.c:222-236 | True iff the string is not empty and has hex digits and dashes only |
| `StandardSettings.PlainConnection` | barcode-manager/libbm-util/bm-setting-connection.c:380-521 | Every default of the connection schema is valid, nothing is secret, and all but the name is serialized |
| `StandardSettings.PlainBluetooth` | barcode-manager/libbm-util/bm-setting-bluetooth.c:201-246 | The same of the bluetooth schema, with its boxed address |
| `StandardSettings.PlainSerial` | barcode-manager/libbm-util/bm-setting-serial.c:204-294 | The same of the serial schema with its ranges and non-zero defaults |
| `StandardSettings.StandardNames` | barcode-manager/libbm-util/bm-connection.c:183-207 | The three registered names identify their types |
| `StandardSettings.AddressesSame` | barcode-manager/libbm-util/bm-param-spec-specialized.c:594-600 | Two bluetooth addresses compare as the same by deep comparison iff they are equal |
| `StandardSettings.StandardSameIff` | barcode-manager/libbm-util/bm-connection.c:427-566 | For the three registered types and every combination of flags, comparing any two connections succeeds iff there is nothing to report and the names of settings of one type agree |
| `StandardSettings.StandardRenamed` | barcode-manager/libbm-util/bm-setting.c:475-476 | For each registered type, name and combination of flags, a renamed setting is a difference that no diff reports |
| `StandardSettings.StandardDiffAgrees` | barcode-manager/libbm-util/bm-connection.c:535-566 | If no setting has been renamed, the diff says "same" iff the comparison does |
| `StandardSettings.StandardRoundTrip` | barcode-manager/libbm-util/bm-connection.c:1027-1043 | What a verified connection over the three types serializes to is parsed to an equal one, and to the same under EXACT, iff no setting has been renamed, and then it is accepted |
| `StandardSettings.BitsNotShown` | barcode-manager/libbm-util/bm-setting-serial.c:137-140 | A serial section with three bits is parsed to zero bits, which verifies and is in the own serialization, but is not shown |
| `StandardAccepts.StandardAccepted` | barcode-manager/libbm-util/bm-setting-connection.c:238-295 | A connection over the three types is accepted iff it has a connection setting with an id, a uuid of hex digits and dashes, and a type that is the name of one of its settings, and a bluetooth setting, if there is one, has an address and is "dun" or "panu" |
| `StandardAccepts.ConnectionErrors` | barcode-manager/libbm-util/bm-setting-connection.c:238-295 | Which error the connection setting gives for each failure, the first one in the order id, uuid, type |
| `StandardAccepts.BluetoothErrors` | barcode-manager/libbm-util/bm-setting-bluetooth.c:110-141 | Which error the bluetooth setting gives for each failure |
| `StandardAccepts.BothAccepted` | barcode-manager/libbm-util/bm-connection.c:1027-1043 | Any hash with a good connection section of type bluetooth and a good bluetooth section is accepted |
| `StandardAccepts.SomeAccepted` | barcode-manager/libbm-util/bm-connection.c:1027-1043 | There is such a hash |
| `StandardAccepts.TypeAloneRefused` | barcode-manager/libbm-util/bm-setting-connection.c:286-292 | With the connection section alone it is refused |
| `StandardAccepts.ConnectionReads` | barcode-manager/libbm-util/bm-setting-connection.c:380-521 | What each entry of a connection section is parsed to, with the defaults and the ranges |
| `StandardAccepts.BluetoothReads` | barcode-manager/libbm-util/bm-setting-bluetooth.c:201-246 | The same of a bluetooth section |
| `StandardAccepts.SerialReads` | barcode-manager/libbm-util/bm-setting-serial.c:204-294 | The same of a serial section: 57600 baud and 8n1 by default |
| `StandardAccepts.StandardFlags` | barcode-manager/libbm-util/bm-setting.c:318-341 | Of the registered types, FUZZY leaves out the connection's id, uuid, autoconnect, timestamp and read-only, IGNORE_ID its id, and no flag anything else, in comparison and in diff |
| `StandardAccepts.TimestampShown` | barcode-manager/libbm-glib/bm-exported-connection.c:70-104 | The timestamp shown is the tracked one, and none is shown if that is zero |
| `StandardAccepts.StandardAsksNothing` | barcode-manager/libbm-util/bm-connection.c:183-207 | The registered types have priorities 0, 1 and 2 and never ask for secrets |
| `AuthWorld.World.NewChain` | barcode-manager/src/bm-manager-auth.c:76-112 | A chain with one reference, no calls and no data, or NULL and no change for a caller without a bus name |
| `AuthWorld.World.AddTo` | barcode-manager/src/bm-manager-auth.c:250-287 | A pending call at the end of the chain's list, or FALSE and no change if its owner has no polkit subject |
| `AuthWorld.World.StoreData` | barcode-manager/src/bm-manager-auth.c:145-165 | The chain's datum, removed for NULL |
| `AuthWorld.World.CancelAll` | barcode-manager/src/bm-manager-auth.c:180-185 | Exactly the listed calls become disposed; none is freed |
| `AuthWorld.World.Unref` | barcode-manager/src/bm-manager-auth.c:289-312 | One reference less; with the last one the chain is freed and its calls are left to their late completions |
| `AuthWorld.World.CheckDone` | barcode-manager/src/bm-manager-auth.c:167-178 | With no calls left the callback runs while a reference is held for it |
| `AuthWorld.World.Take` | barcode-manager/src/bm-manager-auth.c:207-242 | A completed call is off the list, and its error is kept if it is the first, else its verdict is stored |
| `AuthWorld.World.Complete` | barcode-manager/src/bm-manager-auth.c:201-248 | A completion, late ones of disposed calls included, does what the protocol's step says and looks up only what is allocated |
| `AuthWorld.Run` | barcode-manager/src/bm-manager-auth.c:65-312 | Any sequence of owners' acts and completions, with callbacks that do anything an owner may, leads where the protocol's steps lead |
| `AuthChain.RunInv` | barcode-manager/src/bm-manager-auth.c:167-312 | In every interleaving: references are those of owner and running callback, lists are exactly the pending undisposed calls, each call is allocated or freed once, and chains hold what their history says |
| `AuthChain.RunUsable` | barcode-manager/src/bm-manager-auth.c:201-248 | After any run, no event that may come next looks up a freed chain or call, not even while or after a callback has dropped the owner's reference |
| `AuthChain.DoneInv` | barcode-manager/src/bm-manager-auth.c:167-178 | The chain is still allocated when its callback returns, whatever the callback did |
| `AuthChain.CompletionFrees` | barcode-manager/src/bm-manager-auth.c:187-199 | Every completion frees its call, which had not been freed before |
| `AuthChain.NothingLeaks` | barcode-manager/src/bm-manager-auth.c:187-312 | With no completion to come, every call ever made has been freed exactly once, and only chains that an owner still holds are allocated |
| `AuthChain.RunFires` | barcode-manager/src/bm-manager-auth.c:167-178 | If no call is added after the first completion, the callback fires exactly once, when the last call completes |
| `AuthChain.RunFiresIff` | barcode-manager/src/bm-manager-auth.c:167-178 | In any run, once none of its calls is outstanding, a chain's callback has fired iff a call was ever added, and more than once iff a call was added after a fire |
| `AuthChain.FiresTwice` | barcode-manager/src/bm-manager-auth.c:244-247 | The run in which a done callback adds a call: the chain fires a second time when that call completes |
| `AuthChain.RunFireTells` | barcode-manager/src/bm-manager-auth.c:201-242 | In any run, every time a callback fires it is given the verdict of the latest check without error for each permission, or the datum its owner set later, and the error of the first check that failed, or none |
| `AuthChain.RunFireVerdict` | barcode-manager/src/bm-manager-auth.c:224-239 | In any run, a callback is given 1 for a permission if polkit's latest answer was that the caller is authorized, else 2 if the caller may authenticate, else 3 |
| `AuthChain.DropFrees` | barcode-manager/src/bm-manager-auth.c:289-312 | In any run, the owner's drop frees its chain and disposes just the calls on it, which stay allocated |
| `AuthChain.SetDataSets` | barcode-manager/src/bm-manager-auth.c:145-165 | In any run, setting a datum changes that datum of that chain alone, and NULL removes it |
| `AuthChain.AddCallAdds` | barcode-manager/src/bm-manager-auth.c:250-287 | In any run, a call that is added is new and pending, at the end of its chain's list |
| `AuthChain.CompletionRecords` | barcode-manager/src/bm-manager-auth.c:201-248 | In any run, a completion is recorded with its outcome, unless the chain has been dropped: then only the call goes |
| `AuthChain.RunDroppedEarly` | barcode-manager/src/bm-manager-auth.c:289-312 | A chain dropped with calls outstanding never fires |
| `AuthHistory.LatestVerdict` | barcode-manager/src/bm-manager-auth.c:65-74 | What a chain stores for a permission is 1, 2 or 3 as the latest check without error answered, or the datum its owner set later |
| `AuthHistory.FirstError` | barcode-manager/src/bm-manager-auth.c:217-222 | A chain's error is that of the first check to complete with one, and there is none iff no check has failed |
| `AuthHistory.FireMeaning` | barcode-manager/src/bm-manager-auth.c:167-178 | Each fire follows a completion that left nothing outstanding, and is given the error and data of that moment |
| `AuthHistory.FiresOnce` | barcode-manager/src/bm-manager-auth.c:167-178 | What RunFires says, of any history that follows the rules |
| `AuthHistory.FiresIff` | barcode-manager/src/bm-manager-auth.c:167-178 | What RunFiresIff says, of any history that follows the rules |
| `AuthHistory.FireTells` | barcode-manager/src/bm-manager-auth.c:201-242 | What RunFireTells says, of any history that follows the rules |
| `AuthHistory.NoFireAfterDrop` | barcode-manager/src/bm-manager-auth.c:289-312 | Once its owner has dropped it, a chain fires no more |
| `ObjectCache.CreateSoundIff` | barcode-manager/libbm-glib/bm-object-cache.c:51-61 | Creating an object keeps the cache faithful iff its path was not cached, or nothing was constructed: create only after a cache miss |
| `ObjectCache.ObtainSound` | barcode-manager/libbm-glib/bm-types.c:254-266 | Asking the cache first and creating on a miss keeps counts and cache faithful, whatever the creator does |
| `ObjectCache.ObtainKeeps` | barcode-manager/libbm-glib/bm-types.c:254-266 | The object obtained has the path asked for, and no live object loses or changes its path |
| `ObjectCache.CopyThenFree` | barcode-manager/libbm-glib/bm-types.c:198-218 | Copying an array and freeing the copy restores every count and the cache |
| `ObjectCache.DemarshalFaithful` | barcode-manager/libbm-glib/bm-types.c:232-276 | With duplicate paths and failed creations: counts are slots plus outside holders, a path is cached iff its object is live, the array has the paths that answer, and what was live keeps its identity |
| `ObjectCache.DemarshalKeepsShared` | barcode-manager/libbm-glib/bm-types.c:268-273 | An object of the old array whose path is asked for again is in the new array, and was never destroyed |
| `ClientObjects.Objects.Unref` | barcode-manager/libbm-glib/bm-object-cache.c:37-42 | The last reference finalizes the object and takes its path out of the cache |
| `ClientObjects.Objects.Register` | barcode-manager/libbm-glib/bm-object.c:66-81 | A constructed object is found by its path |
| `ClientObjects.Objects.Create` | barcode-manager/libbm-glib/bm-object.c:66-96 | A creator that fails half-way leaves no object behind |
| `ClientObjects.Objects.CopyArray` | barcode-manager/libbm-glib/bm-types.c:198-208 | The copy has the same objects, with one more reference for each slot |
| `ClientObjects.Objects.FreeArray` | barcode-manager/libbm-glib/bm-types.c:210-218 | Each slot gives its reference back, and nothing else is released |
| `ClientObjects.Objects.Demarshal` | barcode-manager/libbm-glib/bm-types.c:232-276 | The code gives the array, the counts and the cache of DemarshalFaithful; a value of another type changes nothing |
| `ClientObjects.Client.GetDevices` | barcode-manager/libbm-glib/bm-client.c:675-703 | The array is fetched once; NULL stands for an error and for an empty array |
| `ClientObjects.Client.GetDeviceByPath` | barcode-manager/libbm-glib/bm-client.c:714-737 | The first device with the path, or NULL iff there is none |
| `ClientObjects.Client.OnDeviceAdded` | barcode-manager/libbm-glib/bm-client.c:626-649 | A device not in the array goes to its end with a reference of its own, and handlers are told of every device that was obtained |
| `ClientObjects.Client.OnDeviceRemoved` | barcode-manager/libbm-glib/bm-client.c:651-664 | Handlers run while the array still owns the device; then its slot and its reference go |
| `ClientDevices.RunInv` | barcode-manager/libbm-glib/bm-client.c:626-737 | In every run of signals, fetches and handlers that take and drop references and may fetch the array themselves, counts are array slots plus other holders plus leaked references, and the cache is faithful |
| `ClientDevices.RunMirrors` | barcode-manager/libbm-glib/bm-client.c:626-664 | The signals emitted are enough to know the array's paths, in order |
| `ClientDevices.RunKeepsDistinct` | barcode-manager/libbm-glib/bm-client.c:626-664 | From distinct paths, paths stay distinct with one array reference a device, and are the first ones plus successful additions minus removals |
| `ClientDevices.FetchPaths` | barcode-manager/libbm-glib/bm-client.c:690-702 | The fetched array has the daemon's paths that answer, in order, and they are distinct iff no path that answers is repeated |
| `ClientDevices.AddedLeaksIff` | barcode-manager/libbm-glib/bm-client.c:626-649 | In any state, whatever the daemon answers and the handlers do, a device-added signal leaks a reference iff there is no array and none is fetched, and an object was obtained; it leaks that object's reference and no other |
| `ClientDevices.RunLeaksNothing` | barcode-manager/libbm-glib/bm-client.c:626-737 | Once the array is there, no run leaks a reference |
| `ClientDevices.AddedAlways` | barcode-manager/libbm-glib/bm-client.c:626-649 | Whether or not there is an array yet: a device-added signal is passed on just when the device is in the array after the attempt to fetch it, is live, or can be created, and the array then ends with the device if it was not in it |
| `ClientDevices.RemovedAlways` | barcode-manager/libbm-glib/bm-client.c:651-664 | Whether or not there is an array yet: a device-removed signal is passed on just when the device is in the array after the attempt to fetch it, whose first slot with the path goes; without an array nothing happens |
| `ClientDevices.FetchIs` | barcode-manager/libbm-glib/bm-client.c:675-703 | When there is an array after asking for it, what its paths are, and which paths are live |
| `ClientDevices.TakenStays` | barcode-manager/libbm-glib/bm-client.c:658-662 | A handler that takes a reference to a device being removed keeps it alive and cached |
| `ClientDevices.UseCounts` | barcode-manager/libbm-glib/bm-object-cache.c:37-42 | References that handlers take and give back are counted, and an object is gone with its last one |
| `ClientDevices.UseObtains` | barcode-manager/libbm-glib/bm-types.c:254-266 | A handler that asks for a path gets the live object or a new one; one that asks for the array has it fetched if it was missing |
| `CallStoreObjects.Store.Add` | barcode-manager/src/bm-call-store.c:38-57 | The pair is in, with an inner table and one weak reference iff its object had none |
| `CallStoreObjects.Store.Remove` | barcode-manager/src/bm-call-store.c:59-83 | The pair is out, and with an object's last id go its table and its weak reference; unknown ids change nothing |
| `CallStoreObjects.Store.ObjectDestroyed` | barcode-manager/src/bm-call-store.c:32-36 | The object's entry is gone with all its ids |
| `CallStoreObjects.Store.Clear` | barcode-manager/src/bm-call-store.c:188-201 | Every weak reference and table is gone |
| `CallStoreObjects.Store.GetCallIds` | barcode-manager/src/bm-call-store.c:105-121 | A list of exactly the table's ids, each once |
| `CallStoreObjects.Store.CallCallback` | barcode-manager/src/bm-call-store.c:92-103 | The callback is called unless it has answered FALSE before, and counted if it answers TRUE |
| `CallStoreObjects.Store.ForeachOf` | barcode-manager/src/bm-call-store.c:161-174 | For one object and any callback whatever: exactly its ids at entry, each once, up to the first FALSE; -1 after a FALSE or for an unknown object |
| `CallStoreObjects.Store.ForeachAll` | barcode-manager/src/bm-call-store.c:123-186 | For a callback that never empties an object still to be visited: every object is visited once, the callback is passed the ids each has when it is visited, up to the first FALSE, the result is their number or -1, and the store ends as the callback's edits leave it; if the callback edits only the object it visits, these are exactly the pairs at entry |
| `CallStoreObjects.ServesIff` | barcode-manager/src/bm-call-store.c:175-182 | That requirement is no more than that the copied references to inner tables are still there when they are followed, in every order of the tables |
| `CallStoreObjects.OwnServes` | barcode-manager/src/bm-call-store.c:132-136 | A callback that edits only the object it visits meets it |
| `CallStoreObjects.AddingServes` | barcode-manager/src/bm-call-store.c:132-136 | So does one that only adds, to any object |
| `CallStoreObjects.EmptyingNotServed` | barcode-manager/src/bm-call-store.c:175-182 | A callback that empties another object's entry does not |
| `CallStore.EditFaithful` | barcode-manager/src/bm-call-store.c:32-83 | Every operation keeps the two-level form, with no empty table and one weak reference a key, and does to the set of pairs what its name says |
| `CallStore.RunFaithful` | barcode-manager/src/bm-call-store.c:32-201 | So does every run of operations |
| `CallStore.TableStaysIff` | barcode-manager/src/bm-call-store.c:175-182 | An inner table read through the copied outer table is still there iff its object has had ids all the time since, whatever edits were made |
| `CallStore.DestroyLeaves` | barcode-manager/src/bm-call-store.c:203-209 | Destroying the store leaves exactly one weak reference to each object that has ids, so none iff it holds no pairs |
| `CallStoreObjects.Store.Destroy` | barcode-manager/src/bm-call-store.c:203-209 | The outer table goes with all inner ones; weak references are not dropped |
| `NotifyQueue.Notifier.QueueNotify` | barcode-manager/libbm-glib/bm-object.c:277-300 | The pending list holds each queued property once, and a flush is scheduled iff it is not empty |
| `NotifyQueue.Notifier.DeferredNotify` | barcode-manager/libbm-glib/bm-object.c:252-275 | The batch is announced while handlers queue into the next one, which schedules a flush of its own, and take and drop references; every notification finds the object if a reference is left after each but the last, and it is disposed if none is left after that |
| `NotifyQueue.EnoughRefs` | barcode-manager/libbm-glib/bm-object.c:252-275 | The object is there for the whole batch if the handlers of all notifications but the last drop fewer references than there are |
| `NotifyQueue.LastRefDropped` | barcode-manager/libbm-glib/bm-object.c:269-272 | A handler that drops the only reference during the first of two notifications leaves the second without an object |
| `NotifyQueue.FirstQueuedIs` | barcode-manager/libbm-glib/bm-object.c:277-300 | A batch has each property queued since the last one was taken, once, in the order of first queueing |
| `NotifyQueue.FlushAnnounces` | barcode-manager/libbm-glib/bm-object.c:252-275 | A flush announces that batch and nothing queued meanwhile, and leaves nothing if handlers queue nothing |
| `NotifyQueue.RunInv` | barcode-manager/libbm-glib/bm-object.c:252-300 | In every run with re-entrant handlers that also take and drop references, a property is announced after each time it was queued unless it still waits or the object is gone, and not more often than it was queued |
| `NotifyQueue.Run` | barcode-manager/libbm-glib/bm-object.c:252-300 | The code follows these runs, disposal included, as long as each batch keeps a reference, and keeps list and source in step; no scheduled callback and no list outlives the object |
| `NotifyQueue.GoneQueuesNothing` | barcode-manager/libbm-glib/bm-object.c:99-121 | In every run, nothing stays queued on an object that is gone |
| `NotifyQueue.IdleAnnounces` | barcode-manager/libbm-glib/bm-object.c:252-275 | In every run, an idle callback that finds the object announces just what is queued, in first-queued order |
| `NotifyQueue.IdleCatchesUp` | barcode-manager/libbm-glib/bm-object.c:252-275 | After it, everything queued before it has been announced since it was queued |
| `NotifyQueue.DoesSteps` | barcode-manager/libbm-glib/bm-object.c:277-300 | In every run, what a holder queues is queued, what it takes and drops is counted, and with the last reference the queue goes |
| `HexCodec.GetDecodedProperty` | barcode-manager/libbm-glib/bm-device.c:673-698 | On any NUL-terminated input all reads and writes are inside the two buffers, the loop ends, and the buffer holds the decoded bytes followed by NULs |
| `HexCodec.Bin2Hexstr` | barcode-manager/libbm-util/bm-utils.c:707-734 | The lower-case digits of section 8 of RFC 4648, cut at the final length; NULL for exactly the arguments it refuses |
| `HexCodec.HexstrRead` | barcode-manager/libbm-glib/bm-device.c:658-669 | Reading back the two digits printed for a byte gives the byte |
| `HexCodec.RoundTripIff` | barcode-manager/libbm-glib/bm-device.c:673-698 | Decoding a string with any choice of bytes escaped, backslashes always, gives the string back for exactly the strings without NUL |
| `HexCodec.UnchangedIff` | barcode-manager/libbm-glib/bm-device.c:673-698 | Decoding never lengthens a string, and changes exactly the strings that have an escape |
| `HexCodec.BadEscape` | barcode-manager/libbm-glib/bm-device.c:658-669 | An escape decodes to 255 iff it is "ff" in either case or has a bad digit |
| `HexCodec.EscapeRead` | barcode-manager/libbm-glib/bm-device.c:644-669 | A backslash, an x and two hex digits in either case decode to the number the digits write |
| `HexCodec.HexstrWrites` | barcode-manager/libbm-util/bm-utils.c:707-734 | Each byte is printed as two digits of "0123456789abcdef", the high one first |
| `Permissions.Client.Process` | barcode-manager/libbm-glib/bm-client.c:223-240 | The new table has exactly the known permissions of the daemon's answer, and the old ones that are missing in it are kept apart |
| `Permissions.Client.UpdatePermissions` | barcode-manager/libbm-glib/bm-client.c:209-260 | The table is what the answer says; one signal for each permission of the old or the new table, with its new result or 0; an applet that agreed before agrees after |
| `Permissions.ReceivedReads` | barcode-manager/libbm-glib/bm-client.c:187-207 | The two names are read as permissions 1 and 4, the words "yes", "auth" and "no" as results 1, 2 and 3, any other as 0, and other names are not read |
| `Permissions.Applet.OnPermissionChanged` | barcode-manager-applet/src/applet.c:1631-1641 | The signalled entry is overwritten if it is in range |
| `Permissions.Client.Setup` | barcode-manager-applet/src/applet.c:1687-1693 | From the initial copy on, the applet agrees with the client's table |
| `Permissions.MirrorIff` | barcode-manager/libbm-glib/bm-client.c:242-259 | Signals that tell the truth bring the mirror up to date iff there is one for each permission whose result has changed |
| `Permissions.RunAgrees` | barcode-manager/libbm-glib/bm-client.c:209-260 | After every update the array kept from signals alone agrees with the table |
| `Permissions.Run` | barcode-manager-applet/src/applet.c:1687-1693 | The same of the code, from the client's constructor through any number of updates, errors included |

## Left out

- D-Bus proxies and marshalling, GType registration, error messages and logging: what arrives and
  what a remote side answers are parameters.
- GObject itself: an object is its identity, its count and its properties. Setting a property
  converts the value with a given transformation and stores it only if the property takes it; a
  construct property that is given a value it does not take is left zero.
- Polkit's decisions: a completion comes at any time with any outcome. That polkit completes every
  check in the end is not shown; the results that need it have it as a premise.
- Threads: all callbacks run from one main loop, so the steps of one callback are not interleaved.
- `CallStoreObjects.Store.ForeachAll`: requires a callback that never empties an object still to be
  visited, as any other makes the code read a freed table in some order of its tables
  (`CallStoreObjects.ServesIff`); a callback that itself visits the store is not modelled.
- `CallStoreObjects.Store.ForeachOf`: the callback may end objects, but that the visited object
  itself stays alive for the callback to use is up to the caller.
- `NotifyQueue.Notifier.DeferredNotify`: requires that a reference is left after every notification
  but the last, without which the code uses a freed object (`NotifyQueue.LastRefDropped`).
- Property change messages that lead to queueing (`handle_property_changed`): name lookup only.
- `Permissions.Client.UpdatePermissions`: rechecks that are asked for while an answer is awaited are
  dropped by the client, and that the daemon's answer is current is not shown.
- `HexCodec.RoundTripIff`: backslashes are always escaped, as a plain one may start an escape.
- `SettingObjects.Setting.constructor`: a class whose init sets no name, for which construction
  returns NULL, is not modelled; the results about names are for classes whose init sets one.
- `ConnectionObjects.Connection.AddSetting`: a setting's name is not NULL, as its construction makes
  sure; a name set to NULL later, which the code would hash, is not modelled.
- `ConnectionObjects.Connection.Diff`: where settings have been renamed, it says whether there is
  anything to report, and `DiffSetting` where each setting's results go, but not how the table looks
  in the end if settings share a name.
- `update_secrets` and its transformation, whose destination is not initialised.
- Integer widths of property values: ranges are part of the schemas; counts of references, slots
  and ids do not overflow.
- Floating point rounding: floats are reals with the tolerance of the code.
- Converters of values to display strings, the applet's user interface, udev and hidraw access,
  activation requests and the device classes of the daemon, which are stubs or only do input and
  output.
