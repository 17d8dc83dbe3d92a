# Verified model of LuCI's client-side logic

Most of what is in LuCI's bundled JavaScript draws forms. Some of it is not: a staging
store for configuration changes, a version order and a dependency walk, codecs for DNS
records and IPv6 addresses, two small languages, a random generator, a hash and subnet
arithmetic. This project models these in Dafny and proves what they are for.

`dafny verify dfyconfig.toml` checks all of it.

| files | model |
|---|---|
| `base.dfy`, `bits.dfy`, `bit_digits.dfy`, `text.dfy`, `text_rules.dfy`, `sorting.dfy` | what the others share: options and maps, bit operations on numbers, numerals and string operations, a stable sort |
| `uci_model.dfy`, `uci_order.dfy`, `uci_save.dfy`, `uci_names.dfy`, `uci_sent.dfy`, `uci_batch.dfy` | one package of the UCI store as overlays over a snapshot; its order; what `save` makes of it; the batch over all packages |
| `uci_store.dfy` | the store itself, a class with the nested tables that `uci.js` updates in place |
| `zones.dfy` | deleting and renaming firewall zones, on top of that class |
| `version.dfy`, `version_rules.dfy`, `deps.dfy`, `deps_rules.dfy` | the package version order and the dependency walk |
| `template.dfy`, `template_rules.dfy` | the template language of the firewall forms |
| `datatypes.dfy`, `datatypes_rules.dfy` | the datatype expressions of form fields: compiler and evaluators |
| `ip.dfy`, `ipv6_text.dfy`, `ip_rules.dfy` | IPv4 and IPv6 text: two readers and a writer |
| `svc_values.dfy`, `svc_params.dfy`, `svc_roundtrip.dfy`, `svc_rules.dfy`, `svc_spelling.dfy`, `svcb.dfy`, `svcb_roundtrip.dfy`, `svcb_mandatory.dfy`, `svcb_rules.dfy` | SVCB and HTTPS record data |
| `masks.dfy`, `subnets.dfy`, `routes.dfy` | prefixes and netmasks, masking, longest prefix match, network and broadcast addresses |
| `limbs.dfy`, `prng.dfy` | arithmetic on 16-bit limbs and the generator on it |
| `hash.dfy`, `hash_known.dfy` | the string hash |

Loops that update variables are methods, proved against functions; what the source is for is
proved about these functions, for all inputs. The UCI store, the walk's `info` and the
generator are classes whose methods state the whole new state. The files named `_rules` say
what the results are without the functions that compute them.

Some promises do not hold of the code as it stands. In each case the code is modelled as it is,
a lemma gives an input, and another one says exactly when the promise holds:

- `save` can lose a pending delete after a whole-section `get` (`UciSave.WholeGetLosesDelete`;
  exactly when: `UciSave.StepLoses` and `UciSave.SaveFidelity`).
- A package with an empty deletion table is not reordered (`UciSave.EmptyDeletionsBlockReorder`;
  exactly when: `UciOrder.OrderCallMatchesListing`).
- Deleting a zone may take sections that do not refer to it (`Zones.NamelessZoneTakesRules` and
  `Zones.DetachedIsTaken`; exactly when: `Zones.DeletionIsExact`).
- Renaming a zone may write back what the user has unset (`Zones.RenameRestoresUnset`; exactly
  when: `Zones.RenamingIsExact`).
- The dependency walk passes over packages with names such as `map` (`Deps.MapIsNotSeen`; exactly
  when all that is needed is seen: `Deps.SeenIsNeeded`).
- `or` and `and` may accept what the datatype does not describe (`Datatypes.NegMisleads`;
  exactly when they do not, over all expressions: `Datatypes.EvaluatorsMeanExpressions`; for one
  expression `Datatypes.ApplyMeans` gives a condition that suffices).
- The keys of a service record may be sent twice (`SvcbRoundTrip.TwoNamesAreSentTwice`; exactly
  when: `SvcbRoundTrip.SentKeysIncrease`), and so may those in its list of mandatory keys
  (`SvcbMandatory.NamedTwice`; exactly when: `SvcRoundTrip.MandatoryIncreases`).
- A key that the record calls mandatory may be missing (`SvcbMandatory.MandatoryIsMissing`;
  exactly when: `SvcbMandatory.ListIsSent`).
- Keys in other spellings are sent with other bytes (`SvcSpelling.UpperCaseSendsNothing`; exactly
  when: `SvcSpelling.SpellingDecides`).
- The search for a text that is no address may find an interface (`Routes.UnreadFindsOtherFamily`;
  exactly when: `Routes.UnreadFindsUnread`).
- `parseIPv6` does not read every `::` (`Ip.OneGroupAtEnd`; exactly which: `Ip.ElisionIsRead`).
- Masks that are not contiguous are counted (`Masks.NotContiguousIsCounted`; exactly when:
  `Masks.MaskIsCounted` and `Masks.MaskReadsBack`).
- A derived colour may be malformed (`Prng.MalformedColor`; exactly when: `Prng.ColorDigits`).

Randomness, the backend's answers and the contents of the package tables are parameters:
`createSID`'s name, the name an add is answered with, `atob` and `btoa`, `Number()` and
`parseFloat()`. What the backend does with a call is written down in `UciSave.Exec`.

## Model

| member | source | states |
|---|---|---|
| UciModel.GetReadsFlat | rootfs/www/luci-static/resources/uci.js:33-40 | Whatever mixture of creates, changes and deletes is pending, a per-option `get` reads one plain table of sections. |
| UciModel.AddRefines | rootfs/www/luci-static/resources/uci.js:20-22 | `add` puts one new section into that table and touches nothing else, whether the name is fresh or that of a removed section; the invariant of the overlays is kept. |
| UciModel.RemoveRefines | rootfs/www/luci-static/resources/uci.js:22-23 | `remove` takes exactly one section out of that table, whether it was created or loaded. |
| UciModel.SetRefines | rootfs/www/luci-static/resources/uci.js:49-63 | `set` and `unset` put or delete one option of one live section; an empty text deletes on loaded sections and is stored on created ones; on absent or removed sections nothing happens. |
| UciModel.SetIsLocal | rootfs/www/luci-static/resources/uci.js:49-63 | `set` leaves the values, changes, marks and creations of every other section as they were. |
| UciModel.SetSlotOk | rootfs/www/luci-static/resources/uci.js:49-63 | `set` keeps changes and deletions disjoint, inside the snapshot and without empty inner tables, and what it makes visible is the plain put or delete. |
| UciModel.GetSectionRefines | rootfs/www/luci-static/resources/uci.js:33-49 | The whole-section `get` returns exactly the visible section and, though it writes pending state into the snapshot, changes no visible option of any section. |
| UciOrder.ListingIsUnique | rootfs/www/luci-static/resources/uci.js:23-33 | With distinct indices there is only one order in which `sections` can list the visible sections. |
| UciOrder.MovedOrder | rootfs/www/luci-static/resources/uci.js:64-72 | The splices of `move` succeed if and only if the section is listed and the target is absent or another listed section; the result is the old order with the one section directly in front of or behind the target, or last. |
| UciOrder.RenumberedListing | rootfs/www/luci-static/resources/uci.js:72-73 | Writing the places back as indices makes exactly that order the listing, with distinct indices. |
| UciOrder.MoveReorders | rootfs/www/luci-static/resources/uci.js:64-74 | `move` as a whole: when it succeeds, what `sections` lists afterwards is the requested order and no other, and only indices have changed; when it fails, nothing has. |
| UciOrder.OrderCallMatchesListing | rootfs/www/luci-static/resources/uci.js:6-13 | The order that `reorderSections` sends is the one that `sections` lists, and it is sent if and only if the package has no deletion table, not even an empty one. |
| UciSave.SaveFidelity | rootfs/www/luci-static/resources/uci.js:74-92 | After the deletes, adds and sets of `save` the backend has exactly the visible sections, each under its own name and with its type, and an option reads back as the store showed it if and only if it is not one of the lost ones. |
| UciSave.LoadedIsInvariant | rootfs/www/luci-static/resources/uci.js:14-20 | A package as it has just been loaded has nothing pending, tracks the backend and has lost nothing. |
| UciSave.RunRefines | rootfs/www/luci-static/resources/uci.js:20-74 | Over every run of add, remove, set, unset, both forms of get and move, the four tables together behave as one plain table, and every per-option `get` reads it. |
| UciSave.StepKeepsInvariant | rootfs/www/luci-static/resources/uci.js:20-74 | Every operation keeps what `save` relies on. |
| UciSave.RunKeepsInvariant | rootfs/www/luci-static/resources/uci.js:20-74 | Every run from a loaded package keeps what `save` relies on. |
| UciSave.StepLoses | rootfs/www/luci-static/resources/uci.js:43-63 | An operation comes to lose an option if and only if it is a `set` that withdraws a pending change of an option which the backend has and the snapshot, written to by a whole-section `get`, has not. |
| UciSave.RunThenSave | rootfs/www/luci-static/resources/uci.js:20-92 | Load, run any operations but the whole-section get and move, and save: the backend ends up with exactly the sections and options that the store was showing. |
| UciNames.AddsAreAsked | rootfs/www/luci-static/resources/uci.js:80-83 | After any run, `save` adds exactly the sections that were added and not removed since, with their types and plain options; under the name that `add` was given, or without a name if it was given none or an empty one. |
| UciNames.AddReads | rootfs/www/luci-static/resources/uci.js:20 | What is read of a section that was just added: its type, its name, its index, whether it has a name of its own, and no options. |
| UciNames.OptionsAreSet | rootfs/www/luci-static/resources/uci.js:49-58 | An option that starts with a dot is not set; any other one reads as it was set, in every visible section. |
| UciSent.OrderIsSent | rootfs/www/luci-static/resources/uci.js:6-13 | The order sent for a moved package, after any run and the batch, lists all sections that the backend has by then, each once, under the names they have there, in the order in which `sections` shows them. |
| UciNames.NamedIsSaved | rootfs/www/luci-static/resources/uci.js:20-22 | After the batch a section that was added under a name is in the backend under that name and with that type. |
| UciSave.WholeGetLosesDelete | rootfs/www/luci-static/resources/uci.js:43-47 | For every loaded option: unset it, fetch its section, set it and unset it again, and `save` sends nothing about it although the store shows it as gone. |
| UciSave.EmptyDeletionsBlockReorder | rootfs/www/luci-static/resources/uci.js:6-13 | For every loaded option: unset it, set it again and move a section, and no order is sent, although `sections` lists the section in its new place. |
| UciBatch.BatchIsPerPackage | rootfs/www/luci-static/resources/uci.js:74-88 | The interleaved batch of calls over all packages has on each of them the effect of that package's own calls, in the order that fidelity is stated for. |
| UciStore.Store.Load | rootfs/www/luci-static/resources/uci.js:14-19 | Loading stores the backend's answer as the snapshot of that package and leaves all other packages alone. |
| UciStore.Store.Unload | rootfs/www/luci-static/resources/uci.js:19-20 | Unloading drops the snapshot and all that is pending for the package, and nothing of others. |
| UciStore.Store.Add | rootfs/www/luci-static/resources/uci.js:20-22 | The nested tables change as the overlay model says, for one package only; the index counter goes up by one. |
| UciStore.Store.Remove | rootfs/www/luci-static/resources/uci.js:22-23 | The nested tables change as the overlay model says, for one package only. |
| UciStore.Store.Get | rootfs/www/luci-static/resources/uci.js:33-40 | The chain of lookups over the tables returns what the model reads. |
| UciStore.Store.GetSection | rootfs/www/luci-static/resources/uci.js:41-49 | The loops that assign changes and delete marked options in the snapshot's own object give the visible section and the new snapshot. |
| UciStore.Store.Set | rootfs/www/luci-static/resources/uci.js:49-63 | All branches of `set` over the nested tables, with their emptied inner tables, give the model's new package. |
| UciStore.Store.Sections | rootfs/www/luci-static/resources/uci.js:23-33 | The listing has each visible section of the type exactly once, as a copy numbered by its place, in the stable order of the indices. |
| UciStore.Store.Move | rootfs/www/luci-static/resources/uci.js:64-74 | The searches, splices and index writes give the model's new package, mark it for reordering on success, and return false in the model's cases only. |
| UciStore.Store.Save | rootfs/www/luci-static/resources/uci.js:74-88 | The calls are all deletes, then all adds, then all sets, one for each pending entry of every package, with the arguments the model gives them. |
| UciStore.Store.TakeName | rootfs/www/luci-static/resources/uci.js:91-92 | A created section takes the name that the backend answered. |
| UciStore.Store.ReorderSections | rootfs/www/luci-static/resources/uci.js:6-13 | One order call for each moved package that has sections and no deletion table, and none for the others; all marks are dropped. |
| Zones.ListedIsFlat | rootfs/www/luci-static/resources/uci.js:24-27 | `sections` shows of a section what a per-option reader sees, except that it does not hide options which are unset one by one. |
| Zones.NoReferenceLeft | rootfs/www/luci-static/resources/firewall.js:25-27 | After the removals of the cascade no visible rule, redirect or forwarding refers to the deleted zone name. |
| Zones.ReferringIsExact | rootfs/www/luci-static/resources/firewall.js:25-27 | When no unset option hides a reference, the sections that the cascade takes for references are exactly the visible ones. |
| Zones.ReferringIsVisible | rootfs/www/luci-static/resources/firewall.js:25-27 | For a zone with a name, the sections taken for references are exactly the visible ones if and only if no section hides one behind an unset; for a zone without a name, if and only if every rule, redirect and forwarding has both `src` and `dest`. |
| Zones.NamedIsTaken | rootfs/www/luci-static/resources/firewall.js:25-27 | A rule, redirect or forwarding listed with the name as source or destination is taken for a reference. |
| Zones.LongListIsTaken | rootfs/www/luci-static/resources/firewall.js:25-27 | A list of two names counts as their text with a comma between them. |
| Zones.LongListIsSpared | rootfs/www/luci-static/resources/firewall.js:25-27 | A list of more than one name counts as no single name. |
| Zones.ListsNeverMeet | rootfs/www/luci-static/resources/firewall.js:25-27 | Where the name of a zone is a list, it meets the text of that name and no list. |
| Zones.OthersAreSpared | rootfs/www/luci-static/resources/firewall.js:25-27 | Other sections, and those with other zones or none, are not. |
| Zones.DeleteZoneEffect | rootfs/www/luci-static/resources/firewall.js:22-28 | Deleting removes the zone sections and exactly the sections taken for references, leaves every other section as it was, and leaves no visible reference. |
| Zones.DeleteZoneIsExact | rootfs/www/luci-static/resources/firewall.js:22-28 | Deleting removes the zones and exactly the sections that a reader sees refer to the name, under the same if-and-only-if condition on the store after the whole-section get that comes first. |
| Zones.DeletionIsExact | rootfs/www/luci-static/resources/firewall.js:22-28 | The same on the store before the call: the removal is exact if and only if no section, other than the one that the method first asks for by its own name, hides a reference behind an unset or, for a zone without a name, lacks a zone. |
| Zones.NamelessZoneTakesRules | rootfs/www/luci-static/resources/firewall.js:22-27 | Deleting a zone section without a `name` option also removes every rule, redirect and forwarding that lacks `src` or `dest`. |
| Zones.DetachedIsTaken | rootfs/www/luci-static/resources/firewall.js:22-27 | Deleting a zone also removes a section whose reference to it the user has already unset. |
| Zones.RenameZoneEffect | rootfs/www/luci-static/resources/firewall.js:28-36 | Renaming gives the zone its new name, replaces every reference that `sections` lists, changes nothing else and leaves no visible reference to the old name. |
| Zones.RenameZoneIsExact | rootfs/www/luci-static/resources/firewall.js:28-36 | Renaming turns exactly the names and references that a reader sees into the new ones if and only if no section hides one of them behind an unset, on the store after the whole-section get that comes first. |
| Zones.RenamingIsExact | rootfs/www/luci-static/resources/firewall.js:28-36 | The same on the store before the call, where a section that is called like the new name hides nothing. |
| Zones.RenameRestoresUnset | rootfs/www/luci-static/resources/firewall.js:31-36 | On a section whose `src` the user has unset, renaming writes it back with the new name. |
| Zones.RenameOutcome | rootfs/www/luci-static/resources/firewall.js:28-36 | What is read after renaming: options that name the zone and were listed with the old name have the new one, all others are as before. |
| Zones.ZoneNames | rootfs/www/luci-static/resources/firewall.js:28-29 | New names are made of letters, digits and underscores. |
| Zones.ZoneExists | rootfs/www/luci-static/resources/firewall.js:8-11 | The lookup finds a zone by its section name or by its name option; nothing changes but the snapshot that the whole-section get writes to. |
| Zones.DeleteZone | rootfs/www/luci-static/resources/firewall.js:22-28 | The method's loops remove the zone sections of the name and then, asking again, the sections that refer to it; it reports success if and only if there was a zone. |
| Zones.RenameZone | rootfs/www/luci-static/resources/firewall.js:28-36 | The method refuses missing, malformed and taken names, and otherwise renames the zone sections and the references it lists; it reports success if and only if a zone had the old name. |
| Version.CompareVersion | rootfs/www/luci-static/resources/view/package-manager.js:129-146 | The two-index comparator ends on all strings and its sign is the lexicographic order of keys that alternate character weights and numbers. |
| Version.VersionOrder | rootfs/www/luci-static/resources/view/package-manager.js:129-146 | The comparison is antisymmetric in sign, transitive and total. |
| Version.CmpZero | rootfs/www/luci-static/resources/view/package-manager.js:135-146 | Two versions compare equal exactly when their keys agree after padding with zeros, so up to leading zeros and absent numbers. |
| VersionRules.TildeComesFirst | rootfs/www/luci-static/resources/view/package-manager.js:130-136 | A tilde sorts before the end of a version and before everything else (section 5.6.12 of the Debian Policy Manual). |
| VersionRules.LongerIsLater | rootfs/www/luci-static/resources/view/package-manager.js:130-136 | Any other character that is no digit sorts after the end. |
| VersionRules.LettersComeFirst | rootfs/www/luci-static/resources/view/package-manager.js:130-136 | Letters sort before other characters, and of two of a kind the one with the smaller code comes first. |
| VersionRules.DigitAgainstCharacter | rootfs/www/luci-static/resources/view/package-manager.js:130-140 | Where one version has a digit and the other a character, only a tilde comes first. |
| VersionRules.NumbersCompare | rootfs/www/luci-static/resources/view/package-manager.js:137-144 | Runs of digits compare as numbers, and when these are equal what follows decides. |
| VersionRules.ZerosAreNothing | rootfs/www/luci-static/resources/view/package-manager.js:137-144 | A number at the end that is zero does not count, and any other does. |
| Deps.PkgStatus | rootfs/www/luci-static/resources/view/package-manager.js:150-157 | A package gets one status, and it goes to the list of installations, to the list of errors or to neither. |
| DepsRules.NewPackage | rootfs/www/luci-static/resources/view/package-manager.js:155-157 | A package that is not installed gets on the list of installations if and only if its version is within the constraint, by the sign of the comparison that its operator stands for; otherwise an error names what is needed and what there is. |
| DepsRules.InstalledPackage | rootfs/www/luci-static/resources/view/package-manager.js:150-154 | An installed package is accepted if and only if its version is within the constraint; if not, the first provider that is within it is installed, and there is an error if and only if there is none. |
| DepsRules.BoundsAreClosed | rootfs/www/luci-static/resources/view/package-manager.js:145-149 | A newer version fits a lower bound whenever an older one does, and an older one an upper bound. |
| DepsRules.ProvidersAre | rootfs/www/luci-static/resources/view/package-manager.js:172-175 | The providers of a name are those of the installed and of the available packages, each once, the installed ones first. |
| DepsRules.ShownAre | rootfs/www/luci-static/resources/view/package-manager.js:158-163 | An item shows one package for each provider, the installed one if there is one, and a missing package when nobody provides the name. |
| DepsRules.DependsAre | rootfs/www/luci-static/resources/view/package-manager.js:163-164 | What is walked below an item are the dependencies of all its packages, each string once. |
| DepsRules.ListsOfWalk | rootfs/www/luci-static/resources/view/package-manager.js:150-175 | The list of installations and that of errors hold exactly what the statuses of the packages of the walked entries give. |
| DepsRules.ParseWritten | rootfs/www/luci-static/resources/view/package-manager.js:169-171 | A dependency that is written as a name, an operator and a version is read as these three, for each of the seven operators. |
| Deps.RenderDependencyItem | rootfs/www/luci-static/resources/view/package-manager.js:158-167 | An item puts the statuses of its packages on the lists, and walks on from their dependencies unless the walk is flat. |
| Deps.RenderDependencies | rootfs/www/luci-static/resources/view/package-manager.js:168-175 | The mutually recursive walk ends on every graph; it enters each new name once, in order, with its providers, and extends the two lists by the statuses of what it entered. |
| Deps.EveryStatusCounts | rootfs/www/luci-static/resources/view/package-manager.js:150-157 | Every status is an entry of exactly one of the two lists unless the package is installed and acceptable. |
| Deps.WalkIsReachability | rootfs/www/luci-static/resources/view/package-manager.js:168-175 | The names that a walk from nothing has seen are exactly those reachable from the root list over names that an array does not inherit. |
| Deps.SeenIsNeeded | rootfs/www/luci-static/resources/view/package-manager.js:168-175 | The names seen are exactly those that the roots need, directly or through others, if and only if no needed name is one that an array inherits. |
| Deps.MapIsNotSeen | rootfs/www/luci-static/resources/view/package-manager.js:168-171 | A package called `map` that a root list names is needed, but never seen. |
| Deps.DependencyTree | rootfs/www/luci-static/resources/view/package-manager.js:150-175 | For every pair of package tables, cyclic or not, the walk sees exactly the reachable names, each entered once; these are all that is needed if and only if no inherited name is needed; and the lists hold the statuses of all of them. |
| Template.ScanExpr | rootfs/www/luci-static/resources/tools/firewall.js:15-19 | The brace scanner, with its escapes, nesting and operators, finds the parts of an expression or its end. |
| Template.Format | rootfs/www/luci-static/resources/tools/firewall.js:5-32 | The evaluator's loop and its recursion end on every text and compute the token list of the specification. |
| Template.ScanExpression | rootfs/www/luci-static/resources/tools/firewall.js:15-19 | The scanner gives back exactly the parts that were printed, however their texts are escaped and their expressions nested. |
| Template.EvalTree | rootfs/www/luci-static/resources/tools/firewall.js:14-29 | With any text pending, evaluating a printed template gives that text and the template's meaning. |
| Template.EvalWhole | rootfs/www/luci-static/resources/tools/firewall.js:5-32 | Evaluating any printed template gives its meaning: escaped text, variables, conditionals with empty or missing branches, and loops with their four bindings. |
| TemplateRules.LoopLists | rootfs/www/luci-static/resources/tools/firewall.js:21 | The loop of the rule pages, with a comma in front of each item but the first, gives the texts of a list in their order, joined with commas. |
| TemplateRules.LoopFlags | rootfs/www/luci-static/resources/tools/firewall.js:21 | In a loop `first` is set for the first item only, `next` for all others, and `last` for the last one only. |
| TemplateRules.LoopOverOthers | rootfs/www/luci-static/resources/tools/firewall.js:21 | A text is gone through word by word; null gives nothing, and a truth value is one item. |
| TemplateRules.ChoiceByKind | rootfs/www/luci-static/resources/tools/firewall.js:9-13 | The first branch is taken for non-empty texts, lists and objects and for true, the second one for everything else. |
| TemplateRules.VariableShows | rootfs/www/luci-static/resources/tools/firewall.js:13-14 | What stands in the place of a variable, for each kind of value. |
| TemplateRules.DottedValue | rootfs/www/luci-static/resources/tools/firewall.js:6-8 | A dotted path goes into objects name by name; anything else on the way gives null. |
| TemplateRules.EscapedShows | rootfs/www/luci-static/resources/tools/firewall.js:14 | A value with its special characters escaped is shown as it was. |
| TemplateRules.MalformedIsVerbatim | rootfs/www/luci-static/resources/tools/firewall.js:20-26 | Without a name, or with another operator, the template itself is returned. |
| TemplateRules.Unclosed | rootfs/www/luci-static/resources/tools/firewall.js:15-20 | An expression that is not closed raises an error when it has no operator, and otherwise makes `fmt` return the template itself. |
| TemplateRules.MalformedBranch | rootfs/www/luci-static/resources/tools/firewall.js:20-24 | A malformed template in the branch that is taken raises an error; in the other one it does nothing. |
| Datatypes.CompileCode | rootfs/www/luci-static/resources/validation.js:19-29 | The scanning loop with its positions, escapes and depth, and its recursion for argument lists, computes the compiler of the specification. |
| Datatypes.CompileAll | rootfs/www/luci-static/resources/validation.js:19-29 | A printed list of expressions, nested in any way, compiles to the concatenation of their slots. |
| Datatypes.CompilePrinted | rootfs/www/luci-static/resources/validation.js:19-29 | Compiling a printed expression gives its flattened form: one slot for a literal, two for a validator. |
| DatatypesRules.WordMeans | rootfs/www/luci-static/resources/validation.js:19-24 | A single label is compiled without the blanks around it: as a number if it is one, as a text if it is in quotes, as a type if it is known, and otherwise as an error. |
| DatatypesRules.BlankAfterArguments | rootfs/www/luci-static/resources/validation.js:19-28 | A blank after an argument list is a label of its own, and an error. |
| DatatypesRules.KnownStack | rootfs/www/luci-static/resources/validation.js:19-29 | The stack of a type with a type and a text as its arguments. |
| Datatypes.WalkLoop | rootfs/www/luci-static/resources/validation.js:51-58 | The loop of `or` and `and`, which steps over one slot or two, stops at the first deciding argument. |
| Datatypes.WalkMeans | rootfs/www/luci-static/resources/validation.js:51-58 | Over the slots of expressions whose own validators do not change the value, the walk computes the disjunction or the conjunction of their meanings and keeps the value. |
| Datatypes.ApplyMeans | rootfs/www/luci-static/resources/validation.js:51-58 | Running a compiled expression whose own validators do not change the value computes its meaning, whatever other validators do. |
| Datatypes.ValidatesPrinted | rootfs/www/luci-static/resources/validation.js:7-18 | A field whose datatype is a printed expression accepts a value if and only if the expression describes it, or it is empty and the field is optional, and the field's own functions agree; when the expression's own validators do not change the value. |
| Datatypes.AskOwn | rootfs/www/luci-static/resources/validation.js:15-17 | The loop over the field's own functions ends with true if and only if all of them return true. |
| Datatypes.EvaluatorsMeanExpressions | rootfs/www/luci-static/resources/validation.js:51-58 | For a value on one line, all expressions that compile are evaluated to their meaning if and only if none of the validators that can be written changes the value; for other values, the changes that can be noticed are ruled out. |
| DatatypesRules.TextsAccept | rootfs/www/luci-static/resources/validation.js:51-58 | An `or` of texts accepts these texts and no others, and an `and` of texts what equals all of them. |
| DatatypesRules.PairAccepts | rootfs/www/luci-static/resources/validation.js:51-58 | Of two validators that keep the value, `or` asks for one and `and` for both. |
| Datatypes.NegMisleads | rootfs/www/luci-static/resources/validation.js:58-59 | `neg`, which strips the value in place, is such a validator: an expression with it that compiles accepts a value that it does not describe. |
| DatatypesRules.NegStrips | rootfs/www/luci-static/resources/validation.js:58-59 | An exclamation mark is taken off with the blanks on both sides of it, and nothing else is. |
| Ip.IPv4RoundTrip | rootfs/www/luci-static/resources/validation.js:29-31 | The IPv4 reader gives back the octets of every dotted address. |
| IpRules.IPv4Notation | rootfs/www/luci-static/resources/validation.js:29-31 | An IPv4 address is read if and only if it is four numbers of one to three digits, up to 255, with dots between them. |
| Ip.ParseIPv6 | rootfs/www/luci-static/resources/validation.js:31-43 | The reader's splits and loops give eight words of sixteen bits or null, as the specification says. |
| Ip.ReadShape | rootfs/www/luci-static/resources/validation.js:31-43 | An address that is read has exactly eight words, each at most 0xFFFF, with or without a dotted part. |
| Ip.ReadsTheNotation | rootfs/www/luci-static/resources/validation.js:33-43 | A text is read as some words if and only if it is eight groups, or two lists of groups around `::` that leave room for them, and denotes these words. |
| Ip.ElisionIsRead | rootfs/www/luci-static/resources/validation.js:34-36 | A `::` among at most seven groups is read, with the right zeros, if and only if the groups of both sides, an empty side counting as one, are at most seven: so it never stands for a single group at an end. |
| Ip.OneGroupAtEnd | rootfs/www/luci-static/resources/validation.js:34-36 | `1:2:3:4:5:6:7::` is not read, although section 2.2 of RFC 4291 allows it. |
| IpRules.SixAndDotted | rootfs/www/luci-static/resources/validation.js:31-36 | Six groups and a dotted part are read as eight words. |
| IpRules.ElidedAndDotted | rootfs/www/luci-static/resources/validation.js:31-36 | So are groups with a `::` among them and a dotted part at the end. |
| IpRules.MappedAddress | rootfs/www/luci-static/resources/validation.js:31-36 | An IPv4-mapped address has the words that section 2.5.5.2 of RFC 4291 gives it. |
| Ipv6Text.CompressIPv6 | rootfs/www/luci-static/resources/tools/dnsrecordhandlers.js:23-25 | The nested loops over the normalized groups and the assembly of head and tail write the compressed address. |
| Ipv6Text.LeftmostLongestIsElided | rootfs/www/luci-static/resources/tools/dnsrecordhandlers.js:23-25 | The run that is left out is the leftmost longest run of zeros, and a run of one is never left out (section 4.2 of RFC 5952). |
| IpRules.CompressedForm | rootfs/www/luci-static/resources/tools/dnsrecordhandlers.js:23-25 | Without two zero groups in a row all groups are written; otherwise the first of the longest runs is left out (section 4.2 of RFC 5952). |
| Ipv6Text.CompressedIsRead | rootfs/www/luci-static/resources/tools/dnsrecordhandlers.js:23-25 | `parseIPv6` recovers the words of every compressed address. |
| Ipv6Text.CompressedIsEncoded | rootfs/www/luci-static/resources/tools/dnsrecordhandlers.js:9-12 | The `ipv6hint` encoder recovers the bytes of every compressed address. |
| Ipv6Text.HintsAgree | rootfs/www/luci-static/resources/tools/dnsrecordhandlers.js:9-12 | On every text that `parseIPv6` accepts, dotted tails included, the independent expansion of the `ipv6hint` encoder gives the bytes of the same words. |
| Ipv6Text.ExpandGroups | rootfs/www/luci-static/resources/tools/dnsrecordhandlers.js:10-11 | The loop that replaces the first of a row of empty groups by the missing zeros. |
| Sorting.SortKeeps | rootfs/www/luci-static/resources/tools/dnsrecordhandlers.js:6 | Sorting keeps the elements and orders them by key number. |
| Sorting.SortIncreases | rootfs/www/luci-static/resources/tools/dnsrecordhandlers.js:6 | The sorted keys increase strictly if and only if no two were equal. |
| SvcValues.KeyNameIsRead | rootfs/www/luci-static/resources/tools/dnsrecordhandlers.js:7-9 | The name of every key number up to 65535 is read back as that number. |
| TextRules.RegisteredKeys | rootfs/www/luci-static/resources/tools/dnsrecordhandlers.js:1 | The seven registered keys have the numbers of section 14.3.2 of RFC 9460. |
| TextRules.QuotedValue | rootfs/www/luci-static/resources/tools/dnsrecordhandlers.js:4 | Keys and values are read without the white space around them, and values also without quotes. |
| TextRules.LeadingNumber | rootfs/www/luci-static/resources/tools/dnsrecordhandlers.js:9 | The number of a port is that of its leading digits, behind white space and a sign. |
| SvcParams.LineSplits | rootfs/www/luci-static/resources/tools/dnsrecordhandlers.js:4 | The line of a parameter is split into its key and its value, with quotes and white space left as they should be. |
| SvcRoundTrip.EncodeIsWire | rootfs/www/luci-static/resources/tools/dnsrecordhandlers.js:9-13 | For every kind of parameter the encoder turns the shown value into its wire form. |
| SvcRoundTrip.DecodeIsText | rootfs/www/luci-static/resources/tools/dnsrecordhandlers.js:17-23 | For every kind of parameter the decoder shows the wire form as the value was shown. |
| SvcSpelling.SpellingDecides | rootfs/www/luci-static/resources/tools/dnsrecordhandlers.js:9-13 | For a key of known number, the bytes sent for a value are its wire form if and only if the key has its canonical name or its number is 2 or at least 7; otherwise the text itself is sent, or nothing. |
| SvcSpelling.SpelledLine | rootfs/www/luci-static/resources/tools/dnsrecordhandlers.js:4-6 | A line with a known key is kept under the key's number, whatever the spelling; its bytes are the wire form if and only if the key is spelled well. |
| SvcSpelling.UpperCaseSendsNothing | rootfs/www/luci-static/resources/tools/dnsrecordhandlers.js:9-13 | `ALPN` has the number 1, and nothing is sent for its value. |
| SvcRoundTrip.MandatoryIncreases | rootfs/www/luci-static/resources/tools/dnsrecordhandlers.js:9 | The numbers sent for `mandatory` never hold that of `mandatory` itself, are ordered, and increase strictly (section 8 of RFC 9460) if and only if no two different trimmed names in the list have the same number. |
| SvcRoundTrip.DecodeIdsLoop | rootfs/www/luci-static/resources/tools/dnsrecordhandlers.js:18-19 | The loop over length-prefixed identifiers, which stops at one that is cut off. |
| SvcRoundTrip.DecodeIpv6Loop | rootfs/www/luci-static/resources/tools/dnsrecordhandlers.js:20-22 | The loops over the address bytes, including a last address with fifteen bytes. |
| SvcRules.NumberedKeys | rootfs/www/luci-static/resources/tools/dnsrecordhandlers.js:7-9 | `key` with one to five digits is the number that they denote, up to 65535, and no key otherwise. |
| SvcRules.CutNumbers | rootfs/www/luci-static/resources/tools/dnsrecordhandlers.js:17-18 | A byte left over of the key numbers is not shown. |
| SvcRules.CutIds | rootfs/www/luci-static/resources/tools/dnsrecordhandlers.js:18-19 | A protocol identifier that is cut off is not shown. |
| SvcRules.CutQuads | rootfs/www/luci-static/resources/tools/dnsrecordhandlers.js:20 | Of an IPv4 address that is cut off the bytes there are shown. |
| SvcRules.CutAddresses | rootfs/www/luci-static/resources/tools/dnsrecordhandlers.js:20-22 | Less than fifteen bytes of an IPv6 address are not shown; with fifteen the missing one counts as zero. |
| Svcb.BuildSvcbHex | rootfs/www/luci-static/resources/tools/dnsrecordhandlers.js:1-7 | The builder's loops: header, target labels, kept lines, the two null checks and the sorted parameters. |
| Svcb.ParseSvcbHex | rootfs/www/luci-static/resources/tools/dnsrecordhandlers.js:13-16 | The parser's offset loops: priority, target name and parameters, with its null and exception cases. |
| SvcbRoundTrip.LinesAreCollected | rootfs/www/luci-static/resources/tools/dnsrecordhandlers.js:4-5 | Lines of distinct, well-formed parameters are all kept, with their numbers and bytes. |
| SvcbRoundTrip.NameIsRead | rootfs/www/luci-static/resources/tools/dnsrecordhandlers.js:13-14 | A name laid out as labels is read back, up to its empty label. |
| SvcbRoundTrip.EntriesAreRead | rootfs/www/luci-static/resources/tools/dnsrecordhandlers.js:15 | Parameters laid out one after the other are read back one by one. |
| SvcbRoundTrip.HexIsRead | rootfs/www/luci-static/resources/tools/dnsrecordhandlers.js:7-13 | Two hex digits a byte are read back as the same bytes. |
| SvcbRoundTrip.RoundTrip | rootfs/www/luci-static/resources/tools/dnsrecordhandlers.js:1-16 | Parsing what was built from a service-mode record gives its priority, its target with a final dot and its lines in strictly increasing order of key numbers (section 2.2 of RFC 9460). |
| SvcbRules.AliasRoundTrip | rootfs/www/luci-static/resources/tools/dnsrecordhandlers.js:1-3 | A record of priority 0 parses to its target and nothing else, whatever the lines are. |
| SvcbRules.AliasOfRoot | rootfs/www/luci-static/resources/tools/dnsrecordhandlers.js:1-3 | There is no alias record if and only if the target is a single dot, or two. |
| SvcbRules.WhenNull | rootfs/www/luci-static/resources/tools/dnsrecordhandlers.js:4-6 | In service mode there is no record if and only if `no-default-alpn` comes without a protocol name or the list of mandatory keys has a name that is the key of no line. |
| SvcbRules.KnownRecord | rootfs/www/luci-static/resources/tools/dnsrecordhandlers.js:1-8 | The record of figure 9 in appendix D.2 of RFC 9460 is built byte by byte. |
| SvcbRules.SeparatorsAreSkipped | rootfs/www/luci-static/resources/tools/dnsrecordhandlers.js:13 | White space and colons in the hex text do not count. |
| SvcbRules.TooShort | rootfs/www/luci-static/resources/tools/dnsrecordhandlers.js:13 | Texts of less than two bytes give null, and a single digit an exception. |
| SvcbRules.OddPairs | rootfs/www/luci-static/resources/tools/dnsrecordhandlers.js:13 | Pairs that are not two hex digits are read as far as they are numbers. |
| SvcbRules.CutLabel | rootfs/www/luci-static/resources/tools/dnsrecordhandlers.js:13-14 | There is no record when a label is cut off. |
| SvcbRoundTrip.LinesAreNamed | rootfs/www/luci-static/resources/tools/dnsrecordhandlers.js:4-5 | Of lines with the same key name only the first is kept, and each kept line has the number of its name. |
| SvcbRoundTrip.ScanIsOnLines | rootfs/www/luci-static/resources/tools/dnsrecordhandlers.js:4-5 | Which keys are seen and which numbers are sent is decided by the names on the lines and by whether they have a value; encoding plays no part. |
| SvcbRoundTrip.SentKeysIncrease | rootfs/www/luci-static/resources/tools/dnsrecordhandlers.js:4-6 | The keys sent never decrease; they increase strictly if and only if no number comes twice among the lines that have their key for the first time and a value if one is needed; and they do so whenever all known keys have their canonical names. |
| SvcbRoundTrip.TwoNamesAreSentTwice | rootfs/www/luci-static/resources/tools/dnsrecordhandlers.js:4-6 | A second name of `alpn` in another line makes its key be sent twice, against section 2.2 of RFC 9460. |
| SvcbRoundTrip.KeyOneIsAlpn | rootfs/www/luci-static/resources/tools/dnsrecordhandlers.js:7-9 | `key1` is such a second name. |
| SvcbMandatory.MandatoryIsSent | rootfs/www/luci-static/resources/tools/dnsrecordhandlers.js:4-9 | In a record that is built, every key in the text of the list that the builder has checked is sent if and only if, for each name on the list but `mandatory`, some name of its number was not dropped for lack of a value. |
| SvcbMandatory.ListIsSent | rootfs/www/luci-static/resources/tools/dnsrecordhandlers.js:4-9 | For all lines, every number in the bytes sent under `mandatory` is also sent as a key (section 8 of RFC 9460) if and only if each known name in the text of that line, but `mandatory`, has a number of which some name was not dropped. |
| SvcbMandatory.MandatoryIsMissing | rootfs/www/luci-static/resources/tools/dnsrecordhandlers.js:4-6 | With the lines `mandatory=port` and `port=` the record is built without a port; and so for every other key but 2. |
| SvcbMandatory.NamedTwice | rootfs/www/luci-static/resources/tools/dnsrecordhandlers.js:9 | The list `alpn,key1` sends the number 1 twice. |
| Masks.PrefixToMaskLoop | rootfs/www/luci-static/resources/network.js:45-49 | The loop over words of sixteen bits and the text it makes of them. |
| Masks.NegativePrefix | rootfs/www/luci-static/resources/network.js:45-46 | A prefix from -15 to -1 gives an empty mask of two words, and -16 a full first word, as shift counts wrap at 32. |
| Masks.TooLongPrefix | rootfs/www/luci-static/resources/network.js:45-46 | Exactly the prefixes beyond the width of an address have no mask. |
| Masks.CountPrefix | rootfs/www/luci-static/resources/network.js:50-54 | The nested loops that shift the words in place count the leading ones, or give up. |
| Masks.MaskIsCounted | rootfs/www/luci-static/resources/network.js:50-54 | A mask is counted as a number if and only if every word is ones and then zeros, a zero word is followed by zero words only, and the number is that of the ones. |
| Masks.MaskOfPrefixIsCounted | rootfs/www/luci-static/resources/network.js:45-54 | The words of every prefix, of any width, are counted as that prefix. |
| Masks.ContiguousMask | rootfs/www/luci-static/resources/network.js:50-54 | A counted mask is the mask of its prefix if and only if every word with a zero in it is followed by zero words. |
| Masks.MaskReadsBack | rootfs/www/luci-static/resources/network.js:45-54 | The prefix of a mask text that is counted is written as a mask again, and this is read as the same words if and only if every word with a zero in it is followed by zero words. |
| Masks.Ipv4PrefixRoundTrip | rootfs/www/luci-static/resources/network.js:45-54 | For every IPv4 prefix the mask text is read back as that prefix. |
| Masks.Ipv6PrefixRoundTrip | rootfs/www/luci-static/resources/network.js:45-54 | For every IPv6 prefix the mask text, with its zeros at the end shortened to `::`, is read back as that prefix. |
| Masks.NotContiguousIsCounted | rootfs/www/luci-static/resources/network.js:51-54 | 255.254.255.0 is counted as 23 although it is not the mask of 23. |
| Subnets.MaskLoop | rootfs/www/luci-static/resources/view/status/routes.js:1-3 | The loop that masks the words in place. |
| Subnets.MaskRoundsDown | rootfs/www/luci-static/resources/view/status/routes.js:1-3 | Masking an address of any number and width of words rounds its number down to a multiple of the subnet's size. |
| Subnets.FilledIsLast | rootfs/www/luci-static/resources/protocol/static.js:3-5 | Setting the other bits instead gives the last number of the subnet. |
| Routes.MaskedAlike | rootfs/www/luci-static/resources/view/status/routes.js:6-7 | Two addresses agree after masking if and only if their numbers round down to the same multiple. |
| Routes.PassesIsMatches | rootfs/www/luci-static/resources/view/status/routes.js:6-7 | For every query, address or not, the comparison passes exactly the entries that match it, apart from those with a negative mask, which never win. |
| Routes.PassesIsCovers | rootfs/www/luci-static/resources/view/status/routes.js:6-7 | For a query that is an address, the comparison passes exactly the entries that cover the searched subnet; entries of the other family never pass. |
| Routes.GetNetworkByDevice | rootfs/www/luci-static/resources/view/status/routes.js:4-9 | The three nested loops keep the best entry over all address lists of the device, in their order. |
| Routes.CandidatesAre | rootfs/www/luci-static/resources/view/status/routes.js:4-6 | Exactly the entries of the interfaces whose device or layer 3 device is the given one are searched. |
| Routes.CandidatesAppend | rootfs/www/luci-static/resources/view/status/routes.js:4-6 | They are searched interface by interface in the given order. |
| Routes.LongestPrefixMatch | rootfs/www/luci-static/resources/view/status/routes.js:4-10 | For an address and a mask within its width, the result is the interface of the first covering entry with the longest prefix, and null if and only if no entry covers. |
| Routes.FirstLongestMatch | rootfs/www/luci-static/resources/view/status/routes.js:4-10 | For every query the result is the interface of the first matching entry with the longest prefix, and null if and only if none matches. |
| Routes.UnreadFindsUnread | rootfs/www/luci-static/resources/view/status/routes.js:1-10 | For a text that is no address of its family, something is found if and only if an entry within the mask is no address of the family either. |
| Routes.UnreadFindsOtherFamily | rootfs/www/luci-static/resources/view/status/routes.js:1-10 | The search for `1:2:3:4:5:6:7::` finds an interface that has an IPv4 address. |
| Routes.SubnetAgreement | rootfs/www/luci-static/resources/view/network/dhcp.js:1-4 | For every IPv4 address and prefix the two ways of masking give the same network address, the address rounded down; the broadcast arithmetic gives the last address of the subnet; and the address lies between them. |
| Limbs.Mul | rootfs/www/luci-static/resources/tools/prng.js:1-3 | The limb product is the product modulo 2^64. |
| Limbs.ColumnFits | rootfs/www/luci-static/resources/tools/prng.js:1 | Every column with the limb already there and the carry fits in 32 bits, so that the bit operations are exact. |
| Limbs.Add | rootfs/www/luci-static/resources/tools/prng.js:4-5 | The limb sum is the sum modulo 2^64. |
| Limbs.Shr | rootfs/www/luci-static/resources/tools/prng.js:6-9 | The shift by any count is division by that power of two. |
| Prng.Random.Seed | rootfs/www/luci-static/resources/tools/prng.js:10 | Seeding sets the state to the seed less one, as an unsigned number of 32 bits. |
| Prng.Random.Int | rootfs/www/luci-static/resources/tools/prng.js:10 | A draw steps the state by the linear congruence and returns its upper 31 bits. |
| Prng.Random.Get | rootfs/www/luci-static/resources/tools/prng.js:10-11 | A bounded draw lies within its bounds and steps the state once. |
| Prng.Random.DeriveColor | rootfs/www/luci-static/resources/tools/prng.js:11-13 | The colour of a text is made of the first three draws after seeding with the hash of the text. |
| Prng.FullPeriod | rootfs/www/luci-static/resources/tools/prng.js:10 | The state returns to where it was exactly after multiples of 2^64 draws. |
| Prng.NoRepetition | rootfs/www/luci-static/resources/tools/prng.js:10 | No state comes up twice within one period. |
| Prng.NextIsInjective | rootfs/www/luci-static/resources/tools/prng.js:10 | Different states have different successors. |
| Prng.EveryStateIsReached | rootfs/www/luci-static/resources/tools/prng.js:10 | From every state every other one is reached within one period: there is a single cycle. |
| Prng.Channels | rootfs/www/luci-static/resources/tools/prng.js:11-13 | All channels are bytes, with a sum between 128 and 255, if and only if the first two numbers drawn are not both at least 2130706432 modulo 2^31 - 1; otherwise the third channel is -1 but for one draw. |
| Prng.ColorDigits | rootfs/www/luci-static/resources/tools/prng.js:11-13 | The colour of a text has six digits if and only if these draws from its hash are not both so large or the third one is a multiple of 2^31 - 1; every other text gets `#7f7f100`. |
| Prng.MalformedColor | rootfs/www/luci-static/resources/tools/prng.js:11-13 | The text `Gv` gets the colour `#7f7f100`, with seven digits. |
| Prng.EmptyColor | rootfs/www/luci-static/resources/tools/prng.js:11-13 | The empty text, which has no hash, gets the colour `#fed28b`. |
| Prng.BlueRange | rootfs/www/luci-static/resources/tools/prng.js:11-13 | The third channel brings the sum of the channels up to 128 and stays below 128, or keeps the sum at 254 at most. |
| Prng.ScaledRepeats | rootfs/www/luci-static/resources/tools/prng.js:10-11 | Numbers drawn that are 2^31 - 1 apart give the same result, and multiples of it the lower bound. |
| Prng.KnownColor | rootfs/www/luci-static/resources/tools/prng.js:11-13 | The colour of `café` has three different channels, in their order. |
| Hash.Sfh | rootfs/www/luci-static/resources/cbi.js:4-13 | The hash in JavaScript numbers, whose sums are not cut off and stay below 2^34, gives for every non-empty string the eight digits of the hash in arithmetic modulo 2^32; every byte that is read exists. |
| Hash.MixLoop | rootfs/www/luci-static/resources/cbi.js:11 | One round with sums that are not cut off agrees with the round modulo 2^32. |
| Hash.RestBytes | rootfs/www/luci-static/resources/cbi.js:12 | The cases for one to three bytes left agree with those modulo 2^32, with signed bytes counted as unsigned. |
| Hash.DigestIsHash | rootfs/www/luci-static/resources/cbi.js:13 | The text has exactly eight hex digits and denotes the hash, also when the last sum exceeds 2^32. |
| Hash.HashOfGv | rootfs/www/luci-static/resources/cbi.js:4-13 | The hash of `Gv` is f7d5ff2b. |
| HashKnown.HashOfCafe | rootfs/www/luci-static/resources/cbi.js:4-13 | The hash of `café`: a round, and one negative byte left over. |
| HashKnown.HashOfEuro | rootfs/www/luci-static/resources/cbi.js:4-13 | The hash of the euro sign: three bytes left over. |
| HashKnown.HashOfInternet | rootfs/www/luci-static/resources/cbi.js:4-13 | The hash of `internet`: two rounds. |
| Hash.BytesAreInjective | rootfs/www/luci-static/resources/cbi.js:5-9 | Different strings give different bytes to the hash. |

## Left out

- Forms, widgets, drawing, translations, RPC, promises, timers and the apply and confirm cycle of the pages: presentation and network plumbing.
- The server: the backend is modelled by what one call does to one package, without permissions or failures.
- `clone` of the UCI store, `get_first`, `get_bool` and `set_first`: they copy a snapshot or wrap a listing.
- `createSID`: its random name is a parameter; that it is not in use is what `add` asks of it.
- `resolveSID`: sections are addressed by name, not as `@type[n]`.
- Names that clash with inherited members: sections, options and packages are keys of plain tables, and the service parameter keys `constructor` and `__proto__`, which the code finds in its map, count as unknown.
- Options whose name starts with a dot: `set` on them is not modelled, since they are the store's own.
- Order of object keys: batches and listings are stated for every order in which a table can be gone through.
- The order of sections with equal indices, beyond the listing being stable: the reordering theorems are about what the indices decide.
- UciStore.Store.GetSection: returns a copy of the section; that callers hold the snapshot's own object and may write to it is not modelled.
- Deps.RenderDependencies: a package named `length` is not modelled; the other names that every array has count as seen, as in the code, and `Deps.SeenIsNeeded` says what that costs.
- Package lists: parsing `opkg` or `apk` output, and sizes and descriptions in the rendered tree.
- Template.Format: the arguments are texts, booleans, lists and objects; numbers, functions, document nodes and lookups into lists by position are left out, and so is the `span` around the result.
- Malformed templates and datatype expressions: the scanner and the compiler are modelled on all texts, but what is proved of their results is for printed ones.
- Datatypes: `Number()`, `parseFloat()` and the field's own functions are parameters; the texts of error messages are left out, and so are fields that are not in the document, which are always valid.
- SvcSpelling.SpellingDecides: takes of `btoa` that its text is longer than the bytes and has no commas.
- SvcValues.Encode: an address hint whose parts are not numbers makes the outcome malformed, where the code puts `NaN` into the text or throws.
- Ipv6Text.HintBytes: has no bytes for a text that is not made of hex groups or has an octet above 255, where the code reads what it can of each group.
- SvcbRoundTrip.RoundTrip: is about values that a line can hold: a line ends at its second `=`, commas separate values, and quotes and white space at the ends are taken off.
- SvcValues.Lower: lower case is that of the letters A to Z.
- Svcb.Build: text is a sequence of characters, so that characters beyond the first 65536 count once and not as two units; the round trip is about characters of one byte.
- Zone names: `renameZone` is modelled up to the store; that `zones` are wrapped in objects is not.
- Masks.PrefixToMask: takes whole numbers only.
- Routes.Passes: an entry without a mask never becomes a match, as in the code; a mask that is null is not modelled.
- `calculateBroadcast`: the choice of address and mask among the form's values; an address that is not one makes the code throw.
- Prng.Random.Get: draws are exact fractions, not rounded ones; without arguments it is the fraction itself, which appears in the third channel only.
- Hash.Sfh: of the fourth branch, for codes above 0xFFFF, only that no code reaches it; it names a variable that does not exist.
- Lengths beyond what JavaScript allows for arrays and strings.
