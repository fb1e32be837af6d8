# Verified model of decune's decision logic

decune brings development containers up and down. Most of its code drives Docker, but what it decides
is decided by a few dense pure algorithms: whether a container may be reused, what a metadata file
says, which host ports are given out, what layered configuration files add up to, what a template
expands to, where mounts go, and what is remembered about a container. This project models those
algorithms in Dafny and proves what they promise.

| modules | source | subject |
|---|---|---|
| `Canonical`, `HashShapes`, `CommandSections`, `ConfigHash`, `HashMeaning`, `ComposeModel` | `src/config/canonical.rs`, `src/config/hash.rs` | the text behind the configuration hash, and the sanitised Compose model in it |
| `Jsonc`, `JsoncMeaning`, `JsoncPasses`, `Utf8` | `src/devcontainer/json.rs` | the two passes that turn JSONC into JSON |
| `Ports`, `AutoPorts` | `src/docker/ports.rs` | host-port allocation and automatic forwarding |
| `KeyedList`, `StableSort`, `FeatureId`, `Merge`, `MergeAccumulator`, `MergeFacts` | `src/config/merge.rs`, `src/config/layer.rs` | the layered merge |
| `Variables`, `EnvTracking` | `src/config/variables.rs` | template expansion and what it tracks |
| `MountFields`, `ContainerPath`, `MountList` | `src/docker/mounts.rs` | mount strings, container paths, the mount list |
| `State` | `src/state.rs` | the persisted workspace state over whole runs |
| `Text`, `ConfigTypes` | several | strings, numerals, byte order; entities that several modules share |

## Conventions

- A Rust string is the sequence of its UTF-8 bytes, one Dafny `char` per byte. Where the source
  relies on a `str` being valid UTF-8, the model says so with the grammar of section 4 of RFC 3629.
- SHA-256 is a function parameter `sha`. Where a property needs it, `Injective(sha)` says that two
  different texts have different digests.
- The local environment, the port probe, the parsing of IP addresses and the resolution of host paths
  are function parameters: they do not change during one call.
- A closure passed to the canonical writer is represented by the `Doc` it writes. `Enc` gives the text
  of a `Doc`; the methods of `CanonicalWriter` are proved to append exactly that text.
- Floats are 64-bit patterns, JSON numbers and TOML dates their printed text.
- A loop over a map visits the keys in any order; what is proved holds for every order. Library sorts
  are insertion sorts: stable where `sort_by` is used, and unspecified between equals where
  `sort_unstable` is.
- Every error is the one value `Err`, or `None`. Which inputs fail is part of the contracts.
- Each imperative operation is a method proved equal to a specification function (`Enc`, `Normalize`,
  `Allocate`, `MergeAll`, `Expand`, `Parse`, `Place`, `Run`); the laws are lemmas about those functions.

## Where a promise needs a condition

- The encoding of a TOML integer is not self-delimiting. `TomlUnique` asks for a tail that does not start
  with a digit only where a value is an integer, and `TomlSelfDelimitingExactly` shows that exactly the
  integers other than 0 need it. JSON values need no such condition, nor do whole hash inputs.
- Equal hashes mean equal inputs if and only if both sides treat the same keys as sensitive
  (`HashTellsExactly`). For given inputs with the same sensitive keys `HashDecidesReuse` is an equivalence,
  and `SameHashInputs` writes out what the hash deliberately does not see: forwarded and automatically
  forwarded ports, the container CLI switch, the published-port settings `automatic_relocation` and
  `warn_on_relocation`, `port_attributes` and `other_ports_attributes`, the origin of a configured mount,
  the settings of disabled clone isolation, and the difference between a lifecycle stage without commands
  and one that is not listed.
- The normaliser tells a trailing comma by the byte before it. `NormalizePreservesTokens` states what
  it drops for every text; for text whose bare words are JSON literals or numbers this is exactly the
  trailing commas (`NormalizeDropsTrailingCommas`).
- Address conflict is symmetric but not transitive (`ConflictNotTransitive`), so allocation is proved
  conflict-free pair by pair.
- A value that was not marked sensitive can still depend on which names are unset, since a default
  stands in for an unset name (`DefaultStandsInForUnset`). It stays what it is in exactly the environments
  in which every local name its template reads is unset (`UnmarkedKeysExactly`), also when it was read from
  the container environment that was expanded before it (`UnmarkedRemoteKeysDoNotDependOnTheEnvironment`).
- Container ids match when one is a prefix of the other. A sync leaves no trace of the stored state for
  all states and containers with the given ids if and only if the ids do not match (`TracelessExactly`).
  Among containers with full ids of at least twelve characters, however the ids are truncated to no fewer,
  nothing can cross if and only if the full ids differ pairwise in their first twelve characters
  (`NothingCanCrossExactly`). Where two agree on these, the truncated id hands the progress of one to the
  other (`SharedFrontCarriesProgress`).

## Model

| member | source | states |
|---|---|---|
| Canonical.EncUnique | src/config/canonical.rs:17-70 | no text starts with the encodings of two different nodes, whatever the kinds, the nesting and the tails; integers alone need a tail that does not prolong them |
| Canonical.FieldsUnique | src/config/canonical.rs:28-37 | the fields written one after the other, with no count in front, can be told apart from every other list of fields |
| Canonical.MapUnique | src/config/canonical.rs:53-70 | two maps with the same text hold the same keys with the same values: insertion order never shows |
| Canonical.TomlUnique | src/config/canonical.rs:108-139 | TOML values with equal encodings and non-numeric tails are equal, tables as finite maps, and so are the tails |
| Canonical.JsonUnique | src/config/canonical.rs:141-165 | JSON values with equal encodings are equal, with any tails, and so are the tails |
| Canonical.TomlSelfDelimitingExactly | src/config/canonical.rs:94-139 | a TOML value can be told from every other, whatever follows the two texts, if and only if it is no integer or is 0; 64-bit integers suffice to show it for the others |
| Canonical.HexUnique | src/config/canonical.rs:179-184 | sixteen hexadecimal digits determine all 64 bits of a float, and the tail behind them |
| Canonical.CollectSortedKeys | src/config/canonical.rs:58-60 | collecting in any order and sorting gives the one ascending listing of the keys |
| Canonical.CanonicalWriter.WriteMap | src/config/canonical.rs:53-70 | appends the encoding of the map to what was written, whatever order its keys come in |
| Canonical.CanonicalWriter.WriteSeq | src/config/canonical.rs:39-51 | appends the encoding of the list to what was written |
| Canonical.CanonicalWriter.WriteObject | src/config/canonical.rs:17-26 | appends the encoding of a named object and its fields to what was written |
| Canonical.CanonicalWriter.TomlValue | src/config/canonical.rs:108-139 | appends the encoding whose unique decodability `TomlUnique` states |
| Canonical.CanonicalWriter.JsonValue | src/config/canonical.rs:141-165 | appends the encoding whose unique decodability `JsonUnique` states |
| Text.DecRoundTrip | src/config/canonical.rs:79-97 | reading a printed length or integer back gives the number |
| Text.DigitRunUnique | src/config/canonical.rs:79-84 | a numeral ends where the digits end: equal texts have equal numerals and equal tails |
| Text.SortKeys | src/config/canonical.rs:58-60 | the sort by key leaves the unique ascending listing of a set of distinct keys |
| Text.AscendingUnique | src/config/canonical.rs:58-60 | a set of keys has exactly one strictly ascending listing in byte order |
| ComposeModel.SanitizeInjective | src/config/hash.rs:221-249 | two Compose models with equal sanitised forms are equal, if the digest is injective |
| ComposeModel.DigestInjective | src/config/hash.rs:255-299 | two values digested at the same path to the same result are equal: a marker tells path, type and value |
| ComposeModel.SanitizeExact | src/config/hash.rs:221-299 | at every address, a leaf at or below an object at services/*/environment is its marker, and everything else has the kind, leaf value, keys and length it had |
| ComposeModel.DigestLeafValues | src/config/hash.rs:255-275 | computes the digested tree and leaves the path stack as it found it |
| ComposeModel.SanitizeValue | src/config/hash.rs:227-249 | computes the sanitised tree and leaves the path stack as it found it |
| ComposeModel.WriteMarker | src/config/hash.rs:277-299 | the marker of a leaf is the version tag and the digest of its canonical path, type and value |
| HashMeaning.HashDecidesReuse | src/config/hash.rs:143-196 | with equal sensitive keys and an injective digest, two hashes are equal if and only if the hash-relevant inputs are |
| HashMeaning.ConfigFaithful | src/config/hash.rs:428-460 | the configuration section is the same if and only if features, dotfile history, mounts, Compose settings, devcontainer data, credentials and hooks are, as far as the hash is meant to see them |
| CommandSections.CredentialsFaithful | src/config/hash.rs:597-632 | the credentials section determines every switch and mode of the Git and GitHub credentials |
| CommandSections.HooksFaithful | src/config/hash.rs:634-673 | the hooks section determines all twelve hook lists, in order, commands included |
| CommandSections.HookFaithful | src/config/hash.rs:1016-1048 | a hook record determines command, location, user, shell and directory, a shell line never reads as an argument list |
| CommandSections.LifecycleCommandUnique | src/config/hash.rs:990-1014 | lifecycle commands that are written alike are the same, parallel commands nested to any depth as finite maps |
| CommandSections.LifecycleFaithful | src/config/hash.rs:963-988 | the lifecycle section is the same if and only if every stage has the same commands and the stage to wait for is the same; an empty stage reads as one that is not listed |
| HashMeaning.OptionalFieldsFaithful | src/config/hash.rs:166-193 | fields that are left out when empty can still be told apart from each other and from their absence |
| HashMeaning.ComposeFaithful | src/config/hash.rs:462-534 | the Compose section determines mappings and, when enabled, the clone-isolation settings; disabled ones do not show |
| HashMeaning.DotfilesFaithful | src/config/hash.rs:552-573 | the dotfile section determines the dotfile history it is written from, and nothing else |
| HashMeaning.DevcontainerFaithful | src/config/hash.rs:692-785 | when the secret key sets agree, the devcontainer section is the same if and only if the devcontainer data is, lifecycle included and port attributes aside |
| HashMeaning.ContainerEnvFaithful | src/config/hash.rs:787-816 | the container environment is determined by its hashed form, with digests in place of secret values |
| HashMeaning.BuildArgsFaithful | src/config/hash.rs:888-917 | the build arguments are determined by their hashed form, with digests in place of secret values |
| HashMeaning.SecretListsMatter | src/config/hash.rs:787-816 | wherever a key is sensitive on one side only, a plain value that spells out a marker hashes like the secret it stands for |
| HashMeaning.ContainerEnvTellsExactly | src/config/hash.rs:787-816 | under two key lists, equal hashed container environments always mean equal environments if and only if the lists have the same keys |
| HashMeaning.BuildArgsTellExactly | src/config/hash.rs:888-917 | the same for build arguments |
| HashMeaning.HashTellsExactly | src/config/hash.rs:143-196 | under given lists of sensitive keys, equal hashes always mean equal hash-relevant inputs if and only if both sides have the same sensitive environment keys and the same sensitive build-argument keys |
| HashMeaning.ResolvedMountFaithful | src/config/hash.rs:348-426 | a resolved mount's record determines the mount, options included |
| HashMeaning.BuildFaithful | src/config/hash.rs:1066-1087 | the build record determines the build input |
| HashMeaning.LocksCompareAsMultisets | src/config/hash.rs:1050-1064 | feature locks are written alike if and only if they are the same multiset |
| StableSort.SortedDetermined | src/config/hash.rs:1050-1064 | by an order without ties, such as that of the locks, a multiset has exactly one sorted listing |
| HashMeaning.ComputeConfigHash | src/config/hash.rs:143-196 | writing section after section gives the digest of the preimage that `HashDecidesReuse` is about |
| Jsonc.NormalizeKeepsPositions | src/devcontainer/json.rs:89-185 | the output is as long as the input, differs only where a byte that is no line ending became a space, and has every CR and LF where it was |
| Jsonc.NormalizeIdempotent | src/devcontainer/json.rs:89-185 | normalising again never fails and changes nothing, nor does the comment pass on its own |
| Jsonc.StripIdempotent | src/devcontainer/json.rs:98-160 | a text without its comments has no comments |
| Jsonc.TrailIdempotent | src/devcontainer/json.rs:162-185 | blanking one comma never makes a kept comma a trailing one |
| Jsonc.TrailStaysStripped | src/devcontainer/json.rs:162-185 | blanking commas never forms a comment |
| JsoncMeaning.NormalizePreservesTokens | src/devcontainer/json.rs:89-185 | the output's tokens are the input's, comments and dropped commas aside; strings and words are byte-identical |
| JsoncMeaning.NormalizeDropsTrailingCommas | src/devcontainer/json.rs:162-229 | when all words are JSON literals or numbers, the dropped tokens are exactly the commas between a value and a closing bracket |
| JsoncMeaning.UnchangedExactly | src/devcontainer/json.rs:89-185 | a text is returned unchanged if and only if it has no comment and no comma to drop |
| JsoncMeaning.FailsExactlyOnOpenBlock | src/devcontainer/json.rs:98-160 | normalising fails if and only if a reader that goes byte by byte ends in a block comment that was opened outside strings and comments |
| Utf8.AutomatonIsGrammar | src/devcontainer/json.rs:95-160 | the octet automaton accepts exactly the UTF-8 grammar |
| JsoncPasses.NormalizeKeepsUtf8 | src/devcontainer/json.rs:98-185 | both passes turn UTF-8 into UTF-8, so neither re-check of the bytes can fail |
| JsoncPasses.CopyString | src/devcontainer/json.rs:187-206 | copies exactly the string literal that starts at the index, escapes included, and returns the index behind it |
| JsoncPasses.NextNonWhitespace | src/devcontainer/json.rs:208-213 | the first byte from the index on that is no whitespace |
| JsoncPasses.PreviousNonWhitespace | src/devcontainer/json.rs:215-221 | the last byte before the index that is no whitespace |
| JsoncPasses.StripJsoncComments | src/devcontainer/json.rs:98-160 | the byte loop computes the comment pass, and its UTF-8 check succeeds |
| JsoncPasses.RemoveTrailingCommas | src/devcontainer/json.rs:162-185 | the byte loop computes the comma pass, and its UTF-8 check succeeds |
| JsoncPasses.NormalizeJsonc | src/devcontainer/json.rs:89-96 | both loops together compute `Normalize`, failing only where it does |
| Ports.ConflictSymmetric | src/docker/ports.rs:312-336 | two bindings conflict in one order if and only if they do in the other |
| Ports.ConflictNotTransitive | src/docker/ports.rs:312-336 | two addresses that conflict with the wildcard need not conflict with each other |
| Ports.SearchIsLeast | src/docker/ports.rs:262-290 | a port is answered if and only if it is the least usable one from the request on; 0 if and only if everything up to 65535 is blocked; failure if and only if a probe aborts before that |
| Ports.ResolveHostPort | src/docker/ports.rs:262-290 | the candidate loop computes that search |
| Ports.AllocationSound | src/docker/ports.rs:73-106 | every request gets one grant, in order, sound against all others and the reservations, and earlier forwards stay |
| Ports.ForwardPortsConflictFreeAndMinimal | src/docker/ports.rs:73-106 | no two results with real host ports conflict, none conflicts with a reservation, and each is the least that was left |
| Ports.AllocationOfPrefix | src/docker/ports.rs:73-106 | later requests never change what earlier ones were given |
| Ports.ResolveForwardPorts | src/docker/ports.rs:73-106 | the loop over the requests computes that allocation |
| AutoPorts.AutoForwardingExact | src/docker/ports.rs:167-260 | the containers added are exactly the detected eligible ports, each once, strictly ascending, each with the action its attributes ask for and the least host port that is usable beside the existing forwards, the additions before it and the reservations |
| AutoPorts.AutoForwardingConflictFree | src/docker/ports.rs:167-260 | no added host port conflicts with another, with an existing forward or with a reservation |
| AutoPorts.AutoForwardingOrderInsensitive | src/docker/ports.rs:167-260 | detected lists with the same members give the same result |
| AutoPorts.SortUnstable | src/docker/ports.rs:201-202 | an ascending list with the members of the given one |
| AutoPorts.Dedup | src/docker/ports.rs:201-202 | a strictly ascending list with the members of the given one |
| AutoPorts.ResolveAutoForwardPorts | src/docker/ports.rs:167-260 | sorting, filtering and allocating in a loop computes the specified additions |
| KeyedList.ReplaceByIdentity | src/config/merge.rs:578-590 | overwrites the first entry of the same identity in place, or appends |
| KeyedList.RemoveByIdentity | src/config/merge.rs:592-597 | keeps exactly the entries of other identities, in order |
| KeyedList.KeyedListRefinesMap | src/config/merge.rs:578-597 | after any writes and removals a list has one entry per identity, namely the last one written after the last removal |
| KeyedList.RemoveByProperty | src/config/merge.rs:220-245 | removing by a coarser property drops exactly the entries that have it, and nothing another key finds |
| KeyedList.AppendUnique | src/config/merge.rs:599-605 | the loop computes the ordered union of the list and the values |
| KeyedList.UnionIsUnion | src/config/merge.rs:599-605 | the union has the old list as its front, holds exactly the old and the new values, and repeats none |
| FeatureId.IdentityDeterminesCanonicalId | src/config/layer.rs:696-736 | Features with the same merge identity have the same canonical id, for all ids |
| FeatureId.IdentityExactly | src/config/layer.rs:696-736 | two ids have the same merge identity if and only if they have the same canonical id and the same version: digest, tag with `latest` by default, or none for local ids |
| FeatureId.CanonicalIdForgetsVersion | src/config/layer.rs:696-736 | for every id without tag and digest, all its tagged and digested forms share its canonical id, two tagged forms share an identity only if the tags are equal, and the id itself is its form with the tag `latest` |
| MergeFacts.MergeAllIsRun | src/config/merge.rs:174-212 | over any layers, each list is the run of its own writes and removals |
| MergeFacts.MergedListsRefineMaps | src/config/merge.rs:247-395 | over any layers, mounts, ports, mappings, dotfiles and dotfile entries hold one entry per identity: the last write after the last disable |
| MergeFacts.MergedUnions | src/config/merge.rs:479-504 | over any layers, published ports, capabilities and security options are the values some layer names, each once, and more layers only add to the end |
| MergeFacts.DotfilesAreEnabledEntries | src/config/merge.rs:247-279 | the dotfile list is, as a set, the enabled part of the dotfile history |
| MergeFacts.EnabledFeatureStep | src/config/merge.rs:229-245 | an enabled Feature updates the one entry of its merge identity, options merged key by key, and the canonical id stored there stays that of the new id |
| MergeFacts.DisabledFeatureStep | src/config/merge.rs:220-228 | disabling removes every entry of the canonical id and no other |
| MergeFacts.FeaturesFollowTheirTrace | src/config/merge.rs:220-245 | for any run of feature merges, what is stored under a merge identity is what its own history says, with the options merged key by key |
| MergeFacts.MergedFeaturesFollowTheirTrace | src/config/merge.rs:174-245 | in every reachable accumulator each stored canonical id is that of the stored id, identities are distinct, and disabling reaches all of them |
| MergeFacts.MappingsStrictlySorted | src/config/merge.rs:521-558 | mappings end strictly sorted by service, protocol and target, none lost |
| MergeFacts.PortsSortedByPriority | src/config/merge.rs:521-558 | the port list is a stable sort by descending source priority |
| MergeFacts.PriorityRespectedEndToEnd | src/config/merge.rs:521-558 | dropping every port of lower priority changes no host port given to a higher one |
| StableSort.SortBy | src/config/merge.rs:521-558 | the sort is the stable sort of `Sort` |
| StableSort.SortStable | src/config/merge.rs:521-558 | entries that compare equal keep their order |
| StableSort.SortOfFilter | src/config/merge.rs:521-558 | dropping the greatest entries commutes with sorting |
| MergeAccumulator.Accumulator.MergeFeature | src/config/merge.rs:220-245 | changes the feature list by one specified merge and nothing else |
| MergeAccumulator.Accumulator.MergeDotfile | src/config/merge.rs:247-279 | writes or drops one target in the dotfile list and in the history together, and nothing else |
| MergeAccumulator.Accumulator.MergeMount | src/config/merge.rs:348-369 | writes or drops one mount target, and nothing else |
| MergeAccumulator.Accumulator.MergePort | src/config/merge.rs:371-387 | writes or drops one port identity, and nothing else |
| MergeAccumulator.Accumulator.MergeMapping | src/config/merge.rs:281-314 | writes or drops one mapping identity; an enabled mapping without a host is ignored |
| MergeAccumulator.Accumulator.MergePublishPortList | src/config/merge.rs:479-485 | replacing by an identity that is the whole port adds the ports that are new, and nothing else changes |
| MergeAccumulator.Accumulator.ApplyLayer | src/config/merge.rs:174-212 | takes the accumulated value to the one after the layer |
| MergeAccumulator.Accumulator.IntoResolved | src/config/merge.rs:521-576 | applies forward-port attributes and both sorts |
| MergeAccumulator.ResolveConfig | src/config/merge.rs:20-44 | merges the given layers in their fixed order and finishes |
| Variables.PrintAfterParse | src/config/variables.rs:417-461 | splitting a text and printing the pieces gives the text back; literals hold no opening, expressions no closing |
| Variables.ParseAfterPrint | src/config/variables.rs:417-461 | and no other pieces print that text |
| Variables.ExpandersAgree | src/config/variables.rs:206-258 | the plain and the tracked expander succeed together with the same text |
| Variables.ExpandConcat | src/config/variables.rs:232-258 | if `a` expands and no opening straddles the seam, `a + b` expands to both expansions in turn: inserted text is never read again |
| EnvTracking.ExpandVariablesTracked | src/config/variables.rs:232-258 | the loop over the rest of the text computes the template's expansion |
| EnvTracking.ExpandVariables | src/config/variables.rs:206-230 | the plain loop computes the plain expansion |
| EnvTracking.ListVariableExpressions | src/config/variables.rs:417-428 | lists exactly the expressions of the split text, in order |
| EnvTracking.ExpandEnvMapTracked | src/config/variables.rs:169-204 | in any key order: all values expanded, and sensitive exactly those with something to redact |
| EnvTracking.UnmarkedKeysExactly | src/config/variables.rs:169-204 | a key that is not marked sensitive expands to the same value, unmarked, in another environment if and only if every local name its template reads is unset there |
| EnvTracking.UnmarkedKeysDoNotDependOnTheEnvironment | src/config/variables.rs:169-204 | so it has the same value in every environment with the same unset names |
| EnvTracking.UnmarkedRemoteKeysDoNotDependOnTheEnvironment | src/config/variables.rs:98-140 | across both stages, container environment first and remote environment over it, a remote key that is not marked sensitive has the same value in every environment with the same unset names |
| EnvTracking.DefaultStandsInForUnset | src/config/variables.rs:349-371 | a default stands in exactly for an unset name, is not tracked, and may contain colons |
| EnvTracking.RejectContainerEnvReferences | src/config/variables.rs:403-415 | accepts exactly the maps whose values are closed and never name the container environment |
| EnvTracking.ExpandContainerEnvTracked | src/config/variables.rs:134-140 | rejects first and expands then |
| EnvTracking.ContainerEnvIsNotCircular | src/config/variables.rs:134-140 | expanding the container environment gives the same under any container environment in the context |
| MountFields.DockerMountCsvFields | src/docker/mounts.rs:334-385 | the flag-and-buffer loop computes the four-mode parse, failing where it does |
| MountFields.ParseAfterPrint | src/docker/mounts.rs:334-385 | every non-empty list of fields, quoted by section 2 of RFC 4180, is read back as it was |
| MountFields.ParseExactlyUndoesPrint | src/docker/mounts.rs:334-385 | a text is read as given fields if and only if it is one of their printed forms, so everything else is rejected |
| MountFields.FieldCount | src/docker/mounts.rs:334-385 | there is one field more than there are commas outside quotes |
| ContainerPath.NormalizeContainerPath | src/docker/mounts.rs:639-657 | the component loop computes the walk of the path, rendered |
| ContainerPath.NormalForm | src/docker/mounts.rs:639-657 | the result has only real components, is its own normal form, and is the same for two paths if and only if they walk to the same place |
| ContainerPath.ReservedExactly | src/docker/mounts.rs:639-664 | a normalised target is reserved if and only if its first two components are opt/decune or run/decune |
| ContainerPath.ValidatedTargets | src/docker/mounts.rs:626-637 | accepted targets are absolute, normalised and not reserved, and exactly those are accepted |
| MountList.ConfigMountSpecs | src/docker/mounts.rs:100-153 | the three loops place global, devcontainer and project mounts in this order |
| MountList.MountListIsLastWriters | src/docker/mounts.rs:100-153 | targets are pairwise distinct, and the members are exactly the last writers of their targets |
| MountList.PlaceFailsExactly | src/docker/mounts.rs:100-153 | the list fails if and only if one of its mounts does |
| State.LifecycleFlags.MarkCommandCompleted | src/state.rs:284-290 | sets one flag and keeps the five others |
| State.LifecycleFlags.MarkAfterHookCompleted | src/state.rs:292-298 | sets one flag and keeps the five others |
| State.StateFile.Sync | src/state.rs:382-424 | stores and returns the synchronised state, whether the file was missing, broken, foreign or matching |
| State.StateFile.WriteReused | src/state.rs:445-475 | stores the reused state with the container's identity and the kept progress |
| State.StateFile.MarkUsed | src/state.rs:508-514 | stores the given state with a new time of last use and no other change |
| State.StateFile.Reconcile | src/state.rs:516-529 | removes a readable state and refuses an unreadable one |
| State.Execute | src/state.rs:382-529 | any sequence of these commands takes the file to the run of the model |
| State.ExecContextAlwaysFits | src/state.rs:585-597 | in every run, a stored exec context matches the stored container id, although matching is not transitive |
| State.ProgressIsKept | src/state.rs:382-475 | while container and hash match, the creation time is constant and no lifecycle flag reverts, over whole runs |
| State.MatchMeansSame | src/state.rs:572-574 | when full ids differ in their first twelve characters, two ids truncated to no fewer match if and only if they name the same container |
| State.TracelessExactly | src/state.rs:382-424 | a sync with a container of one id leaves no trace of any stored state of another id if and only if the ids do not match |
| State.NothingCanCrossExactly | src/state.rs:382-424 | among containers with full ids of at least twelve characters, no container leaves a trace in the state of another, under any truncation to at least twelve, if and only if the first twelve characters are pairwise different |
| State.TwoContainersAreWellNamed | src/state.rs:572-574 | any two long ids that differ in their first twelve characters form such a set of containers |
| State.NothingCrossesContainers | src/state.rs:382-424 | from any stored state of a known container, or none, after a sync with another container than the one stored the whole past of the file has no effect on any future |
| State.ReuseStaysOnContainer | src/state.rs:445-475 | reusing a state for another container changes nothing, and a stored state never comes to name another container |
| State.SharedFrontCarriesProgress | src/state.rs:572-597 | for any two different full ids of equal length that agree on twelve characters, progress of one is carried to the other over the truncated id, though the full ids do not match |

## Left out

- Docker and Compose CLI calls, container and image lifecycle, asynchronous orchestration: input and output, not decisions.
- Files, locks, symlink checks, fsync and rename: the state file is one value that is present, missing or unreadable.
- TOML and JSON parsing, serde, SHA-256, IP text parsing, port probing, environment reads: values or function parameters of the model.
- Prompts, terminal output, redaction of log output, version display: no invariant beyond their bodies.
- Error messages, including the line and column of an unterminated comment: every failure is one value.
- MergeAccumulator.Accumulator.ApplyLayer: merges the lists with identities, the lists without repetition and the port attributes of a layer, not its last-wins scalars (shell, credentials, clone isolation, automatic forwarding, relocation, container CLI, and those of the devcontainer metadata), the environment maps, the lists that are only appended to (hooks, endpoints, devcontainer mounts, run arguments, entrypoints), nor the lifecycle stage by stage and `other_ports_attributes` field by field: all of these are assignments, extensions and appends.
- MergeAccumulator.Accumulator.IntoResolved: leaves out the default of automatic relocation and the transfer of `init` and `privileged`, for the same reason.
- MergeAccumulator.ResolveConfig: as `ApplyLayer` and `IntoResolved`.
- ComposeModel.SanitizeValue: returns the new tree instead of overwriting the old one in place.
- Canonical.CanonicalWriter.Write: a closure that writes something other than a `Doc` cannot be expressed, and none in the source does.
- MountList.ConfigMountSpecs: devcontainer mounts arrive parsed, or as parse failures; the names of the options in the split fields, trimming and the creation of host directories are not modelled.
- Widths: ports are 16-bit, TOML integers and floats 64-bit; other integers are unbounded, which only makes the statements more general.
- Metadata file discovery (`src/devcontainer/json.rs`, `discover` and below): directory listing.
