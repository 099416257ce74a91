# Verified model of coop

`coop` is a host tool that runs coding agents in virtual machines. This project models the parts of
it that carry state, parse text, or have to agree with something written elsewhere, and proves what
the code and its documentation promise about them:

- **Jsonc**, **JsoncGrammar**: the one-pass JSONC scanner equals two simple passes (erase comments, then fix commas);
  its fixed points, its idempotence, what a second scan does to non-ASCII text, and, in byte values,
  which commas and comments go.
- **CodexBoot**, **CodexRuns**, **CodexContents**: what a boot does to the persisted `ModelState` and to the guest's
  `~/.codex`, with a failure possible at every external step, what holds over every run, and what each
  key of the guest's file holds in the end.
- **PatConfig**, **PatReload**, **ConfigLock**, **EditCompletion**, **TokenExposure**: the edits of
  `config.toml`, what they mean for the reloaded configuration, and any number of processes making
  them, one file-system call at a time.
- **Base64**, **FeatureSnippet**: the encoder against a strict decoder, and the composed install
  script against readers for operator lines, here-documents, quoted words and `export` lines.
- **InstanceNames**, **Registry**: the bounded allocator of instance indices and names.
- **RepoSlug**, **GitModules**, **Submodules**, **SortedStrings**: GitHub URLs, `.gitmodules`
  files as git writes them, and the classification of submodules.
- **Forwards**, **Devcontainer**, **EnvForwarding**, **ClaudeSettings**: merging and precedence of
  port forwards, environment variables and managed settings.

Code that updates things step by step is modelled by methods and classes, each proved against a
specification; the laws are lemmas about the specifications. Failing reads, copies and commands are
parameters of the operations, so a statement about all inputs is one about all ways to fail.

`dafny verify dfyconfig.toml` checks everything.

## Findings

Where a promise turned out not to hold of the code, the model keeps the code's behaviour and the
lemma states exactly when the promise holds.

- A string literal keeps its value exactly when it is ASCII, because `c as char` turns each byte of a
  multi-byte character into a character of its own (`Jsonc.StringsSurvive`; `Jsonc.AccentChanges`
  for `"é"`).
- For the same reason a second scan of the *text* that `jsonc_to_json` yields returns it unchanged
  exactly when no byte outside comments lies beyond ASCII (`Jsonc.RescanText`; `Jsonc.RescanGrows` for `é`).
- An option whose key is empty or starts with a digit gives an `export` line that the shell rejects,
  and of two options whose keys give the same variable name only the last keeps its value; otherwise
  every option arrives unchanged (`FeatureSnippet.OptionsArriveExactly`;
  `FeatureSnippet.DigitKeyIsNoName` for `1a`, `FeatureSnippet.DashAndUnderscoreClash` for `a-b` and
  `a_b`).
- A submodule URL `./` lies inside its own parent and should be dropped. With a parent whose name
  ends in `.git` it is reported as a sibling repository (`Submodules.DotSlashTarget`;
  `Submodules.DotSlashLeaks` for `o/r.git`).
- The comment on `add_skip_marker` calls the forced `mode = "pat"` a no-op for token forwarding. It
  is one exactly when the document holds no entries: entries under `mode = "off"` become active
  (`PatReload.SkipMarkerRevealsEntries`; `PatReload.SkipMarkerForwardsToken` for one entry).
- A boot that copies the Codex configuration but cannot save the keyring flag leaves the credential
  store key in the guest once the account mode is switched off (`CodexRuns.KeyAfterBoot` for the
  condition, `CodexRuns.LostFlagLeavesKey` for the run).
- A boot that rewrites `config.toml` without having been able to read the guest's copy loses the
  guest's own tables (`CodexRuns.TablesKeptExactly`; `CodexRuns.UnreadGuestLosesTables`), and a boot
  that cannot read `settings.json` loses every unmanaged key (`ClaudeSettings.KeepsUnmanaged`;
  `ClaudeSettings.FailedReadLosesPlugins`).
- A file with a literal token is meant to have at most the mode 0600. That holds of the published
  file; the temporary one has the mode that `umask` gives it until its own is set, and keeps it if
  the process dies before (`TokenExposure.ExposedExactly`; `TokenExposure.CrashLeavesToken`).
- `extract_urls` strips git's quotes but does not undo its escapes, so a URL with a backslash, a
  quote or a tab comes out changed (`GitModules.ExtractExactly`; `GitModules.BackslashDoubles`).

## Model

| member | source | states |
|---|---|---|
| Jsonc.JsoncToJson | src/jsonc.rs:19-97 | The scanner with its two state bits, comment loops and lookahead emits, for every byte sequence, the Latin-1 text of erasing comments and then fixing commas; it terminates and stays within bounds. |
| Jsonc.SkipLine | src/jsonc.rs:55-59 | The loop over a line comment stops in front of the newline, where the first pass goes on. |
| Jsonc.SkipBlock | src/jsonc.rs:60-68 | The loop over a block comment stops behind its end; without an end, the last byte is read again. |
| Jsonc.ErasedHasNoOpener | src/jsonc.rs:26-68 | Erasing comments never creates a comment opener outside strings. |
| Jsonc.ErasedKeepsStrings | src/jsonc.rs:26-68 | Erasing comments moves no string boundary: the literals outside comments stay, byte for byte and in order. |
| Jsonc.FixedCommasAreClean | src/jsonc.rs:69-95 | After the second pass no comment opens outside strings and every comma outside strings stands directly before a token or the end. |
| Jsonc.CleanIsFixed | src/jsonc.rs:19-97 | Neither pass changes a text in which no comment opens and every comma stands so. |
| Jsonc.ConvertIsIdempotent | src/jsonc.rs:19-97 | Converting the bytes of a result changes nothing, and the texts that are not changed are exactly the clean ones. |
| Jsonc.OnlyCommasChange | src/jsonc.rs:69-95 | The comma pass keeps all other bytes and their order. |
| Jsonc.PassesKeepStrings | src/jsonc.rs:26-95 | Before bytes become characters, no string literal outside comments is changed, split, merged or lost, whatever it looks like inside. |
| Jsonc.StringsSurvive | src/jsonc.rs:19-97 | The string literals of the text that comes out are those of the input if and only if these are ASCII; in any case they are the input's with each byte turned into a character. |
| Jsonc.AccentChanges | src/jsonc.rs:33 | The concrete case: the literal `"é"` comes out as `"Ã©"`. |
| Jsonc.RescanText | src/jsonc.rs:33-87 | Scanning the text of a result again leaves it unchanged if and only if no byte outside comments lies beyond ASCII; the bytes it scans are always a fixed point. |
| Jsonc.RescanGrows | src/jsonc.rs:33-87 | The two bytes of `é` become two characters, and four after a second scan. |
| JsoncGrammar.OutputCommas | src/jsonc.rs:69-95 | Said in byte values of the text that comes out: outside strings no comma stands, past tabs, newlines, form feeds, returns and spaces, before another comma, a `]` or a `}`; and apart from blanks the text is that of the first pass with just those commas taken out, so one stays between any two tokens that had some. |
| JsoncGrammar.LineComment | src/jsonc.rs:55-59 | Two slashes outside strings and all up to the newline or the end disappear; the newline stays. |
| JsoncGrammar.BlockComment | src/jsonc.rs:60-68 | A slash and a star, and all up to and with the first star and slash behind them, disappear. |
| JsoncGrammar.OpenComment | src/jsonc.rs:60-68 | Of a block comment without an end the last byte stays. |
| Base64.Base64Encode | src/devcontainer_oci.rs:471-492 | The shifts and masks over chunks of three bytes compute the encoding of section 4 of RFC 4648. |
| Base64.ShiftedSextets | src/devcontainer_oci.rs:477-489 | The four table indices of a chunk are the base-64 digits of its 24-bit number. |
| Base64.TableMatchesValues | src/devcontainer_oci.rs:472 | Every entry of the encoder's table is the symbol that Table 1 of RFC 4648 gives that value. |
| Base64.SymbolsMatchValues | src/devcontainer_oci.rs:472 | Symbols and values are inverse to each other, over the whole alphabet. |
| Base64.DecodeEncode | src/devcontainer_oci.rs:471-492 | A strict decoder inverts the encoder on every byte sequence. |
| Base64.EncodeDecode | src/devcontainer_oci.rs:471-492 | Every text the strict decoder accepts is the encoding of what it decodes to. |
| Base64.EncodeIsInjective | src/devcontainer_oci.rs:471-492 | Two byte sequences have the same encoding only if they are equal. |
| Base64.EncodeShape | src/devcontainer_oci.rs:471-492 | The length is four times the ceiling of a third, every character is in the alphabet, and padding stands only at the end, as much as the last group lacks. |
| FeatureSnippet.ComposeInstallSnippet | src/devcontainer_oci.rs:434-469 | The script opens with a subshell that names its directory, removes it on exit and names the archive. Behind that, the word after the `<<` is the delimiter with which the shell reads the following lines: they decode to the archive, and then come the commands that unpack it, one assignment for each option, and `./install.sh`. |
| FeatureSnippet.PayloadLine | src/devcontainer_oci.rs:442-452 | The encoded archive is a single line and never the delimiter line. |
| FeatureSnippet.ArchiveReadsBack | src/devcontainer_oci.rs:442-452 | For every archive the here-document read up to its first delimiter line decodes to the archive, and the script goes on right behind it. |
| FeatureSnippet.QuotedIsOneWord | src/devcontainer_oci.rs:506-508 | A quoted value is read by the shell's quoting rules as one word equal to the value. |
| FeatureSnippet.OptionNames | src/devcontainer_oci.rs:494-504 | Letters of an option key become capitals, digits stay, and any other character becomes an underscore. |
| FeatureSnippet.ExportsReadBack | src/devcontainer_oci.rs:457-463 | The export lines are read as one assignment for each option with its own value, if and only if every key gives a valid variable name. |
| FeatureSnippet.DigitKeyIsNoName | src/devcontainer_oci.rs:494-504 | The line for an option `1a` is no assignment. |
| FeatureSnippet.OptionsArriveExactly | src/devcontainer_oci.rs:457-463 | Every option's variable holds its own value when the feature starts if and only if every key gives a valid variable name and no two options of different values share one. |
| FeatureSnippet.DashAndUnderscoreClash | src/devcontainer_oci.rs:494-504 | The concrete case: of `a-b` and `a_b` only the second keeps its value. |
| FeatureSnippet.SnippetReadsBack | src/devcontainer_oci.rs:434-469 | For every archive and option map the here-document and what follows it read back so, given the delimiter. |
| FeatureSnippet.ScriptRuns | src/devcontainer_oci.rs:443-452 | The delimiter that the shell takes from the operator line is the one that ends the document, behind any opening lines. |
| RepoSlug.SlugExactly | src/github_repo.rs:31-80 | The constructor accepts exactly two non-empty segments of safe characters around one slash, and the accessors return them. |
| RepoSlug.CanonicalizeExactly | src/github_repo.rs:137-145 | A path gives a slug if and only if it is the slug, then `.git` or (when the slug does not end in it) nothing, then slashes. |
| RepoSlug.ParseUrlExactly | src/github_repo.rs:110-145 | A URL gives a slug if and only if, trimmed, it is a known prefix followed by such a path. |
| RepoSlug.ParsesUrlsOf | src/github_repo.rs:110-145 | The same with the four prefixes spelled out. |
| RepoSlug.TrimExactly | src/github_repo.rs:110-116 | Trimming takes Unicode white space off both ends, all of it and nothing else. |
| RepoSlug.SafeCharacters | src/github_repo.rs:31-80 | Owners and repositories consist of ASCII letters, digits, dashes, underscores and dots. |
| RepoSlug.PrintThenParse | src/github_repo.rs:110-145 | A slug printed behind any prefix with `.git` parses back; without `.git` it does exactly when the slug does not end in `.git`. |
| RepoSlug.OnePrefix | src/github_repo.rs:110-135 | At most one prefix matches a text, so their order does not matter. |
| PatConfig.ConfigFile.UpsertPatEntry | src/github_pat.rs:958-1016 | The in-place edits of the tree and the write leave the file as the upsert specification says, and an unparseable file alone. |
| PatConfig.ConfigFile.RemovePatEntry | src/github_pat.rs:1018-1032 | The same for a removal, which does nothing only when there is no file. |
| PatConfig.ConfigFile.AddSkipMarker | src/github_pat.rs:1044-1070 | The same for a skip marker. |
| PatConfig.ConfigFile.WriteDoc | src/github_pat.rs:1083-1096 | The document reads back; an existing file gains no permission bits, and none beyond 0644 is set; a literal token is open to the owner only. The owner keeps the rights to read and write that he had, and without a literal token the others keep theirs to read. |
| PatReload.EditRefines | src/github_pat.rs:958-1070 | The edits of the document refine upsert, remove and skip on an entry map and a skip set taken from the raw document. |
| PatReload.EditFrame | src/github_pat.rs:958-1070 | Every other key of the root and of the table, and every item of the skip list that is not a text, stays; a removal changes entries only. |
| PatReload.RunRefines | src/github_pat.rs:958-1070 | The same over any number of edits of a file. |
| PatReload.ModeNeverGrows | src/fs_util.rs:106-139 | Over any number of edits the permission bits of an existing file only shrink. |
| PatReload.LiteralTokensStayPrivate | src/github_pat.rs:1083-1112 | After a write the published file with a literal token gives nothing to group and others, and no edit breaks that. |
| PatReload.ClearTokensArePrivate | src/github_pat.rs:1083-1112 | A written document in which the token of any one entry is no command gives nothing to group and others. |
| PatReload.UntouchedOrPrivate | src/github_pat.rs:1083-1112 | Over any number of edits the file either is what it was or keeps its tokens private. |
| PatReload.LoadPatTable | src/config.rs:1117-1165 | A table in pat mode loads exactly when entries and skip list are well formed, and then as what the document says. |
| PatReload.PrintedLoads | src/config.rs:1174-1194 | What the serializer prints for any authentication mode loads again as itself. |
| PatReload.ReloadAfterUpsert | src/pat_prompt.rs:48-74 | After an upsert, loading succeeds exactly when the rest was well formed, gives the abstract state with the token under the repository and no skip marker for it, and the decision is to skip the prompt. |
| PatReload.ReloadAfterSkip | src/pat_prompt.rs:48-74 | The same after a skip marker. |
| PatReload.AsksExactly | src/pat_prompt.rs:48-74 | The user is asked if and only if nothing forbids asking, the mode is neither `auto` nor `env`, and in mode `pat` the repository has neither an entry nor a marker. |
| PatReload.RemovalAsksAgain | src/pat_prompt.rs:48-74 | Removing the entry of a repository that has no marker makes the program ask again. |
| PatReload.SkipMarkerRevealsEntries | src/github_pat.rs:1036-1070 | A skip marker recorded while no token is forwarded keeps it so if and only if the document holds no entries. |
| PatReload.SkipMarkerForwardsToken | src/github_pat.rs:1036-1070 | The concrete case: `mode = "off"` above one entry, whose token is forwarded after a skip marker for another repository. |
| ConfigLock.NextInv | src/fs_util.rs:76-139 | Every step of every process (lock, read, write of the temporary file, chmod, rename, release, failure, death) and of every reader keeps the invariant. |
| ConfigLock.EditsAreSequential | src/fs_util.rs:76-139 | For every interleaving the file is the completed edits applied one after the other in the order of the lock grants. |
| EditCompletion.GrantedEditCompletes | src/fs_util.rs:76-139 | In every run, an edit that got the lock is complete once its process is idle again, unless one of its calls failed or it died. |
| EditCompletion.AllEditsApplied | src/github_pat.rs:958-1070 | When nothing fails and all processes are idle again, the file is every edit that got the lock, upserts, removals and skip markers, applied in that order. |
| EditCompletion.OneEditApplied | src/github_pat.rs:958-1070 | A single such edit leaves the file with it applied. |
| EditCompletion.HolderCanGoOn | src/fs_util.rs:76-139 | In every state that keeps the invariant, the holder of the lock has a step of its own that is neither a failure nor its death, if the document it still has to read parses. |
| EditCompletion.EditsCanBegin | src/fs_util.rs:76-95 | An idle process can begin any edit, and a waiting one gets the lock when it is free. |
| ConfigLock.ReaderSeesWholeDocument | src/fs_util.rs:106-139 | A reader without the lock reads, however long it keeps the file open, the whole document and the mode of the state in which it opened it. |
| ConfigLock.PermissionsNeverGrow | src/fs_util.rs:106-139 | In every run the file stays once it exists, and its permission bits never grow. |
| TokenExposure.PublishedTokensPrivate | src/fs_util.rs:106-139 | In every run the published file has a literal token open to others only as long as it is the file that was there before the first edit. |
| TokenExposure.ExposureStarts | src/fs_util.rs:127-130 | A token becomes open to others exactly when its write completes in a temporary file that its mode at creation leaves open. |
| TokenExposure.ExposureEnds | src/fs_util.rs:127-130 | That ends exactly with the change of mode, or with a later write under the same temporary name. |
| TokenExposure.ExposedExactly | src/fs_util.rs:127-130 | In every run, a file has a token open to others if and only if some earlier write of it completed in an open temporary file, or it was open from the start, and it was neither restricted nor written over since. |
| TokenExposure.ExposureSources | src/fs_util.rs:127-130 | Such a file lay there before, or is about to be restricted by its process, or was left behind by one that failed or died at just that point. |
| TokenExposure.CrashLeavesToken | src/fs_util.rs:127-130 | A run of one process that leaves such a file behind, for every literal token and every `umask` that gives others rights. |
| ConfigLock.RemovalWithoutFile | src/github_pat.rs:1018-1032 | A removal that returns early, without the lock, counts as an edit of its own at that moment: with it put there, every later state of the run is still the sequential application of all edits. |
| ConfigLock.LogGrows | src/fs_util.rs:76-139 | Completed edits are never lost or reordered. |
| InstanceNames.SanitizeBasename | src/config.rs:2058-2074 | The result is always a valid name of at most 60 characters: the start of the given one, cut only at 60, with nothing but its invalid characters replaced; an empty one becomes `workspace`. |
| InstanceNames.InstanceNameExactly | src/config.rs:1871-1890 | Names are 1 to 64 ASCII letters, digits, dashes and underscores. |
| InstanceNames.CandidateSpelling | src/config.rs:2077-2088 | The first candidate is the base itself, the others add a dash and their number without leading zeros. |
| InstanceNames.CandidateIsName | src/config.rs:2077-2088 | Every candidate is a valid name of at most 63 characters. |
| InstanceNames.CandidatesDiffer | src/config.rs:2077-2088 | Two candidates of different number differ. |
| InstanceNames.UniqueInstanceName | src/config.rs:2077-2088 | The search fails exactly when all 99 candidates are taken, and otherwise returns the first that is free. |
| InstanceNames.CandidateIsFree | src/config.rs:2077-2088 | With at most 98 names taken a candidate is free. |
| InstanceNames.AddressesIdentify | src/config.rs:2700-2721 | Guest address, MAC, TAP device and CID of two indices are equal only if the indices are; the last octet lies in 2 to 254. |
| InstanceNames.AddressesBelongTogether | src/config.rs:2700-2721 | The MAC is 06:00 and the octets of the guest address, the TAP device carries the index, and the CID is one above the last octet, past the reserved ones. |
| Registry.ListingIsUnique | src/config.rs:2377-2405 | The sorted listing does not depend on the order in which directories are read. |
| Registry.FastPathAgrees | src/config.rs:2408-2453 | In every reachable state the directory fast path finds what the full listing and search would find, for present and absent names. |
| Registry.SlotsInUse | src/config.rs:2469-2500 | There are at most 253 instances, and exactly 253 when every index is taken. |
| Registry.NextIndexIsUnique | src/config.rs:2478-2495 | The choice of an index is determined: one above the highest while there is room, else the lowest free one. |
| Registry.WorkspaceNameIsFree | src/config.rs:2058-2088 | With at most 98 instances an allocation for a workspace has a free name. |
| Registry.FirstFreeIsName | src/config.rs:2058-2088 | A free candidate implies a first free one, and that is a valid name. |
| Registry.AddressesAreDistinct | src/config.rs:2700-2721 | In every reachable state two instances differ in all derived addresses. |
| Registry.InstancesDir.ListInstances | src/config.rs:2377-2405 | Every readable instance, once, sorted by index. |
| Registry.InstancesDir.ResolveInstance | src/config.rs:2408-2453 | A name resolves exactly when it is an instance; without a name, exactly when there is a single instance. |
| Registry.InstancesDir.ChooseIndex | src/config.rs:2478-2495 | The index is the specified one, and there is none exactly when all 253 are taken. |
| Registry.InstancesDir.ChooseName | src/config.rs:2497-2513 | The choice of a name succeeds exactly when the wanted, derived or numbered name is free; the result is unused and valid. |
| Registry.InstancesDir.AllocateInstance | src/config.rs:2469-2524 | Keeps indices and names distinct; fails for want of a slot exactly with 253 instances; otherwise reaches the save exactly when the name is free; a failed save adds no instance. |
| Registry.InstancesDir.DestroyInstance | src/backend.rs:942-957 | Keeps the state valid, whether the directory is removed, half removed or kept. |
| CodexBoot.Instance.PrepareBoot | src/backend.rs:1646-1705 | The steps up to the copy, with early returns and the write-ahead save of the flag, change the disk as the boot specification says. |
| CodexBoot.Instance.BootstrapCodex | src/backend.rs:1646-1773 | The statement sequence with all its failure points is the boot specification. |
| CodexBoot.Instance.CopyCodexConfig | src/backend.rs:2498-2544 | The same for the copy into the guest, including the removal of `auth.json` in proxy mode. |
| CodexBoot.StageCodexFiles | src/backend.rs:2755-2881 | The writers of the staged file, one overwriting the other, give for every key the value of the writer that owns it. |
| CodexRuns.PrepareFacts | src/backend.rs:1653-1705 | The flag is on the disk before anything reaches the guest, on every path. |
| CodexRuns.BootKeepsBlock | src/backend.rs:1653-1714 | A provider block in the guest implies the persisted flag, before and after any boot however it fails; after a successful one the block is there exactly when a local endpoint or the proxy is in effect. |
| CodexRuns.BlockOverRuns | src/model_state.rs:101-130 | The same implication in every state of every run of boots, guest edits and host commands that leave the block to coop and do not clear the flag. |
| CodexRuns.ModelCommandsLeaveAlone | src/commands/model.rs:80-132 | The two commands that write the state do neither clear this flag nor change the other, and a switch to local that routes Codex sets the first. |
| CodexRuns.SwitchExactly | src/commands/model.rs:80-132 | The switch to local fails exactly when no tool has an endpoint configured, stored or answered; an answer is stored for a tool only that has none, and switching back and forth then asks nothing and changes nothing. |
| CodexRuns.BlockAfterEveryBoot | src/backend.rs:2466-2496 | After every successful boot of every run the block is present and selected, or gone without a trace. |
| CodexRuns.BootKeepsKey | src/backend.rs:1677-1741 | When copy and flag save are atomic, the flag mirrors the guest's credential store key, and after a successful boot both say whether the account mode is on. |
| CodexRuns.KeyOverRuns | src/backend.rs:1677-1741 | The same over every run in which that holds and nobody else adds or removes the key. |
| CodexRuns.KeyAfterBoot | src/backend.rs:2735-2753 | Without that assumption a successful boot brings the key in line with the mode if and only if it rewrites the file or the key was not there. |
| CodexRuns.LostFlagLeavesKey | src/backend.rs:1706-1741 | A run in which the lost flag leaves the key in the guest. |
| CodexRuns.ProxyLeavesNoAuthFile | src/backend.rs:2507-2513 | In proxy mode a successful boot leaves no `auth.json` in the guest, whatever the host's files hold. |
| CodexRuns.RefreshedTables | src/backend.rs:2520-2544 | For every boot, the config refresh leaves the guest's own tables as they were if it does not write the file, or could read it and writes it whole, and otherwise leaves none that count. |
| CodexRuns.TablesAfterBoot | src/backend.rs:1646-1773 | After every boot, successful or not, first or later, the guest's own tables are those the refresh leaves, under those of a plugin installation that the boot reaches. |
| CodexRuns.TablesKeptExactly | src/backend.rs:2520-2544 | Every boot leaves them exactly as they were if and only if the refresh carries them or the installation covers them, and it installs nothing else. |
| CodexRuns.TableKept | src/backend.rs:2605-2618 | A table that a first boot does not install passes every boot that carries the tables, even one that fails later. |
| CodexRuns.UnreadGuestLosesTables | src/backend.rs:2562-2583 | A restart that rewrites the file after a failed read succeeds and loses the tables. |
| CodexRuns.NoHostTables | src/backend.rs:2842-2878 | No boot, whatever the host's files hold, brings a host table of those names into the guest. |
| CodexRuns.TableOverRuns | src/backend.rs:2605-2618 | Over any sequence of boots, failing or not, first or later, with any host commands in between, a table that no first boot installs and the guest does not edit stays as it was, as long as every boot carries the tables. |
| CodexRuns.TablesOverRestarts | src/backend.rs:2605-2618 | Without first boots and guest edits, all of them together. |
| CodexContents.LocalModelAfterBoot | src/backend.rs:2466-2484 | After a successful boot in local mode the guest's `model` is that of the configured endpoint, or of the stored one when none is configured, and the only provider's `base_url` is the endpoint's URL as the guest sees it. |
| CodexContents.ProxyAfterBoot | src/model_state.rs:268-300 | In proxy mode the `base_url` is the proxy's URL with the path `/v1`, and `model` is what the host's file says. |
| CodexContents.OtherKeysAfterBoot | src/backend.rs:2755-2881 | Every other key comes from the authentication mode, the managed servers (`mcp_servers`) or the host's file; without a reason to write, no key changes. |
| CodexContents.OwnTablesAfterBoot | src/backend.rs:2605-2618 | `marketplaces`, `plugins` and `projects` survive every successful restart that could read them. |
| CodexContents.AuthFileAfterBoot | src/backend.rs:2700-2719 | The host's `auth.json` reaches the guest with an API key and without the proxy only. |
| CodexContents.SucceedsExactly | src/backend.rs:1646-1773 | A boot succeeds if and only if every external step that it needs works. |
| CodexContents.SavedStateLoads | src/model_state.rs:109-131 | A saved state loads again, except that a default one leaves the older file when its removal fails. |
| CodexContents.StateAfterBoot | src/backend.rs:1646-1773 | A successful boot changes the two flags of the persisted state as the mode says, and nothing else. |
| GitModules.ExtractUrls | src/github_submodules.rs:87-107 | The loop collects the URL of every line, in order. |
| GitModules.KeyInAnyCase | src/github_submodules.rs:97-99 | The key is `url` in any of its eight spellings by case. |
| GitModules.UrlsStayOnLines | src/github_submodules.rs:87-107 | No extracted URL spans lines, whatever the file holds. |
| GitModules.ExtractExactly | src/github_submodules.rs:80-107 | What git writes for a list of submodules, with its quoting and escaping, yields exactly their URLs in order if and only if each is non-empty, holds no character that git escapes, and has no whitespace at an end except spaces or whitespace that quotes protect. |
| GitModules.BackslashDoubles | src/github_submodules.rs:100-103 | The concrete case of a backslash, which comes back doubled. |
| Submodules.ResolveUrl | src/github_submodules.rs:115-146 | Stripping one `../` at a time leaves the owner after one step, the host after two, and nothing after three or more. |
| Submodules.RelativeTargets | src/github_submodules.rs:115-203 | Three or more steps up are dropped, and no relative URL is counted as foreign to GitHub. |
| Submodules.DotSlashTarget | src/github_submodules.rs:119-121 | A `./` URL is dropped unless the parent ends in `.git`, is a slug without it, and nothing but slashes follows; then it gives that slug. |
| Submodules.DotSlashLeaks | src/github_submodules.rs:119-121 | The concrete case: parent `o/r.git`, URL `./`. |
| Submodules.TargetsAreSlugs | src/github_submodules.rs:162-193 | A URL is filed as a slug with the right owner, never as the parent, or as itself when it is no GitHub URL. |
| Submodules.ResolvesToDenoted | src/github_submodules.rs:115-146 | Resolving and parsing a URL gives exactly the repository it denotes: a GitHub URL its own, `./`, `../` and `../../` the one whose path is left below the parent, its owner or the host. |
| Submodules.RelativeReach | src/github_submodules.rs:123-146 | `../x.git` denotes the sibling `x`, and `../../a/b.git` the repository `a/b`, unless `a` is `..`. |
| Submodules.TargetDenoted | src/github_submodules.rs:157-203 | A URL is filed with the parent's owner, another owner or the foreign URLs if and only if it denotes that repository, or is foreign. |
| Submodules.ClassifyUrls | src/github_submodules.rs:157-203 | The loop's sets and groups hold exactly what the URLs denote: repositories of the parent's owner other than the parent, repositories of others in non-empty groups by owner, and non-empty texts that are neither relative nor URLs of a repository; strictly sorted. |
| Submodules.ClassificationIsUnique | src/github_submodules.rs:157-203 | The result depends only on the set of URLs. |
| Submodules.BucketsAreDisjoint | src/github_submodules.rs:157-203 | The buckets share nothing, and the parent and its owner are not where they do not belong. |
| Submodules.SubmoduleDiscovery.DropPublic | src/github_submodules.rs:52-78 | Every slug is either reported, once and sorted, or kept where it was; emptied groups disappear, and the rest stays valid. |
| SortedStrings.SortedOrders | src/github_submodules.rs:76 | Sorting distinct slugs gives them strictly sorted. |
| SortedStrings.LessExactly | src/github_submodules.rs:157-203 | The order is that of code points at the first difference, with a proper prefix first. |
| Forwards.MergeForwardPorts | src/config.rs:614-627 | The in-place loop yields one entry for each guest port, in first-seen order, with the last value. |
| Forwards.MergeIsUnique | src/config.rs:614-627 | That description determines the result. |
| Forwards.MergeTwice | src/config.rs:614-627 | Merging a merge with more entries is merging all at once. |
| Forwards.MergeTwiceRight | src/devcontainer.rs:1601-1606 | The same when the later entries are merged first. |
| Forwards.DroppingOverridden | src/devcontainer.rs:1028-1045 | Leaving out the devcontainer forwards that the CLI overrides gives every guest port the same forward as keeping them, through both merges. |
| Forwards.SameOrderExactly | src/devcontainer.rs:1028-1045 | The two lists are equal, order included, if and only if, of the ports that the configuration does not place, the last of the devcontainer's are the first of the CLI's and no others are shared. |
| Forwards.OrderMayDiffer | src/devcontainer.rs:1028-1045 | An example in which only the order differs. |
| Devcontainer.Translation.TranslateContainerEnv | src/devcontainer.rs:936-1006 | The variables with valid names that the CLI does not set are forwarded, and a report row stands for each non-empty class. |
| Devcontainer.Translation.TranslateForwardPorts | src/devcontainer.rs:1008-1076 | The entries that parse and are not overridden are forwarded in order; one row for each entry that does not parse. |
| Devcontainer.Translation.TranslateRemoteUser | src/devcontainer.rs:832-919 | The user is chosen exactly at setup, when valid and not set by the CLI; one row says what happened. |
| Devcontainer.Translation.Translate | src/devcontainer.rs:572-659 | At start the remote user is reported as unsupported exactly when it is valid and not the recorded one (`ubuntu` if none is recorded); then, and only then, the environment is reported as skipped and none of it is forwarded. Nothing reaches the session at setup. |
| Devcontainer.DroppingOverriddenEnv | src/guest_env_state.rs:167-178 | Leaving out the variables the CLI sets changes neither the persisted set nor the resulting environment. |
| Devcontainer.EnvVarNameExactly | src/guest_env_state.rs:48-68 | Variable names are letters, digits and underscores, and start with no digit. |
| Devcontainer.GuestUserExactly | src/guest.rs:46-90 | User names are at most 32 lower-case letters, digits, underscores and dashes, start with a letter or an underscore, and are not `root`. |
| Devcontainer.EnvRows | src/devcontainer.rs:936-1006 | A variable is forwarded if and only if its name is valid and the CLI does not set it; each kind of variable that occurs has its row. |
| Devcontainer.PortRows | src/devcontainer.rs:1008-1076 | An entry is forwarded if and only if it parses and the CLI does not name its port; each kind of entry that occurs has its row. |
| EnvForwarding.PrepareEnvForwarding | src/backend.rs:1356-1476 | The sequence of writes fails exactly when a credential that is not suppressed cannot be resolved, and otherwise equals a priority lookup for every name: timezone, absent if suppressed, literal, credential, forwarded host variable; no suppressed name is ever among the variables. |
| EnvForwarding.ForwardsExactly | src/config.rs:34-103 | Forwarding succeeds if and only if every secret in use is plain, or a command that is not blank and prints something that is not. |
| EnvForwarding.ProviderKeysArrive | src/backend.rs:1375-1404 | `ANTHROPIC_API_KEY` and `OPENAI_API_KEY` hold what the configured key stands for, and the host's variable exactly when none is configured. |
| EnvForwarding.TokenArrives | src/backend.rs:1955-2010 | `GITHUB_TOKEN` holds what the mode chooses: nothing when off, the host's non-empty variable, else in mode `auto` the one of `gh`, or the repository's own entry; without one, the host's variable only if a list names it. |
| EnvForwarding.OtherNamesArrive | src/backend.rs:1412-1476 | Any other name: the managed time zone, none of the eight proxy variables in private egress, then a literal, then a host variable that a list names. |
| EnvForwarding.LiteralsAndSuppression | src/backend.rs:1412-1465 | A credential that is suppressed is absent; otherwise a literal of its name wins. |
| EnvForwarding.EnvForward.SetCredentials | src/backend.rs:1375-1411 | The three credentials, or a failure when one cannot be resolved. |
| EnvForwarding.EnvForward.ForwardNames | src/backend.rs:1437-1449 | A forwarded name never replaces an earlier value. |
| EnvForwarding.EnvForward.SetLiterals | src/backend.rs:1451-1465 | A literal replaces any earlier value, unless suppressed. |
| EnvForwarding.AnthropicKeyHasNoInfluence | src/backend.rs:1375-1387 | When suppressed, the configured key, the host variable and a literal of that name influence neither the guest's environment nor success, as long as no command that is run reads the variable. |
| EnvForwarding.OpenAiKeyHasNoInfluence | src/backend.rs:1389-1404 | The same for the OpenAI key, which account login also suppresses. |
| EnvForwarding.OnlyNamedHostVariables | src/backend.rs:1437-1449 | A host variable that is no credential influences the guest only if a forwarding list names it, or a command that is run reads it. |
| EnvForwarding.CommandsReadHostVariables | src/config.rs:34-103 | A `cmd:` secret that prints a variable which nothing names gives the guest its value. |
| ClaudeSettings.MergeManaged | src/backend.rs:2145-2183 | Succeeds exactly on usable bodies, and then changes only the two permission keys and the environment block. |
| ClaudeSettings.MergeIsUnique | src/backend.rs:2145-2183 | That description determines the result as a map. |
| ClaudeSettings.MergeAbsorbs | src/backend.rs:2145-2183 | A later merge absorbs an earlier one: only the last environment block matters. |
| ClaudeSettings.WriteManagedSettings | src/backend.rs:2196-2242 | A boot merges into a file it can read and use, and replaces any other by the managed defaults. |
| ClaudeSettings.KeepsUnmanaged | src/backend.rs:2196-2242 | A successful boot keeps the unmanaged keys if and only if the file could be read and used, or had none. |
| ClaudeSettings.FailedReadLosesPlugins | src/backend.rs:2196-2242 | The concrete case: a failed read of a usable file loses its list of plugins. |
| ClaudeSettings.RunIsOneMerge | src/backend.rs:2196-2242 | Any number of boots whose reads succeed amount to one merge with the last environment. |
| ClaudeSettings.ManagedAfterRun | src/backend.rs:2196-2242 | After any successful write, whatever failed before or since, the managed keys are coop's. |

## Left out

- Commands and foreign effects (SSH, scp, curl, git, `gh`, sudo, network devices, VM backends): each is a success or failure, or a value, given as a parameter.
- Parsing and printing of TOML and JSON: documents are trees, writing and reading one back is the identity, and comments, key order and the error for a root that is not a table (which a parsed file never has) are not modelled.
- Integer widths: indices are at most 252 and port numbers are only compared, so no width matters; bytes of the encoder are `bv8`, permission bits `bv16`.
- Jsonc.RescanText: re-encodes characters below 256, which are all that the scanner can emit.
- FeatureSnippet.ComposeInstallSnippet: reading back starts behind the opening lines, of which the `echo` line (src/devcontainer_oci.rs:436-438) is given as text only; the reader takes the first `<<` for the operator and covers single-quoted delimiters.
- FeatureSnippet.QuotedIsOneWord: the reader covers unquoted, single-quoted and backslash-escaped characters, and gives up on expansions and double quotes.
- ConfigLock.NextInv: other programs do not edit, delete or chmod the file or its lock file; `flock` is exclusive; the uniqueness of temporary names is not needed because the lock is held while they exist.
- ConfigLock.EditsAreSequential: a process that dies leaves its temporary file behind, as the code does; nothing is said of removing it.
- TokenExposure.ExposedExactly: a temporary file counts as holding a token once its write is complete; what a reader sees of it in the middle of the write is not modelled.
- Registry.InstancesDir.AllocateInstance: the directory lock around listing and saving makes an allocation one step; directories change by allocation and removal only.
- CodexRuns.BlockOverRuns: assumes that the host's own configuration does not define the provider `coop_local`, that guest edits do not add it, and that other commands do not clear its flag, as `coop model` does not.
- CodexRuns.KeyOverRuns: assumes that guest edits neither add nor remove the credential store key, that other commands keep its flag, and that copy and save are atomic; it assumes nothing about the host's configuration.
- CodexRuns.RefreshedTables: a file torn by a copy that broke off counts as one that does not parse, so as holding no tables; that a truncated file can still parse and keep some is not modelled.
- CodexRuns.TableOverRuns: a guest whose Codex edits its own tables between boots is covered for the tables it leaves alone; a plugin installation is taken to write those tables only.
- CodexRuns.BootKeepsKey: keyring behaviour when a copy fails half-way is outside its assumption; `CodexRuns.KeyAfterBoot` has no such assumption.
- GitModules.ExtractExactly: the file holds the `path` and `url` keys of each section, in the form of git-config(1) that puts a value with a carriage return between quotes; sections with other keys or comments are covered by GitModules.ExtractUrls only.
- Submodules.SubmoduleDiscovery.DropPublic: the predicate is a pure function, so its answers do not change while the lists are filtered; groups are visited in any order, since the result is sorted.
- Devcontainer.Translation.Translate: only the environment, port forwards and remote user; rows of the report hold a key and a status, not their texts.
- EnvForwarding.PrepareEnvForwarding: a secret command is a function of its text and the environment, so two credentials with the same command get the same value; the environment does not change meanwhile.
- EnvForwarding.OnlyNamedHostVariables: a secret command or `gh` that reads the variable is excluded by its premise, which holds of every configuration without `cmd:` secrets and without the mode `auto`.
- ClaudeSettings.WriteManagedSettings: the write is atomic, as its rename makes it; what the guest writes between boots is not modelled.
- Host-requirement sizes, mounts, features, the PAT wizard's prompts and probes, status reports: no state or algebra beyond what is modelled here.
- The simple validating newtypes are predicates where something depends on them.
