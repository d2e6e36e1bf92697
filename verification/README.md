# Verified model of Bellhop's stateful cores

Bellhop manages Proxmox hosts and guests from a web UI, a CLI and an MCP server. Most of it is SSH
and REST plumbing, but a number of self-contained pieces carry state, interleaving or string
arithmetic with exact obligations. This project models those pieces in Dafny 4.11 and proves what
the repository's code, comments and tests promise of them. Where the code does not do what is
promised, the model follows the code, a lemma gives the failing input, and the exact condition
under which the promise does hold is proved.

`dafny verify dfyconfig.toml` checks everything. Nothing here runs the original program.

## How it is laid out

Each module states what the code does as functions on values, gives the code's own form as methods
(classes with fields, loops with invariants) whose contracts tie each result and new state to those
functions, and then proves theorems about the functions over every input, run or reachable state.

| module | what it models |
|---|---|
| `Elicitation`, `WaitForJob` | the prompt-dialog protocol: the tracker shared by all `wait_for_job` calls, and any number of calls racing over it |
| `InventoryModel` | the inventory's entries, the comparators and the file order |
| `InventoryValidation` | `validateInventory`: what is reported, and when nothing is |
| `InventoryRules` | what is a problem, on the inventory's own fields, and that exactly those are reported |
| `InventoryTables`, `InventoryStore` | the tables, the inserts of a save with their constraints, loading and saving |
| `InventoryOpen` | opening the database: the migrations every load and save runs first |
| `InventoryReload` | save followed by load, with what each open migrates |
| `Migrations` | the group ladder, web permissions, and the two migrations that write group names |
| `ConsoleCapture` | the console slots, the two wrappers and the captures |
| `ShellText` | shell quoting and command wrapping, against a lexer for the shell's own reading |
| `ReleaseCheck` | the tokenizer for a script's `check_for_gh_release` call, and the parsed call |
| `GuestVpn` | edits of one field of a `net0`/`ipconfig0` value |
| `ConfigSnapshot` | the settings accessor and its two-second snapshot |
| `ConcurrentMap` | the bounded-concurrency mapper as interleaved worker steps, and the run that saves |
| `AppSource` | where an app's script comes from, and the per-run resolver |
| `ResolverRuns` | the same resolver under calls that overlap, as steps between awaits |
| `Mids` | machine IDs: to a VMID and an address, and those in use |
| `SyncInventory` | reconciling the recorded guests with what the hosts list |
| `Backfill` | attributing guests without a creator to jobs |
| `LanBypass` | the gateway's routing rule, from the printed table to convergence |
| `KillSwitch` | the gateway's forwarding rules, applied check-first, over any number of failing runs |
| `Gateway` | the VPN gateway's persisted state over startups, requests and self-heals |
| `Wrappers`, `Text`, `Ordering` | options and results, string functions, stable sorting and list lemmas |

## Where the code and its promises part

- `release` writes `handedOff` and `cancelling` unconditionally, so when a job that is still paused prompts again while a dialog about its older prompt is open, declining that dialog makes the newer, already handed-off prompt askable again (`StaleReleaseReopensAHandedOffPrompt`). A settled prompt is asked again exactly when a release of an older prompt came later, with the same outcome, and the current prompt was not released again (`AskedAgainExactlyWhen`). It never is if no prompt comes while such a dialog is open (`SettledPromptStaysSettled`).
- The header of `console-capture.ts` says a saved wrapper assigned back can never recurse. If each slot holds the other's wrapper when a capture starts, it does (`SwappedWrappersRecurse`); an outside line arrives exactly when the fallbacks are not crossed in this way (`OutsideLineArrivesExactlyWhen`).
- The tokenizer never returns on a script where a word could start at whitespace other than space, tab and newline, such as a call followed by a CRLF (`RoundTrip`). It returns exactly when, read left to right up to the end of the call, no such whitespace stands outside quotes where a word could start (`EndsExactlyWhen`).
- `compareIp` answers 1 both ways for an absent and a blank address, and NaN for octets that are not numbers, so the file order is not always canonical (`AbsentAndBlankTie`). It is exactly when every two guests are comparable (`GuestOrderIsCanonicalExactlyWhen`); that it is not otherwise is shown for the stable insertion sort of the model, since JavaScript leaves the order open for a comparator that contradicts itself.
- `validateInventory` does not ask for distinct names or distinct (host, vmid) pairs, but the tables do: a valid inventory with two guests of one name is refused by the save (`SameNameCannotBeSaved`), and the save succeeds exactly when names and pairs are distinct (`ValidatedSaveSucceedsExactlyWhen`).
- The schema says that no certificate resolver name is reserved any more, but every open still takes one called 'none' for the legacy value and deletes it (`ResolverNoneIsLost`). What is saved comes back as saved exactly when the resolver has another name and no entry's group is a previous default rung that the ladder has dropped (`ComesBackAsSavedExactlyWhen`).
- A guest listed under one type while its host did not answer for its recorded type comes out of a sync twice (`ChangedTypeComesOutTwice`); when that happens is `ResultKeysAreDistinctExactlyWhen`.
- Appending two absent keys to a `net0` value does not commute (`TwoAppendsDoNotCommute`); with one of them present it does (`EditsCommuteExactlyWhen`).
- The kill switch turns forwarding on before it sets the policy, so a failure in between leaves packets forwarded by default until some run gets past it (`RunsForwardByDefaultExactlyWhen`).
- A self-heal leaves the reported DNS server as it was (`DnsAfterSelfHealMatchesExactlyWhen`) and the last health check as failed after a successful reconnect (`HealthIs`).

## Model

| member | source | states |
|---|---|---|
| Elicitation.PromptTracker.OnPrompt | src/mcp/elicitation.ts:129-133 | a prompt event starts the job's next generation and touches nothing else |
| Elicitation.PromptTracker.Claim | src/mcp/elicitation.ts:135-142 | which of ask, busy, handed off a claim gives, and that only an ask marks the generation as being asked |
| Elicitation.PromptTracker.Release | src/mcp/elicitation.ts:144-149 | a release frees only its own generation, records the outcome whatever the generation, and notifies the job |
| WaitForJob.HolderAfter | src/mcp/wait-for-job.ts:122-163 | in every step, only opening a dialog makes a holder of a claim and only that call's release ends one |
| WaitForJob.InvariantHolds | src/mcp/wait-for-job.ts:66-183 | over every interleaving: at most one holder per (job, generation), asking names a holder, and no sleeping call would do anything but sleep on the present state |
| WaitForJob.AskingIsTheOneOpenDialog | src/mcp/wait-for-job.ts:122-163 | `asking` equals the current generation exactly while one call sits between its claim and its release, and no generation ever has two |
| WaitForJob.EveryExitReleasesTheClaim | src/mcp/wait-for-job.ts:126-159 | after answer, decline, cancellation, withdrawal, timeout or throw, the claim is gone once the call's release has run |
| WaitForJob.SettledPromptIsHandedOffExactlyWhen | src/mcp/wait-for-job.ts:185-235 | which replies leave a prompt handed off or under cancellation, and that no others do |
| WaitForJob.TurnExactlyWhen | src/mcp/wait-for-job.ts:115-175 | over every run: a turn returns finished, prompt pending or still running, opens a dialog or sleeps, each if and only if status, abort, deadline, ability and the releases so far say so |
| WaitForJob.DialogLeadsTo | src/mcp/wait-for-job.ts:126-163 | after a dialog's reply and its release the call returns the prompt, throws or loops, each exactly for the replies that say so |
| WaitForJob.DialogAfter | src/mcp/wait-for-job.ts:80-92 | an open dialog is withdrawn exactly by a status that is no longer waiting or by the call's abort |
| WaitForJob.CallAfter | src/mcp/wait-for-job.ts:78-101 | a call is aborted exactly if started so or aborted since; its job, deadline and ability never change |
| WaitForJob.MayHappen | src/mcp/wait-for-job.ts:78-101 | which steps a call may take at each point: an abort until it returns, its timer while asleep, a reply while it asks |
| WaitForJob.NoLostWakeUp | src/mcp/wait-for-job.ts:78-101 | a sleeping call has seen no status change, prompt, release or abort since the turn it fell asleep with, its job is not terminal and its state still says sleep |
| WaitForJob.OthersSleepOn | src/mcp/wait-for-job.ts:78-101 | a sleeping call wakes only for what concerns it, or for its timer |
| WaitForJob.SleeperOnAPromptHasAWaker | src/mcp/wait-for-job.ts:160-163 | a call asleep on a paused job has an open dialog or a cancellation under way that will wake it |
| WaitForJob.TrackerIsTheHistory | src/mcp/elicitation.ts:122-150 | the tracker's maps are the number of prompts and the last releases of the run |
| WaitForJob.DialogOpensExactlyWhen | src/mcp/wait-for-job.ts:115-163 | a turn opens a dialog for a prompt if and only if it is not settled, not being asked, the call lives and can elicit |
| WaitForJob.AskedAgainExactlyWhen | src/mcp/elicitation.ts:113-150 | a handed-off or cancelling prompt is asked again by a call that could ask if and only if an older prompt was released later with the same outcome, the current one not again, and the other outcome does not stand for it |
| WaitForJob.StaleReleaseReopensAHandedOffPrompt | src/mcp/elicitation.ts:144-149 | a run in which that happens, with every dialog open when its reply comes |
| WaitForJob.SettledPromptStaysSettled | src/mcp/wait-for-job.ts:122-163 | if no reply reaches a withdrawn dialog and no prompt comes while another dialog of the job may still settle, a handed-off or cancelling prompt stays so and is never asked again |
| InventoryModel.IpsAreConsistentExactlyWhen | src/lib/inventory.ts:1393-1404 | `compareIp` changes sign with its arguments exactly on comparable addresses |
| InventoryModel.GuestsChain | src/lib/inventory.ts:1412-1418 | on comparable guests the comparator's answers fit together as those of a total order do |
| InventoryModel.FiledGuestsStandInOrder | src/lib/inventory.ts:1390-1451 | the filed guests are the guests, by host, containers before VMs, address octet by octet with missing ones last, and name |
| InventoryModel.FiledHostsAreSorted | src/lib/inventory.ts:1435-1441 | the filed hosts are in name order |
| InventoryModel.GuestOrderIsCanonicalExactlyWhen | src/lib/inventory.ts:1412-1451 | guests with distinct names sort alike from every permutation if and only if every two are comparable |
| InventoryModel.FileOrderIsCanonical | src/lib/inventory.ts:1435-1451 | two listings of the same inventory, in any order at every level, are filed identically |
| InventoryModel.FileOrderTwice | src/lib/inventory.ts:1435-1451 | filing twice is filing once |
| InventoryValidation.Group | src/lib/inventory.ts:925-935 | the grouping loop collects each claimed key's owners, keys in order of their first claim |
| InventoryValidation.Validate | src/lib/inventory.ts:831-950 | the problems reported, in order and with their names, and that there are none exactly for inventories that keep the rules |
| InventoryValidation.NoProblemsExactlyWhen | src/lib/inventory.ts:831-950 | no problem is reported if and only if the rules, stated without the code's grouping and counting, hold |
| InventoryRules.ReportedExactlyWhen | src/lib/inventory.ts:831-950 | each kind of problem is reported, with its names, if and only if the fields of hosts, guests and sites make it one |
| InventoryRules.ValidExactlyWhen | src/lib/inventory.ts:831-950 | an inventory is valid if and only if its fields make no problem |
| InventoryRules.ReportIsRanked | src/lib/inventory.ts:831-950 | the problems come kind after kind, in the code's order |
| InventoryValidation.RulesIgnoreOrder | src/lib/inventory.ts:831-950 | the rules do not depend on the order of the entries |
| InventoryTables.FitsExactlyWhen | src/lib/inventory.ts:504-556 | a row is refused exactly when the keys, the unique pair or the foreign key would be broken |
| InventoryTables.FlagColumns | src/lib/inventory.ts:1500-1560 | a flag's column is 1 or nothing, or keeps false apart as 0 |
| InventoryTables.ProxyColumns | src/lib/inventory.ts:1500-1560 | the proxy's column is 1 or 0, and an app's source the word for custom or nothing |
| InventoryTables.RunExactlyWhen | src/lib/inventory.ts:1461-1573 | a transaction that fills hosts before guests succeeds if and only if its final tables are consistent, and then leaves exactly those |
| InventoryTables.ScriptFillsTheTables | src/lib/inventory.ts:1492-1573 | the interleaved inserts of a save amount to one row per entry, the subdomains in authored order and the proxy row |
| InventoryStore.Database.constructor | src/lib/inventory.ts:504-556 | a new database holds empty tables and no web permissions |
| InventoryStore.Database.Open | src/lib/inventory.ts:784-828 | the settings' migrations, then the renames pair by pair if an old name is held, or a throw that leaves the settings migrated |
| InventoryStore.Database.Load | src/lib/inventory.ts:1213-1341 | what a load returns or throws for any database, what its open leaves in it, and that what it returns keeps schema and rules |
| InventoryStore.LoadedExactlyWhen | src/lib/inventory.ts:1213-1341 | which of its three errors a load throws, in that order, and that it returns what it read exactly if schema and rules hold |
| InventoryStore.LoadedHostsAreNormal | src/lib/inventory.ts:1237-1260 | a loaded host's flags are true or absent, its subdomains absent or not empty, whatever the tables hold |
| InventoryStore.LoadedGuestsAreNormal | src/lib/inventory.ts:1261-1297 | the same of a loaded guest, and nothing of its creator is blank |
| InventoryStore.SchemaRanges | src/lib/inventory.ts:1325-1332 | the ranges the schema allows: ports, masks and VMIDs, and names that are not blank |
| InventoryStore.AllMatchExactlyWhen | src/lib/inventory.ts:1325-1332 | a list fits its format if and only if every element does |
| InventoryStore.SqlOrderIs | src/lib/inventory.ts:1219 | guests are read by host, then by name |
| InventoryStore.Database.Save | src/lib/inventory.ts:1453-1583 | success exactly when validated, opened and consistent, the whole new database, nothing touched when refused, and no more than the open's migrations on a failure |
| InventoryStore.WriteSettings | src/lib/inventory.ts:1477-1485 | the settings loop writes or deletes every setting's row and leaves other rows |
| InventoryStore.Fill | src/lib/inventory.ts:1500-1573 | the three insert loops are the insert script, up to the first violation |
| InventoryStore.ValidatedSaveSucceedsExactlyWhen | src/lib/inventory.ts:1453-1583 | for a valid inventory the save succeeds if and only if names and (host, vmid) pairs are distinct; validation covers the subdomain key, the proxy row and the foreign key |
| InventoryStore.OwnersFindTheirSubdomains | src/lib/inventory.ts:1229-1232 | every owner gets back exactly its subdomains, in authored order |
| InventoryOpen.OpeningIsTheMigration | src/lib/inventory.ts:741-828 | opening a database is the settings' migrations and, on its group columns and permissions, the rename migration of `Migrations` |
| InventoryOpen.OpeningTwiceIsOpeningOnce | src/lib/inventory.ts:741-828 | with the environment fixed, the next open changes nothing |
| InventoryOpen.ThrowsExactlyWhen | src/lib/inventory.ts:564-569 | opening throws if and only if an old group name is stored and the stored ladder it would be judged by is not valid |
| InventoryOpen.LadderIs | src/lib/inventory.ts:564-569 | the ladder is the environment's, else the stored one, else the default |
| InventoryOpen.WebAuthRow | src/lib/inventory.ts:660-672 | what the sign-in mode becomes, and that no other row changes |
| InventoryOpen.TlsRow | src/lib/proxy/legacy-tls.ts:47-93 | which legacy TLS value becomes which source, which rows go, and that no other row changes |
| InventoryOpen.RenamesAtOnce | src/lib/inventory.ts:755-764 | the updates pair after pair are one renaming of every group |
| InventoryReload.SaveThenLoad | src/lib/inventory.ts:1213-1341 | loading after a save, both with their opens, returns the inventory in canonical form and up to date: groups under their current names, a resolver 'none' converted; for every well-formed, valid inventory with distinct keys and comparable guests |
| InventoryReload.ComesBackAsSavedExactlyWhen | src/lib/inventory.ts:1213-1341 | it returns exactly what was saved, in canonical form, if and only if no entry's group is an old name the ladder has dropped for its successor and the resolver is not 'none' |
| InventoryReload.CurrentNamesAre | src/lib/authentik-config.ts:67-71 | the three previous default groups by name, and what the ladder makes of each |
| InventoryReload.OldGroupComesBackRenamed | src/lib/inventory.ts:741-782 | a site under `bellhop-users` comes back under `bellhop-admin-family` with the default ladder |
| InventoryReload.ResolverNoneIsLost | src/lib/inventory.ts:386-388 | a certificate resolver called 'none' does not come back, though the schema takes it for an ordinary name |
| InventoryStore.CanonicalIsFileOrderExactlyWhen | src/lib/inventory.ts:1435-1451 | canonical form is the file order with sites by name if and only if flags are true or absent and lists non-empty or absent |
| InventoryStore.FreshSettingsAreNeverReverted | src/lib/inventory.ts:1370-1388 | saving a stale copy through `withFreshSettings` leaves every setting as the open database has it; saving the copy itself does so only where it holds the present value |
| Migrations.ParseGroupLadder | src/lib/authentik-config.ts:93-104 | the loop yields the trimmed, non-blank names at their first places |
| Migrations.DistinctIsALadder | src/lib/authentik-config.ts:93-104 | a parsed ladder has trimmed, non-blank, distinct rungs |
| Migrations.LadderRoundTrip | src/lib/authentik-config.ts:93-104 | a ladder joined by commas is parsed back as it was |
| Migrations.DistinctAre | src/lib/authentik-config.ts:93-104 | the rungs are the names given, trimmed, the blank ones apart |
| Text.TrimmedExactly | src/lib/authentik-config.ts:97 | trimming takes nothing but blanks, off the two ends |
| Migrations.TopRungIsNarrowest | src/lib/authentik-config.ts:175-179 | the top rung's audience is inside every rung's and equals only its own |
| Migrations.IsAllowed | src/lib/permissions.ts:143-158 | the early-exit loop is the intersection over the caller's groups |
| Migrations.GroupsIntersect | src/lib/permissions.ts:103-158 | more groups never widen access |
| Migrations.CreatorLiftOpensExactly | src/lib/permissions.ts:112-158 | being the creator opens exactly the guests that only allow-lists close |
| Migrations.ReusedNameIsNotTheCreator | src/lib/permissions.ts:113-126 | with both uids known, only the uid decides, and never under impersonation |
| Migrations.IsGuestCreatorExactlyWhen | src/lib/permissions.ts:121-126 | never under impersonation; by uid where both sides have one, else by a non-empty equal username |
| Migrations.Store.Open | src/lib/inventory.ts:819-828 | opening runs the boolean migration on every table and then the renames |
| Migrations.MigrateBooleanTwice | src/lib/inventory.ts:586-605 | the boolean migration does nothing the second time, whatever the ladder is by then |
| Migrations.GatedEntriesFailClosed | src/lib/inventory.ts:572-605 | a gated entry without a group gets the rung whose audience is inside every rung's, and no other entry changes |
| Migrations.MigrateRungNamesTwice | src/lib/inventory.ts:741-782 | with the ladder fixed, the rename migration does nothing on the next open |
| Migrations.MigrationsCommute | src/lib/inventory.ts:819-828 | the two migrations give the same database in either order |
| Migrations.MigrationsNeverWiden | src/lib/inventory.ts:741-782 | whatever a caller may reach after the migrations, the caller could reach before |
| Migrations.RunRestrictsAlike | src/lib/inventory.ts:741-782 | after a whole run every picked pair's new name without a rule is restricted exactly as its old name was, and every name with a rule or that is no target as before |
| Migrations.RenamedCallerReachesTheSame | src/lib/inventory.ts:721-740 | a caller all of whose picked groups are renamed reaches exactly the same after the run, if no new name had a rule and no rule comes to a group the caller had without its old name |
| Migrations.PreviousRenamesAreTidy | src/lib/authentik-config.ts:60-71 | no new rung name is an old one, and no two shipped pairs share a name |
| ConsoleCapture.Capturer.Install | src/web/console-capture.ts:62-73 | installing takes a foreign function as fallback and puts the wrapper in its place, slot by slot |
| ConsoleCapture.Capturer.Uninstall | src/web/console-capture.ts:75-81 | only the last uninstall restores, and only a slot that still holds its wrapper |
| ConsoleCapture.Capturer.StartCapture | src/web/console-capture.ts:83-90 | a capture starts with an empty active sink and installed wrappers |
| ConsoleCapture.Capturer.FinishCapture | src/web/console-capture.ts:90-96 | a capture ends with its own lines, its sink inactive and the wrappers uninstalled |
| ConsoleCapture.Capturer.WriteLine | src/web/console-capture.ts:46-57 | a line goes to the sink or the foreign function the chain of wrappers leads to, if it leads anywhere |
| ConsoleCapture.CounterCountsActiveCaptures | src/web/console-capture.ts:62-96 | the counter is the number of active captures in any nesting or overlap |
| ConsoleCapture.ActiveUntilFinished | src/web/console-capture.ts:83-96 | there is a capture for every start, and it is active exactly until its finish |
| ConsoleCapture.RestoredWhenAllCapturesEnded | src/web/console-capture.ts:75-81 | with only foreign assignments from outside, each slot ends with the last foreign function assigned to it |
| ConsoleCapture.LastAssignedIsKept | src/web/console-capture.ts:62-81 | at every moment that function is in the slot or is its fallback |
| ConsoleCapture.NeverItsOwnFallback | src/web/console-capture.ts:26-28 | no wrapper is ever its own fallback |
| ConsoleCapture.OutsideLineArrivesExactlyWhen | src/web/console-capture.ts:46-57 | a line logged outside captures reaches a foreign function if and only if its slot holds one or the fallbacks are not crossed, and then within two hops |
| ConsoleCapture.CrossingNeedsBothWrappersSwapped | src/web/console-capture.ts:62-73 | the fallbacks cross only after each wrapper was assigned to the other slot |
| ConsoleCapture.SwappedWrappersRecurse | src/web/console-capture.ts:26-28 | a run that contradicts the header: an outside line recurses |
| ConsoleCapture.SinkHoldsItsOwnLines | src/web/console-capture.ts:5-9 | a sink holds exactly the lines its own capture logged through an installed wrapper while active, in order |
| ConsoleCapture.LinesAreConserved | src/web/console-capture.ts:46-57 | lines held by captures and lines printed are together exactly as many as were logged: none is lost or doubled |
| ConsoleCapture.PrintedAreTheUncapturedLines | src/web/console-capture.ts:41-60 | what is printed is exactly the lines no active capture takes, in order, each by the last foreign function given to its slot by then |
| ConsoleCapture.CapturesStayInstalled | src/web/console-capture.ts:62-81 | while a capture runs and nobody assigns the slots, both hold their wrappers |
| ShellText.ShellQuoteIsOneWord | src/lib/ssh-client.ts:134-136 | the shell reads a quoted value as one word, that value, for every string |
| ShellText.LineIsItsPieces | src/lib/targets.ts:58-62 | a line of plain words, quoted values and operators is read as exactly those |
| ShellText.LxcCommandDeliversTheCommand | src/lib/targets.ts:54-60 | the argument of `sh -c` in a container is the command unchanged |
| ShellText.VmCommandDeliversTheCommand | src/lib/targets.ts:61-63 | the same for a VM, with the timeout option |
| ShellText.KeysSurviveTwoShells | src/lib/authorized-keys.ts:55-61 | read by two shells in turn, the key text reaches `printf` as one unchanged word |
| ReleaseCheck.FindClosingQuote | src/lib/app-update-check.ts:124-135 | the index of the closing quote, only double quotes being escapable |
| ReleaseCheck.TokenizeCallArgs | src/lib/app-update-check.ts:85-115 | the loop reads exactly the specified arguments, and says whether it ends or repeats a turn forever |
| ReleaseCheck.NoProgressExactlyAtStrayBlanks | src/lib/app-update-check.ts:106-112 | a turn makes no progress if and only if it starts at whitespace other than space, tab and newline |
| ReleaseCheck.EndsExactlyWhen | src/lib/app-update-check.ts:85-115 | the loop ends if and only if the script, read left to right up to the end of the call, has no whitespace other than space, tab and newline outside quotes where a word could start |
| ReleaseCheck.EndsWithoutStrayBlanks | src/lib/app-update-check.ts:89-113 | on a script whose only whitespace is space, tab and newline it always ends |
| ReleaseCheck.RenderedWordsAreReadBack | src/lib/app-update-check.ts:78-115 | any list of double-quoted, single-quoted or bare words is read back as exactly that list |
| ReleaseCheck.RoundTrip | src/lib/app-update-check.ts:78-115 | before `;` the words come back and the loop ends; before a carriage return it does not |
| ReleaseCheck.RoundTripBeforeAnyEnd | src/lib/app-update-check.ts:78-115 | the words come back before anything that ends the call |
| ReleaseCheck.CallEndsExactlyWhen | src/lib/app-update-check.ts:91-99 | a call ends at the script's end, a newline, `;`, `&&`, `||`, a comment, or the word `then` |
| ReleaseCheck.WordCharsAre | src/lib/app-update-check.ts:117-119 | letters, digits and the underscore, one by one |
| ReleaseCheck.ParseReleaseCheck | src/lib/app-update-check.ts:36-76 | the parsed call is that of the arguments after the first marker, or the reason there is none |
| ReleaseCheck.ParsedExactlyWhen | src/lib/app-update-check.ts:36-76 | what a call is parsed to, and each reason for failing, the first that holds |
| ReleaseCheck.NameExactlyWhen | src/lib/app-update-check.ts:28 | a name is one or more letters, digits, dots, underscores, hyphens and spaces |
| ReleaseCheck.RepoExactlyWhen | src/lib/app-update-check.ts:29 | a repository is an owner and a name with one slash between |
| ReleaseCheck.CompactOfOne | src/lib/app-update-check.ts:72 | capitals become small, spaces go, every other character stays; a text is compacted character by character (`CompactOfBoth`) |
| ReleaseCheck.VariableExactlyWhen | src/lib/app-update-check.ts:31-34 | a reference names its variable with both braces, neither, or one |
| ReleaseCheck.PinExactlyWhen | src/lib/app-update-check.ts:142-161 | a pin is itself if literal, else what the one assignment of the variable it names stands for |
| ReleaseCheck.ParsedCallIsLiteral | src/lib/app-update-check.ts:17-34 | name, repository, pin and prefix of a parsed call hold no `$` |
| ReleaseCheck.LiteralCallIsReadExactly | src/lib/app-update-check.ts:36-76 | a call written with literal words is parsed to exactly those words |
| ReleaseCheck.DefaultFormResolves | src/lib/app-update-check.ts:142-161 | a variable assigned once in default form resolves to its default, with or without braces |
| ReleaseCheck.IdentifierExactlyWhen | src/lib/app-update-check.ts:34 | a variable's name is of word characters and starts with no digit |
| ReleaseCheck.RepoCharsAre | src/lib/app-update-check.ts:29 | the characters of an owner or a repository's name |
| GuestVpn.SetKeyEditsOneField | src/lib/guest-vpn.ts:24-30 | the text replacement is the replacement of the first field of that key, or one appended, for all text |
| GuestVpn.FieldsAfterSet | src/lib/guest-vpn.ts:18-30 | every other field is byte for byte in place |
| GuestVpn.KeysDoNotOverlap | src/lib/guest-vpn.ts:21-23 | a field of one key never matches another key, as `gw` and `gw6` |
| GuestVpn.GetReadsBackExactlyCommaFreeValues | src/lib/guest-vpn.ts:24-30 | what was set is read back if and only if it holds no comma |
| GuestVpn.OtherKeysUnchanged | src/lib/guest-vpn.ts:32-46 | every other key reads as before |
| GuestVpn.SecondSetWins | src/lib/guest-vpn.ts:24-30 | the second of two settings of a key wins |
| GuestVpn.EditsCommuteExactlyWhen | src/lib/guest-vpn.ts:24-64 | edits of two keys commute if and only if one of them is present |
| GuestVpn.GatewayAndAddressEdits | src/lib/guest-vpn.ts:32-46 | a gateway and an address edit of one `net0` are both read back, no other field changes, and their order matters only if both append |
| GuestVpn.CloudInitAddressEdit | src/lib/guest-vpn.ts:59-64 | an address edit of `ipconfig0` is read back and touches no other field |
| ConfigSnapshot.Accessor.StoredValues | src/lib/config.ts:145-157 | what is served and what is kept, for any snapshot and clock |
| ConfigSnapshot.Accessor.ConfigValue | src/lib/config.ts:83-106 | a set environment variable wins whatever is stored; else a stored value counts if valid and throws if not; else, or without a registered store, unset |
| ConfigSnapshot.Accessor.UseConfigStore | src/lib/config.ts:62-65 | registering a store drops every snapshot |
| ConfigSnapshot.Accessor.StoreSecret | src/lib/config.ts:115-130 | an invalid value changes nothing; a valid one is written and every snapshot dropped |
| ConfigSnapshot.Accessor.RemoveSecret | src/lib/config.ts:132-143 | a missing file is left alone; otherwise the row goes and every snapshot is dropped |
| ConfigSnapshot.SnapshotsAreTrue | src/lib/config.ts:79-81 | every snapshot is what its own path's file held when the clock read its time |
| ConfigSnapshot.ServedIsRecent | src/lib/config.ts:52-57 | whatever is served was in that path's database at a moment whose clock reading is not ahead and less than 2000 ms ago, so a clock that went back is never trusted |
| ConfigSnapshot.ServedIsRecentOnAMonotoneClock | src/lib/config.ts:52-57 | with a monotone clock, less than 2000 ms have passed since that moment |
| ConfigSnapshot.ClockBehindEveryReadForcesARead | src/lib/config.ts:148-153 | with the clock behind every reading at which the path was read, the file is read again |
| ConfigSnapshot.OwnWritesAreSeen | src/lib/config.ts:52-57 | after any write of this process, clearing included, and until another writes, every read serves the file as it is |
| ConfigSnapshot.SecretIsReadBack | src/lib/config.ts:115-130 | a secret written is the secret read next |
| ConfigSnapshot.SettingIsReadBack | src/lib/config.ts:166-182 | a setting saved is the setting read next, and one not saved reads as unset |
| ConfigSnapshot.OnlySettingsAreServed | src/lib/config.ts:166-182 | nothing but settings and secrets is ever served |
| ConfigSnapshot.ReadIsServedAgain | src/lib/config.ts:145-157 | a read is served again without a look at the file for 2000 ms, whatever other processes write |
| ConfigSnapshot.RegisteredStoreIsRead | src/lib/config.ts:62-65 | after registering a store the next read looks at the file |
| ConfigSnapshot.WrittenElsewhereIsTheFile | src/lib/config.ts:159-182 | what another process writes is the file then, and no other file changes |
| ConfigSnapshot.ClearedSecretIsGoneExactlyWhen | src/lib/config.ts:132-143 | right after clearing, a secret is not served if and only if there was a file to clear it in or no live snapshot held it |
| ConfigSnapshot.ClearedSecretStaysGone | src/lib/config.ts:132-143 | cleared in an existing file, a secret is not served again until the file is written from outside or the secret set again |
| ConcurrentMap.Pool.RunToAwait | src/commands/maintenance/check-app-updates.ts:279-284 | a worker at its loop head takes the next index and calls, or ends |
| ConcurrentMap.Pool.Resume | src/commands/maintenance/check-app-updates.ts:279-284 | a settled call stores its row under its own index and goes on, or ends the worker |
| ConcurrentMap.Pool.Conclude | src/commands/maintenance/check-app-updates.ts:353-358 | the results are saved only if the signal has not fired by then |
| ConcurrentMap.InvariantHolds | src/commands/maintenance/check-app-updates.ts:276-287 | in every interleaving: indices called once in order, in flight distinct, every index taken is in flight or has its own call's row |
| ConcurrentMap.EachIndexIsCalledOnce | src/commands/maintenance/check-app-updates.ts:273-287 | each index is called at most once, in order, with at most `limit` workers |
| ConcurrentMap.NormalCompletionIsTheMap | src/commands/maintenance/check-app-updates.ts:273-287 | when all workers are done every item has exactly its own result |
| ConcurrentMap.WorkersMakeProgress | src/commands/maintenance/check-app-updates.ts:279-284 | a measure decreases with every worker step |
| ConcurrentMap.NeverStuck | src/commands/maintenance/check-app-updates.ts:276-287 | unless all workers have ended, one has a step |
| ConcurrentMap.WorkersAre | src/commands/maintenance/check-app-updates.ts:285-286 | there are as many workers as the limit, or as items if those are fewer |
| ConcurrentMap.UnfiredRunsComplete | src/commands/maintenance/check-app-updates.ts:276-287 | without a signal, and with calls that answer, every worker ends done |
| ConcurrentMap.FinishSavesExactlyWhen | src/commands/maintenance/check-app-updates.ts:353-358 | finishing saves the results if and only if the signal has not fired |
| ConcurrentMap.SavedRowsAreUnaborted | src/commands/maintenance/check-app-updates.ts:332-358 | a run that saves had an unfired signal up to its save, and saves one row per item, none from an aborted call |
| AppSource.SlugOfExactlyWhen | src/lib/app-source.ts:199-204 | a path names an app if and only if it is its container or install script |
| AppSource.ChangedSlugs | src/lib/app-source.ts:206-220 | the apps a branch changes are those named by a file that was not removed |
| AppSource.Resolver.Lookup | src/lib/app-source.ts:470-499 | the resolver's answer is that of a resolution from scratch, and a repeated app costs no request |
| AppSource.Resolver.PinAndCompare | src/lib/app-source.ts:479-485 | one pin, and one comparison only if the pin succeeded |
| AppSource.ResolveAll | src/lib/app-source.ts:446-499 | for every sequence of calls: the answers of `resolveAppSource`, at most one pin and one comparison, one lookup per distinct app |
| AppSource.ForkIsUsedExactlyWhen | src/lib/app-source.ts:302-414 | the fork is used if and only if the branch changes the app, or both upstreams surely lack it and the fork has it; then at the pinned commit, naming exactly the upstreams a changed app shadows, with a conflict exactly if all four upstream scripts were read and one moved |
| AppSource.UrlsStandForThemselves | src/lib/app-source.ts:421-426 | an app is its own URL if and only if it contains `://` |
| AppSource.WithoutACustomRepository | src/lib/app-source.ts:427-431 | without a custom repository every other app comes from upstream; with half of one the missing half is the error |
| AppSource.WithACustomRepository | src/lib/app-source.ts:431-436 | a failing pin or comparison is the answer, else the lookup's, which is the fork or upstream |
| ResolverRuns.InvariantHolds | src/lib/app-source.ts:470-499 | in every interleaving of overlapping calls and answers, requests, branch and promises agree with the calls made |
| ResolverRuns.EveryRequestIsMadeOnce | src/lib/app-source.ts:446-499 | however calls overlap, one pin if a called app needs it, at most one comparison, and one read of scripts per app |
| ResolverRuns.SettledAnswersAreOwnAnswers | src/lib/app-source.ts:446-499 | every settled promise is the answer of a resolution on its own |
| ResolverRuns.NeverStuck | src/lib/app-source.ts:479-486 | while a promise is unsettled, an answer is due or a waiting call can go on |
| ResolverRuns.StepsMakeProgress | src/lib/app-source.ts:479-486 | every such step brings all calls closer to settling |
| SyncInventory.ExtractIp | src/commands/maintenance/sync-inventory.ts:55-62 | the value of the first `ip` field without its mask |
| SyncInventory.AddressIsReadBack | src/commands/maintenance/sync-inventory.ts:55-62 | an address set with a mask in `net0` or `ipconfig0` is the address the next sync reads |
| SyncInventory.Reconcile | src/commands/maintenance/sync-inventory.ts:196-256 | what a listed guest becomes, and whether it is new or updated |
| SyncInventory.Sync | src/commands/maintenance/sync-inventory.ts:183-269 | the loops give exactly the specified lists, or throw exactly on a malformed list |
| SyncInventory.FoundExactlyWhen | src/commands/maintenance/sync-inventory.ts:183-206 | what a run finds are exactly the non-template entries its hosts list |
| SyncInventory.ListedGuestsAreAsReported | src/commands/maintenance/sync-inventory.ts:207-256 | the result starts with one guest per listed one, in order, with the listed type and the address its configuration reports; unreadable, a recorded guest stays as it was; new ones take the listed name |
| SyncInventory.RetainedGuestsFollow | src/commands/maintenance/sync-inventory.ts:258-266 | after them come, untouched, the guests whose host did not answer for their recorded type |
| SyncInventory.KeptOrRemoved | src/commands/maintenance/sync-inventory.ts:183-269 | every recorded guest is in the result or removed, never both, never lost |
| SyncInventory.KeptGuestsKeepTheRest | src/commands/maintenance/sync-inventory.ts:240-242 | a kept guest differs in type and address at most |
| SyncInventory.AddedExactlyWhen | src/commands/maintenance/sync-inventory.ts:248-252 | an entry of the result is reported as new if and only if its host and VMID were not recorded |
| SyncInventory.UpdatedExactlyWhen | src/commands/maintenance/sync-inventory.ts:240-247 | a listed guest is reported as updated if and only if it was recorded with another type or address |
| SyncInventory.ResultKeysAreDistinctExactlyWhen | src/commands/maintenance/sync-inventory.ts:183-269 | the result keeps the (host, vmid) key if and only if no VMID is listed twice on a host and no guest is listed while its own type's query failed |
| Mids.AddressWithoutMask | src/lib/targets.ts:190-196 | the resolved address without its mask is the host's prefix and the MID |
| Mids.ResolvesExactlyWhen | src/lib/targets.ts:147-165 | which error a MID meets, in the code's order, and the VMID, address and gateway it resolves to |
| Mids.OtherMidsAreRefused | src/lib/targets.ts:147-150 | what is no whole number from 1 to 254 is refused before the host is looked at |
| Mids.CollectMids | src/lib/targets.ts:178-184 | the loop collects, without repetition, the MIDs that resolve to a guest of the host |
| Mids.UsedMidsByHost | src/lib/targets.ts:168-188 | each named host with a scheme is given exactly the MIDs that resolve to one of its guests, ascending |
| Backfill.MakePlan | src/commands/maintenance/backfill-guest-creators.ts:149-188 | the loop's updates, skips and claims, job by job |
| Backfill.Run | src/commands/maintenance/backfill-guest-creators.ts:116-227 | what a dry run and an applied run report, and the guests handed to the save |
| Backfill.CandidatesExactlyWhen | src/commands/maintenance/backfill-guest-creators.ts:135-147 | the candidates are exactly the listed jobs of a person: not of nobody, the MCP server or the local operator; in listed order (`CandidatesOfOne`, `CandidatesOfBoth`) |
| Backfill.ParseExactlyWhen | src/commands/maintenance/backfill-guest-creators.ts:86-105 | a job names a guest if and only if its arguments give a host, the name under its command's key and a MID that resolves |
| Backfill.AccountExactlyWhen | src/commands/maintenance/backfill-guest-creators.ts:119-121 | a job's account is the last user under the name its login is mapped to |
| Backfill.UpdateRecords | src/commands/maintenance/backfill-guest-creators.ts:176-188 | what an update records of the account and the job |
| Backfill.SkippedBecause | src/commands/maintenance/backfill-guest-creators.ts:149-188 | a candidate is skipped for each reason if and only if that reason holds |
| Backfill.ClaimedByTheFirst | src/commands/maintenance/backfill-guest-creators.ts:164-169 | the job named as superseding is the first listed that claims the guest |
| Backfill.PlanConserves | src/commands/maintenance/backfill-guest-creators.ts:149-188 | every candidate job lands in exactly one of updates and skips |
| Backfill.ApplyConserves | src/commands/maintenance/backfill-guest-creators.ts:190-224 | also after the re-check of an applied run |
| Backfill.DroppedExactlyWhen | src/commands/maintenance/backfill-guest-creators.ts:192-206 | why an update is dropped at the re-check, if it is |
| Backfill.SavesExactlyWhen | src/commands/maintenance/backfill-guest-creators.ts:190-224 | an applied run saves if and only if an update survives; it reports those, and the others with their reason |
| Backfill.UpdatedExactlyWhen | src/commands/maintenance/backfill-guest-creators.ts:149-188 | a job gives an update if and only if it is the first listed to claim its guest and its user is known |
| Backfill.UpdatesComeFromTheNewest | src/commands/maintenance/backfill-guest-creators.ts:134-188 | every update is that of the first listed job claiming its guest |
| Backfill.UnknownNewestUserMeansNone | src/commands/maintenance/backfill-guest-creators.ts:169-178 | a guest whose newest job has an unknown user gets no update from an older one |
| Backfill.OneUpdatePerGuest | src/commands/maintenance/backfill-guest-creators.ts:164-169 | no guest gets two updates |
| Backfill.OnlyMissingCreatorsChange | src/commands/maintenance/backfill-guest-creators.ts:192-221 | an applied run sets the creator of guests that had none in the reloaded inventory and changes nothing else |
| LanBypass.ReadRules | vpn-gateway-agent/netctl/netctl.go:122-164 | from the printed table: the sources of exactly the main-table rules at priority 100 that are not ours, in order, and whether ours is there |
| LanBypass.TrimmedExactly | vpn-gateway-agent/netctl/netctl.go:131-146 | trimming takes all spaces off both ends and nothing else |
| LanBypass.ContainsExactlyWhen | vpn-gateway-agent/netctl/netctl.go:155-164 | containing a text is having it between some head and tail |
| LanBypass.RulePresent | vpn-gateway-agent/netctl/netctl.go:155-164 | whether some line shows our rule at our priority |
| LanBypass.LineIsReadBack | vpn-gateway-agent/netctl/netctl.go:122-164 | a printed rule is read as what it is, whatever the addresses |
| LanBypass.Manager.ApplyLanBypassRule | vpn-gateway-agent/netctl/netctl.go:100-120 | the new rule table and the error, for any failures |
| LanBypass.Manager.ApplyLanBypass | vpn-gateway-agent/netctl/netctl.go:195-200 | the same, and nothing without an address |
| LanBypass.Converges | vpn-gateway-agent/netctl/netctl.go:88-120 | without failures, the other rules stay in place and order, no rule of ours is left for another address, and ours is there |
| LanBypass.ConvergedCounts | vpn-gateway-agent/netctl/netctl.go:88-120 | how often each rule is left: ours exactly once if it was there at most once |
| LanBypass.SecondRunChangesNothing | vpn-gateway-agent/netctl/netctl.go:88-99 | a second run changes nothing |
| LanBypass.FailuresDoNoHarm | vpn-gateway-agent/netctl/netctl.go:96-120 | whatever fails, other rules stay, ours is there unless its own add failed, and an error is reported exactly for a failure |
| LanBypass.FailedDeletesLeaveTheirRule | vpn-gateway-agent/netctl/netctl.go:96-120 | of the rules for another address exactly those stay whose own delete failed |
| LanBypass.ErrorExactlyWhen | vpn-gateway-agent/netctl/netctl.go:96-120 | the error is the add's if that failed, else that of the first failing delete |
| KillSwitch.ApplyRule | vpn-gateway-agent/netctl/netctl.go:76-83 | a rule already there is left alone, else appended; without error it is there afterwards and nothing before it moved |
| KillSwitch.Manager.ApplyKillSwitch | vpn-gateway-agent/netctl/netctl.go:176-186 | the kernel's state and the outcome of a run, for any failing command |
| KillSwitch.ProtectionLasts | vpn-gateway-agent/netctl/netctl.go:166-186 | once a run has succeeded, forwarding, the drop policy and the tunnel's three rules stay through any later runs, whatever fails in them |
| KillSwitch.SucceedsExactlyWhen | vpn-gateway-agent/netctl/netctl.go:176-186 | a run succeeds if and only if no command fails, where a failing check costs no more than an append |
| KillSwitch.FailureEndsTheRun | vpn-gateway-agent/netctl/netctl.go:176-186 | after the first failure nothing else is touched |
| KillSwitch.OnlyTheTunnelEverComesIn | vpn-gateway-agent/netctl/netctl.go:45-67 | over any runs the chains grow only at their end and by the tunnel's own rules, none before the policy drops everything else |
| KillSwitch.RunsForwardByDefaultExactlyWhen | vpn-gateway-agent/netctl/netctl.go:176-186 | over any runs: the policy still accepts if and only if it did and every run failed before or at setting it; forwarding is on if and only if it was or some run turned it on |
| KillSwitch.LaterRunsChangeNothing | vpn-gateway-agent/netctl/netctl.go:34-39 | after a run that succeeded, any number of runs whose commands work change nothing |
| KillSwitch.NoRulePilesUp | vpn-gateway-agent/netctl/netctl.go:34-39 | while checks work, no rule is there more than once through any number of runs unless it was before, and no other rule's number changes |
| Gateway.Agent.Start | vpn-gateway-agent/main.go:135-184 | what startup asks, saves and leaves up, with any step failing |
| Gateway.Agent.HandleConnect | vpn-gateway-agent/httpapi/httpapi.go:176-231 | the same for a connect request |
| Gateway.Agent.RunOnce | vpn-gateway-agent/selfheal/selfheal.go:72-129 | the same for a self-heal cycle |
| Gateway.SelectionSticks | vpn-gateway-agent/httpapi/httpapi.go:198-222 | over any run, the persisted selection is the last request carried out and saved, or empty |
| Gateway.ReconnectsAskForIt | vpn-gateway-agent/selfheal/selfheal.go:87-88 | startups and self-heals ask the provider for exactly that selection |
| Gateway.AskedExactlyWhen | vpn-gateway-agent/selfheal/selfheal.go:72-90 | which steps ask the provider at all |
| Gateway.ObservationsComeTogether | vpn-gateway-agent/selfheal/selfheal.go:99-128 | resolved country, resolved city, server and public address always come from one connect |
| Gateway.DnsIsFromTheLastStartOrRequest | vpn-gateway-agent/selfheal/selfheal.go:99-128 | the DNS server is that of the last saved startup or request |
| Gateway.HealthIs | vpn-gateway-agent/selfheal/selfheal.go:78-101 | what the two health fields say, over any run |
| Gateway.TimesAre | vpn-gateway-agent/selfheal/selfheal.go:72-129 | since when the connection stands, and when the health was last looked at, over any run |
| Gateway.TunnelIs | vpn-gateway-agent/httpapi/httpapi.go:176-205 | the interface is that of the last attempt that got a peer, or down if it failed |
| Gateway.FirstDnsServer | vpn-gateway-agent/httpapi/httpapi.go:206-225 | after a start or a request the DNS server is the first of the peer's, or blank |
| Gateway.ReportIsOfTheTunnel | vpn-gateway-agent/main.go:138-180 | if every save works and peers come with a DNS server, the reported server and place are those of the interface's peer whenever it is up |

## Left out

- Elicitation.PromptTracker: event emitters are a list of the jobs notified; listener order is not modelled.
- WaitForJob.NoLostWakeUp: assumes one status event per status write by the job runner, which is not part of this model; message texts, log paging and progress notifications are left out.
- WaitForJob.InvariantHolds: a withdrawn dialog may settle in any way, which is more than the code's aborted request can do; the loop is a state machine over its steps between awaits, not a `while` loop, because other calls run between them.
- InventoryReload.SaveThenLoad: a JSON column holds the value it encodes, SQLite is a list of rows with the stated keys and atomic transactions, and the schema's string formats are parameters of which only those of two settings are assumed (`KnownSettings`).
- InventoryStore.Database.Open: added columns, the renamed proxy columns and log lines are left out; the boolean that #158 drops is in `Migrations`, as it is gone after a database's first open.
- InventoryModel.GuestOrderIsCanonicalExactlyWhen: the sort is an insertion sort, which any stable sort equals where the comparator is consistent; JavaScript's `Number` is a parameter without infinities, and strings compare by code point where JavaScript compares UTF-16 units.
- InventoryValidation.Validate: problems carry the names and not the message texts.
- Migrations.Store.Open: log lines, locks and the migrations that write no group are left out here; those of settings are in `InventoryOpen`.
- ConsoleCapture.Capturer.WriteLine: a line is one string; the per-line callback and the joining of arguments are left out, and foreign functions never call a wrapper.
- ShellText.LineIsItsPieces: the lexer has the quoting and operator rules these lines use and refuses every other character, so redirections of numbered descriptors are not modelled.
- ReleaseCheck.ParseReleaseCheck: the values a script assigns to a variable, found by a regular expression, are a parameter; reasons carry no text.
- GuestVpn.SetKeyEditsOneField: keys are literal text, as `gw` and `ip` are, not regular expressions.
- ConfigSnapshot.Accessor.ConfigValue: the environment and the value schemas are parameters; a read that throws is not modelled, and two processes' writes do not overlap.
- ConcurrentMap.SavedRowsAreUnaborted: the order of the saved rows and the single-guest path are left out; the limit is above 0, as the one caller passes 4 (src/commands/maintenance/check-app-updates.ts:262).
- AppSource.Resolver.Lookup: here calls run one after another, overlapping ones are in ResolverRuns; GitHub's answers are a fixed function of the request, and the repository setting is given split at its slash.
- ResolverRuns.InvariantHolds: a state machine over the steps between awaits, not a class; the several reads of one app's scripts are one request.
- SyncInventory.Sync: the refresh of each host's bridges, storages and mounts is left out, as are the summary texts.
- Backfill.Run: the login maps are given as a map, the job list is taken to be newest first, and the skip details are left out.
- LanBypass.Manager.ApplyLanBypassRule: the table is read and changed by one process, and the printed text is ASCII.
- KillSwitch.Manager.ApplyKillSwitch: iptables is two lists of rules and a policy.
- Gateway.ReportIsOfTheTunnel: takes from the providers that a peer comes with a DNS server, which both guarantee (vpn-gateway-agent/provider/nordvpn/nordvpn.go:37, vpn-gateway-agent/provider/pia/pia.go:349-361) and startup relies on (`StartupNeedsADnsServer`).
- Gateway.SelectionSticks: startups, requests and self-heals do not overlap; with overlap, a load and a save of state.json can interleave.
- Target lookup, version comparison, release fetching, caches of scripts and releases: they would only add easy members.
- SSH, SFTP, HTTP and WireGuard themselves, the Authentik, Cloudflare and Nginx Proxy Manager clients, proxy drivers, the job runner, the web client and the CLI.
