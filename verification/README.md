# Verified models of the assistant's small cores

FlopsyBot is a personal-assistant gateway written in TypeScript: a gateway process that talks to chat
channels, a team of agents behind it, a set of MCP servers, and a command line. Most of it is plumbing.
This project models the parts that are not: the small pieces whose correctness depends on an
interleaving, a whole run, a string transformation or a mutable tree. It proves what those pieces keep,
for every input, every run and every interleaving.

| file | what it models |
|---|---|
| `CredentialLock.dfy` | the lock file and the double-checked credential refresh, for any number of processes; every access to a file and every clock reading is a step of its own, and a refresh with its stored reply is one |
| `ConfigTree.dfy`, `ConfigDiff.dfy` | JSON-like config trees and the recursive diff |
| `GlobRules.dfy` | the three replace passes that turn a reload rule's glob into a regular expression, and that expression's matcher |
| `ConfigReloader.dfy` | first-match classification, and the stateful reloader |
| `ConfigCommand.dfy`, `ConfigHeap.dfy` | get, set and unset by path: the laws on tree values, and the mutable nodes that are updated in place |
| `ChannelCommand.dfy` | the channel command's stricter setter |
| `Sessions.dfy` | the session store's part in rotation, the resolver, and the team handler's use of it |
| `ThreadIdentity.dfy`, `StableHash.dfy` | thread ids, worker children, and the signed 32-bit FNV-1a loop (FNV-1a is described in section 2 of draft-eastlake-fnv) |
| `Availability.dfy` | the free-slot sweep over a day's meetings |
| `EnvFile.dfy` | the `.env` upsert and the `.env` parser |
| `AgentsSections.dfy` | the AGENTS.md section filter |
| `ChatQueue.dfy` | the chat client's outbound queue and its reconnects |
| `BrowserRegistry.dfy` | the browser server's sessions, pages and markers |
| `Text.dfy`, `Options.dfy`, `Powers.dfy` | split, join, trim, numerals; optional values; powers of two |

Code that changes state is modelled by classes and loops; each such method is proved equal to a function
of its inputs or of the old state, and the laws are lemmas about that function. Clocks, random ids, what
the network and the browser answer, and whether a handler throws are parameters.

## What came out

* **The lock needs its timing assumption.** Mutual exclusion holds for every interleaving in which no holder
  overruns 30 s (`MutualExclusion`). Without any timing assumption a run that never removes an existing stale
  lock keeps it (`NoStaleRemovalExcludes`), but not only such a run: one removal by itself admits nobody
  (`RemovalAloneAdmitsNoSecond`). It holds exactly in the runs in which no process creates the file while
  another one is still inside (`ExclusionIffNoSecondEntry`). What a stale removal does break at once is that
  the file is there exactly while someone holds the lock (`LockExactIffNoStaleRemoval`). A concrete run shows
  two holders (`OverlongHoldAdmitsTwo`).
* **A waiter's deadline is only looked at after a fresh lock file was seen.** Past its deadline a waiter gives
  up within six of its own steps, unless it keeps finding the file gone or stale (`LateWaiterGivesUp`).
* **A call answers with what it has seen.** In every run, `getValidCredential` with a provider returns a
  credential that it found with more than five minutes left, or one that it minted, and fails only without a
  credential, on a refusal, or after more than 20 s on a lock in force (`CallAnswers`). No call is ever stuck,
  even behind a holder that died (`NobodyIsStuck`).
* **A glob's `**` stops at a line end**, because the emitted `.*` does. Segment-wise matching is proved
  for all paths whose `**` parts hold no line end; `DoubleStarStopsAtLineEnd` shows the difference.
* **A repeated path segment takes the container kind of its first occurrence** (`RepeatedSegmentThrows`), and a
  trailing index makes an object (`TrailingIndexMakesAnObject`), although the comment on `nextContainer`
  says that numeric parts make arrays. `SetThrowsIff` says exactly when set throws.
* **Meetings after work end can make slots outside work hours.** One can stretch a slot past work end, and
  two can leave a slot that begins after it (`EveningBetweenMeetingsIsOffered`). `InsideHoursIff` and
  `StartsInHoursIff` say exactly when that happens.
* **Section filtering composes exactly when nothing is orphaned**: a bare heading merges into the section
  before it, and an indented first heading becomes a real one once the text is trimmed (`FilterTwiceIff`).
  Both lose text (`FilterNeedNotCompose`).
* **In 'both' mode an idle limit from 24 hours less one millisecond on can never close a session**
  (`BothModeClosesIdleIff`).

## Model

| member | source | states |
|---|---|---|
| CredentialLock.StepKeepsLockExact | src/cli/src/auth/refresh-lock.ts:25-71 | without any timing assumption, every step but the removal of an existing stale lock keeps at most one holder and keeps the file there exactly while someone holds the lock |
| CredentialLock.StepKeepsSafe | src/cli/src/auth/refresh-lock.ts:25-71 | every step of every process between prompt states keeps the whole invariant: lock, stamps, stored base, chain and decisions |
| CredentialLock.PromptRunIsSafe | src/cli/src/auth/refresh-lock.ts:25-71 | every prompt run from an initial state ends in a safe state |
| CredentialLock.MutualExclusion | src/cli/src/auth/refresh-lock.ts:25-71 | for any number of processes and any interleaving with holds of at most 30 s, one process at most is inside, and the lock file exists exactly when one is |
| CredentialLock.LockExactIffNoStaleRemoval | src/cli/src/auth/refresh-lock.ts:46-55 | with no timing assumption, a run keeps one holder at most together with the file being there exactly while someone holds the lock, if and only if no step removes an existing file as stale |
| CredentialLock.NoStaleRemovalExcludes | src/cli/src/auth/refresh-lock.ts:46-55 | with no timing assumption, a run without such a removal never has two holders |
| CredentialLock.RemovalAloneAdmitsNoSecond | src/cli/src/auth/refresh-lock.ts:48-51 | the converse fails: a concrete run that removes a held lock and still has one holder |
| CredentialLock.ExclusionIffNoSecondEntry | src/cli/src/auth/refresh-lock.ts:30-38 | with no timing assumption, a run never has two holders if and only if no process creates the file while another one is still inside |
| CredentialLock.OverlongHoldAdmitsTwo | src/cli/src/auth/refresh-lock.ts:48-51 | a concrete run in which an overlong hold lets two processes in |
| CredentialLock.SleepIsDueByDeadline | src/cli/src/auth/refresh-lock.ts:56-59 | in no run is a waiter's sleep due to end more than one poll interval after its deadline |
| CredentialLock.LateWaiterGivesUp | src/cli/src/auth/refresh-lock.ts:30-61 | however the others are scheduled, a waiter past its deadline takes at most six more of its own steps, unless one of its looks finds the file gone or stale |
| CredentialLock.NoLostRotation | src/cli/src/auth/refresh.ts:34-49 | the stored credentials form one chain: every refresh starts from what the one before it stored, and a refresh in flight works on what is stored now |
| CredentialLock.SecondRefreshOnlyWhenShort | src/cli/src/auth/refresh.ts:78-87 | a caller that asks for some runway refreshes again only when the previous refresh no longer gives it |
| CredentialLock.AtMostOneRefresh | src/cli/src/auth/refresh.ts:22-57 | in a prompt run any group of `getValidCredential` callers refreshes once at most while the first minted credential keeps more than five minutes; that they do refresh when they must is `CallAnswers` |
| CredentialLock.CallAnswers | src/cli/src/auth/refresh.ts:22-91 | without any timing assumption, what a finished call answers, by what it met since it started: with a provider and no skip, a credential found with more than 300 s left by a clock reading of its own, or one that it minted; with skip or without a provider the one it found; it fails only when it found none, asked for a forced refresh without a provider, was refused by the server, or waited more than 20 s on a lock in force |
| CredentialLock.RunAccounts | src/cli/src/auth/refresh.ts:22-91 | in every run every process stands where what it met since its last start puts it: on the way to the lock, waiting with a deadline 20 s after its own reading, inside, or done |
| CredentialLock.ShortRunwayGoesToLock | src/cli/src/auth/refresh.ts:34-47 | before the lock a credential is returned if and only if more than 300 s are left, and otherwise the call goes on to the lock with it |
| CredentialLock.ShortInsideRefreshes | src/cli/src/auth/refresh.ts:78-88 | inside the lock the refresh goes ahead if and only if the runway found there is not longer than needed, or a refresh is forced |
| CredentialLock.NobodyIsStuck | src/cli/src/auth/refresh-lock.ts:25-71 | from every state, also one in which a holder has died, a process that is left alone for long enough finishes its call within 13 of its own steps |
| CredentialLock.FileAfter | src/cli/src/auth/refresh-lock.ts:25-71 | a step changes the lock file in four ways only: made, stamped by its owner with the time, broken, released |
| ConfigDiff.DiffConfigPaths | src/gateway/src/config-reload.ts:44-71 | the recursive, list-building diff returns the paths of the diff function |
| ConfigDiff.DiffObjects | src/gateway/src/config-reload.ts:53-61 | the loop over both objects' keys returns the paths of the diff function; the order of the keys is `DiffInKeyOrder` |
| ConfigDiff.DiffArrays | src/gateway/src/config-reload.ts:62-69 | so does the loop over both arrays' indices |
| ConfigDiff.GetByPath | src/gateway/src/config-reload.ts:73-83 | the cursor loop reads what the tree holds at the split path |
| ConfigDiff.DiffEmptyIffSame | src/gateway/src/config-reload.ts:44-71 | the diff of two configs is empty if and only if they are structurally equal |
| ConfigDiff.NothingDiffersFromItself | src/gateway/src/config-reload.ts:49-49 | a tree compared with itself has no differing paths, so the identity shortcut changes nothing |
| ConfigDiff.DiffPathsIncomparable | src/gateway/src/config-reload.ts:44-71 | returned paths are distinct and none is a prefix of another |
| ConfigDiff.DiffPathsDiffer | src/gateway/src/config-reload.ts:44-83 | every returned path reads differently on the two sides |
| ConfigDiff.OutsideDiffUnchanged | src/gateway/src/config-reload.ts:44-83 | every path that is comparable with no returned path, and that writes array indices as numbers are printed, reads the same on both sides |
| ConfigDiff.DiffPathsAreWherePart | src/gateway/src/config-reload.ts:44-71 | a path is returned if and only if the two sides are both objects or both arrays all the way to it, are not so at it, and differ there, with indices written as numbers are printed; so none stops early or goes too deep |
| ConfigDiff.DiffInKeyOrder | src/gateway/src/config-reload.ts:54-67 | of two returned paths the first one takes, where they part, the key listed first (old keys before new ones) or the lower index, at every depth |
| GlobRules.CompileMeansPattern | src/gateway/src/config-reload.ts:33-41 | for every pattern at all, the three replace passes emit the expression that the pattern means: escaped text, `.*` for a double star, one dot-free run for a star |
| GlobRules.GlobCompilerIsCorrect | src/gateway/src/config-reload.ts:33-41 | for patterns whose wildcards fill whole segments, the compiled matcher accepts a dotted path if and only if segment-wise matching does, `*` for one segment and `**` for one or more segments that hold no line end |
| GlobRules.DoubleStarStopsAtLineEnd | src/gateway/src/config-reload.ts:38-39 | a segment with a line end is matched by `*` and not by `**` |
| ConfigReloader.FindRule | src/gateway/src/config-reload.ts:105-105 | the search loop finds the index of the first rule whose pattern matches |
| ConfigReloader.ChosenIsFirstMatch | src/gateway/src/config-reload.ts:105-105 | the chosen rule matches and no earlier one does |
| ConfigReloader.FirstMatchIsChosen | src/gateway/src/config-reload.ts:105-105 | conversely, whatever rule matches first is the one chosen |
| ConfigReloader.BuildReloadPlan | src/gateway/src/config-reload.ts:97-114 | the three lists hold exactly the paths that the first matching rule sends there, in their original order |
| ConfigReloader.PlanPartitions | src/gateway/src/config-reload.ts:97-114 | the three lists together are a permutation of the changed paths: each path lands in exactly one |
| ConfigReloader.PlanListsSay | src/gateway/src/config-reload.ts:104-112 | each entry of a list carries the first rule whose pattern matches, of the list's mode; no rule matches an ignored path; each list keeps the order of the changed paths |
| ConfigReloader.Reloader.constructor | src/gateway/src/config-reload.ts:131-133 | a reloader starts stopped, with the initial config |
| ConfigReloader.Reloader.Start | src/gateway/src/config-reload.ts:135-147 | starting only sets the running flag |
| ConfigReloader.Reloader.Stop | src/gateway/src/config-reload.ts:149-155 | stopping a running reloader clears its pending timer; stopping a stopped one does nothing |
| ConfigReloader.Reloader.ScheduleReload | src/gateway/src/config-reload.ts:161-167 | a file event leaves exactly one pending timer |
| ConfigReloader.Reloader.DoReload | src/gateway/src/config-reload.ts:169-222 | one reload calls each hot handler in order with the old and the new config and values and then takes the new config; which handlers throw only shows in the list of failures; a failed load changes nothing |
| ConfigReloader.Reloader.OnTimer | src/gateway/src/config-reload.ts:163-166 | a firing timer is one step of a run |
| ConfigReloader.CurrentIsLastLoaded | src/gateway/src/config-reload.ts:126-222 | over every run of non-overlapping reloads the current config is the last one that loaded |
| ConfigReloader.NoTimerWhileStopped | src/gateway/src/config-reload.ts:149-167 | over every run no timer is pending while the reloader is stopped |
| ConfigReloader.ReloadingTheSameRunsNothing | src/gateway/src/config-reload.ts:174-179 | reloading a structurally equal config runs no handler, and any other config has a non-empty diff |
| ConfigReloader.EachHotHandlerOnce | src/gateway/src/config-reload.ts:192-207 | one reload calls the handler of a path exactly once when the path changed and the first rule whose pattern matches it is hot with a handler, and calls no other; the calls come in the order of the changed paths, each with that rule, the old and the new config, and the value of the path in each |
| ConfigReloader.CallsAreHistory | src/gateway/src/config-reload.ts:169-222 | over every run the handler calls are those of its reloads one after the other, determined by the configs that loaded |
| ConfigReloader.FailedAreTheThrowing | src/gateway/src/config-reload.ts:192-207 | the recorded failures are the called paths whose handler throws, and no others, in order |
| ConfigCommand.SetThenGet | src/cli/src/ops/config-command.ts:177-222 | whenever set returns, get at the path yields the value |
| ConfigCommand.SetLeavesTheRest | src/cli/src/ops/config-command.ts:195-222 | every path that parts from the walk at some slot reads as before, even when set throws half-way; `1` and `01` are one slot in an array and two in an object |
| ConfigCommand.SetThenSet | src/cli/src/ops/config-command.ts:195-222 | a second set at the path gives the tree that it would have given alone |
| ConfigCommand.GetThenSet | src/cli/src/ops/config-command.ts:177-222 | setting what is already there leaves the tree equal |
| ConfigCommand.SetThrowsIff | src/cli/src/ops/config-command.ts:195-222 | set throws exactly on the empty path and when an array on the way, old or new, is addressed by something that is no index |
| ConfigCommand.SetThrowsOnlyOnExistingArrays | src/cli/src/ops/config-command.ts:195-222 | without a repeated segment only arrays that were there before can make it throw |
| ConfigCommand.RepeatedSegmentThrows | src/cli/src/ops/config-command.ts:205-210 | a path on the empty tree that throws only because a segment repeats |
| ConfigCommand.TrailingIndexMakesAnObject | src/cli/src/ops/config-command.ts:257-265 | `foo.0.bar` creates an array, `foo.0` an object |
| ConfigCommand.KindOnTheWay | src/cli/src/ops/config-command.ts:200-214 | when no segment before the last repeats, every container on the way keeps its kind, and a new one is an array exactly when the segment behind it is a numeral and not the last |
| ConfigCommand.KeysOfPut | src/cli/src/ops/config-command.ts:219-221 | assigning to a key that is there keeps the order of the keys, and a new key comes last |
| ConfigCommand.ItemsOfPutAt | src/cli/src/ops/config-command.ts:215-218 | an array grows to just hold the index, with holes in between, and its other elements stay |
| ConfigCommand.UnsetIffPresent | src/cli/src/ops/config-command.ts:224-244 | unset reports success exactly when its walk arrives at an object with the key or at an array longer than the index |
| ConfigCommand.CanonicalWalkIsGet | src/cli/src/ops/config-command.ts:229-232 | the walk arrives where get does whenever indices are written as numbers are printed; another spelling of an index finds nothing |
| ConfigCommand.UnsetDropsTheSlot | src/cli/src/ops/config-command.ts:224-244 | after a success the parent is the old parent without that slot |
| ConfigCommand.UnsetFrames | src/cli/src/ops/config-command.ts:224-244 | every path that parts from the way to the parent at some slot reads as before |
| ConfigCommand.DropKey | src/cli/src/ops/config-command.ts:238-241 | in an object the key reads as undefined and all others as before |
| ConfigCommand.KeysOfRemove | src/cli/src/ops/config-command.ts:238-241 | the other keys keep their order and values |
| ConfigCommand.DropIndex | src/cli/src/ops/config-command.ts:234-237 | in an array the later elements move down by one |
| ConfigCommand.UnsetKey | src/cli/src/ops/config-command.ts:224-244 | after unset of a key, get finds nothing at the key or below it, and what it found before through every other key of that object |
| ConfigCommand.UnsetElement | src/cli/src/ops/config-command.ts:224-244 | after unset of an array element, get finds from its index on what it found one index later, and the array is one shorter |
| ConfigCommand.UnsetUndoesSet | src/cli/src/ops/config-command.ts:195-244 | unset takes back a set that added a key, to the very same tree |
| ConfigCommand.SplitPathReadsBothSpellings | src/cli/src/ops/config-command.ts:246-255 | dotted and bracketed spellings of a path split into the same segments |
| ConfigCommand.EmptySegmentsDrop | src/cli/src/ops/config-command.ts:250-255 | empty segments do not count, wherever they stand |
| ConfigCommand.OtherBracketStays | src/cli/src/ops/config-command.ts:252-252 | a bracket that does not hold a numeral stays in its segment |
| ConfigHeap.Store | src/cli/src/ops/config-command.ts:215-221 | assigning a slot of a mutable container in place, with holes and new keys |
| ConfigHeap.Enter | src/cli/src/ops/config-command.ts:200-214 | one hop of the walk: keeps an existing container, puts a new one in place of anything else |
| ConfigHeap.SetByPath | src/cli/src/ops/config-command.ts:195-222 | set on mutable nodes changes the tree to what the set function says, throws exactly when it does, and touches only the nodes of that tree |
| ConfigHeap.GetByPath | src/cli/src/ops/config-command.ts:177-193 | the cursor loop over mutable nodes reads what the tree holds at the path |
| ConfigHeap.UnsetByPath | src/cli/src/ops/config-command.ts:224-244 | unset on mutable nodes changes the tree to what the unset function says and returns whether it did |
| ConfigHeap.DropSlot | src/cli/src/ops/config-command.ts:233-243 | splices an element or deletes a key in place, and says whether it was there |
| ChannelCommand.ThrowsIffObstructed | src/cli/src/ops/channel-command.ts:84-95 | the walk throws exactly when some step before the last finds a value that is neither missing nor an object |
| ChannelCommand.ThrowLeavesTree | src/cli/src/ops/channel-command.ts:84-95 | when it throws nothing has been created |
| ChannelCommand.ReadsBack | src/cli/src/ops/channel-command.ts:81-97 | otherwise the path reads the value |
| ChannelCommand.Frames | src/cli/src/ops/channel-command.ts:81-97 | every path that is neither a prefix nor an extension reads as before |
| ChannelCommand.SetIsAtomic | src/cli/src/ops/channel-command.ts:81-97 | the three together for the dotted path: all or nothing |
| ChannelCommand.SetByPath | src/cli/src/ops/channel-command.ts:81-97 | the setter on mutable nodes does what the function says, in place |
| StableHash.StableHash | src/team/src/handler.ts:2101-2108 | the loop over signed 32-bit xor and imul returns the base-36 text of multiplication modulo 2^32 |
| StableHash.SignedOps | src/team/src/handler.ts:2104-2105 | one signed step is one step of the unsigned hash |
| StableHash.MixIsBijective | src/team/src/handler.ts:2104-2105 | each step is a bijection on hash states, with the inverse of 0x01000193 |
| StableHash.MixSeparatesUnits | src/team/src/handler.ts:2104-2105 | from one state different units lead to different states |
| StableHash.HashFromSeparatesStates | src/team/src/handler.ts:2103-2106 | hashing the same rest keeps different states different |
| StableHash.Base36Separates | src/team/src/handler.ts:2107-2107 | different numbers have different base-36 texts |
| StableHash.Value36OfText | src/team/src/handler.ts:2107-2107 | the text is the base-36 numeral of the hash, over `0` to `9` and `a` to `z`, without leading zeros |
| StableHash.XorIsBitwise | src/team/src/handler.ts:2104-2104 | the exclusive or is set at exactly the bits where its operands differ |
| StableHash.KnownAnswers | src/team/src/handler.ts:2101-2108 | the hash of the empty text and of "a" is the published one |
| StableHash.OneUnitSeparates | src/team/src/handler.ts:2101-2108 | texts of one length that differ in exactly one UTF-16 unit differ in hash and in base-36 text |
| ThreadIdentity.ParseOfCompose | src/team/src/session-resolver.ts:153-164 | parse undoes compose for `#`-free peer ids and non-empty parts |
| ThreadIdentity.ComposeOfParse | src/team/src/session-resolver.ts:153-164 | whatever parses is composed of its parts again |
| ThreadIdentity.ComposeSeparates | src/team/src/session-resolver.ts:162-164 | distinct pairs give distinct ids |
| ThreadIdentity.MatchesItsPeerOnly | src/team/src/handler.ts:2096-2098 | a thread with a session suffix matches a `#`-free raw key exactly when its parsed peer is that key |
| ThreadIdentity.ChildMatchesItsPeerOnly | src/team/src/handler.ts:1873-1873 | so does the thread of any worker child derived from it |
| ThreadIdentity.ChildrenOfDifferentTasks | src/team/src/handler.ts:1873-1873 | tasks of one length that differ in one unit get different child threads |
| ThreadIdentity.ChildrenOfDifferentWorkers | src/team/src/handler.ts:1873-1873 | two workers on one task have the same child thread if and only if they are the same |
| ThreadIdentity.ParseOfChild | src/team/src/handler.ts:1873-1873 | a child's thread parses to the parent's peer, and to a session that names the parent's, the worker and the hash of its task |
| ThreadIdentity.PeerSpellsTheKey | src/team/src/handler.ts:1293-1298 | a raw key that is resolved is spelled by its channel, scope and native id |
| ThreadIdentity.PeerOfIff | src/team/src/handler.ts:1292-1302 | a raw key is resolved to a peer if and only if it is `channel:scope:id`, without `#`, with non-empty parts; the id may hold further colons |
| Sessions.SessionResolver.Resolve | src/team/src/session-resolver.ts:82-135 | one call changes the store and answers as the resolution function says |
| Sessions.SessionResolver.Touch | src/team/src/session-resolver.ts:142-146 | touches the active session only |
| Sessions.BoundaryIsWithinADay | src/team/src/session-resolver.ts:198-203 | the last boundary lies in the last 24 hours at every moment exactly for reset hours 0 to 24; at which hour of the day is `BoundaryIsAReset` |
| Sessions.BoundaryIsAReset | src/team/src/session-resolver.ts:198-203 | at the boundary the local clock shows the reset hour, for every hour and offset |
| Sessions.BeforeBoundaryIff | src/team/src/session-resolver.ts:173-177 | a time lies before the boundary if and only if a moment at which the local clock shows the reset hour has come since |
| Sessions.RotatesIff | src/team/src/session-resolver.ts:159-191 | a call leaves the peer's open session if and only if it is forced, or such a moment has come since the last user turn or the opening (daily and both), or the idle limit has passed (idle and both); the reason is the first of these that holds; otherwise, and in mode 'none' unless forced, it reuses that session; it throws exactly when it must rotate and the new id is taken |
| Sessions.OpensWhenNoneIsOpen | src/team/src/session-resolver.ts:163-163 | a peer without an open session gets a new one, and nothing is reported as closed |
| Sessions.BothModeClosesIdleIff | src/team/src/session-resolver.ts:166-191 | in 'both' mode a close for 'idle' is possible if and only if the limit is under 24 hours less 1 ms |
| Sessions.OneOpenPerPeer | src/team/src/harness/storage/learning-store.ts:735-742 | two open sessions of one peer are the same session |
| Sessions.ActiveIsTheOpenOne | src/team/src/harness/storage/learning-store.ts:735-742 | the active session is the peer's open one, in both directions |
| Sessions.ResolveKeeps | src/team/src/session-resolver.ts:82-135 | one call keeps the store sound and closed rows unchanged; a reported previous session was the open one and is now closed with the reported reason, never 'migration'; a reuse changes no session; it throws exactly when it must rotate and the new id is taken |
| Sessions.ResolveWrites | src/team/src/session-resolver.ts:108-134 | all that a call writes to the sessions: the new row with its values, and the closing of the reported previous one with its time and reason; every other row stays |
| Sessions.ResolveWritesPeers | src/team/src/harness/storage/learning-store.ts:418-472 | the peer's own row points to the session in use, with the time; the rows of all other peers stay |
| Sessions.RunIsSound | src/team/src/session-resolver.ts:82-146 | over every run each peer has at most one open session and whatever is closed stays as it is, so it closes once |
| Sessions.OnlyTriggersClose | src/team/src/session-resolver.ts:166-191 | over every run sessions close only for the reasons that the mode allows: none for 'migration', and none for 'idle' in 'both' mode with a limit of 24 hours or more |
| Sessions.BackgroundKeepsFreshness | src/team/src/harness/storage/learning-store.ts:744-760 | no number of resolutions and non-user turns moves the stamp of a session that is there |
| Sessions.BackgroundCannotKeepAlive | src/team/src/session-resolver.ts:57-60 | however many background events come in between, no session is reused 24 hours after its stamp (daily and both) or past the idle limit (idle and both); the stamp is the last user turn or the opening, whatever opened it |
| Sessions.StampIsLastFresh | src/team/src/harness/storage/learning-store.ts:454-477 | in every run a session's stamp is the time of its last user turn or of its opening, as read off the events |
| Sessions.TurnsAreCounted | src/team/src/harness/storage/learning-store.ts:744-760 | in every run a session's turn count is the number of turns, of any source, that were touched in it |
| Sessions.ReuseIsFresh | src/team/src/session-resolver.ts:166-191 | in every run a session is reused only less than 24 hours after its last user turn or its opening (daily and both) and not past the idle limit (idle and both) |
| Sessions.ThreadNamesTheOpenSession | src/team/src/session-resolver.ts:127-134 | a returned thread id parses back to the peer and to the only session of it that is open |
| Sessions.RecapIffRotated | src/team/src/handler.ts:1308-1322 | a recap is queued exactly when the call closed the peer's open session, for that session |
| Sessions.TeamHandler.ResolveSessionThreadId | src/team/src/handler.ts:1292-1341 | keys of another form and failed resolutions fall back to the raw key; the answer always belongs to the raw key |
| Availability.AvailableSlots | src/mcp-servers/calendar.ts:292-327 | the sweep loop returns the slots of the slot function |
| Availability.SortIsSorted | src/mcp-servers/calendar.ts:299-299 | sorting by start is ordered and a permutation |
| Availability.SlotsAreFree | src/mcp-servers/calendar.ts:310-327 | every slot starts no earlier than work start, is long enough, is clear of the calendar's events, and its minutes are rounded down |
| Availability.SlotsAreOrdered | src/mcp-servers/calendar.ts:310-327 | slots come in order and are disjoint when no event ends before it starts |
| Availability.FreeIffInASlot | src/mcp-servers/calendar.ts:293-327 | a long enough interval inside work hours is clear of the calendar's events if and only if it lies within a slot, whatever the events are |
| Availability.TimedAreEvents | src/mcp-servers/calendar.ts:293-298 | the meetings are the events that have both instants, with those instants |
| Availability.InOneSlotOnly | src/mcp-servers/calendar.ts:310-327 | no interval lies within two slots |
| Availability.InsideHoursIff | src/mcp-servers/calendar.ts:311-316 | all slots end by work end exactly when no meeting that starts later leaves a long enough gap before it |
| Availability.LateMeetingOffersTheEvening | src/mcp-servers/calendar.ts:311-316 | a dinner after work makes one slot that runs past work end |
| Availability.StartsInHoursIff | src/mcp-servers/calendar.ts:310-319 | for a positive duration all slots start before work end exactly when no meeting leaves a long enough gap behind a frontier that work end has already passed |
| Availability.EveningBetweenMeetingsIsOffered | src/mcp-servers/calendar.ts:310-319 | two meetings after work make a slot that lies wholly after work end |
| EnvFile.ParseEnvFile | src/cli/src/ops/env-command.ts:49-70 | the parsing loop yields the map of the parse function; a missing file yields none |
| EnvFile.LastLineWins | src/cli/src/ops/env-command.ts:53-68 | a key parses to the value of the last line for it |
| EnvFile.LineKeyIsTheMatch | src/cli/src/ops/channel-command.ts:396-396 | the key found on a line is the one that the regular expression captures, on every line and in both directions |
| EnvFile.KeyOfLine | src/cli/src/ops/env-command.ts:54-58 | the parser's key of a line and the upsert's name the same entry |
| EnvFile.AssignmentParses | src/cli/src/ops/env-command.ts:54-67 | a line `key = value`, with white space around the key, reads as the key and the value's reading |
| EnvFile.ParsesToNothingIff | src/cli/src/ops/env-command.ts:54-57 | the lines that parse to nothing are exactly blank ones, comments and those without `=` |
| EnvFile.QuotedReads | src/cli/src/ops/env-command.ts:60-66 | a value in equal quotes reads as what is between them, and a lone quote as nothing |
| EnvFile.PlainReads | src/cli/src/ops/env-command.ts:59-66 | any other value reads as itself without the white space around it |
| EnvFile.WrittenLine | src/cli/src/ops/channel-command.ts:400-405 | a line that the upsert writes reads as its entry in the parser and in the upsert |
| EnvFile.UpsertEnvFile | src/cli/src/ops/channel-command.ts:385-407 | the two loops and the final filter write the content of the upsert function |
| EnvFile.LinesAfterUpsert | src/cli/src/ops/channel-command.ts:394-406 | the written file line by line: an old line that the pattern matches for an entry becomes `key=value`, every other line stays as it is at its place, and an assignment for each entry that no line names follows, in order; one blank end is dropped and one line break closes the file |
| EnvFile.OtherLinesStay | src/cli/src/ops/channel-command.ts:395-403 | so a line that names no entry, a comment for one, is in the written file as it was, at the same place |
| EnvFile.ParseOfUpsert | src/cli/src/ops/channel-command.ts:385-407 | what every name at all parses to after an upsert: an entry's key to what its value reads as, `export` before such a key to nothing, all others to what they parsed to before |
| EnvFile.ValueComesBackIff | src/cli/src/ops/env-command.ts:58-67 | an upserted value parses back to itself if and only if it is trimmed and not in quotes |
| EnvFile.UpsertTwiceIsOnce | src/cli/src/ops/channel-command.ts:385-407 | upserting the same entries twice gives the same content as once |
| AgentsSections.FilterAgentsMdByTools | src/team/src/factory.ts:111-136 | the two loops return the text of the filter function |
| AgentsSections.FilterKeeps | src/team/src/factory.ts:111-136 | for every document: its lines are cut before every heading; the parts whose title needs no tool, or one that is there, and a lead that is not blank, are kept in order, each without the white space behind it, joined and trimmed |
| AgentsSections.GatedTitles | src/team/src/factory.ts:95-109 | the nine titles that need a tool, and which |
| AgentsSections.OthersAreFree | src/team/src/factory.ts:95-131 | every other title needs none |
| AgentsSections.FirstPass | src/team/src/factory.ts:111-136 | for every document the result is the trimmed lead and the kept sections, joined; for a blank one that is nothing |
| AgentsSections.SecondPass | src/team/src/factory.ts:111-136 | a pass over such a result keeps a text exactly when the section it now belongs to is allowed |
| AgentsSections.FilterTwiceIff | src/team/src/factory.ts:95-136 | for every document and T' within T, filtering by T and then by T' equals filtering by T' if and only if nothing is orphaned in between |
| AgentsSections.CleanComposes | src/team/src/factory.ts:95-136 | so it does for all tool sets when headings have titles and the lead does not become one |
| AgentsSections.UnindentedIsClean | src/team/src/factory.ts:111-136 | documents with titled headings and no leading white space are such documents |
| AgentsSections.IdempotentIff | src/team/src/factory.ts:95-136 | filtering twice by one tool set changes nothing, except exactly when an indented first heading is one those tools lack |
| AgentsSections.MonotoneInTools | src/team/src/factory.ts:123-135 | with fewer tools the result joins a subsequence of the texts that it joins with more |
| AgentsSections.IndentedHeadingIsLost | src/team/src/factory.ts:117-135 | for a document that is one indented heading, which the tools lack, one pass returns the heading and the next returns nothing |
| AgentsSections.BareHeadingIsLost | src/team/src/factory.ts:117-135 | for a section, a heading without a title and another section: what one pass with tools, one without, and the two in a row return; the bare heading is only missing from the last |
| AgentsSections.FilterNeedNotCompose | src/team/src/factory.ts:95-136 | both happen with a heading of the gate table |
| ChatQueue.ChatClient.Send | src/cli/src/ops/chat-command.ts:241-256 | sends when open; otherwise drops interrupts, queues up to 50 and refuses the rest |
| ChatQueue.ChatClient.OnSend | src/cli/src/ops/chat-command.ts:259-301 | only the first word tells a command; any other text is sent as typed |
| ChatQueue.ChatClient.OnInterrupt | src/cli/src/ops/chat-command.ts:302-305 | sends an interrupt when open and does nothing otherwise |
| ChatQueue.CommandByFirstWord | src/cli/src/ops/chat-command.ts:259-301 | what each of the eight commands does, whatever white space and arguments are around its word; text that begins with any other word is sent as typed |
| ChatQueue.BlankIsSent | src/cli/src/ops/chat-command.ts:259-301 | blank text is sent as typed |
| ChatQueue.InterruptsSentAtOnce | src/cli/src/ops/chat-command.ts:241-256 | in every run exactly the interrupts that come while the socket is open are sent |
| ChatQueue.ChatClient.OnOpen | src/cli/src/ops/chat-command.ts:325-340 | the drain sends the oldest messages first until the queue is empty or the socket leaves the open state |
| ChatQueue.ChatClient.OnClose | src/cli/src/ops/chat-command.ts:426-437 | schedules one reconnect with the next delay, unless quitting or never connected |
| ChatQueue.ChatClient.Cleanup | src/cli/src/ops/chat-command.ts:232-239 | quits once: clears the timer and closes the socket |
| ChatQueue.StepKeepsSound | src/cli/src/ops/chat-command.ts:241-437 | every event keeps: one live socket at most and none while a reconnect is scheduled, an open socket implies an empty queue, at most 50 queued and no interrupt among them, a connected client that is not quitting always has a socket or a reconnect under way, one that never was connected does not reconnect, and one that quits has no live socket and no timer; nothing sent is taken back |
| ChatQueue.RunIsSound | src/cli/src/ops/chat-command.ts:204-440 | all that holds in every reachable state |
| ChatQueue.StepDelivers | src/cli/src/ops/chat-command.ts:241-340 | one event adds to the sent messages and the queue exactly what it accepts, at the end |
| ChatQueue.SentThenPendingIsAccepted | src/cli/src/ops/chat-command.ts:241-340 | in every run the sent messages followed by the queue are the accepted ones, in order and each once, interrupts aside |
| ChatQueue.OpenMeansAllSent | src/cli/src/ops/chat-command.ts:325-340 | while the socket is open all that was accepted has been sent |
| ChatQueue.OpeningSends | src/cli/src/ops/chat-command.ts:325-340 | an opening socket sends from the front of the queue for as long as it lasts, and to its end if it can |
| ChatQueue.QuitIsFinal | src/cli/src/ops/chat-command.ts:232-239 | a client quits only by a quit command, and after that nothing more is sent, made or scheduled |
| ChatQueue.ConnectedOnceOpened | src/cli/src/ops/chat-command.ts:325-328 | in every run the client counts as connected if and only if some socket has opened |
| ChatQueue.DelayDoubles | src/cli/src/ops/chat-command.ts:51-54 | the delay doubles from one second on, capped at 30 |
| ChatQueue.BackoffCountsCloses | src/cli/src/ops/chat-command.ts:325-436 | in every run a scheduled reconnect waits by the number of closes since the last open |
| BrowserRegistry.Session.DeletePage | src/mcp-servers/browser.ts:2088-2093 | deletes one page; the first of the others becomes active in its stead |
| BrowserRegistry.BrowserManager.ConnectOverCdp | src/mcp-servers/browser.ts:298-395 | takes over all tabs of a running browser, the first one active, or reuses or refuses |
| BrowserRegistry.BrowserManager.LaunchSession | src/mcp-servers/browser.ts:397-475 | reuses, or closes and replaces, or adds a session without pages; limit and launch failure included |
| BrowserRegistry.BrowserManager.NewPage | src/mcp-servers/browser.ts:556-579 | adds or overwrites a page and makes it active, within the limit |
| BrowserRegistry.BrowserManager.GetPage | src/mcp-servers/browser.ts:581-598 | finds the named page or the active one, or says which is missing |
| BrowserRegistry.BrowserManager.ClearMarkers | src/mcp-servers/browser.ts:656-663 | the deleting walk leaves exactly the markers on other pages |
| BrowserRegistry.BrowserManager.CloseSession | src/mcp-servers/browser.ts:600-620 | drops the session and every marker on a page id of it |
| BrowserRegistry.BrowserManager.ClosePage | src/mcp-servers/browser.ts:2073-2096 | clears the page's markers first, and keeps the page when the browser fails to close it |
| BrowserRegistry.BrowserManager.SaveVideo | src/mcp-servers/browser.ts:1961-1982 | the same for sessions with a recording, an error for others |
| BrowserRegistry.BrowserManager.Mark | src/mcp-servers/browser.ts:2111-2129 | adds a marker under a new id on a page that is there, within the limit |
| BrowserRegistry.BrowserManager.SwitchPage | src/mcp-servers/browser.ts:2050-2060 | makes a page that is there active, or says what is missing |
| BrowserRegistry.BrowserManager.RemoveMarker | src/mcp-servers/browser.ts:648-654 | drops the marker and nothing else |
| BrowserRegistry.BrowserManager.OnNavigated | src/mcp-servers/browser.ts:538-543 | drops exactly the markers on the page |
| BrowserRegistry.NewMarkerIsNew | src/mcp-servers/browser.ts:631-631 | a new marker's id is not taken, whatever the clock says |
| BrowserRegistry.TabsAreCoherent | src/mcp-servers/browser.ts:327-352 | the tabs that are taken over have distinct ids and the first one is active |
| BrowserRegistry.StepKeepsIntact | src/mcp-servers/browser.ts:298-701 | every call keeps the registry intact, also when the browser fails half-way |
| BrowserRegistry.RunIsIntact | src/mcp-servers/browser.ts:556-663 | in every reachable state a session's active page is missing exactly when it has no pages and is one of them otherwise, every marker's page belongs to a live session, and the limits on markers and sessions hold |
| BrowserRegistry.ActivePageIsFound | src/mcp-servers/browser.ts:581-598 | a request without a page id succeeds exactly when the session has pages |
| BrowserRegistry.NamedPageIsFound | src/mcp-servers/browser.ts:581-598 | a request that names a page is about that page, and succeeds if and only if the session has it |
| BrowserRegistry.ClosingLeavesTheOthers | src/mcp-servers/browser.ts:2073-2095 | closing a page leaves exactly the other pages of its session, in order, and all other sessions as they were; the first of them is active in its stead; when the browser fails the sessions stay |
| BrowserRegistry.MarkIsOnItsPage | src/mcp-servers/browser.ts:2111-2129 | a marker is made on the page that the request names, or on the active one, under an id that is not taken; it is refused exactly when there is no such page, the element is missing or the limit is reached |
| BrowserRegistry.TargetIsAPage | src/mcp-servers/browser.ts:581-598 | the page that a request is about is one of the session's pages, so the closing law speaks of every such page |
| BrowserRegistry.NewPageIsActive | src/mcp-servers/browser.ts:556-579 | a new page comes last and is active, one under an id that is there only becomes active; refused exactly at the limit or when the browser fails |
| BrowserRegistry.SwitchingActivates | src/mcp-servers/browser.ts:2050-2060 | switching makes a page of the session active if and only if it is there, and changes nothing else |
| BrowserRegistry.LaunchStartsAfresh | src/mcp-servers/browser.ts:397-475 | a launch without reuse replaces the session by one without pages, if there is room once the old one is gone and the browser starts, and otherwise leaves it closed |
| BrowserRegistry.ConnectingTakesAllTabs | src/mcp-servers/browser.ts:298-395 | attaching takes over every tab, in order and under its number, with the first one active, or changes nothing |
| BrowserRegistry.SavingClosesThePage | src/mcp-servers/browser.ts:1961-1982 | a session without a recording has no video to finish; finishing one closes the page |
| BrowserRegistry.OtherSessionsStay | src/mcp-servers/browser.ts:298-663 | no call touches the session of another id |
| BrowserRegistry.MarkersAfter | src/mcp-servers/browser.ts:600-663 | every marker stays, on its page, through every call, except exactly those that close its page or its session, name it, or report its page navigated; only making a marker adds one, on the page that the request is about |
| BrowserRegistry.ClosingClearsItsMarkersOnly | src/mcp-servers/browser.ts:2085-2093 | closing a page removes exactly the markers on that page id |

## Left out

- CredentialLock.LateWaiterGivesUp: bounds a waiter's own steps, not time, and not a waiter that keeps finding the file gone or stale: the source starts over then without looking at the deadline.
- CredentialLock.MutualExclusion: `mkdirSync` before the lock is asked for is not a step; it reads and changes nothing that the protocol uses.
- Crashed holders: a process that dies with the lock is a run that is not prompt; a crash inside `acquire` between creating the file and writing to it is not a step of its own.
- Writers that take no lock: `src/mcp-servers/shared/google-auth.ts`, `src/mcp-servers/shared/spotify-auth.ts`, authorizing and deleting a credential.
- The legacy alias from Google service names to one credential, error texts, and what a provider does beyond persisting its result.
- ConfigDiff.DiffEmptyIffSame: keys are non-empty and dot-free and the root is an object, because dotted paths are ambiguous otherwise.
- GlobRules.GlobCompilerIsCorrect: the expression is modelled by the tokens that the passes can emit, not by general regular expressions.
- ConfigHeap.SetByPath: the source walks with a cursor in a loop; the model makes one call per segment, so that each node's frame is one step. Update in place, new nodes and aliasing with other trees are captured. The same holds for unset and for the channel setter.
- JavaScript specifics of objects and arrays: prototype keys (such as a section titled `constructor`, or a path through `__proto__`), reordering of integer-like keys, NaN, and indices that are not plain decimal numerals (`1e3`, `-1`, ` 2`). A hole in an array is an undefined element.
- `parseValue`, printing, loading and saving of config files, and their schemas.
- Overlapping reloads, the file watcher's polling, and log output.
- Sessions.BoundaryIsWithinADay: the offset from UTC is fixed; daylight saving and time-zone rules are not modelled.
- Forking and switching branches (`forkSession`, `switchToBranch`), the one way to reopen a closed session; summaries, personalities, and the channel columns of a peer.
- Availability.AvailableSlots: work hours come as instants, the calendar's answer as a list of events; invalid dates and fractional durations are not modelled.
- EnvFile.ParseOfUpsert: entries have keys in the accepted grammar, each once, and values without a line break; a value with a line break would be read as several lines. Writing through a temporary file is left out, and so is `upsertEnvVar` of the MCP commands, which replaces only the first duplicate.
- ChatQueue.RunIsSound: an error before the first connection ends the process and is not an event; rendering, streaming and the one-shot `chat send` are left out.
- BrowserRegistry.RunIsIntact: one call at a time; calls that interleave across awaits, page contents, histories, logs, and pages that a user closes in the browser are left out. Limits are numbers, never NaN. A page id that two sessions share loses its markers when either closes it, as in the source.
- Everything else: MCP wrappers and service calls, the vault, prompts, channels, the TUI, and single-branch helpers such as `resolvePersonality`, `routeCell` and `sanitizeSkills`.
