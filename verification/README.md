# ConnectMe: a verified model of its stateful cores

ConnectMe is a web console that opens remote desktops and shells through Guacamole. This
project models the parts of it that carry state, and proves what they promise over every run.

The style is the same throughout. Code that interleaves is a step system: a `State`, an
`Event`, a `Guard` and an `Apply`, one event for each critical section, SQL statement or
transaction, and runs (`IsRun`) of any length and any interleaving. The critical sections,
statements and loops themselves are methods on classes or arrays, proved against the
functions the step systems use. Hashes, MACs, ciphers and clocks are arbitrary functions
that satisfy exactly what the code relies on. Ids, tokens, keys, secrets and codes drawn at
random are fresh values.

- `Leases`, `LeaseSafety`, `LeaseOrigin`, `LeaseWatch`, `LeaseDrain`, `Gateway`: the lease map that
  launches, tunnels, file operations, closings, the expiry ticker and the shutdown share. Revoking
  tokens and closing file spaces happen outside the lock, so every launch and every remover in
  flight is part of the state. `Gateway` holds the code of the critical sections.
- `Quota`, `FileSpace`, `FileRace`, `FileStore`: the temporary file store; its quota walk, one
  file space, uploads racing with the close, and recovery after a crash.
- `Names`, `ModuleRegistry`: dependency resolution of the modules.
- `Trust`: SSH host keys, trusted on first use and then changed by an approved compare-and-swap.
- `Credentials`: envelope-encrypted secrets under a symbolic authenticated cipher.
- `Limiter`, `Lockout`, `LockoutRace`, `Sessions`, `SessionEnds`, `SessionHistory`, `Mfa`,
  `RecoveryCodes`, `Totp`: signing in.
- `Audit`, `Migrations`: the two append-only ledgers.
- `Wire`: the launch data signed and encrypted for Guacamole.
- `Uuid`: the texts a uuid column takes for one value. Credentials, sessions and the audit log
  meet them: a caller names a row by text, and the database reads it as a value.
- `Options`, `Sorting`, `Sums`, `Texts`: optional values, sorting, totals over the values of a map,
  and the spaces around a text.

## Where the code does less than it seems to

Each of these is proved, with a concrete input or run or for all of them, beside the lemma that
says exactly when the property holds.

- An edit of a credential takes any spelling of the row's uuid, and puts it into the labels as it
  stands. The row decrypts by its canonical id exactly if the last value was written by that
  spelling; else the connection can no longer use it.
- The same text comparison guards an administrator's own account: it is protected exactly against
  the canonical spelling of its id.
- The MAC of an audit event covers texts and a time that the row's columns change: a uuid gets its
  hyphens, a time loses its nanoseconds. It recomputes from the row exactly if every column gives
  back what it was given; for events about remote sessions that is never so.
- Which critical module a refused configuration names depends on the iteration order of a map, as
  soon as two of them are off; everything else about the outcome is determined.
- The quota walk adds sizes in 64 bits. Beyond 2^63 - 1 less the quota the sum wraps, the file goes
  unnoticed and the answer depends on the order of enumeration; up to there the walk is exact.
- A rotation that a deletion overtakes reports success and stores nothing.
- A session refused for idling is final exactly if no refresh of its own is still to be written.
- A password change or reset shuts out every earlier sign-in exactly if none was in flight.
- A confirmation of a second factor activates whatever secret the row then holds. That is the
  secret it verified exactly if no enrolment replaced it between the two statements.
- Sign-ins that overlap get past the lock together: with up to k failures read and not yet
  written the lockout's bound grows by k - 1 for each opening, and some run reaches it. The bound
  of sign-ins one after the other holds exactly for k = 1.
- Normalising a recovery code is idempotent exactly on strings that have no space at either end
  once the dashes are gone.
- Without a mishap a run of the migrations completes exactly if the list agrees with the ledger and
  with itself.

## Model

| member | source | states |
|---|---|---|
| LeaseSafety.TunnelsAreExclusive | modules/remote/module.go:292-372 | Over every interleaving no key has two claimed tunnels, a lease is active exactly if one claimed tunnel has not released it, and no owner holds more than eight leases |
| LeaseSafety.LeaseHoldsAlone | modules/remote/module.go:285-308 | A token or file space of a present lease is alive, and no other lease, launch or remover holds it |
| LeaseSafety.HeldOrLetGoOnce | modules/remote/gateway.go:63-95 | Every token and file space ever made is either held or was let go exactly once; spaces only by a close, tokens by a revocation or by the shutdown that drops them |
| LeaseSafety.NothingLeaks | modules/remote/module.go:251-308 | When no launch or removal is under way, what is alive is exactly what the leases hold |
| LeaseSafety.StopForgetsTokens | modules/remote/module.go:118-128 | The shutdown leaves no lease, and the tokens of those it takes are never revoked |
| LeaseOrigin.OriginAlways | modules/remote/module.go:243-307 | Whatever happens, a lease and every copy of it carry the connection, the fingerprint, the expiry and the files that its launch was asked for |
| LeaseOrigin.LeaseIsAsAsked | modules/remote/module.go:285-308 | Every lease in any reachable state comes from one launch: it has its id, owner, connection and fingerprint, ends 1800 seconds after it, has files exactly if a drive was asked for, and a token that was issued to it |
| LeaseOrigin.TokenedAlways | modules/remote/gateway.go:17-54 | A lease under a key only ever has tokens issued to the launch of that key |
| LeaseOrigin.DrawnByLaunch | modules/remote/module.go:244-250 | Every id in use was drawn by one launch |
| LeaseOrigin.ServedWithinHalfAnHour | modules/remote/module.go:339-345 | A request is let on to a lease only within 1800 seconds of its launch |
| LeaseOrigin.SurroundingsAreAsTold | modules/remote/module.go:384-393 | No request changes the logins, permissions or connections that the watchers look at, and the clock never runs back |
| LeaseOrigin.OverForGood | modules/remote/module.go:346-372 | A request that was turned away or is over does nothing more |
| LeaseDrain.OwnRunsEnd | modules/remote/gateway.go:81-95 | However the process goes on by itself, each step leaves less to do, so no such run is longer than the work there was |
| LeaseDrain.AtRestIffStuck | modules/remote/module.go:251-308 | It can do nothing more by itself exactly if no launch and no removal is under way |
| LeaseDrain.EveryOwnRunComesToRest | modules/remote/module.go:206-312 | So every run of own steps is finite, and one that cannot go on is at rest with nothing leaked |
| LeaseDrain.ReachableComesToRest | modules/remote/module.go:206-312 | From every reachable state such a run comes to rest |
| LeaseDrain.LaunchGoesThrough | modules/remote/module.go:285-308 | A launch that has its token comes by itself to an end with its lease in the map, exactly if its owner then has fewer than eight leases that have not expired |
| LeaseDrain.LaunchGetsItsToken | modules/remote/module.go:277-284 | A launch with a new id can begin, be issued a token and go on with it, changing neither the leases nor the clock |
| LeaseSafety.InvAlways | modules/remote/module.go:206-312 | The invariant behind these (conservation, fresh ids, agreement of lease copies, claims, limit) holds in every reachable state |
| LeaseSafety.InvStep | modules/remote/module.go:103-128 | Each step of launches, tunnels, closings, ticker and shutdown keeps that invariant |
| Leases.TotalDetach | modules/remote/gateway.go:81-95 | Sweeping any list of leases moves what they hold, no more and no less, to the sweeper's list |
| LeaseWatch.RemovedForGood | modules/remote/gateway.go:69-73 | A removed lease never comes back, and no tunnel is claimed on it afterwards |
| LeaseWatch.LeaseLastsUntilExpiry | modules/remote/gateway.go:81-95 | No sweep takes a lease before it expires: until then it stays as it is, unless its session is closed or the process stops |
| LeaseWatch.ExpiredIsSwept | modules/remote/gateway.go:81-95 | A sweep of the ticker or of any launch takes every lease that had expired when it began, for good |
| LeaseWatch.WorkWasLaunched | modules/remote/module.go:339-364 | Every tunnel or file operation works on a lease that some launch made for that key |
| LeaseWatch.LossCancelsWithinATick | modules/remote/module.go:376-396 | If the lease, the login, the permission or, for the connection that the launch was asked for, the fingerprint it then had is lost throughout one tick of the watcher, that tick cancels the tunnel or file operation |
| LeaseWatch.RemovalCancelsWithinATick | modules/remote/transfers.go:79-92 | Work whose lease is gone when a tick begins is cancelled by the end of the tick |
| LeaseWatch.UntouchedWorkSurvives | modules/remote/module.go:384-393 | A tick during which nothing was lost, the connection and fingerprint of the launch included, cancels nothing |
| LeaseWatch.LiveWorkHasItsLease | modules/remote/module.go:342-374 | Running work ends before its lease expires; while the lease is there it still has the token the work uses, not revoked |
| LeaseWatch.TunnelRunsUntilExpiry | modules/remote/module.go:373-375 | A claimed tunnel runs until it is finished or cancelled or the lease it saw expires |
| LeaseWatch.TransferRunsTwoMinutes | modules/remote/transfers.go:52-59 | So does a file operation, but for no more than two minutes |
| LeaseWatch.StrandedWorkIsCancelled | modules/remote/transfers.go:66-94 | Over any run a file operation whose space was closed is cancelled after at most seven steps of its own watcher, even if a tick had already seen its lease |
| LeaseWatch.StrandedWatcherMoves | modules/remote/transfers.go:71-79 | Until then the watcher always has a step, and from idle one that cancels at once |
| Gateway.Gateway.constructor | modules/remote/module.go:61-89 | The gateway starts with no lease and nothing in flight |
| Gateway.CountOwned | modules/remote/module.go:294-299 | The loop counts exactly the owner's leases, in any order |
| Gateway.Gateway.Insert | modules/remote/module.go:292-307 | The insertion refuses at eight leases of the owner, and is the launch step of the protocol |
| Gateway.Gateway.Lookup | modules/remote/module.go:339-345 | Finds the lease exactly if it is there and not yet expired |
| Gateway.Gateway.Claim | modules/remote/module.go:355-364 | Succeeds exactly on a present lease that is not active, and then this tunnel alone holds it |
| Gateway.Gateway.Release | modules/remote/module.go:365-372 | Clears the flag if the lease is still there, and does not bring a removed one back |
| Gateway.Gateway.Take | modules/remote/gateway.go:70-73 | Takes the lease out of the map, or reports that it was not there |
| Gateway.Gateway.TakeAll | modules/remote/module.go:118-123 | The shutdown takes all leases and leaves the map empty |
| Gateway.Gateway.Expire | modules/remote/gateway.go:81-90 | With the clock running on during the loop: every lease expired at its start is taken, and none that had not expired by its end |
| Gateway.Gateway.TakeExpired | modules/remote/module.go:103-115 | The same sweep as one step of the protocol |
| Quota.Walk | modules/remote/storage.go:191-215 | The walk with its early exits gives the verdict of the specification, wrap-around included |
| Quota.WalkAcceptsIffWithinLimits | modules/remote/storage.go:193-215 | With no file of almost 2^63 bytes it accepts exactly if there are at most 4096 entries and the sizes with the upload stay within 128 MiB |
| Quota.WalkIsRightIff | modules/remote/storage.go:193-215 | It is right for every directory and upload exactly if no file is larger than 2^63 - 1 less the quota |
| Quota.OrderIsIrrelevantIff | modules/remote/storage.go:193-215 | Up to that size, and no further, its answer does not depend on the order of enumeration |
| Quota.LargerFileIsOverlooked | modules/remote/storage.go:209-213 | Every larger file is let in behind a full quota, and refused in front of it |
| Quota.SizesIgnoreOrder | modules/remote/storage.go:193-215 | The count and the exact total do not depend on the order of enumeration |
| Quota.VisitsWeigh | modules/remote/storage.go:193-210 | The walk over a tree visits every entry of it, and counts symbolic links but not their size |
| Quota.ListedWeighs | modules/remote/storage.go:193-215 | The walk over a directory sums over its entries, however they are listed |
| FileSpace.AddKeepsLimits | modules/remote/storage.go:183-228 | An accepted upload of at most 32 MiB leaves the directory within all limits |
| FileSpace.WalkDecides | modules/remote/storage.go:191-218 | Whatever lies in the directory, links, subdirectories and files of others included, the walk's verdict is acceptance by the limits |
| FileSpace.FileSpace.constructor | modules/remote/storage.go:97-97 | A file space begins open and empty |
| FileSpace.FileSpace.Upload | modules/remote/storage.go:159-229 | Publishes the whole body under a valid, unused name within the limits, if the disk refuses no operation; every refusal names its reason and leaves the files as they were; a directory within limits stays within them |
| FileSpace.FileSpace.Download | modules/remote/storage.go:230-253 | Returns the bytes, exactly for valid names of regular files of at most 32 MiB |
| FileSpace.FileSpace.Close | modules/remote/storage.go:99-113 | Closes, and removes every file |
| FileSpace.UploadThenDownload | modules/remote/storage.go:159-253 | After a successful upload a second one of the name fails, whatever the disk does, and a download returns the first bytes |
| FileRace.InvAlways | modules/remote/storage.go:159-229 | One holder of the mutex, temporaries only of uploads at work, in every reachable state |
| FileRace.ClosedStays | modules/remote/storage.go:103-108 | A closed space stays closed |
| FileRace.NoPublicationAfterClose | modules/remote/storage.go:163-167 | After the close no upload publishes, and every upload still there is waiting or leaving |
| FileRace.NoPublicationAfterDone | modules/remote/storage.go:186-190 | An upload that has not passed the check when done is closed never publishes |
| FileRace.ServingHelps | modules/remote/transfers.go:61-79 | While a close waits there is always an enabled step of the process itself that brings it nearer, in at most six |
| FileRace.PendingCloseCompletes | modules/remote/transfers.go:61-94 | A close waiting behind a blocked upload can always complete, and remove the directory, within six steps that need no other party |
| FileRace.UploadsStayWithinLimits | modules/remote/storage.go:183-218 | With no outside writer the directory has at most 4096 entries, every one is a regular file of at most 32 MiB, and all of them hold at most 128 MiB, over any run |
| FileRace.NeverOverwritten | modules/remote/storage.go:225-228 | No upload ever replaces a file that is there |
| FileRace.FilesWereUploaded | modules/remote/storage.go:159-229 | With no outside writer every file arrived under its name, and was received with its content, before it was published |
| FileRace.UploadGoesThrough | modules/remote/storage.go:159-229 | An upload of at most 32 MiB that fits under a free name is there afterwards, from any state in which the space is open and its mutex free, and leaves nothing else behind |
| FileRace.RefusedNeverPublishes | modules/remote/storage.go:163-218 | An upload that is turned away, fails, is cut off, is too long, sees the close or finds no room never publishes, whatever happens later |
| FileRace.OutsideWritesStay | modules/remote/storage.go:159-229 | What others write into the directory stays until a publication, the close or another such write |
| FileStore.FileStore.constructor | modules/remote/storage.go:58-63 | The store sees what lies on disk |
| FileStore.FileStore.Recover | modules/remote/storage.go:60-82 | Removes exactly the session directories and upload temporaries, and nothing else even when it fails |
| FileStore.FileStore.Create | modules/remote/storage.go:84-98 | Makes the directory exactly for a well-formed unused id, and takes it back if it cannot be opened |
| FileStore.IdsAreSixteenBytes | modules/remote/storage.go:84-90 | The names taken for session directories are exactly the hexadecimal texts of sixteen bytes |
| FileStore.StartAfterCrash | modules/remote/storage.go:38-83 | Whatever the sessions were doing at the crash, a start that succeeds leaves only what others put there |
| Names.SortIgnoresOrder | core/modules/modules.go:101-107 | Sorting makes the visiting order independent of map iteration |
| Names.LeqMeans | core/modules/modules.go:107-107 | The order of names is that of the first character in which they differ, a beginning coming first |
| ModuleRegistry.ExploreExtends | core/modules/modules.go:75-100 | A visit keeps the order topological and ends with its module in it |
| ModuleRegistry.ExploreExplains | core/modules/modules.go:75-100 | A failing visit names a real missing, disabled or circular dependency, and its trail is a chain to it |
| ModuleRegistry.TopologicalIsAcyclic | core/modules/modules.go:97-98 | A complete topological order shows that no dependency is missing, off or circular |
| ModuleRegistry.ResolveSucceedsIffAcceptable | core/modules/modules.go:60-115 | Resolution succeeds exactly if no critical module is off, every dependency is on and there is no cycle; then the order holds exactly the enabled modules, dependencies first; else the error is real |
| ModuleRegistry.ResolveSucceedsIff | core/modules/modules.go:60-115 | In terms of the modules and the configuration alone: it succeeds exactly if no critical module is switched off, every dependency of a module that is not switched off is registered and not switched off, and no walk along dependencies returns to where it started; a module the configuration does not mention is on |
| ModuleRegistry.OrderMeans | core/modules/modules.go:72-115 | The order holds every module that is not switched off exactly once, each after all that it lists |
| ModuleRegistry.FaultMeans | core/modules/modules.go:67-91 | A fault names a critical module that the configuration switches off, an unregistered or switched-off module that some module lists, or one on a loop of dependencies |
| ModuleRegistry.NothingConfigured | core/config/config.go:44-52 | With nothing configured no module is off: resolution then succeeds exactly if every dependency is registered and there is no loop, and orders every module |
| ModuleRegistry.SmallerNamesFirst | core/modules/modules.go:93-112 | A module stands before one with a smaller name only if a module whose name is at most that one's needs it, directly or through others |
| ModuleRegistry.ResolveIsDeterministic | core/modules/modules.go:60-115 | Two resolutions of the same input agree, up to which critical module is named |
| ModuleRegistry.OneAnswerIffAtMostOneOff | core/modules/modules.go:62-71 | Resolution gives one answer for all orders of map iteration exactly if no two critical modules are off |
| ModuleRegistry.OrdersNamingEither | core/modules/modules.go:62-69 | Of any two that are off, some order of iteration names the one and some order the other |
| ModuleRegistry.ReversedAt | core/modules/modules.go:134-135 | The order of stopping mirrors that of starting |
| ModuleRegistry.DependentsStopFirst | core/modules/modules.go:132-141 | Whatever a module needs is stopped after it |
| ModuleRegistry.Search.constructor | core/modules/modules.go:72-73 | The search starts with nothing marked |
| ModuleRegistry.Search.Visit | core/modules/modules.go:75-100 | The recursive marking visit computes the specified exploration |
| ModuleRegistry.Order | core/modules/modules.go:107-112 | So does the loop over the sorted names |
| ModuleRegistry.Registry.Add | core/modules/modules.go:49-59 | Adds a named, versioned module whose name is new, and else changes nothing |
| ModuleRegistry.Registry.Select | core/modules/modules.go:61-106 | The loop over the map gives a critical module that the configuration switches off, the first in its order of iteration, or all names that are not switched off |
| ModuleRegistry.Registry.Resolve | core/modules/modules.go:60-115 | Succeeds exactly on those conditions and then replaces the order by one of all modules not switched off, dependencies first; on failure names a real defect and leaves the order alone |
| ModuleRegistry.Registry.Start | core/modules/modules.go:124-131 | Starts in order up to the first failure, each module after everything it needs |
| ModuleRegistry.Registry.Stop | core/modules/modules.go:132-141 | Stops all in reverse order, each module before everything it needs, and collects every failure |
| Trust.HistoryIsChain | modules/connections/ssh_trust.go:22-50 | Under any interleaving the history of each address is a chain from nothing to the stored key; adjacent keys differ and each later change was approved as exactly that pair of fingerprints |
| Trust.HistoryGrows | modules/connections/ssh_trust.go:35-50 | The history is only ever extended |
| Trust.NoSilentReplacement | modules/remote/ssh_enrollment.go:90-113 | A trusted key is replaced only with the approved change on record |
| Trust.ProbeDecides | modules/remote/ssh_enrollment.go:80-96 | Under any interleaving a request passes the probe exactly if it read nothing, or the very key it observes, or it approves the fingerprints of the key observed and of the key read |
| Trust.RecheckDecides | modules/remote/ssh_enrollment.go:97-109 | It then reaches the save exactly if the destination is unchanged and the keys differ |
| Trust.SaveTakesEffect | modules/remote/ssh_enrollment.go:80-113 | If nobody else saves for the address after its read, the save stores the observed key and adds that one change to the history |
| Trust.SavesIffApproved | modules/remote/ssh_enrollment.go:67-113 | From any reachable state an undisturbed request saves exactly if what it observes is not what is stored, and nothing is stored or it approves both fingerprints |
| Trust.AbandonedNeverSaves | modules/remote/ssh_enrollment.go:92-105 | A request that gave up never saves |
| Trust.TrustStore.SSHKey | modules/connections/ssh_trust.go:11-18 | Answers with the stored key, or with nothing |
| Trust.TrustStore.SaveSSHKey | modules/connections/ssh_trust.go:22-50 | Changes row and history together, exactly if the row still is what was read |
| Credentials.DecryptsIffLastWrittenCanonically | modules/credentials/edit.go:38-67 | Over any run a row is live exactly if not deleted since its value was last written; it then decrypts by the spelling of that write, to the secret that was asked for, and by its canonical id exactly if that was the spelling |
| Credentials.RotationIsAsAsked | modules/credentials/module.go:111-134 | What a rotation writes is the value it was asked for, under the type given or else the one the row had when it was read |
| Credentials.AlwaysDecryptable | modules/credentials/module.go:93-110 | So if every edit that writes a value spells the id canonically, every live row decrypts by its id in every reachable state |
| Credentials.OtherSpellingLocksOut | modules/credentials/edit.go:54-67 | An edit by any other spelling leaves the row live and not to be decrypted by its id |
| Credentials.UppercaseLocksOut | modules/credentials/edit.go:38-64 | Upper case is such a spelling |
| Uuid.CanonIsCanonical | migrations/credentials/0001_credentials.up.sql:2 | The canonical text of a uuid stands for itself, and no text of one holds a colon |
| Uuid.UppercaseIsSameValue | migrations/credentials/0001_credentials.up.sql:2 | A uuid column takes upper case for the same value |
| Uuid.ShownIsCanonical | modules/credentials/module.go:229-247 | 32 lower-case digits in groups of 8, 4, 4, 4 and 12, as new ids are written, are canonical |
| Uuid.ShownInGroups | modules/credentials/module.go:229-247 | That is the groups with hyphens between them |
| Uuid.PlainDigitsAreNotCanonical | modules/remote/module.go:250-250 | 32 digits without hyphens, as remote sessions are named, are the same value and not its text |
| Credentials.RotationStoresUnlessDeleted | modules/credentials/module.go:111-137 | A rotation's secret is stored exactly if the row was not deleted meanwhile |
| Credentials.RotationMayBeLost | modules/credentials/module.go:135-136 | A deletion between its two statements loses it |
| Credentials.ItoaExact | modules/credentials/module.go:248-253 | The version's spelling is its decimal one exactly for 1 and 2, the only versions reachable |
| Credentials.LabelsAreDistinct | modules/credentials/module.go:128-128 | Labels of ids without a colon determine id and type |
| Credentials.CiphertextIsBound | modules/credentials/module.go:101-105 | A stored ciphertext decrypts only by a spelling of the id, and under the type, it was sealed for |
| Credentials.Provider.constructor | modules/credentials/module.go:48-48 | The provider starts without rows |
| Credentials.Provider.Read | modules/credentials/module.go:93-110 | Gives the secret exactly by the spelling it was last written with |
| Credentials.Provider.Write | modules/credentials/module.go:119-135 | What is written by a text is from then on retrieved by that text, and by no other spelling |
| Credentials.Provider.Store | modules/credentials/module.go:54-76 | Stores every secret that is not empty, and leaves the others' alone; it is the step of the interleaved model |
| Credentials.Provider.Rotate | modules/credentials/module.go:111-137 | Works exactly by the spelling the live row was last written with, and keeps the type if none is given |
| Credentials.Provider.Update | modules/credentials/edit.go:22-83 | Refuses a blank name, an unknown type, a missing row and a new type without a new value; with a value, only the spelling of the path retrieves it afterwards; without one nothing changes |
| Credentials.Provider.Delete | modules/credentials/module.go:138-141 | Nothing is retrieved by any spelling of the id any more, and the rest stays |
| Limiter.Compact | modules/identity/module.go:203-209 | Filtering into the front of the slice being read yields the times after the cut, in order |
| Limiter.Append | modules/identity/module.go:214-214 | Appending extends the slice, in place or in a copy |
| Limiter.Decide | modules/identity/module.go:203-215 | One call on one slice is one step of the specification |
| Limiter.Limiter.AllowLogin | modules/identity/module.go:200-216 | The call changes the times of its own address only, and admits exactly if fewer than ten are young |
| Limiter.CompactionIsLossless | modules/identity/module.go:203-214 | The compacted times and all times ever admitted filter to the same at every later cut |
| Limiter.RefusedIffTenAreYoung | modules/identity/module.go:210-213 | A call is refused exactly if ten of all admitted attempts are younger than a minute, and no more than ten are kept |
| Limiter.AdmittedUnlessTenAreYoung | modules/identity/module.go:200-216 | So that alone decides which attempts are ever admitted |
| Limiter.AdmittedIsSpread | modules/identity/module.go:200-216 | From any admitted attempt the tenth after it comes at least a minute later |
| Limiter.NoWindowHoldsEleven | modules/identity/module.go:200-216 | Every half-open window of a minute, open on either side, holds at most ten admitted attempts |
| Limiter.ClosedWindowMayHoldEleven | modules/identity/module.go:206-206 | A closed one may hold eleven |
| Lockout.User.Login | modules/identity/service.go:141-155 | Signs in exactly with the right password and factor while enabled and not locked, and then clears the count and the lock; a wrong one counts, and from five on locks for fifteen minutes; a missing factor changes nothing |
| Lockout.LockedGuesses | modules/identity/service.go:142-145 | With five or more failures and the lock closed, an interval holds at most one compared guess when it opens and one for each full quarter of an hour after |
| Lockout.GuessesAreSpaced | modules/identity/service.go:142-145 | From the fifth failure on each wrong password compared comes at least a quarter of an hour after every failure before it |
| Lockout.GuessesAreBounded | modules/identity/service.go:141-155 | Without a successful sign-in at most 5 + T/15min wrong passwords are compared in any interval of length T, from any state |
| Lockout.BoundIsMet | modules/identity/service.go:141-155 | For every number of quarters some run reaches that bound |
| Lockout.FailuresRenewTheLock | modules/identity/service.go:142-145 | While attempts keep coming less than a quarter of an hour apart nothing is compared, not even the right password |
| Lockout.SignInStartsAfresh | modules/identity/service.go:141-155 | After a successful sign-in, whatever was before, nothing is locked until five failures have been counted, and the password of each of the next five sign-ins is compared |
| Lockout.FiveFailuresLock | modules/identity/service.go:142-155 | Five wrong ones after it lock the account for fifteen minutes after the last |
| LockoutRace.ReadThenMarkIsStep | modules/identity/service.go:141-145 | Reading and then writing without anything in between is the sign-in of the sequential model |
| LockoutRace.GuessesAreBounded | modules/identity/service.go:141-155 | With at most k failures read and not yet written, at most 5 + T/15min + (k - 1)(1 + T/15min) wrong passwords are compared in any interval of length T, under any interleaving |
| LockoutRace.BoundIsMet | modules/identity/service.go:141-155 | For every k and every number of quarters some run meets that bound exactly |
| LockoutRace.SequentialBoundHoldsIff | modules/identity/service.go:141-155 | The bound of sign-ins one after the other, 5 + T/15min, holds of all runs exactly if k is one |
| Sessions.InvAlways | modules/identity/service.go:169-181 | Last-seen is never ahead of the last activity, and trails it by at most a minute once requests are done and their refreshes written |
| Sessions.IdleDecides | modules/identity/service.go:174-179 | Idle longer than the limit is refused; idle at most the limit less a minute is accepted exactly if the session is not revoked or expired and its user active |
| SessionHistory.AcceptedIff | modules/identity/service.go:169-186 | Told from the events alone: a session is accepted exactly if since it was opened there was no logout of its token, no password change and no edit that withdraws access of its user, its time is not over, its last written activity is not longer ago than the idle time, and its user is there and enabled |
| SessionHistory.RowSince | modules/identity/service.go:156-162 | A session keeps the user whose password was compared and its expiry, and is revoked by exactly those events |
| SessionHistory.SignInWasChecked | modules/identity/service.go:141-148 | A session is only opened for a sign-in whose password was compared while its account was there and enabled |
| SessionHistory.LastSeenSince | modules/identity/service.go:177-179 | Last-seen is the time it was opened or last refreshed |
| SessionHistory.AccountIsAsLastEdited | modules/identity/edit.go:22-64 | An account is as the last edit that was carried out left it |
| SessionHistory.LastUseDecides | modules/identity/service.go:173-179 | What counts for idling is the last accepted request: longer ago than the idle time is refused, a minute less than that is not, as long as no refresh failed |
| SessionHistory.WritesIfAMinuteBehind | modules/identity/service.go:177-179 | A request sets out to write last-seen exactly if it is more than a minute behind |
| SessionEnds.RefusedForever | modules/identity/service.go:173-175 | Revoked, expired, removed or finally idle sessions are never accepted again |
| SessionEnds.DeadIffNeverAccepted | modules/identity/service.go:173-180 | And no others: every other session is accepted in some continuation, as long as any account is active |
| SessionEnds.RefreshInFlightRevives | modules/identity/service.go:174-179 | A refused session of an active account is not dead exactly if a refresh of its own is under way that makes it acceptable |
| SessionEnds.LogoutIsFinal | modules/identity/service.go:182-186 | After a logout the token is never accepted again |
| SessionEnds.OnlyLaterSessionsSurvive | modules/identity/edit.go:54-76 | After a password change, reset, disabling or removal only sessions inserted later are accepted, even if the account is enabled again |
| SessionEnds.OnlyNewSignInsSurvive | modules/identity/service.go:187-217 | If no sign-in of the account was in flight at the change, each session accepted later had its password compared after it |
| SessionEnds.InFlightSignInSurvives | modules/identity/service.go:141-162 | If one was, it can still open an accepted session |
| SessionEnds.ChangeShutsOutIffNoneInFlight | modules/identity/edit.go:65-76 | So the change shuts out every sign-in made before it exactly if none was in flight |
| SessionEnds.LateRefreshRevives | modules/identity/service.go:177-179 | A run in which a late refresh makes a refused idle session acceptable |
| SessionEnds.SignInInFlightSurvives | modules/identity/service.go:141-162 | A run in which a sign-in in flight across a password change opens an accepted session |
| Sessions.Tables.Authenticate | modules/identity/service.go:169-181 | Accepts by the specification, and refreshes only when more than a minute behind |
| Sessions.Tables.Revoke | modules/identity/service.go:208-208 | Revokes exactly the sessions of the account |
| Sessions.OwnAccountIsProtectedIff | modules/identity/edit.go:22-76 | The accepted sessions of an account that disables, removes or resets itself stay accepted exactly if the path spells its id as it is |
| Sessions.NobodyLocksThemselvesOut | modules/identity/edit.go:22-76 | Over any run an edit that spells the id canonically never takes away the access of the one who makes it |
| Sessions.OtherSpellingLocksOneselfOut | modules/identity/edit.go:22-57 | In upper case it can |
| Sessions.Tables.Edit | modules/identity/edit.go:18-76 | Refuses blank fields, an unusable password, an address in use, an inactive actor, a missing user and the actor's own id; else revokes in the same transaction exactly when access is withdrawn |
| Mfa.ActiveForever | modules/identity/service.go:232-235 | An active factor never returns to pending and never changes its secret |
| Mfa.EachCodeOnce | modules/identity/service.go:277-279 | Over any interleaving each recovery code is accepted at most once, and only if issued |
| Mfa.FirstUseIsAccepted | modules/identity/service.go:253-279 | Its first use is accepted unless the codes were replaced |
| Mfa.AcceptedIff | modules/identity/service.go:253-279 | A recovery code is accepted exactly if it is one of the ten that the latest confirmation issued and was not used since |
| Mfa.EnrolmentGoesThrough | modules/identity/service.go:223-279 | While no factor is active, an undisturbed enrolment activates the secret it offered, and each of its codes is then accepted |
| Mfa.GivenUpForGood | modules/identity/service.go:238-280 | A request that is over confirms and spends nothing more |
| Mfa.SecretIsTheOneRead | modules/identity/service.go:232-240 | The row holds the secret read from it exactly as long as no enrolment replaced it |
| Mfa.ConfirmsWhatItVerified | modules/identity/service.go:238-267 | A confirmation activates the secret it verified exactly if no enrolment came between its statements |
| Mfa.UnverifiedSecretMayBecomeActive | modules/identity/service.go:263-263 | Otherwise a secret no code was verified for becomes active |
| Mfa.Table.Begin | modules/identity/service.go:223-237 | Sets a pending secret unless a factor is active |
| Mfa.Table.Confirm | modules/identity/service.go:253-266 | Replaces all codes and activates the factor, or changes nothing if a code repeats |
| Mfa.Table.Verify | modules/identity/service.go:268-280 | Accepts a TOTP code of the active secret, or an unused recovery code, which is then used |
| RecoveryCodes.SpellingDoesNotMatter | modules/identity/totp.go:55-57 | A code is found under any spelling with dashes anywhere, either case and spaces around it |
| RecoveryCodes.ShownIsTypeable | modules/identity/totp.go:49-57 | In particular as it is shown, in four groups of four |
| RecoveryCodes.IdempotentIffTrimmedWithoutDashes | modules/identity/totp.go:55-57 | Normalising twice changes nothing exactly if no space is left at an end once the dashes are gone |
| RecoveryCodes.NotIdempotentInGeneral | modules/identity/totp.go:55-57 | There are such strings |
| Totp.CounterBytes | modules/identity/totp.go:31-36 | The loop writes the eight bytes that spell the counter, most significant first, for every 64-bit counter |
| Totp.BigEndianIsInjective | modules/identity/totp.go:32-36 | No other eight bytes spell it |
| Totp.Truncate | modules/identity/totp.go:40-41 | The value has 31 bits, and the four indices are in range |
| Totp.TruncateReadsFourBytes | modules/identity/totp.go:40-41 | It is the big-endian number of four bytes of the digest, without its top bit |
| Totp.DecimalStandsForNumber | modules/identity/totp.go:42-42 | The zero-padded digits stand for the number |
| Totp.NumberHasOneSpelling | modules/identity/totp.go:42-43 | A string of six digits is the only one for its number |
| Totp.Password | modules/identity/totp.go:31-42 | The loop body computes the HOTP value of its counter |
| Totp.HotpIsUnique | modules/identity/totp.go:31-43 | A counter has one password |
| Totp.Verify | modules/identity/totp.go:25-48 | Accepts exactly the passwords of the steps before, at and after now; never for a secret that does not decode |
| Totp.StepsAreThirtySeconds | modules/identity/totp.go:31-31 | Steps are thirty seconds, but for the one around 1970, where division toward zero makes it 59 |
| Totp.CounterOfStep | modules/identity/totp.go:31-31 | Steps from 1970 on count themselves; those before wrap around |
| Totp.HotpMeans | modules/identity/totp.go:37-43 | The password of a counter is the six digits of four bytes of the digest, as a 31-bit number modulo a million |
| Totp.AcceptedForNinetySeconds | modules/identity/totp.go:30-45 | From thirty seconds after 1970 on, a code is accepted exactly if it is the password of a step whose thirty seconds are on, follow or went before: each password for ninety seconds |
| Totp.CountersDiffer | modules/identity/totp.go:31-31 | Different steps have different counters, negative ones included |
| Audit.LogIsLinear | modules/audit/module.go:29-59 | Over any interleaving of committing and aborting transactions the events form one linked list from the genesis value to the head |
| Audit.EntryIsAsRecorded | modules/audit/module.go:29-59 | Every event of the log was committed by a transaction that began with that very event, and inserted it with that id and time |
| Audit.LogGrows | modules/audit/module.go:50-58 | Each commit adds one event, and none is ever taken away |
| Audit.FailedNeverCommits | modules/audit/module.go:33-49 | A transaction that could not read the head or gave up commits nothing |
| Audit.RecordGoesThrough | modules/audit/module.go:29-59 | While nobody holds the head, a transaction that meets no failure records its event behind it |
| Audit.HeadDeterminesLog | modules/audit/module.go:46-54 | With an injective MAC the head determines the whole list |
| Audit.NoFork | modules/audit/module.go:38-55 | No two events have the same predecessor |
| Audit.LinkedPrefix | modules/audit/module.go:46-50 | Every prefix is itself such a list |
| Audit.RowRecomputesIffColumnsKeepIt | modules/audit/module.go:41-50 | An event's hash recomputes from its row exactly if its time had no fraction of a microsecond and each column gives back the very text put into it |
| Audit.SessionEventsNeverRecompute | modules/remote/transfers.go:105-111 | No event about a remote session does, at whatever time: its 32 digits come back with hyphens |
| Audit.UuidKeepsCanonical | migrations/audit/0001_audit.up.sql:2 | A uuid column gives back a text it takes exactly if that is the canonical one |
| Audit.NanosecondsAreLost | modules/audit/module.go:41-50 | An event recorded a nanosecond past the microsecond does not recompute either |
| Audit.Service.Record | modules/audit/module.go:29-59 | Appends exactly the given event, linked to the head, and moves the head to its MAC, or changes nothing |
| Migrations.Runner.Migrate | core/database/migrate.go:59-86 | The loop executes the specified run, with crashes and failures at any place |
| Migrations.RunFaithful | core/database/migrate.go:59-86 | A run keeps: each migration took effect at most once, and the ledger holds exactly those that did |
| Migrations.RunLeaves | core/database/migrate.go:59-86 | A run records every migration before the one it ends at, with its checksum, and none behind it; the one it stops at exactly if its commit was made; no row is ever lost or changed |
| Migrations.AtMostOnce | core/database/migrate.go:46-87 | So does any sequence of runs, of any lists |
| Migrations.AlwaysFaithful | core/database/migrate.go:46-87 | From a new database on, the ledger always records exactly what was executed, and nothing was twice |
| Migrations.PrefixStaysPrefix | core/database/migrate.go:59-86 | A ledger that is a prefix of the list, repeated versions included, stays one and never shrinks; a completed run leaves the whole list |
| Migrations.DistinctPrefixNeverMismatches | core/database/migrate.go:61-67 | With every version listed once such a run never meets a changed checksum |
| Migrations.RerunExecutesNothing | core/database/migrate.go:60-67 | Running a completed list again executes nothing |
| Migrations.MismatchStops | core/database/migrate.go:62-66 | For any list and ledger a changed checksum stops the run at its place at the latest, and it does what the list cut off there would have it do |
| Migrations.SortByVersion | core/database/migrate.go:43-43 | A permutation in order of version |
| Migrations.Load | core/database/migrate.go:22-45 | Lists exactly the files whose names end in .up.sql, by version, and fails exactly if a name does not parse |
| Migrations.LoadedListIsUnique | core/database/migrate.go:43-44 | With distinct versions the list does not depend on the order of the directory or the sort |
| Migrations.CompletesIffAgrees | core/database/migrate.go:59-86 | A run without mishap completes exactly if every listed migration agrees with its row, if it has one, and no version is listed with two texts |
| Migrations.RepeatedVersionNeverCompletes | core/database/migrate.go:59-66 | With two texts for a version no run completes, whatever befalls it |
| Wire.SignedData | modules/remote/module.go:186-205 | Encrypts the MAC, the payload and 1 to 16 bytes that each hold their own number: each block of the result encrypts a block of those combined with the block of the result before it, the first one as it is |
| Wire.CryptBlocks | modules/remote/module.go:198-203 | The block by block loop is CBC with a zero first block |
| Wire.ChainedAt | modules/remote/module.go:203-203 | Block by block, from any first block |
| Wire.ReceivedSigned | modules/remote/module.go:186-205 | For any block permutation, decrypting, unpadding and splitting returns exactly the MAC and the payload |
| Wire.SignedIsInjective | modules/remote/module.go:186-205 | Distinct payloads give distinct messages |
| Wire.UnchainedChained | modules/remote/module.go:198-203 | Chaining is undone block by block, from any first block |
| Wire.UnpaddedPadded | modules/remote/module.go:194-197 | Padding of 1 to 16 bytes is taken off again |

## Left out

- HTTP, cookies, CSRF, templates, the Guacamole proxy, metrics, events and logging: transport. Only the answers the protocols depend on are kept.
- `pkg/validation`, `modules/remote/policy.go` and the records behind `validateWithTrust`: a fingerprint of the current records, or an error, is a parameter of a step.
- The internals of SHA, HMAC, AES-GCM, AES, argon2, base 32, base 64 and SSH: arbitrary functions with the properties the code relies on (injective MACs, decryption only under the same key and label).
- Collisions of random ids, tokens, keys, secrets and codes: fresh by assumption.
- Session keys and token hashes: `sessionKey` and SHA-256 are taken as injective, so cookies and ids stand for them.
- Accuracy of clocks, tickers and deadlines: watchers tick as steps, and server and database share one nondecreasing clock.
- Errors of the database, except where the code ignores them or a step may fail: a failing statement leaves the tables as they were.
- `validFilename` and `list`: pure string tests and a listing; a valid name is a parameter.
- File modes, symbolic links in place of the transfer root and the contents of `.pending` that do not come from uploads: only names and whether an entry is a directory are kept.
- Quota.WalkAcceptsIffWithinLimits: assumes no file of almost 2^63 bytes; Quota.WalkIsRightIff shows that this is the exact limit.
- FileSpace.WalkDecides: assumes the same of the files in the directory, and so does FileSpace.FileSpace.Upload.
- Permissions: SessionEnds.DeadIffNeverAccepted takes any active account for one that may edit users.
- What the texts of an edit are stored as (names, addresses, user names): only whether they are blank, usable or in use.
- Plain CRUD of locations, hosts, connections and users, paging and listing: it would only add easy members.
- Trust.SavesIffApproved: a request that shows the change and one that finds nothing to change both end without a save; what they answer is not kept apart.
- `Check` and `Health` of the module registry, and `Register`, which loops like `Start`.
- Lockout.GuessesAreBounded: is about sign-ins one after the other; LockoutRace.GuessesAreBounded is about those that overlap.
- Overflow of the integer column `failed_attempts`, and an account removed between the two statements of a sign-in.
- The instants between the SELECT of `Authenticate` and its two comparisons with the clock: taken as one instant; the refresh is a statement of its own.
- Sessions.Tables.Authenticate: reads the clock once for the check and the refresh, since it is the sequential form; the interleaved one is in the step system.
- RecoveryCodes.SpellingDoesNotMatter: ASCII spaces and letters only; Go also trims and folds other Unicode characters.
- Totp.Truncate: the or of shifted bytes is written as their sum, and masks as remainders.
- The growth of a Go slice beyond its capacity: Limiter.Append doubles it; nothing depends on by how much.
- Parsing of version numbers in migration file names, and reading the files: whether a name parses and its version are parameters.
- What exactly the inet and jsonb columns of the audit log do to a text: arbitrary functions; only the uuid column is spelled out.
- Loss of the audit head row: the migration puts it there and nothing removes it, so reading it succeeds.
- The loops of `newUUID` and the wiping of key buffers.
