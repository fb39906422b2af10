# Verified models of leptos_ntex

Dafny models of the parts of `leptos_ntex` whose correctness depends on
interleavings, crashes and unbounded histories: the publication of static routes,
the policies that bound it, the retirement of request handles across threads, and
the framing and reassembly of WebSocket messages. `dafny verify dfyconfig.toml`
checks everything.

How the files fit together:

| file | what it models |
|---|---|
| `Bytes.dfy` | options, results, fixed-width little- and big-endian integers |
| `ControlRecord.dfy` | the 40-byte control record |
| `SiteTree.dfy` | the entries below a root, the inventory scan, the local usage, the delta law |
| `Staging.dfy`, `Published.dfy`, `ExactPeak.dfy` | the file operations of one publication: what they may cost, what they leave behind, and that admission charges exactly the highest point they reach |
| `Storage.dfy`, `StorageProtocol.dfy` | admission, announcement and commit; many processes, failures and crashes over one root |
| `StoredForm.dfy`, `PairedFiles.dfy`, `VerifiedCache.dfy` | the stored metadata and its checks; publishers and readers of HTML/metadata pairs; the memory of verified pairs |
| `SingleFlight.dfy`, `WorkKeys.dfy` | one generation task per entry; the keys that identify an entry |
| `PermitPool.dfy`, `PolicyBindings.dfy` | permits with waiting futures; which policy governs which root |
| `RootScopes.dfy`, `LockOrder.dfy` | nesting of managed roots; freedom from deadlock |
| `StaticPath.dfy` | the published path of a request |
| `Retirement.dfy` | request handles dropped on other threads |
| `Utf8.dfy`, `Reassembly.dfy`, `Framing.dfy`, `Connection.dfy`, `Pump.dfy`, `ReferenceCodec.dfy` | WebSocket text, fragments, header checks, the connection and its pump |

Code that changes things in place is a class or a method whose contract names a
specification function; the concurrent protocols are transition systems whose
steps use the same functions. A protocol theorem quantifies over every run: a
sequence of states and actions of any length, with any number of participants.

What is relied on, besides the code itself:

- Only cooperating writers touch a managed root; lock files and metadata entries
  are not removed by outsiders; the metadata directory is absent or a directory.
- An eight-byte generation write happens entirely or not at all. Other writes may
  stop anywhere.
- The digest has no collisions and stored metadata reads back as it was written
  (`StoredForm.Reliable`); a file identity (device, inode, length and times)
  determines the file's bytes.
- A lock is released when its holder drops it or dies.
- The codec behind the WebSocket checks belongs to another library. It is a
  parameter, constrained by `Framing.Conforming` and, for the end-to-end result,
  by `Connection.Faithful`; `ReferenceCodec` shows that both can be met.

Three properties turned out to need a condition, and are stated with the exact one:

- An unlimited publisher keeps out of every managed root if and only if nobody
  installed a policy on the metadata directory of its destination: admission
  inspects the destination and its ancestors, but the publication also writes
  into that directory (`RootScopes.UnboundStaysOutIff`,
  `RootScopes.MetadataCanBeManaged`).
- Two spellings of one hard-linked entry share work if and only if both are
  recognised as that entry or they agree up to the case rule
  (`WorkKeys.ShareIffSameEntry`, `WorkKeys.HardLinkHidesEntry`). Without hard links
  the law is unconditional.
- Work stays reachable from every alias after it publishes under the spelling it
  was registered for. A refreshed request may make it publish under another
  spelling; then every alias finds it if and only if the filesystem keeps stored
  names, or that spelling agrees up to the case rule with the registered or the
  stored one (`WorkKeys.RefreshedWorkReachableIff`, `WorkKeys.AdoptedAliasHidesWork`).

## Model

| member | source | states |
|---|---|---|
| `ControlRecord.Encode` | src/static_routes/storage.rs:198-206 | filling the array in place yields exactly the record's 40 bytes |
| `ControlRecord.RecordRoundTrip` | src/static_routes/storage.rs:198-235 | decoding an encoded record with any generation patched in gives those limits and that generation |
| `ControlRecord.FreshGeneration` | src/static_routes/storage.rs:198-206 | a fresh encoding reads as generation zero |
| `ControlRecord.RecordUnique` | src/static_routes/storage.rs:207-235 | every accepted byte string is the one encoding of what it decodes to |
| `ControlRecord.BumpKeepsLimits` | src/static_routes/storage.rs:249-254 | writing a generation changes the decoded generation and not the limits |
| `ControlRecord.TornInstallation` | src/static_routes/storage.rs:236-248 | an installation cut off inside its write leaves no readable record |
| `SiteTree.Inventory` | src/static_routes/storage.rs:665-685 | the stack scan succeeds exactly when nothing below is managed and the counts fit 64 bits, and then has counted every entry once |
| `SiteTree.LocalUsage` | src/static_routes/storage.rs:690-704 | the local scan counts direct children, the metadata directory and a created chain, and fails exactly when one of them cannot be scanned |
| `SiteTree.DeltaLaw` | src/static_routes/storage.rs:592-623 | if nothing outside the local view changed, total - before + after is the new full inventory |
| `SiteTree.LocalAndElsewhere` | src/static_routes/storage.rs:686-704 | local view and the rest partition the inventory |
| `Staging.ApplyCost` | src/static_routes.rs:1648-1660 | no file operation grows the site by more than its admitted price |
| `Staging.ApplyExact` | src/static_routes.rs:1648-1660 | every operation but a rename grows the site by exactly its price |
| `Staging.ApplyBudget` | src/static_routes.rs:1648-1660 | usage plus the price of what is still to do never rises as operations complete |
| `Staging.ApplyElsewhere` | src/static_routes/storage.rs:686-704 | no operation of a publication changes anything outside the local view |
| `Staging.PlanIsShaped` | src/static_routes.rs:1648-1660 | every operation of a plan stays in the local view, spares the control entry, and only renames follow a rename |
| `Staging.PlanWithinPeak` | src/static_routes/storage.rs:544-563 | the admitted peak pays for the whole plan |
| `ExactPeak.PeakIsReached` | src/static_routes/storage.rs:544-563 | when everything but the renames is done, the directory has grown by exactly the charge: each missing parent, two temporary files, and the locks and metadata directory that were not there |
| `ExactPeak.NeverMore` | src/static_routes/storage.rs:544-563 | at no point of a plan has it grown by more |
| `ExactPeak.SitePeak` | src/static_routes/storage.rs:544-563 | at that point the whole site uses exactly the peak admission computes |
| `ExactPeak.AdmittedIffRunFits` | src/static_routes/storage.rs:496-576 | on a root whose usage is known, a publication that can be carried out is admitted if and only if no state it passes through exceeds a limit or the counters |
| `ExactPeak.ScanCoversLocal` | src/static_routes/storage.rs:686-704 | wherever the whole site can be scanned, so can the local view admission needs |
| `Published.PlanPublishes` | src/static_routes.rs:1648-1660 | a completed plan leaves the given HTML and metadata under the requested name; other pages, their metadata and everything beside the way there are as they were |
| `Published.RenamesInOrder` | src/static_routes.rs:1648-1660 | until the first rename both entries of the page are as they were; after it the metadata is the new one and the HTML still the old one |
| `Storage.CheckLimits` | src/static_routes/storage.rs:640-656 | refuses exactly what exceeds a limit |
| `Storage.ResolveMeaning` | src/static_routes/storage.rs:502-522 | the deepest existing parent is found and what is missing is counted |
| `Storage.Locate` | src/static_routes/storage.rs:502-522 | the admission loop computes that parent |
| `Storage.OpenControl` | src/static_routes/storage.rs:343-368 | the control entry is opened or created empty, and a record with other limits is a policy mismatch |
| `Storage.Open` | src/static_routes/storage.rs:343-387 | installation checks record, inventory and limits, writes the record only into an empty control entry, and caches the exact inventory; other recorded limits are refused as a mismatch |
| `Storage.Coordinate` | src/static_routes/storage.rs:435-473 | a bound publisher gets the lease exactly when the record carries its limits; a missing control entry is created empty and is a mismatch |
| `Storage.PublicationGuard.Bump` | src/static_routes/storage.rs:578-583 | the generation grows by one on disk and in the guard, or nothing changes |
| `Storage.PublicationGuard.Admit` | src/static_routes/storage.rs:496-576 | admission succeeds exactly within the peak (which `ExactPeak` shows to be the highest usage the publication reaches), announces before any file exists, and a refusal leaves the tree alone |
| `Storage.PublicationGuard.Commit` | src/static_routes/storage.rs:592-623 | the cache becomes the settled total at the new generation, or is dropped |
| `StorageProtocol.StepKeepsInv` | src/static_routes/storage.rs:343-623 | every step of every participant, including failure and crash, keeps the storage invariant |
| `StorageProtocol.AdmissionBudgets` | src/static_routes/storage.rs:535-576 | an admission from an exact cache, once announced, budgets every later operation |
| `StorageProtocol.InstallationEffect` | src/static_routes/storage.rs:363-387 | installation caches the inventory of the tree it leaves, within the limits |
| `StorageProtocol.InstallationIff` | src/static_routes/storage.rs:343-387 | on a tree that can be scanned installation succeeds if and only if the record has these limits and the usage is within them, or there is no record and the usage with one is |
| `StorageProtocol.AnnouncedEffect` | src/static_routes/storage.rs:249-254 | announcing changes the generation and no count anywhere |
| `StorageProtocol.ObservationIsExact` | src/static_routes/storage.rs:592-623 | at the end of any staging, the total a commit observes is the real one whenever that can be read and counted |
| `StorageProtocol.LimitsHold` | src/static_routes/storage.rs:496-576 | in every run the real bytes and entries below an installed root stay within the recorded limits, at staging points too |
| `StorageProtocol.CachesStayExact` | src/static_routes/storage.rs:394-411 | in every run a cache is at or behind the record, and a current one is exactly a fresh inventory |
| `StorageProtocol.LimitsImmutable` | src/static_routes/storage.rs:366-368 | once installed, a root's limits never change |
| `StoredForm.ParsePublished` | src/static_routes.rs:1548-1591 | beside the metadata of a publication, that publication's body is answered with its status and headers (an invalid one of these is refused as such), and any other body is inconsistent |
| `StoredForm.ParseRefusals` | src/static_routes.rs:1563-1586 | each refusal as an equivalence: unreadable metadata, a version other than 1 or another body, an invalid status or header |
| `StoredForm.OneBodyPerMetadata` | src/static_routes.rs:1568-1573 | no two bodies pass beside the same metadata |
| `PairedFiles.StepKeepsInv` | src/static_routes.rs:1491-1546 | every publisher, reader and crash step keeps the pairing invariant, in which a finished read and a missing page each name the instant they rest on |
| `PairedFiles.PairsAreSnapshots` | src/static_routes.rs:1491-1546 | every pair a read returns was the directory's actual pair at one instant during that read, lockless starts and dying publishers included |
| `PairedFiles.MissingWasMissing` | src/static_routes.rs:1491-1546 | for every read that reports a page missing there was an instant during that read at which the directory held no HTML under its name |
| `PairedFiles.ReadGoesOn` | src/static_routes.rs:1498-1541 | an unfinished read has a step to take, or the publisher whose lock it waits for has |
| `PairedFiles.ReadEnds` | src/static_routes.rs:1498-1541 | and takes at most eight, the second look under the lock included |
| `PairedFiles.PublicationTakesEffect` | src/static_routes.rs:1649-1660 | a publication that comes to its end has its own body and metadata in place |
| `PairedFiles.StepTouchesOneName` | src/static_routes.rs:1649-1660 | no step touches the entries of any name but that of the publisher renaming |
| `PairedFiles.BodyMatchesParts` | src/static_routes.rs:1548-1591 | a read that passes the digest check returns the body of the publication whose status and headers it returns |
| `PairedFiles.NoMetadataMeansLegacy` | src/static_routes.rs:1504-1528 | a read without metadata pinned HTML no adapter publication wrote |
| `PairedFiles.LockedMismatchMeansTorn` | src/static_routes.rs:1653-1660 | a locked read fails the digest check only if the entry's last publisher stopped between its renames |
| `PairedFiles.ParsesIffMatches` | src/static_routes.rs:1568-1573 | the check on the stored bytes accepts exactly the pairs the protocol calls matching |
| `PairedFiles.ReadAnswers` | src/static_routes.rs:1531-1591 | in every run, a read with metadata answers with the status and headers of the publication that wrote it if the body is that publication's, and refuses it otherwise, locked reads only if the entry was torn at the read's instant |
| `VerifiedCache.Verified.RememberPair` | src/static_routes.rs:1470-1487 | a full memory is cleared before a new path is added; a known path is replaced |
| `VerifiedCache.Verified.ParseSnapshot` | src/static_routes.rs:1548-1591 | a read consults the memory, else parses, checks and remembers, the check being the one `StoredForm` characterises |
| `VerifiedCache.RememberBound` | src/static_routes.rs:1470-1487 | remembering never exceeds the capacity |
| `VerifiedCache.RememberMeaning` | src/static_routes.rs:1452-1487 | what is found after remembering: the new pair under its path and identities only, the others as before unless the memory was full |
| `VerifiedCache.SecondReadIsRemembered` | src/static_routes.rs:1548-1591 | a second read of the same two identities answers as the first, whatever the bytes, and changes nothing |
| `VerifiedCache.CacheRefinesParse` | src/static_routes.rs:1548-1591 | with edits, replacements and other readers at any point of a read, every answer is what parsing and hashing gives for contents both files had during that read; the memory is within capacity |
| `VerifiedCache.QuietReadIsExact` | src/static_routes.rs:1548-1591 | a read during which neither file changes answers as an uncached one |
| `VerifiedCache.QuietReadOfPublication` | src/static_routes.rs:1548-1591 | and beside the metadata of a publication it accepts that publication's body and no other |
| `VerifiedCache.StepKeepsInv` | src/static_routes.rs:1548-1591 | every step of every read and every file change keeps what remembered pairs rely on |
| `SingleFlight.Work.Join` | src/static_routes.rs:546-564 | a caller retries, is refused or is accepted, and exactly how the state changes |
| `SingleFlight.Work.Refuse` | src/static_routes.rs:597-606 | admission closes; waiters and the unaccepted template leave |
| `SingleFlight.Work.Reopen` | src/static_routes.rs:607-609 | admission reopens and nothing else changes |
| `SingleFlight.Work.BeginRender` | src/static_routes.rs:611-615 | running starts and the refreshed template is taken |
| `SingleFlight.Work.Finish` | src/static_routes.rs:879-891 | running stops and every waiter leaves with the result |
| `SingleFlight.Work.Abandon` | src/static_routes.rs:791-805 | cancelled waiters leave; without waiters the work is terminal |
| `SingleFlight.Work.Drain` | src/static_routes.rs:149-161 | a dropped task makes the work terminal and lets every waiter go |
| `SingleFlight.InsertMeaning` | src/static_routes.rs:533-535 | a new work is registered under all its keys |
| `SingleFlight.FindMeaning` | src/static_routes.rs:519-526 | a caller finds active work under any of its keys, or there is none under any |
| `SingleFlight.StepKeepsInv` | src/static_routes.rs:514-810 | every caller, task and guard step keeps the registry, waiter, template and wake invariants; what each granted slot renders is `GrantRenders` |
| `SingleFlight.OneGenerationPerKey` | src/static_routes.rs:514-538 | active generations have disjoint keys and each is registered under all of its own |
| `SingleFlight.SuccessorStaysRegistered` | src/static_routes.rs:162-173 | a finishing task is terminal, removes only entries naming it, and leaves no key of its own behind |
| `SingleFlight.WaitersNeverStranded` | src/static_routes.rs:546-587 | every accepted caller was answered exactly once, was cancelled, or waits where a render is running or requested and somebody acts next: the task, the creator that will spawn it, or whoever is to wake it |
| `SingleFlight.AttendedActs` | src/static_routes.rs:546-587 | whoever acts next does have a step to take |
| `SingleFlight.DroppedHadLeft` | src/static_routes.rs:559-560 | only callers who left lose their place unanswered, over whole runs |
| `SingleFlight.RequestsAreNoticed` | src/static_routes.rs:715-723 | a parked task with a request is notified or about to be woken by the requester |
| `SingleFlight.RefusedNeverRendered` | src/static_routes.rs:645-778 | a template turned down by any refusal (no subscription slot, no slot for the first render, no slot for a later one) is never rendered, before or after |
| `SingleFlight.RefusalMarks` | src/static_routes.rs:645-768 | every refusal turns down the template it should, and the first ones always have one |
| `SingleFlight.BlockedNeverRendered` | src/static_routes.rs:553-558 | the template of a caller refused at a blocked work is never rendered |
| `SingleFlight.FirstTemplateIsThere` | src/static_routes.rs:658-665 | the task's first step always finds the template it expects |
| `SingleFlight.GrantRenders` | src/static_routes.rs:681-683 | in every run a granted slot renders exactly one template: the requested one if there is one, otherwise the one rendered last or first taken |
| `SingleFlight.TakenIsRendered` | src/static_routes.rs:658-686 | no template is lost: what a task past its first slot has taken has been rendered |
| `SingleFlight.RequestsStay` | src/static_routes.rs:561-563 | a template supplied as a request stays its work's request until a slot takes or refuses it |
| `SingleFlight.EventsAreKept` | src/static_routes.rs:745-778 | a consumed subscription event is kept until a slot is granted, through every refusal, unless the task is dropped; and only such an event makes a task wait for a slot |
| `SingleFlight.AbandonedIffAlone` | src/static_routes.rs:781-810 | a render is abandoned if and only if every caller waiting for it has gone |
| `SingleFlight.AnswersAreTrue` | src/static_routes.rs:879-891 | every answer is the result of a render or refusal of the work waited in, or says that its task was dropped or ran out of subscriptions; a request there when the subscriptions end is still served |
| `SingleFlight.TurnedAwayIffBlocked` | src/static_routes.rs:548-558 | a caller is turned away if and only if the work is active and without a render slot, looks again if and only if it is finished, and is accepted otherwise |
| `SingleFlight.SettledOrTurnedAway` | src/static_routes.rs:514-566 | in every run whoever has settled without being accepted met such a work |
| `WorkKeys.FoldMeaning` | src/static_routes.rs:254-269 | folding identifies exactly the names that differ in ASCII case only |
| `WorkKeys.StoredNameMeaning` | src/static_routes.rs:421-461 | the stored spelling is the selected entry's, or the requested one when hard links hide it |
| `WorkKeys.SecondAttemptSettles` | src/static_routes.rs:429-446 | a replacement during the first attempt is made good by an undisturbed second one |
| `WorkKeys.SightIsOfTheFile` | src/static_routes.rs:429-446 | whatever changes between lookup and listing, the answer is the requested spelling or a listed name of the file looked up |
| `WorkKeys.KeysMeaning` | src/static_routes.rs:193-216 | the keys of a request are its folded spelling and the folded stored spelling |
| `WorkKeys.SharedWorkIsOneEntry` | src/static_routes.rs:193-216 | work is never shared across different entries |
| `WorkKeys.ShareIffSameEntry` | src/static_routes.rs:421-461 | with hard links, the exact condition under which two requests share work |
| `WorkKeys.HardLinkHidesEntry` | src/static_routes.rs:446-457 | a directory with hard links in which two spellings of one entry share nothing |
| `WorkKeys.KeysIntersectIffSameEntry` | src/static_routes.rs:193-216 | one entry per inode: keys intersect iff both name the same existing entry or missing names fold alike |
| `WorkKeys.AliasesFindPublishedWork` | src/static_routes.rs:187-216 | work stays reachable from every alias after publication, whichever of the two spellings the filesystem keeps |
| `WorkKeys.RefreshedWorkReachableIff` | src/static_routes.rs:681-683 | work registered for one spelling and published under another stays reachable from every alias exactly if stored names are kept, or the published spelling agrees with the registered or the stored one |
| `WorkKeys.AdoptedAliasHidesWork` | src/static_routes.rs:681-683 | a refreshed template published under an adopted alias can hide the work |
| `PermitPool.Pool.Acquire` | src/static_routes/policy.rs:326-337 | succeeds exactly when the amount fits the limit and 64 bits |
| `PermitPool.Pool.Release` | src/static_routes/policy.rs:355-371 | gives back the amount and selects every live pending future |
| `PermitPool.Pool.Enlist` | src/static_routes/policy.rs:391-397 | the first poll appends the future after pruning dead ones |
| `PermitPool.Pool.Withdraw` | src/static_routes/policy.rs:405-414 | a dropped future leaves the list |
| `PermitPool.StepKeepsInv` | src/static_routes/policy.rs:312-414 | every acquire, split, drop, wake and poll step keeps the pool invariant |
| `PermitPool.Conservation` | src/static_routes/policy.rs:312-371 | in every run used is the sum of the live permits, within the limit, and no drop underflows |
| `PermitPool.TakenIffRoom` | src/static_routes/policy.rs:326-337 | in every run a permit can be taken if and only if the live permits and it stay within the limit and 64 bits |
| `PermitPool.LimitIsReached` | src/static_routes/policy.rs:326-337 | with a limit of n there is a run with k unit permits live at once, for every k up to n |
| `PermitPool.LimitIsKept` | src/static_routes/policy.rs:326-337 | and none with more than n |
| `PermitPool.SplitsIntoUnits` | src/static_routes/policy.rs:338-353 | a permit splits into as many unit permits as it is worth, others untouched |
| `PermitPool.NoLostWakeUp` | src/static_routes/policy.rs:387-403 | a pending future neither notified nor about to be woken has no capacity to take |
| `PolicyBindings.PolicyState.Check` | src/static_routes/policy.rs:263-278 | refuses a started root and a root governed by another handle, and nothing else |
| `PolicyBindings.PolicyState.Bind` | src/static_routes/policy.rs:279-284 | binds the handle to its root and leaves other roots alone |
| `PolicyBindings.PolicyState.Start` | src/static_routes/policy.rs:288-293 | marks the root started and returns its policy; an unresolvable root changes nothing |
| `PolicyBindings.BindRuntime` | src/static_routes/policy.rs:217-222 | binds or leaves the runtime unchanged |
| `PolicyBindings.ConfigureRoutes` | src/static_routes/policy.rs:194-215 | binds every distinct runtime, or fails with some runtime's error and changes none |
| `PolicyBindings.FailedConfigureChangesNothing` | src/static_routes/policy.rs:194-215 | one refusing runtime leaves all runtimes unchanged |
| `PolicyBindings.BindingsPersist` | src/static_routes/policy.rs:262-293 | over all call sequences a started root keeps its policy and a governing handle is never replaced |
| `PolicyBindings.StartedIffCalled` | src/static_routes/policy.rs:288-293 | a root counts as started if and only if a start of it was among the calls |
| `PolicyBindings.RefusalReason` | src/static_routes/policy.rs:263-278 | over all call sequences: refused as started if and only if the root was started, as conflicting if and only if it was not and another handle governs it |
| `PolicyBindings.RepeatSucceeds` | src/static_routes/policy.rs:190-222 | repeating the same handle succeeds and changes nothing as long as the root has not started, whatever else is called in between |
| `PolicyBindings.StartsAgree` | src/static_routes/policy.rs:288-293 | two starts of one root with anything in between return the same policy |
| `PolicyBindings.HandlesGovernTheirRoot` | src/static_routes/policy.rs:279-284 | a handle only ever governs its own root |
| `RootScopes.AncestorPolicy` | src/static_routes/storage.rs:279-289 | the upward walk gives the verdict of the nearest marked ancestor, a damaged control entry being an error, up to the stop or the filesystem root |
| `RootScopes.WalkMeaning` | src/static_routes/storage.rs:269-289 | the walk is quiet exactly when nothing on it is managed or damaged; else the nearest mark decides |
| `RootScopes.InstallKeeps` | src/static_routes/storage.rs:343-387 | installation, even one that stops in the middle of its record, never nests managed or damaged roots |
| `RootScopes.InstallIff` | src/static_routes/storage.rs:343-387 | installation succeeds if and only if nothing above or below is marked, the control entry is sound, a record has the same limits and the usage fits; a refusal records nothing |
| `RootScopes.OpenRefusal` | src/static_routes/storage.rs:290-308 | the nearest mark above decides which refusal is given |
| `RootScopes.InstallWritesOutside` | src/static_routes/storage.rs:290-308 | even a refused installation creates nothing inside a managed root |
| `RootScopes.UnboundWritesOutside` | src/static_routes/storage.rs:523-534 | an unlimited publisher creates entries only in unmanaged directories, its metadata directory apart |
| `RootScopes.UnboundAdmittedIff` | src/static_routes/storage.rs:523-534 | an unlimited publication is admitted if and only if nothing at its destination or above is marked |
| `RootScopes.UnboundStaysOutIff` | src/static_routes/storage.rs:523-534 | an unlimited publication keeps out of every managed root exactly if its metadata directory is not itself one |
| `RootScopes.MetadataCanBeManaged` | src/static_routes.rs:1654-1655 | the exception can be reached from an empty namespace |
| `RootScopes.BoundWritesInside` | src/static_routes/storage.rs:439-452 | a bound publisher writes in its own managed scope and no other; on a root without a record it only leaves an empty control entry |
| `RootScopes.HandlesStayInside` | src/static_routes/storage.rs:439-452 | a handle from any installation, after any further history, publishes inside its own root only |
| `RootScopes.HandlesAreAdmitted` | src/static_routes/storage.rs:439-452 | and nothing that happened before or since turns its publications away, only their own size |
| `RootScopes.RecordsPersist` | src/static_routes/storage.rs:343-387 | an installed root stays installed with its limits |
| `RootScopes.ScopesStayDisjoint` | src/static_routes/storage.rs:269-308 | no sequence of installs and publications nests managed roots |
| `RootScopes.NoOverlapEver` | src/static_routes/storage.rs:269-308 | after any history: no nesting, and unlimited publishers keep out exactly if their metadata directory is not managed |
| `LockOrder.BlockerIsAhead` | src/static_routes.rs:1629-1653 | whoever blocks a waiter is further along root control, scratch bucket, publication lock |
| `LockOrder.NeverDeadlocked` | src/static_routes.rs:1629-1653 | participants that follow the discipline, on any number of roots, never deadlock |
| `LockOrder.MutualExclusion` | src/static_routes.rs:1629-1653 | in every run whoever holds a lock exclusively holds it alone |
| `LockOrder.RunsEnd` | src/static_routes.rs:1629-1653 | no run is longer than the lock operations there are |
| `LockOrder.PublisherDisciplined` | src/static_routes/storage.rs:453-458 | managed and unlimited publishers follow the discipline, the commit's inventory under all three locks included |
| `LockOrder.RenamesUnderLocks` | src/static_routes.rs:1648-1660 | a publisher holds root control, scratch bucket and publication lock when it renames, and nothing at its end |
| `LockOrder.InstallerDisciplined` | src/static_routes/storage.rs:354-371 | installers follow it and do not wait for the control they take |
| `LockOrder.ReaderDisciplined` | src/static_routes.rs:1498-1541 | readers follow it, with any number of looks |
| `LockOrder.OneRootNeverDeadlocks` | src/static_routes.rs:1629-1653 | any number of readers, publishers and installers on one root: somebody can always go on, every run ends, and exclusive locks stay exclusive |
| `StaticPath.Resolve` | src/static_routes.rs:1154-1200 | the segment loop accepts exactly the acceptable paths and yields their components |
| `StaticPath.PublishedFor` | src/static_routes.rs:1154-1200 | for all segments: "/a/b" is published as the decoded segments in order, the last with ".html", exactly if each decodes to an acceptable component |
| `StaticPath.IndexFor` | src/static_routes.rs:1154-1170 | a trailing slash stands for "index", and so does the bare root |
| `StaticPath.SegmentsJoin` | src/static_routes.rs:1170-1190 | splitting a path gives back its segments |
| `StaticPath.NeverReserved` | src/static_routes.rs:1154-1200 | no component of a published path is a lock, control, metadata or temporary name, or leaves its directory |
| `StaticPath.PublishedIsValid` | src/static_routes.rs:1154-1200 | every published path makes a request the storage protocol accepts, without the control entry among its parents |
| `Retirement.Registry.TryNew` | src/request.rs:83-103 | registers under an identifier never used before |
| `Retirement.Registry.With` | src/request.rs:110-125 | refuses another thread; at home access is granted exactly while registered in an open scope |
| `Retirement.Registry.Retire` | src/request.rs:160-172 | a final drop removes the entry on the origin thread and only signals elsewhere |
| `Retirement.Registry.Collect` | src/request.rs:191-207 | removes exactly the entries whose last handle is gone, and counts them |
| `Retirement.Registry.Close` | src/request.rs:361-373 | closing releases every entry |
| `Retirement.RetirementNotLost` | src/request.rs:160-207 | an entry that outlives its last handle has a root future scheduled or yet to inspect the flag |
| `Retirement.InspectionCollects` | src/request.rs:419-432 | the next inspection collects it |
| `Retirement.CollectsExactly` | src/request.rs:191-207 | a collection removes exactly the entries whose last handle is gone, each once |
| `Retirement.HandlesAreCounted` | src/request.rs:83-103 | in every run the count of a request is one, plus its clones, less its drops |
| `Retirement.RemovedExactlyOnce` | src/request.rs:361-373 | each entry is removed exactly once, not before its handles are gone unless the scope closes, and none survives the close |
| `Retirement.RemovedOnOrigin` | src/request.rs:160-172 | handles are dropped by any thread; in every run only the thread the scope began on releases a native request |
| `Utf8.Utf8Meaning` | src/server_fn/websocket.rs:387-389 | the text check accepts exactly the encodings of Unicode scalar values |
| `Reassembly.Assembly.Data` | src/server_fn/websocket.rs:378-393 | a whole frame is judged by size, then by text |
| `Reassembly.Assembly.Accept` | src/server_fn/websocket.rs:395-428 | one frame's effect on the buffer and its answer; the buffer stays within the limit |
| `Reassembly.BufferBounded` | src/server_fn/websocket.rs:395-428 | after any frames the buffer and every delivered message are within the limit |
| `Reassembly.FragmentsAreJudged` | src/server_fn/websocket.rs:395-428 | any split, with control frames in between: too big iff the total exceeds the limit, else invalid iff not text, else the exact concatenation |
| `Reassembly.UnsplitIsJudged` | src/server_fn/websocket.rs:378-393 | an unsplit message is judged the same way |
| `Reassembly.FragmentationIsTransparent` | src/server_fn/websocket.rs:377-429 | two conversations carrying the same messages deliver the same and end with the same verdict |
| `Framing.ReadClosePayload` | src/server_fn/websocket.rs:338-349 | the unmasking loop recovers the close payload |
| `Framing.CheckCloseFrame` | src/server_fn/websocket.rs:328-360 | accepts exactly the allowed close codes with valid text, or waits for the rest |
| `Framing.CheckedCodec.Decode` | src/server_fn/websocket.rs:292-371 | the checks and the codec in order, and how the fragment flag moves |
| `Framing.LegalFramesPass` | src/server_fn/websocket.rs:292-360 | a complete frame passes the header checks exactly if it has no reserved bit, a proper control header, no data frame inside an open message, the shortest length below 2^63, and an allowed close payload |
| `Framing.FaultsAreNamed` | src/server_fn/websocket.rs:292-360 | of any frame, masked or not, the header checks name exactly what is wrong with it, the gravest fault first |
| `Framing.OneLengthForm` | src/server_fn/websocket.rs:310-327 | each length below 2^63 has exactly one accepted form, any other none |
| `Framing.CheckStable` | src/server_fn/websocket.rs:292-360 | a verdict on a prefix is the verdict on every extension |
| `Framing.DecodeStable` | src/server_fn/websocket.rs:292-371 | later bytes never change an answer already given |
| `Pumping.Pump.Handle` | src/server_fn/websocket.rs:486-511 | a frame is answered, collected or ends the connection |
| `Pumping.Pump.Advance` | src/server_fn/websocket.rs:485-519 | one turn decodes and handles at most one frame |
| `Pumping.Pump.Receive` | src/server_fn/websocket.rs:485-519 | a completed message goes to an open channel; a failed send closes it |
| `Pumping.Pump.Turn` | src/server_fn/websocket.rs:446-528 | one turn: disconnection, flushing, output, input readiness and transport, in order; when it reads is `TurnReadsIffClear`, how it ends `TurnEndsIff` |
| `Pumping.TurnReadsIffClear` | src/server_fn/websocket.rs:446-519 | a turn takes one step of reading if and only if the connection is up and flushed, nothing on the output side is broken or finished, the channel is not full and the transport works |
| `Pumping.TurnEndsIff` | src/server_fn/websocket.rs:446-519 | a turn ends the connection as departed, as finished by the application or by what was read, each exactly under its condition |
| `Pumping.Pump.Poll` | src/server_fn/websocket.rs:446-532 | up to 32 turns; fewer only if one of them makes no progress or ends the connection |
| `Pumping.WireFollows` | src/server_fn/websocket.rs:446-528 | whatever the channels and the transport do, the wire sees nothing but arrivals and turns |
| `Pumping.ApplicationHears` | src/server_fn/websocket.rs:494-503 | after any history the application has heard, in order and without gaps, a prefix of what the received bytes carry |
| `Pumping.ApplicationCatchesUp` | src/server_fn/websocket.rs:485-511 | after any history, as many unobstructed turns as there are buffered bytes leave the application with every message the received bytes carry, and the connection ended exactly if they carry a verdict |
| `Pumping.DecidedIffVerdict` | src/server_fn/websocket.rs:485-516 | through any history, what the peer sent ends the connection exactly when it brings a verdict |
| `Pumping.IdleMeansDrained` | src/server_fn/websocket.rs:446-528 | a turn without progress and with nothing in its way has left nothing to read or to send |
| `Pumping.SentAsOffered` | src/server_fn/websocket.rs:452-470 | what is sent is what the application offered to flushed turns, in order, up to the end of the connection |
| `Pumping.EndedStays` | src/server_fn/websocket.rs:446-532 | once the connection is over, polls change nothing |
| `Connection.ChunkingIsIrrelevant` | src/server_fn/websocket.rs:485-516 | any chunking and any interleaving with the pump's turns leads where all the bytes at once lead |
| `Connection.FlagAgrees` | src/server_fn/websocket.rs:288-372 | at every point the fragment flag agrees with the assembly, and no fragment is ever already started |
| `Connection.NoInterleaving` | src/server_fn/websocket.rs:307-309 | while a message is open only its continuations get through |
| `Connection.TakenIffProper` | src/server_fn/websocket.rs:292-371 | a whole turn takes a masked frame within the limit exactly if its opcode is known, it passes the checks and it is in sequence (sections 5.2, 5.4, 5.5 and 7.4 of RFC 6455) |
| `Connection.PeerIsTold` | src/server_fn/websocket.rs:246-371 | whatever known frame comes next, its sender hears exactly what it should: nothing, its own close payload, or 1002, 1007 or 1009 with the reason, as a property of the raw frame (section 7.4.1 of RFC 6455) |
| `Connection.CodecFaultIsTold` | src/server_fn/websocket.rs:253-271 | what only the inner codec objects to is told as 1009 if it is the size and as 1002 otherwise |
| `Connection.FramesArrive` | src/server_fn/websocket.rs:485-516 | a correct client's frames reach the assembly one by one, up to the first that is too big |
| `Connection.MessagesArrive` | src/server_fn/websocket.rs:485-516 | messages of any size, fragmented, masked, chunked and read at any pace, reach the application as if each were one frame, and the peer is told the same reason |
| `ReferenceCodec.ParseSerialized` | src/server_fn/websocket.rs:274-286 | parsing undoes serialization, whatever follows the frame |
| `ReferenceCodec.ReferenceConforms` | src/server_fn/websocket.rs:274-286 | what is relied on about the inner codec can be met |
| `ReferenceCodec.ReferenceFaithful` | src/server_fn/websocket.rs:274-286 | and so can what the end-to-end result needs |

## Left out

- Leptos rendering, reactive owners and scoped work: a render is a step that succeeds or fails.
- The real filesystem, capability handles and `flock` (src/fs_boundary.rs): a tree, and locks that end with their holder.
- Symlinks, and a symlinked metadata directory; paths are canonical.
- Hard links in the storage accounting: each entry is counted once, as the scan does.
- The observation of the case rule (`ascii_case_rule`): the rule is a parameter that agrees with the directory's lookup.
- The canonical namespace of a missing parent (`static_namespace`): keys are compared within one directory.
- Non-Unix variants of paths, names and storage.
- HTTP responses, conditional and range requests, server-function dispatch, header merging, payload collection, route lists and extractors.
- The WebSocket handshake, the close drain, and the error item offered to the application's channel when a connection fails.
- Connection.PeerIsTold: frames of unknown opcode, and continuations of no message, are refused by the inner codec in its own words; `CodecFaultIsTold` states the code.
- The nesting of request scopes on one thread and panics inside native destructors.
- In `RootScopes`, races between installations and publications: each is one step.
- In `VerifiedCache`, an in-place edit while the bytes of one file are being read: each file is read in one step.
- Fairness: that a runnable participant eventually runs. `LockOrder` bounds the length of runs instead.
