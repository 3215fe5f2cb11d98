# Verified model of the w9pt filesystem state authority

The authority keeps one filesystem's records in a transactional database. Clients
send declarative commit requests under a writer fence, take and renew writer leases,
poll a bounded change log and read in pages. This project models that authority in
Dafny and proves what its local checks achieve globally.

One value of type `State` (module `Authority`) is everything the store remembers:
the record table with ledger rows and active leases under their keys, the greatest
fencing token of each scope, the retained lease operations, and the change log with
its current and oldest revisions. A serializable transaction is one `Step`; `Enabled`
says when it may commit and `Next` what it leaves. A run is any sequence of enabled
steps from the empty store; the theorems over runs hold for every run, every request,
every clock reading and every history limit.

How the parts fit:

- `Requests`, `Loading`, `Transitions`, `LockTable`, `Applying`, `Targeting`: the
  commit engine step by step. Loops of the source are methods proved to accept
  exactly what a predicate describes.
- `Effects`, `RowEffects`, `Admission`: an accepted list has, at every key, the effect
  of the one change declaring it, computed from the table before the request.
- `Namespace`, `Accounting`, `Allocation`, `DirectoryStamp`, `ContentHistory`: global
  invariants that follow from checks on targeted rows only.
- `Leases`, `Encoding`, `Authority`, `EventOrder`, `Invariants`: leases, publication
  and the invariant of all runs.
- `Coherence`, `Ledger`, `Fencing`, `LeaseReplay`, `Histories`: theorems over runs.
- `Freshness`: what a precondition taken from an earlier read says about everything that
  happened since.
- `Calls`, `Server`: the store as an object with its retry loops, under every failure
  schedule and interference by other clients; why a call gives up, and when it succeeds.
- `TransitionMeaning`: what the transition validators ask, stated on the stored rows and
  the change list alone.
- `Renaming`: the planner's rename of a directory, and exactly when the store admits it.
- `Polling`, `Paging`, `Enumeration`, `EnumerationHistory`: the change feed and paged
  reads, and directory enumeration while the store runs on.
- `Decimal`, `KeyCodec`, `Rows`: text, key and row codecs, and the CHECK constraints.
- `WholeImage`, `ImageHistory`: the repository's whole-image validator, the proof that the
  targeted checks and it agree up to stated caller conditions, and the same over runs.
- `MemoryStore`, `StoreDifferences`: the repository's in-memory reference store, exactly
  when it and the database store accept the same request, and requests they part on.
- `ForeignKeys`: which deferred foreign keys of the schema follow from the rest, and which
  accepted requests fail at their COMMIT.
- `Counterexamples`, `Bootstrap`: accepted requests that show why the caller conditions
  are needed, and a first run from the empty store.

Some properties one might expect do not hold for every request. Each is stated as an
equivalence with the exact condition, and a concrete input outside it is given by the
lemma in parentheses (of `Counterexamples` where no module is named):

- The namespace stays a tree exactly when the header is kept, the old child of every
  overwritten entry is targeted by the same request, and a request that did not load
  the header does not turn a non-empty directory into something else. The source leaves
  the update of an overwritten inode to its planner. (`RemovalAbandonsInode`,
  `RenameBreaksTree`, `DemotionBreaksNamespace`.)
- QID paths stay below the mark, and a directory generation stays a version stamp,
  exactly when requests that did not load the header bring no larger path and no lower
  generation; the validators return early for such requests. (`UnguardedQidPassesMark`,
  `UnguardedStampFalls`.)
- Content metadata stays bound to its owner exactly when no special inode is inserted
  under an identity that retained metadata still names. (`RevivalUnbindsOwner`.)
- The image stays acceptable to the whole-image validator, which the in-memory store of
  the repository runs after every commit, exactly when the conditions above hold; when
  the request deletes the header, exactly when it deletes every inode with it; and for
  a request on a store without a filesystem, exactly when inodes come only with a header
  whose mark is above their QID paths, and under the owner condition. (`RenameBreaksImage`, `RemovalAbandonsInode`,
  `FirstRequestWithoutHeader`.)
- A precondition is judged as the whole table has it exactly when it is not about one of
  the request's own rows in a certain way: the own ledger and lease rows are removed from
  the loaded map, so the absence of a standing one is accepted and its true revision is
  refused. Past the ledger probe and the fence check this leaves two preconditions, both
  on the own lease. (`Loading.OwnLeaseMisjudged`.)
- What the in-memory store accepts, the database store accepts exactly when no precondition
  asks for the revision of the own lease, the rows meet the CHECK constraints (most of
  which the constructors of the record types enforce in both stores), and no change takes a
  unique column before another frees it. (`StoreDifferences.OwnRevisionDiffers`,
  `CookieOrderDiffers`.)
- What the database store accepts, the in-memory store accepts exactly when no precondition
  asks for the absence of the own lease, the transitions also pass on the whole table, no
  lock is inserted before a conflicting one is taken away, and the image stays valid.
  (`StoreDifferences.OwnAbsenceDiffers`, `RewindDiffers`, `LockOrderDiffers`.)
- The COMMIT of an accepted request passes the deferred foreign keys exactly when every
  directory it writes names a parent that stays and it deletes no parent of a directory it
  leaves alone. (`RetirementFailsAtCommit`.)
- The CHECK constraints of the inode table let through exactly the rows that decode to a
  record and, besides them, regular files with a data generation and no content: comparing
  with the null content columns is unknown to SQL, and only a false CHECK is violated. No
  record encodes to such a row. (`Rows.HalfPublishedPasses`.)
- A rename of a directory that the planner has checked is admitted exactly when no entry of
  the target directory has the cookie of the moved one; the planner does not look at this.
  A directory moved below itself is refused also without the planner's check.
- A definite rejection of a commit call is final if no COMMIT of the mutation is under way
  when the call returns and nobody submits it again, and need not be otherwise: a COMMIT
  whose connection was lost may land later. (`Bootstrap.LateCommitOutlivesRejection`.) That the
  mutation is applied at most once does not depend on this.

Assumptions of the model: transactions are serializable and atomic; a COMMIT is
applied and acknowledged, applied and not acknowledged, rolled back, or still under way
when its connection is lost, and where it lands it is a transaction of the run like any
other; a truthful classification of failures; identities are numbers, so their byte order is the order
of numbers; a fingerprint is the byte string that is hashed. Cookie, QID path and
content-metadata uniqueness come from the unique constraints of the schema, which the
model enforces on every written row.

## Model

| member | source | states |
|---|---|---|
| `Records.Stamp` | crates/w9pt-fs-state-postgres/src/record_write.rs:251-278 | the stamped record stays under the same key and carries the allocated revision |
| `Records.StampBack` | crates/w9pt-fs-state-postgres/src/record_write.rs:251-278 | stamping changes nothing but the revision: stamping back gives the record back |
| `Records.NamesOneKey` | crates/w9pt-fs-state/src/records.rs:204-250 | a record sits under one key only |
| `Records.RankInjective` | crates/w9pt-fs-state/src/records.rs:46-71 | the derived key order tells every two keys apart: family first, then fields |
| `Requests.CheckDistinctTargets` | crates/w9pt-fs-state/src/commit.rs:673-727 | the duplicate-target scan with its set and flags accepts a change list exactly when no two changes declare one key (the two header allocators excepted, each once) and otherwise names a declared key |
| `Requests.ClaimTargets` | crates/w9pt-fs-state-postgres/src/key_codec.rs:160-209 | the inner loop over one change's keys reports a key exactly when it may not be claimed after the keys before it |
| `Requests.FindPartner` | crates/w9pt-fs-state/src/commit.rs:830-884 | the search for the companion insert finds one exactly when the list holds one |
| `Requests.ValidatePreflight` | crates/w9pt-fs-state/src/commit.rs:635-925 | preflight accepts exactly the nonempty, well-shaped, disjoint lists whose content metadata and regular inodes are created in pairs and whose declared keys with the ledger row fit the key limit |
| `Requests.ShapeMeans` | crates/w9pt-fs-state/src/commit.rs:728-828 | the per-change checks pass exactly the changes whose fields have the required shape, and a rejection names what is wrong with the change |
| `Requests.PreflightMeans` | crates/w9pt-fs-state/src/commit.rs:635-925 | preflight passes exactly the nonempty lists of shaped changes on disjoint targets in which every inserted metadata row has an inserted regular file it belongs to, and the other way round |
| `Loading.LockKeys` | crates/w9pt-fs-state-postgres/src/commit.rs:419-485 | the loaded key set is exactly: declared keys, the neighbourhood of entry changes, precondition keys, minus the request's own ledger and fence rows |
| `Loading.LockedMeans` | crates/w9pt-fs-state-postgres/src/commit.rs:419-485 | a row is loaded exactly when a change writes it, it is the header, the directory or the named inode beside a name that is written or removed, or a precondition other than a pin count depends on it, and it is not one of the request's own rows |
| `Loading.LoadRecords` | crates/w9pt-fs-state-postgres/src/commit.rs:244-259 | the loaded map is the table restricted to those keys |
| `Loading.LoadedCoversTargets` | crates/w9pt-fs-state-postgres/src/commit.rs:419-485 | every row a preflight-valid request writes is among the loaded rows with its stored value |
| `Loading.NamespaceIsGuarded` | crates/w9pt-fs-state-postgres/src/commit.rs:425-457 | a request that changes names or the header loads the header whenever one exists |
| `Loading.EvaluatePreconditions` | crates/w9pt-fs-state-postgres/src/commit.rs:487-581 | returns the first failing precondition by index, with the conflict kind of that precondition and the key and revisions it compares, or none exactly when all hold |
| `Loading.PreconditionExact` | crates/w9pt-fs-state-postgres/src/commit.rs:479-581 | a precondition is judged on the loaded rows as it is true of the fields stored in the whole table if and only if it neither asks for the absence nor for the true revision of a standing row of the request's own; past the ledger probe and the fence check these are the two preconditions on the own lease |
| `Loading.OwnLeaseMisjudged` | crates/w9pt-fs-state-postgres/src/commit.rs:479-498 | both failing preconditions: the absence of the own lease is accepted although the row stands, its true revision is refused as missing |
| `Transitions.ValidateQidPaths` | crates/w9pt-fs-state-postgres/src/commit.rs:595-644 | accepts exactly: inserted inodes take consecutive QID paths from the mark, replacements keep theirs, declared advance equals inserts, nothing overflows; everything when the header is not loaded |
| `Transitions.ValidateCookies` | crates/w9pt-fs-state-postgres/src/commit.rs:646-746 | accepts exactly: cookies not carried over from a freed entry are consecutive from the mark, replacements and moves keep theirs, declared advance equals allocations |
| `Transitions.ValidateMonotonic` | crates/w9pt-fs-state-postgres/src/commit.rs:748-919 | accepts exactly when every directory with changed names moves its generation by one and every replacement is one the rules allow; `TransitionMeaning.MonotonicMeans` states them on the stored rows |
| `Transitions.ParentsAre` | crates/w9pt-fs-state-postgres/src/commit.rs:755-782 | the collected parents are exactly the directories some change renames under |
| `Transitions.ValidateXattrs` | crates/w9pt-fs-state-postgres/src/commit.rs:921-974 | accepts exactly complete matching staging, and no deletion of staging next to a direct write of its attribute |
| `Transitions.ValidateTransitions` | crates/w9pt-fs-state-postgres/src/commit.rs:583-593 | accepts exactly what all four validators accept, and otherwise the error belongs to the first that fails |
| `TransitionMeaning.MonotonicMeans` | crates/w9pt-fs-state-postgres/src/commit.rs:748-919 | on the table before the request: a guarded request passes if and only if every directory whose names change has its generation moved up, and every replaced row is in step: header fields kept, inodes one generation on with kind and content kept, directory generation on exactly when names change, entries with cookie and parent, locks one generation on, orphans with their revision |
| `TransitionMeaning.ReparentIff` | crates/w9pt-fs-state-postgres/src/commit.rs:857-919 | the replacement of a directory row may change its parent from a to b if and only if the list moves its entry out of a into b with the stored cookie, or its first entry deleted under a and its first inserted under b have one cookie |
| `TransitionMeaning.IdentitiesMean` | crates/w9pt-fs-state-postgres/src/commit.rs:595-746 | on the stored rows: an inserted entry needs a new cookie exactly when the list takes no entry of its cookie and child away; a move keeps both, a replaced entry its cookie, a replaced inode its QID path |
| `TransitionMeaning.StagingMeans` | crates/w9pt-fs-state-postgres/src/commit.rs:921-974 | staging passes exactly when every published one is stored, complete and of the named attribute, and no deleted one is written as an attribute by the same request |
| `LockTable.NextBlocking` | crates/w9pt-fs-state-postgres/src/commit.rs:1017-1043 | the ordered one-row query finds the least conflicting lock past the cursor |
| `LockTable.LowestBlocking` | crates/w9pt-fs-state-postgres/src/commit.rs:1015-1060 | the paging loop ends and finds the least conflicting lock that the request does not remove |
| `LockTable.ValidateLockConflicts` | crates/w9pt-fs-state-postgres/src/commit.rs:976-1069 | reports the minimum over all conflicts of the request, a set that does not depend on the order of its changes, or none exactly when there is no conflict |
| `LockTable.ConflictsMean` | crates/w9pt-fs-state/src/records.rs:757-885 | two locks conflict exactly when different owners hold some byte of one inode and at least one of them exclusively |
| `LockTable.ConflictFreePreserved` | crates/w9pt-fs-state-postgres/src/commit.rs:976-1069 | an admitted request keeps the whole lock table free of overlapping locks of different owners unless both are shared |
| `Effects.AppliedIsWritten` | crates/w9pt-fs-state-postgres/src/commit.rs:1071-1546 | after an accepted disjoint list every key holds the effect of the change declaring it, computed from the table before the request, and undeclared keys are untouched; each change found its stored rows as required |
| `Effects.OrderIndependent` | crates/w9pt-fs-state-postgres/src/commit.rs:280-294 | two accepted orderings of one preflight-valid list leave the same table |
| `Effects.ApplyChanges` | crates/w9pt-fs-state-postgres/src/commit.rs:280-294 | the apply loop computes the stepwise application, stops at the first refusal, and on success leaves the declared effects |
| `Applying.RefusalExplained` | crates/w9pt-fs-state-postgres/src/commit.rs:1071-1546 | a refused change names the key it found taken or missing, the revision that differs, the counter that would leave its range or the rule of its kind that it breaks |
| `Applying.ConstraintExplained` | crates/w9pt-fs-state-postgres/src/sqlstate.rs:86-134 | a constraint refuses for good exactly when a written row violates a CHECK, and asks for a recheck when another row holds its unique value |
| `Applying.FirstRefused` | crates/w9pt-fs-state-postgres/src/commit.rs:280-294 | a refused list gives the reason of its first refused change, on the rows the changes before it left |
| `Effects.AppliedKeepsConstraints` | crates/w9pt-fs-state-postgres/src/schema/m20260904_182105_create_w9pt_fs_state.rs:421-960 | CHECK and unique constraints hold after every accepted list |
| `Effects.TouchedIsStamped` | crates/w9pt-fs-state-postgres/src/record_write.rs:251-278 | every written row carries the allocated revision |
| `RowEffects.CommittedChangeHasEffect` | crates/w9pt-fs-state/src/commit.rs:413-491 | each of the sixteen kinds of change has its documented effect between the rows before and after the commit, at any position and beside any companions |
| `Admission.Evaluate` | crates/w9pt-fs-state-postgres/src/commit.rs:244-301 | the transaction body accepts with the resulting table exactly when every check passes, and otherwise no table is admissible; the answer is that of the first check that fails: the first failing precondition by index and kind, the lowest conflicting lock, the reason of the first refused change, or the failed validator |
| `Targeting.TargetedIds` | crates/w9pt-fs-state-postgres/src/commit.rs:2030-2173 | collects exactly the targeted inodes and opens |
| `Targeting.TargetsMean` | crates/w9pt-fs-state-postgres/src/commit.rs:2072-2173 | a change targets exactly the inodes its record or the record it deletes mentions and those its keys are about |
| `Targeting.OpenTargetsMean` | crates/w9pt-fs-state-postgres/src/commit.rs:2030-2070 | a change targets exactly the opens its record or the record it deletes is or is owned by, and those its key names |
| `Targeting.ValidateAncestry` | crates/w9pt-fs-state-postgres/src/commit.rs:1959-2018 | the ancestor walk with its growing visited set decides reaching the self-parented root within the depth |
| `Targeting.ClosedSetNeverReaches` | crates/w9pt-fs-state-postgres/src/commit.rs:1970-1975 | a parent-closed set without the root reaches it at no depth, so a revisit means rejection |
| `Targeting.ValidateTargeted` | crates/w9pt-fs-state-postgres/src/commit.rs:1548-1957 | accepts exactly when header, written entries and locks, all targeted inodes and all targeted opens satisfy their local conditions |
| `Namespace.TreeIffGuard` | crates/w9pt-fs-state-postgres/src/commit.rs:1548-2120 | after an accepted request on a tree the whole namespace is a tree if and only if the caller condition holds: header kept, every overwritten child targeted, no non-empty directory demoted without the header loaded |
| `Namespace.StillReaches` | crates/w9pt-fs-state-postgres/src/commit.rs:1959-2018 | live directories that no check looked at still reach the root |
| `Namespace.UntargetedLinks` | crates/w9pt-fs-state-postgres/src/commit.rs:2072-2120 | an inode no change targets keeps its entries when overwritten children are targeted |
| `Namespace.BootstrapMakesTree` | crates/w9pt-fs-state-postgres/src/commit.rs:1548-1957 | the first request on an empty filesystem leaves a tree exactly when it creates the header |
| `Renaming.WalkAncestors` | crates/w9pt-fs/src/operations/rename.rs:505-554 | the planner's walk answers exactly when the way from the target to the root is within the depth and does not meet the moved directory, and then states the revision of every directory on it |
| `Renaming.RenameAdmittedIff` | crates/w9pt-fs/src/operations/rename.rs:366-389 | on a well-formed tree the planned changes are admitted if and only if the way from the target to the root does not meet the moved directory and no entry of the target has its cookie, and the result is the tree with the directory moved |
| `Renaming.PlannedRenameAdmitted` | crates/w9pt-fs/src/operations/rename.rs:299-503 | completeness: the planned request, with the preconditions of the planner, is admitted on the table it was planned on if and only if the cookie is free |
| `Counterexamples.RenameBreaksTree` | crates/w9pt-fs-state/src/commit.rs:432-435 | a concrete accepted rename over a name, without the planner's update of the overwritten inode, leaves no tree |
| `Counterexamples.DemotionBreaksNamespace` | crates/w9pt-fs-state-postgres/src/commit.rs:752-754 | a concrete accepted unguarded replacement turns a directory with names into a socket and leaves no tree |
| `Counterexamples.RemovalAbandonsInode` | crates/w9pt-fs-state-postgres/src/commit.rs:1548-1957 | a concrete accepted deletion of header and root leaves an open unlinked inode: no tree, and a valid image at no depth |
| `Accounting.AccountedPreserved` | crates/w9pt-fs-state-postgres/src/commit.rs:1663-1762 | every accepted request keeps: zero links exactly with an orphan record counting the positive number of pins, no reference to a missing inode, every pin and lock has its open on the same inode and a lock its client |
| `Accounting.NoDanglingPreserved` | crates/w9pt-fs-state-postgres/src/commit.rs:1720-1762 | no entry, open, pin, orphan, lock, attribute or staging row names a missing inode |
| `Accounting.LockOwnerPreserved` | crates/w9pt-fs-state-postgres/src/commit.rs:1919-1955 | each lock keeps an open of the same inode and client |
| `Allocation.MarksAdvance` | crates/w9pt-fs-state-postgres/src/commit.rs:1177-1216 | while the header persists each mark moves by exactly the declared advance |
| `Allocation.CookiesStayBelow` | crates/w9pt-fs-state-postgres/src/commit.rs:1642-1660 | all cookies stay below the mark |
| `Allocation.NewCookieIsFresh` | crates/w9pt-fs-state-postgres/src/commit.rs:684-704 | a cookie that neither stood nor is carried over lies at or above the old mark |
| `Allocation.GuardedQid` | crates/w9pt-fs-state-postgres/src/commit.rs:606-621 | a guarded insert takes its QID path from the declared block above the mark |
| `Allocation.QidsBelowIffGuard` | crates/w9pt-fs-state-postgres/src/commit.rs:595-644 | QID paths stay below the mark if and only if an unguarded request brings none from above it |
| `Counterexamples.UnguardedQidPassesMark` | crates/w9pt-fs-state-postgres/src/commit.rs:599-602 | a concrete accepted unguarded replacement with a QID path past the mark |
| `DirectoryStamp.StampedIffGuard` | crates/w9pt-fs-state-postgres/src/commit.rs:748-855 | a directory that stays one has a non-falling generation that rises whenever its names change, if and only if an unguarded request brings no lower generation |
| `DirectoryStamp.RenamedRises` | crates/w9pt-fs-state-postgres/src/commit.rs:1255-1285 | a directory whose names a guarded request changes moves its generation by exactly one |
| `Counterexamples.UnguardedStampFalls` | crates/w9pt-fs-state-postgres/src/commit.rs:752-754 | a concrete accepted unguarded replacement that turns a directory generation back |
| `ContentHistory.PublicationContinuesStored` | crates/w9pt-fs-state-postgres/src/commit.rs:1364-1400 | a committed publication was prepared from the content stored before the request, one generation on if changed, under the metadata of the inode's own content file as stored or as the same request rewrapped it; that the binding names this file is compared nowhere and follows from the unique owner |
| `ContentHistory.PublicationReason` | crates/w9pt-fs-state/src/commit.rs:343-411 | a refused publication names a rule it breaks |
| `ContentHistory.ContentExtends` | crates/w9pt-fs-state-postgres/src/commit.rs:1364-1452 | one commit appends at most one version to an inode: generation plus one exactly when it publishes a change, starting from the stored content, and no other change alters content |
| `ContentHistory.MetadataIsPermanent` | crates/w9pt-fs-state/src/commit.rs:761-775 | no accepted request removes content metadata or changes anything but its wrapped key and revision |
| `ContentHistory.MatchedPreserved` | crates/w9pt-fs-state/src/commit.rs:830-884 | every regular inode keeps metadata bound to it by owner and context |
| `ContentHistory.FileNeverReturns` | crates/w9pt-fs-state/src/commit.rs:830-884 | a content file with metadata is held after a request only by the inode that held it before |
| `Leases.DecidesExactly` | crates/w9pt-fs-state/src/lease.rs:54-170 | when acquire, renew and release succeed and what they grant: no takeover of an unexpired lease, token one above the greatest, renewal never shortens, only the exact unexpired holder renews or releases; and which refusal is given in every other case |
| `Leases.GrantsExactly` | crates/w9pt-fs-state/src/lease.rs:54-170 | what each first outcome carries: a grant names the requested scope, holder and lease with the next token and runs from now, a renewal keeps the presented fence and the later deadline, a busy refusal shows the lease that stands |
| `Leases.ReplayReturnsRetained` | crates/w9pt-fs-state-postgres/src/lease.rs:568-630 | storing any evaluated outcome by tag and grant columns and replaying the same request gives it back |
| `Leases.FingerprintInjective` | crates/w9pt-fs-state/src/lease.rs:525-556 | equal pre-hash bytes mean the same kind of operation with the same operands, across all three kinds |
| `Leases.LeaseFingerprint` | crates/w9pt-fs-state/src/lease.rs:548-556 | the appending loop produces exactly the byte layout whose injectivity is proved |
| `Leases.DomainsSpelled` | crates/w9pt-fs-state/src/lease.rs:358-556 | the hashed bytes begin with the protocol label, a zero byte and the name of the operation |
| `Encoding.DecodeEncoded` | crates/w9pt-fs-state/src/lease.rs:525-556 | fixed-width big-endian bytes determine the number |
| `Invariants.InvAlways` | crates/w9pt-fs-state-postgres/src/commit.rs:188-371 | every state of every run from the empty store keeps constraints, accounting, lock and content invariants, an exact log, exact fences, a consistent ledger and bounded revisions |
| `Invariants.PublishKeepsLog` | crates/w9pt-fs-state-postgres/src/commit.rs:2259-2339 | publishing and compacting keep the log exactly the contiguous revisions after the oldest cursor |
| `Invariants.PublishRetains` | crates/w9pt-fs-state-postgres/src/lease.rs:976-1071 | the retained count grows by one up to the limit and the newest events stay unchanged |
| `Invariants.TokensGrow` | crates/w9pt-fs-state-postgres/src/lease.rs:766-849 | no transaction lowers a scope's greatest token |
| `EventOrder.ChangedKeys` | crates/w9pt-fs-state-postgres/src/commit.rs:2341-2352 | the event names in strict key order exactly the declared keys and the ledger row, no more of them than the preflight counted |
| `EventOrder.CanonicalUnique` | crates/w9pt-fs-state-postgres/src/key_codec.rs:160-209 | an event is determined by the set of keys it names |
| `Coherence.StepNamesChanges` | crates/w9pt-fs-state-postgres/src/commit.rs:2259-2352 | any transaction changes only records its event names and stamps every named record it leaves with the event's revision |
| `Coherence.CacheExact` | crates/w9pt-fs-state-postgres/src/lease.rs:976-1052 | a value read in one state equals a fresh read in a later state for every key no event in between names |
| `Coherence.RevisionIsLatestEvent` | crates/w9pt-fs-state-postgres/src/record_write.rs:251-278 | a record's revision is the revision of the latest event naming it |
| `Coherence.EqualRevisionMeansUnchanged` | crates/w9pt-fs-state-postgres/src/record_write.rs:251-278 | equal record revisions at two times mean the record was the same at every time in between |
| `Freshness.TrueUntilNamed` | crates/w9pt-fs-state-postgres/src/commit.rs:487-581 | a true precondition of any kind stays true until an event names a row it depends on |
| `Freshness.FreshReadPasses` | crates/w9pt-fs/src/operations/write.rs:315-335 | everything a planner states of an inode it read in one state (revision, generations, content base, link count) passes in every later state as long as no event in between names that inode |
| `Freshness.RevisionHoldsIffUnnamed` | crates/w9pt-fs-state-postgres/src/commit.rs:493-508 | the stated revision of a row read in one state holds in a later state if and only if no event in between names the row |
| `Coherence.RevisionCounts` | crates/w9pt-fs-state-postgres/src/commit.rs:277-279 | the current revision is one plus the committed mutations plus the successful lease transitions |
| `Coherence.RetainedLogIsContiguous` | crates/w9pt-fs-state-postgres/src/commit.rs:2259-2339 | in every reachable state the retained log is exactly (oldest, current], for any sequence of history limits |
| `Coherence.LogRecordsRun` | crates/w9pt-fs-state-postgres/src/commit.rs:2259-2300 | every retained event is the event of the transaction that took its revision |
| `Ledger.RowIffCommitted` | crates/w9pt-fs-state-postgres/src/commit.rs:312-343 | a ledger row stands exactly when some transaction of the run committed its mutation, and is then that transaction's row for ever |
| `Ledger.RowColumns` | crates/w9pt-fs-state-postgres/src/commit.rs:312-343 | the row keeps the mutation context, scope, writer and token of the fence, and the result, at the revision the commit took |
| `Ledger.AtMostOnce` | crates/w9pt-fs-state-postgres/src/commit.rs:188-216 | no run commits one mutation twice |
| `Ledger.RetryReplays` | crates/w9pt-fs-state/src/commit.rs:81-95 | in every later state an exact retry is answered with the same revision and result whatever fence it presents, any other use of the identity with a mismatch of a field that does differ |
| `Fencing.GrantsIncrease` | crates/w9pt-fs-state/src/lease.rs:79-122 | granted tokens of a scope strictly increase across expiry, release and takeover, for any clock readings |
| `Fencing.CommitTokensOrdered` | crates/w9pt-fs-state-postgres/src/lease.rs:255-277 | committed mutations of one scope carry non-decreasing tokens in revision order |
| `Fencing.SupersededNeverCommits` | crates/w9pt-fs-state-postgres/src/lease.rs:255-277 | once a later token was granted the earlier writer never commits again |
| `Fencing.TokenNamesOneLease` | crates/w9pt-fs-state/src/lease.rs:89-155 | a token belongs to one holder and one lease for the whole run |
| `Fencing.LeaseTakesEffect` | crates/w9pt-fs-state-postgres/src/lease.rs:384-495 | a grant or renewal makes exactly its fence current until its deadline, a release leaves none current, a refusal changes neither leases nor tokens |
| `LeaseReplay.ResubmissionReplays` | crates/w9pt-fs-state-postgres/src/lease.rs:325-382 | after a lease operation every resubmission under its identity returns the retained outcome when all operands agree and a mismatch otherwise, in every later state |
| `LeaseReplay.RetainedForever` | crates/w9pt-fs-state-postgres/src/lease.rs:851-892 | a retained lease operation is never dropped or rewritten |
| `LeaseReplay.NeverCorrupt` | crates/w9pt-fs-state-postgres/src/lease.rs:568-630 | in every reachable state the stored shape admits a replay, so the corruption branch is unreachable |
| `Histories.TreeOverRun` | crates/w9pt-fs-state-postgres/src/commit.rs:1548-2120 | from a tree on, the namespace stays a tree as long as every commit meets the caller condition, and the first commit that does not breaks it |
| `Histories.CookiesAlwaysBelow` | crates/w9pt-fs-state-postgres/src/commit.rs:1642-1660 | in every reachable state all cookies lie below the mark and without a header there are no entries |
| `Histories.NewCookieNeverSeen` | crates/w9pt-fs-state-postgres/src/commit.rs:684-704 | a new cookie exceeds every cookie any earlier state of the header's life held |
| `Histories.QidNeverReused` | crates/w9pt-fs-state-postgres/src/commit.rs:595-644 | over guarded commits an inserted QID path exceeds every QID path of every earlier state |
| `Histories.MarksMonotone` | crates/w9pt-fs-state-postgres/src/commit.rs:1177-1216 | while the header persists both marks never fall |
| `Histories.StampIsSound` | crates/w9pt-fs-state-postgres/src/commit.rs:748-855 | over a run within the caller condition the directory generation never falls and equal generations mean identical names, cookies and children |
| `Histories.ContentCounts` | crates/w9pt-fs-state/src/commit.rs:343-411 | while an inode stands its content file is fixed and its content generation counts the changed publications |
| `Histories.MetadataForever` | crates/w9pt-fs-state/src/commit.rs:761-775 | content metadata stands for the rest of the run with the same binding |
| `Histories.RetiredForever` | crates/w9pt-fs-state/src/commit.rs:830-884 | a content file whose inode is gone is never used again |
| `Calls.ProbeLedger` | crates/w9pt-fs-state-postgres/src/commit.rs:129-186 | answers exactly when a ledger row stands, with what the row says of the presented context |
| `Calls.PlanCommit` | crates/w9pt-fs-state-postgres/src/commit.rs:188-301 | reaches a COMMIT exactly when the transaction is enabled; otherwise the answer is that of the first failing check: the ledger, a fence that is not the stored one, the stored fence past its deadline, used-up revisions, or the body with its conflict index and kind |
| `Calls.PlanLease` | crates/w9pt-fs-state-postgres/src/lease.rs:325-495 | replays a retained operation without a transaction, turns away over-long or over-capacity requests unretained, each with its own rejection, and otherwise reaches the operation's transaction; deciding again at the allocated revision never changes the outcome, so the internal errors there are unreachable |
| `Server.Store.ExecuteOnce` | crates/w9pt-fs-state-postgres/src/commit.rs:188-371 | one transaction under each fate: how it ends is determined by the state it starts in, the clock and its fate; state changes by at most the one commit, an acknowledgement means it was applied, a definite rejection that it could not be, and a COMMIT left under way is remembered and nothing else |
| `Server.Store.RecoverAmbiguous` | crates/w9pt-fs-state-postgres/src/commit.rs:155-170 | probes until one answers and stops at the first that does; what it resolves is what the ledger says, and it is exhausted only when every probe left has failed |
| `Server.Store.CommitRequest` | crates/w9pt-fs-state-postgres/src/commit.rs:67-127 | under every failure schedule, interference and late landing the outcome is what the ledger says; at its turns the call applies its mutation at most once, once when it reports a commit and not at all when it fails or is definitely rejected; a definite rejection means the mutation is in no transaction of the run so far; the log of its executions is one the retry rules allow and ends for a reason they give |
| `Server.Store.Attempts` | crates/w9pt-fs-state-postgres/src/commit.rs:84-127 | the loop: each execution is one transaction at its tick, is followed by another exactly after a retryable rollback within the budget or a loss found absent, and the last one decides the result; executions are bounded by one plus both retry limits |
| `Calls.WhyGivenUp` | crates/w9pt-fs-state-postgres/src/commit.rs:67-127 | a call fails only when its first probe fails, its last execution was rolled back not retryably, or one more execution than the configured retries was rolled back; it stays ambiguous only when every probe left after a lost execution failed |
| `Calls.CommitProgress` | crates/w9pt-fs-state-postgres/src/commit.rs:84-127 | a well-formed request not in the ledger whose first transactions abort retryably within the budget and whose next one is acknowledged where it can commit is reported as committed at the next revision |
| `Server.Store.CommitThenOthers` | crates/w9pt-fs-state-postgres/src/commit.rs:67-170 | after the call and whatever happens then, the run holds the mutation at most once, late landings included, and a definite rejection stays true unless a COMMIT of the mutation was under way at the return or it is submitted again |
| `Bootstrap.LateCommitOutlivesRejection` | crates/w9pt-fs-state-postgres/src/commit.rs:155-170 | a concrete COMMIT that may land after the same request was answered as expired |
| `Server.Store.LeaseOnce` | crates/w9pt-fs-state-postgres/src/lease.rs:325-382 | one lease transaction: how it ends is determined by the state it starts in, the clock and its fate; an applied operation reports its fresh decision, granted, renewed or released when it succeeds; a replay or an unretained rejection leaves the state alone and reports none of these; an answer is what the operation ledger replays |
| `Server.Store.LeaseRequestCall` | crates/w9pt-fs-state-postgres/src/lease.rs:279-323 | the lease retry loop is bounded and its answer is what the operation ledger replays; the call applies its operation at most once, not at all when the identity was retained before, and then retained; a first success is reported only for a transaction of this call; an answer it did not apply, when nobody else submits the identity, is one of the two that are not retained; the log of its executions is one the retry rules allow, and it gives up only for a rollback not worth a retry or a used-up budget |
| `Calls.LeaseProgress` | crates/w9pt-fs-state-postgres/src/lease.rs:285-322 | retryable aborts within the budget are retried, and an acknowledged execution ends the call with what its state reports: the fresh decision, the replay or the rejection |
| `Polling.PlanHeaders` | crates/w9pt-fs-state-postgres/src/change.rs:328-375 | selects the greedy whole-event prefix, reports the exact size of a first event that does not fit, and on a complete header list reports corruption exactly when the first event past the key bound takes the total past 32 bits, which no configured bound and logged event reach |
| `Polling.TakeKeys` | crates/w9pt-fs-state-postgres/src/change.rs:385-403 | takes one event's key rows exactly when they follow in revision and ordinal order |
| `Polling.AssembleEvents` | crates/w9pt-fs-state-postgres/src/change.rs:377-413 | succeeds exactly when some whole events use up the rows, and returns them |
| `Polling.ValidEvent` | crates/w9pt-fs-state/src/change.rs:125-160 | accepts exactly nonempty key lists within the key limit and without repetition |
| `Polling.ValidBatch` | crates/w9pt-fs-state/src/change.rs:193-245 | accepts exactly ordered batches of an allowed request, within both bounds and the snapshot, with a cursor past the last event |
| `Polling.Poll` | crates/w9pt-fs-state-postgres/src/change.rs:58-141 | never reports corruption in a reachable state; answers every poll: malformed bounds, unavailable, compacted, too small with the exact need, or the whole events up to where its bounds reach |
| `Polling.AlwaysPollable` | crates/w9pt-fs-state-postgres/src/commit.rs:2259-2339 | every reachable state has an exact log of nonempty events within the schema's 16385 keys, and a revision within 64 bits, so the corruption branches of header planning are unreachable |
| `Server.Store.PollChanges` | crates/w9pt-fs-state-postgres/src/change.rs:58-141 | the store under any interference never answers a poll with corruption |
| `Polling.PollAll` | crates/w9pt-fs-state-postgres/src/change.rs:58-141 | repeated polls end and concatenate to exactly the events up to the current revision, or up to an event with more keys than the bound; a key bound no smaller than any event reaches the current revision |
| `Polling.CacheFollowsFeed` | crates/w9pt-fs-state-postgres/src/change.rs:58-141 | a client that evicts every polled key holds only values equal to a fresh read |
| `Paging.PlanCandidates` | crates/w9pt-fs-state-postgres/src/read.rs:1369-1420 | the planner computes the greedy page and resume of its candidates |
| `Paging.FitIsLongest` | crates/w9pt-fs-state-postgres/src/read.rs:1369-1420 | the page is the longest prefix within both bounds |
| `Paging.PrefilterRefinesScan` | crates/w9pt-fs-state-postgres/src/read.rs:87-114 | planning over the lookahead and byte-prefiltered rows gives the page and resume of the whole remaining list |
| `Paging.ValidatePage` | crates/w9pt-fs-state/src/read.rs:677-725 | the validator's loop over rows with their cursors accepts exactly ordered pages within bounds, snapshot and cursor |
| `Enumeration.ValidateScanPage` | crates/w9pt-fs-state/src/read.rs:677-820 | the portable validator accepts exactly pages of the scanned family whose rows all belong to the scan and form such a page under their own cursors and sizes |
| `Enumeration.ScanCursorMeans` | crates/w9pt-fs-state/src/read.rs:728-821 | a row under its key belongs to a scan exactly when it is of the scanned family, or an entry of the scanned directory |
| `Enumeration.ScannedPageIsValid` | crates/w9pt-fs-state/src/read.rs:677-820 | every page planned from the stored rows of a scan passes that validator |
| `Paging.PlannedPageIsValid` | crates/w9pt-fs-state/src/read.rs:677-725 | every planned page passes the portable validator |
| `Paging.ReadPage` | crates/w9pt-fs-state-postgres/src/read.rs:1369-1420 | one page request answers the page of a plain scan past the cursor |
| `Paging.ScanAll` | crates/w9pt-fs-state-postgres/src/read.rs:1369-1420 | following resumes ends and returns the whole ordered list, no gap and no repeat |
| `Enumeration.ByteEstimatesAgree` | crates/w9pt-fs-state-postgres/src/read.rs:1468-1531 | the byte expression of each scan query equals the portable estimate on every row |
| `Enumeration.CursorsDiffer` | crates/w9pt-fs-state-postgres/src/read.rs:1422-1466 | selected rows have different cursors |
| `Enumeration.LoadOrdered` | crates/w9pt-fs-state-postgres/src/read.rs:87-202 | the ordered rows of a scan are the rows in its scope, each once: those of the family's constructor, or the entries stored under the directory; in the order of their identities, inode before open, lock or name, or of their cookies; each with the size of the query's byte expression |
| `Enumeration.ScanTable` | crates/w9pt-fs-state-postgres/src/read.rs:87-202 | a scan followed page by page to its end returns exactly those rows in that order |
| `Enumeration.ReadDirectoryPage` | crates/w9pt-fs-state-postgres/src/read.rs:904-1006 | a directory page holds exactly the entries between its cursors, none lost by the join with the child, each with the child's kind, QID path and revision, within both bounds and with no room for the next entry; a refusal names the size of the next entry |
| `Enumeration.CookiesIncrease` | crates/w9pt-fs-state-postgres/src/read.rs:174-202 | cookies strictly increase through a whole enumeration across changing states |
| `Enumeration.EmittedExactlyOnce` | crates/w9pt-fs-state-postgres/src/read.rs:904-1006 | a (cookie, child) present under the directory in every state a page was read in, under whatever name, is emitted exactly once |
| `EnumerationHistory.EnumerateDirectory` | crates/w9pt-fs-state-postgres/src/read.rs:904-1006 | reading page after page, each in whatever reachable state the store is in, completes an enumeration or stops at an entry larger than the byte bound |
| `EnumerationHistory.EmittedOnceOverRun` | crates/w9pt-fs-state-postgres/src/read.rs:904-1006 | for pages read at non-falling times of any run: a link that stands from the first page to the last, under whatever names, is emitted exactly once |
| `WholeImage.ValidateImage` | crates/w9pt-fs-state/src/records.rs:1685-2016 | the whole-image validator with its claim sets and lock list accepts exactly the images whose every row matches its key and whose every row and link count is right |
| `WholeImage.ImageIffHealthy` | crates/w9pt-fs-state/src/records.rs:1678-2054 | an image is accepted exactly when its rows match their keys and it is a tree within the depth, accounted, conflict-free, unique, below both marks, with content and metadata bound both ways, or holds no filesystem at all |
| `WholeImage.TargetedRefinesImage` | crates/w9pt-fs-state-postgres/src/commit.rs:1548-2120 | on a valid image, what the targeted checks accept is again valid for the whole-image validator at every depth its directories fit in, if and only if the caller conditions hold, also for requests that create or delete the filesystem |
| `WholeImage.ImageImpliesTargeted` | crates/w9pt-fs-state-postgres/src/commit.rs:1548-1957 | whatever the whole-image validator accepts after a request, the targeted checks accept |
| `WholeImage.ValidatorsAgree` | crates/w9pt-fs-state/src/records.rs:1685-2016 | behind the earlier checks of the database store and on a valid image, the whole-image validator accepts exactly when the targeted checks accept, the caller conditions hold and the directories fit the depth |
| `WholeImage.VacatedIff` | crates/w9pt-fs-state-postgres/src/commit.rs:1548-1957 | an accepted request that deletes the header leaves nothing of the filesystem exactly when it deletes every inode |
| `WholeImage.FirstHealth` | crates/w9pt-fs-state-postgres/src/commit.rs:1548-1957 | an accepted request on a store without a filesystem leaves a healthy image, or none, exactly under its caller condition |
| `WholeImage.TargetedRefinesImageAtSomeDepth` | crates/w9pt-fs-state/src/testing/memory.rs:529 | without a depth bound: after a request the targeted checks accept, the whole-image validator accepts at some depth exactly under the caller conditions |
| `ImageHistory.ImageOverRun` | crates/w9pt-fs-state/src/testing/memory.rs:529 | from the empty store on, every reachable table is accepted by the whole-image validator at some depth while every commit meets the caller conditions, and the first commit that does not leaves one it rejects at every depth |
| `ForeignKeys.ReferencesMean` | crates/w9pt-fs-state-postgres/src/schema/m20260904_182105_create_w9pt_fs_state.rs:1010-1088 | the foreign keys of a row stand exactly when every inode it depends on, the root or parent it names, the open of its pin or lock on the same inode and the metadata of its content file stand |
| `ForeignKeys.ForeignKeysOverRun` | crates/w9pt-fs-state-postgres/src/schema/m20260904_182105_create_w9pt_fs_state.rs:1010-1088 | in every reachable state the deferred foreign keys hold exactly when every directory has its parent, in a tree exactly when every unlinked directory has |
| `ForeignKeys.ForeignKeysIffGuard` | crates/w9pt-fs-state-postgres/src/schema/m20260904_182105_create_w9pt_fs_state.rs:1019-1023 | the COMMIT of an accepted request passes the foreign keys if and only if every directory it writes names a parent that stays and it deletes no parent of a directory it leaves alone |
| `Counterexamples.RetirementFailsAtCommit` | crates/w9pt-fs-state-postgres/src/schema/m20260904_182105_create_w9pt_fs_state.rs:1019-1023 | deleting an open unlinked directory that another one names as parent is accepted by every check of the transaction and violates the foreign key |
| `MemoryStore.CommitInMemory` | crates/w9pt-fs-state/src/testing/memory.rs:440-536 | the in-memory store's checks, staging loop and whole-image validation accept with the resulting rows exactly when all of them pass, and otherwise no rows are acceptable |
| `MemoryStore.MemoryThenDatabase` | crates/w9pt-fs-state/src/testing/memory.rs:440-536 | what the in-memory store accepts the database store accepts, with the same rows, if and only if no precondition asks for the revision of the own lease, the rows meet the CHECK constraints and unique columns are freed before they are taken |
| `MemoryStore.DatabaseThenMemory` | crates/w9pt-fs-state/src/testing/memory.rs:440-536 | what the database store accepts the in-memory store accepts, with the same rows, if and only if no precondition asks for the absence of the own lease, the transitions pass on the whole table, locks are taken in order and the image stays valid |
| `MemoryStore.CleanIff` | crates/w9pt-fs-state/src/testing/memory.rs:1649-1920 | the database's immediate constraints hold at every turn of a staged list exactly when its final rows meet the CHECKs and no change takes a unique column before a later one frees it |
| `MemoryStore.StagedIsWritten` | crates/w9pt-fs-state/src/testing/memory.rs:1649-1920 | staging change by change leaves, at every key, the effect of the one change declaring it on the rows before the request |
| `MemoryStore.TransitionsCompared` | crates/w9pt-fs-state/src/testing/memory.rs:1249-1513 | the transition validators judge the loaded rows as the whole table unless a header stands that the request did not load, and then pass whatever passes on the whole table |
| `MemoryStore.FreeMeansAdmissible` | crates/w9pt-fs-state/src/testing/memory.rs:1665-1681 | if no locks conflict after the request, the database's lock check admits it |
| `StoreDifferences.OwnRevisionDiffers` | crates/w9pt-fs-state-postgres/src/commit.rs:479-498 | a request asking for the true revision of its own lease is accepted in memory and refused by the database |
| `StoreDifferences.OwnAbsenceDiffers` | crates/w9pt-fs-state-postgres/src/commit.rs:479-498 | a request asking for the absence of its own lease is accepted by the database and refused in memory |
| `StoreDifferences.RewindDiffers` | crates/w9pt-fs-state-postgres/src/commit.rs:752-754 | the unguarded replacement that turns a generation back is accepted by the database and refused in memory |
| `StoreDifferences.LockOrderDiffers` | crates/w9pt-fs-state/src/testing/memory.rs:1665-1681 | a lock inserted before the conflicting one is deleted is accepted by the database and refused in memory |
| `StoreDifferences.CookieOrderDiffers` | crates/w9pt-fs-state-postgres/src/schema/m20260904_182105_create_w9pt_fs_state.rs:444-448 | a name inserted before the old name of the same cookie is deleted is accepted in memory and refused by the database's unique constraint |
| `WholeImage.OwnersBoundIffGuard` | crates/w9pt-fs-state/src/records.rs:1901-1922 | metadata stays bound to its owner inode if and only if no special inode is inserted under an identity retained metadata names |
| `Counterexamples.RenameBreaksImage` | crates/w9pt-fs-state/src/commit.rs:432-435 | the concrete rename turns an image the whole-image validator accepts into one it rejects at every depth |
| `Counterexamples.RevivalUnbindsOwner` | crates/w9pt-fs-state/src/records.rs:1901-1922 | concrete accepted inserts of an open unlinked socket under the identity retained metadata names: the metadata is bound no more, and the image is valid at no depth |
| `Counterexamples.FirstRequestWithoutHeader` | crates/w9pt-fs-state-postgres/src/commit.rs:599-602 | the same inserts as a first request without a header are accepted on the empty image and leave one that is valid at no depth |
| `Bootstrap.FirstRun` | crates/w9pt-fs-state-postgres/src/commit.rs:373-399 | a concrete run from the empty store: a lease grant, then the creation of a tree |
| `LockTable.OverlapIsSharedByte` | crates/w9pt-fs-state/src/records.rs:757-767 | two lock ranges overlap exactly when some byte lies in both |
| `Fencing.CurrentIffStanding` | crates/w9pt-fs-state/src/lease.rs:54-76 | in every reachable state a fence is current exactly when the last lease transition of its scope granted or renewed this very fence to a deadline that has not passed |
| `Fencing.CommitHoldsLease` | crates/w9pt-fs-state-postgres/src/lease.rs:255-277 | every committed mutation of a run was committed under the lease the last transition of its scope left, before the deadline |
| `Allocation.PolicyGenerationMoves` | crates/w9pt-fs-state-postgres/src/commit.rs:1217-1236 | while the header persists the policy generation moves by one exactly when the request bumps it |
| `DirectoryStamp.InodeStampIffGuard` | crates/w9pt-fs-state-postgres/src/commit.rs:818-837 | a kept inode row changes only under a generation one above the old, if and only if unguarded replacements do so |
| `DirectoryStamp.GuardedKeepsFields` | crates/w9pt-fs-state-postgres/src/commit.rs:842-849 | a guarded request changes a lock only under the next lock generation and keeps the revision an inode was orphaned at |
| `Decimal.DecodeIffPrinted` | crates/w9pt-fs-state-postgres/src/numeric.rs:5-33 | decimal decoding accepts a text with a value exactly when it is the canonical printing of a value below 2^64 |
| `Decimal.ContentRangeExact` | crates/w9pt-fs-storage-s3/src/range.rs:68-118 | Content-Range validation accepts exactly the one header of the request with a total no smaller than its end |
| `Decimal.RangeAsksBytes` | crates/w9pt-fs-storage-s3/src/range.rs:32-66 | a range is fetched exactly when it is nonempty and within the maximum; the header splits into the first and the last byte, the length is their number, and the one accepted Content-Range repeats what it asked |
| `Decimal.RangeHeaderInjective` | crates/w9pt-fs-storage-s3/src/range.rs:32-66 | different nonempty ranges ask with different headers |
| `KeyCodec.KeyRoundTrip` | crates/w9pt-fs-state-postgres/src/key_codec.rs:34-149 | every in-bounds key decodes back from its row |
| `KeyCodec.RowRoundTrip` | crates/w9pt-fs-state-postgres/src/key_codec.rs:88-149 | every accepted row is the encoding of the in-bounds key it decodes to |
| `KeyCodec.ColumnsRoundTrip` | crates/w9pt-fs-state-postgres/src/key_codec.rs:151-158 | keys survive the nullable columns, and an accepted row is stored again unchanged exactly when it holds no empty value in place of a NULL |
| `KeyCodec.NamesMean` | crates/w9pt-fs-state/src/bounded.rs:67-88 | the names the codec accepts: nonempty, without a zero byte, within the limit, for entries without a slash and neither one nor two dots |
| `Rows.DecodeIffEncoded` | crates/w9pt-fs-state-postgres/src/row_codec.rs:386-748 | an inode row decodes to a record if and only if the record is valid and encodes to that row |
| `Rows.KindIsColumn` | crates/w9pt-fs-state-postgres/src/row_codec.rs:428-478 | the kind column of an encoded inode is the discriminant that directory pages report |
| `Rows.CheckedIffDecodes` | crates/w9pt-fs-state-postgres/src/schema/m20260904_182105_create_w9pt_fs_state.rs:553-730 | under the three-valued logic of SQL an inode row violates no CHECK and is not half published if and only if it decodes to a record |
| `Rows.HalfPublishedPasses` | crates/w9pt-fs-state-postgres/src/schema/m20260904_182105_create_w9pt_fs_state.rs:651-669 | a regular file with a data generation and null content columns passes every CHECK and does not decode |
| `Rows.OtherRowsChecked` | crates/w9pt-fs-state-postgres/src/schema/m20260904_182105_create_w9pt_fs_state.rs:532-962 | the constraints of the other families, in the numbers of the schema |

## Left out

- Resource limits, byte estimates of whole transactions and name bounds: plain bound checks; every theorem holds for the larger set of requests without them.
- SQL execution, connection pools, routing, privileges and migrations: database plumbing around the modelled transactions.
- The row codecs of the other families, which have no nullable columns by kind, and the storage-method column: one field to one column.
- Planners other than the rename of a directory to a free name: the store's checks are proved for every request, whoever plans it.
- Deferred foreign keys as a cause of rejection in runs: a COMMIT they reject is the rolled-back fate of a transaction; no theorem relies on them, and `ForeignKeys` states which requests they reject.
- The error tables that classify database failures: the model keeps retryable, ambiguous and final.
- The ancestor-depth bound as a global claim about the database store: it is checked for targeted directories only; reachability of the root is proved instead.
- Sorting the final locks before the conflict search: the reported minimum does not depend on their order.
- Hashing, encryption, manifests and object storage: content identities and digests are opaque values.
- `read_request` answering several queries from one serializable snapshot, and `read_point`, the lookup of one record by key or of one inode by QID path: each is a map lookup on one state.
- Manual clocks, failure injection and other test controls.
- Requests.ValidatePreflight: does not model the counts of preconditions, changes, locks, pins and attributes, the transaction bytes and the name and value lengths of the configured limits, because they are comparisons with constants that no other property depends on; the key count, which polling depends on, is modelled.
- Transitions.ValidateXattrs: does not model the bound on staged plus transaction bytes, for the same reason.
- Effects.AppliedKeepsConstraints: leaves out the CHECKs on identifier widths, nanoseconds, tags and stored revisions, because identities and timestamps are numbers and revisions are allocated; control characters in a manifest key are not modelled.
- Admission.Evaluate: which of the two errors of a failed transition validator is given is left open, because the order of the tests inside one validator matters to nobody.
- Polling.ValidEvent: does not check name lengths and that keys belong to the filesystem; the model holds one filesystem.
- Polling.ValidBatch: does not check name lengths and that events belong to the filesystem, for the same reason.
- Enumeration.ValidateScanPage: does not check that rows belong to the filesystem, because the model holds one filesystem.
- Paging.ValidatePage: takes the cursor and size of each row as given; `Enumeration.ValidateScanPage` computes them and checks the family.
- MemoryStore.CommitInMemory: does not model the single-writer topology check, the limits and which reason a refused request gets.
- RecordBytes and item sizes: modelled as unbounded sums; the 64-bit overflow checks on them are not.
