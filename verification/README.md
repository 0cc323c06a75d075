# Verified model of the group, catalogue, transfer, import and admission rules

A node keeps the same groups, file catalogues and files as its peers. This project models the rules by
which it does so and proves what they promise, in Dafny 4.11. `dafny verify dfyconfig.toml` checks all of it.

**Groups.** A group is a hash-linked log with one writer, its admin (`Chain.dfy`), and beside it a register
holding the last word of every peer about itself (`Standing.dfy`). `Members.dfy` has the roster folded from
the log and the digest of what members said. `Tables.dfy` describes every operation of the store as a
function on one group's rows: the row of the group, its entries, its standings and its members. `Store.dfy`
is the store itself, a class whose methods are proved to be those functions. `ChainLaws.dfy` proves the log
laws, `StoreLaws.dfy` what one operation keeps, `Runs.dfy` what whole runs keep, serial ones and ones in which
two connections interleave reading a log with committing to it. `Convergence.dfy` and `Exchange.dfy` are about
two nodes: what one may take of another's log, who is served what, and what both hold after serving each other.
`StoreReports.dfy` says when each operation goes through, what it reports and what it leaves in the group's row.
`Gossip.dfy` is about any number of nodes pulling from whomever they meet, and `Divergence.dfy` about the one
thing in which such nodes can stay apart. `Slots.dfy` and `Sync.dfy` are the machine that decides what to fetch;
`Asking.dfy` and `SyncLaws.dfy` say what each event makes it do, in terms of heads, logs and statements.
`Witness.dfy` writes one small group out in full and shows that what two of the results speak of does happen.

**Files.** `FileReads.dfy` and `FileSync.dfy` are the second sync machine, which pages through peers'
catalogue logs under an abstract catalogue store, and the paging itself; `FileAsking.dfy` says what an answer of
heads makes it do. `Transfer.dfy` is the resumable download of one file: staging, hashing, committing, and what
a holder of the file answers.

**Smaller cores.** `Ledger.dfy` has the importer's leases and attempts, `Admission.dfy` the mutual attestation
exchange and `AdmissionLaws.dfy` what it comes to, `Jpegs.dfy` the carving of embedded images, `Config.dfy` the
`key = value` text and `ConfigLaws.dfy` what it means. `Wire.dfy` holds what nodes send each other about groups,
`Base.dfy` a few shared types.

Most results are stated without the functions that the code is modelled by: a rule is written out a second time,
in terms of what a caller can see, and proved to be what the code does.

## What is assumed

Hashes are constructors applied to what was hashed, so equal hashes mean equal bytes. Encoding, decoding,
signing and signature checks, name normalisation and the bytes of peer identities are functions of a `World`
about which nothing is assumed, except where a lemma says so: `EncodingsDecode` (what is encoded decodes back) and
`SelfDelimiting` (the bytes of one identity are never the start of another's). Base-58 text of a peer is a
canonical bijection. A transaction is one atomic step. Clocks, admitted peers, arriving bytes and replies are
inputs.

## What the code does that its documentation does not say

- A position stated in a group this node does not hold is reported as an unknown group, and its row is stored
  nevertheless (`StoreLaws.AuthorStandingKeepsStep`).
- The next sequence number of a peer's statements wraps after the largest u64, where it no longer wins
  (`Standings.NextSeqClimbs`).
- A slice of another log is accepted by `put` exactly when the two logs agree as far as the slice and ours
  reach. Beyond the end of the slice nothing is compared, so there the logs of an admin that signed two
  different entries at one position may differ (`Convergence.PutAcceptsExactlyAgreement`).
- Nodes that heard of the same nodes can end with different statements of a peer, if the peer can make one and the
  log takes it in, out and in again while three others stay: one that meets the removal on the way drops the
  statement, and one that skips it keeps it (`Divergence.DivergesExactly`, `Witness.StatementsCanBeLost`).
- A page all of whose rows the peer fails to read back sends the reader to the same page again
  (`FileReads.StuckExactlyOnAnUnreadablePage`). Every reading of a log ends exactly when its last row is readable
  and no 2048 rows in a row are unreadable (`FileReads.EveryReadingStopsExactly`).
- A saturating sum decides whether a sender overran what it announced, so nothing overruns an announced size
  of the largest u64 (`Transfer.OverrunsExactly`).
- A row with fresh attempts is claimable at once unless leased only when the clock is past one hour after the
  epoch (`Ledgers.ResetIsClaimableUnlessLeased`).
- Image data is scanned two bytes at a time over `FF FF`, so an odd number of fill bytes before a marker, which
  section B.1.1.2 of ITU-T T.81 allows, hides it (`Jpegs.ScanEndsDataExactlyWhenEvenlyFilled`,
  `Jpegs.OneFillByteHidesAnImage`).
- Whitespace at the ends of a value is lost in writing and reading back, except line feeds
  (`Configs.RoundTripsExactly`).

## Model

| member | source | states |
|---|---|---|
| Standings.NextSeqClimbs | crates/ac-groups/src/standing.rs:88-91 | the next sequence number is greater than the last exactly when the last is not the largest u64 |
| Standings.WinsIsStrictTotal | crates/ac-groups/src/standing.rs:142-148 | which of two statements wins is a strict total order on sequence number and body |
| Standings.VerifyingIsSaying | crates/ac-groups/src/standing.rs:100-126 | a statement passes exactly when the peer it names made it about this group: bounded, decoding, signed with that peer's key, with a proper name |
| Standings.RefusedStatementsAreFaulty | crates/ac-groups/src/standing.rs:100-126 | every refusal names a rule that the statement does break |
| Standings.StandingSet.Insert | crates/ac-groups/src/standing.rs:165-188 | inserting keeps the winner of the old and the new statement, and says whether the new one won |
| Standings.RecordAllHoldsTheMaximum | crates/ac-groups/src/standing.rs:165-188 | after any inserts each peer has exactly the greatest statement ever offered for it |
| Standings.RecordAllIsFaithful | crates/ac-groups/src/standing.rs:165-188 | a register fed verified statements holds what their bodies say |
| Standings.InsertOrderDoesNotMatter | crates/ac-groups/src/standing.rs:165-188 | the same offers in any order, with any repeats, give the same statements |
| Memberships.Members.NameFrom | crates/ac-groups/src/members.rs:45-49 | every member's name becomes what its standing says, in a loop |
| Memberships.Members.StandingsDigest | crates/ac-groups/src/members.rs:76-93 | the loop feeds the hash exactly the tagged encoding of the statements of current members, in peer order |
| Memberships.DigestDeterminesStatements | crates/ac-groups/src/members.rs:76-93 | digests are equal exactly when the members that spoke, and what each said, are equal |
| Memberships.SaidContains | crates/ac-groups/src/members.rs:76-93 | a statement reaches the digest exactly when its peer is a member who made it |
| Memberships.SaidIgnoresOthers | crates/ac-groups/src/members.rs:76-93 | what non-members said cannot change the digest |
| Memberships.StatementBytes | crates/ac-groups/src/members.rs:76-93 | the bytes hashed of one statement: identity, sequence number, position, name after its length, numbers least byte first |
| Memberships.SaidAscends | crates/ac-groups/src/members.rs:76-93 | statements are hashed by ascending peer |
| Chains.Chain.Load | crates/ac-groups/src/chain.rs:115-129 | loading checks the genesis and then every entry, as the log function does |
| Chains.Chain.Extend | crates/ac-groups/src/chain.rs:131-145 | all of a batch is appended or, on any error, nothing changes |
| Chains.Chain.Author | crates/ac-groups/src/chain.rs:147-161 | signs, checks and appends one entry, or changes nothing |
| Chains.Chain.FoldMembers | crates/ac-groups/src/chain.rs:237-259 | the loop over the entries builds the folded roster |
| Chains.Chain.DepartureSeq | crates/ac-groups/src/chain.rs:217-230 | the loop finds the removal a peer last left by, if it is out |
| ChainLaws.CheckNextIsFollows | crates/ac-groups/src/chain.rs:298-359 | the checks on a next entry are exactly the declarative rules of a valid log |
| ChainLaws.RefusedEntriesAreFaulty | crates/ac-groups/src/chain.rs:298-359 | every refusal names a rule that the entry does break |
| ChainLaws.ExtendIsValidity | crates/ac-groups/src/chain.rs:131-145 | a batch is accepted exactly when the longer log is valid |
| ChainLaws.LoadIsValidity | crates/ac-groups/src/chain.rs:115-129 | a list of entries loads exactly when it is the entries of a valid log, as that log |
| ChainLaws.ExtendComposes | crates/ac-groups/src/chain.rs:131-145 | extending by two batches joined is extending by one and then the other |
| ChainLaws.ReloadRebuilds | crates/ac-groups/src/chain.rs:115-129 | a valid log is rebuilt from its own entries |
| ChainLaws.CommonBodyForcesPrefix | crates/ac-groups/src/chain.rs:298-323 | one entry in common forces every earlier entry body to be in common |
| ChainLaws.SameIdSameGenesis | crates/ac-groups/src/chain.rs:262-296 | logs of one group begin with the same entry and have the same admin |
| ChainLaws.FoldDependsOnBodies | crates/ac-groups/src/chain.rs:237-259 | membership and departures depend on entry bodies, not on signatures |
| ChainLaws.LastWordDecides | crates/ac-groups/src/chain.rs:217-259 | a peer is in, departed at a position, or never named, by the last entry that mentions it |
| ChainLaws.EveryPeerHasOneStatus | crates/ac-groups/src/store.rs:730-738 | the peers ever mentioned are exactly the members and the departed, and nobody is both |
| ChainLaws.FirstMentionAdmits | crates/ac-groups/src/chain.rs:327-351 | nobody but the admin is mentioned without having been added |
| ChainLaws.OneAdminForever | crates/ac-groups/src/chain.rs:327-351 | the admin is always in, is the only one marked admin, and is never removed |
| ChainLaws.NameIsTheFounders | crates/ac-groups/src/chain.rs:262-296 | a group goes by the name in its first entry, which its admin signed |
| StoreLaws.StoredLogIsRead | crates/ac-groups/src/store.rs:197-214 | the entries of a stored log load as that log |
| StoreLaws.NothingIsWrittenOver | crates/ac-groups/src/store.rs:747-768 | entries go where there is none yet, and none that is there is written over |
| StoreLaws.RebuiltIsCached | crates/ac-groups/src/store.rs:856-896 | rebuilding puts members, names and digest in step with the log and the standings |
| StoreLaws.TakeAllReadsBack | crates/ac-groups/src/store.rs:497-540 | the register kept while taking statements in is what the standings table reads back as |
| StoreLaws.PlanPutIsSound | crates/ac-groups/src/store.rs:450-483 | what `put` plans from the log it read is that log with the unseen entries added |
| StoreLaws.CommitPutMovesHead | crates/ac-groups/src/store.rs:485-558 | a commit is refused as raced exactly when it brings entries and the head moved; otherwise the stored log is the planned one, or stays |
| StoreLaws.CommitPutCaches | crates/ac-groups/src/store.rs:485-558 | committed over the log it was planned from, the caches agree with the new log |
| StoreLaws.PutKeepsStep | crates/ac-groups/src/store.rs:450-558 | `put` keeps all tables in step, keeps our entries a prefix, and leaves everything alone if refused |
| StoreLaws.PlanAuthorIsSound | crates/ac-groups/src/store.rs:561-571 | only the admin plans an entry, and it is a valid next one |
| StoreLaws.CommitAuthorMovesHead | crates/ac-groups/src/store.rs:573-589 | an authored entry is stored exactly when the head is the one that was read |
| StoreLaws.AuthorKeepsStep | crates/ac-groups/src/store.rs:561-589 | `author` keeps all tables in step, adds exactly the entry returned, or changes nothing |
| StoreLaws.AuthorStandingKeepsStep | crates/ac-groups/src/store.rs:592-624 | a position is recorded and the tables stay in step; it succeeds exactly when it was signed and the group is held; of a group not held it says that it is unknown, and leaves the row behind |
| StoreLaws.CreateKeepsStep | crates/ac-groups/src/store.rs:391-448 | a created group is stored, cached and holds its admin's own statement |
| StoreLaws.AdoptKeepsStep | crates/ac-groups/src/store.rs:677-715 | a group not held is stored whole and pending; a group held is left to `put` |
| Store.Groups.ReadLog | crates/ac-groups/src/store.rs:197-214 | reads a group's entries and loads them, or says what is wrong |
| Store.Groups.LoadStandings | crates/ac-groups/src/store.rs:816-854 | the loop fills the register with every row that decodes |
| Store.Groups.Answer | crates/ac-groups/src/store.rs:289-310 | computes what is served; `Convergence` says to whom that is what |
| Store.Groups.InsertEntries | crates/ac-groups/src/store.rs:747-768 | entries are written one by one from a position on |
| Store.Groups.Rebuild | crates/ac-groups/src/store.rs:856-896 | rewrites members, standings and digest from a log and a register |
| Store.Groups.FindDifference | crates/ac-groups/src/store.rs:463-483 | finds the first offered entry whose hash differs from ours |
| Store.Groups.IngestStandings | crates/ac-groups/src/store.rs:497-540 | takes statements in one by one; `Exchange` says that these are the signed ones of mentioned peers, and `StoreReports` whose departure is noticed |
| Store.Groups.PreparePut | crates/ac-groups/src/store.rs:450-483 | the reading half of `put`: a plan, or a gap, a conflict or a refusal |
| Store.Groups.TransactPut | crates/ac-groups/src/store.rs:485-558 | the committing half of `put` |
| Store.Groups.Put | crates/ac-groups/src/store.rs:450-558 | both halves together change the tables exactly as the specification says |
| Store.Groups.PrepareAuthor | crates/ac-groups/src/store.rs:561-571 | the reading half of `author` |
| Store.Groups.TransactAuthor | crates/ac-groups/src/store.rs:573-589 | the committing half of `author` |
| Store.Groups.Author | crates/ac-groups/src/store.rs:561-589 | both halves together, changing only the group's rows |
| Store.Groups.RefreshDigest | crates/ac-groups/src/store.rs:717-726 | rewrites the derived tables, or reports what stopped it and changes nothing |
| Store.Groups.AuthorPosition | crates/ac-groups/src/store.rs:592-624 | commits the node's statement first, then refreshes; a failed refresh does not undo it |
| Store.Groups.Create | crates/ac-groups/src/store.rs:391-448 | a new group and its admin's statement in one transaction |
| Store.Groups.Adopt | crates/ac-groups/src/store.rs:677-715 | stores a log never seen, or hands it to `put` |
| Store.Groups.Forget | crates/ac-groups/src/store.rs:657-676 | drops all rows of one group and of no other |
| Store.PutInTwoHalves | crates/ac-groups/src/store.rs:450-558 | `put` is its reading half followed by its committing half, and an error of either changes nothing |
| Runs.DoKeepsSound | crates/ac-groups/src/store.rs:391-726 | every operation keeps every group in step, and every stored statement one that its peer signed about this group |
| Runs.EveryRunIsSound | crates/ac-groups/src/store.rs:391-726 | so after every serial run, from no groups at all, forgetting included |
| Runs.PutExtendsWhatItRead | crates/ac-groups/src/store.rs:459-494 | a pending `put` with entries extends exactly the log it read, or changes nothing because the head moved |
| Runs.AuthorExtendsWhatItRead | crates/ac-groups/src/store.rs:568-579 | the same for a pending `author` |
| Runs.EveryInterleavingKeepsTheLog | crates/ac-groups/src/store.rs:391-589 | after every step of every interleaved run of creating, putting, authoring, stating and adopting, forgetting left out, the entries are a valid log of the recorded length and head, and the log only ever grew |
| StoreReports.PutsReport | crates/ac-groups/src/store.rs:485-558 | what `put` says: how many entries are new, how long the log is, exactly who came in and who went out, and whether that was this node |
| StoreReports.DeparturesAreNoticed | crates/ac-groups/src/store.rs:497-540 | exactly those members are reported as departed of whom the batch brings a signed statement that they are out, outranking what was held and every earlier one in the batch |
| StoreReports.PutsTouchTheRow | crates/ac-groups/src/store.rs:542-548 | of the row, `put` moves the time of the last exchange and leaves state, news and first sight alone |
| StoreReports.RefusedSlicesNameThePlace | crates/ac-groups/src/store.rs:463-483 | a gap is reported exactly when the slice begins after our end, and a divergence at exactly the first position that differs |
| StoreReports.UnknownGroupsAreRefused | crates/ac-groups/src/store.rs:450-571 | nothing is put in, or authored for, a group there is no row of |
| StoreReports.AuthorsExactly | crates/ac-groups/src/store.rs:561-589 | an entry is authored exactly by the admin, for a permitted change, as the next of the log, and only if it is signed and accepted as signed |
| StoreReports.AuthorsTouchTheRow | crates/ac-groups/src/store.rs:579-589 | an authored change is news in the row, made at that time, and nothing else of it changes |
| StoreReports.PositionsAreStatedExactly | crates/ac-groups/src/store.rs:592-612 | a position is stated exactly if the name has a proper form and the statement, one past the node's last, is encoded, signed and accepted as its own |
| StoreReports.PositionsAreRecorded | crates/ac-groups/src/store.rs:612-624 | stating a position sets the state that goes with it and is news |
| StoreReports.OnlyOneStatementIsReplaced | crates/ac-groups/src/store.rs:592-624 | it replaces the node's last statement and no other, and is dropped if the node is not in |
| StoreReports.GroupsAreCreatedExactly | crates/ac-groups/src/store.rs:391-448 | a group is created exactly if its first entry is signed, its name within bounds, its id not held, and its founder can state that it is in |
| StoreReports.CreatedRows | crates/ac-groups/src/store.rs:391-448 | a created group is active, first seen and exchanged then, without news |
| StoreReports.AdoptionsReport | crates/ac-groups/src/store.rs:677-715 | an adopted log is reported whole, with whether this node is in it, and its row is pending and first seen then |
| StoreReports.NamesAreTheirOwn | crates/ac-groups/src/members.rs:45-49 | every member goes by the name in its own last statement, or by none; only the admin is marked |
| Convergence.PutAcceptsOnlyAgreement | crates/ac-groups/src/store.rs:463-483 | a non-empty slice of a valid log of the group is accepted only if both logs agree up to its end; our entries stay a prefix |
| Convergence.PutAcceptsExactlyAgreement | crates/ac-groups/src/store.rs:463-483 | such a slice is accepted exactly when it leaves no gap and both logs agree as far as the slice and ours reach |
| Convergence.PutOfServedEntries | crates/ac-groups/src/store.rs:463-494 | entries served from where ours end, by a log that agrees, are taken and continue ours |
| Convergence.ServesUpToRemoval | crates/ac-groups/src/store.rs:289-310 | a former member is served up to and including its last removal, and no standings |
| Convergence.ServedExactlyToTheMentioned | crates/ac-groups/src/store.rs:289-310 | something is served exactly if this node is in and some entry mentions the peer that asks |
| Convergence.MembersAreServedAll | crates/ac-groups/src/store.rs:289-310 | a member is served the rest of the log and exactly the statements of all rows |
| Convergence.OthersAreServedToTheirRemoval | crates/ac-groups/src/store.rs:289-310 | whoever is not a member is served no statement, and no entry past the removal that is the last word about it |
| Convergence.CutAtRemovalExcludes | crates/ac-groups/src/chain.rs:202-230 | a log cut there does not count the peer in |
| Convergence.FormerMemberLearnsOnlyItsRemoval | crates/ac-groups/src/store.rs:289-310 | having put what it was served, a former member has a valid log running exactly to its last removal, whose fold excludes it |
| Exchange.TakeAllIsRecordAll | crates/ac-groups/src/store.rs:497-540 | taking in statements is inserting into the register exactly those signed by a mentioned peer about this group |
| Exchange.TakingInATable | crates/ac-groups/src/store.rs:497-540 | taking in another node's table leaves each peer with the better of the two statements |
| Exchange.PutAbsorbs | crates/ac-groups/src/store.rs:450-558 | putting what an agreeing member serves gives the longer log and the better statement of each member |
| Exchange.TwoWayExchangeConverges | crates/ac-groups/src/store.rs:289-310 | two members whose logs agree, each putting what the other serves, end with the same log bodies, members and member statements |
| Exchange.AgreementIsSilent | crates/ac-groups/src/sync.rs:189-206 | after that neither's heads make the other fetch |
| Exchange.SilenceIsAgreement | crates/ac-groups/src/sync.rs:189-206 | of two logs that agree, neither side fetches exactly when both hold the same log and the same member statements |
| Gossip.KnownByBoth | crates/ac-groups/src/standing.rs:142-148 | what two nodes know joins: the longer log, and the greater statement of each steady member, missing ones included |
| Gossip.TakenAbsorbs | crates/ac-groups/src/sync.rs:184-206 | a pull from a fellow member leaves the longer log and the better statement of each member |
| Gossip.NodesKnowWhatTheyHeard | crates/ac-groups/src/store.rs:450-558 | after any run of pulls each node holds the longest log, and of each steady member the greatest statement, that the nodes it has heard of started with |
| Gossip.GossipConverges | crates/ac-groups/src/store.rs:450-558 | two nodes that have heard of the same nodes, in whatever order and through whomever, hold the same log, members and statements of every peer that does not return by the lengths of log the nodes began with; if none returns, neither has anything left to fetch |
| Divergence.ReturningDiverges | crates/ac-groups/src/store.rs:856-896 | a statement of a peer that is in, out and in again among three others can be lost by one node and kept by another that heard of the same nodes |
| Divergence.DivergesExactly | crates/ac-groups/src/store.rs:856-896 | in a group, nodes that heard of the same nodes can hold different statements of a peer exactly when it can make one and returns among three others |
| Witness.StatementsCanBeLost | crates/ac-groups/src/store.rs:856-896 | a group of six entries, written out, in which that happens |
| Slots.FetchingKeeps | crates/ac-groups/src/sync.rs:394-426 | a fetch goes out, is queued or is dropped for want of room, within both bounds and one a group |
| Slots.DrainingKeeps | crates/ac-groups/src/sync.rs:428-446 | draining ends with all slots used or the queue empty, keeps outstanding fetches, and passes over a queued one only if its peer has gone |
| Slots.DrainingIsInOrder | crates/ac-groups/src/sync.rs:428-446 | queued groups go out oldest first, each from where its log now ends, and the rest keep their order |
| Slots.FetchingHeadsKeeps | crates/ac-groups/src/sync.rs:189-206 | a whole answer of heads keeps the bounds and leaves every fetch it asked for outstanding |
| Slots.ExpiringKeeps | crates/ac-groups/src/sync.rs:359-367 | a tick keeps the bounds, and what stays outstanding is in time and of a ready peer |
| Asking.HeadsAreHeeded | crates/ac-groups/src/sync.rs:189-206 | of the groups named, exactly those not held, longer or with other statements are asked for, from our end, and are then in flight or queued unless the queue is full |
| Asking.GroupsAreAskedFor | crates/ac-groups/src/sync.rs:212-220 | groups that went unnamed are all asked for in the same way |
| Asking.NeitherAsksExactlyInAgreement | crates/ac-groups/src/sync.rs:189-206 | two members whose logs agree, each told the other's head, ask for nothing exactly when log and member statements are the same |
| Sync.GroupSync.On | crates/ac-groups/src/sync.rs:152-181 | in every reachable state at most 8 fetches and 256 queued groups, distinct and disjoint, nothing queued while a slot is free; the reaction is the specified one and the tables stay sound |
| Sync.GroupSync.OnHeads | crates/ac-groups/src/sync.rs:184-224 | asks for exactly the groups of which the heads have news, and then by name for the held groups that count the peer in and went unnamed |
| Sync.GroupSync.SilentlyOmitted | crates/ac-groups/src/sync.rs:226-240 | lists exactly those groups, each once, by name |
| Sync.GroupSync.OnEntries | crates/ac-groups/src/sync.rs:242-289 | only the awaited answer is applied; a gap is asked for again at once; anything else changes nothing |
| Sync.GroupSync.AnswerInvitation | crates/ac-groups/src/sync.rs:320-333 | a pending node that is named and has not spoken says so |
| Sync.GroupSync.Ratify | crates/ac-groups/src/sync.rs:336-357 | the admin authors one removal for each departure but its own |
| Sync.GroupSync.OnTick | crates/ac-groups/src/sync.rs:359-375 | drops late fetches and gone peers, then stale invitations |
| Sync.GroupSync.ExpirePending | crates/ac-groups/src/sync.rs:377-391 | forgets exactly the old pending groups that no longer name this node |
| Sync.GroupSync.DrainDeferred | crates/ac-groups/src/sync.rs:428-446 | the loop ends and is the draining function |
| Sync.RemovalIsAuthored | crates/ac-groups/src/sync.rs:336-357 | the admin's removal of a member is stored exactly when that one entry can be signed, and then takes out exactly that member |
| Sync.DeparturesBecomeRemovals | crates/ac-groups/src/sync.rs:336-357 | after ratifying, out are exactly those reported members whose removal the admin could sign when their turn came, never the admin |
| SyncLaws.HeadsLeadToFetches | crates/ac-groups/src/sync.rs:152-224 | heads of a ready peer make the machine want exactly those groups of it; heads of any other peer do nothing |
| SyncLaws.AgreementIsQuiet | crates/ac-groups/src/sync.rs:184-224 | a peer in agreement on every group, that names every group that counts it in, is asked nothing |
| SyncLaws.AnswersAreAbsorbed | crates/ac-groups/src/sync.rs:242-289 | an awaited answer of an agreeing member leaves the longer log and the better statement of each member, and changes no other group |
| SyncLaws.GapsAreAskedAgain | crates/ac-groups/src/sync.rs:242-289 | an answer from beyond our end changes no table and is asked for again at once from our end |
| SyncLaws.NewLogsAreAdopted | crates/ac-groups/src/sync.rs:242-289 | a valid log of a group not held is kept whole and pending |
| SyncLaws.UnaskedAnswersChangeNothing | crates/ac-groups/src/sync.rs:242-262 | an answer no fetch is out for, to that peer and from that position, changes nothing |
| SyncLaws.InvitationsAreAnsweredOnce | crates/ac-groups/src/sync.rs:320-333 | a node states that it has not decided exactly when it is in, pending and silent, and then is silent no more |
| SyncLaws.FailuresEndTheirFetch | crates/ac-groups/src/sync.rs:448-452 | a refusal or failure ends the fetch it is about if that is out to this very peer, and nothing else |
| SyncLaws.TicksEndTheOverdue | crates/ac-groups/src/sync.rs:359-391 | a tick ends exactly the late and unready fetches, drops exactly the queued ones of gone peers, and forgets exactly the groups pending for thirty days without this node |
| SyncLaws.KeptIsInOrder | crates/ac-groups/src/sync.rs:359-367 | what stays queued stays in order |
| Witness.DeparturesCanBeRatified | crates/ac-groups/src/sync.rs:336-357 | a group, written out, in which a reported departure is signed and stored |
| FileReads.ReadingKeeps | crates/ac-files/src/sync.rs:372-410 | a read goes out, is queued or is dropped, within both bounds and one a pair |
| FileReads.DrainingKeeps | crates/ac-files/src/sync.rs:413-427 | draining ends with all slots used or the queue empty and starts no pair that was not queued |
| FileReads.DrainingIsInOrder | crates/ac-files/src/sync.rs:413-427 | queued reads go out oldest first, each from where its cursor now is, and the rest keep their order |
| FileReads.NamingHeadsKeeps | crates/ac-files/src/sync.rs:241-264 | an answer of heads keeps the bounds and leaves every read it asked for outstanding |
| FileReads.AnsweringKeeps | crates/ac-files/src/sync.rs:277-349 | a follow-up goes out at once, whatever is queued, with its retried flag; without one the pair is neither under way nor queued |
| FileReads.ExpiringKeeps | crates/ac-files/src/sync.rs:439-449 | a tick keeps the bounds, and what stays is in time and of a ready peer |
| FileAsking.HeadsAreHeard | crates/ac-files/src/sync.rs:241-264 | settled are exactly the shared groups some head of which has our digest; the others are read from their cursors or queued, unless the queue is full; unshared groups leave nothing |
| FileReads.PageAdvances | crates/ac-files/src/store/log.rs:41-96 | a page carries the rows up to its last readable one and leads right behind it; it leads nowhere exactly when nothing lies ahead or none of its rows is readable |
| FileReads.FollowUpsDescend | crates/ac-files/src/sync.rs:332-348 | a follow-up lowers the measure, not yet rewound first and rows ahead second, exactly when the page had a readable row or none at all |
| FileReads.StuckExactlyOnAnUnreadablePage | crates/ac-files/src/store/log.rs:68-80 | a reader is sent back to the same page exactly when rows lie ahead and none of the page's can be read back |
| FileReads.ReadingStopsExactly | crates/ac-files/src/sync.rs:277-349 | a reading of an unchanging log stops asking exactly when no page on its way is all unreadable, nor any from the start if it must read again |
| FileReads.EveryReadingStopsExactly | crates/ac-files/src/store/log.rs:41-96 | every reading of a log stops, wherever it begins, exactly when the last row is readable and no page's worth of rows in a row is unreadable |
| FileReads.RowsGiveTheirEntries | crates/ac-files/src/store/log.rs:68-80 | a row gives its entry exactly if it can be read back and has one, and one entry is merged as the store merges it |
| FileReads.EntriesOfSplit | crates/ac-files/src/store/log.rs:41-96 | rows one after another give their entries one after another |
| FileReads.MergedAllSplit | crates/ac-files/src/sync.rs:292-322 | entries one after another are merged one after another |
| FileReads.ReadingIsOneMerge | crates/ac-files/src/sync.rs:277-349 | if it ends, page after page comes to one merge of everything past the cursor, and one of the whole log more if the digests differ and it had not rewound |
| FileSyncs.FileSync.On | crates/ac-files/src/sync.rs:190-197 | in every reachable state the in-flight and queued pairs are bounded, distinct and disjoint, and nothing is queued while a slot is free; the reaction is the specified one |
| FileSyncs.FileSync.Dispatch | crates/ac-files/src/sync.rs:199-237 | what each event does before the queue is drained |
| FileSyncs.FileSync.OnHeads | crates/ac-files/src/sync.rs:241-264 | settles exactly the shared groups whose digests agree and reads exactly the others, from their cursors |
| FileSyncs.FileSync.OnChanges | crates/ac-files/src/sync.rs:267-349 | merges the awaited page, moves the cursor where the peer said, and continues, rewinds once or settles |
| FileSyncs.FileSync.MergePage | crates/ac-files/src/sync.rs:291-349 | merges the entries in a loop, moves the cursor, and asks for what follows |
| FileSyncs.FileSync.DrainDeferred | crates/ac-files/src/sync.rs:413-427 | the loop ends and is the draining function |
| FileSyncs.AnswersContinueOrSettle | crates/ac-files/src/sync.rs:332-348 | the follow-up of an awaited page is outstanding after the event with its flag; a settled pair has no read left anywhere |
| FileSyncs.RefusalsSettle | crates/ac-files/src/sync.rs:219-222 | a refusal of a read under way settles the pair and leaves no read of it |
| FileSyncs.StrayPagesChangeNothing | crates/ac-files/src/sync.rs:277-282 | a page not waited for changes nothing |
| FileSyncs.HeadsSettleOrLeadToReads | crates/ac-files/src/sync.rs:199-264 | the same of the machine's event, and nothing for a peer that is not ready |
| FileSyncs.FailuresEndTheirRead | crates/ac-files/src/sync.rs:214-233 | a refusal or failure ends the read it is about and no other; only the refusal settles |
| FileSyncs.TicksEndTheOverdue | crates/ac-files/src/sync.rs:439-449 | a tick ends exactly the late and unready reads and drops exactly the queued ones of gone peers |
| FileSyncs.PagesMoveOneCursor | crates/ac-files/src/sync.rs:267-349 | an awaited page moves one cursor, to where it leads or back to the start, and changes one catalogue; without a directory it only ends the read |
| FileSyncs.DirectoriesAreResolvedOnDemand | crates/ac-files/src/sync.rs:283-290 | a directory is resolved exactly when an awaited page is of a group that has one |
| FileSyncs.MachinesSettleExactly | crates/ac-files/src/sync.rs:267-349 | the machine stops asking an honest peer exactly when the reading is one that ends |
| FileSyncs.ConversationsReadOut | crates/ac-files/src/sync.rs:267-349 | the machine, fed an honest peer's pages, makes exactly the paged reading |
| FileSyncs.ConversationsReachTheEnd | crates/ac-files/src/sync.rs:323-348 | a reading leaves the cursor where nothing of the log lies ahead |
| FileSyncs.HonestReadingsEnd | crates/ac-files/src/sync.rs:332-348 | a reading of an honest log that ends rewinds at most once and has merged all of it past the cursor |
| Transfer.OverrunsExactly | crates/ac-files/src/blob.rs:58-60 | the saturating test is the real one except for an announced size of the largest u64 |
| Transfer.Blobs.Resume | crates/ac-files/src/content.rs:243-282 | continues a partial of the length asked for with the hash state rebuilt in a loop, and otherwise starts over |
| Transfer.Blobs.Fetch | crates/ac-files/src/blob.rs:142-163 | one whole download changes its path as the specification says, and no other path |
| Transfer.Blobs.Receive | crates/ac-files/src/blob.rs:165-190 | the loop over arriving chunks, stopping at the first refused one |
| Transfer.Blobs.End | crates/ac-files/src/blob.rs:192-218 | parks, discards or commits |
| Transfer.Blobs.Serve | crates/ac-files/src/blob.rs:229-261 | what a request is answered, correcting a row whose bytes are gone |
| Transfer.Blobs.SweepStaging | crates/ac-files/src/content.rs:197-235 | the loop drops exactly the idle partials the index has no more use for, and counts them |
| Transfer.Sink.Write | crates/ac-files/src/content.rs:37-42 | hashes all bytes and appends those there is room for |
| Transfer.HashSpansTheFile | crates/ac-files/src/content.rs:36-68 | while nothing fails the hash is of exactly what is in the file, resumed or not |
| Transfer.CommitsOnlyWhatWasAsked | crates/ac-files/src/blob.rs:192-218 | success means the bytes in place have the hash asked for; failure leaves file and row alone |
| Transfer.EveryRunCommitsOnlyWhatWasAsked | crates/ac-files/src/blob.rs:142-218 | the same over any run of attempts and sweeps, with cuts, oversends and wrong bytes |
| Transfer.SendersCannotOverfill | crates/ac-files/src/blob.rs:183-190 | however much a sender sends, a partial grows by no more than it announced |
| Transfer.HonestAttempt | crates/ac-files/src/blob.rs:165-218 | an honest attempt completes or leaves a partial no shorter and still the beginning of the original; uncut it completes |
| Transfer.HonestRun | crates/ac-files/src/blob.rs:142-218 | with honest senders and sweeps in between the partial is always the beginning of the original, and not a byte of it is lost while the file is wanted |
| Transfer.CompletedTransferEmptiesStaging | crates/ac-files/src/blob.rs:192-218 | the partial is gone exactly when a transfer ran to its announced end |
| Transfer.WholeTransferSettles | crates/ac-files/src/blob.rs:210-218 | a whole honest transfer commits exactly when the partial was the beginning of the original, and otherwise discards it |
| Transfer.AttemptsEndExactly | crates/ac-files/src/blob.rs:165-218 | a transfer succeeds exactly if the stream is clean, carries what was announced and makes bytes of the hash asked for; what makes it wrong or short is exact too |
| Transfer.StoppedTransfersKeepWhatArrived | crates/ac-files/src/blob.rs:165-218 | what a stopped transfer leaves: all that came before it stopped, and of the last chunk what fitted |
| Transfer.ResumesOnlyWhatWasAskedFor | crates/ac-files/src/content.rs:243-282 | a partial is gone on from exactly if it is as long as the request said |
| Transfer.AttemptsWithoutATransfer | crates/ac-files/src/blob.rs:142-163 | a copy found here is put in place without a peer; a refusal or a request for no hash leaves everything as it was |
| Transfer.SweepsTakeExactlyTheAbandoned | crates/ac-files/src/content.rs:197-235 | a partial goes exactly if it is idle and the index does not want its file |
| Transfer.TwoHonestTransfersSuffice | crates/ac-files/src/blob.rs:142-218 | from any partial whatever, two whole honest transfers put the original in place |
| Transfer.HoldersAreHonest | crates/ac-files/src/blob.rs:229-261 | a node that holds the file answers as an honest sender |
| Transfer.AnswersExactly | crates/ac-files/src/blob.rs:229-261 | bytes are sent exactly if the group is shared and the file is listed with that hash, here, not removed and in place; the row is corrected exactly if only the bytes are missing |
| Transfer.DownloadersBecomeHolders | crates/ac-files/src/blob.rs:130-134 | having downloaded it, a node holds the file and can serve it |
| Ledgers.Ledger.RefreshItem | crates/ac-import/src/ledger.rs:463-494 | brings an owed row up to date and says whether it was written |
| Ledgers.Ledger.ClaimUpTo | crates/ac-import/src/ledger.rs:515-552 | takes as many claimable rows as asked for, longest untried first, and counts the attempt of exactly those |
| Ledgers.Ledger.Retire | crates/ac-import/src/ledger.rs:506-512 | deletes exactly the exhausted owed rows of a source and counts them |
| Ledgers.RowsComeAndGo | crates/ac-import/src/ledger.rs:442-575 | when exactly a row is there after an operation |
| Ledgers.NewRowsAreFresh | crates/ac-import/src/ledger.rs:442-458 | a row written down for the first time is owed, untried and as the scan has it |
| Ledgers.OnlySettlingSettles | crates/ac-import/src/ledger.rs:554-565 | a row holds what it was last settled with, and nothing else settles it |
| Ledgers.OnlyScansChangePromises | crates/ac-import/src/ledger.rs:463-494 | name, folder, size and checksum change only by a scan that counts, and to what it offers |
| Ledgers.AttemptsAreCountedAndGivenBack | crates/ac-import/src/ledger.rs:463-552 | what exactly each operation makes of attempts and lease |
| Ledgers.ClaimableExactly | crates/ac-import/src/ledger.rs:128-131 | a row can be claimed exactly if owed, tried fewer than three times and last tried more than an hour ago |
| Ledgers.AttemptsStayInRange | crates/ac-import/src/ledger.rs:515-552 | in every run no row is tried more than three times between resets |
| Ledgers.ClaimsAreBounded | crates/ac-import/src/ledger.rs:463-552 | a row that stays is claimed at most three times for each time it has fresh attempts, the first included |
| Ledgers.LeasesHold | crates/ac-import/src/ledger.rs:463-552 | with a clock that never goes back, a row not given back is not claimed again before its lease is over, whatever scans do |
| Ledgers.ClaimingLeases | crates/ac-import/src/ledger.rs:129-131 | a claim starts such a lease of an hour |
| Ledgers.SettledRowsAreHistory | crates/ac-import/src/ledger.rs:96-97 | a row that is in is changed by nothing but settling it again |
| Ledgers.ResetIsClaimableUnlessLeased | crates/ac-import/src/ledger.rs:460-494 | a row given fresh attempts by a scan is claimable at once exactly when its lease is over and the clock is past the first hour |
| Ledgers.FreshRowsWaitForTheFirstHour | crates/ac-import/src/ledger.rs:128-131 | a row never tried is claimable exactly from the second hour after the epoch |
| Ledgers.RefreshingTwiceWritesOnce | crates/ac-import/src/ledger.rs:103-125 | a second scan offering the same writes nothing, and a value left out keeps the stored one |
| Admissions.Admission.constructor | crates/ac-net/src/admission.rs:113-159 | a stored attestation is kept exactly when the node has enrolled and it verifies |
| Admissions.Admission.On | crates/ac-net/src/admission.rs:166-201 | each event changes the entries and asks for exactly the actions of the specified reaction, each once: renewals, then sends, then closes and admissions |
| Admissions.Admission.OnRequest | crates/ac-net/src/admission.rs:208-243 | a verified peer is welcomed, named, sent ours if due, and announced if that completes it; any other is told why not and closed |
| Admissions.Admission.OnConnected | crates/ac-net/src/admission.rs:246-262 | begins or renews the exchange, except with the server |
| Admissions.Admission.OnIssued | crates/ac-net/src/admission.rs:359-407 | a usable attestation is kept and sent to everyone waiting |
| Admissions.Admission.OnTick | crates/ac-net/src/admission.rs:317-356 | renews when due, then sends to whoever waits, then closes whoever is late |
| Admissions.Admission.SendOurs | crates/ac-net/src/admission.rs:265-281 | sends to exactly those not sent to yet, if there is something to send |
| Admissions.Admission.Settle | crates/ac-net/src/admission.rs:294-304 | announces a peer exactly when it is complete and not announced |
| Admissions.Admission.CloseOff | crates/ac-net/src/admission.rs:307-314 | drops a peer, never the server |
| Admissions.EveryRunKeeps | crates/ac-net/src/admission.rs:166-201 | between events a peer is announced exactly when both halves passed |
| Admissions.ServerIsNeverClosed | crates/ac-net/src/admission.rs:307-314 | no event closes the server, and whoever is closed has no entry left |
| Admissions.SendsAreDue | crates/ac-net/src/admission.rs:265-281 | ours goes only to who has not been sent it since connecting; at most one renewal is outstanding |
| Admissions.OnlyFailuresLeaveUnsent | crates/ac-net/src/admission.rs:331-340 | while we have an attestation an entry is left without it only by a failed exchange, and never by a tick |
| Admissions.NobodyWaitsForOurs | crates/ac-net/src/admission.rs:265-281 | with an attestation from the start and no failed exchange, everyone with an entry has been sent it |
| Admissions.TicksClearTheLate | crates/ac-net/src/admission.rs:342-353 | after a tick nobody but the server is unfinished past the deadline, and exactly the late were closed |
| Admissions.AdmittedOncePerEntry | crates/ac-net/src/admission.rs:294-304 | between two admissions of a peer its entry was removed |
| Admissions.AdmissionIsEarned | crates/ac-net/src/admission.rs:208-243 | nobody is admitted who did not prove the name and accept ours since the entry was made |
| AdmissionLaws.WhoQualifiesIsAdmitted | crates/ac-net/src/admission.rs:208-304 | whoever proves a name and accepts ours, in either order and with an entry ever since each, is admitted |
| AdmissionLaws.AnnouncedExactlyWhenEarned | crates/ac-net/src/admission.rs:294-304 | a peer is announced exactly when both have happened since its entry was made |
| AdmissionLaws.EntriesTellTheRun | crates/ac-net/src/admission.rs:166-243 | an entry has a name exactly if one was proved, and a pass exactly if one was given |
| AdmissionLaws.EntriesComeAndGo | crates/ac-net/src/admission.rs:166-262 | when exactly a peer has an entry after an input |
| AdmissionLaws.TheTurnedAwayAreClosed | crates/ac-net/src/admission.rs:186-356 | exactly those turned away are closed, each for its reason |
| AdmissionLaws.NamesAreThoseProven | crates/ac-net/src/admission.rs:208-243 | an entry goes by the name last proved |
| AdmissionLaws.PassesAreThoseGiven | crates/ac-net/src/admission.rs:180-184 | an entry has passed exactly if the peer accepted ours |
| AdmissionLaws.DeadlinesFollowConnecting | crates/ac-net/src/admission.rs:246-262 | fifteen seconds from when the peer last connected or, failing that, first proved its name |
| AdmissionLaws.ExactlyTheDueAreSent | crates/ac-net/src/admission.rs:265-281 | who is sent our attestation by an input, and who counts as sent it afterwards |
| AdmissionLaws.OwnAttestationIsRenewed | crates/ac-net/src/admission.rs:317-407 | what this node holds for itself, and when exactly a renewal is asked for |
| AdmissionLaws.AdmittedAsAnnounced | crates/ac-net/src/admission.rs:294-304 | a peer is admitted exactly by the input that makes it announced |
| Jpegs.FindJpegs | crates/ac-desktop/src/preview.rs:511-526 | the loop ends on all bytes and finds the greedy left-to-right carving |
| Jpegs.EndsAt | crates/ac-desktop/src/preview.rs:529-566 | the nested loops end and find where the segments end |
| Jpegs.FindScanEnd | crates/ac-desktop/src/preview.rs:552-561 | the inner loops end and find where the scan stops |
| Jpegs.FoundIsTheCarving | crates/ac-desktop/src/preview.rs:511-526 | the result is the one list of ranges in order and apart, each a complete image, with no complete image starting outside them |
| Jpegs.CarvedRangesAreImages | crates/ac-desktop/src/preview.rs:511-526 | every range is within the bytes, from FF D8 FF to FF D9 |
| Jpegs.ScanFindsFirstEvenlyFilled | crates/ac-desktop/src/preview.rs:552-561 | the scan stops at the first marker with an even number of fill bytes before it, or finds none |
| Jpegs.ScanEndsDataExactlyWhenEvenlyFilled | crates/ac-desktop/src/preview.rs:556-559 | it stops where T.81 ends the data exactly when the marker there is evenly filled |
| Jpegs.OneFillByteHidesAnImage | crates/ac-desktop/src/preview.rs:556-559 | nine bytes that T.81 calls an image and that are not found |
| Jpegs.EndingIsStructure | crates/ac-desktop/src/preview.rs:529-566 | for all bytes, an image is found to end exactly where its marker structure ends, if data ends at the first evenly filled marker |
| Jpegs.ImagesAreStructures | crates/ac-desktop/src/preview.rs:511-566 | an image is carved from a position exactly if FF D8 FF is there and its structure ends |
| Jpegs.EvenlyFilledImagesAreFound | crates/ac-desktop/src/preview.rs:529-566 | without odd fill on the way that is where the structure of T.81 ends |
| Configs.Unescape | crates/ac-import/src/config.rs:165-184 | the loop over characters is the unescaping function |
| Configs.Parse | crates/ac-import/src/config.rs:123-138 | the loop over lines gives the answers in order, or the first line that answers nothing |
| Configs.UnescapedEscaped | crates/ac-import/src/config.rs:161-184 | unescaping what was escaped gives every value back, on one line |
| Configs.EncodedParses | crates/ac-import/src/config.rs:116-138 | with plain keys, what is written reads back less the whitespace at the ends of values |
| Configs.ParsedKeysArePlain | crates/ac-import/src/config.rs:123-138 | a key that was read has no sign or line feed in it and no whitespace around it |
| ConfigLaws.UnescapingReadsTokens | crates/ac-import/src/config.rs:165-184 | escapes are read from the left; one that is not known stays as it is, and so does a backslash at the end |
| ConfigLaws.EveryTextIsTokens | crates/ac-import/src/config.rs:165-184 | every text is made of such escapes and plain characters |
| ConfigLaws.TextIsReadLineByLine | crates/ac-import/src/config.rs:123-138 | blank lines are passed over, the answer of any other is what is on either side of its first equals sign |
| ConfigLaws.RefusedForTheFirstBadLine | crates/ac-import/src/config.rs:123-138 | a text is refused for the first line that is neither blank nor has an equals sign |
| ConfigLaws.LastLineNeedNotEnd | crates/ac-import/src/config.rs:123-138 | the last line need not be ended |
| Configs.RoundTripsExactly | crates/ac-import/src/config.rs:116-138 | writing and reading back is the identity exactly for plain keys and values with no whitespace but line feeds at their ends |

## Left out

- Network links, streams, the desktop pages, autostart, OAuth and HTTP: input and output around the rules.
- Cryptography, CBOR and base 58: functions and constructors of which only what is said above is assumed.
- SQLite: tables are maps, a transaction is an atomic step that can be refused but not fail half way; its
  busy, disk and corruption errors are not modelled, nor are its 64-bit columns, except the cursor's cap.
- Answering requests for heads (`on_request`) and the per-tick budget; what is served to whom is modelled.
- Sync.GroupSync.SilentlyOmitted: leaves open the order of groups of one name, because group ids have no text
  here.
- Cache agreement between interleaved connections: `put` without fresh entries and `refresh_digest` rebuild
  from a log read before the transaction, so it is claimed for serial runs only.
- Runs that forget a group while another connection holds a plan for it; only the length of the log is
  compared, so such a plan could meet another log of that length.
- Gossip.TakenAbsorbs: a pull is serving and putting; that the taker may then state its own position or, as the
  admin, add removals (`on_entries` in crates/ac-groups/src/sync.rs:278-281) is not part of a gossip run, so the
  log there is one that no longer grows.
- The catalogue store: how entries are merged, conflicts and duplicates are its own; a catalogue is a value with
  a digest and a merge.
- Two heads for one group in a single message, and a refusal that arrives when the pair is only queued: settled
  is then said while a read waits.
- When a node sweeps its staging area (as it starts, crates/ac-node/src/file_link.rs:154) and how long an hour of
  idleness is: a sweep may come between any two attempts, of whatever partials are then idle.
- Two paths that share a staging name, failing flushes, renames and row updates, and the bytes another part of
  the node files for a download.
- Lease claims across deletion of a row: a row owed again begins afresh.
- The rest of `preview.rs`, the settings a source declares, size parsing, routes, undo and tallies: they would
  only add easy members.
