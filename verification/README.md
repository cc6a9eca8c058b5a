# Verification of the rollup node's state

A Dafny model of the Hubble rollup node: the Merkle tree of user states it keeps
in a flat table, the deposits that move through that table, the account tree, and
the protocols around them (chain synchronisation, migrations, the transaction
pool, the service life cycle). `dafny verify dfyconfig.toml` checks all of it.

## How it is laid out

| file | content |
|---|---|
| `Bytes.dfy` | hashes, their hexadecimal form, the parent hash |
| `Paths.dfy` | bit-string paths and the numbers they stand for |
| `MerkleTree.dfy` | reference hash of a node, folding with siblings, what a root commits to, empty subtrees |
| `Queries.dfy` | selecting rows of a table in insertion order |
| `StateTable.dfy` | the user-state rows, the table a list of leaves determines, one update as a function on tables |
| `Deposits.dfy`, `DepositRuns.dfy` | the deposit steps, one-replacement result, conservation over runs |
| `StateDB.dfy` | the database handle as a class: building, updating, proving, transactions, deposits |
| `AccountTree.dfy` | building the account tree, and its store step, which rewrites both children |
| `Syncer.dfy` | windows, worker, wait group, batch deduplication |
| `DepositSync.dfy` | deposits as the windows deliver them |
| `Migrations.dfy` | the migration engine and its registry order |
| `Mempool.dfy` | inserting and popping transactions |
| `Service.dfy` | Start, Stop and Reset as atomic steps of many threads |
| `Genesis.dfy` | validating, padding and loading the genesis accounts |

## How to read it

- Keccak-256 is a parameter: every result holds for every function from byte
  strings to 32 bytes. No injectivity is assumed. Where the argument needs it, the
  result says which two blocks collide, or holds if and only if none of the named
  blocks do.
- A table is a sequence of rows in insertion order. The representation invariant
  of the state table is exact: it equals `TreeRows(leaves) + pending`, the rows a
  rebuild from the leaves would insert, followed by the pending rows. Pending rows
  really are in the same table; that no tree query sees them is proved.
- A hash column holds the 32 bytes instead of their text. `Bytes.HexRoundTrip` and
  `Bytes.StringInjective` justify that.
- A struct update leaves out zero-valued fields, as the ORM does. Hence `UpdateState`
  never changes an account id or a status, and empty data changes a leaf's hash but
  not its data (`StateTable.SetLeaf`).
- `Panicked` is a call that does not return; what it wrote before stays.
- What `CommitBatch` does to the table is a parameter: it calls the ORM's update on a
  handle without a model. No result depends on it, since a reachable table holds
  committed rows only (`Syncer.ExactlyOnce`). How deposit events are unpacked is one too.
- A path argument is a string of `0` and `1`. The code would take any other last
  character for a right child.

## Where the code differs from what one would expect

- Deposit subtrees are located at the configured height but inserted one level above
  the leaves. A full subtree for a vacant node ends up below that node if and only if
  the tree has depth 2 or more and the height is 1, or it is 0, the node is the first
  leaf and its neighbour is empty too (`Deposits.FinalisedBelowIff`). At height 0 the
  call otherwise refuses, panics, or succeeds with the deposit in another leaf
  (`Deposits.MisplacedAtHeightZero`).
- Pending rows are deleted by account id alone, and a new ready subtree stamps rows
  that already carry another root. `DepositRuns.LostExactlyBySharedId` and
  `DepositRuns.SecondReadyTakesAll` give the exact conditions; already two equal
  deposits of one account can lose one (`DepositRuns.EqualDepositLost`).
- Only batches are checked against what is stored. Every other event reaches its
  handler once for each recorded window its block lies in, and once more for each
  window that was aborted, by a crash or a failed write, after handing it out
  (`Syncer.DispatchedPerWindow`). Since windows share their boundary block, a deposit
  there is queued twice even without a failure (`Syncer.DeliveredOnceOrTwice`).
- Each crash between applying a batch and storing its row, and nothing else, makes the
  batch applied once more (`Syncer.ExactlyOnce`).
- Outside a transaction an update is a series of row writes. A crash between them leaves
  a tree if and only if the first unwritten node would have kept its hash
  (`StateDB.CrashedIsTreeIff`), and repeating the update repairs the table
  (`StateDB.RepeatedUpdateRepairs`). A deposit's update is not repeated: after its first
  write the same finalisation is refused (`StateDB.CrashedFinalisationIsRefused`), and
  a crash before the pending row is deleted leaves the deposit both pending and in a
  leaf (`DepositRuns.CrashLeavesBoth`).
- Updating an inner node, which the code does not forbid, leaves a tree if and only if
  it changes nothing (`StateDB.InnerUpdateIsTreeIff`). Building on a table that is not
  empty adds a tree if and only if no old row is on one of its levels
  (`StateDB.BuildIsTreeIff`).
- The comment on `EmptyUserState` (core/state.go:142) promises the hash of an empty
  leaf; the code hashes the data. The genesis loader then pads with the coordinator's
  encoded state, so new subtrees are vacant only if that state hashes to the empty
  leaf (`Genesis.PaddingVacantIff`). The loader's path from the account id is
  overwritten by the position (`Genesis.PlacedByIdIffInOrder`). The default file is
  valid, but its public keys are half a byte, so that it cannot be loaded
  (`Genesis.DefaultFileIsNotLoadable`).
- `Start` on a stopped service reports "already started", never "already stopped"
  (`Service.StartNeverSeesStopped`).
- Rolling back a single migration keeps the applied set a prefix only for the last
  one (`Migrations.UndoKeepsPrefixIff`); the command line's "down" rolls back all from
  the first on (cmd/migration.go:89-97).

## Model

| member | source | states |
|---|---|---|
| Bytes.HexRoundTrip | core/alias.go:14-35 | a hash printed into a row is read back unchanged |
| Bytes.PrintedBackExactly | core/alias.go:14-35 | text survives reading and printing if and only if it is 0x and 64 lower-case digits |
| Bytes.StringInjective | core/alias.go:14-20 | comparing printed hashes in a query compares the hashes |
| Bytes.DecodesIff | core/alias.go:23-29 | text can be read if and only if it is whole bytes of digits |
| Bytes.ReadsCutOrPadded | core/alias.go:23-35 | byte i of the hash read is that of digits 2i and 2i + 1; longer text is cut and shorter text padded with zeros |
| Bytes.ParentOfBoth | core/utils.go:16-23 | the hashed block is the left child's 32 bytes, then the right one's |
| Bytes.ParentsCollide | core/utils.go:16-23 | different children with one parent hash are a collision of their 64-byte encodings |
| Paths.NodePathIsPath | core/utils.go:120-129 | the node path spells the index; it has the width of the tree if and only if the index fits, which is if and only if the uint64 padding count does not wrap |
| Paths.StringToUintInverts | core/utils.go:43-53 | reading a node path back gives the index |
| Paths.SolidityPathToNodePath | core/utils.go:120-129 | the padding loop produces the wrapped number of zeros before the digits |
| Paths.GenCoordinatorPath | core/utils.go:97-103 | the coordinator's path is index 0 at every depth |
| Paths.StepsOnNumbers | core/utils.go:75-95 | parent is division by 2, the other child flips the low bit, shares the parent and is an involution |
| Paths.NthBitIsBinaryDigit | core/utils.go:65-73 | the n-th bit from the right is that binary digit of the index |
| Paths.AdjacentIsSuccessor | core/utils.go:105-113 | the adjacent path is index + 1 as long as it fits the width, one character longer after the last path, wrapping at 64 bits |
| Paths.UintToStringIsMinimal | core/utils.go:51-53 | printing uses no more digits than needed |
| MerkleTree.ClimbReachesAncestor | core/state.go:252-298 | folding a subtree's new hash with the old siblings gives every ancestor its hash in the new tree |
| MerkleTree.CollidingStep | core/utils.go:16-23 | from two different proofs with one root, computes a step whose blocks collide |
| MerkleTree.ProofsAreBinding | core/tx.go:311-326 | two leaf and sibling lists with one root at one path are the same if and only if no step of their folds collides |
| MerkleTree.NodeHashIsMerkleRoot | core/state.go:189-225 | a node's hash is the root, by halving, of the list of the leaves below it |
| MerkleTree.ZeroLeafReads | core/merkleTree.go:10-12 | the mark of an empty leaf is the value of the text the code reads it from |
| MerkleTree.GenDefaultHashes | core/merkleTree.go:21-32 | entry h is the hash of an empty subtree of height h |
| MerkleTree.DefaultHashMeansVacant | core/DepositTree.go:15-19 | all leaves below a node are empty if and only if it has the default hash of its height and no block below collides with a default block |
| MerkleTree.OccupiedCollision | core/merkleTree.go:21-32 | a default hash above a non-empty leaf yields the node whose block collides |
| StateTable.TreeHasOneRowPerPath | core/state.go:152-229 | a built table has a row for a path if and only if it is a bit string no longer than the depth, and never two |
| StateTable.InnerRowFields | core/state.go:54-67 | an inner row is active, not terminal, without data, and carries the hash of its two children |
| StateTable.LookupTree | core/state.go:375-382 | a lookup returns the tree's row of the path, whatever is pending |
| StateTable.IncrementalIsRebuild | core/state.go:240-332 | rewriting one root-ward path gives exactly the table rebuilt from the leaves with that one replaced |
| StateTable.AnyRunIsRebuild | core/state.go:240-332 | after any run of updates the table is the one rebuilt from the final leaves |
| StateTable.UpdatesCommute | core/tx.go:111-137 | updates of different leaves commute on the whole table |
| StateTable.SiblingsProveLeaf | core/state.go:338-351 | a leaf and its siblings fold to the stored root, the new leaf and the same siblings to the root after the update |
| StateDB.DB.InitStateTree | core/state.go:152-229 | an error that changes nothing if the leaf count is not 2^depth; else, on an empty table, exactly the tree of the given leaves, leaf i at path i |
| StateDB.BuildIsTreeIff | core/state.go:189-225 | on a table with rows, building adds exactly the tree if and only if no old row is on one of the levels 1 to depth |
| StateDB.DB.BuildLevels | core/state.go:189-225 | level by level, reading back what was inserted, with the panic on an odd number of rows |
| StateDB.DB.AssignPaths | core/state.go:163-180 | leaf i gets path i; only the first leaf is rehashed and made terminal |
| StateDB.DB.Merkleise | core/state.go:200-219 | pairs each node with its sibling and gives the parent both hashes |
| StateDB.DB.GetSiblings | core/state.go:338-351 | the sibling rows from the leaf upwards, or an error if and only if one is missing |
| StateDB.DB.StoreNode | core/state.go:301-317 | writes the changed child and the parent's hash, nothing else |
| StateDB.DB.StoreLeaf | core/state.go:252-298 | re-reading each parent, rewrites the path with the fold of the given siblings and leaves every other row as it is; which row writes it issues, in order |
| StateDB.DB.UpdateState | core/state.go:240-250 | replaces the leaf and keeps the table the tree of its leaves; a path below the leaves is an error that changes nothing; at an inner node the table stays valid if and only if nothing changes |
| StateDB.InnerUpdateIsTreeIff | core/state.go:240-332 | after an update at an inner node the table is the tree of some leaves if and only if the hash was that of the node and no data is written |
| StateDB.RepeatedUpdateRepairs | core/state.go:240-332 | after a crash following any number of an update's row writes, repeating the update gives the table rebuilt with the leaf replaced |
| StateDB.CrashedIsTreeIff | core/state.go:252-332 | what such a crash leaves is the tree of some leaves if and only if the first unwritten node keeps its hash |
| StateDB.CrashedFinalisationIsRefused | core/DepositTree.go:70-90 | after the first row write of a deposit's update the query for empty leaves refuses the same finalisation |
| StateDB.DB.GetStateByIndex | core/state.go:363-373 | the row of an index in some view of the table |
| StateDB.DB.Apply | core/tx.go:92-144 | succeeds if and only if both indices name leaves; then both are replaced in order and the tree is consistent, otherwise nothing changed, although the receiver is read outside the transaction |
| StateDB.DB.FetchMPWithID | core/tx.go:311-326 | the leaf of the index with siblings that fold to the current root |
| StateDB.ToABIVersion | core/merkleProof.go:16-33 | the decoded state with the sibling hashes in order, or an error if and only if the data cannot be decoded |
| StateDB.DB.GetRoot | core/state.go:401-408 | the root row, although pending rows share the table |
| StateDB.DB.AddNewPendingAccount | listener/processors.go:55-76 | appends one terminal row on path -1, pending, with the data, its hash and no deposit root; all other rows stay |
| StateDB.DB.AttachDepositInfo | core/state.go:450-458 | stamps every pending row and no tree row |
| StateDB.DB.DeletePendingAccount | core/state.go:438-444 | removes the pending rows with the id and no tree row |
| StateDB.DB.GetDepositNodeAndSiblings | core/DepositTree.go:8-31 | succeeds if and only if some node at the height has the default hash; then returns the row of the leftmost with its siblings, never a pending row |
| StateDB.DB.GetAllTerminalNodes | core/DepositTree.go:104-123 | the 2^h leaf paths below a node in order if all those leaves are empty, else an error; the empty prefix also finds the pending rows |
| StateDB.DB.FinaliseOne | core/DepositTree.go:76-90 | one deposit's data moves to its leaf and its pending row goes |
| StateDB.DB.FinaliseDeposits | core/DepositTree.go:51-93 | refused if the two leaves are not empty; otherwise moves the stamped deposits in order, and panics exactly when they do not fit |
| StateDB.DB.FinaliseDepositsAndAddBatch | core/DepositTree.go:33-49 | the returned root is the padded deposit subtree's root folded with the siblings stored before |
| Deposits.LeafByLeafIsOneReplacement | core/DepositTree.go:76-90 | for a vacant subtree of any height, every row not below it ends as one rewrite from the subtree's node with its new root would leave it |
| Deposits.RootAfterDeposits | core/DepositTree.go:33-49 | for any height, the new root is the subtree root folded with the old siblings |
| StateDB.LocatedThenFinalised | core/DepositTree.go:8-49 | at height 1, the node located is refused if and only if its block collides with that of two empty leaves; else the deposits go below it and the new root folds the siblings returned with it |
| Deposits.TerminalsUnder | core/DepositTree.go:104-123 | the prefix query returns the leaves below the node in order, and pending rows for the empty prefix only |
| Deposits.FinalisedBelowIff | core/DepositTree.go:63-68 | a full subtree, of any height, of deposits that do not hash to the empty leaf, located at a vacant node, is finalised below that node if and only if the height is 1, or 0 at the first leaf with an empty neighbour, in a tree of depth at least 2 |
| Deposits.MisplacedAtHeightZero | core/DepositTree.go:63-90 | depth 2, height 0, leaf 1: the call succeeds and the deposit is in leaf 2 |
| DepositRuns.AnyRunFromStart | listener/processors.go:55-130 | over every run from a tree without deposits, each queued deposit is pending or in exactly one leaf, which was empty at the start, never both; no leaf holds two, every leaf without a deposit is as at the start, and pending rows carry the hash of their data |
| DepositRuns.AnyRunConserves | listener/processors.go:55-130 | the same from every state in which it holds |
| DepositRuns.SettlingConserves | core/DepositTree.go:76-90 | conservation holds after each deposit of a finalisation, so also when it panics half-way |
| DepositRuns.LostExactlyBySharedId | core/state.go:438-444 | how many rows a finalisation deletes without moving them; none, counting equal rows, if and only if no more pending rows share an id with a moved one than were moved |
| DepositRuns.EqualDepositLost | core/DepositTree.go:76-90 | of two equal deposits with another one between them, only one reaches a leaf and both rows go |
| DepositRuns.CrashLeavesBoth | core/DepositTree.go:76-90 | a crash between a deposit's update and its delete leaves it pending and in a leaf, and the finalisation delivered again changes nothing |
| DepositRuns.ReadyCoversPending | core/state.go:460-468 | a ready subtree covers everything pending then and nothing queued later |
| DepositRuns.SecondReadyTakesAll | core/state.go:450-458 | after a second ready subtree nothing is left for the first root, unless the roots are equal and something is pending |
| AccountTree.HashesPackedKey | core/account.go:84-95 | a printed key gives the hash of its packed bytes, an empty one the empty leaf |
| AccountTree.BothTreesAgree | core/account.go:304-317 | for equal path and hash columns, rewriting both children gives every path the hash the state tree gets |
| AccountTree.AccountDB.StoreAccountNode | core/account.go:304-317 | writes left child, right child and the parent's hash |
| AccountTree.AccountDB.StoreAccountLeaf | core/account.go:165-215 | although both children are rewritten, only the leaf's row and the hashes on its path change |
| AccountTree.AccountDB.UpdateAccount | core/account.go:137-147 | the path's rows are rewritten with the siblings stored before, and for a leaf the hash column becomes that of the tree with its hash replaced; the leaf's row takes the new key, id, type and level where they are not zero, its ancestors only a hash, all other rows stay, and for the empty path only the root's hash changes; deeper paths and malformed keys change nothing |
| AccountTree.AccountDB.InitAccountTree | core/account.go:225-301 | an error or panic that changes nothing, or the given leaves in order with their ids and keys, the first alone rehashed, and over them only inner rows without id and key; on an empty table every node has its hash in the tree of the leaf hashes |
| AccountTree.AccountDB.GetAccountSiblings | core/account.go:150-163 | the sibling rows, found if and only if all exist |
| AccountTree.ColumnAfterStore | core/account.go:165-215 | the stored column is the rebuilt one |
| Syncer.SyncerDB.ProcessNewBatch | listener/processors.go:132-219 | applies an unknown batch and stores its row, which has its index, root, committer, calldata, the stake amount and the finalisation time; commits a known uncommitted one, and records the number only of known ones |
| Syncer.ConcatInOrder | core/tx.go:286-292 | the calldata of a row is its transactions one after the other, in order |
| Syncer.SyncerDB.ProcessEvents | listener/syncer.go:209-242 | handles the logs in order, then records the block |
| Syncer.ExactlyOnce | listener/syncer.go:176-242 | over every run with refetched blocks, crashes anywhere and failed writes: each batch event up to the recorded block has one committed row, right in every field, and was applied once plus once for each crash between applying and storing it |
| Syncer.StepKeepsInv | listener/processors.go:168-218 | stored batches are exactly those of the handled logs in chain order, applied ones besides them only what crashes left half done, and the recorded block never decreases |
| Syncer.ThreadsRefineSystem | listener/syncer.go:121-131 | with the wait group as a counter, every interleaving has at most one worker and is a run of the one-worker system |
| Syncer.ThreadsKeepPromises | listener/syncer.go:121-242 | so both results hold for every interleaving from the start |
| Syncer.RunKeepsWindows | listener/syncer.go:176-207 | over every run recorded windows chain from the start block, and the handlers see exactly, in order, what recorded and aborted windows handed out |
| Syncer.DeliveredOnceOrTwice | listener/syncer.go:190-196 | every block up to the recorded one is delivered once, shared boundaries twice |
| Syncer.DispatchedPerWindow | listener/syncer.go:198-241 | over every run a log is dispatched once for each recorded window its block lies in and once for each aborted one that handed it out; once in all if and only if its block is no boundary and no aborted window handed it out |
| Syncer.BoundaryLogTwice | listener/syncer.go:176-207 | a run without failures in which a log between two windows is dispatched twice |
| Syncer.UnrecordedLogTwice | listener/syncer.go:238-241 | a run in which a failed write lets a log off every boundary be dispatched twice |
| Syncer.CrashedBatchTwice | listener/processors.go:172-191 | a run in which a crash lets a batch be applied twice and stored once |
| DepositSync.DeliveredInOrder | listener/syncer.go:176-241 | if every window was recorded and no deposit event is at a boundary, the handlers get each one once, in chain order |
| DepositSync.SyncConserves | listener/syncer.go:176-241 | then, over a whole synchronisation run, deposits are conserved if the chain's own events allow it |
| Migrations.Gormigrate.Migrate | migrations/gormmigrate.go:127-165 | checks, first-run initialisation and the loop, with every error and what it leaves |
| Migrations.MigrateGoesUp | migrations/gormmigrate.go:127-165 | from a prefix: exactly which Up functions are called, in order and each on the schema the one before left; a failed one was called last and is not recorded |
| Migrations.MigrateRefusals | migrations/gormmigrate.go:127-149 | exactly when a call is refused, changing nothing, and what the initial schema does on the first run |
| Migrations.RollbackGoesDown | migrations/gormmigrate.go:206-231 | from a prefix: exactly which Down functions are called, last first; one that failed was called last and stays recorded, one that is missing is not called |
| Migrations.LastGoesDown | migrations/gormmigrate.go:188-202 | the same for the last one alone |
| Migrations.Gormigrate.RollbackMigration | migrations/gormmigrate.go:244-267 | calls the Down function and deletes the row if and only if it succeeds |
| Migrations.Gormigrate.CheckDuplicatedID | migrations/gormmigrate.go:167-176 | an error if and only if two ids are equal |
| Migrations.Gormigrate.CheckIDExist | migrations/gormmigrate.go:178-185 | an error if and only if no migration has the id |
| Migrations.Gormigrate.RunInitSchema | migrations/gormmigrate.go:269-281 | on success every id is recorded |
| Migrations.Gormigrate.Rollback | migrations/gormmigrate.go:206-231 | undoes the applied ones above the target, last first, stopping at the first failure |
| Migrations.Gormigrate.UndoLast | migrations/gormmigrate.go:188-202 | undoes the last applied one in list order |
| Migrations.MigrateFromKeepsPrefix | migrations/gormmigrate.go:154-162 | the applied set stays a prefix, reaching the target unless a step fails |
| Migrations.RollbackFromKeepsPrefix | migrations/gormmigrate.go:217-228 | the applied set stays a prefix, cut at the target unless a step fails |
| Migrations.AnyOpsKeepPrefix | migrations/gormmigrate.go:115-298 | over any sequence of operations with any failures the applied set stays a prefix |
| Migrations.UpThenDown | migrations/gormmigrate.go:206-298 | migrating up to y and rolling back to x restores schema and applied set |
| Migrations.SecondMigrateDoesNothing | migrations/gormmigrate.go:283-298 | migrating again calls no function and changes nothing |
| Migrations.UndoKeepsPrefixIff | migrations/gormmigrate.go:244-267 | undoing one migration keeps a prefix if and only if none after it is applied |
| Migrations.LessIs | migrations/root.go:13-18 | the order of ids: a proper prefix, or smaller where they first differ |
| Migrations.SortedListIsUnique | migrations/root.go:9-18 | whatever the registration order, sorted distinct ids give one list |
| Mempool.Pool.PopTxs | core/tx.go:164-193 | returns the first of the chosen type in order of creation and sets the status of the rows with their ids, and of no other, to processing |
| Mempool.PopsTheOldest | core/tx.go:164-193 | on every table, what is popped is pending and of the chosen type; one is left behind only when the limit is reached, and then no older one is |
| Mempool.Pool.FetchTxType | core/tx.go:195-211 | the transfer type if a transfer is pending, else zero |
| Mempool.PopServesNext | core/tx.go:164-193 | whatever types, statuses and equal creation times the table holds, one pop takes the front of the transfers, or of the others if no transfer is pending, and leaves the rest of both queues as they were |
| Mempool.RunIsFifo | core/tx.go:160-193 | over any run, for transfers and for the others: what was returned, then what still waits, is what waited at first, then what was inserted: none twice, none skipped, oldest first |
| Mempool.PoppedInTime | core/tx.go:164-193 | with k older pending ones a transfer is returned, in its place, within k / N + 1 pops |
| Mempool.OtherTypesWait | core/tx.go:176-180 | other types are popped if and only if no transfer is pending |
| Service.AnyRunOfNewService | core/service.go:130-193 | over every disciplined interleaving from a new service: OnStart succeeds at most once per epoch, OnStop runs at most once and after it, quit is closed once, a stopped service at rest was started |
| Service.AnyInterleaving | core/service.go:130-193 | the same from every state with the relation below |
| Service.StepKeepsInv | core/service.go:130-193 | each atomic step keeps the relation between flags, counters and the one thread inside |
| Service.StartNeverSeesStopped | core/service.go:130-137 | the branch for an already stopped service is never taken |
| Service.OverlapStopsEarlyIff | core/service.go:66-66 | in every reachable state, an undisciplined Stop that then runs undisturbed calls OnStop before any OnStart succeeded if and only if a thread is inside Start, or inside Reset before it clears started |
| Service.StartInsideStopIff | core/service.go:66-66 | the mirrored overlap: a Start entering between a Stop's swap and its load makes the Stop too early if and only if started was clear |
| Service.InterruptedStopIff | core/service.go:158-173 | whatever other threads do in between, a Stop is too early if and only if it reads started set and no OnStart has succeeded when it calls OnStop |
| Service.BaseService.Start | core/service.go:130-149 | alone: succeeds exactly from the fresh state with a good OnStart; which error otherwise, with the flags as before |
| Service.BaseService.Stop | core/service.go:158-173 | alone: succeeds exactly on a running service; which error otherwise, with the flags as before |
| Service.BaseService.Reset | core/service.go:182-198 | alone: refused exactly on a service that is not stopped; otherwise clears it and ends as OnReset does, which panics by default |
| Service.AloneKeepsRest | core/service.go:130-193 | a call without others keeps the flags of a service at rest |
| Genesis.ValidIff | config/genesis.go:23-38 | a file is valid if and only if it lists 1 to 2^depth accounts and the first has four zeros; which error otherwise |
| Genesis.DeepFits | config/genesis.go:23-38 | beyond depth 62 the subtraction wraps: a file is valid if and only if it lists any account and the first has four zeros |
| Genesis.LoadLeaves | cmd/start.go:91-137 | a valid file's states and accounts, padded to the capacity with the coordinator's data and empty accounts; a panic if and only if a public key is malformed |
| Genesis.LoadGenesisData | cmd/start.go:91-155 | an invalid file or key, or a depth above 62, writes nothing; otherwise what is built on any tables, and on empty ones both trees are consistent, every field of leaf i is that of account i or of the padding, and parameters and sync status are written |
| Genesis.DefaultFileIsNotLoadable | config/genesis.go:78-97 | the default file passes validation, but its public keys cannot be read, so that LoadGenesisData panics |
| Genesis.PlacedByIdIffInOrder | cmd/start.go:105-124 | the account's own path is kept if and only if the file lists account i at position i |
| Genesis.PaddingVacantIff | cmd/start.go:126-137 | padding counts as vacant if and only if the coordinator's encoded state hashes to the empty leaf |

## Left out

- Account rows: the ORM's primary-key condition on `ID` and the lookup by `account_id` are not modelled, and the ABI encoding of a public key is a parameter.
- A column default (`DEFAULT:0` on the data of inner rows) is not modelled; inner rows have empty data, which no update writes.
- StateDB.DB.InitStateTree: the leaf count is a float converted to an integer; beyond depth 62, where the language leaves the result open, it is taken as the smallest integer.
- StateDB.DB.UpdateState: asks for a path of `0` and `1`.
- StateDB.DB.Apply: an index too large for the tree has the outcome that follows after the padding loop, which wraps and runs about 2^64 times (core/utils.go:124), so that in practice the call does not return.
- StateDB.DB.FetchMPWithID: the same holds for its index.
- StateDB.DB.FinaliseDeposits: the same holds for its index, and for every index at depths 0 and 1.
- Genesis.LoadGenesisData: beyond depth 62 the capacity check overflows and the padding loop runs about 2^63 times, so that in practice the call does not return; the model gives what follows.
- Syncer.SyncerDB.ProcessNewBatch: takes the stored parameters as constant; the loader writes them before synchronising starts.
- Mempool.Pool.PopTxs: among equal creation times, whose order the database leaves open, rows come in insertion order.
- `ApplyTxsFromBatch`, `ProcessTx` and `SubmitBatch` are stubs in the repository; the first is a counted call here.
- Database errors, connections and bulk-insert chunks; a database call succeeds, except for recording a block, which may fail. Contract calls that encode a state succeed.
- Migrations inside one transaction (`UseTransaction`), which no command uses, and failures of the migrations table itself.
- Contract bindings, signatures, wallets, REST handlers, configuration files and the encoding of states and transactions, which happens on chain.
