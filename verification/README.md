# Verified model of the Tupelo Go SDK

This project models, in Dafny 4.11, the parts of the SDK that other parties have to trust, and proves what they
promise over every run and every input.

**Round confirmations.** A client receives signed confirmations of rounds in any order, checks each one, adds up
their BLS signatures per height and round CID as vectors of multiplicities, and takes a round as current once a
quorum of signers is behind it. `Signatures` and `AggregationLaws` model the signatures, `NotaryGroup` the group,
`Rounds` the content-addressed fetches, `RoundProtocol` one step per message over values, `RoundRuns` what every run
keeps, and `RoundSubscriber` the subscriber itself on shared mutable confirmations. `Proof` is the independent
checker of the proofs that waiting callers get, and `Agreement` its safety.

**Tokens.** `Dag` is the persistent tree of a chain, `TokenNames` its paths and names, `Books` one token's book and
its operations, `LedgerTrees` and `TreeLedger` the ledger that keeps books in a tree, `Transactions` all the
transactors of a chain, and `TokenTransactions` what each of them does to the books. `TokenPayload` cuts a send out of a chain's blocks and reads it back, `SenderChains` shows
that every chain allows that, and `Supply` follows the books of one token over any number of chains. `TokenNetwork`
puts these together: any chains that play transactions and receive each other's payloads. `LongChains` shows where
reading a payload fails.

**Replay.** `Replay` models the store that tracks what processing a block reads and adds, the request that ships
those blocks, and the replay of the request.

**Owners.** `OwnerSignatures` models many keys signing one block and the check that an owner is among them.

## Assumptions

Foreign code enters as parameters, with these assumptions where a statement needs them.

- The BLS groups are cyclic of one order, so an element is modelled by its discrete logarithm and the pairing check
  by an equation between logarithms. That honest signers counted in a confirmation did sign it (unforgeability) is a
  hypothesis of the agreement theorem, not a consequence of the algebra.
- Block encodings are canonical and CIDs are free of collisions. `Rounds` and `Replay` take hash and encoding as
  parameters with these laws; in `Dag` a CID is modelled by the block it names, which makes it injective.
- The payload of a receive carries a tip that the sending chain had at some time. That is what the proof in a payload
  is checked for (`GenerateHasValidProof`); `TokenNetwork` takes it as given.
- A condition script is a function of its text and preimage, so its result does not change with time.
- A tree lookup of a missing or nil node fails to decode; writing through a value that is no map fails; the blocks of
  a path are the root and every linked block on it, the last one included. The DAG library that decides these is not
  part of this model.
- Recovering a public key from a signature gives the signing key, and the signature verifies under it.

## Findings

Some properties one would expect fail in a corner. For each there is an input that shows it, and the exact condition
under which it holds.

- *Replaying a request from its shipped state* gives the same run exactly when nothing that was looked up in vain is
  added later or brought by the client: the request ships added blocks too, so the replay finds what the first run
  missed (`Replay.ShippedStateReplays`, `Replay.AddedAfterMissIsFound`). A block that misses nothing always replays
  (`Replay.NothingMissedReplays`), and so does any block from the touched blocks alone (`Replay.TouchedBlocksReplay`).
- *The maximum of a token's monetary policy* holds exactly as long as its mints add up to less than 2^64: the checked
  total is a 64-bit sum and wraps (`Books.MaximumHoldsIffMintsFit`, `Books.MintKeepsMaximumIff`,
  `Books.MaximumPassedByWrapping`).
- *Supply across chains* is conserved exactly when no send is received twice. The ledger compares the id of a receive
  with earlier ids on the same chain, but not with the send that the receive carries, so conservation rests on
  payloads that claim the id they were built for (`TokenNetwork.NetworkConservesIff`, `TokenNetwork.NetworkConserves`,
  `Supply.OtherIdsAreNotConserved`).
- *Reading a send back from a payload* works exactly when an entry of it survives a map whose keys are indices turned
  into runes, where all surrogates become one key. Lists of at most 0xD801 sends are safe; on a chain with more, a
  payload is built for a send that no receiver can read (`TokenPayload.RoundTrip`, `TokenPayload.AllSurviveIff`,
  `LongChains.LongChainsLoseASend`).
- *Reading the token's name back* works in every order of the map exactly when no other token of the chain has the
  same block. Tokens that have seen the same operations have, and a payload for the one may be received as the other
  (`TokenPayload.NameComesBackIff`, `SenderChains.TwinsReadAlike`, `SenderChains.TwinsExist`). Each token's supply is
  conserved all the same: the send is then taken from the book of the token that was read.
- *Agreement by confirmation height.* The height in a confirmation is not covered by its signature, so accepted proofs
  of different rounds can carry the same one (`Agreement.RelabelledProofsDisagree`); they carry the same round exactly
  when the rounds have equal heights, so comparing each confirmation's height with its round's restores agreement
  (`Agreement.ConfirmationHeightsAgreeIff`). In the subscriber, a quorum sent again under a greater height makes that
  height current (`RoundRuns.RelabelledQuorumTakesOver`), and after the greatest height no message is taken in
  (`RoundRuns.NothingAfterTheTop`).

## Model

| member | source | states |
|---|---|---|
| `Signatures.SignerCount` | signatures/signature.go:224-232 | counts the set of non-zero positions, however large the multiplicities |
| `Signatures.RestoreBLSPublicKey` | signatures/signature.go:111-141 | fails exactly when the lengths differ; the key is the weighted sum of the known keys |
| `Signatures.AddSigners` | signatures/signature.go:302-307 | succeeds exactly when no position of the sum leaves 32 bits, and then is the pointwise sum |
| `Signatures.AggregateBLSSignatures` | signatures/signature.go:278-322 | exact success condition; signers, key and point are the sums over all inputs |
| `Signatures.AggregationMeans` | signatures/signature.go:278-322 | aggregation succeeds exactly for BLS signatures over as many signers with points of the group and sums within 32 bits; the aggregate has the sums and no conditions |
| `Signatures.OnePointIsValid` | signatures/signature.go:143-187 | for a key and message every other point than the valid one is refused; failed conditions are refused, broken ones an error |
| `AggregationLaws.SignedMatches` | signatures/signature.go:234-257 | signing succeeds exactly for an index of the group, and what a signer of the group signs matches the group's keys and verifies |
| `AggregationLaws.AggregateMatches` | signatures/signature.go:111-141 | an aggregate of matching signatures is valid for the same message, and restoring its key gives the stored one |
| `AggregationLaws.AggregateAnyOrder` | signatures/signature.go:278-322 | success and result do not depend on the order of the signatures |
| `AggregationLaws.AggregateAnyGrouping` | signatures/signature.go:278-322 | aggregating the aggregates of any number of groups succeeds exactly when aggregating everything at once does, with the same result |
| `NotaryGroup.QuorumCount` | gossip/types/notarygroup.go:88-90 | the least number that is at least two thirds of the group |
| `NotaryGroup.GetMajorityCount` | gossip/types/notarygroup.go:24-30 | the quorum, but at least one |
| `NotaryGroup.SortAppended` | gossip/types/notarygroup.go:56-60 | the result is sorted and a permutation of the ids with the new one |
| `NotaryGroup.Group.AddSigner` | gossip/types/notarygroup.go:56-60 | keeps the ids sorted, a permutation of all added ids, and the latest signer under each id |
| `NotaryGroup.LatestSignerWins` | gossip/types/notarygroup.go:56-60 | under an id the group has the signer that was added last with it |
| `NotaryGroup.Group.AllSigners` | gossip/types/notarygroup.go:62-68 | one signer per added signer, in the order of the sorted ids |
| `NotaryGroup.Group.SignerAtIndex` | gossip/types/notarygroup.go:70-73 | gives an added signer whose id is the one at that index |
| `NotaryGroup.Group.IndexOfSigner` | gossip/types/notarygroup.go:75-82 | finds the first index of the signer's id |
| `NotaryGroup.IndexInverseIffDistinct` | gossip/types/notarygroup.go:70-82 | searching inverts indexing at every index exactly when no id was added twice |
| `NotaryGroup.IndexingIgnoresInsertionOrder` | gossip/types/notarygroup.go:56-90 | the same signers added in any order give equal sorted ids, key vectors and quorum counts |
| `Rounds.LookupsAreAuthentic` | gossip/types/rounds.go:61-86 | a fetched round or checkpoint hashes back to the CID it was fetched by |
| `Rounds.LookupIff` | gossip/types/rounds.go:61-86 | a round or checkpoint is found exactly when it has the CID asked for and its block is stored |
| `Rounds.RoundWrapper.FetchCheckpoint` | gossip/types/rounds.go:61-86 | the first success is remembered and answers later calls; what it returns is what the round's CID names |
| `Rounds.ConfirmationWrapper.FetchCompletedRound` | gossip/types/rounds.go:143-173 | likewise for the confirmed round, wrapped once |
| `Proof.VerifyRoundConfirmation` | proof/proof.go:18-41 | decides as the check on values does, leaves exactly the restored key behind, and nothing where it could not be restored |
| `Proof.Verify` | proof/proof.go:43-134 | decides as the check on values does; the search loop stops at the request or at a CID that does not cast |
| `Agreement.FindRequestFinds` | proof/proof.go:90-101 | the search succeeds exactly when the request is listed and everything up to it casts |
| `Agreement.AcceptedIffChained` | proof/proof.go:43-134 | a proof is accepted exactly when quorum, signature, round, checkpoint, request, tip and object are linked to each other |
| `Agreement.ReadableProofsDecide` | proof/proof.go:43-134 | which proofs are refused and which are errors: a proof whose CIDs all cast is decided by its links |
| `Agreement.QuorumsIntersectIff` | gossip/types/notarygroup.go:88-90 | the exact number of faulty signers up to which any two quorums share an honest one; fewer than a third is enough |
| `Agreement.AcceptedProofsAgree` | proof/proof.go:18-134 | two accepted proofs of equal round height carry the same round and the same checkpoint |
| `Agreement.RelabelledProofsDisagree` | proof/proof.go:18-41 | the checker accepts a proof just the same under another confirmation height, so equal ones do not mean equal rounds |
| `Agreement.ConfirmationHeightsAgreeIff` | proof/proof.go:18-134 | proofs of equal confirmation height carry the same round exactly when the rounds have equal heights; checking both heights restores agreement |
| `RoundProtocol.SupportIsUnion` | signatures/signature.go:224-232 | the non-zero positions of summed vectors are the union of the signers |
| `RoundProtocol.CombinedIsGood` | gossip/client/roundsubscriber.go:49-75 | combining fails only by overflow; otherwise the entry stays valid for its round and adds the new vector |
| `RoundProtocol.StepKeepsInv` | gossip/client/roundsubscriber.go:199-257 | each accepted message keeps: entries above current, valid, below quorum, counting all logged signatures |
| `RoundProtocol.StaleKeepsInv` | gossip/client/roundsubscriber.go:207-209 | a message that is not above current changes nothing the invariant speaks of, even when logged |
| `RoundProtocol.RunInvariant` | gossip/client/roundsubscriber.go:199-257 | the invariant holds after every list of messages |
| `RoundRuns.EntriesAreUnions` | gossip/client/roundsubscriber.go:45-75 | above current, an entry's signers are the union over all accepted confirmations of its round, below quorum |
| `RoundRuns.QuorumFiresOnFirstReach` | gossip/client/roundsubscriber.go:224-239 | a round becomes current on exactly the message that first makes its distinct signers reach the quorum |
| `RoundRuns.CurrentOnlyRises` | gossip/client/roundsubscriber.go:207-257 | over every run current stays, or moves to a strictly greater height |
| `RoundRuns.RelabelledQuorumTakesOver` | gossip/client/roundsubscriber.go:207-239 | a valid quorum sent again under a greater height becomes current there |
| `RoundRuns.NothingAfterTheTop` | gossip/client/roundsubscriber.go:207-209 | once the greatest height is current no list of messages changes anything |
| `RoundRuns.NothingIsLost` | gossip/client/roundsubscriber.go:199-257 | without overflow the state accounts for every admissible message, dropped ones included |
| `RoundRuns.CurrentIsHighestQuorum` | gossip/client/roundsubscriber.go:199-257 | the height reached is the greatest one at which some round has a quorum among all messages |
| `RoundRuns.SameMessagesSameHeight` | gossip/client/roundsubscriber.go:199-257 | the same messages in any order, with any repetitions, end at the same height |
| `RoundRuns.OrderIndependence` | gossip/client/roundsubscriber.go:199-257 | every permutation of a list of messages ends at the same height |
| `RoundRuns.CurrentPassesCheck` | proof/proof.go:18-41 | the current confirmation of every run passes the checker's own confirmation check |
| `RoundSubscriber.Includes` | gossip/client/roundsubscriber.go:32-39 | finds an id exactly when it is among the accepted ones |
| `RoundSubscriber.Subscriber.DecidedIsNotPending` | gossip/client/roundsubscriber.go:244-257 | no confirmation that is not above current can be reached from in-flight state, whether it was published or not |
| `RoundSubscriber.Subscriber.Add` | gossip/client/roundsubscriber.go:49-75 | the objects' signatures change as the protocol's combination says; on an error nothing changes |
| `RoundSubscriber.Subscriber.File` | gossip/client/roundsubscriber.go:224-236 | filing changes the one entry of the in-flight values and leaves current and everything published alone |
| `RoundSubscriber.Subscriber.Prune` | gossip/client/roundsubscriber.go:253-257 | keeps exactly the heights above the given one |
| `RoundSubscriber.Subscriber.Fetch` | gossip/client/roundsubscriber.go:259-282 | succeeds exactly when round, checkpoint and all its CIDs can be had, and holds them |
| `RoundSubscriber.FetchedIff` | gossip/client/roundsubscriber.go:259-282 | what is fetched is the round and checkpoint with the CIDs asked for, exactly when both blocks are stored and all listed CIDs cast |
| `RoundSubscriber.Subscriber.Publish` | gossip/client/roundsubscriber.go:285-292 | publishes at most one notification, whose parts hash to each other |
| `RoundSubscriber.Subscriber.HandleQuorum` | gossip/client/roundsubscriber.go:244-293 | the confirmation is current and pruned even when fetching fails; published ones stay complete |
| `RoundSubscriber.Subscriber.Authenticate` | gossip/client/roundsubscriber.go:202-219 | exact acceptance condition; the fresh object carries the restored key |
| `RoundSubscriber.Subscriber.Accept` | gossip/client/roundsubscriber.go:224-242 | a verified confirmation is filed, a quorum it completes becomes current, and it is published exactly when its round and checkpoint can be fetched |
| `RoundSubscriber.Subscriber.Handle` | gossip/client/roundsubscriber.go:207-242 | the values follow the protocol's step and only in-flight objects are written; exact conditions for success and for publishing |
| `RoundSubscriber.Subscriber.HandleMessage` | gossip/client/roundsubscriber.go:199-242 | after any messages the subscriber's values are those of the protocol's run; a notification is published exactly when the message completes a quorum that can be fetched; no confirmation that is not above current ever changes |
| `RoundSubscriber.Subscriber.PublishedProofsAreAccepted` | gossip/client/roundsubscriber.go:161-171 | the checker accepts every proof of a published request, at any later time, exactly when its tip is a CID |
| `RoundSubscriber.Subscriber.CheckPublishedProof` | proof/proof.go:18-41 | checking such a proof in place leaves the shared confirmation as it was |
| `RoundSubscriber.Subscription.OnEvent` | gossip/client/roundsubscriber.go:149-174 | a caller is served once, by the first notification that includes its request before its context is over |
| `TokenNames.JoinOfSplit` | consensus/transactions.go:140-146 | joining the parts of a split string gives the string back |
| `TokenNames.SplitOfJoin` | consensus/transactions.go:131-146 | splitting joined parts gives them back when none holds the separator |
| `TokenNames.DecodePath` | consensus/transactions.go:55-70 | fails exactly on an empty component after one leading slash is dropped |
| `TokenNames.DecodedPathsRoundTrip` | consensus/transactions.go:55-70 | a decoded path joins to its input, up to one slash in front, and has no empty part; every such list of parts decodes from its joined form |
| `TokenNames.DecodingFailsIff` | consensus/transactions.go:55-70 | decoding fails exactly on two slashes in a row or a slash at the end, a single slash excepted |
| `TokenNames.ParseThenPrint` | consensus/transactions.go:131-146 | a parsed name prints back exactly when it holds a colon |
| `TokenNames.PrintThenParse` | consensus/transactions.go:131-146 | a printed name parses back exactly when its local part has no colon |
| `Books.ApplyTotals` | consensus/tree_ledger.go:222-409 | each operation moves exactly one of the totals of mints, sends and receives |
| `Books.RunInvariant` | consensus/tree_ledger.go:222-409 | balance, policy, distinct receives and positive sends hold after every list of operations |
| `Books.BalanceAgreesWithHistory` | consensus/tree_ledger.go:268-279 | balance is mints plus receives less sends modulo 2^64, sends never exceed the credits, and the exact condition for equality of naturals |
| `Books.SendStaysInBalance` | consensus/tree_ledger.go:296-332 | after any run a send is accepted exactly when what the token's history leaves covers a positive amount, and then sends still do not exceed the credits |
| `Books.MaximumHoldsIffMintsFit` | consensus/tree_ledger.go:244-252 | total mints stay within the maximum exactly while they add up to a 64-bit word |
| `Books.MintKeepsMaximumIff` | consensus/tree_ledger.go:244-252 | an accepted mint keeps the maximum exactly when old mints and new amount add up to a 64-bit word |
| `Books.Total64IsModular` | consensus/tree_ledger.go:129-149 | the computed sum is the true one modulo 2^64, and equal to it exactly while that is a 64-bit word |
| `Books.MaximumPassedByWrapping` | consensus/tree_ledger.go:244-252 | three operations after which the mints exceed the maximum |
| `Books.HistoryOnlyGrows` | consensus/tree_ledger.go:357-390 | over every run the lists only extend, the policy stays, and no send id is received twice |
| `Books.MintMeans` | consensus/tree_ledger.go:222-282 | exactly which mints a book accepts, and the book they leave |
| `Books.ReceiveMeans` | consensus/tree_ledger.go:337-409 | exactly which receives a book accepts, and the book they leave |
| `LedgerTrees.SumOfMints` | consensus/tree_ledger.go:129-149 | the sum over CIDs is the wrapped total of the mints, equal mints sharing a CID counted each time |
| `LedgerTrees.SumFailsIff` | consensus/tree_ledger.go:129-149 | the sum fails exactly when some block holds no amount |
| `LedgerTrees.FoundReceives` | consensus/tree_ledger.go:362-378 | the search finds an id exactly when some receive records it |
| `LedgerTrees.SearchEndsFirst` | consensus/tree_ledger.go:362-378 | in any list the search ends at the first receive with the id or the first block that is no receive |
| `LedgerTrees.TokenCreated` | consensus/tree_ledger.go:180-199 | creating leaves an empty book and the rest of the tree alone |
| `LedgerTrees.EstablishOverwrites` | consensus/tree_ledger.go:201-220 | on its own the ledger establishes a token anew, over whatever book there was |
| `LedgerTrees.EstablishRefines` | consensus/tree_ledger.go:201-220 | on the tree, establishing is establishing the book, and changes nothing elsewhere |
| `LedgerTrees.MintRefines` | consensus/tree_ledger.go:222-282 | minting succeeds exactly when the book allows it and then is minting the book |
| `LedgerTrees.SendRefines` | consensus/tree_ledger.go:284-335 | likewise for sends |
| `LedgerTrees.ReceiveRefines` | consensus/tree_ledger.go:337-409 | likewise for receives, creating the token where there is none |
| `TreeLedger.TreeLedger.SumTokenTransactions` | consensus/tree_ledger.go:129-149 | the loop computes the 64-bit sum, or fails on a block without an amount |
| `TreeLedger.TreeLedger.Balance` | consensus/tree_ledger.go:151-164 | the balance of the token's book, and an error exactly when there is no book |
| `TreeLedger.TreeLedger.TokenExists` | consensus/tree_ledger.go:166-178 | true exactly when the token has a book |
| `TreeLedger.TreeLedger.CreateToken` | consensus/tree_ledger.go:180-199 | leaves an empty book at the token's place and everything elsewhere as it was |
| `TreeLedger.TreeLedger.EstablishToken` | consensus/tree_ledger.go:201-220 | refines establishing the book; what a failure can leave behind |
| `TreeLedger.TreeLedger.MintToken` | consensus/tree_ledger.go:222-282 | refines minting the book, and leaves the tree alone on failure |
| `TreeLedger.TreeLedger.SendToken` | consensus/tree_ledger.go:284-335 | refines sending from the book, and leaves the tree alone on failure |
| `TreeLedger.TreeLedger.ReceiveToken` | consensus/tree_ledger.go:337-409 | refines receiving into the book; the duplicate search decides as the book does |
| `Dag.SetFrame` | consensus/tree_ledger.go:321-330 | a write, such as those of a list and a balance, leaves every path apart from it alone |
| `Transactions.FindMatch` | consensus/transactions.go:176-185 | finds the only token of a local name, or that there is none or more than one, in any order of the map |
| `Transactions.CanonicalTokenName` | consensus/transactions.go:148-192 | the result does not depend on the order of the map; `Transactions.CanonicalMeans` says what it is |
| `Transactions.CanonicalMeans` | consensus/transactions.go:148-192 | a name is made canonical exactly when it stands for a token, a full name where demanded only as one of the chain; and gives that token |
| `Transactions.FullNameMeans` | consensus/transactions.go:149-156 | a full name prints back, and is refused exactly where the chain's own is demanded and it is another's |
| `Transactions.ShortNameMeans` | consensus/transactions.go:158-191 | a short name is refused exactly when two tokens are called so; else it gives the one that is, or a new token of this chain |
| `Transactions.CanonicalNamesAreFixed` | consensus/transactions.go:148-156 | a printed full name canonicalises to itself exactly when its local part has no colon and it is of the demanded chain |
| `Transactions.TransactionStaysInFootprint` | consensus/transactions.go:73-124 | each transaction changes only its data, the owner list, the stake, or one token's block |
| `Transactions.TransactionOnToken` | consensus/transactions.go:194-270 | a transaction does to a token's book what its own operation says, or nothing (which operation that is: `TokenTransactions.NamedOp`) |
| `Transactions.RunIsHealthy` | consensus/transactions.go:194-545 | after every list of transactions each token's place holds a token of the ledger's making |
| `Transactions.TokenSeesOnlyItsOwnOperations` | consensus/transactions.go:73-270 | in any interleaving a token's book is the one its own operations alone lead to (which they are: `TokenTransactions.NamedOp`; receives enter as decoded, see `TokenNetwork`) |
| `Transactions.TokenHistoryOnlyGrows` | consensus/tree_ledger.go:357-390 | over every run of all transactions of a chain the lists of a token only extend, token and policy stay, and receives have distinct ids |
| `Transactions.OwnersChangeOnlyBySetOwnership` | consensus/transactions.go:106-124 | no other transaction ever changes the owner list |
| `TokenTransactions.NamesOnChains` | consensus/transactions.go:148-192 | on every chain that grew by transactions names stand for tokens as said |
| `TokenTransactions.BookLayout` | consensus/tree_ledger.go:75-127 | where in the tree a token's balance, policy and lists are found |
| `TokenTransactions.NamedOp` | consensus/transactions.go:194-270 | which ledger operation on which token a transaction is |
| `TokenTransactions.EstablishDoes` | consensus/transactions.go:194-228 | succeeds exactly for a name the chain may issue and a token it does not have; leaves an empty book with the given maximum and other tokens alone |
| `TokenTransactions.MintDoes` | consensus/transactions.go:230-249 | succeeds exactly for a name the chain may issue, a positive amount and a policy the 64-bit total does not pass; adds the amount |
| `TokenTransactions.SendDoes` | consensus/transactions.go:251-270 | succeeds exactly for a positive amount within the balance; lists the send and takes the amount |
| `TokenTransactions.ReceiveDoes` | consensus/transactions.go:513-524 | succeeds exactly when no receive of the token has the id; lists the receive and adds the amount, to a new book if need be |
| `TokenTransactions.AmbiguousNamesFail` | consensus/transactions.go:176-183 | a short name of several tokens is refused by every transaction |
| `TokenTransactions.ChainsIssueTheirOwn` | consensus/transactions.go:148-249 | over every run, a token with a policy or a mint on a chain has a name of that chain |
| `TokenTransactions.SetDataDoes` | consensus/transactions.go:73-104 | exact success condition; the value is read back at its path, in place or behind a link by its type |
| `TokenTransactions.StakeIsKept` | consensus/transactions.go:528-545 | the stake is read back as given |
| `TokenTransactions.OwnersAreKept` | consensus/transactions.go:106-124 | the owner list is read back as given |
| `TokenTransactions.AreasChangeOnlyByTheirOwn` | consensus/transactions.go:73-124 | over every run the data changes only by setting data, and the stake only by staking |
| `TokenPayload.TokenPayloadForTransaction` | consensus/transactions.go:303-354 | exact success condition; the payload holds the path's blocks and the first send with the id |
| `TokenPayload.GetSenderDagFromReceive` | consensus/transactions.go:374-406 | all leaves are there, and the tip is the payload's if its block is among them, and else that of the first leaf |
| `TokenPayload.FindFirstLinkedNode` | consensus/transactions.go:356-372 | finds some entry whose block is there, exactly when there is one |
| `TokenPayload.GetTokenNameFromReceive` | consensus/transactions.go:408-438 | the name of some token whose block is there |
| `TokenPayload.GetSendTokenFromReceive` | consensus/transactions.go:440-480 | some send that survives the map of runes and whose block is there |
| `TokenPayload.BlocksSuffice` | consensus/transactions.go:272-293 | the blocks of a path are enough to resolve every prefix of it |
| `TokenPayload.ResolveInIff` | consensus/transactions.go:410-426 | with some blocks only, a path is resolved exactly when all its blocks are among them, and as with all blocks |
| `TokenPayload.OnlyTokenBlock` | consensus/transactions.go:408-438 | the only token block among a payload's leaves is the token's own |
| `TokenPayload.RoundTrip` | consensus/transactions.go:303-513 | building and decoding a payload gives back the tip, exactly the tokens with the same block, and the first send with the id exactly when an entry of it survives |
| `TokenPayload.AllSurviveIff` | consensus/transactions.go:463-466 | no entry of the map is overwritten exactly for lists of at most 0xD801 sends |
| `TokenPayload.NameComesBackIff` | consensus/transactions.go:408-438 | every reading gives the name back exactly when its local part has no colon and no other token has the same block |
| `TokenPayload.BuiltReads` | consensus/transactions.go:440-480 | what a built payload can be read as, both directions |
| `TokenPayload.LongListsLoseASend` | consensus/transactions.go:463-466 | in every list of more than 0xD801 different sends the one at 0xD800 is lost |
| `TokenPayload.LostSendIsNotRead` | consensus/transactions.go:440-480 | so reading a payload built for it always fails, on every tree with such a list |
| `LongChains.LongChainsLoseASend` | consensus/transactions.go:303-480 | a chain with more than 0xD801 sends, on which a payload is built that no order of the maps can read |
| `TokenPayload.IsTokenRecipient` | gossip/types/validators.go:45-86 | accepts only if every payload can be read as a send to this chain, rejects only if one can be read as a send elsewhere, fails only if one may not be readable |
| `TokenPayload.BuiltPayloadReadsOneWay` | consensus/transactions.go:303-480 | a payload built for a send reads as that send only, exactly when an entry of it survives, and otherwise always fails |
| `SenderChains.RunIsLinked` | consensus/tree_ledger.go:180-282 | after every list of transactions all tokens are linked blocks under printed names |
| `SenderChains.ChainsSend` | consensus/transactions.go:303-354 | every chain with a token is one to build payloads from |
| `SenderChains.PayloadsCarryBookSends` | consensus/transactions.go:313-335 | the send in a payload is the first with its id in the book that the chain's operations lead to |
| `SenderChains.BuiltFromChain` | consensus/transactions.go:303-354 | on a grown chain a payload is built exactly when the name is canonical and the token has a send with the id, and carries the first |
| `SenderChains.BlockFollowsOperations` | consensus/tree_ledger.go:180-409 | a token's block depends on nothing but the operations put to it |
| `SenderChains.TwinsReadAlike` | consensus/transactions.go:356-438 | a payload may be read as any other token that has seen the same operations |
| `SenderChains.TwinsExist` | consensus/transactions.go:356-438 | four transactions after which a payload for one token may be read as another |
| `Supply.RunConserves` | consensus/tree_ledger.go:222-409 | balances plus sends not yet received are mints plus what was received again, after every run without overflow |
| `Supply.ExcessCountsRepeats` | consensus/tree_ledger.go:357-390 | nothing is in excess exactly when no send was received twice |
| `Supply.SupplyConservedIff` | consensus/tree_ledger.go:337-409 | on the books of a token over many chains, the supply is conserved exactly when no send was received twice |
| `Supply.MatchingReceiveIsNew` | gossip/types/validators.go:80-82 | a receive that claims its send's own id is refused the second time |
| `Supply.SupplyConserved` | consensus/tree_ledger.go:357-390 | on the books, with receives that claim their sends' ids and mints below 2^64, no balance ever overflows and all balances are the mints less the sends not yet received |
| `Supply.OtherIdsAreNotConserved` | consensus/transactions.go:513-518 | a run with another id after which balances exceed mints |
| `Supply.AccountsAreLedgerRuns` | consensus/tree_ledger.go:222-409 | each chain's account is the book that its own operations lead to |
| `TokenNetwork.ReceiveTokenTransaction` | consensus/transactions.go:482-524 | receives, under the id the payload claims, a token and send that the leaves read as under their own tip; fails before that only if they may not be readable |
| `TokenNetwork.EventsAreTransactions` | consensus/transactions.go:482-524 | in the network a chain plays its own transactions and receives what it reads, under the id that is claimed |
| `TokenNetwork.AdmittedCarries` | consensus/transactions.go:482-524 | a receive that passes the recipient check carries the first send with its id in the book of the token that is read, sent to the receiving chain, even from an old tip |
| `TokenNetwork.RunMirrors` | consensus/transactions.go:482-524 | every run of many chains, seen at one token, is a run of that token's accounts, whose books are the chains' own |
| `TokenNetwork.NetworkConserves` | gossip/types/validators.go:45-86 | in every run whose payloads claim the ids they were built for, a token's balances in all trees are its mints less its sends not yet received |
| `TokenNetwork.NetworkConservesIff` | consensus/transactions.go:513-518 | with payloads that claim any ids, conserved exactly when no send is received twice |
| `TokenNetwork.SendsCanBeTaken` | consensus/transactions.go:303-524 | every send that is the first with its id in a list of at most 0xD801 can be received by its destination |
| `Replay.StoreWrapper.GetNode` | gossip/client/reftracking.go:37-45 | answers from the store and notes what was found and not added before |
| `Replay.StoreWrapper.AddNode` | gossip/client/reftracking.go:47-53 | stores a block under its CID and notes it |
| `Replay.StoreWrapper.Advance` | gossip/client/reftracking.go:37-53 | one step of the program, tracked |
| `Replay.StoreWrapper.Process` | gossip/client/processblocks.go:55-63 | the wrapper tracks exactly the execution of the program |
| `Replay.StoreWrapper.CidToNodes` | gossip/client/reftracking.go:55-73 | the blocks of exactly the given CIDs, or an error exactly when one is gone from the store |
| `Replay.StoreWrapper.State` | gossip/client/processblocks.go:64-82 | ships what was added, and for any but a chain's first block what was touched |
| `Replay.NewAddBlockRequest` | gossip/client/processblocks.go:19-101 | exact success condition; the height is zero for a new chain and else one above that of the decoded root; the request has the computed tip and ships exactly the blocks used |
| `Replay.ReplayIff` | gossip/client/reftracking.go:37-61 | any adaptive program gets the same answers on another store exactly when that holds what was touched and lacks what was missed |
| `Replay.TouchedBlocksReplay` | gossip/client/reftracking.go:55-57 | a store of the touched blocks alone gives the same answers, blocks and result |
| `Replay.Client.AddMany` | gossip/client/client.go:180-191 | the blocks are stored under their CIDs |
| `Replay.Client.GetLatest` | gossip/client/client.go:173-221 | saves the shipped blocks, plays the block on the client store and compares the tips; the store keeps all blocks |
| `Replay.ReplayedIff` | gossip/client/client.go:193-216 | succeeds exactly when the replay, from the previous tip or the empty tree, ends with the tip of the request |
| `Replay.ReplayBringsNewBlocks` | gossip/client/client.go:195-197 | after a replay the client has every block that the first run used |
| `Replay.ShippedStateReplays` | gossip/client/client.go:173-221 | any adaptive program run again from the shipped state gets the same answers, blocks and end exactly when it is replayable on the client; and then the client reaches the tip of the request |
| `Replay.NothingMissedReplays` | gossip/client/client.go:173-221 | a block that looks up nothing in vain replays on every client |
| `Replay.AddedAfterMissIsFound` | gossip/client/processblocks.go:76-82 | a program that adds what it looked up in vain, which does not replay |
| `OwnerSignatures.Block.SignBlock` | consensus/consensus.go:120-163 | adds one signature under the key's address and keeps the others |
| `OwnerSignatures.Block.SignAll` | consensus/consensus.go:120-163 | many keys one after another leave the map of all their signatures |
| `OwnerSignatures.SignersAreRecognised` | consensus/consensus.go:165-204 | after any keys have signed, exactly their addresses are recognised, without errors |
| `OwnerSignatures.SignedByMeans` | consensus/consensus.go:165-204 | for any headers: signed exactly when the signature filed under the address gives away a key with that address and verifies; an error exactly when it is misfiled |
| `OwnerSignatures.ForeignSignatureIsAnError` | consensus/consensus.go:193-198 | a signature filed under the address of another key is an error |
| `OwnerSignatures.DidRoundTrip` | consensus/consensus.go:78-91 | the address comes back from its DID exactly when it has no colon |
| `OwnerSignatures.IsOwner` | gossip/types/validators.go:181-223 | for any headers: accepted exactly when an owner has a genuine signature before any misfiled one, and an error exactly when a misfiled one comes first or the owners cannot be read |
| `OwnerSignatures.FirstSignedMeans` | gossip/types/validators.go:211-222 | the first address that decides does so by a genuine or a misfiled signature |
| `OwnerSignatures.OwnerIffAddressesMeet` | gossip/types/validators.go:211-222 | accepted exactly when a signer's address is authorised |
| `OwnerSignatures.SetOwnershipSucceeds` | consensus/transactions.go:106-124 | on a chain that grew by transactions the owners can always be set |
| `OwnerSignatures.OwnersLast` | gossip/types/validators.go:181-223 | the owners set last decide, through all later transactions that do not set them |
| `OwnerSignatures.GenesisKeyOwns` | gossip/types/validators.go:201-209 | until then the owner is the key that the chain's id names |

## Left out

- Network, browser and telemetry code (`p2p/`, `wasm/`, `tracing/`, pubsub wrappers): plumbing over libraries.
- The cryptography itself (`bls/bls.go`, ECDSA, Keccak, scrypt, pbkdf2) and the condition script interpreter: see the assumptions.
- Missing sub-objects: a message without a signature or a proof without a round makes the source panic or encode nil; here they are always present. The proof that `GetTip` builds has neither round nor checkpoint and is not a proof in this sense.
- Signature, key and hash errors of the libraries, other than bytes that encode no point: they do not occur in the model.
- Timeouts, contexts, locks and delivery of events: only the sequence of handled messages and published notifications is modelled, with the store's contents at each message as a parameter.
- Floating point in `QuorumCount`: modelled as the exact quotient, which the rounded computation equals for all realistic group sizes.
- `GenerateHasValidProof`, `HasBurnGenerator`, `FetchHamt`, `GetTip`, `PlayTransactions`: short compositions of modelled parts, or easy checks.
- `SignatureMap` Merge, Subtract and Only, `RoutableAddress`, `ids.go`, configuration and option handling: only easy facts.
- OwnerSignatures.SignedByMeans: is about header signatures without conditions, as `SignBlock` makes them; a condition script in a header is not modelled.
- Replay.NewAddBlockRequest: takes the number of steps that processing a block needs as a parameter, and signing, decoding of the root and the block's validators as functions; the programs are those that end within the steps.
