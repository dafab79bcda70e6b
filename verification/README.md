# Verified model of the Bitcoin RPC proxy

The proxy stands in front of bitcoind. It checks what each user may call, answers some calls itself, forwards the
rest, and fetches blocks the node has pruned from peers it does not trust. This project models the parts of that
with real state, concurrency or adversaries, and proves what they keep, for every input and over every run.

`dafny verify dfyconfig.toml` checks everything.

## What is proved

- **Witness check** (`Encoding`, `Decoding`, `Merkle`, `Witness`). Two accepted blocks with the same transactions apart from
  witnesses carry the same witnesses, up to how a salt of zeros is written; a stripped copy is accepted exactly when
  nothing that matters was removed; every honest block is accepted. Blocks accepted for one hash have one header; they
  are the same block exactly when they have as many transactions and their coinbases carry the same witness, and
  neither has to be so. Hashing is any function from messages to 32 bytes; the only thing asked of it is that the
  finitely many messages hashed for the two blocks at hand do not collide. The encoding of transactions and blocks
  (BIP144) is written out, and a reader of its own accepts exactly the encodings, so nothing is assumed of it. What the
  checks compute is also stated byte by byte, against a definition of the tree node by node.
- **Batches** (`Tagged`, `Batch`). Interceptions finish in any order; the reply is the in-order reference, with one
  reply per request that is not a notification, each its own request's. One failed interception gives one error.
- **Block cache** (`Lru`, `BlockCache`, `LruInclusion`). The class with its map, queue and counter refines a list in
  order of last touch; each insertion drops the shortest prefix that restores the bound; a larger cache includes a
  smaller one exactly when no block falls between the bounds; the counter is safe exactly when the bound is at most
  2^63 bytes.
- **Fetching** (`PeerStage`, `PeerRace`, `FetchRun`, `Connections`, `ConnectionReuse`,
  `PeerFetch`, `PeerList`). State machines over
  arbitrary interleavings, a node that prunes and peers that answer anything: what is cached and served passed every
  check, no good block is lost in the race of peers, which are asked one at a time; every open connection has one owner
  and comes back to the pool only if every block read on it passed the checks for the hash asked and every ping was
  answered, and never from a task that was left behind; a peer list is young enough, or better than nothing, or the
  one waited for.
- **Cookie files** (`CookieFile`, `CookieHeader`, `CookiePassword`). Any number of readers interleaved with
  replacements of the file: every header returned is that of contents the file held during the call; a cached password
  belongs to its modification time exactly when the file was not replaced between the read and the second stat.
- **Requests, replies, permission, passwords** (`Rpc`, `Requests`, `Users`, `Passwords`). What is parsed prints back to
  itself; the two parsers agree exactly on ordinary objects; nothing that is not allowed reaches bitcoind; the
  comparison without an early exit is equality.

The state machines are values with a step function: a step is one atomic action (a lock taken, a stat, a message), a
run (`Runs`) is a sequence of states joined by steps, and every theorem is about every state of every run.

## Where the code differs from its description, or stops short

The model follows the code.

- `src/users.rs:105-106` says a replaced file is not cached against a time its contents were never read at. The
  second stat comes after the read, so the old contents are cached under the new time: `CookiePassword.ReplacedMidRead`.
- `README.md:32` says that leaving `max_peer_concurrency` unset asks every eligible peer and pulls the block several
  times over. The `then` of `src/fetch_blocks.rs:450` (as futures 0.3 defines it) holds one fetch and asks the next
  peer when that is done, so at most one is in flight for every limit (`PeerStage.OneAtATime`), all peers are in flight
  at once exactly when there is at most one (`PeerStage.AllAtOnceIff`), and the limit changes nothing that can happen
  (`PeerStage.LimitMakesNoDifference`). `PeerRace` allows any overlap, so its theorems do not depend on this.
- `getblock` with an empty argument list makes `src/users.rs:361` index past the end; `Users.Intercept` says exactly
  when.
- Comparing a stored password with an empty one divides by zero at `src/users.rs:184`; `Passwords.Matches` says
  exactly when.
- A request alone and a request in a batch go through different parsers. Whenever either accepts an object, they give
  the same exactly when no field is repeated, no key is written with an escape, and every value can be read
  (`Requests.ReadersAgreeIff`). Examples of each: `Requests.RepeatedFieldTellsReadersApart`,
  `Requests.EscapedKeyTellsReadersApart`, `Requests.UnreadableValueTellsReadersApart`.
- `src/block_cache.rs:7-12` takes the checks to fix the contents of the block behind a hash. They do not, in two ways. A
  block with an odd number of transactions, more than one, passes them again with the last one written twice
  (`Witness.LengthenedAccepted`). And a block with a commitment salted with zeros passes them whether the coinbase
  spells the zeros out or has no witness at all (`Witness.ResaltedAccepted`); with as many transactions that is the only
  other block that passes (`Witness.OnlyResalted`). A peer can have either cached and served
  (`FetchRun.LengthenedCanBeServed`, `FetchRun.ResaltedCanBeServed`).
- A failed request of version 2.0 keeps its id and version alone and loses both in a batch, which fails as a whole with
  a bare error: `Batch.FailedSingleAndBatch`.

## Model

| member | source | states |
|---|---|---|
| Decoding.FullReadable | src/fetch_blocks.rs:92-100 | a transaction with its witnesses can be read back from the front of any byte string it starts, so the hash of it determines it |
| Decoding.LegacyReadable | src/fetch_blocks.rs:402-403 | the bytes behind a txid determine everything but the witnesses |
| Decoding.BlockReadable | src/fetch_blocks.rs:517-533 | the serialization kept in the cache decodes to one block only |
| Decoding.ReadBlockIff | src/fetch_blocks.rs:526-534 | a byte string is read as a block exactly when it is the encoding of that block and what is left over: fields, byte order, counts in their shortest form, marker, flag and witnesses |
| Merkle.RootIsTop | src/fetch_blocks.rs:92-103 | the root is the top of the tree defined node by node: each node the hash of its left and its right child in that order, an odd last one standing for both |
| Merkle.RootInjective | src/fetch_blocks.rs:92-103 | equally long leaf lists with the same root are equal, if the nodes hashed do not collide |
| Merkle.RepeatedLastKeepsRoot | src/fetch_blocks.rs:92-103 | an odd list with its last leaf repeated has the same root, so the lengths have to agree |
| Witness.LastCommitment | src/fetch_blocks.rs:86-91 | the search from the end finds the last committing output, and finds one exactly when the first test saw one |
| Witness.CommittedCheck | src/fetch_blocks.rs:60-128 | with a committing output, magic bytes written out, a block passes exactly when its first transaction is a coinbase and the 32 bytes after the magic of the last such output are the hash of the witness tree and then the salt, which is the one item of 32 bytes or zeros |
| Witness.CommittedPair | src/fetch_blocks.rs:60-128 | the same for a coinbase and one other transaction, with every hash written out |
| Witness.UncommittedCheck | src/fetch_blocks.rs:60-85 | with no committing output a block passes exactly when no input has a witness |
| Witness.HeaderCheck | src/fetch_blocks.rs:401-406 | the three checks are: the header hashes to what was asked, it carries the top of the tree over the txids, and the witnesses pass |
| Witness.WitnessUniqueness | src/fetch_blocks.rs:60-128 | two accepted blocks with the same transactions apart from witnesses have the same witnesses, the coinbase up to no salt against a salt of zeros |
| Witness.StrippedAcceptedIff | src/fetch_blocks.rs:58-128 | the stripped copy of an accepted block is accepted exactly when no other transaction had a witness and the coinbase had at most the zero salt |
| Witness.TamperingIsCaught | src/fetch_blocks.rs:707-734 | changing, adding or removing any witness outside the coinbase of an accepted block makes the check fail |
| Witness.StrippingIsCaught | src/fetch_blocks.rs:707-734 | removing all witnesses makes the check fail, if one of them was outside the coinbase |
| Witness.AcceptedBlockUnique | src/fetch_blocks.rs:401-418 | two blocks that pass all three checks for one hash have one header; they are the same block exactly when they have as many transactions and equal coinbase inputs, and the same up to how a salt of zeros is written exactly when they have as many transactions |
| Witness.OnlyResalted | src/fetch_blocks.rs:104-119 | two different blocks that pass for one hash with as many transactions have a commitment salted with zeros and differ only in whether the coinbase spells the zeros out |
| Witness.ResaltedAccepted | src/fetch_blocks.rs:104-119 | a block that passes with a commitment salted with zeros passes with that salt written the other way, whatever other witnesses it has |
| Witness.LengthenedAccepted | src/fetch_blocks.rs:401-418 | a block with an odd number of transactions above one that passes all three checks passes them with its last transaction written twice |
| Witness.HonestBlockAccepted | src/fetch_blocks.rs:630-691 | a block with the commitment to its witnesses in the coinbase passes, for every salt and for none, whatever outputs come before the commitment and whatever others follow |
| Lru.PutDropsShortest | src/block_cache.rs:70-97 | an insertion drops exactly the shortest front prefix that restores the bound, and never the new block |
| Lru.StoredComesBack | src/block_cache.rs:145-151 | a block just stored is found |
| Lru.HeldWasInserted | src/block_cache.rs:57-97 | after every history, whatever is held was inserted under its own hash |
| Lru.RunKeepsBound | src/block_cache.rs:214-225 | after every history the hashes held are distinct and their blocks fit the bound |
| Lru.OrderedByLastTouch | src/block_cache.rs:57-97 | after every history the entries stand in the order of their last touch, where a hit and a fresh insertion touch and inserting a held hash does not |
| Lru.PeakBound | src/block_cache.rs:84-87 | inside an insertion the counter is at most twice the bound |
| Lru.NeverWrapsIff | src/block_cache.rs:84-91 | no history of blocks that fit an allocation makes the counter wrap exactly when the bound is at most 2^63 |
| Lru.ConfigurationSafeIff | src/create_state.rs:146-150 | the configured sizes that keep the counter safe are those up to 2^43 mebibytes |
| BlockCache.BlockCache.constructor | src/block_cache.rs:39-44 | a new cache is the empty history |
| BlockCache.BlockCache.Get | src/block_cache.rs:57-68 | returns what the abstract list holds and leaves its touch, keeping map, queue and counter in agreement |
| BlockCache.BlockCache.Insert | src/block_cache.rs:70-97 | refines the abstract insertion and keeps map, queue and counter in agreement, unless the counter wraps; then nothing is evicted |
| BlockCache.BlockCache.Stats | src/block_cache.rs:100-125 | the counts are those of what is held, within the bound |
| LruInclusion.CacheIsCutRecency | src/block_cache.rs:57-97 | after every sequence of accesses the cache is the list of everything accessed, by last access, cut down to the bound |
| LruInclusion.InclusionIff | src/block_cache.rs:57-97 | the queue of the smaller cache is always a suffix of the larger one's exactly when no block is too big for the one and fits the other beside a block that fits both |
| LruInclusion.LargerNeverMissesMore | src/fetch_blocks.rs:495-522 | a larger cache never misses where a smaller one hits |
| Tagged.SortByTag | src/client.rs:427-429 | the sort gives a sorted permutation, in strict order if the positions differ |
| Tagged.MergeByTag | src/client.rs:430-434 | the merge gives everything from both sides, in strict order if both are and share no position |
| Tagged.StrictOrderUnique | src/client.rs:427-434 | a list in strict order is determined by what is in it |
| Batch.Dispatch | src/client.rs:350-368 | the two channels hold the results in the order the interceptions finish, none for an answered notification |
| Batch.SendBatch | src/client.rs:369-419 | the replies are paired with the forwarded requests that are not notifications, in the order sent |
| Batch.TryCollect | src/client.rs:420-426 | all intercepted replies, or the first error |
| Batch.Send | src/client.rs:350-444 | for every completion order and every answer of the node: the forwarded requests reach the node as one batch if they can be sent at all, and if an interception failed that batch or nothing does; one error if something failed; otherwise, for an honest node, 204 and no body for a batch of notifications, and else 200 and an array whose item k is the own reply of the k-th request that wants one, the empty batch getting the empty array |
| Batch.Assemble | src/client.rs:427-434 | sorting the intercepted replies and merging them with the forwarded ones gives all of both in request order |
| Batch.Confluence | src/client.rs:350-444 | if nothing fails and the node answers in the order sent, the reply is the in-order reference whatever the completion order |
| Batch.ForwardedAppend | src/client.rs:357-366 | requests are passed on in the order in which their interceptions finish |
| Batch.OneReplyEach | src/client.rs:376-382 | the reference has exactly one reply per request that is not a notification, in request order, each the request's own |
| Batch.SingleAndBatchAgree | src/client.rs:284-301 | a batch of one holds the reply of the single request; both are empty together exactly unless an error with an HTTP status meets a notification |
| Batch.FailedSingleAndBatch | src/client.rs:420-426 | a failed request gets the same error alone and in a batch exactly when it is not of version 2.0 and its id is missing or null |
| Rpc.ReplyReadsBack | src/client.rs:273-283 | a client reads back its id and the result or error meant, in either version |
| Rpc.ReplyShape | src/client.rs:273-283 | a 2.0 reply has the version, the id and the one member that applies; a 1.0 reply has the id and both members, the error null exactly if there is none |
| Rpc.ErrorReadsBack | src/client.rs:420-426 | the error that stands for a batch is read with a null id, its code and its message, with its own status or 500 |
| Rpc.StatusTells | src/client.rs:284-301 | an error with a status of its own keeps it; otherwise no content goes exactly to notifications, a 2.0 client gets success with a reply it can read, and a 1.0 client gets success exactly when it reads a result |
| Requests.VisitMap | src/client.rs:64-97 | the loop reads the members in order, the later of two winning, and stops at the first key or value it cannot read, known or not |
| Requests.VisitSeq | src/client.rs:54-63 | the loop reads every element, or nothing |
| Requests.ReadersAgreeIff | src/client.rs:64-97 | on every object that one of them accepts, the hand-written reader and the derived one agree exactly when no field is repeated, no key escaped and no value unreadable |
| Requests.RepeatedFieldTellsReadersApart | src/client.rs:77-79 | a repeated field is accepted alone, the later one winning, and refused in a batch |
| Requests.EscapedKeyTellsReadersApart | src/client.rs:72-89 | an escaped key is refused alone and accepted in a batch |
| Requests.UnreadableValueTellsReadersApart | src/client.rs:86-88 | a value under an unknown key that can be skipped and not read is refused alone and accepted in a batch |
| Requests.PositionsAreMembers | src/client.rs:174-185 | a batch element written as an array means what its members in order mean |
| Requests.FourMembersMean | src/client.rs:64-97 | both readers take a null version as none, a null id as an id, a string as method and an array or object as parameters, and refuse everything else, null included |
| Requests.MissingFieldRefused | src/client.rs:90-96 | without a method or without parameters both readers refuse |
| Requests.ParseMeans | src/client.rs:43-101 | an array is a batch of its elements in order if every one can be read and nothing otherwise, an object is one request, and nothing else is a message |
| Requests.RoundTripIff | src/client.rs:35-42 | a message prints to something that reads back as itself exactly when no request in it has a null version |
| Requests.ParsedRoundTrips | src/client.rs:43-101 | everything parsed prints to something that parses back to itself, a null id staying apart from a missing one |
| Users.Intercept | src/users.rs:319-434 | forwarded means allowed; not allowed means the refusal; without block fetching everything allowed is forwarded; and the one case that panics |
| Users.InterceptGetBlock | src/users.rs:329-418 | reads past the end of the arguments exactly when there are none |
| Users.GetBlockAnswers | src/users.rs:334-411 | verbosity 0 is answered with the raw block and 1 or none with the verbose one, under the id of the request; a block that is gone with code -1 and the words of bitcoind |
| Users.GetBlockBadHash | src/users.rs:338-359 | a block hash that cannot be read fails the call |
| Users.GetRawTransactionAnswers | src/users.rs:447-520 | transaction, verbosity and block are taken from positions 0, 1 and 2, and each of the four results has its answer |
| Users.NotAllowed | src/users.rs:427-433 | a call outside the allowed set is refused with code -32604 and status 403 |
| Users.ForwardedIff | src/users.rs:329-426 | forwarded is exactly what is allowed and is neither `getblock` at verbosity 0 or 1 nor `getrawtransaction` with readable arguments and a block hash, for a user with block fetching |
| Users.SinglePermission | src/client.rs:332-349 | a single request that is not allowed gets the refusal; one that is forwarded is allowed and arrives as it was read; and replies can depend on the node only for a call that is allowed and forwarded |
| Users.BatchPermission | src/users.rs:324-328 | every request of a parsed batch that reaches the node is one the client sent, is allowed and arrives as it was read; one that is not allowed fails the batch; lookups may end differently for equal requests |
| Passwords.XorContentsZero | src/users.rs:181-186 | the fold is zero exactly when the strings are equal |
| Passwords.Matches | src/users.rs:188-196 | the remainder by a zero length is met exactly when the stored password is not empty and the given one is |
| Passwords.MatchesIsEquality | src/users.rs:188-196 | every answer is equality |
| Passwords.CookieMatchesIsEquality | src/users.rs:207-216 | comparing with a cookie file is equality with the password read, false if none was, with the same one panic |
| CookieHeader.StepKeepsInv | src/client.rs:585-606 | every step keeps: a cached pair may join an old time to newer contents, never the reverse |
| CookieHeader.HeadersAreFresh | src/client.rs:578-609 | in every interleaving a header returned is that of contents the file held during the call |
| CookieHeader.HeaderIs | src/client.rs:563-601 | the header is `Basic` and the encoding of the contents without the one newline they may end in |
| CookieHeader.HeaderIsFollowed | src/client.rs:578-609 | there is a run in which a header is loaded, then served from the cache, and after a replacement loaded again |
| CookieHeader.ErrorsHaveCauses | src/client.rs:586-600 | a call fails only if the file could not be examined or read |
| CookiePassword.CachedPairsBindIff | src/users.rs:99-112 | a cached pair binds its time to the password the file then held if, and with fresh passwords only if, the file was not replaced between the read and the second stat |
| CookiePassword.HitsAreCurrentIff | src/users.rs:91-98 | a hit returns the password current at the first stat under the same condition |
| CookiePassword.MissesAreFresh | src/users.rs:99-113 | what a miss returns was in the file during the call |
| CookiePassword.PasswordIs | src/users.rs:99-104 | the password is what stands between the first colon and the newlines at the end, colons included |
| CookiePassword.PasswordIffColon | src/users.rs:99-104 | there is a password exactly if there is a colon |
| CookiePassword.PasswordIsFollowed | src/users.rs:87-114 | there is a run in which a password is read, then served from the cache, and after a replacement read again |
| CookiePassword.StatsMayFail | src/users.rs:91-113 | a call whose stats both fail still returns the password and caches nothing |
| CookiePassword.ErrorsHaveCauses | src/users.rs:99-104 | a call gives nothing only if the file could not be read or has no colon |
| CookiePassword.ReplacedMidRead | src/users.rs:105-112 | a run in which a replacement between the read and the second stat makes a later call return the old password |
| PeerStage.OneAtATime | src/fetch_blocks.rs:446-471 | for every limit, in every run at most one fetch is in flight, no peer is asked twice, and those asked are those no longer idle |
| PeerStage.AllAtOnceIff | README.md:32-32 | for every limit, all peers can be in flight at once exactly when there is at most one |
| PeerStage.LimitMakesNoDifference | src/fetch_blocks.rs:462-462 | whatever can happen under one limit can happen under any other |
| PeerStage.StageIsRace | src/fetch_blocks.rs:446-484 | every run of the stages is a schedule of the race with the channel as its queue, and the race can end as the stages can |
| PeerRace.NoLostBlock | src/fetch_blocks.rs:439-484 | for every schedule the race gives nothing only if every peer was heard from and no block delivered passes the checks, and otherwise the first one delivered that does |
| PeerRace.CanEnd | src/fetch_blocks.rs:462-476 | no schedule is stuck |
| FetchRun.CacheHoldsOnlyChecked | src/fetch_blocks.rs:489-524 | in every reachable state each cached entry is a block that passed every check for its key, which the node has pruned |
| FetchRun.AnswersAreGenuine | src/fetch_blocks.rs:489-524 | every block returned is the node's own bytes or a block that passed every check |
| FetchRun.AnswersHaveCauses | src/fetch_blocks.rs:489-524 | in every run each answer has its one cause: the cache held it, the node had the block and had not pruned it, a block from a peer was kept, the race gave nothing, or an error came |
| FetchRun.NodeServes | src/fetch_blocks.rs:499-501 | after a cache miss a block the node has not pruned is answered with the bytes of the node, and a pruned one is sought from peers |
| FetchRun.CacheIsAskedFirst | src/fetch_blocks.rs:493-498 | what the cache holds is answered from it and is then the last to be evicted |
| FetchRun.NodeCanServe | src/fetch_blocks.rs:499-501 | there is a run that serves the block of the node, uncached |
| FetchRun.ServedDecodes | src/fetch_blocks.rs:526-534 | whatever came from the cache or from peers is read back as a block that passed every check, with nothing left over |
| FetchRun.PeersAreAskedLast | src/fetch_blocks.rs:493-510 | peers are asked only after the cache missed and the node had pruned the block |
| FetchRun.ServedBlocksAgree | src/fetch_blocks.rs:489-524 | two blocks served for one hash at any points of a run have one header; they are the same block exactly when they have as many transactions and equal coinbase inputs, and the same up to how a salt of zeros is written exactly when they have as many transactions |
| FetchRun.BothCanBeServed | src/fetch_blocks.rs:489-524 | for any two blocks that pass the checks for one hash there is a run that serves both at once and the first from the cache afterwards, though the second is the one the node had |
| FetchRun.LengthenedCanBeServed | src/block_cache.rs:7-12 | there is a run in which the lengthened copy of a block is served beside the block itself, cached, and served again |
| FetchRun.ResaltedCanBeServed | src/block_cache.rs:7-12 | there is such a run for the copy with its salt of zeros written the other way |
| Connections.OneOwner | src/fetch_blocks.rs:284-398 | in every run each open connection is in exactly one pool slot, handle, fetch or task left behind by a fetch that was given up, and a pool holds at most one |
| Connections.PooledIsBalanced | src/fetch_blocks.rs:329-337 | in every run a pooled connection has, for each request written, one block read that passed every check for the hash asked, in order, and a pong with the same nonce for every ping |
| Connections.AbandonedStaysOut | src/fetch_blocks.rs:379-398 | in every run a connection left to a detached blocking task, or closed, is never again in a pool, a handle or a fetch |
| ConnectionReuse.RecycledIsPooled | src/fetch_blocks.rs:329-337 | a recycled connection goes into the free slot of its peer, and is closed if there is none |
| ConnectionReuse.ConnectionIsReused | src/fetch_blocks.rs:291-326 | for every block that passes there is a run in which the next fetch goes over the connection it came on |
| PeerFetch.FetchFromPeer | src/fetch_blocks.rs:373-437 | reads up to the first block, answers each ping before it, returns the block exactly if it passes every check, and then leaves the connection fit for the pool |
| PeerFetch.ExchangeBalances | src/fetch_blocks.rs:392-434 | an exchange that ends in a block that passes the checks keeps requests and checked blocks, and pings and pongs, even |
| PeerList.UsableAddrs | src/fetch_blocks.rs:162-168 | the addresses kept are those of outbound peers with both services |
| PeerList.UsableInOrder | src/fetch_blocks.rs:150-173 | the addresses are kept in the order of the report |
| PeerList.GivenLists | src/state.rs:150-171 | in every interleaving the list given was young enough when checked, or had something in it, or is the refresh waited for, answered after the caller came; never the one that was never fetched |
| PeerList.GivenAddresses | src/fetch_blocks.rs:150-173 | every address given was that of an outbound peer with both services in one report of the node |
| PeerList.SpawnedIffStale | src/state.rs:150-153 | a refresh is started exactly for a list too old or never fetched |
| PeerList.StaleIsRefreshed | src/state.rs:150-171 | from any state of any run, a caller with a stale list is given it, or what the refresh brought if it was empty, and the next caller is given what the refresh brought |
| PeerList.FailuresHaveCauses | src/state.rs:155-169 | a caller fails only with the refresh it waits for, and a refresh only with the node |

## Left out

- HTTP serving, the client connection to bitcoind, SOCKS, timeouts and systemd: every such step may fail, and only that is modelled.
- SHA-256, HMAC, base64 and hex: the hash and the header encoding are parameters. Salted password hashes are not modelled.
- The p2p handshake (`src/fetch_blocks.rs:240-282`): the two messages read there are ignored by the code, so the accounts of a connection start after it.
- Network parameters and the signet magic (`src/state.rs:47-91`): a table and a hash.
- The fields of verbose `getblock` and `getrawtransaction` replies: `Users.World` gives the rendered value.
- Configuration, logging and user defaults: only the size of the cache is modelled.
- JSON text: documents are modelled after tokenizing, keeping only whether a key was written with an escape and whether a value can be read.
- The nesting limit of the JSON parser, which a request in a batch reaches one level sooner.
- The limits of the bitcoin crate on the size of what it decodes.
- The counts of elements in one allocation: every vector may be as long as an allocation may have bytes.
- CookiePassword.CachedPairsBindIff: the converse asks that every replacement brings a new password, as bitcoind does, because a replacement with the same password leaves the pair right.
- Batch.Confluence: asks the node to answer in the order sent; for any other answer `Batch.Send` states what is paired, and shows that the reference is returned for this one.
