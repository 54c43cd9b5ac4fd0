# MegaEngine: a verified model of the gossip, bundle and chat protocols

MegaEngine is a peer-to-peer Git network. Nodes flood signed messages to one another, keep a table of
repositories in step with what their owners announce, fetch the contents as Git bundles in chunks, and
exchange encrypted chat messages with acknowledgements. This project models those protocols in Dafny
and proves what they are for: a flood reaches everybody and dies out, nobody is believed who did not
sign, a bundle arrives byte for byte, repositories converge to what was announced, a chat message is
delivered and acknowledged.

## How the model is laid out

| file | contents |
|---|---|
| `Json.dfy`, `Printer.dfy`, `Reader.dfy`, `Scanner.dfy` | JSON trees and their canonical form, the compact printer, a reader that inverts it, where printed objects can end |
| `Messages.dfy`, `Fields.dfy`, `Hashing.dfy` | gossip messages as JSON, what that JSON says by name, the hashed preimage |
| `Gossip.dfy`, `Network.dfy` | what one node does with one copy of a message; a network of nodes as a state machine |
| `Coverage.dfy`, `Sharpness.dfy`, `Injection.dfy`, `Replays.dfy`, `Bfs.dfy`, `Termination.dfy`, `DedupWindow.dfy`, `Authenticity.dfy` | properties of all runs of that network |
| `Chat.dfy`, `SenderRuns.dfy`, `ChatRuns.dfy`, `ChatDelivery.dfy`, `ChatStatus.dfy` | the chat service of a node, what a pass of its sender comes to, all nodes together, end-to-end delivery, the status of a sent letter |
| `Storage.dfy`, `Reconcile.dfy`, `Reconciliation.dfy` | the tables, the handlers that reconcile them, and what announcements do to them |
| `Paths.dfy`, `Transport.dfy`, `Bundle.dfy`, `Wire.dfy`, `BundleRuns.dfy`, `BundleFiles.dfy` | paths and files, framing and routing, bundle transfer, what its frames say, reassembly, which file a bundle goes to |
| `Resync.dfy`, `Rounds.dfy`, `Reachable.dfy` | the path to a fixed point, whole rounds between two nodes, the states a disk can get into |
| `GossipService.dfy`, `Dispatch.dfy` | the gossip service as a whole: parsing, dedup, verification, dispatch, forwarding, broadcasting; what the dispatch comes to for each kind of message |
| `Laws.dfy` | the laws asked of the abstract cryptography can all hold together |
| `Common.dfy` | shared types |

Code that changes state in the source is a class here (`GossipService`, `ChatService`, `Store`,
`ConnectionManager`, `BundleTransferManager`), and each method is proved equal to a function of the old
state. The run properties are about state machines that step by those same functions: `Gossip.Receive`
is both what `GossipService.HandleIncoming` does and what a delivery in `Network` does, `Chat.OnChat`
and `Chat.TrySend` are both what `ChatService` does and what an event of `ChatRuns` does, and
`Reconcile.ReconcileAll` is both what the announcement handler does and what the theorems of
`Reconciliation` and `Resync` iterate. `Dispatch` and `SenderRuns` prove that the handler and the sender
loop of a node take just the steps the runs take, and what these do by value.

## Conventions and hypotheses

* A `string` of the source is a sequence of characters here, one for each byte of its UTF-8 form. Keys
  are compared byte by byte, as the source compares them.
* Hashing, signatures, encryption, the parsing of JSON, reading refs with Git, packing a bundle and
  listing a bundle's heads are abstract functions. The laws a theorem needs of them (an injective
  hash, decryption undoing encryption, a parser that reads back what the printer wrote) are its
  `requires` clauses. `Laws.LawsCanHold` and `Bundle.DecoderExists` show that they can be met.
* Hex encoding of digests is part of the abstract `digest`. `Hashing.SelfHash` computes the bytes that
  are hashed, and `Gossip.DigestsHash` ties `digest` to them.
* Reference maps are hash maps in the source, so the order in which their entries are printed is
  arbitrary; every statement holds for all orders. The JSON library's own object type happens to be
  sorted in the source's build. The model makes no use of that, so the explicit key sort is needed here.
* A connection takes some number of streams more and then breaks; a closed one takes none. Any send can
  thus fail, also in the middle of a transfer.
* A failed gossip send puts no copy in flight. Copies in flight may also be lost, and the theorems that need
  reliable links say so (`Coverage.Harmless`, `ChatDelivery.Reliable`).
* The origin of a message does not record it as seen, so it may process its own message once, as in
  the source.
* Deduplication comes before verification, and neither the ttl nor the sender of a copy is hashed or
  signed. So injected copies of a message can keep it from nodes. A forged one keeps it from its receiver
  (`Injection.ForgeryDefeatsCoverage`). An accepted one in the name of a peer of its receiver, other than
  the signer, can keep it from nodes behind its receiver, whatever its ttl (`Injection.ReplayDefeatsCoverage`).
  Accepted ones in any other name do no harm in networks of at most 17 nodes if and only if they carry a
  full ttl (`Replays.OutsideExactly`). `Coverage.FloodCoversNetwork` allows just these, and any copy to a
  receiver that is no node of the network, which forwards nothing (`Coverage.Benign`).
* A node id that does not decode to a key skips the signature check, as in the source. The authenticity
  theorems are about ids that do decode; `Authenticity.UndecodableIdIsOpen` is the other half.
* An acknowledgement is not compared with the receiver of the letter. Chat runs have honest nodes only;
  `ChatStatus.AnybodysAckDelivers` and `ChatStatus.AckKeepsMeaning` say what others' acknowledgements do.
* The chat sender marks a message sent in a separate step after the send, so an acknowledgement can be
  processed first and the row then goes from delivered back to sent: `ChatStatus.LateMarkUndoesDelivered`
  is such a run, and `ChatStatus.DeliveredExactly` says when the row ends as delivered.
* The owner packs branches but announces tags too. When the heads of its bundle are not what it announced, the
  receiver throws every received bundle away at the next announcement and asks for it again:
  `Resync.ResyncSyncs` states exactly when resynchronization succeeds, and
  `Resync.DisagreementNeverSettles` and `Rounds.TagsNeverSettle` what happens otherwise.
* A received bundle goes to a file named by the part of the repository id after the last colon, which
  nothing checks. Paths are resolved here as a file system does, without links and with the root as
  working directory. Ids that end alike share a file (`BundleFiles.StartHitsNamesake`), an id with `../`
  leads into another peer's directory (`BundleFiles.ClimbingDisturbs`), and announcing two repositories
  that share a file can leave one unsettled (`Reconciliation.SharedBundleUnsettles`).
  `Reconciliation.SettledExactly` says when, for every disk. Theorems that need a file of a
  repository's own say so (`Reconciliation.OwnBundle`, `Resync.PathFree`), and `Reachable` proves that
  all reachable states are like that when ids have plain and different last parts.
* Where the repository's documentation and its code differ, the model follows the code: announcements
  go out every 30 seconds, not every 10; the bundle sync loop runs every 30 seconds, not every 60; and a
  received bundle is not checked for integrity, not even against the announced size.

## Model

| member | source | states |
|---|---|---|
| Coverage.FloodCoversNetwork | src/gossip/service.rs:118-420 | In a network of at most 17 nodes with reliable links and no dedup expiry, whatever the schedule and whatever else happens, benign injected copies of the message included, once no copy is in flight every node reachable from the origin has processed the message |
| Coverage.SentMeansProcessed | src/gossip/service.rs:131-169 | A node of the network a message was sent to has processed it once no copy is in flight, in networks of any size, among accepted injected copies of any ttl and in any name |
| Coverage.Chain | src/gossip/service.rs:404-420 | A node that handled a copy with ttl t has 17 - t different nodes behind it that handled it with ttl at least t |
| Coverage.DeadCopyVisitedAll | src/gossip/service.rs:404-420 | In at most 17 nodes, a copy handled with ttl 0 means that every node has the message |
| Coverage.FloodInvStep | src/gossip/service.rs:131-138 | Every harmless event, benign injections included, keeps the invariant: copies come from whom they should, nodes handle a message once, and peers of a handler have it or will get it |
| Sharpness.LargerNetworksCanMiss | src/gossip/service.rs:64-77 | The bound is exact: for every size above 17 there is a symmetric network and a complete run, nothing lost or forgotten, in which a node 15 links away never processes the message |
| Injection.ForgeryBlocks | src/gossip/service.rs:131-169 | A forged copy delivered first keeps its receiver from processing the genuine message for the rest of the run, as long as its dedup map is not cleaned up |
| Injection.ForgeryDefeatsCoverage | src/gossip/service.rs:131-169 | A complete run on a closed line of three nodes: one forged copy, with any ttl and from anybody, keeps the message from both other nodes |
| Injection.ReplayDefeatsCoverage | src/gossip/service.rs:404-420 | A complete run on a closed line of three nodes in which one validly signed replay, with ttl 0 or, with any ttl, in the name of a peer, keeps the message from the node behind its receiver |
| Replays.StrangerDefeatsCoverage | src/gossip/service.rs:404-420 | For every ttl t from 1 up, on a line of more than t + 1 nodes: one accepted replay from a stranger, addressed to the message's own origin, keeps the message from node t + 1 |
| Replays.OutsideExactly | src/gossip/service.rs:121-138 | Coverage survives accepted copies with ttl t in no peer's name but the signer's, any number of them, in every closed network of at most 17 nodes and every run, if and only if t is at least 16 |
| Bfs.TtlPlusHops | src/gossip/service.rs:404-420 | In every run, also with losses and expiry, whoever processes a message with ttl t is at the end of a walk of 17 - t links from the origin, so nobody beyond distance 17 does |
| Bfs.HopsFromEntry | src/gossip/service.rs:121-127 | In every run at all, with losses, expiry and injected copies of any ttl, what a node processes entered the network as a flood or an injected copy and has lost as much ttl as it came hops |
| Bfs.BallOfRounds | src/gossip/service.rs:404-420 | After k rounds of lock-step delivery of a flood the nodes that processed the message, the origin aside, are those within distance k |
| Bfs.RoundEffect | src/gossip/service.rs:404-420 | A whole round delivers every copy in flight and leaves only copies one hop older |
| Bfs.LockStepIsBfs | src/gossip/service.rs:64-77 | Breadth-first search: a node first processes the message in round k if and only if its distance from the origin is k, up to 17 |
| Termination.DeliveryLowersLoad | src/gossip/service.rs:404-420 | Every delivery lowers the weight of the copies in flight, even if no dedup entry is left |
| Termination.DeliveriesBounded | src/gossip/service.rs:104-113 | Without new messages, deliveries plus the weight left are at most the weight at the start, whatever expires or is lost |
| Termination.FloodDiesOut | src/gossip/service.rs:118-138 | For one message in arbitrary runs, among all other traffic: its copies sent and injected, which are those delivered, lost and in flight, number at most 1 + d + ... + d^t for each copy that entered with ttl t, even if dedup never helps |
| Termination.OneFloodCost | src/gossip/service.rs:64-77 | One flood without injected copies costs at most d + d^2 + ... + d^17 sends when no node has more than d peers |
| Termination.CopiesConserved | src/gossip/service.rs:404-420 | Every copy of a message that was sent or injected has been delivered or lost, or is in flight |
| Termination.FloodCost | src/gossip/service.rs:131-138 | As long as no node forgets the message, whatever is lost or injected, the copies of a message ever sent number at most what its origin sent plus the sum of all degrees |
| DedupWindow.ProcessingsFarApart | src/gossip/service.rs:104-138 | In every run, two processings of one message at one node are at least 300 seconds apart |
| DedupWindow.WindowStep | src/gossip/service.rs:104-138 | Every event keeps this: the dedup map remembers the last processing or that is 300 seconds old |
| DedupWindow.ForgottenInTime | src/gossip/service.rs:104-138 | Duplicates do not renew an entry: in every run, however many copies keep coming, a node forgets a message at the latest with the first cleanup 300 seconds after it recorded the message |
| Authenticity.ProcessedIsGenuine | src/gossip/service.rs:140-169 | Against arbitrary injected traffic, what is processed under a decodable id is what the holder of that key signed, same content, sender and time |
| Authenticity.ForwardedIsGenuine | src/gossip/service.rs:404-420 | The same for what is forwarded |
| Authenticity.UndecodableIdIsOpen | src/gossip/service.rs:141-169 | For every id that decodes to no key, any message that names it as signer and sender is processed at any node, with no signature ever made |
| Gossip.ForwardTargets | src/gossip/service.rs:404-420 | A copy is forwarded to a node if and only if it is a peer and not the one the message came from |
| Gossip.AcceptsExactly | src/gossip/service.rs:140-169 | A message is acceptable if and only if it names its signer as sender and, when that id has a key, its signature is the hex of 64 bytes that check under the key |
| Gossip.ExpiredExactly | src/gossip/service.rs:104-113 | A cleanup keeps an entry of the dedup map, unchanged, if and only if it is younger than 300 seconds |
| Gossip.InjectiveHashDistinguishes | src/gossip/message.rs:160-172 | With an injective hash, equal digests mean equal signer, content and time |
| Network.SentToAll | src/gossip/service.rs:404-420 | A processed message with ttl left is in flight to every peer but the sender afterwards, with the ttl lowered by one |
| Network.FlightAfterDelivery | src/gossip/service.rs:404-420 | A delivery takes one copy away, adds only what the receiver sent, and leaves the others |
| GossipServiceModule.GossipService.HandleIncoming | src/gossip/service.rs:118-423 | The whole handler: for data that parses, the dedup map, the tables, the node table and everything sent are as `Gossip.Receive`, reconciliation and chat say; otherwise nothing changes |
| GossipServiceModule.GossipService.Admit | src/gossip/service.rs:129-169 | The id is recorded whenever it is new, also when verification then fails |
| GossipServiceModule.GossipService.Verify | src/gossip/service.rs:140-169 | The checks succeed if and only if the message is acceptable: 64-byte valid signature when the id decodes, and payload sender equal to the signer |
| GossipServiceModule.GossipService.Process | src/gossip/service.rs:172-402 | Dispatch: each kind of message changes its own table and causes its own mail, and nothing else |
| Dispatch.HandlerTable | src/gossip/service.rs:380-402 | For every processed delivery in every chat run, letters and acknowledgements included, the chat table the handler leaves is the receiver's table after that step of the run |
| Dispatch.HandlerFlight | src/gossip/service.rs:380-420 | With all links up, the acknowledgement mail and the forwarded copies of the handler are, as a multiset, the copies that step adds to what is in flight |
| Dispatch.HandlerDisk | src/gossip/service.rs:195-379 | An announcement leaves every announced repository settled if and only if no bundle was lost, for every disk without orphans; no other message touches the disk |
| Dispatch.HandlerStores | src/gossip/service.rs:355-368 | A repository that was absent loads afterwards exactly as announced, marked external |
| Dispatch.HandlerNodes | src/storage/node_model.rs:28-56 | A node announcement leaves alias, type number, version and times as announced, addresses that read back as the announced list, and every other row as it was; no other message touches the node table |
| GossipServiceModule.GossipService.SaveNodeInfo | src/storage/node_model.rs:28-56 | The row of the announced node is replaced, creation time included, and no other changes |
| GossipServiceModule.GossipService.ProcessAndForward | src/gossip/service.rs:171-420 | After verification: the dispatch, then the copies sent on, only if ttl is left |
| GossipServiceModule.GossipService.ForwardToPeers | src/gossip/service.rs:412-419 | The forwarding loop sends exactly the copies `Gossip.Forward` lists over the links that are up |
| GossipServiceModule.GossipService.CleanupSeen | src/gossip/service.rs:104-113 | Exactly the entries younger than 300 seconds stay |
| GossipServiceModule.GossipService.NewRepoSignMessage | src/gossip/message.rs:112-138 | Paths and bundles are cleared, the digest is taken with an empty signature, and the signature goes in afterwards |
| GossipServiceModule.GossipService.BroadcastTick | src/gossip/service.rs:61-102 | One round floods a node announcement and, if there are repositories, an honest announcement of all stored ones and no others |
| Json.CanonicalFormIsComplete | src/gossip/message.rs:140-158 | Two values with unique keys have the same canonical form if and only if they are equal up to key order at every depth |
| Json.CanonicalizeIdempotent | src/gossip/message.rs:140-158 | Canonicalizing twice is canonicalizing once |
| Json.CanonicalizeKeepsMeaning | src/gossip/message.rs:140-158 | The canonical form is equal to the value up to key order, and well formed |
| Json.CanonicalizeKeepsPaths | src/gossip/message.rs:140-158 | What stands at the end of every path of keys and indices stays there |
| Json.SortByKeySorted | src/gossip/message.rs:143-145 | The entries end up in byte order of their keys |
| Json.LeqIsBytewise | src/gossip/message.rs:145 | The key order by value: a proper prefix comes first, else the first byte that differs decides |
| Json.CanonicalizeValue | src/gossip/message.rs:140-158 | The recursive method computes the canonical form |
| Json.CanonicalizeObject | src/gossip/message.rs:142-152 | Sorting entries and inserting them one by one into a new map does for objects |
| Json.CanonicalizeArray | src/gossip/message.rs:153-155 | and mapping over the elements for arrays |
| Printer.PrintPrefix | src/gossip/message.rs:166 | A printed value can be read off the front of a text in at most one way |
| Printer.PrintInjective | src/gossip/message.rs:166 | The compact printer is injective |
| Reader.PrintedIsRead | src/gossip/message.rs:166 | A reader written from RFC 8259, with the escapes of its section 7 and digits by decimal value, gets every value back from its printed form, whatever follows |
| Messages.JsonFaithful | src/gossip/message.rs:28-94 | Two gossip messages have JSON equal up to key order if and only if they are the same message |
| Messages.JsonOrderIndependent | src/repo/repo.rs:6-25 | The order in which reference maps are printed does not matter up to key order |
| Messages.JsonWellFormed | src/gossip/message.rs:162-164 | The JSON of a message has unique keys at every depth |
| Fields.JsonSays | src/gossip/message.rs:17-94 | The JSON of a message has each field under the name the program gives it, and the refs and repositories and no more |
| Fields.CanonicalSays | src/gossip/message.rs:140-166 | and so has its canonical form, which is what is hashed |
| Scanner.NoProperSuffix | src/gossip/message.rs:164-169 | No printed object is a proper suffix of another one, so node ids need no delimiter before the message |
| Hashing.PreimageUnambiguous | src/gossip/message.rs:160-172 | Two preimages are equal if and only if id, message and timestamp are, whatever characters node ids have |
| Hashing.PreimageStable | src/gossip/message.rs:160-172 | The preimage does not depend on hash map order; ttl and signature are no part of it |
| Hashing.MessageBytesFaithful | src/gossip/message.rs:162-166 | Canonical bytes of two messages are equal if and only if the messages are |
| Hashing.TimestampInjective | src/gossip/message.rs:170 | The eight little-endian bytes determine a signed 64-bit timestamp |
| Hashing.TimestampByValue | src/gossip/message.rs:170 | Byte i of the eight is the timestamp modulo 2^64 divided by 256^i, modulo 256, and the sum of byte i times 256^i is the timestamp modulo 2^64 |
| Hashing.PreimageReads | src/gossip/message.rs:160-172 | A preimage is the signer's id, then text from which a JSON reader gets exactly the canonical form of the message, then eight bytes that sum to the timestamp |
| Hashing.DigestUnambiguous | src/gossip/message.rs:160-172 | With an injective hash, digests are equal if and only if signer, message and time are |
| Hashing.SelfHash | src/gossip/message.rs:160-172 | Feeding the hasher id, canonical bytes and timestamp gives the hash of the preimage, in whatever order reference maps are iterated |
| Chat.ChatService.ProcessPendingMessages | src/chat/service.rs:29-75 | One pass loads exactly the rows with status sending and tries each in turn: failed, left for later, or sent |
| Chat.ChatService.ProcessOne | src/chat/service.rs:40-73 | An invalid receiver fails the row; a successful try marks it sent; anything else leaves it |
| SenderRuns.RowAfterPass | src/chat/service.rs:29-75 | After a pass a row that was to be sent is failed if and only if its receiver's id is invalid, sent if and only if the id is valid, has a key, and the receiver's link or, if it is no peer, some link is up, and else still to be sent; other columns and other rows are as before |
| SenderRuns.PassByValue | src/chat/service.rs:40-73 | The same of every part of a pass: the rows tried have their outcome, and the others are untouched |
| SenderRuns.MailIsLetters | src/chat/service.rs:77-189 | Every copy a pass sends is the letter of a row that ends sent, signed by this node and encrypted to the receiver's key, with ttl 16, to the receiver or, if it is no peer, to a peer whose link is up |
| SenderRuns.LettersAreMailed | src/chat/service.rs:126-186 | and every such row has its letter sent to every such node |
| SenderRuns.TriedIsTry | src/chat/service.rs:40-73 | One try of the loop is one try of the chat runs, and a mark if it was launched: same table, same copies in flight |
| Chat.ChatService.TrySendPendingMsg | src/chat/service.rs:77-189 | Directly to the receiver if it is a peer, else to all peers; success means that at least one link took it, failure that nothing was sent |
| Chat.ChatService.Broadcast | src/chat/service.rs:158-186 | Every link that is up takes one copy, and the result says whether there was one |
| Chat.ChatService.ProcessIncomingChat | src/chat/service.rs:218-292 | A message for this node that decrypts is stored if new and always acknowledged; any other changes nothing |
| Chat.StoredByValue | src/chat/service.rs:241-258 | A letter stored says who sent it, its decrypted text, the time and that it is delivered; one that was there stays as it is |
| Chat.AnswerByValue | src/chat/service.rs:260-289 | A message is acknowledged if and only if it is for this node and decrypts: to its sender, for its id, at this time, signed by this node |
| Chat.ChatService.ProcessAck | src/chat/service.rs:294-314 | An acknowledgement addressed to this node marks the row delivered if there is one |
| Chat.ChatService.SaveMessage | src/storage/chat_message.rs:37-56 | Insertion fails if and only if the id is there, and then changes nothing |
| Chat.ChatService.UpdateMessageStatus | src/storage/chat_message.rs:58-67 | Only the status of the named row changes, and nothing if there is none |
| Chat.ChatService.LoadPending | src/chat/service.rs:33-38 | The rows with status sending, each once |
| Chat.MadeIsAccepted | src/chat/service.rs:105-113 | What a node signs itself every node accepts, although the digest is taken before the signature goes in |
| ChatRuns.ChatSafety | src/chat/service.rs:29-314 | In every run, with retries and duplicates: rows hold the submitted text; a sender's row is delivered only if the receiver stored the letter; a failed row's message was never sent |
| ChatRuns.RowsOverRuns | src/storage/chat_message.rs:37-67 | A row, once there, stays with its content; failed is final, no row returns to sending, and sent or delivered rows stay one of these |
| ChatRuns.SysInvStep | src/chat/service.rs:29-314 | Every event of every node keeps the system invariant |
| ChatRuns.RowStep | src/chat/service.rs:40-73 | One event moves the status of a row only along the allowed transitions |
| ChatDelivery.ChatDelivered | src/chat/service.rs:126-186 | End to end, for direct and broadcast sends: when a letter has been launched and all copies have drained, the receiver holds it with the original text and the sender has processed an acknowledgement |
| ChatStatus.AckedStatusExactly | src/chat/service.rs:294-314 | Once an acknowledgement has been processed, the sender's row says delivered if some acknowledgement came after which no mark did, and else sent |
| ChatStatus.DeliveredExactly | src/chat/service.rs:58-64 | In every run the sender's row of a letter says delivered if and only if an acknowledgement of it was processed after which the sender loop did not mark it |
| ChatStatus.LateMarkUndoesDelivered | src/chat/service.rs:50-64 | The run submit, load, launch, deliver the letter, deliver its acknowledgement, mark: the row goes from delivered back to sent |
| ChatStatus.AnybodysAckDelivers | src/chat/service.rs:294-314 | In any state, an acknowledgement validly signed by anybody makes the sender's row delivered and changes no other table |
| ChatStatus.AckKeepsMeaning | src/chat/service.rs:294-314 | Over an acknowledgement, delivered keeps meaning stored if and only if the receiver named in the row has stored the letter |
| ChatRuns.DeliveredStep | src/storage/chat_message.rs:58-67 | One event leaves a row delivered if and only if it acknowledges it, or it was delivered and the event does not mark it; a delivered row becomes sent by a mark only |
| ChatDelivery.AllAnswered | src/chat/service.rs:241-289 | A receiver that processed a message for it has stored it and flooded an acknowledgement |
| ChatDelivery.TraceIsRun | src/gossip/service.rs:380-420 | The network part of every chat run is a run of the gossip network, so the flood theorems apply to it |
| Storage.Store.HasRefsChanged | src/storage/ref_model.rs:158-187 | Count and one-sided scan say "unchanged" if and only if the stored refs equal the given ones |
| Storage.Store.BatchSaveRefs | src/storage/ref_model.rs:63-99 | Row by row, in any order, has the effect of one override; creation times of present rows stay |
| Storage.Store.SaveRef | src/storage/ref_model.rs:26-60 | The refs of the repository are overridden at one name, a present row keeps its creation time, and no other row changes |
| Storage.Store.LoadRefsForRepo | src/storage/ref_model.rs:102-118 | Exactly the refs of the repository |
| Storage.Store.DeleteRefsForRepo | src/storage/ref_model.rs:137-144 | Exactly the rows of the repository go |
| Storage.SaveOverrides | src/storage/ref_model.rs:63-99 | Saving is right-biased override of the stored refs and leaves other repositories alone |
| Storage.SavedRefs | src/storage/ref_model.rs:63-99 | The saved refs rows by value: the commit, update time now, and the creation time that a present row had, else now |
| Storage.DeleteClears | src/storage/ref_model.rs:137-144 | After deletion nothing is loaded, and other repositories are as before |
| Storage.LoadAfterSave | src/storage/repo_model.rs:33-110 | Loading gives back the saved repository if and only if no other ref name was stored for it, for every 64-bit size |
| Storage.SavedRow | src/storage/repo_model.rs:33-80 | The saved row column by column: a present row keeps its creation time, a new one has both times now, and no other row or file changes |
| Storage.SaveLeavesOthers | src/storage/repo_model.rs:33-80 | Saving one repository changes no other |
| Storage.LoadAfterDelete | src/storage/repo_model.rs:113-119 | A deleted repository is gone, with its refs |
| Storage.DeleteLeavesOthers | src/storage/repo_model.rs:113-119 | and no other is touched |
| Storage.SizeSurvives | src/storage/repo_model.rs:51 | The casts of a size to signed and back lose nothing |
| Storage.NoOrphansOverRuns | src/storage/repo_model.rs:33-176 | A run of table operations, refs calls on their own included, stays free of orphaned refs rows if and only if none of them stores refs of a repository that is absent at that point |
| Storage.OrphansExactly | src/storage/ref_model.rs:26-99 | One operation orphans refs rows if and only if it stores refs, not none, of an absent repository |
| Storage.RunsReplay | src/storage/ref_model.rs:63-144 | The refs after any sequence of table operations are the overrides since the last deletion |
| Storage.Store.SaveRepoToDb | src/storage/repo_model.rs:33-80 | Update or insert one row, then its refs |
| Storage.Store.LoadRepoFromDb | src/storage/repo_model.rs:83-110 | The stored row with its refs, or none |
| Storage.Store.DeleteRepoFromDb | src/storage/repo_model.rs:113-119 | The row and its refs go |
| Storage.Store.UpdateRepoBundle | src/storage/repo_model.rs:151-176 | Only bundle and update time of a present row change |
| Storage.BundleSet | src/storage/repo_model.rs:151-176 | by value, column by column, and nothing at all if there is no such row |
| Storage.Store.ListRepos | src/storage/repo_model.rs:122-148 | Every repository, each once, as loading it would give it |
| Reconcile.HandleRepoAnnouncement | src/gossip/service.rs:203-378 | The loop over an announcement does to the disk what `ReconcileAll` says |
| Reconcile.HandleRepo | src/gossip/service.rs:205-376 | One announced repository: inserted as external, skipped if local or up to date, else refs replaced, bundle field cleared and its file removed |
| Reconcile.LocalRefs | src/gossip/service.rs:223-273 | Refs come from the bundle if there is one and git reads it, else from the table |
| Reconcile.SyncTick | src/bundle/bundle_sync.rs:20-84 | A request is sent if and only if the repository is external, has no bundle, and its creator's id parses |
| Reconcile.RefsTick | src/repo/repo_sync.rs:15-37 | Every local repository takes over git's refs, and no external one changes |
| Reconcile.CheckAndUpdateRepoRefs | src/repo/repo_sync.rs:41-72 | Stored refs are overridden by git's; other repositories stay |
| Reconcile.RefreshExact | src/repo/repo_sync.rs:41-72 | After a tick the table equals git's refs if and only if git dropped no stored ref |
| Reconcile.NotRefreshed | src/repo/repo_sync.rs:15-50 | External repositories, and local ones git cannot read, keep their stored refs |
| Reconciliation.SettledExactly | src/gossip/service.rs:203-378 | For every disk without orphans: after an honest announcement, a repository in it that is not the node's own has effective refs equal to the announced ones if and only if it has not lost a shared bundle file to a later repository of the announcement |
| Reconciliation.AnnouncementAdopted | src/gossip/service.rs:203-378 | A repository with a bundle file of its own is always settled so, and its bundle field is empty if its refs had differed |
| Reconciliation.AbsentIsStored | src/gossip/service.rs:355-368 | For every disk without orphans, each repository of an honest announcement that was absent loads afterwards as it was announced, marked external, with both times now |
| Reconciliation.StoredLoadsAsBefore | src/gossip/service.rs:205-352 | One that was stored loads as before but for refs and bundle, and its bundle is as before or cleared |
| Reconciliation.SharedBundleUnsettles | src/gossip/service.rs:285-352 | Two external repositories that name one bundle file: announcing both leaves the first unsettled when its table is stale and the second has new refs |
| Reconciliation.FileStands | src/gossip/service.rs:285-309 | A readable bundle file outlasts an announcement if and only if no repository in it both names the file and has other refs |
| Reconciliation.AnnouncementIdempotent | src/gossip/service.rs:203-378 | Processing the same honest announcement again, at any later time, changes nothing if and only if no repository lost its bundle by it |
| Reconciliation.LocalUntouchedByGossip | src/gossip/service.rs:205-214 | Over any announcements from anybody, local repositories keep every field and ref, and no external flag changes |
| Reconciliation.RemovedExactly | src/gossip/service.rs:285-309 | One announced repository removes a file if and only if the stored external row of that id names it and its effective refs differ |
| Reconciliation.FileSurvives | src/gossip/service.rs:285-309 | Over any announcements from anybody, a file survives that no stored external repository and no announced one names |
| Reconciliation.AnnouncedPathRemoves | src/gossip/service.rs:359-365 | Otherwise it may go: a new repository's announced bundle field is stored unread, and the file it leads to is removed with the next announcement of other refs |
| Reconciliation.OwnAnnouncementsAreHonest | src/gossip/message.rs:112-121 | What a node announces from its table has unique ids and empty bundle fields |
| Reconciliation.UnnamedUntouched | src/gossip/service.rs:203-378 | An announcement leaves a repository it does not name alone: row, refs and, if it is its own, bundle file |
| Reconciliation.UnnamedKept | src/gossip/service.rs:203-378 | From any point of any announcement on, repositories not named any more keep row and refs, shared files or not |
| Transport.DataRouting | src/transport/quic.rs:174-187 | A payload reaches the data receiver if and only if the frame is the data prefix and that payload, within the read limit |
| Transport.GossipRouting | src/transport/quic.rs:189-203 | A framed gossip message reaches the gossip receiver unchanged |
| Transport.UnclaimedDataGoesToGossip | src/transport/quic.rs:178-203 | Without a data receiver, bundle data falls through to gossip, prefix included |
| Transport.RoutingExactly | src/transport/quic.rs:170-206 | Routing completely, both ways: which payload reaches which receiver, for all streams and either set of registered receivers, and nothing above 1 MiB |
| Transport.ConnectionManager.HandleStream | src/transport/quic.rs:316-346 | One stream ends up in the queue `Route` says, once, or nowhere |
| Transport.ConnectionManager.SendGossipMessage | src/transport/quic.rs:367-372 | The prefixed message goes out if and only if the connection still takes a stream |
| Transport.ConnectionManager.SendDataMessage | src/transport/quic.rs:375-380 | The same with the data prefix |
| Transport.ConnectionManager.SendMessage | src/transport/quic.rs:351-364 | One stream to a connected peer whose connection is neither closed nor broken, or an error and nothing sent |
| Transport.ConnectionManager.ListPeers | src/transport/quic.rs:221-224 | The connected peers, each once |
| Transport.ConnectionManager.CleanupConnections | src/transport/quic.rs:227-253 | Exactly the closed connections go |
| Bundle.EncodeInjective | src/bundle/transfer.rs:19-40 | No two bundle messages have the same encoding |
| Bundle.DecoderExists | src/bundle/transfer.rs:148-151 | A decoder that inverts the encoding exists |
| Wire.EncodingSays | src/bundle/transfer.rs:19-40 | A JSON reader gets every field of a bundle message from its encoding, under the program's tags and names |
| Bundle.LastPart | src/util/mod.rs:6-13 | What follows the last colon, or everything if there is none |
| Bundle.BundleTransferManager.SendBundle | src/bundle/transfer.rs:68-143 | A start frame, the chunks in order with their indices, and a done frame; or an error, and exactly the frames out that the connection took before it broke |
| Bundle.BundleTransferManager.HandleBundleMessage | src/bundle/transfer.rs:148-174 | Decoding and dispatch: the disk and the frames sent are what the message means |
| Bundle.BundleTransferManager.HandleBundleRequest | src/bundle/transfer.rs:183-251 | Only local repositories that git can pack are answered, with a transfer as far as the connection takes it, under the last component of the packed path |
| Bundle.RequestByValue | src/bundle/transfer.rs:183-251 | A request for a local repository that git packs leaves exactly the packed bytes in the pack file and sends a transfer of just these; no other file and no table changes, and nothing at all happens for any other request |
| Bundle.ChunksAreBundle | src/bundle/transfer.rs:98-116 | The chunks put together are the bundle, all of 65536 bytes but the last |
| Bundle.BundleTransferManager.HandleBundleStart | src/bundle/transfer.rs:254-281 | The file that the path leads to is emptied or created |
| Bundle.BundleTransferManager.HandleBundleChunk | src/bundle/transfer.rs:284-331 | The data is written at index times 64 KiB, creating the file if need be and truncating nothing |
| Bundle.BundleTransferManager.HandleBundleDone | src/bundle/transfer.rs:334-361 | The bundle field is set if and only if the file is there |
| BundleRuns.BundleReassembled | src/bundle/transfer.rs:284-331 | After a start, the chunk frames of a bundle of up to 2^32 chunks, in any order and with repeats, among streams whose resolved paths lead elsewhere, leave the file equal to the bundle |
| BundleRuns.TransferDelivers | src/bundle/transfer.rs:68-143 | The sender's frames, received in order through framing and routing, leave the file equal to the bundle whatever it held, set the bundle field, and change nothing else in the tables |
| BundleRuns.ChunkFrameFits | src/transport/quic.rs:15 | Every chunk frame is at most 1 MiB, for all bytes and repository ids of up to 131061 bytes |
| BundleRuns.ChunkWritten | src/bundle/transfer.rs:307-319 | Writing one chunk keeps what is right in the file and makes its own range right |
| BundleRuns.ReceiveStream | src/transport/quic.rs:316-346 | Router and bundle handler together do to the disk what the stream means |
| BundleRuns.DoneFrameFits | src/transport/quic.rs:15 | Every done frame fits the bounded read for the same repository ids |
| BundleFiles.SameFileExactly | src/bundle/transfer.rs:261-267 | For plain names, two transfers go to one file, and one path, if and only if the last parts of both peer and repository id agree |
| BundleFiles.StartHitsNamesake | src/util/mod.rs:6-8 | Ids that end alike share a path: a start of one empties the file of the other |
| BundleFiles.ClimbingDisturbs | src/bundle/transfer.rs:261-269 | A start whose repository id climbs with ../ empties the file of another peer's repository, and is no undisturbing stream for it |
| BundleFiles.ClimbingChunkWrites | src/bundle/transfer.rs:291-319 | A chunk whose repository id climbs is written into the file of another peer's repository |
| BundleFiles.OthersDoNotDisturb | src/bundle/transfer.rs:290-294 | With plain names, streams of other peers or for other names disturb no transfer |
| BundleFiles.StreamsTouchBundlesOnly | src/bundle/transfer.rs:334-346 | A stream changes in the tables at most bundle field and update time of one repository, and only as a done message for a file that is there |
| BundleFiles.DoneSetsLocalBundle | src/bundle/transfer.rs:334-346 | That repository may be a local one: start and done from any peer set its bundle field, and no other column |
| Resync.ResyncReachesFixedPoint | src/gossip/service.rs:223-352 | From any state of an external repository, an announcement and one received bundle if wanted lead to a state that no further consistent announcements change and in which nothing is requested |
| Resync.ResyncSyncs | src/bundle/transfer.rs:334-346 | Announce, request and transfer end in sync if and only if no transfer was wanted or the bundle's heads are the announced refs or unreadable |
| Resync.DisagreementNeverSettles | src/gossip/service.rs:275-352 | Otherwise the next announcement discards the received bundle and has it requested again |
| Resync.SyncIsStable | src/gossip/service.rs:275-282 | In sync is a fixed point of any number of consistent announcements |
| Resync.AnnouncedIsSyncedOrWanted | src/bundle/bundle_sync.rs:28-45 | After an honest announcement a repository is in sync if and only if the sync loop does not want it |
| Rounds.RoundReachesFixedPoint | src/bundle/bundle_sync.rs:28-84 | The same over two disks: announcement, request to the creator, the owner's answer packed from its own disk and sent frame by frame, and its reception |
| Rounds.RoundIsResync | src/bundle/transfer.rs:183-251 | The answer of an owner that has the repository as its own and the room to send it is received whole, at a path of its own |
| Rounds.TagsNeverSettle | src/git/pack.rs:30-46 | A repository with an announced tag, which no bundle contains, has its bundle fetched again after every round |
| Rounds.BeginFrameFits | src/transport/quic.rs:15 | Every start frame fits the bounded read for repository ids of up to 87000 bytes |
| Reachable.ReachableIsSound | src/bundle/transfer.rs:334-346 | From an empty disk, under honest announcements and arbitrary streams from peers, with plain and different last parts: no orphans, no shared bundle file, and the path of a new bundle is free |
| Reachable.ReachableAdopts | src/gossip/service.rs:203-378 | In every such state an honest announcement is adopted in all its repositories and repeating it changes nothing |
| Reachable.ReachableRound | src/bundle/bundle_sync.rs:28-45 | In every such state a round with an owner whose bundle agrees with its announcement reaches the fixed point |

## Left out

- QUIC, TLS, certificates and sockets: a connection is a peer id that is connected or not, and a stream is a whole message.
- Cryptography, multibase and multihash: abstract functions with the laws stated where they are used.
- Git subprocesses and libgit2: reading refs, packing a bundle and listing its heads are abstract functions.
- SQL, schema migration and database errors: tables are maps keyed by primary key, and no operation on them fails.
- Interleaving inside one handler: a handler runs to its end before the next event, except that the chat sender's mark is a step of its own.
- Timers: a tick of a loop is one method call; the intervals themselves are not modelled.
- Coverage.FloodCoversNetwork: does not allow injected copies of the message to nodes of the network that are forged, carry a ttl below 16, or name a peer of their receiver other than the signer; it fails with such copies.
- Bfs.TtlPlusHops: is about messages of which no copy is injected; `Bfs.HopsFromEntry` is about all traffic.
- Authenticity.ProcessedIsGenuine: is about node ids that decode to a key, because the source does not check the signature of others.
- ChatDelivery.ChatDelivered: assumes that sender and receiver differ, that all the sender's links are up when it sends, and links that lose nothing.
- Reconciliation.AnnouncementAdopted: assumes an announcement made by an unmodified node (unique ids, empty bundle fields) and a bundle file that no other repository names; `Reconciliation.SettledExactly` is about all disks.
- BundleRuns.BundleReassembled: assumes at most 2^32 chunks, because the source casts the chunk index to 32 bits.
- Bundle.BundleTransferManager.SendBundle: takes a file of less than 2^64 bytes.
- Bundle.BundleTransferManager.HandleBundleStart: file name and total size are ignored, as in the source; directories are not modelled, so a start whose path climbs into a directory that does not exist empties a file where the source reports an error. A chunk creates the directories it needs, so this does not concern it.
- Bundle.BundleTransferManager.HandleBundleMessage: the same about starts.
- BundleFiles.ClimbingDisturbs: the same about starts.
- Convergence of all nodes to an owner's refs: false in general, since nodes announce external repositories they hold and stale refs can be adopted again; `Resync` proves the conditional form.
- A bundle file that an announcement removes in the middle of a transfer: the source does not guard against it.
- Paths that are not UTF-8: the source converts them lossily.
- `send_chat_message`: a submitted letter with a fresh id is an event of `ChatRuns`.
- `BundleTransferManager::get_bundle_path`: it builds another path than the handlers use and plays no part in the protocol.
- Repository cloning and restoring from bundles, the command line, logging, the MCP and SSE servers, and formatting.
