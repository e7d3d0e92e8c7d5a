# Verification of the CESS scheduler

A Dafny model of the scheduler's hard parts, with proofs. `dafny verify dfyconfig.toml` checks all of it.

## What is modelled

**Proof of data possession** (`pkg/proof`). `Possession` is the RSA-style verifier over the integers modulo N:
when it answers, what it accepts, and that honest answers are accepted. `ForkJoin` is its goroutines multiplying
into one accumulator, with load and store as separate steps. `Pairing` is the signer and the prover over a
bilinear group, with a group element written as its exponent, so that bilinearity is computed and not assumed.
`ParallelSign` is the signer's goroutines filling an array. `Splitter` cuts files into blocks on shared slices
(`GoSlices`), and `Challenge` samples distinct indices. The prover that answers for an RSA key is a separate
service; it is modelled with the formulas of the prover in the repository, over Z_N. A key is a pair (N, E) with
a d such that (x^d)^E = x modulo N for all x (sections 3 and 5.2 of RFC 8017).

**File transfer** (`node/handler.go`, `node/transfer.go`, `node/msg.go`). `Framing` is the two loops that write
and read framed messages on a stream that may be cut anywhere and delivers in pieces of any size. `Handler` is the
message loop, for both ends. `Transfer` is the protocol: the sending goroutine, both handlers and a connection
that breaks at any time, in any interleaving; `ByteTransfer` is the same over two streams of bytes. `SendFile` is the
end of a client's connection, where its loops are waited for, against any peer, and `HonestPeer` the number of messages
a peer sends that keeps to the protocol. `Buffers` is the pools of send and tag buffers all connections share, and
`ReadBuffers` the pool of buffers for reading, which has buffers and users of its own.

**Scheduling** (`node/sub_*.go`, the rest of `node/handler.go`, `pkg/chain`). `WorkLock` is the work lock, the chain
lock and the tag mailbox under every interleaving of tag requests, filler sends, file backups and proof rounds, with
loops of submissions that go on until one ends them. `FillerPipeline` is filler production and consumption,
`ProofTask` the judging, batching and submitting of proofs, `Backup` the placing of file chunks and the recorded
state, and `Supervisor` the restarting of tasks. `ChainClient` is submissions and file look-ups with the connection
they check and renew, by one caller at a time; `ChainLink` is that connection under concurrent callers.

**Codecs and generators** (`pkg/utils`). `Ss58` is the addresses, with Base58 as a change of base (`Numerals`), and
`Filler` the random text and the filler files.

Goroutines that interleave are step systems: a state, the steps enabled in it, and `Exec`, which runs any list of
steps. Theorems about them hold after every such list. Calls into the network, the chain and other services are taken
to return, with a result or a panic; what the repository's own code then does, or waits for, is modelled. Code that runs on its own is methods and classes, proved
against specification functions. Whatever comes from outside (network, disk, chain, clock, random numbers) is a
parameter: a list of answers, or a free choice at each step. JSON, base64, SHA-256, blake2b, hashing to the group
and signatures are functions about which only the stated facts are known.

## Where the code falls short of its intent

Each of these is a lemma or part of a contract, with the exact condition under which the code does what it should.

- If the health check of a call fails and so does the new connection, the client is left without one. From then on the
  check panics inside, recovers, and reports success, so no call makes a new connection and every call that gets to
  use it panics (`ChainClient.Client.IsChainClientOk`, `ChainClient.ApiLastsExactly`, `ChainClient.CallsPanicExactly`,
  `ChainLink.LostStays`). Under concurrent calls one can panic although no connection is ever lost for good
  (`ChainLink.PanicWithoutOutage`).
- So one outage under the submission of a full batch panics the validating goroutine while it holds the work lock
  (`ProofTask.OutageStopsRound`, `ProofTask.Task.Round`), one under a filler's submission wedges the space task
  (`FillerPipeline.OutageWedges`), and one under a file's submission ends its backup with the file still recorded as
  pending (`Backup.OutageEndsBackup`).
- A complete proof with an empty challenge panics the validating goroutine with the work lock held as well. Nobody gets
  the lock again after that (`WorkLock.LostForEver`). A proof with fewer hashes than challenged blocks ends the whole
  process (`Possession.VerifyProof`, `ForkJoin.MissingHashNeverJoins`).
- A panic while a chunk is being sent to a miner leaves the work lock locked too; `Backup.KeepsLockExactly` says when.
  Sending on the connection's channel after its loop has closed it is such a panic.
- SendFile need not return, though nothing panics and the connection is closed: it waits for the reading loop, which may
  be waiting for room among the ten messages received and not taken. A miner that sends eleven messages after the last
  one that is taken has this effect (`SendFile.StopThenEleven`, `SendFile.SettledExactly`, `SendFile.HungForEver`); one
  that keeps to the protocol never sends enough (`HonestPeer.HonestNeverHangs`). SendFile is called with the work lock
  held, so the lock is lost (`Backup.KeepsLockExactly`, `WorkLock.JobClean`), or the space task is wedged
  (`FillerPipeline.Pipeline.StorageFiller`).
- `WorkLock.LostExactly` brings together the ways in which the work lock is lost: such a panic or hanging SendFile, a
  proof that panics, and a submission that panics under the lock.
- An honest proof whose aggregate is the residue zero is judged false, because zero is encoded as no bytes
  (`ProofTask.HonestProof`). A proof whose challenge lists differ in length is judged true without being verified
  (`ProofTask.JudgedTrueExactly`, `ProofTask.TrueMeansVerified`).
- If the subscription delivers a nil error, a submission returns neither hash nor error. Proof results are then sent
  again without limit (`ProofTask.SilenceNeverEnds`), and a file is recorded as active without having been seen in a
  block (`Backup.SilenceActivates`).
- A submission can return a hash together with an error (`ChainClient.SubmittedMeans`). The filler loop looks at
  the hash only, so a filler's files go although its extrinsic failed, exactly if the error says so
  (`FillerPipeline.HashMeans`, `FillerPipeline.RemovedDespiteFailure`).
- The second byte of the Cess address prefix is not compared, so each key has 255 further accepted addresses
  (`Ss58.CessAliases`); an accepted address is the encoding of its key exactly if it carries the whole prefix
  (`Ss58.CanonicalExactly`).
- A status value with the capacity of a send or tag buffer but a shorter length ends up in that buffer pool and can
  spoil a later message (`Buffers.UntidyStatusBreaks`); without such values none is spoilt (`Buffers.EncodedAsSent`).
- A received file message keeps the recycled buffer it was to be decoded into if it has no `bytes` field, or spells it
  as a list of numbers, which is decoded in place: old contents of the buffer are written to the file wherever the list
  has no number, beyond its end for example (`ReadBuffers.OldBytesWritten`). `ReadBuffers.StaleExactly` says for which
  frames the bytes written do not depend on old contents. The program's own messages carry the field as text.
- Such a list also leaves the buffer with the list's length, and with that it goes back to the pool. A writing loop that
  gets it then sends frames that end in old contents, or panics. `ReadBuffers.LengthsKeptExactly` says after which frames
  all buffers have full length and all frames sent are right.
- The end message that sendFile builds carries no signature bytes. The receiver panics after it has acknowledged the
  last file, and in no run does it start a backup (`Transfer.NoBackupStarts`); `Handler.BackupStartsExactly` says when
  it would.
- Files sent under one base name overwrite each other (`Transfer.AllFilesArriveExactly`).
- If the goroutine that offers a filler panics or hangs, the space task waits for its answer for ever, and the
  supervisor does not notice (`FillerPipeline.WedgedForEver`).
- A tag callback that finds the mailbox full can be left waiting until a further tag arrives
  (`WorkLock.CallbackStrands`, `WorkLock.StrandedForEver`).
- A chunk can be recorded as stored exactly if it is not empty and its name comes to 68 characters in steps of four
  (`Backup.RecordableExactly`). The backup of a file with any other chunk never gets past it
  (`Backup.NeverPast`, `Backup.PlaceableExactly`).
- A challenge for zero blocks is never finished (`Challenge.EmptyFileNeverChallenged`).

## Model

| member | source | states |
|---|---|---|
| Possession.VerifyProof | pkg/proof/verifyProof.go:25-91 | For every scheduling of the goroutines: process crash iff a hash is missing, panic iff the challenge is empty, otherwise the verdict on the product of all powers |
| Possession.CheckMeans | pkg/proof/verifyProof.go:78-90 | The verdict is the congruence of the unreduced product of H(m_i)^v_i times u^mu with sigma^E |
| Possession.SequentialVerdict | pkg/proof/verifyProof.go:29-51 | The unreduced shared accumulator gives the verdict of a sequential loop that reduces at every step |
| Possession.RootsAreUnique | pkg/proof/verifyProof.go:90 | E-th powers are inverted by d-th powers, so the right-hand side of the check determines sigma modulo N |
| Possession.AcceptedExactly | pkg/proof/verifyProof.go:78-90 | Exactly one residue is accepted as sigma for given hashes, challenge and mu: the d-th power of the left-hand side |
| Possession.HonestAggregate | pkg/proof/genProof.go:56-71 | The product of honest block signatures to the powers v_i is the d-th power of the product of hashes times u^mu |
| Possession.Completeness | pkg/proof/verifyProof.go:25-91 | Honest answers to every in-range challenge, with repeats, are accepted for every key and every list of blocks |
| Possession.AlteredMu | pkg/proof/verifyProof.go:78-90 | An honest sigma with another mu is accepted iff both sums give the same left-hand side |
| ForkJoin.InvAlways | pkg/proof/verifyProof.go:29-51 | In every schedule the accumulator is the product over the goroutines that have stored, one goroutine at most holds the mutex, and the WaitGroup counts those not done |
| ForkJoin.NoDeadlock | pkg/proof/verifyProof.go:29-51 | Until wg.Wait returns or the process crashes some step is possible |
| ForkJoin.EveryScheduleJoins | pkg/proof/verifyProof.go:29-51 | With a hash for every challenge every maximal schedule has the same length, ends with wg.Wait returned, and leaves the product of all powers |
| ForkJoin.MissingHashNeverJoins | pkg/proof/verifyProof.go:34-36 | With a hash missing no schedule gets past wg.Wait |
| Pairing.GroupLaws | pkg/proof/sigGen.go:120-128 | The operations are an abelian group's, a power is a repeated product, the pairing is bilinear |
| Pairing.SigGen | pkg/proof/sigGen.go:50-117 | Marshalling and Merkle errors with what the response then holds; otherwise tag and root signatures and the first n block signatures, or a crash if there are fewer blocks |
| Pairing.SignAll | pkg/proof/sigGen.go:101-112 | Any order of the goroutines gives the same Phi |
| Pairing.GenProof | pkg/proof/genProof.go:28-81 | Errors in order, the tag check, then mu, sigma and hashes for the whole challenge, or a panic iff an index is out of range |
| Pairing.TagAcceptedExactly | pkg/proof/genProof.go:44-54 | With public key g^ssk the tag check accepts exactly the signature SigGen makes |
| Pairing.VerifiesExactly | pkg/proof/genProof.go:56-71 | The verification equation holds for exactly one sigma |
| Pairing.HonestAggregate | pkg/proof/genProof.go:56-71 | Sigma of honest block signatures is the signature of the product of hashes times u^mu |
| Pairing.SignedThenProved | pkg/proof/sigGen.go:81-128 | What SigGen signs passes GenProof's tag check, and the aggregate satisfies e(sigma, g) = e(prod H^v * u^mu, pk), for every matrix and every in-range challenge |
| ParallelSign.SignInvAlways | pkg/proof/sigGen.go:101-112 | In every schedule tokens sent equal slots completed, and every slot is empty or holds its own block's signature |
| ParallelSign.SendNeverBlocks | pkg/proof/sigGen.go:103-109 | A goroutine with a token to send always finds room in the channel |
| ParallelSign.EveryScheduleSigns | pkg/proof/sigGen.go:101-115 | Every maximal schedule answers, with every slot equal to its block's signature |
| Splitter.SplitV2 | pkg/proof/genProof.go:83-112 | On the file's own backing array, with in-place padding: the blocks show the specified split, none is altered by the append, and the file's bytes stay |
| Splitter.SplitShape | pkg/proof/genProof.go:89-98 | ceil(size/sep) blocks of length sep if sep is at most the size, otherwise the file itself unpadded |
| Splitter.JoinSplit | pkg/proof/genProof.go:83-112 | Joining the blocks gives the file followed by fewer than sep zeros |
| GoSlices.Append | pkg/proof/genProof.go:107 | append writes in place iff the capacity suffices, and touches nothing else |
| Challenge.ChalGen | pkg/proof/chalGen.go:28-57 | Returns iff there are enough distinct draws, with the first positive length and the distinct draws in order of appearance |
| Challenge.FirstPositiveIsDraw | pkg/proof/chalGen.go:33-38 | The length is the first draw that is positive, and there is none iff all draws are zero |
| Challenge.Redraw | pkg/proof/chalGen.go:43-53 | The inner loop stops at the first unused draw and skips only used ones |
| Challenge.ChallengeIsSample | pkg/proof/chalGen.go:28-57 | 1 to N elements with pairwise distinct indices in [0, N) |
| Challenge.RedrawCanSucceed | pkg/proof/chalGen.go:43-53 | By pigeonhole an unused index is always left, and drawing it makes the next pick |
| Challenge.EmptyFileNeverChallenged | pkg/proof/chalGen.go:33-38 | For N = 0 the first loop never ends |
| Framing.Sender.SendOne | node/transfer.go:73-97 | One message in the reused buffer: the frame reaches the wire, or the part the connection takes, or nothing and a panic if it does not fit |
| Framing.Sender.SendAll | node/transfer.go:61-102 | The wire holds the frames of the messages up to the first that does not fit, cut where the connection broke |
| Framing.Conn.ReadFull | node/transfer.go:124 | n bytes under any short reads, or end of stream and which kind |
| Framing.Conn.ReadBody | node/transfer.go:144-167 | Length, data and decoding agree with the parse of the stream |
| Framing.Conn.ReadMsg | node/transfer.go:104-174 | In either mode the messages delivered are the parse of the stream, or a prefix if this side closes, for all short reads |
| Framing.ParseExactly | node/transfer.go:121-172 | A message is read off a stream iff it begins with a whole frame of either magic, within a buffer's length, that can be decoded |
| Framing.Uint32IsBigEndian | node/transfer.go:153 | The length is the big-endian number of its four bytes |
| Framing.Uint32RoundTrip | node/transfer.go:89-92 | The length field round-trips for all 32-bit lengths |
| Framing.ParseOneFrame | node/transfer.go:121-172 | A whole frame in front of any stream is read as its message |
| Framing.CutStream | node/transfer.go:121-172 | A stream cut after any number of bytes gives exactly the messages whose frames are complete |
| Framing.FramingRoundTrip | node/transfer.go:61-174 | An uncut stream gives the whole list, also if the first magic was consumed by the connection filter |
| Framing.DeliveredInOrder | node/transfer.go:61-174 | Sender, wire and reader together deliver a prefix in order, and all if all fit and the connection holds |
| Handler.StoredIsReceived | node/handler.go:107-244 | For any messages in any order, while the handler runs and has a file open, the file holds exactly the bytes announced by the chunks since its head |
| Handler.EndAnsweredExactly | node/handler.go:183-199 | The end is answered yes iff a file is open and the chunks since its head come to the announced size |
| Transfer.HeadAnswered | node/handler.go:117-151 | To a head, either the file is open and empty and the answer is yes, or the handler stops with a no, or, on a panic of the look-up, without an answer |
| Handler.DiskFrame | node/handler.go:117-181 | Only the file named by a head and the open file change, the one to empty, the other by at most the announced bytes, and by all of them if the handler goes on |
| Handler.StopsExactly | node/handler.go:107-244 | The handler stops exactly at a close or a message of another type, an empty notification, and the failures of head, chunk and end |
| Handler.RepliesExactly | node/handler.go:116-242 | What each message is answered, and with which fields: the cached status and a yes, the version, yes or no with the file's name, or nothing |
| Handler.HandsOnExactly | node/handler.go:212-242 | A notification is handed on as yes or no, into a slot that never holds two, and changes nothing else; a close changes only that the handler stops |
| Handler.NothingAfterStop | node/handler.go:220-242 | In a session no message after a close, or another at which the handler stops by its type, changes anything or is answered |
| Handler.ConMgr.Run | node/handler.go:106-246 | The loop sends the replies and ends in the state of the whole session, which is the state after its messages if the handler gets through them all |
| Handler.BackupStartsExactly | node/handler.go:183-210 | A backup starts iff the message ends a last file that is open and of the announced size, and brings eight signature bytes |
| Transfer.InvAlways | node/handler.go:248-353 | In every run the receiver's file with the chunks under way is a prefix of the source, and answers match the file being sent |
| Transfer.ChunkStored | node/handler.go:172 | Handling a chunk moves its bytes from the connection to the end of the stored file |
| Transfer.EndAnswered | node/handler.go:189-200 | The end is answered yes only if the stored file is complete |
| Transfer.TransferSafety | node/handler.go:248-353 | In every run, if sendFile returns no error, the receiver has under each name exactly the bytes of the last file listed under it |
| Transfer.AllFilesArriveExactly | node/handler.go:265-284 | Then every listed file is at the receiver iff files with one base name have the same contents |
| Transfer.SomeRunSucceeds | node/handler.go:248-353 | For every list of files some run succeeds |
| Transfer.JobMessages | node/msg.go:107-155 | Head, chunk and end carry the file's name, id and size, the bytes read, the last mark, and the caller's key, text and signature |
| Transfer.ReceiverStops | node/handler.go:287 | In every run, once sendFile has returned, a close is on its way or the receiver has stopped, unless the connection was cut |
| Transfer.NoBackupStarts | node/msg.go:142-155 | In no run does the receiver start a backup of what sendFile sends |
| ByteTransfer.FirstOfParse | node/transfer.go:121-172 | Taking messages off a stream one by one is what the reading loop does |
| ByteTransfer.CutCarries | node/transfer.go:121-172 | A stream cut after any byte carries the messages whose frames are complete, and part of one frame at most |
| ByteTransfer.RunMatches | node/transfer.go:61-174 | Every run over byte streams is matched by a run over messages |
| ByteTransfer.ByteSafety | node/handler.go:248-353 | Transfer safety with cuts after any byte and messages that may not fit |
| ByteTransfer.SomeByteRunSucceeds | node/transfer.go:61-174 | For every list of files and every codec with which heads, ends, one-byte chunks and answers fit, some byte run succeeds |
| ByteTransfer.ByteFilesArriveExactly | node/handler.go:265-284 | All listed files arrive over bytes iff files with one base name have the same contents |
| SendFile.SettledExactly | node/handler.go:74-87 | In every run that has come to rest the handler has taken its last message; SendFile returns iff at most ten messages were read after it, and hangs iff it was eleven |
| SendFile.OverForEver | node/handler.go:106-213 | Once the handler has left, or waits to hand on a second untaken notification with sendFile gone, it takes no message any more |
| SendFile.HungForEver | node/transfer.go:172 | A reading loop that waits for room after that waits for ever, also when the connection is closed |
| SendFile.HangsExactly | node/transfer.go:121-173 | From there SendFile can hang iff the reading loop is still there and more than ten messages have come or, before the close, may come |
| SendFile.CanHangExactly | node/transfer.go:104-174 | Some schedule makes SendFile hang iff the peer sends more than ten messages |
| SendFile.NotYetStuck | node/handler.go:213 | While sendFile runs, taking a notification lets the handler hand on the next |
| SendFile.TwoUntoldThenEleven | node/handler.go:213 | Two notifications after sendFile has gone, and eleven more messages, can make it hang with the handler at the second |
| SendFile.StopThenEleven | node/handler.go:220-242 | A message at which the handler stops, followed by eleven more, can make it hang |
| HonestPeer.FewReplies | node/handler.go:116-228 | In every run of the transfer the receiver sends at most two messages for each file and one more |
| HonestPeer.HonestNeverHangs | node/handler.go:74-87 | A peer that sends no more than that makes SendFile hang in no schedule, for up to four files |
| Buffers.SingleOwner | node/transfer.go:73-87 | In every run each send or tag buffer has at most one owner among the two pools, messages, builders and file readers |
| Buffers.EncodedAsSent | node/msg.go:122-140 | With tidy status values, what is encoded shows, in the announced length, the bytes handed over in order, whatever the recycled buffers held |
| Buffers.FaithfulAlways | node/handler.go:316-330 | In every run with tidy status values each queued message's buffer still shows the bytes handed over, and each reader's the chunk last read |
| Buffers.UntidyStatusBreaks | node/msg.go:172-185 | Every status value with a pool's capacity but another length can lead to a message shorter than announced, for both pools |
| ReadBuffers.SingleOwner | node/transfer.go:104-172 | In every run each read buffer has at most one owner among the pool, the loops of the connections and the messages received |
| ReadBuffers.OwnBytesWritten | node/handler.go:165-181 | In every run what is written for a frame is what its own field makes of its first buffer, and follows from the frame alone if it meets the condition of StaleExactly |
| ReadBuffers.OwnText | node/transfer.go:164-170 | For a field that is text it is the text's bytes, padded with zeros up to the announced size |
| ReadBuffers.StaleExactly | node/transfer.go:164-170 | What is written for a frame is independent of the recycled buffer iff the field occurs as text, null or empty list, or lists have a number for every announced byte, or more is announced than a buffer holds |
| ReadBuffers.KeptShows | node/transfer.go:164-170 | A kept buffer shows its old byte exactly where no list has a number, and has the last list's length |
| ReadBuffers.OldBytesWritten | node/handler.go:172-181 | For any bytes one connection read and any frame that keeps its buffer, a run in which another connection writes them wherever the frame has no number |
| ReadBuffers.LengthsKeptExactly | node/transfer.go:62-97 | In every run that receives frames like this one all pooled buffers have full length, and all frames sent are right, iff it has no such list or announces too much to be put back |
| ReadBuffers.EmittedExactly | node/transfer.go:91-94 | The writing loop sends a message's frame, whatever its buffer held, iff the buffer's length covers it |
| ChainClient.Client.IsChainClientOk | pkg/chain/client.go:127-164 | False iff a live connection fails its check and is not renewed; a missing one passes the check and stays missing |
| ChainClient.Client.Submit | pkg/chain/transaction.go:173-300 | Panics iff there is no connection on entry (and the call could be built); otherwise one broadcast, or at most 20 more with the next nonce if the priority was too low; the lock is released on every path |
| ChainClient.ApiLastsExactly | pkg/chain/client.go:127-138 | After any calls there is a connection iff there was one and none of them met an outage |
| ChainClient.CallsPanicExactly | pkg/chain/transaction.go:415-453 | Submission j of a sequence panics iff the connection was missing from the start or an earlier one met an outage |
| ChainClient.CallsAt | pkg/chain/client.go:127-138 | Submission j of a sequence is made over the connection that the earlier ones left |
| ChainClient.LookFindsExactly | node/utils.go:28-43 | Looking up a file gives the state the first try shows that finds it, and none iff no try finds it and none panics |
| ChainClient.LookPanicsExactly | node/utils.go:28-43 | Looking up a file panics iff some try meets a missing connection before one finds it |
| ChainLink.AloneAsSequential | pkg/chain/client.go:127-164 | The steps of a call that nobody disturbs leave the connection, and the call, as the sequential check does |
| ChainLink.LostStays | pkg/chain/client.go:127-164 | With concurrent callers: once there is no connection and nobody renewing it, every call passes the check, none renews, and each use panics |
| ChainLink.LossNeedsOutage | pkg/chain/client.go:127-138 | A connection is lost for good only if making a new one failed |
| ChainLink.PanicWithoutOutage | pkg/chain/client.go:127-138 | A run in which a call panics between another's dropping and renewing the connection |
| ChainClient.Watch | pkg/chain/transaction.go:269-298 | The result is decided by the first event that is not a status outside a block |
| ChainClient.SubmittedMeans | pkg/chain/transaction.go:415-507 | Silent iff a nil error ended the subscription; a hash iff in a block, and then that block's, with an error iff the extrinsic failed there |
| ProofTask.GenerateChallengeFromChain | pkg/proof/chalGen.go:79-93 | Block numbers less one with their random numbers, or an error iff the lists differ in length |
| ProofTask.ChallengeExactly | pkg/proof/chalGen.go:79-93 | The challenge pairs each block number, less one, with the random number in the same place, and is determined by that |
| ProofTask.VerifyOne | node/sub_verifyProofs.go:98-144 | The result carries the proof's miner, file and shard, and its verdict on every path that answers |
| ProofTask.OutcomeExactly | node/sub_verifyProofs.go:98-144 | Which proofs answer, panic in the validating goroutine, or end the process, by their own fields |
| ProofTask.JudgedTrueExactly | node/sub_verifyProofs.go:98-144 | Judged true iff complete and either the lists differ in length, or there is a challenge, enough hashes and an accepting verdict |
| ProofTask.TrueMeansVerified | node/sub_verifyProofs.go:98-144 | Judged true with lists of one length, the verification equation holds |
| ProofTask.HonestProof | node/sub_verifyProofs.go:98-144 | An honest proof is judged true iff its signature is not the residue zero |
| ProofTask.BatchesPartition | node/sub_verifyProofs.go:74-93 | The batches concatenate to the results; ceil(n/40) of them, all but the last with 40, the last with 1 to 40 |
| ProofTask.ResultsAt | node/sub_verifyProofs.go:84-86 | Result i names the miner, file and shard of proof i, and is true iff proof i is judged true |
| ProofTask.Task.Round | node/sub_verifyProofs.go:73-93 | The lock is released iff every proof answers and every batch but the last is submitted to the end; the round finishes iff the last is too; otherwise which full batches were handed on, and how it stopped |
| ProofTask.Task.VerifyAll | node/sub_verifyProofs.go:76-87 | The loop under the lock: it comes to its end iff every proof answers and every full batch is submitted, and then leaves the last batch |
| ProofTask.SubmitRetries | node/sub_verifyProofs.go:146-171 | Stops at the first hash, third error or panic, and not before |
| ProofTask.SendingExactly | node/sub_verifyProofs.go:146-171 | Submitting a batch ends, dies or goes on, each exactly when |
| ProofTask.DiesExactly | node/sub_verifyProofs.go:146-171 | It dies iff, before a hash or a third error, a submission follows one that met an outage |
| ProofTask.OutageStopsRound | node/sub_verifyProofs.go:76-87 | With more than 40 proofs, one outage under the first batch keeps the round from its end, whatever the proofs |
| ProofTask.AtMostThreeSends | node/sub_verifyProofs.go:146-171 | At most three sends if no submission is silent |
| ProofTask.SilenceNeverEnds | node/sub_verifyProofs.go:146-171 | Silent submissions are repeated without end |
| Backup.BackupFile | node/handler.go:441-588 | The record, the error and the state of the lock for every path through the miners, or that the call does not return |
| Backup.KeepsLockExactly | node/handler.go:498-553 | The call returns with the lock locked iff it gets to a miner to which sending panics, and does not return iff to one to which it hangs, past miners that are passed over, refuse, or take a chunk whose name is still too short |
| Backup.PlacingHangsExactly | node/handler.go:389-406 | Placing hangs iff some call is made, for the chunk whose turn it is, that gets to a miner to which sending hangs |
| Backup.SearchEnd | node/handler.go:498-588 | What a call returns is decided by the first miner at which its loop ends: a panic, hanging, or the record of that miner, with an error iff its number is zero; an error if there is none |
| Backup.FailsExactly | node/handler.go:441-588 | A call returns an error iff the chunk or the tag or the signature is missing, or its loop ends at no miner, or at one with number zero |
| Backup.RecordIsVouched | node/handler.go:498-588 | A record names a miner that was sent the chunk and whose cached space held it, the chunk's size, block count, and its name filled up with ".000" |
| Backup.BlockNumIsCount | node/handler.go:591-607 | A chunk has one block below 1 KiB, exactly sixteen up to 4 GiB |
| Backup.RecordableExactly | node/handler.go:441-588 | A chunk can be recorded iff it is not empty and its name comes to 68 characters in steps of four |
| Backup.NeverPast | node/handler.go:391-400 | However many attempts are made, placing never gets past a chunk with another name or one always found empty |
| Backup.PlaceableExactly | node/handler.go:391-406 | All chunks of a file can be placed iff all their names can be filled up |
| Backup.Node.FileBackupManagement | node/handler.go:356-437 | Statuses cached are exactly the placed prefixes; at most four submissions, only of complete vouched metadata; active, failed, over by a panic with the status still pending, or hanging, each exactly when |
| Backup.Node.PlaceAll | node/handler.go:389-406 | Chunk after chunk, one cached status each, with the account of its record |
| Backup.Node.SubmitAll | node/handler.go:409-432 | Submissions up to the first success, an active file on chain, the fourth failure, or the first panic |
| Backup.EndIsUnique | node/handler.go:409-432 | For given answers exactly one end and one number of submissions is possible |
| Backup.OutageEndsBackup | node/handler.go:409-425 | One outage under the first submission ends the backup by a panic |
| Backup.ActiveMeans | node/handler.go:409-436 | Recorded as active: confirmed in a block, or seen active, or the last submission was silent |
| Backup.SilenceActivates | node/handler.go:409-436 | A nil subscription error is enough to be recorded as active |
| WorkLock.JobClean | node/sub_filler.go:155-170 | Every path of tag requests, filler sends, backups and proof rounds unlocks only what it holds, and, submissions apart, gives the lock back iff its inputs lead to no panic that skips the unlock and no SendFile that hangs |
| WorkLock.PlacingClean | node/handler.go:498-553 | A call of backupFile gives the lock back iff it does not get to a miner to which sending panics or hangs |
| WorkLock.NeverOverlap | node/param.go:61-71 | In every interleaving at most one goroutine holds each lock, a locked lock has a holder, and a goroutine in a tag request, a sending or a proof check holds the work lock, so that no two ever are |
| WorkLock.TagRequestDoes | node/sub_filler.go:148-175 | A tag request takes the lock once, makes one call, and then waits if it got through |
| WorkLock.FillerDoes | node/sub_space.go:131-182 | A filler is sent once under the lock; only then, and only if it was sent, its loop of submissions runs, under the lock with the unlock deferred |
| WorkLock.PlacingDoes | node/handler.go:465-553 | A call of backupFile asks for a missing tag first; after that the lock is taken, and a call made, once for each miner contacted |
| WorkLock.BackUpDoes | node/handler.go:389-410 | A backup submits outside the lock, once all is placed |
| WorkLock.RoundDoes | node/sub_verifyProofs.go:74-91 | A round takes the lock once, judges up to the first proof that panics, submits the full batches under the lock and the last outside |
| WorkLock.RoundInStep | node/sub_verifyProofs.go:76-86 | A full batch is submitted right before the next proof is judged, and no later |
| WorkLock.UnlocksAreSafe | pkg/chain/transaction.go:308-309 | Unlocks meet a lock held by the same goroutine, and no lock is requested under the chain lock |
| WorkLock.StuckExactly | node/sub_space.go:131-182 | The only deadlock: all that is left waits for the work lock, whose holder is gone, or waits for it too, or hangs in SendFile |
| WorkLock.NoDeadlock | node/sub_verifyProofs.go:75-88 | Unless an input makes a job panic or hang with the lock, or a submission panics under it, no reachable state is deadlocked, and all can finish with both locks free once submissions end their loops |
| WorkLock.HeldUntilEnded | node/sub_space.go:166-182 | Until a submission ends its loop or panics, the goroutine keeps the lock and nobody gets past a request for it, however often it submits |
| WorkLock.FillerReleases | node/sub_space.go:131-135 | Once a filler's loop is ended, by a submission or by a panic, one more step releases the lock |
| WorkLock.LockPanicLoses | node/sub_verifyProofs.go:76-88 | A panic of a submission under the lock in a proof round loses the lock |
| WorkLock.ConnectedNeverPanics | pkg/chain/client.go:127-138 | In runs in which the connection never goes away no submission panics |
| WorkLock.LostExactly | node/sub_verifyProofs.go:75-88 | When nothing can go on, the lock is lost iff some job's inputs make it panic or hang with it or a submission panicked in the run; otherwise all are done and it is free |
| WorkLock.LostForEver | node/sub_verifyProofs.go:75-88 | Once lost, no goroutine ever gets past a request for it |
| WorkLock.TagsAccounted | node/route.go:90-95 | In every run each tag that arrived was taken, was thrown away, or is in the mailbox or with a callback |
| WorkLock.StrandedForEver | node/route.go:90-95 | Callbacks that would empty an empty mailbox wait in every run until a further tag arrives |
| WorkLock.CallbackStrands | node/route.go:90-95 | A run that ends with all goroutines done and a callback waiting so |
| FillerPipeline.Conservation | node/sub_filler.go:66-98 | In every run each filler produced is in exactly one place, in order; one miner per filler; success at most once, as its last submission; files removed only after it; at most five queued |
| FillerPipeline.NoLeftovers | node/sub_filler.go:80-85 | In every run a file on disk is of a filler being made or produced, or of one whose tag request panicked, and those stay; a refused tag leaves none |
| FillerPipeline.LostExactly | node/sub_space.go:53-82 | Fillers are lost only as often as the space task dies with one in its hand |
| FillerPipeline.NeverBlocked | node/sub_filler.go:94 | The producer's send always finds room |
| FillerPipeline.WedgedForEver | node/sub_space.go:84-89 | After a panic of the offering goroutine, or once it hangs, nothing is submitted again and production stops |
| FillerPipeline.Pipeline.StorageFiller | node/sub_space.go:84-183 | The answer for every path, that the task is wedged iff the offer panics or hangs or a submission panics, and the whole state after a delivery: failed submissions, then one success, then the files gone |
| FillerPipeline.Pipeline.SubmitUntilHash | node/sub_space.go:167-181 | Submits up to the first non-empty hash, or the first panic |
| FillerPipeline.HashMeans | node/sub_space.go:168-179 | The hash that makes the files go says the extrinsic is in a block, and comes with an error iff it failed there |
| FillerPipeline.RemovedDespiteFailure | node/sub_space.go:168-179 | A filler whose extrinsic failed in a block is delivered and its files go |
| FillerPipeline.OutageWedges | node/sub_space.go:168-173 | One outage under a filler's submission, and the next one panics |
| FillerPipeline.Pipeline.ServeMiners | node/sub_space.go:67-79 | A round over the miners loses no filler and gives each to one of them |
| Supervisor.ExactlyOneLife | node/sub_main.go:22-49 | Over every sequence of ends and restarts each task has one body or one restart token |
| Supervisor.SendNeverBlocks | node/sub_space.go:38-43 | The deferred send on the one-slot channel never blocks |
| Supervisor.RestartsMatchEnds | node/sub_main.go:36-49 | One start for each end, none lost or doubled |
| Supervisor.ComesBack | node/sub_main.go:36-49 | From any moment each task runs again within four steps |
| Ss58.EncodePublicKey | pkg/utils/ss58_transform.go:66-94 | Both encoders: the address, or an error iff the key has not 32 bytes; the prefix globals stay as they are |
| Ss58.VerityAddress | pkg/utils/ss58_transform.go:103-126 | Accepts iff length, first prefix byte and checksum are right; the prefix globals stay as they are |
| Ss58.DecodePublicKey | pkg/utils/ss58_transform.go:33-55 | Both decoders: the key iff the address is accepted |
| Ss58.AcceptedExactly | pkg/utils/ss58_transform.go:103-126 | An address is accepted iff it decodes to a prefix of the right length and first byte, 32 key bytes, and the first two bytes of the digest of SS58PRE, the network's prefix and the key; that key is what is decoded |
| Ss58.AddressParts | pkg/utils/ss58_transform.go:66-94 | An encoded key decodes to prefix, key and those two bytes |
| Ss58.EncodesNumber | pkg/utils/ss58_transform.go:76 | Base58 text stands for the same number as the bytes, with a 1 for each leading zero |
| Ss58.RoundTrip | pkg/utils/ss58_transform.go:33-94 | Decoding an encoded key gives the key, for any prefix |
| Ss58.NetworksAreDisjoint | pkg/utils/ss58_transform.go:103-111 | No address is accepted by both networks |
| Ss58.CanonicalExactly | pkg/utils/ss58_transform.go:103-126 | An accepted address is its key's encoding iff it carries the whole prefix |
| Ss58.SubstrateCanonical | pkg/utils/ss58_transform.go:45-55 | For the one-byte prefix every accepted address re-encodes to itself |
| Ss58.CessAliases | pkg/utils/ss58_transform.go:108-110 | For every key and wrong second byte there is another accepted address |
| Ss58.DecodeEncode | pkg/utils/ss58_transform.go:47-49 | Base58 decoding inverts encoding on all byte strings |
| Ss58.EncodeDecode | pkg/utils/ss58_transform.go:76 | Base58 encoding inverts decoding on all text over the alphabet |
| Numerals.SetBytesIsBigEndian | pkg/proof/verifyProof.go:35-37 | A byte string stands for its big-endian number, leading zeros included: the value of a concatenation by powers of 256 |
| Numerals.BytesExactly | pkg/proof/verifyProof.go:78-90 | The bytes of a number are the one string for it without a leading zero |
| Numerals.ConvertRoundTrip | pkg/utils/ss58_transform.go:76 | Change of base and back is the identity, leading zeros included |
| Filler.RandStr | pkg/utils/randomX.go:53-70 | n characters, the k-th being base-64 digit k mod 10 of draw k div 10 |
| Filler.WriteRows | node/sub_filler.go:265-281 | The file holds what each write stored of its row |
| Filler.NewlinesAt | node/sub_filler.go:271-274 | With complete writes newlines stand at exactly the positions congruent to 4095 modulo 4096, and every other character is the letter its row's own source gives |
| Filler.SizeCheckExact | node/sub_filler.go:119-131 | The 8 MiB check passes iff every row was written completely |
| Filler.Disk.GenerateFiller | node/sub_filler.go:101-146 | On success exactly one new file under its own hash; on every failure the disk is as before |

## Left out

- Substrate RPC, extrinsic encoding and event decoding: only their outcomes appear, in `ChainClient`.
- HTTP requests to the SGX service, gin routes, console, configuration, logging and LevelDB.
- The Reed-Solomon codec in `pkg/erasure`, which the node does not call.
- Encodings of group elements and scalars as bytes, and scalars negative or above the group order: library code.
- The RSA prover itself is not part of this repository; `Possession` uses the same formulas over Z_N.
- VerifyProof with a key whose modulus is zero: a stored key has a positive modulus.
- Sizes, block counts and lengths are natural numbers: a block size of zero or below panics or loops in `SplitV2`, and is not modelled.
- Wall-clock time: tickers, sleeps and timers are steps that may happen whenever the code waits.
- Close and IsClose of a connection: closing is a step that may happen at any moment; that the stop channel is closed once is not stated.
- A send on the closed channel of a connection: in `Transfer` a run in which the sending goroutine panics simply does not return.
- The receiver in `Transfer` starts behind the connection filter, because the sender writes the magic c101 and the filter admits only c100.
- In `ReadBuffers` other messages than file messages only put a kept buffer back. That a notification without the field is read from the recycled buffer's first byte is not stated.
- `ReadBuffers`: a slice of a message's own never has just the capacity by which pooled buffers are recognised, because all of it is decoded from a frame of at most that many bytes.
- `Framing.Sender` has a buffer of full length; when pooled buffers have it is stated in `ReadBuffers`, not in `Framing`.
- SendFile: that both loops are running, and counted, before they are waited for is taken for granted; sendFile sleeps for seconds before it returns.
- Matching of tag replies to requests: the mailbox carries no request identity, so nothing is claimed about which request a tag answers.
- Names of fillers: two fillers with the same hash do not occur in `FillerPipeline`, and the loop that finds a free temporary name is a parameter of `Filler`.
- The miner's IP address in a block record, the cached miner list itself, and the blacklist.
- Register and Update of the chain client take the same lock in the same way as the other submissions and are not modelled separately.
- BackupFile: what happens to a later call on a lock kept by an earlier one is stated in `WorkLock`, not in the sequential model.
- Queries other than file look-ups use the connection in the same way. Asking for the miners may panic in `Backup` and ends the space task in `FillerPipeline`; asking for the proofs comes before the lock is taken.
- Submit: another caller's dropping the connection during the call is in `ChainLink`, not in the sequential model; callers in `ProofTask`, `Backup` and `FillerPipeline` take any mixture of results and panics.
- Miner cache refresh, `GetFileState`, `RandSlice`, `GetRandomcode`, `PubBytesToString`: small or easy members.
