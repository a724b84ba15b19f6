# Verified model of the crypto engine, the pairing server and their helpers

Five parts of the repository are modelled, and properties of each are proved for all inputs, all
runs or all reachable states. AES, SHA-512, HKDF, ChaCha20-Poly1305, Ed25519 and X25519 are
parameters: nothing proved depends on what they compute, except where a lemma asks for the law it
needs (decryption undoes encryption, the two sides of a key agreement meet).

**The crypto engine** (`btstack-rootless/src/btstack_crypto.c`)

- `Cmac.dfy`, `CmacMachine.dfy`: RFC 4493 as a definition; the straight-line implementation over
  byte buffers; the asynchronous machine with its eight-bit block counters.
- `Ccm.dfy`, `CcmRefinement.dfy`, `CcmChunks.dfy`: RFC 3610 for L = 2 as a definition; the
  incremental request as a machine on values, whose step is split into the block it issues and the
  result it absorbs, so that one machine serves software AES and the controller; the theorems for
  every cut of additional data and message. `CcmLimit.dfy` finds the exact limit on piece lengths.
  `CcmObject.dfy` is the request as the source has it: a struct updated in place, with input and
  output buffers that may be the same.
- `CryptoQueue.dfy`, `CryptoEngine.dfy`: the FIFO of requests, the scheduler and the controller's
  answers as a transition system with its invariant; the same as an object with the global
  variables of the source and its endless loop. `EngineCcm.dfy` puts the CCM theorems through the
  engine, `EngineRandom.dfy` follows the random bytes to the requests they belong to.

**The pairing server** (`source/carplay_pair.c`)

- `Modular.dfy`, `Srp.dfy`: the number theory and the SRP-6a server with its two key derivations.
- `Tlv.dfy`: TLV8 printing and parsing, declaratively and as the loops of the source.
- `Pairing.dfy`, `PairServer.dfy`: pair-setup and pair-verify as functions on a context value, and
  as an object whose handlers update their fields and build reply buffers.
- `PairingClient.dfy`: the peer, with hash inputs, messages, keys and nonces of its own, and the proof
  that both sides compute the same values. `Verdicts.dfy`: for every message and every context, when
  the server accepts, what it stores and answers, and with which code it refuses; stated in terms of
  the message formats and of RFC 5054, not of the server's functions.
- `PairingRuns.dfy`, `PairingOrigins.dfy`: all request sequences, an invariant, and for everything the
  server holds the request it comes from.
- `HonestRun.dfy`, `VerifyRun.dfy`: complete honest conversations. `ColdStart.dfy`: what happens
  without an M1.

**The intrusive linked list** (`btstack-rootless/src/btstack_linked_list.c`) in `LinkedList.dfy`:
nodes, `next` pointers and the iterator on the heap.

**The base64 decoder** (`btstack-rootless/src/btstack_base64_decoder.c`) in `Base64.dfy` and **the
advertising data parser** (`btstack-rootless/src/ad_parser.c`) in `AdParser.dfy`, with the
eight-bit cursors of the source.

`Bytes.dfy` and `Arithmetic.dfy` hold the shared vocabulary: bytes, blocks, exclusive or and
big-endian numbers. `dafny verify dfyconfig.toml` checks everything.

## Where the code does less than it promises

In these places a natural expectation is false of the code. The model follows the code, and the
exact condition is proved.

- The asynchronous CMAC counts blocks in eight bits (`btstack_crypto.c:141-142`): it is right for a
  size if and only if the size is at most 4080 (`CmacMachine.AsyncExactness`).
- The CCM step counts the bytes of a block in eight bits (`btstack_crypto.c:756`): piece lengths are
  safe if and only if all are below 256 (`CcmLimit.PieceLimit`).
- SRP's x is hashed over the salt without its leading zero bytes (`carplay_pair.c:175-186`), while
  the salt is sent and used in the proofs with them: server and client agree on x for every hash if
  and only if there are none (`HonestRun.SaltExactness`).
- When the proofs for both encodings of S coincide under different keys, a padded-mode client ends
  with a key the server does not hold. `HonestRun.HonestRunCompletes` states this as its exact
  exception, and `HonestRun.ClashExactness` for which secrets some hash makes it happen.
- The base64 decoder does not mask the bits it keeps, so results of single characters are right only
  modulo 256, exactly when stated by `Base64Decoder.GroupResults`; its header and comment also
  announce a COMPLETE result (`btstack_base64_decoder.h:66`) that the code never returns
  (`Base64Decoder.NeverComplete`).
- Pair-setup does not require M1 before M3. `ColdStart.ColdM3Accepted` gives an M3 that a new
  server accepts without any knowledge of the PIN, `ColdStart.ColdM3Exactness` says for every M3
  whether a server that has served no M1 accepts it, and `ColdStart.PinCountsAfterM1` that the PIN
  counts exactly from the first M1 on.
- Nor does pair-verify: without an M1 its key is all zeros. `ColdStart.ColdVerifyExactness` says which M3
  completes it then, and `ColdStart.ColdVerifyAccepted` that one sealed under zeros does.
- Pair-verify M3 does not require a valid signature: `Verdicts.VerifyM3Exactness` gives the exact
  condition, and `VerifyRun.HonestVerifyCompletes` holds for every signature.
- The base64 decoder goes on after complete padding, each further letter giving a zero byte
  (`Base64Decoder.AfterPadding`).

## Model

| member | source | states |
|---|---|---|
| `CmacSoftware.ShiftLeftByOneBitInPlace` | btstack-rootless/src/btstack_crypto.c:181-189 | A buffer of any length, read as one big-endian number, becomes twice its value modulo 256^len; bytes beyond len are untouched. |
| `CmacSoftware.ShiftStep` | btstack-rootless/src/btstack_crypto.c:184-188 | One byte position of the shift: new byte, carry out and old byte account for exactly a doubling. |
| `CmacSoftware.DoubleInto` | btstack-rootless/src/btstack_crypto.c:202-206 | Shift plus conditional 0x87 is the doubling of RFC 4493 section 2.3. |
| `CmacSoftware.CalcSubkeys` | btstack-rootless/src/btstack_crypto.c:201-212 | The two subkeys are the first and second doubling of the encrypted zero block. |
| `CmacSoftware.CalcLastBlock` | btstack-rootless/src/btstack_crypto.c:247-263 | The byte loop builds M_last: the complete block with K1, or the padded remainder with K2, also for the empty message. |
| `CmacSoftware.ChainCalc` | btstack-rootless/src/btstack_crypto.c:220-244 | The block loop leaves the RFC chaining value over all blocks but the last, for message and generator input. |
| `CmacSoftware.CmacCalc` | btstack-rootless/src/btstack_crypto.c:214-270 | The straight-line CMAC writes the RFC 4493 MAC, for every 16-bit size, message or generator input and block function. |
| `Rfc4493.ChainIsChainBlocks` | btstack-rootless/src/btstack_crypto.c:239-244 | Chaining the first n - 1 blocks one after the other is the recursive chain of the RFC. |
| `CmacMachine.EngineReadyWorks` | btstack-rootless/src/btstack_crypto.c:292-362 | The block handed to the controller keeps the working invariant, and every message block it reads is inside the message. |
| `CmacMachine.ResultWorks` | btstack-rootless/src/btstack_crypto.c:364-388 | An honest result either is the hash, or keeps the invariant with one result less to come. |
| `CmacMachine.AsyncRefinesRfc` | btstack-rootless/src/btstack_crypto.c:273-410 | The asynchronous machine ends with the RFC 4493 MAC after exactly max(1, ceil(size / 16)) + 1 results, for every size up to 4080. |
| `CmacMachine.LongMessageSkipsBlocks` | btstack-rootless/src/btstack_crypto.c:141-142 | Above 4080 bytes the eight-bit block count wraps: a concrete message, different in one byte of the first unread block, gets a hash that is not the RFC one. |
| `CmacMachine.RunJobHash` | btstack-rootless/src/btstack_crypto.c:273-410 | For every size the run of the machine ends with the chain over the blocks it counts, after one result for the subkeys and one per block counted. |
| `CmacMachine.AsyncExactness` | btstack-rootless/src/btstack_crypto.c:141-142 | The hash with which the run ends is right for all ciphers, keys and data of a given size if and only if the size is at most 4080. |
| `Rfc3610.CbcAppend` | btstack-rootless/src/btstack_crypto.c:747-777 | CBC-MAC over whole blocks can be continued from its chaining value: the law behind incremental processing. |
| `Rfc3610.CtrAppend` | btstack-rootless/src/btstack_crypto.c:720-733 | Counter mode over whole blocks can be continued at the next counter. |
| `Rfc3610.CtrInvolution` | btstack-rootless/src/btstack_crypto.c:628-649 | The same key stream recovers the message (RFC 3610 section 2.5). |
| `Rfc3610.BlockFields` | btstack-rootless/src/btstack_crypto.c:436-483 | The fields of B_0 and A_i read back: Adata, M and L in the flags, the nonce, and the length or the counter as a big-endian number. |
| `CcmMachine.IssueKeeps` | btstack-rootless/src/btstack_crypto.c:883-921 | Every scheduler step on a well-formed CCM call keeps it well formed; only a digest that does not fill a block finishes without AES, and then no work is left. |
| `CcmMachine.AbsorbKeeps` | btstack-rootless/src/btstack_crypto.c:1042-1067 | Every AES result uses up exactly one unit of work and keeps the call well formed; a result completes the call only when one unit was left, and for message calls always then. |
| `CcmMachine.AesStepsAreWork` | btstack-rootless/src/btstack_crypto.c:883-921 | A call hands exactly as many blocks to AES as its measure says, and then signals completion. |
| `CcmRefinement.MixIntoPartial` | btstack-rootless/src/btstack_crypto.c:790-798 | XORing bytes into the open block at its remainder offset is the zero-padded block of the RFC. |
| `CcmRefinement.DigestStep` | btstack-rootless/src/btstack_crypto.c:779-825 | One AAD block through AES: the chaining value is the CBC-MAC over the encoded AAD so far. |
| `CcmRefinement.DigestRun` | btstack-rootless/src/btstack_crypto.c:779-825 | A whole digest call leaves the chaining value of all AAD up to its end, with the open block partially mixed in. |
| `CcmRefinement.XnResult` | btstack-rootless/src/btstack_crypto.c:747-777 | calc_xn and its result put the chunk at the current offset into the chaining value; needs pieces below 256 bytes. |
| `CcmRefinement.SnResult` | btstack-rootless/src/btstack_crypto.c:628-649 | calc_sn and its result turn the chunk of the source into that of the target, with the counter of the RFC. |
| `CcmRefinement.MessageStep` | btstack-rootless/src/btstack_crypto.c:593-777 | One AES step of an encrypt or decrypt call keeps the invariant tying output, chaining value and counter to RFC 3610. |
| `CcmRefinement.MessageRun` | btstack-rootless/src/btstack_crypto.c:593-777 | A whole encrypt or decrypt call ends with the right output slice, counter and chaining value, and with T under S_0 when the message is complete. |
| `CcmChunks.DigestCall` | btstack-rootless/src/btstack_crypto.c:1304-1313 | A digest call on any next cut of the AAD, empty cuts included, leads from one between-calls state to the next. |
| `CcmChunks.MessageCall` | btstack-rootless/src/btstack_crypto.c:1319-1348 | The same for an encrypt or decrypt call on a message piece; its output is the matching slice of the one-shot result. |
| `CcmChunks.DigestPieces` | btstack-rootless/src/btstack_crypto.c:1304-1313 | Any series of digest calls that covers the AAD ends in the AAD-complete state. |
| `CcmChunks.MessagePieces` | btstack-rootless/src/btstack_crypto.c:1319-1348 | Any series of legal message calls produces the one-shot output and authentication value. |
| `CcmChunks.ChunkedEncryption` | btstack-rootless/src/btstack_crypto.c:593-825 | For every block function, key, nonce, AAD and non-empty message, however both are cut, ciphertext and truncated tag are those of RFC 3610 sections 2.2 to 2.4. An empty AAD is covered too. |
| `CcmChunks.DecryptionInverts` | btstack-rootless/src/btstack_crypto.c:1293-1348 | Decrypting gives the message back and leaves the same chaining value in x_i, for every block function and even when the two sides cut differently. |
| `CcmLimit.OverlookedIsWrong` | btstack-rootless/src/btstack_crypto.c:755-765 | Any piece of 256 bytes or more admits a message whose tag differs from RFC 3610: a block is mixed in short. |
| `CcmLimit.PieceLimit` | btstack-rootless/src/btstack_crypto.c:755-765 | A list of piece lengths gives the RFC result for all ciphers, keys, nonces, tag lengths and contents if and only if every length is below 256. |
| `CcmObject.CcmRequest.Init` | btstack-rootless/src/btstack_crypto.c:1293-1302 | Init sets eight fields and leaves chaining value, remainder, block length and buffers as an earlier use left them; the chunking theorems hold from any such state. |
| `CcmObject.CcmRequest.SetupB0` | btstack-rootless/src/btstack_crypto.c:471-483 | The block B_0 of RFC 3610 section 2.2 for L = 2. |
| `CcmObject.CcmRequest.SetupAi` | btstack-rootless/src/btstack_crypto.c:436-441 | The counter block A_i of RFC 3610 section 2.3. |
| `CcmObject.CcmRequest.CalcX1` | btstack-rootless/src/btstack_crypto.c:735-745 | The step for X_1 on the object is the step of the value machine. |
| `CcmObject.CcmRequest.CalcXn` | btstack-rootless/src/btstack_crypto.c:747-777 | The same for calc_xn, with the eight-bit byte count and reading either the input or the freshly written output. |
| `CcmObject.CcmRequest.CalcAadXn` | btstack-rootless/src/btstack_crypto.c:779-825 | The same for calc_aad_xn, with its byte loop. |
| `CcmObject.CcmRequest.CalcS` | btstack-rootless/src/btstack_crypto.c:705-733 | The same for calc_sn and calc_s0. |
| `CcmObject.CcmRequest.AdvanceBlock` | btstack-rootless/src/btstack_crypto.c:593-612 | next_block moves counter, pointers and lengths as the value machine does, also when input and output are one buffer. |
| `CcmObject.CcmRequest.HandleX1` | btstack-rootless/src/btstack_crypto.c:665-685 | The result handler refines the value machine. |
| `CcmObject.CcmRequest.HandleXn` | btstack-rootless/src/btstack_crypto.c:687-703 | The result handler refines the value machine. |
| `CcmObject.CcmRequest.HandleAadXn` | btstack-rootless/src/btstack_crypto.c:651-663 | The result handler refines the value machine. |
| `CcmObject.CcmRequest.HandleSn` | btstack-rootless/src/btstack_crypto.c:628-649 | The result handler refines the value machine and writes only the current chunk of the output buffer. |
| `CcmObject.CcmRequest.HandleS0` | btstack-rootless/src/btstack_crypto.c:615-625 | The result handler refines the value machine. |
| `CcmObject.CcmRequest.SubmitDigest` | btstack-rootless/src/btstack_crypto.c:1304-1313 | The object after a digest submission is the value machine after it. |
| `CcmObject.CcmRequest.SubmitMessage` | btstack-rootless/src/btstack_crypto.c:1319-1348 | The same for encrypt and decrypt submissions, possibly in place. |
| `CcmObject.CcmRequest.RunSoftware` | btstack-rootless/src/btstack_crypto.c:840-978 | Running a submitted call to completion leaves exactly the state that the chunking theorems speak about, and the output buffer holds what the call produced. |
| `CryptoQueue.StepKeeps` | btstack-rootless/src/btstack_crypto.c:827-1070 | Every submit, scheduler and controller-result step keeps the engine invariant and accounts for the results still owed. |
| `CryptoQueue.TickKeeps` | btstack-rootless/src/btstack_crypto.c:840-978 | One iteration of the scheduler loop keeps the invariant, in both modes and for all four kinds of request. |
| `CryptoQueue.RandomKeeps` | btstack-rootless/src/btstack_crypto.c:981-1017 | Random data goes to the head, which asked for it, behind the bytes it has and as far as it still wants bytes; the request completes exactly when it wants no more, and one result less is owed. |
| `CryptoQueue.EncryptedKeeps` | btstack-rootless/src/btstack_crypto.c:1020-1070 | An encryption result goes to the request that issued it, in the byte order that request expects. |
| `CryptoQueue.OwedBalance` | btstack-rootless/src/btstack_crypto.c:827-1070 | Conservation: results owed plus results received equal what all submissions need. |
| `CryptoQueue.EngineSafety` | btstack-rootless/src/btstack_crypto.c:827-1070 | Over every run from idle: requests complete in submission order and once, AES, CMAC and CCM outputs are right and random requests filled to their size, at most one command is outstanding, CMAC globals are busy only with a CMAC request at the head, and the results still owed complete everything. |
| `EngineRandom.RandomSafety` | btstack-rootless/src/btstack_crypto.c:981-1017 | Over every run from idle: a completed random request holds exactly the first size bytes of the random data that arrived while it was at the head, in order, and these shares together are all the data that arrived. |
| `EngineRandom.HistoryAccounts` | btstack-rootless/src/btstack_crypto.c:981-1017 | The history of shares loses, repeats and reorders no byte of the data that arrived. |
| `CryptoQueue.ModesAgree` | btstack-rootless/src/btstack_crypto.c:840-978 | For the same submissions and any two schedules, AES in software and AES in the controller complete a request with the same outputs: every AES and CCM request, and every CMAC request of at most 4080 bytes. Random numbers are excluded, they come from the controller either way. |
| `CryptoQueue.TickProgress` | btstack-rootless/src/btstack_crypto.c:840-978 | Each iteration of the endless loop uses up effort, or the next one returns. |
| `CryptoQueue.NeverStuck` | btstack-rootless/src/btstack_crypto.c:840-978 | While requests are queued either the scheduler can iterate or an answer is outstanding. |
| `CryptoQueue.Drains` | btstack-rootless/src/btstack_crypto.c:827-1070 | From every reachable state, some run without submissions completes all requests. |
| `CryptoQueue.RunsAreShort` | btstack-rootless/src/btstack_crypto.c:840-978 | Every run without submissions, under any schedule, is at most as long as twice the results owed plus the remaining scheduler effort and one. |
| `CryptoQueue.MaximalRunsDrain` | btstack-rootless/src/btstack_crypto.c:840-978 | Every run without submissions that cannot be continued has completed all requests. |
| `CryptoEngine.BtstackCrypto.Dispatch` | btstack-rootless/src/btstack_crypto.c:857-976 | The switch on the head request, on the mutable globals, is one step of the queue model. |
| `CryptoEngine.BtstackCrypto.CmacEngineReady` | btstack-rootless/src/btstack_crypto.c:292-362 | The block computed from byte buffers is the one the CMAC machine asks for. |
| `CryptoEngine.BtstackCrypto.Run` | btstack-rootless/src/btstack_crypto.c:827-979 | The endless loop terminates; it is a finite run of iterations and stops only for one of the four reasons the code checks. |
| `CryptoEngine.BtstackCrypto.SubmitRequest` | btstack-rootless/src/btstack_crypto.c:1179-1222 | A submission appends to the queue and runs the scheduler; a request still in the queue, with the fields it was submitted with, is not appended again. |
| `CryptoEngine.BtstackCrypto.HandleRandomData` | btstack-rootless/src/btstack_crypto.c:981-1017 | On the mutable globals it is RandomData of the queue model, whose effect CryptoQueue.RandomKeeps spells out byte by byte. |
| `CryptoEngine.BtstackCrypto.HandleEncryptionResult` | btstack-rootless/src/btstack_crypto.c:1020-1070 | Refines the queue model. |
| `CryptoEngine.BtstackCrypto.CommandComplete` | btstack-rootless/src/btstack_crypto.c:1094-1106 | Without a result awaited a command-complete event changes nothing; otherwise it clears the wait flag, feeds the head and runs the scheduler, and the invariant is kept with one result less owed. |
| `EngineCcm.SeriesRuns` | btstack-rootless/src/btstack_crypto.c:1304-1348 | Calls of one CCM request, each submitted as the one before left the request, run in the engine as if they were alone. |
| `EngineCcm.EngineMeetsRfc` | btstack-rootless/src/btstack_crypto.c:827-1348 | For every run of the engine in either mode, among any other requests: calls that cover the additional data and then the message give the ciphertext, or the plaintext, and the tag of RFC 3610. |
| `LinkedList.List.Empty` | btstack-rootless/src/btstack_linked_list.c:52-54 | True exactly for the empty sequence. |
| `LinkedList.List.GetFirstItem` | btstack-rootless/src/btstack_linked_list.c:126-128 | The first item, or null. |
| `LinkedList.List.GetLastItem` | btstack-rootless/src/btstack_linked_list.c:59-68 | The last item, or null. |
| `LinkedList.List.Add` | btstack-rootless/src/btstack_linked_list.c:74-85 | Prepends an item that is not in the list, refuses one that is, and keeps the list acyclic and duplicate free. |
| `LinkedList.List.AddTail` | btstack-rootless/src/btstack_linked_list.c:88-98 | The same at the end. |
| `LinkedList.List.Remove` | btstack-rootless/src/btstack_linked_list.c:101-111 | Removes exactly the given item, wherever it is; false when it is absent. |
| `LinkedList.List.Count` | btstack-rootless/src/btstack_linked_list.c:116-123 | The length of the sequence. |
| `LinkedList.List.Pop` | btstack-rootless/src/btstack_linked_list.c:131-140 | Removes and returns the first item, or null. |
| `LinkedList.Iterator.HasNext` | btstack-rootless/src/btstack_linked_list.c:149-160 | True exactly when an unvisited item is left, also right after the current item was removed from the list directly. |
| `LinkedList.Iterator.Next` | btstack-rootless/src/btstack_linked_list.c:162-175 | Returns the next item in order, after a normal step and after a removal. |
| `LinkedList.Iterator.Remove` | btstack-rootless/src/btstack_linked_list.c:177-184 | Removes the item returned last, and the cursor stays in front of its successor. |
| `LinkedList.Visit` | btstack-rootless/src/btstack_linked_list.c:149-184 | One round of a sweep: the next item is visited, then kept, removed through the iterator or removed from the list. |
| `LinkedList.Sweep` | btstack-rootless/src/btstack_linked_list.c:143-184 | For every choice of removals of current items, each original item is visited exactly once in order, and exactly the kept ones remain in order. |
| `Base64Decoder.GroupResults` | btstack-rootless/src/btstack_base64_decoder.c:98-121 | The results of a group of four characters are the bytes modulo 256; the second and third are exact if and only if the bits kept from the character before are zero. |
| `Base64Decoder.DecodeInvertsEncode` | btstack-rootless/src/btstack_base64_decoder.c:126-148 | Decoding inverts RFC 4648 section 4, padded or not, for every byte string; a buffer that is too small gives FULL. |
| `Base64Decoder.NeverComplete` | btstack-rootless/src/btstack_base64_decoder.c:60-124 | No character in any context gives COMPLETE: results are MORE, INVALID or a value. |
| `Base64Decoder.TableMeans` | btstack-rootless/src/btstack_base64_decoder.c:62-91 | The table gives every letter its value in the RFC alphabet and marks exactly the other characters as invalid. |
| `Base64Decoder.InvalidCharacter` | btstack-rootless/src/btstack_base64_decoder.c:60-148 | The first character that is no letter ends the decoding with INVALID, unless it is a padding in third or fourth place. |
| `Base64Decoder.InvalidExactness` | btstack-rootless/src/btstack_base64_decoder.c:60-148 | Without padding characters, and with room for the results, the result is INVALID if and only if some character is not in the alphabet. |
| `Base64Decoder.AfterPadding` | btstack-rootless/src/btstack_base64_decoder.c:60-148 | Behind complete padding the decoder does not stop: every further letter gives a zero byte. |
| `Base64Decoder.Decoder.Process` | btstack-rootless/src/btstack_base64_decoder.c:60-124 | The context after a character and its result are those of the value model. |
| `Base64Decoder.ProcessBlock` | btstack-rootless/src/btstack_base64_decoder.c:126-148 | Length and bytes, INVALID or FULL as the value model decodes, and no byte beyond the limit is written. |
| `AdStructure.ChunksOfPrint` | btstack-rootless/src/ad_parser.c:58-99 | The declarative parse returns exactly the chunks that were printed, whatever unparsable bytes follow. |
| `AdStructure.PrintOfChunks` | btstack-rootless/src/ad_parser.c:58-99 | Every input is the printing of its parse followed by bytes that hold no chunk. |
| `AdParser.AdContext.HasMore` | btstack-rootless/src/ad_parser.c:64-82 | True exactly when the declarative parse of the rest is not empty. |
| `AdParser.AdContext.Next` | btstack-rootless/src/ad_parser.c:84-87 | Moves to the rest of the parse; the eight-bit offset strictly grows and does not wrap. |
| `AdParser.AdContext.GetDataLen` | btstack-rootless/src/ad_parser.c:89-91 | The payload length of the current chunk. |
| `AdParser.AdContext.GetDataType` | btstack-rootless/src/ad_parser.c:93-95 | The type of the current chunk. |
| `AdParser.AdContext.GetData` | btstack-rootless/src/ad_parser.c:97-99 | The payload of the current chunk. |
| `AdParser.Search16` | btstack-rootless/src/ad_parser.c:109-116 | The inner 16-bit search finds the UUID if and only if an aligned two-byte entry, read least significant byte first, is that number. |
| `AdParser.Search128` | btstack-rootless/src/ad_parser.c:117-131 | The inner 128-bit search finds it if and only if an aligned 16-byte entry, read least significant byte first, is the number 0000xxxx-0000-1000-8000-00805F9B34FB. |
| `AdStructure.LongUuidMeans` | btstack-rootless/src/ad_parser.c:124-125 | The 128-bit form of a short UUID u is the number u * 2^96 + 0x1000800000805F9B34FB, most significant byte first. |
| `AdParser.ContainsUuid16` | btstack-rootless/src/ad_parser.c:101-138 | True exactly when some chunk of the declarative parse lists the UUID: as a number of two bytes in a 16-bit list, or of sixteen bytes in a 128-bit list, read least significant byte first. |
| `Srp.SaltVerifierMeans` | source/carplay_pair.c:361-400 | Read back as numbers, the padded salt is the one drawn and the verifier is g^x for the x of the password, without leading zeros. |
| `Srp.CreateBSucceeds` | source/carplay_pair.c:421-428 | B exists if and only if the generator can be padded to the length of N. |
| `Srp.Group3072` | source/carplay_pair.c:82-106 | The server's own group: its generator fits and no power of it is 0 modulo N. |
| `Srp.SrpVerifier.CheckProof` | source/carplay_pair.c:540-565 | The object after a check is the value model after it: fields, mode and server proof. |
| `Srp.ClientBase` | source/carplay_pair.c:425-428 | Removing k g^x from B leaves the server ephemeral, modulo N. |
| `Srp.ServerBase` | source/carplay_pair.c:478-481 | The server base A v^u is g^(a + u x), modulo N. |
| `Srp.SecretsAgree` | source/carplay_pair.c:478-481 | The premaster secrets of both sides are equal for every modulus above 1, base and exponents (RFC 5054 section 2.6). |
| `Srp.RecomputedB` | source/carplay_pair.c:469-472 | The B recomputed when the proof arrives is the B sent before. |
| `Srp.SecretNotZero` | source/carplay_pair.c:464-521 | For a prime N that does not divide g and any accepted A, the secret is never 0, so the minimal key derivation never hashes the empty string. |
| `Srp.ServerExchange` | source/carplay_pair.c:464-521 | Whenever the exchange is accepted, A, B and S fit the length of N, so every left-pad offset is in bounds. |
| `Srp.ProofModeConsistency` | source/carplay_pair.c:501-565 | On acceptance the stored key, both proofs and the proof received come from one encoding of S; padded mode needs an S shorter than N; on rejection nothing changes. |
| `Modular.Euclid` | source/carplay_pair.c:464-481 | Euclid's lemma, the arithmetic behind the non-zero secret. |
| `TlvFormat.ParseMeaning` | source/carplay_pair.c:596-627 | For every byte string the parse is its complete records with adjacent equal types joined, cut to sixteen items. |
| `TlvFormat.ParseOfBuild` | source/carplay_pair.c:596-688 | Parsing what was built gives the items with adjacent equal types joined, cut to sixteen, for any items of any lengths. |
| `TlvFormat.RoundTrip` | source/carplay_pair.c:596-688 | The identity for at most sixteen items without equal neighbours. |
| `TlvFormat.Canonicalisation` | source/carplay_pair.c:596-688 | For every byte string b, parse(build(parse(b))) = parse(b), in normal form. |
| `TlvFormat.RecordsAccount` | source/carplay_pair.c:600-604 | A byte string is exactly its records followed by something that is not one. |
| `TlvFormat.AcceptedPrefix` | source/carplay_pair.c:596-627 | The parse carries exactly the payload of the longest prefix of records that fits sixteen items. |
| `TlvFormat.PrintedRecords` | source/carplay_pair.c:646-688 | The wire format of a value: records of type, length byte and bytes, full ones of 255 bytes and a last one that is empty only when it is alone, carrying the value in order. |
| `TlvFormat.FindMeans` | source/carplay_pair.c:629-633 | Find gives the first item of a type, and nothing exactly when there is none. |
| `TlvCodec.TlvParse` | source/carplay_pair.c:596-627 | The parsing loop computes the declarative parse. |
| `TlvCodec.TlvFind` | source/carplay_pair.c:629-633 | The first item of a type. |
| `TlvCodec.ItemSize` | source/carplay_pair.c:649-660 | The sizing loop computes the length of the item as printed. |
| `TlvCodec.WriteItem` | source/carplay_pair.c:666-683 | The writing loop appends exactly the records of the item. |
| `TlvCodec.TlvBuild` | source/carplay_pair.c:646-688 | The buffer allocated for the computed size is filled exactly, with the declarative print of the items. |
| `Pairing.SetupReplies` | source/carplay_pair.c:982-1345 | For every body: no reply and no change, or a reply that re-parses to State + 1 mod 256, leaves the state alone when it carries an Error and otherwise moves it to the replied State; pair-verify fields are untouched. |
| `Pairing.VerifyReplies` | source/carplay_pair.c:1369-1696 | The same for pair-verify; pair-setup fields are untouched. |
| `Verdicts.StateMeans` | source/carplay_pair.c:1315-1322 | The State of a request is the one byte of its first State item. |
| `Verdicts.OtherSetupRequests` | source/carplay_pair.c:1303-1345 | pair-setup without a one-byte State: no reply, nothing changes; with a State other than 1, 3, 5: Error 1 under the next State, nothing changes. |
| `Verdicts.OtherVerifyRequests` | source/carplay_pair.c:1658-1696 | The same for pair-verify and States other than 1 and 3. |
| `Verdicts.M1Exactness` | source/carplay_pair.c:991-1047 | For every context: what M1 stores (salt as drawn, ephemeral, g^x for the PIN, no session key, no client key), what it answers (salt and B = k v + g^b), and Error 1 if and only if the generator does not fit. |
| `Verdicts.ExchangeMeets` | source/carplay_pair.c:464-481 | The server exchange is RFC 5054 without intermediate reductions: B = (k v + g^b) mod N, S = (A v^u)^b mod N, with k and u as the client hashes them; it is refused exactly for a bad A or generator. |
| `Verdicts.M3Exactness` | source/carplay_pair.c:1050-1118 | For every context and State 3 body: accepted if and only if A and a 64-byte proof are there, A is not 0 modulo N and not longer than N, and the proof is that of a client with the minimal or the padded S; then the key and the answer are those of the encoding proven, otherwise Error 2 and nothing changes. |
| `Verdicts.M5Exactness` | source/carplay_pair.c:1120-1300 | For every context and State 5 body: only a body that opens, to something, under the key derived from the session key held changes anything; the client key learned is the first 32 bytes of its PublicKey; setup_state 6 and the sealed M6 with its signature follow if and only if a client key is then known and the cipher works, otherwise Error 2 or 1. |
| `Verdicts.VerifyM1Exactness` | source/carplay_pair.c:1369-1528 | For every context and State 1 body: what is stored on each path, when M2 is sent and what it says, and code 2 exactly when the peer key is missing, mis-sized or unusable, code 1 for every other failure. |
| `Verdicts.VerifyM3Exactness` | source/carplay_pair.c:1531-1640 | For every context and State 3 body: State 4 without an Error, and verify_state 4, if and only if the EncryptedData opens under the key of pair-verify to an Identifier and a Signature of 64 bytes; otherwise Error 2 and nothing changes. |
| `PairingClient.ProofsMeet` | source/carplay_pair.c:269-328 | The keys and proofs of the server, for either encoding of S, are those of a client with its own hash inputs: padded A before padded B, salt as sent, H(N) xor H(g), H(I). |
| `PairingRuns.ServeMeets` | source/carplay_pair.c:991-1696 | Five kinds of request change the context, each as stated; every other request leaves all of it alone. |
| `PairingRuns.ServeKeeps` | source/carplay_pair.c:995-1345 | One request of either kind keeps the invariant of the pairing context. |
| `PairingRuns.RunKeeps` | source/carplay_pair.c:995-1345 | Over every sequence of requests, in any group: setup_state in {0,2,4,6}, verify_state in {0,2,4}, a session key held exactly in 4 and 6, a client key whenever in 6, and never without a session key. |
| `PairingRuns.Origin` | source/carplay_pair.c:991-1696 | Any part of the context is, after any run, as it was or what the last request that put anything there has put there. |
| `PairingOrigins.SessionKeyOrigin` | source/carplay_pair.c:1050-1118 | A session key is held exactly when an M3 that proved one had no M1 after it, and it is the key of the last such M3. |
| `PairingOrigins.ClientKeyOrigin` | source/carplay_pair.c:1120-1218 | A client key is known exactly when an M5 that opened under the session key and carried one had no M1 after it, and it is that of the last such M5. |
| `PairingOrigins.OfferedOrigin` | source/carplay_pair.c:991-1047 | Salt, ephemeral and verifier in use are those of the last M1, the verifier made from the PIN. |
| `PairingOrigins.SetupStateOrigin` | source/carplay_pair.c:991-1300 | setup_state is 2, 4 or 6 exactly as the last success of pair-setup was an M1, an M3 that proved a key, or an M5 that finished. |
| `PairingOrigins.VerifyStateOrigin` | source/carplay_pair.c:1369-1640 | verify_state is 2 or 4 exactly as the last success of pair-verify was an M1 or an M3. |
| `PairingOrigins.VerifyKeyOrigin` | source/carplay_pair.c:1482-1494 | The key of pair-verify is derived from the secret of the last M1 that got as far as its signature. |
| `PairingOrigins.PairedOrigin` | source/carplay_pair.c:880-1300 | From creation, setup_state is 6 if and only if an M5 that opened under the session key finished the pairing and no state was entered since; the session key of that M5 is still held. |
| `PairingOrigins.VerifiedOrigin` | source/carplay_pair.c:880-1640 | From creation, verify_state is 4 if and only if an M3 that opened under the key of pair-verify was served and no M1 was answered with M2 since. |
| `PairingOrigins.PinKept` | source/carplay_pair.c:880-890 | No request changes the PIN or the long-term keys. |
| `PairServer.PairContext.constructor` | source/carplay_pair.c:880-890 | A new context has both states 0 and neither a session key nor a client key, and the first fifteen characters of the PIN given, or 3939. |
| `PairServer.PairContext.HandleSetupM1` | source/carplay_pair.c:991-1047 | The object and the reply after M1 are those of the value model, on every path. |
| `PairServer.PairContext.HandleSetupM3` | source/carplay_pair.c:1050-1118 | The same for M3, through the verifier object. |
| `PairServer.PairContext.HandleSetupM5` | source/carplay_pair.c:1120-1300 | The same for M5. |
| `PairServer.PairContext.SetupRequest` | source/carplay_pair.c:1303-1345 | The dispatcher: null exactly when the body has no one-byte State, otherwise the reply and state of the value model. |
| `PairServer.PairContext.HandleVerifyM1` | source/carplay_pair.c:1369-1528 | The same for pair-verify M1, including what stays stored when key generation, the import of a key, or encryption fails. |
| `PairServer.PairContext.HandleVerifyM3` | source/carplay_pair.c:1531-1640 | The same for pair-verify M3; the signature check does not influence it. |
| `PairServer.PairContext.VerifyRequest` | source/carplay_pair.c:1658-1696 | The pair-verify dispatcher. |
| `HonestRun.SaltExactness` | source/carplay_pair.c:175-204 | The server's x is the client's for every hash if and only if the salt has no leading zero byte, because H_ns strips them. |
| `HonestRun.ExchangesMeet` | source/carplay_pair.c:464-481 | The A, B and S of the server are those the client computes with formulas of its own, for any a, any b and any group. |
| `HonestRun.M2Arrives` | source/carplay_pair.c:991-1047 | Through the TLV codec the client reads back exactly the salt and B of the server. |
| `HonestRun.M3Arrives` | source/carplay_pair.c:1050-1118 | The M3 of the client reads back as its A and proof; when it proves a key, that key is installed and the answer reaches the client as the proof in M4. |
| `HonestRun.M5Arrives` | source/carplay_pair.c:1120-1300 | With equal keys, M5 teaches the server the client's long-term key, and the client reads identifier, long-term key and signature of the server out of M6. |
| `HonestRun.VerdictMeets` | source/carplay_pair.c:1085-1102 | The client's proof is accepted unless A is 0, with the minimal encoding of S tried first. |
| `HonestRun.ClashExactness` | source/carplay_pair.c:501-521 | The exception of the honest run is possible, for some hash, if and only if the client pads and S is shorter than N. |
| `HonestRun.HonestRunCompletes` | source/carplay_pair.c:991-1300 | From any server state and in any group, an RFC 5054 client with the right PIN, with minimal or padded KDF, reaches setup_state 6 with the same 64-byte session key on both sides, if and only if its proof does not coincide with that of the other encoding under a different key; it gives up exactly for B = 0 or u = 0, and is refused for A = 0. |
| `HonestRun.HonestRunAfterAnyHistory` | source/carplay_pair.c:880-1300 | The same after any history of requests, for a PIN of at most fifteen characters or the default one. |
| `HonestRun.HonestRunOnServer` | source/carplay_pair.c:880-1300 | In the 3072-bit group of the server A is never 0, so the run settles whenever the client accepts M2. |
| `ColdStart.ColdM3Accepted` | source/carplay_pair.c:1050-1118 | A new server that gets M3 first, with any A but 0 and a proof computed from public values, enters state 4 with the hash of the byte 1 as session key. |
| `ColdStart.ColdM3Exactness` | source/carplay_pair.c:1050-1118 | After any history without an M1, whatever the PIN, exactly which M3 is accepted and what it yields: A not 0 modulo N and no longer than N, and one of two proofs that do not depend on the PIN. |
| `ColdStart.PinCountsAfterM1` | source/carplay_pair.c:991-1118 | The server checks against a verifier made from its PIN if and only if it has served an M1, and it is that of the last one. |
| `ColdStart.ColdVerifyExactness` | source/carplay_pair.c:1531-1640 | After any history without a pair-verify M1, an M3 is accepted if and only if it opens under 32 zero bytes to an identifier and a 64-byte signature. |
| `ColdStart.ColdVerifyAccepted` | source/carplay_pair.c:1531-1640 | A new server that gets such an M3 first enters verify_state 4. |
| `VerifyRun.HonestVerifyCompletes` | source/carplay_pair.c:1369-1640 | From any state and for every client signature, an honest pair-verify ends in verify_state 4 if and only if the server can load its signing key; then there is one shared secret, pair-setup is untouched, and the client has read the server's identifier and signature over both ephemeral keys. |

## Left out

- P-256 key generation and Diffie-Hellman requests of the engine: foreign arithmetic, and the queue discipline is the one shown for the other requests.
- `btstack_crypto_reset`, requests submitted from inside a callback, and HCI power-state handling: callbacks of the model only record completion.
- The requests in the engine's queue are values in `CryptoEngine`; `CcmObject` shows a CCM request updated in place, and `LinkedList` the queue's pointer structure. That the output buffers of different queued requests do not overlap is thereby assumed.
- CCM calls outside its contract: a digest when no additional data was announced or all of it has been given, empty message pieces, more bytes than announced, pieces other than the last that are not whole blocks. An announced length of additional data of 0xff00 and more needs another encoding in RFC 3610, which the code does not have.
- Primality of the 3072-bit group: `Srp.SecretNotZero` takes a prime N as hypothesis; nothing else needs it.
- Memory: allocation never fails, and OpenSSL's big numbers are natural numbers. Their byte lengths, minimal or left-padded, are modelled.
- Failures of foreign primitives whose result the code does not look at, such as an X25519 derivation refused for a degenerate peer key.
- The outcome of the Ed25519 check in pair-verify M3: it is computed, printed and then ignored by the code, so it does not occur in the model.
- `pair_derive_control_keys`, `pair_derive_event_keys`, `pair_derive_stream_key`: one HKDF call each behind a test of verify_state.
- The branches for OpenSSL before 1.1.1, AES-GCM and `derive_verify_key`: no caller or another build.
- `ad_data_contains_uuid128`: on 16-bit lists it compares byte orders that do not match the 16-bit search.
- Malformed base64 with padding in the middle: the model decodes it as the code does, but the theorems speak about encodings, about inputs without padding, and about the first character that cannot stand where it does.
- `btstack_linked_queue.c`, the event getters, logging, printing and the device file for random seeds.
- CryptoEngine.BtstackCrypto.SubmitRequest: a request that is still in the queue is not submitted again with other fields, because the source would overwrite the request it is working on before the queue refuses it.
- PairServer.PairContext.HandleVerifyM1: the X25519 derivation yields a secret for every imported key, because the code does not look at its result.
