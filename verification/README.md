# Streaming checksums and a framed request/response protocol

This project models two parts of the NTF networking library in Dafny and proves properties of
them for every input, every run and every reachable state.

**Checksums** (`groups/ntc/ntca/ntca_checksum`). Three incremental digests (Adler-32, CRC-32 and a
16-byte-block accumulator in the style of xxHash) and the tagged union over them. Each is an
object with an in-place `UpdateBytes` and an `UpdateBlob` over segmented buffers, proved against a
function of the bytes fed. About those functions the project proves that chunking never matters,
closed forms, algebraic laws, and which changes of the input are detected.

**The example protocol** (`examples/m_ntcu10`). Framed messages, a resumable parser driven by a read
queue low watermark, a client multiplexing requests by transaction id, a server answering in place,
and the lifecycle bookkeeping of `Client` and `Server`. The parser, the endpoints and a connection of
two endpoints through a network are objects; the protocol and the lifecycles are state machines whose
steps may interleave in any order. Every operation on the objects of a connection is proved to be a
run of protocol steps.

| file | content |
|---|---|
| `Bytes.dfy`, `Errors.dfy` | bytes, blobs, error codes |
| `Adler32.dfy` | Adler-32 |
| `ShiftRegister.dfy`, `Words.dfy`, `Crc32.dfy` | linear-feedback registers over GF(2), words as bits, CRC-32 |
| `WordValues.dfy` | words as integers: what wrap-around arithmetic, shifts, rotations and exclusive-or do to values |
| `XxHash32.dfy`, `XxHashNumbers.dfy` | the 16-byte-block checksum, and the same checksum on integers modulo 2^32 |
| `Checksum.dfy` | the union, suspend and resume |
| `Wire.dfy`, `Parser.dfy` | frames, the pure parser and the parser object |
| `Protocol.dfy` | the two-party state machine |
| `Endpoints.dfy`, `Connection.dfy` | the socket objects, and their connection as a run of the protocol |
| `Lingering.dfy`, `ClientLifecycle.dfy`, `ServerLifecycle.dfy` | connection bookkeeping |

Where the program and its documentation disagree the model follows the program:

- The block checksum is documented as XXHASH-32, but its inner loop runs once with offset 0, so all
  four lanes read the first word of each block. `XxHash32.BlockTailsIgnored` states the consequence:
  bytes 4 to 15 of every complete block never influence the digest. `XxHash32.BlockDetectedIff` states
  exactly which changes of one block reach the accumulators, `XxHash32.DigestIffBlend` exactly when
  changes inside complete blocks reach the digest, `XxHash32.BlendCollision` exhibits one that does
  not, and `XxHash32.TailDetected` states that single changes after the last block always do.
- The union's segmented update reports success on an undefined union although its flat update
  reports an error (`Checksum.Checksum.UpdateBlob`).
- `send` converts the payload size to a 32-bit `int`; `Wire.FrameDelivered` states that a payload is
  delivered intact exactly when it is shorter than 2^31 bytes.
- A refused socket send leaves its callback in the catalog: the `failed` calls of
  `Protocol.PendingPartition`.
- The server discards the result of sending a response, and a socket whose write queue has reached its
  high watermark refuses it. Such responses are lost: the `dropped` calls of
  `Protocol.PendingPartition`. `Protocol.QuietComplete` states that exactly the requests not dropped
  are answered, and `Protocol.DroppedExample` exhibits a run with an unanswered request.
- `Server::processStreamSocketEstablished` indexes the pending map with `[]`, which revives the entry
  of a closed acceptor with an empty function, and then calls that function, which throws.
  `ServerLifecycle.ThrowsIffLate` states exactly which runs throw, `ServerLifecycle.LateStreamExample`
  exhibits one, and `ServerLifecycle.DrainedIffAllClosed` states when the maps of a run are empty.
- `Client::linger` does not wait for pending connections; `ClientLifecycle.LingerFinalIffNonePending`
  states exactly when its return is final, and `ClientLifecycle.PendingOutlivesLinger` exhibits a run in
  which it is not.

Library calls become small contracts: receiving with equal minimum and maximum removes exactly that
many bytes or none, 32-bit integers travel as big-endian two's complement, a socket send appends its
blob atomically or refuses it, and the catalog returns an id it does not hold. Each region under a mutex is one
step. `hide` statements in proofs only leave function definitions out of a proof that does not need
them.

## Model

| member | source | states |
|---|---|---|
| Adler32.ChunkIndependent | groups/ntc/ntca/ntca_checksum.cpp:90-107 | any series of updates gives the digest of one update over the concatenation, from every start digest |
| Adler32.ClosedForm | groups/ntc/ntca/ntca_checksum.cpp:95-104 | from any start the two sums are the byte sum and the position-weighted sum, less multiples of 65521 |
| Adler32.DigestClosedForm | groups/ntc/ntca/ntca_checksum.cpp:90-107 | the digest equals the definition in section 2.2 of RFC 1950: 1 + sum in the low half and length + weighted sum in the high half, modulo 65521 |
| Adler32.KnownDigest | groups/ntc/ntca/ntca_checksum.cpp:90-107 | the digest of "abc" is 0x024D0127 |
| Adler32.CombineLaw | groups/ntc/ntca/ntca_checksum.cpp:90-107 | the digest of a concatenation follows from the two digests and the second length |
| Adler32.SubstitutionDetected | groups/ntc/ntca/ntca_checksum.cpp:98-104 | every single-byte substitution changes the digest, in streams of any length and from every start |
| Adler32.SwapDetected | groups/ntc/ntca/ntca_checksum.cpp:98-104 | swapping two bytes leaves the digest unchanged if and only if they are equal or their distance is a multiple of 65521 |
| Adler32.EuclidSmall | groups/ntc/ntca/ntca_checksum.cpp:100-101 | the modulus 65521 divides a product with a factor below 256 only through the other factor |
| Adler32.ChecksumAdler32.UpdateBytes | groups/ntc/ntca/ntca_checksum.cpp:90-107 | the loop computes the digest of the bytes with no 32-bit overflow |
| Adler32.ChecksumAdler32.UpdateBlob | groups/ntc/ntca/ntca_checksum.cpp:114-159 | a segmented update equals one flat update over the first min(size, length) bytes |
| ShiftRegister.Window | groups/ntc/ntca/ntca_checksum.cpp:245-254 | up to 32 bits added to the register at once and then shifted equal feeding them bit by bit |
| ShiftRegister.AbsorbXor | groups/ntc/ntca/ntca_checksum.cpp:245-254 | the register is linear over GF(2) in its content and its input |
| ShiftRegister.StepsInjective | groups/ntc/ntca/ntca_checksum.cpp:247-254 | shifting is a bijection of the register |
| ShiftRegister.Burst | groups/ntc/ntca/ntca_checksum.cpp:242-255 | bit streams that differ only inside 32 consecutive bits leave different registers |
| Words.BitsXor | groups/ntc/ntca/ntca_checksum.cpp:245-249 | exclusive-or of words is exclusive-or of their bits |
| Words.BitsInjective | groups/ntc/ntca/ntca_checksum.cpp:319-322 | a digest word is determined by its bits |
| Words.EncodeBits | groups/ntc/ntca/ntca_checksum.cpp:886-887 | the bytes a digest is copied to carry exactly its bits, in order |
| Crc32.ChunkIndependent | groups/ntc/ntca/ntca_checksum.cpp:235-260 | any series of updates gives the digest of one update over the concatenation, from every start digest |
| Crc32.FoldBits | groups/ntc/ntca/ntca_checksum.cpp:242-255 | the byte-wise loop equals absorbing the stream's bits one at a time, least significant first |
| Crc32.TableForm | groups/ntc/ntca/ntca_checksum.cpp:240-257 | the bitwise loop computes what the table-driven loop of section 8 of RFC 1952 computes, on every stream and start digest |
| Crc32.Affine | groups/ntc/ntca/ntca_checksum.cpp:240-257 | the digests of three equally long streams add up to the digest of their bytewise sum |
| Crc32.BurstDetected | groups/ntc/ntca/ntca_checksum.cpp:240-257 | streams that differ only inside 32 consecutive bits, at any alignment, have equal digests only if they are equal |
| Crc32.FourByteBurst | groups/ntc/ntca/ntca_checksum.cpp:240-257 | any change confined to four consecutive bytes changes the digest |
| Crc32.Residue | groups/ntc/ntca/ntca_checksum.cpp:235-260 | appending four bytes gives the digest 0x2144DF1C if and only if they are the little-endian digest of the stream |
| Crc32.KnownDigest | groups/ntc/ntca/ntca_checksum.cpp:235-260 | the digest of "a" is 0xE8B7BE43 |
| Crc32.AbsorbWord | groups/ntc/ntca/ntca_checksum.cpp:243-254 | the inner loop on words performs the eight shifts of the register |
| Crc32.ChecksumCrc32.UpdateBytes | groups/ntc/ntca/ntca_checksum.cpp:235-260 | the object's digest advances by the bytes fed |
| Crc32.ChecksumCrc32.UpdateBlob | groups/ntc/ntca/ntca_checksum.cpp:267-312 | a segmented update equals one flat update over the first min(size, length) bytes |
| Bytes.Blob.PrefixEndsInBuffer | groups/ntc/ntca/ntca_checksum.cpp:140-155 | stopping inside a buffer has covered exactly the first `size` bytes |
| Bytes.Blob.ContentsLength | groups/ntc/ntca/ntca_checksum.cpp:132-138 | the content of a segmented buffer is as long as its full data buffers and the used part of the last one |
| Bytes.Blob.ContentsAt | groups/ntc/ntca/ntca_checksum.cpp:132-138 | byte `j` of data buffer `i` is in the content, after all the bytes of the buffers before |
| Bytes.Blob.DataUpToAll | groups/ntc/ntca/ntca_checksum.cpp:132-155 | the sizes the loops take from the buffers cover exactly the content |
| XxHash32.ChecksumXxHash32.UpdateBytes | groups/ntc/ntca/ntca_checksum.cpp:431-481 | every field, stale buffer bytes included, is a function of the seed and the bytes fed so far, although the size field wraps at 2^32 |
| XxHash32.ChecksumXxHash32.AbsorbBlocks | groups/ntc/ntca/ntca_checksum.cpp:447-473 | the block loop absorbs every complete block and copies only inside the 16-byte buffer and the source |
| XxHash32.ChecksumXxHash32.Reset | groups/ntc/ntca/ntca_checksum.cpp:417-429 | the state of a checksum fed nothing |
| XxHash32.ChecksumXxHash32.UpdateBlob | groups/ntc/ntca/ntca_checksum.cpp:488-533 | a segmented update equals one flat update over the first min(size, length) bytes |
| XxHash32.ChecksumXxHash32.Value | groups/ntc/ntca/ntca_checksum.cpp:535-578 | the digest is a function of the seed and the bytes fed |
| XxHashNumbers.HashIsChecksum | groups/ntc/ntca/ntca_checksum.cpp:535-578 | for every seed and stream, short or long, the digest is the checksum written on integers modulo 2^32 with every constant spelled out |
| XxHashNumbers.ValRound | groups/ntc/ntca/ntca_checksum.cpp:460-466 | one round of an accumulator on integers |
| XxHashNumbers.ValAvalanche | groups/ntc/ntca/ntca_checksum.cpp:571-575 | the final scrambling on integers |
| XxHashNumbers.KnownDigests | groups/ntc/ntca/ntca_checksum.cpp:535-578 | the digests of the empty stream, "a" and "abcde" are 0x02CC5D05, 0x550D7456 and 0x9738F19B |
| XxHashNumbers.KnownLongDigest | groups/ntc/ntca/ntca_checksum.cpp:447-578 | the digest of a block of zeros followed by "abcde" is 0x119A7FE9 |
| WordValues.ValSum | groups/ntc/ntca/ntca_checksum.cpp:548 | addition of words is addition modulo 2^32 |
| WordValues.ValProduct | groups/ntc/ntca/ntca_checksum.cpp:460-466 | multiplication of words is multiplication modulo 2^32 |
| WordValues.ValRotate | groups/ntc/ntca/ntca_checksum.cpp:540-543 | a rotation moves the high part of a value below its low part |
| WordValues.ValDiffer | groups/ntc/ntca/ntca_checksum.cpp:571-575 | exclusive-or of words is exclusive-or of values, digit by digit |
| XxHash32.ChecksumXxHash32.Equals | groups/ntc/ntca/ntca_checksum.cpp:580-583 | bytewise equality of the objects; equal seeds and streams compare equal however they were cut |
| XxHash32.LatestIsLast | groups/ntc/ntca/ntca_checksum.cpp:441-478 | a buffer slot holds the last byte at a stream position congruent to it modulo 16 |
| XxHash32.BufferedAppend | groups/ntc/ntca/ntca_checksum.cpp:442-476 | a chunk within a block overwrites exactly its slots of the buffer |
| XxHash32.LanesNext | groups/ntc/ntca/ntca_checksum.cpp:455-468 | completing a block applies one round to all four lanes |
| XxHash32.SizesOfAppend | groups/ntc/ntca/ntca_checksum.cpp:435-439 | the wrapped size decides the full flag correctly |
| XxHash32.MixInTail | groups/ntc/ntca/ntca_checksum.cpp:551-569 | the two tail loops mix in the tail word by word, then byte by byte |
| XxHash32.DigestSensitive | groups/ntc/ntca/ntca_checksum.cpp:535-578 | states that differ in one aligned word or one trailing byte of the unprocessed tail have different digests |
| XxHash32.TailDetected | groups/ntc/ntca/ntca_checksum.cpp:535-578 | changing one word or trailing byte after the last complete block always changes the digest of the stream |
| XxHash32.BlockTailsIgnored | groups/ntc/ntca/ntca_checksum.cpp:455-468 | bytes 4 to 15 of complete blocks influence neither the accumulators nor the digest |
| XxHash32.AbsorbSensitive | groups/ntc/ntca/ntca_checksum.cpp:460-466 | one changed block word leaves an accumulator different after any further blocks |
| XxHash32.BlockDetectedIff | groups/ntc/ntca/ntca_checksum.cpp:447-473 | streams that differ in one complete block lead to the same accumulators if and only if the first four bytes of that block agree |
| XxHash32.DigestIffBlend | groups/ntc/ntca/ntca_checksum.cpp:535-578 | streams of one length with complete blocks and equal tails have equal digests if and only if their four accumulators blend to the same word |
| XxHash32.BlendCollision | groups/ntc/ntca/ntca_checksum.cpp:535-549 | two one-block streams with different first words and accumulators and the same digest |
| XxHash32.AvalancheInverse | groups/ntc/ntca/ntca_checksum.cpp:571-575 | the final scrambling can be undone |
| XxHash32.HashParts | groups/ntc/ntca/ntca_checksum.h:767-776 | the bytes fed to a hash algorithm are the accumulators, the used part of the buffer, the total size and the full flag, in this order |
| XxHash32.WordsBytesAt | groups/ntc/ntca/ntca_checksum.h:771-772 | accumulator `i` is fed as its four bytes at position 4i |
| XxHash32.HashBytesDetermineState | groups/ntc/ntca/ntca_checksum.h:767-776 | the unseparated bytes fed to a hash algorithm are equal if and only if the objects agree up to stale buffer bytes |
| XxHash32.HashBytesDetermineDigest | groups/ntc/ntca/ntca_checksum.h:767-776 | objects that feed the same bytes to a hash algorithm have the same digest |
| XxHash32.DigestOfChunks | groups/ntc/ntca/ntca_checksum.t.cpp:330-363 | feeding a stream in any chunks gives the digest of the stream |
| Checksum.ChunkIndependent | groups/ntc/ntca/ntca_checksum.cpp:778-794 | whatever the type, a union's value depends only on the bytes fed |
| Checksum.SuspendResume | groups/ntc/ntca/ntca_checksum.cpp:726-757 | saving an Adler-32 or CRC-32 digest, storing it elsewhere and feeding any chunks equals never stopping |
| Checksum.XxHashNotResumed | groups/ntc/ntca/ntca_checksum.cpp:758-770 | storing a block checksum's digest makes it the seed of an empty checksum |
| Bytes.NumberRoundTrip | groups/ntc/ntca/ntca_checksum.cpp:739-740 | copying a digest out to memory and in again keeps it |
| Bytes.NumberIsLittleEndian | groups/ntc/ntca/ntca_checksum.cpp:739-740 | the first byte of a stored digest is the least significant |
| Checksum.FreshIsStored | groups/ntc/ntca/ntca_checksum.cpp:711-724 | a fresh checksum is one given the digest 1 for Adler-32, 0 for CRC-32, and the seed 0 |
| Checksum.FreshLoads | groups/ntc/ntca/ntca_checksum.cpp:869-904 | fresh unions load 01 00 00 00 and 00 00 00 00; a block checksum fed a stream loads its digest with seed 0 |
| Checksum.Checksum.ResetTo | groups/ntc/ntca/ntca_checksum.cpp:711-724 | the union holds what storing 01 00 00 00 for Adler-32, or 00 00 00 00 for the others, would give |
| Checksum.Checksum.Store | groups/ntc/ntca/ntca_checksum.cpp:726-776 | the stored value, or an undefined union and an error for a wrong size or type |
| Checksum.Checksum.UpdateBytes | groups/ntc/ntca/ntca_checksum.cpp:778-794 | the value advances by the bytes; an undefined union is an error |
| Checksum.Checksum.UpdateBlob | groups/ntc/ntca/ntca_checksum.cpp:801-846 | the union's segmented loop agrees with the flat update for every type, and always reports success |
| Checksum.Checksum.Load | groups/ntc/ntca/ntca_checksum.cpp:869-904 | writes the digest, or nothing when the capacity is short or the union undefined |
| Checksum.Checksum.Equals | groups/ntc/ntca/ntca_checksum.cpp:906-924 | equal types and equal values |
| Checksum.EqualLoadsAlike | groups/ntc/ntca/ntca_checksum.cpp:906-924 | equality is reflexive, and equal unions load the same bytes |
| Wire.Int32RoundTrip | examples/m_ntcu10/ntcu10.m.cpp:162-164 | a 32-bit integer survives encoding |
| Wire.Int32Bytes | examples/m_ntcu10/ntcu10.m.cpp:183-185 | four bytes survive decoding |
| Wire.DecodedBigEndian | examples/m_ntcu10/ntcu10.m.cpp:183-185 | integers are read most significant byte first, in two's complement |
| Wire.EncodedBigEndian | examples/m_ntcu10/ntcu10.m.cpp:162-164 | integers are written most significant byte first, in two's complement |
| Wire.HeaderLayout | examples/m_ntcu10/ntcu10.m.cpp:157-166 | the first four bytes of a header are the id, the next four the length |
| Wire.FrameLayout | examples/m_ntcu10/ntcu10.m.cpp:639-647 | a frame is the header, with the size cut to 32 bits, and then the payload |
| Wire.CutToInt32 | examples/m_ntcu10/ntcu10.m.cpp:640 | a size is cut to its low 32 bits |
| Wire.RunConserves | examples/m_ntcu10/ntcu10.m.cpp:277-359 | re-encoding the delivered messages and adding the held header and unread bytes gives back the bytes that arrived; empty frames carry no payload |
| Wire.FragmentationIndependent | examples/m_ntcu10/ntcu10.m.cpp:277-359 | for every fragmentation, deliveries, partial state and unread bytes are those of one parse of the whole stream |
| Wire.RoundTrip | examples/m_ntcu10/ntcu10.m.cpp:157-196 | parsing an encoded list of messages delivers exactly that list |
| Wire.UniquelyDecodable | examples/m_ntcu10/ntcu10.m.cpp:157-196 | two lists of messages with the same encoding are equal |
| Wire.FrameDelivered | examples/m_ntcu10/ntcu10.m.cpp:639-647 | a sent payload arrives intact with nothing left over if and only if it is shorter than 2^31 bytes |
| Parser.StreamSocket.Receive | groups/ntc/ntcr/ntcr_streamsocket.cpp:6354-6449 | exactly `n` bytes or none, with the reason |
| Parser.StreamSocket.Send | groups/ntc/ntcr/ntcr_streamsocket.cpp:6092-6158 | the whole blob is queued if and only if the socket can send and its write queue is below the high watermark |
| Parser.MessageParser.TakeHeader | examples/m_ntcu10/ntcu10.m.cpp:284-319 | one header step of the parser, or no change |
| Parser.MessageParser.TakePayload | examples/m_ntcu10/ntcu10.m.cpp:321-357 | one payload step of the parser, or no change |
| Parser.MessageParser.Parse | examples/m_ntcu10/ntcu10.m.cpp:277-359 | one call is the complete run over the queue; on success the low watermark is what the parser needs and the queue is strictly shorter |
| Parser.MessageParser.ParseWhenNotified | examples/m_ntcu10/ntcu10.m.cpp:277-359 | parsing only when the low watermark is reached delivers, for every fragmentation, what one parse of the whole stream delivers: no wake-up is missed |
| Protocol.PrefixCode | examples/m_ntcu10/ntcu10.m.cpp:157-196 | frames form a prefix code: delivered messages are the first ones written and the remaining bytes encode the rest |
| Protocol.UpperIsUpperCase | examples/m_ntcu10/ntcu10.m.cpp:873-874 | a response has no lower-case letter, each letter has become its counterpart in the upper-case alphabet, and every other byte is unchanged |
| Protocol.KeptInOrder | examples/m_ntcu10/ntcu10.m.cpp:866-883 | the answered requests are, in order, exactly those not dropped |
| Protocol.NextResponse | examples/m_ntcu10/ntcu10.m.cpp:582-591 | the next response in order is in the catalog and belongs to the next answered request |
| Protocol.StepInv | examples/m_ntcu10/ntcu10.m.cpp:582-650 | every step, refused sends at either end included, keeps the invariant tying channels, catalog and callbacks together |
| Protocol.RunInv | examples/m_ntcu10/ntcu10.m.cpp:582-650 | the invariant holds in every state of every interleaving |
| Protocol.PendingPartition | examples/m_ntcu10/ntcu10.m.cpp:582-650 | in every run the catalog ids are the disjoint union of unsent, failed, request-in-flight, response-in-flight and dropped-response ids |
| Protocol.CallbacksCorrect | examples/m_ntcu10/ntcu10.m.cpp:582-591 | in every run the callbacks invoked are, in socket-send order, those of the sent calls not dropped, none twice; the payload each receives is its own request letter by letter in upper case |
| Protocol.QuietComplete | examples/m_ntcu10/ntcu10.m.cpp:582-591 | when both channels have drained, a request sent has been answered if and only if its response was not dropped; all have if and only if nothing was |
| Protocol.DroppedExample | examples/m_ntcu10/ntcu10.m.cpp:866-883 | a run that drains and leaves its request unanswered because the server's socket refused the response |
| Protocol.DeliveryProgress | examples/m_ntcu10/ntcu10.m.cpp:277-359 | every network or parser step strictly decreases the distance the bytes have to go |
| Protocol.DeliveryNotStuck | examples/m_ntcu10/ntcu10.m.cpp:277-359 | while anything is in flight some delivery step is enabled |
| Protocol.DeliveryBounded | examples/m_ntcu10/ntcu10.m.cpp:277-359 | every run of network and parser steps, in any order, is at most as long as the distance |
| Protocol.DeliveryEndsQuiet | examples/m_ntcu10/ntcu10.m.cpp:582-591 | every such run that cannot be continued has drained both channels and answered exactly the requests not dropped |
| Protocol.DeliveryCompletes | examples/m_ntcu10/ntcu10.m.cpp:582-591 | from every reachable state such a run exists in which the server's socket accepts every further response |
| Endpoints.ServerSocket.ProcessRequest | examples/m_ntcu10/ntcu10.m.cpp:866-883 | writes the request's header and its payload letter by letter in upper case, or nothing when the socket refuses |
| Endpoints.ServerSocket.ProcessReadQueueLowWatermark | examples/m_ntcu10/ntcu10.m.cpp:811-821 | answers, in order, exactly the requests the queue completes, except those at whose turn the write queue is full or closed |
| Endpoints.ClientSocket.Send | examples/m_ntcu10/ntcu10.m.cpp:631-650 | registers the callback under a new id and writes the frame; a refused send leaves the callback registered |
| Endpoints.ClientSocket.ProcessResponse | examples/m_ntcu10/ntcu10.m.cpp:582-591 | removes and invokes the callback of a known id, drops an unknown one |
| Endpoints.ClientSocket.ProcessReadQueueLowWatermark | examples/m_ntcu10/ntcu10.m.cpp:527-537 | dispatches, in order, exactly the responses the queue completes |
| Endpoints.ServerRefines | examples/m_ntcu10/ntcu10.m.cpp:811-883 | the interleaved parse-and-answer steps of a notification amount to parsing everything and then answering, whatever the socket accepts |
| Endpoints.ClientRefines | examples/m_ntcu10/ntcu10.m.cpp:527-591 | the interleaved parse-and-dispatch steps of a notification amount to parsing everything and then dispatching |
| Endpoints.ServerReachable | examples/m_ntcu10/ntcu10.m.cpp:811-821 | a server notification is a run of enabled protocol steps |
| Endpoints.ClientReachable | examples/m_ntcu10/ntcu10.m.cpp:527-537 | a client notification is a run of enabled protocol steps |
| Connection.Connection.Send | examples/m_ntcu10/ntcu10.m.cpp:631-650 | a call on the client object is an added and a transmitted, or an added and a failed, request of the protocol |
| Connection.Connection.CarryToServer | examples/m_ntcu10/ntcu10.m.cpp:811-883 | a fragment reaching the server object, with the notification it causes, is a run of delivery steps, after which nothing parseable is left |
| Connection.Connection.CarryToClient | examples/m_ntcu10/ntcu10.m.cpp:527-591 | a fragment reaching the client object, with the notification it causes, is a run of delivery steps, after which nothing parseable is left |
| Connection.Connection.IdleAnswered | examples/m_ntcu10/ntcu10.m.cpp:582-591 | in an idle connection exactly the requests not dropped have had their callback invoked, and the catalog holds only refused ones |
| ServerLifecycle.RunInv | examples/m_ntcu10/ntcu10.m.cpp:1457-1529 | in every run the maps hold exactly the open sockets plus the entries revived by late streams |
| ServerLifecycle.RunSafe | examples/m_ntcu10/ntcu10.m.cpp:1476-1529 | in every run no `n == 1` assertion fires, since whatever can close is in the maps it is erased from; listeners have pending entries, and nobody sleeps in `linger` once the maps are empty |
| ServerLifecycle.LingerReturnedEmpty | examples/m_ntcu10/ntcu10.m.cpp:1601-1608 | in every run in which `linger` has returned, all three maps were empty at its last test |
| ServerLifecycle.LingerOutcome | examples/m_ntcu10/ntcu10.m.cpp:1601-1608 | in every run a test in `linger` returns if and only if everything opened has closed |
| ServerLifecycle.WokenIffAllClosed | examples/m_ntcu10/ntcu10.m.cpp:1490-1528 | in every run a sleeping lingerer is woken by exactly the event after which everything has closed |
| ServerLifecycle.LingerExample | examples/m_ntcu10/ntcu10.m.cpp:1601-1608 | a run in which the lingerer sleeps, is woken by the last close, and returns |
| ServerLifecycle.CallsInOrder | examples/m_ntcu10/ntcu10.m.cpp:1498-1515 | in every run each stream established has had exactly one callback invoked, in order, with the callback of its acceptor |
| ServerLifecycle.AcceptCallback | examples/m_ntcu10/ntcu10.m.cpp:1498-1515 | a stream gets its listener's callback if and only if the listener is still open, otherwise the empty function |
| ServerLifecycle.DrainedIffAllClosed | examples/m_ntcu10/ntcu10.m.cpp:1476-1529 | in every run the maps are empty if and only if every listener and stream has closed |
| ServerLifecycle.ThrowsIffLate | examples/m_ntcu10/ntcu10.m.cpp:1498-1515 | a run throws if and only if some stream is established after its acceptor closed; that ends the run, with the acceptor's entry revived |
| ServerLifecycle.LateStreamExample | examples/m_ntcu10/ntcu10.m.cpp:1510-1514 | a run that ends in the call of an empty function |
| ServerLifecycle.CloseShrinks | examples/m_ntcu10/ntcu10.m.cpp:1476-1529 | every close makes the maps strictly smaller |
| ServerLifecycle.ShutdownDrains | examples/m_ntcu10/ntcu10.m.cpp:1578-1599 | after a shutdown with all listeners established, once the sockets of its snapshot have closed, in any order and with no socket opened meanwhile, the maps are empty, no lingerer sleeps and the next test in `linger` returns |
| ServerLifecycle.SnapshotCloses | examples/m_ntcu10/ntcu10.m.cpp:1578-1599 | unless the run has thrown, the sockets of the snapshot can be closed one by one |
| ServerLifecycle.ServerObject.ProcessListenerSocketClosed | examples/m_ntcu10/ntcu10.m.cpp:1476-1495 | the object handles the close as the state machine does, failed assertions included |
| ServerLifecycle.ServerObject.ProcessStreamSocketEstablished | examples/m_ntcu10/ntcu10.m.cpp:1498-1515 | the object handles the establishment as the state machine does, default entry and exception included |
| ServerLifecycle.ServerObject.ProcessStreamSocketClosed | examples/m_ntcu10/ntcu10.m.cpp:1517-1529 | the object handles the close as the state machine does, the failed assertion included |
| ServerLifecycle.ServerObject.LingerTest | examples/m_ntcu10/ntcu10.m.cpp:1601-1608 | the waiting test leaves exactly when all maps are empty |
| ClientLifecycle.RunInv | examples/m_ntcu10/ntcu10.m.cpp:1207-1304 | in every run the maps and the calls made are those the socket history determines |
| ClientLifecycle.RunSafe | examples/m_ntcu10/ntcu10.m.cpp:1207-1243 | in every run the maps are disjoint, the lookup assertion never fires since whatever can be established is pending, each connect callback is invoked at most once and for its own socket |
| ClientLifecycle.LingerReturnedEmpty | examples/m_ntcu10/ntcu10.m.cpp:1321-1328 | in every run in which `linger` has returned, no established socket remained at its last test |
| ClientLifecycle.LingerOutcome | examples/m_ntcu10/ntcu10.m.cpp:1321-1328 | in every run a test in `linger` returns if and only if every established socket has closed |
| ClientLifecycle.WokenIffAllClosed | examples/m_ntcu10/ntcu10.m.cpp:1233-1243 | in every run a sleeping lingerer is woken by exactly the event after which every established socket has closed |
| ClientLifecycle.LingerFinalIffNonePending | examples/m_ntcu10/ntcu10.m.cpp:1306-1328 | with no established socket left, none appears later without a new connect if and only if every socket still connecting has closed |
| ClientLifecycle.PendingOutlivesLinger | examples/m_ntcu10/ntcu10.m.cpp:1306-1328 | a run in which `linger` returns and a socket is established afterwards |
| ClientLifecycle.ClientObject.ProcessStreamSocketEstablished | examples/m_ntcu10/ntcu10.m.cpp:1207-1231 | the object handles the establishment as the state machine does, the failed assertion included |
| ClientLifecycle.ClientObject.ProcessStreamSocketClosed | examples/m_ntcu10/ntcu10.m.cpp:1233-1243 | the object handles the close as the state machine does |

## Left out

- Conformance of the block checksum to the published XXH32 algorithm: the program computes something else.
- Orderings, printing, move operations and object layout of the checksums: field-by-field members.
- Big-endian hosts: digests are copied to memory in little-endian order here; the round trip does not depend on it.
- Buffer sizes near the limit of `size_t`, where adding the buffered bytes to the size would wrap.
- Parser.MessageParser.Parse: returns the delivered messages as a list instead of invoking a callback inside the loop; `Endpoints.ServerRefines` and `Endpoints.ClientRefines` prove that for the two callbacks the program installs this makes no difference.
- Endpoints.ClientSocket.Send: receives the id the catalog chose; the catalog's own choice of ids is not modelled beyond their being unused.
- Protocol.StepInv: covers requests shorter than 2^31 bytes; longer ones break the framing, as `Wire.FrameDelivered` states.
- Connection.Connection.Send: the same bound on the request; `Endpoints.ClientSocket.Send` has none.
- Errors of the operating system while sending: a send is refused only because the socket cannot send or its write queue is full.
- ServerLifecycle.RunSafe: allows one lingerer; the condition is signalled once, so a second waiting thread would not be woken.
- Session objects in the lifecycle maps, endpoints, flow control, encryption, certificates and interface start and stop: thin calls into other components.
- The other example programs, which repeat the same protocol over other transports or run fixed scripts.
- Spurious wake-ups, mutexes and allocation failure: every locked region is one step.
