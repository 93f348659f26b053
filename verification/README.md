# shairplay-rust, verified

A Dafny model of the parts of an AirPlay receiver that carry its correctness, with the theorems it is meant to satisfy.
Code that changes things step by step is modelled by classes, methods and loops; each is proved to compute a function of
its inputs or of its old state, and the theorems are about those functions and about whole runs of them.

| file | models |
|---|---|
| `Bits`, `Rice`, `Predictor`, `AlacFrame`, `AlacMix`, `AlacLossless`, `AlacDecoder` | the ALAC decoder, and an encoder to prove it lossless against |
| `Ring`, `RingRuns` | the RTP reorder ring, and runs of it against an ordered stream |
| `TcpReceiver` | RTP over TCP, from byte stream to audio session |
| `Http`, `Pipeline` | the incremental RTSP parser and the connection that dispatches its requests |
| `Transport`, `Ctr` | the encrypted transport and the two counter-mode ciphers |
| `Tlv`, `Srp`, `Pairing`, `PairingHandlers` | HomeKit pairing: messages, key agreement, and the machine over all requests |
| `Playout` | buffered playout: receiver, commands and delivery in any order |
| `Common`, `Powers`, `Endian`, `Modular` | options, bytes, powers, remainders |

Conventions. A shift is a multiplication or floor division by a power of two, a mask of `n` ones is the width `n`, and
32-bit arithmetic is written out where it can wrap. Foreign functions (AES, ChaCha20-Poly1305, SHA-512, HKDF, Ed25519,
X25519, the header grammar) are parameters: the theorems hold for any functions, and the laws a theorem needs, such as
that opening undoes sealing, are its hypotheses. Random numbers and clock readings are parameters too. Numbers that name
frames, packets, servers and exchanges, and the logs of what happened, are part of the specification only.

Six promises do not hold of the code without a condition; each has an example and the exact condition.

- Compression of 24-bit stereo is not lossless with every mixing weight: `AlacLossless.CompressedLossless`,
  `AlacMix.WeightBound`, `AlacLossless.OverflowExample`.
- Not every block of residuals has a code; from a small history silence of more than 65536 has none:
  `Rice.DecodableExactly`, `Rice.SilenceExactly`, `Rice.SilenceLimit`.
- The codec of pairing messages is not lossless on all entries: `Tlv.RoundTripExactly`, `Tlv.NotAlwaysRoundTrip`.
- The requests of an encrypted stream depend on how it was cut when a frame fails to open: `Pipeline.CutsAgreeExactly`,
  `Pipeline.CutsDiffer`.
- A flush while playback is paused hands out frames: `Playout.PausedTurn`, `Playout.PausedFlushPlays`.
- A batch around the wrap of timestamps is not oldest first: `Playout.BatchOldestFirst`, `Playout.NewerFirst`.

## Model

| member | source | states |
|---|---|---|
| `Bits.WindowSelect` | src/codec/alac.rs:90-104 | shifting a window of bits left, cutting it and shifting it right leaves exactly the requested bits |
| `Bits.Peek` | src/codec/alac.rs:90-104 | the three-byte window gives the number spelled by the next bits, zeros past the end of the buffer |
| `Bits.BitReader.ReadBits16` | src/codec/alac.rs:90-104 | returns the number the next bits spell and moves exactly that many bits |
| `Bits.BitReader.ReadBits` | src/codec/alac.rs:106-113 | up to 32 bits in two halves are the number the bits spell |
| `Bits.BitReader.ReadBit` | src/codec/alac.rs:115-126 | one bit, and one bit forward |
| `Bits.BitReader.UnreadBits` | src/codec/alac.rs:128-134 | moves back by exactly the bits asked for, over a byte boundary too |
| `Rice.ValueRoundTrip` | src/codec/alac.rs:165-188 | every number that fits decodes from its code word (unary, short, long or escape) and the word is consumed exactly |
| `Rice.DecodedBound` | src/codec/alac.rs:165-188 | whatever the bits, a decoded number is below 2^25, a run length at most 65535, and at least one bit is consumed |
| `Rice.ReadUnary` | src/codec/alac.rs:171-174 | the unary loop counts the leading ones up to the escape threshold |
| `Rice.EntropyDecodeValue` | src/codec/alac.rs:165-188 | the reader returns the decoded number and stops where its code word ends |
| `Rice.RiceK` | src/codec/alac.rs:259-268 | the Rice parameter stays between 1 and the configured limit, so no shift is out of range |
| `Rice.RunK` | src/codec/alac.rs:285-288 | the parameter of a zero run stays between 2 and 8 |
| `Rice.HistoryBound` | src/codec/alac.rs:279-283 | the history stays within 0 and 2^25, and no 32-bit step of its update overflows |
| `Rice.MultiplierBound` | src/codec/alac.rs:279-283 | 63 is the largest history multiplier for which no update can overflow: an if and only if over all histories and numbers |
| `Rice.UpdateHistory` | src/codec/alac.rs:279-283 | the update computed in 32-bit integers equals the exact one |
| `Rice.SymbolRoundTrip` | src/codec/alac.rs:247-301 | a residual with the zero run after it decodes from its code, with the same history and sign carried on |
| `Rice.RiceRoundTrip` | src/codec/alac.rs:247-301 | the entropy stage is lossless on every codable block: residuals come back and the code is consumed exactly |
| `Rice.DecodableExactly` | src/codec/alac.rs:247-301 | a block of residuals has a code, some bit string that decodes to it, exactly when it is codable: every run its code needs is at most 65535 long |
| `Rice.DecodedIsCodable` | src/codec/alac.rs:247-301 | whatever bits a block was decoded from, it is codable |
| `Rice.ShortBlocksCodable` | src/codec/alac.rs:285-298 | blocks of at most 65536 residuals are codable, whatever the history |
| `Rice.SilenceExactly` | src/codec/alac.rs:285-298 | silence is codable up to 65536 residuals, and beyond exactly while the history stays at 128 or more |
| `Rice.SilenceLimit` | src/codec/alac.rs:285-298 | from a history below 128 no bit string decodes to longer silence |
| `Rice.LoudSilence` | src/codec/alac.rs:285-298 | from a history of 128 or more that does not decay, silence of any length has a code |
| `Rice.ResidualsModerate` | src/codec/alac.rs:270-275 | whatever the bits, no residual is beyond 2^24 |
| `Rice.DecodeSymbolInto` | src/codec/alac.rs:258-298 | one turn of the loop writes the residual and its zeros in place and touches nothing else |
| `Rice.EntropyRiceDecode` | src/codec/alac.rs:247-301 | the loop over the output buffer computes the block of residuals for any bits |
| `Predictor.SignExtendWraps` | src/codec/alac.rs:145-151 | a left shift and an arithmetic right shift of a truncated sum are two's complement wrapping |
| `Predictor.StepInverse` | src/codec/alac.rs:303-393 | one residual undoes one sample and the other way round, whatever came before |
| `Predictor.FirRoundTrip` | src/codec/alac.rs:303-393 | every block of samples comes back from its residuals although the coefficients adapt with every sample |
| `Predictor.FirUnique` | src/codec/alac.rs:303-393 | encoding what was decoded returns the residuals |
| `Predictor.FirBijection` | src/codec/alac.rs:303-393 | a block of samples comes from exactly one block of residuals, for every order, table and width |
| `Predictor.SamplesModerate` | src/codec/alac.rs:303-393 | from residuals and samples within 2^24 no sample of the block is beyond 2^24 |
| `Predictor.AdaptAlwaysFits` | src/codec/alac.rs:368-390 | over a window of samples within 2^24 no 32-bit step of a coefficient update overflows |
| `Predictor.BlockFits` | src/codec/alac.rs:348-391 | so along a whole block every difference over the window and every step of every coefficient update fits 32 bits |
| `AlacFrame.ChannelFits` | src/codec/alac.rs:247-393 | whatever the bits, every channel in the profile: no residual and no sample is beyond 2^24 and no 32-bit step of the predictor overflows |
| `Predictor.AdaptInPlace` | src/codec/alac.rs:368-390 | the sign-sign update of the coefficient table in place, with its early stop, is the specified table |
| `Predictor.PredictAt` | src/codec/alac.rs:354-363 | the weighted sum of differences over the last samples |
| `Predictor.AdaptiveStep` | src/codec/alac.rs:348-391 | one sample of the adaptive filter |
| `Predictor.DeltaStep` | src/codec/alac.rs:326-346 | one sample predicted by its predecessor |
| `Predictor.PredictorDecompress` | src/codec/alac.rs:303-393 | all four modes of the in-place decoder compute the block, and nothing beyond it is written |
| `AlacLossless.PackUnpack` | src/codec/alac.rs:81-135 | bytes made of bits read back as those bits |
| `AlacLossless.SubframeRoundTrip` | src/codec/alac.rs:209-227 | the frame header is read back field by field, with and without a sample count |
| `AlacLossless.HeaderRoundTrip` | src/codec/alac.rs:230-245 | a predictor header with any coefficients is read back |
| `AlacLossless.ChannelRoundTrip` | src/codec/alac.rs:649-685 | a channel survives prediction, entropy coding and back |
| `AlacMix.MixSigned` | src/codec/alac.rs:433-443 | mixed channels need at most one bit more |
| `AlacMix.PairRoundTrip` | src/codec/alac.rs:433-443 | unmixing a mixed pair in 32 bits gives it back, up to a multiple of 2^(32 - shift) lost by the product |
| `AlacMix.WeightBound` | src/codec/alac.rs:438-438 | 128 is the largest weight for which no pair of 24-bit samples overflows the product: an if and only if |
| `AlacMix.MixedBytes` | src/codec/alac.rs:433-458 | 24-bit samples come back byte for byte exactly when no product overflows or the shift is at most eight |
| `AlacMix.MixRoundTrip` | src/codec/alac.rs:395-458 | unmixing undoes mixing on every block whose products fit 32 bits |
| `AlacLossless.MergeSplit` | src/codec/alac.rs:433-458 | low bytes sent apart are put back |
| `AlacLossless.MonoRoundTrip` | src/codec/alac.rs:687-774 | a compressed mono body decodes to its samples |
| `AlacLossless.StereoRoundTrip` | src/codec/alac.rs:776-881 | a compressed stereo body decodes to what mixing and 32-bit unmixing make of its samples |
| `AlacLossless.CompressedLossless` | src/codec/alac.rs:570-601 | losslessness end to end: for every configuration, every encoder setting and every codable block, decoding the frame gives the PCM bytes of the block, whatever the decoder held before, if and only if no product of the unmixing overflows or the mixing shift is at most eight |
| `AlacLossless.SafeSettings` | src/codec/alac.rs:433-443 | which is so for 16-bit samples, with low bytes, and with weights up to 128 |
| `AlacLossless.OverflowExample` | src/codec/alac.rs:438-438 | a pair of 24-bit samples that a frame with weight 200 and shift nine does not give back |
| `AlacLossless.VerbatimLossless` | src/codec/alac.rs:570-601 | the same for frames sent without compression |
| `AlacLossless.ShortBlocksCompress` | src/codec/alac.rs:570-601 | every block of at most 65536 samples a channel is codable, with every setting |
| `AlacLossless.EveryBlockCompresses` | src/codec/alac.rs:570-601 | so each such block has a compressed frame that decodes to it |
| `AlacDecoder.ParseSubframeHeader` | src/codec/alac.rs:209-227 | the reader parses the header that the bits spell |
| `AlacDecoder.ReadPredictorHeader` | src/codec/alac.rs:230-245 | the coefficient loop reads the header that the bits spell |
| `AlacDecoder.Decoder.constructor` | src/codec/alac.rs:485-506 | fresh buffers of the configured size |
| `AlacDecoder.Decoder.DecodeOne` | src/codec/alac.rs:649-685 | one channel into the object's reused buffers |
| `AlacDecoder.Decoder.Deinterlace16` | src/codec/alac.rs:395-419 | unmixed 16-bit pairs written in place as little-endian bytes |
| `AlacDecoder.Decoder.Deinterlace24` | src/codec/alac.rs:433-458 | unmixed 24-bit pairs with their low bytes |
| `AlacDecoder.Decoder.DecodeMono` | src/codec/alac.rs:687-774 | the mono path writes the specified PCM bytes |
| `AlacDecoder.Decoder.DecodeStereo` | src/codec/alac.rs:776-881 | the stereo path writes the specified PCM bytes |
| `AlacDecoder.Decoder.DecodeInto` | src/codec/alac.rs:570-601 | the decoder object computes the frame function for any bytes, refused frames included, so the losslessness theorems hold of the object |
| `Ring.SlotUnique` | src/raop/buffer.rs:343-347 | sequence numbers less than 32 apart share a slot only when they are equal |
| `Ring.InitialValid` | src/raop/buffer.rs:245-292 | a new ring satisfies the window invariant |
| `Ring.FlushValid` | src/raop/buffer.rs:478-489 | a flush keeps the invariant and empties the window |
| `Ring.SlotFree` | src/raop/buffer.rs:343-351 | a slot about to be filled holds no undelivered frame |
| `Ring.StoreValid` | src/raop/buffer.rs:353-440 | filing a packet keeps the invariant and every other frame |
| `Ring.QueueValid` | src/raop/buffer.rs:313-440 | any packet, malformed, stale, duplicate or far ahead, keeps the invariant; no undelivered frame is overwritten unless the ring starts again |
| `Ring.DequeueValid` | src/raop/buffer.rs:448-472 | handing out keeps the invariant and shortens the window by one |
| `Ring.WindowSpan` | src/raop/buffer.rs:448-460 | the signed 16-bit span the code computes is the size of the window, across the wrap |
| `Ring.DeclinesExactly` | src/raop/buffer.rs:448-472 | nothing is handed out exactly when nothing is buffered or the head is awaited in a window that is not full |
| `Ring.RaopBuffer.constructor` | src/raop/buffer.rs:245-292 | a new ring |
| `Ring.RaopBuffer.FlushTo` | src/raop/buffer.rs:478-489 | the loop over the slots is the flush of the whole ring |
| `Ring.RaopBuffer.QueuePacket` | src/raop/buffer.rs:313-440 | the object's new state and return code for any bytes |
| `Ring.RaopBuffer.StorePacket` | src/raop/buffer.rs:353-440 | decoding and filing one payload |
| `Ring.RaopBuffer.DequeueFrame` | src/raop/buffer.rs:448-472 | the object's new state and the samples or silence handed out |
| `RingRuns.StepInv` | src/raop/buffer.rs:313-489 | every queue, dequeue and flush keeps the refinement invariant |
| `RingRuns.StepIsRing` | src/raop/buffer.rs:313-489 | the histories move exactly as the ring does and miss nothing: a block is logged exactly when it is handed out, a packet is accepted exactly when queueing returns 1 |
| `RingRuns.RunAccepts` | src/raop/buffer.rs:313-440 | every accepted packet of a run was a packet of that run, with its number and its decoded samples |
| `RingRuns.RunRefinesStream` | src/raop/buffer.rs:313-489 | over every run the blocks handed out are the positions 0, 1, 2 and so on of each epoch, each the packet accepted for it or silence; every accepted packet is handed out once, buffered or discarded |
| `TcpReceiver.DeframeSplit` | src/raop/rtp.rs:376-408 | framing a stream in two pieces is framing it whole |
| `TcpReceiver.ResidueBound` | src/raop/rtp.rs:376-408 | what is kept after a pass is at most 32771 bytes, so the buffer limit cannot fire |
| `TcpReceiver.FramingRoundTrip` | src/raop/rtp.rs:380-392 | well-framed packets come out as they went in |
| `TcpReceiver.SynthesizedNext` | src/raop/buffer.rs:319-347 | the number made up for a packet without one is the next of a drained window: never stale, duplicate or a resync |
| `TcpReceiver.ReceiveExact` | src/raop/rtp.rs:393-405 | a packet gives exactly its own block and leaves the window empty |
| `TcpReceiver.SessionGetsThePackets` | src/raop/rtp.rs:356-411 | however the stream is cut and whatever flushes fall between, the session gets the blocks of the framed packets, in order, once each; the connection closes exactly on an oversized frame |
| `TcpReceiver.WellFramedStream` | src/raop/rtp.rs:356-411 | for well-framed streams: every decodable packet, in order, once, no silence, no close |
| `TcpReceiver.Receiver.DeliverPacket` | src/raop/rtp.rs:393-405 | queue, then the loop that drains the ring into the session |
| `TcpReceiver.Receiver.HandleRead` | src/raop/rtp.rs:369-411 | one read of the loop, over the ring object |
| `Http.ParseContentLength` | src/proto/http.rs:188-208 | a declared length is at most 32 MiB |
| `Http.FeedWell` | src/proto/http.rs:73-115 | every byte keeps the parser's invariant |
| `Http.FeedSplit` | src/proto/http.rs:55-115 | two chunks do what one chunk of both does |
| `Http.ChunkingIndependent` | src/proto/http.rs:55-115 | the same bytes give the same parser state, errors included, however they are cut |
| `Http.PolicyOnceBeforeBody` | src/proto/http.rs:55-115 | in every reachable state the policy ran at most once, and no body byte is kept that it did not allow |
| `Http.ErrorLatched` | src/proto/http.rs:55-72 | nothing changes after an error |
| `Http.CompleteKeeps` | src/proto/http.rs:78-82 | bytes after completion are all kept as leftover |
| `Http.BytesConserved` | src/proto/http.rs:55-129 | every byte belongs to the request or to the leftover, and the leftover is strictly shorter than what was fed |
| `Http.BodyIsSuffix` | src/proto/http.rs:117-129 | the body is the end of the request's own bytes |
| `Http.SelfContained` | src/proto/http.rs:55-129 | a complete request is what its own bytes alone would give |
| `Http.HttpRequest.constructor` | src/proto/http.rs:34-48 | an empty parser |
| `Http.HttpRequest.ParseHeaders` | src/proto/http.rs:148-186 | the headers that have arrived, or the error they cause |
| `Http.HttpRequest.InsertAll` | src/proto/http.rs:158-172 | fields in order, up to a transfer encoding or a repeated body field |
| `Http.HttpRequest.BufferBodyAndLeftover` | src/proto/http.rs:117-129 | body bytes up to the declared length, the rest left over |
| `Http.HttpRequest.AddData` | src/proto/http.rs:55-115 | a chunk of any size does what its bytes do one after the other |
| `Http.HttpRequest.TakeLeftover` | src/proto/http.rs:210-216 | the leftover of a complete request, once |
| `Transport.NonceInjective` | src/crypto/chacha_transport.rs:40-45 | different counters have different nonces |
| `Transport.ExhaustedExactly` | src/crypto/chacha_transport.rs:47-84 | encryption fails exactly when too few counters are left for the blocks, and then has used them all |
| `Transport.RunNonces` | src/crypto/chacha_transport.rs:47-84 | the nonces of a run are those of consecutive counters |
| `Transport.NoncesUnique` | src/crypto/chacha_transport.rs:40-84 | no nonce is used twice in any run of calls, runs that exhaust the counter included |
| `Transport.DecryptSplit` | src/crypto/chacha_transport.rs:86-128 | a pass over two pieces is a pass over the first and then over its residue and the second |
| `Transport.ResidueBound` | src/crypto/chacha_transport.rs:86-128 | the residue is a proper prefix of one frame, at most 65552 bytes |
| `Transport.FrameOpens` | src/crypto/chacha_transport.rs:47-128 | a frame at the front of a buffer opens to its block |
| `Transport.RunThenDecrypt` | src/crypto/chacha_transport.rs:47-128 | decryption undoes any number of encryptions in front of any bytes |
| `Transport.TransportRoundTrip` | src/crypto/chacha_transport.rs:40-128 | any encryptions, concatenated and cut into any reads, decrypt to the concatenated plaintexts with equal counters and nothing left |
| `Transport.LimitUnreachable` | src/net/server.rs:442-483 | with reads of 4096 bytes the one-megabyte limit cannot fire: the receiver fails exactly when a frame does not open |
| `Transport.CipherContext.constructor` | src/crypto/chacha_transport.rs:36-38 | a context starts at counter zero |
| `Transport.CipherContext.EncryptBytes` | src/crypto/chacha_transport.rs:47-84 | the block loop, its counter and the nonces it used, also when it fails half-way |
| `Transport.CipherContext.DecryptBytes` | src/crypto/chacha_transport.rs:86-128 | the frame loop, its plaintext, position and counter |
| `Pipeline.ProcessSplit` | src/net/server.rs:377-440 | two reads do what one read of both does: same requests, handler states and pending request |
| `Pipeline.ReadsConcat` | src/net/server.rs:486-543 | what is dispatched depends on the bytes only, not on the reads |
| `Pipeline.Conserved` | src/net/server.rs:377-420 | every byte belongs to exactly one dispatched request, in order, or to the pending one |
| `Pipeline.DispatchSound` | src/net/server.rs:35-59 | on every run each dispatched request is what its own bytes say under the handler state that saw it, one after the other |
| `Pipeline.SeriesIsDispatched` | src/net/server.rs:377-420 | conversely any series of requests sent back to back is dispatched one by one and leaves nothing |
| `Pipeline.EncryptedReadsConcat` | src/net/server.rs:442-543 | in encrypted mode too, if every complete frame of the stream opens |
| `Pipeline.EncryptedSeriesIsDispatched` | src/net/server.rs:442-543 | requests encrypted in any calls and cut into any reads are dispatched one by one |
| `Pipeline.EncryptedRun` | src/net/server.rs:442-543 | whether or not frames open: everything in the reads before the first failing one is processed, nothing of that read or after it |
| `Pipeline.CutsAgreeExactly` | src/net/server.rs:442-543 | two cuts of one stream leave the same connection and the same requests exactly when no request completes in the plaintext that one opens beyond the other |
| `Pipeline.CutsDiffer` | src/net/server.rs:442-483 | for any handler, header grammar and cipher, any request that its own bytes complete and one frame holds, followed by a failing frame: in two reads the request is dispatched, in one it is not |
| `Pipeline.Connection.constructor` | src/net/server.rs:486-500 | an open connection with an empty request |
| `Pipeline.Connection.AddRequestData` | src/net/server.rs:422-440 | bytes for the pending request, closing on a parse error |
| `Pipeline.Connection.SendCompletedResponses` | src/net/server.rs:377-420 | the dispatch loop answers every complete request and terminates, because each leftover is shorter |
| `Pipeline.Connection.ReadPlain` | src/net/server.rs:486-543 | one read in the clear |
| `Pipeline.Connection.ReadEncrypted` | src/net/server.rs:442-483 | one encrypted read, its residue and its counter |
| `Ctr.IncrementCounter` | src/crypto/aes.rs:36-43 | the carry loop adds one modulo 2^128 |
| `Ctr.ChunkedIsWhole` | src/crypto/video_cipher.rs:30-74 | the keystream exclusive or does not depend on the chunks |
| `Ctr.SelfInverse` | src/crypto/video_cipher.rs:30-74 | decryption is encryption, with any chunks on either side |
| `Ctr.CiphersAgree` | src/crypto/aes.rs:46-65 | an audio cipher and a video cipher object started alike turn the same stream into the same bytes, whatever packets each of them sees |
| `Ctr.AesCtr.constructor` | src/crypto/aes.rs:23-33 | the stream starts at the nonce |
| `Ctr.AesCtr.Encrypt` | src/crypto/aes.rs:46-65 | the in-place loop is the exclusive or with the keystream of section 6.5 of NIST SP 800-38A from where the last call stopped |
| `Ctr.VideoCipher.constructor` | src/crypto/video_cipher.rs:21-27 | the stream starts at the nonce |
| `Ctr.VideoCipher.ApplyLeftover` | src/crypto/video_cipher.rs:36-53 | keystream carried over from the last packet, possibly not used up |
| `Ctr.VideoCipher.ApplyTail` | src/crypto/video_cipher.rs:61-73 | the zero-padded last block leaves the keystream still to use |
| `Ctr.VideoCipher.Decrypt` | src/crypto/video_cipher.rs:30-74 | the same exclusive or, for packets of any length |
| `Tlv.DecodeEncode` | src/crypto/tlv.rs:95-141 | decoding an encoding gives the merged entries, always |
| `Tlv.MergedIsSame` | src/crypto/tlv.rs:113-141 | merging changes nothing exactly when no entry of positive length divisible by 255 is followed by its own tag |
| `Tlv.RoundTripExactly` | src/crypto/tlv.rs:95-141 | so the codec is lossless exactly then |
| `Tlv.NotAlwaysRoundTrip` | src/crypto/tlv.rs:129-138 | two entries that come back as one |
| `Tlv.DecodeStable` | src/crypto/tlv.rs:95-141 | what was decoded once is in that form and survives further round trips |
| `Tlv.Get` | src/crypto/tlv.rs:64-69 | the first value with a tag, or none exactly when there is none |
| `Tlv.DistinctTags` | src/crypto/tlv.rs:95-141 | messages with different tags come back as they are |
| `Tlv.TlvValues.EncodeBytes` | src/crypto/tlv.rs:95-110 | the loop over the entries |
| `Tlv.TlvValues.EncodeValue` | src/crypto/tlv.rs:98-107 | the loop over the chunks of a value |
| `Tlv.TlvValues.DecodeBytes` | src/crypto/tlv.rs:113-141 | the chunk loop, and its truncation errors |
| `Srp.Agreement` | src/crypto/pairing_homekit.rs:168-174 | both sides compute the same secret, for every modulus, generator and exponents |
| `Srp.Unblinded` | src/crypto/pairing_homekit.rs:819-826 | the client's subtraction takes the verifier off the server's public key |
| `Srp.ToBytes` | src/crypto/pairing_homekit.rs:244-247 | the shortest big-endian form spells the number |
| `Srp.Padded` | src/crypto/pairing_homekit.rs:249-258 | the padded form spells the same number and has at least the length |
| `Srp.IssuedKept` | src/crypto/pairing_homekit.rs:110-202 | no message changes the values a server was issued with |
| `Srp.M2Carries` | src/crypto/pairing_homekit.rs:137-145 | the second message carries the salt and B through the codec |
| `Srp.M4Carries` | src/crypto/pairing_homekit.rs:206-220 | the fourth message carries the server proof exactly when the client was accepted |
| `Srp.HonestClientAccepted` | src/crypto/pairing_homekit.rs:147-202 | a client that knows the PIN is accepted with the same session key and the server proof it expects, whatever was tried before |
| `Srp.AcceptedKnowsKey` | src/crypto/pairing_homekit.rs:181-202 | an accepted client used the server's session key, or its proof exhibits a collision of the hash |
| `Srp.SrpServer.constructor` | src/crypto/pairing_homekit.rs:63-107 | verifier, public key and transient permission of a new server |
| `Srp.SrpServer.First` | src/crypto/pairing_homekit.rs:110-135 | the first message, refused for other methods and for transient pairing when a PIN is set |
| `Srp.SrpServer.Second` | src/crypto/pairing_homekit.rs:137-144 | the second message, entry by entry, is the one whose salt and key the client is proved to read back |
| `Srp.SrpServer.Third` | src/crypto/pairing_homekit.rs:147-202 | the third message, its errors and what it changes when the proof is wrong |
| `Srp.SrpServer.Fourth` | src/crypto/pairing_homekit.rs:204-219 | the fourth message carries the server proof exactly when the client was accepted, else the authentication error |
| `Pairing.StepInv` | src/raop/handlers_ap2.rs:53-193 | every request and every key put elsewhere keeps the invariant |
| `Pairing.RunInv` | src/raop/handlers_ap2.rs:53-193 | so do whole runs |
| `Pairing.StoredOnlyAfterProof` | src/raop/handlers_ap2.rs:88-126 | in every run a controller key is stored only on a non-transient server that accepted a proof with this session key and judged none since, for a message in which the controller signed its identity with that key |
| `Pairing.NumbersUnique` | src/raop/handlers_ap2.rs:69-87 | the server of a stored key is one server: no two have the same number |
| `Pairing.PinNeedsVerify` | src/raop/handlers_ap2.rs:171-193 | with a PIN set a session secret comes only from a completed verify whose controller signed both ephemeral keys with the key then stored |
| `Pairing.KeySource` | src/raop/handlers_ap2.rs:101-114 | a key in the store was there from the start, was put by another connection, or was stored by a logged setup |
| `Pairing.PinSecretNeedsProof` | src/raop/handlers_ap2.rs:53-193 | with a PIN, an empty store and no foreign put, a session secret implies, earlier and in this order: a server for normal pairing, its accepted proof, the stored key of a controller that signed, and the verify of that controller |
| `Pairing.EncryptionStays` | src/raop/connection.rs:240-316 | once encrypted a connection stays so, under the same key |
| `Pairing.ResponsesStayEncrypted` | src/raop/connection.rs:240-316 | responses are encrypted from the first encrypted one on |
| `Pairing.EncryptedExactly` | src/raop/connection.rs:255-293 | a response is encrypted exactly when an earlier response followed a secret that makes a channel |
| `Pairing.LastPlaintext` | src/raop/connection.rs:255-293 | the response that completes pairing is the last one in the clear |
| `Pairing.HonestTransientPairing` | src/raop/handlers_ap2.rs:69-100 | the two messages of an honest client leave its session key as the secret of the connection and bring it the proof it expects |
| `Pairing.HonestPinPairing` | src/raop/handlers_ap2.rs:69-114 | with any PIN, the three messages of an honest client that knows it leave its key in the store |
| `Pairing.HonestVerify` | src/raop/handlers_ap2.rs:152-191 | with any PIN, a controller whose key is stored completes the verify exchange: the connection has the secret the controller computes, and encrypts under it |
| `PairingHandlers.PairVerifyServer.First` | src/crypto/pairing_homekit.rs:617-674 | the first verify message and its reply |
| `PairingHandlers.PairVerifyServer.Third` | src/crypto/pairing_homekit.rs:680-756 | the third verify message, checked against the stored keys |
| `PairingHandlers.PairingConnection.constructor` | src/raop/connection.rs:155-180 | a connection before any pairing |
| `PairingHandlers.PairingConnection.HandlePairSetup` | src/raop/handlers_ap2.rs:53-127 | the setup handler over its objects: new fields, store and reply |
| `PairingHandlers.PairingConnection.HandlePairVerify` | src/raop/handlers_ap2.rs:131-193 | the verify handler over its objects |
| `PairingHandlers.PairingConnection.ConnRequest` | src/raop/connection.rs:240-263 | dispatch, and the secret queued for after the response |
| `PairingHandlers.PairingConnection.AfterResponse` | src/raop/connection.rs:276-293 | the queued secret becomes the cipher, once |
| `PairingHandlers.PairingConnection.ServeRequest` | src/net/server.rs:383-407 | one request to after its response moves the history as the machine says |
| `Playout.DueExactly` | src/raop/buffered_audio.rs:898-909 | a frame is taken exactly when its time has come, up to half the timestamp space late |
| `Playout.NeverEarly` | src/raop/buffered_audio.rs:898-909 | no frame is taken before its time, however long ago the anchor was set |
| `Playout.NeverEarlyInTime` | src/raop/buffered_audio.rs:898-909 | the same in nanoseconds since the anchor |
| `Playout.StaleExactly` | src/raop/buffered_audio.rs:517-552 | starting discards a frame exactly when it lies, with the lead, more than half the timestamp space after the first |
| `Playout.StartKeepsAll` | src/raop/buffered_audio.rs:517-552 | starting discards nothing when all timestamps lie within half the space, less the lead, of the smallest |
| `Playout.Ascending` | src/raop/buffered_audio.rs:903-909 | keys in strictly ascending order, all of them |
| `Playout.StepInv` | src/raop/buffered_audio.rs:511-578 | every insertion, command and turn of delivery keeps the invariant |
| `Playout.HandedOutOnce` | src/raop/buffered_audio.rs:864-913 | over every interleaving no frame is handed out twice |
| `Playout.NoneHandedOutEarly` | src/raop/buffered_audio.rs:864-913 | over every interleaving no frame is handed out before its time, and each under the timestamp it was inserted with |
| `Playout.EveryFrameAccounted` | src/raop/buffered_audio.rs:511-578 | every inserted frame is buffered, was handed out, was replaced at its timestamp or was discarded |
| `Playout.FateFinalRun` | src/raop/buffered_audio.rs:511-578 | what became of a frame is final |
| `Playout.DiscardedExactly` | src/raop/buffered_audio.rs:511-578 | a waiting frame is discarded exactly by stop, the end of the receiver, a flush over it, or a start it is stale for |
| `Playout.NothingAfterStop` | src/raop/buffered_audio.rs:875-880 | no batch is taken after stop |
| `Playout.PausedTurn` | src/raop/buffered_audio.rs:875-912 | while paused nothing is handed out, except that a pending flush hands out whatever is due: the exact condition |
| `Playout.PausedFlushPlays` | src/raop/buffered_audio.rs:875-912 | at any clock reading, a flush that hands out a frame although playback never started |
| `Playout.OldestFirst` | src/raop/buffered_audio.rs:903-912 | of two frames of a batch the older goes first exactly when the far end of the timestamp circle does not lie between them |
| `Playout.BatchOldestFirst` | src/raop/buffered_audio.rs:903-912 | a batch is handed out oldest first exactly when all its timestamps lie on one side of that end |
| `Playout.NewerFirst` | src/raop/buffered_audio.rs:903-912 | at any clock reading, a run from the start, across the wrap, whose hand-outs show the newer frame first |
| `Playout.PlayoutState.constructor` | src/raop/buffered_audio.rs:598-610 | the initial state |
| `Playout.PlayoutState.ApplyCommand` | src/raop/buffered_audio.rs:511-578 | each command's new state |
| `Playout.PlayoutState.TakeReady` | src/raop/buffered_audio.rs:873-913 | a turn of delivery: the batch, the flush and the new state |
| `Playout.Perform` | src/raop/buffered_audio.rs:511-913 | one step of whichever thread holds the lock is one step of the machine |
| `Playout.PerformAll` | src/raop/buffered_audio.rs:511-913 | a new object taken through any sequence of steps hands out the frames of the run, in its order, and ends in its state |

## Left out

- ALAC frames outside the profile of `AlacFrame.InProfile`: history multipliers above 63 and a sample width of zero bits. The history overflows or a shift is out of range there, and callers catch the panic.
- Builds with overflow checks: where the 32-bit unmixing wraps or shifts by 32 or more, or a coefficient wraps to 16 bits, the model does what a release build does; a build with checks panics and the frame is refused.
- AlacDecoder.Decoder.DecodeInto: requires accepted frames to lie in that profile.
- `set_info` and the parsing of SDP attributes: the configuration is a parameter.
- `decode_frame_f32` and all floating-point work: samples are integers, so the scaling of the ring's samples to floats, mixing down, resampling and volume are not modelled.
- Ring.RaopBuffer.StorePacket: decryption and ALAC decoding of a payload are a parameter of the ring; the flags, timestamp and source fields of an entry are never read by the code and are not kept.
- The UDP receive loop, resend requests and their timing.
- The httparse grammar: any function of the buffer that, when complete, has consumed all of it.
- Body deadlines, idle timeouts and write failures of the connection loop: an answer says whether the connection stays open.
- Pipeline.ReadsConcat: is per encryption mode; plaintext left over at the moment encryption starts is still parsed as plaintext, so the switch itself depends on how the stream was cut.
- Pairing.LastPlaintext: assumes channel keys can be derived; `Pairing.EncryptedExactly` is the statement without that assumption.
- The AirPlay 1 pairing that answers messages without a state entry: it touches none of the modelled fields.
- The contents of the sixth setup message and of the encrypted part of the second verify message: foreign functions of the session keys.
- Two pairing connections at once: the other one appears through the keys it puts into the store.
- Constant-time comparison and the erasing of secrets.
- FairPlay, RSA, AAC, mDNS, DACP, NTP and PTP, HLS and video streams, metadata, the server builder and its callbacks: plumbing, foreign code or tables without an independent specification.
- Playout.HandedOutOnce: lateness is in frames since the anchor in force at the hand-out; a command may move the anchor before that.
- Playout.NothingAfterStop: a batch taken before the stop is still played after it, since the lock is released first; the playing of a batch is not modelled.
- The wake-up of the delivery thread: a turn happens whenever its guard allows one, not within a bounded time.
