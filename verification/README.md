# A verified model of libsrtp-rs

libsrtp-rs protects RTP and RTCP packets (RFC 3711, RFC 6188, RFC 7714). This project models its
stateful core in Dafny, from the replay bitmaps up to whole sessions, and proves what that core
promises for every input and every run. The ciphers themselves stay abstract.

## Layout

Each layer has a specification on values, theorems about it, and, where the original updates objects
in place, classes whose methods are proved to do exactly what the specification says.

- `Types`, `Bits`, `Octets`: machine types, operations of a big integer, big-endian byte strings.
- `SlidingWindow`, `ReplayIndex`: a replay window as a set of remembered indexes, the RTP index
  estimator, and the cyclic SRTCP index unwrapped to an unbounded one.
- `Replay`: the two index databases as objects holding a bitmap and a mask.
- `Profile`, `Crypto`: profile sizes; AES, HMAC-SHA1 and AES-GCM as any functions of the right
  output lengths where opening inverts sealing; the keystream and the key derivation on top of them.
- `InitVector`: the XOR loops that build initialisation vectors, the formulas they compute, and
  when two vectors or two counter blocks can be equal.
- `Header`, `Trailer`: the header parsers against encoders of RTP and RTCP packets, and what follows
  a payload.
- `AesCmSha1`, `AesGcm`, `Transform`: packet protection and its inverse.
- `Packets`: what is on the wire, byte by byte, and what a sender and a receiver answer.
- `StreamConfig`: master keys, key lives, validation, and the transforms built from a configuration.
- `StreamSpec`, `StreamRuns`, `Streams`: one stream as a state machine, its runs, and the objects.
- `StreamOutcomes`, `SessionOutcomes`: what each operation of a stream and each call of a session
  answers and leaves behind, stated on states alone.
- `TwoParty`, `TwoPartyRtcp`: a sender, a receiver and a network that loses, repeats and reorders, for
  SRTP and for SRTCP.
- `SessionSpec`, `SessionRuns`, `SessionRtcp`, `SessionVectors`: sessions with template streams, their
  runs, and the vectors their packets are encrypted under.
- `AnyStream`, `Sessions`: the session object.

In `Streams` and `Sessions` the objects have a `View()`, the value the specification speaks about;
every method says that `(View(), result)` is what the specification computes from `old(View())`.
A hash map is visited in an order nobody knows, so the methods return that order as a ghost result
and the theorems hold for every order.

## Promises that hold only under a condition

- Changing the window size forgets an index if and only if it uncovers a position, of an index the
  database can hold, whose mark is already lost (`SlidingWindow.ResizeKeepsSeen`, with a concrete loss
  in `SlidingWindow.EnlargingForgets`). RTP indexes are not negative; unwrapped SRTCP indexes may be.
  The theorems on runs assume that re-keying is safe in that exact sense. A caller is safe with a size
  that does not grow and, for RTP, with any size while the newest index is below the current one
  (`SlidingWindow.SafeSizes`).
- An SRTCP index exactly 2^30 ahead, cyclically, of the newest one is looked up as future and
  recorded as past, so accepting it leaves no trace (`ReplayIndex.BlindSpotLeavesNoTrace`). Every other
  accepted index is refused afterwards, and this one never is (`ReplayIndex.RtcpReplayRefusedIff`);
  `ReplayIndex.RtcpBlindSpotRepeats` accepts one twice.
- The crate's README promises that the SRTCP index may roll over when several MKIs are in use. The
  index repeats if and only if more than 2^31 SRTCP packets are sent on the stream
  (`StreamRuns.RtcpIndexesDistinctIff`). It repeats under one key if and only if that key is used for
  two packets a multiple of 2^31 apart (`StreamRuns.KeyIndexesDistinctIff`). A single master key,
  however often the stream is re-keyed with it, rules that out (`StreamRuns.SingleKeyNeverRepeats`, and
  `SessionVectors.RtcpIvsNeverRepeat` for a whole session); with two, the first may protect two packets
  under one index (`StreamRuns.TwoKeysCanRepeat`, for the sender of `StreamRuns.TwoKeySenderExists`).
- `validate` accepts a GCM profile beside a profile that is not GCM, when no salt is given; then no
  transform can be built (`StreamConfig.MixedProfilesCannotBuild`). For all other accepted
  configurations every transform can (`StreamConfig.ValidationSound`).
- RTP indexes are not protected against passing 2^48: initialisation vectors agree exactly when the
  SSRC and the index modulo 2^48 do (`SessionVectors.IvEqualIff`). Below 2^48 no two packets of a
  session share one (`SessionVectors.IvsNeverRepeat`).
- The receiver recovers the index of a packet from its sequence number less than 2^15 away from the
  newest one; `ReplayIndex.EstimateRecovers` lists the few farther ones it also recovers.

Where comments and code disagree, the model follows the code:

- `set_keys_lifetime` is documented to want limits below the lives; equal ones are accepted
  (`libsrtp/src/stream.rs:97-104`).
- `set_roc` of a session is documented to want a ROC "lower or equal"; a lower one is refused
  (`libsrtp/src/session.rs:289-296`, `libsrtp/src/stream.rs:623-630`).
- The receiver ignores the E flag of an SRTCP packet: a packet is decrypted when the profile says so.

## Model

| member | source | states |
|---|---|---|
| `SlidingWindow.AddKeepsSeen` | libsrtp/src/replay.rs:65-103 | An index that was refused, or was just added, is refused after any addition. |
| `SlidingWindow.SeenAfterAdd` | libsrtp/src/replay.rs:65-103 | Exactly which indexes an addition makes refused: the new one, and those it pushes out of the window. |
| `SlidingWindow.ResizeKeepsSeen` | libsrtp/src/replay.rs:105-107 | Among the indexes from a given one on, a change of size forgets none if and only if it uncovers no lost mark there. |
| `SlidingWindow.SafeSizes` | libsrtp/src/replay.rs:105-107 | A size that does not grow is safe, and so is any size while no index has left the window. |
| `SlidingWindow.EnlargingForgets` | libsrtp/src/replay.rs:105-107 | A concrete run in which enlarging the window re-admits an index already added. |
| `SlidingWindow.WindowIsHistory` | libsrtp/src/replay.rs:65-103 | After any additions and changes of size that lose no mark, an index is refused exactly when it is not ahead and is too old or was ever added. |
| `Replay.BitOfMoved` | libsrtp/src/replay.rs:69-79 | Every bit of the bitmap after shift, crop and set, in terms of the bits before. |
| `Replay.Advance` | libsrtp/src/replay.rs:68-79 | Shift, crop and set-bit refine the set-based window moving forward, and the bitmap never outgrows the mask. |
| `Replay.Mark` | libsrtp/src/replay.rs:80-85 | Setting a bit of the bitmap adds exactly one older index to the set. |
| `Replay.Shift` | libsrtp/src/replay.rs:68-79 | The statements that move the window, proved against the set-based window. |
| `Replay.SetOld` | libsrtp/src/replay.rs:80-85 | The statement that marks an old index, proved against the set-based window. |
| `Replay.RtpReplayDb.constructor` | libsrtp/src/replay.rs:24-33 | A new database has index 0, an empty window and no forced ROC; its widest window is this one. |
| `Replay.RtpReplayDb.EstimateIndex` | libsrtp/src/replay.rs:35-53 | The guess computed by adjustment equals the specified estimate. |
| `Replay.RtpReplayDb.GetRoc` | libsrtp/src/replay.rs:55-57 | The ROC is the high 32 bits of the newest index. |
| `Replay.RtpReplayDb.SetRoc` | libsrtp/src/replay.rs:61-63 | Only the forced ROC changes. |
| `Replay.RtpReplayDb.AddIndex` | libsrtp/src/replay.rs:65-88 | The bitmap update is the window's addition; the forced ROC is cleared; the bitmap never has more bits than the widest window so far, or one. |
| `Replay.RtpReplayDb.SeenIndex` | libsrtp/src/replay.rs:90-103 | The bitmap query answers exactly whether the window refuses the index. |
| `Replay.RtpReplayDb.SetWindowSize` | libsrtp/src/replay.rs:105-107 | Only the size of the window changes, and the widest window is the larger of the two. |
| `Replay.RtcpReplayDb.constructor` | libsrtp/src/replay.rs:129-137 | A new database has index 0 and an empty window. |
| `Replay.RtcpReplayDb.AddIndex` | libsrtp/src/replay.rs:139-186 | All branches of the cyclic update are the addition of the unwrapped index to an unbounded window, with the same bound on the bitmap. |
| `Replay.RtcpReplayDb.SeenIndex` | libsrtp/src/replay.rs:188-222 | The cyclic query is the query of the unbounded window, except at distance 2^30. |
| `Replay.RtcpReplayDb.SetWindowSize` | libsrtp/src/replay.rs:224-227 | Only the size of the window changes, and the widest window is the larger of the two. |
| `ReplayIndex.RtpIndex.Estimate` | libsrtp/src/replay.rs:35-53 | The estimate has the packet's sequence number and stays below 2^48 + 2^16, so 64 bits suffice. |
| `ReplayIndex.EstimateIsNearest` | libsrtp/src/replay.rs:35-53 | No index with the same sequence number is nearer to the newest one. |
| `ReplayIndex.EstimateRecovers` | libsrtp/src/replay.rs:35-53 | Exactly which true indexes are recovered from their sequence number. |
| `ReplayIndex.EstimateIsAppendixA` | libsrtp/src/replay.rs:35-53 | The estimate is the pseudocode of RFC 3711 Appendix A, with ROC 0 never lowered. |
| `ReplayIndex.UnwrapIsNearest` | libsrtp/src/replay.rs:139-186 | The unwrapped index is congruent to the cyclic one and the nearest such number. |
| `ReplayIndex.UnwrapRecovers` | libsrtp/src/replay.rs:139-186 | Every true SRTCP index less than 2^30 away is recovered, across any number of rollovers. |
| `ReplayIndex.RtcpIsHistory` | libsrtp/src/replay.rs:139-222 | Outside the blind spot an index is refused exactly when, unwrapped, it is not ahead and is too old or was recorded. |
| `ReplayIndex.RtcpReplayRefusedIff` | libsrtp/src/replay.rs:139-222 | An accepted SRTCP index is refused right afterwards if and only if it was not 2^30 ahead. |
| `ReplayIndex.RtcpAcceptedOnce` | libsrtp/src/replay.rs:139-222 | Along any run, an unwrapped SRTCP index is accepted again only if it is at distance 2^30 at that moment. |
| `ReplayIndex.BlindSpotLeavesNoTrace` | libsrtp/src/replay.rs:145-194 | An index at that distance is always accepted and recording it changes nothing. |
| `ReplayIndex.RtcpBlindSpotRepeats` | libsrtp/src/replay.rs:145-194 | At that distance the same index is accepted twice, from the first packet on. |
| `Crypto.AesCmKdf` | libsrtp/src/key_derivation.rs:34-74 | Derivation succeeds exactly for keys of 16, 24 or 32 bytes, else answers `InvalidKeySize`, and yields the size its label asks for. |
| `Profile.ProfileSizes` | libsrtp/src/protection_profile.rs:23-74 | The key, tag and salt lengths of all twelve profiles, and which are GCM. |
| `Crypto.KeystreamEncrypts` | libsrtp/src/transform/aes_cm_sha1.rs:186-210 | XOR with the keystream encrypts byte k with byte k mod 16 of the cipher on the vector counted up k / 16 times in its last four bytes. |
| `Crypto.LabelTable` | libsrtp/src/key_derivation.rs:10-32 | The six labels of RFC 3711 section 4.3.2 and the sizes of the keys they stand for. |
| `InitVector.PrfInputIsRfc` | libsrtp/src/key_derivation.rs:44-51 | The padded salt with the label in byte 7 is the number (master_salt XOR label * 2^48) * 2^16 of RFC 3711 section 4.3.1. |
| `InitVector.DerivedKeyIsRfc` | libsrtp/src/key_derivation.rs:34-74 | The derived bytes are the counter-mode keystream of the master key from that input. |
| `InitVector.DerivedKeyBytes` | libsrtp/src/key_derivation.rs:34-74 | Byte k of a derived key is byte k mod 16 of the cipher, under the master key, on the block whose number is that of the RFC plus k / 16. |
| `InitVector.CounterIsSum` | libsrtp/src/transform/aes_cm_sha1.rs:186-210 | The j-th counter block is the one whose 128-bit number is the vector plus j, for j below 2^16. |
| `InitVector.KdfBlocksDisjoint` | libsrtp/src/key_derivation.rs:10-17 | Keys with different labels come from counter blocks that never coincide. |
| `InitVector.CmRtpIv` | libsrtp/src/transform/aes_cm_sha1.rs:171-184 | The XOR loop computes (k_s * 2^16) XOR (SSRC * 2^64) XOR (i * 2^16) of RFC 3711 section 4.1.1. |
| `InitVector.CmRtcpIv` | libsrtp/src/transform/aes_cm_sha1.rs:237-247 | The same formula for SRTCP, with the 31-bit index. |
| `InitVector.GcmRtpIv` | libsrtp/src/transform/aes_gcm.rs:79-95 | The XOR loop computes the 96-bit vector of RFC 7714 section 8.1 as a number. |
| `InitVector.GcmRtcpIv` | libsrtp/src/transform/aes_gcm.rs:97-109 | The same for SRTCP, RFC 7714 section 9.1. |
| `InitVector.CmIvBytes` | libsrtp/src/transform/aes_cm_sha1.rs:171-184 | The formula on 128-bit numbers equals a byte-wise XOR with packed fields that do not overlap. |
| `InitVector.GcmIvBytes` | libsrtp/src/transform/aes_gcm.rs:79-95 | The same for the 96-bit vector. |
| `InitVector.CmIvInjective` | libsrtp/src/transform/aes_cm_sha1.rs:171-184 | Under one salt, equal counter-mode vectors mean equal SSRC and index. |
| `InitVector.GcmIvInjective` | libsrtp/src/transform/aes_gcm.rs:79-95 | Under one salt, equal GCM vectors mean equal SSRC and index. |
| `InitVector.CounterBlocksDisjoint` | libsrtp/src/transform/aes_cm_sha1.rs:171-190 | For payloads of at most 2^16 blocks, counter blocks of packets with different SSRC or index never coincide. |
| `Header.ParseRtp` | libsrtp/src/header.rs:80-135 | An accepted header is at least 12 bytes and fits the packet, which bounds every later slice; the only error is `InvalidPacket`. |
| `Header.ParseRtcp` | libsrtp/src/header.rs:48-67 | An accepted packet holds the 8-byte header, and the only error is `InvalidPacket`. |
| `Header.NewRtpHeader` | libsrtp/src/header.rs:80-135 | The accumulating parser, check by check, agrees with the specification and never reads out of range. |
| `Header.ParseEncoded` | libsrtp/src/header.rs:80-135 | Every RTP packet built from its fields parses to those fields and the right header length. |
| `Header.ParsedIsEncoded` | libsrtp/src/header.rs:80-135 | Conversely every accepted packet is built from fields: the parser accepts nothing else. |
| `Header.RtpAcceptedIff` | libsrtp/src/header.rs:80-135 | A byte string is accepted if and only if some fields encode to it, and refused with `InvalidPacket` otherwise. |
| `Header.ParseRtcpEncoded` | libsrtp/src/header.rs:48-67 | Every RTCP packet built from its fields parses to its SSRC. |
| `Header.ParsedRtcpIsEncoded` | libsrtp/src/header.rs:48-67 | Conversely every accepted packet is built from fields, with the SSRC that was parsed. |
| `Header.RtcpAcceptedIff` | libsrtp/src/header.rs:48-67 | Accepted are exactly the encoded packets; refused exactly what is shorter than 8 bytes or of another version than 2. |
| `Header.ParseRtpLocal` | libsrtp/src/header.rs:80-135 | Parsing depends on the header bytes alone, so protection does not change the parsed header. |
| `Header.ParseRtcpLocal` | libsrtp/src/header.rs:48-67 | The same for RTCP. |
| `AesCmSha1.NewCm` | libsrtp/src/transform/aes_cm_sha1.rs:35-152 | Exactly which profiles and key sizes give a transform, which error otherwise, that every session key is derived under its own label, and that the transform is ready for use. |
| `AesCmSha1.RtpEncrypt` | libsrtp/src/transform/aes_cm_sha1.rs:154-217 | The payload is XORed with the keystream of the RFC's vector and the header is untouched. |
| `AesCmSha1.RtcpEncrypt` | libsrtp/src/transform/aes_cm_sha1.rs:219-274 | The same for SRTCP. |
| `AesCmSha1.RtpProtect` | libsrtp/src/transform/aes_cm_sha1.rs:317-340 | Encrypting, then appending MKI and tag, gives the SRTP packet layout of RFC 3711 section 3.1. |
| `AesCmSha1.RtcpProtect` | libsrtp/src/transform/aes_cm_sha1.rs:342-368 | The SRTCP packet layout of RFC 3711 section 3.4, with the E flag of the profile. |
| `AesCmSha1.RtpUnprotect` | libsrtp/src/transform/aes_cm_sha1.rs:370-406 | Total on all byte strings: length check, tag check, truncation, decryption, with each error. |
| `AesCmSha1.RtcpUnprotect` | libsrtp/src/transform/aes_cm_sha1.rs:408-437 | The same for SRTCP. |
| `AesCmSha1.RtpCryptInvolutive` | libsrtp/src/transform/aes_cm_sha1.rs:154-217 | Encrypting twice gives the packet back, and the header stays clear. |
| `AesCmSha1.RtcpCryptInvolutive` | libsrtp/src/transform/aes_cm_sha1.rs:219-274 | The same for SRTCP. |
| `AesCmSha1.RtpInverse` | libsrtp/src/transform/aes_cm_sha1.rs:317-406 | A packet yields `plain` if and only if it is the SRTP packet of `plain`. |
| `AesCmSha1.RtcpInverse` | libsrtp/src/transform/aes_cm_sha1.rs:342-437 | The same for SRTCP, for either value of the E flag. |
| `AesGcm.NewGcm` | libsrtp/src/transform/aes_gcm.rs:30-77 | The same for GCM, with salts cut to 12 bytes. |
| `AesGcm.RtpProtect` | libsrtp/src/transform/aes_gcm.rs:111-265 | Sealing in place and appending the MKI gives the layout header, ciphertext, tag, MKI. |
| `AesGcm.RtcpProtect` | libsrtp/src/transform/aes_gcm.rs:177-284 | The layout header, ciphertext, tag, trailer word, MKI, with the word in the associated data. |
| `AesGcm.RtpUnprotect` | libsrtp/src/transform/aes_gcm.rs:144-309 | Total on all byte strings, with each error. |
| `AesGcm.RtcpUnprotect` | libsrtp/src/transform/aes_gcm.rs:214-329 | The same for SRTCP. |
| `AesGcm.RtpInverse` | libsrtp/src/transform/aes_gcm.rs:111-309 | A packet yields `plain` if and only if it is the SRTP packet of `plain`. |
| `AesGcm.RtcpInverse` | libsrtp/src/transform/aes_gcm.rs:177-329 | The same for SRTCP. |
| `Transform.RtpProtect` | libsrtp/src/transform/mod.rs:6-11 | The transform behind the interface, of either kind, computes the specified result. |
| `Transform.RtcpProtect` | libsrtp/src/transform/mod.rs:12-17 | The transform behind the interface, of either kind, computes the specified result. |
| `Transform.RtpUnprotect` | libsrtp/src/transform/mod.rs:19-24 | The transform behind the interface, of either kind, computes the specified result. |
| `Transform.RtcpUnprotect` | libsrtp/src/transform/mod.rs:25-31 | The transform behind the interface, of either kind, computes the specified result. |
| `Transform.RtpLengths` | libsrtp/src/transform/aes_cm_sha1.rs:317-340 | A protected packet has the header of the plain one, grows by a known amount, and carries the MKI where the receiver looks. |
| `Transform.RtcpLengths` | libsrtp/src/transform/aes_cm_sha1.rs:342-368 | The same for SRTCP, with the trailer word where the receiver looks for it. |
| `Transform.RtpExact` | libsrtp/src/transform/aes_gcm.rs:252-309 | For every transform: the receiver obtains `plain` from a packet carrying its MKI if and only if the sender makes that packet from `plain`. |
| `Transform.RtcpExact` | libsrtp/src/transform/aes_gcm.rs:267-329 | The same for SRTCP, for the index and E flag in the trailer. |
| `Transform.RtpVectorUsed` | libsrtp/src/transform/aes_cm_sha1.rs:154-217 | The payload of every protected RTP packet is the plaintext, encrypted byte by byte with counter blocks of the vector of its header and ROC, or sealed under that vector. |
| `Transform.RtcpVectorUsed` | libsrtp/src/transform/aes_cm_sha1.rs:219-274 | The same for SRTCP and its index. |
| `Packets.RtpVectorBytes` | libsrtp/src/transform/aes_cm_sha1.rs:171-184 | For either kind of transform the vector is, byte by byte, the session salt XORed with SSRC, ROC and sequence number in their places. |
| `Packets.RtcpVectorBytes` | libsrtp/src/transform/aes_cm_sha1.rs:237-247 | The same for SRTCP, with SSRC and index. |
| `Packets.RtpCipherByte` | libsrtp/src/transform/aes_cm_sha1.rs:154-217 | In counter mode byte k of the payload sent is the plain one XORed with byte k mod 16 of the cipher on the vector plus k / 16, as numbers. |
| `Packets.RtcpCipherByte` | libsrtp/src/transform/aes_cm_sha1.rs:219-274 | The same for SRTCP. |
| `Packets.RtpTagged` | libsrtp/src/transform/aes_cm_sha1.rs:276-294 | A counter-mode packet ends with the left-most bytes of the HMAC over what precedes MKI and tag, followed by the ROC. |
| `Packets.RtcpTagged` | libsrtp/src/transform/aes_cm_sha1.rs:296-313 | An SRTCP packet ends with the first 10 bytes of the HMAC over everything up to and with the trailer word. |
| `Packets.CmRtpVerdict` | libsrtp/src/transform/aes_cm_sha1.rs:370-406 | A counter-mode receiver answers Ok exactly for packets long enough that carry that HMAC, `InvalidPacket` for too short ones and `Authentication` for all others. |
| `Packets.CmRtcpVerdict` | libsrtp/src/transform/aes_cm_sha1.rs:408-437 | The same for SRTCP, with the trailer the stream has measured. |
| `Packets.GcmRtpVerdict` | libsrtp/src/transform/aes_gcm.rs:144-309 | A GCM receiver answers Ok exactly for packets that sealing some plaintext under the vector of the header gives, and which error otherwise. |
| `Packets.GcmRtcpVerdict` | libsrtp/src/transform/aes_gcm.rs:214-329 | The same for SRTCP, where header and trailer word with the E flag are the associated data. |
| `Packets.RtpSendVerdict` | libsrtp/src/transform/aes_gcm.rs:111-265 | A counter-mode sender never fails; a GCM sender fails, with `Encryption`, exactly when sealing does. |
| `Packets.RtcpSendVerdict` | libsrtp/src/transform/aes_gcm.rs:177-284 | The same for SRTCP. |
| `Packets.RtpClear` | libsrtp/src/transform/aes_cm_sha1.rs:317-340 | A profile without a cipher sends the whole packet in the clear. |
| `Packets.RtcpClear` | libsrtp/src/transform/aes_cm_sha1.rs:342-368 | The same for SRTCP. |
| `Packets.RtcpTrailerWord` | libsrtp/src/transform/aes_cm_sha1.rs:342-368 | In every SRTCP packet the E flag is set if and only if the packet is encrypted, and the 31 bits below it are the index. |
| `Transform.RtpIvEqualIff` | libsrtp/src/transform/aes_cm_sha1.rs:171-184 | Under one salt the vectors of two packets are equal if and only if SSRC, ROC and sequence number are. |
| `Transform.RtcpIvEqualIff` | libsrtp/src/transform/aes_cm_sha1.rs:237-247 | Under one salt the SRTCP vectors of two packets are equal if and only if SSRC and index are. |
| `Transform.RtpBlocksDisjoint` | libsrtp/src/transform/aes_cm_sha1.rs:171-190 | When the vectors differ, no block encrypted for one packet is encrypted for the other, for at most 2^16 blocks. |
| `Transform.RtcpBlocksDisjoint` | libsrtp/src/transform/aes_cm_sha1.rs:237-250 | The same for SRTCP. |
| `StreamConfig.MasterKey.SetKeysLifetime` | libsrtp/src/stream.rs:90-112 | Exactly which lives and limits are accepted; then they are stored and nothing else changes. |
| `StreamConfig.SetKeysLifetimeMki` | libsrtp/src/stream.rs:218-233 | The first key filed under the MKI gets the lives, no other changes; exactly when it fails. |
| `StreamConfig.KillKeyKills` | libsrtp/src/stream.rs:218-233 | Setting a key's lives to zero keeps a valid configuration valid, kills that key and no other. |
| `StreamConfig.ValidateKeys` | libsrtp/src/stream.rs:262-295 | The loop accepts exactly the keys of equal sizes with MKIs all present, distinct, and of equal length except that the first may be empty. |
| `StreamConfig.OneKeyValidIff` | libsrtp/src/stream.rs:244-328 | For one key: exactly which tag, key and salt lengths of the two profiles a configuration may have. |
| `StreamConfig.ManyKeysValidIff` | libsrtp/src/stream.rs:262-328 | For several: each could stand alone and has an MKI, sizes agree, MKIs are distinct and of one length, but the first may be empty. |
| `StreamConfig.Validate` | libsrtp/src/stream.rs:244-328 | Accepts exactly the valid configurations and answers `InvalidProfile` for all others. |
| `StreamConfig.ValidKeys` | libsrtp/src/stream.rs:244-328 | Key sizes are 16, 24 or 32, sizes agree, MKIs are distinct, and of one length when the first is non-empty. |
| `StreamConfig.GetTransforms` | libsrtp/src/stream.rs:765-816 | The loop files one transform per key and stops at the first that cannot be built. |
| `StreamConfig.TransformsBuilt` | libsrtp/src/stream.rs:765-816 | The map has exactly one working entry per key: with the profiles of the configuration, session keys derived from that master key and salt under the six labels, its MKI and its lives. |
| `StreamConfig.ValidationSound` | libsrtp/src/stream.rs:244-328 | For a validated configuration the transforms can be built, each from the key it is filed for, if and only if both profiles are GCM or neither is; otherwise the answer is `TransformDispatch`. |
| `StreamConfig.MixedProfilesCannotBuild` | libsrtp/src/stream.rs:244-328 | A configuration that is validated and cannot be built: counter mode for RTP, GCM for RTCP, no salt. |
| `StreamSpec.Base.CheckKeyLimit` | libsrtp/src/stream.rs:477-511 | An operation is allowed exactly when its key has lives left. |
| `StreamSpec.Base.Spend` | libsrtp/src/stream.rs:355-371 | Only the lives of one key change; no key is added, lost or replaced. |
| `StreamSpec.Base.Kill` | libsrtp/src/stream.rs:513-518 | Both lives of the key are zero and no other key changes. |
| `StreamSpec.MergeKeeps` | libsrtp/src/stream.rs:450-464 | Merging, in any order and even when it stops half-way, keeps every entry there was and adds only entries of the new map. |
| `StreamSpec.UpdateKeepsKeys` | libsrtp/src/stream.rs:428-467 | Re-keying, even failing, neither replaces an existing key's transform nor changes its lives. |
| `StreamSpec.SendRtp` | libsrtp/src/stream.rs:542-570 | A failure leaves indexes, windows, forced ROC and lives untouched. |
| `StreamSpec.SendRtcp` | libsrtp/src/stream.rs:572-594 | The same. |
| `StreamSpec.ReceiveRtp` | libsrtp/src/stream.rs:632-662 | The same, for any byte string. |
| `StreamSpec.ReceiveRtcp` | libsrtp/src/stream.rs:664-707 | The same, for any byte string. |
| `StreamSpec.NewStreamValid` | libsrtp/src/stream.rs:409-426 | A stream made from a validated configuration is valid. |
| `Streams.BaseStream.constructor` | libsrtp/src/stream.rs:410-426 | A new base is the specified one. |
| `Streams.BaseStream.Update` | libsrtp/src/stream.rs:428-467 | Re-keying in place is the specified update, for the order in which the map was visited. |
| `Streams.BaseStream.MergeTransforms` | libsrtp/src/stream.rs:450-464 | The merge loop is the specified merge, and when it succeeds it has visited every new key. |
| `Streams.BaseStream.CheckKeyLimit` | libsrtp/src/stream.rs:477-511 | The check in place is the specified one. |
| `Streams.BaseStream.Decrease` | libsrtp/src/stream.rs:355-371 | Decrementing one counter, and zeroing the other at the end, spends one life; nothing underflows. |
| `Streams.BaseStream.KillSessionKeys` | libsrtp/src/stream.rs:513-518 | The specified kill. |
| `Streams.SendStream.RtpProtect` | libsrtp/src/stream.rs:542-570 | In place: estimate, replay check, key check, protection, life, index, in the specified way. |
| `Streams.SendStream.RtcpProtect` | libsrtp/src/stream.rs:572-594 | The same for SRTCP, with the counter modulo 2^31. |
| `Streams.RecvStream.GetMki` | libsrtp/src/stream.rs:598-621 | The MKI read is the one right before the tag, and a short packet is refused. |
| `Streams.RecvStream.SetRoc` | libsrtp/src/stream.rs:623-630 | A ROC below the current one is refused, any other is pending. |
| `Streams.RecvStream.RtpUnprotect` | libsrtp/src/stream.rs:632-662 | In place, the specified reception, for any byte string. |
| `Streams.RecvStream.RtcpUnprotect` | libsrtp/src/stream.rs:664-707 | In place, the specified reception, for any byte string. |
| `Streams.RecvStream.Update` | libsrtp/src/stream.rs:749-753 | The SRTCP window is resized exactly when the base accepted the update. |
| `Streams.NewSendStream` | libsrtp/src/stream.rs:712-721 | A fresh stream in the specified state, or the specified error. |
| `Streams.NewRecvStream` | libsrtp/src/stream.rs:736-747 | A fresh stream in the specified state, or the specified error. |
| `StreamOutcomes.NewStreamOutcome` | libsrtp/src/stream.rs:409-426 | A new stream starts at index 0 with empty windows of the configured size, the configured flag, and for each key the transform derived from it; it cannot be built exactly for mixed profiles. |
| `StreamOutcomes.UpdateOutcome` | libsrtp/src/stream.rs:428-467 | An update succeeds exactly when the MKI length agrees and no MKI stands for another key; otherwise which error, and only entries can have been added. |
| `StreamOutcomes.UpdatedStream` | libsrtp/src/stream.rs:428-467 | After a successful update the stream holds each key of the configuration, derived from its master key, and its window size and flag; nothing else is new and indexes are kept. |
| `StreamOutcomes.MergeOutcome` | libsrtp/src/stream.rs:450-464 | Merging succeeds exactly when no common MKI has another transform, and then each visited key is there. |
| `StreamOutcomes.SetRocOutcome` | libsrtp/src/stream.rs:623-630 | A lower ROC is refused and changes nothing; any other is pending and nothing else changes. |
| `StreamOutcomes.ForcedIndex` | libsrtp/src/replay.rs:35-53 | While a ROC is pending, the index of a packet is that ROC and its sequence number. |
| `StreamOutcomes.SendRtpOutcome` | libsrtp/src/stream.rs:542-570 | Each error of a sender and when it is answered; with a new index, or repeats allowed, and a live key, the answer is that of the transform, one life is spent and the index recorded. |
| `StreamOutcomes.SendRtcpOutcome` | libsrtp/src/stream.rs:572-594 | The same for SRTCP; the counter goes up by one and from 2^31 - 1 to 0. |
| `StreamOutcomes.GetMkiOutcome` | libsrtp/src/stream.rs:598-621 | The MKI stands right before the tag and has the configured length; `InvalidPacket` exactly when there is no room for it. |
| `StreamOutcomes.ReceiveRtpOutcome` | libsrtp/src/stream.rs:632-662 | Each error of a receiver, in the order of its checks, and what a success changes. |
| `StreamOutcomes.ReceiveRtcpOutcome` | libsrtp/src/stream.rs:664-707 | The same for SRTCP, with the index read from the trailer. |
| `StreamOutcomes.ReceivesExactly` | libsrtp/src/stream.rs:632-662 | A receiver takes a packet for `plain` if and only if its index is new, its key alive, and the packet is what a sender with that key makes of `plain`. |
| `StreamOutcomes.ReceivesRtcpExactly` | libsrtp/src/stream.rs:664-707 | The same for SRTCP. |
| `StreamRuns.StepValid` | libsrtp/src/stream.rs:542-707 | Every event keeps a stream valid. |
| `StreamRuns.Success` | libsrtp/src/stream.rs:542-707 | A success costs exactly one life of one key and one index, which was new. |
| `StreamRuns.SeenSticks` | libsrtp/src/stream.rs:623-662 | An RTP index once refused, or just used, is refused after any further event. |
| `StreamRuns.AtMostOnce` | libsrtp/src/stream.rs:632-662 | Along any run of packets, failures, forced ROCs, MKIs and re-keyings that lose no mark, no RTP index is accepted or protected twice. |
| `StreamRuns.RtcpAtMostOnce` | libsrtp/src/stream.rs:664-707 | The same for unwrapped SRTCP indexes, across any number of rollovers, except at distance 2^30. |
| `StreamRuns.RocNeverDecreases` | libsrtp/src/stream.rs:623-662 | Any event keeps a pending ROC at least the current one and, below index 2^48, never lowers the ROC. |
| `StreamRuns.RocOfReachable` | libsrtp/src/stream.rs:623-662 | In every state a new stream can reach a pending ROC is at least the current one, and the ROC is never lower in a later state. |
| `StreamRuns.PendingRocWaits` | libsrtp/src/replay.rs:55-88 | A pending ROC survives every failure and every event that is not an accepted RTP packet. |
| `StreamRuns.ForcedRocTakesEffect` | libsrtp/src/stream.rs:623-662 | The first RTP packet accepted after `set_roc(r)` leaves the stream at ROC r with nothing pending. |
| `StreamRuns.KeyBudget` | libsrtp/src/stream.rs:355-371 | Uses plus lives left equal the initial lives while a key is alive, never exceed them, and both counters reach zero together. |
| `StreamRuns.RtcpIndexesCount` | libsrtp/src/stream.rs:572-594 | The k-th SRTCP packet of any run uses the k-th index modulo 2^31. |
| `StreamRuns.RtcpIndexesDistinctIff` | libsrtp/src/stream.rs:572-594 | SRTCP indexes repeat if and only if more than 2^31 packets are sent. |
| `StreamRuns.KeyIndexesDistinctIff` | libsrtp/src/stream.rs:572-594 | One key protects two SRTCP packets under one index if and only if it is used for two packets a multiple of 2^31 apart. |
| `StreamRuns.SingleKeyNeverRepeats` | libsrtp/src/stream.rs:90-112 | With one master key, whatever re-keyings repeat it, its lives keep the counter from ever repeating. |
| `StreamRuns.TwoKeysCanRepeat` | libsrtp/src/stream.rs:572-594 | With two counter-mode keys, a run in which one key protects two packets under the same index. |
| `StreamRuns.TwoKeySenderExists` | libsrtp/src/stream.rs:409-426 | A new sender with two counter-mode keys and full lives is one to which this happens. |
| `TwoParty.RtpPacketReadable` | libsrtp/src/stream.rs:598-621 | The receiver parses the same header from a protected packet and finds the MKI again, for every profile. |
| `TwoParty.RtpDelivered` | libsrtp/src/stream.rs:632-662 | A packet less than 2^15 away is refused if seen, or if its key is missing or dead, and otherwise gives exactly the bytes sent. |
| `TwoParty.RtcpDelivered` | libsrtp/src/stream.rs:664-707 | The receiver recovers index, MKI and plaintext from the SRTCP trailer, for every 31-bit index and profile. |
| `TwoParty.OwnRingFits` | libsrtp/src/stream.rs:598-621 | The receiver of any configuration that can be built reads the MKI of every key it files, or has no key for what it reads. |
| `TwoParty.RekeyHolds` | libsrtp/src/stream.rs:428-467 | Re-keying, even failing half-way, files only keys of the new configuration, and keeps indexes and the tag and MKI lengths the receiver assumes. |
| `TwoParty.FreshLinked` | libsrtp/src/stream.rs:409-426 | Two new streams of one configuration agree on every key and start in step. |
| `TwoParty.RunFaithful` | libsrtp/src/stream.rs:428-662 | Sending, delivering and re-keying either side, in any order, preserve the two-party invariant. |
| `TwoParty.EndToEnd` | libsrtp/src/stream.rs:428-662 | Whatever the network does and however both sides are re-keyed from common keys, all the receiver accepts is what was sent, no index twice, and its index is the highest accepted and never passes the sender's. |
| `TwoParty.EndToEndOwnKeys` | libsrtp/src/stream.rs:542-662 | The same for every configuration that can be built, with its own keys only. |
| `TwoPartyRtcp.RunRtcpFaithful` | libsrtp/src/stream.rs:428-707 | Sending, delivering and re-keying for SRTCP, in any order, preserve the two-party invariant. |
| `TwoPartyRtcp.RtcpEndToEnd` | libsrtp/src/stream.rs:428-707 | For SRTCP, across rollovers and re-keying: all the receiver accepts is what was sent, no packet twice, and its index is the highest accepted. |
| `TwoPartyRtcp.RtcpEndToEndOwnKeys` | libsrtp/src/stream.rs:572-707 | The same for every configuration that can be built, with its own keys only. |
| `SessionSpec.DoValid` | libsrtp/src/session.rs:78-345 | Every public call keeps a session valid. |
| `SessionSpec.KillValid` | libsrtp/src/session.rs:194-211 | Killing a key everywhere keeps all streams and the template valid. |
| `SessionRuns.Reached` | libsrtp/src/session.rs:152-245 | What a packet changes in a session: its own stream steps, others lose at most lives, and a failed spawn is undone. |
| `SessionRuns.FailureLeavesNoTrace` | libsrtp/src/session.rs:184-194 | A failing packet leaves the set of SSRCs as it was, and all else too unless a template key was reported dead. |
| `SessionRuns.SpawnedHaveServed` | libsrtp/src/session.rs:152-212 | In every reachable session, a stream spawned from the template has completed a packet since its SSRC was last removed. |
| `SessionRuns.PairsUsedOnce` | libsrtp/src/session.rs:152-245 | Over a whole session no (SSRC, RTP index) is used twice, across spawns, roll-backs, MKIs, re-keying and key deaths. |
| `SessionRuns.CallsUseDifferentPairs` | libsrtp/src/session.rs:152-245 | No two calls of a run use the same pair. |
| `SessionRtcp.RtcpPairsUsedOnce` | libsrtp/src/session.rs:152-273 | Over a session whose streams each keep to a single master key, no (SSRC, SRTCP index) is used twice, across spawns, roll-backs, re-keying and key deaths. |
| `SessionVectors.UsedPairProtects` | libsrtp/src/session.rs:232-245 | The (SSRC, index) pair of a call is the one its packet was protected under, by the key of its MKI. |
| `SessionVectors.UsedRtcpProtects` | libsrtp/src/session.rs:263-273 | The same for SRTCP. |
| `SessionVectors.IvEqualIff` | libsrtp/src/transform/aes_cm_sha1.rs:171-184 | Two packets of sessions are encrypted under the same vector of one salt if and only if SSRC and index modulo 2^48 agree. |
| `SessionVectors.IvsNeverRepeat` | libsrtp/src/session.rs:232-245 | Every RTP packet a session returns is encrypted under its transform's vector and, in counter mode, authenticated with its ROC; while indexes stay below 2^48, no two such vectors of one salt, nor the blocks encrypted for them, are the same. |
| `SessionVectors.RtcpIvsNeverRepeat` | libsrtp/src/session.rs:263-273 | The same for SRTCP, for every index, when each stream keeps to a single master key. |
| `SessionRuns.KillingKills` | libsrtp/src/session.rs:194-211 | The kill loop takes the key from all template streams and from the template, whose other keys stay, and nothing else from anyone. |
| `SessionRuns.DeathSpreads` | libsrtp/src/session.rs:184-212 | The moment a template stream reports a dead key it is dead in all of them; other keys and streams keep their lives. |
| `SessionRuns.DeathLasts` | libsrtp/src/session.rs:184-212 | A dead key stays dead, also for streams spawned later, through every call but `add_stream`. |
| `SessionRuns.DeadForever` | libsrtp/src/session.rs:184-212 | Along any run without `add_stream`, no template stream completes an operation with a dead key. |
| `SessionOutcomes.PacketRouted` | libsrtp/src/session.rs:152-172 | A packet goes to the stream of the SSRC in its header, or to a new one of the template, or is refused with the error of the parser, of building the stream, or `StreamNotFound`, changing nothing. |
| `SessionOutcomes.PacketServed` | libsrtp/src/session.rs:232-345 | A packet that reaches a stream is answered exactly as that stream sends or receives it, and a success changes that stream alone. |
| `SessionOutcomes.TemplateSpawns` | libsrtp/src/session.rs:152-172 | A packet for an unknown SSRC is a step of a new stream of the template, which joins the session exactly when the step succeeds. |
| `SessionOutcomes.TemplateOkIff` | libsrtp/src/session.rs:78-95 | Adding a template succeeds exactly for a valid configuration that every template stream can take. |
| `SessionOutcomes.TemplateAdded` | libsrtp/src/session.rs:86-95 | Then it is the template, and every template stream holds each of its keys, its window size and its flag; other streams do not change, and a failure keeps the old template. |
| `SessionOutcomes.SsrcOkIff` | libsrtp/src/session.rs:96-117 | Adding a stream by its SSRC succeeds exactly for a valid configuration that can be built, or that the stream there is can take; and which error otherwise. |
| `SessionOutcomes.SsrcAdded` | libsrtp/src/session.rs:96-117 | Then the stream is there, not one of the template, new or updated with every key, the size and the flag of the configuration; nothing else changes. |
| `SessionOutcomes.RemoveOutcome` | libsrtp/src/session.rs:123-128 | Removing takes away that stream alone, or answers `StreamNotFound`. |
| `SessionOutcomes.GetRocOutcome` | libsrtp/src/session.rs:137-140 | The ROC told is the newest index of the stream, modulo 2^48, without its sequence number. |
| `SessionOutcomes.SetRocOnSession` | libsrtp/src/session.rs:299-306 | The ROC is pending for that stream alone; a missing stream or a lower ROC is refused and changes nothing. |
| `AnyStream.AnyStream.Step` | libsrtp/src/stream.rs:542-707 | A packet operation on either kind of stream object is the specified step. |
| `AnyStream.NewAnyStream` | libsrtp/src/stream.rs:378-389 | A new stream of either kind, in the specified state. |
| `Sessions.SessionObject.constructor` | libsrtp/src/session.rs:40-42 | A new session has no streams and no template. |
| `Sessions.SessionObject.AddStream` | libsrtp/src/session.rs:78-117 | Adding or updating a stream, or the template with its streams, in place is the specified call; on success every template stream, or the updated one, has had a turn for each key. |
| `Sessions.SessionObject.UpdateTemplated` | libsrtp/src/session.rs:87-94 | The loop updates template streams one by one, stops at the first refusal, and otherwise gives every one a turn for each key. |
| `Sessions.SessionObject.RemoveStream` | libsrtp/src/session.rs:123-128 | Removes exactly that stream or reports it missing. |
| `Sessions.SessionObject.GetRoc` | libsrtp/src/session.rs:137-140 | The ROC of the stream, or that it is missing. |
| `Sessions.SessionObject.GetStream` | libsrtp/src/session.rs:152-172 | Finds the stream or spawns it from the template, with the right flags, touching no other. |
| `Sessions.SessionObject.KillEverywhere` | libsrtp/src/session.rs:194-211 | The kill loop over objects is the specified kill, whatever the order. |
| `Sessions.SessionObject.HandleStreamError` | libsrtp/src/session.rs:184-212 | Roll-back of a pending stream and spreading of a dead key, as specified. |
| `Sessions.SessionObject.OnStream` | libsrtp/src/session.rs:232-245 | One operation on a found or spawned stream object changes the session as specified; other streams do not move. |
| `Sessions.SessionObject.RtpProtectMki` | libsrtp/src/session.rs:232-245 | The public call is the specified one, for any byte string. |
| `Sessions.SessionObject.RtcpProtectMki` | libsrtp/src/session.rs:263-273 | The public call is the specified one, for any byte string. |
| `Sessions.SessionObject.SetRoc` | libsrtp/src/session.rs:299-306 | The public call is the specified one. |
| `Sessions.SessionObject.RtpUnprotect` | libsrtp/src/session.rs:317-326 | The public call is the specified one, for any byte string. |
| `Sessions.SessionObject.RtcpUnprotect` | libsrtp/src/session.rs:336-345 | The public call is the specified one, for any byte string. |

## Left out

- AES, HMAC-SHA1 and AES-GCM themselves: they are arbitrary functions with the right output lengths, where opening is the inverse of sealing; unforgeability is not modelled.
- Constant-time comparison of tags: plain equality.
- Zeroization, formatting and the downcasts behind transform equality: equality of values stands for the latter.
- The key-limit handler and the soft limit that triggers it: the closure changes nothing in the session.
- Sharing of sessions between threads: callers lock, so operations happen one at a time.
- Packets are byte strings handed over and given back, as in the original; that the storage of the vector is reused is not modelled.
- Configurations and master keys are values; the builder methods of a configuration are record updates.
- The errors for missing session keys, a failing cipher set-up or a failing HMAC: they cannot happen in a transform that was built from keys of the right size, which is what every stream holds.
- SRTCP indexes of 32 bits: the callers cut them to 31 bits before they reach the database, so the model takes 31-bit ones.
- 64-bit overflow of RTP indexes: an estimate stays below 2^48 + 2^16, so the sums in the original cannot overflow.
- Atomicity of a failing update of a stream or of the template: the original merges entry by entry and stream by stream, and so does the model.
- The convenience wrappers without an MKI: they pass no MKI to the modelled calls.
- Benchmarks, interoperability programs and packet generators.
- SlidingWindow.WindowIsHistory: assumes that changes of size lose no mark, which is exactly when nothing is forgotten.
- Crypto.AesCmKdf: its own contract gives success and length; which bytes it yields is stated by InitVector.DerivedKeyIsRfc and InitVector.DerivedKeyBytes.
- TwoParty.EndToEnd: assumes that an MKI stands for one key on both sides and that re-keying keeps the profiles' tag lengths and the MKI length, since a receiver keeps those from its construction.
- TwoPartyRtcp.RtcpEndToEnd: the same.
- SessionVectors.IvsNeverRepeat: assumes indexes below 2^48, beyond which the original declares roll-over unsupported.
- SessionVectors.RtcpIvsNeverRepeat: assumes a single master key for each stream; with two it is false, as StreamRuns.TwoKeysCanRepeat shows.
