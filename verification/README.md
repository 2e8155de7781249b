# A model of the border router's commissioner

A joiner comes into a Thread network through the commissioner. This project models the deterministic code on that
path and proves what it keeps:

- the bit-serial CRC-16 and the steering-data Bloom filter it indexes (`GF2`, `Register`, `Crc`, `Steering`);
- the joiner list, with its JSON array, its vector, its cached filter and its update flag (`Joiners`, `Hex`);
- the publication of the filter and whether the network knows the list it should know (`Publish`, `Comm`);
- the TLV codec, the messages built on it, and relayed datagrams (`Tlvs`, `Relay`, `Commissioners`);
- petitions, retries and keep-alives over whole runs of the commissioner thread (`Protocol`, `Commissioners`, `Comm`);
- the DTLS session table, whose sessions call back into the joiner session (`Sessions`, `SessionRuns`, `DefinedRuns`,
  `KekRuns`, `Arrivals`, `Dtls`, `Psk`), and what whole runs of the thread make of it (`ThreadSessions`);
- what the thread relays in both directions and with which key, and every request it sends (`ThreadTraffic`,
  `ThreadFields`, `ThreadRequests`);
- the PSKc derivation (`Pskc`) and the packing of DNS-SD TXT records (`Txt`).

Objects whose methods update fields are classes, buffers written in place are arrays, and loops are loops. Each such
method is proved against a function of its input or of the old state, and the theorems are about these functions.
`dafny verify dfyconfig.toml` checks the whole project.

Parameters stand for what the repository does not define: SHA-256 and AES-CMAC-PRF-128 are any functions with results
of the right length, the JSON parser's result, the answers of the DTLS library, the clock and the messages that arrive
are inputs. A field that no constructor sets starts with any value, but for the joiner session's key (see below).

## What the proofs say about the code

- A rejected `Write` (malformed text, or an element without a key) has already emptied or replaced vector and filter
  but leaves the update flag as it was. The list then disagrees with what was sent exactly when it was not marked and
  either something was sent and the new filter differs, or nothing was sent and the write took an element
  (`Publish.RejectedWriteIff`, with the inputs in `Publish.LostWrite` and `Publish.LostFirstWrite`). Array and vector
  disagree exactly when at least one element had been taken: the array takes objects over without a reference of its
  own, and clearing the parser's array frees them (`Joiners.WriteAgreesIff`).
- REST operations between sending the filter and clearing the flag are lost exactly when they change the filter
  (`Publish.MidPublishIff`, with the input in `Publish.LostEdit`). Over whole runs these are the only ways for the flag
  to stop telling the truth (`Publish.RunInSyncIff`).
- A commissioner started over a list that an earlier run published tells the network nothing and has no joiner session
  until the first turn with an accepted operation (`Publish.FirstToldIff`, `ThreadSessions.CreatedIff`); without rejected
  writes the list is until then what that run left (`Publish.LateStart`).
- A session that reconnects and then fails its handshake is marked failed without a callback. That does no harm by
  itself (`SessionRuns.RefusedButAnchored`). The joiner session's pointer is null or in the table throughout a run, if and
  only if no sweep finds the current session over while no session it destroys calls back (`SessionRuns.RunAnchoredIff`);
  `SessionRuns.DanglingRun` is a run of four steps that ends with a dangling pointer. Such a sweep needs a refused
  handshake of the current session before it (`SessionRuns.RefusalNeeded`). After each single step the pointer is null or
  in the table exactly when no sweep has lost it without a later step resetting it (`DefinedRuns.RunStrayedIff`).
- Exported keys always go to the session accepted last (`SessionRuns.ExportsGoToLatest`). When a handshake completes, the
  joiner session gets the key of that handshake exactly when the session was the one accepted last at its last export,
  and at no export since (`SessionRuns.KekIsOwnIff`). `SessionRuns.ForeignKey` is a run in which two handshakes overlap
  and the joiner session gets the other one's key.
- The session accepted last can be gone: the export then writes into a destroyed session. It is in the table exactly when
  no sweep destroyed it since it was accepted (`DefinedRuns.RunAimedIff`, `DefinedRuns.ExportsListedIff`), and
  `DefinedRuns.OrphanedExport` is a run of four steps after which it is not: accept, accept, refusal of the second, sweep.
  Together these say exactly which steps of a run work on a destroyed session (`DefinedRuns.RunDefinedIff`). The thread is
  followed up to the first pass with such a step (`ThreadSessions.StopsIff`).
- The documented DTLS state diagram has no arrow from Ready back to Handshaking, nor from Ready or Closed to Error. The
  code takes them: on a reconnect, on a broken read, and when a write to the current session fails, which can be another
  session than the one processed and can be closed already. A session that expires while it shakes hands ends, which has
  no arrow either (`SessionRuns.DiagramIff`, `SessionRuns.ClosedThenFailed`).
- The retry count is not reset by an acceptance: two early rejections leave an accepted commissioner that one later
  rejection ends (`Protocol.AcceptanceKeepsCount`).
- The walkers compare 16-bit offsets. Their walk is that of full offsets exactly when the end of the last TLV does not
  wrap back into the payload (`Tlvs.TruncationIff`); otherwise it sets out again from beyond, as for the five bytes of
  `Tlvs.WrapExample`.
- On an empty list the entry lookup does not return null but points past the end, for index 0 already
  (`Joiners.EntryInRangeIff`).
- An empty network name leaves the length of the salt as it was, so a key is derived all the same
  (`Pskc.PskcGenerator.SetSalt`, `Pskc.PskcGenerator.ComputePskc`).
- A TXT key with an equals sign does not come back as it was published (`Txt.DecodeIff`).

## Model

| member | source | states |
|---|---|---|
| `GF2.DivisionUnique` | lib/borderrouter/src/utils/crc16.hpp:48-52 | Dividing by a monic polynomial over GF(2), such as x^16 plus either constant, has one quotient and one remainder. |
| `Register.FeedDivides` | lib/borderrouter/src/utils/crc16.cpp:48-61 | A feedback shift register of any width fed a message bit by bit holds the remainder of M(x) times x^d divided by x^d + g. |
| `Register.RemainderIff` | lib/borderrouter/src/utils/crc16.cpp:48-61 | A polynomial is a remainder of M(x) times x^d if and only if it is what the register holds. |
| `Register.FeedXor` | lib/borderrouter/src/utils/crc16.cpp:51-61 | The register is linear: feeding the xor of two messages from the xor of two states gives the xor of the results. |
| `Register.TurnBijective` | lib/borderrouter/src/utils/crc16.cpp:53-60 | One turn can be undone when the polynomial has a constant term. |
| `Register.BurstDetected` | lib/borderrouter/src/utils/crc16.cpp:44-62 | Equal-length messages that differ only within d consecutive bits never leave the same register. |
| `Register.CollisionIff` | lib/borderrouter/src/utils/crc16.cpp:44-62 | Two messages leave the same register if and only if x^d + g divides their difference. |
| `Crc.Crc16.Update` | lib/borderrouter/src/utils/crc16.cpp:44-62 | The do/while loop turns the register eight times after the byte is xored into its high half. |
| `Crc.HighHalfIs` | lib/borderrouter/src/utils/crc16.cpp:48 | A byte goes into the register as 256 times its value. |
| `Crc.ByteAtOnce` | lib/borderrouter/src/utils/crc16.cpp:48-61 | Xoring a whole byte in and turning eight times is the same as feeding its bits one by one. |
| `Crc.FoldFeeds` | lib/borderrouter/src/utils/crc16.cpp:44-62 | Updating byte by byte works on the message as one bit string. |
| `Crc.MessageBitAt` | lib/borderrouter/src/utils/crc16.cpp:44-62 | The bit string of a message is the message read as one big-endian number, highest bit first. |
| `Crc.WordValue` | lib/borderrouter/src/utils/crc16.cpp:44-62 | The coefficients of the register, read as a number, are the CRC. |
| `Crc.CrcIsRemainder` | lib/borderrouter/src/utils/crc16.cpp:44-62 | For every byte string M, read as a big-endian number, and every polynomial constant, the CRC from 0 is the one and only remainder of M(x) times x^16 divided by x^16 + poly. |
| `Crc.CrcDetectsBursts` | lib/borderrouter/src/utils/crc16.cpp:51-61 | Different equal-length inputs that differ only within 16 consecutive bits have different CRCs, for both polynomials. |
| `Crc.CrcCollisionIff` | lib/borderrouter/src/utils/crc16.cpp:44-62 | Equal-length inputs have equal CRCs if and only if the generator divides their difference. |
| `Crc.CrcDetectsOddDifferences` | lib/borderrouter/src/utils/crc16.hpp:48-52 | Inputs that differ in an odd number of bits have different CRCs, for both polynomials. |
| `Crc.OddPolynomials` | lib/borderrouter/src/utils/crc16.hpp:48-52 | Both constants of the source have an odd number of ones, so their generators have an even number of terms. |
| `Steering.SteeringData.Init` | lib/borderrouter/src/utils/steering_data.cpp:38-45 | No bit is set, and nothing is stored beyond the length. |
| `Steering.SteeringData.Clear` | lib/borderrouter/src/utils/steering_data.hpp:67 | All bytes are zero and the set of bits is empty. |
| `Steering.SteeringData.Set` | lib/borderrouter/src/utils/steering_data.hpp:73 | Exactly the bits of the length in use are set. |
| `Steering.SteeringData.SetBit` | lib/borderrouter/src/utils/steering_data.hpp:75-81 | Adds exactly one bit to the set, without touching bytes beyond the length. |
| `Steering.WithBit` | lib/borderrouter/src/utils/steering_data.hpp:81 | Setting a bit of a byte sets that bit and changes no other. |
| `Steering.SteeringData.ComputeBloomFilter` | lib/borderrouter/src/utils/steering_data.cpp:63-78 | Adds exactly the two bits that the two CRCs of the ID name, and nothing beyond the length. |
| `Steering.IdBitsAreRemainders` | lib/borderrouter/src/utils/steering_data.cpp:63-78 | These two bits are the remainders of the ID by the two generators, as numbers, cut to the number of bits. |
| `Steering.UnionMembers` | lib/borderrouter/src/utils/steering_data.cpp:63-78 | After any inserted IDs a bit is set if and only if some inserted ID names it, so there are no false negatives. |
| `Steering.OrderIrrelevant` | lib/borderrouter/src/utils/steering_data.cpp:63-78 | Order and repetition of the insertions do not matter. |
| `Steering.FilterIsBigEndian` | lib/borderrouter/src/utils/steering_data.hpp:81 | Bit n of the filter is bit n of its bytes read as one big-endian number. |
| `Steering.BitsAreContent` | lib/borderrouter/src/utils/steering_data.hpp:100-115 | Filters with the same bits hold the same bytes. |
| `Steering.ComputeHashMac` | lib/borderrouter/src/commissioner/device_hash.cpp:69-82 | The joiner ID is the first 8 bytes of the digest with the locally administered bit set. |
| `Steering.ComputeSteeringData` | lib/borderrouter/src/commissioner/device_hash.cpp:84-97 | Allows anyone by setting every bit, or adds exactly the two bits of one hashed EUI-64. |
| `Hex.Hex2Bytes` | lib/borderrouter/src/utils/hex.cpp:45-93 | Returns the byte count if all characters are hex digits and the result fits, else -1, and says exactly which bytes were written in every case. |
| `Hex.Bytes2Hex` | lib/borderrouter/src/utils/hex.cpp:95-111 | Two upper-case digits for every byte. |
| `Hex.HexDigits` | lib/borderrouter/src/utils/hex.cpp:59-70 | The sixteen digits have their places as values in either case, and are printed in upper case. |
| `Hex.NoOtherDigits` | lib/borderrouter/src/utils/hex.cpp:59-74 | No other character is a digit. |
| `Hex.HexRoundTrip` | lib/borderrouter/src/utils/hex.cpp:45-111 | Decoding printed bytes gives them back. |
| `Hex.ReprintIsUpper` | lib/borderrouter/src/utils/hex.cpp:45-111 | Printing what was decoded gives the text in upper case, with a leading zero for odd lengths. |
| `Hex.DecodeKeepsNumber` | lib/borderrouter/src/utils/hex.cpp:50-90 | The decoded bytes denote the same number as the text, odd lengths included. |
| `Joiners.JoinerList.constructor` | inc/joiner_list_api.hpp:95-99 | A new list is empty, its filter too, and it is not marked as updated. |
| `Joiners.JoinerList.ComputeSteering` | inc/joiner_list_api.hpp:58-73 | The filter is computed anew over the whole vector, or the last entry's bits are added; the list is marked. |
| `Joiners.JoinerList.Write` | inc/joiner_list_api.hpp:107-155 | The whole new state for accepted, malformed and part-way rejected requests; freed array slots read as anything. |
| `Joiners.WriteTakes` | inc/joiner_list_api.hpp:107-155 | The vector after a write has one entry for each of the first elements that have both keys, in order, with that element's PSK and EUI texts and the bytes that the EUI text spells. |
| `Joiners.WriteLeaves` | inc/joiner_list_api.hpp:107-155 | When every element has both keys, the array holds their objects with one reference each and the list is marked; otherwise the objects taken over are freed, read as anything, and the mark stays. |
| `Joiners.JoinerList.Edit` | inc/joiner_list_api.hpp:156-191 | Takes out the first entry with the EUI text, appends the new one, recomputes the filter or adds to it, and marks the list; other lengths are refused unchanged. |
| `Joiners.JoinerList.Remove` | inc/joiner_list_api.hpp:203-218 | Takes out the first entry with the EUI text and recomputes, or reports that there is none and changes nothing. |
| `Joiners.JoinerList.Clear` | inc/joiner_list_api.hpp:192-198 | Everything is empty and the list is marked. |
| `Joiners.JoinerList.ListUpdateFinished` | inc/joiner_list_api.hpp:227-230 | Only the mark is cleared. |
| `Joiners.JoinerList.Locate` | inc/joiner_list_api.hpp:165-174 | The array loop stops at the first object with the EUI text or at the end. |
| `Joiners.RunCoherent` | inc/joiner_list_api.hpp:58-218 | After every sequence of operations, rejected writes included, the cached filter is the one computed from scratch over the vector. |
| `Joiners.FilterIsUnion` | inc/joiner_list_api.hpp:58-73 | The filter computed from scratch is the union of the bits of the joiner IDs in the list. |
| `Joiners.EntryInFilter` | inc/joiner_list_api.hpp:58-73 | Both bits of every entry are in the filter. |
| `Joiners.WriteAgreesIff` | inc/joiner_list_api.hpp:107-155 | Counting the references to the parsed objects, a write leaves array and vector in agreement if and only if it is not rejected part-way. |
| `Joiners.RunAgrees` | inc/joiner_list_api.hpp:107-218 | Without part-way rejected writes, array and vector have equal length and agree at every place over every run. |
| `Joiners.OthersUntouched` | inc/joiner_list_api.hpp:156-218 | An edit or removal leaves every entry for another EUI as it was, in the same order. |
| `Joiners.RunRefinesMap` | inc/joiner_list_api.hpp:107-218 | With distinct EUI texts in every write, the list is a map over every run: a write is the map of its elements' own texts, edit puts, remove deletes, and keys stay distinct. |
| `Joiners.EditTakesEffectIff` | inc/joiner_list_api.hpp:156-191 | With duplicates, a lookup after an edit finds the new PSK if and only if no second entry shadows it with another PSK. |
| `Joiners.EntryInRangeIff` | inc/joiner_list_api.hpp:231-239 | For every index the lookup yields null or an entry of the list, if and only if the list is not empty. |
| `Tlvs.SetLength` | lib/borderrouter/src/common/tlv.hpp:82-94 | Writes exactly the length field in its short or extended form. |
| `Tlvs.SetValue` | lib/borderrouter/src/common/tlv.hpp:154-158 | Writes the length field and the value behind it and nothing else. |
| `Tlvs.Append` | lib/borderrouter/src/common/tlv.hpp:66-177 | Type, value and next together write exactly one encoded TLV and find its end. |
| `Tlvs.EncodedRead` | lib/borderrouter/src/common/tlv.hpp:60-168 | Reading where a TLV was written gives back its type, its length in either form, 255 included, its value and its end. |
| `Tlvs.WriteNext` | lib/borderrouter/src/common/tlv.hpp:154-177 | Writing one more TLV, in either length form, leaves the earlier ones standing and appends to the message. |
| `Tlvs.WalkWritten` | lib/borderrouter/src/common/tlv.hpp:166-169 | A walk over a written list visits exactly its TLVs and stops at its end, whatever stands behind it. |
| `Tlvs.TlvRoundTrip` | lib/borderrouter/src/common/tlv.hpp:74-177 | Writing a list of TLVs up to 65535 bytes and walking it gives back every type, length and value in order. |
| `Tlvs.WalkGoesOn` | lib/borderrouter/src/commissioner/commissioner_utils.hpp:57-60 | Whatever is readable, the 16-bit walk is the full-offset walk, followed by a walk from where its last TLV ends when that end wraps back into the payload. |
| `Tlvs.TruncationIff` | lib/borderrouter/src/commissioner/commissioner_utils.hpp:57-60 | For any readable memory the two walks agree if and only if the full-offset one leaves memory too, or the end of its last TLV does not wrap back into the payload. |
| `Tlvs.WrapExample` | lib/borderrouter/src/commissioner/commissioner_utils.hpp:57-60 | Five bytes over which the full-offset walk ends and the 16-bit one leaves memory. |
| `Commissioners.Commissioner.constructor` | lib/borderrouter/src/commissioner/commissioner.cpp:104-126 | A new commissioner is invalid, has sent nothing and has no joiner session. |
| `Commissioners.Commissioner.CommissionerPetition` | lib/borderrouter/src/commissioner/commissioner.cpp:204-233 | Sends one petition whose payload is the encoded commissioner ID. |
| `Commissioners.PetitionBytes` | lib/borderrouter/src/commissioner/commissioner.cpp:204-233 | The petition is the bytes of TLV 10 with "OpenThread" and its final zero. |
| `Commissioners.Commissioner.CommissionerResponseNext` | lib/borderrouter/src/commissioner/commissioner.cpp:383-398 | A pending state petitions again while retries are left, and otherwise becomes invalid with the count reset. |
| `Commissioners.Commissioner.WalkResponse` | lib/borderrouter/src/commissioner/commissioner.cpp:264-296 | The walk shared by the three handlers: the last state TLV decides the state, the last session id TLV the id, and every byte read lies in memory. |
| `Commissioners.Commissioner.HandleResponse` | lib/borderrouter/src/commissioner/commissioner.cpp:252-537 | The three response handlers: what the TLVs ask for, which of them move the keep-alive time, the session id learnt, and the retry logic after them with the request it sends, if any. |
| `Protocol.StateByteDecides` | lib/borderrouter/src/commissioner/commissioner.cpp:252-537 | The last state byte of a response: 1 leaves the state accepted; 255 leaves it rejected with one more petition while fewer than two retries were made and ends it after that; any other byte ends it. |
| `Protocol.NoStateByte` | lib/borderrouter/src/commissioner/commissioner.cpp:252-537 | Without a state TLV only the retry logic changes the state. |
| `Commissioners.StateByteSends` | lib/borderrouter/src/commissioner/commissioner.cpp:252-398 | A response sends the petition's bytes once more if its last state byte is 255 and fewer than two retries were made, and nothing for any other byte. |
| `Protocol.SessionBytes` | lib/borderrouter/src/commissioner/commissioner.cpp:264-296 | The last session id TLV gives the id, high byte first. |
| `Commissioners.Commissioner.CommissionerSet` | lib/borderrouter/src/commissioner/commissioner.cpp:304-331 | Sends one set request that encodes the session id and the filter's bytes. |
| `Commissioners.SetBytes` | lib/borderrouter/src/commissioner/commissioner.cpp:304-331 | The bytes of a set request: TLV 11 with the session id, high byte first, and TLV 8 with the filter. |
| `Commissioners.Commissioner.CommissionerKeepAlive` | lib/borderrouter/src/commissioner/commissioner.cpp:460-486 | Sends one keep-alive that encodes the accepted state and the session id, and notes its time. |
| `Commissioners.KeepAliveBytes` | lib/borderrouter/src/commissioner/commissioner.cpp:460-486 | The bytes of a keep-alive: TLV 16 with value 1, and TLV 11 with the session id. |
| `Commissioners.AcceptanceIsRead` | lib/borderrouter/src/common/tlv.hpp:206-211 | Who walks a keep-alive or the answer to a finalize request reads that the state is accepted. |
| `Commissioners.Commissioner.TryDtlsHandshake` | lib/borderrouter/src/commissioner/commissioner.cpp:190-202 | Success connects, a wish for more changes nothing, any other error invalidates. |
| `Commissioners.Commissioner.KeepAliveIfDue` | lib/borderrouter/src/commissioner/commissioner.cpp:451-457 | A keep-alive is sent only while accepted, with a positive rate, when more than the rate has passed. |
| `Commissioners.Commissioner.UpdateFdSet` | lib/borderrouter/src/commissioner/commissioner.cpp:400-414 | The two sockets of the commissioner and, once there is a joiner session, its swept table's sockets and timeout. |
| `Commissioners.Commissioner.Process` | lib/borderrouter/src/commissioner/commissioner.cpp:416-458 | A pass with at most one response or relay message is one iteration of the protocol and a run of the session table's steps, and it changes session id, relay state, PSK, datagrams passed on and requests sent exactly by that message, the datagram relayed and the keep-alive due. |
| `Protocol.PetitionsBounded` | lib/borderrouter/src/commissioner/commissioner.cpp:383-398 | Over every run: petitions are 1 plus the retry count while valid, never more than 3, and a third pending response ends the run. |
| `Protocol.EndsIff` | lib/borderrouter/src/commissioner/commissioner.cpp:252-537 | A run ends if and only if a third pending response came or some response asked for an invalid state. |
| `Protocol.AcceptanceKeepsCount` | lib/borderrouter/src/commissioner/commissioner.cpp:383-398 | An acceptance does not give retries back. |
| `Protocol.KeepAlivesSpaced` | lib/borderrouter/src/commissioner/commissioner.cpp:452-486 | With a clock that never goes back, keep-alives of a run are more than the rate apart and need a positive rate. |
| `Protocol.KeepAliveIff` | lib/borderrouter/src/commissioner/commissioner.cpp:451-457 | After every run the next pass sends a keep-alive, and then just one, if and only if it leaves the state accepted, the rate is positive, and more than the rate has passed since the last contact. |
| `Protocol.KeepAliveLate` | lib/borderrouter/src/commissioner/commissioner.cpp:451-457 | A keep-alive of a run comes more than the rate after the last petition or keep-alive answer and after the last keep-alive. |
| `Relay.RelayFitsIff` | lib/borderrouter/src/commissioner/commissioner.cpp:624-666 | A relayed message fits the 1500-byte buffer if and only if the datagram has at most 1444 bytes with a key and 1478 without. |
| `Commissioners.RelaysIff` | lib/borderrouter/src/commissioner/commissioner.cpp:624-666 | The thread goes on with a datagram if and only if there is a joiner session and the message, with the key if due, has at most 1500 bytes. |
| `Relay.RelayBytes` | lib/borderrouter/src/commissioner/commissioner.cpp:624-666 | The bytes of a relayed message: TLV 17 with the datagram, 18 with the port, 19 with the identifier, 20 with the locator and, with a key, 21 with its 32 bytes. |
| `Relay.IidFlipsLocalBit` | lib/borderrouter/src/commissioner/commissioner.cpp:547-554 | The identifier compared is the hashed joiner ID with bit 0x02 flipped. |
| `Relay.FindEntry` | lib/borderrouter/src/commissioner/commissioner.cpp:539-562 | On a non-empty list the search ends with the first entry known by the identifier, or with none. |
| `Relay.SelectedPassesFilter` | lib/borderrouter/src/commissioner/commissioner.cpp:539-562 | Whoever an identifier selects has both bits of its joiner ID set in the list's filter. |
| `Relay.RelayRoundTrip` | lib/borderrouter/src/commissioner/commissioner.cpp:564-673 | Receiving what was sent restores port, identifier and locator, selects the PSK and passes on exactly the datagram, with or without a key; if passing it on fails nothing changes. |
| `Commissioners.Commissioner.FindEui` | lib/borderrouter/src/commissioner/commissioner.cpp:539-562 | The PSK becomes that of the first entry known by the identifier, or stays; a joiner session is needed only for an entry found. |
| `Relay.PskIs` | lib/borderrouter/src/commissioner/commissioner.cpp:539-562 | That PSK is the text of the first entry that matches, when it has at most 32 characters; without a match the PSK stays. |
| `Commissioners.Commissioner.HandleRelayReceive` | lib/borderrouter/src/commissioner/commissioner.cpp:564-622 | The in-place walk has the effect of taking the message's TLVs in turn, up to a datagram that cannot be passed on. |
| `Commissioners.Commissioner.ReceiveRelay` | lib/borderrouter/src/commissioner/commissioner.cpp:416-431 | A relay message that arrives sets port, identifier, locator and PSK and passes its datagram on, and changes nothing else. |
| `Commissioners.Commissioner.SendRelayTransmit` | lib/borderrouter/src/commissioner/commissioner.cpp:624-673 | Sends the encoded TLVs of the datagram, with the key if it is due, and marks the key as sent. |
| `Publish.RunInSync` | src/comm.cpp:125-130 | Over every run from an untouched or updated list with no rejected write and no operation inside a publication, a list not marked as updated is untouched or is the one last sent. |
| `Publish.RejectedWriteIff` | inc/joiner_list_api.hpp:133-141 | A rejected write keeps a list in step if and only if the list is still marked, or its filter stays the one sent, or nothing was sent and nothing taken. |
| `Publish.RunInSyncIff` | src/comm.cpp:125-130 | Over every run, with operations anywhere, the flag tells the truth throughout if and only if every publication finishes with the filter it sent and every rejected write is harmless where it comes. |
| `Publish.LostFirstWrite` | inc/joiner_list_api.hpp:133-141 | On the first run, a write rejected after its first element leaves an entry that is never announced. |
| `Publish.MidPublishIff` | src/comm.cpp:125-130 | After any operations inside a publication the list is in step if and only if together they leave the filter as it was. |
| `Publish.LostEdit` | src/comm.cpp:127-129 | A joiner edited in while an emptied list is being published is never announced. |
| `Publish.LostWrite` | inc/joiner_list_api.hpp:107-115 | A malformed write empties a published list without marking it. |
| `Publish.RoundsInSync` | src/comm.cpp:102-134 | When operations fall between publications and no write is rejected, every turn of the loop ends in step. |
| `Publish.FirstToldIff` | src/comm.cpp:125-130 | Whatever the list at the start, a run tells the network something if and only if the list was marked or some operation of its turns is accepted. |
| `Publish.LateStart` | src/comm.cpp:125-130 | From any list, without rejected writes: until something is sent the list is what it was at the start, and after that every turn ends in step. |
| `Comm.PublishIfUpdated` | src/comm.cpp:125-130 | A marked list is sent and unmarked and the joiner session exists afterwards; an unmarked one is left alone. |
| `Comm.TakeTurn` | src/comm.cpp:102-134 | One turn sweeps, waits, processes and publishes: one iteration of the protocol, one round of the publication, the joiner session is where exactly this turn's sweep, arrivals and datagram lead, and what is learnt, sent and passed on is exactly what its message, datagram, keep-alive and publication add. List, joiner session and turn alone decide whether it is done or where it stops; then nothing but the joiner session has moved. |
| `Comm.Connect` | src/comm.cpp:79-88 | The handshake loop ends with the first answer that is not a wish for more. |
| `Comm.SettledIs` | src/comm.cpp:79-88 | That answer is the first of all that is not a wish for more. |
| `Comm.CommissionerThread` | src/comm.cpp:72-139 | The whole thread, relay traffic and DTLS sessions included: it does exactly the turns up to the first that finds the state ended or does not meet what the source demands; the protocol is where the run over them leads, list and requests are where their rounds lead, the joiner session is where they and the done part of the next turn lead, and session id, relay state and the whole log of requests are where these turns lead. |
| `ThreadTraffic.ForwardedInOrder` | lib/borderrouter/src/commissioner/commissioner.cpp:564-622 | Over any turns done, the datagrams passed on to the joiner grow by exactly those of the relay messages that could be passed on, in order. |
| `ThreadTraffic.PskOfLastIdentified` | lib/borderrouter/src/commissioner/commissioner.cpp:539-622 | Over any turns done of a thread that starts without a joiner session, the PSK is that of the last entry a relay message identified in the list as it then was, and the default of the joiner session when there is none. |
| `ThreadFields.MessageTellsField` | lib/borderrouter/src/commissioner/commissioner.cpp:564-622 | A relay message leaves port, identifier and locator each as its last TLV for it says, byte for byte. |
| `ThreadFields.FieldToldLast` | lib/borderrouter/src/commissioner/commissioner.cpp:564-622 | Over any turns done, port, identifier and locator are each what the last relay message with such a TLV told. |
| `ThreadTraffic.DatagramSentOnce` | lib/borderrouter/src/commissioner/commissioner.cpp:624-673 | A turn that is done adds one relay request for its datagram and no other one, with the port, identifier and locator of the last relay message and the joiner session's key if it is due. |
| `ThreadTraffic.DatagramsSent` | lib/borderrouter/src/commissioner/commissioner.cpp:624-673 | Over any turns done, the relay requests sent are one for each datagram, in order, and no other. |
| `ThreadTraffic.KeyIffFinalized` | lib/borderrouter/src/commissioner/joiner_session.cpp:115-139 | Of two datagrams relayed one after the other, the second carries the key if and only if a finalize request is read between them. |
| `ThreadRequests.TurnRequests` | src/comm.cpp:102-134 | A turn that is done sends exactly, in this order: a petition if its answer makes one necessary, the relay request of its datagram, a keep-alive if one is due, and the filter if the list is marked; the last two with the session id in force after its answer. |
| `ThreadRequests.IdGrantedLast` | lib/borderrouter/src/commissioner/commissioner.cpp:252-360 | Over any turns done, the session id is the one that the last answer to a petition or a set request with a session id TLV gave, high byte first. |
| `ThreadSessions.ThreadTable` | src/comm.cpp:102-134 | Over any turns done, the session table is where their steps lead: for each turn the sweep, every session with a readable socket, the server socket, and the key sent. |
| `ThreadSessions.StopsIff` | src/comm.cpp:102-134 | A thread that has done n turns stops at the sessions of the next one if and only if the steps so far and this pass's export a key after a sweep destroyed the session accepted last, or send after a sweep lost the current session. |
| `ThreadSessions.CreatedIff` | src/comm.cpp:125-130 | A thread that starts without a joiner session has one after its turns if and only if it has told the network something. |
| `Comm.SetReads` | lib/borderrouter/src/commissioner/commissioner.cpp:316-326 | Reading a set request gives back the session id and the very bytes of the filter. |
| `Comm.ThreadAdmits` | src/comm.cpp:89-134 | After any turns of a thread without rejected writes, the bytes of the last set request carry both bits of every joiner in the list. |
| `Comm.ThreadPetitions` | src/comm.cpp:79-134 | A thread that connects petitions one to three times, and when its state ends invalid is characterised exactly; one that does not connect sends nothing. |
| `Dtls.MbedtlsSession.SetState` | lib/borderrouter/src/agent/dtls_mbedtls.cpp:219-223 | The phase changes and the callback takes over or drops the current session. |
| `Dtls.MbedtlsSession.Write` | lib/borderrouter/src/agent/dtls_mbedtls.cpp:231-246 | A failed write marks the session failed through the callback. |
| `Dtls.MbedtlsSession.Close` | lib/borderrouter/src/agent/dtls_mbedtls.cpp:248-258 | A session that is not over ends through the callback; another is left alone. |
| `Dtls.MbedtlsSession.ExportKeys` | lib/borderrouter/src/agent/dtls_mbedtls.cpp:339-355 | The key goes to the session the server registered last. |
| `Dtls.MbedtlsSession.Handshake` | lib/borderrouter/src/agent/dtls_mbedtls.cpp:471-506 | Completion calls back, waiting changes nothing, and failure changes the phase without a callback. |
| `Dtls.MbedtlsSession.Read` | lib/borderrouter/src/agent/dtls_mbedtls.cpp:291-337 | Data, end of file, reconnect, timeout and errors each have their effect on the table. |
| `Dtls.MbedtlsSession.Process` | lib/borderrouter/src/agent/dtls_mbedtls.cpp:272-289 | The time to live is renewed, then the session shakes hands or reads according to its phase. |
| `Dtls.MbedtlsServer.ProcessServer` | lib/borderrouter/src/agent/dtls_mbedtls.cpp:581-659 | Accepting a session is one accept step, a failed setup one failed accept, and errors replace the socket. |
| `Dtls.MbedtlsServer.Process` | lib/borderrouter/src/agent/dtls_mbedtls.cpp:661-678 | Processing is a run of steps: every session with a readable socket in turn, then the server socket, which errors replace. |
| `Arrivals.PassServes` | lib/borderrouter/src/agent/dtls_mbedtls.cpp:661-678 | In one pass every session stays in its place; those whose sockets are readable at the beginning are served once and live for 60 seconds from then, the others keep expiration and socket, and at most one session is accepted, as the last one, with the exports aimed at it. |
| `Arrivals.PacketLeaves` | lib/borderrouter/src/agent/dtls_mbedtls.cpp:581-659 | What waits on the server socket changes no session; a failed setup drops the current session unless the phase that was never written reads as over. |
| `Dtls.MbedtlsServer.SweepSessions` | lib/borderrouter/src/agent/dtls_mbedtls.cpp:517-553 | Erasing during the iteration leaves exactly the living sessions, destroys every other once and in order, and gathers what to wait for. |
| `Dtls.MbedtlsServer.UpdateFdSet` | lib/borderrouter/src/agent/dtls_mbedtls.cpp:508-570 | The sockets, the largest of them and the timeout in seconds and microseconds, with the server socket. |
| `Dtls.WaitIsLeast` | lib/borderrouter/src/agent/dtls_mbedtls.cpp:508-567 | In microseconds the wait is the least of the timeout given, cut to milliseconds, and every survivor's time to expiry. |
| `Dtls.WaitsOn` | lib/borderrouter/src/agent/dtls_mbedtls.cpp:508-563 | Exactly the given sockets, the survivors' and the server's are waited for, and the maximum is the largest of them. |
| `Dtls.JoinerSession.HandleSessionChange` | lib/borderrouter/src/commissioner/joiner_session.cpp:60-82 | Ready takes over session and key, error and end drop the session, anything else changes nothing. |
| `Dtls.JoinerSession.SendCoap` | lib/borderrouter/src/commissioner/joiner_session.cpp:84-107 | Sends through the current session; without one it fails. |
| `Dtls.JoinerSession.HandleJoinerFinalize` | lib/borderrouter/src/commissioner/joiner_session.cpp:115-139 | The flag for the key is set and nothing else, and the answer encodes the accepted state and the fixed text. |
| `Commissioners.FinalizeBytes` | lib/borderrouter/src/commissioner/joiner_session.cpp:115-139 | The bytes of that answer: TLV 16 with value 1, and TLV 48 with "test" and a line end. |
| `KekRuns.RunDueIff` | lib/borderrouter/src/commissioner/joiner_session.cpp:115-139 | Over every run, the key is due if and only if some step reads a finalize request from a ready session and the key is not sent after it. |
| `KekRuns.DueSinceSent` | lib/borderrouter/src/commissioner/commissioner.cpp:648-657 | When the key was sent by some step and not since, it is due if and only if a finalize request has been read since. |
| `KekRuns.FinalizedRun` | lib/borderrouter/src/commissioner/joiner_session.cpp:115-139 | A run in which the only session joins and finalizes, so that its key is due. |
| `Dtls.JoinerSession.SetPSK` | lib/borderrouter/src/agent/dtls_mbedtls.cpp:680-696 | The PSK becomes as many characters of the text as its length cut to eight bits says, if these are at most 32, and stays otherwise. |
| `Psk.TakenIff` | lib/borderrouter/src/agent/dtls_mbedtls.cpp:680-696 | A text becomes the PSK as it is if and only if it has at most 32 characters, or it is what the PSK was and its length cut to eight bits is too large. |
| `Psk.LongText` | lib/borderrouter/src/agent/dtls_mbedtls.cpp:680-696 | Of a text of more than 32 characters as many are taken as its length leaves when divided by 256, if these are at most 32, and otherwise none. |
| `Sessions.StepSafeIff` | lib/borderrouter/src/commissioner/joiner_session.cpp:60-82 | A step keeps the current session null or running in the table if and only if it is not a refused handshake of the current session. |
| `Sessions.RunSafeIff` | lib/borderrouter/src/agent/dtls_mbedtls.cpp:471-506 | Over every run of accepts, processing, writes, sweeps and key sending, the current session is null or in the table and not over throughout, if and only if no current session is refused. |
| `SessionRuns.StepAnchoredIff` | lib/borderrouter/src/commissioner/joiner_session.cpp:60-82 | A step keeps the current session null or in the table if and only if it is not a sweep that finds the current session over with nobody to call back. |
| `SessionRuns.RunAnchoredIff` | lib/borderrouter/src/agent/dtls_mbedtls.cpp:517-553 | Over every run from the empty table the current session is null or in the table throughout, if and only if no sweep ever finds it over with nobody it destroys to call back. |
| `DefinedRuns.RunStrayedIff` | lib/borderrouter/src/commissioner/joiner_session.cpp:60-82 | After every step of every run the current session is null or in the table, if and only if no sweep has lost it without a later step resetting the pointer. |
| `SessionRuns.RefusalNeeded` | lib/borderrouter/src/agent/dtls_mbedtls.cpp:501 | A run in which no current session is refused never loses the pointer. |
| `SessionRuns.RefusedButAnchored` | lib/borderrouter/src/agent/dtls_mbedtls.cpp:501 | A run with a refusal that does not lose the pointer. |
| `SessionRuns.DanglingRun` | lib/borderrouter/src/agent/dtls_mbedtls.cpp:501 | A run from the empty table that ends with a dangling pointer: accept, reconnect, refusal, sweep. |
| `Sessions.RefusalDangles` | lib/borderrouter/src/agent/dtls_mbedtls.cpp:501 | A sweep directly after a refusal of the current session leaves the pointer dangling if and only if no session it destroys calls back. |
| `SessionRuns.HandedOver` | lib/borderrouter/src/commissioner/joiner_session.cpp:66-70 | Over every run, a session whose handshake completes becomes the current one, and the key taken over is the last one written to its field by any handshake's export. |
| `SessionRuns.ExportsGoToLatest` | lib/borderrouter/src/agent/dtls_mbedtls.cpp:635-637 | Every key of a run is exported into the field of the session accepted last by then. |
| `SessionRuns.KekIsOwnIff` | lib/borderrouter/src/agent/dtls_mbedtls.cpp:635-637 | Over every run, what a completed handshake hands over was last written by the last export of its own, in whichever call, if and only if the session was the one accepted last at that export and at no export since. |
| `SessionRuns.ForeignKey` | lib/borderrouter/src/agent/dtls_mbedtls.cpp:635-637 | A run of two overlapping handshakes that hands over the other session's key. |
| `DefinedRuns.RunAimedIff` | lib/borderrouter/src/agent/dtls_mbedtls.cpp:517-553 | After every step of every run the session that keys are exported to is in the table, if and only if no sweep destroyed it since it was accepted. |
| `DefinedRuns.ExportsListedIff` | lib/borderrouter/src/agent/dtls_mbedtls.cpp:339-355 | Every key a run exports goes to a session in the table, if and only if none is exported after a sweep destroyed the session accepted last and before the next one is accepted. |
| `DefinedRuns.RunDefinedIff` | lib/borderrouter/src/agent/dtls_mbedtls.cpp:219-678 | A step of a run neither writes a key into a destroyed session nor sends through one, if and only if it does not export after a sweep destroyed the session accepted last nor send after one lost the current session. |
| `DefinedRuns.OrphanedExport` | lib/borderrouter/src/agent/dtls_mbedtls.cpp:350 | A run after which the first session exports its key to a destroyed one and completes with a key that was never exported. |
| `SessionRuns.NextAt` | lib/borderrouter/src/agent/dtls_mbedtls.cpp:219-506 | What every step does to every session that is in the table before and after it: phase, expiration, socket and key. |
| `SessionRuns.ExpirationKept` | lib/borderrouter/src/agent/dtls_mbedtls.cpp:272-289 | Over every run, nothing but its own processing changes a session's expiration. |
| `SessionRuns.SocketIs` | lib/borderrouter/src/agent/dtls_mbedtls.cpp:272-289 | A session processed while it shakes hands waits on the socket the library then has for it, over every run in which it is not processed so again. |
| `SessionRuns.LivesIff` | lib/borderrouter/src/agent/dtls_mbedtls.cpp:272-289 | A session that is processed and then left alone, whatever else goes on, is alive for exactly 60 seconds, as long as it is ready or shaking hands. |
| `SessionRuns.DiagramIff` | lib/borderrouter/src/agent/dtls.hpp:70-80 | For every step and every session in the table before it, destroyed by it or not, the session leaves the documented diagram if and only if it is ready, processed and its client reconnects or its read breaks, or a failed write hits it as the current session while it is neither shaking hands nor failed, or it expires while shaking hands. |
| `SessionRuns.ClosedThenFailed` | lib/borderrouter/src/agent/dtls.hpp:70-80 | A run that takes a closed session that is still current to the error state. |
| `Sessions.SurvivorMembers` | lib/borderrouter/src/agent/dtls_mbedtls.cpp:517-553 | The sweep keeps exactly the unexpired sessions that are ready or shaking hands. |
| `Sessions.SweepLoopIs` | lib/borderrouter/src/agent/dtls_mbedtls.cpp:517-553 | After every turn of the erasing loop the table is the survivors so far, in order, followed by the sessions not yet seen. |
| `Sessions.TimeoutIsLeast` | lib/borderrouter/src/agent/dtls_mbedtls.cpp:540-543 | The timeout is the least of the one given and every survivor's time to expiry. |
| `Sessions.SocketsAreSurvivors` | lib/borderrouter/src/agent/dtls_mbedtls.cpp:530-538 | Exactly the survivors' sockets are added, and the maximum is right. |
| `Pskc.PskcGenerator.SetSalt` | lib/borderrouter/src/web/pskc-generator/pskc.cpp:42-68 | The salt is "Thread", the extended PAN ID and the name, padded with zeros; an empty name leaves the length as it was. |
| `Pskc.ComputeBlock` | lib/borderrouter/src/web/pskc-generator/pskc.cpp:84-108 | One turn of the outer loop computes T_i, the exclusive or of U_1 to U_c, for any PRF and any count. |
| `Pskc.KeyBitParity` | lib/borderrouter/src/web/pskc-generator/pskc.cpp:84-108 | A bit of T_i is set if and only if it is set in an odd number of U_1 to U_c. |
| `Pskc.KeyIsChains` | lib/borderrouter/src/web/pskc-generator/pskc.cpp:70-117 | For every length: bit by bit, a key is the parity over the chain of its block, which starts with the salt and the block number and applies the function again and again to its result. |
| `Pskc.PskcGenerator.ComputePskc` | lib/borderrouter/src/web/pskc-generator/pskc.cpp:70-117 | The key is PBKDF2 of section 5.2 of RFC 8018 for any PRF, iteration count (16384 in the source) and key length (16), with every index in range. |
| `Pskc.XorBitsAt` | lib/borderrouter/src/web/pskc-generator/pskc.cpp:105-108 | The exclusive or of two bytes differs bit by bit. |
| `Pskc.IntIsBigEndian` | lib/borderrouter/src/web/pskc-generator/pskc.cpp:85-89 | The block counter is written as a 32-bit number, most significant byte first. |
| `Txt.PackTxt` | lib/borderrouter/src/agent/mdns_mdnssd.cpp:359-387 | At most 128 bytes hold exactly the pairs not skipped; a reader finds them, in order, if and only if none of their keys has an equals sign. |
| `Txt.KeptLast` | lib/borderrouter/src/agent/mdns_mdnssd.cpp:370-374 | A pair is skipped if and only if it does not fit behind those kept before it. |
| `Txt.DecodeIff` | lib/borderrouter/src/agent/mdns_mdnssd.cpp:376-386 | Decoding by sections 6.1 and 6.3 of RFC 6763 returns exactly the packed pairs if and only if every key is free of equals signs. |

## Left out

- Sockets, `select`, the DTLS and CoAP libraries, D-Bus, Avahi and JSON parsing: their results are parameters.
- SHA-256 and AES-CMAC: any functions with results of 32 and 16 bytes.
- The capacity of the text fields of a list entry: PSKs and EUI texts are strings of any length, so an overlong text
  overruns no field here.
- `JoinerInstance` fields that no code fills (the hash of the ID in text and binary form).
- Waiting between petitions, CoAP tokens, logging, the thread's status text and its stop signal, which is the end of the
  turns.
- Comm.CommissionerThread: where what arrives does not meet a demand of the source that it does not check itself, the
  thread stops: a time that wraps, an export to or a write through a destroyed session, a message whose walk leaves
  memory, a lookup in an empty list, one that finds an entry before there is a joiner session or with a PSK that the
  server's assertion refuses, and a datagram that is too long or comes before there is a joiner session.
- Commissioners.Commissioner.Process: a pass takes at most one response, and the same demands are made of it.
- Relay.FindEntry: a list without entries, on which the lookup reads past the end of the vector, is excluded.
- Commissioners.Commissioner.FindEui: likewise, and when an entry is found, that there is no joiner session or that the
  length of its PSK cut to eight bits is zero, on which the server's assertion fails.
- Commissioners.Commissioner.SendRelayTransmit: a datagram too long for the packet buffer is excluded; `Relay.RelayFitsIff`
  says which ones are.
- Commissioners.Commissioner.WalkResponse: a message whose walk leaves memory is excluded, as the source does not check
  for one.
- Commissioners.Commissioner.HandleResponse: likewise.
- Commissioners.Commissioner.HandleRelayReceive: likewise, up to a datagram that cannot be passed on; a request for a
  joiner before that demands what the lookup demands.
- Dtls.JoinerSession.SendCoap: a dangling current session is excluded; `SessionRuns.RunAnchoredIff` says over which runs
  there is none.
- Dtls.MbedtlsServer.Process: a pass that exports a key to a destroyed session or sends through one is excluded, as in
  the methods of a session it calls; `DefinedRuns.RunDefinedIff` says which passes these are.
- Dtls.MbedtlsSession.Process: likewise.
- Dtls.MbedtlsSession.ExportKeys: an export to a destroyed session is excluded.
- Dtls.MbedtlsSession.Handshake: likewise.
- Dtls.MbedtlsSession.Read: an answer sent through a destroyed session is excluded.
- Pskc.PskcGenerator.ComputePskc: an empty name while the length of the salt was never set and exceeds its buffer is
  excluded.
- Dtls.MbedtlsServer.UpdateFdSet: no wrap of the millisecond counter is modelled.
- Dtls.JoinerSession.constructor: the key starts as zeros, where the source leaves it unset until a session is ready.
- The socket a destroyed session frees, and the close of the server on destruction.
- `EventEmitter`, UDP-proxy framing, thread management, the web interface, argument parsing and REST handlers: wrappers, or
  easy members only.
- The recording of published services in `mServices`: it would only add easy members.
