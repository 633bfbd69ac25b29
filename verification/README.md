# A verified model of wg-obfuscator

wg-obfuscator sits between WireGuard peers and disguises their packets: it XORs each packet with a keystream made from a
key, adds a random byte and padding, may dress the result up as STUN, and keeps a NAT table of clients so that it can
relay in both directions. This project models that program in Dafny and proves what it is for.

## The layers

Each part exists in two forms: a specification on values, about which the theorems are stated, and the shipped form, with
the arrays, linked structures and loops of the C code, which is proved to do exactly what the specification says.

* `Bytes.dfy`, `Net.dfy`, `Keystream.dfy`: bytes, XOR, addresses and the CRC8 keystream. The specification is the
  original bit-by-bit cipher. The class `Cache` is the shipped form, with two look-up tables, 256 rows that grow as they
  are needed, XOR of eight bytes at a time, an uncached tail, and allocations that may fail.
* `Codec.dfy`: `encode` and `decode`, version 0 and version 1.
* `Stun.dfy`, `Masking.dfy`: STUN messages, the STUN mask, autodetection and the dispatch between masks. The moving
  buffer pointer is an offset into one array.
* `RelaySpec.dfy`: the relay as a state machine over values. An event is a packet from a client, a packet from the
  target, a resolver result or a tick of the cleanup. Answers of `rand`, `socket`, `connect`, `send` and the clock are
  inputs.
* `RelayCases.dfy`: the steps case by case: the packet an event brings to an entry, and what the entry makes of it.
* `RelayInvariants.dfy`, `RelayTheorems.dfy`: the invariant of every reachable state, in which handshake, obfuscated
  sides, clean flag and clocks of an entry are those its history says, and its consequences for whole runs.
* `RelaySends.dfy`: what leaves the relay along a run: bare for ever after a packet of version 0, in the mask of the
  creating handshake for ever, and nothing of the relay's own for clients found clean.
* `RelayLife.dfy`: when an entry is made and when it goes, and which messages the relay sends by itself, in both
  directions.
* `EndToEnd.dfy`: two relays back to back over a network that loses, repeats and reorders: nothing but the far peer's
  packets is delivered, and handshake, response and data do cross, in both directions.
* `Table.dfy`: the intrusive hash table of `uthash.h`, element by element: two doubly linked lists through every element,
  bucket doubling, and agreement with a finite map for any hash function. Its `Valid` contains the conditions of
  `HASH_FSCK` on links and counts, the placement of each element in the bucket of its hash, and the agreement of the
  stored hash with the key; that the bucket counts add up to the item counter, the remaining condition of `HASH_FSCK`,
  follows from it (`CountsAddUp`).
* `PacketPath.dfy`, `Relay.dfy`: the main loop over the real buffer, cache and table. Every handler is proved to be the
  step of the state machine.
* `MainLoop.dfy`: start-up begins a run of the state machine and every iteration carries it on, with what it sends. So
  what is proved of runs, and of histories of two relays, holds of the program as it goes through its main loop.
* `Instances.dfy`: one process per section of the configuration file, and the forwarding of SIGHUP between them.

## Where the code and its documentation differ

The model follows the code.

* The comment on `encode` (obfuscation.h:65) announces 0 on success; the function returns the new length.
* `max-dummy` is documented as the maximum of the padding (README.md:189-190); the padding is always below it.
* `in-timeout` is documented as a time without data from the target (README.md:187-188); a new entry counts as having
  heard from the target at time 0, so it has no period of grace. `NoGracePeriod` says exactly when it expires.
* A plain packet is announced as recognisable (obfuscation.h:27-32); the keystream can turn an encoded packet into one
  that looks plain. `MisreadExactly` says exactly when, and `MisreadHappens` gives one.
* A wrapped packet carries a STUN length of 0, and the fingerprint is taken before the length is filled in. The model
  keeps both, and claims nothing about RFC 5389 for them.

## Model

| member | source | states |
|---|---|---|
| `Bytes.WordXor` | obfuscation.c:83-95 | XOR of two little-endian words, stored again, is the byte-wise XOR |
| `Keystream.Crc8Step` | obfuscation.c:21-31 | the loop over eight bits computes the bit-by-bit CRC8 step |
| `Keystream.CrcRoundsLinear` | obfuscation.c:21-31 | any number of CRC8 rounds is linear in state and input byte |
| `Keystream.CrcStepSplits` | obfuscation.c:7-8 | a step is the XOR of its `crc_a` share and its `crc_b` share |
| `Keystream.XorStreamInverse` | obfuscation.h:38-51 | applying the keystream twice gives the packet back |
| `Keystream.KsCrcOfRow` | obfuscation.h:8-13 | 256 rows lose nothing: the original chain, which adds the length itself, depends on the length modulo 256 only |
| `Keystream.Cache.constructor` | obfuscation.c:7-18 | empty rows and unset tables satisfy the cache invariant |
| `Keystream.Cache.EnsureTables` | obfuscation.c:33-42 | afterwards both tables hold the steps they stand for |
| `Keystream.Cache.NextCrc` | obfuscation.c:70-71 | two table look-ups advance the original keystream by one byte |
| `Keystream.Cache.Realloc` | obfuscation.c:54-65 | a larger row keeps its valid prefix and its CRC state |
| `Keystream.Cache.GrowRow` | obfuscation.c:47-79 | a row stays a prefix of its keystream, never shrinks, and reaches the wanted length if memory can be had |
| `Keystream.Cache.FillRow` | obfuscation.c:67-78 | the new part of a row continues the keystream where it stopped |
| `Keystream.Cache.XorData` | obfuscation.c:97-130 | whatever was cached before and whether or not allocation succeeds, exactly the window is XORed with the bit-by-bit keystream of key and length |
| `Keystream.Cache.XorPacket` | obfuscation.c:111-130 | cached part and tail together cover the packet once |
| `Keystream.Cache.XorRow` | obfuscation.c:111-114 | the cached part is XORed with the row's bytes |
| `Keystream.Cache.GrowOwnRow` | obfuscation.c:103-109 | growing the packet's own row leaves the other 255 as they are |
| `Keystream.Cache.XorTail` | obfuscation.c:116-129 | the uncached tail continues the CRC chain from the last cached state |
| `Keystream.XorBlock` | obfuscation.c:83-95 | eight bytes at a time and then one by one is XOR of every byte, and nothing else changes |
| `Keystream.XorWord` | obfuscation.c:85-91 | one word of a block |
| `Codec.PlainShape` | obfuscation.h:33-36 | a packet counts as plain WireGuard exactly when its first byte is 1 to 4 and the next three are 0 |
| `Codec.DressShape` | obfuscation.h:67-107 | what version 1 writes into the first four bytes, and that the rest stays |
| `Codec.DressInverse` | obfuscation.h:126-139 | before the keystream: what `decode` strips is what `encode` added |
| `Codec.RoundTrip` | obfuscation.h:67-139 | for every key, packet of type 1 to 4, version and random choice, decoding the encoding gives bytes and length back; it sets the caller's version to 0 if version 0 was used and leaves it otherwise |
| `Codec.EncodedLength` | obfuscation.h:75-106 | padding appears only at version 1, keeps the total below 1024, is below 512 for handshakes and their responses and strictly below the configured maximum for cookies and data; other types are not padded |
| `Codec.EncodingsExactly` | obfuscation.h:67-112 | what version 1 can make of a packet: the keystream over it with any random byte but 0 and any padding below the limit of its type and length, all of these and nothing else |
| `Codec.MisreadExactly` | obfuscation.h:33-36 | an encoded packet is taken for plain if and only if random byte, padding length and type meet the first four keystream bytes in the stated way |
| `Codec.AtMostOneBadByte` | obfuscation.h:71-73 | for one padding, at most one of the 255 random bytes is misread |
| `Codec.MisreadKeystream` | obfuscation.h:38-51 | a key whose keystream of 32 bytes starts with 247, 247, 0, 0 |
| `Codec.MisreadHappens` | obfuscation.h:27-36 | with that key there is a packet, of 32 bytes and type 4, whose encoding is taken for plain |
| `Codec.EncodeInPlace` | obfuscation.h:67-112 | the buffer version writes exactly `Encode` at the offset, inside the buffer |
| `Codec.DressInPlace` | obfuscation.h:68-107 | random byte, padding length and padding, in the buffer |
| `Codec.Fill` | obfuscation.h:99-105 | the padding loop writes 0xFF into the padding and nowhere else |
| `Codec.DecodeInPlace` | obfuscation.h:126-139 | the buffer version writes exactly `Decode`, and returns its length and version |
| `Codec.UndressInPlace` | obfuscation.h:135-138 | first byte restored, dummy length removed, three bytes cleared |
| `Stun.WrapFields` | masking_stun.c:123-158 | the fields of a wrapped packet, with a STUN length of 0 as the code has it |
| `Stun.UnwrapWrap` | masking_stun.c:160-180 | unwrapping a wrapped payload gives the same bytes, whatever follows in the buffer |
| `Stun.BindingFields` | masking_stun.c:95-121 | type and cookie of both Binding messages |
| `Stun.BindingConsumed` | masking_stun.c:217-240 | a Binding message leaves no payload, and at most a Binding response is sent back |
| `Stun.ControlConsumed` | masking_stun.c:203-253 | every control message this handler can build is consumed and never forwarded |
| `Stun.XorMappedInverse` | masking_stun.c:39-56 | XOR-MAPPED-ADDRESS is undone by the cookie, as section 15.2 of RFC 5389 has it for IPv4 |
| `Stun.Crc32Check` | masking_stun.c:74-82 | the CRC-32 of FF FF FF FF 80 is 12477CDF, which shows start, end, bit order and polynomial |
| `Stun.BindingShape` | masking_stun.c:95-121 | every field of a Binding message: type, length, cookie, transaction id, attributes, and the fingerprint over what stands before it |
| `Stun.AnswersExactly` | masking_stun.c:203-253 | exactly a message of type 0001 with the cookie is answered, once, by type 0101 with its transaction id and its sender's address under the cookie; what else has the cookie rests or is a Data Indication |
| `Stun.PayloadExactly` | masking_stun.c:160-180 | a payload comes out if and only if type, cookie, both lengths and the attribute type stand where they should, and it is those bytes |
| `Stun.AnswerRests` | masking_stun.c:217-240 | a request draws one answer, and the answer draws none, whoever gets it |
| `Stun.Crc32InPlace` | masking_stun.c:74-82 | the 32-bit loop computes the bit-by-bit CRC-32 |
| `Stun.WriteHeader` | masking_stun.c:29-37 | the 20 header bytes and nothing else |
| `Stun.BuildBinding` | masking_stun.c:95-121 | message built in the buffer, fingerprint taken before the length is filled in |
| `Stun.WrapInPlace` | masking_stun.c:123-158 | wrapping moves the offset back by 24 and leaves the payload where it is |
| `Stun.UnwrapInPlace` | masking_stun.c:160-180 | unwrapping moves the offset forward exactly when the message is a data indication that fits |
| `Stun.AnswerBinding` | masking_stun.c:218-237 | the answer overwrites the request, carries its transaction id, and the rest of the buffer stays |
| `Stun.OnDataUnwrapInPlace` | masking_stun.c:203-253 | offset, result and replies are those of the verdict; a rejected packet leaves buffer and offset alone |
| `Masking.AutodetectsStun` | masking.c:79-103 | autodetection picks STUN exactly for what STUN does not reject, and otherwise returns the packet unchanged |
| `Masking.WrapThenUnwrap` | masking.c:128-156 | for every mask, unmasking the masked packet gives it back |
| `Masking.HandleInPlace` | masking.c:113-126 | dispatch to the handler, or to none |
| `Masking.DetectInPlace` | masking.c:79-103 | the loop over handlers restores the offset after each failure |
| `Masking.UnwrapFromClientInPlace` | masking.c:68-111 | known entry, configured mask and autodetection |
| `Masking.WrapDataInPlace` | masking.c:128-156 | dispatch on the way out, inside the buffer; what is too long for the buffer is the handler's error and leaves it alone |
| `PacketPath.Path.Receive` | wg-obfuscator.c:993-1010 | the received bytes, cut to the buffer, with the real length returned |
| `PacketPath.Path.Open` | wg-obfuscator.c:1024-1051 | too short, undecodable and good packets after unmasking |
| `PacketPath.Path.FromClient` | wg-obfuscator.c:1015-1051 | window and result of a client's packet, always inside the buffer |
| `PacketPath.Path.FromServer` | wg-obfuscator.c:1178-1212 | the same for a packet of the target |
| `PacketPath.Path.Leave` | wg-obfuscator.c:1139-1148 | what leaves is the encoded and masked packet, or the packet itself; the window stays inside the buffer |
| `RelaySpec.FindAddrFrom` | wg-obfuscator.c:1012-1013 | the first entry with an address, no earlier one has it, or none has it |
| `RelaySpec.FindSockFrom` | wg-obfuscator.c:598-604 | the first entry with a socket, no earlier one has it, or none has it |
| `RelaySpec.ClientIngressFits` | wg-obfuscator.c:1003-1051 | an accepted packet has at least 4 bytes and fits the buffer |
| `RelaySpec.ServerIngressFits` | wg-obfuscator.c:1172-1212 | the same from the target |
| `RelayInvariants.JustifiedNext` | wg-obfuscator.c:1103-1121 | how one observation changes whether a handshake is justified |
| `RelayInvariants.LastAnswerExactly` | wg-obfuscator.c:1103-1121 | the last response that answered the then latest request of the other side, if there was any |
| `RelayInvariants.RequestKeepsLog` | wg-obfuscator.c:1070-1087 | flags and clocks of an entry follow its history through a handshake |
| `RelayInvariants.ResponseKeepsLog` | wg-obfuscator.c:1103-1121 | and through a response, whether it is taken or not |
| `RelayInvariants.GateKeepsLog` | wg-obfuscator.c:1053-1130 | handshake flag, obfuscated sides, clean flag and clocks follow the history of the entry through the gate |
| `RelayInvariants.ClientKeeps` | wg-obfuscator.c:992-1157 | a client's packet keeps the invariant |
| `RelayInvariants.CreationKeeps` | wg-obfuscator.c:1060-1069 | so does the entry that a first handshake makes |
| `RelayInvariants.ServerKeeps` | wg-obfuscator.c:1158-1295 | a packet of the target keeps the invariant |
| `RelayInvariants.RekeyKeeps` | wg-obfuscator.c:293-296 | moving an entry to a free address keeps the invariant |
| `RelayInvariants.ReconnectKeeps` | wg-obfuscator.c:261-268 | a new target address keeps the invariant |
| `RelayInvariants.ResolvedKeeps` | wg-obfuscator.c:236-299 | any resolver result keeps the invariant |
| `RelayInvariants.CleanupKeeps` | wg-obfuscator.c:1298-1333 | a cleanup pass keeps the invariant |
| `RelayInvariants.StepKeeps` | wg-obfuscator.c:922-1334 | every event keeps the invariant, at any later time |
| `RelayInvariants.BootedConns` | wg-obfuscator.c:506-595 | a successful start has one entry for each binding, all different |
| `RelayInvariants.NamedAreStatic` | wg-obfuscator.c:884-903 | every remembered binding is a live static entry |
| `RelayInvariants.StartHolds` | wg-obfuscator.c:884-903 | the invariant holds after start-up |
| `RelayInvariants.Always` | wg-obfuscator.c:922-1334 | the invariant holds in every state of every run with a clock that does not run backwards |
| `RelayTheorems.HandshakeHistory` | wg-obfuscator.c:1089-1121 | in every state, handshaked if and only if some response answered the latest request, from the other side, within 5000 ms |
| `RelayTheorems.SidesHistory` | wg-obfuscator.c:1118-1121 | in every state, the last response that answered says when the handshake was and which sides are obfuscated |
| `RelayTheorems.CleanHistory` | wg-obfuscator.c:1070-1082 | in every state, an entry is clean if and only if clean clients are allowed and the latest handshake of its client came in plain |
| `RelayTheorems.ClockHistory` | wg-obfuscator.c:1157 | in every state, the clocks of an entry are the times of the last packet sent on for it, and of the last one from the target; 0 if there was none |
| `RelayTheorems.FlagsInEveryState` | wg-obfuscator.c:1070-1121 | the obfuscation flags exclude each other and one is set after a handshake without allow-clean; clean entries; versions; clocks |
| `RelayTheorems.TableInEveryState` | wg-obfuscator.c:422-426 | the table never exceeds max-clients, addresses and sockets are distinct, every binding is alive |
| `RelayTheorems.TimelyAfterTick` | wg-obfuscator.c:1298-1333 | after a tick no dynamic entry is overdue by a cleanup interval |
| `RelayTheorems.StepEvolves` | wg-obfuscator.c:1053-1157 | one step keeps identity, handshake, clocks and mask of an entry, and its version only falls |
| `RelayTheorems.RunEvolves` | wg-obfuscator.c:1132-1137 | the same over any stretch of a run: once handshaked always handshaked, the version never rises |
| `RelayTheorems.MaskStays` | wg-obfuscator.c:1068-1082 | the mask of an entry is fixed at creation unless its client is found clean |
| `RelayTheorems.BareAtVersionZero` | obfuscation.h:67-112 | at version 0 the bare keystream goes out, length unchanged |
| `RelayTheorems.OpensToItself` | wg-obfuscator.c:1041-1051 | a packet encoded under the same key opens to itself |
| `RelayTheorems.DowngradeExactly` | wg-obfuscator.c:1132-1137 | version-1 traffic never downgrades an entry, version-0 traffic always does |
| `RelayTheorems.ForwardedOnlyAfterHandshake` | wg-obfuscator.c:1089-1130 | whatever event forwards a packet, the packet is a handshake, a response in time against the direction of the latest request, or comes to an entry that was handshaked before |
| `RelayTheorems.RekeyExactly` | wg-obfuscator.c:271-291 | a binding moves if and only if the result is good, new, and the address free |
| `RelayTheorems.ResolveKeeps` | wg-obfuscator.c:236-299 | one result keeps count, distinctness and every field but a static address and the peers |
| `RelayTheorems.RekeyedFound` | wg-obfuscator.c:293-299 | a moved entry is found under its new address and not under the old one |
| `RelayTheorems.DrainKeeps` | wg-obfuscator.c:305-329 | any queue of results keeps count, distinctness and, of every entry, all but a static address and the peer |
| `RelayTheorems.ResolveAddress` | wg-obfuscator.c:271-298 | after one result an entry has the address it had, or its port at the one a good result for it brought |
| `RelayTheorems.DrainAddress` | wg-obfuscator.c:305-329 | the same for any queue of results |
| `RelayTheorems.FoundOnlyThere` | wg-obfuscator.c:296-298 | after the queue every entry is found under its address and under no other |
| `RelayTheorems.PeersFollow` | wg-obfuscator.c:255-269 | if `connect` succeeds, a step leaves every peer at the current target |
| `RelayTheorems.PeersAlways` | wg-obfuscator.c:255-269 | the same in every state of every run |
| `RelayTheorems.TargetExactly` | wg-obfuscator.c:249-269 | a good result for the target, and nothing else, gives the target its address and keeps the port; a changed address goes to the peer of every entry whose `connect` succeeds |
| `RelayTheorems.ResolvePeers` | wg-obfuscator.c:236-299 | whatever a result is for, no other peer moves |
| `RelayTheorems.TargetDrained` | wg-obfuscator.c:305-329 | after a queue the target has the address of the last good result for it, or the one it had |
| `RelayTheorems.TargetInRun` | wg-obfuscator.c:922-1334 | at every time of every run the target has the address of the last good result for it, or the one it started with |
| `RelayTheorems.BootExactly` | wg-obfuscator.c:506-595 | the program starts if and only if bindings do not meet allow-clean, there is room for all, and no address comes twice; what each entry is then |
| `RelayTheorems.TagsExactly` | wg-obfuscator.c:884-903 | the resolver's tags are exactly the bindings with a host name, in the order of the configuration |
| `RelayTheorems.CleanupExactly` | wg-obfuscator.c:1298-1333 | a pass removes exactly the expired dynamic entries and looks at the timers of all others; `RelayLife.TickSpares` spells out which those are |
| `RelayTheorems.NoGracePeriod` | wg-obfuscator.c:1066-1067 | with in-timeout on, a new entry expires if and only if the clock has passed in-timeout: there is no grace period |
| `RelayTheorems.StaticTakesEarlyResponse` | wg-obfuscator.c:1235-1247 | a fresh static entry accepts a response without request if and only if the clock is at most 5000 ms |
| `RelayTheorems.CleanFromServer` | wg-obfuscator.c:1221-1288 | a plain packet of the target for a clean entry passes byte for byte |
| `RelayTheorems.CleanFromClient` | wg-obfuscator.c:1070-1152 | the same from the client |
| `RelayTheorems.GateKeepsClean` | wg-obfuscator.c:1070-1082 | a plain packet leaves a clean entry clean |
| `RelayTheorems.CleanNoTimer` | wg-obfuscator.c:1324-1329 | one look at the masking timer of a clean entry sends nothing |
| `RelayTheorems.AutoMaskAtCreation` | wg-obfuscator.c:1017-1068 | in AUTO mode the entry made by an obfuscated handshake has the STUN mask if STUN unwraps the handshake, and none otherwise |
| `RelayTheorems.UnmaskedRoundTrip` | wg-obfuscator.c:1015-1051 | an unmasked version-1 packet is decoded to itself if and only if it does not pass for plain and, where masks are detected, STUN rejects it |
| `RelayTheorems.UnmaskedReply` | wg-obfuscator.c:1178-1212 | on the way back, if and only if it does not pass for plain |
| `RelayTheorems.NoMagicRejected` | masking_stun.c:20-23 | without the cookie in bytes 4 to 7 the STUN handler rejects |
| `RelaySends.SentAsEntryStands` | wg-obfuscator.c:1053-1157 | what any step forwards, and what it sends ahead, is encoded, masked and addressed for the entry as it is after the step; it forwards exactly what passes the gate and can be sent |
| `RelaySends.SentInRun` | wg-obfuscator.c:992-1294 | the same at any step of any run |
| `RelaySends.VersionZeroStays` | wg-obfuscator.c:1132-1137 | once a version-0 packet has passed an entry's gate the entry is at version 0 for the rest of its life |
| `RelaySends.BareForever` | wg-obfuscator.c:1132-1148 | once a version-0 packet has passed an entry's gate, every plain packet a later step sends on for it, in either direction, leaves as the bare keystream XOR in the entry's mask, unless the client is clean |
| `RelaySends.MaskedForever` | masking.c:128-156 | every plain packet any later step sends on for an entry leaves encoded, in the mask the entry had, unless the client becomes clean |
| `RelaySends.BornMask` | wg-obfuscator.c:1017-1068 | an entry made in AUTO mode from a handshake that STUN unwraps has the STUN mask |
| `RelaySends.StunSentForLife` | masking.c:128-156 | so everything encoded that is ever sent on for it, either way, is wrapped in STUN, unless the client becomes clean |
| `RelaySends.StunReceivedForLife` | masking.c:68-126 | and every obfuscated packet that ever arrives for it, from either side, is judged by STUN alone |
| `RelaySends.SweepReaches` | wg-obfuscator.c:1301-1330 | the pass over the table sends nothing to either end of an entry without mask |
| `RelaySends.CleanGetsNoStun` | wg-obfuscator.c:922-1334 | no event of any kind makes the relay send a message of its own to either end of an entry that is clean before it |
| `RelaySends.CleanAtOnce` | wg-obfuscator.c:1070-1082 | nor of one that the event finds to be clean |
| `RelaySends.CleanNeverGetsStun` | wg-obfuscator.c:922-1334 | so in every step of every run all entries that are clean before or after it are spared |
| `RelayLife.PlainTaken` | wg-obfuscator.c:1014-1051 | a packet of type 1 to 4 is taken as it stands, from either side |
| `RelayLife.MadeExactly` | wg-obfuscator.c:1060-1082 | an unknown sender gets an entry if and only if it sends a handshake, there is room and a socket can be had; every field of that entry |
| `RelayLife.TickSpares` | wg-obfuscator.c:1298-1333 | a tick keeps an entry if and only if no pass is due or it is static or within all its limits (idle, incoming, and 5000 ms while not handshaked); nothing of it but the timer moves, and no entry appears |
| `RelayLife.OnlyTicksRemove` | wg-obfuscator.c:985-1296 | no other event takes an entry away |
| `RelayLife.RemovedExactly` | wg-obfuscator.c:922-1334 | the same at every step of every run, in both directions |
| `RelayLife.PassesInRun` | wg-obfuscator.c:1298-1333 | a pass is due a second after the last one, counted from time 0 |
| `RelayLife.LivesOn` | wg-obfuscator.c:1157-1333 | an entry for which a packet was sent on lives through every later tick within the limits counted from then |
| `RelayLife.CleanExactly` | wg-obfuscator.c:1070-1082 | in every run, a client's handshake makes its entry clean if and only if that is allowed and it came in plain, and no other event changes that |
| `RelayLife.ProbesExactly` | wg-obfuscator.c:1083-1085 | a plain handshake that passes on an entry masked in STUN is preceded by one Binding Request to the same side, and nothing else is |
| `RelayLife.SentExactly` | wg-obfuscator.c:1139-1157 | what passes and can be sent leaves for the other side of its entry: as decoded, as it stands for a clean client, or else encoded and masked |
| `RelayLife.RefusedExactly` | wg-obfuscator.c:1103-1130 | a packet that the gate holds back changes nothing and sends nothing |
| `RelayLife.TimersExactly` | masking_stun.c:266-296 | a pass sends one Binding Request to each obfuscated side of every entry it keeps whose timer is due, and nothing else |
| `RelayLife.RequestAnswered` | masking_stun.c:217-237 | a relay that expects STUN answers a Binding Request once, back to where it came from |
| `RelayLife.SuccessRests` | masking_stun.c:238-240 | and lets a Binding Success rest |
| `RelayLife.RequestRests` | masking_stun.c:217-240 | so a Binding Request between two relays causes exactly one answer |
| `EndToEnd.OpensMasked` | wg-obfuscator.c:1015-1051 | whatever the network delivers is dropped or opens to a packet the far peer sent |
| `EndToEnd.ForwardGood` | wg-obfuscator.c:1053-1157 | a packet leaves masked towards the network and plain towards the peer |
| `EndToEnd.StepGood` | wg-obfuscator.c:922-1334 | one step of a relay: only masked messages to the network, only the far peer's packets to the peer |
| `EndToEnd.MoveKeeps` | wg-obfuscator.c:922-1334 | every move of either relay or peer keeps the two-relay invariant |
| `EndToEnd.SecureAlways` | wg-obfuscator.c:922-1334 | the two-relay invariant in every state of every history |
| `EndToEnd.EndToEndDelivery` | wg-obfuscator.c:992-1294 | whatever the network loses, repeats or reorders, each packet handed to a peer is byte for byte one the other peer sent, never a STUN message, and all entries stay at version 1 |
| `EndToEnd.CarriedPaired` | wg-obfuscator.c:1053-1157 | an entry that a good packet comes to keeps STUN mask and version 1 |
| `EndToEnd.PlainComes` | wg-obfuscator.c:1012-1069 | a peer's packet comes to an entry exactly when there is one for it or its handshake can make one |
| `EndToEnd.MaskedComes` | wg-obfuscator.c:1012-1069 | so does a disguised packet from the network |
| `EndToEnd.PlainGoes` | wg-obfuscator.c:1123-1152 | at either relay, a peer's packet of any type that passes the gate leaves towards the network, encoded and wrapped |
| `EndToEnd.MaskedGoes` | wg-obfuscator.c:1015-1152 | at either relay, a disguised packet that passes the gate leaves towards the peer as it was before its disguise |
| `EndToEnd.Crosses` | wg-obfuscator.c:992-1294 | in both directions, a packet that passes both gates crosses both relays unchanged if its disguise fits a buffer |
| `EndToEnd.PassesExactly` | wg-obfuscator.c:1053-1130 | the gate, either side: handshakes always, responses exactly in time and against the latest request, others exactly after a handshake |
| `EndToEnd.Noted` | wg-obfuscator.c:1083-1121 | a handshake that passes leaves its direction and time in its entry, a response leaves it handshaked |
| `EndToEnd.RequestCrosses` | wg-obfuscator.c:1053-1087 | a handshake of either peer crosses both relays unchanged, and both then await the response |
| `EndToEnd.ResponseCrosses` | wg-obfuscator.c:1089-1121 | the response, in time, crosses back unchanged and leaves both entries handshaked |
| `Table.Elem.constructor` | wg-obfuscator.c:432-437 | a zeroed entry with the current version |
| `Table.WithoutMembers` | uthash.h:450-477 | taking one element out of a list removes it and no other |
| `Table.ContentsWith` | uthash.h:396-413 | one more element is one more key of the map |
| `Table.ContentsWithout` | uthash.h:450-477 | one element less is one key less of the map |
| `Table.KeyedUnique` | uthash.h:745-764 | no two elements share a key |
| `Table.PlacedWith` | uthash.h:767-786 | an element pushed into the bucket of its hash keeps the placement |
| `Table.PlacedWithout` | uthash.h:789-802 | so does taking it out |
| `Table.FlatMembers` | uthash.h:850-870 | the chains together hold exactly the members of each |
| `Table.ExcessPush` | uthash.h:856-857 | one push adds to the excess exactly when it goes beyond the ideal length |
| `Table.CeilByShift` | uthash.h:846-848 | shift and remainder round up the quotient |
| `Table.HashTable.constructor` | wg-obfuscator.c:26 | a null head is the empty table |
| `Table.HashTable.Count` | uthash.h:1067 | the item counter is the number of elements |
| `Table.HashTable.Find` | uthash.h:745-764 | for any hash function, the one live element with the key, or nothing, as in a finite map |
| `Table.HashTable.FindInTable` | uthash.h:153-175 | the walk along one chain finds it |
| `Table.HashTable.Add` | uthash.h:396-413 | the map gains the key, the list gains the element at its end, and the integrity conditions hold again |
| `Table.HashTable.Insert` | uthash.h:396-413 | first element and later ones |
| `Table.HashTable.MakeTable` | uthash.h:212-243 | 32 empty buckets |
| `Table.HashTable.AppendList` | uthash.h:278-284 | the list in insertion order grows at its tail |
| `Table.HashTable.AddToTable` | uthash.h:337-345 | the element is hung in its bucket, and the buckets are doubled exactly when its chain reaches ten times one more than the bucket's multiplier and doubling is allowed |
| `Table.HashTable.Hang` | uthash.h:337-342 | the element is counted and hung in front of its chain |
| `Table.HashTable.LinkFront` | uthash.h:767-776 | the element becomes the first of its chain |
| `Table.HashTable.Push` | uthash.h:767-776 | one chain changes and the others do not |
| `Table.HashTable.Delete` | uthash.h:450-477 | the map loses the key, the list the element, and the integrity conditions hold again |
| `Table.HashTable.CountsAddUp` | uthash.h:516-563 | the counts of the buckets add up to the number of elements in all chains, which is the item counter |
| `Table.HashTable.Detach` | uthash.h:450-477 | only element, or one of several |
| `Table.HashTable.UnlinkList` | uthash.h:461-471 | the element leaves the list in insertion order; head and tail follow |
| `Table.HashTable.DelInBkt` | uthash.h:789-802 | the element leaves its chain, and the bucket its count |
| `Table.HashTable.UnlinkBkt` | uthash.h:472-474 | the other chains stay |
| `Table.HashTable.ExpandBuckets` | uthash.h:833-883 | doubling loses and duplicates nothing, keeps the power of two, and leaves ideal length, excess, the multiplier of each bucket and the stop flag as specified |
| `Table.HashTable.ComputeIdeal` | uthash.h:846-849 | ceiling of items by new buckets |
| `Table.HashTable.MoveAll` | uthash.h:850-870 | all chains are moved |
| `Table.HashTable.MoveChain` | uthash.h:851-869 | one chain is moved, first to last, following links read before they change |
| `Table.HashTable.MoveOne` | uthash.h:854-867 | one element moves to the bucket of its hash |
| `Table.HashTable.NoteLength` | uthash.h:856-861 | excess and multipliers agree with the chains again |
| `Table.MultiplierIsCeil` | uthash.h:856-861 | with an ideal length of at least 2, a bucket's multiplier is its chain in ideal lengths, rounded up, but 1 where the chain is one too long |
| `Table.HashTable.Install` | uthash.h:871-880 | new buckets, and the decision whether doubling pays |
| `Relay.FindAddrAgrees` | wg-obfuscator.c:1012-1013 | table look-up and search by address find the same entry |
| `Relay.FindSockAgrees` | wg-obfuscator.c:1161-1163 | an event's entry is the one found by its socket |
| `Relay.RequestInPlace` | wg-obfuscator.c:1070-1087 | effect of a client's handshake on the entry |
| `Relay.ClientGateInPlace` | wg-obfuscator.c:1053-1130 | gates and field updates for a client's packet |
| `Relay.ServerGateInPlace` | wg-obfuscator.c:1214-1266 | gates and field updates for a packet of the target |
| `Relay.AcceptInPlace` | wg-obfuscator.c:1132-1137 | gate and version check |
| `Relay.PassEntry` | wg-obfuscator.c:1053-1157 | gate, probe, encoding and sending for one entry, from either side |
| `RelayCases.AcceptSame` | wg-obfuscator.c:1053-1137 | the gates change neither ends nor kind of an entry, and leave its version at most that of the packet |
| `RelayCases.ForwardIsPassed` | wg-obfuscator.c:1053-1157 | a packet changes no entry but its own |
| `RelayCases.ClientStepCases` | wg-obfuscator.c:992-1157 | a client's packet is too long, dropped with replies to its sender, or handed to the entry of its sender or a new one |
| `RelayCases.ServerStepCases` | wg-obfuscator.c:1158-1295 | a packet of the target likewise, for the entry of its socket |
| `RelayCases.StepCases` | wg-obfuscator.c:985-1295 | an event that brings a packet to an entry does what that entry makes of it, and any other forwards nothing |
| `Relay.Reconnect` | wg-obfuscator.c:261-268 | the walk over the list connects every entry once |
| `Relay.Server.constructor` | wg-obfuscator.c:26-48 | the initial state |
| `Relay.Server.NewClientEntry` | wg-obfuscator.c:422-491 | limit, socket and insertion of a dynamic entry |
| `Relay.Server.Admit` | wg-obfuscator.c:1060-1069 | the entry a first handshake makes |
| `Relay.Server.Deliver` | wg-obfuscator.c:1053-1157 | table, path and state after a packet reached an entry |
| `Relay.Server.TakeFromClient` | wg-obfuscator.c:1012-1051 | sender looked up, packet unmasked and decoded |
| `Relay.Server.Dispatch` | wg-obfuscator.c:1053-1157 | to the known entry, a new one, or none |
| `Relay.Server.HandleClientPacket` | wg-obfuscator.c:992-1157 | buffer, cache and table do exactly what the state machine does with a client's packet |
| `Relay.Server.TakeFromServer` | wg-obfuscator.c:1178-1212 | the target's packet unmasked and decoded |
| `Relay.Server.HandleServerPacket` | wg-obfuscator.c:1158-1295 | the same for a packet of the target |
| `Relay.Server.Remove` | uthash.h:450-477 | an entry leaves the table and no other changes |
| `Relay.Server.Rekey` | wg-obfuscator.c:296-298 | delete, new address, add: the stored hash is that of the new key |
| `Relay.Server.Rebind` | wg-obfuscator.c:274-299 | checks of a binding's result |
| `Relay.Server.Retarget` | wg-obfuscator.c:255-269 | a new target address |
| `Relay.Server.ApplyResolveResult` | wg-obfuscator.c:236-299 | the table does exactly what the state machine does with a resolver result |
| `Relay.Server.DrainResolveResults` | wg-obfuscator.c:305-329 | the same for the whole queue |
| `Relay.SweptSnoc` | wg-obfuscator.c:1301-1330 | one more entry of the pass |
| `Relay.SweepAdvance` | wg-obfuscator.c:1301-1330 | the table between two steps of the pass |
| `Relay.Server.SweepOne` | wg-obfuscator.c:1302-1329 | one entry removed, or its timer looked at |
| `Relay.Server.SweepNext` | wg-obfuscator.c:1301-1330 | one step of the walk, its successor read before the entry may go |
| `Relay.Server.Sweep` | wg-obfuscator.c:1301-1330 | the walk that deletes as it goes visits each entry once |
| `Relay.Server.Cleanup` | wg-obfuscator.c:1298-1333 | the table does exactly what the state machine does in a cleanup |
| `Relay.Server.NewClientEntryStatic` | wg-obfuscator.c:506-595 | limit, collision and insertion of a static entry |
| `Relay.Server.CollectBindings` | wg-obfuscator.c:884-903 | static entries with a host name, in insertion order |
| `Relay.BootFails` | wg-obfuscator.c:867-871 | a binding that fails ends the start |
| `Relay.Server.Start` | wg-obfuscator.c:826-903 | start-up succeeds exactly when the state machine's does, in the same state |
| `Relay.Server.FindByServerSock` | wg-obfuscator.c:598-604 | the entry of a socket, or none has it |
| `Relay.Server.Handle` | wg-obfuscator.c:985-1295 | one arrival of any kind; a polled socket always has its entry |
| `Relay.ReactionSockets` | wg-obfuscator.c:1158-1166 | an arrival adds no socket but one it opens and removes none, so the entry of a polled socket is still there when its turn comes |
| `Relay.DrainSockets` | wg-obfuscator.c:305-329 | nor does a whole queue of resolver results |
| `Relay.Server.Iterate` | wg-obfuscator.c:922-1334 | an iteration of the main loop is the arrivals in order and then the cleanup, with everything it sends |
| `MainLoop.ReactionKeeps` | wg-obfuscator.c:985-1295 | one arrival keeps the invariant |
| `MainLoop.BatchKeeps` | wg-obfuscator.c:985-1296 | so does everything that arrives in one iteration |
| `MainLoop.IterationKeeps` | wg-obfuscator.c:922-1334 | the invariant holds again at the end of every iteration |
| `MainLoop.BatchPlayed` | wg-obfuscator.c:985-1296 | everything that arrives in one iteration is a sequence of possible events, with the same state and the same sends |
| `MainLoop.IterationPlayed` | wg-obfuscator.c:922-1334 | an iteration is its arrivals' events and then a tick |
| `MainLoop.RunOn` | wg-obfuscator.c:922-1334 | possible events at a time that is not earlier carry any run on |
| `MainLoop.IterationRunsOn` | wg-obfuscator.c:922-1334 | so an iteration carries any run on: the longer run ends in its state, at its time, with a tick, and has sent exactly what it sent |
| `MainLoop.Begin` | wg-obfuscator.c:826-903 | the program after start-up is the start of a run |
| `MainLoop.Continue` | wg-obfuscator.c:922-1334 | each iteration of the program carries its run on, so what is proved of every state and step of every run holds of the program |
| `MainLoop.HistoryOnA` | wg-obfuscator.c:922-1334 | what one relay plays carries a history of two relays on |
| `MainLoop.HistoryOnB` | wg-obfuscator.c:922-1334 | the same for the other relay |
| `MainLoop.IterationInHistory` | wg-obfuscator.c:922-1334 | an iteration of either program carries a history of two relays on, so end-to-end delivery holds of two such programs |
| `Instances.TrimRight` | config.c:183-187 | the longest prefix that does not end in white space |
| `Instances.TrimLeft` | config.c:188-191 | the longest suffix that does not start with a blank |
| `Instances.UpTo` | config.c:192-196 | what stands before the first comment sign |
| `Instances.HeaderBeforeComment` | config.c:182-203 | a header followed by a comment is a header if and only if nothing stands between them |
| `Instances.TokensExactly` | config.c:234-250 | the first token between equal signs is the key and the second the value; without a second one, or with a blank one, there is no setting |
| `Instances.SettingLine` | config.c:182-262 | a line `key = value`, with or without blanks and a comment, is the setting of that value for that key |
| `Instances.NoValueIsBad` | config.c:240-244 | a line that is neither blank nor a header and has no equal sign is bad |
| `Instances.BlankValueIsBad` | config.c:245-249 | so is one whose value is blank |
| `Instances.BlankLine` | config.c:191-199 | a line of blanks, with or without a comment, says nothing |
| `Instances.HeaderLine` | config.c:202-224 | a header names its section with its first 255 characters |
| `Instances.Reader.CleanLine` | config.c:183-196 | the three loops over a line |
| `Instances.Reader.ResetConfig` | config.c:101-113 | no setting is left |
| `Instances.Reader.RegisterChildInstance` | wg-obfuscator.c:382-391 | the child is remembered if memory can be had |
| `Instances.Reader.StartSection` | config.c:203-231 | fork, copy, registration and reset at a header |
| `Instances.Reader.TakeLine` | config.c:203-266 | header, setting, bad line |
| `Instances.Reader.ReadConfigFile` | config.c:169-268 | the loop over the lines does what the specification of reading says |
| `Instances.Stopped` | config.c:240-255 | after a bad line nothing more is forked, and the instances forked before it run on |
| `Instances.BadLineEnds` | config.c:240-255 | the first line that is not in order ends the reading, with everything as it was before it |
| `Instances.ReadsExactly` | config.c:169-268 | a file is read to its end if and only if every line is in order and every `fork` succeeds |
| `Instances.OneInstanceEach` | config.c:203-231 | a file read to its end gives one instance for each section, with that section alone, knowing the processes forked before it |
| `Instances.PreambleForgotten` | config.c:226-227 | settings before the first header belong to no section |
| `Instances.LayoutSections` | config.c:181-267 | a file laid out as sections has those sections |
| `Instances.SectionsBecomeInstances` | config.c:181-268 | n sections give n instances, the i-th with the settings of section i only |
| `Instances.TargetsExactly` | wg-obfuscator.c:402-411 | a process forwards SIGHUP to exactly the remembered ones forked before it |
| `Instances.WeightFalls` | wg-obfuscator.c:402-411 | handling a signal outweighs what it sends on |
| `Instances.SighupReaches` | wg-obfuscator.c:402-411 | in every order of delivery a SIGHUP for the main process dies out, having reached exactly the remembered instances, so all of them if and only if all could be remembered |
| `Instances.ReadsFamily` | config.c:203-231 | the processes that reading a file forks each remember those forked before them |
| `Instances.SighupFromFile` | config.c:169-268 | the same SIGHUP result, for the processes any file that is read to its end leaves behind |

## Left out

- Sockets, `epoll` and `poll`, DNS look-ups, pipes and threads: only what they deliver and return is modelled. An event
  names its entry by socket, as in the `poll` build; the `epoll` build
  keeps a pointer to the same entry, in a union that it also reads as a socket number.
- Instances.Reader.ResetConfig: the default values it installs are not modelled; an empty list of settings stands for them.
- Logging, hex dumps, usage and version texts, and reopening of the log file.
- Values of options and of command-line arguments: whether an option is accepted is an input. `ValidConfig` holds what
  the parser guarantees.
- A configuration file that names another one, lines longer than the 10 KiB buffer, NUL bytes in a line, and the file
  offset that a forked process shares with its parent.
- The bodies of the hash functions: the hash is an arbitrary function of the address. Bloom filter, sorting and selection
  of `uthash.h` are not used by the program.
- Key pointer and key length of the hash handle: the key is the entry's own address, of fixed length. The table record is
  part of the table object, and bucket numbers are taken by remainder, the number of buckets being a power of two.
- Running out of memory inside `uthash.h`, which ends the program.
- Wrap-around of the counters of `uthash.h` and of the clock, which both stay far below their width; all values that are
  stored in bytes or in 16 bits are reduced as in the code.
- `realloc` is a new array with the old prefix, and a row without data is an empty array; `free` has no counterpart.
- Probes and timer messages are values rather than written into a local array; the answer to a Binding Request is built
  in the packet buffer.
- A control message that cannot be sent, or only in part, is only logged by the code; the model counts it as sent.
- Failure of `bind` for a static binding, which ends the program like a collision does, and failure of the allocation
  that remembers the static bindings.
- The address a socket gets, firewall marks and the send context of masking.c, which only passes sockets on.
- Quality of `rand` and strength of the key.
- Signals that arrive before a process has installed its handler, and shutdown on other signals.
