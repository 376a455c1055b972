# Gateway connector bridge: a verified model

The bridge connects LoRaWAN gateways (southbound) to routing networks (northbound). This project
models, in Dafny, the parts of it where correctness is hardest to see by reading:

* **The message codec** (`types/types.pb.go`): protobuf encoding of connect and disconnect messages.
  `Machine`, `Varint` and `Wire` follow the generated code down to shifts, 64-bit wrap-around and
  the panic of an access outside the buffer; `Grammar` says independently what an encoded message
  is; `Bounds` says when the code panics; `Truncation` what a cut-off message becomes;
  `Rejections` which error a malformed one gets; `Codec` has the laws of encoding and decoding and
  the code itself, as a class; `Overflow` has the inputs on which the laws end.
* **The gateway life cycle** (`exchange/exchange.go`, `auth/memory_auth.go`): `Lifecycle` is a
  transition system in which any number of workers, a forced connect, activations, token refreshes
  and `Stop` interleave one shared access at a time. `Channels` holds the done channels, `Accounting`
  the connected gauge, `Activations` the activations of each gateway, `Keys` the access keys, and
  `Exchange` the object whose methods take these steps on its fields.
* **The Semtech packet forwarder** (`backend/pktfwd`): datagrams (`Packets`), data rates
  (`DataRates`), MAC addresses and IDs (`Eui`), source locks (`SourceLocks`), the registry
  (`Registry`), the path of PULL_DATA and downlinks (`Backend`), the choice of an antenna (`Signals`),
  the registry as the only source of connects and disconnects of the exchange (`Forwarder`), and
  what sets the two apart (`Disturbances`).
* **The stateful filters** (`middleware`): the chain (`Middleware`), the blacklist (`Blacklist`) and
  the deduplicator alone and inside a chain (`Deduplicate`).

Code that works by assignment is a class or a method with loops, proved equal to a specification
function on values; the laws are lemmas about those functions. Clock readings, the order in which Go
ranges over a map, the answers of callbacks, middleware and the account server, and the schedule are
parameters of the model, and every result is for all of them. `dafny verify dfyconfig.toml` checks
the project.

## What the proofs say about the code

* The parser accepts exactly the strings of legal fields, nested groups included, and yields the
  message they denote (`Grammar.DecodeAcceptsTheGrammar`).
* It can panic: a field that declares an end beyond the largest int makes an index negative.
  `Bounds.DecodePanicsExactly` gives the exact condition and `Overflow.PanicWitness` an input of ten
  bytes. `Bounds.NoPanicWithinBounds` rules it out when the input and the largest length declared by
  a field that is read fit in an int together. Both at most 2^62 are enough but for the corner where
  both are 2^62, and there `Overflow.PanicAtHalf` is an input on which the code panics.
* For the same reason "decoding a concatenation is decoding its parts" and "an unknown field changes
  nothing" hold with one exception, which `Codec.DecodingConcatenation` and
  `Codec.UnknownFieldIsTransparent` delimit exactly: an overlong field behind the inserted bytes
  may turn an end-of-input error into a panic. `Overflow.ConcatenationFails` and
  `Overflow.TransparencyFails` show it on concrete bytes. A message that decodes without error is
  never affected.
* No interleaving closes a done channel twice. Of these channels and `b.done`, only `b.done` can be
  closed twice, and a second `Stop` does so; this supposes that `Start` ran before `Stop`.
* The connected gauge plus the connects refused by middleware equals the size of the gateway set in
  every state between messages if and only if there is at most one worker: two workers that take
  disconnects for one gateway count it down twice (`Accounting.TwoWorkersMiscount`).
* In every run of one worker before `Stop`, the activations of a gateway are one per backend while it
  is connected and none otherwise, plus those that were outstanding at its last deactivation and
  less those of refused connects (`Activations.ActivationsAreWantedPlusDrift`). So without refusals
  the count is right if and only if nothing was outstanding then. The code does not see to that: for
  every exchange with a worker and a backend, `Activations.LateActivationLingers` is a run after
  which an activation stays for a gateway that is gone.
* A disconnect is checked against the last key that was stored, with any number of workers. That a
  gateway leaves only on a disconnect that shows the latest key of all its connects is true if and
  only if there is at most one worker (`Keys.LatestKeyGuardsOneWorker`); with two, a connect can
  bring a key between the check and the removal (`Keys.KeyArrivesBehindTheCheck`).
* The set of connected gateways mirrors the registry of the packet forwarder. Whenever nothing is
  in flight the two agree in all runs if and only if there is one worker, no disconnect is refused
  by middleware, and no gateway is connected by force (`Disturbances.RegistryAndSetAgreeExactly`);
  refused connects do no harm.
* A LoRa or FSK data rate survives the way to JSON and back exactly when it is `Transmissible`; a
  negative LoRa parameter or an FSK rate that is a multiple of 2^32 does not.

## Model

| member | source | states |
|---|---|---|
| Varints.ReadVarintExact | types/types.pb.go:219-233 | a varint is read exactly when the input starts with one of one to ten bytes, and its value is the base 128 number modulo 2^64 |
| Varints.ScanRunsOut | types/types.pb.go:220-226 | without a last digit, ten bytes are an integer overflow and fewer are an unexpected end of input |
| Varints.ReadVarintStable | types/types.pb.go:220-233 | more input does not change a varint that was read |
| Varints.VarintRoundTrip | types/types.pb.go:164-172 | every 64-bit word is written in at most ten bytes that read back as that word, whatever follows |
| Varints.VarintIsShortest | types/types.pb.go:164-172 | no varint of the same value is shorter |
| Varints.EncodeVarint | types/types.pb.go:164-172 | the loop with its shifts and masks writes that varint at the offset, returns the position behind it, and changes no other byte |
| Varints.SizeOfVarint | types/types.pb.go:201-210 | the count is exactly the number of bytes that are written |
| Varints.AccumulateDigit | types/types.pb.go:227-229 | or-ing in a shifted digit, bits beyond the word lost, extends the number read so far |
| Varints.DecodeVarint | types/types.pb.go:219-233 | the reading loop never leaves the buffer and gives the value, the length, or the right error |
| Wire.SkipStable | types/types.pb.go:430-528 | a skip that succeeds is not changed by more input |
| Wire.SkipGroupStable | types/types.pb.go:489-517 | the same for the members of a group |
| Wire.DecodeFieldStable | types/types.pb.go:217-315 | a field that was decoded in full decodes alike when more input follows |
| Wire.DecodeComposes | types/types.pb.go:214-321 | if x decodes without error, decoding x and then y in one buffer is decoding y, at its place, into the message x left, error outcome included |
| Grammar.TagCarries | types/types.pb.go:234-235 | a tag of value 8n + w carries wire type w and number n; number bits above the 32nd are dropped and that one is a sign |
| Grammar.SkipsField | types/types.pb.go:430-528 | skipTypes returns exactly the encoded length of any well-formed field, by induction on the nesting of groups |
| Grammar.PassesMembers | types/types.pb.go:489-517 | the group loop passes over well-formed members, whatever comes behind them |
| Grammar.SkipsMembers | types/types.pb.go:489-517 | the group loop stops right behind the end tag of its own group |
| Grammar.SkippedIsField | types/types.pb.go:430-528 | conversely, what is skipped inside the buffer is a well-formed field, with the tag that was read |
| Grammar.SkippedAreFields | types/types.pb.go:489-517 | and what the group loop passes is a string of fields and an end tag |
| Grammar.DecodesFields | types/types.pb.go:214-321 | decoding a string of legal fields yields the message they denote and goes on with whatever follows |
| Grammar.DecodedAreFields | types/types.pb.go:214-321 | an input that decodes without error is the encoding of legal fields that denote the result |
| Grammar.DecodeAcceptsTheGrammar | types/types.pb.go:214-321 | Unmarshal accepts an input with a result if and only if the input encodes legal fields that denote the result, the last value of a field winning; the grammar reads numbers and wire types off the tags by itself |
| Rejections.SkipRejects | types/types.pb.go:430-528 | the error of skipTypes for each malformed field, also inside groups of any depth |
| Rejections.EveryRejection | types/types.pb.go:214-321 | behind legal fields, a malformed one ends decoding with the error that its cause calls for, and the fields in front are decoded |
| Bounds.SkipPanicsExactly | types/types.pb.go:430-528 | skipTypes leaves its buffer if and only if a member of a group ends beyond the largest int |
| Bounds.SkipGroupPanicsExactly | types/types.pb.go:489-517 | the same for the group loop, from any member on |
| Bounds.TurnByReach | types/types.pb.go:217-315 | whether a field is consumed, refused, cut short or a panic depends only on where it ends |
| Bounds.DecodePanicsExactly | types/types.pb.go:214-321 | Unmarshal panics if and only if the end declared by the field it stops at does not fit in an int at its place |
| Bounds.DecodeMoved | types/types.pb.go:214-321 | a part decodes alike at every position, except exactly when its overlong end fits at one position and not at the other |
| Bounds.ReachWithin | types/types.pb.go:262-269 | however fields nest, no end the parser meets lies farther than the input and the largest length declared by a field it reads together |
| Bounds.NoPanicWithinBounds | types/types.pb.go:214-321 | an input that fits in an int together with the largest length declared by a field it reads is decoded without an access outside the buffer |
| Overflow.KeyClaimReaches | types/types.pb.go:291-299 | the end and the length that a key without its bytes declares |
| Overflow.PanicWitness | types/types.pb.go:291-299 | a concrete input of a tag and a length on which the code indexes out of range |
| Overflow.PanicAtHalf | types/types.pb.go:214-321 | an input of 2^62 bytes that declares lengths of at most 2^62 and panics |
| Overflow.ConcatenationFails | types/types.pb.go:291-299 | two messages of which the second alone is an end-of-input error and behind the first a panic |
| Overflow.TransparencyFails | types/types.pb.go:301-314 | an unknown field of two bytes whose insertion turns an end-of-input error into a panic |
| Truncation.SkipsCutField | types/types.pb.go:430-528 | of a cut field, skipTypes reports the end of input or the length the whole field would have |
| Truncation.SkipsCutGroup | types/types.pb.go:489-517 | a cut group is always an unexpected end of input |
| Truncation.TruncationIsNoticed | types/types.pb.go:214-321 | a prefix of a legal message yields what its whole fields denote, without error exactly if the cut is at a field boundary and with an unexpected end of input otherwise |
| Codec.MessageBytesAreFields | types/types.pb.go:96-114 | what MarshalTo writes is a string of legal fields in ascending order of numbers that denotes the message |
| Codec.FieldByNumber | types/types.pb.go:234-314 | of all fields with number n and wire type w only n = 1 sets the ID and only n = 3 the key, both must be strings, and every other field leaves the message as it is |
| Codec.RoundTrip | types/types.pb.go:86-321 | decoding an encoded message into a fresh one gives it back, empty fields included, and into any message merges it, whatever follows |
| Codec.UnknownFieldIsIgnored | types/types.pb.go:301-314 | an unknown field, arbitrarily nested groups included, is passed over without effect |
| Codec.UnknownFieldIsTransparent | types/types.pb.go:301-314 | inserted at a field boundary it changes neither message nor outcome, with the exact exception stated above |
| Codec.DecodingConcatenation | types/types.pb.go:214-321 | decoding a concatenation equals decoding its parts in turn into one message if and only if the second part does not overflow by being moved |
| Codec.GatewayMessage.Size | types/types.pb.go:173-199 | the size is the number of bytes of the encoding |
| Codec.AppendString | types/types.pb.go:101-106 | tag, length and contents are written right behind each other and nothing else changes |
| Codec.GatewayMessage.MarshalTo | types/types.pb.go:96-144 | the buffer starts with the encoding and keeps its other bytes; the result is the encoded length |
| Codec.GatewayMessage.Marshal | types/types.pb.go:86-125 | the fresh buffer that Size measured is filled with no gap and no overrun |
| Codec.SkipTypes | types/types.pb.go:430-528 | the recursive code computes the skip specification, and terminates because each call gets a shorter rest |
| Codec.SkipMembersOf | types/types.pb.go:489-517 | the group loop does so from its first member on; remaining bytes strictly decrease |
| Codec.GatewayMessage.UnmarshalField | types/types.pb.go:217-315 | one turn of the loop advances, assigns or fails as specified; on failure the receiver is as before the turn |
| Codec.GatewayMessage.UnmarshalString | types/types.pb.go:247-271 | the string case of a turn, with overflow of the end position |
| Codec.GatewayMessage.Unmarshal | types/types.pb.go:214-429 | the loop gives outcome and receiver of decoding the whole input |
| MemoryAuth.RefreshKeepsKeys | auth/memory_auth.go:92-114 | fetching a token changes no key and makes no gateway known or unknown |
| MemoryAuth.RefreshedTokenIsGood | auth/memory_auth.go:101-113 | a token that is returned is stored, and live or just granted for the stored key |
| MemoryAuth.EveryRefresh | auth/memory_auth.go:92-114 | result and store of GetToken for every store, time and answer: live is a token that never expires or expires later |
| MemoryAuth.SetTokenLasts | auth/memory_auth.go:34-65 | a token that was set is what GetToken returns until it expires, also if a key is set in between |
| MemoryAuth.SetTokenExpires | auth/memory_auth.go:101-113 | from the moment it expires it is exchanged or missed |
| MemoryAuth.Memory.SetToken | auth/memory_auth.go:34-49 | token and expiry of one gateway are set, its key is kept |
| MemoryAuth.Memory.SetKey | auth/memory_auth.go:52-65 | from now on exactly this key is accepted for the gateway; other gateways keep theirs |
| MemoryAuth.Memory.ValidateKey | auth/memory_auth.go:68-81 | valid if and only if no entry exists or the key is the stored one |
| MemoryAuth.Memory.Delete | auth/memory_auth.go:84-89 | the gateway is forgotten, every other one kept |
| MemoryAuth.Memory.GetToken | auth/memory_auth.go:92-114 | result and new store of every branch; no key changes |
| DoneChannels.CloseSlotsIsSafe | exchange/exchange.go:567-576 | closing all held channels in any order closes exactly those and never a closed one |
| DoneChannels.DeactivateKeepsHeld | exchange/exchange.go:504-524 | a deactivation closes exactly the channels of its slot, without panic, and keeps the invariant |
| DoneChannels.StopKeepsHeld | exchange/exchange.go:563-580 | a first Stop closes every channel ever made that is open, and empties the maps |
| DoneChannels.RegisterKeepsHeld | exchange/exchange.go:439-442 | registering a new channel keeps the invariant, other slots untouched |
| Lifecycle.NextKeepsHeld | exchange/exchange.go:432-580 | every step of every goroutine keeps the invariant, and only a Stop after a Stop panics |
| Lifecycle.ChannelsAreClosedOnce | exchange/exchange.go:504-580 | in every reachable state, with any number of workers, the maps hold exactly the open channels, each once; the exchange has panicked if and only if Stop was called twice |
| Lifecycle.EndedOnlyByItsOwn | exchange/exchange.go:504-524 | an open activation is ended only by Stop or by a worker that deactivates just its gateway on its side |
| Lifecycle.NextRunning | exchange/exchange.go:439-460 | an activation starts with its own channel, and leaves only when that channel was closed, taking no other with it |
| Lifecycle.OpenMeansRunning | exchange/exchange.go:439-455 | in every run an activation runs as long as its channel is open |
| Lifecycle.ForcedOnlySpawns | exchange/exchange.go:168-183 | a forced connect only ever spawns; it takes part in no disconnect |
| Accounting.NextBalances | exchange/exchange.go:217-272 | every step keeps the balance of gauge, refused connects, set, and what is under way |
| Accounting.GaugeIsConservedByOneWorker | exchange/exchange.go:168-272 | gauge plus refused connects equals the size of the set in every state between messages if and only if there is at most one worker |
| Accounting.TwoWorkersMiscount | exchange/exchange.go:249-272 | the run of two workers that breaks it |
| Activations.NextCounts | exchange/exchange.go:168-272 | what each step of any goroutine does to the surplus of a slot: only a deactivation and a refused connect change it |
| Activations.RunsAreCounted | exchange/exchange.go:432-524 | in every reachable state, also amid messages, the surplus of each slot is what its last deactivation and the refused connects since left |
| Activations.ActivationsAreWantedPlusDrift | exchange/exchange.go:432-524 | between messages of any run before Stop, pending plus registered activations are those wanted plus that drift |
| Activations.OneActivationPerBackend | exchange/exchange.go:233-271 | without refused connects, they are one per backend for a connected gateway and none for any other ID if and only if nothing was outstanding at the last deactivation of that side; otherwise they are more |
| Activations.LateActivationLingers | exchange/exchange.go:432-476 | with any worker and any backend, a run after which an activation stays registered and open for a gateway that left |
| Activations.NoBackendsNoActivations | exchange/exchange.go:242-247 | without backends no activation is ever started, with any number of workers |
| Activations.AlwaysAsWanted | exchange/exchange.go:233-271 | the count is right in all states between messages, of all runs without Stop and refused connects, if and only if there is no worker or no backend |
| Keys.KeysAreFiled | exchange/exchange.go:225-232 | with any number of workers, in every reachable state the key on file for each gateway is the last non-empty one that was stored, and every worker past its check passed it at some step |
| Keys.LatestIsStored | exchange/exchange.go:225-232 | with one worker the latest key of a gateway's connects is the one on file, or in the hands of the worker |
| Keys.CheckIsExact | exchange/exchange.go:257-264 | with any number of workers, a disconnect of a connected gateway passes the check if and only if it shows the last key stored, or none ever was |
| Keys.LeavesOnlyChecked | exchange/exchange.go:254-272 | with any number of workers, a gateway leaves the set only by a worker whose last message is a disconnect for its lower-cased ID that passed the check, at a step of the history, against the key stored by then |
| Keys.LeavesOnlyWithTheLatestKey | exchange/exchange.go:254-272 | with one worker that disconnect showed the latest non-empty key of any connect for the ID, if there is one |
| Keys.KeyArrivesBehindTheCheck | exchange/exchange.go:261-271 | with two workers, a run in which it did not |
| Keys.LatestKeyGuardsOneWorker | exchange/exchange.go:217-272 | every removal in every run is by a disconnect that showed the latest key if and only if there is at most one worker |
| Exchanges.Exchange.constructor | exchange/exchange.go:65-86 | a new exchange is the initial state of the transition system |
| Exchanges.Exchange.Activate | exchange/exchange.go:439-442 | the locked region takes the register step; the channel is new and open |
| Exchanges.Exchange.DeactivateSlot | exchange/exchange.go:504-524 | the loop takes the deactivation step and never closes a closed channel |
| Exchanges.Exchange.CloseSlotsIn | exchange/exchange.go:567-576 | the nested loops of Stop, in any order of the maps |
| Exchanges.Exchange.Stop | exchange/exchange.go:563-580 | takes the stop step; every channel is closed and the maps are empty |
| Exchanges.Exchange.HandleConnect | exchange/exchange.go:217-248 | the connect case equals the uninterrupted sequence of the worker's steps, in every branch |
| Exchanges.Exchange.SpawnActivations | exchange/exchange.go:242-248 | so do the loops over the backends and the gauge |
| Exchanges.Exchange.HandleDisconnect | exchange/exchange.go:249-272 | the disconnect case does too, and keeps the invariant on channels |
| Exchanges.Exchange.ConnectGateway | exchange/exchange.go:168-183 | the loop over the IDs does a forced connect of each |
| Exchanges.ForcedConnects | exchange/exchange.go:168-183 | all IDs join as they are, new ones get one activation per backend, though none northbound for the empty ID, and the gauge counts them |
| Exchanges.ForceIsForcedConnect | exchange/exchange.go:168-183 | a forced connect as a step among others, worked through, is the same |
| Exchanges.FinishSpawning | exchange/exchange.go:242-248 | exactly the missing activations of either side are started, and the gauge goes up by one |
| Exchanges.CaseMakesNoDifference | exchange/exchange.go:222-271 | IDs that differ only in the case of letters are one gateway: a connect under one makes it a member, and a disconnect under the other that shows the right key and is not refused removes it |
| Text.LowersEveryCapital | exchange/exchange.go:222-254 | capitals become the letters 32 higher, all else stays |
| Text.LowerForgetsCase | exchange/exchange.go:222-254 | two IDs are lowered to one exactly if they differ in the case of letters at most |
| Exchanges.FinishDisconnecting | exchange/exchange.go:254-272 | a disconnect that is unknown, shows a wrong key or is refused changes nothing; otherwise exactly the gateway's channels, membership and count go |
| Exchanges.FinishConnecting | exchange/exchange.go:222-248 | a connect stores a non-empty key even if the gateway is connected, and leaves a refused gateway in the set |
| Euis.HexRoundTrip | backend/pktfwd/backend.go:48-57 | hexadecimal text reads back as the bytes and is in lower case |
| Euis.HexDigits | backend/pktfwd/backend.go:54-57 | two lower-case digits a byte, the high half first |
| Euis.EveryMac | backend/pktfwd/backend.go:48-52 | sixteen digits of either case name an address with or without the prefix, and any other text gives the zero address |
| Euis.IDNamesItsMac | backend/pktfwd/backend.go:48-57 | an ID is "eui-" and the digits of the address, getMac of it is the address, and lower-casing keeps it |
| Euis.IDsAreDistinct | backend/pktfwd/backend.go:54-57 | different addresses have different IDs |
| SourceLocks.SweptCovers | backend/pktfwd/security.go:18-34 | a swept table lacks only locks that have expired |
| SourceLocks.SweepIsInvisible | backend/pktfwd/security.go:18-61 | with sweeps anywhere in a run, every verdict equals that of a table that is never swept |
| SourceLocks.LockIsLastAccepted | backend/pktfwd/security.go:46-61 | the lock of a gateway is its last accepted call; a rejected one leaves no trace |
| SourceLocks.ChainKeepsItsSource | backend/pktfwd/security.go:46-61 | accepted calls with gaps below cacheTime use one IP address, and one port if ports are locked |
| SourceLocks.EveryVerdict | backend/pktfwd/security.go:46-61 | in every run, swept or not, a call is accepted if and only if its gateway has no accepted call yet, or the last one was stored at least cacheTime ago, or came from the same source; otherwise the port is wrong if ports are locked and differ, else the address |
| SourceLocks.SameIPIsSameIn16 | backend/pktfwd/security.go:54 | addresses are the same exactly if they are in their forms of sixteen bytes |
| SourceLocks.SameIPIsTransitive | backend/pktfwd/security.go:54 | equality of addresses across IPv4 and its IPv6 mapping can be chained |
| SourceLocks.Locks.Set | backend/pktfwd/security.go:46-61 | verdict and new table of every branch; a rejected call changes nothing |
| SourceLocks.Locks.SweepExpired | backend/pktfwd/security.go:21-31 | collecting and deleting removes exactly the locks older than cacheTime and keeps the others |
| Registry.StoreAgrees | backend/pktfwd/backend.go:69-80 | a set, announced or refused, keeps callbacks alternating and in step with the keys |
| Registry.SweepAgrees | backend/pktfwd/backend.go:82-96 | so does a cleanup that any callback may stop midway |
| Registry.CallbacksAlternate | backend/pktfwd/backend.go:69-96 | in every run the successful callbacks of each gateway are new, delete, new, and so on, and a gateway is a key if and only if its last one was new |
| Registry.SweepIsExact | backend/pktfwd/backend.go:82-96 | a cleanup makes its visits up to the first refusal, drops exactly the gateways last seen more than a session before one of them, and fails if and only if there is a refusal |
| Registry.Gateways.Get | backend/pktfwd/backend.go:59-67 | found if and only if registered, with the registered entry |
| Registry.Gateways.Set | backend/pktfwd/backend.go:69-80 | new table, callbacks and result of every branch |
| Registry.Gateways.Cleanup | backend/pktfwd/backend.go:82-96 | the loop does what the specification says for any order of keys, and fails if and only if a callback refused |
| Backend.AcknowledgesExactly | backend/pktfwd/backend.go:297-336 | a datagram is answered if and only if it is a PULL_DATA of version 1 or 2 that the locks let in and whose gateway is registered or welcome; the answer, the registry entry and the lock are given byte for byte |
| Backend.AcknowledgesWhatItGot | backend/pktfwd/backend.go:313-334 | what is sent decodes as a PULL_ACK with version and token of the PULL_DATA |
| Backend.EntryIsLastRoute | backend/pktfwd/backend.go:322-329 | in every run an entry holds source and version of the last PULL_DATA that was let through |
| Backend.DownlinkFollowsTheLastPull | backend/pktfwd/backend.go:202-227 | after any run a downlink is sent if and only if the gateway's last callback was new, to the source and in the version of its last PULL_DATA, and it decodes to the payload |
| Backend.PacketBackend.HandlePullData | backend/pktfwd/backend.go:297-336 | locks, registry and sent datagrams of every branch, and which result comes when; a bad or locked-out packet changes nothing |
| Packets.RoundTrip | backend/pktfwd/structs.go:57-289 | all six packets survive marshal and unmarshal in versions 1 and 2, a PULL_RESP of version 1 with token 0; any other version is refused |
| Packets.Layout | backend/pktfwd/structs.go:57-266 | the bytes of each packet: version, token with its low byte first, the identifiers 0 to 5, address, JSON |
| Packets.EveryDecoding | backend/pktfwd/structs.go:73-289 | what each decoder makes of any datagram: lengths, identifiers, versions 1 and 2, in the order of the checks, and the packet that is read |
| Packets.EveryPacketType | backend/pktfwd/structs.go:456-466 | the fourth byte, for four bytes or more of version 1 or 2 |
| Packets.DecodersAreExclusive | backend/pktfwd/structs.go:456-466 | at most one decoder accepts a datagram, the one GetPacketType names |
| Packets.DecodedReproduces | backend/pktfwd/structs.go:73-289 | marshalling a decoded packet gives back its bytes up to the JSON text and the bytes version 1 leaves unused |
| Packets.MarshalBinary | backend/pktfwd/structs.go:57-266 | storing the header and appending the rest gives the packet's bytes |
| Packets.PutHeader | backend/pktfwd/structs.go:211-217 | the four header bytes, with the token of a PULL_RESP left unwritten in version 1 |
| Packets.ReadMAC | backend/pktfwd/structs.go:87-89 | the copying loop takes bytes 4 to 11 |
| DataRates.LoRaText | backend/pktfwd/backend.go:612-626 | the pattern finds both numbers in the printed text if they are not negative, and nothing otherwise |
| DataRates.FindsThePattern | backend/pktfwd/backend.go:612-615 | the pattern is found in any text if and only if it stands somewhere in it, and what is found stands there |
| DataRates.ReadsNumbers | backend/pktfwd/backend.go:618-630 | the numbers of a rate are read up to the largest int |
| DataRates.JsonText | backend/pktfwd/structs.go:359-364 | the JSON of a LoRa rate is its text in quotes, of any other rate a bare number modulo 2^32 |
| DataRates.JsonReads | backend/pktfwd/structs.go:367-375 | a number below 2^32 is read as FSK, a greater one and a quoted text as LoRa, and the other field stays |
| DataRates.TransmitLoRa | backend/pktfwd/backend.go:607-652 | a LoRa rate of non-negative parameters comes back with bit rate 0, any other is an error |
| DataRates.TransmitNumber | backend/pktfwd/structs.go:359-375 | any other rate comes back as FSK with its bit rate modulo 2^32, or as empty |
| DataRates.RoundTripIsExact | backend/pktfwd/backend.go:607-652 | a rate survives DatR, JSON and back if and only if it is transmissible |
| Text.DecimalRoundTrip | backend/pktfwd/structs.go:363-368 | decimal digits parse to the number they print |
| Text.DigitsInOrder | backend/pktfwd/structs.go:363 | the most significant digit comes first, without leading zeros |
| Text.TrimIsExact | backend/pktfwd/structs.go:370 | exactly the quotes at both ends are cut off |
| Signals.BestSignal | backend/pktfwd/backend.go:545-571 | the loop ends with an antenna that no other exceeds in ratio or, at its ratio, in strength, and lists every antenna in order |
| Signals.BestIgnoresOrder | backend/pktfwd/backend.go:545-571 | that antenna's readings are unique and do not depend on the order of the list |
| Forwarder.WorkReplays | exchange/exchange.go:217-272 | a worker's step either leaves the effect of its message outstanding or takes all of it |
| Forwarder.RegistryMirrors | backend/pktfwd/pktfwd.go:94-102 | a callback hands over just the message that its change of the registry calls for |
| Forwarder.RegistryIsMirrored | exchange/exchange.go:148-158 | replaying the messages in flight onto the gateway set always gives the IDs of the registry keys, whatever connects the middleware refuses |
| Forwarder.QuietNetAgrees | exchange/exchange.go:217-272 | with nothing in flight the connected gateways are exactly the registered ones |
| Forwarder.RegistryAgrees | backend/pktfwd/backend.go:69-96 | the callbacks that feed the exchange alternate and agree with the registry |
| Disturbances.RefusedDisconnectStays | exchange/exchange.go:265-268 | a run of refused middleware after which a gateway is connected and not registered |
| Disturbances.ForcedIsUnregistered | exchange/exchange.go:168-172 | the same by a forced connect |
| Disturbances.DisconnectOvertakes | exchange/exchange.go:548-557 | the same by two workers, one of which drops a disconnect as not connected |
| Disturbances.RegistryAndSetAgreeExactly | exchange/exchange.go:217-272 | with nothing in flight, set and registry agree in all runs if and only if there is one worker, no refused disconnect and no forced connect |
| Middleware.MemberAnswersItsArrival | middleware/middleware.go:81-202 | a member changes state only by answering the message as it reaches it; a rejection leaves later members as they were |
| Middleware.AcceptedByAll | middleware/middleware.go:81-202 | a message is accepted if and only if it reaches, and is accepted by, every member of its kind |
| Middleware.RunsOne | middleware/middleware.go:81-98 | a member alone stands aside or answers |
| Middleware.RunsInOrder | middleware/middleware.go:81-89 | of two parts of a chain the second goes on with the envelope of the first, or stays as it is if the first rejects |
| Middleware.HandlersAreExact | middleware/middleware.go:91-98 | a typed chain has exactly the members that handle the kind, in their order |
| Middleware.Chain.Filter | middleware/middleware.go:91-98 | the filtering loop builds that chain |
| Middleware.Chain.Execute | middleware/middleware.go:48-202 | for each of the five types of message, the members that handle this type are run in order, with the verdict and the states of one pass over the chain |
| Deduplicate.RefusesRepeats | middleware/deduplicate/deduplicate.go:43-54 | an uplink is refused if and only if it equals the one before it of its gateway's session |
| Deduplicate.AcceptsTheDestuttered | middleware/deduplicate/deduplicate.go:32-54 | at every point, the accepted uplinks of a gateway since its last disconnect are all its uplinks with adjacent repeats removed |
| Deduplicate.DedupSeesWhatReachesIt | middleware/middleware.go:133-151 | inside any chain, the deduplicator holds what it would hold alone on the messages that reach it |
| Deduplicate.RefusesExactlyRepeats | middleware/deduplicate/deduplicate.go:43-54 | its verdict in the chain is exact on those messages |
| Deduplicate.ChainDestutters | middleware/deduplicate/deduplicate.go:32-54 | what it lets through inside a chain is what reaches it, destuttered, per gateway and session |
| Deduplicate.ChainRefusesRepeats | middleware/deduplicate/deduplicate.go:43-54 | in a chain whose earlier members accept and change nothing, an uplink with payload and timestamp of the last one of its gateway's session is refused and no state changes; if the deduplicator is last, all others are accepted |
| Deduplicate.Deduplicator.HandleUplink | middleware/deduplicate/deduplicate.go:43-54 | memory and verdict of every branch; a refusal changes nothing |
| Deduplicate.Deduplicator.HandleDisconnect | middleware/deduplicate/deduplicate.go:32-37 | the gateway's memory is dropped, all other kept |
| Blacklist.Filter.UpdateLookup | middleware/blacklist/blacklist.go:144-161 | the nested loops rebuild both indexes to hold exactly what some list names, empty fields left out |
| Blacklist.Filter.Replace | middleware/blacklist/blacklist.go:105-142 | a list that was read replaces its predecessor and the indexes follow; one that was not changes nothing |
| Blacklist.Filter.Check | middleware/blacklist/blacklist.go:169-185 | the verdict is that of a linear scan of all current lists, ID first, then address |
| Blacklist.ListsAreCurrent | middleware/blacklist/blacklist.go:115-118 | after any loads each location holds the contents of its last successful one |
| Blacklist.BlocksWhileListed | middleware/blacklist/blacklist.go:144-174 | a gateway is blocked by ID if and only if the last good load of some location names it |
| Blacklist.BlocksAddressWhileListed | middleware/blacklist/blacklist.go:144-185 | it is blocked by address if and only if some last good load names the address and none names the gateway |
| Blacklist.EveryVerdict | middleware/blacklist/blacklist.go:144-185 | each verdict after any loads: ID, then an address that does not split, then address, else pass; empty fields never block |

## Left out

- ConnectMessage and DisconnectMessage have the same fields and the same generated code, so one class stands for both; the names in error texts are not modelled, error kinds are.
- Strings of messages are byte sequences in the codec; their validity as UTF-8 is not looked at, as in the code. `strings.ToLower` is modelled on ASCII letters.
- Lifecycle: one goroutine of forced connects at a time; the watchdog does not fire, and the uplink, downlink and status cases, which do not touch the life cycle, are not steps.
- Lifecycle: `Stop` is one atomic step, although the code closes `b.done` before it takes doneLock; goroutines go on after it, as the code lets them, and blocking of channel sends is left to the schedule.
- Lifecycle: northboundDone and southboundDone are one map keyed by side and gateway; an auth store is always set, and is the in-memory one. The gateway set is the plain set, not the Redis one.
- Lifecycle: `SetToken` and `Delete` are not called from outside the exchange; the account server is an arbitrary answer.
- Exchanges.Exchange.HandleConnect: states a message worked through without interruption; interleavings are the business of module Lifecycle.
- Exchanges.Exchange.HandleDisconnect: the same.
- Activations.ActivationsAreWantedPlusDrift: for one worker and before Stop, which takes the registered activations of connected gateways away; the empty ID, which forced connects do not subscribe northbound, is not counted.
- Forwarder.RegistryIsMirrored: for the packet forwarder as only southbound backend, whose callbacks never fail; Disturbances shows which runs break the mirror. The end of forwarding at Stop is not modelled.
- Lifecycle.ChannelsAreClosedOnce: supposes that Start ran, since Stop ends by unlocking the mutex that Start locked; what else panics after Stop, such as a callback that sends on the connect channel that the ended forwarder closed, is not modelled.
- Exchanges.Exchange.Stop: does not model that final unlock.
- Backend.PacketBackend.HandlePullData: one call at a time, while the code handles each datagram in a goroutine of its own, so that the source lock and the registry can see two of them in different orders.
- Backend.EntryIsLastRoute: the same.
- Backend.DownlinkFollowsTheLastPull: the same.
- Middleware.Chain.Execute: does not model the 10 ms timeout, after which the typed chain goes on in its goroutine; for the exchange a timeout is a refusal like any other.
- Deduplicate.Deduplicator.HandleUplink: messages are values, so a later member that changes a remembered message in place is not captured.
- Packets.MarshalBinary: JSON payloads go through an abstract codec that is invertible and never fails to encode, and packets are values; the partly assigned receiver after a JSON error is not captured.
- SourceLocks.Locks.SweepExpired: one tick; the ticker, which the code starts only for a positive cacheTime, is a tick at any time in any run.
- Signals.BestSignal: rounding to float32 comes before the model; the other fields copied per antenna are not modelled.
- Registry: onNew and onDelete are always present, as the packet forwarder sets them; the text form of an EUI64 is that of the lorawan library, which is not part of this model.
- backend/pktfwd/backend.go: UDP reads and writes, PUSH_DATA statistics and received packets other than the antenna choice, TX_ACK logging, and the fields of a transmitted packet are left out.
- backend/pktfwd/pktfwd.go: the channel maps of uplink and status subscriptions are left out; what a late unsubscribe does to a reconnect is not fixed by the code.
- exchange/state.go, auth/redis_auth.go and auth/exchanger.go: state that lives in Redis or in the account server.
- AMQP, MQTT, the TTN router, HTTP, the dummy backend, metrics, the watchdog, command line and assets: clients of libraries that are not part of this model, or wiring.
- middleware/ratelimit, gatewayinfo, inject, lorafilter and debug: a counter in a library that is not part of this model, or filters of one branch.
- Unused generated helpers (`encodeFixed64Types`, `encodeFixed32Types`, `sozTypes`) and descriptor bytes.
