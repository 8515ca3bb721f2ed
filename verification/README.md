# A verified model of the device tree's C and C++ sources

The repository holds the radio interface layer daemon of a phone (`libril`) and a tool for eMMC cards
(`mmc_utils`). This project models their hard cores in Dafny and proves what they are for.

* **SHA-2 and HMAC** (`Sha2Spec`, `Sha2Suites`, `Sha2Standard`, `Sha2Constants`, `Sha2`, `Hmac`). The functions of FIPS
  180-2 (sections 5.1, 6.2, 6.3, 6.4 and Change Notice 1) and of section 2 of RFC 2104 are written over whole messages.
  The contexts of the C code, with their buffers, skips and 32-bit counters, are classes whose methods are proved to compute them under
  any chunking. The code is generic in the word type, so SHA-224, SHA-256, SHA-384 and SHA-512 share one proof, and
  a constant selects the shifting or the unrolled loop. `Sha2Standard` and the lemmas of `Sha2Suites` unfold the
  specification into what the standard says of each word and byte, and `Sha2Constants` derives the tables from the
  roots of primes. `Rpmb` uses all this for the check of a multi-block RPMB read.
* **The event loop** (`TimeVal`, `EventSpec`, `EventRuns`, `RilEvent`). `RilEvent` has the intrusive rings with their
  sentinels, the 8-slot watch table with back-pointers, the descriptor set and `nfds`, on the heap. Each of its
  methods is proved to do what a function over sequences says; the properties of whole runs, with callbacks and
  other threads adding, deleting and arming events, are proved about those functions.
* **The daemon protocol** (`RilProtocol`, `RilRuns`, `RilPackets`, `Rild`). `RilProtocol` is a step system: each callback
  of the loop and each call of the vendor library is one step on the pending requests, the connection, the wake timers,
  the NITZ message kept and the packets written. `RilRuns` proves the invariant and the theorems over all runs,
  `RilPackets` what single steps read, write and store, packet by packet. `Rild` is the state changing form, with the
  linked list of requests, and each of its methods is proved to be a step.
* **Framing and the CDMA SMS parcel** (`Framing`, `CdmaParcel`). The output of `sendResponseRaw` against a decoder, and
  the parcel writer and reader against each other.
* **Partitioning** (`ExtCsd`, `ExtCsdBytes`). The sizes that the partitioning commands write into the EXT_CSD registers,
  and the check before the one-time setting, over any sequence of commands and with writes that may fail.
* **The command line** (`MmcCommand`, `MmcTable`). Verbs split as the program splits them, abbreviated commands, the
  ambiguity check and its consequences, and the program's own table.

`Bytes` and `Wrappers` hold shared definitions.

## Assumptions

* Messages are below 2^29 bytes and one update is below 2^31 bytes; beyond that the 32-bit counters of the code wrap.
  `Sha2.PaddingIsStandardIff` says where exactly the code leaves the standard.
* The clock is given as normalised time values. Callers of the event module do not set an event in use, watch an event
  or a descriptor twice, or arm a timer event twice (`EventRuns.Allowed`).
* In the daemon each callback and each library call is atomic. The source holds its mutex only around list edits, and a
  finer interleaving (dequeue, reconnect, then send) could answer on a later connection. Every request has an identity
  of its own, which is not used again. Writes on an open connection succeed, and packets fit the size limit.
* Group sizes of the eMMC device are not zero, and products of sizes do not overflow.
* No word list in a command table begins another, as the source needs to avoid comparing with a null pointer. Its own table
  is proved to be like that (`MmcTable.TableIsGood`).

Where the code differs from what it seems to intend, the code is followed:

* the exit status of the partitioning commands is inverted once they get to the one-time setting
  (`ExtCsd.StatusIsInverted`, `ExtCsd.BothWaysWrong`);
* a command that fails in the middle of a size leaves a mixture of the old and the new one (`ExtCsd.SizeSurvivesIff`,
  `ExtCsd.HalfASize`), a new extended attribute is added to the old one (`ExtCsd.OtherRegisters`), and partition number 0
  means the user area (`ExtCsd.PartitionZero`);
* a verb with more than one space is stored with spaces in its words (`MmcCommand.SplitsRightIff`), and a verb typed in full
  can be refused (`MmcCommand.TypedInFull`), which no verb of the program is (`MmcTable.EveryVerbRuns`);
* a notification whose data is bad releases the wake lock at once even when an earlier one still wants it
  (`RilRuns.HeldUntilTimer`, `RilRuns.EarlyRelease`).

## Model

| member | source | states |
|---|---|---|
| `Sha2.Streamed` | mmc_utils/3rdparty/hmac_sha/sha2.c:358-428 | every way of cutting a message below 2^29 bytes into update calls, empty ones included, ends in the FIPS 180-2 digest of the concatenation, for all four hashes and for both compression loops |
| `Sha2.OneShot` | mmc_utils/3rdparty/hmac_sha/sha2.c:331-338 | init, one update and final give the FIPS 180-2 digest of the message |
| `Sha2.Context.Init` | mmc_utils/3rdparty/hmac_sha/sha2.c:340-356 | the context has absorbed the empty message |
| `Sha2.Context.Update` | mmc_utils/3rdparty/hmac_sha/sha2.c:358-390 | the message absorbed so far grows by the chunk; `h`, `block[..len]`, `tot_len` and `len < block size` stay in step with it |
| `Sha2.Context.Final` | mmc_utils/3rdparty/hmac_sha/sha2.c:392-428 | the digest of what was absorbed, with the length field the code writes: the bit count modulo 2^32, in one or two blocks |
| `Sha2.Context.WritePadding` | mmc_utils/3rdparty/hmac_sha/sha2.c:402-410 | the buffer holds the padding of the standard, in one block when the 0x80 byte and the length fit behind the rest and in two otherwise |
| `Sha2.PaddingIsStandardIff` | mmc_utils/3rdparty/hmac_sha/sha2.c:405-410 | the padding written is that of FIPS 180-2 if and only if the message is below 2^29 bytes |
| `Sha2.DigestBelowLimit` | mmc_utils/3rdparty/hmac_sha/sha2.c:405-410 | below 2^29 bytes the digest with the 32-bit length is the standard digest |
| `Sha2.PaddingSize` | mmc_utils/3rdparty/hmac_sha/sha2.c:402-406 | the number of blocks the code reserves is exactly what the padding of the whole message needs |
| `Sha2.PaddingBytes` | mmc_utils/3rdparty/hmac_sha/sha2.c:408-410 | clearing, setting 0x80 and storing four length bytes gives the padding byte for byte |
| `Sha2.Context.UnrolledRounds` | mmc_utils/3rdparty/hmac_sha/sha2.c:262-326 | the rounds with rotating register indices end in the registers of the shifting loop, by groups of eight |
| `Sha2.Context.Group` | mmc_utils/3rdparty/hmac_sha/sha2.c:290-299 | eight unrolled rounds are eight rounds of the standard and bring every register back to its own index |
| `Sha2.Context.ShiftingRounds` | mmc_utils/3rdparty/hmac_sha/sha2.c:245-258 | the shifting loop computes the rounds of section 6.2.2 |
| `Sha2.Context.Expand` | mmc_utils/3rdparty/hmac_sha/sha2.c:232-243 | the expanded words are the message schedule of the block |
| `Sha2.Context.OneBlock` | mmc_utils/3rdparty/hmac_sha/sha2.c:216-329 | `h` becomes the next chaining value, whichever of the two loops is compiled in |
| `Sha2.Context.Transf` | mmc_utils/3rdparty/hmac_sha/sha2.c:216-329 | `h` absorbs the given number of whole blocks |
| `Sha2.Context.AbsorbFull` | mmc_utils/3rdparty/hmac_sha/sha2.c:375-383 | the filled buffer and then the whole blocks of the rest are absorbed |
| `Sha2.AbsorbThree` | mmc_utils/3rdparty/hmac_sha/sha2.c:380-389 | absorbing piece by piece at block boundaries is absorbing the whole |
| `Sha2Spec.AbsorbConcat` | mmc_utils/3rdparty/hmac_sha/sha2.c:380-381 | the chaining value after two pieces is that after their concatenation when the first is whole blocks |
| `Sha2Spec.ZeroCountIsLeast` | mmc_utils/3rdparty/hmac_sha/sha2.c:402-408 | the zero bytes are the fewest that make the padded length a whole number of blocks, as sections 5.1.1 and 5.1.2 ask |
| `Sha2Spec.DigestLength` | mmc_utils/3rdparty/hmac_sha/sha2.c:412-414 | a digest has the length of its hash |
| `Sha2Standard.DigestIs` | mmc_utils/3rdparty/hmac_sha/sha2.c:392-428 | the digest without the functions that define it: the message with a one bit, the fewest zeros and its length in bits is cut into blocks, each is compressed into the value before it, and the first words of the last value are written one after another |
| `Sha2Standard.CompressIs` | mmc_utils/3rdparty/hmac_sha/sha2.c:216-329 | one block as FIPS 180-2 has it: the schedule word by word, and the rounds as two chains of words, of which the last four are added to the chaining value |
| `Sha2Standard.ScheduleWord32` | mmc_utils/3rdparty/hmac_sha/sha2.c:104-108 | sixteen big-endian words of the block, then sigma sums of four earlier words, for SHA-224 and SHA-256 |
| `Sha2Standard.Round32` | mmc_utils/3rdparty/hmac_sha/sha2.c:116-123 | the two new words of a round in the functions and constants of section 6.2.2 |
| `Sha2Standard.ScheduleWord64` | mmc_utils/3rdparty/hmac_sha/sha2.c:110-114 | the same schedule for SHA-384 and SHA-512 |
| `Sha2Standard.Round64` | mmc_utils/3rdparty/hmac_sha/sha2.c:125-132 | and the rounds of section 6.3.2 |
| `Sha2Standard.PadIs` | mmc_utils/3rdparty/hmac_sha/sha2.c:402-410 | where the padding has which byte, and that its last bytes spell the length in bits |
| `Sha2Standard.OutputIs` | mmc_utils/3rdparty/hmac_sha/sha2.c:412-414 | the output is the words one after another |
| `Sha2Suites.PackOrder32` | mmc_utils/3rdparty/hmac_sha/sha2.c:70-76 | a word is read with its first byte highest: the last byte is the lowest, the bytes before it are what is above |
| `Sha2Suites.PackOrder64` | mmc_utils/3rdparty/hmac_sha/sha2.c:90-100 | the same for eight bytes |
| `Sha2Suites.PackUnpack32` | mmc_utils/3rdparty/hmac_sha/sha2.c:62-68 | a word that is written and read again is the word, so the bytes are written in the order in which they are read |
| `Sha2Suites.PackUnpack64` | mmc_utils/3rdparty/hmac_sha/sha2.c:78-88 | the same for eight bytes |
| `Sha2Suites.Functions32` | mmc_utils/3rdparty/hmac_sha/sha2.c:52-55 | the four functions are rotations and shifts by the amounts of section 4.1.2, where the code shifts twice |
| `Sha2Suites.Functions64` | mmc_utils/3rdparty/hmac_sha/sha2.c:57-60 | the same for section 4.1.3 |
| `Sha2Suites.Chooses32` | mmc_utils/3rdparty/hmac_sha/sha2.c:49 | the choice takes the bits of its second argument under the ones of the first, of the third elsewhere |
| `Sha2Suites.IsMajority32` | mmc_utils/3rdparty/hmac_sha/sha2.c:50 | wherever two of three words have the same bit the majority has it |
| `Sha2Suites.Chooses64` | mmc_utils/3rdparty/hmac_sha/sha2.c:49 | the choice for 64-bit words |
| `Sha2Suites.IsMajority64` | mmc_utils/3rdparty/hmac_sha/sha2.c:50 | the majority for 64-bit words |
| `Sha2Constants.RoundConstants` | mmc_utils/3rdparty/hmac_sha/sha2.c:154-212 | every round constant of the 64-bit functions is the first 64 bits of the fraction of the cube root of its prime, and those of the 32-bit functions are the upper halves of the first 64 |
| `Sha2Constants.InitialValues` | mmc_utils/3rdparty/hmac_sha/sha2.c:134-152 | the initial values are the fractions of the square roots of the first sixteen primes, their upper or lower halves as sections 5.3.1 to 5.3.4 define them |
| `Sha2Suites.FourHashes` | mmc_utils/3rdparty/hmac_sha/sha2.c:134-212 | the sizes of SHA-224, SHA-256, SHA-384 and SHA-512 fit what the generic functions ask, so all results hold for the four of them |
| `Sha2.BitCount` | mmc_utils/3rdparty/hmac_sha/sha2.c:405 | the shifted 32-bit sum is the bit count modulo 2^32 |
| `Sha2.CountBlocks` | mmc_utils/3rdparty/hmac_sha/sha2.c:389 | `tot_len` stays the number of bytes in whole blocks, modulo 2^32 |
| `Hmac.StreamedMac` | mmc_utils/3rdparty/hmac_sha/hmac_sha2.c:177-201 | every way of cutting two messages into updates, with a reinit between them, gives the RFC 2104 MAC of each under the same key |
| `Hmac.OneShotMac` | mmc_utils/3rdparty/hmac_sha/hmac_sha2.c:203-212 | for every key length and every mac size up to the digest size: the front of the RFC 2104 MAC of the message |
| `Hmac.Rfc2104` | mmc_utils/3rdparty/hmac_sha/hmac_sha2.c:136-160 | the specification the two are proved against, byte by byte: the key hashed if and only if it is longer than a block, zeros behind it, each byte masked bit by bit with 0x36 and 0x5c, the hashes nested |
| `Hmac.PadsUnmask` | mmc_utils/3rdparty/hmac_sha/hmac_sha2.c:159-160 | both pads, masked again, are the key of a whole block |
| `Hmac.Mac.Init` | mmc_utils/3rdparty/hmac_sha/hmac_sha2.c:130-175 | the inner and outer contexts have absorbed the two pads of the key (hashed first when longer than a block), and so have the saved copies; no text yet |
| `Hmac.Mac.Reinit` | mmc_utils/3rdparty/hmac_sha/hmac_sha2.c:177-183 | the same state as after init with the same key, whatever was absorbed or finished before |
| `Hmac.Mac.Update` | mmc_utils/3rdparty/hmac_sha/hmac_sha2.c:185-189 | the text grows by the chunk |
| `Hmac.Mac.Final` | mmc_utils/3rdparty/hmac_sha/hmac_sha2.c:191-201 | the front of the RFC 2104 MAC of the key and the whole text, and the saved contexts still hold the key |
| `Hmac.Mac.FinishBoth` | mmc_utils/3rdparty/hmac_sha/hmac_sha2.c:196-199 | the outer digest over the outer pad and the inner digest |
| `Hmac.Mac.Prepare` | mmc_utils/3rdparty/hmac_sha/hmac_sha2.c:136-156 | the pads are the zero-extended key exclusive-or 0x36 and 0x5c over the whole block |
| `Rpmb.Verify` | mmc_utils/mmc_cmds.c:1876-1900 | data read from RPMB is accepted if and only if the last frame carries the MAC of all signed parts in order |
| `Rpmb.Feed` | mmc_utils/mmc_cmds.c:1883-1888 | one update per frame absorbs the concatenation of the signed parts |
| `Rpmb.SignedLength` | mmc_utils/mmc_cmds.c:1883-1888 | that is 284 bytes a frame |
| `Rpmb.SignedAt` | mmc_utils/mmc_cmds.c:1883-1888 | and frame after frame stands at its multiple of 284 |
| `TimeVals.Arithmetic` | libril/ril_event.cpp:38-67 | carry, borrow and comparison of normalised time values are addition, subtraction and order of microseconds |
| `EventSpec.InsertTimerPlaces` | libril/ril_event.cpp:288-311 | a timer goes behind all strictly earlier deadlines and in front of all others, and the list stays sorted |
| `EventSpec.CountBeforeSplits` | libril/ril_event.cpp:164-172 | in a sorted list the events before the clock value are exactly the front that is moved |
| `EventSpec.NextTimeoutIsEarliest` | libril/ril_event.cpp:217-240 | no timeout if and only if no timer is armed; otherwise a normalised wait that ends at the earliest deadline or at once, never past any timer |
| `EventSpec.AddWatchKeeps` | libril/ril_event.cpp:267-285 | the descriptor set, `nfds` and the table stay consistent; adding to a full table changes nothing |
| `EventSpec.RemoveWatchKeeps` | libril/ril_event.cpp:138-158 | exactly that descriptor leaves, and `nfds` is again one more than the largest |
| `EventSpec.DeleteWatchKeeps` | libril/ril_event.cpp:317-331 | deleting twice is deleting once, and deleting what is not watched does nothing |
| `EventSpec.MaxFd` | libril/ril_event.cpp:148-156 | the scan finds the largest watched descriptor |
| `EventSpec.ReadiesComplete` | libril/ril_event.cpp:184-202 | all watched ready events are queued once each in table order although the scan stops early, and exactly the one-shot ones leave the table |
| `EventSpec.ReadiesInOrder` | libril/ril_event.cpp:184-202 | from the table and the reported descriptors alone: the queued events come from strictly increasing slots, a slot is queued if and only if its descriptor is reported, and it is cleared if and only if it moreover is one-shot |
| `EventRuns.EveryRun` | libril/ril_event.cpp:347-386 | over every run: each armed timer is waiting or fired, never both; it fires at most once and only past its deadline; nothing is pending at `select` |
| `EventRuns.RunKeeps` | libril/ril_event.cpp:347-386 | the invariant of lists, watch table and timer history over any number of passes |
| `EventRuns.IterateKeeps` | libril/ril_event.cpp:347-386 | one pass fires exactly the timers whose deadline was before the clock value of its check, in list order |
| `EventRuns.PerformKeeps` | libril/ril_event.cpp:254-331 | every call of the module keeps the invariant |
| `EventRuns.WatchedAsSet` | libril/ril_event.cpp:254-264 | an event that was set is later watched with the descriptor and the persistence it was set with, in the first free slot, whatever else is called between |
| `EventRuns.ArmedFor` | libril/ril_event.cpp:288-311 | a timer waits until the clock value at which it is armed plus the time it is armed for, and its event watches nothing |
| `EventRuns.CheckedKeeps` | libril/ril_event.cpp:379-383 | the due timers are queued first, in the order of the timer list, and the ready events behind them, in the order of the table |
| `EventRuns.TimeoutsKeeps` | libril/ril_event.cpp:160-182 | moving the due timers to the pending list loses and doubles none |
| `EventRuns.ReadiesKeeps` | libril/ril_event.cpp:184-202 | queueing the ready events keeps the invariant |
| `EventRuns.FireOneKeeps` | libril/ril_event.cpp:204-215 | taking the first pending event and recording it as fired keeps the invariant |
| `EventRuns.FireAllKeeps` | libril/ril_event.cpp:204-215 | callbacks may add, delete and arm; the pending list still ends empty and the timers queued are fired in order |
| `RilEvent.AddToList` | libril/ril_event.cpp:117-124 | the ring gets the event in front of the given one, with all links right both ways |
| `RilEvent.RemoveFromList` | libril/ril_event.cpp:126-135 | the ring is what it was without the event, and the event is unlinked |
| `RilEvent.EventLoop.constructor` | libril/ril_event.cpp:243-251 | two empty rings and an empty table: the initial state |
| `RilEvent.EventLoop.EventSet` | libril/ril_event.cpp:254-264 | the attributes are stored and nothing linked or watched changes: `Perform` of `Set` |
| `RilEvent.EventLoop.EventAdd` | libril/ril_event.cpp:267-285 | the first free slot, the descriptor set and `nfds`; `watch_table[i] == ev` and `ev.index == i` go together: `Perform` of `Add` |
| `RilEvent.EventLoop.EventDel` | libril/ril_event.cpp:317-331 | the watch is gone, or nothing happens when there is none: `Perform` of `Del` |
| `RilEvent.EventLoop.RemoveWatchAt` | libril/ril_event.cpp:138-158 | slot, back-pointer and descriptor are cleared and `nfds` is recomputed by the scan: `RemoveWatch` |
| `RilEvent.EventLoop.TimerAddEvent` | libril/ril_event.cpp:288-314 | the event is linked into the ring at its place by deadline: `Perform` of `Arm` |
| `RilEvent.EventLoop.ProcessTimeouts` | libril/ril_event.cpp:160-182 | exactly the due events move, one by one and in order, to the tail of the pending ring: `Timeouts` |
| `RilEvent.EventLoop.ProcessReadReadies` | libril/ril_event.cpp:184-202 | the ready events are linked behind the pending ring and one-shot watches removed: `Readies` |
| `RilEvent.EventLoop.CalcNextTimeout` | libril/ril_event.cpp:217-240 | the wait until the head of the sorted ring, or none when it is empty: `NextTimeout` |
| `RilEvent.EventLoop.FirePending` | libril/ril_event.cpp:204-215 | event after event is unlinked and its callback run until the ring is empty: `FireAll` |
| `RilEvent.EventLoop.Loop` | libril/ril_event.cpp:347-386 | any number of passes over the heap does what `EventRuns.Run` says and keeps the invariant |
| `Framing.DecodeFrames` | libril/ril.cpp:1637-1675 | a receiver decodes exactly the framed payloads in order, and a partly written frame stays undecoded |
| `Framing.EveryPayload` | libril/ril.cpp:1637-1675 | decoding undoes framing |
| `Framing.FrameBytes` | libril/ril.cpp:1655-1675 | a payload stands behind its length in four bytes, the highest first |
| `Framing.CommandSocket.BlockingWrite` | libril/ril.cpp:1611-1635 | under any schedule of short writes, EINTR and EAGAIN what is out is the front of the buffer; all of it when 0 is returned; a real error closes the descriptor, and on a closed one nothing goes out |
| `Framing.CommandSocket.SendResponseRaw` | libril/ril.cpp:1637-1675 | what a receiver can decode is exactly the payloads of the calls that returned 0, also after a failure; an over-long packet or a missing client writes nothing |
| `Framing.CommandSocket.SendAll` | libril/ril.cpp:1637-1680 | the same over any number of calls: the receiver decodes those that returned 0, in order, even when the connection breaks in the middle of one |
| `Framing.FramesAppend` | libril/ril.cpp:1655-1675 | one more frame on the wire is the frames of one more payload |
| `CdmaParcel.RoundTrip` | libril/ril.cpp:930-1008 | for all counts and lengths: writer then reader give the message with its array tails zeroed, and every truncation is rejected |
| `CdmaParcel.ConstructCdmaSms` | libril/ril.cpp:930-1008 | although only the last status is looked at, the reader succeeds exactly when no byte is missing |
| `CdmaParcel.ResponseCdmaSms` | libril/ril.cpp:2885-2941 | a missing message or a wrong length writes nothing and is an error; otherwise the words of the message are written |
| `CdmaParcel.WriteMessage` | libril/ril.cpp:2901-2931 | the parcel gets the words of the message, arrays clipped to their limits |
| `CdmaParcel.ReadBack` | libril/ril.cpp:930-1008 | on any front of the written parcel: success if and only if it is all of it |
| `CdmaParcel.NormalTwice` | libril/ril.cpp:2885-2941 | a second trip changes nothing: a normalised message writes the same parcel |
| `CdmaParcel.Layout` | libril/ril.cpp:2885-2941 | where each field and array is in the parcel |
| `CdmaParcel.FieldOrder` | libril/ril.cpp:2901-2931 | every word of the parcel in the order of the writes, with the counts that the loops stop at |
| `CdmaParcel.NormalIs` | libril/ril.cpp:930-1008 | what is read back, element by element: fields as they were, arrays up to their counts and zero beyond |
| `CdmaParcel.LowestFirst` | libril/ril.cpp:2901-2921 | an integer stands in a word with its lowest byte first, a negative one as itself plus 2^32 |
| `CdmaParcel.WordIntRoundTrip` | libril/ril.cpp:2901-2921 | a 32-bit integer survives its four little-endian bytes |
| `RilRuns.AtMostOneResponse` | libril/ril.cpp:3574-3635 | in every state of every run a request has at most one response, none while it is pending, and a local one none |
| `RilRuns.NoCrossConnection` | libril/ril.cpp:3574-3635 | what any step writes goes to the connection open at its end, and a response only to the connection its request was read on, with its token |
| `RilRuns.CancelledStaysSilent` | libril/ril.cpp:2996-3016 | a request pending when its connection closed is never answered, whatever the library does later |
| `RilRuns.ClosingCancels` | libril/ril.cpp:2996-3062 | with no client every pending remote request is cancelled |
| `RilRuns.CompleteAnswers` | libril/ril.cpp:3574-3635 | completing a pending request removes exactly it and writes its one response, or nothing when it is local or cancelled |
| `RilRuns.CompleteTwice` | libril/ril.cpp:3546-3580 | a second completion of a token does nothing |
| `RilRuns.DecodedOnce` | libril/ril.cpp:1460-1509 | with the radio off or unavailable the two completions write exactly one response, RADIO_NOT_AVAILABLE; with an older radio state one success; with the radio on none |
| `RilPackets.StartIs` | libril/ril.cpp:3505-3541 | after registration there is no client, nothing is pending, written, kept or decoded, and the three sockets are watched |
| `RilPackets.BlockQueues` | libril/ril.cpp:386-424 | over the bytes of a block: a request with a supported code is put in front of the pending ones with the code and the token at the front of its block, and nothing else changes |
| `RilPackets.BlockRefused` | libril/ril.cpp:393-409 | an unsupported code is answered with the token of its block, and a block of less than eight bytes changes nothing |
| `RilPackets.BlockDecoded` | libril/ril.cpp:1460-1509 | over the bytes of a block: the one response of the two decoded requests, and what is stored of the radio state |
| `RilPackets.LocalQueued` | libril/ril.cpp:350-373 | a local request is pending in front, under the token 0xffffffff, and nothing is written |
| `RilPackets.DecodedAs` | libril/ril.cpp:3663-3727 | what each of the eleven radio states says of technology, subscription source and card |
| `RilPackets.RadioStateWrites` | libril/ril.cpp:3743-3778 | the packets of a radio state in order: each decoded value that has changed, technology first, then the state itself, which is off or unavailable as reported and on in all other cases; for off, unavailable and on nothing else is written or stored |
| `RilPackets.NotificationWrites` | libril/ril.cpp:3780-3905 | what any notification writes: nothing with bad data, out of range or without a client, and otherwise its own packet under its own code; and when a NITZ message is kept |
| `RilPackets.GreetingIs` | libril/ril.cpp:3065-3081 | the packets a client is greeted with, in order |
| `RilPackets.HoldsLock` | libril/ril_unsol_commands.h:19-61 | of the 41 notifications all but two hold the lock |
| `RilPackets.ConnectionAfter` | libril/ril.cpp:3018-3177 | what each step does to the connection: only an accepted phone process opens one, under a new number |
| `RilPackets.PendingAfter` | libril/ril.cpp:2996-3016 | a step that leaves no client cancels every pending request in place |
| `RilPackets.TimersAfter` | libril/ril.cpp:3316-3330 | every timer keeps its kind and its deadline until it goes off, and then only it is gone |
| `RilRuns.EveryState` | libril/ril.cpp:377-432 | every state of every run keeps the whole invariant: requests, watches, wake timers, NITZ |
| `RilRuns.RunsContinue` | libril/ril.cpp:3505-3541 | runs start at registration and every enabled step continues one |
| `RilRuns.StepKeeps` | libril/ril.cpp:2996-3177 | each step keeps it |
| `RilRuns.StepExtends` | libril/ril.cpp:3574-3635 | no step takes back a packet, a request number or a connection |
| `RilRuns.RunGrows` | libril/ril.cpp:3574-3635 | nor does any run |
| `RilRuns.SilencedStays` | libril/ril.cpp:3546-3635 | a request that is cancelled and unanswered stays unanswered for the rest of the run |
| `RilRuns.DequeueRemoves` | libril/ril.cpp:3546-3571 | the request is gone and all others stay, still distinct |
| `RilRuns.OneClient` | libril/ril.cpp:3018-3177 | in every state the daemon listens if and only if no client is connected or being accepted, watches the command socket if and only if one is connected, and at least five table slots are free |
| `RilRuns.AddsAreAllowed` | libril/ril.cpp:3045-3061 | whatever a connect or a disconnect adds to the watch table is on a valid descriptor and not watched yet, as the event module asks |
| `RilRuns.StartKeeps` | libril/ril.cpp:3505-3541 | registration leaves a state that satisfies the invariant |
| `RilRuns.LockIsReleased` | libril/ril.cpp:3780-3905 | the outstanding uncancelled wake timers are exactly the remembered one or none; a held lock has one, so draining the timers releases it |
| `RilRuns.ReleasedAfterOneSecond` | libril/ril.cpp:3316-3330 | over every run, on a clock that does not go back, a timer that releases the lock goes off more than a second after every earlier step that took it, connects included |
| `RilRuns.LatestTaken` | libril/ril.cpp:3884-3893 | the remembered time is never before that of a step that took the lock |
| `RilRuns.StepLock` | libril/ril.cpp:3780-3905 | what each step does to the lock, its time and its timer: taken by good wake notifications and by connects, released by bad ones and by the remembered timer, and by nothing else |
| `RilRuns.HeldUntilTimer` | libril/ril.cpp:3780-3905 | over every run, from a step that takes the lock until the remembered timer goes off, it is held all the time if and only if no notification with bad data comes between |
| `RilRuns.EarlyRelease` | libril/ril.cpp:3900-3905 | a run of two notifications after which the lock is released while the timer of the first is still waiting |
| `RilRuns.TakenAt` | libril/ril.cpp:3884-3893 | a notification that takes the lock holds it and restarts the second, also when it announces decoded values first |
| `RilRuns.HeldAfterNotification` | libril/ril.cpp:3811-3821 | after a notification the lock is held if and only if it took the lock, or did not want it and found it held |
| `RilRuns.TimeStays` | libril/ril.cpp:3316-3330 | no step that does not take the lock moves the remembered time, connects included |
| `RilRuns.NestedOnce` | libril/ril.cpp:3743-3778 | the notifications sent from `processRadioState` do not ask for the radio state again, so nesting is one level deep |
| `RilRuns.RadioStateSettles` | libril/ril.cpp:3743-3778 | the client never sees an older library's state, and a state reported again is announced only once |
| `RilRuns.NitzInOrder` | libril/ril.cpp:3856-3882 | NITZ messages are written in the order received, each at most once, and only the latest missed one is kept |
| `RilRuns.EachConnectReplays` | libril/ril.cpp:3065-3081 | each connect writes exactly the latest message missed since the client before |
| `RilRuns.ConnectReplays` | libril/ril.cpp:3065-3081 | and it writes it after everything else |
| `RilRuns.UnsolicitedKeeps` | libril/ril.cpp:3780-3905 | a notification touches no request and keeps the wake invariant |
| `Rild.PendingRequests.Push` | libril/ril.cpp:420-424 | the request is in front of the list |
| `Rild.PendingRequests.CheckAndDequeue` | libril/ril.cpp:3546-3571 | found if and only if it is on the list; the linked list loses exactly that request |
| `Rild.PendingRequests.CancelEach` | libril/ril.cpp:2996-3016 | every request of the list is cancelled and nothing else changes |
| `Rild.Daemon.constructor` | libril/ril.cpp:3505-3541 | the state after registration |
| `Rild.Daemon.OnRequestComplete` | libril/ril.cpp:3574-3635 | an unknown token changes nothing; otherwise the request leaves the linked list and is answered unless it is local or cancelled: the step `Complete` |
| `Rild.Daemon.ProcessCommandBuffer` | libril/ril.cpp:377-432 | a block without a whole header changes nothing, an unsupported code is answered with a failure; any other request is queued, and the two decoded ones are completed at once unless the radio is on: `Received` |
| `Rild.Daemon.IssueLocalRequest` | libril/ril.cpp:350-373 | a local request is queued in front: the step `IssueLocal` |
| `Rild.Daemon.DispatchVoiceRadioTech` | libril/ril.cpp:1460-1482 | one or two completions and the stored technology, as the radio state demands: the step `AskVoiceTech` |
| `Rild.Daemon.DispatchCdmaSubscriptionSource` | libril/ril.cpp:1487-1509 | the same for the subscription source: the step `AskSubscription` |
| `Rild.Daemon.OnUnsolicitedResponse` | libril/ril.cpp:3780-3905 | lock, nested announcements, packet, kept NITZ message and wake timer in the order of the source, with a real nested call: the step `Unsolicited` |
| `Rild.Daemon.ProcessState` | libril/ril.cpp:3743-3778 | each decoded value that changed is stored and announced by a nested call, and the state to report comes back |
| `Rild.Daemon.ScheduleTimeout` | libril/ril.cpp:3887-3893 | the previous wake timer is cancelled and a new one remembered |
| `Rild.Daemon.UserTimerCallback` | libril/ril.cpp:3316-3330 | the lock is released unless the timer was cancelled, and the remembered timer is forgotten: the step `TimerFires` |
| `Rild.Daemon.OnNewCommandConnect` | libril/ril.cpp:3065-3095 | the two notifications and the replayed NITZ message: the step `Greet` |
| `Rild.Daemon.ListenQueued` | libril/ril_event.cpp:193-198 | the listen event leaves the watch table before its callback runs: the step `ListenReady` |
| `Rild.Daemon.ListenCallback` | libril/ril.cpp:3097-3177 | a failed accept or a foreign process leaves the daemon listening, the phone process becomes the client: the step `Listen` |
| `Rild.Daemon.CommandsClosed` | libril/ril.cpp:3041-3061 | no client, listening again, every pending request cancelled: the step `Disconnect` |
| `ExtCsd.SizesAreFolded` | mmc_utils/mmc_cmds.c:697-960 | after any sequence of partitioning commands, each of them cut short at any write, every size is what its commands have written of it, byte by byte |
| `ExtCsd.LastRequestHolds` | mmc_utils/mmc_cmds.c:697-960 | a target has the size that a successful command asked for if and only if what later commands wrote of it comes to the same, which holds when each is for another target, is refused, or stops before the bytes of the size |
| `ExtCsd.SizeSurvivesIff` | mmc_utils/mmc_cmds.c:760-783 | a command leaves the old size of its target if and only if the bytes it gets to write are the ones that were there |
| `ExtCsd.HalfASize` | mmc_utils/mmc_cmds.c:760-783 | a device that fails after two writes is left with 0x10001 groups when 0x10000 were asked for over 1 |
| `ExtCsd.UntouchedKept` | mmc_utils/mmc_cmds.c:697-960 | commands for other targets leave a target's size and attribute alone |
| `ExtCsd.OthersKept` | mmc_utils/mmc_cmds.c:697-960 | so does one command that the device fails in the middle of, and it moves no limit |
| `ExtCsd.TargetSized` | mmc_utils/mmc_cmds.c:749-783 | the decoded size is the requested one in whole groups if and only if the multiplier fits in 24 bits, and the enhanced attribute is the one asked for |
| `ExtCsd.OtherRegisters` | mmc_utils/mmc_cmds.c:752-805 | the group definition is switched on; the extended attribute is added to the old one or cleared, and is the one asked for if and only if the old one has no other bit or none is asked for |
| `ExtCsd.OldAttributeStays` | mmc_utils/mmc_cmds.c:799-804 | asking for extended attribute 2 where 1 was leaves 3 |
| `ExtCsd.PartitionZero` | mmc_utils/mmc_cmds.c:721-724 | partition number 0 passes the range test: the command then sets the size and the attribute of the user area and clears the extended attribute of partition 2 |
| `ExtCsd.SizeIsNearest` | mmc_utils/mmc_cmds.c:749-750 | no size the device can express is nearer to the request |
| `ExtCsd.MultIsNearest` | mmc_utils/mmc_cmds.c:749-750 | the rounding is to the nearest multiple, halves up |
| `ExtCsd.CompletedWithinLimits` | mmc_utils/mmc_cmds.c:812-816 | the one-time setting is written only with `-y` and only while the partitions on the device are within the limits |
| `ExtCsd.CompletedIsFinal` | mmc_utils/mmc_cmds.c:743-747 | once it is written no command changes anything |
| `ExtCsd.StatusIsInverted` | mmc_utils/mmc_cmds.c:815-816 | for every call the exit status says whether it was done as asked if and only if the call is not both given `-y` and gets as far as the one-time setting |
| `ExtCsd.BothWaysWrong` | mmc_utils/mmc_cmds.c:815-816 | there a device that does everything makes the command exit with 1, and one whose last write fails makes it exit with 0 |
| `ExtCsd.StatusWitness` | mmc_utils/mmc_cmds.c:815-816 | such a device and command exist |
| `ExtCsd.Mmc.CheckTotalLimit` | mmc_utils/mmc_cmds.c:604-695 | passes if and only if the enhanced total is within the maximum and the whole within the capacity |
| `ExtCsdBytes.LimitsSpelt` | mmc_utils/mmc_cmds.c:604-695 | the check over single register bytes: groups from 221 and 224, sizes from 140 to 154, attribute bits of 156, the maximum from 157 to 159, sectors from 212 to 215 |
| `ExtCsdBytes.TooLarge` | mmc_utils/mmc_cmds.c:672-692 | whatever else is on the device, asking for more than the capacity, or for more enhanced area than the maximum, ends over the limits |
| `ExtCsdBytes.SampleTooSmall` | mmc_utils/mmc_cmds.c:684-692 | a device of 8 GiB refuses a partition of one group more |
| `ExtCsdBytes.OutcomeIff` | mmc_utils/mmc_cmds.c:697-820 | which of the outcomes a command has, by the number of writes the device takes and the register bytes after them |
| `ExtCsdBytes.RefusedIff` | mmc_utils/mmc_cmds.c:721-747 | which commands are refused before the first write, by registers 155 and 160 and the arguments |
| `ExtCsdBytes.StartSpelt` | mmc_utils/mmc_cmds.c:872-874 | registers 139 to 136 spell the requested start, in sectors beyond 2 GiB, rounded down to a whole group |
| `ExtCsd.Mmc.CreateGpPartition` | mmc_utils/mmc_cmds.c:697-820 | refusals, the six registers in order until a write fails, the check and the setting: the device and the outcome of `Run` |
| `ExtCsd.Mmc.SetEnhArea` | mmc_utils/mmc_cmds.c:822-960 | the same for the enhanced user area and its nine registers |
| `ExtCsd.Mmc.WriteSize` | mmc_utils/mmc_cmds.c:760-783 | the three bytes of a multiplier, the highest first, as far as the device takes them |
| `ExtCsd.Mmc.SetCompleted` | mmc_utils/mmc_cmds.c:559-602 | the setting is written with `-y` only, and completed when the device confirms |
| `ExtCsd.PutBitHas` | mmc_utils/mmc_cmds.c:785-789 | setting or clearing a partition's enhanced bit leaves the others |
| `ExtCsd.NibbleIsPut` | mmc_utils/mmc_cmds.c:799-804 | the extended attribute is added to the bits of the partition's nibble, or the nibble cleared; the neighbour's is left alone exactly when nothing spills into it |
| `ExtCsd.ApplyAt` | mmc_utils/mmc_cmds.c:58-77 | a register holds what was last written to it |
| `MmcTable.TableIsGood` | mmc_utils/mmc.c:44-190 | the table of the source, as it is stored, has no word list that begins another and no word that looks like a request for help, so the results below hold of it |
| `MmcTable.EveryVerbRuns` | mmc_utils/mmc.c:355-448 | every command of the program, typed in full with enough arguments, runs |
| `MmcTable.DisableRuns` | mmc_utils/mmc.c:355-448 | also the one that is stored with a space in a word |
| `MmcTable.TooFewArguments` | mmc_utils/mmc.c:430-434 | with fewer arguments than it asks for, every command of the program is refused |
| `MmcCommand.ArgumentsCounted` | mmc_utils/mmc.c:429-439 | which numbers of arguments an unambiguous command runs with, and that it is refused with any other |
| `MmcCommand.HelpIsAsked` | mmc_utils/mmc.c:391-399 | where in the arguments help on a command is asked |
| `MmcCommand.AnswersAre` | mmc_utils/mmc.c:360-418 | when the answer is general help, an explanation of exactly which commands, or that the command is unknown |
| `MmcCommand.RunsOnlyMatch` | mmc_utils/mmc.c:374-427 | the command that runs is the only one of the table that the arguments match |
| `MmcCommand.UnambiguousIsUnique` | mmc_utils/mmc.c:263-301 | a match that passes the ambiguity check is the only match |
| `MmcCommand.OrderIndependent` | mmc_utils/mmc.c:374-427 | the command that runs does not depend on the order of the table |
| `MmcCommand.OrderMattersIff` | mmc_utils/mmc.c:374-427 | the order matters to the answer if and only if help is asked on one command while another matches |
| `MmcCommand.TypedInFull` | mmc_utils/mmc.c:263-301 | a verb typed in full runs if and only if none of its words is also the beginning of a different stored word of another command after the same words |
| `MmcCommand.AbbreviationRuns` | mmc_utils/mmc.c:263-301 | the same for any abbreviation |
| `MmcCommand.ShorterVerbRefused` | mmc_utils/mmc.c:238-301 | with verbs `a b` and `a b c` the first is refused as ambiguous although typed in full |
| `MmcCommand.HelpIsRival` | mmc_utils/mmc.c:391-399 | help asked in the middle of a command makes it ambiguous |
| `MmcCommand.ScanFinds` | mmc_utils/mmc.c:374-412 | the scan finds the first match if there is one, and explains only commands of the table |
| `MmcCommand.CheckAmbiguity` | mmc_utils/mmc.c:263-301 | passes if and only if no other command shares the first words and has a different next word that the argument abbreviates |
| `MmcCommand.ParseArgs` | mmc_utils/mmc.c:355-448 | the table is split and the answer is general help, detailed help, unknown, ambiguous, wrong arguments or the command with its arguments, as `Parse` decides |
| `MmcCommand.ScanTable` | mmc_utils/mmc.c:374-412 | the loop over the table finds what `Scan` says |
| `MmcCommand.Abbreviates` | mmc_utils/mmc.c:383-389 | the character loop decides the prefix relation |
| `MmcCommand.SplitCommand` | mmc_utils/mmc.c:238-258 | the words of the verb, where every word but the first and the last keeps the space behind it |
| `MmcCommand.SplitsRightIff` | mmc_utils/mmc.c:238-258 | the stored words are the words of the verb if and only if it has at most one space |
| `MmcCommand.DisableIsStored` | mmc_utils/mmc.c:238-258 | the verb of the source with two spaces is stored with a space in its middle word |
| `MmcCommand.FillCommands` | mmc_utils/mmc.c:370-372 | the table gets the stored words of every verb |
| `MmcCommand.WordsAre` | mmc_utils/mmc.c:238-258 | the words of a verb are the only ones without spaces that make it up |

## Left out

- Messages of 2^29 bytes or more, and an update that wraps `ctx->len + len`: only where the padding stops being standard is stated.
- The strength of the hash functions: nothing is claimed about it.
- `debugCallback`, which closes the command descriptor without unwatching it: it leaves the modelled connection states. So does a write error, which closes it too; `Framing` models that, the daemon steps do not.
- Interleavings finer than one callback or library call, address reuse after free, memory clearing and logging.
- Liveness: a malformed request block is only logged and its request stays pending, so that every request is answered is not claimed.
- Rild.Daemon: the watch table, the timers and the written packets are values there; the linked structures of the event loop are in `RilEvent` and the bytes of a packet in `Framing`. Wake timer records are entries of a map instead of objects.
- Rild.Daemon.ProcessCommandBuffer: of the dispatch functions only the two that complete requests themselves are modelled; the others pass the request to the library or log a malformed block, and it stays pending.
- RilRuns.AddsAreAllowed: the daemon steps use the functions of the event module for the watch table and ask of it what it allows, but a run of `RilEvent.EventLoop` whose callbacks are the daemon's is not composed with the steps.
- The flag set by `RIL_register`, which makes earlier notifications be ignored, and a second registration.
- Sockets, `select`, `ioctl`, record streams and the clock are parameters: outcomes of writes, sets of ready descriptors, numbers of writes that succeed, clock values.
- The parcel class, `ril.h` and `ril_cdma_sms.h` are not part of this repository; four-byte padded reads and the array limits 36, 36 and 255 are taken from their use, and the size of the message structure is a parameter.
- The fixed-layout `dispatch` and `response` functions, the name tables and the printing of EXT_CSD: long case tables.
- ExtCsd.Mmc.CreateGpPartition: partition number 0 together with an extended attribute, where the source shifts by a negative count, which C leaves undefined.
- Reading the EXT_CSD registers is assumed to succeed.
- MmcCommand.ParseArgs: the texts printed, the program name put before the arguments and running out of memory are not modelled.
- Scripts, build files, lights, file system configuration and the Java code.
