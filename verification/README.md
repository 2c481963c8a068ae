# OpenSSH 6.0p1 in QVD: a verified model

This project models the protocol core of the OpenSSH 6.0p1 tree that QVD bundles for Windows, and proves
properties of it for all inputs, all reachable states and all interleavings. `dafny verify dfyconfig.toml`
checks everything.

Code that the source writes as expressions is modelled by functions. Code that changes things step by step is
modelled by classes and methods, each proved to compute a function that the theorems are about: the method and
the state machine of a theorem cannot drift apart.

| files | part of the system |
|---|---|
| Channel, FlowControl, FlowSafety, ChannelLimits, ChannelRuns | window flow control, packet sizes and closing of a stream channel between two endpoints (section 5.2 of RFC 4254) |
| Socks | the resumable SOCKS4, SOCKS4A and SOCKS5 decoders of dynamic forwarding |
| ModGroup, Jpake | J-PAKE with its Schnorr proofs |
| Deattack | the CRC compensation attack detector with its open-addressing index |
| Negotiation, KexRuns, KexSafety, KexOutcomes | algorithm negotiation, key derivation, and runs of initial and repeated key exchanges (sections 7 and 8 of RFC 4253) |
| UserAuth, UserAuthOutcomes | the server side of user authentication with keyboard-interactive sub-dialogues (RFC 4252, RFC 4256) |
| Buffer, Wire, BufferCodec, Rsa1 | the growing buffer, the wire types of section 5 of RFC 4251, and the RSA1 private key file |
| BlockModes, CounterMode | CBC and CTR mode on arrays, in place or not |
| AtomicIo | completion of vectored transfers |
| ChooseDh | selection of a Diffie-Hellman group in two passes over the moduli file |
| Arith, Bytes, Common | machine integers, bit operations, optional values, name lists and small arithmetic facts |

Randomness, the answers of the operating system, of the C library and of cryptographic primitives are
parameters: the theorems hold for all of them. Unsigned arithmetic is written out modulo 2^32 where the source
has it. A fatal error is a result of its own.

## Where the code does not do what one would expect

The lemmas named say what happens, and for a property that fails, exactly when it holds.

- Bytes discarded after a write error, extended data that is ignored, and extended data whose descriptor failed are
  never given back to the window. A channel can starve for good in three ways (`FlowSafety.StarvedByWriteError`,
  `FlowSafety.StarvedByIgnoredData`, `FlowSafety.StarvedByStuckData`). Which window is left, and that the channel
  starves exactly when it is zero, is stated by `FlowSafety.WindowAfterRefresh` and `FlowSafety.StarvedIff`.
- `buffer_check_alloc` promises space for lengths that `buffer_append_space` refuses
  (`Buffers.CheckAllocOverpromises`, `Buffers.CheckAllocAgreement`).
- An SSH1 number of 65536 bits or more is written with a truncated count and never reads back, and zero cannot be
  written at all, since the allocator refuses zero bytes (`Wire.Bignum1RoundTrip`, `Wire.ZeroIsReadButNotWritten`,
  `Rsa1.ZeroFieldIsNotWritten`, `Rsa1.FileRoundTrip`).
- An RSA1 key with a prime of one is written, but reading it is fatal (`Rsa1.UnitPrimeIsNotRead`); what becomes of
  every storable key is `Rsa1.StorableOutcome`.
- Peers can agree on algorithms that kill both: a group too small for the agreed key sizes
  (`KexOutcomes.GroupCanBeTooSmall`, `KexOutcomes.PacketKillsIff`).
- `atomiciov6` reports a complete transfer of nothing when the first entry is empty
  (`AtomicIo.EmptyFirstEntryIsLost`, `AtomicIo.CompleteIffFirstNonEmpty`).
- `choose_dh` passes over an exact match that stands behind a larger group in the file
  (`ChooseDh.ExactMatchIsPassedOver`, `ChooseDh.LeastEnoughIff`).
- The check of the SOCKS4A host length can never fail (`Socks.HostIsNeverTooLong`); nor can the one of SOCKS5,
  whose length is one byte.
- `kbdint_next_device` takes the last device whose name begins with the requested one
  (`UserAuth.AbbreviationsMatch`); `UserAuth.ExactDeviceIff` and `UserAuth.SearchIsExactIff` say when that is the
  device of exactly that name.

## Model

| member | source | states |
|---|---|---|
| `FlowSafety.WindowIsNeverOverrun` | windows/openssh-6.0p1/channels.c:2202-2259 | in every reachable state of two endpoints the receiver's local window is at least the sender's remote window plus data in flight plus adjustments in flight, equal exactly while no extended data was ignored, and neither end ever took a "too much data" or "data after EOF" branch |
| `FlowSafety.WindowIsConserved` | windows/openssh-6.0p1/channels.c:1793-1812 | in both directions, sender window, data and adjustments in flight, consumed and buffered bytes, ignored bytes and bytes lost in write errors always add up to the announced window, so no unsigned counter wraps |
| `FlowSafety.StreamIsPreserved` | windows/openssh-6.0p1/channels.c:2141-2263 | in both directions, what the receiver wrote is a prefix of what the sender read; without a write error, bytes read = bytes written ++ output ++ data in flight ++ input, and likewise for extended data that was not ignored, under arbitrary partial reads, writes and window splits |
| `FlowSafety.CloseMeansDelivered` | windows/openssh-6.0p1/nchan.c:217-237 | an output side that closed without a write error has written every byte its peer ever read, across EOF, EOW and CLOSE, and every byte of extended data too if its descriptor is open and none was ignored |
| `FlowSafety.WindowAfterRefresh` | windows/openssh-6.0p1/channels.c:1793-1812 | the exact window the sender has after a receiver with nothing left to write checked its own: the whole window less lost, ignored and stuck bytes if the check is due, and what is granted less what was ignored otherwise |
| `FlowSafety.StarvedIff` | windows/openssh-6.0p1/channels.c:1795-1800 | in every reachable quiescent state, the sender has no window in any later state if and only if that value is zero |
| `FlowSafety.WindowReopens` | windows/openssh-6.0p1/channels.c:1795-1810 | on an unclosed quiescent channel one window check gives the sender at least half of the window, less lost, ignored and stuck bytes |
| `FlowSafety.StarvedForever` | windows/openssh-6.0p1/channels.c:1793-1812 | a sender without window, whose receiver has nothing to write and no check due, stays so whatever either end does |
| `FlowSafety.StarvedByWriteError` | windows/openssh-6.0p1/nchan.c:335-351 | a full window of data and one failed write starve the sender, with everything lost |
| `FlowSafety.StarvedByIgnoredData` | windows/openssh-6.0p1/channels.c:2330-2373 | ignored extended data followed by written data of at most half the window starves the sender, although most of the window was not lost |
| `FlowSafety.StarvedByStuckData` | windows/openssh-6.0p1/channels.c:1741-1790 | a full window of extended data whose descriptor then fails starves the sender, although nothing was lost or ignored |
| `FlowSafety.SwapIsReachable` | windows/openssh-6.0p1/channels.c:2141-2373 | reachable states are closed under exchanging the ends, so every theorem holds for both directions |
| `FlowSafety.StepKeeps` | windows/openssh-6.0p1/channels.c:2270-2373 | every local action of either end and every delivery keeps the invariants of both ends and both directions |
| `FlowControl.PerformOk` | windows/openssh-6.0p1/channels.c:1600-1812 | every local action of an end (reads, polls, writes, failures, window checks, closing) keeps its invariants and does what its peer relies on |
| `Channels.Channel.OutputPoll` | windows/openssh-6.0p1/channels.c:2141-2263 | the method on the mutable channel computes the state and packets of the transition used in the runs, for which ChannelLimits.PollExact states every amount |
| `Channels.Channel.SendInput` | windows/openssh-6.0p1/channels.c:2170-2239 | buffered input is sent, or the end of input is announced, as in the first half of that transition |
| `Channels.Channel.SendExtended` | windows/openssh-6.0p1/channels.c:2240-2260 | extended data is sent as in its second half |
| `Channels.Channel.InputData` | windows/openssh-6.0p1/channels.c:2270-2326 | buffers data and charges the window; each refusal of the source is a distinct result |
| `Channels.Channel.InputExtendedData` | windows/openssh-6.0p1/channels.c:2330-2373 | the same for extended data, including the ignored case |
| `Channels.Channel.InputWindowAdjust` | windows/openssh-6.0p1/channels.c:2555-2576 | adds to the sender's window in unsigned arithmetic |
| `Channels.Channel.CheckWindow` | windows/openssh-6.0p1/channels.c:1793-1812 | announces consumed bytes by the source's threshold |
| `Channels.Channel.HandleWfd` | windows/openssh-6.0p1/channels.c:1649-1738 | a partial write consumes output and counts it as consumed |
| `Channels.Channel.HandleEfd` | windows/openssh-6.0p1/channels.c:1741-1790 | a partial write of extended data |
| `Channels.Channel.RcvdClose` | windows/openssh-6.0p1/nchan.c:278-313 | the input and output states after CLOSE |
| `Channels.Channel.RcvdEof` | windows/openssh-6.0p1/nchan.c:327-333 | the output drains after EOF, or closes at once if nothing is left |
| `Channels.Channel.WriteFailed` | windows/openssh-6.0p1/nchan.c:335-351 | the output is thrown away and a session announces it |
| `Channels.Channel.SendCloseIfDone` | windows/openssh-6.0p1/nchan.c:442-484 | a channel closed on both halves announces it once |
| `ChannelRuns.Play` | windows/openssh-6.0p1/channels.c:2141-2373 | any event on two channel objects and their queues refines the step of the runs |
| `ChannelRuns.RunObjects` | windows/openssh-6.0p1/channels.c:2141-2373 | any run of two channel objects refines the run of values, so their windows are never overrun |
| `ChannelLimits.PacketsFit` | windows/openssh-6.0p1/channels.c:2205-2255 | in every reachable state, no packet with data or extended data under way has more bytes than the packet size its receiver announced |
| `ChannelLimits.PollExact` | windows/openssh-6.0p1/channels.c:2141-2263 | exactly what one poll sends and changes: the smallest of buffered input, window and packet size as one data packet; one EOF exactly when the input is drained and no extended data can follow; then the smallest of extended data, remaining window and packet size |
| `ChannelLimits.EndsStop` | windows/openssh-6.0p1/nchan.c:278-333 | in every reachable state, an end that sent EOF or got CLOSE has closed its input, one that got EOF or CLOSE no longer has its output open, and the failed write of a session is known to the sender unless its EOW is still under way |
| `ChannelLimits.ClosedStaysClosed` | windows/openssh-6.0p1/nchan.c:316-325 | input that closed stays closed in every later state, and no further byte is read |
| `ChannelLimits.CloseIsTaken` | windows/openssh-6.0p1/nchan.c:278-313 | CLOSE stops the input, lets the output drain, and gets the EOF that was still owed |
| `ChannelLimits.ShutdownIsOrderly` | windows/openssh-6.0p1/nchan.c:138-172 | when the input of both ends of a channel at rest ends, both have sent and received EOF and CLOSE once each, and nothing is left under way |
| `Socks.ChunkingIsIrrelevant` | windows/openssh-6.0p1/channels.c:1278-1317 | any two runs of reads and decoding attempts over the same client bytes that settle end with the same verdict, target, port, replies and left-over payload |
| `Socks.RunKeepsOutcome` | windows/openssh-6.0p1/channels.c:1278-1317 | every step keeps the outcome that decoding everything at once would give |
| `Socks.Stable` | windows/openssh-6.0p1/channels.c:1024-1250 | once the input suffices for a decision, bytes that arrive later do not change it |
| `Socks.HostIsNeverTooLong` | windows/openssh-6.0p1/channels.c:1051-1103 | the scan limit makes the later check of the SOCKS4A host length unreachable |
| `Socks.Request4aIsDecoded` | windows/openssh-6.0p1/channels.c:1024-1123 | a complete SOCKS4A request with port bytes [p / 256, p % 256] is served with its host and port p exactly if its command is 1 and its last byte is within the scan limit, and refused otherwise |
| `Socks.Request4IsDecoded` | windows/openssh-6.0p1/channels.c:1024-1123 | the same for a plain SOCKS4 request with the text of its address, for every address that does not announce a name |
| `Socks.RequestName5IsDecoded` | windows/openssh-6.0p1/channels.c:1180-1250 | a complete SOCKS5 request by name (section 4 of RFC 1928) with port bytes [p / 256, p % 256] is served with the name up to its first NUL and port p |
| `Socks.RequestAddress5IsDecoded` | windows/openssh-6.0p1/channels.c:1180-1250 | a SOCKS5 request by IPv4 or IPv6 address is served with the text of the address and its port, and refused with the target forgotten if the C library has no text |
| `Socks.OtherRequest5IsRefused` | windows/openssh-6.0p1/channels.c:1190-1215 | a SOCKS5 request with another command, reserved byte or address type is refused |
| `Socks.GreetingIsDecoded` | windows/openssh-6.0p1/channels.c:1150-1178 | a greeting is answered exactly if method 0 is among those offered |
| `Socks.OtherVersionIsRefused` | windows/openssh-6.0p1/channels.c:1287-1309 | a first byte other than 4 and 5 is refused once three bytes are there |
| `Socks.Client4aIsServed` | windows/openssh-6.0p1/channels.c:1278-1317 | however its bytes arrive, in every settled run a SOCKS4A client is connected to the host and port it asked for, with the bytes behind its request passed on |
| `Socks.Client5IsServed` | windows/openssh-6.0p1/channels.c:1278-1317 | the same for a whole SOCKS5 dialogue of greeting and request by name, with both replies |
| `Socks.SomeRunSettles` | windows/openssh-6.0p1/channels.c:1278-1317 | reading everything and looking twice settles every channel |
| `SocksObject.DynamicChannel.ScanStrings` | windows/openssh-6.0p1/channels.c:1051-1066 | the loop computes the position of the last terminating NUL, its absence, or the excess |
| `SocksObject.DynamicChannel.DecodeSocks4` | windows/openssh-6.0p1/channels.c:1024-1123 | consumes, replies and returns as decided; "need more" leaves the input unchanged |
| `SocksObject.DynamicChannel.OffersNoAuth` | windows/openssh-6.0p1/channels.c:1159-1170 | finds whether method 0 is among those offered |
| `SocksObject.DynamicChannel.DecodeSocks5` | windows/openssh-6.0p1/channels.c:1136-1250 | consumes, replies and returns as decided, in both phases |
| `SocksObject.DynamicChannel.PreDynamic` | windows/openssh-6.0p1/channels.c:1278-1317 | the channel afterwards is exactly the one the runs use, also after a rejection |
| `Jpake.SameSecretAgrees` | windows/openssh-6.0p1/jpake.c:349-416 | with one secret both roles derive g^((x1+x3)*x2*x4*s) mod p and accept each other's confirmation, or stop because a public value is degenerate |
| `Jpake.WrongSecretIsRejected` | windows/openssh-6.0p1/jpake.c:423-451 | for any hash and any two secrets, each side accepts if and only if the difference of the key exponents vanishes modulo the order or the hash collides on the two confirmation inputs of this dialogue |
| `Jpake.DialogueKeys` | windows/openssh-6.0p1/sshconnect2.c:1144-1284 | which exponent each side's key has for arbitrary secrets, through all messages of the dialogue, and exactly when it stops early |
| `Jpake.VerifierRebuildsGenerator` | windows/openssh-6.0p1/jpake.c:287-306 | the verifier multiplies the public values in another order and finds the generator the signer used |
| `Jpake.SharedKeyExponent` | windows/openssh-6.0p1/jpake.c:379-409 | the modular formula of the key equals one power of g despite all reductions modulo q |
| `Jpake.KeyExponentDifference` | windows/openssh-6.0p1/jpake.c:379-409 | the exponents of the two keys differ by a multiple of the difference of the secrets |
| `Jpake.HonestStep1` | windows/openssh-6.0p1/jpake.c:193-242 | an honest first message is sent unless degenerate, and accepted |
| `Jpake.HonestStep2` | windows/openssh-6.0p1/auth2-jpake.c:423-527 | an honest second message is sent unless degenerate, and accepted by the peer |
| `Jpake.ConfirmInputInjective` | windows/openssh-6.0p1/jpake.c:325-345 | the hashed confirmation input determines key, identity and session |
| `Jpake.RunStep2` | windows/openssh-6.0p1/jpake.c:246-321 | the step by step computation gives the formula |
| `Jpake.RunKeyConfirm` | windows/openssh-6.0p1/jpake.c:349-416 | the step by step computation gives the formula |
| `Schnorr.HonestProofVerifies` | windows/openssh-6.0p1/schnorr.c:125-347 | an honest proof for any power of the generator as base is accepted |
| `Schnorr.BlobRoundTrip` | windows/openssh-6.0p1/schnorr.c:219-395 | the signature blob reads back |
| `Schnorr.AcceptedIffProof` | windows/openssh-6.0p1/schnorr.c:255-395 | bytes are accepted if and only if they are two numbers (e, r), nothing more, with 1 < g_x < p, g_x^q = 1 and g^r * g_x^h = e modulo p for the hash h of all public values |
| `Schnorr.TwoResponses` | windows/openssh-6.0p1/schnorr.c:293-333 | two accepted responses to one commitment differ by the power of g_x that the difference of the challenges gives; for one challenge they have equal powers of the generator |
| `Schnorr.ExponentIsExtracted` | windows/openssh-6.0p1/schnorr.c:293-333 | special soundness: two accepted responses whose challenges differ by a number invertible modulo q determine an exponent of g_x |
| `Jpake.StepsNeedProofs` | windows/openssh-6.0p1/jpake.c:246-416 | the second step is taken only if both proofs of the peer check, and the key is derived if and only if the second value is in range and its proof checks against the product of the three values |
| `ModGroup.PowReduces` | windows/openssh-6.0p1/jpake.c:379-409 | exponents matter only modulo the order of the generator |
| `ModGroup.EqualIffDifferenceIsUnit` | windows/openssh-6.0p1/jpake.c:379-409 | two powers agree exactly if the power of the difference is one |
| `Deattack.Detector.DetectAttack` | windows/openssh-6.0p1/deattack.c:103-160 | on every packet, whatever earlier ones left in the table, the verdict is the table-free reference: detected if one of the first 32 repeats has the pattern, denial of service if none has and a 33rd exists, else fine |
| `Deattack.Detector.Hashed` | windows/openssh-6.0p1/deattack.c:143-159 | the path through the open-addressing index gives the reference verdict |
| `Deattack.Detector.Quadratic` | windows/openssh-6.0p1/deattack.c:130-142 | the quadratic path gives the same reference verdict |
| `Deattack.Detector.Probe` | windows/openssh-6.0p1/deattack.c:146-157 | the probing loop stops, and meets a record of the block exactly if the block is a repeat |
| `Deattack.Detector.CheckCrc` | windows/openssh-6.0p1/deattack.c:82-98 | the running CRC over the pattern of a block |
| `Deattack.PatternHasTwoWords` | windows/openssh-6.0p1/deattack.c:82-99 | the pattern is the running CRC of two words for each block: whether it equals the block in question, and zero |
| `Deattack.ProbeStops` | windows/openssh-6.0p1/deattack.c:110-127 | probing always meets a free slot, since the table is larger than the number of blocks |
| `Deattack.RecordedIsMet` | windows/openssh-6.0p1/deattack.c:146-157 | no free slot lies between the home of a recorded block and its record |
| `Deattack.EnterKeepsIndex` | windows/openssh-6.0p1/deattack.c:157-157 | entering a block keeps the index invariant; no stored position equals the mark for unused |
| `Deattack.FewRepeatsAreExact` | windows/openssh-6.0p1/deattack.c:143-159 | with at most 32 repeats the verdict is exact |
| `Deattack.BlockEquality` | windows/openssh-6.0p1/deattack.c:82-98 | comparing blocks is comparing their bytes |
| `KexSafety.FlagsAreCoherent` | windows/openssh-6.0p1/kex.c:173-287 | in every reachable state of initial and repeated exchanges started by either side: between handlers done = 1 iff no KEXINIT is outstanding, the stored peer proposal is empty, one KEXINIT was sent per exchange, and no peer met an unexpected packet |
| `KexSafety.ExchangesAgree` | windows/openssh-6.0p1/kexdhc.c:131-160 | in every reachable state, exchange n of both sides has one transcript, one hash and the secret g^(x*y) mod p; the transcript is the list of version strings, KEXINIT payloads with message number 20, host key, both public values and the secret; the hash is that of the transcript; and the keys of each direction are those of section 7.2 of RFC 4253 for the letters A, C, E and B, D, F with the first exchange's hash as session identifier |
| `KexOutcomes.DeathHasAReason` | windows/openssh-6.0p1/kexdhs.c:51-168 | a peer that died was killed by the packet in front of it: a KEXINIT although the fixed proposals agree on nothing with a large enough fixed group or a key generation was given up, or a Diffie-Hellman message because of a missing or refused host key or because no keys are needed; public values and signatures never fail |
| `KexOutcomes.PacketKillsIff` | windows/openssh-6.0p1/kex.c:231-287 | a live peer dies of the packet in front of it if and only if the two fixed proposals, the host key and the coins of this step say so, in every exchange of a connection |
| `KexOutcomes.AlgorithmsNeverChange` | windows/openssh-6.0p1/kex.c:420-493 | all exchanges of a connection use the algorithms that the two proposals agree on |
| `KexOutcomes.RekeyNeverFails` | windows/openssh-6.0p1/kex.c:173-287 | once both sides have computed an exchange, a peer can only die by giving up the generation of a key |
| `KexOutcomes.QuietMeansDone` | windows/openssh-6.0p1/kex.c:173-193 | no deadlock: with both queues empty, both peers live, are between handlers with done set, and have finished the same exchanges |
| `KexOutcomes.ReplyIsChecked` | windows/openssh-6.0p1/kexdhc.c:83-160 | whoever made it, a client survives a reply if and only if host key and public value are acceptable and the signature holds for the hash over its own view of the exchange |
| `KexOutcomes.OfferIsChecked` | windows/openssh-6.0p1/kexdhs.c:51-168 | whoever made it, a server survives an offer if and only if it has the host key and the public value is acceptable, and then sends its host key, its public value and its signature of that hash |
| `KexOutcomes.GroupCanBeTooSmall` | windows/openssh-6.0p1/dh.c:235-246 | algorithms on which peers agree and which kill them: the 1024-bit group with a MAC key of 64 bytes |
| `KexRuns.GroupSuitsIff` | windows/openssh-6.0p1/dh.c:235-246 | for every need below 2^29, a group is large enough exactly if the need is below 2^27 and the modulus at least 2^(16 * need) |
| `KexSafety.SessionIsFixed` | windows/openssh-6.0p1/kexdhs.c:126-132 | over every run, a session identifier never changes once it is set |
| `KexSafety.NeverConfused` | windows/openssh-6.0p1/kex.c:165-287 | the packet a live peer reads is always of the type it waits for |
| `KexSafety.StepKeeps` | windows/openssh-6.0p1/kex.c:173-287 | every step keeps the invariant of the two peers and their queues |
| `KexRuns.TranscriptIsInjective` | windows/openssh-6.0p1/kexdh.c:40-88 | equal transcripts mean the same version strings, proposals, host key, public values and secret |
| `KexRuns.TranscriptAsItems` | windows/openssh-6.0p1/kexdh.c:57-72 | the appended bytes are a list of wire strings and numbers |
| `KexObject.Kex.SendKexinit` | windows/openssh-6.0p1/kex.c:196-227 | sends one proposal unless one is outstanding, with only its cookie rewritten |
| `KexObject.Kex.WriteCookie` | windows/openssh-6.0p1/kex.c:212-221 | the loop fills the cookie from random words and leaves the rest alone |
| `KexObject.Kex.Finish` | windows/openssh-6.0p1/kex.c:173-193 | the fields after an exchange |
| `Negotiation.PeersAgree` | windows/openssh-6.0p1/kex.c:420-493 | two peers reach the same choice with the modes swapped, or both fail |
| `Negotiation.BytesAgree` | windows/openssh-6.0p1/kex.c:118-145 | the same from each other's KEXINIT bytes |
| `Negotiation.ChoiceIsFirstCommon` | windows/openssh-6.0p1/kex.c:420-493 | every agreed name, in all eight categories and on either side, is the first of the client's that the server also offers, looked up in the compiled-in suite; the key material needed is the largest of the six sizes |
| `Negotiation.ChoiceSucceedsIff` | windows/openssh-6.0p1/kex.c:290-393 | negotiation succeeds if and only if every category has a first common name that is supported |
| `Negotiation.FirstCommon` | windows/openssh-6.0p1/match.c:241-278 | the first common name, or none exactly if there is no common one |
| `NameLists.NamesOfJoin` | windows/openssh-6.0p1/match.c:247-261 | splitting a comma-separated list gives back the names it was joined from |
| `NameLists.NamesCons` | windows/openssh-6.0p1/match.c:249-256 | a name in front of a comma is split off, and an empty one ends the list |
| `Negotiation.KexinitRoundTrip` | windows/openssh-6.0p1/kex.c:99-145 | whatever the cookie, reading a KEXINIT gives back the proposal of C strings it was written from, or fails if and only if a list exceeds the string limit |
| `KeyDerivation.KeysAgree` | windows/openssh-6.0p1/kex.c:547-567 | each direction has the same IV, encryption and MAC keys on both sides, or both sides die |
| `KeyDerivation.SmallerNeedIsPrefix` | windows/openssh-6.0p1/kex.c:496-541 | a smaller need gives a prefix of the larger key |
| `KeyDerivation.FillsAllocation` | windows/openssh-6.0p1/kex.c:496-541 | whenever a key is returned, its digest blocks fill the allocated memory exactly and cover the need |
| `KeyDerivation.ComputeKey` | windows/openssh-6.0p1/kex.c:496-541 | for every need, the loop over the digest buffer leaves the key of section 7.2 of RFC 4253 in it; need 0 ends in the fatal error of the allocator |
| `KeyDerivation.DerivedIff` | windows/openssh-6.0p1/kex.c:496-541 | a key is derived exactly if its first block is hash(mpint(K) + H + [letter] + session), every further block is hash(mpint(K) + H + all bytes before), and it has as few blocks as hold the need |
| `KeyDerivation.FirstBlockInjective` | windows/openssh-6.0p1/kex.c:512-521 | the text hashed for a first block determines the letter and the session identifier |
| `KeyDerivation.KeysAreApart` | windows/openssh-6.0p1/kex.c:547-567 | keys under different letters or session identifiers are equal only if the hash collides on their two first blocks |
| `UserAuthOutcomes.SuccessIff` | windows/openssh-6.0p1/auth2.c:216-375 | a run ends in success if and only if one of its messages found the connection live and was admitted: a request for the first user and service, valid, below the limit, whose first enabled method is direct and accepts, or a response in the right number that the device accepts, and root is not denied; then one success reply was sent, and otherwise none |
| `UserAuthOutcomes.StepSucceedsIff` | windows/openssh-6.0p1/auth2.c:301-357 | in every live state, a message leads to success if and only if it is admitted |
| `UserAuthOutcomes.ChangedIdentityKills` | windows/openssh-6.0p1/auth2.c:266-271 | in every run, a request for another user or service than the first ends the connection for good, without a reply and without success |
| `UserAuthOutcomes.FirstRequestIdentifies` | windows/openssh-6.0p1/auth2.c:233-265 | in every run, the first request that is handled fixes the user (the part before a slash or colon) and the service, and the user is valid if and only if he is known and the service is "ssh-connection" |
| `UserAuthOutcomes.RequestIsJudged` | windows/openssh-6.0p1/auth2.c:216-375 | the outcome of every request in every live state: success, waiting, disconnection, or a refusal that is counted unless the server caused it or it answers a first "none", and that disconnects exactly at the limit |
| `UserAuthOutcomes.ResponseIsJudged` | windows/openssh-6.0p1/auth2-chall.c:280-372 | the outcome of every response in every live state: disconnection for a wrong number, success, a further query, the next device if one matches a name that is left, or a counted refusal |
| `UserAuthOutcomes.ServiceIsJudged` | windows/openssh-6.0p1/auth2.c:182-210 | a service request is accepted exactly if it is for "ssh-userauth", and cut off otherwise |
| `UserAuthOutcomes.LookupIff` | windows/openssh-6.0p1/auth2.c:403-418 | a method is found if and only if it is the first enabled one of the name, and "none" only once |
| `UserAuthOutcomes.BareIff` | windows/openssh-6.0p1/auth2.c:234-240 | the user name ends in front of the first slash or colon |
| `UserAuthOutcomes.NoneIsUsedUp` | windows/openssh-6.0p1/auth2-none.c:58-70 | a request counts as an attempt, and "none" is used up by the request that runs it |
| `UserAuthOutcomes.AllDevicesAreAsked` | windows/openssh-6.0p1/auth2-chall.c:103-135 | an empty list of devices asks for all of them, in order |
| `UserAuth.FailuresAreBounded` | windows/openssh-6.0p1/auth2.c:301-375 | a live connection has fewer failures than allowed, and failure replies are bounded |
| `UserAuth.ResponseHasContext` | windows/openssh-6.0p1/auth2-chall.c:280-346 | an installed response handler implies a live dialogue, so the fatal errors at its start are unreachable |
| `UserAuth.IdentityIsFrozen` | windows/openssh-6.0p1/auth2.c:216-298 | user, service and validity, once known, stay what they are, whatever follows |
| `UserAuth.StepOk` | windows/openssh-6.0p1/auth2.c:182-375 | every message keeps the invariants |
| `UserAuth.SearchIsFirstHit` | windows/openssh-6.0p1/auth2-chall.c:158-183 | the search takes the last device that matches the first requested name with any match, and leaves exactly the names behind that one |
| `UserAuth.ExactDeviceIff` | windows/openssh-6.0p1/auth2-chall.c:172-174 | the device of exactly the requested name is picked if and only if there is one and no later device name begins with it |
| `UserAuth.SearchIsExactIff` | windows/openssh-6.0p1/auth2-chall.c:158-183 | the same for the device the whole search returns |
| `UserAuth.AbbreviationsMatch` | windows/openssh-6.0p1/auth2-chall.c:172-174 | two tables for which another device than the named one is picked |
| `UserAuthObjects.KbdintContext.NextDevice` | windows/openssh-6.0p1/auth2-chall.c:158-183 | the do-while loop over the device list computes that search |
| `UserAuthObjects.Scan` | windows/openssh-6.0p1/auth2-chall.c:172-174 | the inner scan returns the last device whose name begins with the requested one |
| `UserAuthObjects.Authctxt.UserauthFinish` | windows/openssh-6.0p1/auth2.c:301-375 | counters, flags and the reply after one attempt; success is sent exactly for an accepted valid user who is not a denied root while nothing is postponed |
| `Buffers.Buffer.AppendSpace` | windows/openssh-6.0p1/buffer.c:103-137 | succeeds exactly when the shape accepts the length, keeps the contents, and the restart loop makes at most one compaction and one reallocation |
| `Buffers.Buffer.Append` | windows/openssh-6.0p1/buffer.c:72-77 | the contents grow by exactly the given bytes, or nothing changes |
| `Buffers.Buffer.Compact` | windows/openssh-6.0p1/buffer.c:80-94 | moves the contents to the front without changing them |
| `Buffers.Buffer.CheckAlloc` | windows/openssh-6.0p1/buffer.c:144-158 | answers in unsigned arithmetic and keeps the contents |
| `Buffers.Buffer.Get` | windows/openssh-6.0p1/buffer.c:171-181 | takes bytes from the front |
| `Buffers.Buffer.Consume` | windows/openssh-6.0p1/buffer.c:193-201 | drops bytes from the front |
| `Buffers.Buffer.ConsumeEnd` | windows/openssh-6.0p1/buffer.c:213-219 | drops bytes from the end |
| `Buffers.Buffer.constructor` | windows/openssh-6.0p1/buffer.c:34-43 | an empty buffer of the initial size |
| `Buffers.CheckAllocIsExact` | windows/openssh-6.0p1/buffer.c:144-158 | for lengths up to BUFFER_MAX_CHUNK the test answers 1 iff the append does not hit a fatal error |
| `Buffers.CheckAllocAgreement` | windows/openssh-6.0p1/buffer.c:103-158 | exactly for which lengths test and append agree in every buffer state |
| `Buffers.CheckAllocOverpromises` | windows/openssh-6.0p1/buffer.c:144-158 | a concrete length for which the test promises what the append refuses |
| `Wire.ItemRoundTrip` | windows/openssh-6.0p1/bufaux.c:81-316 | a value is written and reads back, with the bytes behind it untouched, if and only if it is within the limits of writer and reader |
| `Wire.ListRoundTrip` | windows/openssh-6.0p1/bufaux.c:81-316 | any list of storable values written and read in order comes back |
| `Wire.ListInjective` | windows/openssh-6.0p1/bufaux.c:139-275 | the encoding of a list is injective for its kinds, even with tails |
| `Wire.ItemPrefixFree` | windows/openssh-6.0p1/bufaux.c:139-275 | no encoding is a proper prefix of another of its kind |
| `Wire.MpintIsMinimal` | windows/openssh-6.0p1/bufbn.c:143-178 | the mpint encoding is the shortest with a clear sign bit |
| `Wire.Bignum1RoundTrip` | windows/openssh-6.0p1/bufbn.c:59-130 | an SSH1 number is written and reads back if and only if it is positive and has fewer than 65536 bits |
| `Wire.ZeroIsReadButNotWritten` | windows/openssh-6.0p1/bufbn.c:59-86 | the writer dies on zero, although the reader accepts a form of it |
| `Wire.IntBytes` | windows/openssh-6.0p1/bufaux.c:139-145 | a 32-bit integer is four bytes, most significant first |
| `Wire.StringIsCounted` | windows/openssh-6.0p1/bufaux.c:271-275 | a string is its length as such an integer and its bytes |
| `Wire.BigConcat` | windows/openssh-6.0p1/bufbn.c:99-130 | the value of bytes in two parts: the front counts for more |
| `Wire.MpintIsString` | windows/openssh-6.0p1/bufbn.c:143-185 | an mpint is a string of its value with a clear sign bit, and none such is shorter |
| `Wire.Bignum1Bytes` | windows/openssh-6.0p1/bufbn.c:59-93 | an SSH1 number is its count of bits in two bytes and as few bytes as hold them |
| `Wire.NumBitsIff` | windows/openssh-6.0p1/bufbn.c:62-62 | the count of bits is the least k with the value below 2^k |
| `BufferCodec.PutInt` | windows/openssh-6.0p1/bufaux.c:139-145 | appends the encoding; success is certain when there is room |
| `BufferCodec.PutChar` | windows/openssh-6.0p1/bufaux.c:311-316 | the same for a character |
| `BufferCodec.PutString` | windows/openssh-6.0p1/bufaux.c:271-275 | the same for a string |
| `BufferCodec.PutBignum` | windows/openssh-6.0p1/bufbn.c:59-93 | the same for an SSH1 number, except that zero fails |
| `BufferCodec.PutBignum2` | windows/openssh-6.0p1/bufbn.c:143-185 | the same for an SSH2 number, with the padding byte built and dropped |
| `BufferCodec.GetInt` | windows/openssh-6.0p1/bufaux.c:81-101 | removes and decodes, and fails exactly where the decoder does |
| `BufferCodec.GetChar` | windows/openssh-6.0p1/bufaux.c:288-305 | the same for a character |
| `BufferCodec.GetString` | windows/openssh-6.0p1/bufaux.c:165-203 | the same for a string |
| `BufferCodec.GetBignum` | windows/openssh-6.0p1/bufbn.c:99-137 | the same for an SSH1 number |
| `BufferCodec.GetBignum2` | windows/openssh-6.0p1/bufbn.c:188-223 | the same for an SSH2 number |
| `Rsa1.FileRoundTrip` | windows/openssh-6.0p1/authfile.c:419-517 | for every cipher whose decryption undoes encryption, the file is written and reading it with the same passphrase returns the key and the comment if and only if every number is positive with fewer than 65536 bits, the comment is within the string limit, neither prime is one, and the library can blind the key |
| `Rsa1.FileLayout` | windows/openssh-6.0p1/authfile.c:86-166 | the bytes of the file: the identification line, one byte that is 0 without a passphrase and 3 with one, four zeros, size, n, e and comment, and then the cipher of that same number applied to the check bytes twice, d, iqmp, q, p and zeros up to a multiple of eight |
| `Rsa1.IdIsText` | windows/openssh-6.0p1/authfile.c:75-76 | the identification line, letter by letter, and its NUL |
| `Rsa1.WrongPassphrase` | windows/openssh-6.0p1/authfile.c:482-489 | deciphering with another passphrase returns no key whenever the check bytes then differ, and otherwise not, if the library can blind every key |
| `Rsa1.OnlyKeyFilesAreRead` | windows/openssh-6.0p1/authfile.c:433-468 | without the identification line no key is returned, and what is returned came from a file with it and a known cipher byte |
| `Rsa1.StorableOutcome` | windows/openssh-6.0p1/rsa.c:131-151 | what becomes of every storable key: a fatal error for a prime of one, no key if blinding fails, and otherwise the key with d mod (p-1) and d mod (q-1) |
| `Rsa1.UnitPrimeIsNotRead` | windows/openssh-6.0p1/rsa.c:142-146 | a concrete key with a prime of one that is written and kills the reader |
| `Rsa1.ZeroFieldIsNotWritten` | windows/openssh-6.0p1/authfile.c:86-166 | a concrete key with a zero field, on which the writer dies |
| `Rsa1.PublicRoundTrip` | windows/openssh-6.0p1/authfile.c:280-319 | the file is written and its public part reads back without a passphrase if and only if that part is storable and no secret number is zero |
| `Rsa1.AnyPassphraseKeepsPublicPart` | windows/openssh-6.0p1/authfile.c:419-517 | no passphrase changes the public half of what is returned |
| `Rsa1Files.WriteBlob` | windows/openssh-6.0p1/authfile.c:86-166 | writes exactly the bytes of Rsa1.FileLayout, and always succeeds for storable keys |
| `Rsa1Files.Pad` | windows/openssh-6.0p1/authfile.c:126-128 | the loop pads with zeros to the first multiple of eight |
| `Rsa1Files.ParseBlob` | windows/openssh-6.0p1/authfile.c:419-517 | computes the parser's result, with both failures after the numbers are read, and leaves the blob alone |
| `Rsa1Files.ReadPublic` | windows/openssh-6.0p1/authfile.c:280-319 | the same for the public part, leaving the encrypted part in the buffer |
| `Cbc.DecryptUndoesEncrypt` | windows/openssh-6.0p1/cipher-aes.c:74-117 | for any number of blocks |
| `Cbc.EncryptUndoesDecrypt` | windows/openssh-6.0p1/cipher-aes.c:74-117 | the converse |
| `Cbc.EncryptSplits` | windows/openssh-6.0p1/cipher-aes.c:90-101 | two calls at a block boundary equal one, through the stored vector |
| `Cbc.DecryptSplits` | windows/openssh-6.0p1/cipher-aes.c:102-114 | the same for decryption |
| `Cbc.StreamIsRecovered` | windows/openssh-6.0p1/cipher-aes.c:74-117 | however sender and receiver cut the stream into calls, the receiver gets what was sent |
| `Cbc.EncryptAt` | windows/openssh-6.0p1/cipher-aes.c:90-101 | each block is the encryption of the plain block xor the ciphertext block before it, or the vector |
| `Bytes.XorBits` | windows/openssh-6.0p1/cipher-aes.c:94-95 | every bit of an exclusive or is the sum of the bits modulo 2 |
| `CbcObject.Context.EncryptBlocks` | windows/openssh-6.0p1/cipher-aes.c:90-101 | the forward loop on arrays, in place or not, computes the encryption and the next vector, and touches nothing else |
| `CbcObject.Context.DecryptBlocks` | windows/openssh-6.0p1/cipher-aes.c:102-114 | the backward loop does the same for decryption, in place or not |
| `CbcObject.Context.Crypt` | windows/openssh-6.0p1/cipher-aes.c:74-117 | both directions with the error on partial blocks |
| `CbcObject.RoundTripInPlace` | windows/openssh-6.0p1/cipher-aes.c:74-117 | encrypting and decrypting one array in place restores it |
| `Ctr.IncAddsOne` | windows/openssh-6.0p1/cipher-ctr.c:51-58 | the carry loop adds one modulo 256^len to the big-endian value |
| `Ctr.CryptTwice` | windows/openssh-6.0p1/cipher-ctr.c:61-82 | applied twice from equal counters, a call is the identity |
| `Ctr.KeyStreamLaw` | windows/openssh-6.0p1/cipher-ctr.c:61-82 | byte i is combined with byte i modulo 16 of the encrypted block whose big-endian value is the starting counter plus i / 16 |
| `Ctr.CryptSplits` | windows/openssh-6.0p1/cipher-ctr.c:61-82 | calls compose when split at multiples of 16 |
| `Ctr.TwoCallsPad` | windows/openssh-6.0p1/cipher-ctr.c:61-82 | for any other split, the rest of the last key block is skipped |
| `Ctr.CallsAreRecovered` | windows/openssh-6.0p1/cipher-ctr.c:61-82 | every call of a whole connection is recovered |
| `Ctr.CountersKeepPace` | windows/openssh-6.0p1/cipher-ctr.c:61-82 | sender and receiver hold the same counter after any calls |
| `Ctr.KeyStreamDoesNotRepeat` | windows/openssh-6.0p1/cipher-ctr.c:61-82 | no block of key stream recurs within 2^128 blocks |
| `CtrObject.CtrInc` | windows/openssh-6.0p1/cipher-ctr.c:51-58 | the loop on the array computes the increment |
| `CtrObject.Context.Crypt` | windows/openssh-6.0p1/cipher-ctr.c:61-82 | the byte loop, in place or not, computes the call and advances the counter by ceil(len/16) |
| `AtomicIo.Atomiciov6` | windows/openssh-6.0p1/atomicio.c:96-158 | for any replies of the system, the vectored loop returns what the plain transfer of all cells returns, moves a prefix of the cells once and in order, and reports EFAULT exactly if the system claims too much |
| `AtomicIo.CompleteIffFirstNonEmpty` | windows/openssh-6.0p1/atomicio.c:96-158 | a normal return has moved everything if and only if the first entry is not empty or all are |
| `AtomicIo.EmptyFirstEntryIsLost` | windows/openssh-6.0p1/atomicio.c:116-116 | a concrete vector for which a normal return moves nothing |
| `AtomicIo.LayoutIsIrrelevant` | windows/openssh-6.0p1/atomicio.c:96-158 | cutting any entry in two, except in front of the first cell, changes neither the cells transferred nor the result |
| `AtomicIo.Advance` | windows/openssh-6.0p1/atomicio.c:132-150 | skipping and shortening entries drops exactly the moved cells, and leaves no empty entry in front |
| `AtomicIo.Atomicio6` | windows/openssh-6.0p1/atomicio.c:51-84 | the loop over one range computes the plain transfer |
| `AtomicIo.PlainIsDecided` | windows/openssh-6.0p1/atomicio.c:51-84 | the outcome by totals: done once the replies sum up to what was asked for; until then the first error, end of file or wish to stop decides |
| `ChooseDh.BestIsChosen` | windows/openssh-6.0p1/dh.c:140-160 | for every file order: the maximum if no size reaches the wanted one; the wanted size if it comes before every larger one; otherwise the smallest size strictly above |
| `ChooseDh.LeastEnoughIff` | windows/openssh-6.0p1/dh.c:152-156 | the smallest sufficient size is chosen if and only if the wanted size is absent or comes before every larger one |
| `ChooseDh.ExactMatchIsPassedOver` | windows/openssh-6.0p1/dh.c:152-156 | two orders of one file with different choices |
| `ChooseDh.GroupIsFoundIff` | windows/openssh-6.0p1/dh.c:140-168 | a group is found exactly if one is usable and some bit is wanted, and its size is within the bounds |
| `ChooseDh.FirstPass` | windows/openssh-6.0p1/dh.c:140-160 | the loop computes the best size and the exact number of entries of that size |
| `ChooseDh.SecondPass` | windows/openssh-6.0p1/dh.c:168-184 | finds entry number `which` exactly if there are that many |
| `ChooseDh.Choose` | windows/openssh-6.0p1/dh.c:125-188 | on an unchanging file the second pass always finds its entry |

## Left out

- Datagram channels: the source compares the length without the four bytes it then charges, so the window law needs an extra hypothesis there.
- Bytes that an endpoint puts into its own output or extended buffer (SOCKS replies, escape text, multiplexing messages): the flow-control runs have none.
- Filters, simulated echo, forced drains, detached channels and the X11 and agent channel types.
- Protocol 1.3 and 1.5 paths and the compatibility flags for other implementations.
- Application packets between the packets of a key exchange, and the skipping of a guessed packet: both peers of these runs announce none.
- Group exchange and elliptic-curve key exchange; only the fixed groups appear in the runs.
- The check of Diffie-Hellman public values and of host keys, and the blinding of RSA keys: arbitrary functions.
- Privilege separation, PAM, GSSAPI, public-key and host-based methods: a direct method answers through a parameter.
- The derivation of the J-PAKE secret from a password and the faked salts for unknown users.
- Claims about secrecy: of the Schnorr proofs completeness, special soundness and what acceptance means are stated, not that they hide anything.
- The CRC table and the block ciphers themselves: parameters with the laws each theorem names.
- Parsing of the text of a moduli line: a line is junk or a group. The file does not change between the passes.
- PEM key files, file permissions, and loading and saving: the RSA1 model starts and ends at the blob.
- Failures for lack of memory or randomness, and a host key that cannot sign.
- The packet layer: packets arrive complete, in order and of any size.
- Negative results of the system other than -1 in vectored transfers, and waiting for readiness.
- The JavaScript of the desktop client and of the administration panel: start-up code without logic.
- Rsa1Files.ParseBlob: is stated for blobs of at most 1 MB, the size up to which key files are loaded.
- BufferCodec.GetString: leaves out the terminating NUL that the source appends behind the returned string, because a sequence needs none.
