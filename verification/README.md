# A verified model of OTR version 3

This project models the Go implementation of the Off-the-Record Messaging Protocol version 3 in
Dafny and proves properties of the model.  Check it with `dafny verify dfyconfig.toml`.

What is modelled, bottom up:

- `Wire`, `Numerals`, `Headers`: the data types SHORT, INT, DATA and MPI, numbers as text, message
  headers and instance tags.
- `ModArith`, `DhGroup`, `Crypto`: arithmetic modulo p and q, the Diffie-Hellman group (section 2 of
  RFC 3526), and the primitives.  Hashes, MACs, signatures and keystreams are parameters, so every
  statement is for all functions with the right output lengths; AES in counter mode is exclusive-or
  with a keystream (section 6.5 of NIST SP 800-38A).  p and q are any primes with p = 2q + 1 and
  2^q = 1 modulo p.
- `Smp`, `SmpBinding`, `SmpMachine`, `SmpRuns`, `Tlvs`, `SmpExchange`: the Socialist Millionaires'
  Protocol.  What an honest run decides, what verification rejects and two answers give away, the
  state machine over every run, and how every exchange of two honest machines ends.
- `KeyManagement`, `DataMessages`, `Session`, `PartyRuns`, `Ratchet`: key ids, counters, MAC keys and
  data messages.  `PartyRuns` is one party against any input at all; `Ratchet` is two parties and a
  network that may lose, repeat and reorder their messages.  `SmpSession` carries the exchange of
  two SMP machines in their data messages.
- `Ake`, `AkeRuns`, `AkeExchange`, `AkeHeap`: the authenticated key exchange over values, against an
  arbitrary network, between two honest sides, and in place, with big integers as memory cells that
  are wiped.
- `Fragmentation`, `Reassembly`: cutting messages with uint16 offsets and putting them together.
- `Sexp`, `Accounts`: the s-expression reader and the libotr key file.

Code that works in place is modelled by classes and loops, each proved against a function on values;
the properties are proved about those functions and their runs.  Random reads that may fail,
signatures and drawn exponents are inputs of the step that uses them.  A panic of the source is a
result of the model (`None`, `Panics` or a `crashed` flag).  Only the handlers of the key exchange ask
for states that hold the numbers they dereference, and `AkeRuns.RunCoherent` shows that every
reachable state does.

Where the source disagrees with its documentation the model follows the code:

- With crossing DH Commits the side with the higher hash moves on to await a Reveal Signature, while
  the protocol keeps it awaiting a DH Key; `AkeExchange.CrossingStalls` shows that the exchange then
  never completes without a new query.
- `SetFragmentSize` promises fragments of at most the given size; `Fragmentation.FragmentsFit` gives
  the exact condition, and `Fragmentation.CutsExactly` when cutting panics instead.
- `wipeAndKeepRevealKeys` means to keep the MAC keys to reveal, but they share their bytes with the
  ones it wipes (`AkeHeap.Conversation.DropCommitment`).  No run reaches a difference: an exchange
  never holds MAC keys (`AkeRuns.RunCoherent`).
- A completed fragmented message is handed on again by every discarded fragment that follows
  (`Reassembly.RedeliversExactly`, `Reassembly.RedeliversThroughout`).

Where a promised property does not always hold, the lemma gives the exact condition as an
if-and-only-if: `PartyRuns.RunMacLifecycle` (no MAC key is revealed while its ids can be selected),
with the failing input in `PartyRuns.EarlyRevealReached`; `PartyRuns.CountersUnique` and
`PartyRuns.CounterWraps` (no counter repeats); `SmpMachine.RunCoherent` and
`SmpMachine.FailedRestartReached`; `SmpRuns.PanicsExactly` and `SmpRuns.Version2MayPanic`; `AkeRuns.PanicsExactly`; `AkeExchange.ExchangeCompletes`;
`Tlvs.SmpTlvRoundTrip`; `DataMessages.DecryptsEncrypted`; `Accounts.FileRoundTrip`.

## Model

| member | source | states |
|---|---|---|
| `Wire.ReadMpis` | vendor/github.com/coyim/gotrax/extract.go:101-114 | the loop over a counted list of MPIs, with its early exit, gives exactly the list and the unread bytes, or fails exactly when some number does not parse |
| `Wire.DataRoundTrip` | vendor/github.com/coyim/gotrax/extract.go:51-61 | reading a written DATA field gives back the bytes and what follows; from 2^32 bytes on the truncated length makes it lose bytes |
| `Wire.MpiRoundTrip` | vendor/github.com/coyim/gotrax/extract.go:86-96 | a number written as MPI reads back exactly when its minimal form is shorter than 2^32 bytes |
| `Wire.MpisRoundTrip` | vendor/github.com/coyim/gotrax/append.go:37-42 | a counted list of MPIs reads back, with the rest untouched |
| `Wire.NatBytesLength` | vendor/github.com/coyim/gotrax/append.go:31-33 | the written form of a number is minimal: it fits n bytes exactly when the number is below 256^n |
| `Wire.MpisInjective` | vendor/github.com/coyim/gotrax/append.go:37-42 | two lists of numbers that fit are written the same exactly when they are equal |
| `Wire.FromBytesInjective` | vendor/github.com/coyim/gotrax/extract.go:86-96 | byte strings of one length have the same value exactly when they are equal |
| `ModArith.ModInverse` | bn_utils.go:9-11 | the inverse if there is one; None exactly when no number is an inverse |
| `ModArith.DivModCancels` | bn_utils.go:28-30 | division undoes multiplication wherever it is defined |
| `ModArith.PrimeInverse` | bn_utils.go:9-11 | modulo a prime exactly the multiples of the prime have no inverse |
| `DhGroup.GenIsGroupElement` | dh.go:39-41 | a power of the generator passes the range check exactly when its exponent is not a multiple of q |
| `Crypto.CtrTwice` | keys.go:418-439 | enciphering twice under one key and counter block gives the data back, for every keystream |
| `Crypto.XorAt` | keys.go:418-439 | enciphering works bit by bit: each bit is the sum, without carry, of the bits of data and keystream |
| `Smp.ChallengesAgree` | data.go:11-22 | a challenge is byte for byte the SHA-256 of its index and all its numbers, so two agree exactly when those hashes do |
| `Smp.ChallengeTexts` | data.go:11-22 | different indices or numbers are different texts to hash |
| `Smp.ZkpComplete` | smp.go:60-71 | an honest proof of knowledge passes verifyZKP for every exponent, although the answer is reduced modulo q |
| `Smp.CommitmentComplete` | smp.go:73-91 | an honest proof for (P, Q) passes verifyZKP2 and verifyZKP3 for all exponents and secrets |
| `Smp.EqualLogsComplete` | smp.go:93-98 | an honest equality-of-logarithms proof passes verifyZKP4 |
| `Smp.HonestSecond` | smp_msg2.go:42-69 | the generators, Pb and Qb of the second message as powers of the generator |
| `Smp.HonestThird` | smp_msg3.go:37-60 | the third message of an honest run is always defined; Pa, Qa, Ra and both quotients as powers of the generator |
| `Smp.HonestFourth` | smp_msg4.go:48-58 | the fourth message of an honest run is always defined; Rb as a power of the generator |
| `Smp.Message1Verifies` | smp_msg1.go:39-73 | an honest first message verifies exactly in version 2, or in version 3 with exponents not divisible by q |
| `Smp.Message2Verifies` | smp_msg2.go:81-114 | the same for the second message, with the exact condition on the four values sent |
| `Smp.Message3Verifies` | smp_msg3.go:71-95 | the same for the third message; its division is always defined |
| `Smp.Message4Verifies` | smp_msg4.go:30-40 | the same for the fourth message |
| `Smp.ResponderDecides` | smp_msg3.go:97-106 | the responder's verdict is success exactly when q divides a2 a3 b2 b3 (x - y) |
| `Smp.InitiatorDecides` | smp_msg4.go:60-67 | the initiator's verdict is success exactly when q divides a2 a3 b2 b3 (x - y) |
| `Smp.DecidesEquality` | smp_msg3.go:37-106 | the two verdicts always agree, and are success exactly when x = y modulo q or one of the four exponents is a multiple of q |
| `SmpBinding.ZkpBinding` | smp.go:66-71 | beside an answer that verifies, another one verifies exactly when it is equal modulo q or SHA-256 collides on the two different texts hashed for these answers |
| `SmpBinding.SameChallenge` | data.go:11-22 | lists of residues have the same challenge exactly when they are equal or SHA-256 collides on their two texts |
| `SmpBinding.CommitmentBinding` | smp.go:73-91 | the same for the pair of answers d5, d6 of a commitment proof, for any generators: the answers that hash alike are given by two congruences, the collision by the two texts hashed |
| `SmpBinding.SameAnswersEqual` | smp.go:73-91 | for non-trivial generators those congruences say that both answers are equal modulo q |
| `SmpBinding.EqualLogsBinding` | smp.go:93-98 | the same for the answer d7 of an equality-of-logarithms proof |
| `SmpBinding.ZkpExtracts` | smp.go:66-71 | two answers to two challenges for one commitment give the exponent: their quotient modulo q |
| `SmpBinding.CommitmentExtracts` | smp.go:73-91 | the same for a commitment proof: they give one exponent for P and Q and the committed secret, so P and Q are built as a commitment is |
| `SmpBinding.EqualLogsExtracts` | smp.go:93-98 | the same for an equality proof: one exponent for both pairs, so the logarithms are equal |
| `SmpBinding.Message1Binds` | smp_msg1.go:55-73 | an honest first message with its two answers replaced verifies exactly when the honest one does and each new answer is equal modulo q or collides with the old one |
| `SmpBinding.Message2Binds` | smp_msg2.go:81-114 | the same for the four answers of the second message, in any run, trivial generators included |
| `SmpBinding.Message3Binds` | smp_msg3.go:71-95 | the same for the three answers of the third message |
| `SmpBinding.Message4Binds` | smp_msg4.go:30-40 | the same for the answer of the fourth message |
| `SmpMachine.Conversation.Wipe` | smp.go:20-28 | every field of the machine is cleared |
| `SmpMachine.Conversation.EnsureSmp` | smp.go:30-36 | an unused machine starts expecting message 1; any other is unchanged |
| `SmpMachine.SecretsAgree` | smp.go:46-54 | the number SMP compares is byte for byte the SHA-256 of version, initiator's and recipient's fingerprint, session id and the user's secret, so two agree exactly when those hashes do |
| `SmpMachine.SecretTexts` | smp.go:46-54 | with fingerprints and session ids of fixed length, different secrets, parties or sessions are different texts to hash |
| `SmpMachine.Conversation.Start` | smp_state_machine.go:229-257 | the fields, the records sent and the error are those of the step function, from every state |
| `SmpMachine.Conversation.ReceiveMessage1` | smp_state_machine.go:82-116 | same, for a first message; crashes exactly before the machine was ever used |
| `SmpMachine.Conversation.ContinueMessage1` | smp_state_machine.go:86-133 | same, for the user's answer |
| `SmpMachine.Conversation.ReceiveMessage2` | smp_state_machine.go:90-151 | same, for a second message, with every nil dereference |
| `SmpMachine.Conversation.ReceiveMessage3` | smp_state_machine.go:94-173 | same, for a third message, with the success event before the random read |
| `SmpMachine.Conversation.ReceiveMessage4` | smp_state_machine.go:98-190 | same, for a fourth message |
| `SmpMachine.Conversation.ReceiveSmp` | smp_state_machine.go:49-63 | any message is dispatched to the current state: fields, records, events and every nil dereference are those of the step function |
| `SmpMachine.Conversation.Handle` | authenticate.go:6-38 | whatever happens to the machine, a start, an answer, a message, an abort or the end of the session, is one step of the step function |
| `SmpMachine.StepCoherent` | smp_state_machine.go:82-257 | a step keeps every state's promise about the stored values exactly unless it is a failed restart in Expect3 or Expect4 that replaced the secret |
| `SmpMachine.RunBuilt` | smp_state_machine.go:82-257 | over every run, failed restarts and changing peers included: Expect2 holds its own first message and a secret, Expect3 a second message built on a verified first one, Expect4 a first and third message of one attempt built on a verified second one |
| `SmpMachine.RunCoherent` | smp_state_machine.go:82-257 | up to any point of any run those values were also built from the secret stored at the time, exactly if no restart in Expect3 or Expect4 failed after replacing the secret |
| `SmpMachine.FailedRestartReached` | smp_state_machine.go:229-257 | such a failed restart is reached: after any verified first message and an answer, a start with a failing read and a secret that hashes differently leaves the machine in Expect3 with the other secret |
| `SmpRuns.PanicsExactly` | smp_state_machine.go:102-190 | in every state that RunBuilt allows, in either version, a step dereferences nil exactly on an answer before the first use, or on a message that passes verification up to a division by a multiple of p |
| `SmpRuns.Version3NeverPanics` | smp_state_machine.go:102-190 | in version 3 no message leads to such a division; the only crash is answering before the first use |
| `SmpRuns.Version2MayPanic` | smp_msg2.go:97-114 | in version 2 a second message with honest generators and both commitments 0, proved by the hash of two zeros, passes and crashes every machine that waits for one |
| `SmpRuns.SuccessIsEarned` | smp_state_machine.go:153-190 | in every run, failed restarts and changing peers included, a success event ends one complete attempt whose every message was verified against the values drawn for it, which nothing changed in between |
| `SmpExchange.AllVerify` | smp_msg3.go:71-95 | in a non-degenerate honest run all four messages verify |
| `SmpExchange.CarriedFirst` | smp_msg1.go:19-27 | the honest first message comes out of its written record unchanged exactly when its question holds no NUL and its value fits the 16-bit length |
| `SmpExchange.ShortQuestionFits` | smp.go:100-114 | a question of up to 64000 bytes, or none, always fits |
| `SmpExchange.CarriedSecond` | smp_msg2.go:24-26 | the honest second message always comes out of its written record unchanged |
| `SmpExchange.CarriedThird` | smp_msg3.go:21-23 | the same for the third |
| `SmpExchange.CarriedFourth` | smp_msg4.go:17-19 | the same for the fourth |
| `SmpExchange.HonestExchange` | smp_state_machine.go:82-257 | two honest machines in any states, any draws, any channel that delivers what can be carried, and a question that can be: no crash, both end expecting message 1, nothing is left on its way, and the events of both users are those of the end that Decided computes; in turn and with ordinary draws that is success exactly when the users typed the same bytes or the SHA-256 values of their two texts agree modulo q |
| `SmpExchange.SecretsCompared` | smp.go:46-54 | the compared numbers agree modulo q exactly when the users' bytes are equal or those SHA-256 values agree modulo q; with q of at least 256 bits exactly when the bytes are equal or SHA-256 collides |
| `SmpExchange.OrdinaryDraws` | smp_state_machine.go:82-257 | with no exponent a multiple of q, and in version 3 no value sent the neutral element, an exchange in turn ends in success exactly when the users' secrets match in that sense |
| `SmpExchange.FourthFollows` | smp_msg4.go:30-67 | a fourth message that is sent at all is accepted and agrees with the responder's verdict |
| `SmpSession.ReadRecords` | data_message.go:182-218 | the records of messages that can be carried, with the padding behind them, are handled as exactly those messages in order |
| `SmpSession.ReadStops` | data_message.go:182-218 | a corrupt SMP record ends the reading, after all messages before it |
| `SmpSession.SmpTravels` | data_message.go:107-162 | from every reachable state of the ratchet with room in its integer widths and distinct public values, what a machine sends at once reaches the other machine in the next data message, all of it and in order, when the receiver's random read works |
| `SmpSession.ExchangeOverRatchet` | authenticate.go:6-38 | the whole exchange with each leg in a data message of an encrypted session, sent at any such points of any run and delivered next, ends as HonestExchange says, with the users' secrets deciding in the ordinary case |
| `Tlvs.SerializeRoundTrip` | tlv.go:70-91 | a record reads back, whatever follows, exactly when its length field is honest |
| `Tlvs.SmpTlvRoundTrip` | tlv.go:70-187 | every SMP message, whatever its numbers, comes out of its written record unchanged exactly when its question holds no NUL and its value is shorter than 65536 bytes |
| `Tlvs.DecodesList` | tlv.go:97-187 | a record with any list of numbers becomes the message of its type from the first ones, and is refused exactly with too few |
| `KeyManagement.SetCounterFrame` | key_management.go:99-113 | setting one pair's counters changes no other pair's and keeps one entry per pair |
| `KeyManagement.RemainingIsComplement` | key_management.go:42-47 | swap deletion from the last index down leaves exactly the items not picked, each as often as before |
| `KeyManagement.RemainingCorrect` | key_management.go:58-88 | the keys kept and the keys forgotten together are the old history, and none kept has the forgotten id |
| `KeyManagement.PickedCorrect` | key_management.go:58-88 | the keys forgotten are exactly those with the id |
| `KeyManagement.SessionKeysAgree` | key_management.go:230-256 | two key pairs give equal extra keys, and one side's sending keys are the other's receiving keys exactly when the public values differ (or the two hashes collide) |
| `KeyManagement.SessionKeysSeparate` | key_management.go:230-256 | two derivations give the same AES or extra key exactly when end and shared secret agree or two different texts hash alike: the end with the larger public value sends under byte 1, the other under byte 2; a MAC key is SHA-1 of its AES key, the extra key SHA-256 of 0xFF and the secret |
| `KeyManagement.PrefixedMpi` | key_management.go:314-319 | different bytes or secrets are different texts to hash |
| `KeyManagement.CounterHistory.FindCounterFor` | key_management.go:99-113 | the loop returns the object of the first entry of the pair, adding one if there is none |
| `KeyManagement.MacKeyHistory.DeleteKeysAt` | key_management.go:42-47 | the in-place loop is the recursive swap deletion |
| `KeyManagement.MacKeyHistory.AddKeys` | key_management.go:49-56 | one entry more, at the end |
| `KeyManagement.MacKeyHistory.ForgetMacKeysForOurKey` | key_management.go:58-72 | returns the keys with the id in order and keeps the rest by swap deletion |
| `KeyManagement.MacKeyHistory.ForgetMacKeysForTheirKey` | key_management.go:74-88 | the same for the peer's id |
| `KeyManagement.KeyManagementContext.CalculateDhSessionKeys` | key_management.go:211-228 | derives keys exactly when both ids can be selected, and records the receiving MAC key |
| `KeyManagement.KeyManagementContext.CheckMessageCounter` | key_management.go:139-149 | accepts exactly a larger counter, and then stores it |
| `KeyManagement.KeyManagementContext.NextCounter` | data_message.go:23-30 | the counter of the next message and its uint64 increment |
| `KeyManagement.KeyManagementContext.RevealMacKeys` | key_management.go:151-155 | returns the reveal list and empties it |
| `KeyManagement.KeyManagementContext.RotateOurKeys` | key_management.go:174-194 | moves MAC keys to the reveal list before the random read, then shifts our pair if the read works |
| `KeyManagement.KeyManagementContext.RotateTheirKey` | key_management.go:196-209 | moves MAC keys and shifts the peer's value exactly on the current id |
| `DataMessages.ReadRevealedKeys` | messages.go:246-254 | the loop cuts the revealed keys into hash-length pieces, failing exactly on a short rest |
| `DataMessages.SplitKeysRoundTrip` | messages.go:222-254 | hash-length keys written one after another read back as they were |
| `DataMessages.UnsignedRoundTrip` | messages.go:157-212 | the unsigned part reads back with any rest, exactly when the counter is not zero |
| `DataMessages.DataMsgRoundTrip` | messages.go:214-257 | a data message reads back, and its signed prefix is byte for byte what was signed, exactly when the counter is not zero |
| `DataMessages.ReadPlain` | messages.go:264-287 | the search for the NUL and the split into text and records |
| `DataMessages.ReadTlvs` | messages.go:275-285 | the loop over the records stops at the first that does not parse |
| `DataMessages.TlvsRoundTrip` | messages.go:289-301 | any list of honest records reads back |
| `DataMessages.PlainRoundTrip` | messages.go:264-301 | text and records read back exactly when the text holds no NUL |
| `DataMessages.PaddedLength` | messages.go:309-321 | the padded plaintext without its other records is a whole number of 256-byte granules; text and records are unchanged and the zeros come last |
| `DataMessages.IvCarriesCounter` | messages.go:323-335 | the counter block is the message's counter followed by eight zero bytes, so two blocks are equal exactly when the counters are |
| `DataMessages.EncryptsUnder` | messages.go:323-331 | exclusive-or with the keystream from the counter's own block takes a ciphertext back to the padded plaintext |
| `DataMessages.DecryptsEncrypted` | messages.go:323-343 | decrypting under the same key and counter gives the padded plaintext exactly when the text holds no NUL |
| `Headers.HeaderRoundTrip` | otrv3.go:93-170 | any receiver splits a message exactly after its header when, in version 3, the tags address it, calls it bad exactly on invalid tags, and takes over an unknown sender's tag; in version 2 always |
| `Headers.HeaderCarries` | otrv3.go:93-104 | a header holds the version, the message type and, in version 3, the sender's tag before the receiver's |
| `Headers.TooShort` | otrv3.go:140-170 | anything shorter than a header is refused and nothing is learnt from it |
| `Session.NotForUs` | otrv3.go:140-170 | a message not addressed to this party changes nothing but a peer's tag that was not known yet |
| `Session.Conversation.GenDataMsg` | data_message.go:13-63 | the message, the extra key and the new counters, histories and reveal list are those of the sending function; refused without a change otherwise |
| `Session.Conversation.ProcessDataMessage` | data_message.go:107-146 | the outcome and the whole new key state are those of the receiving function, for any bytes |
| `PartyRuns.RunAcceptedIncrease` | key_management.go:139-149 | over every run, whatever arrives, accepted counters strictly increase for each pair of key ids |
| `PartyRuns.NeverAcceptedTwice` | data_message.go:116-131 | no run accepts the same message bytes twice |
| `PartyRuns.CountersNumbered` | data_message.go:18-30 | over every run the messages sent under each pair of key ids are numbered 1, 2, and so on, round the uint64 without 0, and the history has one entry per pair |
| `PartyRuns.CountersUnique` | data_message.go:18-30 | no two messages of a run share both key ids and the counter, exactly as long as no pair of ids was used more than 2^64 - 1 times |
| `PartyRuns.CounterWraps` | data_message.go:25-30 | one use more and two messages of the pair carry the same counter |
| `PartyRuns.BlocksUnique` | data_message.go:18-41 | over every run no two messages of a pair of ids start at the same counter block, exactly as long as no pair was used more than 2^64 - 1 times |
| `PartyRuns.SentUnderItsCounter` | data_message.go:18-41 | each message sent is enciphered from the block of the counter it carries, under the AES key its ids select |
| `PartyRuns.RunMacsConserved` | key_management.go:42-88 | every MAC key ever recorded is in exactly one of history, reveal list and already revealed, in order |
| `PartyRuns.RecordsReceivingKey` | key_management.go:211-228 | each step records at most one MAC key, the receiving one of a pair of ids that can be selected |
| `PartyRuns.AcceptedExactly` | data_message.go:107-131 | a message is accepted exactly when it parses, its counter is newer, both its ids can be selected and its MAC is right under the selected keys |
| `PartyRuns.RefusedForItsId` | key_management.go:258-294 | over every run a key id is refused exactly for one of the errors the selection names, never because its slot is empty |
| `PartyRuns.StepMacLifecycle` | key_management.go:151-209 | a step keeps every stored MAC key selectable and every retired one past, exactly unless it receives an acceptable message on which a rotation of our keys fails with keys of the older pair on record, or a key id wraps |
| `PartyRuns.RunMacLifecycle` | key_management.go:151-209 | up to any point of any run every stored MAC key belonged to a selectable pair of ids and every retired one to a past pair, exactly if no step broke it in one of these two ways |
| `PartyRuns.RetiredForGood` | key_management.go:174-209 | until then the pair of a retired key can be selected in no later state of the run |
| `PartyRuns.FailedRotationRevealsEarly` | key_management.go:188-194 | of the keys a rotation moves to the reveal list one can still be selected exactly when the random read failed with keys of the older pair on record |
| `PartyRuns.EarlyRevealReached` | key_management.go:188-194 | from every starting session: one message sent, then any signed message for the current ids accepted with a failed read, and the first message's MAC key is on the reveal list while the next message is sent under the same ids |
| `Ratchet.RunInvariant` | data_message.go:13-146 | two parties over a network that loses, repeats and reorders: the joint invariant holds in every reachable state |
| `Ratchet.RatchetInStep` | key_management.go:157-209 | each side is at most one rotation behind its peer, and every id either side can select stands for that very pair of its owner |
| `Ratchet.SelectedKeysAgree` | key_management.go:211-294 | the receiver picks keys for any message exactly while its ids are at most one rotation old, and they are the sender's keys mirrored where the two public values differ, with the same extra key always |
| `PartyRuns.ProcessOutcome` | data_message.go:116-141 | for any message that parses: regressed exactly on an old counter, then refused exactly on an unknown id, then rejected exactly on a wrong MAC, otherwise accepted and decrypted under the selected keys |
| `Ratchet.RunsExist` | auth_state_machine.go:16-32 | the assumptions on primitives, group and first state can be met together |
| `Ratchet.DeliveryDecided` | data_message.go:107-146 | the outcome of delivering any message ever sent: regressed exactly on an old counter, then refused exactly on an old id, then accepted, where the two public values are equal only if two MACs collide; accepted messages between distinct values yield the sent text exactly when it has no NUL |
| `Ratchet.FreshDelivered` | data_message.go:13-63 | a message sent from any reachable state and delivered next is accepted between distinct public values, with its extra key and, exactly without a NUL, its text and records; between equal ones only if two MACs collide |
| `Ratchet.WrappedIdEndsSession` | key_management.go:258-294 | once our key id or the peer's has wrapped to 0 nothing is sent or accepted any more, and it stays 0 |
| `AkeRuns.RunCoherent` | auth_state_machine.go:34-256 | whatever messages, queries and failures occur: our value is g to our exponent, and awaiting a Signature the peer's value is in range and all keys come from the shared secret |
| `AkeRuns.PanicsExactly` | ake.go:110-131 | in a reachable state the only step that panics is a query with a public value below 2^88 |
| `AkeRuns.SignedTextUnique` | ake.go:76-78 | different values, long-term keys or key ids are different texts to sign |
| `AkeRuns.SignedHashesAgree` | ake.go:64-78 | under one MAC key two signed hashes agree exactly when both values, key and key id do, or two different texts have the same HMAC |
| `AkeRuns.AkeKeysSeparate` | key_management.go:296-312 | the keys of two exchanges agree exactly when the shared secrets do or SHA-256 collides, key by key: byte 1 gives both cipher keys, 2 to 5 the four MAC keys, 0 the session id |
| `AkeRuns.SealedUnder` | ake.go:90-106 | what is sealed is key, key id and signature, enciphered under the key c from a zero block |
| `AkeRuns.SealMacsAgree` | ake.go:311-321 | two sealed texts have the same MAC exactly when they are equal or the HMAC values of two different texts start alike |
| `AkeRuns.OpenDecides` | ake.go:311-364 | a sealed signature is refused first exactly on a wrong MAC over the sealed bytes, and believed only with a signature, by the key inside, of the other side's value, ours, that key and its id |
| `AkeRuns.RevealedCommitted` | ake.go:247-277 | a Reveal Signature is believed only if the revealed key opens the commitment: the stored bytes decipher to the committed hash and to exactly the value taken |
| `AkeRuns.KeptAsZeros` | wipe.go:100-108 | MAC keys kept through the wipe keep their number and lengths, and every byte is zero |
| `AkeRuns.SessionStartsSigned` | ake.go:341-364 | every step either starts a session whose peer signed the HMAC of its value, ours, its long-term key and key id, or leaves the running session alone |
| `AkeRuns.UnfinishedExchangesKeepSession` | auth_state_machine.go:16-32 | any number of steps that finish no exchange leaves the session's keys, ids and state as they were |
| `AkeExchange.KeyRoundTrip` | keys.go:303-377 | a DSA public key reads back from its serialized form, with the rest untouched |
| `AkeExchange.CommitRoundTrip` | messages.go:38-53 | a DH Commit body reads back, and what follows it is ignored |
| `AkeExchange.SigReads` | messages.go:106-121 | sealed bytes and MAC read back, exactly when the MAC has 20 bytes |
| `AkeExchange.RevealSigRoundTrip` | messages.go:81-99 | a Reveal Signature body reads back, with its key cut or filled up with zeros to 16 bytes |
| `AkeExchange.SigRoundTrip` | messages.go:106-121 | a Signature body reads back |
| `AkeExchange.SealOpens` | ake.go:64-106 | what one side seals the other opens, given the same keys and a good signature over both values |
| `AkeExchange.CommitSent` | send.go:58-75 | a query starts a new exchange from any state, with the commitment to the drawn value |
| `AkeExchange.CommitAnswered` | auth_state_machine.go:86-149 | every state but an outranking one answers a DH Commit with a DH Key, keeping the exponent exactly when it awaits a Reveal Signature |
| `AkeExchange.DhKeyAnswered` | auth_state_machine.go:159-180 | a DH Key is answered with a Reveal Signature exactly when its value is in range |
| `AkeExchange.RevealPasses` | ake.go:247-277 | the commitment opens and the signature verifies exactly when the committed value is in range |
| `AkeExchange.RevealSigAccepted` | auth_state_machine.go:200-223 | the responder then finishes with key ids 2 and 1 and the peer's value |
| `AkeExchange.SigAccepted` | auth_state_machine.go:245-256 | the initiator finishes with the same session id |
| `AkeExchange.ExchangeCompletes` | auth_state_machine.go:86-256 | from any earlier states an exchange between honest sides with working randomness completes exactly when the initiator's value is at least 2^88, no commitment of the responder's own outranks it, and the responder's exponent is not a multiple of q; then equal ssid, ids 2 and 1, each other's values and opposite sentRevealSig |
| `AkeExchange.ExchangeStartsRatchet` | auth_state_machine.go:16-32 | two sides that completed are an initial state of the ratchet |
| `AkeExchange.OneRepeats` | auth_state_machine.go:124-149 | of two sides whose commitments cross the one with the larger hash repeats its own, so at most one does, and exactly one unless the two hashes are equal |
| `AkeExchange.AboveIsGreater` | auth_state_machine.go:124-149 | of byte strings of one length the one with the larger value is the higher |
| `AkeExchange.CrossingStalls` | auth_state_machine.go:124-149 | once each side has received the other's crossing commitment: in every run of deliveries of anything they have sent, in any order and any number of times and with any draws, both await a Reveal Signature and no message ever sent finishes the exchange |
| `AkeHeap.WipedSlotsElsewhere` | wipe.go:66-79 | zeroing the numbers in one set of slots changes no cell of another owner |
| `AkeHeap.WipedOwnElsewhere` | wipe.go:28-41 | zeroing the numbers of an exchange changes no cell of any slots |
| `AkeHeap.WipedIsGone` | wipe.go:28-79 | after a wipe every reference that was wiped leads to zero, and no other cell has changed |
| `AkeHeap.Conversation.SetBigInt` | wipe.go:180-186 | the copy has the value of the source because the wiped number is another cell; that one is zero and every other reference keeps its value |
| `AkeHeap.Conversation.WipeAke` | wipe.go:28-53 | the exchange is cleared and its numbers are zero in memory; with wipeKeys so are those of its slots, without they keep their values |
| `AkeHeap.Conversation.ReplaceAke` | ake.go:45-49 | a wiped exchange, all its numbers zero, is replaced by a new one, the session untouched |
| `AkeHeap.Conversation.SetSecretExponent` | ake.go:55-58 | exponent and value are new cells, so wiping the drawn number to zero does not reach them |
| `AkeHeap.Conversation.SendDhCommit` | send.go:58-75 | refines the value model; no cell of the session changes |
| `AkeHeap.Conversation.AnswerCommit` | auth_state_machine.go:86-104 | refines the value model; no cell of the session changes |
| `AkeHeap.Conversation.DropCommitment` | wipe.go:100-108 | slots and commitment are dropped, exponent and values kept; kept MAC keys come out as zeros |
| `AkeHeap.Conversation.RepeatedCommit` | auth_state_machine.go:106-122 | refines the value model; no cell of the session changes |
| `AkeHeap.Conversation.CrossedCommit` | auth_state_machine.go:124-149 | refines the value model; no cell of the session changes |
| `AkeHeap.Conversation.ReceiveCommit` | auth_state_machine.go:82-149 | dispatch on the state; no cell of the session changes |
| `AkeHeap.Conversation.CalcAkeKeys` | ake.go:51-62 | session id and both key sets from the shared secret |
| `AkeHeap.Conversation.SignUnder` | ake.go:64-106 | the key id is raised before the signature that may fail |
| `AkeHeap.Conversation.SetTheirSlot` | key_management.go:130-132 | the slot holds the peer's value in a cell of its own |
| `AkeHeap.Conversation.SetOurSlots` | key_management.go:134-137 | the slots hold our pair in cells of their own |
| `AkeHeap.Conversation.VerifySealed` | ake.go:341-364 | the peer's key is stored before its signature is checked, the key id after |
| `AkeHeap.Conversation.ProcessRevealSig` | ake.go:247-277 | the committed value is stored before it is checked |
| `AkeHeap.Conversation.SendRevealSig` | ake.go:169-186 | refines the value model through both slot copies; no cell of the session changes |
| `AkeHeap.Conversation.ReceiveDhKey` | auth_state_machine.go:151-194 | refines the value model; no cell of the session changes |
| `AkeHeap.Conversation.GenerateNewDhKeyPair` | key_management.go:157-172 | the previous pair is zero in memory, the current one moves with its cells, a new one is drawn |
| `AkeHeap.Conversation.HasFinished` | auth_state_machine.go:16-32 | the session takes over the very cells of the exchange's slots, the peer's value as current and our pair as previous one; the old session's numbers and the rest of the exchange are zero in memory |
| `AkeHeap.Conversation.RotateOurKeys` | key_management.go:188-194 | refines the value model on the session's cells; no cell of an exchange in progress changes |
| `AkeHeap.Conversation.RotateTheirKey` | key_management.go:201-209 | the same, with the message's number as the peer's current value |
| `AkeHeap.Conversation.ReceiveRevealSig` | auth_state_machine.go:196-231 | refines the value model; the session's cells change exactly when the exchange finishes |
| `AkeHeap.Conversation.ReceiveSig` | auth_state_machine.go:233-256 | refines the value model; the session's cells change exactly when the exchange finishes |
| `AkeHeap.Conversation.ProcessAke` | auth_state_machine.go:34-61 | any message: refines the value model, keeps its invariant, and changes no cell of the session unless the exchange finishes |
| `AkeHeap.Conversation.TakeAll` | auth_state_machine.go:34-61 | any sequence of queries, messages and rotations: refines the runs of the value model, and no cell of the session has changed at the end unless a rotation or a finished exchange was among them |
| `Numerals.FormattedReads` | otrv3.go:81-83 | a zero-padded decimal or hexadecimal field reads back as the number exactly when it is a signed 64-bit one |
| `Fragmentation.Fragment` | fragmentation.go:43-64 | the loop fills exactly the fragments of the specification, and crashes exactly when some slice is out of range |
| `Fragmentation.PrefixLayout` | otrv3.go:81-83 | the prefix letter for letter, with the sender's tag before the receiver's and the number before the total |
| `Fragmentation.PrefixDigits` | otrv3.go:81-83 | tags are written in lower-case hexadecimal digits, numbers and totals in decimal ones |
| `Fragmentation.PieceInRange` | fragmentation.go:24-34 | without overflow piece i is exactly the i-th stretch of the message |
| `Fragmentation.PieceOverrun` | fragmentation.go:24-34 | with overflow of the uint16 offsets some piece ends before it starts |
| `Fragmentation.CutsExactly` | fragmentation.go:43-64 | cutting works exactly when number of pieces times piece size stays below 65536 |
| `Fragmentation.FragmentsFit` | fragmentation.go:43-64 | all fragments respect the size limit exactly when the limit is at least prefix length + 2 or no cutting was needed |
| `Reassembly.Receiver.ReceiveFragment` | fragmentation.go:111-134 | tags and context after any fragment, and the whole message exactly when the context is finished |
| `Reassembly.Reassembles` | fragmentation.go:83-134 | after any fragments the context holds the joined pieces of the latest unbroken run 1..k of one total, and is empty without one |
| `Reassembly.HonestHeard` | otrv3.go:46-83 | whoever hears a fragment: with invalid tags it is broken, for another instance passed over, otherwise heard as the piece it was made from exactly when the piece holds no comma |
| `Reassembly.RoundTrip` | fragmentation.go:43-134 | after k fragments of a comma-free message, with any noise among them and any context before, the first k stretches are held; finished exactly at the last, with the original bytes |
| `Reassembly.CompletesWithoutComma` | fragmentation.go:70-81 | delivered in order to an empty context, the fragments complete exactly when the message holds no comma |
| `Reassembly.RedeliversExactly` | receive.go:31-36 | a finished context hands its message on again exactly on a discarded fragment or on the message as a single piece |
| `Reassembly.RedeliversThroughout` | receive.go:31-36 | over any sequence of further fragments: each hands the message on once more exactly if each is discarded or the message as a single piece |
| `Sexp.Reader.ReadWhitespace` | sexp/sexp.go:31-37 | the loop skips exactly the whitespace ahead |
| `Sexp.Reader.ReadDataUntil` | sexp/sexp.go:98-107 | the loop takes exactly the bytes before the first stop byte |
| `Sexp.Reader.Expect` | sexp/sexp.go:81-89 | after whitespace takes the byte exactly when it is the expected one |
| `Sexp.Reader.ReadDelimited` | sexp/str.go:39-49 | text between two delimiters, or nothing if it is not closed |
| `Sexp.Reader.ReadValue` | sexp/sexp.go:40-58 | the value ahead, by its first byte, and the bytes left; every value but an end consumes input |
| `Sexp.Reader.ReadListItem` | sexp/cons.go:67-74 | the items up to the end of the list, recursively |
| `Sexp.SymbolReads` | sexp/symbol.go:29-33 | a written symbol reads back up to what follows it |
| `Sexp.DelimitedReads` | sexp/str.go:39-49 | a written string or number text reads back |
| `Accounts.ExportAccounts` | keys.go:565-573 | the loop writes the file text of the specification |
| `Accounts.Layout` | keys.go:510-552 | the lines of names, protocols and parameters, letter for letter |
| `Accounts.LineOrder` | keys.go:526-573 | the lines of an account and of the file, in their order |
| `Accounts.ReadAccountName` | keys.go:196-202 | reads what the name function says, from the shared reader |
| `Accounts.ReadAccountProtocol` | keys.go:204-210 | reads what the protocol function says |
| `Accounts.ReadOneParameter` | keys.go:259-271 | a parameter, a bad one, or the end, an unclosed one counting as the end |
| `Accounts.ReadDsaPrivateKey` | keys.go:239-257 | the loop assigns the parameters in any order until the end or a failure |
| `Accounts.ReadPrivateKey` | keys.go:226-237 | reads what the key function says |
| `Accounts.ReadAccountFrom` | keys.go:212-224 | reads what the account function says |
| `Accounts.ReadAccounts` | keys.go:179-194 | the loop reads every account to the end of the list |
| `Accounts.HexDigits` | sexp/bignum.go:15-33 | any number, negative or nil included, reads back from its hexadecimal text |
| `Accounts.ParameterReads` | keys.go:548-552 | an exported parameter reads back |
| `Accounts.NameReads` | keys.go:510-516 | an exported name reads back exactly when it holds no double quote |
| `Accounts.ProtocolReads` | keys.go:518-524 | an exported protocol reads back exactly when it is a symbol |
| `Accounts.KeyReads` | keys.go:526-546 | an exported key reads back with all five parameters |
| `Accounts.AccountReads` | keys.go:554-563 | an exported account reads back exactly when its name is free of double quotes and its protocol is a symbol |
| `Accounts.FileRoundTrip` | keys.go:565-573 | a file of any number of accounts reads back unchanged exactly when every account does |

## Left out

- Sexp.Reader.Expect: at the end of the input the source un-reads the byte before it and may loop; the model leaves the position, so nothing is claimed about truncated files.
- KeyManagement.KeyManagementContext.CalculateDhSessionKeys: a key slot that holds no number is refused, where the source would dereference nil; `PartyRuns.RefusedForItsId` shows that no run of a session reaches such a slot.
- Session.Conversation.ProcessDataMessage: ends before the TLV handlers; SMP records are read in `SmpSession`, a reply to a record is another send of the same model, and a disconnect record is not modelled.
- Reassembly.Receiver.ReceiveFragment: the version of the conversation is known; a first fragment that sets it is not modelled.
- Session.Conversation.GenDataMsg: the instance tag of a session is already drawn, so making the header cannot fail.
- DataMessages.ReadRevealedKeys: the authenticator in front of the revealed keys must be complete; on a shorter rest the source slices by capacity, and the model calls the message corrupt.
- SmpMachine.Conversation.ReceiveMessage2: the fields that generateSMP3Message writes into its state are part of the value it returns; the same for the second message.
- SmpSession.ReadStops: on a corrupt record the source also drops the replies to the messages before it; here only what is read is stated.
- AkeHeap.Conversation.HasFinished: counters, MAC keys and byte slices are values there; only big integers are cells, and the signals and the reflected-message event are left out.
- AkeHeap.Conversation.SendDhCommit: the bytes of the headers of key exchange messages are those of `Headers`; here a draw says whether an instance tag could be made.
- Ratchet.FreshDelivered: text and revealed keys must fit the 32-bit length fields, key ids their 32 bits and counters their 64 bits; beyond these the source truncates or wraps (`Wire.DataRoundTrip`, `Ratchet.WrappedIdEndsSession`, `PartyRuns.CounterWraps`).
- The loop that draws an instance tag of at least 0x100.
- The internals of SHA-1, SHA-256, HMAC, AES and DSA, and the quality of randomness.
- Version choice, policies, query and whitespace messages and their timeouts: single-branch facts and wall-clock conditions.
- Base64 and the message envelope: a library call; fragmentation only needs that the text has no comma.
- Events, error messages, heartbeats and retransmission: user interface and clocks.
- Wiping of byte slices and the sharing of slices between messages and state.
- Importing a bare DSA key, key generation, and opening files.
