# bolty-rs in Dafny

bolty-rs provisions NTAG424 payment cards: a command-line tool burns, wipes and scans
cards through a reader, and ESP32 firmware does the same behind a serial console, a
button, a REST interface and an over-the-air update server. This project models the
parts of it whose correctness is not visible in any single function and proves what
they promise, for every byte stream, run, interleaving, card behaviour or integer.

Three results carry most of the weight.

- **Secure messaging simulates a plain device** (`Lockstep`). A client that holds the
  slot key and counts commands for itself is composed with the card of
  `mock_transport.rs`. Over every run the protocol allows, no exchange breaks: every MAC
  and IV the client computes from its own count is accepted, every answer is the one of a
  device without any cryptography, and the card's keys, versions, settings and file are
  that device's. `MockTransport` shows that the object with its in-place ciphers does
  exactly what the state function does, and `Client` puts the two together as programs.
- **No workflow reaches its mutating call around a gate** (`WipeCard`, `BurnCard`,
  `ScanKeys`). The card and the random source are arbitrary functions of everything that
  happened so far. Every command's attempts and result are proved to be what these two make
  of it, delays ridden out included, and the number of failed authentications it can cost
  the card is bounded.
- **The readers and writers fit each other exactly.** The date arithmetic is the calendar
  stepped one day at a time, the line assembler is "split, then judge each line whole",
  the budget reader counts what a process logged exactly when what the log quotes from
  outside is harmless, and the two fields of a JSON error body read back exactly when the
  body fits its buffer.

AES is any keyed permutation of 16-byte blocks and CMAC any keyed function: they are a
parameter (`Bytes.Suite`) of everything built on them. Clocks, random sources, flash
drivers, cards and clients are parameters too, so each theorem quantifies over them.

## Where the code differs from what is promised of it

- The timestamp of `wall_utc` is the calendar's exactly while the seconds fit a signed
  64-bit integer, because of the cast at its start (`CivilDate.WallUtcMatchesCalendar`,
  `CivilDate.WallUtcWraps`). No system clock gets there.
- The job id told to the client is computed before the slot skips id 0, so once in 2^32 - 1
  jobs it does not name the job (`JobSlot.ToldNamesJob`, `JobSlot.ToldWrong`). The
  wrapping addition of a release build is modelled; a checked build stops there instead.
- The "process start" that clock steps are judged by is a lazy value, first read just
  after the first timestamp of the process, not when the process starts
  (`AuditLog.StartIsSecondReading`). A clock set back before the first timestamp goes
  unnoticed (`AuditLog.BootMissed`); `AuditLog.JudgedByBoot` says exactly when it does not
  matter.
- Event messages, transport errors and the session banner put free text into the audit
  log, and the budget reader searches whole lines. A text that contains `rx` and
  `sw=91ae`, for instance in the URL of a burn event, is counted as a failure
  (`BudgetExact.ForgedFailure`), and a newline makes two lines of one
  (`BudgetExact.BrokenLine`). The exact condition is `BudgetExact.LineRead` for a line,
  `BudgetExact.LogRead` and `BudgetExact.LogCounted` for a log, and `AuditTrail.FileCounted`
  for what a process writes.
- A JSON error body that does not fit 256 bytes loses characters at its end, and then at
  least one field does not read back (`Json.FieldsReadBackExactly`, `Json.OverlongBody`).
  The call sites in `rest.rs` pass short literals, which fit.
- The escaper leaves control characters other than newline, carriage return and tab as
  they are, which JSON does not allow (`Json.EscapeLegal`, `Json.EscapeIllegal`).
- Failures are not all recorded by the circuit breaker. A wipe records all it suffers
  exactly when neither factory probe fails (`WipeCard.CmdWipe`, `WipeCard.RejectingProbes`),
  a burn exactly when it is forced or its state probe does not end in a wrong key
  (`BurnCard.BurnWith`, `BurnCard.RejectingCard`).
- A burn with derived keys reads the UID twice, derives from the first reading and compares
  a pinned UID with the second only. A card swapped in between gets keys that are not its
  own, pinned or not (`BurnCard.CmdBurn`, `BurnCard.SwappedCard`).
- A native read past the end of the file ends the card process, while an ISO read there
  returns nothing (`NdefFile.ReadPathsAgree`, `NdefFile.ReadPastEnd`).

## Files

| file | about |
|---|---|
| `Basics`, `Bytes`, `Cbc` | substring search, bytes, blocks, exclusive or, CBC and padding on buffers in place |
| `CardSpec`, `NdefFile`, `SessionCrypto`, `MockTransport`, `ApduBytes`, `Wire`, `Lockstep`, `Client` | the card: state function, file, session keys and MACs byte by byte, object, what it does with its commands in bytes, its session told from the wire, the client that drives it and that client as a program |
| `AuthBench`, `WipeCard`, `BurnCard`, `ScanKeys` | retry ladder, circuit breaker and the three guarded commands |
| `CivilDate`, `WallText`, `PcdTimer` | dates, their text, and the reader's frame timer |
| `ConsoleFraming`, `Button` | stream machines |
| `AuditLog`, `Budget`, `CalmText`, `BudgetExact`, `AuditText`, `AuditTrail` | the audit log: stamping, reader, text the reader finds nothing in, what it makes of each line, the tool's own texts, and all of it end to end |
| `JobSlot`, `Ota` | the shared job slot and the update server |
| `Hex`, `Sun`, `Json` | parsers and printers |

## Model

| member | source | states |
|---|---|---|
| Lockstep.RunInLockstep | apps/bolty-cli/src/mock_transport.rs:592-657 | over every allowed run the client never rejects an answer, the answers are those of the plain device, and card, client and plain device end in lockstep |
| Client.DriveNewCard | apps/bolty-cli/src/mock_transport.rs:592-657 | a client program at a new card object, through any allowed run: the answers are the plain device's and both end in lockstep |
| Client.Client.Perform | apps/bolty-cli/src/mock_transport.rs:592-657 | each command sent through the transport leaves card, session and answer as the pure client has them, or fails when it does |
| Client.FreshInLockstep | apps/bolty-cli/src/mock_transport.rs:111-131 | a new card and a plain device with the same contents are in lockstep |
| Lockstep.LockstepStep | apps/bolty-cli/src/mock_transport.rs:592-657 | each of the fourteen commands keeps the lockstep and is answered as by the plain device |
| Lockstep.CounterCountsCommands | apps/bolty-cli/src/mock_transport.rs:294-300 | from an authentication on, the card's counter is the number of counted commands mod 2^16, whatever uncounted commands and rejected re-authentications are mixed in, and the client's session equals the card's |
| Wire.CounterOnTheWire | apps/bolty-cli/src/mock_transport.rs:592-657 | for every sequence of APDUs the card answers, whole commands or not: it has a session exactly when the second part of an authentication was accepted and the master key not changed since, it is the session opened then, and its counter is the number of counted exchanges since, mod 2^16 |
| Wire.OpenedExactly | apps/bolty-cli/src/mock_transport.rs:234-281 | the exchange that opened the session is the last accepted second part, with no master key change behind it |
| Wire.StepMoves | apps/bolty-cli/src/mock_transport.rs:592-657 | what any single exchange does to the session, told from the bytes of the exchange alone |
| Wire.SendAll | apps/bolty-cli/src/mock_transport.rs:592-657 | a card object sent the APDUs one by one makes exactly those exchanges, up to the first it does not survive |
| Lockstep.HandshakeCompletes | apps/bolty-cli/src/mock_transport.rs:207-281 | a client holding the slot key completes both parts of the authentication and opens the card's own session; `ApduBytes.HandshakeKeys` gives its keys in bytes |
| ApduBytes.HandshakeKeys | apps/bolty-cli/src/mock_transport.rs:207-281 | both sides end with the session whose encryption key is the CMAC of the A5 5A vector and whose MAC key that of the 5A A5 vector, each vector given byte by byte |
| ApduBytes.ChallengeBytes | apps/bolty-cli/src/mock_transport.rs:207-232 | the first part is answered with the mock's challenge, encrypted under the key of the named slot |
| ApduBytes.ReplyOpensSession | apps/bolty-cli/src/mock_transport.rs:234-281 | a reply that decrypts to a random number and the rotated challenge opens exactly that session, and is answered with the identifier and the rotated random number |
| ApduBytes.ReplyRefused | apps/bolty-cli/src/mock_transport.rs:250-260 | a reply is refused with 91AE exactly when its second block is not the challenge rotated by one byte |
| Lockstep.RejectionChangesNothing | apps/bolty-cli/src/mock_transport.rs:250-260 | a re-authentication leaves card and session as they were exactly when its reply is wrong |
| Lockstep.CipherApduAccepted | apps/bolty-cli/src/mock_transport.rs:750-764 | the card recovers the plaintext the client encrypted and finds the MAC the client computed; `ApduBytes.CipherApduBytes` gives both in bytes |
| ApduBytes.CipherApduBytes | apps/bolty-cli/src/mock_transport.rs:361-420 | the APDU of an encrypted command, byte by byte: the body encrypted after the encrypted block of label, identifier and counter, the MAC over command, counter, identifier, argument and body |
| ApduBytes.MacApduBytes | apps/bolty-cli/src/mock_transport.rs:334-345 | the APDU of a MACed command, byte by byte |
| ApduBytes.ChangeKeyBytes | apps/bolty-cli/src/mock_transport.rs:384-420 | a key is changed exactly under the MAC over command, counter, identifier, slot and body; key and version are the decrypted bytes, the key of a slot other than 0 under the stored one |
| ApduBytes.ChangeSettingsBytes | apps/bolty-cli/src/mock_transport.rs:347-380 | the settings are patched exactly under the MAC over command, counter, identifier, file and body, if the body is padded text of at least three bytes, and the patched bytes are given |
| ApduBytes.KeyVersionBytes | apps/bolty-cli/src/mock_transport.rs:424-433 | the version is given exactly to the right MAC, and is MACed under the next counter |
| ApduBytes.SettingsBytes | apps/bolty-cli/src/mock_transport.rs:334-345 | the settings are given exactly to the right MAC, and are MACed under the next counter |
| ApduBytes.VersionBytes | apps/bolty-cli/src/mock_transport.rs:304-321 | the three version frames and their status words |
| ApduBytes.SelectBytes | apps/bolty-cli/src/mock_transport.rs:530-568 | the application and file selections, in bytes |
| Lockstep.ChangeSettingsInstalled | apps/bolty-cli/src/mock_transport.rs:347-380 | a settings change in lockstep installs exactly the sent patch and keeps file type and size |
| Lockstep.ChangeKeyInstalled | apps/bolty-cli/src/mock_transport.rs:384-420 | a key change in lockstep passes the MAC check and installs the sent plaintext |
| Lockstep.SlotKeyStep | apps/bolty-cli/src/mock_transport.rs:407-419 | on a slot other than 0 the whole next state is the old one with that key and version replaced and the counter moved by one |
| Lockstep.MasterKeyStep | apps/bolty-cli/src/mock_transport.rs:401-406 | on slot 0 the key and version are replaced and the session is closed, nothing else changes |
| Lockstep.KeyChangeExact | apps/bolty-cli/src/mock_transport.rs:408-416 | the masked change leaves the new key exactly when the old key was named rightly, and every byte of it is new xor named xor stored |
| Lockstep.KeyChangeReverts | apps/bolty-cli/src/testck.rs:38-76 | a change with the right old key touches that slot alone, and its reverse restores every key and version |
| Lockstep.MasterChangeEndsSession | apps/bolty-cli/src/mock_transport.rs:401-406 | a master change installs key and version and ends the session on both sides |
| Lockstep.CardFileMatchesHistory | apps/bolty-cli/src/mock_transport.rs:456-474 | after any run the card's file is, byte for byte, what the history of its writes and updates says |
| MockTransport.MockTransport.Transmit | apps/bolty-cli/src/mock_transport.rs:592-657 | for every APDU the object's reply and new state are the specified ones, panics included; the members of `ApduBytes` say what those are in bytes |
| MockTransport.MockTransport.constructor | apps/bolty-cli/src/mock_transport.rs:111-131 | a card starts in the given state with nothing selected, pending or open |
| MockTransport.MockTransport.HandleAuthPart1 | apps/bolty-cli/src/mock_transport.rs:207-232 | challenge and pending state as specified |
| MockTransport.MockTransport.HandleAuthPart2 | apps/bolty-cli/src/mock_transport.rs:234-281 | verdict, session and proof as specified, the session keys built by the card's own helpers; in bytes `ApduBytes.ReplyOpensSession` and `ApduBytes.ReplyRefused` |
| MockTransport.MockTransport.HandleChangeFileSettings | apps/bolty-cli/src/mock_transport.rs:347-380 | MAC, decryption, padding and patch as specified, in place; in bytes `ApduBytes.ChangeSettingsBytes` |
| MockTransport.MockTransport.HandleChangeKey | apps/bolty-cli/src/mock_transport.rs:384-420 | both forms of the key change as specified; in bytes `ApduBytes.ChangeKeyBytes` |
| MockTransport.MockTransport.Unmask | apps/bolty-cli/src/mock_transport.rs:408-415 | the unmasking loop computes the exclusive or of the blocks |
| MockTransport.MockTransport.HandleReadData | apps/bolty-cli/src/mock_transport.rs:435-454 | the requested range, or the panic past the end |
| MockTransport.MockTransport.HandleWriteData | apps/bolty-cli/src/mock_transport.rs:456-474 | zero-filled growth and overwrite |
| MockTransport.MockTransport.HandleIsoSelect | apps/bolty-cli/src/mock_transport.rs:530-568 | the selections and their refusals as specified |
| SessionCrypto.SessionVectorAes | apps/bolty-cli/src/mock_transport.rs:672-683 | every byte of the vector that the in-place copies and the mixing loop leave |
| SessionCrypto.DeriveSessionKeys | apps/bolty-cli/src/mock_transport.rs:666-670 | the two keys are those of the specified session |
| SessionCrypto.SessionByVectors | apps/bolty-cli/src/mock_transport.rs:666-683 | the specified session is that of the two vectors byte by byte, and the two vectors never coincide |
| SessionCrypto.VectorDetermines | apps/bolty-cli/src/mock_transport.rs:672-683 | a vector determines its label and, with one random number, the other |
| SessionCrypto.RotatedExactly | apps/bolty-cli/src/mock_transport.rs:234-281 | the rotation is by one byte to the left, index by index |
| SessionCrypto.ComputeCommandMac | apps/bolty-cli/src/mock_transport.rs:695-703 | the MAC built from its parts is the specified one |
| SessionCrypto.CommandMacBytes | apps/bolty-cli/src/mock_transport.rs:691-703 | a command MAC is the odd bytes of the CMAC over code, counter, identifier, header and data, by position |
| SessionCrypto.MacInputDetermines | apps/bolty-cli/src/mock_transport.rs:695-703 | one MAC input stands for one code, counter, identifier, header byte and data |
| SessionCrypto.ComputeResponseMac | apps/bolty-cli/src/mock_transport.rs:705-712 | the MAC of an answer built from its parts is the specified one |
| SessionCrypto.ResponseMacBytes | apps/bolty-cli/src/mock_transport.rs:705-712 | the MAC of an answer is the odd bytes of the CMAC over 00, the next counter, identifier and data, by position |
| SessionCrypto.ComputeIv | apps/bolty-cli/src/mock_transport.rs:750-759 | the IV built in its block is the specified one |
| SessionCrypto.CommandIvBytes | apps/bolty-cli/src/mock_transport.rs:750-759 | the IV is the encryption of the block of A5 5A, identifier, counter and zeros |
| NdefFile.Write | apps/bolty-cli/src/mock_transport.rs:464-469 | size and every byte of the file after a write, gaps zero |
| NdefFile.UpdatesMatchHistory | apps/bolty-cli/src/mock_transport.rs:603-612 | after any updates the size is the furthest write since the last replacement and each byte is what the newest update covering it wrote |
| NdefFile.ReadsMatchHistory | apps/bolty-cli/src/mock_transport.rs:435-508 | an in-range read returns the bytes of the history, by both paths |
| NdefFile.ReadPathsAgree | apps/bolty-cli/src/mock_transport.rs:435-508 | the two read paths agree exactly while the offset is not past the end |
| NdefFile.ReadPastEnd | apps/bolty-cli/src/mock_transport.rs:444-501 | the empty file read at offset 1: one path panics, the other answers with nothing |
| Cbc.DecryptUndoesEncrypt | apps/bolty-cli/src/mock_transport.rs:714-748 | decryption undoes encryption for every key, IV and whole-block text |
| Cbc.EncryptUndoesDecrypt | apps/bolty-cli/src/mock_transport.rs:714-748 | encryption undoes decryption |
| Cbc.EncryptInPlace | apps/bolty-cli/src/mock_transport.rs:714-729 | the in-place loop leaves the chained encryption of the old buffer |
| Cbc.DecryptInPlace | apps/bolty-cli/src/mock_transport.rs:731-748 | the in-place loop leaves the chained decryption of the old buffer |
| Cbc.RoundTripInPlace | apps/bolty-cli/src/mock_transport.rs:714-748 | encrypting and decrypting one buffer in place restores it |
| Cbc.StripM2 | apps/bolty-cli/src/mock_transport.rs:766-775 | finds the one place padding can start, and reports none exactly when there is none |
| Cbc.StripRecovers | apps/bolty-cli/src/mock_transport.rs:766-775 | the data is recovered from its padded form whatever zeros or 0x80 bytes it ends with |
| Bytes.XorCancels | apps/bolty-cli/src/mock_transport.rs:408-415 | masking twice with the same block is the identity |
| Bytes.XorByBit | apps/bolty-cli/src/mock_transport.rs:408-415 | each bit of an exclusive or is set exactly when the two bits differ |
| Bytes.ConstantTimeEq | crates/bolty-core/src/picc.rs:210-216 | the accumulated difference is zero exactly for equal texts |
| AuthBench.AuthRetry.NextDelay | apps/bolty-cli/src/common.rs:71-80 | another attempt is granted exactly ten times |
| AuthBench.Bench.RecordFailure | apps/bolty-cli/src/common.rs:15-26 | counts one failure and ends the process at the tenth |
| AuthBench.Bench.Ladder | apps/bolty-cli/src/wipe.rs:294-313 | for every card and random source: the attempts, answers and verdict are those the card and source make of up to eleven attempts, one after the other while the answer is delay |
| AuthBench.RidesExactly | apps/bolty-cli/src/wipe.rs:294-313 | exhausted exactly when every attempt is answered by delay, settled with an answer exactly when that is the first one that is no delay, without a random number exactly when the source fails before either |
| AuthBench.RidesOnce | apps/bolty-cli/src/wipe.rs:294-313 | what happened before determines the attempts and the verdict |
| AuthBench.DelayRiddenOut | apps/bolty-cli/src/wipe.rs:294-313 | a card that settles within the attempts is taken at its word, however long it delays |
| AuthBench.SlowCardSettles | apps/bolty-cli/src/common.rs:10 | a card that delays a fixed number of times is ridden out exactly when there are more attempts than that |
| AuthBench.RideFailures | apps/bolty-cli/src/wipe.rs:294-313 | a ladder costs the card one failure if it ends in a wrong key and none otherwise |
| WipeCard.CmdWipe | apps/bolty-cli/src/wipe.rs:35-272 | for every card: the attempts are a journey of probes and slot ladders and the result is where it leads, so the mutating call is made exactly when all gates pass and there is a random number for it; a card is wiped only with keys it accepted, all five of a raw set each in its own slot or the first of a derived one, and a card that rejects any of these is never wiped; at most three failures; the recorded failures are the suffered ones exactly when neither factory probe failed; a cooperative card is wiped, delays included |
| WipeCard.CooperativeWiped | apps/bolty-cli/src/wipe.rs:136-272 | a journey with a card that accepts its keys once its delay is over ends in the wipe |
| WipeCard.Approach | apps/bolty-cli/src/wipe.rs:136-260 | probes, then slots in order, then the refused slot if any, and the first closed gate as the result; which slots and keys those are is `WipeCard.GatesNameKeys` and `WipeCard.RejectingNotWiped` |
| WipeCard.JourneyFacts | apps/bolty-cli/src/wipe.rs:136-250 | what such a journey costs: the probes' failures and at most one more |
| WipeCard.ThroughIsPassed | apps/bolty-cli/src/wipe.rs:136-250 | a journey past both probes and through all slots is what the gates demand; `WipeCard.GatesNameKeys` writes the slots out |
| WipeCard.GatesNameKeys | apps/bolty-cli/src/wipe.rs:216-243 | the gates of a raw key set hold an acceptance of each of the five keys in its own slot, those of a derived one an acceptance of its first key in slot 0 |
| WipeCard.RejectingNotWiped | apps/bolty-cli/src/wipe.rs:216-243 | a card that, its delay over, rejects any of those keys in its slot is not wiped |
| WipeCard.RejectingProbes | apps/bolty-cli/src/wipe.rs:137-152 | a card that rejects only the factory key suffers two failures of a wipe and none is recorded |
| WipeCard.FactoryProbes | apps/bolty-cli/src/wipe.rs:136-186 | up to two single attempts with the factory key, cut short exactly by an acceptance or a failed random source, and which of them stops the wipe |
| WipeCard.AuthenticateSlot | apps/bolty-cli/src/wipe.rs:286-314 | one ladder on this slot with this key; passed exactly on acceptance; a wrong key is recorded once and trips the breaker at the threshold |
| WipeCard.AuthenticateSlots | apps/bolty-cli/src/wipe.rs:216-243 | one ladder per slot, in order from slot 0, each accepted; the first refusal ends it with that slot's ladder, recorded once |
| WipeCard.PreVerifyPc | apps/bolty-cli/src/wipe.rs:321-382 | the pre-verification computes its specified verdict |
| WipeCard.PreVerifyExactly | apps/bolty-cli/src/wipe.rs:321-382 | a live URL is let through exactly when it verifies under these keys and names this card or no card |
| WipeCard.LiveDigits | apps/bolty-cli/src/wipe.rs:321-382 | live values are hex text with a digit other than 0 in each |
| BurnCard.BurnWith | apps/bolty-cli/src/burn.rs:73-313 | for every card: the attempts are a journey of ladders (state probe, factory key, given key), each climbed exactly when the one before sends the burn on; the mutating call is made exactly when the journey ends at a key, the last one accepted, and there is a random number for it; at most three failures, two if forced; the recorded failures are the suffered ones exactly when the probe's ladder did not end in a wrong key; blank and rightly keyed cards are burned, delays included |
| BurnCard.SettledBurns | apps/bolty-cli/src/burn.rs:173-313 | where the journeys of blank, rightly keyed and hostile cards lead, once their delay is over |
| BurnCard.SlowBlankCard | apps/bolty-cli/src/burn.rs:173-233 | a blank card that delays is burned exactly when the delay table rides it out |
| BurnCard.CmdBurn | apps/bolty-cli/src/burn.rs:31-59 | where the derivation tells the two UIDs apart, the burned card gets the keys of its own UID exactly when it is the card the keys were derived for; a pinned UID is compared with the second reading only |
| BurnCard.SwappedCard | apps/bolty-cli/src/burn.rs:31-59 | a card swapped in between gets the keys of the other, though its UID was pinned |
| BurnCard.Approach | apps/bolty-cli/src/burn.rs:173-288 | the choice is the destination of the journey, and the key ladders' failures are recorded |
| BurnCard.StateProbe | apps/bolty-cli/src/burn.rs:173-206 | one ladder on slot 0 with the factory key unless forced, nothing recorded, and what each verdict leads to |
| BurnCard.TryKey | apps/bolty-cli/src/burn.rs:212-233 | one ladder on slot 0 with this key, its wrong key recorded, and what each verdict leads to |
| BurnCard.ChooseKey | apps/bolty-cli/src/burn.rs:212-288 | factory ladder first, the given key's ladder exactly when the factory key was rejected below the breaker, and the choice the two verdicts make |
| BurnCard.ChosenWasAccepted | apps/bolty-cli/src/burn.rs:211-299 | a key is chosen only as the last thing the card accepted, with the key set it belongs to |
| BurnCard.JourneyFailures | apps/bolty-cli/src/burn.rs:173-288 | a journey costs one failure for each ladder that ends in a wrong key |
| BurnCard.JourneyExits | apps/bolty-cli/src/burn.rs:212-288 | the process ends exactly when a recorded failure reaches the threshold |
| BurnCard.RejectingCard | apps/bolty-cli/src/burn.rs:173-288 | a card that rejects every key suffers three failures of an unforced burn and two are recorded |
| ScanKeys.CmdScanKeys | apps/bolty-cli/src/scan_keys.rs:11-125 | for every card: one try per candidate, in order, each what the card and random source make of the attempts, up to the first that is accepted, stays delayed for all attempts or trips the breaker, and the report read off the last; at most one failure per candidate and no breaker in a fresh process; the first candidate that opens a card is found, delays included |
| ScanKeys.ListCandidates | apps/bolty-cli/src/scan_keys.rs:34-50 | the seven candidates by place: zeros, the first derived key of versions 0 to 3, sixteen 0x11, the card key of version 1 |
| ScanKeys.Clamp | apps/bolty-cli/src/scan_keys.rs:20 | the number from 1 to 1000 nearest to the one asked for |
| ScanKeys.TryAuth | apps/bolty-cli/src/scan_keys.rs:139-168 | the attempts, answers and verdict are those the card and random source make of the given number of attempts |
| ScanKeys.TryCandidate | apps/bolty-cli/src/scan_keys.rs:57-113 | one candidate with its rejection recorded, and whether the scan goes on |
| ScanKeys.FoundExactly | apps/bolty-cli/src/scan_keys.rs:57-113 | a candidate is found exactly when the card accepted one, and then it is that one, accepted by the last attempt |
| ScanKeys.AbortedExactly | apps/bolty-cli/src/scan_keys.rs:90-101 | the scan is aborted exactly when its last candidate was answered by delay on every attempt |
| ScanKeys.TriesCost | apps/bolty-cli/src/scan_keys.rs:57-113 | a scan costs at most one failure per candidate, and the recorded ones are the 91AE answers |
| ScanKeys.FirstIsFound | apps/bolty-cli/src/scan_keys.rs:57-113 | the first candidate the card accepts once its delay is over is the one reported, unless the breaker stops the scan before |
| ScanKeys.TryFailures | apps/bolty-cli/src/scan_keys.rs:139-168 | a candidate costs one failure if it ends in a wrong key and none otherwise, and one 91AE answer if it is wrong |
| CivilDate.CivilStep | apps/bolty-cli/src/audit.rs:111-121 | the era arithmetic moves exactly one calendar day per day, for every day past and future |
| CivilDate.WallUtcMatchesCalendar | apps/bolty-cli/src/audit.rs:101-123 | date and time are those of the calendar stepped day by day from 1970-01-01 exactly while the seconds fit 63 bits |
| CivilDate.WallUtcWraps | apps/bolty-cli/src/audit.rs:102 | the first second that does not fit gives another date |
| CivilDate.FieldsInRange | apps/bolty-cli/src/audit.rs:101-123 | month, day, hour, minute, second and millisecond are in range on every input |
| CivilDate.WallUtcMonotone | apps/bolty-cli/src/audit.rs:101-123 | later instants have later timestamps, down to the millisecond |
| WallText.TextDeterminesInstant | apps/bolty-cli/src/audit.rs:122 | the formatted text determines the millisecond and has the RFC 3339 width exactly through year 9999 |
| PcdTimer.ArmedExactly | crates/bolty-mfrc522/src/lib.rs:451-468 | an armed timer uses the least sufficient odd divisor, a 16-bit reload, and lasts exactly the requested milliseconds |
| PcdTimer.RefusedExactly | crates/bolty-mfrc522/src/lib.rs:461-463 | refused exactly when no divisor suffices, which is exactly above 39586 ms |
| PcdTimer.FrameWaitArmedInFull | crates/bolty-mfrc522/src/lib.rs:223-256 | for every answer to select built from its parts, the waiting time of the high nibble of TB(1), or of the default 4 without TB(1), is covered by the wait and armed in full |
| PcdTimer.FwiOfAts | crates/bolty-mfrc522/src/lib.rs:245-257 | the waiting time integer of a built answer is the high nibble of its TB(1), with or without TA(1), and none without TB(1) |
| PcdTimer.FwiIsSent | crates/bolty-mfrc522/src/lib.rs:245-257 | every answer in which one is read is an answer built with TB(1) |
| PcdTimer.CutOffArmed | crates/bolty-mfrc522/src/lib.rs:223-256 | an answer that is no such answer waits for the default, in full |
| PcdTimer.DeclaredSeven | crates/bolty-mfrc522/src/lib.rs:223-256 | TB(1) 0x71 behind TA(1) 0x77 gives a wait of 48 ms |
| ConsoleFraming.EventsMatchSpec | apps/bolty-esp32/src/console_framing.rs:48-82 | for every stream and capacity the events are those of splitting at newlines and judging each segment whole |
| ConsoleFraming.LineAssembler.FeedByte | apps/bolty-esp32/src/console_framing.rs:48-82 | one byte does to the assembler what the specified step does, and the line keeps fitting |
| ConsoleFraming.FeedAll | apps/bolty-esp32/src/console_framing.rs:48-82 | a new assembler fed a whole stream delivers exactly the specified events |
| ConsoleFraming.DeliveredLinesAreWhole | apps/bolty-esp32/src/console_framing.rs:48-82 | every delivered line is a whole segment that fits, so no part of an overlong line is delivered |
| ConsoleFraming.SplitJoins | apps/bolty-esp32/src/console_framing.rs:48-82 | the split the specification is stated with loses nothing |
| ConsoleFraming.SplitUnbroken | apps/bolty-esp32/src/console_framing.rs:48-82 | and leaves no newline in a segment |
| ConsoleFraming.WidthIsUtf8 | apps/bolty-esp32/src/console_framing.rs:70-79 | the width a line is judged by is its length in UTF-8 |
| Button.EventsMatchSpec | apps/bolty-esp32/src/button.rs:34-59 | for every timed sample sequence the event of each sample is the one specified by maximal pressed runs |
| Button.PollAll | apps/bolty-esp32/src/button.rs:34-59 | a new debouncer polled with the samples reports exactly the specified events |
| Button.OneEventPerRun | apps/bolty-esp32/src/button.rs:34-60 | a run and its release yield at most one event |
| AuditLog.LogMatchesStamps | apps/bolty-cli/src/audit.rs:162-233 | for every clock and run: one banner, first; a step note exactly at the first stamp more than 1000 ms behind the larger of start and previous stamp; then the entries |
| AuditLog.LogAll | apps/bolty-cli/src/audit.rs:162-305 | a process that logs the operations in order leaves exactly that log |
| AuditLog.BodyShape | apps/bolty-cli/src/audit.rs:204-233 | after the banner there is no other, and one note exactly when some stamp is behind |
| AuditLog.StartIsSecondReading | apps/bolty-cli/src/audit.rs:25 | the start that stamps are judged by is the reading just after the first stamp |
| AuditLog.JudgedByBoot | apps/bolty-cli/src/audit.rs:204-220 | for every reading at process start: the log holds a note as that reading would demand exactly when the stamps step back among themselves or the lowest is behind both references or neither |
| AuditLog.FirstNoted | apps/bolty-cli/src/audit.rs:204-220 | the first operation is noted exactly when the second reading is more than a second ahead of the first |
| AuditLog.BootNotNoted | apps/bolty-cli/src/audit.rs:25 | a clock set back before the first stamp that then stands still is never noted, in any run |
| AuditLog.BootMissed | apps/bolty-cli/src/audit.rs:25 | a process started at 5000 whose clock then stands at 0 notes nothing, although judged by its start it should |
| AuditLog.AuditLog.LogOperation | apps/bolty-cli/src/audit.rs:278-305 | one stamp and then the lines of the operation under it |
| Budget.ParseAudit | apps/bolty-cli/src/budget.rs:47-73 | the loop's counters are the counts of line kinds, in total and since the last wipe |
| BudgetExact.ResponsesByStatus | apps/bolty-cli/src/audit.rs:287-297 | a response line counts by its status word alone, whatever its payload |
| BudgetExact.TransmissionsAreOther | apps/bolty-cli/src/audit.rs:278-284 | a transmission or UID line is never counted, whatever its payload |
| BudgetExact.LineRead | apps/bolty-cli/src/budget.rs:57-70 | a written line is read as the one line it is exactly when its free text does not look like something else and holds no newline |
| BudgetExact.LogRead | apps/bolty-cli/src/budget.rs:47-73 | any log is read line for line for what it is exactly when all its free text is honest and stays on its line |
| BudgetExact.LogCounted | apps/bolty-cli/src/budget.rs:47-73 | the account of a log is that of what its lines record exactly when all its free text is honest and stays on its line: misreading only adds |
| BudgetExact.ReturnDropped | apps/bolty-cli/src/budget.rs:57-58 | a carriage return before a newline goes with it |
| BudgetExact.LineKept | apps/bolty-cli/src/budget.rs:57-58 | any other line is read as it is |
| BudgetExact.ForgedFailure | apps/bolty-cli/src/burn.rs:303-309 | an event text with a status word in it is counted as a failure |
| BudgetExact.BrokenLine | apps/bolty-cli/src/budget.rs:57-58 | a newline in a text breaks its line in two |
| AuditText.EventRead | apps/bolty-cli/src/audit.rs:239-248 | every message of wipe, burn and scan is read as the event it is exactly when the URL or error it quotes is harmless, and only a wipe's success is read as a wipe |
| AuditText.BannerRead | apps/bolty-cli/src/audit.rs:162-184 | a banner is read as a banner exactly when the host and program name it quotes are harmless |
| AuditText.NoteRead | apps/bolty-cli/src/audit.rs:219-229 | a clock note is never read as anything else |
| AuditText.LabelTame | apps/bolty-cli/src/scan_keys.rs:42-50 | the names a scan gives its candidates cannot be taken for anything else |
| AuditTrail.FileCounted | apps/bolty-cli/src/audit.rs:162-323 | for every clock and run: the file is read for what it is, and its account is that of the actions, exactly when banner and actions are harmless |
| AuditTrail.LogAndAccount | apps/bolty-cli/src/budget.rs:47-73 | a process logs its actions, and the reader of its file counts exactly the 91AE and 91AD answers and the wipes, in total and since the last wipe, exactly when nothing was logged or all it quotes is harmless |
| AuditTrail.MessageAction | apps/bolty-cli/src/audit.rs:239-248 | a message of the tool is harmless exactly when what it quotes is |
| Budget.HexTextAt | apps/bolty-cli/src/audit.rs:278-297 | logged bytes are two upper-case digits each, the high one first |
| JobSlot.SharedSlot.Submit | apps/bolty-esp32/src/rest.rs:120-132 | accepted exactly when idle or completed; the id skips 0 |
| JobSlot.SharedSlot.HandleSubmit | apps/bolty-esp32/src/rest.rs:722-742 | the lock section is the submit step of the interleaving, and the id told is one more than the id before |
| JobSlot.SharedSlot.Take | apps/bolty-esp32/src/firmware.rs:677-689 | the lock section is the main loop's take step |
| JobSlot.SharedSlot.Finish | apps/bolty-esp32/src/firmware.rs:704-707 | the lock section is the main loop's finish step |
| JobSlot.StepKeeps | apps/bolty-esp32/src/rest.rs:103-133 | every lock section of every party keeps the invariant that ties the slot to the life of jobs |
| JobSlot.RunKeeps | apps/bolty-esp32/src/firmware.rs:664-708 | every interleaving keeps it |
| JobSlot.RunFacts | apps/bolty-esp32/src/firmware.rs:664-708 | jobs are accepted, dispatched once with the accepted command and completed before the next; a result exactly when completed; id 0 exactly before the first job |
| JobSlot.RunSections | apps/bolty-esp32/src/firmware.rs:664-708 | a slot object whose lock sections run in the order of a schedule goes through exactly that interleaving |
| JobSlot.PolledSlot | apps/bolty-esp32/src/rest.rs:758-777 | a polled slot has a result exactly when completed, equal to the last completion before the poll, and the id of the last accepted job |
| JobSlot.PolledIdNamesJob | apps/bolty-esp32/src/rest.rs:758-777 | below the wrap a polled id that a client was told is that of the client's own job |
| JobSlot.ToldNamesJob | apps/bolty-esp32/src/rest.rs:722-723 | the id told names the job exactly except for the first job after each wrap, and always below it |
| JobSlot.ToldWrong | apps/bolty-esp32/src/rest.rs:722-723 | job 2^32 is told 0 and holds 1 |
| JobSlot.ToldInRuns | apps/bolty-esp32/src/rest.rs:722-742 | in every interleaving the n-th accepted job holds id n, wrapped past 0, and was told it except after a wrap |
| JobSlot.InFlightStays | apps/bolty-esp32/src/rest.rs:120-123 | over any further submits, polls and takes the id, command and missing result of a job in flight stay |
| JobSlot.JobProgresses | apps/bolty-esp32/src/firmware.rs:664-708 | a pending job is taken and completed by the next two main-loop sections under its own id |
| Ota.Server.Handle | apps/bolty-esp32/src/ota_server.rs:104-170 | the boot partition switches only after size gate, authorisation, the exact image and a good end; nothing past the header is read before authorisation; every handle is closed once; with a faultless driver exactly the fitting, authorised, complete pushes switch |
| Ota.Server.FlashImage | apps/bolty-esp32/src/ota_server.rs:142-169 | one handle begun, written and closed, and switched only at the end |
| Ota.Server.StreamImage | apps/bolty-esp32/src/ota_server.rs:42-67 | success wrote exactly the announced bytes in order, in chunks of at most 1024 |
| Ota.Server.ReadHeader | apps/bolty-esp32/src/ota_server.rs:104-140 | accepts exactly the fitting, authorised headers and leaves the stream at the first image byte |
| Ota.HeaderReads | apps/bolty-esp32/src/ota_server.rs:104-140 | a header built from its magic, size and token is read back, whatever follows it: its length, its size, whether it fits, is authorised and complete |
| Ota.Server.Commit | apps/bolty-esp32/src/ota_server.rs:156-169 | switches exactly after a good end and a good switch call |
| Ota.ValidateSize | apps/bolty-esp32/src/ota_header.rs:41-49 | accepts exactly the sizes from 1 to the partition's |
| Ota.AuthorizeMatrix | apps/bolty-esp32/src/ota_header.rs:84-108 | an armed build takes only OTA2 with its token, an unarmed build both header forms and nothing else |
| Ota.WholeLife | apps/bolty-esp32/src/ota_server.rs:142-169 | every handle life in the proved shape closes once, writes what its chunks hold and switches only after a good end |
| Hex.DecodeInto | crates/bolty-core/src/util.rs:30-44 | fills the buffer with what the text spells, or fails with the specified error |
| Hex.EncodeInto | crates/bolty-core/src/util.rs:55-64 | writes the digits of as many bytes as fit and leaves the rest of the buffer |
| Hex.DecodeSpells | crates/bolty-core/src/util.rs:21-44 | a text decodes to some bytes exactly when it spells them, in either case of digit |
| Hex.DigitTable | crates/bolty-core/src/util.rs:21-28 | the sixteen digits in both cases, one by one, and nothing else is a digit |
| Hex.DecodeUndoesEncode | crates/bolty-core/src/util.rs:21-75 | decoding undoes encoding |
| Sun.ExtractPAndC | crates/bolty-core/src/picc.rs:43-60 | one pass finds the last p= and the last c= segment |
| Sun.ParseParam | crates/bolty-core/src/picc.rs:196-202 | a segment replaces the parameter it names |
| Sun.PiccDecryptP | crates/bolty-core/src/picc.rs:64-118 | the fields of the decrypted block by its tag, or nothing |
| Sun.PiccVerifyC | crates/bolty-core/src/picc.rs:158-177 | true exactly when the text spells the truncated MAC of the specified vector; `Sun.VerifyExactly` gives both in bytes |
| Sun.VerifyExactly | crates/bolty-core/src/picc.rs:158-177 | with the vector and MAC given byte by byte, the MAC under the key derived from the vector: exactly the hex text of that MAC is accepted |
| Sun.BuildSv2 | crates/bolty-core/src/picc.rs:123-147 | every byte of both vector forms |
| Sun.PiccOfBlock | crates/bolty-core/src/picc.rs:64-118 | a decrypted block is read as a UID, if any, and a counter exactly when its bytes are the tag of that form, the UID and the counter |
| Sun.PiccParseUrl | crates/bolty-core/src/picc.rs:179-194 | extraction, decryption and verification together; `Sun.ValidUrlExactly` says what they accept |
| Sun.CardUrlParses | crates/bolty-core/src/picc.rs:43-216 | a URL as a card writes it, given in bytes, with p= and c= in any order among other segments, parses as valid with exactly that UID (or none) and counter |
| Sun.ValidUrlExactly | crates/bolty-core/src/picc.rs:179-194 | a URL is valid exactly when its bytes are those of such a URL |
| Sun.SplitUndoesJoin | crates/bolty-core/src/picc.rs:43-54 | the segments found are exactly those joined |
| Sun.JoinUndoesSplit | crates/bolty-core/src/picc.rs:43-54 | every URL is its segments joined by its separators |
| Sun.SessionVectorsCoincide | crates/bolty-core/src/picc.rs:123-147 | the two vector forms coincide exactly when the UID form has counter 0, its last four UID bytes are 0 and the first three are the other counter |
| Sun.SessionVectorDetermines | crates/bolty-core/src/picc.rs:123-131 | the UID form determines UID and counter |
| Json.JsonErrHint | apps/bolty-esp32/src/rest.rs:1029-1037 | the body is the pushes in order, each keeping what fits |
| Json.Buffer.PushEscapedJson | apps/bolty-esp32/src/rest.rs:1058-1070 | appends escaped characters until one does not fit, and reports success exactly when all of the escaped text is there |
| Json.ExtractJsonString | apps/bolty-esp32/src/rest.rs:1125-1147 | the scan loop returns the text up to the first unescaped quote of the first occurrence of the key |
| Json.UnescapeUndoesEscape | apps/bolty-esp32/src/rest.rs:1058-1070 | unescaping recovers every text |
| Json.EscapeLegal | apps/bolty-esp32/src/rest.rs:1058-1070 | the escaped text is a legal JSON string exactly when the text has no control character other than newline, carriage return and tab |
| Json.EscapeIllegal | apps/bolty-esp32/src/rest.rs:1058-1070 | such a text is a single 0x01 |
| Json.ErrorField | apps/bolty-esp32/src/rest.rs:1125-1147 | whatever follows the head of a body, its error field is what stands there |
| Json.HintField | apps/bolty-esp32/src/rest.rs:1125-1147 | whatever the message says, the hint field is found behind the real key |
| Json.NoHintField | apps/bolty-esp32/src/rest.rs:1125-1147 | a body that lost its hint key has no hint field |
| Json.FieldsReadBackExactly | apps/bolty-esp32/src/rest.rs:1029-1147 | both fields read back as the escaped texts, and unescape to the originals, exactly when the body fits its buffer |
| Json.OverlongBody | apps/bolty-esp32/src/rest.rs:1029-1037 | a message as long as the buffer loses a field |

## Left out

- AES and CMAC internals, and any claim about cryptographic strength: the primitives are parameters.
- The burn and wipe procedures of `bolty_ntag`, the chip preflight and NDEF parsing: abstract steps with arbitrary results.
- The randomness of the card's challenge: the mock's challenge is a constant, and so it is here.
- The card's APDU log, `set_uid`, `replace_ndef` and the factory-default constructor: settled by reading one line each; the UID is the constant one.
- What the second factory probe of a wipe reads when it is accepted: the model only stops there.
- WipeCard.PreVerifyPc: lets a URL without p= and c=, with placeholders or with zeros through unverified, as the source does; only live values are bound to the card.
- Issuer key derivation: any function from UIDs to key sets.
- The clamp of `attempts` is modelled; the half-second pause between candidates, all sleeping and all printed text are not.
- The count of recorded failures is unbounded here; the 32-bit counter cannot wrap before the breaker ends the process.
- PcdTimer.ArmedExactly: models the arithmetic as it is mirrored in the reader crate; the driver itself is not part of this model.
- PcdTimer.FrameWaitArmedInFull: models the formula of builds without the standard library; the other build takes the waiting time from the `iso14443` crate.
- The activation retry loop of the reader and response splitting: bounded loops over an abstract transceiver.
- How the banner finds the last entry of other writers, and file errors of the audit log: how far ahead that entry is, the host, the program and the process id are parameters.
- The messages of the commands other than wipe, burn and scan.
- The wording of logged texts beyond what the budget reader can find in them: the texts are transcribed, and the theorems about them say what they are read as.
- The rate limiter, the other REST handlers, request parsing and mutex poisoning.
- Budget.ParseAudit: text is a sequence of characters, so UTF-8 decoding of the log file is not modelled.
- Sun.ExtractPAndC: a URL is the sequence of its UTF-8 bytes; separators and names are ASCII, so the byte and the character reading cut at the same places.
- The flag tests of tag 0xC7 in `picc_decrypt_p`, which cannot fail for that tag.
- The build-time update token and its length test: the expected token is a parameter.
- Socket timeouts of the update server: a stalled client is one whose stream ends.
- Display, BLE, WiFi, TLS, storage, GPIO and board code, the PCSC transport, the bench tooling and the card classification tables.
