# A model of stprov's provisioning protocol

`stprov remote` runs an HTTPS server on a platform that is being provisioned; `stprov local` connects to it,
adds entropy, optionally provisions Secure Boot keys, and commits. The server then derives a unique device
secret, tells the client the public half of the SSH host key that follows from it, shuts down, and the host key
is persisted. This project models that protocol, the codec of the persisted key, the firmware side, and the
number and text algorithms around them, and proves what they promise.

`dafny verify dfyconfig.toml` checks the whole project.

## The parts

| file | module | about |
|---|---|---|
| `Base.dfy`, `Bits.dfy`, `Fmt.dfy`, `Wire.dfy` | same names | octets and results; bitwise and big-endian arithmetic; number formats; marshalled structures over the wire types of section 5 of RFC 4251 |
| `HostKey.dfy` | `SshKey` | writer and reader of the OpenSSH private key format |
| `Secrets.dfy` | `Secrets` | derivations over uninterpreted HKDF and Ed25519 |
| `Netmask.dfy`, `Gateway.dfy` | same names | membership in networks; `MaxHost` and the gateway choice |
| `Efi.dfy` | `Efi` | Secure Boot variables and OsIndications |
| `Handler.dfy` | `Handler` | the request handlers as atomic steps, and the server object whose methods are those steps run alone |
| `Machine.dfy` | `Machine` | all handlers, `await` and `stprov remote` interleaved |
| `Safety.dfy`, `Persistence.dfy`, `Received.dfy`, `Agreement.dfy`, `Liveness.dfy`, `Erasure.dfy`, `SecureBoot.dfy` | same names | theorems about every schedule of the machine |
| `Local.dfy` | `Local` | `stprov local` against an otherwise unused server |
| `Hexify.dfy`, `Links.dfy`, `Flags.dfy` | same names | the hex dump, the link order, list options and CIDR decoding |

## The server as a machine

One move of the machine is one access to shared memory or to the commit channel. A handler stores the timestamp,
copies the 32 bytes of `Entropy` one at a time, reads them one at a time, stores `UDS`, sends its token, writes one
firmware variable. Any number of handlers can be in flight, each with its own program counter; the goroutine of
`await` and the one of `stprov remote` (serving, closing the channel, waiting, reading `UDS`, persisting) have
theirs. The channel is a count and a closed flag; a send on the closed channel panics, which ends that handler
without an answer. A schedule is a sequence of moves, and every theorem about the machine quantifies over all
schedules from the start.

The memory model is sequentially consistent. Assumed of net/http: `ListenAndServeTLS` returns `ErrServerClosed`
only once `Shutdown` was called; a `Shutdown` that completes leaves no handler in flight, and none arrives later;
a panicking handler is confined to its request. Assumed of the firmware: an accepted write of PK leaves setup mode
(section 32.3 of the UEFI Specification 2.11); reads and writes may fail, and how they turn out for a request
(`Efi.Answers`) is an arbitrary part of that request's environment, as are its random bytes and whether its
response can be written. HKDF (section 2 of RFC 5869), Ed25519 and the printing of public keys are arbitrary
functions, parameters of every statement that mentions them (`Secrets.Primitives`); nothing is claimed about
secrecy or collisions.

The server's fields are those of the class `Handler.Server`, and each of its methods is proved to have the outcome
of its handler's steps run without interference (`RunAlone`). `Persistence.AloneIsASchedule` makes such a run a
schedule of the machine, so that the object and the machine are one model.

## What is false of the code, and when exactly it holds

- A written key reads back exactly when its private key has 64 bytes and its private block is shorter than 2^32
  bytes (`SshKey.RoundTrip`). A longer block is refused by the reader.
- Rewriting what was read gives the same input exactly when that input was in normal form, and reads to the same
  key exactly when the rewritten block's length fits (`SshKey.NormalForm`): the reader accepts non-empty KDF
  options, any number of keys, any public keys and longer padding.
- `MaxHost` of an IPv6 network whose last address is a number of 25 to 32 bits is emitted in four bytes, read back
  as an IPv4 address and accepted as gateway without force, outside the network
  (`Gateway.LastAddressOutsideNetwork`: ::1/96 gets 255.255.255.254; `Gateway.LastAddressExactly`: exactly when).
- `Run` can return nil without any secret, which then crashes the derivation of the host key, but only when it was
  the cancellation of its context that released `await`, and no commit had stored (`Persistence.MissingSecretExactly`,
  `Persistence.CancelledRunCanLeaveNone`). `stprov remote` itself cancels only when it leaves `listen`, after `Run`
  has returned, and then no nil secret is met whatever follows (`Persistence.SuccessfulRunLeavesSecret`).
- The client that commits holds the persisted key in every schedule in which its commit is the only one that is
  accepted and gets its random bytes and its response written (`Persistence.OnlyCommitIsTold`). Any two such commits
  whose secrets have different public keys have a schedule, without cancellation or failure, in which the client
  that was answered OK does not hold the persisted key (`Persistence.AnsweredClientCanHoldOtherKey`). The persisted
  key was always told to the client of the commit that stored last (`Persistence.PersistedKeyWasTold`), but that
  client may get no answer.
- The server holds the data of exactly the last add-data request answered OK in every schedule in which none starts
  to store while another is copying (`Received.DataIsWhole`). Any two accepted requests that differ in the first
  byte and in the others can overlap, both be answered OK, and leave entropy that neither sent
  (`Received.OverlappingDataMixes`). A commit that overlaps the copying mixes a part of the data
  (`Agreement.OverlappingCommitReadsPart`).
- The order of Secure Boot writes holds when provisioning requests do not overlap and SetupMode can be read.
  Without the first, two requests both write PK (`SecureBoot.OverlappingRequestsWriteTwice`); without the second, a
  platform that has left setup mode is written again (`SecureBoot.UnreadableSetupModeWritesAgain`), although the
  comment on `Provision` says that setup mode is required.

## Model

| member | source | states |
|---|---|---|
| `Safety.Invariant` | internal/api/server.go:68-114 | In every state of every schedule: wg counts the awaiting goroutine, the channel is closed exactly once Run has closed it, sends are receives plus buffered tokens, UDS is the last recorded store, each store was made once by a commit that had told its client about the stored secret, and what stprov remote read is the last store before its read |
| `Safety.StepAndStore` | internal/api/handler.go:163-183 | A commit's client has been told about the secret that it stores when it stores it, the store comes before its send, and only an open channel lets it finish |
| `Safety.HandledIsAuthorized` | internal/api/handler.go:26-101 | In every schedule, a request past the gates, or told anything, came with its endpoint's verb, from an allowed network, and with the user "example-user" and the derived password |
| `Persistence.SuccessfulRunLeavesSecret` | subcmd/remote/run/run.go:104-129 | When Run returns nil with its context not cancelled until then, UDS was stored by an authenticated commit whose send completed; and in every continuation, the cancellation on leaving listen included, a secret is held and no nil one is derived from |
| `Persistence.MissingSecretExactly` | subcmd/remote/run/run.go:104-129 | In every schedule, the secret that was read is missing exactly when no commit had stored before the read, and that takes a cancellation that released await |
| `Persistence.CancelledRunCanLeaveNone` | internal/api/server.go:108-114 | After a cancellation Run can return nil with no secret stored, and deriving the host key then fails |
| `Persistence.PersistedKeyWasTold` | subcmd/remote/run/run.go:47-53 | Whatever the schedule, the persisted key is that of the last commit to store before the read, its client was told the public half of that key, and the written bytes read back as it; after a completed shutdown that commit is the last of all |
| `Persistence.OnlyCommitIsTold` | internal/api/handler.go:163-183 | With one commit that is accepted and gets its random bytes and its response written, among any other requests in any order, a persisted key is the one that its client was told |
| `Persistence.TokensAreConserved` | internal/api/server.go:63 | Completed sends are receives plus buffered tokens, at most two in all, and are exactly the commits that finished |
| `Persistence.FirstSendGoesThrough` | internal/api/handler.go:180-181 | The first commit to reach its send never blocks, and meets a closed channel only after a cancellation or a listener failure |
| `Persistence.ShutdownIsCalledOnce` | internal/api/server.go:79-89 | The callback of await runs at most once, and exactly once by the time Run has returned, with the channel closed |
| `Persistence.AnsweredClientCanHoldOtherKey` | internal/api/handler.go:176-181 | Any two accepted commits that can store secrets with different public keys have an uncancelled schedule with a completed shutdown in which the client answered OK does not hold the persisted key |
| `Persistence.AloneIsASchedule` | internal/api/handler.go:26-43 | A handler run without interference is a schedule of the machine that leaves all else alone |
| `Agreement.AgreeAlways` | internal/api/handler.go:118-119 | With one client, at every step, Entropy and Timestamp hold what add-data has copied so far, and the commit has read what is there |
| `Agreement.PersistedKeyIsTheClients` | subcmd/local/run/run.go:71-90 | With one client's add-data answered before its commit arrives, and any number of other requests that change no state, commits answered with an error included: the server's entropy and timestamp are the client's, UDS is the one secret ever stored, byte for byte the HKDF output for local entropy followed by the client's, and the key told to the client is the persisted one |
| `Agreement.InOrderExactly` | subcmd/local/run/run.go:71-81 | The record of what was answered when a request arrived agrees with the schedule |
| `Agreement.HonestClientSucceeds` | subcmd/local/run/run.go:71-85 | For any accepted data and commit there is a schedule from the start to a completed shutdown and a persisted key in which both are answered OK, one after the other |
| `Agreement.OverlappingCommitReadsPart` | internal/api/handler.go:118-164 | When the commit does not wait for the data, both requests can be answered OK, the server end with the client's data, and the persisted secret be mixed from its first byte only |
| `Received.DataIsWhole` | internal/api/handler.go:103-121 | In every schedule in which no add-data request starts to store while another is copying: whenever none is copying, Timestamp and Entropy are zeros if none has copied its last byte, and otherwise exactly those of the last one that did, which was answered OK |
| `Received.WholeAlways` | internal/api/handler.go:118-119 | The inductive form: at any time they are the last request's, overwritten as far as the one that is copying has got |
| `Received.OverlappingDataMixes` | internal/api/handler.go:118-119 | Any two accepted add-data requests that differ in the first byte and in the others can overlap, both succeed, and leave entropy that is neither's |
| `Liveness.MovesDecrease` | internal/api/server.go:68-94 | Every move but the arrival of a request decreases one measure |
| `Liveness.NoDeadlock` | internal/api/server.go:68-94 | After a completed send, a cancellation or the listener's return, every further schedule without arrivals is no longer than the measure and, short of the return of Run, can go on without any timeout; Run's outcome is the listener's |
| `Liveness.RunReturns` | internal/api/server.go:69-94 | From every state satisfying the invariant in which a commit has sent, the context is cancelled or the listener has returned, there is a schedule, without timeouts, further cancellation or listener failure and bounded by the measure, at whose end Run has returned with the listener's outcome |
| `Liveness.Progress` | internal/api/server.go:80-89 | Until Run returns from such a state some goroutine can move: await takes the token or sees the cancellation, and closing before waiting is what releases it otherwise |
| `Erasure.RefusedRequestsAreInvisible` | internal/api/handler.go:26-43 | Deleting from any schedule all moves of requests that ended without effect leaves a schedule that leads to the same state but for them: Entropy, Timestamp, UDS, channel, firmware variables, other clients' answers, persisted key |
| `Erasure.RefusalsAreExactlyWithoutEffect` | internal/api/handler.go:26-153 | Among the ways a request alone can end, the refusals are exactly those without effect; every request stopped by a gate or by add-data's validation is one |
| `SecureBoot.ProvisioningIsOrdered` | internal/sb/sb.go:41-63 | From setup mode, with SetupMode readable and no request starting to write while another is at it, in every schedule: the variables written form a prefix of PK, KEK, db, dbx, only the request that wrote PK attempts any write after it, and a request answered OK wrote each of its blobs to its own variable, where it still is |
| `SecureBoot.NoOverlap` | internal/api/handler.go:136-154 | When no request enters while another writes, no overlap is recorded, which is what the inductive form assumes |
| `SecureBoot.TurnsAlways` | internal/api/handler.go:123-161 | The inductive form: the platform is in setup mode exactly while nothing was written, and the one provisioning handler is where the writes are |
| `SecureBoot.UnreadableSetupModeWritesAgain` | internal/api/handler.go:136-143 | Out of setup mode, a well-formed request is refused exactly when it can read SetupMode; otherwise it replaces PK if the firmware accepts |
| `SecureBoot.OverlappingRequestsWriteTwice` | internal/api/handler.go:136-154 | Two overlapping requests that both find setup mode both write PK |
| `Handler.GateExactly` | internal/api/handler.go:26-101 | Exactly which requests pass the gates: their own verb, an address in some allowed network, and the right user and password; the others get 405 or 400, 500, and 403, in that order |
| `Handler.UnauthorizedIsRefused` | internal/api/handler.go:26-101 | Any other request is refused, told nothing, and leaves memory unchanged |
| `Handler.AnswersAlone` | internal/api/handler.go:103-183 | How an authorized request is answered, with its status: 32 bytes of entropy and no negative timestamp; a setup mode that does not read as 0, PK, KEK and db present, and accepted writes; random bytes and a written response |
| `Handler.AddDataAlone` | internal/api/handler.go:103-121 | An accepted add-data request stores exactly its timestamp and entropy |
| `Handler.CommitAlone` | internal/api/handler.go:163-183 | A commit tells about and then stores the secret mixed from local and stored entropy in that order, then sends, panics on a closed channel or waits on a full one |
| `Handler.ProvisionAlone` | internal/api/handler.go:125-160 | A request's firmware writes alone are those of Provision followed, whatever came of it, by the reboot request if it asked for one |
| `Handler.Server.constructor` | internal/api/server.go:39-66 | Zero entropy, no secret, empty open channel, password derived from the shared secret |
| `Handler.Server.VerifyMethod` | internal/api/handler.go:47-61 | Passes exactly the endpoint's own verb; another known verb gives 405, an unknown one 400 |
| `Handler.Server.VerifyNetwork` | internal/api/handler.go:64-85 | Passes exactly when some allowed network contains the address; 500 for an unparsable address, otherwise 403 |
| `Handler.Server.AuthenticateUser` | internal/api/handler.go:88-101 | Passes exactly the fixed user with the derived password |
| `Handler.Server.HandleAddData` | internal/api/handler.go:103-121 | The object's new memory and outcome are those of the handler's steps run alone |
| `Handler.Server.HandleAddSecureBoot` | internal/api/handler.go:123-161 | The same, with the firmware's variables |
| `Handler.Server.HandleCommit` | internal/api/handler.go:163-183 | The same, with UDS, the channel and the response |
| `Handler.Server.ServeHTTP` | internal/api/handler.go:26-43 | The gates in order, then the endpoint's handler; a request without its verb, an allowed address or the right credentials is refused, told nothing, and changes nothing |
| `Local.ProvisionPlatform` | subcmd/local/run/run.go:71-91 | The client's run succeeds exactly when both sides derive the same password, its address is allowed, its data is valid, provisioning succeeds if asked for, and the commit gets through an open empty channel; then the server holds its data, the firmware holds its keys or is as before, and it was told about the stored secret |
| `Local.SecureBootAlone` | internal/api/handler.go:123-161 | An add-secure-boot request alone is answered OK exactly when the mode is not known to be set, the request is complete and all its writes are accepted; it touches only the firmware |
| `Local.ProvidedExactly` | internal/api/handler.go:145-160 | The client's keys are each in their own variable, and the reboot is asked for exactly when the client wants it |
| `Secrets.ReadersAreSeparated` | internal/secrets/secrets.go:38-42 | Readers with different labels or contexts feed HKDF a different salt or info |
| `Secrets.DerivedKeyReadsBack` | internal/secrets/secrets.go:76-79 | Every derived host key reads back from its writing, ends in the public key of its seed, and is the key that the response names |
| `Secrets.Reader.ReadFull` | internal/secrets/secrets.go:38-42 | Consecutive reads give consecutive windows of one output, and fail past its limit |
| `Secrets.NewUniqueDeviceSecret` | internal/secrets/secrets.go:49-58 | Byte i of the secret is byte i of HKDF for local entropy followed by external entropy, with salt "1" and info "stprov:uds"; or an error when there is no local entropy |
| `Secrets.SecretBytes` | internal/secrets/secrets.go:49-58 | The same of the secret that every theorem names |
| `Secrets.HostKeyBytes` | internal/secrets/secrets.go:76-79 | The host key is the first 32 bytes of the stream "stprov:uds:ssh" and their public key, its check value the next four bytes, its comment fixed |
| `Secrets.ResponseBytes` | internal/api/api.go:71-101 | A response names that public key in the public key format and prints the streams for authentication and identity in lower-case hex |
| `Secrets.PasswordBytes` | internal/secrets/secrets.go:86-98 | The password prints the stream of the one-time password, which is that of the shared secret |
| `Secrets.BelongsToBytes` | internal/ssh/ssh.go:50-75 | A response belongs to a key exactly when it names the key's last 32 bytes in the public key format |
| `Secrets.NewHostKey` | internal/ssh/ssh.go:34-48 | Seed and check value are the next 32 and then 4 bytes of the stream |
| `Secrets.NewCommitResponse` | internal/api/api.go:71-101 | Public key, fingerprint, authentication and identity all come from the one secret |
| `SshKey.RoundTrip` | internal/ssh/ssh.go:98-223 | For every key with a public half to take, read of write returns the key exactly when the private key has 64 bytes and the private block fits 32 bits of length |
| `SshKey.AcceptedLanguage` | internal/ssh/ssh.go:173-223 | The reader accepts exactly the renderings of well-formed parts and recovers the parts |
| `SshKey.BlockLanguage` | internal/ssh/ssh.go:192-219 | The same for the private block: equal checks, the one key type, 64 bytes, padding that counts up |
| `SshKey.NormalForm` | internal/ssh/ssh.go:98-223 | What is read and written again equals the input exactly when it has no KDF options, one key, both public copies from the private key and minimal padding; and reads to the same key exactly when the new block fits |
| `SshKey.AcceptedLanguageIsPrefixFree` | internal/ssh/ssh.go:179-222 | No accepted input is a strict prefix of another |
| `SshKey.WrittenKeysAreTight` | internal/ssh/ssh.go:179-222 | No strict prefix and no strict extension of a written key is accepted |
| `SshKey.EncodeIsInjective` | internal/ssh/ssh.go:98-148 | Writings that start alike are writings of the same key |
| `SshKey.LongBlockIsRefused` | internal/ssh/ssh.go:127-148 | A private block of 2^32 bytes or more is written with a truncated length, and refused |
| `SshKey.PaddingIsLeast` | internal/ssh/ssh.go:266-293 | The padding from the constant 119 is the only one below 8 bytes, and the shortest of all, that makes the whole private block a multiple of 8 |
| `SshKey.PaddingIsBounded` | internal/ssh/ssh.go:210-214 | Padding that the reader accepts has at most 255 bytes |
| `Wire.U32Bytes` | internal/ssh/ssh.go:108-134 | Numbers and lengths are written most significant byte first |
| `Wire.UnmarshalExact` | internal/ssh/ssh.go:184-206 | For any structure of numbers, strings and at most a last rest field: unmarshalling gives some fields exactly for the bytes that they are marshalled to, if their lengths fit |
| `Wire.MarshalIsPrefixFree` | internal/ssh/ssh.go:235-242 | Without a rest field, marshalled structures start alike only when they are the same |
| `Wire.LongLastIsRefused` | internal/ssh/ssh.go:132-140 | A last string too long for its length field leaves bytes over, which unmarshalling refuses |
| `SshKey.UnmarshalAuthBodyExact` | internal/ssh/ssh.go:235-242 | Unmarshalling the outer structure inverts marshalling in both directions, with bytes left over refused |
| `SshKey.UnmarshalKeyBodyExact` | internal/ssh/ssh.go:248-253 | The same for the private block's frame, whose last field takes the rest |
| `SshKey.UnmarshalEd25519KeyBodyExact` | internal/ssh/ssh.go:259-264 | The same for the Ed25519 fields |
| `SshKey.HostKey.AddPad` | internal/ssh/ssh.go:289-293 | The loop ends with fewer than 8 bytes counting up, and any private block with that comment is then a multiple of 8 |
| `SshKey.HostKey.Write` | internal/ssh/ssh.go:98-148 | The object writes the encoding of its key, whose bytes are those of `SshKey.EncodeBytes` |
| `SshKey.EncodeBytes` | internal/ssh/ssh.go:98-148 | The bytes of a written key, one by one: magic, names, no options, one key, the public key blob, and the private block with equal checks, type, both halves, comment and padding, each text behind its big-endian length |
| `SshKey.RenderBytes` | internal/ssh/ssh.go:225-264 | The same for any parts, and so, with `SshKey.AcceptedLanguage`, for everything that the reader accepts |
| `SshKey.PublicBlobBytes` | internal/ssh/ssh.go:120-132 | The public key blob of section 4 of RFC 8709, byte by byte |
| `SshKey.HostKey.Read` | internal/ssh/ssh.go:173-223 | The object takes over the decoded key, or keeps its own and reports which check failed |
| `SshKey.HostKey.ReadBlock` | internal/ssh/ssh.go:192-222 | The checks of the private block in order, with the padding loop |
| `Netmask.SameMaskedIsSameQuotient` | internal/options/options.go:202 | Bytewise mask-and-compare is equality of the numbers without their host bits |
| `Netmask.ContainsIsInterval` | internal/options/options.go:202 | Membership is the interval of 2^h numbers from the base on |
| `Netmask.MappedAddressCounts` | internal/api/handler.go:71-81 | An IPv4 address held in sixteen bytes is a member exactly when its four bytes are |
| `Netmask.NetworkFitsWidth` | internal/options/options.go:30-47 | The interval lies within the address family |
| `Bits.OrFillsLowBits` | internal/options/options.go:38-41 | Or of the host mask and a masked base is base + 2^h - 1 |
| `Gateway.MaxHost` | internal/options/options.go:30-48 | The emitted bytes denote the network's base plus 2^h - 2, or plus 1 for an IPv4 /31 |
| `Gateway.LastUsableIsGreatest` | internal/options/options.go:42-46 | That is the greatest member but the broadcast address, or the greatest of an IPv4 /31 |
| `Gateway.MaxHostEmission` | internal/options/options.go:30-48 | That number is in the network; its bytes have the network's length, and are a member, exactly when its top octet is not zero |
| `Gateway.ValidateHostAndGateway` | internal/options/options.go:187-234 | The validator's branches give the specified verdict, with force and without |
| `Gateway.AcceptedChoices` | internal/options/options.go:187-234 | For any leading octet, with force and without, exactly which explicit, last-address and default choices are accepted, and which address is returned |
| `Gateway.AcceptedGateway` | internal/options/options.go:187-234 | An accepted gateway differs from the host, for any leading octet, and lies in its network but for exactly two cases: the default of a full-length prefix, and a last address of an IPv6 network that looks like an IPv4 address |
| `Gateway.FullLengthPrefix` | internal/options/options.go:197-231 | With a full-length prefix explicit and last-address choices are refused, and the default succeeds, with the next address, exactly when the host is not all ones |
| `Gateway.LastAddressExactly` | internal/options/options.go:210-211 | When the last address is accepted inside the network, and when outside |
| `Gateway.LastAddressOutsideNetwork` | internal/options/options.go:30-48 | ::1/96 is given 255.255.255.254 |
| `Efi.ProvisionedIsPrefix` | internal/sb/sb.go:47-63 | The variables written are those before the first refusal, each with its own blob, the others untouched; success means all of the request's |
| `Efi.ProvisionedExactly` | internal/sb/sb.go:47-63 | Provisioning succeeds exactly when PK, KEK, db and any non-empty dbx are accepted, and then each holds its own blob; nothing is written without PK |
| `Efi.OnlyTheLowestBitChanges` | internal/sb/sb.go:67-83 | The little-endian read-modify-write changes only the lowest bit of the first byte |
| `Efi.RebootIsRequestedOnce` | internal/sb/sb.go:67-87 | The request sets that bit of an eight-byte variable or of a missing one, succeeds exactly when the bit is then set, and repeating it changes nothing |
| `Efi.Firmware.IsSetupMode` | internal/sb/sb.go:27-39 | True exactly for a readable variable of the one byte 1, false exactly for the one byte 0, otherwise an error |
| `Efi.Firmware.Provision` | internal/sb/sb.go:47-63 | The authenticated writes in order up to the first refusal; on success each of the four variables holds its own blob |
| `Efi.Firmware.RequestRebootIntoUEFIMenu` | internal/sb/sb.go:67-87 | The variables after the request, and whether it returns an error |
| `Hexify.Format` | internal/hexify/hexify.go:10-38 | The flat loop with its reused buffer prints the line-by-line dump |
| `Hexify.DumpDecodes` | internal/hexify/hexify.go:10-38 | A decoder recovers every input from its dump |
| `Hexify.LineAt` | internal/hexify/hexify.go:14-36 | While offsets stay below 10000, line k has 73 characters, shows bytes 16k to 16k + 15 alone, and ends at its only line end |
| `Hexify.LineShows` | internal/hexify/hexify.go:14-35 | A line is its offset, sixteen columns of two upper-case hex digits in two groups of eight, and the bytes as text with a dot for what is not printable; columns past the end are blank |
| `Hexify.Pad4Digits` | internal/hexify/hexify.go:15-17 | Offsets below 10000 are right-justified in four characters |
| `Hexify.DumpLength` | internal/hexify/hexify.go:13-36 | And there are ceil(n / 16) such lines |
| `Links.LinksByDescendingSpeed` | internal/network/network.go:143-158 | The array ends as a permutation of itself in descending order, stable, and the links are its projection |
| `Links.StableOrderIsUnique` | internal/network/network.go:144-152 | There is one stable descending order, so any stable sort gives it |
| `Links.StableOrderIsPermutation` | internal/network/network.go:144-152 | It is a permutation of what was found |
| `Links.FirstIsEarliestFastest` | internal/network/network.go:141-158 | Its first element is the earliest found among the fastest |
| `Flags.SliceFlag.Default` | internal/options/options.go:114-121 | A non-empty default is split and does not count as set |
| `Flags.SliceFlag.Set` | internal/options/options.go:96-104 | The first explicit value bins the default, later ones append their splits |
| `Flags.Repeated` | internal/options/options.go:96-121 | Repeating an option equals giving it once with the arguments joined by commas, whatever the default |
| `Flags.SplitConcat` | internal/options/options.go:102 | A separator between two texts splits into the splits of the two |
| `Flags.SplitOfJoin` | internal/options/options.go:102 | Splitting a joined list gives the splits of its parts |
| `Flags.JoinOfSplit` | internal/options/options.go:102 | Joining what was split gives the text back |
| `Flags.DecodeSafeCIDR` | internal/options/options.go:239-254 | The last 'm' of a text without a slash becomes one, anything else stays |
| `Flags.DecodingIsIdempotent` | internal/options/options.go:239-254 | That determines the result, and decoding again changes nothing |
| `Flags.DecodingUndoesMaskLetter` | internal/options/options.go:236-254 | Writing 'm' for the only slash is undone exactly when no 'm' follows it |

## Left out

- Run, await and stprov remote's main goroutine as objects: Dafny has no goroutines, so their interleaving is a state
  machine over values; in-place update is kept for the server's own fields (`Handler.Server`).
- Weaker memory orders: memory is sequentially consistent, while Go promises less for the unsynchronised accesses to
  Entropy, Timestamp and UDS.
- `Liveness.NoDeadlock`: bounds schedules without new arrivals only; clients that keep sending requests before the
  shutdown completes are not bounded by the program either.
- `Liveness.RunReturns`: a handler that is merely slow is not distinguished from one that steps; deadlines and
  timeouts are nondeterministic events without durations.
- `SecureBoot.ProvisioningIsOrdered`: assumes a readable SetupMode and requests that do not overlap, because without
  either it is false, as the two lemmas beside it show.
- `Agreement.PersistedKeyIsTheClients`: assumes that the client's two requests are the only accepted ones that change
  state and come one after the other, because without that it is false, as `Received.OverlappingDataMixes`,
  `Persistence.AnsweredClientCanHoldOtherKey` and `Agreement.OverlappingCommitReadsPart` show.
- `SshKey.RoundTrip`: needs 32 bytes of private key to take the public half from; with fewer the source panics.
- `SshKey.AcceptedLanguage`: lengths are compared as unbounded numbers; the library compares them with the remaining
  length truncated to 32 bits, which differs for inputs of 4 GiB or more.
- `Secrets.PasswordBytes`: a shared secret is a text of 8-bit characters; the encoding of others is not modelled.
- `Gateway.AcceptedChoices`: starts from parsed addresses in canonical form, so IPv4-mapped text, prefix lengths
  appended to gateway text and the text forms of addresses are not modelled.
- `Links.LinksByDescendingSpeed`: the library's stable sort is replaced by insertion sort, which
  `Links.StableOrderIsUnique` shows to make no difference to the result.
- TLS, X.509, PEM, JSON and HTTP: a request is what they deliver, with parts that fail to parse absent; that an HTTP
  client may send a GET again on a lost connection appears only as a second commit request.
- The keys and certificates derived from the one-time password: their construction is library code.
- efivarfs and UUID handling: replaced by a map of variables whose reads and writes may fail.
- Authentication of firmware variables by the firmware itself: whether a signed blob is accepted is a free choice.
- Host configuration, host name and trust policy handling, netlink, ping, interface set-up and sysfs speeds: device I/O.
- Command-line parsing, logging, URL checks and the operator's confirmation text: user interface.
