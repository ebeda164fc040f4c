# Dmail: a verified model

Dmail is a peer-to-peer mail daemon. A message is packed into a protobuf packet, encrypted for its
recipient, stamped with a proof of work, signed, and put into a DHT or handed to the recipient's
server; on the receiving side it waits as a pending packet until its user's key can open it. Users on
the same server are served by one daemon with one SQLite database, in which every message key is
`userID:messageID`. Names such as `alice.dmail` are records in the DHT, of which each replica keeps
the one its `Select` prefers.

The project models that system in four layers and proves what the layers promise.

* **Codecs and puzzles.** `Varint`, `Wire`, `Messages` (the protobuf wire format for the schema of
  proto/dmail.proto, with unknown fields, groups and every encoding a reader must accept), `Utf8` and
  `Protobuf` (what text and what a field are, said by encoder and grammar, and that the readers agree),
  `Base58`, `Address`, `Pow`, `Bits`, `Crypto` (scalar clamp and box framing), `Packet`, `Names`.
* **The store.** `Tables` (what each SQL statement does), `SearchIndex` (the triggers of the full-text
  index), `Query`, `Like`, `Views`, `Threads`, and the class `Store.Store`, which is proved against them.
* **The daemons.** `SingleUser.Daemon`, `MultiTenant.Daemon`, `Federation`, `Registry`.
* **The machine.** `Mailbox` makes every request and every background goroutine of the multi-tenant
  daemon a task and every store call a step, so an interleaving of goroutines is a run. `Processing`,
  `Letters`, `Delivery`, `UserThreads`, `Mirror`, `Isolation` and `Searches` prove what holds in all runs;
  `Requests` says column by column what each request leaves in the tables; `Runs` shows that the methods
  of `MultiTenant.Daemon` are runs of the machine and follows a message from one server to another.

SHA-256, SHA-512, Ed25519, the map to Curve25519 and NaCl box are the functions of a `Crypto.Suite`; all
that is assumed of them is `Crypto.Laws`, and each lemma that needs the laws says so
(`Crypto.LawsAreConsistent` gives a suite that meets them).

Where the code departs from what one would expect of it, the code is followed, a lemma shows an input
on which the expectation fails, and the exact condition is proved:

* `Select` uses timestamp 0 for "none yet", which a valid record may carry
  (`Registry.SelectIsFirstComeFirstServed`, `Registry.ZeroTimestampLoses`).
* "delivered" is written after the inbox copy can be read, so a read receipt can be overwritten; a
  message to oneself replaces its own sent copy; and reading one's own sent copy sends the receipt to
  oneself. `Delivery.StatusFallsExactly` says which steps lower a status, of every letter in every run;
  `Delivery.ReceiptInTheWindowIsLost`, `Runs.WindowIsReachable`, `Delivery.SelfMailOverwritesTheSentCopy`
  and `Delivery.OwnReceiptThenPushFalls` show each.
* A packet processed twice puts its message back into the inbox, unread (`Processing.DuplicateResetsTheRow`),
  while the single-user daemon skips a message id it has (`SingleUser.PollingIsIdempotent`).
* The single-user daemon files a sent message under its subject when it cannot open the packet, that
  is, whenever the recipient is somebody else, and then it can replace a stored message
  (`SingleUser.CopyIdIsKnown`, `SingleUser.OnlyAnEqualSubjectOverwrites`,
  `SingleUser.ASubjectOverwritesAStoredMessage`).
* Fetching one message returns the stored key, user prefix included (`MultiTenant.Daemon.HandleGetMessage`).
* Threads are one level deep (`Threads.ThreadsAreComponents`, `Threads.ReplyToReplySplitsTheThread`).
* The name in a record's signing string has no length in front of it (`Names.SignedStringIsAmbiguousForOtherKeys`).
* An insert that replaces a row leaves the old row's entry in the full-text index
  (`SearchIndex.IndexAgreement`), and a search that meets such an entry fails, whoever searches: this is
  the one way in which another user's step reaches a user's searches
  (`Searches.SearchIsolationOverRuns`, `Runs.DuplicateFailsAnothersSearch`).
* Verifying a packet can panic, and so end a poll (`Packet.VerifyPanicsExactly`, `MultiTenant.Daemon.DoPollAll`).

## Model

| member | source | states |
|---|---|---|
| `Varint.DecodeOfEncode` | pkg/packet/packet.go:115-117 | a varint is read back as the number written, with exactly its bytes consumed, whatever follows |
| `Varint.DecodeIsPrefixStable` | pkg/packet/packet.go:115-117 | reading a varint looks at no byte beyond it |
| `Varint.EncodedSize` | pkg/packet/packet.go:66-70 | how many bytes a number takes: at most 1, 2, 3 below 2^7, 2^14, 2^21, never more than 10 |
| `Varint.DecodeExactly` | pkg/packet/packet.go:113-117 | a number is read iff its bytes are groups of seven bits with the continuation bit on all but the last, at most ten, the tenth below 2, and it is the number they denote |
| `Varint.EncodedIsShortest` | pkg/packet/packet.go:31-34 | what is written is the spelling without a zero group at the end |
| `Utf8.ValidUtf8IsText` | pkg/packet/packet.go:31-34 | bytes pass for a string iff they are the concatenated encodings of Unicode scalar values, in one to four bytes each; overlong forms, surrogates and values above 0x10FFFF are refused |
| `Wire.FieldIsRead` | proto/dmail.proto:7-16 | a field with a nonzero value is read back with its number, its value and exactly its bytes, whatever follows |
| `Wire.NextIsPrefixStable` | pkg/packet/packet.go:115-117 | where a field ends, groups included, does not depend on the bytes after it |
| `Wire.RoundTrip` | proto/dmail.proto:7-32 | for every schema and well-typed record, with any run of unknown fields, unmarshalling the marshalled bytes gives the record back |
| `Wire.ReencodingKeepsTheMessage` | pkg/packet/packet.go:122-126 | whatever bytes were accepted, in any order or encoding, marshalling what was read gives bytes that read as the same record |
| `Protobuf.NextOfField` | pkg/packet/packet.go:113-117 | a tag and the content of its type in front of any bytes are read as that field |
| `Protobuf.FieldOfNext` | pkg/packet/packet.go:113-117 | nothing is read as a field but a tag followed by a varint, 8 bytes, a sized chunk, 4 bytes, or a group closed under its own number |
| `Protobuf.NoFieldNoMessage` | pkg/packet/packet.go:113-117 | bytes that begin with no field are refused as a message |
| `Protobuf.NumberIsStored` | proto/dmail.proto:7-16 | a varint under a known number takes the place of what was read before, 32-bit fields keeping the low bits |
| `Protobuf.ChunkIsStored` | proto/dmail.proto:7-32 | so does a chunk, except that a string field that is no text ends the reading |
| `Protobuf.OtherFieldIsKept` | proto/dmail.proto:7-32 | a field with an unknown number or another type is kept as it stands |
| `Messages.PacketRoundTrip` | proto/dmail.proto:7-16 | decoding an encoded DmailPacket gives the packet back |
| `Messages.PacketFields` | proto/dmail.proto:7-16 | a marshalled packet is its eight fields in order and under their numbers, then the unknown ones |
| `Messages.PayloadRoundTrip` | proto/dmail.proto:18-23 | a payload whose four strings pass for text is decoded to itself |
| `Messages.PayloadFields` | proto/dmail.proto:18-23 | a payload is marshalled iff its four strings are sequences of Unicode scalar values, as fields 1 to 4 |
| `Messages.TextPayloadRoundTrip` | proto/dmail.proto:18-23 | every payload of such text is marshalled and read back unchanged |
| `Messages.NameRecordRoundTrip` | proto/dmail.proto:25-32 | the same for a name record |
| `Messages.NameRecordFields` | proto/dmail.proto:25-32 | a name record is marshalled iff its name is such text, as fields 1 to 6 |
| `Messages.MarshalPayloadFails` | pkg/packet/packet.go:31-34 | marshalling a payload fails exactly when one of its four strings is not UTF-8 |
| `Messages.PacketReencodes` | pkg/node/node.go:109-117 | a packet that was read marshals to bytes that read as the same packet |
| `Base58.ConvertRoundTrip` | pkg/crypto/keys.go:53-59 | changing the base of a digit string, leading zeros kept, and changing it back is the identity |
| `Base58.DecodeOfEncode` | pkg/crypto/keys.go:58 | decoding what was encoded gives the bytes back; only the empty spelling is refused |
| `Base58.EncodeOfDecode` | pkg/crypto/keys.go:67 | whatever decodes is spelled by its own encoding, so no byte string has two spellings |
| `Base58.EncodingIsBase58` | pkg/crypto/keys.go:53-59 | an encoding writes the bytes as one big-endian number in base 58 over 1-9A-HJ-NP-Za-km-z, with one 1 in front per leading zero byte and no more |
| `Base58.DecodesExactly` | pkg/crypto/keys.go:67-70 | a string decodes to exactly the bytes it encodes, and to none iff it is empty or holds a character outside the alphabet |
| `Address.ParseInvertsOf` | pkg/crypto/keys.go:53-83 | an address parses to a key if and only if the key has 32 bytes and this is its address |
| `Address.OfIsInjective` | pkg/crypto/keys.go:53-59 | two keys of whatever length never share an address |
| `Address.AddressSpellsKeyAndChecksum` | pkg/crypto/keys.go:53-59 | an address is "dmail:" and key and first four hash bytes as a base-58 number |
| `Address.RefusedExactly` | pkg/crypto/keys.go:63-83 | which error a string gets: prefix, alphabet, length other than 36, checksum, in that order |
| `Address.Address` | pkg/crypto/keys.go:53-59 | the buffer filled by two copies spells the address of the key and checksum |
| `Address.PubKeyFromAddress` | pkg/crypto/keys.go:63-83 | the checks and the byte-by-byte comparison decide the parse, with the same error for each failure |
| `Pow.HasLeadingZeroBits` | pkg/pow/pow.go:32-48 | the loop over whole bytes and the mask decide the test, and run off the slice only as stated |
| `Pow.LeadingZeroBitsIsABound` | pkg/pow/pow.go:31-48 | for n within the hash the test holds iff the hash as a big-endian number is below 2^(bits - n) |
| `Pow.LeadingZeroBitsBeyondTheHash` | pkg/pow/pow.go:34-46 | for larger n the index leaves the slice exactly when every byte is zero; otherwise the test fails |
| `Pow.LeadingZeroBitsAntitone` | pkg/pow/pow.go:31-48 | asking for more zero bits never turns a failure into a success |
| `Pow.Verify` | pkg/pow/pow.go:23-29 | the filled buffer is data followed by the nonce in eight big-endian bytes |
| `Pow.CheckIsABound` | pkg/pow/pow.go:23-29 | up to 256 bits, verifying a nonce is one numeric comparison of the hash |
| `Pow.CheckAntitone` | pkg/pow/pow.go:23-29 | a nonce that meets a difficulty meets every lower one |
| `Pow.Compute` | pkg/pow/pow.go:13-20 | the search loop returns what the search from 0 upwards gives |
| `Pow.ComputeIsLeast` | pkg/pow/pow.go:13-20 | the result is the least nonce below 2^64 - 1 that solves the puzzle, 0 when none does, a panic only above 256 bits |
| `Pow.ComputeMonotone` | pkg/pow/pow.go:13-20 | a solvable harder puzzle never has a smaller answer than an easier one |
| `Crypto.Ed25519PrivToCurve25519` | pkg/crypto/encrypt.go:85-94 | the in-place byte changes on the digest yield the clamped scalar |
| `Crypto.ClampIsRfc7748` | pkg/crypto/encrypt.go:85-94 | read little-endian, the scalar is a multiple of 8 in [2^254, 2^255) with bits 3 to 253 of the digest, as in section 5 of RFC 7748 |
| `Crypto.ClampIsIdempotent` | pkg/crypto/encrypt.go:88-90 | clamping twice changes nothing |
| `Crypto.DecryptOfEncrypt` | pkg/crypto/encrypt.go:15-51 | nonce framing and key agreement fit: the recipient decrypts exactly the plaintext, and the ciphertext is 40 bytes longer |
| `Crypto.EncryptsExactly` | pkg/crypto/encrypt.go:15-30 | a ciphertext is the 24-byte nonce and the box sealed under the key of clamped scalar and mapped point; it exists iff the key has 32 bytes and is a point and a nonce was drawn |
| `Crypto.DecryptsExactly` | pkg/crypto/encrypt.go:33-51 | a ciphertext decrypts iff it has at least 40 bytes, the key is a point and the box opens |
| `Packet.SignableBytesDetermineFields` | pkg/packet/packet.go:134-145 | the proof-of-work data of two packets agree iff fields 1 to 4, 6 and 7 do, so never because of nonce or signature |
| `Packet.SignedBytesDetermineFields` | pkg/packet/packet.go:148-160 | the signed data of two packets agree iff fields 1 to 7 do |
| `Packet.Build` | pkg/packet/packet.go:23-61 | building step by step gives the packet of the specification, or its error |
| `Packet.BuiltPacketSays` | pkg/packet/packet.go:23-61 | version 1, both keys, the time, the difficulty, the encrypted payload of the four strings, a nonce that meets the puzzle or 0, signed over fields 1 to 7 with the sender's key |
| `Packet.WindowIsExact` | pkg/packet/packet.go:72-79 | for a sane clock the 64-bit wrap of the time conversion does not change the verdict on a timestamp |
| `Packet.ClocksThatJudgeExactly` | pkg/packet/packet.go:72-82 | within 146 billion years of 1970, the verdict is exact for every timestamp iff the clock is past the first day of 1970 less a second; before that a timestamp near 2^64 is let in |
| `Packet.VerifyPanicsExactly` | pkg/packet/packet.go:64-97 | Verify panics iff the packet is in size and time and either the hash is all zero under a difficulty above 256, or the puzzle is met and the sender key does not have 32 bytes |
| `Packet.AcceptedExactly` | pkg/packet/packet.go:64-97 | Verify accepts a packet iff it has at most 262144 bytes, its time is within a day back and an hour ahead, its hash is below 2^(256-difficulty), and its signature over fields 1 to 7 checks under its 32-byte sender key |
| `Packet.RefusedExactly` | pkg/packet/packet.go:64-97 | the exact condition of every refusal: size, future, past, puzzle, signature, and the two panics |
| `Packet.ForgedPacketIsRefused` | pkg/packet/packet.go:91-94 | a packet whose signature does not check under its sender key is refused, whatever else it says |
| `Packet.SignatureFitsOnePacket` | pkg/packet/packet.go:91-94 | the signature of an accepted packet carries over only to packets that agree with it on fields 1 to 7 |
| `Packet.AcceptedInTime` | pkg/packet/packet.go:72-82 | for a sane clock the time of an accepted packet is its own number of seconds, in the window |
| `Packet.ReadExactly` | pkg/packet/packet.go:122-131 | raw bytes are taken for a packet iff they parse to it and it verifies, so its signature checks |
| `Packet.BuildThenVerify` | pkg/packet/packet.go:23-97 | a built packet is accepted at time t iff it has at most 262144 bytes, t - 24h <= timestamp <= t + 1h, and its puzzle was solvable |
| `Packet.SafeTextFits` | pkg/packet/packet.go:23-70 | 261886 bytes of subject, body and reply id always fit, through payload fields, box and packet fields |
| `Packet.BuiltPacketOpens` | pkg/packet/packet.go:100-110 | the recipient opens a built packet to exactly the payload that was sent |
| `Packet.BuildThenOpen` | pkg/packet/packet.go:113-119 | the same from the packet's raw bytes |
| `Packet.OpensExactly` | pkg/packet/packet.go:100-119 | raw bytes open to a payload iff they are a packet whose box decrypts, under its sender's key, to bytes of that payload |
| `Names.ValidNamesAreLabels` | pkg/names/names.go:30-47 | accepted names are exactly the unreserved strings of 3 to 32 characters made of nonempty [a-z0-9] labels joined by single hyphens |
| `Names.RefusedNames` | pkg/names/names.go:30-47 | which error a refused name gets: length, case, characters, double hyphen, reserved, in that order |
| `Names.SignedStringDeterminesFields` | pkg/names/names.go:107-127 | for 32-byte keys two records are signed alike iff they agree on all five fields |
| `Names.SignedStringIsAmbiguousForOtherKeys` | pkg/names/names.go:107-119 | for keys of other lengths they need not, with an example |
| `Names.SignedStringLayout` | pkg/names/names.go:107-127 | the stamped string is name, key, eight bytes of time and four of difficulty; the signed one adds eight of nonce |
| `Names.BuildNameRecord` | pkg/names/names.go:50-71 | filling the record field by field gives the record of the specification |
| `Names.BuiltRecordSays` | pkg/names/names.go:50-71 | the name, the registrant's key, the time, difficulty 28, a nonce that meets it or 0, signed with his key |
| `Names.BuiltRecordVerifies` | pkg/names/names.go:50-98 | a built record passes verification iff its puzzle was solvable |
| `Names.AcceptedExactly` | pkg/names/names.go:74-98 | a record is accepted iff its name is an unreserved name of labels, its key has 32 bytes, its difficulty is at least 28 and met, and its signature checks under its own key |
| `Names.RefusedExactly` | pkg/names/names.go:74-98 | the exact condition of every refusal of a record |
| `Names.ForgedRecordIsRefused` | pkg/names/names.go:93-96 | a record whose signature does not check under the key it names is refused |
| `Registry.PushedPacketIsJudgedAlike` | pkg/node/node.go:41-50 | a replica accepts what Push stores exactly when the packet itself verifies |
| `Registry.ReplicaAcceptsExactly` | pkg/node/node.go:41-50 | a replica accepts raw bytes iff there are at most 262144 of them and they are a packet that verifies, so no packet with a signature that fails |
| `Registry.CompetesExactly` | pkg/node/node.go:224-236 | a value competes with time t iff it parses to a record of time t with a valid name, a 32-byte key, a met difficulty of at least 28 and a signature that checks |
| `Registry.Select` | pkg/node/node.go:218-239 | the loop over bestIdx and bestTS returns the index of the specification, an error for no values |
| `Registry.SelectIsFirstComeFirstServed` | pkg/node/node.go:218-239 | Select picks the first valid record of least timestamp iff no valid record is stamped 0, or one is and no valid record follows it; without a valid record it answers 0 |
| `Registry.SelectReturnsARegistration` | pkg/node/node.go:218-239 | whenever such a registration is listed, Select returns one, whatever forged records are listed beside it |
| `Registry.SelectReturnsTheEarliest` | pkg/node/node.go:218-239 | and the first of the earliest when none is stamped 0 |
| `Registry.ZeroTimestampLoses` | pkg/node/node.go:233 | a record stamped 0 loses to a later-stamped one listed after it |
| `Registry.ReplicaHoldsLeast` | pkg/node/node.go:218-239 | over any run of arriving batches of nonzero stamps a replica holds a valid record of the least timestamp seen, wherever its own record is listed |
| `Registry.ReplicasConverge` | pkg/node/node.go:218-239 | replicas that saw the same records in any order and grouping agree on the least timestamp, and on the record when timestamps are distinct |
| `Registry.ReplicaHoldsARegistration` | pkg/node/node.go:218-239 | over any run of arrivals a replica holds a registration once one has arrived, zero stamps included |
| `Registry.ReplicaHoldsTheEarliest` | pkg/node/node.go:218-239 | and none that arrived is earlier than the one held, when none is stamped 0 |
| `Registry.SeenIsWhatArrived` | pkg/node/node.go:218-239 | what a replica has seen is the values of all batches |
| `Federation.FederatedAddressesAreJoined` | pkg/daemon/federation.go:229-253 | a string parses to (user, host) iff it is user@host with an admitted, @-free host and is neither a dmail address nor a .dmail name |
| `Federation.DispatchExactly` | pkg/daemon/api_multi.go:351-368 | a recipient is user@host under that syntax, else a name in lower case without its .dmail, else an address as it stands |
| `Federation.NamesAreLookedUpUnchanged` | pkg/daemon/api_multi.go:351-368 | a valid name followed by .dmail is never federated and is looked up as that name |
| `Federation.AddressesAreDirect` | pkg/daemon/api_multi.go:351-368 | the address of a key is never taken for a federated address or a name |
| `Tables.UpdatesChangeOneColumn` | pkg/store/store.go:196-205 | marking read, trashing and setting a status each change one column of one row and nothing else |
| `Tables.UpsertIsValid` | pkg/store/store.go:153-157 | INSERT OR REPLACE keeps keys, stored ids and rowids consistent |
| `Tables.AddPendingAddsOne` | pkg/store/store_multi.go:168-175 | an arrival adds one packet at the end, unprocessed, with user, bytes, sender and time as handed over |
| `Tables.MarkProcessedMarksOne` | pkg/store/store_multi.go:200-203 | marking sets one flag of one packet |
| `SearchIndex.StepKeepsIndex` | pkg/store/store.go:117-139 | every operation keeps the index equal to the re-indexed table plus the entries of replaced rows |
| `SearchIndex.IndexAgreement` | pkg/store/store.go:117-153 | after any run the index is the re-indexed table plus one entry, for a rowid no longer in use, per replaced row; they agree iff nothing was replaced since the last opening |
| `Searches.MailboxIndexAgrees` | pkg/store/store.go:117-153 | in every reachable state of the multi-tenant daemon the index is the re-indexed table plus the entries left by the rows its run replaced |
| `Searches.SingleUserIndexAgrees` | pkg/store/store.go:117-153 | the same for every run of the single-user daemon |
| `Searches.StaleAfterOp` | pkg/store/store.go:117-153 | a statement makes a search stale exactly by replacing a row that matches, and no update cures it |
| `Views.IndexedSearchIsAScan` | pkg/store/store.go:352-378 | the join with the index finds exactly the rows whose subject and body match, and meets a stale entry iff a leftover one matches |
| `Threads.StoreKeepsThreads` | pkg/store/store.go:145-158 | every save fills in the thread as parent-or-self and no update changes it |
| `Threads.ThreadIsSameRoot` | pkg/store/store.go:381-414 | a thread is exactly the messages with the same parent-or-self |
| `Threads.ThreadsAreComponents` | pkg/store/store.go:144-158 | threads are the connected components of the reply graph iff every reply targets a root |
| `Threads.ReplyToReplySplitsTheThread` | pkg/store/store.go:146-151 | a reply to a reply leaves the thread, with an example |
| `Store.Store.SaveMessage` | pkg/store/store.go:145-158 | the message comes back with its thread filled in and that message is the stored row |
| `Store.Store.GetMessage` | pkg/store/store.go:161-171 | the row as stored, under the key asked for, or none |
| `Store.Store.HasMessage` | pkg/store/store.go:208-212 | the count decides whether the key is stored |
| `Store.Store.ListMessages` | pkg/store/store.go:174-193 | exactly the rows of the folder, each once, newest first |
| `Store.Store.MarkRead` | pkg/store/store.go:196-199 | the row with that key gets its read flag set and no row changes otherwise; an unknown key changes nothing |
| `Store.Store.DeleteMessage` | pkg/store/store.go:202-205 | the row stays and only its folder becomes trash; an unknown key changes nothing |
| `Store.Store.UpdateMessageStatus` | pkg/store/store.go:417-420 | only the status of that row changes; an unknown key changes nothing |
| `Store.Store.SearchMessages` | pkg/store/store.go:352-378 | the newest `limit` of the rows the index finds, 50 for a limit that is not positive |
| `Store.Store.GetThread` | pkg/store/store.go:381-414 | exactly the rows stored under the same thread, each once, oldest first; none for an unknown id |
| `Store.Store.SaveMessageForUser` | pkg/store/store_multi.go:206-220 | the row's key is user:id, its thread is not scoped |
| `Store.Store.GetPendingPackets` | pkg/store/store_multi.go:178-197 | exactly the user's unprocessed packets, each once, oldest first |
| `Store.Store.GetUserByPubkey` | pkg/store/store_multi.go:98-110 | the first user with that address |
| `Store.Store.ListMessagesForUser` | pkg/store/store_multi.go:224-249 | exactly the user's rows of that folder, read or not, newest first; putting the prefix back gives the stored rows |
| `Views.UnreadCountIsOfTheList` | pkg/store/store_multi.go:224-259 | the unread count of a folder is the number of unread rows in any listing of it |
| `Views.SearchedRowsAreListed` | pkg/store/store_multi.go:224-292 | every row a user's search finds is in his listing of its folder |
| `Views.SearchAnswersExactly` | pkg/store/store_multi.go:262-292 | a user's search answers with rows of his whose text matches, newest first, and leaves a match out only when the limit is filled with none older |
| `Views.ListingIsTheUsersFolder` | pkg/store/store_multi.go:224-249 | a listing holds a row iff it is the user's and in that folder, read or not, each once, newest first |
| `Store.Store.SearchMessagesForUser` | pkg/store/store_multi.go:262-292 | the newest matches among the user's rows, prefix stripped, and an error exactly when a stale entry matches |
| `Store.Store.GetThreadForUser` | pkg/store/store_multi.go:295-332 | exactly the user's rows under the thread of the one asked for, oldest first, prefix stripped; none for a message he does not have |
| `Like.LiteralPrefix` | pkg/store/store_multi.go:224-232 | a pattern of literal characters and a final % matches the strings that begin with them up to ASCII case |
| `Like.KeyIsInjective` | pkg/store/store_multi.go:216 | user ids without colon make user:id unambiguous |
| `Like.PatternIsolatesTenants` | pkg/store/store_multi.go:224-249 | the pattern u:% matches the key v:m iff u = v, and stripping the prefix gives m |
| `Like.UuidsAreTenantIds` | pkg/daemon/api_multi.go:181-183 | lowercase UUIDs are such user ids |
| `Like.WildcardsAndCapitalsLeak` | pkg/store/store_multi.go:224-232 | with a wildcard or a capital letter in the id the pattern also finds another user's keys |
| `Views.LikeFindsOwnRows` | pkg/store/store_multi.go:224-292 | in a table of users' keys the pattern finds exactly the user's own rows |
| `Views.StrippedRowsAreTheUsers` | pkg/store/store_multi.go:240-248 | stripping loses nothing: putting the prefix back gives the stored rows |
| `SingleUser.StepEvolves` | pkg/daemon/daemon.go:109-137 | an operation leaves a stored row to evolve iff it does not store a copy under that row's id |
| `SingleUser.RowsEvolve` | pkg/daemon/daemon.go:254-294 | over any run without such a send no row is lost, doubled, rewritten, marked unread or taken out of the trash |
| `SingleUser.CopyIdIsKnown` | pkg/daemon/daemon.go:109-137 | the stored copy's id is known before the send: none unless the address parses to a point, the text is UTF-8 and a nonce is drawn; the payload's id when the recipient shares the owner's box key, else the subject |
| `SingleUser.OverwritesExactly` | pkg/daemon/daemon.go:109-137 | a send overwrites a row iff the id known beforehand is the row's |
| `SingleUser.OnlyAnEqualSubjectOverwrites` | pkg/daemon/daemon.go:109-137 | with a fresh payload id, a send overwrites a row iff it can be built, goes to somebody else and its subject is the row's id |
| `SingleUser.RowsEvolveUnlessASubjectMatches` | pkg/daemon/daemon.go:109-137 | over any run with fresh payload ids a row only evolves unless a send to somebody else has its id as subject |
| `SingleUser.ASubjectOverwritesAStoredMessage` | pkg/daemon/daemon.go:110-124 | such a send for any stored message: its folder and text are gone |
| `SingleUser.PollingIsIdempotent` | pkg/daemon/daemon.go:254-294 | polling the same packet again, after any operations, changes nothing |
| `SingleUser.MailToSelfStaysSent` | pkg/daemon/daemon.go:109-137 | mail to oneself is filed under the payload's id, so polling never brings it into the inbox |
| `SingleUser.SameSubjectReplaces` | pkg/daemon/daemon.go:110-124 | two messages to others with one subject share a row and the later copy replaces the earlier |
| `SingleUser.Daemon.DoPoll` | pkg/daemon/daemon.go:254-294 | the new tables after a poll that returned a packet or nothing |
| `SingleUser.PolledRowSays` | pkg/daemon/daemon.go:254-294 | the row of a polled packet in every column: new, unread, in the inbox, between the addresses of its two keys, with its text and time |
| `SingleUser.UnopenedIsIgnored` | pkg/daemon/daemon.go:262-266 | a packet that does not open with the owner's key changes nothing |
| `SingleUser.BuiltPacketIsReceived` | pkg/daemon/daemon.go:254-294 | what another daemon builds for the owner's key and he polls says what its sender wrote, and when |
| `SingleUser.SentCopySays` | pkg/daemon/daemon.go:109-137 | the row of a sent copy in every column, under payload id and packet time or under subject and clock |
| `SingleUser.Daemon.SendMessage` | pkg/daemon/daemon.go:91-147 | the stored copy, which addresses are refused, and that the counter of background work is back at its value however the sending ends |
| `Mailbox.RunKeepsInv` | pkg/daemon/multi_tenant.go:102-404 | in every run keys stay scoped to registered users and the tables well-formed |
| `Processing.NoPacketIsLost` | pkg/daemon/multi_tenant.go:311-331 | in every reachable state, wherever the run stops, a processed packet does not open under its user's key or its message is in the user's table |
| `Processing.ProcessingAccounts` | pkg/daemon/multi_tenant.go:299-332 | however processing runs interleave with sends, deliveries, polls, reads and deletions, once the user's processing is through all fetched packets are processed and his ids are the old ones, those of the fetched packets that open, and those of letters saved for him |
| `Processing.EmptyBacklogAccounts` | pkg/daemon/multi_tenant.go:299-332 | when the backlog is empty the user's ids are the old ones, those of every packet of his that opens, pending at the start or arrived since, and those of letters saved for him |
| `Processing.ProcessingIsConfluent` | pkg/daemon/multi_tenant.go:299-332 | two interleavings in which the same packets arrive and which leave the user no backlog end with the same message ids, letters apart |
| `Processing.DuplicateResetsTheRow` | pkg/daemon/multi_tenant.go:319-329 | processing leaves a row alone unless the packet carries that very id; then the row is unread and in the inbox again |
| `Letters.StepKeepsLetter` | pkg/daemon/multi_tenant.go:102-265 | each store call of any task keeps, for a letter whose id no packet carries, exactly the rows of its stage with its content and an expected status |
| `Letters.ReachableLetter` | pkg/daemon/multi_tenant.go:102-265 | the same in every reachable state |
| `Letters.AtOnceIsTwoSteps` | pkg/daemon/multi_tenant.go:151-153 | a local delivery in one step is its two store calls in a row |
| `Delivery.StatusFallsExactly` | pkg/daemon/multi_tenant.go:133-260 | in every step a letter's status climbs or stays, and falls iff the step is the letter's own and confirms its local delivery or records its push over a read receipt, or saves the inbox copy of a message to oneself |
| `Delivery.StatusFallsExactlyOverRuns` | pkg/daemon/multi_tenant.go:133-260 | the same in every reachable state, whatever other letters and users do |
| `Delivery.StatusOnlyClimbs` | pkg/daemon/api_multi.go:377-397 | when this letter's local delivery is one step and its sender does not read his own copy before it has gone out, its status only climbs, mail to oneself included |
| `Delivery.StatusOnlyClimbsFromTheStart` | pkg/daemon/multi_tenant.go:248-260 | the same from the empty daemon: a status once reached is a lower bound ever after |
| `Delivery.InboxCopiesAreReadInOrder` | pkg/daemon/api_multi.go:377-397 | a read request for a copy in the inbox is always in that order |
| `Delivery.ReceiptInTheWindowIsLost` | pkg/daemon/multi_tenant.go:151-153 | the confirmation and the receipt do not commute: one order ends in read, the other in delivered |
| `Delivery.SelfMailOverwritesTheSentCopy` | pkg/daemon/multi_tenant.go:135-151 | a message to oneself ends as one inbox row, unread, without status, in place of the sent copy |
| `Delivery.OwnReceiptThenPushFalls` | pkg/daemon/api_multi.go:386-394 | reading one's own sent copy marks it read, and the push that follows lowers it to sent |
| `Mirror.LocalMailIsMirrored` | pkg/daemon/multi_tenant.go:119-155 | sender and recipient, and nobody else, have a row, and both rows hold the letter; a message to oneself has one row |
| `UserThreads.ThreadIsSameParent` | pkg/store/store_multi.go:295-332 | a user's thread of a message exists iff he has it and holds, of his messages, exactly those with the same parent-or-self, and nobody else's |
| `UserThreads.ThreadsInEveryState` | pkg/store/store_multi.go:206-220 | the same in every reachable state of the daemon |
| `Mirror.MailIsMirroredOverRuns` | pkg/daemon/multi_tenant.go:119-155 | in every reachable state after the inbox save exactly two rows exist under the id, one for a message to oneself, equal but for key, folder, read flag and status |
| `Mirror.ThreadsAreMirrored` | pkg/store/store_multi.go:295-332 | asked for the thread of a message they exchanged, both users are shown, of their exchanged messages, exactly those with the same parent-or-self |
| `Mirror.MirroredFromTheStart` | pkg/store/store_multi.go:295-332 | the same in every reachable state |
| `Isolation.StepIsolates` | pkg/daemon/multi_tenant.go:102-404 | a step that is not the user's own, no delivery to him and no receipt for him leaves his rows and packets as they are |
| `Isolation.RunIsolates` | pkg/daemon/multi_tenant.go:102-404 | the same over runs of such steps |
| `Isolation.SameShareSameViews` | pkg/store/store_multi.go:224-332 | the same rows and packets give the same lists, counts, threads and backlog, and the same rows match a search |
| `Searches.ForeignStepsAndSearches` | pkg/store/store_multi.go:262-292 | another user's step changes the answers to a user's search iff it replaces a row whose text matches and nothing stale matched before |
| `Searches.SearchIsolationOverRuns` | pkg/store/store_multi.go:262-292 | in every reachable state that is iff the step processes a packet of a message id already stored, or saves mail to oneself, and the replaced text matches |
| `Isolation.DeliveryWritesOneRow` | pkg/daemon/multi_tenant.go:139-151 | a delivery writes one row of the recipient, a new one unless he wrote to himself, and changes no other |
| `Isolation.ReceiptChangesOneStatus` | pkg/daemon/api_multi.go:386-394 | a receipt changes the status of one row and nothing else |
| `MultiTenant.Daemon.SendMessageForUser` | pkg/daemon/multi_tenant.go:102-181 | refusals, and otherwise exactly the store calls of the send task; a background task is counted iff the recipient is not local |
| `MultiTenant.Daemon.PushInBackground` | pkg/daemon/multi_tenant.go:158-178 | the status becomes sent iff the packet was built, fits and the DHT took it, and the counter goes down in every case |
| `MultiTenant.Daemon.SendMessageFederated` | pkg/daemon/multi_tenant.go:184-228 | refusals in the code's order, and otherwise the sent copy and a counted background task |
| `MultiTenant.Daemon.DeliverInBackground` | pkg/daemon/multi_tenant.go:230-262 | delivered if the server took the packet, sent if only the DHT did, unchanged otherwise |
| `MultiTenant.Daemon.ResolveNameForUser` | pkg/daemon/multi_tenant.go:268-296 | a name once resolved keeps its address, whatever the DHT says later; a failed lookup remembers nothing |
| `MultiTenant.Daemon.HandleSendMessage` | pkg/daemon/api_multi.go:337-375 | federated, named and direct recipients go their ways, with the errors in the code's order |
| `Requests.NodeResolvesExactly` | pkg/node/node.go:168-190 | a name resolves to a key iff the DHT's value is a registration of that key |
| `Requests.ResolvedExactly` | pkg/daemon/multi_tenant.go:268-296 | a name stands for the address remembered, else for the address of the registered key |
| `Requests.RequestMeans` | pkg/daemon/api_multi.go:337-375 | a request is accepted iff recipient and subject are given, the user is logged in and the recipient stands for a key's address; the letter is from him to it, with the text, reply id, id and time asked for |
| `Requests.RefusalsMean` | pkg/daemon/api_multi.go:345-374 | the exact condition of every refusal |
| `Requests.SendingLeaves` | pkg/daemon/multi_tenant.go:119-155 | the rows a send leaves, in every column: a read sent copy being sent, or delivered beside an unread inbox copy, or one inbox row for mail to oneself; no other row changes |
| `Requests.PushedExactly` | pkg/node/node.go:109-123 | the DHT is given a packet iff it was built at difficulty 20 and has at most 262144 bytes |
| `Requests.PushingChanges` | pkg/daemon/multi_tenant.go:158-178 | a push that went through changes the sender's status, to delivered or sent, and nothing else |
| `MultiTenant.Daemon.ProcessPendingPackets` | pkg/daemon/multi_tenant.go:299-332 | exactly the store calls of the processing task on the fetched backlog, after which the user's backlog is empty; nothing without a session |
| `MultiTenant.ProcessingClears` | pkg/daemon/multi_tenant.go:311-331 | run to its end, processing leaves none of the user's packets unprocessed |
| `Requests.ProcessedPacket` | pkg/daemon/multi_tenant.go:311-331 | the row of a processed packet in every column: sender as stored, the user's own address, the second it arrived, unread in the inbox, a thread of its own |
| `MultiTenant.MailExactly` | pkg/daemon/multi_tenant.go:311-318 | a packet is mail iff it opens with the session's key, and the mail is the payload's id, subject and body |
| `MultiTenant.Daemon.DoPollAll` | pkg/daemon/multi_tenant.go:368-404 | each registered address is polled and a found packet stored for its user, with a sender only if it verifies, up to the first whose check panics |
| `Requests.PolledPacket` | pkg/daemon/multi_tenant.go:376-402 | what one polled address adds: at most one packet, for its user, under the address of the key that signed it or no sender if it is not accepted |
| `MultiTenant.PollStopsExactly` | pkg/daemon/multi_tenant.go:368-404 | a poll stops at the first address with a value and an owner whose check panics |
| `MultiTenant.PanicsExactly` | pkg/daemon/multi_tenant.go:396-398 | which values those are |
| `MultiTenant.SenderExactly` | pkg/daemon/multi_tenant.go:394-399 | a polled packet has a sender iff it is accepted, so none if its signature fails |
| `MultiTenant.Daemon.HandleFederationDeliver` | pkg/daemon/federation.go:80-121 | a packet is stored iff it is small enough, verifies, and its user exists; then exactly one packet is added, signed by its sender, for that user, with its bytes, its sender's address and the second, and nothing else changes |
| `MultiTenant.AcceptedExactly` | pkg/daemon/federation.go:80-121 | a packet handed over is taken iff it has at most 262144 bytes, verifies - its signature included - and its recipient key's address is a user's; it is taken for him, under its sender's address and the second |
| `MultiTenant.RefusedExactly` | pkg/daemon/federation.go:80-106 | the exact condition of every refusal |
| `MultiTenant.Daemon.HandleMarkRead` | pkg/daemon/api_multi.go:377-397 | exactly the store calls of the read task, receipt included |
| `Requests.ReadingChanges` | pkg/daemon/api_multi.go:377-397 | reading sets the read flag of that row and, if its sender has an account, the status of his row under the id to read; no other row or column changes |
| `MultiTenant.Daemon.HandleDeleteMessage` | pkg/daemon/api_multi.go:399-408 | the store call of the trash task: the folder of that row becomes trash and no row changes otherwise |
| `MultiTenant.Daemon.HandleGetMessage` | pkg/daemon/api_multi.go:320-335 | the stored row, whose id is the scoped key and not the id asked for |
| `Runs.RequestMayStart` | pkg/daemon/multi_tenant.go:103-120 | a request the daemon accepts is one the machine lets start |
| `Runs.SendingIsARun` | pkg/daemon/multi_tenant.go:119-156 | a send request is a run of the machine |
| `Runs.ReadRunIsARun` | pkg/daemon/api_multi.go:377-397 | so is a read request |
| `Runs.ProcessingIsARun` | pkg/daemon/multi_tenant.go:299-332 | so is the processing of a backlog |
| `Runs.PollingIsARun` | pkg/daemon/multi_tenant.go:368-404 | so is a poll of all users |
| `Runs.WindowIsReachable` | pkg/daemon/multi_tenant.go:151-153 | from the empty daemon, two users and one letter reach the state in which a receipt is lost, and lose it |
| `Runs.DuplicateIsReachable` | pkg/daemon/multi_tenant.go:368-403 | from the empty daemon one packet stored twice is processed once and fetched to be processed again |
| `Runs.DuplicateFailsAnothersSearch` | pkg/daemon/multi_tenant.go:319-331 | there the next step turns a stranger's search from an answer into an error, with his rows unchanged |
| `Runs.FederatedMailArrives` | pkg/daemon/federation.go:80-121 | as one run from any well-formed state: a packet built for a registered key and handed over in time and size is accepted, stored, and after the backlog is worked off its user has a row saying who wrote what and when it came, unread in the inbox, and no packet is left |

## Left out

- Store errors: a store write is assumed to succeed, as the code assumes by ignoring most of their errors; the one exception is a search that meets an index entry without its row.
- Views.StaleHit: that SQLite reports a matching entry without its row as an error of the whole query is an assumption about the database.
- Letters.ReachableLetter: is about letters whose id no packet carries; packet ids are drawn by their senders, `msg-<nanos>` ids by the daemon.
- SingleUser.CopyIdIsKnown: assumes of the one box that is sealed that it does not open under another box key; as a law for all boxes this would contradict their length, which is the text's and 16 bytes.
- SingleUser.OnlyAnEqualSubjectOverwrites: assumes that nobody else shares the owner's box key; the lemma before it is exact without that.
- Processing.ProcessingIsConfluent: is about message ids, and takes the two runs to have saved the same letters for the user; of two packets with the same id the one processed last decides the content.
- Mailbox: the id drawn for a letter is assumed fresh; two letters in one nanosecond are not modelled.
- Goroutines: are tasks whose store calls interleave; the memory model of Go, the wait group and shutdown are not modelled.
- MultiTenant.Daemon.SendMessageForUser: the part after its return is the separate method for the goroutine; the id and the clock are parameters.
- MultiTenant.Daemon.StartSession: sessions are a map that a login fills with the user's own keys; expiry, passwords and tokens are not modelled.
- Names.ValidateName: for a name with letters outside ASCII the error is not told apart by the lowercase rules of Unicode; such names are refused in either case.
- Crypto.Laws: the inside of SHA-256, SHA-512, Ed25519, the Edwards-to-Montgomery map and NaCl box; a private key is its 32-byte seed.
- Packet.BuildThenVerify: is stated for clocks past the first day of 1970 less a second; `Packet.ClocksThatJudgeExactly` says why.
- Messages.PayloadRoundTrip: the length of every string and byte field is below 2^63, as any Go value's is.
- SaveMessage sets the thread in its argument in place; here the filled message is returned.
- Runs.FederatedMailArrives: assumes that no other unprocessed packet of the user carries the same message id; of two the one processed last decides the row.
- Equal timestamps: the order among them in a listing is left open, as the queries leave it.
- SQL parsing, SQLite storage and locking, the tokenizer of the index (a search is any match of query, subject and body).
- libp2p and Kademlia: a DHT read or write is an answer or a failure passed in as a parameter.
- HTTP, JSON, JWT, CORS, contacts, key storage, mnemonics, the local list of one's own names, routing keys: plumbing that would only add easy members.
- Lifetime, republishing and deletion of DHT records: not in the code.
- Frontend, desktop shell, scripts, command line, generated code.
