# A verified model of the NFS client's protocol core

The client is built in layers: XDR, ONC RPC with record marking, the NFS protocols, and a
file-system context on top. This project models the logic of each layer that does not itself touch
a socket, and proves what a user of the layer relies on, for all inputs and all runs.

| file | layer |
|---|---|
| `Wire.dfy` | bytes, fixed-width integers, big-endian words |
| `Xdr.dfy`, `XdrTheorems.dfy`, `XdrCodec.dfy` | the codec and the derive macro as an interpreter of schemas; its theorems; the imperative readers and writers |
| `Protocols.dfy` | NFSv3 and MOUNT message types as schemas |
| `Record.dfy` | record marking: `frame` and `RecordReassembler` |
| `RpcMessage.dfy`, `RpcClient.dfy` | CALL, credentials, REPLY; the call engine against a scripted network |
| `Fattr4.dfy`, `Fattr4Record.dfy`, `Compound.dfy`, `CompoundServer.dfy` | NFSv4 attributes, as a list and as the record of twenty fields; the COMPOUND builder against the grammar of RFC 7530; what a server makes of it |
| `Nfs4Reply.dfy`, `Nfs4Session.dfy`, `Nfs4Client.dfy` | what `run` makes of replies; the NFSv4.1 session as a state machine; `run` on top of the RPC client |
| `OpenOwner.dfy` | NFSv4.0 open-owner sequence ids, with the server's replay cache |
| `Path.dfy`, `FileIo.dfy`, `Readdir.dfy` | path resolution, chunked I/O, cookie paging |

Code that updates things in place is a class or a loop here too, and is proved equal to a function
of the old state; the theorems are about those functions. What goes over the wire is also written out
word by word in the layout lemmas, without the schemas and tables the model computes with. Sockets, servers and the passage of time
are scripts: any sequence of events may be given, and every theorem holds for all of them.

## Where the code and its promises part

The model follows the code. Each of these is a lemma.

- **A standard NFSv4 reply is not understood.** `run` and `run_raw` ask their RPC call for a
  `Bytes`, which decodes as a length-prefixed opaque, while COMPOUND4res starts with a status
  (`StandardResultAsOpaque`). The status is therefore never seen (`StandardStatusIsNeverSeen`), and
  no standard result is ever returned as what it is: a success is reported as truncated
  (`StandardResultIsNeverRight`), and an error is reported as truncated or malformed or, worse, as
  success (`StandardErrorAsSuccess`: NOTDIR). Nor is any of them retried
  (`StandardResultIsNotRetried`). The same bytes wrapped in an opaque are read correctly
  (`WrappedResultIsRead`, `WrappedBackoffIsRetried`). Against a standard server neither
  `establish_session` nor `setclientid` completes, so everything said here about NFSv4 state needs
  a server that wraps its results, at least during the handshake; should it stop wrapping them then,
  nothing is retried and at most once holds outright (`EffectsHappenOnceOnStandardServers`).
- **At most once has one gap.** `run` retries on the overall status without looking at that of
  SEQUENCE. If SEQUENCE itself answered DELAY, the slot is not taken, and a late copy of the request
  can be executed as well as the fresh one (`DelayedDuplicateTakesEffectTwice`, with the reply's
  bytes). A retry is safe whatever the network delivers if and only if the server had taken the
  slot (`RetryIsSafeExactly`), which the client can tell from the SEQUENCE status in the reply; in
  runs where it had, no compound takes effect twice (`CompoundsTakeEffectOnce`,
  `Nfs4.EffectsHappenOnce`).
- **A lost request stops an NFSv4.1 session.** Every message spends a sequence id, so until some copy
  of the request that the server waits for arrives, nothing is executed, whatever else the client
  sends (`LostRequestStopsSession`).
- **Open-owner sequence ids drift for good.** The client advances on success only; the standard
  advances on every error that is not exempt. The counters agree throughout a run if and only if
  every status the server gave and that is not exempt was noted by the client as success
  (`AgreementIsNoting`). After the first other error they never agree again, and everything the
  client asks for is answered with that error from the cache, or with BAD_SEQID
  (`DriftIsForGood`, `MissingFileStartsDrift`). An OPEN granted with a delegation, which the client
  takes for an error, parts them too (`DelegationDisagrees`). Nor does agreement mean that the right operation was
  done: an exchange succeeds by its own operation only, if and only if no earlier message of its kind
  carries its id (`OwnSuccessExactly`); otherwise a second OPEN may take the first one's success for
  its own (`SecondOpenTakesTheFirst`).
- **`write_whole` drops the byte count and the result of COMMIT.** It succeeds after a short write
  (`ShortWriteIsSilent`) and after a restart that lost UNSTABLE data (`RestartIsSilent`).
  `WriteWholeOutcome` says exactly what it returns, and `WriteWholeComplete` exactly when the data is
  there, and when it is stable.
- **After `RecordTooLarge` the stream position is lost.** The header is consumed and the data is
  then read as headers (`AfterOversized`), and this error does not cause a reconnect. Results about
  streams and replies hold up to the first such error, and again after a reconnect.
- **A `Vec` of elements that encode to nothing** reads back only if enough unrelated bytes follow
  (`EmptyElements`). Padding is not checked when decoding; `Exactness` says so precisely.
- **Paging stops silently at an empty page.** A listing is whole if and only if no page asked for
  before the end came empty (`CompleteExactly`); any tail can be lost (`TailIsLost`,
  `SecondEntryIsLost`).

## Model

| member | source | states |
|---|---|---|
| `XdrTheorems.RoundTrip` | crates/nfs-xdr/src/impls.rs:11-196 | for every well-formed schema, value and suffix, decoding the encoding followed by the suffix gives the value and leaves exactly the suffix |
| `XdrTheorems.SelfDelimiting` | crates/nfs-xdr/src/codec.rs:35-81 | two encodings that start the same stream are of the same value and leave the same rest: injective and self-delimiting |
| `XdrTheorems.WholeMessage` | crates/nfs-xdr/src/codec.rs:68-81 | `from_bytes` undoes `to_bytes`, and any extra bytes are reported with their exact number |
| `XdrTheorems.Exactness` | crates/nfs-xdr/src/codec.rs:53-65 | on any input, a successful decode gives a value of the type that re-encodes to exactly the bytes consumed, except that padding becomes zero |
| `XdrTheorems.Aligned` | crates/nfs-xdr/src/codec.rs:10-12 | every encoding is a multiple of four bytes |
| `XdrTheorems.StrictPrefix` | crates/nfs-xdr/src/impls.rs:127-196 | every strict prefix of an encoding is rejected, always as truncated, including by the early count check of nested arrays |
| `XdrTheorems.EmptyElements` | crates/nfs-xdr/src/impls.rs:153-170 | a `Vec` of `n` empty elements reads back if and only if at least `n` bytes follow it |
| `XdrTheorems.RoundTripArm` | crates/nfs-xdr-derive/src/lib.rs:308-366 | with distinct discriminants, the word an arm writes selects that arm and its fields come back |
| `XdrTheorems.RoundTripFields` | crates/nfs-xdr-derive/src/lib.rs:148-212 | struct fields with their limits come back in order, whatever follows |
| `XdrTheorems.EnumRoundTrip` | crates/nfs-xdr-derive/src/lib.rs:411-438 | with distinct discriminants an `enum32` value comes back as the same variant |
| `XdrTheorems.IntegerLayout` | crates/nfs-xdr/src/impls.rs:11-37 | every integer is written big-endian in four or eight bytes, negative ones as two's complement |
| `XdrTheorems.OpaqueLayout` | crates/nfs-xdr/src/codec.rs:35-49 | every opaque is its length as a big-endian word, the data, and fewer than four zeros up to a multiple of four |
| `XdrTheorems.BoolLayout` | crates/nfs-xdr/src/impls.rs:41-57 | `false` and `true` are the words 0 and 1 |
| `XdrTheorems.OptionalLayout` | crates/nfs-xdr/src/impls.rs:174-196 | optional data is the word 0, or the word 1 and the data, for every element type |
| `XdrTheorems.ArrayLayout` | crates/nfs-xdr/src/impls.rs:141-151 | a `Vec` of any element type is its count and then its elements' bytes in order |
| `XdrTheorems.LinkedLayout` | crates/nfs-proto/src/nfs3.rs:569-592 | a linked list is each element after the word 1, and a final 0 |
| `XdrTheorems.EnumLayout` | crates/nfs-xdr-derive/src/lib.rs:283-306 | an `enum32` value is the word of its discriminant |
| `XdrTheorems.StructLayout` | crates/nfs-xdr-derive/src/lib.rs:169-281 | a struct is its fields' bytes in order; a field over its limit, or that does not encode, is the error |
| `XdrTheorems.Rejections` | crates/nfs-xdr/src/impls.rs:48-170 | booleans over 1, unknown enum values and discriminants, and counts beyond the bytes left are rejected, each with its own error |
| `XdrTheorems.DataRejections` | crates/nfs-xdr/src/codec.rs:53-65 | data over the limit and strings that are not UTF-8 are rejected, each with its own error |
| `Xdr.EncodeOpaque` | crates/nfs-xdr/src/codec.rs:35-49 | fails exactly when the data exceeds the limit or a 32-bit length |
| `XdrCodec.ReadValue` | crates/nfs-xdr/src/impls.rs:11-196 | the cursor-advancing decoder computes the schema's decode, value, error and final position |
| `XdrCodec.ReadVec` | crates/nfs-xdr/src/impls.rs:153-170 | the counted loop equals the recursive element decoder, after the early count check |
| `XdrCodec.ReadLinked` | crates/nfs-proto/src/nfs3.rs:569-592 | the while-boolean loop accepts exactly the inputs, and yields exactly the lists, of the recursive optional-data grammar, and terminates |
| `XdrCodec.ReadArm` | crates/nfs-xdr-derive/src/lib.rs:440-461 | generated union decoding tries the cases in declaration order on the discriminant read |
| `XdrCodec.ReadMessage` | crates/nfs-xdr/src/codec.rs:75-81 | `from_bytes` over a cursor, with leftover bytes an error |
| `XdrCodec.WriteValue` | crates/nfs-xdr/src/impls.rs:11-196 | exactly the schema's encoding is appended to the buffer; on error the earlier bytes are intact |
| `XdrCodec.WriteVec` | crates/nfs-xdr/src/impls.rs:141-151 | the count and each element in turn amount to the array's encoding |
| `Protocols.MessagesSurvive` | crates/nfs-proto/src/nfs3.rs:130-244 | attributes, handles, `Sattr3`, `SetTime`, both directory pages, export and mount lists come back unchanged with any suffix and are never accepted cut short |
| `Protocols.MessagesWellFormed` | crates/nfs-proto/src/mount.rs:72-115 | those types have distinct discriminants and no empty array elements |
| `Protocols.Fattr3Layout` | crates/nfs-proto/src/nfs3.rs:149-176 | fattr3 is type, mode, nlink, uid, gid, size, used and the rest, in the order of section 2.5 of RFC 1813 |
| `Protocols.Fattr3Tail` | crates/nfs-proto/src/nfs3.rs:149-176 | the rest is rdev, fsid, fileid and the three times |
| `Protocols.SetTimeLayout` | crates/nfs-proto/src/nfs3.rs:214-228 | how a time is set: 0, 1, or 2 and the time |
| `Protocols.Sattr3Layout` | crates/nfs-proto/src/nfs3.rs:231-244 | sattr3 is mode, uid, gid, size, atime, mtime in this order |
| `Protocols.EntryLayout` | crates/nfs-proto/src/nfs3.rs:569-592 | a directory entry is fileid, name and cookie, and in READDIRPLUS then attributes and handle |
| `Protocols.PageLayout` | crates/nfs-proto/src/nfs3.rs:637-664 | a page is attributes, verifier, the linked entries and eof |
| `Protocols.MountLayouts` | crates/nfs-proto/src/mount.rs:72-115 | an export is its directory and linked groups, a mount its host and directory |
| `Record.ChunkingIndependence` | crates/nfs-rpc/src/record.rs:64-112 | over every interleaving of `push` and `next_record`, the records so far are a prefix of a whole-stream parse, all of it after `None`, and the first size error falls at the parse's record |
| `Record.RunResumes` | crates/nfs-rpc/src/record.rs:64-112 | the invariant of a run: records handed out plus what the buffered state still holds, with any continuation, are the parse of everything |
| `Record.NextResumes` | crates/nfs-rpc/src/record.rs:70-112 | one poll either hands out the first record still to come, or nothing changes, or the next record is oversized |
| `Record.FragmentationRoundTrip` | crates/nfs-rpc/src/record.rs:70-112 | any records within the limit, cut into any fragments including empty ones, parse back to those records whatever follows |
| `Record.OversizedFragments` | crates/nfs-rpc/src/record.rs:83-88 | a record over the limit is found out however it is cut, before it is complete |
| `Record.FragmentedDelivery` | crates/nfs-rpc/src/record.rs:64-112 | such a stream fed in any pieces never fails and comes back unchanged, in order |
| `Record.FrameRoundTrip` | crates/nfs-rpc/src/record.rs:19-27 | `frame` fails exactly from 2^31 bytes up, and a receiver gets the record back whole |
| `Record.FrameLayout` | crates/nfs-rpc/src/record.rs:19-27 | a framed record is one word, 2^31 plus its length, and its bytes |
| `Record.FragmentLayout` | crates/nfs-rpc/src/record.rs:70-112 | a record in two fragments is the first length with the top bit clear, the data, the second length with it set, the data |
| `Record.Conservation` | crates/nfs-rpc/src/record.rs:64-112 | every byte fed is in a header, in a record handed out or still buffered |
| `Record.RunBounded` | crates/nfs-rpc/src/record.rs:70-112 | record plus remaining fragment never exceed the limit, and after `None` at most the limit plus three bytes are buffered |
| `Record.NextProgress` | crates/nfs-rpc/src/record.rs:70-112 | polls that keep finding records run out |
| `Record.AfterOversized` | crates/nfs-rpc/src/record.rs:83-88 | after the size error the oversized fragment's data is parsed as headers and records |
| `Record.RecordReassembler.NextRecord` | crates/nfs-rpc/src/record.rs:70-112 | the loop's result and all four fields afterwards are those of the step function |
| `Record.RecordReassembler.PushData` | crates/nfs-rpc/src/record.rs:64-66 | the bytes are appended and nothing else changes |
| `RpcMessage.AuthBodyBound` | crates/nfs-rpc/src/auth.rs:14-68 | `AuthSysParams` encodes exactly when within its field limits, then to at most 340 bytes, and which limit error comes first |
| `RpcMessage.EncodeAuthIs` | crates/nfs-rpc/src/auth.rs:44-68 | so the 400-byte check never fires: a credential encodes exactly when its fields fit |
| `RpcMessage.CallParsesBack` | crates/nfs-rpc/src/message.rs:35-52 | a server recovers xid, program, version, procedure, credential and verifier, and the exact start of the arguments |
| `RpcMessage.CredentialParsesBack` | crates/nfs-rpc/src/auth.rs:14-68 | the credential body decodes to the parameters it was made from |
| `RpcMessage.ReplyParsesBack` | crates/nfs-rpc/src/message.rs:62-101 | every legal reply is understood, with its xid, its meaning and its exact result bytes |
| `RpcMessage.ReadReply` | crates/nfs-rpc/src/message.rs:62-101 | the cursor-driven parser computes the same on all bytes, malformed ones included |
| `RpcMessage.CallMessage` | crates/nfs-rpc/src/client.rs:167-180 | a message starts with the xid it was built for |
| `RpcMessage.CredentialLayout` | crates/nfs-rpc/src/auth.rs:14-68 | the credential body is stamp, machine name, uid, gid, and the counted gids |
| `RpcMessage.CallLayout` | crates/nfs-rpc/src/message.rs:35-52 | the call header is the words of section 9 of RFC 5531: xid, 0, 2, program, version, procedure, credential, empty verifier |
| `RpcMessage.MessageParsesBack` | crates/nfs-rpc/src/client.rs:167-180 | a message exists exactly when credential and arguments encode, and a server then finds the header and exactly the arguments |
| `RpcMessage.ReplyForms` | crates/nfs-rpc/src/message.rs:62-101 | every reply of section 9 of RFC 5531, written out as words, with what the caller is told |
| `RpcMessage.IllegalReplies` | crates/nfs-rpc/src/message.rs:62-101 | every other reply is an error: of the message as a whole, or of the call it names |
| `RpcClient.RpcClient.Call` | crates/nfs-rpc/src/client.rs:135-165 | own-reply safety: within 2^32 calls and up to the first `RecordTooLarge`, success decodes a reply the server produced for this call's own message, despite loss, duplicates, stale replies, half-received records and reconnects; completeness: a reply that the network brings before any fault, silence or oversized record is what is returned; the call that loses the position reports `RecordTooLarge`; at most three copies of the message and nothing else are sent, only one over TCP when reconnecting is off, and three before an error that might go away unless a connection is refused |
| `RpcClient.RpcClient.AttemptCall` | crates/nfs-rpc/src/client.rs:182-194 | one attempt returns what a function of the line and its script says: exactly the first reply to this call that arrives, or the first fault; it sends at most one copy, returns only a genuine result unless the position was lost before, and its discard loop terminates |
| `RpcClient.Judge` | crates/nfs-rpc/src/client.rs:187-193 | a message is discarded only if it parses and carries another id; otherwise its outcome is the call's |
| `RpcClient.RpcClient.RecvMessage` | crates/nfs-rpc/src/client.rs:215-276 | exactly the replies that have arrived whole are handed out, in order, each once, on streams and datagrams; none is lost |
| `RpcClient.RpcClient.Drain` | crates/nfs-rpc/src/client.rs:232-238 | every record in what has been read is queued: handed out plus queued is what has arrived |
| `RpcClient.RpcClient.Persist` | crates/nfs-rpc/src/client.rs:135-165 | the retry loop keeps what the first attempt brings and sends the same message again only after an error that might go away |
| `RpcClient.AnswerIsBrought` | crates/nfs-rpc/src/client.rs:135-276 | if the server answers the call's message with a success, cut in any way, and the answer is delivered, the network brings its decoded result, over TCP and UDP |
| `RpcClient.AttemptCompletes` | crates/nfs-rpc/src/client.rs:182-194 | an attempt for which the network brings a result returns it |
| `RpcClient.AwaitCompletes` | crates/nfs-rpc/src/client.rs:182-276 | over any interleaving of harmless events and of replies to other calls, waiting ends with the first reply to this call |
| `RpcClient.RpcClient.Extracted` | crates/nfs-rpc/src/client.rs:232-238 | a record that the reassembler hands out is a reply on this connection; a size error means the server sent an oversized one |
| `RpcClient.RpcClient.Reconnect` | crates/nfs-rpc/src/client.rs:278-283 | success restores the stream position and empties the queue; failure keeps the invariant |
| `RpcClient.RpcClient.BuildCall` | crates/nfs-rpc/src/client.rs:167-180 | the id is spent even when encoding fails, and no earlier message is touched |
| `RpcClient.RpcClient.SendMessage` | crates/nfs-rpc/src/client.rs:196-213 | at most this message reaches the network, framed on streams |
| `RpcClient.OwnReply` | crates/nfs-rpc/src/client.rs:182-194 | a reply with the latest call's id answers the latest call's message, however many others are about |
| `Wire.NthDistinct` | crates/nfs-rpc/src/client.rs:167-180 | fewer than 2^32 ids of a wrapping counter never repeat, wherever it starts |
| `RpcClient.StreamRecords` | crates/nfs-rpc/src/client.rs:215-276 | records found in a server's stream are its replies in order, up to the first oversized one |
| `Fattr4.BitmapExact` | crates/nfs-proto/src/nfs4.rs:310-322 | `bit_set` holds of `build_bitmap`'s result for exactly the listed bits |
| `Fattr4.BuildBitmap` | crates/nfs-proto/src/nfs4.rs:310-317 | the two loops build that bitmap, of the least sufficient width |
| `Fattr4.AttrsRoundTrip` | crates/nfs-proto/src/nfs4.rs:329-369 | any subset of supported attributes with any values, in ascending order under a bitmap naming it, decodes to exactly those and no others |
| `Fattr4.DecodeAttrsExact` | crates/nfs-proto/src/nfs4.rs:329-369 | conversely success yields exactly the attributes the bitmap names, each of its type |
| `Fattr4.BitmapNames` | crates/nfs-proto/src/nfs4.rs:310-322 | `build_bitmap` of the present attributes, in any order, is such a bitmap |
| `Fattr4.DecodeFattr4` | crates/nfs-proto/src/nfs4.rs:329-369 | the bit-by-bit loop computes that decoding, errors included |
| `Fattr4Record.RecordDecodes` | crates/nfs-proto/src/nfs4.rs:329-369 | for any subset of the twenty attributes and any values, their words written out in ascending order under the bitmap of their numbers decode to a record with exactly these fields |
| `Fattr4Record.OnlyTheseDecode` | crates/nfs-proto/src/nfs4.rs:329-369 | a bitmap that names any other attribute is never decoded |
| `Fattr4.SingleBit` | crates/nfs-proto/src/nfs4.rs:310-317 | attribute `n` alone is the bit `n % 32` of word `n / 32`, all words before it zero |
| `Fattr4.SetattrDecodes` | crates/nfs-proto/src/nfs4.rs:371-391 | the two values in ascending order decode, under their bitmap, to exactly the requested attributes |
| `Fattr4.SetattrRoundTrip` | crates/nfs-proto/src/nfs4.rs:371-391 | every `SetAttr4` written reads back as exactly what it asks for, with any suffix |
| `Compound.CompoundReadsBack` | crates/nfs-proto/src/nfs4.rs:401-672 | a reader of the grammar of RFC 7530 recovers from `finish` exactly the operations added, in order, with a matching count and nothing left over |
| `CompoundServer.FinishIsCarriedOut` | crates/nfs-proto/src/nfs4.rs:401-672 | a server that takes each argument by its position in RFC 7530 would carry out exactly the operations added, in order, attribute lists as sets |
| `CompoundServer.AssembledIsCarriedOut` | crates/nfs-proto/src/nfs4.rs:852-874 | in a session it would carry out one SEQUENCE on slot 0 with the given id, then exactly those operations |
| `CompoundServer.MeaningUnderstood` | crates/nfs-proto/src/nfs4.rs:415-662 | every operation's arguments are understood as that operation, including the fields it leaves no choice: share_deny, create mode and attributes, reclaim |
| `CompoundServer.OnlyItsMeaning` | crates/nfs-proto/src/nfs4.rs:415-662 | conversely, for operations without an attribute list, no other opcode or arguments are understood as that operation |
| `CompoundServer.SetAttrUnderstood` | crates/nfs-proto/src/nfs4.rs:639-644 | the bitmap and values of SETATTR are understood as the requested mode and size |
| `Compound.AssembleReadsBack` | crates/nfs-proto/src/nfs4.rs:852-874 | `assemble` emits the same operations with one SEQUENCE in front and one more in the count |
| `Compound.BuilderFollowsGrammar` | crates/nfs-proto/src/nfs4.rs:415-662 | for every operation, the primitives the builder writes one after another are the encoding of the nested structs and unions of the grammar |
| `Compound.OpReadsBack` | crates/nfs-proto/src/nfs4.rs:409-662 | one operation is read back with its meaning, whatever follows |
| `Compound.HandleLimit` | crates/nfs-proto/src/nfs4.rs:419-423 | `putfh` fails exactly for handles of more than 128 bytes |
| `Compound.SetattrArgument` | crates/nfs-proto/src/nfs4.rs:639-644 | the argument of SETATTR is what `encode_setattr_fattr4` writes |
| `Compound.SequenceIsOp` | crates/nfs-proto/src/nfs4.rs:861-873 | the bytes `assemble` writes in front are a SEQUENCE operation on slot 0 without caching |
| `Compound.NameLayouts` | crates/nfs-proto/src/nfs4.rs:415-662 | PUTFH, LOOKUP, REMOVE, LINK, RENAME, ACCESS and RENEW as opcode and argument words |
| `Compound.QueryLayouts` | crates/nfs-proto/src/nfs4.rs:415-662 | the operations without arguments, GETATTR and READDIR as words |
| `Compound.StateLayouts` | crates/nfs-proto/src/nfs4.rs:415-662 | READ, WRITE, COMMIT, OPEN_CONFIRM, CLOSE and LOCKU as words |
| `Compound.OwnerLayouts` | crates/nfs-proto/src/nfs4.rs:415-662 | LOCKT and LOCK by a new lock owner as words |
| `Compound.OpenLayouts` | crates/nfs-proto/src/nfs4.rs:415-662 | OPEN with and without create as words |
| `Compound.CreateLayouts` | crates/nfs-proto/src/nfs4.rs:415-662 | CREATE of directories and links, and SETATTR, as words |
| `Compound.MessageLayouts` | crates/nfs-proto/src/nfs4.rs:664-672 | COMPOUND4args as words, without and with SEQUENCE in front |
| `Compound.Compound.Add` | crates/nfs-proto/src/nfs4.rs:409-662 | every builder method appends exactly its operation and counts it; on the first encoding error the operation is counted and its bytes are cut short |
| `Compound.Compound.Finish` | crates/nfs-proto/src/nfs4.rs:664-672 | the message is the empty tag, minor version, count and the operations in the log |
| `Nfs4Reply.ParseCompoundResult` | crates/nfs-proto/src/nfs4.rs:689-699 | given a standard result, the reader yields the results or the overall status |
| `Nfs4Reply.StandardResultAsOpaque` | crates/nfs-proto/src/nfs4.rs:815-818 | but fetched as `Bytes`, a standard result is read exactly when as many bytes as its status, padded, follow it, and then yields the first of those |
| `Nfs4Reply.StandardStatusIsNeverSeen` | crates/nfs-proto/src/nfs4.rs:689-699 | whatever the status, count and size of a standard result with the client's empty tag, the reader never finds its status: the call is truncated, or what it returns reads as success or as malformed |
| `Nfs4Reply.StandardResultIsNeverRight` | crates/nfs-proto/src/nfs4.rs:807-850 | in minor version 0 `run`, and `run_raw` always, return no standard result as what it is; in no minor version does `run` return a success |
| `Nfs4Reply.StandardErrorAsSuccess` | crates/nfs-proto/src/nfs4.rs:807-839 | a standard NOTDIR answer to PUTFH and LOOKUP is returned as success |
| `Nfs4Reply.StandardSuccessIsRejected` | crates/nfs-proto/src/nfs4.rs:815-818 | a standard success is read as an empty opaque and ends in a truncation error |
| `Nfs4Reply.StandardResultIsNotRetried` | crates/nfs-proto/src/nfs4.rs:815-833 | hence no standard result, whatever its status, count and size, is retried |
| `Nfs4Reply.StandardBackoffIsNotSeen` | crates/nfs-proto/src/nfs4.rs:815-833 | in particular one with fewer bytes than its status is a truncation error |
| `Nfs4Reply.WrappedResultIsRead` | crates/nfs-proto/src/nfs4.rs:815-818 | a result wrapped in an opaque is read correctly |
| `Nfs4Reply.WrappedBackoffIsRetried` | crates/nfs-proto/src/nfs4.rs:828-833 | a wrapped GRACE or DELAY is retried, and shows the status of SEQUENCE |
| `Nfs4Reply.WrappedRetriedExactly` | crates/nfs-proto/src/nfs4.rs:828-833 | of wrapped results, exactly those with status 10008 or 10013 are retried |
| `Nfs4Reply.SessionResultIsRead` | crates/nfs-proto/src/nfs4.rs:820-827 | in a session, a success whose results begin with opcode 53, status 0, a session id and five words is returned as exactly what follows |
| `Nfs4Reply.SessionErrorIsRead` | crates/nfs-proto/src/nfs4.rs:820-827 | another opcode there is a protocol error, and another status is that status |
| `Nfs4Reply.OutcomeIsReturned` | crates/nfs-proto/src/nfs4.rs:807-839 | a failed call is returned as its error, an overall status other than 0 as that status, and in minor version 0 a success as its results |
| `Nfs4Session.CompoundsTakeEffectOnce` | crates/nfs-proto/src/nfs4.rs:807-874 | over every run of fewer than 2^32 requests with any loss, duplication or delay and any number of DELAYs by SEQUENCE, no compound takes effect twice if every retry answers a back-off that took the slot |
| `Nfs4Session.RetryIsSafeExactly` | crates/nfs-proto/src/nfs4.rs:828-833 | after such a run, one more retry is safe against everything the network may then deliver if and only if it is of that kind |
| `Nfs4Session.UngroundedRetryRepeats` | crates/nfs-proto/src/nfs4.rs:828-833 | a retry of the other kind has a continuation of deliveries alone after which a compound has taken effect twice |
| `Nfs4Session.CatchUp` | crates/nfs-proto/src/nfs4.rs:852-874 | the network can always deliver the requests not executed yet, in order, and each is executed |
| `Nfs4Session.CompoundsTakeEffectOnceOnSlotServers` | crates/nfs-proto/src/nfs4.rs:807-874 | at most once unconditionally when SEQUENCE never answers DELAY |
| `Nfs4Session.CompoundsTakeEffectOnceWithoutRetries` | crates/nfs-proto/src/nfs4.rs:807-874 | and when nothing is retried |
| `Nfs4Session.DelayedDuplicateTakesEffectTwice` | crates/nfs-proto/src/nfs4.rs:828-833 | a five-step run in which a compound takes effect twice, and the bytes of the reply that is retried |
| `Nfs4Session.Invariant` | crates/nfs-proto/src/nfs4.rs:852-874 | in every run the server executes consecutive requests, each once, and a compound gets a second request only after a back-off answer to the previous one |
| `Nfs4Session.NextToExecute` | crates/nfs-proto/src/nfs4.rs:852-874 | in every run the id the server waits for is that of the request after those it has executed |
| `Nfs4Session.FirstExecution` | crates/nfs-proto/src/nfs4.rs:910-917 | the first request executed is the one whose id follows the slot's initial value; the very first one exactly when `csr_sequence` is that value plus one |
| `Nfs4Session.LostRequestStopsSession` | crates/nfs-proto/src/nfs4.rs:858-860 | over every continuation in which no copy of the awaited request is delivered, the server executes nothing |
| `Nfs4Client.Nfs4.Run` | crates/nfs-proto/src/nfs4.rs:807-839 | between one and six calls of the RPC client, one more only after GRACE or DELAY; the first call's outcome is whatever the network brings for it; call `i` sends only copies of one message with sequence id `i` from the current one; all are requests for one new compound; the last outcome is returned; the session's history stays sound |
| `Nfs4Client.Nfs4.Attempt` | crates/nfs-proto/src/nfs4.rs:814-818 | one call: a sequence id is spent, the request and what the server answered meanwhile enter the history, and a back-off that is returned really was said of this request |
| `Nfs4Client.Nfs4.EffectsHappenOnce` | crates/nfs-proto/src/nfs4.rs:807-874 | end to end through the call engine: over every network, with fewer than 2^32 calls and up to the first `RecordTooLarge`, no compound passed to `run` takes effect twice on an honest server, as long as every retry followed a reply in which SEQUENCE had taken the slot |
| `Nfs4Client.Nfs4.EffectsHappenOnceOnStandardServers` | crates/nfs-proto/src/nfs4.rs:807-874 | the same without either condition when the replies since the session began have the standard form |
| `Nfs4Client.RetryAfterBackoff` | crates/nfs-proto/src/nfs4.rs:828-833 | a run that meets those conditions: a request backed off in its slot, then its retry executed, once |
| `Nfs4Client.Nfs4.Assemble` | crates/nfs-proto/src/nfs4.rs:852-874 | a sequence id is spent for every message; none without a session |
| `Nfs4Client.BackoffHeard` | crates/nfs-proto/src/nfs4.rs:828-833 | if a call's own reply says to back off, the history has the server backing off from this very request |
| `Nfs4Client.OwnAnswer` | crates/nfs-rpc/src/client.rs:182-194 | the reply that answers a call was produced during that call |
| `OpenOwner.AgreementIsNoting` | crates/nfs-proto/src/nfs4.rs:1054-1152 | against the server of section 9.1.7 of RFC 7530, with late, repeated and lost messages, client and server counters agree throughout a run if and only if every status given that is not exempt was given during an exchange that the client then took for success |
| `OpenOwner.ResendsAreHarmless` | crates/nfs-proto/src/nfs4.rs:1054-1152 | a further copy of a message that was ruled on changes nothing, and one still waited for gets the first ruling again |
| `OpenOwner.LateCopyDisagrees` | crates/nfs-proto/src/nfs4.rs:1054-1152 | a copy of a message never ruled on (an exempt error, or lost) that arrives after its exchange is over parts the counters |
| `OpenOwner.OwnSuccessExactly` | crates/nfs-proto/src/nfs4.rs:1054-1152 | whatever arrives, a success that the exchange under way can note is its own operation's if and only if no earlier message of the same kind carries the same id |
| `OpenOwner.SecondOpenTakesTheFirst` | crates/nfs-proto/src/nfs4.rs:1061-1081 | a run in which the counters agree throughout and a second OPEN notes the success of the first |
| `OpenOwner.DriftIsForGood` | crates/nfs-proto/src/nfs4.rs:1054-1152 | after the first error that is not exempt, in every continuation the counters differ, the client's never moves, and every message is answered with that error, BAD_SEQID or before its operation is reached |
| `OpenOwner.NeverAgainAgrees` | crates/nfs-proto/src/nfs4.rs:1054-1152 | the same from any state in which the server is one ahead with an error cached |
| `OpenOwner.MissingFileStartsDrift` | crates/nfs-proto/src/nfs4.rs:1070-1081 | the shortest run that gets there: an OPEN answered NOENT |
| `OpenOwner.OrdinaryErrorsStick` | crates/nfs-proto/src/nfs4.rs:1070-1081 | every status but success and the exempt ones leads there, NOENT, DENIED and DELAY among them |
| `OpenOwner.WireIsConsecutive` | crates/nfs-proto/src/nfs4.rs:1054-1152 | in every run the ids sent are consecutive modulo 2^32, each repeated until an exchange with it succeeds; while every ruling is noted, what is sent is what is expected |
| `OpenOwner.Owner.Agreement` | crates/nfs-proto/src/nfs4.rs:1054-1152 | whatever calls led here, `open_seqid` is the expected id if every ruling was noted |
| `OpenOwner.Owner.Exchange` | crates/nfs-proto/src/nfs4.rs:807-839 | up to six messages with the current id, which is spent exactly on success |
| `OpenOwner.ExchangeStep` | crates/nfs-proto/src/nfs4.rs:807-839 | round by round: the reply is the answer that gets through, and statuses 10008 and 10013 lead to another round, six at most |
| `OpenOwner.AdvancesExactly` | crates/nfs-proto/src/nfs4.rs:1054-1152 | the client advances exactly on a finished success of the kind it asked for, for OPEN without a delegation |
| `OpenOwner.DelegationDisagrees` | crates/nfs-proto/src/nfs4.rs:1070-1081 | an OPEN granted with a delegation parts the counters whichever reply gets through |
| `OpenOwner.ExemptExactly` | crates/nfs-proto/src/nfs4.rs:1054-1152 | the eight statuses on which section 9.1.7 of RFC 7530 does not advance |
| `OpenOwner.Owner.Open` | crates/nfs-proto/src/nfs4.rs:1054-1097 | OPEN and, if asked for, OPEN_CONFIRM with the next id; an OPEN that succeeded has spent its id even when the confirmation fails |
| `OpenOwner.Owner.Close` | crates/nfs-proto/src/nfs4.rs:1100-1110 | the id is spent exactly on success |
| `OpenOwner.Owner.Lock` | crates/nfs-proto/src/nfs4.rs:1112-1152 | the same, and every attempt makes a new lock owner |
| `Path.ResolveLoop` | crates/nfs-client/src/context.rs:161-189 | the splicing worklist returns what the recursive resolver returns, terminates, and does at most one lookup per component of the path plus forty times the widest link target |
| `Path.LinkMeansTarget` | crates/nfs-client/src/context.rs:175-183 | if `p` leads to a directory in which `l` is a link, `p/l/q` is `p/target/q` with one link fewer when the target is relative, and `target/q` from the root when it begins with a slash |
| `Path.LastLinkFails` | crates/nfs-client/src/context.rs:175-183 | with no link left, a link that is to be followed ends the walk in `TooManySymlinks` |
| `Path.NameMeansEntry` | crates/nfs-client/src/context.rs:161-189 | any other name leads to what the directory holds under it, a final link too when it is not followed; "." leads nowhere else |
| `Path.WalkConcat` | crates/nfs-client/src/context.rs:161-189 | for non-empty `q`, walking `p/q` is walking `p` with following and then `q` from there with the links left |
| `Path.WalkSplice` | crates/nfs-client/src/context.rs:175-183 | splicing a link's target in front of the rest is walking the target first |
| `Path.BudgetIsExact` | crates/nfs-client/src/context.rs:161-189 | `TooManySymlinks` exactly when the unlimited walk crosses more than forty links; otherwise the answer is where that walk ends |
| `Path.ResolveParent` | crates/nfs-client/src/context.rs:192-201 | the directory that all but the last component lead to, and that component; the root has none |
| `Path.SplitJoin` | crates/nfs-client/src/context.rs:501-506 | splitting undoes joining, which `resolve_parent` relies on |
| `Path.SplitComponents` | crates/nfs-client/src/context.rs:501-506 | no component is empty or holds a slash |
| `Path.SplitSlash` | crates/nfs-client/src/context.rs:501-506 | a slash separates wherever it stands: splitting `a/b` is splitting both |
| `Path.SplitPlain` | crates/nfs-client/src/context.rs:501-506 | a path without a slash is one component, or none when empty |
| `Path.WalkStable` | crates/nfs-client/src/context.rs:161-189 | a walk that succeeds keeps its result when names are added |
| `Path.ResolveByParent` | crates/nfs-client/src/context.rs:192-201 | when the last name is no link, resolving a path and looking up its last name in its parent agree |
| `FileIo.NfsContext.Pread` | crates/nfs-client/src/context.rs:269-286 | exactly the bytes of the file in the window, however the server cuts the reads, unless a restart takes away UNSTABLE content of this file meanwhile; it fails exactly at the first READ that fails, with its error |
| `FileIo.WindowBytes` | crates/nfs-client/src/context.rs:269-286 | byte by byte, the window is what the file holds from the offset on |
| `FileIo.NfsContext.Pwrite` | crates/nfs-client/src/context.rs:290-305 | the loop computes the recursive form; without a restart the file is overlaid with exactly the first `written` bytes and nothing else changes, after an error with some prefix |
| `FileIo.WriteAllStep` | crates/nfs-client/src/context.rs:290-305 | chunk by chunk: an error or a short write ends it, a whole chunk leads to the next |
| `FileIo.WriteAllOutcome` | crates/nfs-client/src/context.rs:290-305 | it fails exactly when a WRITE is refused before one is cut short, with that refusal |
| `FileIo.OverlayBytes` | crates/nfs-client/src/context.rs:290-305 | byte by byte, an overlay is the data where it goes, the file elsewhere and zeros in a gap |
| `FileIo.WriteAllOverlays` | crates/nfs-client/src/context.rs:290-305 | the same of the recursive form, for every server that does not restart |
| `FileIo.ProgressKeeps` | crates/nfs-client/src/context.rs:290-305 | a new file gets all its bytes when every chunk is taken whole and restarts in between lose nothing but zeros |
| `FileIo.ProgressFails` | crates/nfs-client/src/context.rs:290-305 | otherwise neither its content nor its stable part is the data, however the rest goes |
| `FileIo.NfsContext.WriteWhole` | crates/nfs-client/src/context.rs:255-322 | the result is that of `WriteWholeOutcome`; success means that the path names a plain file, which holds the data under exactly the condition of `WriteWholeComplete` |
| `FileIo.WriteWholeOutcome` | crates/nfs-client/src/context.rs:255-322 | it succeeds if and only if the path has a parent, create and truncation are served, no WRITE is refused before the first short one or the end, and CLOSE is served in version 4; otherwise the error is that of CLOSE if it fails, else that of the first request refused |
| `FileIo.CreateOutcome` | crates/nfs-client/src/context.rs:227-248 | exactly when creating and truncating succeeds, and with which error it fails |
| `FileIo.NfsContext.ReadWhole` | crates/nfs-client/src/context.rs:308-314 | the opened file cut to the size of the followed one; nothing changes; an error is that of resolving, of the attributes, of opening or of a READ |
| `FileIo.NfsContext.CreateFile` | crates/nfs-client/src/context.rs:227-248 | the name exists as an empty plain file and no other name changed |
| `FileIo.WholeFileRoundTrip` | crates/nfs-client/src/context.rs:308-322 | what `read_whole` returns is what the file holds after `write_whole` |
| `FileIo.NfsContext.WriteThenRead` | crates/nfs-client/src/context.rs:308-322 | `write_whole` and then `read_whole`, both succeeding: the data comes back exactly under that condition if no restart can change the file in between, and always if COMMIT got it all |
| `FileIo.WriteWholeComplete` | crates/nfs-client/src/context.rs:255-322 | whenever `write_whole` succeeds, the file holds the data if and only if no WRITE was cut short and no restart up to CLOSE lost UNSTABLE data (other than zeros that a later gap restores); it is stable if and only if COMMIT got it all |
| `FileIo.ShortWriteIsSilent` | crates/nfs-client/src/context.rs:319 | a run in which `write_whole` succeeds and one byte of three is stored |
| `FileIo.RestartIsSilent` | crates/nfs-client/src/context.rs:255-262 | a run in which every byte is taken, the server restarts, COMMIT is served, `write_whole` succeeds and the file is empty |
| `FileIo.Preferred` | crates/nfs-client/src/backend.rs:136-138 | the chunk size is FSINFO's brought to the nearest value between 32 KiB and 1 MiB, 64 KiB without an answer, 256 KiB in version 4 |
| `Readdir.List` | crates/nfs-client/src/backend_v3.rs:225-248 | the loop terminates and returns exactly the first `k` entries of the listing, the `i`-th being the `i`-th converted, where `k` is how many were reached; or the server's error |
| `Readdir.ReachedStep` | crates/nfs-client/src/backend_v3.rs:225-248 | how far a listing gets, page by page: an error ends it, as does an empty page or one that reaches the end and says so |
| `Readdir.CompleteExactly` | crates/nfs-client/src/backend_v3.rs:225-248 | a listing is the whole one if and only if no page asked for before the end came empty |
| `Readdir.TailIsLost` | crates/nfs-client/src/backend_v4.rs:154-175 | any tail of any directory is lost without an error by one empty page in front of it |
| `Readdir.SecondEntryIsLost` | crates/nfs-client/src/backend_v4.rs:154-175 | a directory of two entries listed as one |
| `Readdir.NextPage` | crates/nfs-client/src/backend_v4.rs:154-175 | the cookie and verifier of the entries seen so far yield the contiguous entries after them |
| `Readdir.TakePage` | crates/nfs-client/src/backend_v4.rs:154-175 | a page is appended whole, entry by entry in order, and the cookie is that of its last entry |

## Left out

- Xdr.Decode: `usize` is unbounded, so the `limit` values of a 32-bit platform do not arise; floats are their bit patterns.
- XdrCodec.WriteLinked: the client only decodes linked lists; the encoder is the server's side, needed to state the round trip.
- Compound.Compound.Add: `nops` does not wrap, because a compound of 2^32 operations is required away.
- Nfs4Client.Nfs4.EffectsHappenOnce: the server is the slot of section 2.10.6.1 of RFC 8881, every copy it processes produces a reply (which may never arrive), and it is honest: a back-off in which SEQUENCE took the slot comes from a request executed without effect; conditional on the SEQUENCE status of retried replies, without which it is false.
- OpenOwner.AgreementIsNoting: runs of at least 2^32 - 1 messages, in which ids come round again, are not covered; whether a server compares a repeated id's request with the cached one is not modelled, it answers from the cache.
- Nfs4Client.Nfs4.Run: that a reply which arrives is returned is stated for the first call of a `run`; after a back-off the line is what the earlier calls left.
- OpenOwner.Owner.Exchange: the open owner's exchanges are modelled over their own network and server, not over the RPC client.
- FileIo.NfsContext.Pread: offsets are unbounded; the source's 64-bit additions are not modelled. Nothing is said of a file whose UNSTABLE content a restart takes away while it is read.
- FileIo.WholeFileRoundTrip: the last component is not ".", which `resolve` skips and `resolve_parent` does not, and the created target is not a link, since `open` does not follow a final one.
- CompoundServer.OnlyItsMeaning: attribute lists can be written in several ways (trailing zero words), so GETATTR, READDIR, SETATTR and creating operations are left to the other direction.
- Readdir.List: the decoding of one NFSv4 directory entry into its name and attributes is a parameter.
- The handshakes: EXCHANGE_ID, CREATE_SESSION, RECLAIM_COMPLETE, SETCLIENTID and SETCLIENTID_CONFIRM enter only through the sequence id that they install.
- Other arms of createtype4, open_claim4 and of the operations that the client never sends; `Mountres3` and the per-procedure NFSv3, MOUNT, NLM, NSM, RQUOTA and portmapper calls, each one call and a status check.
- Real sockets, clocks, back-off sleeps, random seeds, TLS, the asynchronous wrappers, the C interface, URL parsing and attribute conversion.
