# Sealink: a Dafny model

Sealink is a chat client (`sealink/`) and a threaded server (`Linpop_Server/`). This project models the parts
whose correctness spans many functions, and proves what they keep over all inputs and all runs:

- **MD5** (`Md5Block`, `Md5`, `KnownAnswer`): the unrolled block function is the table-driven loop of section 3.4 of RFC 1321
  and a permutation of the registers; the in-place streaming context, with its bit counter split over two
  wrapping words, gives the one-shot digest of sections 3.1 to 3.5 however the message is cut; and the digest of the
  empty message, computed step by step, is the one of appendix A.5.
- **The encrypted channel** (`Transfer`, `Cbc`, `Packet`, `Session`): short reads and writes, CBC (section 6.2
  of NIST SP 800-38A) under the padding of section 6.3 of RFC 5652, packets made of a size block and a body, and
  one initial vector per session that every packet in either direction, on either socket, advances. Half-duplex
  sessions behave as a plain queue; for every other schedule it is stated exactly which reads succeed.
- **Notifications** (`Lookup`, `Push`, `Conversation`, `Relay`): the handler reads a notification and, before the
  next, looks up names with requests of its own on the command socket, over the same vector. When client and server
  take turns, what the server prints is shown, to the byte, exactly up to the size limit; when notifications queue
  up, exactly as far as the two vectors stay in touch.
- **The server** (`Server` is the specification as a step relation; `Online`, `Database`, `Handler`,
  `ServerMain` are the heap list, the tables, the request handlers and the process, each proved to carry out
  those steps; `Runs`, `Fanout`, `Provenance`, `Effects`, `Views` are what holds of every run; `Race` is the online list
  under its real locking). The run theorems are about `Server`, and `ServerMain.Run` transfers them to the heap.
- **Accounts** (`Accounts`): the stored password digest and the login check.

`Bytes` holds machine bytes, words and their little-endian layout. Objects that the C code updates in place are
classes here (`Md5.Context`, `Transfer.Pipe`, `Online.Client`, `Online.OnlineList`, `Database.Tables`,
`Accounts.UserTable`, `Handler.ChatServer`, `ServerMain.Process`).

## Where the code does less than it seems to

These are properties one would expect that the code does not have; each is proved with its exact condition.

- `MD5Update` does not end for every length: `i + 64` wraps. It ends if and only if the input is shorter than
  2^32 less the buffered bytes (or less 64 when none are buffered): `Md5.LoopEndsIff`.
- A packet read under a vector other than its own arrives if and only if the two agree on the four size bytes and
  nearly agree on the padding byte of the header (`Packet.ReadUnderWrongIvIff`); over any schedule, everything
  arrives if and only if that holds at each read (`Session.AllArriveIff`). When a notification crosses a command,
  both must hold, each way; even then the ends are left on two chains, in step again only if these happen to meet
  (`Session.CrossingIff`). Under every key, and from every vector, there are texts with which this fails
  (`Packet.SomeTextDisagrees`, `Relay.CrossingLost`).
- Notifications that queue up are not all heard. The handler looks up the sender's name after most of them, under a
  vector the server has left behind by printing the next one: unless the two agree the server cannot read the request
  and hangs up, and the client goes on to use the reply it did not get. `Push.SmoothIff` is the exact condition,
  `Push.HearUntilAsked` what is shown otherwise, and `Push.LastAsks` the harmless case that nothing is printed behind
  a notification that is looked up. Under every key and from every vector there is a message that is lost behind a
  login this way (`Push.TwoInFlightLost`), and a run of five events that prints the two (`Views.RunLosesText`).
- Packets above 65519 bytes are written but refused by the reader (`Packet.ReadWritten`). Of a group message the
  server takes announced lengths up to 65536, reads texts up to 65519 (`Relay.GroupTextReadIff`), and a member is shown
  one of up to 65515 (`Relay.GroupMessageHeardIff`); a friend list arrives only up to 16379 entries
  (`Relay.FriendListReadIff`); and whatever is too long ends the conversation (`Conversation.ConverseExactly`).
- A message to somebody offline leaves its text unread in front of the next request: `Relay.ConsumedIffOnline`.
- A file transfer carries no length: the sender goes by its offer and the receiver by the last offer it was shown.
  They agree in every run (`Views.FileSizeKnown`), not by the transfer itself (`Transfer.TransferFile`).
- A saved file keeps the tail of a longer file that was there before, as it is opened without truncation:
  `Transfer.OverwrittenExactIff`.
- A password longer than 32 bytes can be registered but never used: `Accounts.LoginIff`.
- A connection that logs in again forgets the client it held, which then stays online for ever; exactly these are
  the users no connection can take down: `Runs.OrphansExactly`.
- `login_AddClient` searches and appends under two separate locks. However the
  pending calls finish, uids stay unique if and only if no search ends while another thread is between search and append with the same uid:
  `Race.NeverTwiceIff`; `Race.TwoLoginsBothSucceed` is such a bad run, for any uid.
- The handler has no branch for a cancelled file: it reads the header and shows nothing (`Push.Visible`).

Comments in the code that the code does not follow, and the model therefore neither: `login_NotifyAll` marks
`msg->uid = c->uid` as a broadcast, but sends the sender's uid; `AES128_cbc` speaks of PKCS 5, whose block is 8
bytes, and pads to 16. The MD5 in `common.c` is compiled only with `_STATIC_MD5`, which neither Makefile sets; the
library call that stands in its place is assumed to compute the same digest.

## Assumptions

- Allocation succeeds, also of zero bytes. Words are stored little-endian and a `PACKET` has 76 bytes.
- The block cipher is any pair of functions on 16-byte blocks of which one undoes the other. Both ends start from
  the same key and vector, as the handshake leaves them.
- In `Server` and everything about its runs, each call on the online list, each request and each notification is
  one step; `Race` gives up the first of these. A push socket either takes a whole notification or has failed for good.
- Database statements fail only on a duplicate primary key or, for group rows, on a user that does not exist, and a
  connection to the database can be made. Whether a new name was stored comes with the request.
- While the handler waits for a name nothing else is sent to it or by its other threads, and the command socket
  works. A client that waits for ever and one that crashes are both simply stuck.
- The group id drawn at random, the outcome of the password check and of connecting back, and what a request's second
  packet left in memory come with the event.

## Model

| member | source | states |
|---|---|---|
| Bytes.FromLeLe | Linpop_Server/common.c:234-261 | a number that fits in k bytes is recovered from its k little-endian bytes |
| Bytes.LeFromLe | Linpop_Server/common.c:234-261 | any bytes are recovered from the number they encode, which is below 256^k |
| Bytes.LeTwoWords | Linpop_Server/common.c:222-233 | a 64-bit count is stored as its low word followed by its high word |
| Md5Block.Round1 | Linpop_Server/common.c:270-285 | the 16 unrolled FF steps, which rename registers, equal steps 1 to 16 of the RFC's rotating loop |
| Md5Block.Round2 | Linpop_Server/common.c:287-303 | the 16 unrolled GG steps equal steps 17 to 32 of the loop |
| Md5Block.Round3 | Linpop_Server/common.c:305-321 | the 16 unrolled HH steps equal steps 33 to 48 of the loop |
| Md5Block.Round4 | Linpop_Server/common.c:323-339 | the 16 unrolled II steps equal steps 49 to 64 of the loop |
| Md5Block.RoundsPermute | Linpop_Server/common.c:144-172 | over any word arithmetic whose additions and rotations can be undone, any stretch of steps is undone by the inverse steps in reverse, and conversely |
| Md5Block.Word32Invertible | Linpop_Server/common.c:144 | 32-bit wrapping addition and all sixteen rotation amounts can be undone |
| Md5Block.BlockPermutesState | Linpop_Server/common.c:262-339 | for every 64-byte block the 64 steps are a permutation of the four registers: the inverse undoes them from either side |
| Md5Block.FSelects | Linpop_Server/common.c:140 | F takes its second operand where the first has ones and its third elsewhere |
| Md5Block.GSelects | Linpop_Server/common.c:141 | G takes its first operand where the third has ones and its second elsewhere |
| Md5Block.HParity | Linpop_Server/common.c:142 | H is the parity of its three operands |
| Md5Block.ISelects | Linpop_Server/common.c:143 | where its third operand has ones, I is the parity of the other two, elsewhere the complement of the second |
| Md5Block.Encode | Linpop_Server/common.c:234-247 | the loop writes each word's four bytes, low byte first, in order |
| Md5Block.Decode | Linpop_Server/common.c:248-261 | the loop reads words of four bytes, low byte first, in order |
| Md5Block.DecodeEncode | Linpop_Server/common.c:234-261 | decoding undoes encoding for every list of words |
| Md5Block.EncodeDecode | Linpop_Server/common.c:234-261 | encoding undoes decoding for every word-aligned length |
| Md5Block.Transform | Linpop_Server/common.c:262-345 | decode, four unrolled rounds and the final additions equal the table-driven compression function |
| Md5.PaddedLength | Linpop_Server/common.c:222-233 | the padded message is a multiple of 64 bytes long |
| Md5.PaddedShortest | Linpop_Server/common.c:227 | no shorter padding leaves room for exactly the 8 length bytes |
| Md5.CountIndex | Linpop_Server/common.c:199 | the low counter word alone gives the number of buffered bytes, whatever has wrapped |
| Md5.CountStep | Linpop_Server/common.c:201-204 | the shift, the carry test and the `>> 29` keep both counter words exact for every input length |
| Md5.CountValue | Linpop_Server/common.c:201-204 | the two words together are 8 times the bytes absorbed, modulo 2^64 |
| Md5.CountBytes | Linpop_Server/common.c:228-230 | encoding the two words gives the 8 little-endian bytes of the 64-bit bit count |
| Md5.LoopEndsIff | Linpop_Server/common.c:206-213 | the block loop's guard ever fails if and only if the input is shorter than the stated limit |
| Md5.FoldAppend | Linpop_Server/common.c:209-211 | compressing block by block distributes over concatenation at block boundaries |
| Md5.Context.constructor | Linpop_Server/common.c:186-195 | the fresh context represents the empty message |
| Md5.Context.CompressBlocks | Linpop_Server/common.c:210-211 | the loop compresses exactly the complete blocks and stops less than a block before the end |
| Md5.Context.Update | Linpop_Server/common.c:196-220 | the context represents the old message followed by the input: state, counter and live buffer prefix |
| Md5.Context.Final | Linpop_Server/common.c:222-233 | whatever pieces were absorbed, the result is the one-shot digest of the message, and the buffer ends empty on the padded message |
| Md5.DigestOfChunks | Linpop_Server/common.c:186-233 | every way of cutting a message into calls gives the digest of the whole |
| KnownAnswer.EmptyDigest | Linpop_Server/common.c:186-345 | the digest of the empty message is the d41d8cd98f00b204e9800998ecf8427e of appendix A.5 of RFC 1321, through all 64 steps |
| Md5.Md5Text | Linpop_Server/common.c:347-357 | the hexadecimal digest, of the first len mod 2^32 bytes |
| Md5.ToHex32 | Linpop_Server/common.c:119-130 | the loop prints each of 16 bytes as its high and its low digit, in order, from the digits 0123456789abcdef |
| Md5.HexText | Linpop_Server/common.c:119-130 | the text of a digest of any length has at 2i and 2i + 1 the high and the low digit of byte i |
| Md5.HexInjective | Linpop_Server/common.c:119-130 | different digests have different texts |
| Md5.HexLowercase | Linpop_Server/common.c:126 | the text has only the characters 0-9 and a-f |
| Transfer.ReadAll | Linpop_Server/common.c:65-77 | for every pattern of short reads, exactly the next len bytes in order and nothing beyond them; on failure a shorter prefix is consumed; without faults it succeeds if and only if enough bytes are there |
| Transfer.WriteAll | Linpop_Server/common.c:79-91 | for every pattern of short writes, exactly the bytes are appended in order; on failure a proper prefix of them |
| Transfer.StartFileTransfer | sealink/server.c:387-439 | the whole file, as far as its announced size, is read into memory, and starting fails if and only if it is shorter |
| Transfer.FileTransferThread | sealink/server.c:369-385 | a prefix of the buffer gets out, without faults all of it; the write's result is nobody's |
| Transfer.FetchFile | sealink/server.c:441-486 | the saved file has the received bytes first, and behind them, if the file that was there was longer, its bytes from that place on |
| Transfer.TransferFile | sealink/server.c:369-486 | both halves together save the file's leading bytes, as many as the receiver expected, in front of what was left of a longer old file; without faults they succeed if and only if that is no more than the sender offered and the file is long enough |
| Transfer.OverwrittenExactIff | sealink/server.c:476-483 | the saved file is exactly what was received if and only if no longer file was there before |
| Transfer.OverwrittenSaved | sealink/server.c:476-483 | opening without truncation leaves the longer of the two lengths: the new bytes, and the old ones from there on |
| Cbc.DecryptEncrypt | Linpop_Server/common.c:388-394 | CBC decryption undoes CBC encryption under the same key and vector, for any number of blocks |
| Cbc.WrongIv | Linpop_Server/common.c:394 | under a wrong vector only the first block is damaged, by the difference of the vectors, and the next vector is the right one |
| Cbc.EncryptChains | Linpop_Server/common.c:388 | every block of the ciphertext, however many, is the enciphered exclusive or of that plaintext block and the ciphertext block before it, the vector before the first |
| Cbc.DecryptUnchains | Linpop_Server/common.c:394 | every block of the plaintext is the deciphered block and the ciphertext block before it, or the vector, one over the other |
| Cbc.EncryptAppend | Linpop_Server/server.c:234-270 | encrypting two texts, the second under the vector the first leaves behind, is encrypting them as one |
| Cbc.OpenSealed | Linpop_Server/common.c:379-403 | unpadding undoes padding for every length, truncated to maxlen |
| Cbc.PadBuffer | Linpop_Server/common.c:381-386 | the buffer holds the input and behind it 1 to 16 bytes, up to a multiple of 16, each of which is their number |
| Cbc.EncryptCbc | Linpop_Server/common.c:379-388 | each block of the output is the enciphered exclusive or of the padded input's block with the output block before it, or with the vector; the result is the length cut at maxlen, the vector left behind is the last block, if there is one, and nothing beyond is written |
| Cbc.DecryptCbc | Linpop_Server/common.c:389-403 | output, result and vector in every case: bad length, bad padding, truncated and complete; nothing beyond the result is written |
| Packet.ReadWritten | Linpop_Server/server.c:188-270 | read under the writer's vector, a packet yields its first maxsize bytes, leaves what follows it, and hands on the writer's next vector, if and only if it has at most 65519 bytes |
| Packet.ReadUnderWrongIvIff | Linpop_Server/server.c:196-224 | read under another vector it arrives intact if and only if the vectors agree on the size bytes and nearly on the padding byte |
| Packet.WrongIvShort | Linpop_Server/server.c:196-231 | a lone packet that does not arrive yields less than its whole blocks, so no reader takes it for a complete one |
| Packet.WireIsOneChain | Linpop_Server/server.c:234-270 | header and body are one chain over the padded size field, little-endian, and the padded content |
| Packet.SomeTextDisagrees | Linpop_Server/server.c:234-270 | for every key, and from any vector, some text of fifteen bytes leads to a vector that does not agree with a given one |
| Packet.WritePacket | Linpop_Server/server.c:234-270 | appends exactly the packet's bytes and advances the vector to its last block |
| Packet.ReadPacket | Linpop_Server/server.c:188-232 | returns, consumes and chains exactly what the wire format says; NULL only where it says so |
| Session.Directions | Linpop_Server/server_main.c:18-28 | commands go out under the client's vector, replies and notifications under the server's, each advances its own and is read under the other's |
| Session.SendKeepsStep | Linpop_Server/server.c:234-270 | the ciphertext in flight goes on chaining from the receiver's vector to the sender's when a packet is sent |
| Session.ReceiveKeepsStep | Linpop_Server/server.c:188-232 | and when one is received, which yields exactly the oldest packet's bytes |
| Session.RunRefinesFifo | Linpop_Server/server.c:188-270 | every half-duplex run of any length returns what a plain queue returns |
| Session.SessionRefinesFifo | Linpop_Server/server_main.c:18-28 | from a fresh session, and when everything is read the two vectors are equal and the streams empty |
| Session.TurnsAreHalfDuplex | sealink/server.c:220-302 | packets that take turns, in whatever directions they go, are such a schedule |
| Session.InStepEmpty | sealink/server.c:220-302 | with nothing in flight the invariant says exactly that the vectors are equal and the streams empty |
| Session.AllArriveIff | Linpop_Server/server_main.c:64 | over every schedule on the three streams, all reads return what was written if and only if at each the packet's vector agrees with the reader's, who then holds the packet's next one |
| Session.ReceiveCarries | Linpop_Server/server.c:188-232 | one read is right if and only if the vectors agree, and then leaves on the streams exactly what is still on its way |
| Session.PacketCodecFaithful | Linpop_Server/server.c:188-270 | the real packets meet the round-trip contract the session theorems are stated over |
| Session.PacketCodecExact | Linpop_Server/server.c:188-270 | and the exact one for vectors that differ, which the notification theorems are stated over |
| Session.PacketSession | sealink/server.c:220-302 | so sessions of real packets over the command and push sockets are plain queues |
| Session.CrossingIff | Linpop_Server/server_main.c:64 | when a notification and a command cross, each is received if and only if its vector agrees with the one after the other; if both are, the ends are in step again if and only if the two chains happen to meet |
| Lookup.GetNameAnswered | Linpop_Server/protocol.c:335-352 | the server takes a lookup request for what it is, and answers with the stored name or its absence |
| Lookup.AnsweredIff | Linpop_Server/server_main.c:243-255 | only a packet of full size with the right magic and type is answered, and then with the name of the uid it carries |
| Lookup.GetNameFields | sealink/handler.c:211-220 | a request holds magic, type and uid in their places, and zeros elsewhere |
| Lookup.ResultFields | Linpop_Server/protocol.c:321-333 | an answer holds magic, type, result and the name's field in their places, and zeros elsewhere |
| Lookup.NameInResult | sealink/handler.c:222-225 | the client takes from the answer the first 31 bytes at most of the stored name, then zeros up to 32, and nothing from a refusal |
| Lookup.NameRecovered | sealink/user_dao.c:17-30 | as a C string, a name of at most 31 bytes without a zero comes back exactly as it is stored |
| Lookup.LookUpIff | sealink/user_dao.c:17-30 | a lookup is answered if and only if the two vectors agree; then it makes them equal, and the name is the stored one, its first 31 bytes at most and zeros up to 32 |
| Lookup.LookUpTimesIff | sealink/handler.c:450-471 | of several lookups in a row, whatever names change between them, only the first can fail |
| Lookup.Peer.Respond | Linpop_Server/server_main.c:243-255 | what the server reads, answers and advances to; silence on anything it cannot read or does not know |
| Lookup.QueryUserName | sealink/user_dao.c:17-30 | with the server answering in between, the two vectors and sockets end as the specification of a lookup says, and an answer brings the stored name, its first 31 bytes at most and zeros up to 32 |
| Conversation.PerformExactly | Linpop_Server/server.c:188-270 | from equal vectors one request, reply or notification with its lookups arrives as meant and leaves the vectors equal if it is within the limit, and is lost otherwise |
| Conversation.ConverseExactly | sealink/handler.c:414-580 | every mixture of requests, replies and notifications with lookups, taking turns over one shared vector, goes as meant exactly up to the first that is beyond the limit |
| Conversation.ConversationShows | sealink/handler.c:414-580 | the handler shows exactly what was pushed, but for the cancellations |
| Push.PacketsDecode | Linpop_Server/login.c:144-231 | exactly the six magics with a payload are followed by one, of the announced length, and both decode to the notification |
| Push.PacketsLaidOut | Linpop_Server/login.c:144-231 | what is in each word of the header and the payload of every kind of notification |
| Push.Magics | Linpop_Server/protocol.h:224-233 | the magics are the four letters they stand for, first letter in the highest byte |
| Push.BareIff | sealink/handler.c:510-536 | a lone header means something with exactly three magics, and each its own; exactly six others call for a payload |
| Push.PayloadIff | sealink/handler.c:422-578 | a payload makes sense exactly when it is long enough for its kind, and then gives its own kind, the header's uid and its fields |
| Push.LookupsPerNotice | sealink/handler.c:444-577 | one name after a message, a file offer and a login, at most one after a group message, and one more for the history of a text; for the uid that came |
| Push.HearPrinted | sealink/handler.c:415-578 | a printed notification, read under a vector that agrees with the printer's, is read as that one, and the handler stands exactly behind it on the printer's chain |
| Push.HearOversized | sealink/handler.c:423-428 | a payload beyond the limit ends the handler |
| Push.HandlePrinted | sealink/handler.c:414-580 | a whole turn on the first of a queue goes through if and only if, where it looks up a name, the server's vector at the end of the queue agrees with the client's |
| Push.SmoothIff | sealink/handler.c:414-580 | every packet of a queue, and of the lookups between, arrives as written if and only if the vectors stay in touch at each header and each lookup |
| Push.HearAllPrinted | sealink/handler.c:414-580 | while they do, the whole queue is shown, down to the last byte |
| Push.LastAsks | sealink/handler.c:519-533 | they do when nothing stands in the queue behind a notification that is looked up |
| Push.HearUntilAsked | sealink/handler.c:463-508 | when the first lookup's vectors do not agree, exactly the queue up to that notification is shown |
| Push.SecondLost | sealink/handler.c:414-580 | of two notifications in flight, the first looked up, the second is not shown unless the vectors before and after it agree |
| Push.TwoInFlightLost | sealink/handler.c:504 | a login and a message in flight together: for every key and every vector there is a text that is not shown |
| Push.HearOne | sealink/handler.c:415-536 | the reading half of a turn over a real stream and vector |
| Push.LookUpAll | sealink/handler.c:450-471 | its lookups, one after another until one gets no answer |
| Push.HandleOne | sealink/handler.c:415-578 | one turn of the loop over the three real streams and both vectors |
| Push.ClientMsgHandler | sealink/handler.c:397-581 | the loop ends, shows all that can be heard, lookups included (a prefix of it if reads of the push socket fail), and leaves the size of the last file offer |
| Relay.MessageHandled | Linpop_Server/protocol.c:101-116 | what the server takes from the connection for one message, for every target and length |
| Relay.OtherPacket | Linpop_Server/server_main.c:38-41 | a packet that is too short or has another magic or type is not taken for a message |
| Relay.TextTaken | Linpop_Server/protocol.c:101-116 | whatever arrives, a text is taken only for an online target, and only with the announced length |
| Relay.ConsumedIffOnline | Linpop_Server/protocol.c:107-116 | request and text are both consumed if and only if the target is online |
| Relay.RelayIff | Linpop_Server/protocol.c:101-140 | in every run, over two independently keyed channels, the target is shown the text byte for byte with the uid of the sender's connection if and only if it is online, its push socket works and the text fits both channels |
| Relay.AloneIff | sealink/handler.c:414-580 | a single notification printed from equal vectors is shown if and only if it fits |
| Relay.GroupMessageHeardIff | Linpop_Server/protocol.c:605-633 | a group message within the announced limit is shown if and only if it has at most 65515 bytes |
| Relay.GroupTextReadIff | Linpop_Server/protocol.c:605-624 | the server's own read gets its text if and only if that has at most 65519 bytes |
| Relay.CrossingLost | sealink/callbacks.c:357-362 | for every key, every vector and every notification that fits a packet there is a message, sent while the notification was printed, after which the client cannot read it |
| Relay.FriendListReadIff | Linpop_Server/server_main.c:345-355 | a friend list can be read if and only if it has at most 16379 entries |
| Online.Client.Notify | Linpop_Server/login.c:216-228 | header and payload packets are appended, or nothing when the socket fails; what was written stays the packets of the notifications made |
| Online.OnlineList.Find | Linpop_Server/login.c:13-27 | the node at the position the specification's search gives, NULL if and only if the uid is absent |
| Online.OnlineList.Append | Linpop_Server/login.c:89-103 | the node goes to the tail and nothing else changes |
| Online.OnlineList.Add | Linpop_Server/login.c:68-105 | appends a fresh client at the tail if and only if the uid is absent, else changes nothing |
| Online.OnlineList.Disconnect | Linpop_Server/login.c:29-66 | takes out exactly that node at head, middle or tail, keeps the order and the shape, and reports whether it was there |
| Online.OnlineList.AddFileReq | Linpop_Server/login.c:116-126 | fills an empty slot; an occupied one is left as it is and reported |
| Online.OnlineList.RemoveFileReq | Linpop_Server/login.c:128-142 | empties that client's slot and no other |
| Online.OnlineList.NotifyAll | Linpop_Server/login.c:175-199 | every other client is told once, in the one pass over the list, and the given client is not |
| Online.OnlineList.NotifyAllLogin | Linpop_Server/login.c:144-173 | the same for a login or logout |
| Online.OnlineList.Notify | Linpop_Server/login.c:210-230 | the named user is told if online, and nobody else; an empty payload is not sent |
| Database.Tables.AddFriends | Linpop_Server/dbconn.c:224-244 | the rows and the result, including the first insert that stays when the second fails |
| Database.Tables.DeleteFriend | Linpop_Server/dbconn.c:276-296 | both directions are deleted and nothing else |
| Database.Tables.CreateGroup | Linpop_Server/dbconn.c:175-189 | the loop adds the listed users that exist, past every failing insert |
| Database.Tables.GetGroup | Linpop_Server/dbconn.c:149-173 | each member once, in some order |
| Database.Tables.QueryFriends | Linpop_Server/dbconn.c:246-274 | b is in a's list if and only if the row (a, b) is there, and no one twice, whatever the order |
| Handler.ChatServer.Login | Linpop_Server/server_main.c:58-88 | all four outcomes: what the connection then holds, and who is told |
| Handler.ChatServer.Leave | Linpop_Server/server_main.c:28-37 | the others are told, the node is gone, its pending file is released |
| Handler.ChatServer.Message | Linpop_Server/protocol.c:101-140 | refines the specification's step and result; the target's working socket gains exactly the message's two packets, and no other socket anything |
| Handler.ChatServer.SendFile | Linpop_Server/protocol.c:157-205 | refines the specification's step and result |
| Handler.ChatServer.FopDone | Linpop_Server/server_main.c:200-209 | refines the specification's step: the named user's slot with the cancel code, then always the caller's |
| Handler.ChatServer.Cancel | Linpop_Server/protocol.c:274-291 | only the cancel code for an online user releases and tells |
| Handler.ChatServer.ChangeName | Linpop_Server/server_main.c:223-230 | refines the specification's step and result |
| Handler.ChatServer.AddFriend | Linpop_Server/protocol.c:354-368 | refines the specification's step and result |
| Handler.ChatServer.BeFriend | Linpop_Server/protocol.c:392-420 | refines the specification's step and result |
| Handler.ChatServer.DeleteFriend | Linpop_Server/protocol.c:451-469 | refines the specification's step and result |
| Handler.ChatServer.NotifyUsers | Linpop_Server/protocol.c:524-528 | the loop tells each listed user but the sender, in order and with repeats |
| Handler.ChatServer.NotifyMembers | Linpop_Server/protocol.c:630-634 | over rows without repeats each working socket of a listed user but the sender gets exactly the two packets, and no other socket anything |
| Handler.ChatServer.CreateGroup | Linpop_Server/protocol.c:494-534 | refines the specification's step and result |
| Handler.ChatServer.GroupMessage | Linpop_Server/protocol.c:599-639 | in whatever order the database lists the members, the step of telling each once; on success every working socket of an online member but the sender has gained exactly the message's two packets, and no other socket anything |
| Handler.ChatServer.Dispatch | Linpop_Server/server_main.c:38-564 | a connection without a client is refused and changes nothing; any other is served by the specification's step |
| ServerMain.Process.Handle | Linpop_Server/server_main.c:3-573 | every event carried out on the heap is one step of the system, and keeps the heap well formed |
| ServerMain.Run | Linpop_Server/server_main.c:3-573 | every run on the heap ends in the state of the specification's run and satisfies its invariant |
| Runs.NextInvariant | Linpop_Server/server_main.c:26-571 | every event keeps unique uids, presence, the offer ledger and bound, friend symmetry and exclusive holding |
| Runs.RunInvariant | Linpop_Server/server_main.c:26-571 | so they hold after every run |
| Runs.RunKeeps | Linpop_Server/server_main.c:26-571 | after every run no uid is listed twice, every accepted offer is pending or released, and no pending one is above MAX_FILE |
| Runs.ServeQuiet | Linpop_Server/protocol.c:101-639 | no request changes who is online or anybody's picture of it |
| Runs.JoinedPresence | Linpop_Server/server_main.c:64-70 | after a login everybody writable, the newcomer too, still sees exactly the others online |
| Runs.LeftPresence | Linpop_Server/server_main.c:32-34 | and after a teardown |
| Runs.UidsRemove | Linpop_Server/login.c:29-66 | unlinking removes that uid from the set of users online and no other, and keeps uids unique |
| Runs.ServeOffers | Linpop_Server/protocol.c:157-205 | accepted offers equal pending plus released ones, with multiplicity, and pending ones are within MAX_FILE, across every request |
| Runs.LeftOffers | Linpop_Server/login.c:41-44 | and across a teardown, which releases the pending one |
| Runs.ServeSlots | Linpop_Server/protocol.c:274-291 | what every request does to every slot: only a small enough offer fills it, only when empty, with the sender's uid; only FOPDONE empties it, the caller's and with the cancel code the named one's |
| Runs.PendingTaken | Linpop_Server/login.c:52-55 | taking a node out of any position takes exactly its slot out of the pending offers |
| Runs.AddFriendsEffect | Linpop_Server/dbconn.c:224-244 | befriending leaves both rows, and succeeds if and only if the two differ and were not friends |
| Runs.ServeSymmetric | Linpop_Server/protocol.c:392-469 | every request keeps the friends relation symmetric |
| Runs.FriendsMutual | Linpop_Server/dbconn.c:246-274 | after every run b is in a's queried list if and only if a is in b's |
| Runs.OrphansExactly | Linpop_Server/server_main.c:58-88 | the users online that no connection holds are exactly those abandoned by a second login |
| Views.ReplayVisible | sealink/handler.c:492-509 | what the handler passes over does not matter to the picture of who is online |
| Views.ConversationSeesOnlineList | Linpop_Server/login.c:144-173 | in every run, through a conversation of any kind, with lookups in it answered from tables that may change each time, a client's replayed notifications give exactly the users online but itself |
| Views.ShownExactly | sealink/handler.c:414-580 | and what it was shown is the visible part of exactly the log of what happened since its login |
| Views.FileSizeKnown | sealink/handler.c:486 | in every run a client with a file on offer remembers that very file's size, whatever it remembered at first |
| Views.RunLosesText | sealink/handler.c:492-509 | two logins and a message, read together: for every key and every vector there is a text that is in the inbox and is not shown |
| Fanout.NotifyEachExactly | Linpop_Server/protocol.c:524-528 | everyone online is told exactly as often as listed, the sender never |
| Fanout.NotifyEachOnce | Linpop_Server/protocol.c:630-634 | over rows without repeats that is once each, in any order |
| Fanout.CreateGroupMembers | Linpop_Server/protocol.c:494-534 | the group's members become the old ones and the listed users that exist, repeats or not; other groups keep theirs |
| Provenance.ServeHeard | Linpop_Server/protocol.c:101-639 | seen from each recipient: a request is heard by exactly those it is for, as often as they are named |
| Provenance.NextHeard | Linpop_Server/server_main.c:26-571 | after any event everyone online has just joined with an empty inbox or heard exactly what the event caused |
| Provenance.InboxExactly | Linpop_Server/server_main.c:26-571 | in every run every inbox is exactly the log of what happened from its owner's login to the break of its socket or now, in order, nothing lost, doubled or made up |
| Provenance.InboxAuthentic | Linpop_Server/protocol.c:117-120 | no notification names a sender who did not, logged in on a connection, ask for it |
| Provenance.SizeAlwaysTold | Linpop_Server/protocol.c:174-197 | in every run a client that can be written to and has a file on offer was told that file's size last |
| Provenance.GroupMessageReaches | Linpop_Server/protocol.c:599-639 | after any run a group message adds itself once to the inbox of each online member but the sender that can be written to, and nothing to any other |
| Effects.ServeCode | Linpop_Server/protocol.c:101-639 | the code of the reply to every request: zero exactly when it succeeded, for each kind in terms of who is online, writable, friends and has a free slot; FOPDONE repeats its own |
| Effects.ServeFriends | Linpop_Server/protocol.c:392-469 | after any request two users are friends if and only if they were and it does not end that, or it makes them so and the other is online |
| Effects.FriendsExactly | Linpop_Server/dbconn.c:224-296 | after every run two users are friends if and only if one befriended the other, online then, and neither has ended it since |
| Effects.ServeGroups | Linpop_Server/dbconn.c:175-189 | a request adds to a group exactly the users with an account that its creation lists, and takes out nobody |
| Effects.GroupsExactly | Linpop_Server/dbconn.c:175-189 | after every run the members of a group are exactly those some creation has listed while they had an account |
| Effects.AccountsExactly | Linpop_Server/dbconn.c:37-59 | after every run exactly the registered users have accounts |
| Effects.ServeAccepts | Linpop_Server/protocol.c:157-205 | a request has an offer accepted exactly if it is small enough and its target is online with an empty slot, and then its own |
| Effects.HeldExactly | Linpop_Server/server_main.c:58-88 | after every run a connection holds a user if and only if it logged in as that one, not yet online then, and has neither ended nor logged in again since |
| Server.Name40Bytes | Linpop_Server/protocol.c:196 | the file name in an offer is its first 40 bytes, and zeros behind a shorter one |
| Server.AlphanumericIff | Linpop_Server/dbconn.c:28-35 | a name is accepted if and only if all its characters are letters or digits |
| Race.SeparateIff | Linpop_Server/login.c:68-105 | the calls between search and append can finish in any order without a double uid if and only if their uids are separate from each other and from the list |
| Race.AloneAppends | Linpop_Server/login.c:68-105 | a call that nothing comes between appends its uid at the tail if it is absent, and changes nothing if it is there |
| Race.UnlinkCloses | Linpop_Server/login.c:29-66 | unlinking closes up the list in order and leaves the pending calls alone |
| Race.StepSeparateIff | Linpop_Server/login.c:71-87 | a step loses that exactly when a search ends for a uid another thread is about to append |
| Race.NeverTwiceIff | Linpop_Server/login.c:68-105 | over every interleaving, uids stay unique however the pending calls finish if and only if that never happens |
| Race.TwoLoginsBothSucceed | Linpop_Server/login.c:71-103 | two overlapping logins of one user both end up in the list |
| Accounts.LoginIff | Linpop_Server/dbconn.c:37-96 | a registered row lets in exactly the passwords of at most 32 bytes with the same double digest, so its own password if and only if that is short enough |
| Accounts.UserTable.InsertUser | Linpop_Server/dbconn.c:37-59 | the row stored for an acceptable name, and no row otherwise |
| Accounts.UserTable.LoginCheck | Linpop_Server/dbconn.c:61-96 | accepts if and only if the row exists, the password is short enough and the digest is the stored one |
| Accounts.RegisterThenLogin | Linpop_Server/dbconn.c:37-96 | registering and then logging in works if and only if name and password are acceptable |

## Left out

- The GTK interface, notifications on the desktop, chat history, settings, logging, configuration and random numbers: no property spans them.
- `sealink/client_main.c`, an older console client that repeats the handler.
- Sockets, threads and UDP: kept only as byte streams and as events in any order.
- The Diffie-Hellman handshake and AES itself: foreign library calls, taken as an equal key and vector and a bijection on blocks.
- SQL text and connections: tables keyed by their primary keys stand for them.
- GETFILE, avatar and group-list queries and the single-field builders and parsers: each copies a field.
- Releasing memory and closing descriptors, and the use of a client after the list's lock is released.
- Threads interleaving inside one packet or one request on one vector; whole packets in any order are treated (`Session.AllArriveIff`), and the two locks of `login_AddClient` (`Race`).
- A body shorter than its announced length: the program then reads memory nobody wrote. The model stops there (`Relay.HandleMessage`, `Push.Payload`), or takes what was read as given (`Server.Request`).
- Online.Client.Notify: the socket is kept as the list of packets handed to it, not as ciphertext; the step from packets to bytes is `Packet.WritePacket`, and `Conversation` and `Views` put the two together.
- Conversation.ConverseExactly: exchanges take turns one packet or notification at a time; longer queues in flight are in `Session.RunRefinesFifo`, `Session.AllArriveIff` and, with lookups, `Push.SmoothIff`.
- Relay.RelayIff: nothing else is on its way to the target when its notification is printed; queues are in `Push.SmoothIff`.
- Push.SmoothIff: what a handler shows after it has read a packet under a vector that does not agree, as may happen behind a lookup that was answered all the same, is not stated: it depends on the bytes it mistakes for headers.
- Lookup.QueryUserName: the command socket is taken to work; on one that fails, the program goes on without a name.
- Packet.ReadPacket: on an unreliable stream a NULL may also come of a failed read, and how much was consumed then is not stated.
- Cbc.EncryptCbc: a maxlen that cuts inside a block is excluded; no caller passes one.
- Cbc.DecryptCbc: an empty input, where the program reads before its buffer, is excluded; `Cbc.Open` calls it undefined and `Packet.ReadPacket` reports it. The 32-bit sum of padding and maxlen is taken as exact, since callers keep maxlen below 65536.
- Packet.WritePacket: sizes whose padded length does not fit in 32 bits are excluded.
- Md5.Context.Update: inputs on which the loop never ends are excluded; `Md5.LoopEndsIff` says which these are.
- Md5.Context.CompressBlocks: the compression function is a parameter of the context; `Md5.Md5Hash` fills in the real one, which `Md5Block.Transform` computes.
- Md5Block.Transform: the 64 constants of the table are taken as data, not derived from the sine.
- ServerMain.Process.Handle: when a group message's text was read, it is taken to have the announced length; a shorter one is the unwritten memory above. Registering an account only adds its id there; the account table itself is `Accounts.UserTable`.
- Accounts.UserTable.InsertUser: running out of ids is excluded, and passwords too long for the digest to end.
- Online.OnlineList.Disconnect: an empty list, on which the program follows a null pointer, is excluded; every caller holds a client in the list.
