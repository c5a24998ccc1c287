# Verified models of the system components

The repository is a collection of independent C and C++ components for small Linux systems. This project models
the ones with the hardest logic in Dafny and proves what they are for:

- **kfifo** (`KFifo.dfy`, `KFifoConcurrent.dfy`, `KFifoReset.dfy`): the power-of-two ring buffer with free-running
  32-bit counters, as a class that refines a bounded byte queue, as an interleaving of one lock-free writer and one
  lock-free reader, and with the reset of `kfifo_get` between the steps of the writer.
- **Socket listener** (`SocketListener.dfy`, `SocketListenerRuns.dfy`, `SocketClient.dfy`, `FrameworkListener.dfy`):
  the reference-counted client list under any interleaving of its threads, and whom the listener and a broadcast
  reach; argument quoting, vectored writes and the command tokenizer on every line.
- **cJSON** (`JsonString.dfy`, `JsonLiteral.dfy`, `Json.dfy`, `JsonParse.dfy`, `JsonParser.dfy`, `JsonGrammar.dfy`,
  `JsonRoundTrip.dfy`, `JsonParsed.dfy`, `JsonPrint.dfy`, `JsonMinified.dfy`, `JsonSegments.dfy`, `JsonMinify.dfy`,
  `JsonMinifyParse.dfy`, `JsonPipeline.dfy`): the string codec, the recursive-descent parser against a grammar, the
  printer into a growing or fixed buffer, the in-place minifier, and what they do one after the other.
- **Digests** (`Sha1.dfy`, `Sha1Digest.dfy`, `Sha1Vector.dfy`, `Md5.dfy`, `Md5Digest.dfy`, `Md5Vector.dfy`,
  `BlockStream.dfy`): the unrolled compression functions against FIPS 180-4 and RFC 1321, the streaming contexts, and
  the digests that the standards give as examples.
- **AES-CBC** (`AesField.dfy`, `AesCipher.dfy`, `AesTables.dfy`, `AesKey.dfy`, `AesBytes.dfy`, `AesBlock.dfy`,
  `AesCbc.dfy`): table lookups, key schedules, the equivalent inverse cipher of FIPS 197, and chaining in place with
  padding.
- **Network controller** (`NetworkRules.dfy`, `NetworkOperations.dfy`, `NetworkController.dfy`, `FwmarkServer.dfy`):
  when an operation succeeds and what it does to the networks, the kernel rules that the controller maintains step by
  step against the rules that its state calls for, and the socket-mark server.
- **DHCP client** (`Packet.dfy`, `PacketLayout.dfy`, `PacketLengths.dfy`, `DhcpClient.dfy`, `DhcpOptions.dfy`):
  Internet checksums, building and validating packets, the length fields, the options, and the retransmitting state
  machine with the event that decides each of its phases.

`Bits.dfy` and `Common.dfy` hold what they share. Code that changes state is modelled by classes and methods with
loops, proved against specification functions; the laws are lemmas about those functions. C integers are modelled
with their width where it matters (`% TWO_32`, `bv32`, `bv8`). `dafny verify dfyconfig.toml` covers the project.

How the proofs are cut: a long run of rounds or steps is proved one step at a time against a ghost trace or a
sealed predicate (`Common.Seal`), so that each obligation sees one definition only. AES bytes and words are
one-field datatypes around `bv8` and `bv32` for the same reason. The inverse of the AES column transformation is
derived in any space of characteristic two with a doubling map and a rotation of order four (its fourth power is
the identity), and the equivalent inverse cipher for any cipher of that shape; both are then instantiated.

Where the code falls short of a promise, the exact condition is proved instead:

- `release` reads its client for a log line before it takes the lock and without a reference. In every interleaving a
  step touches a deleted client exactly when it is this read and the client is neither listed nor referenced
  (`SocketListenerProtocol.UseAfterDeleteExact`, with a run in `SecondReleaseReadsDeleted`).
- `cJSON_Minify` leaves a C string that does not close a string literal or a block comment: it copies or skips the
  terminator and reads on. It stays inside, and its result depends on the C string alone, exactly when the text is
  closed (`JsonMinified.ClosedExact`, with inputs in `OpenTexts`), as every text that parses to its end is. A text
  that need not end with its value can change its meaning (`JsonMinifyParse.BlankSeparates`).
- The locks around `kfifo_put` and `kfifo_get` are empty, and `kfifo_get` clears both counters when it finds them
  equal. Without a put between that comparison and the end of the reset everything holds (`KFifoReset.ResetsApart`). A
  put around the reset is read as it was put, whatever its bytes, exactly when it is empty or starts at slot 0
  (`ResetInsidePut`, `ReadAsPutExact`); a put inside is lost, and one that begins between the two stores overruns the
  ring exactly when it has more bytes than the ring and `in` was past its size (`HalfResetRoom`). Runs are in
  `WrongByteRead` and `ByteLost`.
- `receive_packet` trusts the UDP length. A packet that passes all tests is copied inside the structure exactly when
  that length is 8 to 1268 (`PacketLengths.OverrunExact`, with inputs in `HeaderOnlyReceived` and `ZeroLengthOverruns`),
  and the payload depends on checksummed bytes only exactly when it is empty or ends inside the IP length
  (`PacketLengths.CoverageExact`).
- A DHCP packet that `send_packet` builds is accepted by `receive_packet` exactly when its computed UDP checksum is
  not zero (`PacketModel.SendReceiveRoundTrip`, with an input in `ZeroChecksumExists`).
- A repeated REQUEST asks for what the offer offered exactly when the last message heard, valid or not, names the same
  address and server (`DhcpClientModel.RequestedAddress`, with the redirection in `StrayMessageRedirects`).
- The comment in `FwmarkServer` about proxy sockets is right unless the id of a protected, implicit socket turned from
  a non-virtual into a virtual network between two commands and every command since was ON_ACCEPT, ON_CONNECT or
  refused (`FwmarkModel.ProxyInvariantExact`, with a run in `ReusedIdBreaksTheInvariant`).
- `aes_encrypt` compares `maxOutLen` with the plaintext length rounded up. What it writes stays inside `maxOutLen`
  exactly when the plaintext does not end on a block boundary or 32 more bytes are allowed
  (`AesCbc.BufferTestExact`, with a run in `WritePastMaximum`).
- `aes_decrypt` reads the byte in front of its output buffer when the length is 0 (`AesCbc.AesDecryptData`).
- `SHA1Update` advances its bit counter correctly exactly when a call is shorter than 2^29 bytes or its low word
  carries (`Sha1Digest.AdvanceExact`, with an input in `LongUpdateLosesLength`); over all updates of a message the
  count is right exactly when what they leave out adds up to a multiple of 2^64 bits (`Sha1Digest.DigestOfParts`).
  What it copies stays inside the 64-byte buffer exactly when fill and length do not add up to 2^32
  (`Sha1Digest.BufferHeldExact`, with an input in `WholeCallCopied`).
- Quoted arguments come back from the tokenizer exactly when there are at most 26, the last has at most 1023 bytes
  and the others at most 1022; otherwise the line is refused (`FrameworkListenerModel.QuotedArgumentsRoundTrip`).
- The tokenizer drops a backslash at the end of a line instead of refusing it
  (`FrameworkListenerModel.LastBackslashDropped`), and takes a lone word for an argument even where it expects a
  sequence number (`SingleWord`).
- In a JSON string an escape of a code unit without four hexadecimal digits counts as a zero byte, and the value ends
  before it. A literal is otherwise accepted exactly when it is made of plain bytes and the escapes of section 7
  of RFC 8259 (`JsonLiteral.LiteralExact`).
- Printed JSON parses back exactly when it is nested at most 1000 deep (`JsonRoundTrip.PrintParseRoundTrip`), and
  printing succeeds exactly when two bytes more than the text (one more for a number) are available
  (`JsonPrint.PrintPreallocated`).

## Model

| member | source | states |
|---|---|---|
| KFifoModel.SlotIsMod | src/fifo/fifo.c:121-122 | masking a counter with `size - 1` is the counter modulo the power-of-two size |
| KFifoModel.PutEffect | src/fifo/fifo.c:114-131 | storing the two pieces and advancing `in` modulo 2^32 appends exactly the data to the queue read through the counters, also across wrap-around |
| KFifoModel.GetEffect | src/fifo/fifo.c:144-161 | the two pieces copied out are the front of the queue, and advancing `out` modulo 2^32 leaves its rest |
| KFifoModel.KFifo.constructor | src/fifo/fifo.c:48-64 | an empty queue over a buffer whose size is a power of two |
| KFifoModel.KFifo.PutUnlocked | src/fifo/fifo.c:114-131 | appends the longest prefix that fits and returns its length; the length modulo 2^32 never exceeds the size |
| KFifoModel.KFifo.GetUnlocked | src/fifo/fifo.c:144-161 | removes and returns the requested number of bytes from the front, or all there are |
| KFifoModel.KFifo.Put | include/fifo.h:66-77 | the locked put has the contract of the unlocked one |
| KFifoModel.KFifo.Get | include/fifo.h:87-104 | a single thread cannot observe that both counters are reset when the queue is empty |
| KFifoModel.KFifo.Reset | include/fifo.h:40-55 | empties the queue |
| KFifoModel.KFifo.Len | include/fifo.h:109-112 | the counter difference modulo 2^32 is the number of queued bytes |
| KFifoModel.Perform | include/fifo.h:40-104 | one put, get or reset on the ring does what it does on a bounded queue, and replies the same |
| KFifoModel.RunCalls | include/fifo.h:40-104 | over any sequence of calls the ring gives the replies of the bounded queue and ends with its contents |
| KFifoModel.QueueConserves | src/fifo/fifo.c:101-161 | without resets, the first contents and all accepted bytes are the delivered bytes and the rest, in order |
| KFifoConcurrent.StepKeepsInv | src/fifo/fifo.c:111-161 | every byte copy and index update of either thread keeps the invariant over unbounded byte counts |
| KFifoConcurrent.ReadsArePrefixOfWrites | src/fifo/fifo.c:111-161 | in every state of every interleaving the bytes read are a prefix of the bytes accepted, and the ring holds exactly the accepted bytes not yet taken |
| KFifoConcurrent.UnreadBytesAreNotOverwritten | src/fifo/fifo.c:111-131 | no step of any run changes the slot of an unread byte |
| KFifoConcurrent.RunsStayInBounds | src/fifo/fifo.c:117-125 | in every state of every run both copies stay inside the ring |
| KFifoReset.EventKeepsInv | include/fifo.h:87-104 | every step of the writer and of `kfifo_get`, the comparison and the two stores of its reset included, keeps the invariant while no put falls into the reset |
| KFifoReset.ResetsApart | include/fifo.h:66-104 | in every run in which no put falls into a reset all that was read is a prefix of all that was accepted, the ring holds the rest, and no step leaves it |
| KFifoReset.ResetInsidePut | include/fifo.h:26-104 | after a reset inside a put the reader gets the slots from 0 on, while the put has filled those from its first slot on |
| KFifoReset.ReadAsPutExact | include/fifo.h:87-104 | these are the same bytes for all contents exactly when there are none or the first slot is 0 |
| KFifoReset.WrongByteRead | include/fifo.h:87-104 | a run in which a stale byte is delivered in place of an accepted one |
| KFifoReset.ByteLost | include/fifo.h:87-104 | a run in which an accepted byte is lost |
| KFifoReset.HalfResetRoom | include/fifo.h:87-104 | a put that begins between the two stores takes more than the ring holds exactly when it has more and `in` is past the size |
| SocketListenerProtocol.StepKeepsInv | src/netlink/SocketListener.cpp:222-335 | each locked section and each `decRef` keeps every client's count equal to its references |
| SocketListenerProtocol.CountsAreExact | src/netlink/SocketListener.cpp:222-335 | in every interleaving a client's count is its membership in `mClients` plus the references of all threads; it is deleted at most once, exactly when nothing refers to it |
| SocketListenerProtocol.UseAfterDeleteExact | src/netlink/SocketListener.cpp:222-335 | a step of any interleaving touches a deleted client exactly when it is the read at the start of `release` and the client is neither listed nor held by a thread |
| SocketListenerProtocol.SecondReleaseReadsDeleted | src/netlink/SocketListener.cpp:257-282 | a run in which a second `release` reads a deleted client |
| SocketListenerProtocol.DeletedForGood | src/netlink/SocketClient.cpp:231-251 | a deleted client stays deleted and unreferenced |
| SocketListenerRuns.ListedExact | src/netlink/SocketListener.cpp:206-282 | in every run a client is listed, once, from when it is accepted until it is released |
| SocketListenerRuns.SelectExact | src/netlink/SocketListener.cpp:222-255 | a collection takes the listed clients that are ready, each as often as it is listed |
| SocketListenerRuns.ReadyClientsAreHandled | src/netlink/SocketListener.cpp:222-255 | in every interleaving a listener handles exactly the clients that it collected, in order |
| SocketListenerRuns.BroadcastReachesAll | src/netlink/SocketListener.cpp:284-310 | in every interleaving a broadcast goes to exactly the clients that were listed when it began, in order |
| SocketClientModel.QuoteArg | src/netlink/SocketClient.cpp:115-142 | the buffer of `2 * len + 3` bytes is never overrun and holds the quoted, escaped argument with its terminator |
| SocketClientModel.SkipWritten | src/netlink/SocketClient.cpp:198-209 | skipping the entries that a partial write consumed leaves exactly the bytes not yet sent |
| SocketClientModel.SendDataLockedv | src/netlink/SocketClient.cpp:174-229 | whatever `writev` accepts, the peer gets a prefix of the data without gaps or repetition; 0 is returned only for all of it |
| FrameworkListenerModel.DispatchCommand | src/netlink/FrameworkListener.cpp:86-167 | the scanning loop over `tmp` and `argv` computes the lexer on every line, including its refusals |
| FrameworkListenerModel.LineSplits | src/netlink/FrameworkListener.cpp:86-167 | a line of words, each of any parts inside and outside quotes, is split into what the words stand for exactly when they fit, and `Overflow` otherwise |
| FrameworkListenerModel.SimpleLineSplits | src/netlink/FrameworkListener.cpp:86-167 | in particular, words without spaces, quotes and backslashes are split at the spaces |
| FrameworkListenerModel.NumberedLineSplits | src/netlink/FrameworkListener.cpp:86-167 | with sequence numbers the first of several words is the number, or the line is refused with `InvalidSequenceNumber` |
| FrameworkListenerModel.SingleWord | src/netlink/FrameworkListener.cpp:86-167 | a lone word is an argument, also where sequence numbers are expected |
| FrameworkListenerModel.OpenQuoteRefused | src/netlink/FrameworkListener.cpp:86-167 | a line that fits and whose last quote stays open gives `UnclosedQuotes` |
| FrameworkListenerModel.BadEscapeRefused | src/netlink/FrameworkListener.cpp:86-167 | a backslash before anything but a quote or a backslash gives `UnsupportedEscape`, unless the line overflowed before |
| FrameworkListenerModel.LastBackslashDropped | src/netlink/FrameworkListener.cpp:86-167 | a backslash at the end of a line changes nothing |
| FrameworkListenerModel.EveryLine | src/netlink/FrameworkListener.cpp:86-167 | every line is of one of these kinds |
| FrameworkListenerModel.ScanJoined | src/netlink/FrameworkListener.cpp:86-167 | quoted arguments joined by spaces are scanned one by one, in any state of `argv` |
| FrameworkListenerModel.QuotedArgumentsRoundTrip | src/netlink/FrameworkListener.cpp:86-167 | quoting, joining and tokenizing any arguments gives them back exactly when they fit the buffers, and `Overflow` otherwise |
| JsonString.Utf8RoundTrip | src/json/cJSON.c:525-561 | the UTF-8 bytes of every code point decode to it |
| JsonString.EscapedCodePoint | src/json/cJSON.c:472-567 | the escape of every Unicode scalar value, one unit or a surrogate pair, decodes to its UTF-8 bytes |
| JsonString.EscapeKeepsBound | src/json/cJSON.c:610-657 | an escape of the second pass, aligned with the first pass or not, writes no more than the bound allows |
| JsonString.BoundFits | src/json/cJSON.c:582-660 | at any time the bytes written and the terminator fit the size that the first pass computed |
| JsonString.ScanEscaped | src/json/cJSON.c:582-600 | the first pass finds the end of every escaped string |
| JsonString.DecodeEscaped | src/json/cJSON.c:610-660 | the second pass decodes every escaped NUL-free string to the string |
| JsonLiteral.LiteralParses | src/json/cJSON.c:443-680 | a literal spelled from any pieces (plain bytes, the eight short escapes of a table, code units and surrogate pairs with digits in either case) parses to what the pieces stand for |
| JsonLiteral.LiteralExact | src/json/cJSON.c:443-680 | every literal is either all pieces, and parses to them, or is refused at the first thing that is no piece; only a code unit without four digits is let through, as a zero byte |
| JsonGrammar.PiecesAreLiteral | src/json/cJSON.c:570-680 | the literals of the grammar include all that are spelled from pieces |
| JsonGrammar.DocReads | src/json/cJSON.c:1016-1355 | a value of the grammar is read as what it means wherever it stands, up to the nesting limit |
| JsonGrammar.GrammarExact | src/json/cJSON.c:822-900 | the parser accepts, to the end of the text, exactly the texts of the grammar with values nested at most 1000 deep, and gives their meaning |
| JsonGrammar.MarkIgnored | src/json/cJSON.c:822-900 | a byte order mark in front of a text that has none changes nothing |
| Json.RenderNulFree | src/json/cJSON.c:1063-1129 | no rendering contains a zero byte |
| JsonString.EscapeTable | src/json/cJSON.c:683-789 | which bytes the printer escapes and how |
| Json.Words | src/json/cJSON.c:1063-1129 | the words for null, true and false, and the bytes of number tokens |
| Json.PlainTexts | src/json/cJSON.c:1211-1449 | the bytes of an empty array and an empty object, formatted or not |
| Json.TwoElements | src/json/cJSON.c:1211-1261 | the bytes of an array of two elements: what stands between and around them |
| Json.TwoMembers | src/json/cJSON.c:1357-1449 | the bytes of an object of two members: line breaks, tabs and colons |
| JsonParser.ParseHex4 | src/json/cJSON.c:443-467 | the value of four hexadecimal digits, or zero if one is none |
| JsonParser.EncodeUtf8 | src/json/cJSON.c:528-561 | the backward loop writes the UTF-8 encoding at the cursor |
| JsonParser.Utf16ToUtf8 | src/json/cJSON.c:472-567 | decodes one escape or a surrogate pair, with all the refusals |
| JsonParser.ParseBuffer.SkipWhitespace | src/json/cJSON.c:805-821 | moves to the first byte above 32, or back to the terminator |
| JsonParser.ParseBuffer.DecodeString | src/json/cJSON.c:610-660 | for every text the second pass stays inside the array that the first pass sized, and computes the decoding |
| JsonParser.ParseBuffer.ParseStringLiteral | src/json/cJSON.c:570-680 | both passes together parse a string literal as specified, or fail |
| JsonParser.ParseBuffer.ParseNumberLiteral | src/json/cJSON.c:220-285 | at most 63 number bytes go to `strtod`, and the offset moves by what it recognised |
| JsonParser.ParseBuffer.ParseItem | src/json/cJSON.c:1016-1060 | the method agrees with the grammar on every text: same tree, same offset, same failures |
| JsonParser.ParseBuffer.ParseArrayItem | src/json/cJSON.c:1132-1208 | elements are linked in order; nesting is limited and the depth restored |
| JsonParser.ParseBuffer.ParseObjectItem | src/json/cJSON.c:1263-1354 | members with their names, in order, under the same limit |
| JsonParser.ParseWithOpts | src/json/cJSON.c:838-900 | byte order mark, value, and the optional check for the terminator |
| JsonRoundTrip.ParseRendered | src/json/cJSON.c:1016-1449 | a rendering that stands anywhere in a text parses to its tree and ends where the rendering ends, if the nesting allows it, and fails otherwise |
| JsonRoundTrip.PrintParseRoundTrip | src/json/cJSON.c:570-788 | parsing the printed text of any tree gives it back exactly when it is nested at most 1000 deep, formatted or not |
| JsonPrint.PrintBuffer.Ensure | src/json/cJSON.c:312-376 | room for the needed bytes and one more, in the old buffer or a copy that keeps what was printed; exactly when the limit allows it |
| JsonPrint.PrintBuffer.UpdateOffset | src/json/cJSON.c:379-387 | brings the offset to the terminator |
| JsonPrint.PrintBuffer.PrintNumber | src/json/cJSON.c:390-440 | the token and a terminator, or failure for an overlong token or lack of room |
| JsonPrint.PrintBuffer.PrintString | src/json/cJSON.c:683-788 | both loops together write exactly the quoted, escaped string and a terminator, and nothing behind the reserved bytes |
| JsonPrint.PrintBuffer.PrintValue | src/json/cJSON.c:1063-1129 | appends exactly the rendering and a terminator, with reallocation at any point, and writes nothing behind its demand; succeeds exactly when the demand is within the limit |
| JsonPrint.PrintBuffer.PrintArray | src/json/cJSON.c:1211-1260 | the same for arrays, whatever `ensure` does in between |
| JsonPrint.PrintBuffer.PrintObject | src/json/cJSON.c:1357-1449 | the same for objects |
| JsonPrint.Print | src/json/cJSON.c:910-959 | returns the rendering with a terminator exactly when it needs at most `INT_MAX` bytes |
| JsonPrint.PrintBuffered | src/json/cJSON.c:972-995 | the same from any first size |
| JsonPrint.PrintPreallocated | src/json/cJSON.c:997-1013 | true exactly when the buffer has two bytes more than the text (one more for a number); then it holds the text, and its bytes behind those are as they were |
| JsonParsed.ParsedValue | src/json/cJSON.c:1016-1354 | whatever text it was parsed from, a value has strings without zero bytes and is nested within the limit |
| JsonParsed.ParsedTreesRoundTrip | src/json/cJSON.c:838-1449 | the tree of any text that parses, if its numbers are faithful, prints in both formats to a text that parses back to it |
| JsonMinified.ClosedExact | src/json/cJSON.c:2080-2126 | the scan of a C string ends inside it, and the result depends on it alone, exactly when it closes its literals and block comments; otherwise two ways to go on behind the terminator give different results |
| JsonMinified.OpenTexts | src/json/cJSON.c:2099-2120 | an open literal, an open comment and a final backslash, with which the scan leaves the buffer |
| JsonSegments.SegmentsRemain | src/json/cJSON.c:2080-2126 | of a text made of literals, blanks, comments and other bytes the literals and the other bytes remain, in order |
| JsonSegments.ClosedIffSegments | src/json/cJSON.c:2080-2126 | a text that ends with a line break is closed exactly when it is made of such segments |
| JsonMinify.MinifyBuffer | src/json/cJSON.c:2080-2126 | wherever in the buffer the scan ends, the result and a terminator stand at the front and the rest is as it was; the write cursor never passes the read cursor |
| JsonMinify.Minify | src/json/cJSON.c:2080-2126 | on a closed C string, whatever follows it, leaves what remains of the text and a terminator at the front and the rest of the buffer as it was |
| JsonMinify.RenderClosed | src/json/cJSON.c:2080-2126 | printed text is closed, and its unformatted form is what remains of it |
| JsonMinify.ValueKept | src/json/cJSON.c:2080-2126 | of a rendering that stands anywhere in a text, minifying keeps the unformatted rendering |
| JsonMinify.MinifyRendered | src/json/cJSON.c:2080-2126 | minifying a buffer that starts with the formatted text of any tree gives its unformatted text, and leaves unformatted text alone |
| JsonMinify.MinifyPrinted | src/json/cJSON.c:2080-2126 | the same for the in-place method on a printed buffer |
| JsonMinifyParse.ValueMinified | src/json/cJSON.c:1016-1354 | of a value parsed in any text minifying keeps bytes that parse to the same value wherever they stand |
| JsonMinifyParse.MinifyKeepsMeaning | src/json/cJSON.c:2080-2126 | any text that parses to its end is closed, and what remains of it parses to the same tree |
| JsonMinifyParse.BlankSeparates | src/json/cJSON.c:2088-2098 | `1 2` parses to 1, and after minifying to 12, when the text need not end with its value |
| JsonPipeline.MinifyParse | src/json/cJSON.c:2080-2126 | the minifier in the buffer of any C string that parses to its end, and then the parser, give the same tree |
| JsonPipeline.PrintMinifyParse | src/json/cJSON.c:838-1129 | printing formatted, minifying in the printed buffer or not, and parsing gives the tree back exactly when the printer has room and the nesting allows it |
| Sha1Model.SwapIsBigEndian | src/crypto/sha1.c:29-31 | `blk0` turns a word loaded by a little-endian host into the big-endian message word |
| Sha1Model.OptimisedCh | src/crypto/sha1.c:41-42 | the optimised expression is the function Ch of the standard |
| Sha1Model.OptimisedMaj | src/crypto/sha1.c:44 | the optimised expression is the function Maj of the standard |
| Sha1Model.Blk | src/crypto/sha1.c:35-36 | overwriting one of sixteen words gives the next word of the 80-word schedule |
| Sha1Model.R0 | src/crypto/sha1.c:41 | the macro is a round of the standard with rotated register names |
| Sha1Model.AllRounds | src/crypto/sha1.c:149-168 | the eighty unrolled rounds give the registers of the standard |
| Sha1Model.Transform | src/crypto/sha1.c:114-180 | computes the compression function of section 6.1.2 of FIPS 180-4 for every state and block |
| Sha1Digest.AdvanceExact | src/crypto/sha1.c:210-212 | the counters advance by the bit length modulo 2^64 exactly when the call is short or carries |
| Sha1Digest.LongUpdateLosesLength | src/crypto/sha1.c:210-212 | a first call of 2^29 bytes leaves the counters at zero |
| Sha1Digest.ShortExact | src/crypto/sha1.c:210-212 | counters that lack a number of units of 2^32 bits are right exactly when that number is a multiple of 2^32 |
| Sha1Digest.BufferHeldExact | src/crypto/sha1.c:213-223 | what an update copies into the buffer stays inside it exactly when fill and length do not add up to 2^32 |
| Sha1Digest.WholeCallCopied | src/crypto/sha1.c:213-223 | a call of 2^32 - 1 bytes after one byte is copied into the buffer as a whole |
| Sha1Digest.Sha1Ctx.CompressBlock | src/crypto/sha1.c:114-180 | the transform of one block inside the stream |
| Sha1Digest.Sha1Ctx.Update | src/crypto/sha1.c:203-224 | for every call that stays inside the buffer, state, buffer and low counter stand for the data so far extended by the new data, and no index wraps around; the count stays exact exactly when the call is short or carries |
| Sha1Digest.Sha1Ctx.Final | src/crypto/sha1.c:230-252 | the padding loop stops and the state absorbs the message padded with the length in the counters, that of the message if they are exact |
| Sha1Digest.DigestOfParts | src/crypto/sha1.c:186-252 | however a message is cut into updates, the digest is that of the message padded with the counted length, which is the right one exactly when the losses of all updates add up to a multiple of 2^64 bits |
| Sha1Vector.AbcDigest | src/crypto/sha1.c:114-252 | the digest of `abc` is the one of appendix A of FIPS 180-1 |
| Md5Model.OptimisedF | src/crypto/md5.c:51 | the optimised expression is the function F of RFC 1321 |
| Md5Model.OptimisedG | src/crypto/md5.c:52 | the optimised expression is the function G of RFC 1321 |
| Md5Model.StepF | src/crypto/md5.c:51-63 | `STEP` with `F` is the operation of the standard |
| Md5Model.BodyBlock | src/crypto/md5.c:93-197 | the sixty-four steps with their constants compute the compression function of section 3.4 of RFC 1321 |
| Md5Digest.CounterExact | src/crypto/md5.c:216-219 | the 29-bit counter and its carry follow updates of any size |
| Md5Digest.LengthWords | src/crypto/md5.c:264-272 | the two length words are the bit length modulo 2^64 |
| Md5Digest.Md5Ctx.Update | src/crypto/md5.c:211-243 | state, counters and buffer stand for the data so far extended by the new data |
| Md5Digest.Md5Ctx.Final | src/crypto/md5.c:245-274 | one or two more blocks absorb the padded message |
| Md5Digest.DigestOfParts | src/crypto/md5.c:200-294 | however a message is cut into updates, the digest is that of the padded message |
| Md5Vector.AbcDigest | src/crypto/md5.c:93-294 | the digest of `abc` is the one of appendix A.5 of RFC 1321 |
| AesAlgebra.MixFourTimes | src/crypto/aes_cbc.c:934-957 | the fourth power of the column transformation is the identity |
| AesAlgebra.InvMixIsCube | src/crypto/aes_cbc.c:861-880 | the coefficients 14, 11, 13, 9 are the third power of the coefficients 2, 3, 1, 1 |
| AesAlgebra.InvMixUndoesMix | src/crypto/aes_cbc.c:861-880 | the inverse column transformation undoes the column transformation |
| AesCipher.ColumnLaws | src/crypto/aes_cbc.c:346-678 | columns with doubling in GF(2^8) satisfy the laws of that algebra |
| AesCipher.AesLaws | src/crypto/aes_cbc.c:933-1018 | the layers of AES undo one another, and the inverse mixing is additive |
| RoundCipher.UndoneRounds | src/crypto/aes_cbc.c:1071-1126 | round r of decryption has undone encryption down to the shuffle of round n - r |
| RoundCipher.EquivalentInverse | src/crypto/aes_cbc.c:845-1168 | with reversed, inversely mixed keys the same round structure decrypts (section 5.3.5 of FIPS 197) |
| AesTables.TeSum | src/crypto/aes_cbc.c:934-957 | one entry from each table `Te[0]` to `Te[3]` sums to a mixed column of S-box values |
| AesTables.TdSum | src/crypto/aes_cbc.c:1072-1095 | one entry from each table `Td[0]` to `Td[3]` sums to an inversely mixed column |
| AesTables.MaskedSum | src/crypto/aes_cbc.c:995-1018 | masked entries of the fifth table give four separate bytes |
| AesKey.RconTable | src/crypto/aes_cbc.c:680-685 | the table holds the powers of two of GF(2^8) in the top byte |
| AesKey.ReverseLoaded | src/crypto/aes_cbc.c:702-716 | byte reversal of a loaded word gives the big-endian word |
| AesKey.ExpandKey | src/crypto/aes_cbc.c:758-843 | the three unrolled loops produce the key expansion of section 5.2 of FIPS 197 for 16, 24 and 32 bytes |
| AesBytes.KeyWord | src/crypto/aes_cbc.c:758-843 | the first words of the schedule are the key |
| AesBytes.ScheduleWord | src/crypto/aes_cbc.c:758-843 | every later word byte by byte: from the word before it and the one a key length back, with the ten round constants as numbers |
| AesBytes.RoundKeyWords | src/crypto/aes_cbc.c:758-843 | there are 11, 13 or 15 round keys, of four words of the schedule each |
| AesBytes.ShiftedByte | src/crypto/aes_cbc.c:934-957 | row `r` of the shuffled state comes from `r` columns further right |
| AesBytes.MixedColumn | src/crypto/aes_cbc.c:934-957 | every byte of a mixed column is twice its own byte, three times the next and the other two |
| AesBlock.ReverseRoundKeys | src/crypto/aes_cbc.c:850-856 | swapping in place reverses the order of the round keys |
| AesBlock.InvertSchedule | src/crypto/aes_cbc.c:845-882 | reversal and inverse mixing produce the decryption keys |
| AesBlock.AesEncrypt | src/crypto/aes_cbc.c:896-1032 | computes the AES cipher with the round keys held, or leaves the output alone without a key |
| AesBlock.AesDecrypt | src/crypto/aes_cbc.c:1034-1168 | computes the same round structure with the inverse layers |
| AesBlock.DecryptUndoesEncrypt | src/crypto/aes_cbc.c:896-1168 | decryption undoes encryption for every key schedule and every block |
| AesCbc.Aes.SetKey | src/crypto/aes_cbc.c:887-894 | the schedule of the standard or its inverse, the initial block, or `BAD_FUNC_ARG` with nothing changed |
| AesCbc.Aes.CbcEncryptBuffer | src/crypto/aes_cbc.c:1170-1184 | chained encryption of all complete blocks, also when output and input are the same buffer |
| AesCbc.Aes.CbcDecryptBuffer | src/crypto/aes_cbc.c:1186-1201 | chained decryption, also in place |
| AesCbc.EncryptedBlock | src/crypto/aes_cbc.c:1170-1184 | each block of ciphertext is the encryption of its block of text added to the ciphertext before it |
| AesCbc.DecryptedBlock | src/crypto/aes_cbc.c:1186-1201 | each block of text is the decryption of its block of ciphertext added to the ciphertext before it |
| AesCbc.CbcRoundTrip | src/crypto/aes_cbc.c:1170-1201 | chained decryption undoes chained encryption, for any block function with an inverse |
| AesCbc.AesEncryptData | src/crypto/aes_cbc.c:1214-1241 | the output holds the encryption of the padded plaintext and, behind a plaintext that ends on a block boundary, 16 more bytes that are written; nothing further is; or -1 and an untouched buffer |
| AesCbc.BufferTestExact | src/crypto/aes_cbc.c:1221-1237 | when the test of `maxOutLen` keeps the writes, and the returned length, inside it |
| AesCbc.PadBytes | src/crypto/aes_cbc.c:1225-1235 | padding goes up to the next block boundary behind the text and each byte of it tells its length |
| AesCbc.WritePastMaximum | src/crypto/aes_cbc.c:1221-1237 | 16 bytes of plaintext are accepted for `maxOutLen` 16, and 48 bytes are written |
| AesCbc.AesDecryptData | src/crypto/aes_cbc.c:1243-1255 | the output holds the decryption of the complete blocks, and the length comes from its last byte, or for an empty text from the byte in front of the buffer |
| AesCbc.AesCbcRoundTrip | src/crypto/aes_cbc.c:1214-1255 | for every plaintext, initial block and valid key, decrypting the encryption gives the padded plaintext |
| AesCbc.EncryptThenDecrypt | src/crypto/aes_cbc.c:1214-1255 | the two functions in sequence give back the plaintext and its length |
| NetworkModel.PermissionChanged | src/netlink/PhysicalNetwork.cpp:68-92 | the table that a new permission calls for is the old one with the rules of that network replaced |
| NetworkModel.SwitchedDefault | src/netlink/NetworkController.cpp:152-187 | adding the rules of the new default network and deleting those of the old one gives the table of the new state |
| NetworkModel.VpnDropped | src/netlink/NetworkController.cpp:334-373 | a VPN without interfaces leaves exactly its fallthrough rules to delete |
| NetworkControllerModel.NetworkController.SetPermission | src/netlink/PhysicalNetwork.cpp:68-92 | rules are replaced interface by interface; on success the table matches the new permission |
| NetworkControllerModel.NetworkController.ModifyFallthroughLocked | src/netlink/NetworkController.cpp:594-615 | one rule per interface of the default network for one VPN |
| NetworkModel.DefaultFlagged | src/netlink/NetworkController.cpp:152-187 | flagging the new default network and unflagging the old one keeps both invariants and gives the table of the new state |
| NetworkControllerModel.NetworkController.SetDefaultNetwork | src/netlink/NetworkController.cpp:152-187 | without kernel failures it succeeds exactly for no network, the current default or a physical network, which is then the only one flagged; keeps the invariants on every path and the table when no kernel call failed |
| NetworkControllerModel.NetworkController.CreatePhysicalNetwork | src/netlink/NetworkController.cpp:291-313 | succeeds exactly for a free, valid id, and adds an empty network under it and nothing else |
| NetworkControllerModel.NetworkController.CreateVirtualNetwork | src/netlink/NetworkController.cpp:315-332 | without kernel failures it succeeds exactly for a free id from 100 on, and adds a VPN with its fallthrough rules |
| NetworkControllerModel.NetworkController.DestroyNetwork | src/netlink/NetworkController.cpp:334-373 | removes the network, unless it is the local one, even when kernel calls fail, and its rules when none does; it then succeeds exactly if the network was there and was neither the local nor the dummy one |
| NetworkControllerModel.NetworkController.AddInterfaceToNetwork | src/netlink/NetworkController.cpp:375-389 | without kernel failures it succeeds exactly when the network is there, takes interfaces and no other network has this one; then the interface and its rules are added |
| NetworkControllerModel.NetworkController.RemoveInterfaceFromNetwork | src/netlink/NetworkController.cpp:391-399 | without kernel failures it succeeds exactly when the network is there and is not the dummy one; the interface and its rules go |
| NetworkControllerModel.NetworkController.SetPermissionForNetworks | src/netlink/NetworkController.cpp:419-440 | without kernel failures it succeeds exactly when all listed networks are physical; those before the first that is not have the permission then |
| NetworkControllerModel.Perform | src/netlink/NetworkController.cpp:152-440 | each of the seven operations keeps both invariants and, without kernel failures, succeeds exactly when a table of networks accepts it and leads to that table |
| NetworkControllerModel.RunOperations | src/netlink/NetworkController.cpp:129-440 | after any run every interface is in one network at most and the default network is sound; if no kernel call failed of itself, none was refused for adding a rule twice or deleting a missing one, the operations that succeeded and the networks are those of the replay, the default rules are one per interface of the default network, the fallthrough rules the product of VPNs with those, and the other rules one per interface of its network |
| NetworkModel.DefaultCanChange | src/netlink/NetworkController.cpp:152-187 | in the table of a state the rules of the default network are there to be deleted, and those of any other physical network free to be added |
| NetworkModel.PermissionCanChange | src/netlink/PhysicalNetwork.cpp:68-92 | the rules of the old permission are there to be deleted, those of a new one free to be added |
| FwmarkModel.PackRoundTrip | src/netlink/FwmarkServer.cpp:107-111 | reading and writing the 32-bit mark keeps its fields |
| FwmarkModel.ProcessClient | src/netlink/FwmarkServer.cpp:58-223 | on the 32-bit mark each command does what is said of it bit by bit, and the mark stays as it was on an error |
| FwmarkModel.AccessExact | src/netlink/NetworkController.cpp:534-559 | a user may use a network exactly with system permission, as a member of a VPN, or with the permission of the network and no secure VPN in the way; and which error it is otherwise |
| FwmarkModel.ProcessServes | src/netlink/FwmarkServer.cpp:113-213 | what each command answers and what it does to the id, flags and permission bits of the mark, read off the bits |
| FwmarkModel.BrokenStaysBroken | src/netlink/FwmarkServer.cpp:113-213 | under one controller state a command leaves the invariant about proxy sockets broken exactly when it was and the command is ON_ACCEPT, ON_CONNECT or refused |
| FwmarkModel.ProxyInvariantExact | src/netlink/FwmarkServer.cpp:113-213 | from mark 0 the invariant holds after any commands unless the id of an exposed socket turned virtual at some turn and was left alone since |
| FwmarkModel.ServeSocket | src/netlink/FwmarkServer.cpp:58-223 | the same for the 32-bit mark that the server reads and writes, over any requests |
| FwmarkModel.ProxySocketsComeFromSelectForUser | src/netlink/FwmarkServer.cpp:113-213 | in particular, if no carried id turns virtual, a protected, not explicitly selected socket with a VPN id got it from SELECT_FOR_USER |
| FwmarkModel.ConnectNeverPicksSecureVpn | src/netlink/FwmarkServer.cpp:121-163 | ON_CONNECT leaves a secure VPN in place but never chooses one |
| FwmarkModel.ReusedIdBreaksTheInvariant | src/netlink/FwmarkServer.cpp:113-213 | a run, with networks that the controller can have, in which an id is reused and the invariant fails |
| PacketModel.ComputeChecksum | src/dhcpc/packet.c:69-86 | both loops together compute the folded 32-bit sum, and the folding ends |
| PacketModel.ChecksumExact | src/dhcpc/packet.c:69-86 | up to 65535 bytes the accumulator does not overflow |
| PacketModel.ChecksumChain | src/dhcpc/packet.c:154-196 | chained partial sums equal the sum in one pass |
| PacketModel.UdpSumIsOnePass | src/dhcpc/packet.c:183-196 | the six chained sums of the sender are the folded sum of everything they cover |
| PacketModel.SendPacket | src/dhcpc/packet.c:154-203 | fills the IP and UDP headers as the packet layout says |
| PacketLayout.SentFieldsAt | src/dhcpc/packet.c:154-203 | where version, lengths, protocol, addresses and ports stand in a sent packet |
| PacketLayout.SentChecksums | src/dhcpc/packet.c:154-203 | both checksums of a sent packet make the sum of what they cover all ones (RFC 791, RFC 768) |
| PacketModel.IpCheckValidates | src/dhcpc/packet.c:165-176 | the header that the sender builds passes the receiver's header checksum test |
| PacketModel.ReceivePacket | src/dhcpc/packet.c:245-306 | applies the tests in order, borrowing the IP header in place for the pseudo header, and copies by the UDP length |
| PacketLayout.ReceiveExact | src/dhcpc/packet.c:245-306 | a packet is taken exactly when it is a complete UDP datagram for the client port, without IP options, and both sums are all ones with a stored checksum other than zero |
| PacketLengths.OverrunExact | src/dhcpc/packet.c:286-305 | the copy leaves the structure exactly when the tests are passed with a UDP length below 8 or above 1268 |
| PacketLengths.HeaderOnlyReceived | src/dhcpc/packet.c:245-306 | for any addresses, port, UDP length and following bytes there are 28 bytes that pass every test |
| PacketLengths.ZeroLengthOverruns | src/dhcpc/packet.c:286-305 | a UDP length of zero makes the copy leave the structure |
| PacketLengths.CoverageExact | src/dhcpc/packet.c:286-306 | an accepted payload depends on the bytes covered by the tests alone exactly when it is empty or ends inside the IP length |
| PacketModel.SendReceiveRoundTrip | src/dhcpc/packet.c:154-306 | a packet for the client port is accepted with its payload exactly when its UDP checksum is not zero |
| PacketModel.ZeroChecksumExists | src/dhcpc/packet.c:196 | a payload whose checksum is zero |
| DhcpClientModel.DecodeDhcpMsg | src/dhcpc/dhcpclient.c:163-234 | the cursor walks the options, never leaves the message and fills the fields that the options carry |
| DhcpOptions.DecodesOptions | src/dhcpc/dhcpclient.c:179-229 | any list of well-formed options, padding included, with any tail that ends them, decodes to the last option of each kind that is long enough, and leaves the other fields |
| DhcpOptions.DecodesMessage | src/dhcpc/dhcpclient.c:163-234 | a message with cookie and well-formed options decodes to its address and the last option of each kind |
| DhcpOptions.EveryText | src/dhcpc/dhcpclient.c:179-229 | whatever stands behind the cookie is well-formed options and a tail that ends them (nothing, the end option, an option that is cut off) or a message type without a body |
| DhcpOptions.EmptyTypeReads | src/dhcpc/dhcpclient.c:219-221 | a message type without a body takes the next byte, which is read again as an option |
| DhcpOptions.NoCookie | src/dhcpc/dhcpclient.c:163-177 | a message without the cookie decodes to nothing, its address included |
| DhcpOptions.DecodesRequest | src/dhcpc/dhcpmsg.c:73-100 | a REQUEST decodes to its type and its server and nothing else |
| DhcpOptions.DecodesDiscover | src/dhcpc/dhcpmsg.c:52-71 | a DISCOVER decodes to its type and nothing else |
| DhcpOptions.FixedLayout | src/dhcpc/dhcpmsg.c:24-38 | the fixed part of both messages field by field |
| DhcpOptions.OptionLayout | src/dhcpc/dhcpmsg.c:40-100 | the options of both messages byte by byte, with the requested address and the server |
| DhcpClientModel.DiscoverReply | src/dhcpc/dhcpclient.c:350-378 | a reply is valid for a DISCOVER exactly when it answers its transaction and hardware address |
| DhcpClientModel.RequestReply | src/dhcpc/dhcpclient.c:350-378 | the same for a REQUEST |
| DhcpClientModel.ReplyIsValid | src/dhcpc/dhcpclient.c:350-378 | the test compares the reply with the message last sent |
| DhcpClientModel.HandleReply | src/dhcpc/dhcpclient.c:446-532 | the outcome, the phase and the log after each kind of reply: a valid OFFER leads to one REQUEST, a valid ACK configures, a valid NAK denies, everything else is only heard |
| DhcpClientModel.TimedOutOnce | src/dhcpc/dhcpclient.c:429-468 | a timeout repeats the message of the phase with twice the timeout, or gives up |
| DhcpClientModel.HandleEvent | src/dhcpc/dhcpclient.c:426-534 | one event decides the phase or leaves it open, as its kind, the message and the number of timeouts say |
| DhcpClientModel.DhcpInitIfc | src/dhcpc/dhcpclient.c:386-534 | the outcome of every run, from its events alone: the first event that decides each phase (the fourth timeout, a failure, or a valid answer) says how it ends; at most four DISCOVERs and four REQUESTs, none of the former after the latter, each REQUEST with the address and server of the last message heard |
| DhcpClientModel.OfferThenAck | src/dhcpc/dhcpclient.c:386-534 | a valid OFFER and then a valid ACK, with no failure, no denial and fewer than four timeouts in each phase, configures what was acknowledged |
| DhcpClientModel.RequestedAddress | src/dhcpc/dhcpclient.c:446-514 | the first REQUEST asks for what was offered; a later one exactly when the last message heard before it agrees with the offer |
| DhcpClientModel.StrayMessageRedirects | src/dhcpc/dhcpclient.c:446-503 | any message that does not answer the REQUEST redirects its retransmission |

## Left out

- Memory order: the kfifo interleaving is sequentially consistent, while the code has no barriers.
- `kfifo_alloc`, `kfifo_free` and allocation failure anywhere. In the interleavings of kfifo a put reads the counters once when it begins, and `in` again at its end.
- `stopListener`, which deletes clients without counting, and the descriptors, `select`, `accept` and the control pipe. A client is named by its order of creation, so that addresses are not reused.
- The lookup of a command after its line has been split, and the replies sent to the client.
- Number formatting and `strtod`: a codec with one condition per number (a token of number bytes, at most 25, that scans back to it) stands for them; NaN and infinities, which print as null, do not meet it. The integer copy of a number, locales, Raw and reference items, and the error position of a failed parse are not modelled.
- JsonPrint.PrintBuffer.Reallocate: models a reallocation that keeps the old contents, not one that fails, and not the manual path that copies one byte past what was printed.
- The other functions of cJSON: building, comparing, duplicating and editing trees.
- Json parsing of C strings with zero bytes decoded from an escape: the value is the C string before the first of them.
- The S-box of AES is any byte map with an inverse, from which the ten tables are built; the literals of the tables are not repeated, and that they are the ones of FIPS 197 is not stated.
- AES with a missing initial block or an invalid key length in `aes_encrypt` and `aes_decrypt`, where the code works on uninitialised memory; lengths near `INT_MAX`; the word-wise path of `xorbuf`.
- Clearing contexts and buffers after use, `SHA1_digest`, and hosts that are not little-endian.
- Users and their permissions, VPN uid ranges (whose functions are stubs), routes, and the interface-to-table cache of `RouteController`: a rule is identified by interface, network and permission, one for each group of kernel rules that is added and deleted together. Networks are values in a map instead of objects.
- Threads in the network controller: creating a network and adding or removing an interface test the network first and take the lock for the change again (src/netlink/NetworkController.cpp:291-399), and each operation is modelled as one step.
- FwmarkModel.ProcessClient: a command sees one state of the controller, although each of its queries takes the lock on its own.
- NetworkControllerModel.NetworkController.ModifyRule: after a kernel call that fails of itself nothing is known about the rules, so that agreement of the table is claimed for runs without such failures; the other invariants hold on all runs.
- The query command of `FwmarkServer`, which does not use the mark, and failing socket calls. The access check casts any network that is not a VPN to a physical one; what it then reads from local and dummy networks is arbitrary (`stray`).
- FwmarkModel.FindVpn: any VPN that applies to the user, since the choice among several depends on map order.
- Sockets, netlink messages, polling and clocks of the DHCP client: events and received bytes are parameters.
- DhcpClientModel.DhcpInitIfc: after the last timeout it says that the client keeps the last message it decoded, valid or not, if that is an OFFER; setting up the interface with it is left out.
- `include/hlist.h`, the list headers, the bandwidth, NAT, firewall, tethering and similar controllers, logging, epoll and ioctl helpers, which mostly launch processes or wrap system calls.
