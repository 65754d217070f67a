# RedCouch, modelled and proved in Dafny

RedCouch puts three memcached wire protocols (binary, classic text, meta text) in front of a
Redis keyspace. Each command becomes one atomic Lua script over a Redis hash per item; a
shared counter issues CAS tokens; connection threads interleave script by script.

The project has two halves that meet in the front ends.

**The store.** `redis_scripts.dfy` is the keyspace the scripts mutate: a class with hashes,
integers, expiry times and the clock, the Redis commands the scripts call, and every script
written statement by statement. Each is proved to be the step that `store_spec.dfy` gives for
it and to leave all foreign keys alone. A run is any sequence of such steps and clock ticks, so
it covers every interleaving, including the commands that take two steps. `runs.dfy` (tokens and
compare-and-swap), `expiry.dfy`, `counters.dfy` and `values.dfy` are about whole runs;
`doubles.dfy` is the arithmetic of Lua numbers (round to nearest, ties to even, 53 bits) and
their `%.14g` text.

**The sessions.** `frames.dfy` and `binary_conn.dfy` are the binary parser and loop,
`dispatch.dfy`, `binary_handlers.dfy` and `binary_sizes.dfy` its commands and responses;
`text_tokens.dfy`, `ascii_commands.dfy`, `meta_commands.dfy` and `text_conn.dfy` are the text
parsers and loop, `text_handlers.dfy`, `meta_handlers.dfy`, `retrieval.dfy` and
`text_session.dfy` its commands and replies; `sessions.dfy` is protocol detection. Loops that
grow a buffer and append to an output are methods with invariants, proved against one recursive
pass over the whole stream; socket reads are an arbitrary split of it.

**The front ends.** `front_ends.dfy` proves the three protocols interchangeable over one store
at the level of commands and scripts. `wire.dfy`, `wire_replies.dfy` and `wire_sessions.dfy`
carry that to the wire: the bytes a client sends, the session that serves them, and what a
client reads off the bytes that come back; `client_sessions.dfy` puts a client's whole
connection together, from reads of any size through detection to the replies. `reachable.dfy`
is about runs of events that handlers issue. `connections.dfy` is the connection limit under
interleaving.

**The laws.** `binary_laws.dfy`, `text_laws.dfy` and `meta_laws.dfy` say what the commands do
without the tables, constants and helper functions of the model: opcode bytes, status numbers,
words, lines, flag letters and defaults are literals there.

## What the code does that its documentation does not say

Members that state each point are named; most give the exact condition.

- Values are stored as raw bytes and travel as hex only inside script replies;
  docs/ARCHITECTURE.md:67 says they are stored as hex. The model follows the code (`Transport`).
- Compare-and-swap is safe at the script interface exactly while the counter is at most 10^14:
  beyond it two tokens print alike (`LostUpdateFreedomExactly`, with a concrete lost update). A
  binary client is told token 0, which means "no token", from 10^14 on (`TokenNumberExactly`).
  The token a loud binary DELETE answers with never succeeds (`DeleteTokenUseless`).
- TOUCH and GAT with an absolute time that is not in the future revive an empty item without
  a deadline. Expiry is right over a run exactly when no step is such a touch (`ExpiryExactly`).
- An increment can lower a stored number: exactly when the bits of the number beyond the 53 of
  a double are rounded down (`NeverDecreasesExactly`). Counter replies above 2^64 - 1 are 0
  (`ReplyBodyExactly`; `OverflowingReply` is 2^64 - 1 incremented by one).
- The read-buffer guard refuses complete, legal frames under some chunkings: it is harmless
  exactly when bodies are limited to MAX_BODY_LEN - 12287 bytes (`GuardExactly`).
- When the binary loop meets a bad magic byte or a handler error, exactly the responses to the
  frames completed by the last read are lost (`DroppedExactly`, `DroppedResponses`). QUIT is
  such an error, so a loud QUIT is never answered (`QuitNeverAnswered`), and what is sent
  depends on the reads: NOOP and QUIT in one read send nothing, in two the NOOP is answered
  (`ReadsMatter`).
- LUA_FLUSH returns the number of keys SCAN reported. That is the number deleted exactly when
  SCAN reported each item once and nothing else (`LuaFlush`, `FlushCountExactly`); since SCAN
  reports present keys only, exactly when it reported none twice (`FlushDuplicateExample`).
- A STAT request is answered with the general statistics if its key is empty and also if it is
  not UTF-8 (`GeneralStatsExactly`, `StatKeyExample`).

## Model

| member | source | states |
|---|---|---|
| RedisScripts.NamespaceIsolated | src/lib.rs:106-111 | client keys map injectively into the item namespace, and none maps to the CAS counter key |
| RedisScripts.Redis.constructor | src/lib.rs:55 | a fresh keyspace is the empty store with counter 0 |
| RedisScripts.Redis.LuaStore | src/lib.rs:185-206 | the SET/ADD/REPLACE script, with its CAS check and expiry branches, is the store step; foreign keys untouched |
| RedisScripts.Redis.LuaGet | src/lib.rs:220-233 | the reply carries the value as hex, the flags with default "0", and the token text; nothing changes |
| RedisScripts.Redis.LuaMetaGet | src/lib.rs:244-258 | as above, with remaining life and size |
| RedisScripts.Redis.LuaDelete | src/lib.rs:267-276 | deletes exactly when the item exists and the token, if any, is current; else says which failed |
| RedisScripts.Redis.DirectDelete | src/lib.rs:1110-1130 | the DEL fast path is the delete script called with token "0" |
| RedisScripts.Redis.LuaCounter | src/lib.rs:297-325 | the counter script is the counter step: creation with its expiry, clamped subtraction, rounded sums, non-numeric refusal |
| RedisScripts.Redis.LuaTouch | src/lib.rs:335-347 | the touch script is the touch step, including a stale absolute time deleting and re-creating the hash |
| RedisScripts.Redis.LuaGat | src/lib.rs:357-377 | the GAT script is the touch step answered with the touched item |
| RedisScripts.Redis.LuaExtend | src/lib.rs:388-425 | APPEND and PREPEND concatenate on the right side, keep flags and deadline and issue a token |
| RedisScripts.Redis.LuaFlush | src/lib.rs:431-446 | for any batches that SCAN's promise allows, every item is removed and no other key; the count is the number of deleted items if and only if each item was reported once and nothing else was, hence, SCAN reporting present keys only, if and only if none was reported twice |
| RedisScripts.FlushCountExactly | src/lib.rs:436-445 | reported keys are as many as the items they cover if and only if none is reported twice and each is an item |
| RedisScripts.Redis.DeleteBatch | src/lib.rs:438-443 | one SCAN reply: its keys are deleted and each is counted |
| RedisScripts.FlushDuplicateExample | src/lib.rs:438-443 | a store with one item whose key SCAN reports twice: one deletion, a count of two |
| RedisScripts.Redis.Advance | src/lib.rs:198-204 | when time passes exactly the items whose deadline is reached are gone |
| Runs.StepTokens | src/lib.rs:196 | every step keeps tokens of live items distinct, nonzero and at most the counter, and issues exactly counter + 1 when it issues one |
| Runs.ReachableTokens | src/lib.rs:185-425 | the token invariant holds in every state reachable from the empty store |
| Runs.TokensIncrease | src/lib.rs:1186-1191 | over a run, each issued token exceeds all issued before and all live at the start, across deletes, flushes and two-step commands |
| Runs.ChangesExactly | src/lib.rs:185-446 | a live item differs after a step if and only if the step is a mutation, touch, delete, flush or expiry of it |
| Runs.TokenText | src/lib.rs:197 | up to 10^14, token texts are never "0" and equal only for equal tokens |
| Runs.LostUpdateFreedom | src/lib.rs:192-196 | a conditional command presenting a token read from k succeeds if and only if it addresses k and nothing changed k in between; k then holds the value and flags read all along |
| Runs.TokenFreedom | src/lib.rs:192-196 | the same for every token a client is given, by mutations too: presenting it succeeds if and only if it was left on its item and nothing has happened to that item since |
| Runs.DeleteTokenUseless | src/lib.rs:1164-1165 | the token answered to a loud binary DELETE is on no item and never succeeds |
| Runs.LostUpdateExample | src/lib.rs:197 | a four-step run from counter 10^14 - 1 in which a stale token overwrites a newer value |
| Runs.LostUpdateFreedomExactly | src/lib.rs:185-425 | every successful use of a read token is protected, in all runs, if and only if the counter stays at most 10^14 |
| Runs.FlushRetiresTokens | src/lib.rs:431-446 | no token read before a flush succeeds after it, on any key |
| Doubles.ToDoubleIsDouble | src/lib.rs:311-324 | rounding always yields a representable double |
| Doubles.NearestDouble | src/lib.rs:311-324 | no double is nearer than the rounded value |
| Doubles.TiesToEven | src/lib.rs:311-324 | half-way cases go to the even neighbour |
| Doubles.RoundsDownExactly | src/lib.rs:311-324 | rounding lowers a number if and only if its bits beyond the 53rd are under half a unit and not zero, or a tie at an even quotient |
| Doubles.ToDoubleMono | src/lib.rs:311-324 | rounding is monotone |
| Doubles.ExactUpTo2To53 | src/protocol.rs:1306-1325 | integers up to 2^53 are exact |
| Doubles.LuaTextExact | src/lib.rs:197 | below 10^14 a token prints as its decimal numeral |
| Doubles.ScientificExample | src/lib.rs:197 | the token 10^14 prints as 1e+14 |
| Doubles.TokensDistinctExactly | src/lib.rs:197 | all tokens up to a limit print differently if and only if the limit is at most 10^14 |
| Expiry.RunAgrees | src/lib.rs:198-204 | without stale touches, each item's deadline is the one fixed by the last store, touch, GAT or counter creation |
| Expiry.ExpiryExactly | src/lib.rs:340-345 | visibility is right in every state of a run if and only if no step is a touch or GAT of the item with a past absolute time |
| Expiry.DeadlineStands | src/lib.rs:323-399 | between deadline-fixing commands a live item stays until its deadline and keeps it, through appends, prepends and arithmetic |
| Expiry.TouchExactly | src/lib.rs:335-347 | a touch keeps value and flags and gives the requested life if and only if the time is not stale; else an empty immortal item is left |
| Expiry.StaleTouchExample | src/lib.rs:340-345 | a concrete touch after which the item is empty and still there a billion seconds later |
| Expiry.LifeLeft | src/lib.rs:244-258 | the life `mg t` reports is what is left: d less after d seconds, the item gone when it is used up, none ever without a deadline |
| Expiry.LifeGranted | src/lib.rs:198-204 | right after a store or touch that is not stale the reported life is the one granted: relative up to 30 days, else until the absolute time |
| Counters.IncrementRounds | src/lib.rs:311-324 | the written value is a double nearest to round(old) + round(delta), within half an ulp, and at least round(old) |
| Counters.NeverDecreasesExactly | src/lib.rs:311-324 | no increment lowers a stored number if and only if its bits beyond the 53rd are zero, over half a unit, or a tie at an odd quotient |
| Counters.ShrinkingExample | src/protocol.rs:1326-1350 | 2^53 + 1 incremented by 0 becomes 2^53 |
| Counters.SmallArithmetic | src/lib.rs:311-324 | with operands and result up to 2^53, increments are exact and decrements exact with clamping at 0 |
| Counters.DecrementRounds | src/lib.rs:314-319 | a decrement writes 0 when the delta is larger, else a double nearest to the difference, within half an ulp, never above round(old) |
| Counters.CreationExactly | src/lib.rs:300-310 | a missing counter is created with flags "0" and its expiry, unless the expiry is 4294967295 |
| Counters.NoLostIncrements | src/lib.rs:297-325 | in every interleaving within the exact range, the stored numeral is the result of all arithmetic so far and each reply is the result at its own step |
| Counters.TallyIsSum | src/lib.rs:319-322 | without decrements that result is the initial value plus the sum of the deltas |
| Counters.NeverDecreasesAlongRuns | src/protocol.rs:1351-1370 | once written by arithmetic, a counter never decreases along any run of increments, rounding included |
| Counters.ReplyBodyExactly | src/lib.rs:1257-1273 | the eight-byte reply decodes to the counter up to 2^64 - 1 and to 0 beyond |
| Counters.OverflowingReply | src/lib.rs:311-324 | the stored counter 2^64 - 1 incremented by 1 becomes 2^64, and the binary reply says 0 |
| Values.ValueOverRun | src/lib.rs:388-425 | through any interleaving, the value is the prepends (latest first), the original and the appends in order |
| Values.SetThenExtend | src/lib.rs:185-425 | SET, then any appends and prepends, then GET returns exactly that concatenation and the flags |
| Values.FetchValue | src/lib.rs:927-975 | script hex loop and module hex loop together return the stored bytes |
| Hex.HexRoundTrip | src/lib.rs:150-167 | decoding the encoding of any bytes gives them back |
| Hex.UnhexEmptyExactly | src/lib.rs:150-167 | the result is empty if and only if the input is empty, of odd length or has a non-hex character |
| Hex.HexEncode | src/lib.rs:228-232 | the table loop writes two digits per byte, in order |
| Hex.HexDecode | src/lib.rs:150-167 | the decoding loop computes the decoder for every input |
| Hex.Transport | src/lib.rs:220-233 | encoding then decoding returns the value |
| Frames.ParseStable | src/protocol.rs:285-326 | a parse result other than incomplete is unchanged by appending bytes |
| Frames.ParseBuilt | src/protocol.rs:453-476 | parsing a built frame followed by anything gives its fields and consumes exactly the frame |
| Frames.RebuildParsed | src/protocol.rs:222-326 | rebuilding a parsed frame gives its bytes except the ignored bytes 5 to 7 |
| Frames.BuildRawRequestFrame | src/protocol.rs:453-476 | the in-place writer produces the frame |
| Frames.PutBigEndian | src/protocol.rs:453-476 | an in-place big-endian store writes exactly its window |
| Frames.WriteRawResponse | src/protocol.rs:354-377 | appends exactly one encoded response |
| Frames.DecodeEncoded | src/protocol.rs:354-377 | a response followed by anything decodes to its fields and the rest |
| Frames.DecodeAllEncoded | src/protocol.rs:354-377 | a stream of responses decodes uniquely to those responses |
| BinaryConn.ServeAppend | src/lib.rs:750-801 | serving a longer stream is serving a prefix and going on from its state and leftover |
| BinaryConn.RestIncomplete | src/lib.rs:750-756 | what a served stream leaves is an incomplete frame of at most MAX_BODY_LEN + 23 bytes |
| BinaryConn.ServeBuffer | src/lib.rs:750-801 | the inner loop, consuming at least a header each time, is the recursive parse of the buffer |
| BinaryConn.HandleBinaryConn | src/lib.rs:721-824 | for every split into reads, state, frames, bytes sent, ending and number of reads are those of `Loop`; frames, state and stop reason are those of one pass unless the guard fires, which it does exactly on an overflowing read; after each read the buffer is what was left plus that read, at most MAX_BODY_LEN + 23 + 16384 bytes |
| BinaryConn.LoopConforms | src/lib.rs:745-810 | the loop against one pass over the stream: same output on end of input and on an oversized frame, on bad magic and handler errors what was sent before the last read |
| BinaryConn.DroppedExactly | src/lib.rs:753-760 | on bad magic or a handler error the output lost is exactly that of the frames completed by the last read; nothing is lost if and only if they have none |
| BinaryConn.GuardSafe | src/lib.rs:581-581 | the guard never fires on bodies of at most MAX_BODY_LEN - 12287 bytes |
| BinaryConn.GuardFires | src/lib.rs:729-732 | for every larger body length there are reads that overflow the guard though the frame is complete |
| BinaryConn.GuardExactly | src/lib.rs:729-732 | the guard never fires, for all streams with bodies of at most n bytes and all splits, if and only if n is at most MAX_BODY_LEN - 12287 |
| BinaryDispatch.OpcodeRoundTrip | src/protocol.rs:59-192 | opcodes and bytes determine each other; quiet opcodes are exactly those with another base, which is loud |
| BinaryLaws.OpcodeTableLoud | src/protocol.rs:59-96 | the bytes of the storing, reading and counting commands |
| BinaryLaws.OpcodeTableMore | src/protocol.rs:59-96 | the bytes of the other loud commands |
| BinaryLaws.OpcodeTableQuiet | src/protocol.rs:59-96 | the bytes of the quiet commands |
| BinaryLaws.QuietTable | src/protocol.rs:173-192 | each quiet byte's loud command, by their bytes |
| BinaryLaws.MostSignificantFirst | src/protocol.rs:222-235 | fields are read most significant byte first |
| BinaryLaws.ByteOrderExample | src/protocol.rs:453-476 | 0x01020304 is written 1, 2, 3, 4 and read back |
| BinaryLaws.ReadLaw | src/lib.rs:927-988 | a request with opcode byte 0x00, 0x09, 0x0c or 0x0d leaves the store alone; if the item at "rc:" and the key is there it is answered by its value, flags, token and, for the last two, key; else by status 1, or by nothing if quiet |
| BinaryLaws.SetThenReadLaw | src/lib.rs:992-1096 | the bytes of a SET followed by any of the four reads of its key: the second response holds the value, flags and fresh token |
| BinaryLaws.DeleteLaw | src/lib.rs:1100-1182 | bytes 0x04 and 0x14 remove a present key whose token, if given, is current; a loud success answers a fresh token, a quiet one is silent and takes none; else status 1 or 2 and no change |
| BinaryLaws.QuietIsLoud | src/lib.rs:831-1543 | a quiet command answers as its loud command with its own opcode, or not at all exactly on a quiet miss or success |
| BinaryLaws.FlagsNumberOf | src/lib.rs:969 | flags stored as the numeral n come back as n up to 2^32 - 1, and as 0 above |
| BinaryLaws.FlagsNumberExactly | src/lib.rs:969 | any other flags text is sent as 0; a plus sign is allowed |
| BinaryLaws.WrongExtrasLaw | src/lib.rs:997-1000 | extras that are not 8, 20, 4 or 0 bytes as the command byte demands get status 4, quiet or not, and change nothing |
| BinaryLaws.FixedAnswers | src/lib.rs:1547-1625 | status and body of noop, verbosity, version, SASL and unknown commands, by their bytes |
| BinaryLaws.NonNumericBody | src/lib.rs:1281-1291 | arithmetic on a value that is not a number is answered by status 4 and its text |
| BinaryLaws.StatisticsLaw | src/lib.rs:1649-1796 | STAT sends each name as key and value as value, in order, then an empty response |
| BinaryLaws.OversizedLaw | src/protocol.rs:296-310 | a header with a key over 250 or a body over 20971520 bytes is refused by itself |
| BinaryLaws.MalformedLaw | src/protocol.rs:311-321 | extras and key longer than the body: exactly the frame is skipped |
| BinaryLaws.MalformedServed | src/lib.rs:761-778 | a malformed frame is answered by status 4 and the session goes on behind it |
| BinaryLaws.RefusedServed | src/lib.rs:757-801 | an oversized frame is answered by status 4 and ends the session; bad magic ends it silently |
| BinaryLaws.Limits | src/lib.rs:581 | the sizes of headers, keys, bodies, reads and of the read buffer |
| BinaryDispatch.TokenNumberExactly | src/lib.rs:970-970 | a response carries the token exactly below 10^14 and 0 from there on |
| BinaryDispatch.AnswerDiscipline | src/lib.rs:831-1543 | every response echoes opcode and opaque; their number is one for loud, hit-or-bad-arguments for quiet retrievals, not-success for quiet mutations; STAT ends with an empty-key terminator |
| BinaryDispatch.AnswerTells | src/lib.rs:927-1524 | the single response to a loud request tells the script's reply: status for its kind, fields for value, flags, number and token |
| BinaryDispatch.GroupsAreTheSession | src/lib.rs:745-801 | the output of a session is the responses of its frames, group by group in request order |
| BinaryDispatch.PipeliningDiscipline | src/protocol.rs:143-192 | in any stream every group keeps the discipline, malformed and oversized frames included |
| BinaryDispatch.DroppedResponses | src/lib.rs:753-760 | the responses lost at the end of a connection are those of the last read's frames; none is lost if and only if none of these frames has a response |
| BinaryDispatch.QuitNeverAnswered | src/lib.rs:870-877 | a connection that ends by QUIT ends with that frame, and if it is loud its response is always among the lost ones |
| BinaryDispatch.ReadsMatter | src/lib.rs:753-810 | the bytes of NOOP and QUIT in one read send nothing, in two reads the NOOP's response |
| BinaryDispatch.GeneralStatsExactly | src/lib.rs:1651-1660 | a STAT carries the statistics if and only if its key is empty or not UTF-8 |
| BinaryDispatch.StatKeyExample | src/lib.rs:1651-1660 | the one-byte key 0xFF gets all statistics, the key "items" only the terminator |
| BinarySizes.ArithmeticLength | src/lib.rs:311-322 | one arithmetic step lengthens a stored numeral by at most 24 digits |
| BinarySizes.StepRoom | src/lib.rs:185-425 | a script lengthens values by at most the bytes its request took, so room for a stream is kept along it |
| BinarySizes.GroupsSized | src/protocol.rs:354-377 | from a store with room for the stream, every response of the session fits its length fields |
| BinarySizes.PipelinedOutput | src/lib.rs:745-808 | from such a store the output of any stream decodes uniquely into the responses of its frames, in request order |
| BinaryDispatch.ScriptReply | src/lib.rs:831-1543 | each family of commands gets only the replies its handler has branches for |
| BinaryHandlers.OpGet | src/lib.rs:927-988 | GET and its variants: state untouched, the promised responses appended |
| BinaryHandlers.OpStore | src/lib.rs:992-1096 | SET, ADD, REPLACE from wire fields to script to response |
| BinaryHandlers.OpDelete | src/lib.rs:1100-1182 | fast path or script, then for a loud success the counter step whose value is answered |
| BinaryHandlers.OpCounter | src/lib.rs:1195-1302 | INCREMENT and DECREMENT with their 20 bytes of extras |
| BinaryHandlers.OpTouch | src/lib.rs:1306-1364 | TOUCH |
| BinaryHandlers.OpGat | src/lib.rs:1368-1434 | GAT and GATQ |
| BinaryHandlers.OpAppendPrepend | src/lib.rs:1438-1524 | APPEND and PREPEND, refusing extras |
| BinaryHandlers.OpFlush | src/lib.rs:1528-1543 | FLUSH, for any key batches SCAN may return |
| BinaryHandlers.OpStat | src/lib.rs:1649-1796 | one response per statistic and then the terminator |
| BinaryHandlers.HandleRequest | src/lib.rs:831-886 | the dispatcher over the keyspace has the state, output and verdict of the pure handler used in the session theorems |
| TextTokens.TokensJoin | src/ascii.rs:415-416 | printable words joined by spaces split back into those words |
| TextTokens.ValidateKey | src/ascii.rs:130-140 | accepts exactly 1 to 250 bytes without blanks, control characters or DEL |
| AsciiCommands.PrintParse | src/ascii.rs:409-447 | parsing the printed line of any classic command returns the command |
| AsciiCommands.ParsedWithinLimits | src/ascii.rs:155-406 | whatever line parses, keys are valid and numbers within their widths |
| AsciiCommands.VerbRoundTrip | src/ascii.rs:417-446 | every verb is recognised as itself |
| TextLaws.CommandLines | src/ascii.rs:409-447 | the line of the protocol's own words for a command is parsed as that command |
| TextLaws.BareFlush | src/ascii.rs:390-406 | `flush_all` and `flush_all noreply` mean a flush at once, loud and silent |
| TextLaws.UnknownExactly | src/ascii.rs:417-446 | a line of words is an unknown command if and only if its first word is none of the nineteen verbs |
| TextLaws.SpaceTable | src/ascii.rs:415 | the white space that separates words, character by character |
| AsciiCommands.ParseKeys | src/ascii.rs:266-293 | the key loop accepts exactly the lists of valid keys |
| AsciiCommands.ParseFlushLoop | src/ascii.rs:390-406 | the argument loop of flush_all computes its parser |
| MetaCommands.ParseMetaFlags | src/meta.rs:52-72 | the flag loop computes the flag list, failing exactly on a token that is not UTF-8 |
| MetaCommands.FlagsRoundTrip | src/meta.rs:52-72 | printed flags parse back, tokens included |
| MetaCommands.ValidateFlags | src/meta.rs:93-221 | the six validators: no error exactly on valid flags, mode checks included; otherwise the text of the first check that fails |
| MetaCommands.FlagsErrorExactly | src/meta.rs:93-221 | there is an error text if and only if some check of the command fails |
| MetaCommands.MetaPrintParse | src/meta.rs:226-294 | parsing the printed line of any meta command returns it, with the announced length for `ms` |
| MetaCommands.MetaRouted | src/ascii.rs:627-643 | a printed meta command is recognised as meta |
| TextConn.FindLineEnd | src/ascii.rs:116-126 | the scan finds the first line feed and drops a carriage return before it |
| TextLaws.LineLaw | src/ascii.rs:116-126 | a line ends at its first line feed, with or without a carriage return before it |
| TextLaws.BlankLine | src/ascii.rs:503-506 | a line of blanks is skipped |
| TextLaws.LongLine | src/ascii.rs:493-499 | a line over 2048 bytes is refused as a whole, and only it |
| TextLaws.BlockLaw | src/ascii.rs:694-706 | a block ends with LF or CR LF, which is consumed; anything else is refused with the two bytes in its place |
| TextLaws.BadBlock | src/ascii.rs:574-584 | a block with a wrong terminator is one item, skipped with those two bytes |
| TextLaws.LargeBlock | src/ascii.rs:560-572 | a block over 20971520 bytes is one item, skipped with its terminator |
| TextLaws.OtherItems | src/ascii.rs:493-600 | the literal answers to long lines, unknown commands, bad lines, bad and oversized blocks, or silence |
| TextConn.PrintedRoutes | src/ascii.rs:627-676 | printed commands reach their own parser and announce their data block |
| TextConn.ReadDataBlock | src/ascii.rs:681-707 | whatever the reads, the block is the next bytes of the stream, checked for its terminator |
| TextConn.DrainDataBlock | src/ascii.rs:711-723 | an oversized block and its terminator are skipped and nothing else |
| TextConn.NextItem | src/ascii.rs:493-600 | one round takes the item at the front of the whole stream |
| TextConn.HandleAsciiConn | src/ascii.rs:486-610 | on streams with lines within the limit that do not end inside a block, every split gives the items, state and output of one pass |
| TextHandlers.AsciiStore | src/ascii.rs:884-978 | set/add/replace/cas: the store step and STORED, NOT_STORED, EXISTS or NOT_FOUND, or silence |
| TextHandlers.AsciiDelete | src/ascii.rs:1061-1098 | delete by the fast path and its line |
| TextHandlers.AsciiCounter | src/ascii.rs:1102-1187 | incr/decr never create; the line is the number, NOT_FOUND or an error |
| TextHandlers.AsciiTouch | src/ascii.rs:1191-1237 | touch and its line |
| TextHandlers.AsciiAppendPrepend | src/ascii.rs:1241-1299 | append/prepend and their line |
| TextHandlers.AsciiFlush | src/ascii.rs:1303-1317 | flush_all at once, whatever its delay |
| TextHandlers.VisitIsRun | src/ascii.rs:994-1050 | a multi-key retrieval is its scripts in key order |
| TextHandlers.AsciiStats | src/ascii.rs:1818-1932 | one line per statistic without a group or with an empty one, then END |
| TextHandlers.DispatchClassic | src/ascii.rs:728-808 | a classic command takes exactly the steps the front-end theorems use and writes its line; only quit ends the connection |
| TextHandlers.ClassicTells | src/ascii.rs:884-1317 | a client's reading of the line is the script's reply, except that stores without a token report every failure as NOT_STORED |
| TextLaws.LoudAnswers | src/ascii.rs:884-1317 | the answer to each loud mutation, byte for byte |
| TextLaws.NoreplyIsSilent | src/ascii.rs:884-1317 | with noreply nothing is sent, whatever happened |
| TextLaws.StatsLaw | src/ascii.rs:1818-1932 | one line per statistic, name and value, in order, then END |
| MetaHandlers.WriteMetaFlagEcho | src/meta.rs:300-312 | appends the opaque and key words |
| MetaHandlers.MetaGet | src/ascii.rs:1336-1450 | `mg`: with T the touch step and then the read step; miss, header or value reply with the requested words |
| MetaHandlers.MetaSet | src/ascii.rs:1454-1620 | `ms` in its five modes, one script each, and its status line |
| MetaHandlers.MetaDelete | src/ascii.rs:1624-1701 | `md` by fast path or script, and its status line |
| MetaHandlers.MetaArithmetic | src/ascii.rs:1705-1814 | `ma` with its defaults, creation only with N, and its reply |
| MetaHandlers.DispatchMeta | src/ascii.rs:814-878 | invalid flags change nothing and are answered by the first failed check; else exactly the steps the front-end theorems use, and their reply |
| MetaHandlers.MsgReadsBack | src/ascii.rs:1403-1449 | a meta reply followed by anything reads back as its code, words and block, whatever bytes the block holds |
| MetaHandlers.GetDecodes | src/ascii.rs:1336-1450 | the reply to `mg` decodes to exactly the stored bytes and the requested token, flags and life |
| MetaLaws.HitWords | src/ascii.rs:1405-1449 | the words of a hit are token, flags, size and life, each exactly if its letter was sent, then the echo; the block is the value exactly if v was |
| MetaLaws.EchoLaw | src/meta.rs:300-312 | the echo is O with its token, then k with the key |
| MetaLaws.EveryReplyEchoes | src/meta.rs:300-312 | every `mg`, `ms`, `md` and `ma` reply ends with it |
| MetaHandlers.ArithDecodes | src/ascii.rs:1764-1791 | the reply to `ma` decodes to the number and token asked for |
| MetaHandlers.MetaTells | src/ascii.rs:1454-1701 | the status code of a loud `ms` or `md` is the script's reply, NS standing for a conflict without a token |
| MetaLaws.BareArithmetic | src/ascii.rs:1705-1750 | `ma` without M, D and N adds one to a present counter, answers the sum and does nothing else |
| MetaLaws.BareArithmeticMiss | src/ascii.rs:1714-1716 | without N a missing key is a miss and nothing changes |
| MetaLaws.CreatingArithmetic | src/ascii.rs:1713-1716 | with N and without J it creates the counter "0" with flags "0" and the life N says |
| MetaLaws.BareSet | src/ascii.rs:1454-1462 | `ms` without M, C, F and T is an unconditional set with flags "0" and no deadline |
| MetaLaws.BareDelete | src/ascii.rs:1624-1650 | `md` without C removes a present item and nothing else |
| MetaLaws.BareGet | src/ascii.rs:1364-1370 | `mg` without T reads the item and changes nothing |
| MetaLaws.StatusLines | src/ascii.rs:1323-1701 | the loud status replies without O and k, byte for byte |
| MetaLaws.NumberLines | src/ascii.rs:1764-1791 | `ma` with v answers the number as a block, byte for byte |
| MetaLaws.QuietIsSilent | src/ascii.rs:1454-1814 | with q, `ms`, `md`, `ma` and `me` send nothing, and `mg` nothing on a miss |
| MetaLaws.SetTokenWorks | src/ascii.rs:1566-1576 | a successful conditional `ms` says its new token, and presenting it next succeeds |
| MetaLaws.ErrorTexts | src/meta.rs:93-212 | the texts for unsupported flags and for missing or bad numbers |
| MetaLaws.ModeErrorTexts | src/meta.rs:106-221 | the texts for mode errors |
| Retrieval.AsciiRetrieval | src/ascii.rs:982-1057 | one script call and at most one entry per key, in order, then END |
| Retrieval.ReplyDecodes | src/ascii.rs:1030-1055 | a reply followed by anything decodes to exactly the ordered hits for arbitrary values, line breaks and fake headers included |
| Retrieval.HitsDecodable | src/ascii.rs:982-1057 | along the keys of a retrieval the hits' keys and flags stay printable fields |
| Retrieval.RetrievalDecodes | src/ascii.rs:982-1057 | a client of get/gets/gat/gats decodes exactly the store's hits, tokens as text, from any store whose flags hold no blanks |
| Retrieval.HitsAppend | src/ascii.rs:991-1050 | the hits of a list of keys are those of its front followed by those of its back in the store the front left |
| TextLaws.GetLaw | src/ascii.rs:982-1057 | `get` and `gets` decode to exactly the present keys, in request order and with repetitions, each with its item's flags, value and token, and change nothing |
| TextLaws.GatLaw | src/ascii.rs:982-1057 | `gat` and `gats` likewise, key by key in the store the earlier touches left, with consecutive tokens |
| Retrieval.LuaTextField | src/lib.rs:197 | token texts never hold blanks, in decimal or scientific notation |
| Retrieval.TokensExact | src/lib.rs:197 | below 10^14 the token text is the item's token in decimal |
| Retrieval.StepPlainFlags | src/lib.rs:197 | a step stores no blanks in flags unless it brings them |
| Retrieval.RunPlainFlags | src/lib.rs:197 | nor does a run |
| Reachable.IssuablePlain | src/ascii.rs:884-1620 | no event issued by a binary, classic or meta handler brings flags with blanks |
| Reachable.MetaPlain | src/meta.rs:106-129 | the flags of `ms` were validated as a number, so they hold no blanks |
| Reachable.ReachablePlain | src/lib.rs:185-425 | in every state that handlers can reach, stored flags hold no blanks |
| Reachable.ReachableRetrievals | src/ascii.rs:982-1057 | in every such state clients of get, gets, gat and gats decode the store's hits |
| TextSession.HandleItem | src/ascii.rs:502-600 | the dispatcher of a text item over the keyspace has the state, output and verdict of the pure handler used in the session theorems |
| TextSession.TurnsAreTheSession | src/ascii.rs:486-610 | the output of a text session is what its items put on the wire, in order |
| FrontEnds.BinaryMeans | src/lib.rs:992-1543 | a binary encoding of a command has the effect and answer of its one defining script, up to one extra counter step |
| FrontEnds.ClassicMeans | src/ascii.rs:884-1317 | so has its classic encoding |
| FrontEnds.MetaMeans | src/ascii.rs:1336-1814 | so has its meta encoding, flags validated |
| FrontEnds.TouchThenGet | src/ascii.rs:1347-1363 | `mg` with T, two steps, has the effect and answer of GAT |
| FrontEnds.CanonEffect | src/lib.rs:185-425 | a command's effect on keys, values, flags and deadlines depends on tokens only through whether its token is current |
| FrontEnds.SendSimilar | src/lib.rs:1110-1130 | one command through any two protocols keeps two clients' stores equal and tokens order-isomorphic |
| FrontEnds.ThreeFrontEnds | src/ascii.rs:884-1814 | any sequence of parsed commands leaves the same keys, values, flags and deadlines whichever protocol carries each command, tokens equal up to an order-preserving renaming |
| FrontEnds.SameAnswers | src/lib.rs:927-1524 | and at every command the scripts' replies say the same outcome, value, flags and number on both sides |
| FrontEnds.SimilarReflexive | src/ascii.rs:884-1814 | both clients may start from one store, so the two theorems above compare runs from a common start |
| FrontEnds.CanonLesson | src/lib.rs:185-425 | the outcome of a command is given by a definition that mentions no token values |
| Wire.BinaryServed | src/protocol.rs:285-326 | the frame of a command is parsed back, served by the binary session with the command's effect and output, and the session goes on behind it |
| Wire.ClassicSayable | src/ascii.rs:409-447 | a classic encoding is a command the parser accepts, on a line within the limit |
| Wire.ClassicServed | src/ascii.rs:486-600 | the line and block of a classic command likewise, from bytes to effect and output |
| Wire.MetaSayable | src/meta.rs:226-294 | a meta encoding is a command the parser accepts, on a line within the limit |
| Wire.MetaServed | src/ascii.rs:502-540 | the line and block of a meta command likewise |
| WireReplies.BinaryReply | src/lib.rs:927-1524 | the bytes answering a loud binary command read back as its script's reply: outcome, value, flags, number |
| WireReplies.ClassicReply | src/ascii.rs:884-1317 | the bytes answering a classic command likewise, failed sets, adds and replaces merged into NOT_STORED |
| WireReplies.MetaReply | src/ascii.rs:1336-1814 | the bytes answering a meta command likewise, a failed add being NS |
| WireSessions.ReplyTells | src/lib.rs:927-1524 | what a client reads, whatever follows, is the outcome that the state and the token deserve, as far as the protocol can tell |
| WireSessions.SameOnTheWire | src/ascii.rs:884-1814 | clients of similar stores sending one command over any two protocols read the same off their replies, up to what all protocols can tell |
| WireSessions.PipelinedLessons | src/lib.rs:745-808 | a client that pipelines loud commands on one connection reads off the whole output, to its last byte, the outcome of each in order |
| WireSessions.CarriedReady | src/lib.rs:185-425 | serving a command leaves the store ready for the rest: tokens, flags, sizes and counter in range |
| WireSessions.FreshReady | src/lib.rs:55 | a fresh store is ready for almost 4 GiB of commands |
| WireSessions.SendIsBytes | src/ascii.rs:486-610 | sending a command's bytes to a session and reading the token off the reply is what the front-end theorems call sending it |
| WireSessions.ThreeFrontEndsInBytes | src/ascii.rs:884-1814 | the front-end theorem from bytes to bytes: same store and order-isomorphic tokens, whichever protocol's bytes carry each command |
| ClientSessions.FlagsSurvive | src/lib.rs:927-1434 | in bytes: a value and 32-bit flags n stored over any protocol, with or without a token, and fetched over any protocol, with or without a touch, are read back as that value and n |
| Sessions.SkipBreaksExactly | src/lib.rs:697-703 | any number of leading line breaks is skipped, and only those |
| Sessions.DetectProtocol | src/lib.rs:675-717 | the protocol and the bytes handed on depend on the stream only, not on the reads, and reading stops at the first byte that is not a line break |
| ClientSessions.FirstByteDecides | src/lib.rs:697-716 | behind line breaks, the byte 0x80 makes a connection binary, bytes 32 to 126 text, any other byte foreign; line breaks alone decide nothing |
| ClientSessions.DetectionLaw | src/lib.rs:697-716 | behind line breaks and before anything, a binary encoding makes it binary and a classic or meta encoding text |
| Sessions.HandleConn | src/lib.rs:675-717 | a whole connection, detection included: a binary one is the loop over the rest of the stream, with its frames, bytes sent and bytes lost, and no guard on bodies within the limit; a calm text one is the one-pass session, items and output |
| ClientSessions.BinaryStream | src/lib.rs:721-824 | the frames of a client's commands are served to their end and stay within the guard |
| ClientSessions.TextStream | src/ascii.rs:486-610 | the lines and blocks of a client's commands make a calm stream |
| ClientSessions.ServeClient | src/lib.rs:675-824 | a client's line breaks and commands, however split into reads, are detected and served to the end; store and bytes sent are the session's, and if the commands are loud the bytes read back, to the last one, as the outcome of each in order |
| Connections.AlwaysSafe | src/lib.rs:609-647 | in every interleaving the counter equals the live handlers plus the spawn in progress, and a loaded value is never too low |
| Connections.ConnectionLimit | src/lib.rs:609-647 | the counter never exceeds 1024 and differs from the live handlers by at most one; at the loop head accepted sockets are total plus rejected |
| Connections.RejectedOnlyWhenFull | src/lib.rs:613-621 | a socket is turned away if and only if 1024 handlers were live at the load |

## Left out

- Sockets, timeouts, TLS, logging, module registration and FFI; read errors count as the end of the input, and writes always succeed.
- `eval_lua`, script hashes and the NOSCRIPT fallback: a script call is one atomic step. Redis errors, wrong-type replies, eviction, persistence and outside writers to the module's keys are assumed away.
- Interleaving inside a handler: a binary DELETE and `mg ... T` are methods that take their two steps without another connection in between; the whole-run theorems (`runs.dfy`) allow any steps between them.
- RedisScripts.Redis.LuaCounter: Lua's `tonumber` is modelled on digit strings only; signs, blanks, hexadecimal, fractions, exponents, infinities and digit strings beyond the double range, which it also accepts, are treated as non-numeric.
- Doubles.ToDouble: rounding has no upper limit, so overflow to infinity is not modelled.
- FrontEnds.Num: `mg T`, `ms T` and `ma N` above 32 bits are passed on as they are; Redis may refuse such a time.
- FrontEnds.ThreeFrontEnds: commands carry fields in the widths of the binary protocol, and tokens a client uses are ones it fetched; meta `C` tokens that are not canonical decimals are not among them.
- WireSessions.PipelinedLessons: commands are the ones all protocols share, and loud; over text a quiet miss cannot be told from a later reply without opaque tokens.
- TextConn.HandleAsciiConn: nothing is promised for streams with a line over 2048 bytes or that end inside a data block, where the code's behaviour depends on the reads.
- TextSession.HandleItem: the message for a line that does not parse is a parameter.
- The instant of expiry is whole seconds: an item is there while the clock is before its deadline.
- LUA_COUNT_ITEMS and SCAN cursors: only SCAN's promise is used, as a precondition of the flush.
- Statistics counters other than the connection counters, and the values STAT and `stats` report: parameters.
- Thread panics: a handler that ends always subtracts itself from the connection counter.
