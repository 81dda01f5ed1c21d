# Tarantool gateway: what it writes, and what that means

The nginx upstream module for Tarantool turns HTTP requests into MessagePack
frames and MessagePack replies into JSON text. This project models its four
cores and proves what they promise.

1. **JSON events to frames** (`src/tp_transcode.c`). A one-pass compiler driven
   by parser events: a stage machine, a stack of open containers, an output
   buffer with five-byte holes that are filled when a container closes, a length
   field and a sync field patched in place. `Machine` is one callback as a
   function on states; `Simulation`, `Calls` and `Batches` show that whole runs
   leave exactly what a plain recursive encoder writes; `Nested`, `Flattening` and
   `ScalarParams` say what values do where they are not expected;
   `Requests` reads the output back into the calls that went in; `Transcoder` is
   the code itself, a class that updates its stack and its buffer, proved to take
   these steps.
2. **MessagePack to JSON** (`src/tp_transcode.c`, `src/json_encoders.c`).
   `JsonText` is the string encoder, `Rendering` the text a value should have
   and its length, `Printing` what the recursive printer does to any bytes in a
   buffer of any size, with its shared state bits and its stale copy of the
   remaining length, and when that is the rendering; `Printer` is the code.
   `Unicode`, `JsonReader` and `PrintedJson` say when the text is JSON and what it
   denotes, `BatchText` what the response to a batch does.
3. **Replies from the network** (`src/ngx_http_tnt_module.c`). `Deframing` says
   which frames a byte stream holds however it is cut, and what the client is
   sent for them; `ReplyFilter` is the filter that reads chunk by chunk, sends
   each reply and counts the batch down.
4. **Queries to requests** (`src/ngx_http_tnt_module.c`). `UrlCoding` decodes,
   `QueryArgs` scans, `RequestMap`, `RequestWriter` and `RequestHandlers` are
   the request passed on as one map, `FormatInput`, `Dml`, `FormatPrepare`,
   `FormatBind`, `FormatNumbers` and `DmlRequests` are the insert, replace,
   delete, select, update and upsert locations.

`Bytes`, `MsgPack`, `TpBuffer` and `Json` hold what these share: memory as bytes,
the MessagePack encoders with one reader that undoes them all, the output buffer
`struct tp`, and JSON values with their events.

The last word on each core takes no constant from the model: `CallBytes` and
`ReplyBytes` on the transcoder, `RequestNames`, `DmlSettings` and `DmlValues` on queries, and
`Formats` on what these are stated in. Field names, codes, keys, signs and words of
the protocol stand there as bytes, so that a wrong constant, or an error made alike
in the code and in its specification, would leave them without proof.

Where the code does not do what it is meant to, the model follows the code, a
lemma says exactly when the intended result holds, and another one may show a
failing input:

- The error text of a batch that is too large says 16384 calls, but 16385 pass:
  the test is made before the counter grows (`Batches.Transcode`).
- The header of an empty tuple is written without a check. If this byte alone
  does not fit, the call is accepted, and its frame is no request
  (`Calls.CloseCall`, `Requests.TruncatedReads`).
- The names `params`, `id` and `method` are recognised at any depth. A value that
  should be passed over is passed over exactly if no such name takes effect in it
  (`Nested.RunIgnored`). `{"x":{"id":"s"}}` is harmless; `{"x":{"id":7}}` sends the
  id 7, and `{"x":{"id":null},"method":"f"}` swallows the method
  (`Flattening.HarmlessId`, `Flattening.NestedId`, `Flattening.SwallowedMethod`).
  Nested ids and methods act as if they stood in the call itself
  (`Flattening.TranscodeNested`); with params in a map the call is never accepted
  (`Flattening.ParamsInMapRefused`).
- Closing inside params a container opened before it stores a header where none
  was left free, and then past the end of the buffer if there is no room:
  `Machine.WhenUndefined` says exactly when a step leaves what C defines,
  `Machine.NestedParamsLeaveBuffer` shows an input.
- Params that are a map are refused, params that are a scalar are not: every field
  behind them is copied into the frame as it is (shown where these hold scalars),
  and the frame is never a call (`Calls.ParamsMapRefused`,
  `ScalarParams.ScalarAccepted`, `ScalarParams.ScalarIsNoCall`).
- A call is accepted whether or not it is complete. It is sent as a call exactly
  if its function is preset or named once and it has at most one params field
  (`Requests.FrameIsCall`). With two tuples and no function its frame is still
  well-formed (`Requests.TwoTuples`).
- Integer keys of a map are quoted until an inner map clears the shared bit, so
  `{"a":{},34:null}` can be printed, and bytes that are not UTF-8 are copied as
  they are (`PrintedJson.PrintedMeaning`, `PrintedJson.UnquotedKey`,
  `PrintedJson.RawByte`).
- If skipping outer arrays leaves nothing, the reply has no result value
  (`PrintedJson.SkippedMeaning`, `PrintedJson.EmptyResult`).
- A format value that receives an empty text and then another one is counted
  twice, and an update or upsert without any operation announces one; both are
  sent as frames that are no requests (`DmlRequests.DmlReads`, `Dml.CountsAgree`,
  `Dml.CountedTwice`, `DmlRequests.KeyWithoutOperation`).
- An integer value is cut to its first 15 characters: numbers are sent as they are
  exactly from -99999999999999 to 999999999999999 (`FormatNumbers.IntegerSent`,
  `FormatNumbers.SixteenDigits`).
- The query is decoded before it is split, so an escaped separator separates:
  pairs encoded one by one come back exactly if they hold none
  (`FormatInput.EncodedPairs`, `FormatInput.SplitByEscape`).
- Commas, brackets and braces are checked against a length that is out of date. A
  reply is printed as a whole exactly if the buffer has the room it needs
  (`Printing.ReplyPrints`); with less the printer fails, cuts a number or writes
  past the end (`Printing.StringFillsBuffer`).
- Arrays still to be skipped are skipped inside a map too: `{1:[]}` is printed as
  `{"1":}` (`Printing.SkippedInMap`).
- A batch of one call is answered without brackets (`ReplyFilter.ServeReplies`).
- `tp_insert`, `tp_replace`, `tp_update` and `tp_upsert` ask for room without the
  14 bytes before the body (`DmlRequests.HeadOverruns`,
  `DmlRequests.InsertOverruns`).
- `third_party/tp.h` gives the code of a call as 10, where the expected frames in
  the tests still show 6; the model has 10.
- If two special names of a location are equal, the later one in the order limit,
  offset, iterator, space, index is bound only by an occurrence after the one
  that bound the earlier (`FormatPrepare.BoundByNext`).

## Model

| member | source | states |
|---|---|---|
| `MsgPack.ReadUint` | third_party/tp.h:1457-1464 | what `tp_encode_uint` writes, in whichever of its five forms, reads back as that number and ends where it was said to |
| `MsgPack.ReadInt` | third_party/tp.h:1471-1478 | the same for negative numbers and `tp_encode_int`, down to the 64-bit minimum |
| `MsgPack.ReadStr` | third_party/tp.h:1484-1491 | the same for strings of any length below 2^32 |
| `MsgPack.ReadArrayHead` | third_party/tp.h:1539-1546 | an array header reads as its count, in all three forms |
| `MsgPack.ReadMapHead` | third_party/tp.h:1558-1565 | a map header reads as its count, in all three forms |
| `MsgPack.ReadWideHead` | src/tp_transcode.c:533-534 | the five bytes patched in by hand (0xdd or 0xdf and a big-endian count, or the 0xce of a length field) read as that header |
| `TpBuffer.TpStream.Advance` | third_party/tp.h:914-922 | `tp_add`: advances p and restates the length field at `size`; nothing else changes |
| `TpBuffer.TpStream.Encode` | third_party/tp.h:1457-1464 | every `tp_encode_*`: succeeds exactly when the bytes fit, then writes them, advances and restates the length; on failure nothing changes |
| `TpBuffer.TpStream.StartRequest` | third_party/tp.h:943-955 | the request functions: nothing when the bytes `tp_ensure` was asked for do not fit, otherwise one frame with code, sync 0 and body at p - provided the bytes written do not pass the end, which four of them do not check |
| `TpBuffer.TpStream.StartCall` | src/tp_ext.h:52-75 | `tp_call_wof`: the header, sync field and body map of a call |
| `TpBuffer.TpStream.SetRequestId` | third_party/tp.h:1432-1438 | `tp_reqid`: the sync field of the frame, and nothing else, holds the id |
| `TpBuffer.PatchReserved` | src/tp_transcode.c:480-534 | back-patching: reserve five bytes, append the children, store the header = append header and children in order; the length field agrees too |
| `TpBuffer.AppendToFrame` | third_party/tp.h:914-922 | appending to a frame is the frame of the longer body: its length field stays right at every step |
| `TpBuffer.ReqidOnFrame` | third_party/tp.h:1432-1438 | setting the id at any time gives the frame that had this id from the start |
| `Transcoder.YajlContext.StackPush` | src/tp_transcode.c:168-198 | below 240 items, where the 8-bit size of the stack wraps: pushes an item; the array grows by 16 and keeps its items |
| `Transcoder.YajlContext.StackPop` | src/tp_transcode.c:208-219 | takes the top item off, or reports an empty stack |
| `Transcoder.YajlContext.StackGrow` | src/tp_transcode.c:221-229 | counts one more entry in the top item if it is of that kind |
| `Transcoder.YajlContext.BindData` | src/tp_transcode.c:231-242 | the bound data is appended whole or reported as not fitting |
| `Transcoder.YajlContext.YajlNull` | src/tp_transcode.c:244-259 | refines the step of the machine: new state, or the error set |
| `Transcoder.YajlContext.YajlBoolean` | src/tp_transcode.c:261-276 | refines the step of the machine |
| `Transcoder.YajlContext.YajlInteger` | src/tp_transcode.c:278-313 | refines the step of the machine: parameter, id (truncated to 32 bits, refused above UINT32_MAX) or ignored |
| `Transcoder.YajlContext.YajlString` | src/tp_transcode.c:334-370 | refines the step of the machine: parameter, method name or ignored |
| `Transcoder.YajlContext.YajlMapKey` | src/tp_transcode.c:372-463 | refines the step of the machine: frame start and batch limit, map key inside params, field name outside |
| `Transcoder.YajlContext.YajlStartMap` | src/tp_transcode.c:465-487 | refines the step of the machine: push, and a five-byte hole inside params |
| `Transcoder.YajlContext.YajlEndMap` | src/tp_transcode.c:490-541 | refines the step of the machine: closing a call adds the missing tuple; inside params the hole is filled; params that are a map are refused |
| `Transcoder.YajlContext.YajlStartArray` | src/tp_transcode.c:544-594 | refines the step of the machine: batch bracket, or push, hole and bound data |
| `Transcoder.YajlContext.YajlEndArray` | src/tp_transcode.c:596-636 | refines the step of the machine: fills the hole with the count, one more when data is bound |
| `Transcoder.YajlContext.Parse` | src/tp_transcode.c:736-789 | all events of a document, up to the first refusing callback: the run of the machine, where the machine is defined |
| `Transcoder.YajlContext.Complete` | src/tp_transcode.c:791-802 | the message size is the number of bytes written |
| `Machine.RunKeepsBounds` | src/tp_transcode.c:244-636 | whatever events arrive in whatever order: p never passes the end of the buffer nor moves back, the length and sync fields stay inside what is written, and so do the five bytes of the hole of every container opened inside params |
| `Machine.WhenUndefined` | src/tp_transcode.c:168-636 | exactly when a step leaves what C defines: a 241st open container, a header stored past the end of the buffer, or bytes or an id for a frame that was never started |
| `Machine.NestedParamsLeaveBuffer` | src/tp_transcode.c:416-432 | the second case: `{"a":{"b":{"params":1}` in 17 bytes |
| `Machine.RunConcat` | src/tp_transcode.c:736-789 | running two event sequences one after the other is running their concatenation |
| `Simulation.RunValue` | src/tp_transcode.c:244-636 | the core simulation, for a buffer of any size: in params, the events of any value nested below the stack limit leave exactly its recursive array 32/map 32 encoding and one more entry counted in the innermost array, or report an overflow exactly when that encoding does not fit |
| `Simulation.RunItems` | src/tp_transcode.c:544-636 | the same for the elements of the array on top of the stack |
| `Simulation.RunMembers` | src/tp_transcode.c:407-414 | the same for the members of the map on top: keys are counted, values are not |
| `Simulation.RunContainer` | src/tp_transcode.c:465-541 | opening, filling and closing a container equals appending header and children, or reporting that they do not fit |
| `Json.ReadEnc` | src/tp_transcode.c:244-636 | that encoding reads back, at any offset, as the MessagePack value of the JSON value |
| `Nested.RunOutside` | src/tp_transcode.c:353-460 | outside params a value of any nesting runs exactly as the id and method fields found in it, wherever they are nested, and leaves the stage its last key and value leave; otherwise it only counts itself in the array it sits in |
| `Nested.FindsParams` | src/tp_transcode.c:416-460 | a value in which params is found writes something; as the value of a field, a map with params in it does not get past its brace |
| `Nested.RunIgnored` | src/tp_transcode.c:353-460 | before any id: a value is passed over, changing nothing but that count, if and only if nothing in it is taken for a field and the stage is back at waiting |
| `Nested.Unreserved` | src/tp_transcode.c:416-460 | values without reserved names are such values |
| `Flattening.FlatCall` | src/tp_transcode.c:353-541 | a call in which names of fields are nested, or have values of other types, runs in a buffer of any size as the flat call of the fields found |
| `Flattening.TranscodeNested` | src/tp_transcode.c:353-541 | the same for whole documents, so that all results about documents of calls apply |
| `Flattening.ParamsInMapRefused` | src/tp_transcode.c:526-531 | a call in which a field holds a map with params in it, at any depth, is never accepted, whatever fields stand around it |
| `Flattening.NestedId` | src/tp_transcode.c:433-439 | `{"x":{"id":7}}` sends the id 7 |
| `Flattening.SwallowedMethod` | src/tp_transcode.c:433-460 | `{"x":{"id":null},"method":"f"}` has no method |
| `Flattening.HarmlessId` | src/tp_transcode.c:365-367 | `{"x":{"id":"s"}}` is passed over |
| `Calls.RunParams` | src/tp_transcode.c:544-636 | the whole params array, bound data first: declared count = bound data + params; an overflow exactly when its tuple does not fit |
| `Calls.RunFields` | src/tp_transcode.c:416-460 | the fields of a call one after the other: their entries in their order and the last id; refused exactly for an id out of range or an entry that does not fit |
| `Calls.CloseCall` | src/tp_transcode.c:496-514 | the closing brace adds the tuple a call without params lacks: empty, or holding the bound data; the header of the empty tuple is left out when only that byte does not fit, any other overflow is reported |
| `Calls.RunCall` | src/tp_transcode.c:372-541 | one call object, in a buffer of any size: refused, or exactly its frame is appended and nothing is open, or that frame without its last unchecked byte |
| `Calls.ParamsMapRefused` | src/tp_transcode.c:528-531 | a call whose params are a map is refused, whatever fields come before or after it, in a buffer of any size; for that reason if there is room |
| `ScalarParams.ScalarAccepted` | src/tp_transcode.c:278-414 | a call with a scalar as params and scalars behind it is accepted if its frame fits: its body holds the entries before, the scalar as the tuple, and every key and value behind it |
| `ScalarParams.ScalarIsNoCall` | src/tp_transcode.c:391-541 | that frame never reads as a call of one function with one tuple |
| `Batches.Transcode` | src/tp_transcode.c:372-463 | for every document of calls and every buffer size: never undefined; accepted exactly if it has at most 16385 calls, every id is in range and the frames fit - or all fit but the one byte written unchecked; then the output is one frame per call in order, nothing behind it is touched, `batch_size` is the number of calls |
| `Batches.IgnoredField` | src/tp_transcode.c:416-460 | inserting a field of any other name with a harmless value, of any nesting, at any position leaves the run and its output unchanged; in a buffer too small for the frame both or neither are accepted |
| `Batches.InsertedBody` | src/tp_transcode.c:455-460 | the body of the frame does not depend on ignored fields |
| `Transcoder.TranscodeDocument` | src/tp_transcode.c:736-802 | the same as `Batches.Transcode`, for the code that updates stack and buffer in place |
| `Requests.ReadShift` | src/tp_transcode.c:231-242 | bytes copied elsewhere read as the same value (the bound data) |
| `Requests.FrameReads` | src/tp_transcode.c:372-541 | a frame is well-formed if and only if exactly two body entries were written, as the body map announces |
| `Requests.FrameIsCall` | src/tp_transcode.c:372-541 | a frame is a request with one function and one tuple if and only if the call names its function once (or it is preset) and has at most one params field; then it is that function, that tuple and that id |
| `Requests.BodyKeys` | src/tp_transcode.c:391-460 | how many functions and how many tuples a call writes |
| `Requests.TwoTuples` | src/tp_transcode.c:416-432 | `{"params":[],"params":[]}`: a well-formed frame with two tuples and no function |
| `Requests.TruncatedReads` | src/tp_transcode.c:505-510 | the frame accepted without the header of its empty tuple is no request |
| `Requests.CountEntries` | src/tp_transcode.c:416-541 | how many entries a call writes: method fields, plus one tuple for each params field or the one added at the end |
| `Requests.ReadTuple` | src/tp_transcode.c:497-510 | on all three paths (params, empty params, none) the tuple is an array of declared length 1 + params whose first element is the bound data |
| `Requests.RequestFromFrame` | third_party/tp.h:943-955 | a frame is a request exactly when its body is one map ending where the length field says |
| `Requests.Announced` | src/tp_ext.h:72-74 | a map announcing m entries ends where the entries written end exactly when m is their number |
| `Requests.StreamReads` | src/tp_transcode.c:372-541 | a stream of frames reads back as its requests, each length field equal to the bytes behind it |
| `Requests.OutputMeansCalls` | src/tp_transcode.c:736-802 | end to end, for every buffer size: what an accepted document leaves in the buffer reads back as its calls, in order, with their functions, tuples and ids, exactly when all frames fit |
| `Requests.EntriesPermute` | src/tp_transcode.c:416-460 | permuting the fields permutes the body entries |
| `Requests.FieldOrder` | src/tp_transcode.c:278-310 | a call with its fields in another order has the same id and the same multiset of body entries |
| `JsonText.AppendStr` | src/json_encoders.h:50-59 | copies the text if it fits the length allowed, and writes nothing otherwise |
| `JsonText.JsonEncodeString` | src/json_encoders.c:57-117 | succeeds if and only if the escaped text and its two quotes fit `buf_len`; writes that text, on failure a beginning of it, and nothing else |
| `JsonReader.ReadQuoted` | src/json_encoders.c:57-117 | the text is a JSON string (RFC 8259 section 7) that means the original bytes, in both solidus modes; its closing quote is the first unescaped one |
| `Unicode.Utf8Means` | src/json_encoders.c:79-107 | the condition on texts that follows: well-formed UTF-8 is exactly what a sequence of code points, none a surrogate, encodes to (RFC 3629) |
| `JsonReader.EscapeUtf8From` | src/json_encoders.c:79-107 | escaping neither makes nor breaks UTF-8 |
| `JsonReader.ReadQuotedText` | src/json_encoders.c:57-117 | the text is a string of UTF-8 JSON text exactly when the original bytes are UTF-8 |
| `JsonReader.ReadDecimalInt` | src/tp_transcode.c:923-944 | printed integers read back as themselves, whatever non-digit follows |
| `Rendering.KeyQuoting` | src/tp_transcode.c:998-1031 | the integer key at position i of a map is quoted exactly when no entry before it holds a map |
| `Rendering.TextBound` | src/tp_transcode.c:903-1031 | n bytes of MessagePack without floats and extensions render to at most 6n - 1 characters |
| `Printing.SkipPeels` | src/tp_transcode.c:973-979 | with skip count k and k non-empty arrays nested in first position around u, printing starts at u and the counter ends at 0 |
| `Printing.WholeData` | src/tp_transcode.c:973-979 | for any reply data and any skip count: behind the skipped heads there is a value or the end; only a map that holds an array, met with skips left, is not covered |
| `Printer.Tp2Json.Append` | src/tp_transcode.c:890-901 | the appending macros against the length read once: success exactly when the text fits that length |
| `Printer.Tp2Json.PrintText` | src/tp_transcode.c:923-944 | `snprintf` into the room left: a text as long as the room loses its last character to the zero byte |
| `Printer.Tp2Json.EncodeString` | src/tp_transcode.c:948-968 | strings and binaries: success exactly when the quoted text fits |
| `Printer.Tp2Json.TranscodeInternal` | src/tp_transcode.c:903-1059 | for every input, buffer and skip count for which C defines it: succeeds or fails as `PrintAt` says, and leaves its text, state bits, skip counter and input position |
| `Printer.Tp2Json.PrintArray` | src/tp_transcode.c:982-994 | the loop over the elements of an array, against the length copied before it |
| `Printer.Tp2Json.PrintKey` | src/tp_transcode.c:1011-1024 | a key with the key bit on, and its colon |
| `Printer.Tp2Json.PrintMap` | src/tp_transcode.c:998-1031 | the branch of a map, with the shared bits |
| `Printer.Tp2Json.TranscodeReply` | src/tp_transcode.c:1061-1118 | a reply without error, in a buffer of any size, as `ReplyAt` says; after a failure nothing counts as printed |
| `Printing.PrintsValue` | src/tp_transcode.c:903-1059 | bytes that hold a value, in a buffer of any size: exactly its rendering is printed, or the printer fails, cuts a number or leaves the buffer, as the value and the room alone decide, although `len` is stale after recursion; a map inside leaves the map bit cleared |
| `Printing.EnoughRoom` | src/tp_transcode.c:903-1059 | the whole text of a value is printed if and only if there is the room `Needs` computes from the value |
| `Printing.NeedsBound` | src/tp_transcode.c:903-1059 | that is at most 6n + 20 for n bytes of MessagePack |
| `Printing.ReplyPrints` | src/tp_transcode.c:1061-1118 | for every buffer size and skip count: the reply object around the rendering, or the bare rendering with `pure_result`, is printed if and only if the buffer has the room it needs |
| `Printing.ReplyBound` | src/tp_transcode.c:1091-1118 | 6n + 48 bytes are always enough for a reply of n bytes |
| `Printing.StringFillsBuffer` | src/tp_transcode.c:986-994 | an array whose string ends with the buffer: its bracket goes past the end |
| `Printing.SkippedInMap` | src/tp_transcode.c:973-979 | `{1:[]}` with an array left to skip is printed as `{"1":}` |
| `PrintedJson.PrintedMeaning` | src/tp_transcode.c:903-1059 | the text is valid UTF-8 JSON if and only if every string is UTF-8 and every key is a string or an integer with no map before it in its map, and then it denotes the value printed |
| `PrintedJson.EntriesOkAt` | src/tp_transcode.c:998-1031 | that condition, read off the positions of the entries |
| `PrintedJson.UnquotedKey` | test/cases/expected:1 | the promise of quoted keys fails: `{"a":{},34:null}` |
| `PrintedJson.RawByte` | src/tp_transcode.c:958-968 | a byte that is not UTF-8 is copied as it is |
| `PrintedJson.SkippedMeaning` | src/tp_transcode.c:1091-1111 | for every skip count the reply is JSON exactly when something is left behind the skipped arrays and it prints as JSON |
| `PrintedJson.EmptyResult` | src/tp_transcode.c:1091-1111 | with nothing left the reply is `{"id":N,"result":}`, which is no JSON |
| `PrintedJson.ReplyMeaning` | src/tp_transcode.c:1091-1111 | the whole reply is the object of id and result exactly when the printed data is JSON |
| `PrintedJson.JsonPrints` | src/tp_transcode.c:244-1059 | the MessagePack form of a JSON value prints as JSON exactly when its strings are UTF-8, and always denotes itself |
| `PrintedJson.ToMpInjective` | src/tp_transcode.c:244-636 | different JSON values have different MessagePack forms |
| `PrintedJson.TextRoundTrip` | src/tp_transcode.c:903-1059 | the printed text of a compiled JSON value with UTF-8 strings determines that value |
| `PrintedJson.CompileThenPrint` | src/tp_transcode.c:244-1059 | from parser events to text: running the callbacks over params succeeds exactly when they fit, leaves bytes that read as that array, and their text denotes it exactly when its strings are UTF-8 |
| `Deframing.DeframeConcat` | src/ngx_http_tnt_module.c:2463-2606 | split invariance: the frames of a stream are the frames of any beginning, then those of what was left over with the rest |
| `Deframing.BadStays` | src/ngx_http_tnt_module.c:2493-2497 | bytes that begin no frame are never outgrown |
| `Deframing.DeframeFrames` | src/tp_transcode.c:1339-1351 | a concatenation of `0xce`-length frames is cut into exactly those frames |
| `Deframing.BatchIsArray` | src/ngx_http_tnt_module.c:2428-2440 | N >= 2 replies come out as `[r1,...,rN]` and the counters end at 0 |
| `Deframing.LengthCountsDown` | src/ngx_http_tnt_module.c:2556-2577 | `u->length` is 0 exactly after the N-th reply, whatever the replies |
| `Deframing.SingleIsBare` | src/ngx_http_tnt_module.c:2365-2370 | without a batch the first reply goes out without brackets and ends the response |
| `BatchText.BatchMeaning` | src/ngx_http_tnt_module.c:2365-2440 | the response to a batch denotes the array of what the replies denote, exactly when each of them is JSON |
| `BatchText.BatchOfReplies` | src/ngx_http_tnt_module.c:2365-2440 | with the texts of the printer: the array of the reply objects, in order |
| `ReplyFilter.Filter.SendReply` | src/ngx_http_tnt_module.c:2345-2460 | the reply text with its bracket or comma, or an error and nothing sent |
| `ReplyFilter.Filter.ReadHeader` | src/ngx_http_tnt_module.c:2475-2526 | the header block: fewer than five bytes wait, five give the size and a buffer holding them, a bad size is an error |
| `ReplyFilter.Filter.ReadBody` | src/ngx_http_tnt_module.c:2530-2554 | the body block: as many bytes as the frame needs; cached bytes + rest = payload size |
| `ReplyFilter.Filter.FilterReply` | src/ngx_http_tnt_module.c:2463-2580 | one call: the first frame of pending bytes + input is delivered, or all input is kept, or it is an error; the bytes behind the frame stay in the input |
| `ReplyFilter.Filter.FilterBuffer` | src/ngx_http_tnt_module.c:2582-2606 | one read: every frame completed by these bytes is delivered in order, the rest is pending, every byte is consumed |
| `ReplyFilter.ReadResponse` | src/ngx_http_tnt_module.c:2582-2606 | for every cut of the stream into non-empty chunks the frames delivered are those of the stream |
| `ReplyFilter.ServeReplies` | src/ngx_http_tnt_module.c:2345-2606 | the replies of N calls, cut anyhow: `[r1,...,rN]` for N >= 2, the bare reply for one, `u->length` 0 at the end |
| `UrlCoding.Decode` | src/ngx_http_tnt_module.c:1601-1657 | the decoder in a buffer of the input's size: the output never gets ahead of the input, and is `UrlDecode` of it |
| `UrlCoding.DecodeInverts` | src/ngx_http_tnt_module.c:1601-1657 | decoding inverts every percent-encoding (RFC 3986 section 2.1), in either hexadecimal case, with space as `+` or `%20`, whatever other bytes are left as they are |
| `QueryArgs.GetNextArg` | src/ngx_http_tnt_module.c:2963-2983 | the end of an argument is the next `&`, its value starts behind the first `=` before that |
| `QueryArgs.LoopSeesPairs` | src/ngx_http_tnt_module.c:3045-3065 | scanning argument by argument is: split at every `&`, then split each piece at its first `=` |
| `QueryArgs.JoinSplit` | src/ngx_http_tnt_module.c:2963-2983 | splitting loses nothing: the pieces hold no `&` and joined give the text |
| `QueryArgs.ScanUndoesJoin` | src/ngx_http_tnt_module.c:2963-2983 | pairs written as `key=value` and joined with `&` are scanned back as those pairs |
| `QueryArgs.EncodeItem` | src/tp_ext.h:108-115 | key and value strings, or failure when they do not fit |
| `QueryArgs.EncodeStrMapItem` | src/ngx_http_tnt_module.c:2986-3022 | the same with the value decoded if the location asks for it |
| `QueryArgs.EncodeArgs` | src/ngx_http_tnt_module.c:3025-3116 | exactly the arguments with a non-empty value are written, in order, and counted |
| `RequestWriter.HoleFilled` | src/ngx_http_tnt_module.c:3190-3209 | a name, a hole, the children and the header stored in the hole = name, header, children in order |
| `RequestWriter.RootFilled` | src/ngx_http_tnt_module.c:3389-3401 | the root header also comes out right when the hole is the very place of the length field |
| `RequestWriter.CopyHeaders` | src/ngx_http_tnt_module.c:2664-2702 | all headers of all parts of the list are written in order and counted |
| `RequestWriter.CollectBody` | src/ngx_http_tnt_module.c:3260-3286 | the chunks are joined in a block of `content_length` + 1 bytes; a buffer in a file is refused |
| `RequestWriter.EncodeArgsPart` | src/ngx_http_tnt_module.c:3187-3210 | the `args` map: its count is the number of arguments behind it |
| `RequestWriter.EncodeHeadersPart` | src/ngx_http_tnt_module.c:3212-3240 | the `headers` map: its count is the number of request and, if asked for, response headers behind it |
| `RequestWriter.EncodeUrlencodedPart` | src/ngx_http_tnt_module.c:3242-3301 | the `args_urlencoded` array of one-entry maps: its count is the number of maps behind it |
| `RequestWriter.EncodeBodyPart` | src/ngx_http_tnt_module.c:3303-3341 | the `body` string: header and chunks, as long as announced |
| `RequestWriter.GetRequestData` | src/ngx_http_tnt_module.c:3119-3368 | for every combination of flags, behind a frame or at the start of a buffer: the map bytes, or failure exactly for a body in a file |
| `RequestWriter.GetRequestDataMap` | src/ngx_http_tnt_module.c:3371-3404 | the buffer holds exactly the map |
| `RequestMap.MapReads` | src/ngx_http_tnt_module.c:3119-3346 | for every combination of flags these bytes are one well-formed value: the map of the request, all four patched counts equal to what follows them |
| `RequestHandlers.QueryHandler` | src/ngx_http_tnt_module.c:3675-3744 | the buffer holds one frame: a call of the given function with the request map as its argument |
| `RequestHandlers.QueryReads` | src/ngx_http_tnt_module.c:3708-3736 | that frame reads as a call whose tuple is the one request map |
| `RequestHandlers.RequestRidesAlong` | src/ngx_http_tnt_module.c:3528-3577 | with the map passed on to the transcoder, every call of a batch has it as the first element of its tuple |
| `Dml.CountsAreBound` | src/ngx_http_tnt_module.c:1909-1956 | conservation: each counter is the number of bound entries of its role plus the number of empty values that were replaced |
| `Dml.CountsAgree` | src/ngx_http_tnt_module.c:1909-1956 | the counters are the numbers of bound entries if and only if no name gets an empty value before another pair that names it |
| `Dml.EmptyByPosition` | src/ngx_http_tnt_module.c:1929-1953 | with distinct names, by positions: the first pair of a name is empty and another pair of that name follows |
| `Dml.CountedTwice` | src/ngx_http_tnt_module.c:1929-1953 | `a=&a=x` for one value: two are counted, one is bound |
| `FormatInput.ReadInput` | src/ngx_http_tnt_module.c:1395-1445 | the body if there is one, otherwise the arguments, decoded as a whole; a body in a file is refused |
| `FormatInput.EncodedPairs` | src/ngx_http_tnt_module.c:1409-1445 | pairs that are percent-encoded one by one and joined are read back if and only if no key holds `&` or `=` and no value `&` |
| `FormatInput.SplitByEscape` | src/ngx_http_tnt_module.c:1409-1445 | an escaped `&` in a value makes two pairs of one |
| `FormatPrepare.FormatContext.constructor` | src/ngx_http_tnt_module.c:1677-1730 | defaults of the location, no value bound, counters 0 |
| `FormatPrepare.FormatContext.PrepareKv` | src/ngx_http_tnt_module.c:1909-1956 | the pair goes to the first open entry of its name, whose counter grows; otherwise nothing changes |
| `FormatPrepare.FormatContext.PrepareOne` | src/ngx_http_tnt_module.c:1785-1865 | a pair goes to the first special name still waiting for it, and otherwise to the values |
| `FormatPrepare.FormatContext.Prepare` | src/ngx_http_tnt_module.c:1733-1906 | the answer, the special values and the bindings, for every decoded query text |
| `FormatPrepare.TestAllowed` | src/ngx_http_tnt_module.c:1328-1348 | an id is allowed if there is no list or it is in the list |
| `FormatPrepare.BoundByNext` | src/ngx_http_tnt_module.c:1793-1854 | which pair binds which special name: the first fit for it once the names before it that are equal are bound |
| `FormatPrepare.DistinctNames` | src/ngx_http_tnt_module.c:1793-1854 | with distinct names that is the first well-formed occurrence |
| `FormatPrepare.Accepted` | src/ngx_http_tnt_module.c:1870-1886 | OK if and only if every configured name was bound, the limit is within the maximum, and space and index are allowed |
| `FormatPrepare.BoundOnce` | src/ngx_http_tnt_module.c:1793-1886 | if OK: each name holds the value of its first well-formed occurrence, and none before it was well-formed |
| `FormatBind.ReadNext` | src/ngx_http_tnt_module.c:1959-1975 | the position behind the next separator, if there is one |
| `FormatBind.BindOperation` | src/ngx_http_tnt_module.c:2002-2055 | operator, field number from 1 and value, or refusal; the head of the operation is written |
| `FormatBind.BindValue` | src/ngx_http_tnt_module.c:2151-2215 | a value by its format (an empty integer text is 0), or refusal of what is no boolean |
| `FormatNumbers.IntegerSent` | src/ngx_http_tnt_module.c:2169-2184 | for every decimal integer: the number its first 15 characters spell is sent, and it is the number itself if and only if it is above -10^14 and below 10^15 |
| `FormatNumbers.SixteenDigits` | src/ngx_http_tnt_module.c:2171-2180 | 1000000000000000 is sent as 100000000000000 |
| `FormatNumbers.AtoiDecimal` | src/ngx_http_tnt_module.c:1793-1854 | limits, offsets and ids are read in full, or refused from 2^63 on |
| `FormatBind.Bind` | src/ngx_http_tnt_module.c:2058-2228 | succeeds if and only if every bound value is acceptable and all of it fits; then the values stand in the order of the format, operations behind their header |
| `DmlRequests.EmittedReads` | src/ngx_http_tnt_module.c:2088-2216 | what is written reads as the plain values, then the operations behind their header |
| `DmlRequests.BodyReads` | src/ngx_http_tnt_module.c:3818-3870 | with right counters the body is the map of the expected entries, except that an update or upsert without any operation announces one entry too many and is no map |
| `DmlRequests.WrongBody` | src/ngx_http_tnt_module.c:3819-3849 | a request of one list whose counter is not the number of values is not well-formed |
| `DmlRequests.WrongOperations` | src/ngx_http_tnt_module.c:3852-3867 | an update or upsert of which any of the three counters is too large is not well-formed |
| `DmlRequests.KeyWithoutOperation` | src/ngx_http_tnt_module.c:3852-3859 | an update that binds its key and no operation is no request |
| `DmlRequests.HeadOverruns` | third_party/tp.h:1026-1042 | exactly when a request function stays inside the buffer: `tp_delete` and `tp_select` always, the other four unless the bytes asked for fit and the 14 before them do not |
| `DmlRequests.InsertOverruns` | third_party/tp.h:1026-1042 | an insert into a space below 128 passes the check and is overrun for 4 to 17 bytes of buffer |
| `DmlRequests.RolesCounted` | src/ngx_http_tnt_module.c:1937-1946 | each counter is for the list it heads: keys and tuple values of an update, tuple values and operations of an upsert |
| `DmlRequests.Issue` | src/ngx_http_tnt_module.c:3763-3900 | for the text that was read: rejected as `format_prepare` says; otherwise one frame if all values can be bound and fit, for every buffer the request function stays inside |
| `DmlRequests.DmlHandler` | src/ngx_http_tnt_module.c:3747-3909 | the same from the arguments or the body of the request on; a body in a file is an error |
| `DmlRequests.DmlReads` | src/ngx_http_tnt_module.c:3818-3870 | for all six requests: the frame reads as the request of the bound values if and only if no name got an empty value before another and, for an update or upsert, some operation is bound; otherwise it is no request |
| `DmlRequests.OperationNamed` | src/ngx_http_tnt_module.c:2088-2140 | with distinct names, some operation is bound if and only if a pair left over names one |
| `DmlRequests.DmlReadsByPosition` | src/ngx_http_tnt_module.c:3818-3870 | with distinct names, from the pairs alone: the frame is a request if and only if no name has an empty first pair and another one, and an update or upsert names an operation |
| `DmlRequests.NumbersSent` | third_party/tp.h:988-1020 | space, index, limit, offset and iterator arrive under their own keys |
| `DmlRequests.ListsSent` | third_party/tp.h:1188-1230 | the values arrive under the tuple or key, the operations under theirs |
| `DmlRequests.LimitSent` | src/ngx_http_tnt_module.c:1793-1811 | a limit taken from the query never exceeds the maximum in the request sent |
| `CallBytes.CallSent` | src/tp_transcode.c:372-541 | for every name, params and id, in all six orders of the three fields, with and without a preset function and bound data: the events of `{"method":…,"params":…,"id":…}` are accepted exactly if the id is at most 4294967295 and the frame fits, and then leave exactly one frame: its length, code 10 and that sync, the function under 0x22 and the bound data and params under 0x21 |
| `CallBytes.BareCallSent` | src/tp_transcode.c:496-514 | a call of a method alone gets a tuple of the bound data alone, and sync 0 |
| `CallBytes.Limits` | src/tp_transcode.c:301-390 | 16386 calls are refused; 16385 or fewer that fit are refused exactly if one of them has an id above 4294967295 |
| `ReplyBytes.ReplySays` | src/tp_transcode.c:1091-1118 | for every skip count, with and without `pure_result`: a reader finds the sync under "id" and the value of the data under "result" and nothing else, or that value alone, or no JSON exactly if no value is left or it does not print as JSON |
| `ReplyBytes.BatchSays` | src/ngx_http_tnt_module.c:2365-2439 | between the brackets a reader finds, in order, the object of each id and result |
| `ReplyBytes.PrintsBack` | src/tp_transcode.c:905-1059 | a JSON value compiled to MessagePack and printed is its compact JSON text again |
| `RequestNames.RequestSays` | src/ngx_http_tnt_module.c:3149-3341 | for all flags and requests: "proto", "method" and "uri" hold protocol, method and the uri the flag selects, decoded if asked; "args", "headers", "args_urlencoded" and "body" are there exactly under their flags, each with its pairs in order or its text |
| `RequestNames.QuerySays` | src/ngx_http_tnt_module.c:3708-3736 | the frame of the query handler is code 10, sync 0, the function under 0x22 and, under 0x21, this map as the only argument |
| `DmlSettings.SettingsSent` | src/ngx_http_tnt_module.c:1690-1906 | from the settings to the keys 0x10 to 0x14: space, index, limit, offset and iterator are the fixed setting if no name is configured, otherwise the number of a well-formed pair of that name, of the first one if no two names are equal; space and index are among those allowed |
| `DmlSettings.PairTaken` | src/ngx_http_tnt_module.c:1785-1865 | a pair is not left to the values if and only if it has a special name that no pair before it bound |
| `DmlValues.OneValueSent` | src/ngx_http_tnt_module.c:2148-2184 | t,r,u,e in either case letter by letter is sent as true, f,a,l,s,e as false, every other boolean text is refused; a string is sent as it is; an integer as itself if and only if it has at most 15 characters |
| `DmlValues.EmittedWhen` | src/ngx_http_tnt_module.c:2058-2228 | binding succeeds, room aside, if and only if every bound value is a boolean word where one is asked for and, in the place of an operation, one of the eight signs, a comma, a field number from 1, a comma and such a value |
| `DmlValues.ListsStand` | src/ngx_http_tnt_module.c:2058-2228 | in the order of the format: each plain value is what its text stands for, each operation holds its own sign, the field number minus 1 and what the rest stands for |
| `DmlValues.BoundForName` | src/ngx_http_tnt_module.c:1909-1956 | with distinct names, each name holds the first value that is not empty among the pairs left over for it |
| `DmlValues.DmlSays` | src/ngx_http_tnt_module.c:3747-3909 | the whole way for all six requests: the frame is a request if and only if no empty value was replaced and an update or upsert has an operation; then its code is 1, 2, 3, 4, 5 or 9, its numbers are those of `SettingsSent`, and the values stand under 0x20 or 0x21 and the operations under 0x21 or 0x28 |
| `Dml.ValueBound` | src/ngx_http_tnt_module.c:1929-1953 | with distinct names, what a value holds after any pairs: its first full text, otherwise the last empty one |
| `Formats.ReadsHeads` | third_party/tp.h:1457-1565 | the reader takes a head if and only if the MessagePack format has that head there: every code but floats and extensions, the three binary heads included |
| `Formats.ReadsBytes` | third_party/tp.h:1484-1500 | strings and binaries are the bytes behind their heads |
| `Formats.HighestFirst` | third_party/tp.h:914-922 | numbers are stored with their highest byte first |
| `Formats.EscapesAs` | src/json_encoders.c:76-104 | the escape of every byte; the solidus is escaped only if that is asked for |
| `Formats.DecimalTexts` | src/tp_transcode.c:923-944 | the highest digit of a number is printed first, behind its sign: 120, -7, 0 |
| `Formats.Utf8Texts` | src/json_encoders.c:68-111 | the text the printed bytes are read as: the UTF-8 forms of U+00E9, U+20AC and U+1F600 |
| `Formats.DecodesAs` | src/ngx_http_tnt_module.c:1601-1657 | `%` and two hexadecimal digits are that byte, `%` and two others all three, `+` a space, and any other, a `%` before fewer than two included, itself |
| `Formats.QueryTextScans` | src/ngx_http_tnt_module.c:2963-2983 | pairs written as key=value&key=value are scanned back if and only if no key holds = or & and no value & |
| `Printing.NumberNeedsTwenty` | src/tp_transcode.c:923-944 | a one-digit number is refused with 19 bytes of room and printed with 20 |

## Left out

Of the repository:

- Floats, doubles (`%f`, `%d`, `atof`) and MessagePack extensions, in the transcoder, in the printer and in format values: how many characters they print to is not bounded by the checks, and extensions print nothing.
- Error replies of Tarantool: the message is copied without escaping (`src/tp_transcode.c:1080-1085`), so they need not be JSON.
- `tp_reply`: the id and the range of the data are taken as given.
- The JSON parser: documents enter as its events. The check of the first bytes for `[]` and `{}` (`src/tp_transcode.c:753-762`) is before those.
- Retry and reinitialisation of an upstream, which clear the batch counters, and the greeting.
- nginx itself: configuration, pools, chains, headers of the response, logging, keep-alive; allocation always succeeds.
- Parsing of the lists of allowed ids and of iterator names: the lists are given, and the iterator reader is a parameter of `FormatPrepare.Conf`.
- `ngx_http_tnt_set_method`, `code_conv`, the dump tools: no logic that would add a property.

Of what is modelled:

- Transcoder.YajlContext.Parse: for event sequences the C code does not survive the machine says Undefined, and the callbacks are not claimed to do anything. `Machine.WhenUndefined` says which steps these are; documents of calls never get there.
- Transcoder.YajlContext.StackPush: below 240 items, as above.
- Batches.Transcode: claimed for call objects with at least one field whose `id` is an integer, `method` a string and `params` an array, and whose other fields are harmless; `Flattening.TranscodeNested` reduces to those all documents in which params occurs as a field with an array only. A map as params has its own lemma. Params nested in an array are not passed over (`Nested.RunIgnored`), but what they leave in the frame is not stated. A negative id is sent modulo 2^32. Which of several reasons a document is refused for is stated only where the frame fits.
- ScalarParams.ScalarAccepted: with room for the whole frame, and with scalars in the fields behind params; a map there is refused like a map as params, an array ends the copying.
- Requests.OutputMeansCalls: for buffers below 4 GiB, because counts and lengths are stored in 32 bits.
- Printer.Tp2Json.TranscodeInternal: nothing is claimed where it writes past the end of the buffer or reads what is no value; `Printing.PrintAt` says where that is.
- Printing.PrintsValue: values with no array to skip in them. What a map that holds an array is printed as while arrays are still to be skipped is given by `Printing.PrintAt` alone: the code then reads its entries out of step.
- JsonText.JsonEncodeString: the string argument is never NULL.
- ReplyFilter.Filter.FilterReply: needs at least one byte, as `ngx_http_tnt_filter` passes; `payload_size` is the unsigned value, an `ngx_int_t` in the code.
- QueryArgs.EncodeArgs: claimed with room for all arguments.
- RequestWriter.GetRequestData: claimed with room for the map, because `tp_add` checks none; the body chunks together are `content_length` bytes, and only the first part of a header list may be empty. The same holds for the methods it calls.
- FormatBind.Bind: an integer value that starts with a minus sign is negative, as `mp_encode_int` asserts. For an empty integer value the code looks at the byte behind it, which is taken not to be a minus sign. Flags of the format are initialised.
- DmlRequests.DmlHandler: the body chunks together are `content_length` bytes; buffers that a request function overruns are outside its contract; `DmlRequests.HeadOverruns` says which they are.
- DmlRequests.DmlReads: formats list plain values before operations, and there are fewer than 2^32 pairs, the counters being stored in 32 bits.
- UrlCoding.Decode: the decoder's buffer is a local array, and its content is returned as a value.
