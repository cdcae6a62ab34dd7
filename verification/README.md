# Models and proofs for the WebSocket server and its common libraries

This project models the parts of the repository that keep state or transform data in steps, in
the form the source has (classes with fields, loops over buffers, recursive comparison), and proves
what they promise, for every input, every run and every reachable state.

- `GridFile.dfy`: the GridFS file layer. A random-access file is kept as fixed-size chunks in a
  collection, with one chunk held back in memory. `FlatFile` says what the file is; `GridFs` has the
  operations, each specified by what it does to one flat byte string, and every run of writes, seeks
  and reads. A write of a whole chunk or more from a chunk boundary while bytes are pending relabels
  the stale bytes, a write behind a read that ended exactly at the end of a full pending chunk loses
  what was pending, a truncation to the start of the pending chunk or to nothing leaves it alive, and a
  read that goes on behind the pending chunk advances the position twice; each is stated with its exact
  condition.
- `BsonFormat.dfy`, `Bson.dfy`, `BsonIterator.dfy`: the byte format, the builder with its growing
  buffer, its stack of open sub-documents and its lengths written afterwards, the iterator, and the
  round trip through both.
- `Bcon.dfy`, `BconTree.dfy`: the compiler from flat token lists to builder calls. The machine with its
  two stacks refines a recursive translation; it reports success for more than the balanced lists, and
  for which is stated exactly. Every document and array, written as a client writes it, is compiled into
  exactly its calls.
- `JsonValue.dfy`, `JsonText.dfy`, `JsonScalars.dfy`, `JsonWriter.dfy`, `JsonReader.dfy`: value trees
  and their order, the tokenizer, strings and numbers, the two writers, and the reader with its
  recovery from errors. Both writers print the same tokens, one in exactly the lines its layout is made
  of, and the reader returns every tree printed. From members in any order and with names repeated it
  keeps the last value under each name. Numbers of twenty digits can slip through the reader's check against the largest integer, and
  a comma before a closing brace is taken behind a member with the empty name, and behind a comment any
  token stands for a comma; all conditions are exact.
- `Utf8.dfy`: the UTF-8 validator against the grammar of section 4 of RFC 3629, and the encoder.
- `WsFrame.dfy`, `Reactor.dfy`, `ReactorEffect.dfy`, `ReactorServer.dfy`: WebSocket frames in both
  directions, the state of the server with what holds at every event boundary, the exact effect of
  driving one connection on all of them, and the classes of the handler and of the event loop, each
  method tied to a step of that state. The kernel (events, accepted descriptors, bytes read and sent) is
  arbitrary.
- `BlockHash.dfy`, `Md5.dfy`, `Sha1.dfy`: MD5 and SHA-1 over a message that arrives in pieces, against
  the one-shot definitions of RFC 1321 and FIPS PUB 180-1, including the compression functions.
- `Bits.dfy`, `Bytes.dfy`, `Decimal.dfy`: the bits of a number, octets, fixed-width integers as bytes,
  decimal numerals.

What holds at every event boundary of the server (`ReactorState.Inv`): the listener is in the handler
map and never queued for closing; the broadcast set is exactly the connections whose handshake is done;
on every connection the bytes sent and those still buffered are the 101 response followed by whole
frames, at most 4 MiB buffered; unless it lost a frame at that cap, a client's text frames are the
process-wide sequence from its registration on; the registered mask waits for writability exactly if
the buffer is not empty; every queued descriptor still belongs to the connection it was queued for; no
connection has been closed twice; and every connection not queued has handled exactly the frames of
the bytes it received.

`dafny verify dfyconfig.toml` checks everything.

## Model

| member | source | states |
|---|---|---|
| GridFs.RunWriter | src/common/mongodb/gridfs.c:784-849 | over every run of writes, seeks and reads on a freshly opened file: every read returns the flat file, and after gridfile_writer_done the store holds exactly the flat file on which each write overwrote or extended at the position; the run stops before a call if and only if, by the chunk held back and the position of the flat view, that call is a whole-chunk write from a boundary with a chunk held back, a write while the chunk held back is not the one under the position, or a read or write from behind the end of the file |
| GridFs.StraysWithoutReads | src/common/mongodb/gridfs.c:784-849 | in a run without reads the only call before which it stops is a write of a whole chunk or more from a chunk boundary with a chunk held back |
| GridFs.WritesNeverStray | src/common/mongodb/gridfs.c:784-849 | a run that only writes never stops, and leaves the file as if everything had been written at once |
| GridFs.GridFile.Make | src/common/mongodb/gridfs.c:784-1041 | one call of a client does on the structure what it does on the flat view, held chunk and position included |
| GridFs.GridFile.WriteBuffer | src/common/mongodb/gridfs.c:784-849 | from every position inside the file, a write overwrites or extends the flat file there and advances by its length; with the position at the pending chunk or nothing pending, the structure holds that file afterwards if and only if the write does not overrun the pending chunk, or what the stale bytes are laid over agrees; with the pending chunk before the position, if and only if the store already had its bytes and they agree with the chunk under the position outside the write; and when bytes are pending afterwards |
| GridFs.StaleTailExample | src/common/mongodb/gridfs.c:813-843 | a concrete write of one chunk after some pending bytes, after which the stale bytes are relabelled and the file is not the intended one |
| GridFs.LostWriteExample | src/common/mongodb/gridfs.c:793-805 | two chunks of zeros; one byte written, a read exactly to the end of the first chunk, one more byte written: the first byte is lost |
| GridFs.StrayWrite | src/common/mongodb/gridfs.c:793-843 | a write while the pending chunk is taken for another one leaves the intended file exactly when what was mislaid was in the store and is what the other chunk holds outside the write |
| GridFs.GridFile.StrayOutcome | src/common/mongodb/gridfs.c:793-843 | the structure after such a write holds the intended file if and only if that condition holds |
| GridFs.ExactnessAtTail | src/common/mongodb/gridfs.c:813-843 | how the condition for an exact write is decided by the last, partial chunk of the write |
| GridFs.GridFile.constructor | src/common/mongodb/gridfs.c:529-574 | a fresh writer stands for the stored file, with position 0 and nothing pending |
| GridFs.GridFile.StoreBelowOverlay | src/common/mongodb/gridfs.c:723-747 | with bytes pending, the store alone is the file except for the slot of the pending chunk, which the pending bytes fill |
| GridFs.GridFile.FlushPending | src/common/mongodb/gridfs.c:723-747 | the store becomes the pending chunk laid over the store, the recorded length becomes the content length, the chunk number advances |
| GridFs.GridFile.LoadPending | src/common/mongodb/gridfs.c:749-782 | succeeds exactly when the chunk under the position is stored, and then holds its bytes; a failure changes nothing |
| GridFs.GridFile.MergeHead | src/common/mongodb/gridfs.c:793-809 | the part of a write away from a boundary goes into the pending chunk, up to the end of that chunk, and flushes it when full |
| GridFs.GridFile.WriteWholeChunks | src/common/mongodb/gridfs.c:813-829 | whole chunks go straight to the store; whatever is pending stays pending |
| GridFs.GridFile.MergeTail | src/common/mongodb/gridfs.c:833-843 | the last partial chunk of a write is merged into the chunk that is stored there, if any |
| GridFs.GridFile.MergeStale | src/common/mongodb/gridfs.c:833-843 | with bytes still pending after whole chunks, the rest of a write is laid over stale bytes: the result is the file if and only if the stale bytes beyond it agree with the file |
| GridFs.GridFile.WriteFromBoundary | src/common/mongodb/gridfs.c:813-843 | the part of a write from a boundary on, with the same exact condition |
| GridFs.GridFile.Seek | src/common/mongodb/gridfs.c:1027-1041 | from any position, behind the end included, it becomes the offset or the end of the file, the file is unchanged, and pending bytes of another chunk are flushed |
| GridFs.GridFile.WriterDone | src/common/mongodb/gridfs.c:468-494 | afterwards the stored chunks alone are the file, and the recorded length is its length |
| FlatFile.StoredFileIsJoinedChunks | src/common/mongodb/gridfs.c:468-494 | what a store that represents a file is: chunks numbered without a gap, all but the last of exactly 262144 bytes, joined in order the file |
| FlatFile.RepresentationIsUnique | src/common/mongodb/gridfs.c:468-494 | a store represents at most one file |
| FlatFile.OverwriteTwice | src/common/mongodb/gridfs.c:784-849 | two writes one behind the other are one write of both |
| FlatFile.PutSlot | src/common/mongodb/gridfs.c:723-747 | replacing one slot of the store by the slot a write leaves there completes the write |
| FlatFile.StaleSlot | src/common/mongodb/gridfs.c:833-843 | laying a stale chunk on a slot gives the file exactly when the stale bytes agree with it |
| GridFs.GridFile.RemoveChunks | src/common/mongodb/gridfs.c:1059-1075 | exactly the chunks from a number on are removed |
| GridFs.GridFile.Truncate | src/common/mongodb/gridfs.c:1077-1103 | leaves exactly the first n bytes; with bytes pending it fails to exactly when n is 0 or the boundary at which the pending chunk starts, where the pending bytes survive |
| GridFs.GridFile.Expand | src/common/mongodb/gridfs.c:1105-1131 | appends exactly k zero bytes and leaves the position at the end |
| GridFs.GridFile.SetSize | src/common/mongodb/gridfs.c:1133-1142 | the length becomes n, by truncating or by appending zeros, under the same condition |
| GridFs.GridFile.ReadFromPending | src/common/mongodb/gridfs.c:958-971 | the bytes of the file from the position on that are in the pending chunk, and the number of the chunk to go on with |
| GridFs.GridFile.FillFromChunk | src/common/mongodb/gridfs.c:996-1025 | the part of a chunk behind the bytes to skip, and how much is left to read |
| GridFs.GridFile.LoadFromChunks | src/common/mongodb/gridfs.c:976-994 | the wanted slice of the file from consecutive stored chunks |
| GridFs.GridFile.ReadBuffer | src/common/mongodb/gridfs.c:918-956 | from every position inside the file the bytes read are exactly the flat slice; the position advances by their number, and twice over the part in the pending chunk exactly when the read goes on behind that chunk |
| GridFs.StoreBuffer | src/common/mongodb/gridfs.c:294-307 | a buffer stored at once is stored exactly |
| GridFs.StoreFile | src/common/mongodb/gridfs.c:309-352 | a stream stored in blocks is stored exactly, however the reads split it |
| BsonRoundTrip.BuildAndWalk | src/common/mongodb/bson.c:332-400 | whatever tree of elements is built, walking the finished bytes with the iterator and recursing gives back the same types, names and values in order; below the size limits a tree is built if and only if its texts pass the UTF-8 check |
| BsonBuilder.Build | src/common/mongodb/bson.c:735-755 | the finished bytes are exactly the document of the tree, across any number of reallocations of the buffer and growths of the stack |
| BsonBuilder.EmitAll | src/common/mongodb/bson.c:803-1060 | appending elements one after the other adds exactly their bytes and leaves the open sub-documents as they were |
| BsonBuilder.Emit | src/common/mongodb/bson.c:803-1060 | one element of any kind adds exactly its head and its payload, or fails |
| BsonBuilder.EmitSub | src/common/mongodb/bson.c:1024-1069 | a sub-document emitted between start and finish is complete, with its length in place, at any depth |
| BsonBuilder.Bson.EnsureSpace | src/common/mongodb/bson.c:701-733 | afterwards the bytes fit and what has been written is kept; below the size limits it never fails, and a failure leaves the buffer alone and only the overflow mark in the error field |
| BsonBuilder.Bson.GrowStack | src/common/mongodb/bson.c:644-674 | there is room for one more offset, and those of the open sub-documents are kept |
| BsonBuilder.Bson.Append | src/common/mongodb/bson.c:681-684 | the bytes are put behind what has been written |
| BsonBuilder.Bson.AppendStart | src/common/mongodb/bson.c:777-797 | type and name in front of a value, if there is room and the name passes the check |
| BsonBuilder.Bson.AppendElement | src/common/mongodb/bson.c:777-829 | an element with a value of fixed bytes is appended as a whole or not at all |
| BsonBuilder.Bson.AppendFixed | src/common/mongodb/bson.c:803-853 | the values of fixed size: their type code and their bytes |
| BsonBuilder.Bson.AppendText | src/common/mongodb/bson.c:855-885 | strings, symbols and code: length with the terminating NUL, then the text, if it passes the UTF-8 check |
| BsonBuilder.Bson.AppendBinary | src/common/mongodb/bson.c:923-941 | byte 5, the name, the length, the subtype and the data; for the old subtype 2 the outer length is four more and the length stands again in front of the data |
| BsonBuilder.Bson.AppendScopedCode | src/common/mongodb/bson.c:899-918 | code with scope: its length, the code, and the scope, a finished document |
| BsonBuilder.Bson.AppendDocument | src/common/mongodb/bson.c:968-974 | a finished document becomes a sub-document |
| BsonBuilder.Bson.AppendRegex | src/common/mongodb/bson.c:956-966 | pattern and options, one behind the other |
| BsonBuilder.Bson.StartSub | src/common/mongodb/bson.c:1024-1038 | an object or array is opened: four bytes are left for its length and its start is pushed |
| BsonBuilder.Bson.FinishSub | src/common/mongodb/bson.c:1040-1060 | the innermost sub-document is closed and the length written into its place is the distance from its start; with none open it fails, and the error field is overwritten, earlier marks included |
| BsonBuilder.Bson.Finish | src/common/mongodb/bson.c:735-755 | the document is closed and its length written at the front; finishing twice changes nothing; text that failed the UTF-8 check makes it fail |
| BsonBuilder.MarkIsCleared | src/common/mongodb/bson.c:1040-1044 | a string that is not UTF-8, then a stray finish: the mark is gone and finishing the document succeeds |
| BsonReading.BsonIterator.Next | src/common/mongodb/bson.c:332-400 | the first call stays on the first element, each later one steps over exactly one element, the end is never left; the result is the type code through a signed char |
| BsonReading.ValueSize | src/common/mongodb/bson.c:343-397 | the size of a value by its type code is the size of its bytes |
| BsonReading.BsonIterator.constructor | src/common/mongodb/bson.c:314-317 | the iterator starts behind the length field |
| BsonReading.ReadElement | src/common/mongodb/bson.c:402-417 | name and value of the current element are those it was built from |
| BsonReading.Walk | src/common/mongodb/bson.c:598-610 | walking a document gives its elements in order and ends where its length field says |
| BsonReading.ScopedCodeAt | src/common/mongodb/bson.c:538-560 | where code and scope lie in the bytes of code with scope |
| BsonRoundTrip.CopyElement | src/common/mongodb/bson.c:976-987 | the element an iterator is on is appended as it is |
| BsonReading.Find | src/common/mongodb/bson.c:319-326 | stops on the first element with the name, or at the end with 0 |
| BsonReading.FirstNamed | src/common/mongodb/bson.c:319-326 | the position of the first element with a name |
| BsonReading.ElementAt | src/common/mongodb/bson.c:332-400 | where name, value and next element of an element lie in its bytes |
| BsonFormat.Int32RoundTrip | src/common/mongodb/bson.c:803-808 | a 32-bit integer is read back from its four bytes, negative ones included |
| BsonFormat.Int64RoundTrip | src/common/mongodb/bson.c:810-815 | a 64-bit integer is read back from its eight bytes |
| BsonFormat.Layout | src/common/mongodb/bson.c:803-1060 | every kind of element but binary data and scoped code in literal bytes: type byte, name, NUL, and the value as the BSON specification lays it out, documents and arrays by their length and elements |
| BsonFormat.LayoutOfBinary | src/common/mongodb/bson.c:923-941 | binary data in literal bytes, with one length for every subtype but 2 and with two for that |
| BsonFormat.LayoutOfScopedCode | src/common/mongodb/bson.c:899-918 | code with scope in literal bytes: type byte, name, total length, length of the code, code, scope |
| BsonFormat.HelloWorld | src/common/mongodb/bson.c:735-755 | the document of one string that the BSON specification prints, byte by byte |
| BsonFormat.ArrayInDocument | src/common/mongodb/bson.c:1024-1060 | a document holding an array of one integer, byte by byte: both lengths, both type bytes, and the index as a name |
| Bcon.MachineRefinesTranslation | src/common/mongodb/bcon.c:168-272 | the machine ends cleanly on exactly the balanced lists, and there makes exactly the builder calls of the recursive translation, reports success and leaves nothing open |
| Bcon.WhenSuccessIsRight | src/common/mongodb/bcon.c:168-272 | for every list on which the machine ends: it is balanced if and only if the machine did not stop between a key and its value, nothing is left open, and every list interpolated up to where it stopped is balanced; success is reported for an unbalanced list if and only if it did not stop so, the innermost open level is of the kind of the list, and a level is left open or such an interpolated list is not balanced |
| Bcon.WholeLevel | src/common/mongodb/bcon.c:168-272 | only balanced interpolated lists have been met if and only if all those up to the entry where the machine stopped are balanced |
| Bcon.SuccessWithoutBalance | src/common/mongodb/bcon.c:271-271 | a list with an unclosed brace for which success is reported |
| Bcon.SuccessWithoutTheRest | src/common/mongodb/bcon.c:225-229 | success is reported although an interpolated list ends behind a key, and the entries after it are dropped |
| Bcon.BalancedListScan | src/common/mongodb/bcon.c:168-272 | a balanced list makes the machine emit the translated calls |
| Bcon.ScanMembers | src/common/mongodb/bcon.c:185-224 | inside a document, a balanced stretch emits its translation and comes back to the same level |
| Bcon.ScanItems | src/common/mongodb/bcon.c:230-261 | inside an array, keys count 0, 1, 2 and go on correctly behind every nested array or document |
| Bcon.ScanBraced | src/common/mongodb/bcon.c:206-210 | a braced document between its start and finish calls |
| Bcon.ScanBracketed | src/common/mongodb/bcon.c:211-215 | a bracketed array between its start and finish calls, numbered from 0 |
| Bcon.CleanList | src/common/mongodb/bcon.c:168-272 | conversely, a clean end means the list is balanced |
| Bcon.AppendBcon | src/common/mongodb/bcon.c:168-272 | the loop with its two stacks makes the calls the scan says, returns its verdict, and leaves both stacks empty when every level is closed |
| BconTrees.CompileDocument | src/common/mongodb/bcon.c:168-272 | the list of any document, written with "{", "}", "[", "]", "." and type specifiers as a client writes them, is compiled with success into exactly the builder calls of the document, at any depth up to the size of the stacks |
| BconTrees.CompileArray | src/common/mongodb/bcon.c:168-272 | the same for the list of an array, with keys from 0 on |
| BconTrees.ReadFields | src/common/mongodb/bcon.c:185-224 | fields written one after the other are read as those fields, up to the closing brace or the end |
| BconTrees.ReadItems | src/common/mongodb/bcon.c:230-261 | elements written one after the other are read as those elements, up to the closing bracket or the end, with keys counted on |
| BconTrees.ReadValue | src/common/mongodb/bcon.c:200-261 | a value of any form (nested in braces or brackets, plain, behind a specifier, a list of its own, or a null pointer) is read as that value |
| BconTrees.ReadInner | src/common/mongodb/bcon.c:57-144 | a list interpolated behind a specifier is read as the document or array it was written for |
| Bcon.Step | src/common/mongodb/bcon.c:180-270 | one round of the loop: calls made, state and stacks, in each of the five states |
| Bcon.StepElement | src/common/mongodb/bcon.c:185-199 | the state that expects a key, a closing brace or the end |
| Bcon.StepDocSpecValue | src/common/mongodb/bcon.c:200-224 | the state that expects a value or a type specifier in a document |
| Bcon.StepArraySpecValue | src/common/mongodb/bcon.c:230-261 | the state that expects an element, a closing bracket or the end |
| Bcon.StepItem | src/common/mongodb/bcon.c:230-259 | an element, typed or not, or the opening of a document or an array as one |
| Bcon.StepTypedValue | src/common/mongodb/bcon.c:225-229 | the two states that take any token as the announced value |
| Bcon.KeyValue | src/common/mongodb/bcon.c:57-144 | the calls for one value; an interpolated document or array is compiled on its own between start and finish |
| Bcon.Stacks.PushDoc | src/common/mongodb/bcon.c:154-154 | opening a document pushes the state to come back to |
| Bcon.Stacks.PushArray | src/common/mongodb/bcon.c:160-160 | opening an array pushes the index as well and starts again at 0 |
| Bcon.Stacks.PopDoc | src/common/mongodb/bcon.c:158-158 | closing a document comes back to the state of the level around it |
| Bcon.Stacks.PopArray | src/common/mongodb/bcon.c:161-161 | closing an array comes back to the index of the array around it |
| Bcon.Stacks.NextKey | src/common/mongodb/bcon.c:163-163 | the key of an element is its index in decimal |
| Bcon.Stacks.BothEmpty | src/common/mongodb/bcon.c:173-177 | with one level left both stacks are empty |
| JsonText.ReadToken | src/common/json/json_reader.cpp:245-317 | kind and extent of the token at a position, for every document |
| JsonText.TokenShift | src/common/json/json_reader.cpp:245-317 | a token does not depend on what is before it |
| JsonText.TokenPrefix | src/common/json/json_reader.cpp:245-317 | a complete token stays what it is when more text follows, a number only if no number character follows |
| JsonText.LexAppend | src/common/json/json_reader.cpp:245-317 | the tokens of two texts one after the other are those of the first and then those of the second |
| JsonText.WhiteSpace | src/common/json/json_reader.cpp:321-331 | spaces, tabs, line feeds and carriage returns in front of a text do not change its tokens (section 2 of RFC 8259) |
| JsonText.NumberToken | src/common/json/json_reader.cpp:423-433 | a digit or minus sign and any run of the characters of numbers behind it is one number token (section 6 of RFC 8259) |
| JsonText.CStyleComment | src/common/json/json_reader.cpp:398-408 | a comment ends at the first asterisk that a slash follows |
| JsonText.CppStyleComment | src/common/json/json_reader.cpp:411-420 | a comment of two slashes ends with the line, at a carriage return or a line feed |
| JsonStrings.ValueToQuotedString | src/common/json/json_writer.cpp:120-181 | the escaped string, with the shortcut for strings without special characters |
| JsonStrings.NothingToEscape | src/common/json/json_writer.cpp:123-124 | without special characters escaping changes nothing |
| JsonStrings.EscapeShape | src/common/json/json_writer.cpp:134-177 | the three shapes of an escape |
| JsonStrings.DecodeQuoted | src/common/json/json_reader.cpp:644-688 | decodeString undoes valueToQuotedString for every string without NUL (section 7 of RFC 8259) |
| JsonStrings.QuotedIsJson | src/common/json/json_writer.cpp:120-181 | what is written for a string without NUL follows the grammar of section 7 of RFC 8259 |
| JsonStrings.ShortEscapes | src/common/json/json_reader.cpp:657-683 | the two-character escapes of section 7 of RFC 8259 by the codes of their characters, as written and as read |
| JsonStrings.DecodeUnicodeEscape | src/common/json/json_reader.cpp:690-743 | every code point written as one escape, or above FFFF as the escapes of its UTF-16 surrogate pair, in either case, is decoded to its UTF-8 encoding |
| JsonStrings.LexQuoted | src/common/json/json_reader.cpp:435-448 | a quoted string is one token: the tokenizer finds the right closing quote |
| JsonStrings.CodePointAt | src/common/json/json_reader.cpp:690-718 | an escaped code point, a surrogate pair included, is at most 10FFFF |
| JsonNumbers.UintToString | src/common/json/json_tool.h:78-89 | the digits written backwards are the decimal numeral and fit the buffer for every 64-bit number |
| JsonNumbers.ValueToString | src/common/json/json_writer.cpp:35-56 | the text of every signed 64-bit integer, the smallest included |
| JsonNumbers.DecodeDigits | src/common/json/json_reader.cpp:568-602 | the digit loop gives the outcome that depends on the value of the number alone |
| JsonNumbers.DecodeNumber | src/common/json/json_reader.cpp:553-603 | a number token is a double by its characters, or else classified by its value |
| JsonNumbers.WhenNumbersAreRight | src/common/json/json_reader.cpp:572-595 | every integer in range comes out exactly; beyond the range it goes to sscanf, and it comes out wrong if and only if it slips through the check against the largest integer |
| JsonNumbers.WrongNumber | src/common/json/json_reader.cpp:584-594 | the number 99999999999999999993 comes out as 7766279631452241913 |
| JsonNumbers.DecodeIntText | src/common/json/json_reader.cpp:553-603 | every integer from -2^63 to 2^64 - 1 that the writers print is read back, as a signed one up to 2^31 - 1 |
| JsonNumbers.LexInt | src/common/json/json_reader.cpp:423-433 | an integer is one token |
| JsonValue.StrictTotalOrder | src/common/json/json_value.cpp:537-641 | operator< is irreflexive and transitive, exactly one of <, == and > holds, and < respects ==, through any nesting; a string without characters comes before every other |
| JsonValue.OperatorsAreCmp | src/common/json/json_value.cpp:537-641 | operator< and operator== are one three-way comparison: by type, then by value, containers by size and then lexicographically |
| JsonValue.CmpSwaps | src/common/json/json_value.cpp:593-597 | the comparison is antisymmetric |
| JsonValue.CmpChains | src/common/json/json_value.cpp:537-579 | the comparison is transitive |
| JsonValue.StrcmpChains | src/common/json/json_value.cpp:185-198 | strcmp orders C strings transitively, stopping at the first NUL |
| JsonValue.StrcmpMeans | src/common/json/json_value.cpp:185-198 | the sign of strcmp is that of the first difference, where the end of a string counts as NUL |
| JsonValue.OrderByKind | src/common/json/json_value.cpp:537-579 | the order in detail: null below signed below unsigned below real below string below boolean below array below object; numbers by value, strings by characters, containers by size first |
| JsonValue.CompareIsCmp | src/common/json/json_value.cpp:526-534 | compare tells <, == and > apart |
| JsonTokens.EqualMeansSame | src/common/json/json_value.cpp:599-641 | on printable trees operator== is identity |
| JsonWriters.FastWriter.Write | src/common/json/json_writer.cpp:206-213 | the text of a tree on one line |
| JsonWriters.FastWriter.WriteValue | src/common/json/json_writer.cpp:216-272 | appends exactly the text of the value |
| JsonWriters.FastWriter.WriteItems | src/common/json/json_writer.cpp:239-251 | the items between brackets, with commas between them |
| JsonWriters.FastWriter.WriteMembers | src/common/json/json_writer.cpp:252-270 | names and values between braces |
| JsonWriters.FastTextSpells | src/common/json/json_writer.cpp:216-272 | the text of FastWriter tokenizes to the tokens of the tree |
| JsonWriters.StyledWriter.Write | src/common/json/json_writer.cpp:285-296 | the exact text: members, and elements of an array that takes several lines, each on a line of its own indented by three more spaces, closing braces and brackets on a line of their own; and its tokens are those of the tree |
| JsonWriters.StyledTextSpells | src/common/json/json_writer.cpp:299-488 | the laid-out text of a tree tokenizes to the tokens of the tree, at any indentation |
| JsonWriters.StyledWriter.WriteMember | src/common/json/json_writer.cpp:333-340 | a member on a new line: the quoted name, a colon between spaces, and the value |
| JsonWriters.StyledWriter.WriteElement | src/common/json/json_writer.cpp:377-386 | an element on a new line, from its collected text or written there |
| JsonWriters.StyledWriter.WriteValue | src/common/json/json_writer.cpp:299-357 | in either mode: a child text is collected, or exactly the laid-out text of the value is appended; indentation and mode are as before |
| JsonWriters.StyledWriter.WriteArrayValue | src/common/json/json_writer.cpp:360-410 | the laid-out text of the array, whichever branch is taken |
| JsonWriters.StyledWriter.WriteLines | src/common/json/json_writer.cpp:369-396 | every element on its own indented line, from the collected texts if there are any |
| JsonWriters.StyledWriter.WriteLine | src/common/json/json_writer.cpp:397-408 | all elements on one line, with a comma and a space between them |
| JsonWriters.StyledWriter.IsMultilineArray | src/common/json/json_writer.cpp:413-441 | the layout is decided by the number of elements, a non-empty container among them, or the length of the line; on the single-line path there is exactly one collected text for every element |
| JsonWriters.StyledWriter.CollectChildren | src/common/json/json_writer.cpp:428-438 | the collected texts are those of the elements in order, and the length is measured over all of them |
| JsonWriters.StyledWriter.WriteObjectValue | src/common/json/json_writer.cpp:325-355 | every member on its own indented line, with commas between them, and the closing brace indented like the line of the opening one |
| JsonWriters.StyledWriter.WriteIndent | src/common/json/json_writer.cpp:454-466 | a line feed and the indentation behind anything that is not already indented |
| JsonWriters.StyledWriter.PushValue | src/common/json/json_writer.cpp:444-451 | a value goes to the collected texts or to the document |
| JsonWriters.StyledWriter.WriteWithIndent | src/common/json/json_writer.cpp:469-474 | the text on a new indented line, or right here if the line is already indented |
| JsonWriters.LayoutDoesNotMatter | src/common/json/json_writer.cpp:299-488 | run on the same tree, both writers print the same sequence of tokens |
| JsonRoundTrip.PrintAndParse | src/common/json/json_reader.cpp:122-163 | printing any printable tree with either writer and parsing the text succeeds and returns the tree, up to the tag of its integers; a tree that has been read comes back identical |
| JsonGrammar.PrintThenParse | src/common/json/json_reader.cpp:122-163 | for every text that spells the tokens of a tree parsing succeeds if and only if the configuration lets the root through, and gives that tree |
| JsonGrammar.ParseObject | src/common/json/json_reader.cpp:451-507 | for the text of an object with names in any order, repetitions included: under each name is the last value given for it, there are no other names, and the members are ascending |
| JsonGrammar.AllPutHolds | src/common/json/json_value.cpp:1133-1152 | the object made of any members: ascending, under each name the value of the last member with that name, and no other names |
| JsonGrammar.PutHolds | src/common/json/json_value.cpp:1133-1152 | storing a value under a name: under that name is the new value alone, under every other name exactly what was there |
| JsonGrammar.PutAscends | src/common/json/json_value.cpp:1133-1152 | and the members stay ascending |
| JsonGrammar.SortedIsKept | src/common/json/json_reader.cpp:451-507 | a tree whose members are sorted is read as itself, up to the tag of its integers |
| JsonGrammar.NormIsAsRead | src/common/json/json_reader.cpp:166-214 | whatever is read has sorted members at every depth and integers tagged by size |
| JsonGrammar.AsReadIsStable | src/common/json/json_reader.cpp:166-214 | and a tree of that form is read as itself |
| JsonGrammar.LeadingComment | src/common/json/json_reader.cpp:166-178 | a comment in front of the root is skipped if comments are allowed, and an error if not |
| JsonGrammar.ParseTokens | src/common/json/json_reader.cpp:166-214 | where the tokens spell a tree, with members in any order and names repeated, the value read is that tree with every member put under its name, and reading stops right behind it |
| JsonGrammar.ParseItemsTokens | src/common/json/json_reader.cpp:510-550 | the same for the items of an array from any position on |
| JsonGrammar.ParseMembersTokens | src/common/json/json_reader.cpp:451-507 | the same for the members of an object |
| JsonGrammar.NormTwice | src/common/json/json_reader.cpp:596-601 | what the reader makes of a tree it has made before is that tree |
| JsonGrammar.PutLast | src/common/json/json_value.cpp:185-191 | members that come in ascending order are stored in that order |
| JsonReading.Reader.Parse | src/common/json/json_reader.cpp:122-163 | on every document, well-formed or not: it ends, the reader stays inside the document, the stack is back to the root, success if and only if the grammar accepts, with its value, and if and only if no error was recorded |
| JsonReading.Reader.ReadValue | src/common/json/json_reader.cpp:166-214 | the value the grammar gives on top of the stack, or new errors; the stack below is untouched |
| JsonReading.Reader.ReadArray | src/common/json/json_reader.cpp:510-550 | the same for an array |
| JsonReading.Reader.ReadItems | src/common/json/json_reader.cpp:521-549 | the loop over elements |
| JsonReading.Reader.ReadElement | src/common/json/json_reader.cpp:524-529 | an element is read on a stack one higher and stored in its array |
| JsonReading.Reader.ReadObject | src/common/json/json_reader.cpp:451-507 | the same for an object |
| JsonReading.Reader.ReadHeading | src/common/json/json_reader.cpp:457-479 | a closing brace, or a name and a colon, as the grammar says, with an error otherwise |
| JsonReading.Reader.ReadMembers | src/common/json/json_reader.cpp:457-503 | the loop over members, with its recovery from errors |
| JsonReading.Reader.ReadMember | src/common/json/json_reader.cpp:480-485 | a member is read on a stack one higher and stored under its name, as `JsonGrammar.PutHolds` says |
| JsonReading.Reader.ReadToken | src/common/json/json_reader.cpp:245-317 | reads the token the specification gives and stops behind it |
| JsonReading.Reader.ReadSignificant | src/common/json/json_reader.cpp:217-232 | skips comments |
| JsonReading.Reader.ReadString | src/common/json/json_reader.cpp:435-448 | stops behind the closing quote, or at the end |
| JsonReading.Reader.ReadComment | src/common/json/json_reader.cpp:349-374 | stops behind either kind of comment |
| JsonReading.Reader.Match | src/common/json/json_reader.cpp:334-346 | advances exactly when the word is there |
| JsonReading.Reader.RecoverFromError | src/common/json/json_reader.cpp:760-774 | ends on every document, behind the first token of the wanted kind or at the end of the document |
| JsonGrammar.TrailingComma | src/common/json/json_reader.cpp:457-503 | a text whose tokens are an object with a comma behind its last member is accepted, with all members, if and only if the name of that member is empty |
| JsonGrammar.TrailingCommaAccepted | src/common/json/json_reader.cpp:457-503 | a document with such a comma that is accepted |
| JsonGrammar.CommentHidesComma | src/common/json/json_reader.cpp:487-502 | between two members a comma is needed, unless a comment stands there: then any token but a closing brace is taken for it |
| JsonReading.Reader.DecodeNumber | src/common/json/json_reader.cpp:553-630 | stores the number the token stands for, or records an error |
| JsonReading.Reader.DecodeString | src/common/json/json_reader.cpp:644-688 | the string the token stands for, or an error |
| JsonReading.Reader.DecodeEscape | src/common/json/json_reader.cpp:657-683 | what stands behind a backslash, or an error |
| JsonReading.Reader.DecodeCodePoint | src/common/json/json_reader.cpp:690-718 | the code point of an escape, with its second half if it needs one, or an error |
| JsonReading.Reader.DecodeHex4 | src/common/json/json_reader.cpp:720-743 | four hexadecimal digits, or an error |
| JsonReading.CodePointToUtf8 | src/common/json/json_tool.h:18-53 | the UTF-8 encoding of a code point, and nothing for a number above 10FFFF |
| Utf8.ValidatorAgainstRfc | src/common/mongodb/encoding.c:122-154 | a byte string is text of section 4 of RFC 3629 if and only if the loop accepts it and it has neither ED followed by A0 to BF nor F4 followed by a byte below 80 |
| Utf8.LooserThanRfc | src/common/mongodb/encoding.c:70-102 | two byte strings the validator accepts and the standard does not |
| Utf8.ValidateString | src/common/mongodb/encoding.c:122-154 | accepts exactly the strings of acceptable sequences; as a field name it also records a dot and a leading dollar sign |
| Utf8.DollarNames | src/common/mongodb/encoding.c:105-120 | of the names with a dollar sign in front, "$id", "$db" and those that begin with "$ref" are let through |
| Utf8.IsLegalUtf8 | src/common/mongodb/encoding.c:70-102 | the checks on one sequence, walking backwards |
| Utf8.EncodedTextIsAccepted | src/common/json/json_tool.h:18-53 | the validator accepts every concatenation of encoded code points, and it is text of the standard if and only if no surrogate is among them |
| Utf8.EncodeOne | src/common/json/json_tool.h:18-53 | one encoded code point is one acceptable sequence |
| Utf8.DecodeUndoesEncode | src/common/json/json_tool.h:18-53 | the first code point can be read off its encoding |
| Utf8.EncodingIsPrefixFree | src/common/json/json_tool.h:18-53 | no encoding is the beginning of another |
| Utf8.EncodingIsInjective | src/common/json/json_tool.h:18-53 | the code points of a concatenation are unique |
| WsFrame.Request.TryConsumeFrame | src/websocket_master/websocket_request.cpp:16-81 | the verdict of the specification; a complete frame fills the fields and leaves the buffer, anything else leaves the buffer alone |
| WsFrame.ParseWire | src/websocket_master/websocket_request.cpp:16-81 | the parser reads back every frame, in any length form that fits, masked or not, whatever follows it (sections 5.2 and 5.3 of RFC 6455) |
| WsFrame.ParsedIsWire | src/websocket_master/websocket_request.cpp:16-81 | and nothing else: the bytes consumed are the wire form of the frame reported |
| WsFrame.ParseIsStable | src/websocket_master/websocket_request.cpp:16-81 | more bytes never change an OK or an ERROR, nor what an OK consumes |
| WsFrame.SplitOfJoin | src/websocket_master/websocket_request.cpp:16-81 | any sequence of frames is read back from its concatenation |
| WsFrame.SplitIsExact | src/websocket_master/websocket_request.cpp:16-81 | the frames found in a buffer are exactly what was consumed |
| WsFrame.StreamsAreUnique | src/websocket_master/websocket_request.cpp:16-81 | different sequences of frames are different streams |
| WsFrame.SplitInPieces | src/websocket_master/websocket_request.cpp:16-81 | the frames of a stream do not depend on where it is cut |
| WsFrame.MaskTwice | src/websocket_master/websocket_request.cpp:70-73 | unmasking is masking again |
| WsFrame.XorIsBitwise | src/websocket_master/websocket_request.cpp:70-73 | a bit of the exclusive or of two bytes is set exactly where they differ |
| WsFrame.ExamplesOfTheRfc | src/websocket_master/websocket_request.cpp:16-81 | the examples of section 5.7 of RFC 6455, byte by byte: plain and masked "Hello", ping and masked pong, and messages of 256 bytes and 64 KiB |
| WsFrame.Request.LongLength | src/websocket_master/websocket_request.cpp:42-44 | the 64-bit length, byte by byte |
| WsFrame.Request.Unmask | src/websocket_master/websocket_request.cpp:70-73 | bit by bit: a bit of a payload byte is set exactly where the received byte and its key byte differ |
| WsFrame.PackData | src/websocket_master/websocket_respond.cpp:16-59 | for every message and any flags the bytes are header, shortest length that fits, and message; for a final unmasked frame within the limit they are its wire form |
| WsFrame.PackedIsRead | src/websocket_master/websocket_request.cpp:16-81 | what the parser makes of packed bytes: the frame itself if it is unmasked, an error if the message is over 1 MiB, and an incomplete frame if the mask bit is set, because there is no key |
| WsFrame.WriteLength | src/websocket_master/websocket_respond.cpp:50-52 | eight bytes, most significant first |
| Reactor.Network.EpollLoop | src/websocket_master/network_interface.cpp:204-288 | the conditions below hold after any number of rounds, whatever the kernel does |
| Reactor.Network.constructor | src/websocket_master/network_interface.cpp:82-126 | they hold at the start |
| Reactor.Network.Round | src/websocket_master/network_interface.cpp:220-287 | one round keeps them and leaves nothing queued; in the state after its events nobody has been deleted yet, and then exactly the connections queued are closed, each once |
| Reactor.Network.HandleEvent | src/websocket_master/network_interface.cpp:221-285 | one event keeps them, closes nothing, and has exactly its effect: accepted, queued, driven or sent |
| ReactorState.PeerReadsTheSharedSequence | src/websocket_master/websocket_handler.cpp:120-142 | behind the 101 response a peer reads exactly the frames queued for it; its text frames are the process-wide sequence from its registration on unless one was dropped at the cap |
| ReactorState.SameOrder | src/websocket_master/network_interface.cpp:162-183 | two such clients see the same text frames in the same order from the later registration on |
| ReactorState.PushTextKeepsStep | src/websocket_master/websocket_handler.cpp:46-57 | queueing a text frame as it is handled keeps a client in step with the process-wide sequence |
| ReactorState.TextKeepsCore | src/websocket_master/websocket_handler.cpp:127-142 | echo and broadcast together keep every client in step |
| ReactorState.ConsumeInPieces | src/websocket_master/websocket_handler.cpp:81-118 | the frames handled depend on the bytes received and not on how they were cut |
| ReactorState.SameBytesSameFrames | src/websocket_master/websocket_handler.cpp:81-118 | two connections that received the same bytes have handled the same frames |
| ReactorState.FindIsStable | src/websocket_master/websocket_handler.cpp:87-91 | the end of the headers, once found, stays where it is when more bytes come |
| ReactorState.FindIsHeadersEnd | src/websocket_master/websocket_handler.cpp:87-91 | the search finds the first CR LF CR LF, and nothing if there is none |
| ReactorState.AcceptsFirstLine | src/websocket_master/websocket_handler.cpp:184-196 | headers are accepted for their first line, which must end in CR LF |
| ReactorState.VerdictInBytes | src/websocket_master/websocket_handler.cpp:82-98 | when a handshake is accepted and when it is refused, in terms of the bytes |
| Reactor.Handler.AppendRead | src/websocket_master/websocket_handler.cpp:36-44 | the bytes are taken exactly when they stay within 1 MiB and 16 KiB |
| Reactor.Handler.AppendOutgoing | src/websocket_master/websocket_handler.cpp:46-57 | the bytes are queued, or dropped at the cap of 4 MiB with the connection queued for closing; the mask follows if wanted |
| Reactor.Handler.FlushWrites | src/websocket_master/websocket_handler.cpp:63-75 | what was sent and what is left are what was there; a failure queues the connection |
| Reactor.Handler.DriveIo | src/websocket_master/websocket_handler.cpp:81-118 | the whole effect: the frames handled, what every connection has been sent or has lost, and who has been queued: exactly those who lost a frame at the write cap, and the connection itself if its handshake is too long or refused, a close frame was handled or the rest of its buffer is faulty |
| Reactor.Handler.Handshake | src/websocket_master/websocket_handler.cpp:82-105 | in terms of the bytes alone: it is accepted exactly when at most 64 KiB are buffered, CR LF CR LF is among them, and the first line feed stands behind a carriage return; it is refused, with the connection queued, when there are more bytes or the first line does not end so, and waits otherwise |
| Reactor.Handler.Accept | src/websocket_master/websocket_handler.cpp:99-104 | the response to the headers is queued first, and the connection is a client from then on |
| Reactor.Handler.HandleFrames | src/websocket_master/websocket_handler.cpp:107-117 | all complete frames are handled and nothing else, with the effect on every output and on the queue that answering them one by one has |
| ReactorEffect.OneMore | src/websocket_master/websocket_handler.cpp:120-160 | the effect of handling frames grows by one frame at a time |
| ReactorEffect.OneEffect | src/websocket_master/websocket_handler.cpp:120-160 | what handling one frame does to the output of every connection and to the queue |
| ReactorEffect.ReactedByJoining | src/websocket_master/websocket_handler.cpp:82-118 | an accepted handshake and the frames behind it have the effect of driving the connection |
| Reactor.Handler.HandleNext | src/websocket_master/websocket_handler.cpp:107-117 | one frame leaves the buffer and is handled |
| Reactor.Handler.HandleOneFrame | src/websocket_master/websocket_handler.cpp:120-160 | text (opcode 1) is echoed and broadcast, a close frame (8) queues the connection, a ping (9) is answered with a pong (10), anything else is dropped |
| Reactor.Handler.HandleText | src/websocket_master/websocket_handler.cpp:127-142 | the frame goes to the sender and to every other client, each once |
| Reactor.Network.BroadcastWsBinary | src/websocket_master/network_interface.cpp:162-183 | every client except one gets the frame or is queued for having lost it, in whatever order the set is walked, and all masks are fresh again |
| ReactorState.RefreshIsEnough | src/websocket_master/network_interface.cpp:174-182 | refreshing only the masks of buffers that were empty leads where refreshing every mask at once leads |
| ReactorEffect.BatchedIsImmediate | src/websocket_master/network_interface.cpp:162-183 | the broadcast with its one refresh at the end reaches the state of sending to the clients one after the other with an immediate update each: same connections, same masks, same descriptors queued |
| ReactorEffect.AppendEachIsBroadcast | src/websocket_master/websocket_handler.cpp:46-57 | sending to distinct clients one after the other with immediate updates is a broadcast to them |
| ReactorState.AppendIsBroadcast | src/websocket_master/websocket_handler.cpp:46-57 | sending to one client with its mask updated at once is a broadcast to it |
| ReactorState.BroadcastTwice | src/websocket_master/network_interface.cpp:162-183 | broadcasts to different clients add up |
| Reactor.Network.UpdateHandlerEvents | src/websocket_master/network_interface.cpp:136-146 | the mask waits for writability exactly if something is to be written |
| Reactor.Network.OnIncoming | src/websocket_master/network_interface.cpp:221-236 | every accepted descriptor becomes a fresh connection, and the others are untouched |
| Reactor.Network.CtlAdd | src/websocket_master/network_interface.cpp:306-319 | a new handler under a new serial number |
| Reactor.Network.OnBroken | src/websocket_master/network_interface.cpp:237-240 | an error or hang-up queues the connection and does nothing else |
| Reactor.Network.ReadAll | src/websocket_master/network_interface.cpp:250-268 | everything there is to read goes to the handler; end of file and the cap mean closing |
| Reactor.Network.OnReadable | src/websocket_master/network_interface.cpp:241-274 | what was read is received and the connection driven with exactly that effect, or queued alone, at end of file or over the read cap |
| Reactor.Network.OnWritable | src/websocket_master/network_interface.cpp:275-285 | what send accepted is gone from the buffer, the connection is queued exactly when sending failed, and the mask follows |
| Reactor.Network.QueueClose | src/websocket_master/network_interface.cpp:185-189 | a descriptor that is not negative is queued |
| Reactor.Network.ProcessCloseQueue | src/websocket_master/network_interface.cpp:191-202 | every connection queued is closed exactly once, however often it was queued, and no other |
| Reactor.Network.CtlDel | src/websocket_master/network_interface.cpp:306-324 | the handler is deleted and leaves every table |
| ReactorState.SortUnique | src/websocket_master/network_interface.cpp:194-195 | ascending, with the same elements |
| ReactorState.DrainedIsInv | src/websocket_master/network_interface.cpp:191-202 | after closing, no serial number has been closed twice and none of an open connection |
| ReactorState.OpenKeepsInv | src/websocket_master/network_interface.cpp:306-319 | a connection on a descriptor that is not open takes over nothing from an earlier one |
| Md5.DigestOfPieces | src/common/mongodb/md5.c:312-378 | however a message is split into calls, the digest is the one RFC 1321 defines for the whole |
| Md5.State.Append | src/common/mongodb/md5.c:321-356 | the message grows by the bytes given; the count is its length in bits modulo 2^64, the registers are the fold over its whole blocks, the buffer the rest |
| Md5.State.Finish | src/common/mongodb/md5.c:358-378 | the padding of sections 3.1 and 3.2 is appended with the length saved before, and the digest is written out low-order byte first |
| Md5.State.Count | src/common/mongodb/md5.c:331-335 | the carry between the two words of the count is exact |
| Md5.State.FillBlock | src/common/mongodb/md5.c:337-347 | an initial partial block |
| Md5.State.TakeBlocks | src/common/mongodb/md5.c:349-355 | whole blocks straight from the input, and a final partial block |
| Md5.State.OffsetOfCount | src/common/mongodb/md5.c:325-325 | the low word of the count tells how full the last block is |
| Md5.State.Process | src/common/mongodb/md5.c:131-310 | one block is compressed into the registers |
| Md5.AllRounds | src/common/mongodb/md5.c:199-301 | the sixty-four steps as written out are the steps given by index: word, rotation and function follow the schedule of section 3.4 of RFC 1321 |
| Md5.Round1 | src/common/mongodb/md5.c:199-223 | the first sixteen steps, with the constants as the source writes them, as complements |
| Md5.Round2 | src/common/mongodb/md5.c:225-249 | the second sixteen steps |
| Md5.Round3 | src/common/mongodb/md5.c:251-275 | the third sixteen steps |
| Md5.Round4 | src/common/mongodb/md5.c:277-301 | the last sixteen steps |
| Md5.RoundFunctionsBitwise | src/common/mongodb/md5.c:201-279 | the four functions of section 3.4 of RFC 1321 bit by bit |
| Md5.SetInIntegers | src/common/mongodb/md5.c:197-205 | one step in integers modulo 2^32 |
| Md5.InitialBytes | src/common/mongodb/md5.c:312-319 | the initial registers are the bytes section 3.3 of RFC 1321 prints |
| Words.RotateInIntegers | src/common/mongodb/md5.c:197-197 | rotating is x * 2^s mod 2^32 + x / 2^(32 - s) |
| Md5.Decode | src/common/mongodb/md5.c:191-192 | a block as words, low-order byte first |
| Md5.PaddedBlocksDetermineTheMessage | src/common/mongodb/md5.c:358-378 | up to 2^64 bits, the padded blocks determine the message |
| BlockHash.PaddingIsInjective | src/common/mongodb/md5.c:372-375 | the length comes back out of the padding |
| BlockHash.ZerosIsLeast | src/common/mongodb/md5.c:373-373 | the padding is as short as can be |
| BlockHash.FoldSplit | src/common/mongodb/md5.c:349-351 | blocks can be folded in as they come |
| Sha1.DigestOfPieces | src/websocket_master/sha1.cpp:134-212 | however a message is split into calls, the digest is the one FIPS PUB 180-1 defines for the whole; a message of 2^64 bits or more has none |
| Sha1.Sha1.Input | src/websocket_master/sha1.cpp:175-212 | the message grows by the bytes given; the object is corrupted if and only if it was, or a digest had been computed, or the length reaches 2^64 bits |
| Sha1.Sha1.PutByte | src/websocket_master/sha1.cpp:191-209 | a full block is processed at once |
| Sha1.Sha1.CountByte | src/websocket_master/sha1.cpp:193-203 | the length in two words, and when it is too long |
| Sha1.Sha1.PadMessage | src/websocket_master/sha1.cpp:521-566 | the digest of the padded message, whether the padding takes one block or two |
| Sha1.PaddedBlocks | src/websocket_master/sha1.cpp:521-566 | the padded message ends in this block, or in one more, by how full the block is |
| Sha1.Sha1.StoreLength | src/websocket_master/sha1.cpp:553-563 | the last eight bytes are the length in bits, most significant first |
| Sha1.Sha1.ZeroFill | src/websocket_master/sha1.cpp:531-534 | zeros up to a place in the block |
| Sha1.Sha1.Result | src/websocket_master/sha1.cpp:134-155 | the digest, the same again when asked again, unless the object is corrupted |
| Sha1.Sha1.ProcessMessageBlock | src/websocket_master/sha1.cpp:411-498 | one block is compressed into the registers |
| Sha1.RunSteps | src/websocket_master/sha1.cpp:440-489 | the four loops are the eighty steps of section 7 |
| Sha1.StepFunctionBitwise | src/websocket_master/sha1.cpp:440-489 | the functions of section 5 of FIPS PUB 180-1 bit by bit |
| Sha1.MakeSchedule | src/websocket_master/sha1.cpp:424-438 | the schedule of eighty words satisfies its recurrence |

## Left out

- GridFs.GridFile.constructor: a file is opened with the chunk size DEFAULT_CHUNK_SIZE, which is what writing always uses; another size in the metadata, custom chunk filters, metadata and the server-side MD5 are not modelled.
- GridFs.GridFile.FlushPending: updates, queries and removals on the store always succeed; a failing one stops the operation in the source. `chunk_num * chunkSize` is not bounded to 32 bits.
- GridFs.GridFile.WriteBuffer: is specified for positions up to the end of the file. A read that counts twice can leave the position behind it, from where the source writes with a gap or not at all; a seek comes back.
- GridFs.GridFile.ReadBuffer: is specified for positions up to the end of the file; behind it the number of bytes left wraps round in the source. The cursor over stored chunks yields them in order, from a store without gaps.
- BsonBuilder.Build: the buffer is the builder's own, object ids are not generated, doubles are eight opaque bytes, and memory allocation does not fail.
- BsonBuilder.EmitAll: database references are no values here, as the builder has no function for them; the scope of code is a document built before.
- BsonReading.ValueSize: does not cover database references, which nothing here writes.
- BsonRoundTrip.CopyElement: copies an element under its own name. Under a new name the source goes on writing when the head of the element has failed.
- BsonBuilder.Bson.EnsureSpace: the conversion of a size beyond the range of an int is taken to be the smallest int, as common compilers have it.
- BsonBuilder.Bson.Finish: calling it with a sub-document still open ends the program in the source, so it is not called that way.
- BsonReading.BsonIterator.Next: is specified on bytes that hold a document; the source does not check the lengths of any others.
- BconTrees.CompileDocument: a document nested in braces or brackets deeper than the stacks, a key "}" or ".", and a plain string that is a sign or looks like a specifier cannot be written; such a string goes behind ":__:" or ":_s:".
- Bcon.AppendBcon: is specified for lists that stay within both stacks, end in a terminator, and give each type specifier a value of its type; on others the source runs out of its arrays or takes a value for what it is not. Keys of nine characters or more (arrays of 10^8 elements) overflow its buffer and are not modelled, nor is the object id generated for an empty one.
- JsonGrammar.Parse: what sscanf makes of a number left to it is a parameter, and reals are finite. Comments are skipped but not collected. Arrays with gaps, which only client code can make, are not modelled.
- JsonReading.Reader.ReadValue: the stack holds the values under construction; each is copied into its parent when it is popped, where the source points into the tree.
- JsonValue.StrictTotalOrder: a real is a number; infinities and NaN are not values here. Sizes are not cut to 32 bits.
- JsonWriters.StyledWriter.Write: trees have no comments and no reals; StyledStreamWriter and the YAML mode are not modelled.
- Reactor.Handler.Accept: the 101 response is a parameter, not empty and shorter than its buffer of 1024 bytes; header fields, base64 and the accept key are not modelled, though SHA-1 is in `Sha1.dfy`.
- Reactor.Handler.HandleFrames: the request object is made anew for each call, where the source resets one it keeps. Fragments are not reassembled, unmasked client frames are accepted and there is no closing handshake, as in the source.
- Reactor.Network.CtlAdd: epoll_ctl succeeds, and accept returns a descriptor that is not open.
- Reactor.Network.EpollLoop: nothing is promised about when a connection becomes writable; an event that is both readable and writable counts as readable.
- WsFrame.PackData: memory allocation does not fail, and the message is not null.
- Md5.State.Append: a call takes at most INT_MAX - 63 bytes; beyond that a sum overflows in the source.
- Md5.State.Process: words are numbers below 2^32, and the four registers one value.
- Md5.AllRounds: the constants are those RFC 1321 lists, compared with the ones the source writes as complements; that they are sines is not stated.
- Socket setup, fork, resource limits, logging and configuration: system calls without state of their own.
- The MongoDB wire protocol, the HTTP client and the socket wrappers: they only move bytes.
- The internal map and array of the JSON library: compiled out by default.
