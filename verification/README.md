# Verified models of the bitcoin trader and the libraries it compiles in

The trader decides positions from bars and ticks. It talks to an exchange through a JSON library, a thread pool and
WebSocket codecs that are compiled in as headers. These Dafny modules model the algorithms with the hardest laws among
them and prove the laws for all inputs, all runs and all interleavings.

* `Options`, `Numbers`, `Sequences`: shared by all.
* `Bytes`, `JsonValue`: byte strings, key order, decimal text and `std::stoi`; documents and `operator==`.
* `JsonPointer`, `JsonPatch`, `JsonFlatten`: JSON Pointer, JSON Patch with diff, flatten and unflatten.
* `JsonBinary`: CBOR and MessagePack over one pair of head codecs.
* `Doubles`: what a bit pattern stands for, and which integers equal which floats.
* `Utf8`, `JsonLexer`, `JsonText`, `JsonLayout`: the table-driven validator, the lexer, `dump` and the parser, the layout of
  dumped text.
* `ThreadPool`: the pool as a step relation over its workers, pushing clients and the thread that resizes and stops it.
* `Md5`, `Masking`, `Base64`: chunked and word-at-a-time loops against whole-message definitions.
* `Market`, `MktData`, `Strategies`, `Positions`: indicators, the bar window, the crossover machines, rebalancing.

A function named after a concept (`PointerText`, `DiffOps`, `Encode`, `Run`, `Padded`, ...) is the specification; the
method beside it follows the C++ loop and is proved to compute it; the lemmas say what the specification is good for.
C++ exceptions are `Err` results: `std::invalid_argument`, `std::out_of_range`, `std::domain_error` and
`std::length_error` keep their names, a failing `assert` is `AssertionFailed`.

## Where the code and its documentation differ

* `source.patch(diff(source, target)) == target` (json.hpp:12016-12020) fails when the target holds a NaN, which equals
  nothing, and when an array index above `INT_MAX` would have to be written (`JsonPatch.DiffPatchInvariant`,
  `JsonPatch.NaNBreaksPatch`, `JsonPatch.HugeIndexBreaksPatch`). Constructors, parser and decoders turn a non-finite double
  into null (json.hpp:1511-1519, 10606-10611); a document with one arises only by writing through `get_ref` or `get_ptr`
  (json.hpp:2976, 3053).
* For the same reason a document with an infinity or a NaN is encoded to CBOR and MessagePack as it is but comes back with
  null in its place (`JsonBinary.BinaryRoundTrip`, `JsonBinary.InfinityBecomesNull`).
* `j == j.flatten().unflatten()` (json.hpp:11685-11688) also fails for an object whose first visited member is `"0"`
  (`JsonFlatten.ZeroMemberBreaksFlatten`), for a NaN (`JsonFlatten.NaNBreaksFlatten`), and for an array longer than
  `std::stoi` can index; `JsonFlatten.FlattenUnflatten` gives the exact condition under `operator==`.
* The copy operation of a patch assigns through `result[ptr]` (json.hpp:11971), so a copy onto an array index overwrites the
  element there, where RFC 6902, section 4.5, asks for an insertion (`JsonPatch.CopyElement`).
* `stop(true)` is documented to run all queued functions (ctpl_stl.h:141). On a pool with threads it does, on every
  schedule, if and only if nothing is queued or some thread does not stand between a failed `q.pop` and reading `isDone`
  (`ThreadPool.StopPromise`). So only a pool with a single thread can lose functions, to a push that has queued its function
  but not called `notify_one` yet (`ThreadPool.EnoughToDrain`, `ThreadPool.OverlappingPushIsCleared`). A worker detached by
  an earlier `resize` is not joined, so its function may still be running.
* `circshift_prepared_key` shifts by the full word width for offset 0, which C++ leaves undefined; the result is the same
  whether the hardware clears the word or leaves it (`Masking.CircshiftMemory`).
* `limit` returns true after a failed order (okcoin_futs_algorithms.cpp:22, 58, 65), so fills are arbitrary in `Positions`.
* `MovingAverage` sums in `int` (trading.cpp:14-17), so on non-negative closes it divides the sum of the floors: the mean if
  and only if every close is integral (`Market.AverageExact`).

## Model

| member | source | states |
|---|---|---|
| `JsonValue.EqReflexive` | libs/json/json.hpp:5553-5626 | a document equals itself under operator== if and only if it holds no NaN |
| `JsonValue.NaNEqualsNothing` | libs/json/json.hpp:5553-5626 | no document at all equals one that holds a NaN |
| `JsonValue.EqSymmetric` | libs/json/json.hpp:5553-5626 | operator== does not depend on the order of the operands, mixed number types included |
| `JsonValue.SignedUnsigned` | libs/json/json.hpp:5617-5624 | a signed and an unsigned integer are equal if and only if they are congruent modulo 2^64 |
| `JsonValue.NormalizeEq` | libs/json/json.hpp:1511-1519 | what decoders and parser make of a document (non-negative integers unsigned, non-finite floats null) is equal to it under operator== if and only if every float is finite |
| `Doubles.NatToDoubleExact` | libs/json/json.hpp:5553-5626 | the double an integer is cast to stands for exactly that integer, up to 2^53, with the value of a bit pattern written out by IEEE 754 |
| `Doubles.NatToDoubleNearest` | libs/json/json.hpp:5601-5616 | a longer integer is rounded to the nearest multiple of the unit that leaves 53 bits, and from the middle to an even one |
| `Doubles.IntegersAsDoubles` | libs/json/json.hpp:5553-5626 | within 53 bits and a sign, operator== between an integer and a float says whether they are the same number |
| `Doubles.Patterns` | libs/json/json.hpp:1511-1519 | which bit patterns are NaN and which are finite, for both signs |
| `Doubles.MagnitudeStep` | libs/json/json.hpp:5590-5593 | neighbouring patterns stand for numbers one unit in the last place apart, gradual underflow included |
| `Doubles.SameNumber` | libs/json/json.hpp:5590-5593 | equality of doubles computed from their bits holds if and only if both are numbers and stand for the same one |
| `Bytes.SortedKeys` | libs/json/json.hpp:374-382 | object members are visited in strictly increasing byte order, each key once and no other |
| `Bytes.LexStripPrefix` | libs/json/json.hpp:374-382 | the order of keys does not depend on a common prefix |
| `Bytes.StoiDecimal` | libs/json/json.hpp:11162 | std::stoi inverts std::to_string up to INT_MAX and fails on every larger index |
| `Bytes.StoiReads` | libs/json/json.hpp:11162 | std::stoi reads any signed number behind white space, whatever follows the digits, and fails with out_of_range exactly outside the 32-bit range |
| `Bytes.StoiRejects` | libs/json/json.hpp:11162 | without a digit behind white space and sign it fails with invalid_argument |
| `JsonPointer.ReplaceSubstring` | libs/json/json.hpp:11391-11403 | the in-place find and replace loop gives the string with every left-to-right occurrence replaced, never rescanning what it wrote |
| `JsonPointer.EscapeText` | libs/json/json.hpp:11406-11412 | the two replacement passes together are the tilde and slash escape |
| `JsonPointer.UnescapeText` | libs/json/json.hpp:11415-11421 | the two passes in their order are the unescape |
| `JsonPointer.UnescapeEscape` | libs/json/json.hpp:11406-11421 | unescape(escape(s)) == s for every byte string; it depends on the order of the passes |
| `JsonPointer.EscapeUnescape` | libs/json/json.hpp:11355-11371 | escape(unescape(e)) == e for every text that split accepts as a token |
| `JsonPointer.EscapeShape` | libs/json/json.hpp:11406-11412 | an escaped token holds no slash and every tilde in it is followed by 0 or 1 |
| `JsonPointer.EscapeExamples` | libs/json/json.hpp:11406-11421 | the escapes of RFC 6901, section 3: ~ is ~0, / is ~1, and ~01 is read as ~1, not as a slash |
| `JsonPointer.PointerTextAppend` | libs/json/json.hpp:10982-10990 | the text of concatenated token lists is the concatenation of the texts |
| `JsonPointer.ToString` | libs/json/json.hpp:10982-10990 | the fold over the tokens gives the pointer text |
| `JsonPointer.CheckTildes` | libs/json/json.hpp:11355-11368 | the inner search accepts a token if and only if no tilde in it is badly escaped |
| `JsonPointer.Split` | libs/json/json.hpp:11318-11376 | the slash and start loop reads the same tokens, or fails the same way, as reading token by token; empty tokens included |
| `JsonPointer.TokensOfText` | libs/json/json.hpp:10970-10990 | json_pointer(p.to_string()) == p for every token list |
| `JsonPointer.TextOfTokens` | libs/json/json.hpp:11318-11376 | every accepted text is the text of the tokens it is split into |
| `JsonPointer.PointerRoundTrip` | libs/json/json.hpp:10970-10990 | a text denotes p if and only if it is p.to_string() |
| `JsonPatch.Patch` | libs/json/json.hpp:11749-12008 | the loop applies decoded operations in order to a working copy and ends with the first failure |
| `JsonPatch.MembersSpelled` | libs/json/json.hpp:11923-11946 | the member names op, path, value and from as text |
| `JsonPatch.OperationsSpelled` | libs/json/json.hpp:11757-11785 | the six operation names as text |
| `JsonPatch.DecodesExactly` | libs/json/json.hpp:11887-11946 | an object is read as an operation if and only if it has a known op, a pointer as path, and the value or from that the op asks for; otherwise, pointers apart, invalid_argument |
| `JsonPatch.ElementTokens` | libs/json/json.hpp:11177-11227 | an element is found by its decimal index; -, an index behind the end and a leading zero fail as documented |
| `JsonPatch.NullGrows` | libs/json/json.hpp:11110-11175 | writing below null makes it an array filled with nulls for an index or -, and an object for any other token |
| `JsonPatch.TestMeans` | libs/json/json.hpp:11975-11997 | a test never changes the document: it passes if and only if the path leads to an equal value, and fails with domain_error on a different or missing one |
| `JsonPatch.InsertShifts` | libs/json/json.hpp:11817-11838 | an element added at an index shifts the ones from there on by one, - appends, an index behind the end is out_of_range |
| `JsonPatch.MoveMember` | libs/json/json.hpp:11948-11963 | a moved member stands under the new name and no longer under the old one; nothing else changes; a missing one is out_of_range |
| `JsonPatch.MoveElement` | libs/json/json.hpp:11948-11963 | a moved element stands at the new index among the other elements in their order |
| `JsonPatch.CopyMember` | libs/json/json.hpp:11965-11973 | a copied member is there under both names |
| `JsonPatch.CopyElement` | libs/json/json.hpp:11965-11973 | a copy onto an array index overwrites the element there and keeps the length; behind the last one it appends |
| `JsonPatch.DecodeEncode` | libs/json/json.hpp:11923-11946 | patch reads each operation object that diff writes as the operation meant |
| `JsonPatch.DecodeOthers` | libs/json/json.hpp:11923-11946 | move, copy and test objects are read as the operations meant, with both pointers |
| `JsonPatch.RunPatchIsApplyAll` | libs/json/json.hpp:11887-12007 | running the written patch document is running the operations |
| `JsonPatch.StepWithin` | libs/json/json.hpp:11788-11877 | framing: an operation below one child acts on that child alone, wherever the document around it stands |
| `JsonPatch.ApplyWithin` | libs/json/json.hpp:11887-12007 | framing for operation lists: whole sub-patches act inside one child |
| `JsonPatch.ApplyAppend` | libs/json/json.hpp:11887-12007 | running two lists in a row is running their concatenation, failures included |
| `JsonPatch.RemovalsApply` | libs/json/json.hpp:12084-12096 | removing surplus elements from the highest index down leaves exactly the common prefix |
| `JsonPatch.AppendsApply` | libs/json/json.hpp:12098-12108 | adding the target's remaining elements in order at growing indices appends exactly them |
| `JsonPatch.MembersApply` | libs/json/json.hpp:12115-12136 | the pass over the source's members edits or removes each of them, in any surroundings |
| `JsonPatch.NewMembersApply` | libs/json/json.hpp:12138-12152 | the second pass adds exactly the members the source lacks |
| `JsonPatch.DiffNotEmpty` | libs/json/json.hpp:12046-12172 | diff writes at least one operation whenever the documents differ |
| `JsonPatch.DiffApplies` | libs/json/json.hpp:12042-12172 | the operations of diff either run into an index beyond std::stoi or give the merged document, for every pair of documents |
| `JsonPatch.MergedEq` | libs/json/json.hpp:12042-12172 | the merged document equals the target if and only if the target holds no NaN |
| `JsonPatch.PatchOfDiff` | libs/json/json.hpp:12042-12172 | exact outcome of patching with the diff: out_of_range if and only if an index above INT_MAX is needed, else the merged document |
| `JsonPatch.Diff` | libs/json/json.hpp:12042-12172 | the recursion with its growing path text writes the diff operations, each at its full pointer |
| `JsonPatch.DiffElements` | libs/json/json.hpp:12071-12079 | the loop over common elements collects the children's operations in order |
| `JsonPatch.DiffArrays` | libs/json/json.hpp:12069-12111 | inserting each removal at a fixed place in the result list puts them in descending index order |
| `JsonPatch.DiffMembers` | libs/json/json.hpp:12115-12136 | the pass over the source's members, keys escaped, collects their edits and removals in key order |
| `JsonPatch.DiffNewMembers` | libs/json/json.hpp:12138-12152 | the pass over the target's members collects the additions in key order |
| `JsonPatch.DiffObjects` | libs/json/json.hpp:12113-12155 | both passes together write the operations of an object's diff |
| `JsonPatch.DiffPatchInvariant` | libs/json/json.hpp:12016-12020 | the documented invariant source.patch(diff(source, target)) == target, with the exact condition under which it holds |
| `JsonPatch.HugeIndexBreaksPatch` | libs/json/json.hpp:11162 | the invariant's index condition is needed: from [] to an array of INT_MAX + 2 nulls the patch fails with out_of_range |
| `JsonPatch.NaNBreaksPatch` | libs/json/json.hpp:12016-12020 | its NaN condition is needed: patching null into a NaN gives the NaN, which compares unequal to the target |
| `JsonPatch.DiffThenPatch` | libs/json/json.hpp:11749-12172 | diff followed by patch, as computed: the same outcome and condition |
| `JsonFlatten.Flatten` | libs/json/json.hpp:11430-11481 | the recursion into one growing result map writes one entry per leaf, escaped path as key |
| `JsonFlatten.FlattenKeys` | libs/json/json.hpp:11430-11481 | the flattened object has a key for every leaf and no other, and under it the leaf's value, or null for an empty container |
| `JsonFlatten.Unflatten` | libs/json/json.hpp:11488-11514 | the loop over members in key order creates and assigns path by path, failing on non-objects and non-primitive values |
| `JsonFlatten.FlattenLists` | libs/json/json.hpp:11430-11514 | what unflatten reads from a flattened document is the list of all leaves in key order |
| `JsonFlatten.ZeroBefore` | libs/json/json.hpp:11045-11059 | key order reaches index 0 of an array before every other index, by the escaped texts |
| `JsonFlatten.ArrayFold` | libs/json/json.hpp:11067-11072 | filling an array in key order, null-filling for 10 before 2, leaves each element with what its own entries build |
| `JsonFlatten.ObjectFold` | libs/json/json.hpp:11060-11065 | each member ends with what its own entries build, whatever comes between |
| `JsonFlatten.Rebuild` | libs/json/json.hpp:11035-11089 | from null, the ordered leaves rebuild the document up to empty containers, if and only if it is rebuildable |
| `JsonFlatten.FlattenUnflatten` | libs/json/json.hpp:11685-11688 | the promise j == j.flatten().unflatten() under operator==: kept if and only if j has no empty container, no array beyond std::stoi, no object visited through "0" first and no NaN; without the NaN condition the result is j itself |
| `JsonFlatten.FlattenThenUnflatten` | libs/json/json.hpp:11430-11514 | the same conditions for the two loops as computed |
| `JsonFlatten.ZeroMemberBreaksFlatten` | libs/json/json.hpp:11047-11051 | a document without empty containers, equal to itself, that does not come back: {"0": null} |
| `JsonFlatten.NaNBreaksFlatten` | libs/json/json.hpp:11685-11688 | a NaN breaks the promise too: it comes back as it was and compares unequal |
| `JsonBinary.BigEndianValue` | libs/json/json.hpp:6249-6336 | reading back n bytes gives the number modulo 256^n, negative numbers included |
| `JsonBinary.HeadBack` | libs/json/json.hpp:6348-7614 | every initial byte with its argument is decoded to the head it was written for, wherever it stands |
| `JsonBinary.ShortestHead` | libs/json/json.hpp:6348-6845 | no accepted head for the same number or length is shorter than the one written |
| `JsonBinary.CborScalars` | libs/json/json.hpp:6593-6713 | examples of appendix A of RFC 7049: simple values and integers of both signs |
| `JsonBinary.CborContainers` | libs/json/json.hpp:6714-6845 | examples of appendix A of RFC 7049: a double, a text string, arrays and maps |
| `JsonBinary.MessagePackScalars` | libs/json/json.hpp:6348-6470 | the first bytes of the MessagePack specification for nil, booleans and integers of both signs |
| `JsonBinary.MessagePackContainers` | libs/json/json.hpp:6471-6590 | the first bytes of strings, arrays, maps and doubles |
| `JsonBinary.HeadlessLengths` | libs/json/json.hpp:6471-6590 | exactly the lengths of 2^32 and more get no head, and no head is longer than five bytes |
| `JsonBinary.EncodeSignless` | libs/json/json.hpp:6348-6845 | making every non-negative integer of a document unsigned, at any depth, does not change its encoding |
| `JsonBinary.SignedBack` | libs/json/json.hpp:7022-7044 | two's complement of 1, 2, 4 and 8 bytes reads back every value of its range |
| `JsonBinary.DocumentBack` | libs/json/json.hpp:6348-7614 | decoding where an encoding stands gives the document, non-finite floats as null, and consumes exactly the encoding |
| `JsonBinary.ElementsBack` | libs/json/json.hpp:6538-6542 | the elements of an array come back in order, back to back |
| `JsonBinary.MembersBack` | libs/json/json.hpp:6567-6572 | the members of an object come back, keys and values alternating |
| `JsonBinary.DecodedFits` | libs/json/json.hpp:6905-7614 | whatever bytes are decoded, the lengths in the result fit the codec |
| `JsonBinary.BinaryRoundTrip` | libs/json/json.hpp:6348-7614 | for both codecs: prefix ++ encoding ++ suffix decodes at the prefix's end to a document equal to the encoded one, stopping right behind the encoding, if and only if all lengths fit and every float is finite |
| `JsonBinary.InfinityBecomesNull` | libs/json/json.hpp:1511-1519 | the finiteness is needed: an infinity is written and read without an error and comes back as null, which is not equal |
| `JsonBinary.SameItem` | libs/json/json.hpp:6348-6845 | two documents whose encodings stand at the same place of any byte string are the same up to integer signedness; derived from the heads, so non-finite floats are told apart too |
| `JsonBinary.PrefixFree` | libs/json/json.hpp:6348-6845 | an encoding is a prefix of another if and only if the documents are the same up to integer signedness, and then the encodings are equal |
| `JsonBinary.ByteVector.AddToVector` | libs/json/json.hpp:6249-6283 | the fall-through switch appends the number's bytes, most significant first |
| `JsonBinary.ByteVector.PutCborHead` | libs/json/json.hpp:6683-6713 | appends the shortest of the five argument forms |
| `JsonBinary.ByteVector.PutMessagePackInt` | libs/json/json.hpp:6366-6435 | appends the fixnum, 8, 16, 32 or 64-bit form that the value asks for |
| `JsonBinary.ByteVector.PutMessagePackLength` | libs/json/json.hpp:6484-6565 | appends the length form of strings, arrays and maps, and nothing from 2^32 on |
| `JsonBinary.ByteVector.Write` | libs/json/json.hpp:6348-6845 | both recursive writers append exactly the encoding and keep what was there |
| `JsonBinary.ByteVector.WriteArray` | libs/json/json.hpp:6517-6544 | the element loop appends the encodings one after the other |
| `JsonBinary.ByteVector.WriteObject` | libs/json/json.hpp:6546-6574 | the member loop appends keys and values in key order |
| `JsonBinary.GetFromVector` | libs/json/json.hpp:6322-6336 | the byte loop gives the big-endian number behind the index, or out_of_range |
| `JsonBinary.ByteReader.NextCborHead` | libs/json/json.hpp:7145-7614 | a CBOR initial byte and its argument are read through get_from_vector and idx ends behind them |
| `JsonBinary.ByteReader.NextMessagePackHead` | libs/json/json.hpp:6905-7129 | a MessagePack initial byte and the number behind it are read through get_from_vector and idx ends behind them |
| `JsonBinary.ByteReader.Next` | libs/json/json.hpp:6905-7614 | one value is decoded and idx ends behind it |
| `JsonBinary.ByteReader.NextElements` | libs/json/json.hpp:6930-6939 | the element loop advances idx over n values |
| `JsonBinary.ByteReader.NextMembers` | libs/json/json.hpp:6919-6929 | the member loop advances idx over n pairs, failing on a key that is no string |
| `JsonBinary.WriteThenRead` | libs/json/json.hpp:6348-7614 | writing behind any bytes and reading there returns an equal document and the index behind it, if and only if all lengths fit and every float is finite |
| `Utf8.StateStep` | libs/websocketpp/websocketpp/utf8_validator.hpp:45-60 | each table entry in terms of RFC 3629: which bytes a state lets through and what it then waits for |
| `Utf8.CharacterRun` | libs/websocketpp/websocketpp/utf8_validator.hpp:69-79 | over one well-formed character the decoder is back in accept and holds its code point |
| `Utf8.CharactersRun` | libs/websocketpp/websocketpp/utf8_validator.hpp:69-79 | over a valid string the code points completed are those of its characters, in order |
| `Utf8.AcceptsExactly` | libs/websocketpp/websocketpp/utf8_validator.hpp:45-79 | the automaton ends in accept if and only if the bytes are a concatenation of well-formed sequences (RFC 3629, section 4) |
| `Utf8.RejectsEarliest` | libs/websocketpp/websocketpp/utf8_validator.hpp:105-119 | a byte is rejected if and only if no continuation could make the input valid any more |
| `Utf8.RunAppend` | libs/websocketpp/websocketpp/utf8_validator.hpp:105-119 | decoding two pieces in a row is decoding their concatenation |
| `Utf8.ChunkedValidation` | libs/websocketpp/websocketpp/utf8_validator.hpp:81-136 | however the bytes are split over decode calls, complete tells validity and no call has failed if and only if the input is a valid prefix |
| `Utf8.Validator.Consume` | libs/websocketpp/websocketpp/utf8_validator.hpp:91-96 | one byte moves state and code point by the table and reports rejection |
| `Utf8.Validator.Decode` | libs/websocketpp/websocketpp/utf8_validator.hpp:105-119 | the loop leaves the state of the run over the bytes up to a rejection |
| `Utf8.Validator.Reset` | libs/websocketpp/websocketpp/utf8_validator.hpp:129-132 | brings back the initial state |
| `Utf8.Validate` | libs/websocketpp/websocketpp/utf8_validator.hpp:143-149 | true if and only if the string is valid UTF-8 |
| `Utf8.EncodeScalarWellFormed` | libs/json/json.hpp:9143-9176 | every scalar value becomes one well-formed sequence of that code point; surrogate code points do not |
| `Utf8.ToUnicodeDecodes` | libs/json/json.hpp:9115-9177 | what to_unicode writes, surrogate pairs included, is accepted by the validator with its code point, except for a lone low surrogate |
| `Utf8.SurrogatePairs` | libs/json/json.hpp:9115-9177 | two code units made from a supplementary code point (RFC 2781, section 2.1) are combined to that code point |
| `Utf8.CodeUnits` | libs/json/json.hpp:9115-9177 | exactly a high surrogate without a low one behind it is refused, and nothing but a pair is combined |
| `JsonLexer.CountExtraSpace` | libs/json/json.hpp:7777-7814 | the sum is exactly by how much escaping lengthens the string |
| `JsonLexer.PutEscaped` | libs/json/json.hpp:7840-7924 | one character is written at pos, pos advances over it and the backslashes behind stay |
| `JsonLexer.EscapeString` | libs/json/json.hpp:7825-7930 | the pre-sized buffer is filled exactly with the escaped string |
| `JsonLexer.EscapeLength` | libs/json/json.hpp:7777-7837 | the buffer size fits, and no extra space means nothing to escape |
| `JsonLexer.Escapes` | libs/json/json.hpp:7840-7924 | the short escapes, the hexadecimal ones in lower case, and a slash left as it is |
| `JsonLexer.ShortEscapes` | libs/json/json.hpp:10348-10392 | the eight escapes of one letter as read, the slash included, and no others |
| `JsonLexer.HexBack` | libs/json/json.hpp:10393-10426 | four hexadecimal digits in mixed case are read as the code unit they spell |
| `JsonLexer.Literals` | libs/json/json.hpp:8041-8085 | null, true and false as text |
| `JsonLexer.UnescapeEscape` | libs/json/json.hpp:7825-7930 | get_string inverts escape_string on every byte string (RFC 7159, section 7) |
| `JsonLexer.ScanEscaped` | libs/json/json.hpp:9586-9650 | the scanner finds the closing quote right behind an escaped valid string |
| `JsonLexer.ScannedBody` | libs/json/json.hpp:9433-9650 | what the scanner puts between the quotes is a sequence of RFC 7159 string characters |
| `JsonLexer.GetString` | libs/json/json.hpp:10321-10434 | the loop over plain runs and escapes, skipping by pointer, gives the unescaped string or the surrogate error |
| `JsonLexer.UnescapeValid` | libs/json/json.hpp:10321-10434 | a scanned string token gives valid UTF-8 or invalid_argument |
| `JsonLexer.Clef` | libs/json/json.hpp:10393-10426 | the G clef example of RFC 7159, section 7 |
| `JsonLexer.GetNumber` | libs/json/json.hpp:10511-10616 | the digit loop with its 64-bit overflow test gives the exact integer whenever it fits and only then |
| `JsonLexer.PrintValue` | libs/json/json.hpp:10511-10616 | every printed int64 and uint64 is recovered exactly |
| `JsonLexer.ScanQuoted` | libs/json/json.hpp:9241-10165 | a quoted, escaped string is one string token |
| `JsonLexer.ScanNumber` | libs/json/json.hpp:9241-10165 | a printed integer is one number token when what follows cannot continue it |
| `JsonLexer.NumberTokens` | libs/json/json.hpp:9241-10165 | every number of RFC 7159, section 6, with fraction and exponent in any form, is one token before text that cannot continue it |
| `JsonLexer.BrokenNumbers` | libs/json/json.hpp:9241-10165 | a dot or an exponent mark without digits behind it is not part of the number |
| `JsonLexer.ScanBlanks` | libs/json/json.hpp:9241-10165 | blanks before a token do not change it |
| `JsonLexer.BlankSkipped` | libs/json/json.hpp:9241-10165 | tab, line feed, carriage return and space are skipped before any token |
| `JsonLexer.ScanEnd` | libs/json/json.hpp:9241-10165 | a zero byte ends the input like the end of the text |
| `JsonText.OuterIndent` | libs/json/json.hpp:7988-7995 | taking the step off again restores the indentation even after unsigned wrap-around |
| `JsonLayout.CompactHasNoBlanks` | libs/json/json.hpp:7949-8035 | without indentation the text of a float-free document has no line break and, outside strings, no blank |
| `JsonLayout.PrettyIsReformatted` | libs/json/json.hpp:7949-8035 | indented text is the compact text re-indented bracket by bracket by an independent pass over the text: a break behind every opening bracket and comma, one before every closing bracket, a space behind every colon, empty containers closed, strings untouched |
| `JsonLayout.PrettyLines` | libs/json/json.hpp:7966-8030 | indented text has exactly one line break for every entry and one more for every container that is not empty |
| `JsonLayout.EntryStands` | libs/json/json.hpp:7966-8030 | every entry at any depth stands behind a line break and exactly depth times step spaces (unsigned arithmetic), in an object behind its key |
| `JsonLayout.CompactExample` | libs/json/json.hpp:8006-8030 | dump() of [null] is [null] |
| `JsonLayout.PrettyExample` | libs/json/json.hpp:8006-8030 | dump(2) of [null] has it on a line of its own behind two spaces |
| `JsonText.ValueBack` | libs/json/json.hpp:10687-10878 | parsing at the text of a value, in any style and indentation and before any delimiter, gives the value and the token behind it |
| `JsonText.ElementsBack` | libs/json/json.hpp:10799-10815 | the element loop reads back the dumped elements in order |
| `JsonText.MembersBack` | libs/json/json.hpp:10720-10759 | the member loop reads back the dumped members, keys unescaped |
| `JsonText.ParsedClean` | libs/json/json.hpp:10687-10878 | whatever the text, a parsed document holds only valid UTF-8 |
| `JsonText.ParseDump` | libs/json/json.hpp:7949-10878 | parse(dump(j, indent)) gives j, integers normalized, for every float-free document of valid UTF-8 and every indent |
| `JsonText.TextRoundTrip` | libs/json/json.hpp:7949-10878 | the parsed text of a float-free document equals it if and only if all its strings and keys are valid UTF-8 |
| `JsonLayout.FloatReached` | libs/json/json.hpp:8049-8077 | a document is float-free in the sense of the text results if no path through it leads to a float (JsonLayout.NoFloatReached is the other direction) |
| `JsonLayout.NoFloatReached` | libs/json/json.hpp:8049-8077 | and only then |
| `JsonText.OutStream.Put` | libs/json/json.hpp:7949-8087 | the recursive writer appends exactly the text of the value |
| `JsonText.OutStream.PutElements` | libs/json/json.hpp:8016-8024 | the element loop appends the elements with separators between them |
| `JsonText.OutStream.PutMembers` | libs/json/json.hpp:7976-7986 | the member loop appends the members in key order with separators between them |
| `JsonText.Parser.GetToken` | libs/json/json.hpp:10880-10885 | moves the cursor behind the next token |
| `JsonText.Parser.ParseInternal` | libs/json/json.hpp:10687-10878 | the recursive descent parses one value and leaves cursor and last token behind it |
| `JsonText.Parser.ParseObject` | libs/json/json.hpp:10720-10763 | the do-while loop over members, up to the closing brace |
| `JsonText.Parser.ParseArray` | libs/json/json.hpp:10799-10819 | the do-while loop over elements, up to the closing bracket |
| `JsonText.Parser.ParseDocument` | libs/json/json.hpp:10670-10683 | a whole text is one value and the end of the input |
| `JsonText.DumpThenParse` | libs/json/json.hpp:7949-10878 | dump to a stream and parse it: an equal document if and only if all text is valid UTF-8 |
| `ThreadPool.StepKeepsInv` | libs/ctpl/ctpl_stl.h:47-232 | every step of every thread keeps mutex ownership, wakeup accounting, stop commands, thread list, idle count and task places |
| `ThreadPool.RunKeepsInv` | libs/ctpl/ctpl_stl.h:47-232 | so does every finite run over all interleavings |
| `ThreadPool.MutexWorker` | libs/ctpl/ctpl_stl.h:209-232 | a worker is between lock and unlock if and only if it owns the mutex |
| `ThreadPool.WakeupWorker` | libs/ctpl/ctpl_stl.h:209-232 | worker steps keep: queued tasks are covered by notified workers and pending pushes while anyone sleeps |
| `ThreadPool.WakeupNotify` | libs/ctpl/ctpl_stl.h:180-183 | notify_one trades a pending push for a notified worker, or finds nobody asleep |
| `ThreadPool.SignalsControl` | libs/ctpl/ctpl_stl.h:93-170 | no stop command is out, to a worker about to sleep or asleep, without its notify_all still to come |
| `ThreadPool.NoLostWakeup` | libs/ctpl/ctpl_stl.h:173-232 | in every reachable state, if a worker sleeps un-notified, the queue is no longer than the notified workers plus the pushes before notify_one; without those it is empty |
| `ThreadPool.NeverStuck` | libs/ctpl/ctpl_stl.h:173-232 | with a task queued and a worker asleep some thread already at work can always go on |
| `ThreadPool.JoinNeverHangs` | libs/ctpl/ctpl_stl.h:157-164 | stop never joins a worker that sleeps un-notified, and something can always go on while it joins |
| `ThreadPool.IdleCount` | libs/ctpl/ctpl_stl.h:224-230 | nWaiting is the number of workers inside cv.wait in every reachable state |
| `ThreadPool.TasksTake` | libs/ctpl/ctpl_stl.h:53-60 | popping moves a task from the queue to one worker |
| `ThreadPool.TasksDone` | libs/ctpl/ctpl_stl.h:216-219 | finishing a task moves it from its worker to the executed ones |
| `ThreadPool.Conservation` | libs/ctpl/ctpl_stl.h:47-232 | a task was pushed if and only if it is somewhere: queued once, held by one worker, executed once or cleared; never in two places |
| `ThreadPool.FirstInFirstOut` | libs/ctpl/ctpl_stl.h:47-60 | over any run the queue is what was queued, then what was pushed in order, with a number of functions taken off the front |
| `ThreadPool.EarlierLeavesFirst` | libs/ctpl/ctpl_stl.h:47-60 | of two functions the one queued earlier leaves the queue first, on every interleaving |
| `ThreadPool.ResizeLeaves` | libs/ctpl/ctpl_stl.h:93-119 | when resize(n) returns, on every interleaving, the pool has exactly n distinct threads, none of them told to leave: growing keeps the old ones in place and appends new ones, shrinking keeps the first n and has told every other one |
| `ThreadPool.ToldRunsOnce` | libs/ctpl/ctpl_stl.h:215-231 | a worker that was told to leave runs at most one more function, whatever is queued |
| `ThreadPool.RestedWorkers` | libs/ctpl/ctpl_stl.h:209-231 | with the pool at rest the workers told to leave are gone, and without stop(true) no other one is |
| `ThreadPool.StopLeaves` | libs/ctpl/ctpl_stl.h:142-170 | when either stop returns, the queue and the thread list are empty, every former thread has exited, and the stop is recorded |
| `ThreadPool.CallsAfterStop` | libs/ctpl/ctpl_stl.h:93-154 | resize and stop on a pool stopped before change nothing |
| `ThreadPool.StepRank` | libs/ctpl/ctpl_stl.h:47-232 | once no new call comes in, every step (spurious wakeups included once isDone is set) lowers a bound on the steps left |
| `ThreadPool.StopReturns` | libs/ctpl/ctpl_stl.h:142-170 | stop(true) returns on every schedule and whatever spurious wakeups there are: no run without new calls is longer than the bound, and a run that cannot go on has ended stop |
| `ThreadPool.ComesToRest` | libs/ctpl/ctpl_stl.h:93-232 | left alone, without spurious wakeups, the pool comes to rest within the bound; every resize, stop and push has returned then, and if a worker is alive every pushed task has been executed or was cleared |
| `ThreadPool.DrainingRun` | libs/ctpl/ctpl_stl.h:142-170 | what stop(true) keeps on all interleavings: one thread gives up only on an empty queue, nothing is cleared |
| `ThreadPool.StopRunsEverything` | libs/ctpl/ctpl_stl.h:142-170 | if nothing is queued or some thread does not stand between a failed q.pop and reading isDone, whatever pushes are under way: when stop(true) returns the queue is empty, nothing was cleared, and every task was executed unless cleared before or still held by a detached worker |
| `ThreadPool.StopLosesQueue` | libs/ctpl/ctpl_stl.h:142-170 | otherwise a run of stop(true) exists that clears the whole queue and executes none of it |
| `ThreadPool.StopPromise` | libs/ctpl/ctpl_stl.h:141-170 | the promise that stop(true) runs the whole queue holds on all schedules if and only if nothing is queued or some thread does not stand before reading isDone |
| `ThreadPool.EnoughToDrain` | libs/ctpl/ctpl_stl.h:142-183 | two threads, or no push between q.push and notify_one, are enough for it |
| `ThreadPool.OverlappingPushIsCleared` | libs/ctpl/ctpl_stl.h:142-183 | a reachable pool from which stop(true) can clear a function that a push had queued |
| `Md5.CountStep` | libs/websocketpp/websocketpp/common/md5.hpp:360-370 | adding nbytes in 32-bit parts with a carry adds 8 * nbytes modulo 2^64 |
| `Md5.CountOffset` | libs/websocketpp/websocketpp/common/md5.hpp:360 | the buffer offset taken from the low word is the message length modulo 64 |
| `Md5.InitialBytes` | libs/websocketpp/websocketpp/common/md5.hpp:349-354 | the initial words are the bytes 01 23 ... ef fe dc ... 10, least significant first (RFC 1321, section 3.3) |
| `Md5.FoldAppend` | libs/websocketpp/websocketpp/common/md5.hpp:386-387 | processing blocks in a row composes |
| `Md5.State.constructor` | libs/websocketpp/websocketpp/common/md5.hpp:349-355 | an empty message |
| `Md5.State.AddLength` | libs/websocketpp/websocketpp/common/md5.hpp:361-370 | the two count words after the addition |
| `Md5.State.FillPartial` | libs/websocketpp/websocketpp/common/md5.hpp:372-383 | the initial partial block either stays buffered or is completed and processed |
| `Md5.State.ProcessBlocks` | libs/websocketpp/websocketpp/common/md5.hpp:385-387 | all full blocks are folded in, less than one is left |
| `Md5.State.Append` | libs/websocketpp/websocketpp/common/md5.hpp:357-391 | count, chaining value and buffer again describe the message, extended by the data |
| `Md5.State.Finish` | libs/websocketpp/websocketpp/common/md5.hpp:393-412 | the digest is the fold over the padded whole message (RFC 1321, sections 3.1 to 3.4) |
| `Md5.OutputWords` | libs/websocketpp/websocketpp/common/md5.hpp:410-411 | digest bytes 4i to 4i+3 are word i of the state, least significant byte first |
| `Md5.PaddedShape` | libs/websocketpp/websocketpp/common/md5.hpp:393-409 | the padded message is the message, 0x80, zeros, and eight bytes holding the length in bits, in no more blocks than needed |
| `Md5.HashPieces` | libs/websocketpp/websocketpp/common/md5.hpp:357-412 | any split into append calls gives the digest of the whole message |
| `Md5.HashString` | libs/websocketpp/websocketpp/common/md5.hpp:415-429 | the digest of the string |
| `Md5.PaddingInjective` | libs/websocketpp/websocketpp/common/md5.hpp:393-409 | padded messages differ when messages do, below 2^61 bytes |
| `Masking.MaskTwice` | libs/websocketpp/websocketpp/frame.hpp:642-652 | masking twice with the same key and offset is the identity |
| `Masking.XorBit` | libs/websocketpp/websocketpp/frame.hpp:647 | a bit of the result is set if and only if the two operands differ in it |
| `Masking.XorUnits` | libs/websocketpp/websocketpp/frame.hpp:647 | a ^ 0 == a and a ^ a == 0 |
| `Masking.MaskedByZero` | libs/websocketpp/websocketpp/frame.hpp:642-652 | the zero key leaves every payload as it is |
| `Masking.MaskedZeros` | libs/websocketpp/websocketpp/frame.hpp:642-652 | a payload of zeros becomes the key repeated, from the offset on |
| `Masking.MaskedJoin` | libs/websocketpp/websocketpp/frame.hpp:642-652 | masking a concatenation is masking the parts at their offsets |
| `Masking.MaskedRotated` | libs/websocketpp/websocketpp/frame.hpp:642-652 | going on at an offset is starting over with the key rotated |
| `Masking.PrepareMemory` | libs/websocketpp/websocketpp/frame.hpp:595-604 | the prepared key repeats the four key bytes through the word in memory, for both word sizes and byte orders |
| `Masking.ShiftValues` | libs/websocketpp/websocketpp/frame.hpp:612-620 | byte moves are the arithmetic shifts of the number |
| `Masking.CircshiftMemory` | libs/websocketpp/websocketpp/frame.hpp:612-620 | the two shifts rotate the word's bytes in memory, even when one shift is by the full width |
| `Masking.CircshiftPeriodic` | libs/websocketpp/websocketpp/frame.hpp:612-620 | the four-byte period survives, with the key rotated |
| `Masking.ByteMask` | libs/websocketpp/websocketpp/frame.hpp:642-652 | the loop masks byte by byte, in place as well |
| `Masking.MaskWords` | libs/websocketpp/websocketpp/frame.hpp:707-709 | the word loop masks as many bytes as whole words, in place as well |
| `Masking.WordMaskExact` | libs/websocketpp/websocketpp/frame.hpp:699-714 | word_mask_exact is byte_mask and writes nothing beyond length |
| `Masking.WordMaskCirc` | libs/websocketpp/websocketpp/frame.hpp:765-786 | masks length bytes and returns the key for the byte that follows |
| `Masking.ByteMaskCirc` | libs/websocketpp/websocketpp/frame.hpp:827-838 | the same by bytes, through the low half of the word |
| `Masking.MaskChunks` | libs/websocketpp/websocketpp/frame.hpp:765-838 | any chunking, mixing both circular forms and feeding back the key, equals one byte_mask over the concatenation (RFC 6455, section 5.3) |
| `Base64.EncodedLength` | libs/websocketpp/websocketpp/base64/base64.hpp:66-112 | four characters for every three octets, rounded up |
| `Base64.Alphabet` | libs/websocketpp/websocketpp/base64/base64.hpp:43-46 | the alphabet: A to Z, a to z, 0 to 9, + and / |
| `Base64.AlphabetExactly` | libs/websocketpp/websocketpp/base64/base64.hpp:43-59 | a character is accepted if and only if it is in the alphabet, and is looked up at its place there |
| `Base64.EncodedExamples` | libs/websocketpp/websocketpp/base64/base64.hpp:66-112 | test vectors of section 10 of RFC 4648, and one with both signs; together they use all five ranges of the alphabet |
| `Base64.Encode` | libs/websocketpp/websocketpp/base64/base64.hpp:66-112 | the three-octet buffer loop, its tail and the padding give the encoding group by group |
| `Base64.Decode` | libs/websocketpp/websocketpp/base64/base64.hpp:131-174 | the four-character buffer loop gives the decoding of the leading base64 characters |
| `Base64.SextetsBack` | libs/websocketpp/websocketpp/base64/base64.hpp:147-149 | packing inverts splitting, also when missing characters were looked up as 255 |
| `Base64.RoundTrip` | libs/websocketpp/websocketpp/base64/base64.hpp:66-174 | base64_decode(base64_encode(x)) == x for every byte string (RFC 4648, section 4) |
| `Base64.EncodeThenDecode` | libs/websocketpp/websocketpp/base64/base64.hpp:66-174 | the same for the two loops as computed |
| `Positions.BlendSignals` | src/user/user.cpp:25-34 | the sum of the signals, clamped to [-1, 1] |
| `Positions.DesiredCases` | src/handlers/okcoin_futs_manage_positions.cpp:25-59 | there is a target, no trade or an error exactly on the stated conditions on userinfo, tick age and the two options |
| `Positions.DesiredExact` | src/handlers/okcoin_futs_manage_positions.cpp:35-54 | the target is less than one contract away from the signal's part of the configured maximum, never beyond it and never on the other side of zero; the maximum is leverage times equity in contracts of 100, or the contracts configured |
| `Positions.DesiredExamples` | src/handlers/okcoin_futs_manage_positions.cpp:35-54 | two contracts, and leverage 5 on 1.5 bitcoin at 1000: full, half and quarter signals |
| `Positions.DesiredBounded` | src/handlers/okcoin_futs_manage_positions.cpp:35-59 | the desired position never exceeds the configured maximum in size, has the signal's sign, and leverage is at most 20 |
| `Positions.PlanExact` | src/handlers/okcoin_futs_manage_positions.cpp:63-90 | closing and opening lead exactly to the target, on the side held and the side wanted, without detour |
| `Positions.CloseWithinSide` | src/handlers/okcoin_futs_manage_positions.cpp:72-83 | a close never asks for more contracts than the side holds |
| `Positions.FullFillsAllowed` | src/handlers/okcoin_futs_manage_positions.cpp:69-136 | both orders can be filled completely, a close because it asks for no more than is held |
| `Positions.Account.ManagePositions` | src/handlers/okcoin_futs_manage_positions.cpp:18-137 | the account after the two orders, a failed close ending the round; no order at all without fresh data and a valid setting |
| `Positions.RoundApproaches` | src/handlers/okcoin_futs_manage_positions.cpp:61-136 | for arbitrary partial fills the net position stays between start and target, comes closer by exactly the contracts filled, and full fills land on the target |
| `Positions.RoundSides` | src/handlers/okcoin_futs_manage_positions.cpp:69-136 | which side each fill changes: closes shrink the side held, opens grow the side wanted, and nothing is opened after a failed close |
| `Positions.RoundsApproach` | src/handlers/okcoin_futs_manage_positions.cpp:18-137 | over any number of rounds the distance falls by exactly the contracts traded |
| `Positions.OnTargetRests` | src/handlers/okcoin_futs_manage_positions.cpp:61-90 | on the target nothing is ordered any more |
| `Market.AccumulateInt` | src/trading/trading.cpp:14-17 | the fold that cuts to an int after every addition |
| `Market.IntSumError` | src/trading/trading.cpp:14-17 | each addition loses less than one |
| `Market.IntSumExact` | src/trading/trading.cpp:14-17 | on non-negative closes the accumulated sum is exactly the sum of the floors, undefined if and only if that exceeds INT_MAX |
| `Market.IntSumIntegral` | src/trading/trading.cpp:14-17 | on integral closes of any sign the sum is exact, and undefined if and only if a partial sum leaves the range of a 32-bit int |
| `Market.AverageExact` | src/trading/trading.cpp:10-22 | the average set is the sum of the floors over the period, and it is the mean if and only if every close is integral and the sum fits an int |
| `Market.HalfAveragesToZero` | src/trading/trading.cpp:14-17 | the average of the one close 0.5 is 0 |
| `Market.AverageBounds` | src/trading/trading.cpp:10-22 | so the average set lies in (mean - 1, mean] for non-negative closes in int range |
| `Market.WelfordStep` | src/trading/trading.cpp:58-63 | each turn keeps M2 equal to the squared deviations from the running mean |
| `Market.Welford` | src/trading/trading.cpp:53-66 | one pass gives the two-pass mean and sample variance, which is not negative |
| `Market.VarianceExample` | src/trading/trading.cpp:53-66 | the closes 1 and 3 have mean 2 and sample variance 2 |
| `Market.BandsOrdered` | src/trading/trading.cpp:34-44 | dn <= mavg <= up with bw = up - dn, and the half width squared is sd^2 times the variance |
| `Market.CalculateColumns` | src/trading/trading.cpp:10-51 | each indicator's columns, unset while the buffer is shorter than the period |
| `Market.BandsColumns` | src/trading/trading.cpp:31-51 | all four columns are set exactly from the period on, around the mean of the period's last closes, up above and dn below |
| `Market.BandsExample` | src/trading/trading.cpp:31-66 | the closes 0, 2 and 4 under two deviations: mean 2, bands at -2 and 6 |
| `Market.AverageColumns` | src/trading/trading.cpp:10-22 | the column of a moving average is set exactly from the period on, if its sum fits an int |
| `MktData.RunSpaced` | src/trading/mktdata.cpp:20-32 | every contiguous run is spaced by the period |
| `MktData.StepCases` | src/trading/mktdata.cpp:13-39 | a bar of a known time is ignored, a contiguous one extends the run, any other starts a new one; an accepted bar is kept as offered with indicators added |
| `MktData.ContiguousKept` | src/trading/mktdata.cpp:10-43 | offered bars that follow one another by the period are all kept, in order, whatever was there before |
| `MktData.WindowIsEnd` | src/trading/mktdata.cpp:32 | the window of a run is its last bars |
| `MktData.Window.Contains` | src/trading/mktdata.cpp:15-18 | the scan finds a known timestamp if and only if there is one |
| `MktData.Window.WriteIndicators` | src/trading/mktdata.cpp:37-39 | the nested loops annotate the new bar with every strategy's indicators |
| `MktData.Window.Accept` | src/trading/mktdata.cpp:32-39 | push_back and annotation leave the last bars of the run with the annotated bar |
| `MktData.Window.Add` | src/trading/mktdata.cpp:10-43 | after every offered bar the buffer is the end of the run of all offered bars |
| `MktData.AddAll` | src/trading/mktdata.cpp:10-43 | after any sequence of bars the window is the last min(capacity, run length) accepted bars, spaced by the period |
| `MktData.AcceptedColumns` | src/trading/mktdata.cpp:34-39 | every indicator of every strategy is calculated from the window that the accepted bar closes, and stored under its names |
| `MktData.AverageSet` | src/trading/mktdata.cpp:32-39 | an accepted bar carries each moving average, set if and only if the run has the period's bars (capacity permitting), and then exactly the sum of the floors of the period's closes over the period |
| `Strategies.SignalStrategy.ProcessTick` | src/trading/signalstrategy.cpp:16-31 | a hit stop sets the signal to 0 and clears the stop; nothing else changes |
| `Strategies.SignalStrategy.ProcessBar` | src/trading/signalstrategy.cpp:33-40 | the bar's low and high act as bid and ask |
| `Strategies.SignalStrategy.GoLong` | src/trading/signalstrategy.cpp:42-47 | the signal becomes weight times confidence with the given stop |
| `Strategies.SignalStrategy.GoShort` | src/trading/signalstrategy.cpp:49-54 | the signal becomes minus weight times confidence with the given stop |
| `Strategies.SmaCrossover.ApplyBar` | src/user/strategies/smacrossover.cpp:21-49 | one step of the state machine, std::map::at failures reported |
| `Strategies.SmaCrossover.ApplyTick` | src/user/strategies/smacrossover.cpp:51-53 | a tick only processes the stop |
| `Strategies.BBandsStrategy.ApplyBar` | src/user/strategies/bbands.cpp:20-48 | one step of the same machine driven by the bands |
| `Strategies.BBandsStrategy.ApplyTick` | src/user/strategies/bbands.cpp:50-52 | a tick only processes the stop |
| `Strategies.StepConsistent` | src/user/strategies/smacrossover.cpp:21-53 | every bar and tick keeps the flags exclusive, the entries alternating and stop, signal and flag in agreement |
| `Strategies.RunConsistent` | src/user/strategies/bbands.cpp:20-52 | so does every run of either strategy |
| `Strategies.FreshRun` | src/user/strategies/smacrossover.cpp:21-53 | from construction: flags never both true, entries alternate even across stop-outs, a stop exactly with a non-zero signal, signal in {-w, 0, w} on the flag's side |
| `Strategies.StopOnlyWhenHit` | src/trading/signalstrategy.cpp:16-31 | a stop-out happens only when the price went through the last entry's stop, and zeroes the signal |
| `Strategies.TickStopsExactly` | src/trading/signalstrategy.cpp:16-31 | a tick stops a trader out if and only if it goes through the stop of the last entry, long by the bid or short by the ask; then the signal is 0, the stop unset and one line logged, else nothing changes at all |
| `Strategies.BarStopsExactly` | src/trading/signalstrategy.cpp:33-40 | a bar does the same by its low and high before it enters anything, and the log shows both in this order |
| `Strategies.StopExamples` | src/trading/signalstrategy.cpp:16-31 | a short with its stop at 101 is stopped out by an ask of 103, a long one with its stop at 99 by a bid of 98 |
| `Strategies.FlatIsKept` | src/trading/signalstrategy.cpp:16-31 | a signal of 0 is never stopped out |
| `Strategies.SmaFlags` | src/user/strategies/smacrossover.cpp:31-48 | after a bar with both averages set the flags say which was above last; equal averages change nothing |
| `Strategies.SmaThrows` | src/user/strategies/smacrossover.cpp:25-29 | a lookup fails if and only if all indicators of the strategy are set and a column it reads is missing |
| `Strategies.BandsFlags` | src/user/strategies/bbands.cpp:30-47 | after a bar outside the bands the flags say on which side; inside them they stay |
| `Strategies.EntryStop` | src/user/strategies/smacrossover.cpp:29-46 | an entry opens on its flag's side with the stop one percent of the close away, on the losing side |
| `Strategies.SmaOnWindow` | src/user/strategies/smacrossover.cpp:9-27 | on bars accepted into the window no lookup fails, and nothing is entered before the run has the slow average's 150 bars |
| `Strategies.DriveSma` | src/user/strategies/smacrossover.cpp:9-53 | the object driven through any events satisfies the same |

## Left out

- JsonPatch.DiffPatchInvariant: documents are values, so pointers into a shared document and the aliasing of `result[ptr] = result.at(from_ptr)` in the copy operation (json.hpp:11971) are not modelled; the value is read first.
- JsonPatch.Patch: where C++ leaves the order of two evaluations open (the operands of `==` in the test operation), the member value is looked up first.
- JsonBinary.BinaryRoundTrip: the decoders here refuse CBOR indefinite lengths and half and single precision floats, which no encoder here writes; the only-if half for lengths of 2^32 and more in MessagePack speaks about decoders without them.
- JsonBinary.ByteReader.Next: CBOR indefinite lengths and half and single precision floats are refused; a float cut short is out_of_range here, where the code compares with a constant offset (json.hpp:7598) and reads past the end.
- JsonText.TextRoundTrip: float text is excluded (15 digits, json.hpp:2206); formatting and strtod are arbitrary functions.
- JsonText.Parser.ParseInternal: parser callbacks, and the line buffer that feeds the lexer, are not modelled; the text is one buffer followed by the end of the input.
- JsonLexer.ScanEscaped: the re2c automaton is modelled by the token grammar it accepts, not goto by goto.
- ThreadPool.StopRunsEverything: stated for one thread that calls resize and stop, as the comment at ctpl_stl.h:91 asks; functions that push from inside a worker count as new calls.
- ThreadPool.NeverStuck: progress is stated as an enabled step; that the step leads on is ThreadPool.ComesToRest and ThreadPool.StopReturns, where tasks are assumed to return; real time is not part of this model.
- ThreadPool.JoinNeverHangs: likewise one enabled step; ThreadPool.StopReturns adds the bound.
- ThreadPool.StopPromise: pools without threads are left out, whose queue stop(true) clears as the comment at ctpl_stl.h:165 says.
- ThreadPool: futures, exceptions thrown by tasks, and memory reclamation.
- Md5.State.Finish: md5_process (rounds, constants, byte order variants) is an arbitrary compression function.
- Masking.WordMaskExact: alignment of the word casts.
- Market.Welford: real arithmetic in place of doubles, so rounding, NaN and infinities are not modelled; the same holds for all prices, signals and indicator values.
- Market.AccumulateInt: a partial sum outside the int range is undefined in C++ and gives no value here.
- MktData.Window.Add: the call of each strategy's apply is modelled in Strategies; a capacity of 0 and indicator periods below 1 (2 for Bollinger bands) are not modelled.
- Positions.Account.ManagePositions: starts after a successful fetch of the position; order prices, logging and the conversion of doubles beyond the int range are not modelled; nothing else trades during a round.
- Positions.RoundsApproach: limit can return by timeout while its callback is still about to cancel the order (okcoin_futs_algorithms.cpp:41-51, 65), so an order could be filled during the next round, after that round has read the position; here every order is filled or dead when limit returns.
- Strategies.DriveSma: reads before the first `Atomic::set` return an arbitrary value, given to the constructor; locking is not modelled.
- Networking, curl, CSV, e-mail, logging, configuration files, clocks, the request building of the exchange, connection.hpp and endpoint.hpp: I/O and plumbing.
- C++ templates, iterators, allocators and move semantics of the JSON class; uri.hpp, close.hpp and error tables: easy members only.
