# Verified model of the configuration reader, run loop and flow control

This project models three parts of the program and proves what they promise:

- the TOML front end, `src/external/toml.c`: tokenizer, recursive descent, table
  builder, string unescaping, UTF-8 codec and the freeing of a document;
- the queue of deferred jobs, `src/runloop.c`;
- the tracking of modem lines, `src/drivers/vserial.c` with `src/modules/test.c`.

`dafny verify dfyconfig.toml` checks everything.

## How it is laid out

| files | what they hold |
|---|---|
| `Bytes`, `Bits`, `Utf8` | bytes and C strings; bitwise operators; the codec |
| `Lexer`, `Unescape`, `LineEndings`, `Strings`, `TripleQuotes`, `Multiline`, `Keys` | from characters to tokens, texts and keys |
| `Words`, `Quotes`, `Literals`, `Naming` | the same, told in bytes: which tokens there are, what they convert to and which key they name |
| `Store`, `Ownership` | the document as an arena of nodes, its invariant, and the order of freeing it |
| `Blocks`, `Memory` | heap blocks, `malloc` and `free`, and which blocks a document owns |
| `Grammar`, `Eval`, `Parser`, `Document` | the syntax, its effect on a document, and the parser as functions |
| `Recognizer`, `Faithful`, `Kinds`, `Represents`, `Promoting`, `Language` | the parser accepts exactly the grammar and builds exactly what it says |
| `Unambiguous`, `Paths`, `Meaning` | an input has one reading at most, and a document means a map from paths to values, told without nodes |
| `Stops`, `Faults`, `KeyErrors`, `Prefixes`, `SyntaxErrors`, `Leaving` | which error an input raises, on which line, and the document it leaves |
| `Dotted`, `Render` | where dots end a word; documents written out as bytes, and read back |
| `Preservation`, `Reachable`, `Headers`, `HeaderText` | what every reachable state keeps; what table headers mean |
| `Spinning`, `Guarding`, `Unclosed` | SKIP_NEWLINES as it is written and with a test for the end of file: where it never ends, and what the test changes |
| `Context` | the parser as it runs: a context updated in place, and every block it allocates and frees |
| `RunLoop` | the linked queue, drained while its jobs append to it |
| `FlowControl` | ports, modules and rigs over whole runs of the program |

Pointers to tables and arrays are indices into an arena, so that two of them can
be equal, as `ctx->curtab` and an entry of its parent are. A node is only ever
appended after the nodes that refer to it. The loops of the source are methods
with loops, proved against recursive functions; the theorems are about the
functions, and hold of the methods because they compute them. `longjmp` is an
error result. Keys are cut at their first NUL, as `strcmp` sees them. The input
is what `strlen` sees of the text.

## Where the code and its own comments part

- The UTF-8 decoder skips byte 1 (its index is incremented after the first read
  and before the second). The comments give continuation bytes at 1..n-1.
  `Utf8` has both layouts, one number apart: the round trip is proved for the
  commented one, and the written one is right exactly on ASCII.
- SKIP_NEWLINES does not test for the end of file, and never ends there inside an
  unclosed `[` or `{`: `x=[` is such an input. `Parser` models the loop both ways
  (`Env.guard`); without the test the error kind `Spins` marks that it never ends,
  which is proved to be so exactly there. With the test `toml_parse` terminates on
  every input, and such runs are the syntax errors of lines 781, 796, 897 and 912.
  Which inputs these are is proved in terms of the grammar. The methods of
  `Context` have the test; everything else holds of both.
- Escapes leave the quote count of `"""` strings alone. The exact condition under
  which a scanned `"""` token converts is that its closing quotes stand together
  and it names no rejected code.
- `run_once_prepare_started` is never set, so `uv_prepare_start` is called for
  every job; the model takes it to be idempotent, as libuv has it.

## Model

| member | source | states |
|---|---|---|
| `Utf8.Utf8ToUcs` | src/external/toml.c:54-136 | the decoder, with its tests, shifts and masks, returns the code and the bytes used exactly when the bytes are an encoding laid out as the written indices read it, and -1 otherwise |
| `Utf8.UcsToUtf8` | src/external/toml.c:144-219 | the encoder, with its shifts and masks, writes exactly the shortest encoding at the given offset, writes no other byte of the buffer, and returns -1 exactly for negative codes, codes above 0x7FFFFFFF, surrogates, 0xFFFE and 0xFFFF |
| `Utf8.DecodeEncode` | src/external/toml.c:54-219 | decoding (continuation bytes at 1..n-1) an accepted code's encoding followed by anything gives back the code and the length |
| `Utf8.DecodesExactly` | src/external/toml.c:54-136 | in the commented layout memory is decoded to a code in n bytes if and only if its first n bytes are laid out as that code: a first byte from the range for n, continuation bytes 0x80 to 0xBF, and the code folded from their bits |
| `Utf8.EncodesExactly` | src/external/toml.c:144-219 | a text is the encoding of a code if and only if the code is from 0 to 0x7FFFFFFF, no surrogate and neither 0xFFFE nor 0xFFFF, and the text is its layout of the shortest length |
| `Utf8.PrefixFree` | src/external/toml.c:144-219 | no accepted code's encoding is a prefix of another one's |
| `Utf8.ShortestForm` | src/external/toml.c:54-219 | any bytes that decode to an accepted code are at least as long as its encoding, and as short only if they are that encoding |
| `Utf8.StreamRoundTrip` | src/external/toml.c:54-219 | for every sequence of accepted codes, decoding the concatenated encodings one after the other gives the same codes and lengths (RFC 2279, section 2) |
| `Utf8.WrittenDecoderOnStreams` | src/external/toml.c:57-129 | the decoder with its indices as written recovers a stream if and only if every code is at most 0x7F; otherwise it fails |
| `Utf8.WrittenDecoderFails` | src/external/toml.c:72-79 | the two bytes of U+0080 are refused by the written indices and accepted by the commented layout |
| `Utf8.BytesOf` | src/external/toml.c:160-213 | for every accepted code, the expressions the encoder assigns for its length, joining a tag to shifted and masked bits of the code, are the bytes of its encoding |
| `Utf8.FirstByte` | src/external/toml.c:57-125 | the shifts and masks of a first byte tell the announced length, and the payload bits, that its range does |
| `Utf8.NextByte` | src/external/toml.c:74-132 | a byte is refused exactly when it is no continuation byte, and joining it to the bits read before multiplies them by 64 and adds its low six bits |
| `Bits.ShrDivides` | src/external/toml.c:63-213 | `>>` divides by the power of two, for all non-negative numbers |
| `Bits.MaskIsRemainder` | src/external/toml.c:74-213 | `&` with a mask of low bits takes the remainder |
| `Bits.ApartAdds` | src/external/toml.c:76-213 | joining (bitwise or) a multiple of a power of two and a number below it adds them |
| `Lexer.SkipBlanks` | src/external/toml.c:1520-1541 | the loop over blanks and comments ends at the first byte that is neither |
| `Lexer.ScanMultiLine` | src/external/toml.c:1422-1451 | the `"""` loop accepts and ends exactly where its automaton does |
| `Lexer.ScanSingleLine` | src/external/toml.c:1463-1490 | the `"` loop accepts and ends exactly where its automaton does |
| `Lexer.ScanStringToken` | src/external/toml.c:1409-1504 | `scan_string` in all five branches: the token's end, or a syntax error |
| `Lexer.NextToken` | src/external/toml.c:1507-1548 | `next_token`: the next token with its line, the invented NEWLINE at the end, or a syntax error with its line |
| `Lexer.NextOk` | src/external/toml.c:1389-1548 | every token delivered has the length and the bytes its kind asks for, and the position never goes back |
| `Lexer.NextTiles` | src/external/toml.c:1507-1548 | one step: only blanks and comments are passed over, and the line is one plus the newlines before, for tokens and for errors |
| `Lexer.TokensTile` | src/external/toml.c:1389-1548 | in every run, whatever the modes: tokens lie inside the input in order, gaps hold only blanks and comments, and lines count the newlines before, those inside multi-line strings included |
| `Lexer.EofIsFixpoint` | src/external/toml.c:1401-1406 | at the end of file `next_token` delivers the same token again |
| `Lexer.UnguardedSkipSpins` | src/external/toml.c:759 | as written, SKIP_NEWLINES at the end of file sees the same NEWLINE after any number of steps |
| `Lexer.StuckTokens` | src/external/toml.c:1493-1503 | a token has length 0 if and only if it is the end of file or a STRING on a byte outside the bare set; it is then delivered for ever, and any other token is followed by a later one |
| `Words.BareIsMaximal` | src/external/toml.c:1493-1503 | a bare token is as long as it can be: it holds only bytes of [A-Za-z0-9+_.:-], no `.` where dots are special, and ends at the end of the input or at a byte it cannot hold |
| `Words.WordDelivered` | src/external/toml.c:1493-1546 | any word over that set, at the start of a token and followed by the end or by a byte it cannot go on with, is delivered by `next_token` as exactly that word |
| `Words.DeliveredIsWord` | src/external/toml.c:1493-1546 | conversely a STRING that begins with no quote is such a word, or empty |
| `Words.MarkDelivered` | src/external/toml.c:1507-1546 | after blanks each of `\n` `,` `=` `[` `]` `{` `}`, and `.` where it is special, is a token of its own kind |
| `Words.CommentPassed` | src/external/toml.c:1525-1531 | a comment is passed over, up to the newline that ends it |
| `Words.EndDelivered` | src/external/toml.c:1401-1406 | after blanks or a comment up to the end of the input the end of file is delivered |
| `Unescape.NormalizeString` | src/external/toml.c:377-480 | the loop with its growing buffer computes the recursive unescape function, keeps room for every write, caps the text with NUL and never uses more than the source's length for it; the buffer is allocated at the first growth, is the caller's at success, and is freed at every complaint |
| `Unescape.OneRound` | src/external/toml.c:400-474 | one round writes at most six bytes, all inside the buffer, and keeps what was written before; a trailing backslash, a rejected code and an unknown escape free the buffer |
| `Unescape.HexDigits` | src/external/toml.c:434-450 | the loop over hex digits reads the code, or reports a missing or wrong digit and frees the buffer |
| `Unescape.NeverLonger` | src/external/toml.c:377-480 | unescaped text is never longer than its source |
| `Strings.ToString` | src/external/toml.c:1844-1903 | `toml_rtos`: the text of a raw string token, in a block of the caller's, or failure with no block left behind |
| `Strings.ScannerAndUnescaperAgree` | src/external/toml.c:1463-1490 | for every single-line `"` token: it is made of whole units, `toml_rtos` fails if and only if one names a code the encoder rejects, and no other complaint is reachable |
| `Strings.QuotedScans` | src/external/toml.c:1463-1490 | any units between double quotes, followed by anything (not a quote if there are none), scan as exactly that token |
| `Strings.CodesThroughTheConfigFile` | src/external/toml.c:1844-1903 | codes written as escapes between quotes in any input scan as one token, convert to their concatenated encodings, and decode to the same codes |
| `Strings.TripleQuotesDisagree` | src/external/toml.c:1426-1443 | a `"""` token the scanner accepts and the conversion refuses |
| `TripleQuotes.TripleQuotesAgree` | src/external/toml.c:1422-1451 | a scanned `"""` token converts if and only if its closing quotes stand together (the automaton that resets its count at escapes ends there too) and no \u or \U escape in it names a rejected code; with clean quotes a rejected code is the only complaint |
| `Multiline.TripleQuotesMean` | src/external/toml.c:1844-1903 | a scanned `"""` token converts to a given text if and only if its closing quotes stand together and it is made of units and line-ending backslashes, each with all its white space, that stand for this text |
| `Quotes.MultiScanned` | src/external/toml.c:1422-1451 | three double quotes scan to a given end if and only if units from there to it close the string: the third quote of the count ends it, and escapes leave the count alone |
| `Literals.SingleQuoted` | src/external/toml.c:1862-1873 | any text without a quote or newline, between single quotes in any input, scans as exactly that token and converts to itself, byte for byte |
| `Literals.SingleScanned` | src/external/toml.c:1454-1461 | conversely every scanned single-quoted token is of that form and so converts |
| `Literals.TripleQuoted` | src/external/toml.c:1412-1420 | a text between triple single quotes, in which the closing ones are the first, scans as that token |
| `Literals.TripleScanned` | src/external/toml.c:1412-1420 | conversely every scanned token of triple single quotes is of that form |
| `Literals.TripleConverts` | src/external/toml.c:1849-1861 | every such token converts: its inside, without a newline right after the quotes, is made of bytes and line-ending backslashes with the white space around them, and the text is those bytes |
| `TripleQuotes.StrictEnd` | src/external/toml.c:1443-1450 | a scan whose count is reset by escapes ends on three quotes in a row |
| `LineEndings.KillLineEndingBackslash` | src/external/toml.c:1821-1841 | the two in-place rounds compute the single left-to-right pass, and end |
| `LineEndings.KillRound` | src/external/toml.c:1827-1831 | one round of finding and moving down computes one pass for its line ending, NUL included |
| `LineEndings.TwoRoundsAreOnePass` | src/external/toml.c:1825-1838 | first LF, then CR LF, is both in one pass |
| `LineEndings.PassLeavesNoHit` | src/external/toml.c:1821-1841 | no backslash before a line ending is left |
| `LineEndings.PassIsIdempotent` | src/external/toml.c:1821-1841 | doing it twice is doing it once |
| `Keys.NormalizeKey` | src/external/toml.c:484-541 | `normalize_key` on a token in its place in the input: the key its text names (cut at the first NUL), in a block of the caller's, or why it names none, with every block it allocated freed |
| `Keys.BareKey` | src/external/toml.c:525-540 | the loop over a bare key accepts the key, or refuses it, as its text alone says |
| `Keys.UnescapeShift` | src/external/toml.c:507-515 | unescaping a slice of the input in place is unescaping its text |
| `Naming.BareNames` | src/external/toml.c:525-540 | a non-empty text that begins with no quote names itself if it is over [A-Za-z0-9_-], and names nothing otherwise |
| `Naming.SingleNames` | src/external/toml.c:500-523 | a single-quoted text names itself up to its first NUL, unless there is a newline before that, and then nothing |
| `Naming.TripleSingleNames` | src/external/toml.c:500-523 | so does a text between triple single quotes |
| `Naming.DoubleNames` | src/external/toml.c:500-523 | units between double quotes name what they stand for, cut the same way, or are refused for the escape that stands for nothing |
| `Naming.TripleDoubleNames` | src/external/toml.c:500-523 | so do units between triple double quotes |
| `Naming.BareKeysDiffer` | src/external/toml.c:484-541 | two bare keys are the same key only if they are the same text |
| `Naming.OneKeyThreeWays` | src/external/toml.c:484-541 | the bare, the single-quoted and the double-quoted spelling of a text name one key |
| `Store.KeysEnumerateOnce` | src/external/toml.c:1551-1562 | in every reachable document `toml_key_in` yields no key twice, and yields a key if and only if looking it up finds it |
| `Store.KeyInParts` | src/external/toml.c:1551-1562 | the keys come in this order: key-values, arrays, tables |
| `Store.AddValInv` | src/external/toml.c:585-622 | adding a key-value under a new key keeps the document in order: distinct keys, references to later nodes of the right sort, a tree |
| `Store.AddTabInv` | src/external/toml.c:647-666 | so does adding a table |
| `Store.AddArrInv` | src/external/toml.c:694-713 | so does adding an array |
| `Store.PromoteInv` | src/external/toml.c:637-642 | so does making an implicit table explicit |
| `Store.PushValInv` | src/external/toml.c:845-864 | so does appending a value to an array of values |
| `Store.PushArrInv` | src/external/toml.c:718-735 | so does appending an array to an array of arrays |
| `Store.PushTabInv` | src/external/toml.c:739-756 | so does appending a table to an array of tables |
| `Ownership.OneOwner` | src/external/toml.c:583-756 | in a document that is a tree each node but the root has exactly one owner, which refers to it once |
| `Ownership.FreedOnce` | src/external/toml.c:1336-1380 | freeing a node frees each of its descendants once, and nothing else |
| `Ownership.FreeIsExact` | src/external/toml.c:1362-1386 | `toml_free` of any reachable document frees every node exactly once |
| `Ownership.FreedFirst` | src/external/toml.c:1336-1380 | a node is freed after everything it refers to |
| `Memory.OwnedIsReached` | src/external/toml.c:583-756 | in a reachable document the blocks its nodes own are exactly those reached from the root |
| `Memory.KidsDistinct` | src/external/toml.c:1347-1377 | a node refers to each of its children once, so that freeing them one after the other meets no block twice |
| `Memory.AddTabBlocks` | src/external/toml.c:647-666 | a new table adds exactly its struct, its key and, if it is the first, the vector of tables |
| `Memory.AddValBlocks` | src/external/toml.c:600-622 | a new key-value adds exactly its struct, its key, its value and, if it is the first, the vector of key-values |
| `Memory.PushValBlocks` | src/external/toml.c:845-856 | a new value adds exactly its string and, if it is the first, the vector of elements |
| `Parser.SkipNewlines` | src/external/toml.c:759 | SKIP_NEWLINES with the test for the end of file ends on every input, at a token that is no NEWLINE or at the end of file; without the test, the end of file is marked |
| `Parser.ParseElems` | src/external/toml.c:820-917 | with that test `parse_array` terminates on every input, by the bytes left (zero-length tokens included), moves forward, and only extends the document |
| `Parser.ParseFields` | src/external/toml.c:770-801 | so does `parse_table` |
| `Parser.ParseKeyval` | src/external/toml.c:926-978 | so does `parse_keyval` |
| `Recognizer.ElemsParsed` | src/external/toml.c:820-917 | elements whose printed tokens are read (any newlines, optional trailing comma) and which can be built are parsed to what they build, consuming exactly those tokens |
| `Recognizer.FieldsParsed` | src/external/toml.c:770-801 | so are the key-values of an inline table |
| `Recognizer.FieldParsed` | src/external/toml.c:926-978 | so is a key-value |
| `Recognizer.ElemsSpelled` | src/external/toml.c:820-917 | conversely whatever `parse_array` accepts is spelled by the grammar, and builds the same document |
| `Recognizer.FieldsSpelled` | src/external/toml.c:770-801 | so is whatever `parse_table` accepts |
| `Recognizer.FieldSpelled` | src/external/toml.c:926-978 | so is whatever `parse_keyval` accepts |
| `Preservation.ElemsKept` | src/external/toml.c:820-917 | parsing an array keeps the document in order, at errors too, and its value arrays uniform in type when it succeeds |
| `Preservation.FieldsKept` | src/external/toml.c:770-801 | so does parsing an inline table |
| `Preservation.KeyvalKept` | src/external/toml.c:926-978 | so does parsing a key-value |
| `Preservation.AppendScalarInv` | src/external/toml.c:831-868 | appending a scalar keeps the document in order, and uniform unless it is refused |
| `Faithful.ElemsSucceed` | src/external/toml.c:820-917 | elements can be built into an array if and only if they are well-formed, of one class, and of the class the array has |
| `Kinds.TypesAlike` | src/external/toml.c:803-816 | `valtype` gives two raw values one type if and only if both are quoted, or both are `true` or `false`, or the same conversion is the first to take both (integer, then double, then the kinds of time stamps), or none takes either |
| `Kinds.UniformExactly` | src/external/toml.c:831-899 | elements are of one class if and only if each can stand beside the first: alike scalars, arrays, or tables |
| `Kinds.FirstOddElement` | src/external/toml.c:831-899 | in a fresh array the first element that cannot stand beside those before it is a syntax error on the line where it begins, whatever follows; a scalar among scalars is stored before it is refused |
| `Kinds.ScalarArrayExactly` | src/external/toml.c:820-917 | the elements of a fresh array, all scalars, are parsed to just those if and only if all are alike; otherwise there is a syntax error on the line of the first that is not |
| `Promoting.FieldsFit` | src/external/toml.c:625-801 | in any document in order, key-values can be built into any table if and only if their keys are usable and pairwise distinct, and each is new to the table with a well-formed value, or names an implicit table of it and has an inline table that fits there on the same terms |
| `Promoting.FieldsParseWhenTheyFit` | src/external/toml.c:770-801 | `parse_table`, into any table of a document in order, succeeds if and only if its tokens spell key-values that fit |
| `Promoting.FitsAfter` | src/external/toml.c:625-645 | after one key-value is entered, what fits under other keys is as before, and nothing fits under its own key again |
| `Represents.ArrayRoundTrip` | src/external/toml.c:820-917 | round trip: any well-formed array, uniform in class, is parsed into a fresh array to exactly its elements, in the right arms, consuming exactly its tokens |
| `Represents.ArrayParsesOnlyIf` | src/external/toml.c:820-917 | conversely a fresh array is parsed only from the tokens of a well-formed, uniform one |
| `Represents.TableRoundTrip` | src/external/toml.c:770-801 | round trip: any inline table with usable, distinct keys is parsed into a fresh table to exactly its entries, consuming exactly its tokens |
| `Represents.TableParsesOnlyIf` | src/external/toml.c:770-801 | conversely a fresh table is parsed only from the tokens of such a table |
| `Document.Walk` | src/external/toml.c:1041-1108 | `walk_tabpath` only extends the document, and ends at a table or at a key of the path |
| `Document.FillPath` | src/external/toml.c:991-1035 | `fill_tabpath` terminates, with 1 to 10 keys and a token for each, at `]`, or fails |
| `Document.Statement` | src/external/toml.c:1244-1269 | each round of the main loop moves forward and only extends the document |
| `Document.Statements` | src/external/toml.c:1244-1269 | monotone growth over whole runs: completed entries keep their keys, raw values and places, `implicit` only goes from 1 to 0, and an array's kind is fixed once |
| `Document.Parse` | src/external/toml.c:1202-1274 | with the test in SKIP_NEWLINES `toml_parse` terminates on every input, in a state whose root and current table are tables |
| `Headers.WalkMakesPrefixes` | src/external/toml.c:1041-1108 | in a document of tables `walk_tabpath` makes every missing prefix of the path, implicit, and changes nothing else |
| `Document.AnonymousElement` | src/external/toml.c:1165-1175 | `[[p]]` appends a new, empty, explicit table with the key `__anon__`, which is then the last of its array |
| `Headers.HeaderStep` | src/external/toml.c:1112-1138 | one more header succeeds if and only if its path was not named before, and the document is then the closure of one header more |
| `Headers.HeadersMean` | src/external/toml.c:991-1197 | a sequence of headers succeeds if and only if the paths are pairwise distinct; the document is then exactly their prefix closure, implicit exactly where no header names the path |
| `Headers.HeaderOrderIsIrrelevant` | src/external/toml.c:991-1197 | headers in any other order succeed too, and make the same tables, implicit in the same places |
| `HeaderText.HeadersParse` | src/external/toml.c:991-1197 | from the text: a document of headers (1 to 10 usable keys each) and blank lines is accepted if and only if the paths are pairwise distinct, and is then their prefix closure |
| `HeaderText.HeaderRefused` | src/external/toml.c:1134-1138 | a header whose table cannot be made is an error |
| `HeaderText.TablesHaveOnePath` | src/external/toml.c:1041-1108 | in every document the parser leaves that holds tables only, a table is reached from the root by one path |
| `Reachable.ParseKeepsDocument` | src/external/toml.c:1202-1274 | for every input, at success and at any error: the document is a tree with distinct keys in which every element is in the arm its array names, and freeing the root frees every node once; after success every value array is uniform |
| `Reachable.WalkKept` | src/external/toml.c:1041-1108 | walking a path keeps the document in order |
| `Reachable.PathsCrossLastElement` | src/external/toml.c:1057-1068 | a path crossing an array of tables goes on in its last table; the error for one without elements is never raised |
| `Reachable.StuckTokensFail` | src/external/toml.c:1493-1503 | a token of length 0 that is not the end of file raises an error where it stands as a statement, as a key, in the path of a header, as a key of an inline table, or as an element of an array |
| `Reachable.StuckValueFails` | src/external/toml.c:944-957 | as the value of a key such a token is entered once, as an empty value; after it an array, a table and the top level all raise an error |
| `Reachable.StuckStatementFails` | src/external/toml.c:1251-1259 | a key, `=` and such a token at the top level are an error |
| `Spinning.WrittenLoopEnds` | src/external/toml.c:759 | the loop as written ends at a token, or in a lexical error, exactly where the model says |
| `Spinning.SpinsBeforeEof` | src/external/toml.c:759 | the loop as written never ends if and only if it stands before any number of newlines and then the end of file |
| `Spinning.SpinsAreMarked` | src/external/toml.c:759 | the mark stands exactly there; with the test the loop stops at that end of file instead, and is as before everywhere else |
| `Guarding.ElemsMended` | src/external/toml.c:820-917 | in `parse_array` the test turns spinning into the syntax error of line 897, with the same document, and changes nothing else |
| `Guarding.ElemsTailMended` | src/external/toml.c:901-914 | after an element, into that of line 912 |
| `Guarding.FieldsMended` | src/external/toml.c:770-801 | in `parse_table`, into that of line 781 |
| `Guarding.FieldsTailMended` | src/external/toml.c:785-798 | after a key-value, into that of line 796 |
| `Guarding.ParseMended` | src/external/toml.c:1202-1274 | `toml_parse` with the test is `toml_parse` without it, except that spinning is a syntax error on the line of the end of file, with the same document |
| `Guarding.GuardedParseEnds` | src/external/toml.c:1202-1274 | with the test every run ends in a document or a real error |
| `Guarding.OpenBracketSpins` | src/external/toml.c:1202-1274 | as written `toml_parse` never ends on the three bytes `x=[`; with the test they are a syntax error on line 1 |
| `Unclosed.SpinsExactlyWhenCutOff` | src/external/toml.c:1202-1274 | as written `toml_parse` never ends if and only if the input spells statements that execute and then a key whose array or inline table evaluates so far and is cut off, where newlines may stand, by the end of file |
| `Stops.ElemsStop` | src/external/toml.c:820-917 | an array that is built so far, up to a token with something wrong, makes `parse_array` fail with that error and that document |
| `Stops.ElemsHalt` | src/external/toml.c:820-917 | conversely wherever `parse_array` fails there is so much of an array, built so far, and that token; at the end of file this is where it spins as written |
| `Stops.FieldsStop` | src/external/toml.c:770-801 | so does an inline table `parse_table` |
| `Stops.FieldsHalt` | src/external/toml.c:770-801 | and conversely |
| `Faults.ParseFaults` | src/external/toml.c:1202-1274 | `toml_parse` raises an error if and only if its first token is none, or the input spells statements that execute and then has this fault in the next one; and leaves the document built up to there |
| `KeyErrors.KeyErrorsExactly` | src/external/toml.c:585-714 | KeyExists, a bad key and a bad escape in a key are raised if and only if the input is built up to a key, of an entry with its value or in the path of a header, whose table has an entry under it (or a value is in the way of the path), or that names nothing; on the line of that key, with the document built before it |
| `KeyErrors.SelectExactly` | src/external/toml.c:1041-1138 | a header is refused at one of its keys exactly where walking to that key comes to a value, or, for the last key of `[p]`, to anything but a table made on the way |
| `SyntaxErrors.SyntaxErrorsMean` | src/external/toml.c:1202-1274 | for every input that raises a syntax error: its line is that of a string that cannot be scanned, of a token with which no document goes on, of a path no document has or of more than ten keys, of an element that does not go into its array, or of the key of `[[p]]` over something else |
| `Prefixes.RunDoc` | src/external/toml.c:1202-1274 | an automaton with a stack of what is due follows the tokens of every document of the grammar |
| `Prefixes.StuckIsDead` | src/external/toml.c:1202-1274 | so a token it cannot follow begins no continuation of any document |
| `Leaving.LeavesGrammar` | src/external/toml.c:1244-1269 | an input that is built up to a token with which no document goes on (between statements, inside a value or after one) is a syntax error on the line of that token |
| `Leaving.LeavesAfterKey` | src/external/toml.c:926-978 | so is a token after a key that is not followed by it in any document |
| `Leaving.LeavesAfterEqual` | src/external/toml.c:926-978 | so is a token with which no value begins |
| `Leaving.LeavesPath` | src/external/toml.c:991-1035 | a token with which the path of a header does not go on, or an eleventh key, is a syntax error on the line where the path begins |
| `Leaving.LeavesPathKey` | src/external/toml.c:991-1035 | so is a token other than a dot or `]` after a key of it |
| `Leaving.LeavesHeader` | src/external/toml.c:1180-1197 | once the table of a header is made, a token other than the second `]` of `[[p]]` or the newline after the header is a syntax error on its line |
| `Language.ParseAccepts` | src/external/toml.c:1202-1274 | every document whose tokens spell statements that execute is accepted, and parsed to what they execute to |
| `Language.ParseAcceptsOnly` | src/external/toml.c:1202-1274 | nothing else is accepted |
| `Unambiguous.SpelledOnce` | src/external/toml.c:1202-1274 | the tokens of an input spell at most one sequence of statements |
| `Unambiguous.ParseDecides` | src/external/toml.c:1202-1274 | an input that spells statements is accepted if and only if these execute, and the document is the one they build |
| `Meaning.ParseMeans` | src/external/toml.c:1202-1274 | an input that spells statements is accepted if and only if these have a meaning, a map from paths of keys and indices to values, tables and arrays; every path of the returned document then leads to what the map says, and no other path leads anywhere |
| `Meaning.AcceptsWhatMeans` | src/external/toml.c:1202-1274 | an input is accepted if and only if it spells statements that have a meaning |
| `Meaning.FieldMeans` | src/external/toml.c:770-978 | a key-value with a value of any depth is entered if and only if the map takes it, and the document then shows that map |
| `Meaning.WalkMeans` | src/external/toml.c:1041-1108 | walking a path through tables and the last tables of arrays of tables makes, as implicit, what the map lacks, and is blocked exactly where the map says |
| `Meaning.HeaderMeans` | src/external/toml.c:1112-1197 | `[p]` and `[[p]]` make, promote or append the table the map says, or are refused as it says |
| `Paths.OneWay` | src/external/toml.c:565-756 | in a document in order one path of keys and indices leads to a node |
| `Paths.ShowsGained` | src/external/toml.c:585-756 | when a node gains an entry, exactly one more path leads somewhere |
| `Language.StatementTaken` | src/external/toml.c:1244-1269 | a statement that is read and executes is one round of the loop |
| `Language.StatementGiven` | src/external/toml.c:1244-1269 | each successful round of the loop reads a statement that executes to the same state |
| `Dotted.StatementWord` | src/external/toml.c:1244-1269 | the bare word at the start of a statement runs over dots after a key-value, and ends at a dot at the start of the text and after a blank line |
| `Dotted.ValueWord` | src/external/toml.c:926-978 | a bare value runs over dots |
| `Dotted.PathWord` | src/external/toml.c:991-1035 | a bare key in the path of a header ends at a dot |
| `Render.StringMoves` | src/external/toml.c:1409-1504 | the text of a string token scans as that token wherever it stands with a space after it |
| `Render.TextRoundTrip` | src/external/toml.c:1202-1274 | round trip from bytes: any statements made of texts the tokenizer delivers whole, written out, are parsed to what executing them makes |
| `Render.ValueRoundTrip` | src/external/toml.c:926-978 | a usable key and any well-formed value, written out on a line, parse to a document that holds exactly that value under that key |
| `Context.Context.constructor` | src/external/toml.c:1206-1233 | the initial context: an artificial newline, an empty root, and that root the only live block |
| `Context.Context.NextToken` | src/external/toml.c:1507-1548 | the context's token moves on as `next_token` says, or the error is returned and it stays |
| `Context.Context.SkipNewlineTokens` | src/external/toml.c:759 | the loop, with the test for the end of file added, ends where the function says |
| `Context.Context.CheckKeyIn` | src/external/toml.c:548-581 | the three loops of `check_key` find the first entry under the key: key-values, then arrays, then tables |
| `Context.Context.TakeKey` | src/external/toml.c:484-541 | a key is read into one block more, or an error is found with none more |
| `Context.Context.LinkTable` | src/external/toml.c:647-666 | a table is linked in: its vector grows, its struct is allocated, the key becomes its own |
| `Context.Context.LinkKeyval` | src/external/toml.c:600-622 | so is a key-value, with a copy of the value |
| `Context.Context.ClearPath` | src/external/toml.c:996-1002 | every key of `tpath` is freed, once |
| `Context.Context.PushKey` | src/external/toml.c:1015-1017 | a key is read, and becomes the last of `tpath` |
| `Context.Context.CreateKeyvalInTable` | src/external/toml.c:585-622 | the entry is made, or the error raised, exactly as specified; on every exit the live blocks are exactly those of the document and of `tpath`, a key that is not used being freed |
| `Context.Context.CreateKeytableInTable` | src/external/toml.c:625-667 | so for tables, with the promotion of implicit ones, where the new key and not the table's own is freed |
| `Context.Context.CreateKeyarrayInTable` | src/external/toml.c:672-714 | so for arrays |
| `Context.Context.CreateArrayInArray` | src/external/toml.c:870-881 | so for arrays in arrays, with the check of the kind |
| `Context.Context.CreateTableInArray` | src/external/toml.c:883-894 | so for tables in arrays |
| `Context.Context.AppendValue` | src/external/toml.c:831-868 | so for values in arrays, with the check of the type after the value is stored |
| `Context.Context.ParseArray` | src/external/toml.c:820-917 | `parse_array` with its loop, updating the context in place, ends as the recursive specification says; on every exit the live blocks are exactly those of the document and of `tpath` |
| `Context.Context.ParseElement` | src/external/toml.c:830-899 | one element |
| `Context.Context.ParseTable` | src/external/toml.c:770-801 | `parse_table` likewise |
| `Context.Context.ParseKeyval` | src/external/toml.c:926-978 | `parse_keyval` likewise |
| `Context.Context.FillTabpath` | src/external/toml.c:991-1035 | `fill_tabpath`: the old path is freed key by key, the new one is read, and on every exit `tpath` owns exactly its keys |
| `Context.Context.WalkTabpath` | src/external/toml.c:1041-1108 | `walk_tabpath` moves the current table and makes implicit ones |
| `Context.Context.AppendElementOf` | src/external/toml.c:1139-1175 | `[[x.y.z]]` in x.y: the array is made or found, and gains a table |
| `Context.Context.EnterTable` | src/external/toml.c:1128-1178 | the last key leaves `tpath` and is freed, the path is walked, and the table is made |
| `Context.Context.ParseSelect` | src/external/toml.c:1112-1197 | `parse_select` ends as specified |
| `Context.Context.ParseStatement` | src/external/toml.c:1244-1269 | one round of the main loop |
| `Context.Context.TomlParse` | src/external/toml.c:1202-1274 | `toml_parse`: on success the live blocks are exactly those reached from the root; at every error no block is live, and the nodes have been freed each once, in the order of `toml_free` |
| `Context.Context.CleanUp` | src/external/toml.c:1235-1241 | the keys of `tpath` are freed one by one whichever way the parse ends, and after an error everything reached from the root |
| `Context.Context.XFreeTab` | src/external/toml.c:1362-1380 | `xfree_tab` frees exactly the blocks reached from the table, each while it is live: its key, its key-values, its arrays, its tables, their vectors, and itself |
| `Context.Context.XFreeArr` | src/external/toml.c:1336-1359 | `xfree_arr` frees exactly the blocks reached from the array: its key, its elements by kind, their vector, and itself |
| `Context.Context.XFreeKval` | src/external/toml.c:1326-1332 | the key, the value and the struct of a key-value |
| `Context.Context.FreeKeyvals` | src/external/toml.c:1370-1371 | the loop over the key-values of a table, and their vector |
| `Context.Context.FreeValues` | src/external/toml.c:1342-1345 | the loop over the values of an array, and their vector |
| `Context.Context.FreeByKind` | src/external/toml.c:1341-1356 | the switch on the kind of an array: values, arrays or tables, or nothing |
| `Context.Context.FreeLists` | src/external/toml.c:1373-1377 | the loops over the arrays and the tables of a table, and their vectors |
| `Context.Context.TomlFree` | src/external/toml.c:1383-1386 | freeing a parsed document leaves no block, and frees every node once |
| `RunLoop.FifoIsLevelOrder` | src/runloop.c:162-176 | running jobs first in, first out, with each job's jobs queued at the end, is breadth-first order of the forest |
| `RunLoop.EachRunsOnce` | src/runloop.c:166-176 | every job of the forest is run as often as it occurs in it, and no other is |
| `RunLoop.QueuedInOrder` | src/runloop.c:162-216 | a run is that order if and only if it is the queue followed by what the run's own jobs queue, in order |
| `RunLoop.RunLoop.constructor` | src/runloop.c:53-68 | the queue starts empty |
| `RunLoop.RunLoop.RunLater` | src/runloop.c:184-216 | the job joins the end of the queue, during a drain too, through a tail entry that is still live; the head stays; the prepare handle is active afterwards |
| `RunLoop.RunLoop.Append` | src/runloop.c:203-209 | linking after the tail, or as the first entry, keeps the chain |
| `RunLoop.RunLoop.Call` | src/runloop.c:167 | a job's jobs are queued behind it while the head is stale |
| `RunLoop.RunLoop.Turn` | src/runloop.c:166-176 | one turn: the entry is read after its job has run and before it is freed, and only while it is live |
| `RunLoop.RunLoop.RunOncePrepare` | src/runloop.c:162-182 | the drain runs the forest of the pending jobs breadth first, ends, frees every entry once and leaves the queue empty and the handle stopped |
| `RunLoop.RunLoop.LoopTurn` | src/runloop.c:162-216 | no lost wakeup: after one turn of the event loop no job is pending, whatever was queued before it |
| `FlowControl.ChangesNeverRepeat` | src/drivers/vserial.c:95-100 | reported readings never repeat and end with the latest |
| `FlowControl.EarlyReportsRepeat` | src/drivers/vserial.c:283-286 | if the lines changed before the first report, reports never repeat if and only if every such reading was the first one again |
| `FlowControl.Station.UpdateFlowControl` | src/modules/test.c:41-69 | the PTT command is the RTS line; `user` and the rig must be set |
| `FlowControl.Station.DeliverFcChanged` | src/drivers/vserial.c:67-77 | with a callback the module is told the modem bits and commands PTT; without one the report is missed |
| `FlowControl.Station.HandleMset` | src/drivers/vserial.c:86-101 | unchanged bits do nothing, changed ones are stored and reported; the rig keeps following |
| `FlowControl.Station.HandleEarly` | src/drivers/vserial.c:86-101 | a port whose lines change before its first report: what is reported, and PTT is right in the end |
| `FlowControl.Host.constructor` | src/main.c:134-138 | a job for each section |
| `FlowControl.Host.VserialInit` | src/drivers/vserial.c:265-287 | the port's bits are read and the first report is queued |
| `FlowControl.Host.StartModule` | src/modules/test.c:76-114 | driver, callback, user and rig in this order; the queued report has not run |
| `FlowControl.Host.Perform` | src/runloop.c:166-176 | each job does what the schedule says of it |
| `FlowControl.Host.Drain` | src/runloop.c:162-182 | all modules start before any port reports; afterwards every rig follows its port, or, if a rig could not be opened, the program has ended with no rig told anything |
| `FlowControl.Host.Poll` | src/drivers/vserial.c:103-156 | a poll event: fatal exactly for the flags and reads the source refuses, a reading of the bits exactly for MSET |
| `FlowControl.Host.HandleEvents` | src/drivers/vserial.c:120-156 | after any events each station has read exactly its own port's changes, up to the first fatal event |
| `FlowControl.RunProgram` | src/drivers/vserial.c:67-101 | whole runs: no report before callback, user and rig are set, none missed, PTT always the RTS bit of the latest reading, and successive reports always differ |
| `FlowControl.ScheduleIsLevelOrder` | src/runloop.c:162-216 | the schedule is the order in which the run loop runs the jobs `main` queues |

## Left out

- Foreign conversions: `toml_rtoi`, `toml_rtod` and `toml_rtots` are arbitrary functions from raw text to a verdict (`Eval.Foreign`); `valtype` is modelled over them, with `toml_rtob` written out.
- Error messages: only the kind and the line of an error are modelled, not its text. Internal errors carry no configuration line in the source; the model gives them the line of the key at hand.
- Allocation failure: allocation is assumed to succeed, and `realloc` growth of the entry vectors is one block each. Sizes and line numbers do not overflow.
- `toml_parse_file`, `configfile_load`, logging, autodie and the exit codes of `main`: file input, formatting and process exit.
- Look-ups by index (`toml_raw_at` and its like) and `toml_raw_in`, `toml_array_in`, `toml_table_in`: single loops over one list, which the look-up by key covers.
- `driver_get_info`, `module_get_info` and the registries: their search loops never advance.
- Timers, poll handles, `runloop_cleanup`, driver and module shutdown: libuv's behaviour. That prepare callbacks run before the poll events of the same turn is taken from libuv.
- `openpty`, symlinks, hamlib: foreign calls. Modem bits are arbitrary inputs, `rig_set_ptt` is assumed to succeed, and whether a rig opens is an input.
- FlowControl.Host: its queue is the sequence that `RunLoop` proves the linked list to be, not the list itself.
- RunLoop.RunLoop.Call: a job is the finite tree of jobs it queues; what else a job does is not modelled there.
- Meaning.ParseMeans: the map does not say in which order the entries of a table stand, nor the dummy key that the tables of `[[p]]` carry.
