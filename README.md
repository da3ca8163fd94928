# jsons: a streaming JSON reader and writer, modelled in Dafny

The jsons library reads and writes JSON text without allocating. It has three
parts, and each is modelled in this project in the form it takes in the source.

- **Tokenizer** (`src/jsons/Tokenizer.h`):
  - a buffer of `MAX_TOKEN_LENGTH + 1` characters, refilled from an input;
  - tokens are cut by overwriting the stop position with `'\0'`, and the character found there is saved in `_stopChar`;
  - escape-aware scans `nextUntil` and `nextWhile`;
  - `skip`, `peek` and `pop`;
  - `handleEscapedChars`, which rewrites escapes in place and closes the gap;
  - a two-slot token store.

  It is modelled as the class `Tokenizers.Tokenizer` over an `array<char>`. Each method is proved equal to a function on the tokenizer's fields in `TokenizerStates`. The `*Keeps` lemmas there say what each operation does to the text not consumed yet (the "pending" text), and which invariant of the buffer it keeps. The buffer invariant is that the buffer holds the input text read so far, cut by at most one scan.
- **Reader** (`src/jsons/Reader.h`): a pull parser over the tokenizer.
  - `Value::parse` dispatches on the first significant character.
  - The list and object iterators insist on `,` or the closing bracket.
  - `Property::parse` needs a quoted name and a `:`.
  - `Value::skip` drains containers recursively.

  The classes `Readers.Value`, `Readers.ListIterator`, `Readers.ObjectIterator` and `Readers.Reader` drive a `Tokenizer` object. Every method is proved against the functions in `ReaderSpec`, which are stated on the pending text. `ReaderSpec.ReadFrom` reads a whole value into a `Documents.Json` document.
- **Writer** (`src/jsons/Writer.h`): a state machine.
  - A stack of at most 20 open containers.
  - A mask of the operations allowed next.
  - A failure latch.
  - An output text.

  The class `Writers.Writer` keeps the stack in an `array`. Its escape loop and its `end()` loop are proved equal to `WriterSpec.Evaluate` and `WriterSpec.End`. `WriterSpec` proves a number of facts about whole call sequences:
  - the latch is sticky;
  - only one root value is written;
  - a property needs a value;
  - nesting is bounded;
  - writing a document with the natural sequence of calls produces exactly `Documents.Render` of it;
  - `end()` closes every open container, innermost first.

Input is a sequence of characters with no NUL, together with a read cursor. Output is a sequence of characters that the writer appends to.

The module `RoundTrip` joins the two sides. A fresh writer given the natural calls of a document writes text that `ReaderSpec.ParseValue` and `ReaderSpec.ReadFrom` read back as the same document, with no text left over (`RoundTrip.WrittenDocumentReads`). The document must nest at most 20 deep, and each of its scalar tokens must fit the reader's window. The key step is that the first quote the reader finds unescaped in the writer's escaped text is the closing one.

## Model

| member | source | states |
|---|---|---|
| CStrings.StrcspnSpec | src/jsons/Tokenizer.h:170 | strcspn from an offset: every character of the run it counts is neither NUL nor in the set, and the character after the run is NUL or in the set |
| CStrings.StrspnSpec | src/jsons/Tokenizer.h:213 | strspn from an offset: every character of the run it counts is in the set and not NUL, and the character after the run is NUL or not in the set |
| CStrings.Strchr | src/jsons/Tokenizer.h:139 | strchr as a test: true iff the character is in the set or is NUL, which strchr finds as the terminator |
| CStrings.CStrSpec | src/jsons/Tokenizer.h:272 | the C string in a buffer is its prefix up to the first NUL, and holds no NUL |
| CStrings.MoveLeft | src/jsons/Tokenizer.h:53 | memmove to a lower address: the buffer afterwards is MovedLeft of the old one, with the `n` characters from the source at the destination and the rest unchanged (MovedLeftAt) |
| CStrings.WriteAt | src/jsons/Tokenizer.h:63 | copying text into the buffer at an offset: the buffer is Written of the old one, the text at the offset and every other place unchanged (WrittenAt) |
| Escapes.RunBeforeSpec | src/jsons/Tokenizer.h:74-92 | the backward count of escape characters before a position is `n` iff the `n` characters before it are escapes and the one before them is not |
| Escapes.PairedIffEvenRun | src/jsons/Tokenizer.h:172 | a token whose escapes all pair up is exactly one that ends in an even run of escape characters, so a stop after it is not escaped |
| Escapes.DefaultEscapeHandler | src/jsons/Tokenizer.h:11-15 | the default handler writes the escaped character itself and skips one character |
| Escapes.JsonEscapeHandler | src/jsons/Reader.h:10-45 | `\" \\ \/ \b \f \n \r \t` become one character and skip one; any other escape, `\u` included, keeps the backslash and the character and skips none |
| Escapes.Rewrite | src/jsons/Tokenizer.h:229-237 | the rewrite loop never lengthens the token; with the default handler it is exactly one character shorter per escape |
| Escapes.RewriteNoNul | src/jsons/Tokenizer.h:229-237 | rewriting a token without NUL gives text without NUL |
| Escapes.RewriteWithoutEscapes | src/jsons/Tokenizer.h:229-237 | a token with no escape character is left as it is |
| Escapes.Escape | src/jsons/Writer.h:157-169 | the writer's escaping never shortens the text and keeps it free of NUL |
| Escapes.EscapeSnoc | src/jsons/Writer.h:157-169 | escaping one more character appends `\c` for a backslash or a special character and `c` otherwise: the step of the writer's loop |
| Escapes.DefaultRewriteUndoesEscape | src/jsons/Tokenizer.h:223-245 | handleEscapedChars with the default handler undoes the writer's escaping |
| Escapes.JsonRewriteUndoesEscape | src/jsons/Reader.h:10-45 | the JSON handler's rewrite undoes the writer's escaping of `\` and `"`; that the reader's quote scan finds the closing quote is RoundTrip.QuotedTextOf |
| TokenizerSpec.Window | src/jsons/Tokenizer.h:61-68 | the buffer after a refill holds the pending text's first min(MAX_TOKEN_LENGTH, length) characters |
| TokenizerSpec.ScanLenSpec | src/jsons/Tokenizer.h:169-177 | the scan stops at `k` iff no unescaped stop lies before `k` and `k` is the end of the window or an unescaped stop (for nextUntil a member of the set, for nextWhile a non-member) |
| TokenizerSpec.SpanLenSpec | src/jsons/Tokenizer.h:210-214 | the run skip() discards has length `n` iff its `n` characters are in the set and the one after it is not |
| TokenizerStates.PendingIs | src/jsons/Tokenizer.h:119-121 | the pending text is the input from position inputCharsRead - bufferLength + stopPosition |
| TokenizerStates.PositionInInput | src/jsons/Tokenizer.h:119-121 | positionInInput plus the stop position plus the pending length is the input length |
| TokenizerStates.ShiftKeeps | src/jsons/Tokenizer.h:50-59 | the shift leaves no token, keeps the pending text and the read count, and drops exactly the stopPosition characters before the stop; without a token it changes nothing |
| TokenizerStates.FillKeeps | src/jsons/Tokenizer.h:61-68 | fillBuffer leaves the buffer refilled (it holds the window of the pending text, NUL-terminated) and keeps the pending text and positionInInput |
| TokenizerStates.Fill | src/jsons/Tokenizer.h:61-68 | fillBuffer keeps bufferLength below the buffer size and grows inputCharsRead by exactly the growth of bufferLength |
| TokenizerStates.RefillKeeps | src/jsons/Tokenizer.h:136-137 | shift then fill leaves the buffer refilled, with the pending text unchanged |
| TokenizerStates.ScanKeeps | src/jsons/Tokenizer.h:169-180 | a scan over a refilled buffer cuts the token at ScanLen of the window, the pending text loses exactly that token, and the saved character is the one at the stop (NUL at the window's end) |
| TokenizerStates.NextKeeps | src/jsons/Tokenizer.h:161-203 | nextUntil/nextWhile: the token is the window up to the first unescaped stop, the pending text is what follows it, and the returned character is the one at the stop |
| TokenizerStates.PopKeeps | src/jsons/Tokenizer.h:146-159 | after a scan, pop discards the token and keeps the pending text, which already starts after it; otherwise it removes exactly the first pending character, and nothing when none is left; the buffer is refilled afterwards |
| TokenizerStates.PeekKeeps | src/jsons/Tokenizer.h:131-144 | peek keeps the pending text and returns its first character when that is in the set, and NUL otherwise |
| TokenizerStates.SkipKeeps | src/jsons/Tokenizer.h:205-221 | skip consumes exactly the run of set characters at the front of the pending text, across refills, and leaves no token |
| TokenizerStates.HandleEscapedKeeps | src/jsons/Tokenizer.h:223-245 | handleEscapedChars replaces the token by its rewrite, keeps the buffer invariant (terminator included) and does not move the pending text |
| TokenizerStates.HandleEscapedCuts | src/jsons/Tokenizer.h:238-243 | after the rewrite, the buffer is cut after the rewritten token, over the buffered text without the removed characters |
| Tokenizers.Tokenizer.constructor | src/jsons/Tokenizer.h:95-96 | a fresh tokenizer has the whole input pending, no token, not aborted, position 0 and empty token slots |
| Tokenizers.Tokenizer.Current | src/jsons/Tokenizer.h:127-129 | current() is the buffer up to its first NUL |
| Tokenizers.Tokenizer.PositionInInput | src/jsons/Tokenizer.h:119-121 | positionInInput, the stop position and the pending text together account for the whole input |
| Tokenizers.Tokenizer.Completed | src/jsons/Tokenizer.h:115-117 | completed iff not aborted and the input has nothing left to read |
| Tokenizers.Tokenizer.Abort | src/jsons/Tokenizer.h:102-105 | abort sets the latch and keeps the buffer invariant |
| Tokenizers.Tokenizer.ShiftBufferToStopPosition | src/jsons/Tokenizer.h:50-59 | the method's new state is TokenizerStates.Shift of the old one |
| Tokenizers.Tokenizer.ReadString | src/jsons/Tokenizer.h:63 | readString copies min(n, remaining) input characters to the buffer offset and nothing else |
| Tokenizers.Tokenizer.FillBuffer | src/jsons/Tokenizer.h:61-68 | the new state is TokenizerStates.Fill of the old one |
| Tokenizers.Tokenizer.Refill | src/jsons/Tokenizer.h:136-137 | the new state is TokenizerStates.Refill of the old one |
| Tokenizers.Tokenizer.IsEscaped | src/jsons/Tokenizer.h:74-92 | isEscaped is true iff the stop position is not 0, the saved character is not NUL, and an odd run of escape characters precedes the stop |
| Tokenizers.Tokenizer.FindUntil | src/jsons/Tokenizer.h:169-177 | nextUntil's loop stops at ScanLen of the buffer for a stop set |
| Tokenizers.Tokenizer.FindWhile | src/jsons/Tokenizer.h:191-199 | nextWhile's loop stops at ScanLen of the buffer for a member set |
| Tokenizers.Tokenizer.ScanBuffer | src/jsons/Tokenizer.h:169-180 | the scan and the cut: the new state is TokenizerStates.Scan, and the result is the character at the stop (corrected, see Findings) |
| Tokenizers.Tokenizer.NextUntil | src/jsons/Tokenizer.h:161-181 | after abort: NUL and no change; otherwise the new state is TokenizerStates.Next and the result is the saved stop character |
| Tokenizers.Tokenizer.NextWhile | src/jsons/Tokenizer.h:183-203 | after abort: NUL and no change; otherwise the new state is TokenizerStates.Next for a member set |
| Tokenizers.Tokenizer.Peek | src/jsons/Tokenizer.h:131-144 | after abort: NUL and no change; otherwise a refill, and the first buffer character when it is in the set |
| Tokenizers.Tokenizer.Pop | src/jsons/Tokenizer.h:146-159 | after abort: no change; otherwise the new state is TokenizerStates.Pop |
| Tokenizers.Tokenizer.Skip | src/jsons/Tokenizer.h:205-221 | after abort: no change; otherwise the new state is TokenizerStates.Skip |
| Tokenizers.Tokenizer.SkipRounds | src/jsons/Tokenizer.h:210-214 | the do-while loop runs refill rounds until the run stops inside the buffer or the input is exhausted, and keeps what the remaining skip does |
| Tokenizers.Tokenizer.SkipEnd | src/jsons/Tokenizer.h:216-220 | the cut after the run and the shift: the new state is TokenizerStates.SkipEnd |
| Tokenizers.Tokenizer.RewriteInPlace | src/jsons/Tokenizer.h:225-237 | the in-place loop writes the token's rewrite at the front, leaves the rest of the buffer as it was, and the skipped count plus the destination is the stop position |
| Tokenizers.Tokenizer.HandleEscapedChars | src/jsons/Tokenizer.h:223-245 | the new state is TokenizerStates.HandleEscaped: with a token, the token rewritten and the gap closed; without one, no change |
| Tokenizers.Tokenizer.CloseGap | src/jsons/Tokenizer.h:238-243 | the terminator copied, the rest moved down, stop position and length shrunk: TokenizerStates.Close (corrected length, see Findings) |
| Tokenizers.Tokenizer.StoreToken | src/jsons/Tokenizer.h:270-274 | an index below MAX_TOKENS stores a copy of current() in that slot; any other index changes nothing |
| Tokenizers.Tokenizer.StoredToken | src/jsons/Tokenizer.h:276-282 | the slot's text for an index below MAX_TOKENS, empty otherwise |
| TokenizerFindings.UntilAsWritten | src/jsons/Tokenizer.h:169-180 | nextUntil's loop as written, returning `_stopChar` as last assigned inside the loop |
| TokenizerFindings.UnterminatedStringAccepted | src/jsons/Tokenizer.h:169-180 | as written, the unterminated `"\"` makes nextUntil return `"`, and the memmove length in handleEscapedChars wraps to 2^64 - 1 |
| TokenizerFindings.UnterminatedStringRejected | src/jsons/Reader.h:121-136 | with the corrected scan, the string `"\"` has no value whatever the window size |
| TokenizerFindings.CloseAsWritten | src/jsons/Tokenizer.h:238-243 | the end of handleEscapedChars as written, moving bufferLength - stopPosition - 1 characters |
| TokenizerFindings.TerminatorLost | src/jsons/Tokenizer.h:240-243 | as written, on `\n` followed by `x` the character at the new bufferLength is `x`, not NUL; the corrected move leaves NUL there |
| ReaderSpec.TypeOf | src/jsons/Reader.h:150-157 | a parsed head always has a valid type: Integer for a number without a fraction, Decimal otherwise |
| ReaderSpec.Token | src/jsons/Reader.h:149 | the token a scan cuts is at most MAX_TOKEN_LENGTH long, and token plus the rest is the pending text |
| ReaderSpec.LiteralAt | src/jsons/Reader.h:92-120 | `n`/`t`/`f` succeed only when the token up to a literal end is exactly null/true/false, giving Null or Boolean, and always consume something |
| ReaderSpec.StringAt | src/jsons/Reader.h:121-136 | a string succeeds only with a closing unescaped quote inside the window and gives a String head |
| ReaderSpec.NumberAt | src/jsons/Reader.h:137-162 | a number succeeds only when the run of number characters is a well-formed decimal |
| ReaderSpec.HeadAt | src/jsons/Reader.h:91-172 | the dispatch: scalars consume text, `[` and `{` give List/Object without consuming the bracket |
| ReaderSpec.ParseValue | src/jsons/Reader.h:87-181 | Value::parse on the pending text: whitespace skipped, a head, and trailing whitespace skipped; a scalar always consumes text |
| ReaderSpec.Open | src/jsons/Reader.h:277-289 | List::parse/Object::parse require the opening bracket after whitespace and consume it |
| ReaderSpec.PropertyAt | src/jsons/Reader.h:307-336 | a property needs a quote, a name closed by an unescaped quote, whitespace, `:` and a value, and consumes text |
| ReaderSpec.ListFirst | src/jsons/Reader.h:233-242 | the list iterator ends at once on `]` and otherwise parses the first element |
| ReaderSpec.ListFollowing | src/jsons/Reader.h:248-268 | after an element only `,` (next element) or `]` (end) is accepted; anything else stops iteration |
| ReaderSpec.ObjectFirst | src/jsons/Reader.h:357-366 | the object iterator ends at once on `}` and otherwise parses the first property |
| ReaderSpec.ObjectFollowing | src/jsons/Reader.h:372-392 | after a property only `,` or `}` is accepted; anything else stops iteration |
| ReaderSpec.ReadFrom | src/jsons/Reader.h:445-461 | reading a value to its end never grows the pending text |
| ReaderSpec.ListNextReads | src/jsons/Reader.h:447-451 | reading a list is reading its current element, then reading the rest from the next iterator step |
| ReaderSpec.ObjectNextReads | src/jsons/Reader.h:452-456 | reading an object is reading the current property's value, then the rest from the next step |
| ReaderSpec.QuotedStop | src/jsons/Reader.h:123-124 | a stop at a quote leaves a token whose escapes pair up, so handleEscapedChars can rewrite it |
| ReaderSteps.SkipSpace | src/jsons/Reader.h:90 | skip removes the leading whitespace from the pending text, or changes nothing after abort |
| ReaderSteps.PeekFor | src/jsons/Reader.h:91 | peek returns the first pending character when in the set, NUL otherwise, keeping the pending text |
| ReaderSteps.ScanToken | src/jsons/Reader.h:149 | a scan's token and the rest of the pending text are those of ReaderSpec.Token |
| ReaderSteps.Unescape | src/jsons/Reader.h:124 | handleEscapedChars with the JSON handler makes current() the rewrite of the token, pending text unchanged |
| ReaderSteps.PopAfterPeek | src/jsons/Reader.h:122 | a pop after a peek removes exactly the peeked character |
| Readers.Value.constructor | src/jsons/Reader.h:66 | a new value over a tokenizer is Invalid |
| Readers.Value.Invalidate | src/jsons/Reader.h:83 | the type becomes Invalid |
| Readers.Value.Parse | src/jsons/Reader.h:87-181 | the value takes the head and the tokenizer the rest that ParseValue gives; on failure Invalid and aborted; after abort no change |
| Readers.Value.ParseHead | src/jsons/Reader.h:91-172 | the dispatch on the peeked character follows HeadAt |
| Readers.Value.EndValue | src/jsons/Reader.h:174-179 | a valid value skips trailing whitespace; an invalid one aborts the tokenizer |
| Readers.Value.ParseLiteral | src/jsons/Reader.h:92-120 | the literal branches follow LiteralAt |
| Readers.Value.ParseNumber | src/jsons/Reader.h:137-162 | the number branch follows NumberAt |
| Readers.Value.ReadDecimal | src/jsons/Reader.h:150-160 | the token is taken as a decimal when fromString has a value, Invalid otherwise |
| Readers.Value.ReadQuoted | src/jsons/Reader.h:121-136 | a quoted text is unescaped with the JSON handler and stored in the given slot, and the closing quote consumed; without a closing quote nothing is stored |
| Readers.Value.ParseOpen | src/jsons/Reader.h:277-289 | the list/object parse follows ReaderSpec.Open, aborting when the bracket is missing |
| Readers.Value.ParseProperty | src/jsons/Reader.h:307-336 | Property::parse follows PropertyAt: the name in slot 1 and the value after `:`; on failure Invalid and aborted |
| Readers.Value.ParseAfterName | src/jsons/Reader.h:318-324 | after the name: whitespace, the `:` required, then Value::parse |
| Readers.Value.AsBoolean | src/jsons/Reader.h:197-202 | None unless Boolean; the parsed boolean otherwise |
| Readers.Value.AsDecimal | src/jsons/Reader.h:190-195 | None unless Integer or Decimal; the parsed decimal otherwise |
| Readers.Value.AsInteger | src/jsons/Reader.h:183-188 | None unless Integer or Decimal; the decimal's integer part otherwise |
| Readers.Value.AsString | src/jsons/Reader.h:204-209 | None unless String; the text stored in slot 0 otherwise |
| Readers.Value.Name | src/jsons/Reader.h:338 | the property name stored in slot 1 |
| Readers.Value.AsList | src/jsons/Reader.h:436-443 | not a List: an Invalid list and no change; otherwise List::parse as ReaderSpec.Open |
| Readers.Value.AsObject | src/jsons/Reader.h:427-434 | not an Object: an Invalid object and no change; otherwise Object::parse as ReaderSpec.Open |
| Readers.Value.ListBegin | src/jsons/Reader.h:291-296 | an invalid list yields an iterator at its end; otherwise the first step of ListFirst |
| Readers.Value.ObjectBegin | src/jsons/Reader.h:415-420 | an invalid object yields an iterator at its end; otherwise the first step of ObjectFirst |
| Readers.Value.Skip | src/jsons/Reader.h:445-461 | scalars change nothing; a list or object is read to its closer as ReadFrom says |
| Readers.Value.SkipList | src/jsons/Reader.h:447-451 | the range-for over the list skips each element and ends where ReadFrom of the list ends |
| Readers.Value.SkipObject | src/jsons/Reader.h:452-456 | the range-for over the object skips each property value and ends where ReadFrom of the object ends |
| Readers.ListIterator.constructor | src/jsons/Reader.h:233-242 | the current element is the step ListFirst gives |
| Readers.ListIterator.AtEnd | src/jsons/Reader.h:232 | the end iterator: its current value is Invalid |
| Readers.ListIterator.Advance | src/jsons/Reader.h:248-268 | on a valid element the next step is ListFollowing; on an invalid one nothing changes |
| Readers.ListIterator.SkipAndAdvance | src/jsons/Reader.h:448-450 | skipping the element and advancing is the step ListNext |
| Readers.ObjectIterator.constructor | src/jsons/Reader.h:357-366 | the current property is the step ObjectFirst gives |
| Readers.ObjectIterator.AtEnd | src/jsons/Reader.h:356 | the end iterator: its current property is Invalid |
| Readers.ObjectIterator.Advance | src/jsons/Reader.h:372-392 | on a valid property the next step is ObjectFollowing; otherwise nothing changes |
| Readers.ObjectIterator.SkipAndAdvance | src/jsons/Reader.h:453-455 | skipping the value and advancing is the step ObjectNext |
| Readers.Reader.constructor | src/jsons/Reader.h:470 | a reader over the input with two token slots and nothing consumed |
| Readers.Reader.Begin | src/jsons/Reader.h:472-476 | the root value is Value::parse of the whole pending text |
| Readers.Reader.End | src/jsons/Reader.h:478-480 | end only skips whitespace |
| Readers.MakeReader | src/jsons/Reader.h:489-492 | makeReader gives a reader with the default token length 64 |
| Toolbox.FromString | src/jsons/Reader.h:150 | fromString gives only well-formed decimals (stand-in grammar, see Left out) |
| Toolbox.Integer | src/jsons/Reader.h:187 | integer() has the decimal's sign |
| Toolbox.FromStringToString | src/jsons/Writer.h:338 | toString of a decimal reads back as that decimal |
| Toolbox.ToStringFromString | src/jsons/Reader.h:150 | a text that reads as a decimal is that decimal's toString |
| Toolbox.FormatIntReads | src/jsons/Writer.h:329 | the formatted integer reads back as an integer decimal of the same value |
| Documents.Quoted | src/jsons/Writer.h:153-171 | a written string starts and ends with `"` and is at least two longer than the text |
| WriterSpec.Replaced | src/jsons/Writer.h:111-113 | replace sets the innermost container, creating it on an empty stack |
| WriterSpec.Popped | src/jsons/Writer.h:103-109 | pop removes the innermost container (corrected for the last one, see Findings) |
| WriterSpec.Opened | src/jsons/Writer.h:192-225 | OPEN_LIST/OPEN_OBJECT succeed iff fewer than 20 containers are open, and then push the new container (corrected bound, see Findings) |
| WriterSpec.Closed | src/jsons/Writer.h:260-300 | CLOSE fails iff no container is open, and otherwise removes exactly one (corrected root pop, see Findings) |
| WriterSpec.End | src/jsons/Writer.h:385-389 | end() stops only once failed or no container is open |
| WriterSpec.Null | src/jsons/Writer.h:314-316 | null() inserts `null` when allowed and fails otherwise |
| WriterSpec.Boolean | src/jsons/Writer.h:318-324 | a present boolean inserts true/false, an absent one `null` |
| WriterSpec.NumberInt | src/jsons/Writer.h:326-334 | a present int32 inserts its decimal text, an absent one `null` |
| WriterSpec.NumberDecimal | src/jsons/Writer.h:336-342 | a present decimal inserts its toString, an absent one `null` |
| WriterSpec.String | src/jsons/Writer.h:344-366 | a present string inserts the quoted, escaped text when INSERT_STRING is allowed, an absent one `null` when INSERT_VALUE is; otherwise, or after a failure, only the latch is set |
| WriterSpec.Int32TextFits | src/jsons/Writer.h:327-329 | every int32 formats to at most 11 characters, so it fits buffer[12] with its NUL, and reads back as itself |
| WriterSpec.FailureLatches | src/jsons/Writer.h:115-119 | once failed, any further calls change nothing |
| WriterSpec.NothingAllowedFails | src/jsons/Writer.h:115-119 | with nothing allowed, any operation sets the latch and writes nothing |
| WriterSpec.EvaluateShaped | src/jsons/Writer.h:115-305 | every operation that does not fail keeps the stack and the mask consistent (only the innermost container may be empty; the mask matches it) |
| WriterSpec.PropertyOutsideObjectFails | src/jsons/Writer.h:226-237 | property() outside an object fails |
| WriterSpec.ValueWithoutPropertyFails | src/jsons/Writer.h:224 | in an object without a pending property, a value or container fails |
| WriterSpec.PropertyNeedsValue | src/jsons/Writer.h:258 | right after property(), close() and another property() fail |
| WriterSpec.SingleRoot | src/jsons/Writer.h:140-141 | after a top-level scalar or closing the root, nothing is allowed any more |
| WriterSpec.NestingBounded | src/jsons/Writer.h:86-99 | with 20 containers open, opening another fails |
| WriterSpec.OpenStep | src/jsons/Writer.h:192-225 | an open marks an enclosing empty list as used, writes the separator and bracket, and pushes the new container |
| WriterSpec.CloseStep | src/jsons/Writer.h:260-300 | a close writes `}` or `]` for the innermost container and takes the mask from the one now innermost |
| WriterSpec.NameStep | src/jsons/Writer.h:226-259 | a property writes `,` unless first, the quoted escaped name and `:`, and allows a value |
| WriterSpec.WriteInserts | src/jsons/Writer.h:115-305 | the calls for a document, when a value is allowed, write exactly its rendering, as one insert |
| WriterSpec.WriteItemsRender | src/jsons/Writer.h:122-147 | the elements of a list are written with `,` before every element but the first |
| WriterSpec.WritePropsRender | src/jsons/Writer.h:226-259 | the properties of an object are written with `,` before every property but the first |
| WriterSpec.WriteDocument | src/jsons/Writer.h:115-305 | a fresh writer given a document's calls writes exactly Render of it, does not fail, allows nothing more, and end() leaves it so |
| WriterSpec.EndClosesAll | src/jsons/Writer.h:385-389 | end() on a consistent writer closes every open container innermost first, writing `}` or `]` for each |
| WriterSpec.EndStep | src/jsons/Writer.h:385-389 | one round of end()'s loop closes the innermost container and keeps the writer consistent |
| WriterSpec.EndAfterNameFails | src/jsons/Writer.h:386-387 | end() right after a property name fails the writer |
| Writers.Writer.constructor | src/jsons/Writer.h:76-80 | a new writer is in the initial state: no container, one root value allowed, not failed, nothing written |
| Writers.Writer.IsStackAvailable | src/jsons/Writer.h:86 | room for another container iff fewer than 20 are open (corrected, see Findings) |
| Writers.Writer.Peek | src/jsons/Writer.h:101 | peek is the innermost container, None when there is none |
| Writers.Writer.Push | src/jsons/Writer.h:90-99 | push succeeds iff fewer than 20 containers are open, and then appends the container (corrected, see Findings) |
| Writers.Writer.Pop | src/jsons/Writer.h:103-109 | pop returns the innermost container and removes it; popping the last empties the stack (corrected, see Findings) |
| Writers.Writer.Replace | src/jsons/Writer.h:111-113 | replace sets the innermost container |
| Writers.Writer.WriteEscaped | src/jsons/Writer.h:154-170 | the character loop appends the escaped text |
| Writers.Writer.Insert | src/jsons/Writer.h:122-191 | INSERT_VALUE/INSERT_STRING: the new state is WriterSpec.Inserted of the old |
| Writers.Writer.Open | src/jsons/Writer.h:192-225 | OPEN_LIST/OPEN_OBJECT: the new state is WriterSpec.Opened of the old |
| Writers.Writer.StartProperty | src/jsons/Writer.h:226-259 | START_PROPERTY: the new state is WriterSpec.PropertyStarted of the old |
| Writers.Writer.CloseContainer | src/jsons/Writer.h:260-300 | CLOSE: the new state is WriterSpec.Closed of the old |
| Writers.Writer.Evaluate | src/jsons/Writer.h:115-305 | evaluate: the new state is WriterSpec.Evaluate of the old |
| Writers.Writer.Null | src/jsons/Writer.h:314-316 | the new state is WriterSpec.Null of the old |
| Writers.Writer.Boolean | src/jsons/Writer.h:318-324 | the new state is WriterSpec.Boolean of the old |
| Writers.Writer.NumberInt | src/jsons/Writer.h:326-334 | the new state is WriterSpec.NumberInt of the old |
| Writers.Writer.NumberDecimal | src/jsons/Writer.h:336-342 | the new state is WriterSpec.NumberDecimal of the old |
| Writers.Writer.String | src/jsons/Writer.h:344-366 | the new state is WriterSpec.String of the old |
| Writers.Writer.OpenList | src/jsons/Writer.h:368-370 | evaluate(OPEN_LIST, "") |
| Writers.Writer.OpenObject | src/jsons/Writer.h:372-374 | evaluate(OPEN_OBJECT, "") |
| Writers.Writer.Property | src/jsons/Writer.h:376-379 | evaluate(START_PROPERTY, name) |
| Writers.Writer.Close | src/jsons/Writer.h:381-383 | evaluate(CLOSE, "") |
| Writers.Writer.End | src/jsons/Writer.h:385-389 | the close loop: the new state is WriterSpec.End of the old |
| Writers.Writer.Failed | src/jsons/Writer.h:391 | failed() is the latch |
| WriterFindings.PushAsWritten | src/jsons/Writer.h:86-99 | push as written accepts whenever the index is below 20, before moving it up |
| WriterFindings.IndexAfterPushes | src/jsons/Writer.h:90-99 | after k pushes as written the index is k - 1 for up to 21 pushes, and only the 22nd is refused |
| WriterFindings.OpenPastStack | src/jsons/Writer.h:94-97 | as written, the 21st open is accepted and written to `_stack[20]`, one past the array |
| WriterFindings.PopAsWritten | src/jsons/Writer.h:103-109 | pop as written always decrements the index in size_t arithmetic |
| WriterFindings.CloseRootLeavesStack | src/jsons/Writer.h:107 | as written, closing the root moves the index to 2^64 - 1, outside the stack; the corrected pop leaves no container |
| RoundTrip.EscapeQuotesEscaped | src/jsons/Writer.h:157-169 | every quote in the writer's escaped text has an odd run of backslashes before it, so the tokenizer's escape test counts it escaped |
| RoundTrip.QuotedTextOf | src/jsons/Reader.h:121-136 | over the writer's escaped text, its closing quote and any text after, the reader's string scan stops at the closing quote; the JSON handler gives back the original text, and exactly the text after the quote stays pending |
| RoundTrip.TokenIs | src/jsons/Tokenizer.h:169-180 | a token free of stop characters, followed by a stop or by nothing and no longer than the window, is cut whole, leaving what follows |
| RoundTrip.LiteralParses | src/jsons/Reader.h:92-120 | `null`, `true` or `false` followed by nothing, `,`, `]` or `}` parses as its head, leaving what follows |
| RoundTrip.NumberParses | src/jsons/Reader.h:137-162 | a number token followed by nothing, `,`, `]` or `}` parses as the decimal it denotes, leaving what follows |
| RoundTrip.StringParses | src/jsons/Reader.h:121-136 | a string as the writer quotes it parses as the same string, leaving what follows |
| RoundTrip.PropertyParses | src/jsons/Reader.h:307-336 | a property as the writer writes it parses to its name and the head of its value |
| RoundTrip.ValueReads | src/jsons/Reader.h:87-181 | the writer's text of a document, followed by nothing, `,`, `]` or `}`, parses and reads back as the same document, leaving exactly what followed |
| RoundTrip.ListReads | src/jsons/Reader.h:233-242 | a list as the writer writes it reads back as the same list |
| RoundTrip.ListTail | src/jsons/Reader.h:248-268 | after an element, every further element the writer wrote reads back in order, and the list ends at its `]` |
| RoundTrip.ObjectReads | src/jsons/Reader.h:357-366 | an object as the writer writes it reads back as the same object |
| RoundTrip.ObjectTail | src/jsons/Reader.h:372-392 | after a property, every further property the writer wrote reads back in order, and the object ends at its `}` |
| RoundTrip.RenderReads | src/jsons/Reader.h:445-461 | every document whose scalar tokens fit the window, rendered as the writer renders it, reads back as the same document with no text left over |
| RoundTrip.WrittenDocumentReads | src/jsons/Writer.h:115-305 | the output of a fresh writer given a document's calls (nesting at most 20 deep, scalars fitting the window) reads back as that document |

## Left out

- Tokenizers.Tokenizer.constructor: requires `maxTokenLength > 0`. The source does not enforce this bound. With MAX_TOKEN_LENGTH 0, the do-while of skip() (src/jsons/Tokenizer.h:210-214) reads nothing and loops forever on any non-empty input, so that instance is not modelled.
- Readers.Reader.constructor: requires `maxTokenLength > 0`, for the same reason.
- Tokenizers.Tokenizer.HandleEscapedChars: requires that a token's escapes pair up (`Paired`, no dangling escape at its end). The source checks only that the buffer is non-empty and cut. Every call in the reader follows a stop at an unescaped quote, which implies the condition (ReaderSpec.QuotedStop). On a token ending in an unpaired escape, the handler would take the NUL at the stop as the escaped character; that case is not modelled.
- Tokenizers.Tokenizer.ScanBuffer, Tokenizers.Tokenizer.CloseGap, WriterSpec.Popped, WriterSpec.Opened, WriterSpec.Closed, Writers.Writer.Push, Writers.Writer.Pop and Writers.Writer.IsStackAvailable model the corrected code. The code as written is modelled beside them, in TokenizerFindings and WriterFindings (see Findings).
- Toolbox.FromString, Toolbox.ToString, Toolbox.Integer: `toolbox::Decimal` is a library outside this model. It is replaced by a stand-in that is a sign, whole digits and optional fraction digits, with the text grammar `-?[0-9]+(\.[0-9]+)?`. Toolbox.FromStringToString, Toolbox.ToStringFromString, Toolbox.FormatIntReads, WriterSpec.Int32TextFits and the numbers ReaderSpec.NumberAt accepts hold of this stand-in only, not of the library.
- Readers.Value.AsInteger: returns an unbounded integer. The source returns `int32_t` from `Decimal::integer()`, and its truncation or overflow of large numbers is not modelled.
- WriterSpec.NumberInt: `snprintf("%i")` is modelled as Toolbox.FormatInt, an optional `-` followed by the digits. The static `buffer[12]` is not modelled; WriterSpec.Int32TextFits shows every int32 fits it.
- WriterSpec.String: the three `string` overloads (`const char*`, `__FlashStringHelper*`, `strref`) are one operation over text. The Arduino flash-string overload has no counterpart.
- Output writes always succeed. The source sets `_failed` when `write` returns fewer characters than asked (`write(...) != n`, src/jsons/Writer.h:124-257). Short writes are not modelled, so the latch is set only by a disallowed operation, a full stack or a misplaced property or close.
- Input reads: `readString` returns min(requested, remaining), and `available()` is true while input remains. Short reads and streams that are not yet available are not modelled.
- `abort(reason)` and `abortReason()`: the reason is not modelled. Every abort in the reader passes none.
- Concurrency and aliasing: the tokenizer is shared by the reader's values by reference in the model, as in the source. Moves and swaps of `Value` (src/jsons/Reader.h:67-81) and the null-tokenizer default `Value()` and `Iterator()` are not modelled, except for the end iterators (AtEnd).
- Reader strings longer than the window: a string or name must close within MAX_TOKEN_LENGTH characters, including its closing quote, or the parse fails. This is what the code does (src/jsons/Reader.h:123, 130-134). The "long string" fragments and `\uXXXX` decoding are unimplemented in the source too.
- RoundTrip.WrittenDocumentReads and RoundTrip.RenderReads are stated on the specification functions, WriterSpec.Run and ReaderSpec.ParseValue/ReadFrom, that the writer and reader classes are proved to follow. A document with a scalar token that does not fit the window is outside their scope; the lines on the window here say what the reader does with such tokens.
- Numbers and literals longer than the window are cut at MAX_TOKEN_LENGTH characters, as the code does. The model follows the code and does not reject them specially.
- The property name in slot 1 is overwritten by nested property parses. The model stores slots exactly as the code does, and Readers.Value.Name promises the name only right after the property's parse.
- `Reader::end` only skips whitespace and does not reject trailing text (src/jsons/Reader.h:478-480). The model does the same.
- The writer's destructor calling `end()` (src/jsons/Writer.h:310-312) has no counterpart: Dafny objects have no destructors. Writers.Writer.End is the operation.
- `stopChar()`, `maxTokenLength()`, `maxTokens()`, `aborted()` and `Reader::failed()` are plain field reads (`stopChar`, `maxTokenLength`, `maxTokens`, `aborted`, Readers.Reader.Failed).
- `std::function` handlers: the two concrete handlers, default and JSON, are modelled as an enumeration (Escapes.Handle), not as callbacks.

## Findings

| source | as written | input that shows it | evidently intended | confidence | as-written member | corrected member |
|---|---|---|---|---|---|---|
| src/jsons/Tokenizer.h:169-180 | nextUntil/nextWhile return `_stopChar` as last set inside the loop. When the last stop examined is escaped and sits just before the terminator, the loop steps onto the terminator but returns that escaped stop. | the unterminated string `"\"`: nextUntil(`"`, `\`) returns `"`, Value::parse accepts the string, and handleEscapedChars then computes a memmove length of 2^64 - 1 | return the character at the final stop position, NUL at the terminator, so that an unterminated string fails | not executed | TokenizerFindings.UnterminatedStringAccepted | Tokenizers.Tokenizer.ScanBuffer |
| src/jsons/Tokenizer.h:240 | handleEscapedChars moves `_bufferLength - _stopPosition - 1` characters, leaving out the terminator at `_bufferLength`, then shrinks `_bufferLength` | the token `\n` before the text `x` (buffer `\`, `n`, NUL, `x`, NUL): after the rewrite the character at the new length 3 is `x`, not NUL | move `_bufferLength - _stopPosition` characters, terminator included, so the buffer stays NUL-terminated | not executed | TokenizerFindings.TerminatorLost | TokenizerStates.HandleEscapedKeeps |
| src/jsons/Writer.h:86-99 | isStackAvailable checks `_stackIndex < MAX_STACK` before push increments the index, so the 21st container is written to `_stack[20]`, one past the array | 21 calls of openList() on a fresh writer | at most MAX_STACK (20) open containers; the 21st open fails the writer | not executed | WriterFindings.OpenPastStack | WriterSpec.NestingBounded |
| src/jsons/Writer.h:103-109 | pop on the only container runs `_stackIndex -= 1` at index 0, which wraps, so the peek() that follows (lines 265, 282, 386) reads outside `_stack` | openList() then close() | popping the last container leaves no container, so peek() gives None and nothing more is allowed | not executed | WriterFindings.CloseRootLeavesStack | WriterSpec.Closed |
