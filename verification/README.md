# Verified models of the XML library, the profile codec and the camera session

This project models the parts of the Fujifilm camera library whose correctness rests on invariants that no
single function shows, and proves those invariants with Dafny 4.11:

- **ezxml** (`fp/src/ezxml.c`): the three intrusive lists that index the children of a tag, entity decoding and
  the circularity check its termination rests on, ampersand encoding, UTF-16 conversion, the parser and the
  printer.
- **the d185 profile codec** (`fp/src/d185.c`, `fp/src/data.c`, the sanitiser of `fp/src/xml.c`).
- **the camera session** (`lib/fuji.c`, `lib/module.c`): set-up handshake, live view captures, chunked downloads.
- **the EXIF walker** (`lib/exif.c`), which parses a file while fetching it.

Code that works on a buffer, a pointer structure or session state is modelled by methods and classes that change
state step by step; each is proved against a specification function, and lemmas prove what that function means.
`dafny verify dfyconfig.toml` checks everything.

## Files

| file | holds |
|---|---|
| `TagIndex.dfy` | the `ordered`, `sibling` and `next` chains under insertion and cutting |
| `Chars.dfy`, `Utf8.dfy`, `Buffers.dfy`, `Words.dfy` | `isspace`, `strtol`, the multi-byte encoder, growing buffers, bytes and 32-bit words |
| `Entities.dfy`, `Decoding.dfy`, `Escaping.dfy` | entity declarations, the in-place decoder, encoding and its inverse |
| `References.dfy` | what decoding makes of line ends and references, over the text itself |
| `Utf16.dfy` | UTF-16 to UTF-8 |
| `XmlTree.dfy`, `Printer.dfy` | element trees, the text they are printed as, the output buffer |
| `Markup.dfy`, `Parsing.dfy` | reading one piece of markup, the parser |
| `PropertyWalk.dfy` | the walk of the profile reader over a parsed group |
| `Writing.dfy`, `Reading.dfy` | documents as people write them and what they are read as; what is rejected |
| `Nesting.dfy`, `RoundTrip.dfy` | which documents are accepted, and that parsing undoes printing |
| `Profiles.dfy`, `D185.dfy`, `Layout.dfy` | profiles, their tables and merging, the binary form, and its layout in numbers |
| `Session.dfy`, `Download.dfy` | the session over a trace of commands, downloads |
| `Exif.dfy`, `RawFiles.dfy` | the EXIF walker, and what it finds in raw files |

## Findings

Properties that one would expect and the code does not have are stated exactly:

- Cutting the first child loses tags by name exactly when the new first child is not the tag that takes over its
  place on the sibling chain (`TagIndex.Tag.Cut`, `TagIndex.CutLosesName` for a concrete case).
- Inserting in front of a first child of the same name leaves a second entry of that name on the sibling chain;
  lookup by name still works (`TagIndex.Tag.Insert`, `TagIndex.FrontInsertion` for a concrete case). When that first
  child is then cut, the second becomes its own sibling, and looking up any other name never ends
  (`TagIndex.Tag.Cut`, `TagIndex.CutLeavesLoop` for the concrete case).
- A printed tree is read back unchanged if and only if its tags stand in the order of their offsets within the
  text, attribute names are distinct and no attribute value holds a vertical tab or form feed
  (`RoundTrip.RoundTripExactly`; `RoundTrip.BlankIsLost` and `RoundTrip.OrderIsLost` for concrete trees).
- The circularity check is right about a declaration if and only if the name is new or the check admits it: it
  objects to a second declaration of a name whose text leads back to that name, although the first declaration is
  the one in force and nothing recurs (`Entities.CheckAgainstRecursion`, `Entities.RedeclarationRejected`).
- The grain word is ambiguous not only for OFF with LARGE, but also for an unset effect with LARGE, which
  sanitising lets through (`D185.CreatedParses`, `D185.SanitisedGrain`, `D185.GrainIsLost` for a concrete profile).
- What sanitising accepts cannot always be written. It can exactly if the HDR mode is not 800 or 800PLUS, whose
  dynamic range the table lacks, and every property that sanitising does not reset could be written before
  (`D185.SanitisedWritable`). With HDR mode 800 a profile that can be written becomes one that cannot
  (`D185.HdrIsLost`).
- Over a plain wireless connection the result of a download is that of the commands that close it. Success means
  that the whole object was delivered over every transport but that one (`Download.OnlyWirelessMisreports`,
  `Download.WirelessMisreports` for a concrete camera).
- The download of an object of unknown size ends with success at the first reply that is shorter than asked for. It
  has delivered the whole object exactly if no reply in front of the object's end was short of both the chunk and what
  was left (`Download.AppDownloadFile`, `Download.ChunksWhole`, `Download.ShortReplyEnds` for a concrete camera).
- The EXIF walker looks at the first bytes of the picture behind a raw header, the segment, the TIFF header, the number
  of entries of a directory and the link behind the first without making sure that they were fetched, and goes on
  with whatever memory holds there. All its looks lie inside what was fetched exactly if the steps that the file as a
  whole gives rise to fit (`Exif.FollowRaw`, and by buffer length and offsets `Exif.Granted`). For one JPEG file of 104
  bytes they do so for every first chunk except those of 100 to 103 bytes (`Exif.ShortChunk`); with 100 bytes and
  suitable memory the run succeeds with a thumbnail that the file does not have (`Exif.StrayThumbnail`).
- The outcome of terminating a capture is dropped when live view is left: the switch reports success, and the
  capture stays open exactly if the poll before the termination or the termination itself gets a bad reply
  (`Session.PtpRuntime.OnSwitchScreen`, `Session.LeavesCaptureOpen` for a concrete camera).

## Model

| member | source | states |
|---|---|---|
| TagIndex.Tag.Insert | fp/src/ezxml.c:850-889 | the list of children gains exactly the new tag, behind all tags of no greater offset and before all of greater; every chain stays acyclic and lookup by name stays right; the sibling chain still visits first tags only if and only if the tag does not go in front of a first child of its own name |
| TagIndex.Tag.InsertAll | fp/src/ezxml.c:850-889 | after any run of insertions the `ordered` chain is the stable sort of the insertions by offset, and every lookup by name is intact |
| TagIndex.Tag.EditAll | fp/src/ezxml.c:850-998 | over any interleaving of insertions, none in front of a first child of the same name, and cuts of tags other than the first child, the index agrees with the plain list the edits give |
| TagIndex.AddByPlace | fp/src/ezxml.c:858-889 | a new tag may go anywhere but in front of a first child of its name, and then stands behind all of no greater offset |
| TagIndex.DropByPlace | fp/src/ezxml.c:967-998 | any child but the first may be cut, and the others keep their order |
| TagIndex.Tag.Cut | fp/src/ezxml.c:967-998 | the list loses exactly the cut tag and its links are cleared; afterwards every lookup by name ends at the first child of that name if and only if the tag was not the first child, or the tag that takes over its place on the sibling chain becomes the first child and was not on that chain before |
| TagIndex.CutLosesName | fp/src/ezxml.c:967-998 | a concrete case: of children a, b, a the first is cut, and lookup by name, which worked, does so no longer |
| TagIndex.CutLeavesLoop | fp/src/ezxml.c:972-976 | a concrete case: of two children of one name that both are on the sibling chain the first is cut; the second is then its own sibling, and lookup by name, which worked, does so no longer |
| TagIndex.Tag.SearchAlong | fp/src/ezxml.c:60-65 | on a sibling chain that ends, every lookup by name ends, and finds the first child of the name if and only if the chain agrees with the list |
| TagIndex.Tag.LoopLoses | fp/src/ezxml.c:972-976 | when the next tag of the first child's name is on the sibling chain itself, cutting the first child leaves a lookup by name that never ends or misses that tag |
| TagIndex.FrontInsertion | fp/src/ezxml.c:877-883 | a concrete case: a tag put in front of one of its own name leaves both on the sibling chain, with lookup by name intact |
| TagIndex.CutHeadKeeps | fp/src/ezxml.c:974-976 | cutting the first child keeps lookup by name when the second child takes over its entry |
| TagIndex.CutHeadLoses | fp/src/ezxml.c:974-976 | otherwise there is a tag that lookup by name no longer finds |
| TagIndex.Tag.Child | fp/src/ezxml.c:60-65 | the first child of that name in document order, or null if there is none |
| TagIndex.Tag.Idx | fp/src/ezxml.c:69-73 | the tag so many places on along the chain of equal names, or null; null for a negative index |
| TagIndex.Tag.Get | fp/src/ezxml.c:60-73 | looking up a name and then an index gives exactly the k-th child of that name in document order |
| TagIndex.Tag.Append | fp/src/ezxml.c:221-230 | tags arriving in non-decreasing order of offset stand in document order, and the sibling chain is the first tag of each name in that order |
| TagIndex.Tag.VisitSiblings | fp/src/xml.c:322 | the walk of the profile reader visits exactly the sibling chain, each tag once |
| PropertyWalk.IndexKids | fp/src/ezxml.c:221-230 | the children of a parsed tag, inserted at their offsets, keep their names, order and offsets, and the sibling chain is that of the first of each name |
| PropertyWalk.VisitProperties | fp/src/xml.c:322-336 | walking the sibling chain of a parsed group comes by the first property of each name, once, in document order |
| TagIndex.FirstsByName | fp/src/xml.c:322 | the chain of first tags has exactly the first tag of each name, for every name |
| TagIndex.StableSortSorts | fp/src/ezxml.c:858-869 | the order that insertions give is sorted by offset and keeps the insertion order of equal offsets |
| TagIndex.StableOrderUnique | fp/src/ezxml.c:858-869 | there is only one such order |
| Chars.StrToLStops | fp/src/ezxml.c:176-178 | `strtol` reads a number in front of a semicolon without regard to what follows |
| Entities.CheckEntity | fp/src/ezxml.c:268-279 | the recursive check computes whether following references leads to the new name; it terminates on entities free of recursion |
| Entities.CheckIsExact | fp/src/ezxml.c:268-279 | on a new name the check admits an entity if and only if its addition leaves no recursion, as section 4.1 of XML 1.0 (WFC: No Recursion) asks |
| Entities.CheckAgainstRecursion | fp/src/ezxml.c:268-279 | a declaration leaves no recursion if and only if its name was declared before or the check admits it |
| Entities.ShadowedIsAcyclic | fp/src/ezxml.c:191-193 | a second declaration of a name keeps the entities acyclic whatever its text, for the first one answers every reference |
| Entities.RedeclarationRejected | fp/src/ezxml.c:351-354 | a concrete case: with `a` declared as `x`, a second declaration of `a` as `&a;` is objected to, and would have been harmless |
| Entities.AdmittedKeepsRanked | fp/src/ezxml.c:341-355 | an admitted declaration keeps the references acyclic, with a ranking given outright |
| Entities.NoRecursion | fp/src/ezxml.c:268-279 | in an acyclic set no entity refers to itself, through any chain of references |
| Entities.Declare | fp/src/ezxml.c:341-355 | any run of declarations leaves the entities acyclic; each one taken is one the check admits, and the one that ends the run is not; that one would have made them recursive, except exactly when its name was declared before |
| Entities.EntOkSame | fp/src/ezxml.c:268-279 | what the check answers does not depend on the ranking that makes it end |
| Decoding.Decode | fp/src/ezxml.c:158-218 | rewriting references in place terminates and gives the recursive expansion of the text with its line ends normalised |
| Decoding.NormalizeNewLines | fp/src/ezxml.c:163-168 | the in-place loop turns CR LF and CR into LF, as section 2.11 of XML 1.0 asks |
| References.NewLinesJoined | fp/src/ezxml.c:163-168 | lines joined by any mix of CR LF, CR and LF, no CR directly in front of an LF of its own, become the same lines joined by LF |
| References.LineEndsDecode | fp/src/ezxml.c:158-218 | so decoding, with any entities and in any mode, does not tell line ends apart |
| References.SplitLines | fp/src/ezxml.c:163-168 | every text is made of such lines |
| Decoding.DecodeOne | fp/src/ezxml.c:170-209 | one step emits what the head of the text stands for, or puts in the entity's text, and leaves the expansion as it was |
| Decoding.DecodeCharRef | fp/src/ezxml.c:174-188 | a character reference becomes the UTF-8 bytes of its code, and an invalid one stays text |
| References.DecodesCode | fp/src/ezxml.c:174-188 | every code point from 1 to 0x10FFFF, by its decimal numeral or its hexadecimal one in either case, becomes its UTF-8 bytes |
| References.NumeralForms | fp/src/ezxml.c:176-177 | blanks, a sign and, in base 16, a `0x` in front of the digits are read as `strtol` reads them; a number beyond 64 bits is cut to the nearest one within |
| References.DecodesNamed | fp/src/ezxml.c:837-838 | `&lt;`, `&gt;`, `&amp;`, `&quot;` and `&apos;` stand for their characters |
| References.ReferenceWithin | fp/src/ezxml.c:170-209 | a reference stands for the same wherever it is |
| References.DecodesPlain | fp/src/ezxml.c:170-209 | text without references and CR stays; in attributes every blank becomes a space |
| References.SectionStays | fp/src/ezxml.c:170-209 | in a section nothing but line ends is rewritten |
| References.UnknownStays | fp/src/ezxml.c:178 | a reference to nothing that is declared, or to no character, stays text |
| Decoding.ReferenceStep | fp/src/ezxml.c:189-206 | putting an entity's text in place of the reference and reading on is the same as expanding it on its own, because its references close inside it |
| Decoding.RunConcat | fp/src/ezxml.c:158-218 | expansion distributes over a text whose references close and what follows it |
| Decoding.AnyRanking | fp/src/ezxml.c:158-218 | the expansion does not depend on the ranking that proves it finite |
| Utf8.EncodingIsStandard | fp/src/ezxml.c:181-186 | for every code point the encoder gives the bytes of section 3 of RFC 3629 |
| Utf8.CountIsStandard | fp/src/ezxml.c:182-183 | (bits - 2) / 5 is the number of continuation bytes for every code point from 0x80 to 0x10FFFF |
| Utf8.Encode | fp/src/ezxml.c:180-187 | the loops that count bits and emit payload compute the encoding |
| Escaping.EncodedDecodes | fp/src/ezxml.c:158-218 | decoding an encoded text with the predefined entities gives the text back, but for VT and FF in attributes, which become blanks |
| Escaping.TextRoundTrip | fp/src/ezxml.c:668-689 | character data of any content round-trips, with CR and text that looks like references |
| Escaping.AttributeRoundTrip | fp/src/ezxml.c:668-689 | an attribute value round-trips if and only if it holds no VT or FF |
| References.EscapeTable | fp/src/ezxml.c:676-686 | what the encoder writes for each character, in text and in attributes |
| Escaping.PredefinedWellFormed | fp/src/ezxml.c:837-838 | the predefined entities are acyclic, end in their only semicolon and close their references |
| Escaping.FindPredefined | fp/src/ezxml.c:191-193 | no predefined name is taken for another |
| Utf16.Str2Utf8 | fp/src/ezxml.c:422-451 | the loop over a growing buffer never writes outside it and gives the transcoded text; text with no byte order mark is left alone |
| Utf16.PutEncoding | fp/src/ezxml.c:442-447 | stores the bytes of a code point, lead byte first, in room for six |
| Utf16.WellFormedTranscodes | fp/src/ezxml.c:422-451 | for every sequence of code points, UTF-16 of either order with its mark becomes exactly the UTF-8 of the same code points (section 2.1 of RFC 2781, section 3 of RFC 3629) |
| Utf16.MarksByNumbers | fp/src/ezxml.c:426-428 | text is taken for UTF-16 if and only if its first byte is 0xFE or 0xFF |
| Utf16.ScalarsByNumbers | fp/src/ezxml.c:434 | the units from 0xD800 to 0xDFFF are halves of a pair, and no others |
| Utf16.BigByNumbers | fp/src/ezxml.c:431-447 | ten bytes with the high byte first, with a euro sign and a pair of surrogates, by numbers |
| Utf16.LittleByNumbers | fp/src/ezxml.c:431-447 | the same with the low byte first |
| Buffers.Reserve | fp/src/ezxml.c:674 | the growth loop ends with the asked-for room, all contents kept |
| Printer.Output.AmpEncode | fp/src/ezxml.c:668-689 | appends the encoding of the given slice; room for the terminator is left at every step, and room for ten characters when the end of the text was reached |
| Printer.Output.EncodeChar | fp/src/ezxml.c:676-686 | appends the sequence of one character, at most six bytes into room for ten |
| Printer.Output.FinishOpening | fp/src/ezxml.c:708-728 | appends the attributes, each name once, and the end of the tag without running out of room |
| Printer.Output.PutTags | fp/src/ezxml.c:694-742 | appends a list of siblings with the parent's text around and behind them, as the offsets say |
| Printer.Output.PutTag | fp/src/ezxml.c:694-738 | appends a whole tag and leaves the buffer terminated at its length |
| Printer.ToXml | fp/src/ezxml.c:746-782 | the returned buffer holds exactly the printed tree and one terminator |
| Printer.PrintedAttr | fp/src/ezxml.c:708-728 | attributes are printed in double quotes, the first of a name only |
| Printer.PrintedKid | fp/src/ezxml.c:694-742 | a child is printed where its offset says |
| Printer.PrintedBare | fp/src/ezxml.c:706-738 | a tag without content is printed in its long form |
| Parsing.ScanTag | fp/src/ezxml.c:492-553 | reading an opening tag with its attributes from the buffer gives the token the specification reads, with the same error for a missing quote or `>` |
| Parsing.ScanAttrs | fp/src/ezxml.c:500-534 | the loop over attributes gives all of them, decoded |
| Parsing.ScanMarkup | fp/src/ezxml.c:487-589 | every kind of markup is read as specified, but for an internal subset and the empty instruction, which are set apart |
| Parsing.Document.OpenTag | fp/src/ezxml.c:221-230 | the new tag is linked into the tree as the last child of the tag at the cursor, at the end of that tag's text; the cursor moves onto it and all else in the tree stays |
| Parsing.Document.CharContent | fp/src/ezxml.c:233-254 | the tree changes only in the text of the tag at the cursor, which gains the given text at its end; outside the root nothing changes |
| Parsing.Document.CloseTag | fp/src/ezxml.c:257-264 | closing is accepted if and only if the name is that of the tag at the cursor; the cursor moves up one level, off the root in the end, and the tree stays as it is |
| Parsing.LinkedCursor | fp/src/ezxml.c:221-264 | the cursor always stands on the innermost open tag of the tree, reached by last children only, and to change that tag is to change the tree there and nowhere else |
| Parsing.Document.Read | fp/src/ezxml.c:484-601 | the parser's loop gives what running the token list through the stack of open tags gives |
| Parsing.ParseStr | fp/src/ezxml.c:470-601 | the whole of parsing, UTF-16 input and the terminator in place of the last character included; a document with an internal subset is set apart |
| Writing.WrittenParses | fp/src/ezxml.c:470-627 | every document written by the rules is read as its root element: blanks, comments, instructions and a document type in front and behind, sections, tags with a slash, quotes of either kind, and blanks wherever they are allowed |
| Writing.SettingsRead | fp/src/ezxml.c:500-534 | attributes with any blanks and either quotes are read in order, decoded |
| Writing.InnerReads | fp/src/ezxml.c:588-597 | content of prose, markup and further tags is read piece by piece |
| Reading.InstructionInFront | fp/src/ezxml.c:579-584 | an instruction in front of any document does not change how that is read |
| Reading.CommentInFront | fp/src/ezxml.c:561-564 | nor does a comment |
| Reading.DoctypeInFront | fp/src/ezxml.c:570-578 | nor does a document type without an internal subset |
| Reading.SubsetIsBeyond | fp/src/ezxml.c:570-578 | one with an internal subset is beyond the model |
| Reading.TextInFront | fp/src/ezxml.c:484 | nor does text, as blanks |
| Reading.Utf8MarkInFront | fp/src/ezxml.c:484 | nor does the byte order mark of UTF-8 |
| Reading.Utf16Reads | fp/src/ezxml.c:422-481 | a document in UTF-16 of either byte order is read as the same code points in UTF-8 would be, root, text and errors alike |
| Reading.PrologThenPrinted | fp/src/ezxml.c:579-584 | a printed tree behind a prolog is read as without it |
| Reading.SlashCloses | fp/src/ezxml.c:534-544 | a tag with a slash is read as one that is closed at once |
| Reading.SectionIsText | fp/src/ezxml.c:565-569 | the text of a section comes back undecoded, but for line ends |
| Reading.QuotedValue | fp/src/ezxml.c:512-528 | a value in quotes of either kind, with blanks around the equals sign, is decoded |
| Reading.TagInText | fp/src/ezxml.c:588-597 | a tag between two pieces of text stands behind the first |
| Reading.XmlNames | fp/src/ezxml.c:490-495 | every name of XML 1.0 (section 2.3) can be the name of a tag and of an attribute |
| Reading.NoRoot | fp/src/ezxml.c:484-485 | text without markup is rejected for want of a root |
| Reading.CommentStaysOpen | fp/src/ezxml.c:561-564 | a comment without an end is rejected as such |
| Reading.SectionStaysOpen | fp/src/ezxml.c:565-569 | so is a section |
| Reading.InstructionStaysOpen | fp/src/ezxml.c:579-584 | so is an instruction |
| Reading.DoctypeStaysOpen | fp/src/ezxml.c:570-578 | so is a document type |
| Reading.StrayBracket | fp/src/ezxml.c:585 | any other character behind `<` is rejected |
| Reading.QuoteStaysOpen | fp/src/ezxml.c:517-522 | a value without its closing quote is rejected |
| Reading.WrongEnd | fp/src/ezxml.c:256-260 | a closing tag of another name is rejected |
| Reading.TagStaysOpen | fp/src/ezxml.c:600 | a tag that is not closed is rejected |
| Reading.SecondRoot | fp/src/ezxml.c:490-492 | a second root is rejected |
| Nesting.AcceptedIffNested | fp/src/ezxml.c:484-601 | no error is reported if and only if the tokens are those of one root element with properly nested content, amid text, comments and instructions |
| Nesting.DocumentBuilds | fp/src/ezxml.c:484-601 | the tree of such a document has its names, attributes and text, and each tag at the offset of the text before it |
| Nesting.ParsedWellPlaced | fp/src/ezxml.c:221-254 | in every tree the parser gives, offsets of siblings are in non-decreasing order and within the parent's text, at every level |
| RoundTrip.PrintedParses | fp/src/ezxml.c:470-782 | the printed text of every well-placed tree with readable names parses to the same names, text, offsets and order of children, and the first attribute of each name |
| RoundTrip.RoundTripExactly | fp/src/ezxml.c:470-782 | the tree that comes back is the one that was printed if and only if tags stand in the order of their offsets within the text, attribute names are distinct and values hold no VT or FF |
| RoundTrip.BlankIsLost | fp/src/ezxml.c:207 | a concrete tree: a vertical tab in an attribute does not come back |
| RoundTrip.OrderIsLost | fp/src/ezxml.c:699-700 | a concrete tree: children out of the order of their offsets do not come back |
| RoundTrip.ElementTokens | fp/src/ezxml.c:694-742 | the text of a tag, whatever follows it, is read as the tokens of its element |
| RoundTrip.ContentTokens | fp/src/ezxml.c:694-742 | text and children interleaved by offset are read back as that text and those children |
| RoundTrip.AttrsRead | fp/src/ezxml.c:500-534 | the printed attributes are read back in order, first of each name |
| Profiles.FujiProfile.Apply | fp/src/data.c:15-49 | the target takes over the user's settings and keeps its version, code, clarity, lens modulation, colour space and HDR |
| Profiles.FujiProfile.Sanitise | fp/src/xml.c:217-285 | each rule about overlapping settings is enforced, and HDR 800PLUS without its range priority is rejected |
| Profiles.Rules | fp/src/xml.c:217-285 | which fields each rule sets, to which values, by numbers, and that all others stay |
| D185.CopyValueIfValid | fp/src/d185.c:107-116 | succeeds for table values and zero, and writes table values only |
| D185.GetSet | fp/src/d185.c:118-290 | no property index disturbs the field of another, or anything else in the record |
| D185.PropToWord | fp/src/d185.c:214-290 | the word of each property, or rejection, with what the variable held before in place of a zero the table lacks |
| D185.WordToProp | fp/src/d185.c:118-213 | takes over a word into its field, or rejects it |
| D185.CreateD185 | fp/src/d185.c:292-321 | writes exactly 629 bytes, header, code and words, and nothing behind them, or reports failure |
| D185.ParseD185 | fp/src/d185.c:323-374 | reads a buffer as specified: code of at most nine digits modulo 2^32, as many properties as announced, words behind the end as zero |
| Layout.ReadsFields | fp/src/d185.c:323-374 | a form is read if and only if its code is, at most 29 words are announced and each is one of the numbers its property may hold; every field is then the word at its place from offset 0x201 on |
| Layout.ReadsCode | fp/src/d185.c:337-353 | a code of eight hexadecimal characters is the number they write, with or without a terminator |
| Layout.CodeRejected | fp/src/d185.c:339-353 | a code with any other character, or of more than nine digits, is rejected |
| Layout.WritesFields | fp/src/d185.c:292-321 | a form is made if and only if every field holds one of the numbers it may; it has 29 as count, 9 and the eight digits of the code, zeros, and each field at its place |
| Layout.AcceptsAllowed | fp/src/data.c:68-260 | the tables in numbers: which words each property accepts |
| Layout.Tones | fp/src/data.c:51-66 | highlight and shadow go by halves from -4 to 4 if bits 8 to 23 of the code are 0x1795, and otherwise by whole steps from -2 to 4 |
| D185.CodeReads | fp/src/d185.c:297-303 | every 32-bit code comes back from its eight hexadecimal digits |
| D185.ReadAll | fp/src/d185.c:357-371 | reading succeeds if and only if every word is accepted on its own, and then every field is its own word |
| D185.CreatedParses | fp/src/d185.c:292-374 | writing and reading back gives every stored field and the code if and only if the grain is not large with an effect off or unset, and no stale value stands in for a zero |
| D185.Canonical | fp/src/d185.c:292-374 | every blob that is accepted has a canonical form of 629 bytes that is read as the same profile |
| D185.CanonicalCut | fp/src/cli.c:54-79 | even when the canonical form, in a buffer of zeros, is read at the length of the blob it was made from, whatever that length |
| D185.CutIsZero | fp/src/d185.c:358-363 | a blob cut off in front of a word is read as with that word and all behind it zero |
| D185.CutStaysAccepted | fp/src/d185.c:358-371 | cutting off never turns an accepted blob into a rejected one |
| D185.GrainInjective | fp/src/d185.c:232-240 | of the six grain settings only off with large and strong with small share a word |
| D185.SanitisedGrain | fp/src/xml.c:252-255 | a sanitised profile that can be written keeps its grain if and only if it does not have a large size with no effect set |
| D185.SanitisedHdr | fp/src/xml.c:229-243 | the dynamic range of a sanitised profile can be written if and only if the HDR mode is 200 or 400, or neither 800 nor 800PLUS with a range that is good as it is; with 800 or 800PLUS nothing can be written |
| D185.SanitisedWritable | fp/src/xml.c:217-285 | a sanitised profile can be written if and only if its HDR mode can and so could every property before that sanitising does not reset |
| D185.HdrIsLost | fp/src/xml.c:229-243 | a concrete profile: with HDR mode 800 it can be written, and once sanitised it cannot |
| D185.GrainIsLost | fp/src/xml.c:252-255 | a concrete profile: an unset effect with the large size passes sanitising, can be written, and is read back as another grain |
| D185.MergedParses | fp/src/data.c:15-49 | merging two writable profiles and passing the result through the binary form gives the camera's code, clarity, lens modulation and colour space and the user's value of every other stored field |
| Session.PtpRuntime.GetEvents | lib/fuji.c:122-188 | polling writes nothing and opens and closes nothing; its outcome is what the replies at hand give, and camera state, image mode and object count are afterwards the last ones reported in the reply |
| Session.PtpRuntime.Open | lib/fuji.c:348-390 | one or two handshakes are sent and nothing else but the opening of the session, which goes out under the next number as transaction 1 |
| Session.PtpRuntime.ReadVersions | lib/fuji.c:412-436 | the four versions are those the camera gave for the four properties |
| Session.PtpRuntime.AwaitAccess | lib/fuji.c:393-410 | the wait ends with a state that is neither missing nor waiting, or with an error |
| Session.PtpRuntime.ConfigInitMode | lib/fuji.c:191-227 | the mode written is the one that transport, remote version and camera state call for |
| Session.PtpRuntime.ConfigVersion | lib/fuji.c:229-272 | the version confirmed is the one read from the same property, or the client's own in remote mode |
| Session.PtpRuntime.ConfigLiveview | lib/fuji.c:670-728 | from no capture open, success leaves exactly one open under the remembered transaction, both sockets open and each opened once, with exactly the property writes that transport and earlier visits call for; failure never opens two captures |
| Session.PtpRuntime.BeginLiveview | lib/fuji.c:702-724 | opening succeeds if and only if the open, the poll and, the first time, the two connections all get good replies |
| Session.PtpRuntime.EndLiveview | lib/fuji.c:657-668 | succeeds if and only if the poll and the termination behind it get good replies, and then the capture is closed by the transaction that opened it; otherwise it stays open |
| Session.PtpRuntime.ConfigImageGallery | lib/fuji.c:730-779 | captures and sockets are left as they are, and success has written exactly the properties that the transport's gallery takes |
| Session.PtpRuntime.Setup | lib/fuji.c:342-501 | whatever the camera replies, the client state is not written before the camera has reported a state other than waiting; success leaves no capture open, each socket opened at most once, and the remote version that the camera gave, and has sent exactly the commands that transport, versions and the states reported in front of and behind the first write of the client state call for, in order; the transport is the one it was, but for a camera of the newer protocol below version 0x20007, which is taken for the older |
| Session.StartByNumbers | lib/fuji.c:348-447 | how every set-up begins, command by command |
| Session.CurrentByNumbers | lib/fuji.c:229-272 | an up-to-date camera over plain wireless has 0xdf24 set to 0x2000C and its storage number read |
| Session.RemoteByNumbers | lib/fuji.c:488-499 | in remote state one capture is opened and terminated and then the gallery entered, command by command |
| Session.OlderByNumbers | lib/fuji.c:453-486 | what automatic saving, an older camera and one that is sending pictures are sent |
| Session.XappByNumbers | lib/fuji.c:284-340 | what the newer protocol is sent |
| Session.ScreensByNumbers | lib/fuji.c:657-779 | what is sent to enter and leave live view and the gallery |
| Session.ModesByNumbers | lib/fuji.c:191-215 | the mode for every transport, version and state |
| Session.PollOutcomes | lib/fuji.c:122-131 | a refused poll is no error, and any other failure is |
| Session.PollByNumbers | lib/fuji.c:151-160 | a camera that is sending pictures has one described, and no other state does anything |
| Session.LastCounts | lib/fuji.c:140-152 | of several events of a code the last counts |
| Session.PtpRuntime.OnSwitchScreen | lib/module.c:363-378 | after a switch that reports success a capture is open if and only if the new screen is live view, except exactly when live view was left and the poll or the termination got a bad reply; then success is reported and the capture is still open. Leaving sends the termination when the poll went well, and goes on to the gallery whatever its reply; switches between other screens send nothing |
| Session.PtpRuntime.RunScreens | lib/module.c:363-378 | a run of switches is cut short only by a failed command, where a refusal that the code takes for an answer is no failure; without one, every switch is made, behind each of them a capture is open if and only if that screen is live view, there never are two, and each socket was opened at most once |
| Session.PtpRuntime.SetupAndRun | lib/fuji.c:342-501 | set-up and then any run of switches: without a failed command all of it succeeds, captures follow the screens at every step, and the client state was not written before access was given; a set-up that succeeds has sent exactly its commands |
| Session.LeavesCaptureOpen | lib/module.c:372-375 | a concrete camera that refuses the termination: the refused termination is on the trace, the commands of the gallery follow, success is reported and the capture is still open |
| Session.ErrorFree | lib/fuji.c:124-131 | no more errors on a trace than on its beginning means that no command in between failed; a refused poll, description of a picture or storage number, and a session that is open already, are no failures |
| Session.NeverBroken | lib/fuji.c:657-728 | a trace that ends well held no second open capture and no wrong termination at any point |
| Session.TerminateMatches | lib/fuji.c:664 | every termination names the transaction of the open before it, with no other open or termination between |
| Session.FirstWriteGuarded | lib/fuji.c:393-447 | at the first write of the client state the last reported camera state is neither missing nor waiting |
| Download.DownloadPieces | lib/fuji.c:815-858 | pieces arrive without gap or overlap from 0, none empty, never more than the reported size; how many bytes, which result and how many answers it takes are those of the loop's specification |
| Download.FetchWhole | lib/fuji.c:815-858 | the loop reports success only when it has delivered all of a non-empty object of the reported size |
| Download.FetchSucceeds | lib/fuji.c:815-858 | with no cancelling, a willing receiver and answers that each bring a byte, the whole of a non-empty object is delivered and success reported |
| Download.DownloadFileEx | lib/fuji.c:787-873 | result, bytes delivered and everything the camera is asked, for every camera, transport, receiver and cancelling; over plain wireless the result is that of the closing poll and write unless an error ended the loop at once |
| Download.DownloadByNumbers | lib/fuji.c:787-873 | a download over each transport, command by command |
| Download.OutcomesByCases | lib/fuji.c:793-803 | what the commands in front of the loop and behind it come to over each transport |
| Download.PiecesByNumbers | lib/fuji.c:820-822 | an object of up to 0x100000 bytes comes in one answer that holds it all, and one of a byte more in two |
| Download.OnlyWirelessMisreports | lib/fuji.c:861-872 | success means the whole object for every camera if and only if the transport is not plain wireless |
| Download.WirelessMisreports | lib/fuji.c:861-872 | a concrete camera: one byte of two is delivered over plain wireless and success reported |
| Download.AppDownloadFile | lib/module.c:91-121 | result, bytes delivered and answers used are those of the loop's specification, in gapless pieces and an empty one to end; success means the whole object if and only if no reply in front of its end was short of both the chunk and what was left |
| Download.ChunksSucceed | lib/module.c:97-118 | success is reported if and only if some reply brings less than was asked for and none up to it is an error |
| Download.ChunksWhole | lib/module.c:112-118 | a successful download is whole if and only if no reply in front of the end of the object was short of both the chunk and what was left |
| Download.ShortReplyEnds | lib/module.c:116-118 | a concrete camera: one byte of three is sent where two were asked for, and success reported |
| Download.PieceAt | lib/fuji.c:846-852 | each piece of a gapless run covers its own stretch of the whole, and the next begins where it ends |
| Exif.ExifParser.EnsureSize | lib/exif.c:35-45 | grows the buffer as specified for any replies: nothing if it is long enough, failure if more cannot be had, else the asked-for bytes and 1000 more; what was fetched stays as the file has it, and the buffer is long enough unless the length wraps |
| Exif.ExifParser.ParseIfd | lib/exif.c:47-104 | result, position, findings, buffer and replies left are those of the run over a directory; after success the thumbnail's window lies inside the buffer |
| Exif.ExifParser.StartEntries | lib/exif.c:106-137 | the same for the three directories of the block |
| Exif.ExifParser.Start | lib/exif.c:139-157 | the same for the segment behind the start of the picture |
| Exif.ExifParser.StartRaw | lib/exif.c:159-185 | the same for the whole parser, for every file, first chunk, sequence of replies and content of memory |
| Exif.FollowRaw | lib/exif.c:159-185 | a run looks at fetched bytes only if and only if the file's own steps do so with the same replies; then it gives up exactly if one of their fetches fails, otherwise gives what the file as a whole says, and leaves buffer and replies as they do |
| Exif.Granted | lib/exif.c:159-185 | if all fetches are granted, every look lies inside the buffer and the file if and only if it does so in the file's own steps, by lengths and offsets alone; then the run succeeds, or misses the header, as the file says, with the length of buffer those steps give |
| Exif.TwoRuns | lib/exif.c:159-185 | two runs over one file that look at fetched bytes only and are not refused agree on result and findings, whatever their first chunks, replies and memory |
| Exif.EntriesFit | lib/exif.c:51-57 | looks at entries are preceded by a fetch, so short of a wrapping offset they can only run into the end of the file |
| Exif.ShortChunk | lib/exif.c:119-120 | a concrete file of 104 bytes: the looks stay inside for first chunks of less than 100 bytes and of the whole file, and for no others |
| Exif.StrayThumbnail | lib/exif.c:119-127 | a concrete file, a first chunk of 100 bytes and a content of memory: the run succeeds with a thumbnail that the file does not have |
| RawFiles.RawFile | lib/exif.c:169-177 | behind any header that begins `FUJIFILMCCD-RAW` and names its own length at 0x54, a picture says what it says on its own, with the start of its block and a thumbnail moved by that length |
| RawFiles.RawRun | lib/exif.c:159-185 | and a run over such a file finds that |
| RawFiles.NotAPicture | lib/exif.c:179-184 | a file that is neither holds nothing, and that is no error |
| RawFiles.SampleSays | lib/exif.c:106-157 | a literal picture with a JFIF part, a linked directory and a further one |
| RawFiles.RawSampleSays | lib/exif.c:169-177 | the same picture in a literal raw file |
| Exif.Ifd | lib/exif.c:47-62 | a directory of n entries takes exactly 2 + 12n bytes (section 2 of TIFF 6.0) |
| Exif.EntriesFind | lib/exif.c:64-74 | of several entries with the same tag the last one counts, for the thumbnail's offset from the start of the block, its size and the further directory |

## Left out

- Parameter entities, attribute-list defaults and internal subsets: a document whose `<!DOCTYPE` has one is
  outside the parser model (`Beyond`); entity declarations are modelled on their own in `Entities.dfy`.
- Processing instructions are read past; what they are kept for, and printing them, is not modelled. `<?>` is `Beyond`.
- A byte order mark with nothing behind it is `Beyond`: the code then reads in front of the converted text.
- `ezxml_free`, `mmap` and file reading; buffers that hold document text while it is parsed are sequences, and the
  NUL characters the parser writes into them to end names and values appear as slices.
- The parser model is a tree of values with a cursor (`Parsing.Document.Tree`), not heap tags with parent links; that
  inserting at non-decreasing offsets appends to the chains is `TagIndex.Tag.Append`. The tree a failed parse leaves
  behind is not part of its outcome.
- Plain `char` is taken to be signed, so bytes from 0x80 on begin a name.
- Line ends: where text ends in a raw CR the loop steps over the terminator. Inside a document it then normalises
  text that follows, which comes to the same; beyond that the model stops at the end of the text.
- Attributes without a value share one empty string in the code, which compares pointers; the model goes by names, so
  of two such attributes of the same name it prints the first only.
- Entities.CheckAgainstRecursion: for names none of which goes on behind another, as names without an inner semicolon.
- Decoding.Decode: for entities that end in their only semicolon and close their references inside their own text,
  without which the search for the closing semicolon leaves the text put in.
- Decoding.DecodeCharRef: a reference such as `&#-256;` stands for a NUL character; the code's text ends there, the
  model's goes on.
- TagIndex.Tag.Cut: for the first child, and for any other tag when neither it nor the next of its name is on the
  sibling chain behind the first of that name. Cutting such a stale entry, which insertion in front of a first child
  of the same name leaves, is modelled for the first child only; elsewhere the code can leave the cut tag on the chain.
- Utf8.Encode: for codes of more than 41 bits, which no character has, the lead byte is a shift by a negative amount in the code; the model gives 0xFF.
- RoundTrip.PrintedParses: covers names the parser can read back and text without NUL, for the parser ends its input there.
- D185.Canonical: for the variable that takes the words starting at zero each time, which the code leaves open but
  plainly means; `D185.CreatedParses` says what any other start does. The same holds for the next three lines.
- D185.CanonicalCut: as above.
- D185.SanitisedGrain: as above.
- D185.MergedParses: as above.
- D185.CreateD185: the length guard admits one byte less than is written, so the buffer must hold 629 bytes when the guard passes.
- The profile's text fields, the settings no modelled code touches, and the table keys; the XML property dispatcher
  and `fp_dump_struct`, which are unfinished and not inverse to anything.
- Session.PtpRuntime.GetEvents: the branch for wireless tethering, which fetches into the list it is walking, is not modelled.
- Session.PtpRuntime.SetupAndRun: as `Setup`, and for screens as the frontend reports them, old and new in step.
- Session.PtpRuntime.Setup: storage names, logging, sleeps and progress reports are not modelled; the camera, its sockets and the
  libraries that send commands are a script of replies. A send uses the current transaction number and then counts it up.
- Exif.ExifParser.EnsureSize: a source that is given a length shorter than the buffer, which a length that wraps
  around can be, is taken to cut the buffer, where the one in `lib/fuji.c` would write behind it.
- A look outside the buffer gives some byte of memory and never ends the program; comparing bytes counts as a look at
  all of them, and the bytes of an entry as one look.
- Download.DownloadFileEx: each command is one answer of the camera, also a poll, whose events are not followed there.
- Thumbnails, discovery, Bluetooth, USB, the command line and test programs.
