# Algorithms of smartmontools

This project models the algorithmic core of smartmontools in Dafny and proves what the
code promises about it. `dafny verify dfyconfig.toml` checks everything.

| file | what it models |
|---|---|
| `Hexdump.dfy`, `HexdumpText.dfy` | the incremental hex dumper: blocks, skip states, lines as events, and their text |
| `HexdumpSkip.dfy`, `HexdumpLayout.dfy`, `HexdumpLines.dfy` | which blocks are shown, the columns of a line, and the line ends |
| `SelectiveTest.dfy`, `SelectiveLog.dfy`, `SelectiveRequests.dfy` | the span scheduler of the selective self-test, the log it writes, and what each kind of request comes to |
| `JsonKey.dfy`, `JsonTree.dfy`, `JsonNodes.dfy`, `JsonListing.dfy`, `JsonPaths.dfy` | JSON keys, the tree as a value, the mutable node tree, the flat listing, what setting a path changes, and the order of sorted keys |
| `JsonText.dfy`, `JsonGrammar.dfy`, `JsonRoundTrip.dfy`, `JsonDocument.dfy`, `JsonLongKeys.dfy`, `JsonPrinter.dfy`, `JsonLayout.dfy`, `Utf8.dfy` | the JSON printer, a parser for RFC 8259, their round trip, the pretty layout, and the UTF-8 checker |
| `DriveDbLexer.dfy`, `DriveDbParser.dfy`, `DriveDbRoundTrip.dfy`, `DriveDbAccepts.dfy` | the drive database lexer and parser, reading files back, and the texts that are accepted |
| `Crc32.dfy`, `JmbSector.dfy`, `JmbSession.dfy`, `JmbRequests.dfy`, `JmbSafety.dfy`, `JmbDevice.dfy` | the JMB39x tunnel: CRC-32, sectors, sessions as functions, requests as the controller reads them, whole runs, and the device class |
| `IpropCrc.dfy`, `IpropDevice.dfy` | the CRC-16 of the IntelliProp log and the switch of the routed drive |
| `AttrDefs.dfy`, `Presets.dfy` | the priorities of attribute options, and preset strings |
| `FarmLog.dfy`, `FarmLayout.dfy` | the walk over the SCSI FARM log page, and the structure that it fills |
| `Ps3stor.dfy` | scatter and gather of SCSI data for ps3stor controllers |
| `Common.dfy` | types that several modules share |

Code that changes state is imperative here too: classes with the fields of the source,
arrays changed in place, and loops. Each such method is proved equal to a function of its
inputs or of the old state, and the properties are lemmas about these functions.

Devices are an environment. Where a result depends on what a device answers, the answers
come from an oracle (a function from the number of the call to its outcome), and the lemmas
hold for every oracle: success or failure of each call, the data read inside a session, and
what a write leaves behind are arbitrary.

## Where a promise does not hold

Some properties that one would expect are false of the code. They are stated here with the
exact condition under which they hold.

* Without offsets a hex dump that skips blocks cannot be read back: three and four equal
  blocks look the same (`Hexdump.ThreeOrFour`, `Hexdump.FaithfulCondition`). One call with
  empty data finishes a dump, so `hexdump()` prints a final offset twice for empty data
  (`Hexdump.HexdumpAll`). The way the data is cut into chunks matters if the width of the
  offset grows with the first chunk (`Hexdump.CutsCondition`, `Hexdump.CutsExample`).
* A span of one sector at LBA 0 is taken for an empty span and is never left, so a cycle of
  spans covers the disk exactly if the spans have two sectors, or the disk has one
  (`SelectiveTest.CoverageCondition`, `SelectiveTest.StuckAtZero`).
* The size adjustment of the self-test divides by zero for some reversed or very long spans
  in the log of the drive, such as 1000-999 on a disk of 1000 sectors
  (`SelectiveTest.DivisionCondition`, `SelectiveTest.DivisionExample`); well-formed spans are
  safe.
* Opening a JMB39x device while a write-back is due forgets it, be the device blocked or not;
  otherwise opening is safe (`JmbSafety.OpenCondition`, `JmbSafety.LostByReopen`,
  `JmbSafety.LostByBlockedReopen`). `JmbSafety.RunSafe` and `JmbSafety.CloseCondition` are
  about the runs without such an open. After a failed wakeup write, closing returns true
  although the sector is lost (`JmbSafety.CloseCondition`, `JmbSafety.LostByWakeup`).
* A name that the database gives an attribute survives or not, depending on the order of the
  options, while format, flags and byte order do not; the name is independent of it exactly
  if the highest priority gives one or no lower one can (`AttrDefs.NameCondition`).
* The check of the page length of the FARM log is three bytes too generous: for the lengths
  65518 to 65520 the code reads behind its buffer on some pages, and for no others
  (`FarmLog.SafeLengths`).
* The code writes out of bounds when it meets parameter 0x83 of the FARM log: the comment in
  lib/farmcmds.cpp says that this parameter ends at the end of the structure, but by the
  offsets of the code it begins there, so its header and up to 255 bytes of data are written
  behind the structure (`FarmLog.RunFits`, `FarmLog.StoredOutside`).
* The data of a FARM parameter is stored when a metric behind it is read, so the data of the
  last parameter of a page is lost (`FarmLog.LastDataLost`, `FarmLog.SignatureLost`): the data
  of every known parameter is stored exactly if the last parameter is unknown or has no data
  (`FarmLog.StoredCondition`).
* Codes below 0x83 that have no section in the structure of the FARM log are stored over the
  section of another parameter: those up to 0x4f over the first one by head, and the ones
  behind an actuator, such as 0x53 to 0x5f, over the next actuator
  (`FarmLayout.BorrowedPlace`). All other parameters have places of their own
  (`FarmLayout.SectionsDisjoint`).
* The size check of the ps3stor command counts blocks in 32 bits. Transfers of 2^32 blocks, or
  up to 14 more, or of a multiple of that, pass it, and only the blocks behind the multiple
  are transferred (`Ps3stor.EffectiveCondition`, `Ps3stor.EffectiveExample`).
* A printed JSON string reads as the original exactly if it is valid UTF-8 without control
  characters other than TAB and without DEL (`JsonRoundTrip.QuotedExact`), and so does a
  whole document (`JsonDocument.DocumentExact`). A document parses as the value of its tree
  exactly if no key is longer than 508 characters (`JsonLongKeys.DocumentCondition`), and
  its pretty layout has a space behind every colon exactly if none has 508 either
  (`JsonLayout.LayoutCondition`).

## Model

| member | source | states |
|---|---|---|
| Hexdump.Hexdumper.Start | lib/hexdump.cpp:28-47 | the first call fixes the offset width from the options and its size, and enables skipping |
| Hexdump.Hexdumper.TakeBlock | lib/hexdump.cpp:53-62 | the next block is the kept bytes followed by new bytes, as many as there are |
| Hexdump.Hexdumper.SkipBlock | lib/hexdump.cpp:87-113 | skipping a repeated block keeps the state invariant; its `*` is printed, or delayed while the block may be the last |
| Hexdump.Hexdumper.KeepBlock | lib/hexdump.cpp:123-138 | a block that is not skipped first flushes the delayed `*` and is saved for the next comparison |
| Hexdump.SkipStep | lib/hexdump.cpp:87-112 | what the output owes in each skip state after one more repeated block |
| Hexdump.Hexdumper.Write | lib/hexdump.cpp:52-186 | a call with data adds exactly its bytes to the dump and keeps the rest of a block for later |
| Hexdump.Hexdumper.Finish | lib/hexdump.cpp:64-71 | the end prints what is left: the lines written since the last end are the dump of all bytes, and the start state is back |
| Hexdump.Hexdumper.Call | lib/hexdump.cpp:24-197 | both kinds of calls as changes of the bytes seen and of the lines written |
| Hexdump.DumpChunks | lib/hexdump.cpp:24-197 | for every way of cutting the data into chunks the lines are those of one dump of all bytes |
| Hexdump.HexdumpAll | include/smartmon/hexdump.h:100-106 | the convenience function dumps once, and twice for empty data |
| Hexdump.ChunksDoNotMatter | lib/hexdump.cpp:30-41 | the offset width does not depend on the first chunk if there are no offsets or the maximal offset covers the data |
| Hexdump.WidthMonotone | lib/hexdump.cpp:32-40 | in general the width grows with the size of the first chunk |
| Hexdump.CutsCondition | lib/hexdump.cpp:30-41 | all ways to cut the data agree with one call exactly if every first chunk gives the final width, which a first chunk of one byte decides unless the offsets overflow |
| Hexdump.CutsExample | lib/hexdump.cpp:30-41 | 300 bytes with a maximal offset of 1 |
| Hexdump.SplitUnique | lib/hexdump.cpp:52-80 | full blocks and a shorter rest are the only way to split data |
| Hexdump.NothingLost | lib/hexdump.cpp:84-138 | refilling every gap with the block before it gives back the data, with offsets or without skipping |
| Hexdump.FaithfulCondition | lib/hexdump.cpp:84-156 | different data give different lines exactly if offsets are shown or nothing is skipped |
| Hexdump.ThreeOrFour | lib/hexdump.cpp:84-138 | a pair of dumps that look the same without offsets |
| HexdumpText.FormatLine | lib/hexdump.cpp:140-184 | the line put together in its buffer is the rendered line, and the buffer never runs out |
| HexdumpText.PutHex | lib/hexdump.cpp:158-165 | the loop over the bytes writes the whole hex column |
| HexdumpText.PutAscii | lib/hexdump.cpp:167-181 | the gap and the ASCII column |
| HexdumpText.ParseRender | lib/hexdump.cpp:132-184 | reading a printed line gives its offset value and its bytes |
| HexdumpText.ParseHex | lib/hexdump.cpp:158-165 | the hex column reads as its bytes and ends where the column ends |
| HexdumpText.TextNothingLost | lib/hexdump.cpp:24-197 | the printed text alone gives back every byte of the data |
| HexdumpText.ChunksText | lib/hexdump.cpp:24-197 | the same for the width that the first chunk gives, for every way of cutting the data |
| HexdumpSkip.DumpIs | lib/hexdump.cpp:84-138 | a dump block by block, from the data alone: its line, a `*` for the first of some skipped blocks, or nothing, and then the rest and the final offset |
| HexdumpSkip.NoStar | lib/hexdump.cpp:87-88 | level 0: no `*`, and a line for every block |
| HexdumpSkip.OnlyZerosSkipped | lib/hexdump.cpp:87-88 | level 1: a block has a line exactly if it is not all zero, is the first, follows one that is not all zero, or shows the total size |
| HexdumpSkip.IdenticalSkipped | lib/hexdump.cpp:87-88 | level 2: a block has a line exactly if it is the first, differs from the one before it, or shows the total size |
| HexdumpLayout.LineColumns | lib/hexdump.cpp:140-184 | every character of a line by its column: the zero-padded digits of the offset, the digits of each byte, and the ASCII column between its bars |
| HexdumpLayout.PaddedColumns | lib/hexdump.cpp:146-149 | a number that fits the width is printed with exactly this width, each digit by its weight, zeros in front |
| HexdumpLayout.WidthIs | lib/hexdump.cpp:30-41 | the width is the number of hex digits of the largest offset, and at least two if the maximal offset is 1 |
| HexdumpLayout.HexSpaces | lib/hexdump.cpp:158-165 | between the digits of two bytes there are spaces only |
| HexdumpLayout.AsciiAligned | lib/hexdump.cpp:167-171 | the ASCII column begins at the same place in every line, also behind a short one |
| HexdumpLines.LinesEnded | lib/hexdump.cpp:132-184 | the printed text is the lines with a line end behind each; the option without a final line end leaves out the last one and nothing else |
| HexdumpLines.BareIs | lib/hexdump.cpp:140-184 | a line begins with the prefix, cut to 40 characters, and holds no line end behind it |
| SelectiveTest.AdjustedSize | lib/atacmds.cpp:983-984 | the adjusted size f(z) is between 1 and z, is its own adjusted size, and gives the same number of spans |
| SelectiveTest.AdjustedAtLeastTwo | lib/atacmds.cpp:983-984 | spans of two sectors are not adjusted to one, unless the disk has one |
| SelectiveTest.NextFollows | lib/atacmds.cpp:967-992 | from a span of a cycle, the next span is the one that follows in the cycle |
| SelectiveTest.ServeFollows | lib/atacmds.cpp:929-1012 | redo keeps the span and next moves on, also when the drive has cleared its log |
| SelectiveTest.RunFollows | lib/atacmds.cpp:926-1013 | any run of requests stays in the cycles, at the place that the number of moves gives |
| SelectiveTest.CycleCovers | lib/atacmds.cpp:977-991 | the spans of each cycle cover every sector |
| SelectiveTest.RunCovers | lib/atacmds.cpp:926-1013 | a run with enough moves, redos interleaved, tests every sector |
| SelectiveTest.CycleReturns | lib/atacmds.cpp:971-973 | after as many moves as there are spans the run is back at LBA 0, with the adjusted size |
| SelectiveTest.AnySpanReachesLbaZero | lib/atacmds.cpp:967-992 | from any span of two sectors or more a run comes to a span at LBA 0 |
| SelectiveTest.CoverageCondition | lib/atacmds.cpp:968-970 | coverage from LBA 0 holds exactly for spans of two sectors, or a disk of one sector |
| SelectiveTest.StuckAtZero | lib/atacmds.cpp:968-970 | no request leaves the empty span |
| SelectiveTest.DivisionCondition | lib/atacmds.cpp:979-985 | the stored spans for which the size adjustment divides by zero: spans of almost 2^64 sectors, and reversed spans whose ends are less than a disk apart |
| SelectiveTest.DivisionExample | lib/atacmds.cpp:979-985 | the span 1000-999 on a disk of 1000 sectors |
| SelectiveLog.ResolveNext | lib/atacmds.cpp:967-993 | the statements of the mode `next` compute the scheduled span, or divide by zero |
| SelectiveLog.ResolveSpan | lib/atacmds.cpp:956-1008 | mode, start and end of one argument, an error, or a division by zero |
| SelectiveLog.ResolveSpans | lib/atacmds.cpp:926-1013 | the arguments are resolved in place up to the first failure |
| SelectiveLog.AtaChecksum | lib/atacmds.cpp:514-520 | the sum of all bytes of a sector, modulo 256 |
| SelectiveLog.ChecksumByte | lib/atacmds.cpp:1045-1050 | the two's complement of the other bytes is the only checksum byte that makes the sum zero |
| SelectiveLog.FinishLog | lib/atacmds.cpp:1015-1050 | the log to be written: cleared and set spans, flags, pending time, and a checksum that makes its bytes sum to zero |
| SelectiveFlags.FlagBits | lib/atacmds.cpp:1029-1039 | only the three documented flag bits change |
| SelectiveLog.PrepareSelectiveSelfTest | lib/atacmds.cpp:896-1061 | return value, arguments and log for every outcome: 0 exactly while a test is in progress; nothing is written on an error or while a test runs |
| SelectiveRequests.ContinueIs | lib/atacmds.cpp:933-943 | `cont` gives what `redo` gives after status 1 or 2, and what `next` gives after any other status |
| SelectiveRequests.StatusIgnored | lib/atacmds.cpp:933-943 | no other mode depends on the status |
| SelectiveRequests.ContinueServes | lib/atacmds.cpp:933-943 | an interrupted span is served again before the run moves on |
| SelectiveRequests.ContinueCovers | lib/atacmds.cpp:926-1013 | from LBA 0, `cont` requests alone test every sector once enough tests have been completed, whatever was interrupted in between |
| SelectiveRequests.RangeSectors | lib/atacmds.cpp:956-1007 | START-END selects exactly its sectors that are on the disk; it is refused exactly if it is empty or behind the disk |
| SelectiveRequests.RedoSectors | lib/atacmds.cpp:959-1007 | redo selects the sectors of the old span that are on the disk |
| SelectiveRequests.RedoSizeSectors | lib/atacmds.cpp:959-1007 | redo+SIZE selects SIZE sectors from the old start on, up to the end of the disk; it is refused exactly if the start is behind the disk or the end overflows |
| SelectiveRequests.NextSectors | lib/atacmds.cpp:967-992 | next selects as many sectors behind the old span as it has, or the last ones of the disk |
| SelectiveRequests.NextSizeSectors | lib/atacmds.cpp:967-1007 | next+SIZE selects SIZE sectors behind the old span, or from LBA 0 at the end of the disk, and LBA 0 alone behind an empty span; it is refused exactly if the end overflows |
| SelectiveRequests.UnknownRefused | lib/atacmds.cpp:994-995 | a request of unknown mode is refused |
| JsonKey.Str2Key | lib/json.cpp:41-73 | the key is the lower-case words of the name joined by single underscores, and not longer than the name |
| JsonKey.KeyTidy | lib/json.cpp:34-40 | no leading, trailing or doubled underscore, unless the key is a single underscore |
| JsonKey.KeyIdempotent | lib/json.cpp:34-40 | a key is its own key |
| JsonKey.KeyOfWord | lib/json.cpp:41-73 | the key of a name of letters and digits is the name with its capitals in lower case |
| JsonKey.KeyJoins | lib/json.cpp:41-73 | at any other character the key is the keys of both sides joined by one underscore, where a side without letters and digits leaves nothing |
| JsonTree.SetBuilt | lib/json.cpp:317-375 | setting an element keeps the shape of the tree: distinct keys, no empty object or array, no gap at the end of an array |
| JsonPaths.SetValueAt | lib/json.cpp:317-375 | a set value is found at its path, and the value at every other path is what it was |
| JsonPaths.SetBeside | lib/json.cpp:317-375 | subtrees beside the path stay as they are |
| JsonPaths.SetCondition | lib/json.cpp:319-375 | setting succeeds exactly if every node above fits its step and the node at the path is free or has a value of the same type |
| JsonPaths.SetShape | lib/json.cpp:330-367 | a new key goes behind the others and an old one keeps its place; an array grows to hold the index |
| JsonPaths.ShapeAlong | lib/json.cpp:330-367 | the same at every node on the path |
| JsonTree.ReplayFlat | lib/json.cpp:696-757 | setting the listed values again in their order rebuilds the tree, with array lengths, gaps and key order |
| JsonTree.ReplaySorted | lib/json.cpp:279-315 | a sorted listing rebuilds the tree up to the order of keys |
| JsonTree.SortedSame | lib/json.cpp:279-315 | sorting changes nothing but the order of keys |
| JsonPaths.SortedKeys | lib/json.cpp:279-315 | a sorted object lists the keys that it had, in lexicographic order: a prefix first, else the smaller character where two keys differ first |
| JsonTree.KeyIndexExact | lib/json.cpp:330-343 | `key2index` holds every key with the position of its child and nothing else, in key order |
| JsonTree.LookupIsFind | lib/json.cpp:331-336 | looking up a key in `key2index` finds the child with this key |
| JsonNodes.EnterChild | lib/json.cpp:332-336 | going on to an existing object element |
| JsonNodes.AddChild | lib/json.cpp:337-341 | creating an object element and its index entry |
| JsonNodes.EnterItem | lib/json.cpp:347-367 | array elements: existing, in a gap, or behind the end with new gaps |
| JsonNodes.Walk | lib/json.cpp:319-368 | the loop keeps the promise of the new tree: every node but the current one stands for its part of it |
| JsonNodes.TakeType | lib/json.cpp:370-375 | an element keeps its type, integers may change among themselves |
| JsonNodes.Json.FindOrCreateNode | lib/json.cpp:317-375 | the node for a path; a failed assertion leaves the whole tree as it was |
| JsonNodes.Json.SetBool | lib/json.cpp:377-382 | the tree after the call is the old tree with the value set at the path |
| JsonNodes.Json.SetInt64 | lib/json.cpp:384-389 | the same for signed integers, stored as unsigned |
| JsonNodes.Json.SetUint64 | lib/json.cpp:391-396 | the same for unsigned integers |
| JsonNodes.Json.SetUint128 | lib/json.cpp:398-405 | the same for 128-bit integers |
| JsonNodes.Json.SetString | lib/json.cpp:415-420 | the same for strings |
| JsonListing.OutputFlat | lib/json.cpp:696-757 | the recursion prints the listing of the subtree and puts the shared path back |
| JsonListing.OutputFields | lib/json.cpp:706-725 | the children of an object in their order, or in key order |
| JsonListing.Rebuild | lib/json.cpp:377-420 | reading a listing back through the setters |
| JsonListing.Copy | lib/json.cpp:696-757 | printing and reading back gives an equal tree, or one that differs in key order if sorted |
| JsonPrinter.PutEscaped | lib/json.cpp:504-517 | one character of a quoted string |
| JsonPrinter.PrintQuotedString | lib/json.cpp:498-520 | the printed string; the check from the first byte above 0x7f on decides for the whole string |
| JsonPrinter.OutputJson | lib/json.cpp:563-623 | the printed text of a subtree, pretty or not, sorted or not |
| JsonPrinter.OutputDocument | lib/json.cpp:759-782 | the text is valid UTF-8 and parses as the value of the tree if no key is too long; nothing is printed for an empty tree |
| JsonLayout.PrettyLayout | lib/json.cpp:563-623 | a scanner finds every element on a line of its own, indented by two spaces for each open bracket, one space behind each colon and no other white space; without them it is the compact document |
| JsonLayout.LayoutCondition | lib/json.cpp:563-623 | documents without cut keys have this layout exactly if no key has 508 characters |
| JsonLayout.ControlShown | lib/json.cpp:504-517 | a control character is shown by its code in two hex digits |
| JsonPrinter.KeyIsPlain | include/smartmon/json.h:86-92 | every key made from a name is plain |
| JsonRoundTrip.ParseQuoted | lib/json.cpp:498-520 | a printed string is a JSON string for arbitrary bytes |
| JsonRoundTrip.QuotedExact | lib/json.cpp:498-520 | it reads as the original exactly if the original is plain |
| JsonRoundTrip.QuotedUtf8 | lib/json.cpp:498-520 | it is valid UTF-8 for arbitrary bytes |
| JsonDocument.ParsePrint | lib/json.cpp:563-623 | parsing a printed value without long keys gives the value of the tree, null for gaps, and ends where it ends |
| JsonDocument.ParseDocument | lib/json.cpp:759-775 | the same for a whole document |
| JsonDocument.DocumentExact | lib/json.cpp:498-623 | a document gives back its tree with all strings as they are exactly if every string is plain |
| JsonLongKeys.DocumentCondition | lib/json.cpp:563-623 | a document parses as the value of its tree exactly if no key is longer than 508 characters |
| JsonLongKeys.LongWrong | lib/json.cpp:563-623 | a value with a longer key anywhere in it fails to parse or parses as something else |
| JsonDocument.ParseDecimal | lib/json.cpp:598-611 | printed integers read as their value |
| JsonDocument.PrintUtf8 | lib/json.cpp:563-623 | documents are valid UTF-8 |
| Utf8.CheckUtf8 | lib/json.cpp:463-496 | the loop over shift, value and minimum returns -1 exactly for the grammar of section 4 of RFC 3629 |
| Utf8.CheckIsUtf8 | lib/json.cpp:463-496 | the state machine accepts exactly the octets of the grammar |
| Utf8.CheckMeansEncoded | lib/json.cpp:463-496 | and exactly the concatenations of encodings of section 3 of RFC 3629 |
| Utf8.OctetsAreEncoded | lib/json.cpp:479-489 | what matches the grammar is a concatenation of encodings of its character numbers |
| DriveDbLexer.SkipWhite | lib/knowndrives.cpp:655-698 | white space and comments are skipped, and the line number counts the line ends passed |
| DriveDbLexer.LexString | lib/knowndrives.cpp:721-752 | escapes, line continuation, and joined string constants |
| DriveDbLexer.GetToken | lib/knowndrives.cpp:711-766 | every token but the end of the input consumes a character |
| DriveDbParser.ParseDriveDatabase | lib/knowndrives.cpp:769-874 | the parser reads all tokens and fills the database with the entries of the run; it ends for every input |
| DriveDbParser.SkipToEntry | lib/knowndrives.cpp:787-790 | error recovery skips to the next opening brace |
| DriveDbParser.DriveDatabase.PushBack | lib/knowndrives.cpp:106-115 | a new entry goes behind the other custom entries |
| DriveDbParser.DriveDatabase.At | lib/knowndrives.cpp:100-104 | custom entries come before the builtin table |
| DriveDbRoundTrip.LexLiteral | lib/knowndrives.cpp:721-752 | a string in any layout: escaped, split, with comments between its parts |
| DriveDbRoundTrip.TokensOfFile | lib/knowndrives.cpp:711-766 | the tokens of a file in any layout |
| DriveDbRoundTrip.ReadBack | lib/knowndrives.cpp:769-874 | a file gives back exactly its entries in their order, whatever the layout, and no errors but those of the field checks |
| DriveDbRoundTrip.WritableEntries | lib/knowndrives.cpp:721-752 | a list of entries can be written as a file exactly if its strings hold no NUL |
| DriveDbRoundTrip.AnyEntriesReadBack | lib/knowndrives.cpp:769-874 | every such list comes back from the file that its canonical layout gives |
| DriveDbRoundTrip.LaterEntriesSurvive | lib/knowndrives.cpp:782-794 | an unexpected token costs the entry it stands in and none behind it |
| DriveDbAccepts.AcceptedCondition | lib/knowndrives.cpp:769-874 | the parser returns true exactly for the texts that are files of this layout with fields that pass their checks, and then the entries are those of the file |
| DriveDbAccepts.StringCondition | lib/knowndrives.cpp:721-752 | the lexer returns a string exactly for a string of this layout: an unknown escape, a bare line end or a missing quotation mark is an error |
| DriveDbAccepts.WhiteSplit | lib/knowndrives.cpp:655-698 | what is skipped is white space and comments; only at the end of the input a comment may be left open |
| Crc32.TableIs | lib/dev_jmb39x_raid.cpp:84-118 | every entry of the table is what eight shifts with the polynomial 0x04c11db7 make of its index |
| Crc32.TableStepIs | lib/dev_jmb39x_raid.cpp:124-127 | a table step is eight single shifts after the byte enters at the top |
| Crc32.DwordInjective | lib/dev_jmb39x_raid.cpp:122-128 | from one register value, different dwords lead to different values |
| Crc32.DwordStateInjective | lib/dev_jmb39x_raid.cpp:122-128 | from different register values, one dword leads to different values |
| JmbSector.JmbCrc | lib/dev_jmb39x_raid.cpp:82-130 | the loop computes the checksum of the first 127 dwords |
| JmbSector.CrcIsBitwise | lib/dev_jmb39x_raid.cpp:82-130 | the checksum is the bit-by-bit CRC of the byte-reversed dwords |
| JmbSector.SealedOk | lib/dev_jmb39x_raid.cpp:131-144 | storing the checksum makes the check pass |
| JmbSector.OkMeansSealed | lib/dev_jmb39x_raid.cpp:131-144 | nothing but the stored checksum makes it pass |
| JmbSector.DwordErrorDetected | lib/dev_jmb39x_raid.cpp:141-144 | any change confined to one of the 128 aligned dwords makes it fail |
| JmbSector.JmbXor | lib/dev_jmb39x_raid.cpp:39-80 | the obfuscation in place, byte by byte |
| JmbSector.ObfuscatedTwice | lib/dev_jmb39x_raid.cpp:77-80 | the obfuscation undoes itself |
| JmbSector.JmbSetRequestSector | lib/dev_jmb39x_raid.cpp:171-191 | the request sector: code, id, command, zeros and checksum |
| JmbSector.EmbedData | lib/dev_jmb39x_raid.cpp:412-419 | data embedded in a request, cut to what fits, with a new checksum |
| JmbSector.RequestRead | lib/dev_jmb39x_raid.cpp:171-191 | code, id, command and data can be read back from a request |
| JmbSector.JmbSetWakeupSector | lib/dev_jmb39x_raid.cpp:152-169 | the four wakeup sectors |
| JmbSector.JmbGetSectorType | lib/dev_jmb39x_raid.cpp:193-203 | plain, obfuscated or foreign |
| JmbSector.ObfuscatedNotForeign | lib/dev_jmb39x_raid.cpp:193-203 | nothing that the protocol has sealed passes for foreign data |
| JmbSession.WithSumIsZero | lib/dev_jmb39x_raid.cpp:759-760 | the adjusted last byte makes the sum of a truncated sector zero |
| JmbSession.LatestIs | lib/dev_jmb39x_raid.cpp:675-692 | the reconstructed index is the first of the used entries with the most power-on hours |
| JmbRequests.RequestAsks | lib/dev_jmb39x_raid.cpp:723-742 | the controller reads from the sector on the disk, obfuscation, header and checksum taken off, the port, the direction, all registers and the data of the caller |
| JmbRequests.SupportIs | lib/dev_jmb39x_raid.cpp:620-656 | which commands are sent, and whose data end with a checksum |
| JmbRequests.PassPasses | lib/dev_jmb39x_raid.cpp:700-770 | one request for a supported command on an open device and nothing otherwise; success exactly if the answer is valid and says ready without error; and how the device changes |
| JmbRequests.DeliveredHolds | lib/dev_jmb39x_raid.cpp:752-766 | the caller gets bytes 32 to 495 of the answer and zeros, but for a last byte that makes the sum zero and the reconstructed index |
| JmbRequests.OpenOpens | lib/dev_jmb39x_raid.cpp:493-598 | open succeeds exactly if the sector may be used, every call succeeds, and the controller answers the identify command with the name of a disk; otherwise the device below is closed |
| JmbRequests.CloseCloses | lib/dev_jmb39x_raid.cpp:600-611 | close writes the original sector back if that is due, closes the device below in any case, and succeeds exactly if both do |
| JmbDevice.Jmb39xDevice.RunJmbCommand | lib/dev_jmb39x_raid.cpp:403-470 | the device after a command is that of the session function: request, response, checks, id |
| JmbDevice.Jmb39xDevice.RestoreOrigData | lib/dev_jmb39x_raid.cpp:480-491 | writing the original data back |
| JmbDevice.Jmb39xDevice.Open | lib/dev_jmb39x_raid.cpp:493-598 | open as a function of the old device and the answers of the disk, and what it comes to: `JmbRequests.Opens` |
| JmbDevice.Jmb39xDevice.Close | lib/dev_jmb39x_raid.cpp:600-611 | close, the same, and `JmbRequests.Closes` |
| JmbDevice.Jmb39xDevice.Destroy | lib/dev_jmb39x_raid.cpp:361-368 | the destructor writes back what close has not |
| JmbDevice.Jmb39xDevice.AtaPassThrough | lib/dev_jmb39x_raid.cpp:700-770 | pass-through, the same, with the buffer of the caller, and `JmbRequests.Passes` |
| JmbDevice.FixSelftestLogIndex | lib/dev_jmb39x_raid.cpp:658-698 | the index of the self-test log reconstructed in place |
| JmbSafety.RunSafe | lib/dev_jmb39x_raid.cpp:493-611 | over every run, whenever no session is active and the device is not blocked, the sector holds its first content, or zeros for forced protocol data |
| JmbSafety.CloseSafe | lib/dev_jmb39x_raid.cpp:600-611 | a close that returns true has restored the sector, unless nothing was due after a failure |
| JmbSafety.OpenCondition | lib/dev_jmb39x_raid.cpp:493-500 | whatever the disk does, opening keeps the device safe and drops no write-back of a lost sector, exactly if no write-back is due, be the device blocked or not |
| JmbSafety.CloseCondition | lib/dev_jmb39x_raid.cpp:600-611 | in every run a true result means a restored sector exactly if a write-back is due, nothing has failed, nothing has been written yet, or the last write was a successful restore |
| JmbSafety.RunSettled | lib/dev_jmb39x_raid.cpp:480-611 | in every run the log of writes tells whether the sector is intact |
| JmbSafety.LostByReopen | lib/dev_jmb39x_raid.cpp:493-500 | a run in which a second open loses the sector, although the device is not blocked and close returns true |
| JmbSafety.LostByBlockedReopen | lib/dev_jmb39x_raid.cpp:495-498 | a run in which opening a blocked device drops its write-back: closing it directly restores the sector, closing it after the open returns true and does not |
| JmbSafety.LostByWakeup | lib/dev_jmb39x_raid.cpp:547-565 | a run in which close returns true and the sector is lost |
| JmbSafety.DestroySafe | lib/dev_jmb39x_raid.cpp:361-368 | a successful write-back by the destructor restores the sector |
| JmbSafety.RunOrderly | lib/dev_jmb39x_raid.cpp:403-611 | over every run the writes follow the protocol: four wakeup sectors, requests, one restore; without force the sector was zero before |
| JmbSafety.ConsecutiveIds | lib/dev_jmb39x_raid.cpp:427-468 | the m-th request of a session carries the id m on the disk |
| JmbSafety.RunAsks | lib/dev_jmb39x_raid.cpp:723-742 | in every run a command that reaches the controller asks it for exactly what the caller wants, under the next id, and any other command changes nothing |
| JmbSafety.RunOpens | lib/dev_jmb39x_raid.cpp:493-598 | in every run the next open succeeds exactly under the conditions of `JmbRequests.OpenOpens` |
| JmbSafety.NeverWritten | lib/dev_jmb39x_raid.cpp:526-535 | without force a sector that is not zero filled is never written |
| JmbSafety.BlockedRun | lib/dev_jmb39x_raid.cpp:480-498 | a blocked device stays blocked and writes nothing but one restore of the original data |
| IpropCrc.ShiftCells | lib/dev_intelliprop.cpp:108-127 | the sixteen cells after one pass of the inner loop |
| IpropCrc.IpropCrc16 | lib/dev_intelliprop.cpp:81-136 | the loops compute the polynomial CRC of the message, with two zero bytes unless a CRC is checked |
| IpropCrc.Collect | lib/dev_intelliprop.cpp:125-135 | the cells are collected into the register value |
| IpropCrc.AbsorbLinear | lib/dev_intelliprop.cpp:104-123 | the register is linear over GF(2) |
| IpropCrc.CheckCondition | lib/dev_intelliprop.cpp:205-216 | the check is zero exactly if the last two bytes are the CRC, high byte first |
| IpropCrc.StoredCrcChecks | lib/dev_intelliprop.cpp:205-216 | after storing the CRC the check is zero for every payload |
| IpropDevice.StoreCrc | lib/dev_intelliprop.cpp:205-216 | the re-check never fails |
| IpropDevice.WrittenLog | lib/dev_intelliprop.cpp:189-208 | what is written selects the drive by number and passes the check; it differs from the log read in the selection, two cleared fields and the CRC only, and is zero elsewhere if the log read was invalid |
| IpropDevice.SwitchRoutedDrive | lib/dev_intelliprop.cpp:172-236 | success exactly if the three calls succeed and the first four bytes of the second log read, as a little-endian number, are the drive wanted; the number of calls for each outcome; the written log selects the drive; the error for a wrong CRC is never returned |
| AttrDefs.ParseAttributeDef | lib/atacmds.cpp:244-265 | an option changes the definitions of lower priority (`N`), or of its own too (an id) |
| Presets.ParseDbPresets | lib/knowndrives.cpp:243-276 | the options of a preset string take effect in order up to the first that the caller does not accept: definitions, firmware bugs and type |
| Presets.CallersAccept | lib/knowndrives.cpp:279-297 | presets are accepted exactly if they are good options `-v` and `-F`, default presets if they are good options `-v`, USB types if they are options `-d` |
| Presets.SettingsAre | lib/knowndrives.cpp:247-256 | every accepted attribute option takes effect, in the order of the string, and nothing else does |
| Presets.NoneEndsBugs | lib/knowndrives.cpp:258-265 | behind the bug `none` no firmware bug is set |
| Presets.LastTypeWins | lib/knowndrives.cpp:266-268 | the last option `-d` gives the type |
| Presets.NoTypeKept | lib/knowndrives.cpp:266-268 | without such an option the type stays |
| AttrDefs.HighestPriorityWins | lib/atacmds.cpp:244-265 | the highest priority addressing an attribute wins, within it the last option naming the id, else the first `N` |
| AttrDefs.InterleavingIrrelevant | lib/atacmds.cpp:244-265 | format, flags and byte order do not depend on how the priorities interleave |
| AttrDefs.NameAfter | lib/atacmds.cpp:244-265 | the name an attribute gets, as far as the order within the priorities determines it |
| AttrDefs.NameCondition | lib/atacmds.cpp:244-265 | the name is independent of the interleaving exactly if the highest priority gives one, or no option of a lower one that can take effect does |
| AttrDefs.NamesDependOnOrder | lib/atacmds.cpp:247-261 | a pair of options whose order matters for the name |
| FarmLog.ReadFarmLog | lib/farmcmds.cpp:166-333 | the walk ends for every page; it fails exactly for a rejected length or a wrong signature; headers are read exactly behind the data before them, parameters that end are stored, and the buffer is left only for pages that overrun it |
| FarmLog.SafeLengths | lib/farmcmds.cpp:184-188 | no page of an accepted length is read behind the buffer exactly if the length is at most 65517 |
| FarmLog.WalkUnique | lib/farmcmds.cpp:195-331 | the page alone determines which headers are read and which parameters are stored |
| FarmLog.CompleteNoOverrun | lib/farmcmds.cpp:195-331 | a walk that comes to the end of the page never leaves the buffer |
| FarmLog.NextMetric | lib/farmcmds.cpp:306-330 | a metric without its status byte, or zero |
| FarmLog.CopyData | lib/farmcmds.cpp:312-325 | the stored data are the metrics of this parameter, cut to its length |
| FarmLog.OwnDataOnly | lib/farmcmds.cpp:312-325 | every stored byte is a byte of the data of its own parameter |
| FarmLayout.OffsetIsPlace | lib/farmcmds.cpp:209-290 | the parameters with a section are stored in sections that follow each other without gaps, from the page header to the end of the structure |
| FarmLayout.SectionsDisjoint | lib/farmcmds.cpp:209-290 | the sections of different parameters share no byte |
| FarmLayout.BorrowedPlace | lib/farmcmds.cpp:209-290 | which section a parameter without one is stored over |
| FarmLayout.StoresDisjoint | lib/farmcmds.cpp:292-325 | header and data stored for two different parameters that fit their sections share no byte |
| FarmLayout.ParameterHeld | lib/farmcmds.cpp:195-331 | after a walk whose parameters fit their sections the structure holds, at the place of each code, the header and the stored data of the last parameter with this code |
| FarmLayout.MetricValue | lib/farmcmds.cpp:316-330 | a stored metric is the big-endian number behind its status byte, or zero if the status is not 0xc0 |
| FarmLog.OffsetFits | lib/farmcmds.cpp:209-290 | a known parameter has room for its header exactly if its code is not the last one |
| FarmLog.WritesFit | lib/farmcmds.cpp:209-325 | header and data of a parameter are stored inside the structure exactly if its code is not the last one |
| FarmLog.RunFits | lib/farmcmds.cpp:195-331 | a walk stores nothing outside the structure exactly if it meets no parameter with the last code |
| FarmLog.StoredOutside | lib/farmcmds.cpp:282-325 | pages on which header and data of such a parameter are stored behind the structure |
| FarmLog.LastDataLost | lib/farmcmds.cpp:306-331 | the data of the last parameter of a page is not stored |
| FarmLog.StoredCondition | lib/farmcmds.cpp:306-331 | the data of all known parameters are stored exactly if the last parameter is unknown or has none |
| FarmLog.SignatureLost | lib/farmcmds.cpp:306-331 | a page with the right signature whose only parameter is not stored |
| Ps3stor.Scatter | lib/dev_ps3stor.cpp:170-189 | the buffers, and a data length rounded up to 512 |
| Ps3stor.Gather | lib/dev_ps3stor.cpp:233-241 | exactly the requested bytes are written back, from the buffers joined |
| Ps3stor.SplitConserves | lib/dev_ps3stor.cpp:170-189 | the buffers joined are the data with zero padding |
| Ps3stor.GatherInvertsScatter | lib/dev_ps3stor.cpp:170-241 | gathering what was scattered gives the data |
| Ps3stor.SgeCountIs | lib/dev_ps3stor.cpp:191-191 | one scatter/gather element for each buffer |
| Ps3stor.PdScsiPassthrough | lib/dev_ps3stor.cpp:150-245 | errors, request fields, data sent and data received, with the block count in 32 bits |
| Ps3stor.EffectiveIs | lib/dev_ps3stor.cpp:160-161 | the bytes that the 32-bit block count covers are all if it does not wrap around |
| Ps3stor.EffectiveCondition | lib/dev_ps3stor.cpp:160-166 | a transfer that passes the size check is carried out completely exactly if it has at most 14 blocks |

## Left out

- Offsets of hex dumps are natural numbers; the printed value is the offset modulo 2^64. Data of 2^64 bytes and more are not read back.
- Hexdump.Hexdumper.Output: takes an event; its text is given by `HexdumpText.Render`, built in the line buffer by `HexdumpText.FormatLine` for lines with bytes, and as a plain concatenation for `*` and the final offset.
- SelectiveTest.NextFollows: disks have at most 2^63 sectors.
- The xor table of the JMB39x protocol is used as it is; only its length matters to the proofs.
- JmbSector.Wakeup: the checksums stored in the four wakeup sectors are constants that are not recomputed, so it is not shown that such a sector passes the checksum test; a wakeup sector counts as a write of the protocol because the device issues it.
- JmbSession.RawWrite: the environment stores a restored sector on success, provided it is not protocol data, and may leave anything after any other write.
- JmbSession.TunnelClose: the device below is closed after any close, also one that fails.
- `ata_cmd_is_supported` of the JMB39x device is an input, and so are block sizes and error texts.
- JsonNodes.Json.FindOrCreateNode: takes paths as lists of keys and indices; the limit of 10000 array elements in `json::ref` and its suffix keys are not part of this model.
- JsonDocument.ParseDocument: assumes keys of lower-case letters, digits and underscores, and strings without NUL, as C strings are.
- JsonText.Decimal: 128-bit integers are printed exactly, as in builds with `__int128`; the two fallbacks in lib/utility.cpp:941-954, which round through floating point, are not part of this model.
- The flat listing is modelled as structured lines of a path and a value, not as text.
- YAML output, whose quoting rests on a regular expression.
- DriveDbParser.ParseDriveDatabase: regular expressions and option strings are checked by a parameter that only affects the result `ok`, and messages are left out.
- AttrDefs.ParseAttributeDef: starts from parsed options, and so does `Presets.ParseDbPresets`; the text of an option, its old names, and the HDD and SSD suffixes are not part of this model.
- FarmLog.ReadFarmLog: models a little-endian host, on which headers and metrics are stored low byte first; a read behind the buffer ends the walk with an outcome of its own; stores are recorded in order instead of changing a structure in memory.
- IpropDevice.SwitchRoutedDrive: models a little-endian host.
- Ps3stor.PdScsiPassthrough: the request has no data length yet when it is passed in; whether the request can be packed into type-length-value records is an input, and the layout of the records is left out.
- Operating system back ends, device discovery, NVMe and ATA FARM pages, the contents of the drive database and all formatting of reports.
