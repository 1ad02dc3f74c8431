# FParser: the dump parser of VkDumpViewer

VkDumpViewer reads a text dump of Vulkan API calls and shows it as a tree of
frames, threads and recorded commands. The core of the program is `FParser`
in `Parser.cs`.

## How FParser works

`FParser` walks the dump's lines with two cursors:

- a line cursor, `LineIndex` over `Lines`;
- a character cursor, `CurrentLineCharIndex` over `CurrentLineChars`.

The dump is a sequence of blocks. Each block has:

- a header, `Thread INT , Frame INT :`, which selects an entry of the
  two-level table `Entries : Frame -> Thread -> FEntry`, creating it if
  missing;
- command lines, up to the first empty line or until the last line of the
  file is loaded, whichever comes first. `HasCommands` also tests
  `LineIndex < Lines.Length` (Parser.cs:157), so the file's last line is
  never parsed as a command.

Two kinds of command line record something:

| Call | Appended item | Then |
|---|---|---|
| `vkBeginCommandBuffer(` | `FBeginCmdBuffer` | skips five trailer lines |
| `vkEndCommandBuffer(` | `FEndCmdBuffer` | nothing more |

In both cases the item's `CmdBuffer` text comes from the line after the call,
as the raw rest of the line after `commandBuffer:` and `VkCommandBuffer = `.
Every other command line is skipped.

Every failure throws: a missing keyword, a bad integer, or indexing past the
end of a line. `Parse` turns a throw into `false` and leaves the entries
filled so far in place.

## The model

The model has four layers.

1. **Values** (`DumpModel`):
   - the recorded items, as a `Command` datatype;
   - the table as a value, a `Table = map<int, map<int, seq<Command>>>`;
   - the table operations the parser performs on it: lookup-or-create,
     append, and set the last item's text.
2. **Scanners** (`Scanner`, `ScannerLemmas`): each character-cursor routine
   becomes a function of the line and the start column that returns a value
   and the new column, or a fault. The lemmas fix what each routine accepts.
   They also prove two round trips:
   - `HeaderText` prints a header that the header reader parses back;
   - `BufferLineRoundTrip`: a command-buffer line is read back as its text.
3. **Step functions** (`ParserSpec`): each parser step becomes a function
   from the parser's state (`St`) to an `Outcome`. An `Outcome` is either a
   normal return or a throw, and either way it carries the state at that
   point. `ParserLaws` proves what each step does:
   - lines advanced;
   - the item appended, and to which block;
   - when the step throws;
   - that the table only grows.
4. **The object** (`Entries`, `Parser`):
   - `FEntry` is a class with an `items` sequence;
   - `FParser` is a class with the fields of the C# class;
   - `entries` is a `map` of `FEntry` objects;
   - every method updates those fields in place. Each method's `ensures`
     ties its new state and its result to the matching step function.

Two ghost fields keep the objects and the value table in step:

- `table` is the value `Table` that the objects hold;
- `made` is the set of `FEntry` objects created so far.

Three facts about `Parser.cs` shape the model:

- Only `vkBeginCommandBuffer(` and `vkEndCommandBuffer(` lines are
  recorded. No order of begin and end records is checked.
- `commandBuffer:` is read from the line after the call line
  (Parser.cs:240, 252), not from the call line itself.
- The command-buffer handle is the raw rest of its line (Parser.cs:230).
  It is not parsed as a number.

## Model

| member | source | states |
|---|---|---|
| DumpModel.Label | Parser.cs:26-39 | the label is exactly the item's text (empty when unset) followed by `: BEGIN` for a begin item or `: END` for an end item: it starts with the text, ends with the tag and has the length of the two together |
| DumpModel.AddEntry | Parser.cs:136-150 | after the lookup-or-create step the block of the header's (frame, thread) pair exists |
| DumpModel.AddEntrySpec | Parser.cs:136-150 | a frame is added only when absent, a thread only when absent under its frame, a new block is empty, and no existing block changes (an existing pair is reused as it is) |
| DumpModel.Append | Parser.cs:242 | `Items.Add`: the block gets the item at its end and keeps its earlier items in order |
| DumpModel.AppendSpec | Parser.cs:241-243 | appending changes no key of the table and no other block |
| DumpModel.SetLastBuffer | Parser.cs:243 | storing the parsed text in the item just appended keeps the block's length |
| DumpModel.AppendThenSet | Parser.cs:241-243 | appending an item and then setting its text is the same as appending the finished item |
| DumpModel.AppendToSingle | Parser.cs:242 | proof helper for the one-block dumps: appending to a table whose only block is still empty gives a block of exactly that item |
| DumpModel.AddEntryExtends | Parser.cs:136-150 | the header step only grows the table |
| DumpModel.AppendExtends | Parser.cs:242 | appending only grows the table: no block disappears and none loses items |
| Scanner.SkipWs | Parser.cs:76-82 | stops on the first non-blank of the line, or faults at the end of the line when only blanks remain |
| Scanner.DigitRun | Parser.cs:112-115 | stops on the first non-digit, or faults at the end of the line when only digits remain |
| Scanner.IndexOfIn | Parser.cs:88 | `IndexOf(k, start, count)` reports -1 or a position where `k` lies wholly inside the window |
| Scanner.MatchAt | Parser.cs:84-96 | Match never moves the cursor past the end of the line |
| Scanner.Peek | Parser.cs:160-169 | PeekAndAdvance's test holds exactly when the keyword fits in the rest of the line and occurs at the cursor |
| Scanner.Int32Parse | Parser.cs:117-122 | `int.TryParse` succeeds exactly on an optional minus and at least one digit whose value fits in 32 bits, and gives that value |
| Scanner.ScanInt | Parser.cs:98-125 | a value that ParseInt returns is a 32-bit integer, and the cursor stays within the line |
| Scanner.HeaderAt | Parser.cs:127-134 | a header that reads gives 32-bit frame and thread numbers, and the cursor stays within the line |
| Scanner.HeaderThread | Parser.cs:130-134 | the rest of a header after `Thread` gives 32-bit numbers and keeps the cursor within the line |
| Scanner.HeaderComma | Parser.cs:131-134 | the rest of a header after `Thread INT` keeps that thread number |
| Scanner.HeaderFrameWord | Parser.cs:132-134 | the rest of a header after `Thread INT ,` keeps that thread number |
| Scanner.HeaderFrame | Parser.cs:133-134 | the rest of a header after `Frame` keeps the thread number |
| Scanner.HeaderColon | Parser.cs:134 | the closing `:` keeps the key already read |
| Scanner.BufferValue | Parser.cs:224-230 | the command-buffer text is exactly the rest of the line after `VkCommandBuffer = ` |
| ScannerLemmas.SkipWsSpec | Parser.cs:76-82 | the blank loop steps over blanks only, and faults exactly when nothing but blanks is left on the line |
| ScannerLemmas.DigitRunSpec | Parser.cs:112-115 | the digit loop steps over digits only, and faults exactly when nothing but digits is left on the line |
| ScannerLemmas.IndexOfInSpec | Parser.cs:88 | IndexOf reports the leftmost occurrence in its window, and -1 only when there is none |
| ScannerLemmas.SkipWsTo | Parser.cs:76-82 | skipping blanks stops exactly on the first non-blank |
| ScannerLemmas.DigitRunTo | Parser.cs:112-115 | the digit loop stops exactly on the first non-digit |
| ScannerLemmas.MatchAtSpec | Parser.cs:84-96 | Match succeeds exactly when, after the blanks, the keyword occurs at the cursor. It then advances by the keyword's length; otherwise it fails |
| ScannerLemmas.MatchLit | Parser.cs:84-96 | a keyword sitting right after the blanks is matched and stepped over |
| ScannerLemmas.ScanIntSpec | Parser.cs:98-125 | ParseInt's value is the `int.TryParse` value of an integer text that starts after the blanks and is followed by a non-digit on the same line |
| ScannerLemmas.ScanIntAccepts | Parser.cs:98-125 | an integer text with a 32-bit value that a non-digit follows on the same line is read whole, and its value is returned |
| ScannerLemmas.ScanIntFaultsAtEndOfLine | Parser.cs:107-115 | a number that runs to the end of the line makes ParseInt fail, whatever its digits |
| ScannerLemmas.DigitChar | Parser.cs:112 | printer side of the integer round trip (a proof helper): a digit character with the given value, which the digit test accepts |
| ScannerLemmas.NatText | Parser.cs:112-117 | printer side of the integer round trip (a proof helper): the decimal text of a number is a non-empty run of digits |
| ScannerLemmas.IntText | Parser.cs:101-117 | printer side of the integer round trip (a proof helper): the decimal text of an integer is a text ParseInt hands to `int.TryParse` |
| ScannerLemmas.NatTextValue | Parser.cs:117-119 | a number's decimal text reads back as that number |
| ScannerLemmas.Int32ParseIntText | Parser.cs:117-122 | `int.TryParse` reads back the decimal text of every 32-bit integer |
| ScannerLemmas.ThreadPart | Parser.cs:129-131 | `Thread INT ,` is read, and the frame part is what remains |
| ScannerLemmas.FramePart | Parser.cs:132-134 | ` Frame INT:` at the end of the line is read to the end of the line |
| ScannerLemmas.FrameSteps | Parser.cs:132-134 | the same, character by character |
| ScannerLemmas.FrameNumber | Parser.cs:133-134 | the frame number followed by `:` is read to the end of the line |
| ScannerLemmas.FrameInt | Parser.cs:133 | a blank and an integer text with a 32-bit value, followed by a colon, are read as that value and stop on the colon |
| ScannerLemmas.ColonEnd | Parser.cs:134 | a colon that ends the line is matched, keeping the key, and consumes the line |
| ScannerLemmas.HeaderOfTexts | Parser.cs:127-134 | a header line built from two integer texts reads back their values as (frame, thread) and consumes the line |
| ScannerLemmas.HeaderRoundTrip | Parser.cs:127-134 | the header line printed for any key with 32-bit numbers reads back as that key and is consumed whole |
| ScannerLemmas.BufferLineRoundTrip | Parser.cs:224-230 | a command-buffer line is read back to the text that ends it, whatever blanks it holds before each field name |
| ParserSpec.NextLine | Parser.cs:65-74 | ReadLine touches neither the table nor the current entry, and never moves the line cursor back |
| ParserSpec.SkipLines | Parser.cs:244-248 | the trailer's ReadLine calls never touch the table or the current entry, and never move back |
| ParserSpec.ThreadFrameStep | Parser.cs:127-153 | ParseThreadFrame never moves the line cursor back, and after it the current entry is a block of the table |
| ParserSpec.HeaderThen | Parser.cs:136-152 | the lookup-or-create and the ReadLine after any header scan never move the line cursor back, and leave the current entry a block of the table |
| ParserSpec.ThreadFrameFault | Parser.cs:127-134 | a header that does not read throws before the table is touched |
| ParserSpec.ThreadFrameDone | Parser.cs:127-153 | a header that reads looks up or creates its block, makes it current, then loads the next line |
| ParserSpec.CommandBufferStep | Parser.cs:224-233 | ParseCommandBuffer touches neither the table nor the current entry |
| ParserSpec.BufferThen | Parser.cs:230-232 | taking the rest of the line and loading the next one touches neither the table nor the current entry |
| ParserSpec.CommandStep | Parser.cs:235-260 | ParseCommand keeps the current entry and, when it returns while lines remain, moves the line cursor forward |
| ParserSpec.CallStep | Parser.cs:238-257 | the call dispatch keeps the current entry and never moves back |
| ParserSpec.OtherCallStep | Parser.cs:250-257 | the else-if branch keeps the current entry and never moves back |
| ParserSpec.BeginRecordStep | Parser.cs:239-249 | the begin branch keeps the current entry and never moves back |
| ParserSpec.EndRecordStep | Parser.cs:250-257 | the end branch keeps the current entry and never moves back |
| ParserSpec.RecordStep | Parser.cs:241-243 | recording an item keeps the current entry a block of the table |
| ParserSpec.FillStep | Parser.cs:243 | storing the parsed text in the item just appended keeps the current entry a block of the table |
| ParserSpec.FillThen | Parser.cs:243 | the same, for any outcome of ParseCommandBuffer that keeps the table and the current entry |
| ParserSpec.HasCommandsAt | Parser.cs:155-158 | HasCommands is false on an empty line and false once every line has been loaded |
| ParserSpec.CommandsLoop | Parser.cs:177-180 | the command loop never moves the line cursor back |
| ParserSpec.EntryStep | Parser.cs:171-188 | ParseEntry moves the line cursor forward whenever lines remain and it returns |
| ParserSpec.BlockStep | Parser.cs:177-182 | the commands of a block and the ReadLine after them move the line cursor forward whenever lines remain and they return |
| ParserSpec.ParseLoop | Parser.cs:190-205 | when Parse's loop returns normally, every line has been loaded |
| ParserSpec.Start | Parser.cs:59-63 | after the constructor the table is empty, there is no current entry, and one line is loaded (none for an empty file) |
| ParserSpec.ParseAll | Parser.cs:190-205 | a whole parse that returns true has loaded every line |
| Entries.FEntry.constructor | Parser.cs:42-45 | a new entry has no items |
| Entries.HoldsUpdate | Parser.cs:242-243 | changing one entry's items changes only that block of the value table, as keys are distinct |
| Entries.HoldsAddFrame | Parser.cs:136-139 | adding an empty frame to `Entries` adds an empty frame to the table |
| Entries.HoldsAddThread | Parser.cs:145-150 | adding a new, empty entry under its frame adds its empty block to the table and makes it current |
| Parser.FParser.constructor | Parser.cs:59-63 | the parser starts with no entries and the first line loaded |
| Parser.FParser.ReadLine | Parser.cs:65-74 | loads `Lines[LineIndex]`, resets the character index and advances `LineIndex` by one; it changes nothing once every line has been loaded |
| Parser.FParser.SkipWhitespace | Parser.cs:76-82 | moves the character cursor exactly as `SkipWs` says, faulting at the end of the line; nothing else changes |
| Parser.FParser.Match | Parser.cs:84-96 | moves the character cursor exactly as `MatchAt` says; nothing else changes |
| Parser.FParser.SkipDigits | Parser.cs:112-115 | the digit loop moves the character cursor exactly as `DigitRun` says |
| Parser.FParser.ParseInt | Parser.cs:98-125 | returns the value and moves the cursor exactly as `ScanInt` says, or fails |
| Parser.FParser.ReadHeader | Parser.cs:129-134 | reads `Thread INT , Frame INT :` exactly as `HeaderAt` says, changing only the character cursor |
| Parser.FParser.ParseThreadFrame | Parser.cs:127-153 | its result and new state are those of `ThreadFrameStep` |
| Parser.FParser.SelectEntry | Parser.cs:136-150 | the table becomes `AddEntry` of the old one, and the current entry is `Entries[Frame][Thread]`. It is the existing object when the pair was present; otherwise it is a new object |
| Parser.FParser.AddFrame | Parser.cs:136-139 | `Entries.Add(Frame, …)` adds an empty frame |
| Parser.FParser.AddThread | Parser.cs:145-150 | the new entry, empty, is stored under its pair and becomes current |
| Parser.FParser.PeekAndAdvance | Parser.cs:160-169 | returns true exactly when the keyword fits and occurs at the cursor, and then advances by its length; otherwise it changes nothing |
| Parser.FParser.HasCommands | Parser.cs:155-158 | its answer is `HasCommandsAt` of the parser's state |
| Parser.FParser.ParseEntry | Parser.cs:171-188 | its result and new state are those of `EntryStep` |
| Parser.FParser.ParseBlock | Parser.cs:177-182 | its result and new state are those of `BlockStep`, and the only new objects are new entries |
| Parser.FParser.Parse | Parser.cs:190-205 | returns true exactly when `ParseLoop` returns normally, and leaves the state `ParseLoop` gives, also after a failure |
| Parser.FParser.ParseCommandBuffer | Parser.cs:224-233 | its text and new state are those of `CommandBufferStep` |
| Parser.FParser.ParseCommand | Parser.cs:235-260 | its result and new state are those of `CommandStep` |
| Parser.FParser.ParseCall | Parser.cs:238-257 | its result and new state are those of `CallStep` |
| Parser.FParser.ParseOtherCall | Parser.cs:250-257 | its result and new state are those of `OtherCallStep` |
| Parser.FParser.ParseBeginRecord | Parser.cs:239-249 | its result and new state are those of `BeginRecordStep` |
| Parser.FParser.ParseEndRecord | Parser.cs:250-257 | its result and new state are those of `EndRecordStep` |
| Parser.FParser.AddRecord | Parser.cs:241-243 | its result and new state are those of `RecordStep` |
| Parser.FParser.FillBuffer | Parser.cs:243 | its result and new state are those of `FillStep` |
| Parser.FParser.AppendItem | Parser.cs:242 | the current entry's items get the item at their end, and the table changes by `Append` |
| Parser.FParser.SetBuffer | Parser.cs:243 | the current entry's last item gets the text, and the table changes by `SetLastBuffer` |
| Parser.FParser.ReadTrailer | Parser.cs:244-248 | the five trailer ReadLine calls |
| Parser.SkipLinesUnfold | Parser.cs:244-248 | one more ReadLine after `n` of them is `n + 1` of them |
| ParserLaws.NextLineSpec | Parser.cs:65-74 | ReadLine never takes `LineIndex` past the number of lines. It advances by one line up to the last, loading that line at column 0, and touches neither the table nor the current entry |
| ParserLaws.SkipLinesSpec | Parser.cs:244-248 | `n` ReadLine calls advance `n` lines, stopping at the last one |
| ParserLaws.ThreadFrameStepSpec | Parser.cs:127-153 | ParseThreadFrame throws exactly when the header does not read, and then leaves the table and the current entry unchanged. Otherwise the table becomes `AddEntry` with the header's key, that key's entry is current, and one line is loaded |
| ParserLaws.HeaderThenSpec | Parser.cs:127-153 | the same for any header scan that ends within the line: a fault throws with the table and current entry unchanged; a key selects its block, makes it current and loads one line |
| ParserLaws.SelectThenReadLine | Parser.cs:136-152 | the lookup-or-create followed by ReadLine gives the table `AddEntry` with the key, makes that key current and loads one line, keeping the state consistent |
| ParserLaws.CommandBufferStepSpec | Parser.cs:224-233 | ParseCommandBuffer returns the text after `VkCommandBuffer = ` and loads the next line, or throws without moving the line cursor |
| ParserLaws.BufferThenSpec | Parser.cs:224-233 | the same for any scan of the line that ends within it: a read text is returned and the next line loaded; a fault throws without moving the line cursor |
| ParserLaws.RecordStepSpec | Parser.cs:241-243 | a record appends one item to the current block. The item carries the parsed text when the command-buffer line reads; otherwise it stays with no text and the parse throws |
| ParserLaws.RecordThenSpec | Parser.cs:241-243 | the same for any scan of the command-buffer line that ends within it |
| ParserLaws.CommandOnBlanks | Parser.cs:235-237 | a command line that is blank from the cursor to its end makes ParseCommand throw |
| ParserLaws.CommandOther | Parser.cs:235-260 | a line with neither call appends nothing and advances exactly one line |
| ParserLaws.BeginRecordSpec | Parser.cs:240-248 | after the begin call: one begin item appended to the current block, text from the next line, then five trailer lines skipped |
| ParserLaws.EndRecordSpec | Parser.cs:252-256 | after the end call: one end item appended to the current block, text from the next line |
| ParserLaws.CommandBegin | Parser.cs:238-249 | a begin record appends exactly one begin item, whose text comes from the line after the call line. Read whole, it advances 8 lines in all, stopping at the last; otherwise the item has no text and the parse throws |
| ParserLaws.CommandEnd | Parser.cs:250-259 | an end record appends exactly one end item, whose text comes from the line after the call line. Read whole, it advances 3 lines in all, stopping at the last |
| ParserLaws.NotBothCalls | Parser.cs:238-250 | no line has both call names at the same column, so the two branches never compete |
| ParserLaws.CommandWithoutEntry | Parser.cs:242 | a call line before any header throws, as `CurrentEntry` is null |
| ParserLaws.CommandStepSpec | Parser.cs:235-260 | ParseCommand keeps the cursors consistent and the current entry. It leaves the table as it was or appends one item to the current block |
| ParserLaws.CommandsLoopSpec | Parser.cs:155-158 | the block loop only grows the table. When it ends normally, the loaded line is empty or is the last line |
| ParserLaws.EntryStepSpec | Parser.cs:171-188 | ParseEntry only grows the table, and throws with the header's fault state when the header does not read |
| ParserLaws.ParseLoopSpec | Parser.cs:190-205 | Parse's loop only grows the table, and when it returns normally every line has been loaded |
| ParserLaws.ParseAllSpec | Parser.cs:59-63 | a whole parse ends in a consistent state; a successful one has loaded every line |
| ParserLaws.ShortInput | Parser.cs:190-205 | with fewer than two lines Parse returns true with no entries |
| ParserLaws.FirstHeader | Parser.cs:127-153 | the first header of a dump creates its empty entry, makes it current and loads the next line |
| ParserLaws.LastLineNotCommand | Parser.cs:155-158 | in a two-line dump the line after the header is never parsed as a command, whatever it holds: the parse succeeds with that block empty |
| ParserLaws.HeaderOnlyBlock | Parser.cs:171-205 | a header that loads the last of two lines ends the parse there, successfully |
| ParserLaws.OneCommandBlock | Parser.cs:171-205 | a block whose single command reaches the empty last line ends the parse with that command's outcome |
| ParserLaws.EndBlockParses | Parser.cs:171-205 | a one-block dump holding one end record parses to exactly that block and that record's text |
| ParserLaws.BeginBlockParses | Parser.cs:171-205 | a one-block dump holding one begin record and its trailer parses to exactly that block and that record's text |
| ParserLaws.BlankCommandLineFails | Parser.cs:76-82 | a dump whose first command line holds only blanks fails to parse |

## Left out

- The constructor's `File.ReadAllLines` is not modelled. The lines are given
  as a `seq<string>`. The missing `CurrentLine` of an empty file (a null
  string) is the empty string.
- `PopulateTreeView` and the `Fill` overrides are not modelled: they are
  WinForms rendering. Only the label text of an item is kept, as
  `DumpModel.Label`.
- The `Console.WriteLine` in ParseThreadFrame is a diagnostic with no effect
  on the result, so it is not modelled.
- Program.cs and MainViewer.cs are not part of this model. They hold
  start-up, console allocation and the form that opens a file and calls
  `Parse`.
- Exceptions are not modelled by type. Every throw, whether .NET's or the
  parser's own, is one failure (`false`, `Failed`), and the state at the
  throw point is kept.
- `string.IndexOf` is modelled as an exact character-by-character comparison.
  The culture-sensitive comparison .NET performs is not modelled.
- Scanner.Int32Parse: modelled only on texts of an optional `-` and digits,
  which are the only texts ParseInt hands to `int.TryParse`. What TryParse
  does with other texts (leading `+`, surrounding blanks) is not modelled.
- `FCommand` objects are values. The C# code appends an item object and then
  sets its `CmdBuffer` field through the same reference. The model appends an
  item without text, then replaces the last item of the current block with
  the same item carrying the text. No other reference to the item exists in
  between, so the aliasing is not modelled.
- The order of `Entries` is not modelled. `Entries` is a `Dictionary`,
  whose enumeration follows first insertion, and `PopulateTreeView` walks
  it in that order. The model's `Table` is a `map`, which has no order;
  the items of each block do keep their input order.
- `CurrentLineChars` is a `seq<char>` equal to `CurrentLine`, not a separate
  array.
- Method splits: `ParseThreadFrame`'s header reading and its
  lookup-or-create, `ParseEntry`'s block loop (`ParseBlock`), and the
  branches, appends and text assignment of `ParseCommand` (`ParseCall`,
  `ParseOtherCall`, `ParseBeginRecord`, `ParseEndRecord`, `AddRecord`,
  `FillBuffer`) are separate methods. The C# code inlines them in one
  method each; the order of the steps and their state changes are the
  same.
