# Card-reader firmware: model and proofs

The firmware stands in for a GE-120 punched-card reader. It keeps a small FAT volume in flash, turns files on it into
decks of 13-bit column masks, and shows the deck to the machine as a stream of 4-bit characters. This project models
each stage of that path and proves what the stage promises, and then composes the stages: the bytes of a file put into
an image by the host tool are the bytes that land in the machine's memory.

Where the source changes things in place, the model does too: classes hold the fields (the feeder's status and engine
structs, the parser's line buffer, the encoder's card buffer, the sector caches, the file cursor, the event ring), and
every method is proved equal to a step of a specification written on values. The theorems are about runs of those
specification steps.

## How the files fit together

- `Wrappers` - optional values and results.
- `Bits`, `Transcode`, `Columns` - integer widths and bits; column decoders; byte and nibble encoders and their round trips.
- `DeckImages` - the deck image: an index of cards that partitions one array of columns; loader-card search.
- `FeederModel` - the feeder's handlers as atomic steps over its state, with a trace of what is pushed and signalled.
  `FeederTables` (every command byte, console word and feed, field by field), `FeederTiming` (when the deadlines fall),
  `FeederFlags` (invariants over every run), `FeederSession` (the exact trace of a session), `FeederWords` (the trace
  against the words in the FIFO), `FeederProgress` (cards do end), `FeederEngine` (the handlers in place).
- `PresenterWord`, `Presenter` - the word format, and the PIO program interpreted tick by tick against a drawn waveform.
- `Bin2Deck`, `BinEncoder`, `Machine`, `EndToEnd` - the binary-to-deck encoder, the documented scatter loader, and
  their composition through the feeder.
- `StorageModel`, `Storage` - the write-back sector cache against a flat block device.
- `CapText`, `CapParser`, `CapPrinter` - the streaming `.cap` parser against a batch reading of lines, and its printer.
- `Surgery`, `Deckload` - deck recipes, and the loaders that run reader, parser, encoder and recipes together.
- `FatModel`, `FatRead`, `FatDir` - the FAT reader: table lookups and their cache, the streaming read, the directory walk.
  `Fat12` (12-bit tables and files on them), `FatListing` (directories that another writer made).
- `FatAlias`, `FatSizing`, `FatImage`, `FatBuilder`, `FatRoundTrip` - the image builder, and the reader as its inverse.
- `EventRing`, `RingRace` - the event ring as a queue, and its steps interleaved between two cores.
- `WholePath` - everything composed.

`dafny verify dfyconfig.toml` checks the whole project.

## What turned out not to hold everywhere

Each of these is stated in the model as an exact condition or shown by a failing case.

- The image builder's table sizing does not always settle. At the sizes where the number of sectors less 31 leaves 1 or
  2 modulo 258 it swings between two values, counts two clusters that do not exist, and lets an image outgrow its size
  (`FatSizing.SettlesIff`, `FatRoundTrip.ImageKeepsSizeIff`): 4094 clusters of data in 2080 KiB do
  (`FatRoundTrip.OutgrownImage`).
- The builder's "root directory full" test cannot fire: assigning past the end of the directory area grows it
  (`FatBuilder.AddEntries`). Every file of an accepted list can be opened if and only if the list needs at most 512
  entries (`FatRoundTrip.AllOpenIff`); 256 empty files with two-letter names are accepted and need 513
  (`FatRoundTrip.TooManyFiles`). A file that can still be opened then reads back the bytes that stand 32 bytes earlier
  for every entry too many (`FatRoundTrip.FileReadsBack`).
- A file whose name has more than 52 characters cannot be opened by its name (`FatRoundTrip.OpensIff`), and a file of
  several clusters whose last one is numbered 0xFFF8 or above cannot be read to its end (`FatRoundTrip.WholeFileIff`).
  Both are accepted by the builder (`FatRoundTrip.NameTooLong`, `FatRoundTrip.ChainIntoEndMarks`).
- The directory walk clears its name buffer after a file, but not after a subdirectory. A long name that fills its last
  part of 13 characters has no zero behind it, as other writers store it, and is then read with what a longer name of a
  subdirectory before it has left there (`FatListing.FoundAsItselfIff`); such a file is not found under its own name
  (`FatListing.SpoiledName`).
- A printed card wider than 120 columns is cut by the parser's 600-character line buffer (`CapPrinter.RoundTripIff`,
  with a card of 121 columns in `CapPrinter.TooWideToPrint`).
- The feeder's column counter has 8 bits: a card of more than 256 columns is never finished, whatever
  happens during the load (`FeederProgress.CardEndsIff`). The parser makes such a card of a text with three lines of 100
  columns, and the feeder then presents it for ever (`WholePath.WideCardFromText`).
- An error injected while anything is in flight leaves the mode flags incoherent (`FeederFlags.InjectKeepsFlagsIff`),
  until the console starts over (`FeederFlags.StartingOverRestoresFlags`).
- A read of the event ring that comes 2^32 or more events late can find it empty or return the wrong event
  (`EventRing.PopRefinesIff`); after any 2^32 unread events from power-up it does (`EventRing.FullTurnReadsEmpty`).

Where comments and code differ the model follows the code: the loader search covers indices 0 to 4 and falls back to 1;
the ready line is a per-card software pin; LUREN is lowered only by the machine's command 0x47, not by the console.

## Model

| member | source | states |
|---|---|---|
| Transcode.TranscodeColumn | src/transcode.c:12-44 | the row-by-row loops compute the specified byte: digit sum of the punched rows for hex, one bit per punched row for column binary |
| Columns.EncodeByte | src/bin2deck.c:43-51 | the bit loop computes the specified column of a byte |
| Columns.ColbinRoundTrip | src/transcode.c:30-40 | decoding an encoded byte in column binary returns the byte, for every byte |
| Columns.HexRoundTrip | src/bin2deck.c:139-146 | decoding the canonical punches of a nibble in hex returns the nibble, for every nibble |
| Columns.ByteRows | src/bin2deck.c:43-51 | bits 0 to 7 of a byte are punched in rows 9, 8, 7, 6, 3, 2, 1 and 0, and no other row is |
| Columns.DecodedIs | src/transcode.c:12-44 | what each mode reads from any column, row by row: the punched digits' sum modulo 16, one bit per row for column binary, the low eight rows as they are, a blank |
| DeckImages.DeckAppend | src/bin2deck.c:53-67 | writing a card after the last one keeps the index a gapless partition, adds exactly that card, and leaves every earlier card as it was |
| DeckImages.DeckBuffer.Append | src/surgery.c:22-38 | succeeds exactly when card and column counts allow; then the deck is the old one plus the given columns, otherwise the image is untouched |
| DeckImages.DeckBuffer.FindLoaderCard | src/deck.c:134-154 | returns and stores the answer of the search, changing nothing else |
| DeckImages.LoaderIs | src/deck.c:134-154 | that answer is the least of the first five cards with at least three columns and 0x0100 in the third; if there is none, 1, or 0 in a deck of fewer than two cards |
| FeederModel.PrefillEnds | src/feeder.c:212-216 | a card that ends during the prefill is parked with FININ pending and its refill interrupt off, whatever the presenter drains meanwhile |
| FeederModel.RunConcat | src/feeder.c:219-390 | a run over two event lists is a run over the first and then the second |
| FeederTables.ReadsLatch | src/feeder.c:219-245 | a read byte leaves a command pending exactly when a deck is at rest, with a deadline behind the clock reading |
| FeederTables.OthersLatchNothing | src/feeder.c:219-267 | in any other state and for every other byte the command latch stays, and so does FININ but for a reject |
| FeederTables.CommandsLatchModes | src/feeder.c:219-245 | which bytes latch normal and which column binary; no other byte changes the latch |
| FeederTables.CommandsAreCounted | src/feeder.c:219-267 | every byte is counted, and one that is none of the twelve commands is counted as unknown |
| FeederTables.ResetClearsError | src/feeder.c:246-250 | only the reset byte lowers LUREN and leaves the error state, to waiting if a deck is armed |
| FeederTables.RejectSkips | src/feeder.c:251-258 | a reject at rest moves to the next card or ends the deck, and presents nothing |
| FeederTables.OthersStay | src/feeder.c:219-267 | no other byte moves the cursor or ends the deck, nor a reject in any other state |
| FeederTables.FeedsAreCounted | src/feeder.c:269-285 | a feed counts once as a feed and never as a timeout |
| FeederTables.TimeoutsAreCounted | src/feeder.c:373-378 | a deadline that stands in for a feed counts only when it moves past a parked card |
| FeederTables.FeedOpensInMode | src/feeder.c:71-78 | a feed with a command pending opens the next card: in hex if it is the loader card, else in column binary if that is the policy, else in the latched mode; the mode line is up exactly for the two packed modes |
| FeederTables.BareFeedMovesOn | src/feeder.c:269-285 | a feed without a command moves past a parked card and otherwise only counts |
| FeederTables.ArmWord | src/feeder.c:296-308 | ARM, as the word on the wire: its slot's deck at the loader card or card 0, hex mode, counters at zero, lines down, nothing in flight |
| FeederTables.DisarmWord | src/feeder.c:309-316 | DISARM drops deck, queue and everything in flight |
| FeederTables.RewindWord | src/feeder.c:317-324 | REWIND: cursor to the loader card or card 0, lines and queue as after ARM, counters, latch and mode line kept |
| FeederTables.GoWord | src/feeder.c:348-364 | GO: the same for the card val - 1 further; with val 0 or a card past the deck nothing changes |
| FeederTables.EjectWord | src/feeder.c:325-330 | EJECT moves to the start of the next card, if there is one, and changes nothing else |
| FeederTables.TuneWord | src/feeder.c:331-343 | each of the six parameters sets its own field, the policy its two, and nothing else changes |
| FeederTables.TunedWordIsPushed | src/feeder.c:123-145 | the next character after a change of width or gap is sent with it |
| FeederTables.InjectWord | src/feeder.c:344-347 | an injected error raises LUREN, enters the error state and changes nothing else |
| FeederTables.OtherWord | src/feeder.c:293-367 | a word with any other operation does nothing |
| FeederTables.CharactersAreCountedThroughout | src/feeder.c:123-145 | over any run without another ARM the nibble counter is the number of characters pushed, in 32 bits |
| FeederTables.UntunedRun | include/ge_proto.h:73-79 | after any run from boot without a parameter word: strobe 35, gap 115 and setup 5 ticks, 50000 and 1000 microseconds for the two deadlines, column binary and auto-rewind as policy |
| FeederTiming.ReadWaitsForFeed | src/feeder.c:170-181 | a read command accepted at t, then a poll e later, for every e below 2^32: it triggers if and only if e is at least the delay and less than the delay plus 2^31; otherwise everything stays and one is reported pending |
| FeederTiming.EndIsStamped | src/feeder.c:156-164 | whatever event parks a card records that event's own clock reading and puts the cursor back at the first column |
| FeederTiming.FininWaitsForTimeout | src/feeder.c:379-386 | for a card parked at t, a poll e later, for every e below 2^32: FININ is released, and nothing else changed, if and only if e is at least the timeout and less than the timeout plus 2^31; otherwise everything stays |
| FeederFlags.PrefillKeepsFlags | src/feeder.c:212-216 | pushing any number of characters of a card keeps the flags in agreement with the state |
| FeederFlags.StepFlags | src/feeder.c:219-390 | every event other than an error injected in flight keeps: presenting iff the state says so, FININ pending only when parked, at most one of the three flags, FIDEN high iff the deck is done; and it opens no card while FININ is pending |
| FeederFlags.StartingOverRestoresFlags | src/feeder.c:296-364 | ARM, DISARM, and REWIND and GO with a deck to go to, restore that agreement from every safe state, whatever errors were injected before |
| FeederFlags.InjectKeepsFlagsIff | src/feeder.c:344-347 | an injected error keeps that agreement exactly when nothing is in flight |
| FeederFlags.FlagsAgreeThroughoutIff | src/feeder.c:219-390 | over any run, the flags agree with the state at every point if and only if every error was injected at rest; then no card is opened while FININ is pending |
| FeederFlags.InjectedMidCard | src/feeder.c:246-250 | the failing family: inject mid-card, reset, read - a command is then pending while the old card is still being presented |
| FeederFlags.InitHolds | src/feeder.c:54-65 | the boot state satisfies the safety and flag invariants, whatever the two deck slots hold |
| FeederFlags.EveryRunIsSafe | src/feeder.c:85-165 | every run from boot, whatever the slots hold and whatever is loaded into them, injected errors and ejects included: the cursor stays inside the deck, the ready line equals its formula between handlers, no word is pushed while it shows ready, and the disarmed state that opens flash writes has no deck and no flag set |
| FeederSession.CharIsStreamAt | src/feeder.c:123-145 | the character presented at a cursor is the one the card's specified stream has at that position, FININ on the last only |
| FeederSession.PrefillShape | src/feeder.c:212-216 | however many characters the prefill pushes, the trace stays the specified one |
| FeederSession.TriggerShape | src/feeder.c:185-217 | a trigger opens the next card of the deck or ends the deck, and the trace stays the specified one |
| FeederSession.StepShape | src/feeder.c:219-390 | every admissible event keeps the trace equal to the cards from the starting one on, each exactly once and each a prefix of its stream |
| FeederSession.SessionTrace | src/feeder.c:105-217 | every admissible run from a fresh position: cards in order with no gap or repeat, each in full before the next, FIDEN only after the last |
| FeederSession.LoadTrace | src/feeder.c:71-78 | with the default policy the modes of that trace are hex for the loader card and column binary for every other, whatever the commands latch |
| FeederSession.ArmStarts | src/feeder.c:296-308 | ARM leaves the feeder freshly positioned at the loader card or card 0, from every safe state |
| FeederSession.RewindStarts | src/feeder.c:317-324 | REWIND leaves it freshly positioned there, from every safe state with a deck |
| FeederSession.GoStarts | src/feeder.c:348-364 | GO leaves it freshly positioned val-1 cards further, from every safe state with a deck |
| FeederWords.StepWords | src/feeder.c:144-145 | every event that does not restart the presenter keeps: words taken plus words queued are the characters of the trace |
| FeederWords.WordsAgreeThroughout | src/feeder.c:123-165 | between restarts, in every run, nothing pushed is lost, repeated or reordered on its way to the presenter |
| FeederProgress.ShortCardEnds | src/feeder.c:123-165 | a card of at most 256 columns is parked after exactly its remaining characters |
| FeederProgress.CardEndsIff | src/feeder.c:151-155 | a presented card can reach its end, by any commands, feeds, refills, timeouts and tuning of a load, if and only if it has at most 256 columns |
| FeederProgress.WideCardStalls | src/feeder.c:151-155 | from any parked position before a card of more than 256 columns, a read command and a feed open it, and no run the console leaves alone ends it |
| FeederProgress.NextCardCanBePresented | src/feeder.c:170-217 | from any parked position one read command, one feed and refills present the whole next card, or end the deck |
| FeederProgress.DeckCanBeExhausted | src/feeder.c:105-117 | from any parked position some continuation reaches the end of the deck, so the session theorems are not empty |
| FeederEngine.Reader.PresentNext | src/feeder.c:123-165 | in place: pushes the current character and advances exactly as the specification step |
| FeederEngine.Reader.Prefill | src/feeder.c:212-214 | the prefill loop, with the presenter draining words meanwhile, equals the specified prefill |
| FeederEngine.Reader.PreparePresentation | src/feeder.c:170-181 | in place: latches the command, its deadline and the busy front as specified |
| FeederEngine.Reader.TriggerPresent | src/feeder.c:185-217 | in place: advance past a parked card, open the next, prefill, as specified |
| FeederEngine.Reader.AdvanceCard | src/feeder.c:105-117 | in place: next card or end of deck, as specified |
| FeederEngine.Reader.CursorReset | src/feeder.c:40-52 | in place: cursor to the starting card and all three flags cleared |
| FeederEngine.Reader.LupobUpdate | src/feeder.c:85-91 | in place: the ready line is its defining formula of the flags and the state |
| FeederEngine.Reader.FininRelease | src/feeder.c:96-102 | in place: clears the pending flag and nothing else; the line itself is not in the state |
| FeederEngine.Reader.OnReCmd | src/feeder.c:219-267 | in place: every command byte acts as its specification step |
| FeederEngine.Reader.OnTu03 | src/feeder.c:269-285 | in place: a feed acts as its specification step |
| FeederEngine.Reader.OnTxFeed | src/feeder.c:287-291 | in place: a FIFO refill acts as its specification step |
| FeederEngine.Reader.OnIpc | src/feeder.c:293-367 | in place: every console word acts as its specification step |
| FeederEngine.Reader.Poll | src/feeder.c:371-390 | in place: acts as the specification step, whose deadlines FeederTiming states, and the returned value says whether one is pending |
| PresenterWord.FieldsRecovered | pio/presenter.pio:72-79 | shifting a packed word right by 9, 8 and 15 bits recovers nibble, FININ, width and gap, and leaves LU04-LU07 inactive |
| Presenter.EveryWordReachesTheWire | pio/presenter.pio:35-44 | for every arrival schedule and every length of run: characters sampled at strobe edges, then the one in flight, then those queued, are exactly the words pushed, in order |
| Presenter.StrobeLoop | pio/presenter.pio:39-40 | the strobe loop holds LU08 for one tick more than its counter, whatever arrives meanwhile |
| Presenter.Character | pio/presenter.pio:35-44 | one word draws one whole character and returns to the pull with the queue otherwise intact |
| Presenter.WaveformIsExact | pio/presenter.pio:35-44 | small steps refine the drawn reference: under every arrival schedule the levels are exactly idle ticks and whole characters |
| Presenter.WaveAt | pio/presenter.pio:19-30 | in a character LU08 is high on exactly W+1 ticks, and data stands from five ticks before it to the end |
| Presenter.BackToBack | pio/presenter.pio:35-44 | queued words leave back to back, W+G+9 ticks each, and leave the machine armed and empty |
| Presenter.DrainedIsRead | pio/presenter.pio:35-44 | sampling that waveform reads exactly the queued characters |
| Presenter.PackedWave | pio/presenter.pio:72-79 | a word packed by the feeder has its width, gap and character |
| Bin2Deck.FeedConcat | src/bin2deck.c:107-121 | feeding a then b is feeding a+b, failures included |
| Bin2Deck.FeedClosedForm | src/bin2deck.c:82-121 | feeding any data from the start succeeds exactly within capacity, with fill below 66, and leaves exactly the specified cards and remainder |
| Bin2Deck.BuildIff | src/bin2deck.c:95-134 | begin, feeds and end succeed if and only if the binary stays within 16-bit addresses and 510 payload cards; then the deck is the one whose bytes EndToEnd.DeckDecodes states |
| BinEncoder.Encoder.constructor | src/bin2deck.c:95-105 | in place: the image holds the loader card only and cannot refuse it |
| BinEncoder.Encoder.FeedData | src/bin2deck.c:107-121 | in place: copies piecewise into the 66-byte buffer, as the specified feed |
| BinEncoder.Encoder.FlushCard | src/bin2deck.c:82-93 | in place: one scatter card per flush, refused past address 0xFFFF or beyond capacity |
| BinEncoder.Encoder.AppendScatterCard | src/bin2deck.c:70-80 | in place: header and payload columns as specified, earlier cards untouched |
| BinEncoder.Encoder.Finish | src/bin2deck.c:123-134 | in place: flushes the remainder and appends the last card, as specified |
| BinEncoder.BuildIpl | src/bin2deck.c:148-163 | accepts exactly 1 to 40 bytes and makes one card of them |
| EndToEnd.DeckReachesMachine | src/feeder.c:105-217 | any deck with a loader card and at most 256 columns a card: at the end-of-deck line the machine has received the loader card in hex and every later card in column binary, one transfer each, in order |
| EndToEnd.IplReachesMachine | src/bin2deck.c:148-163 | that card through the feeder: under any load events up to the end-of-deck line the machine receives exactly one transfer, which packs to the program followed by zero bytes |
| BinEncoder.IplRoundTrip | src/bin2deck.c:148-163 | decoded in hex and packed two per byte, that card is the program followed by zero bytes |
| EndToEnd.DeckDecodes | src/bin2deck.c:70-134 | the whole deck decoded: a marked loader card, 66 bytes to a card each with length and address most significant byte first, and a last card that puts two no-operations and a jump to the entry, 43 F0 and the entry most significant byte first, at address 0 |
| EndToEnd.LoaderDecodes | src/bin2deck.c:28-43 | the loader card's columns decode in hex to the forty bytes of the loader program, given one by one |
| Machine.MvcDisjoint | src/bin2deck.c:4-21 | a byte-by-byte move between disjoint areas copies |
| EndToEnd.JumpsToEntry | src/bin2deck.c:14-23 | those eight bytes at address 0, executed from there, lead to the entry point in three steps |
| Machine.LoadCardStores | src/bin2deck.c:4-21 | one turn of the documented loader stores the payload at its address and otherwise changes only the card buffer |
| EndToEnd.PackedCard | src/feeder.c:119-145 | the channel packs a column-binary card to one byte per column |
| EndToEnd.LoaderUndoesEncoder | src/bin2deck.c:4-21 | loading the encoder's cards puts the binary at its base and 07 00 07 00 43 F0 and the entry, most significant byte first, at 0; executing from 0 arrives at the entry; nothing else changes outside the buffer |
| EndToEnd.BinaryReachesMemory | src/bin2deck.c:95-134 | the same through the feeder: any interleaving of commands, feeds, refills and timeouts up to the end-of-deck line |
| StorageModel.ReadSeesContents | src/storage.c:43-63 | a read returns the abstract contents of its range, across sector boundaries and over the dirty sector |
| StorageModel.FlushKeepsContents | src/storage.c:74-86 | a flush never changes the contents; a failed one changes nothing at all |
| StorageModel.WriteWrites | src/storage.c:101-114 | a write changes exactly the blocks it got through: all of them, or a prefix when a flush failed |
| StorageModel.CacheRefinesFlatDevice | src/storage.c:43-120 | every run of reads, writes, syncs and idle polls, over a flash that fails at any of them, gets the replies and leaves the contents of a flat array of blocks on which a failed write writes a prefix and a failed sync changes nothing; with a flash that does not fail, nothing is cut short |
| StorageModel.StepRefines | src/storage.c:43-120 | the same for one operation; a sync that succeeds leaves the flash equal to the contents |
| StorageModel.IdleFlushesIff | src/storage.c:101-120 | after an accepted write whose last clock reading is t, an idle poll at t + e, for e below 2^64, flushes exactly if e is more than 500000 and the flash is good: then the flash is the contents and nothing is dirty; otherwise the cache is exactly as it was |
| StorageModel.WrittenImage | src/storage.c:101-114 | over any run, whatever fails in it and however the writes are cut up and repeated: if the last write aimed at each address was accepted with the byte of an image, the contents are that image |
| StorageModel.BlockWritesLand | src/usb_composite.c:69-80 | accepted writes of one block each, in order, followed by anything that does not write, are such a run |
| StorageModel.FailureLosesNothing | src/storage.c:74-114 | over any run, whatever fails in it, a byte of an accepted write stays until another write aims at its address |
| Storage.BlockDevice.ReadBlocks | src/storage.c:43-63 | in place: fills the buffer from the contents, or reports an out-of-range request and leaves it alone |
| Storage.BlockDevice.Flush | src/storage.c:74-86 | in place: erase and program, as specified, contents unchanged |
| Storage.BlockDevice.CacheLoad | src/storage.c:88-99 | in place: the target sector is cached unless the flush before it failed |
| Storage.BlockDevice.WriteBlocks | src/storage.c:101-114 | in place: the per-block loop equals the specified one and reports whether every block was written |
| Storage.BlockDevice.Poll | src/storage.c:116-120 | in place: acts as the specified poll, whose half second StorageModel.IdleFlushesIff states |
| CapText.LineFills | src/deck.c:101-112 | characters of a line pile up in the buffer and are cut at 600 |
| CapText.StreamingIsBatch | src/deck.c:99-132 | for every text and every split into chunks, deck and error are those of processing its lines in order, each cut to 600 characters, to the first error |
| CapText.ParsedFits | src/deck.c:116-132 | whatever the text, a parsed deck has 1 to 512 cards, none empty, and at most 40960 columns |
| CapText.HeaderIff | src/deck.c:33-49 | a line is a header exactly if it is the prefix, decimal digits and then only spaces, tabs and carriage returns |
| CapText.BlanksAreAlike | src/deck.c:68-88 | tabs and carriage returns separate columns exactly as spaces do |
| CapText.WordIs | src/deck.c:16-31 | a word is a column exactly if it is four hex digits of either case; then it is their value modulo 0x2000 |
| CapText.LineMeans | src/deck.c:51-89 | one line: a header opens an empty card or, with 512 open, is error -1; any other goes to the open card or, past 40960 columns, is error -2; outside a card it is nothing |
| CapText.LinesFailAt | src/deck.c:51-112 | lines fail with -1 exactly at a 513th header and with -2 exactly at a line past 40960 columns, whichever is first |
| CapText.FailsIff | src/deck.c:51-132 | so a text does; and it fails with -3 exactly if neither happens and no card has a column |
| CapParser.DeckKept | src/deck.c:123-131 | dropping empty cards keeps the index a gapless partition of the same columns and every other card |
| CapParser.ParseCardHeader | src/deck.c:34-49 | accepts exactly the prefix, at least one digit, and trailing blanks |
| CapParser.ScanHex4 | src/deck.c:16-31 | accepts exactly four hex digits of either case and returns their value masked to 13 bits |
| CapParser.DropEmpty | src/deck.c:123-131 | in place: compacts the index to the cards that own columns |
| CapParser.Parser.ProcessLine | src/deck.c:51-89 | in place: opens a card, adds the line's columns up to capacity, or ignores the line |
| CapParser.Parser.ParseChunk | src/deck.c:99-114 | in place: equals the specified streaming of the chunk, and stops at the first error |
| CapParser.Parser.ParseFinish | src/deck.c:116-132 | in place: handles a last line without newline and concludes with the cards or the specified code |
| CapPrinter.EmitCards | tools/capstrip.py:67-73 | the two loops build the specified text |
| CapPrinter.HexLineReads | tools/capstrip.py:71 | the columns read from a printed line are the printed values masked to 13 bits |
| CapPrinter.SplitUndoesJoin | tools/capstrip.py:73 | splitting the joined lines returns them |
| CapPrinter.HeaderLineIsHeader | tools/capstrip.py:70 | a printed header is read as one, even when its number overruns the line buffer |
| CapPrinter.DecValue | tools/capstrip.py:70-72 | a printed number is a decimal numeral of that number |
| CapPrinter.TotalLineReads | tools/capstrip.py:72 | the trailer opens no card, and adds a column exactly when the count has four digits |
| CapPrinter.ReadsBack | tools/capstrip.py:67-73 | whatever is printed within capacity reads back as its non-empty cards, masked and cut to 120 columns |
| CapPrinter.SpreadCardParses | src/deck.c:51-89 | a header and columns over any number of lines parse as one card with all of them, so a text can hold a card of any width |
| CapPrinter.TooWideToPrint | tools/capstrip.py:67-73 | a card of 121 columns, printed, does not come back |
| CapPrinter.RoundTripIff | tools/capstrip.py:67-73 | printing a punched deck and parsing it in any chunks returns exactly its cards if and only if they number 1 to 512, hold at most 40960 columns, and none is wider than 120 |
| Surgery.AppendedIff | src/surgery.c:40-47 | a sequence of cards goes in completely exactly when the whole fits |
| Surgery.TrimmedIs | src/surgery.c:56-59 | trimming takes off the first and the last card and nothing else, and refuses decks without a card between |
| Surgery.SerialIs | src/surgery.c:60-66 | the serial recipe takes the loader card and then all cards from the sixth to the last but one, in order, and refuses decks of six cards or fewer |
| Surgery.AppendRange | src/surgery.c:40-47 | in place: appends the range up to the first card that does not fit, and says whether all did |
| Surgery.Apply | src/surgery.c:49-69 | in place: appends exactly the recipe's cards with columns unchanged and earlier cards untouched; refuses decks too short for the recipe without touching the destination |
| Surgery.SerialStartsAtZeroIff | src/surgery.c:60-66 | a deck begun with the serial-loader recipe is fed from card 0 if and only if its source has a marked loader among its first five cards |
| Deckload.LoadFile | src/deckload.c:26-47 | in place: the cards of the whole file as the batch reading of its bytes, or the error code; loader card marked |
| Deckload.PreparedFits | src/deckload.c:49-66 | preparing never overflows, so its surgery error is unreachable |
| Deckload.Prepare | src/deckload.c:49-66 | in place: loader and body of a deck in box order, otherwise the deck as it is; loader card marked in the result |
| Deckload.PreparedStartsAtLoader | src/deckload.c:49-66 | a deck whose marked loader stands behind a title card is prepared to start at that loader |
| Deckload.CapFallsBack | src/deckload.c:9-24 | a name with .cap that is not there stands for the same with .hex.cap, if it leaves room |
| Deckload.PreparedIs | src/deckload.c:49-66 | which decks are prepared, by their loader card and number of cards, and into which cards |
| Deckload.BatchIsJoined | src/deckload.c:68-83 | a batch that loads is the concatenation, in order, of what each source's recipe makes of its own deck |
| Deckload.BatchFailsAt | src/deckload.c:68-83 | a batch that fails has the code of the first source that fails, and which code each failure has |
| Deckload.LoadCodes | src/deckload.c:26-112 | the codes of the single loaders: -1 for a missing file, -2 for one that breaks off |
| Deckload.LoadBatch | src/deckload.c:68-83 | in place: the recipes of all sources concatenated, or the code of the first that fails |
| Deckload.BatchStartsAtLoaderIff | src/deckload.c:68-83 | a batch that begins with a serial-loader source is fed from card 0 if and only if that source has a marked loader |
| Deckload.LoadBin | src/deckload.c:85-112 | in place: one hex card for base 0, else the encoder's deck of the whole file, or the error code |
| FatModel.FatDriver.MountVolume | src/fat_ro.c:18-49 | in place: the boot-sector checks in order, with their error codes, and the geometry of an accepted volume |
| FatModel.MountIsMounted | src/fat_ro.c:18-49 | a volume that mounts has a cluster size, is FAT12 or FAT16, and its table starts at a 16-bit sector number |
| FatModel.RefusedIff | src/fat_ro.c:18-49 | which boot sectors are refused, byte by byte and in order, with which code; all others mount |
| FatModel.MountedIs | src/fat_ro.c:18-49 | the geometry of a mounted volume: where table, directory and data start, that the clusters are all the whole ones there are, and twelve bits exactly below 4085 of them |
| FatModel.CachedIsDirect | src/fat_ro.c:52-80 | one cached lookup equals the uncached one, which Fat12.LookupFindsWord and FatRoundTrip.ChainFollowed pin to the packed tables, straddling entries and failing reads included, and keeps the cache coherent |
| FatModel.LookupsAreDirect | src/fat_ro.c:52-80 | so does every sequence of lookups |
| Fat12.LookupFindsWord | src/fat_ro.c:52-80 | for every sequence of 12-bit words packed two to three bytes, the lookup of c gives the word c: odd and even, inside a sector and astride two |
| Fat12.CachedLookupsFindWords | src/fat_ro.c:52-80 | so does every sequence of lookups through the one-sector cache, from any coherent state of it |
| FatModel.FatDriver.Next | src/fat_ro.c:52-80 | in place: through the static sector cache, the uncached lookup, which Fat12.LookupFindsWord pins |
| FatRead.ByteAtCursor | src/fat_ro.c:245-267 | within the cursor's cluster every byte of the file is found at the cursor's sector |
| FatRead.FatFile.Advance | src/fat_ro.c:246-253 | in place: the cursor reaches the chain element that holds the position, or the chain ends before it; ends on cyclic chains too |
| FatRead.FatFile.Read | src/fat_ro.c:232-268 | in place: delivers exactly the bytes that can be had, in order, leaves the rest of the buffer alone, and returns their count, or -1 when a sector fails |
| FatRead.ReadResultIs | src/fat_ro.c:232-268 | the value returned: -1 exactly if a byte asked for stands in a sector that fails, behind bytes that can be had; otherwise all bytes asked for and in the file, or those before the chain ends |
| FatRead.ReadsConcatenate | src/fat_ro.c:232-268 | on every image successive reads of any sizes concatenate to the chain's bytes, cut to the file size and to the first byte that cannot be had |
| Fat12.Fat12FileReads | src/fat_ro.c:232-268 | a file laid out on any chain of a 12-bit table, clusters of any number of sectors in any order, reads back byte for byte in pieces of any sizes |
| FatDir.EqualIgnoringCase | src/fat_ro.c:189-199 | decides equality of two names ignoring ASCII case |
| FatDir.CollectPart | src/fat_ro.c:94-112 | in place: one long-name part fills its 13 places up to a terminator |
| FatDir.ReadShortName | src/fat_ro.c:114-125 | the two loops build the specified 8.3 name |
| FatDir.ShortNameReads | src/fat_ro.c:114-125 | a blank-padded stem and extension read back as stem, dot, extension, or as the stem alone |
| FatDir.OpenFile | src/fat_ro.c:128-230 | in place: the sector and entry loops find the first visited file of that name, report a missing one, or a broken directory |
| FatListing.OpensFirstItem | src/fat_ro.c:128-230 | in any directory of removed entries, labels and subdirectories, with or without long names, and files with an 8.3 name only or with a long name in 13-character parts, opening finds the first file found under that name ignoring case, with its size and first cluster, or nothing |
| FatListing.FoundAsItselfIff | src/fat_ro.c:94-166 | a file is found under its own long name, or the first 52 characters of it, if and only if a zero ends it in its last part, or it is that long, or the assembly buffer holds nothing behind its end |
| FatListing.SpoiledName | src/fat_ro.c:150-154 | a directory in which that fails: behind a subdirectory with a name of 14 characters, a file with a name of 13 is not found under it |
| FatListing.AlikeIff | src/fat_ro.c:189-199 | the comparison is equality but for the case of ASCII letters |
| FatAlias.CandidatesDiffer | tools/mkfatimg.py:37-44 | different numbers give different aliases |
| FatAlias.ShortAlias | tools/mkfatimg.py:25-45 | the numbering stops, at the first candidate not yet used |
| FatAlias.ChosenIs | tools/mkfatimg.py:37-45 | the plain alias if it is free, else the first numbered one if that is, never a taken one |
| FatAlias.AliasCharsAre | tools/mkfatimg.py:29-36 | which characters may stand in an alias, and that small letters stand there as capitals |
| FatAlias.CleanKeeps | tools/mkfatimg.py:29-36 | characters that may stand in an alias are kept in order, in upper case, up to the length |
| FatAlias.CleanSkips | tools/mkfatimg.py:29-36 | any other character is dropped, wherever it stands |
| FatAlias.NamedX | tools/mkfatimg.py:37 | a name with no character to keep before its last dot is called X |
| FatAlias.NumberedStem | tools/mkfatimg.py:39-43 | a numbered alias keeps as much of the base as leaves room for the tilde and the number |
| FatBuilder.ChoiceIsUnique | tools/mkfatimg.py:139-152 | the file names alone decide all aliases, so an image is determined by its files and size |
| FatRoundTrip.FirstAliasReads | tools/mkfatimg.py:25-38 | a name that fits the 8.3 form has its upper-case form as first alias, and the driver reads it as that |
| FatSizing.SizeTable | tools/mkfatimg.py:81-88 | the eight-round loop computes the specified sizes |
| FatSizing.SettlesIff | tools/mkfatimg.py:80-88 | the table size is a fixed point exactly when the sector count less 31 is not 1 or 2 modulo 258; otherwise two clusters too many are counted; either way the table is long enough |
| FatSizing.SizesThatSettleAndSwing | tools/mkfatimg.py:80-88 | the default 3 MiB settles; a 2080 KiB image swings and counts two clusters too many |
| FatSizing.StaysFat16 | tools/mkfatimg.py:89-91 | every size the builder accepts keeps enough clusters to be read as FAT16 |
| FatImage.LfnPartReads | tools/mkfatimg.py:55-72 | each character of a long-name part reads back from its place, with the part number and attribute |
| FatImage.ShortEntryReads | tools/mkfatimg.py:146-151 | first cluster and size read back from the short entry |
| FatImage.LinkAt | tools/mkfatimg.py:131-137 | the table entry of every cluster of every file: the next one, or the end mark |
| FatImage.TableHead | tools/mkfatimg.py:115-116 | the table starts with the media byte and all ones |
| FatImage.LabelText | tools/mkfatimg.py:118-123 | text, attribute and zeros of the volume label's entry |
| FatImage.FreeEntries | tools/mkfatimg.py:115-137 | the entries of clusters that belong to no file are zero |
| FatImage.BootMarks | tools/mkfatimg.py:93-108 | jump, maker's name, media byte and geometry of the boot sector, at their places |
| FatImage.BootText | tools/mkfatimg.py:109-113 | serial number, label and type of the boot sector at their places, zeros up to the signature |
| FatImage.LfnPartRest | tools/mkfatimg.py:62-72 | last-part mark, checksum and zero bytes of a long-name part |
| FatImage.DataAt | tools/mkfatimg.py:156 | every byte of every file is in the data area at its clusters |
| FatBuilder.LinkChain | tools/mkfatimg.py:131-137 | in place: packs one file's links, refused exactly when they do not fit the table or 16 bits |
| FatBuilder.LfnChecksum | tools/mkfatimg.py:48-52 | the loop computes the checksum every name part carries |
| FatImage.ChecksumRotates | tools/mkfatimg.py:48-52 | with one more character the eight bits move down a place, the lowest to the top, and the character is added |
| FatBuilder.AddEntries | tools/mkfatimg.py:141-154 | appends parts and short entry, growing the directory area past its end, so that the test for a full directory never succeeds |
| FatBuilder.BuildImage | tools/mkfatimg.py:75-168 | the whole pass succeeds exactly on the file lists it should, gives every file the first candidate alias that is free after the files before it, and lays out the specified image |
| FatRoundTrip.BuiltMounts | src/fat_ro.c:18-49 | a built image mounts as the volume the builder meant |
| FatRoundTrip.ChainFollowed | src/fat_ro.c:245-253 | the reader follows a file's contiguous clusters one by one |
| FatRoundTrip.ChainEnds | src/fat_ro.c:82-85 | and stops after the last |
| FatRoundTrip.WholeFileIff | src/fat_ro.c:232-268 | a file can be read to its end if and only if it has one cluster or its last one is below 0xFFF8 |
| FatRoundTrip.FileReadsBack | src/fat_ro.c:232-268 | reads of any sizes return the bytes at the file's clusters, whatever the number of entries: the stored ones if the entries fit the root directory |
| FatRoundTrip.PartCollected | src/fat_ro.c:94-112 | collecting the parts in disk order rebuilds the name; parts beyond the fourth change nothing |
| FatRoundTrip.OpenIsFirstNamed | src/fat_ro.c:128-230 | opening any name finds the first stored file whose first 52 characters it spells, ignoring case, among those whose entries are all in the first 512, or nothing |
| FatRoundTrip.OpensIff | src/fat_ro.c:218-230 | among files that look different, one is found under its own name if and only if the name has at most 52 characters and its entries are all in the first 512 |
| FatRoundTrip.AllOpenIff | tools/mkfatimg.py:141-154 | every file of an accepted list of files that look different can be opened if and only if the entries number at most 512 |
| FatRoundTrip.TooManyFiles | tools/mkfatimg.py:141-154 | an accepted list that needs 513 entries, and a file in it that cannot be opened |
| FatRoundTrip.BuildReadRoundTrip | tools/mkfatimg.py:75-168 | for every accepted list whose entries fit the root directory: mount, open and read give back every followable file byte for byte |
| FatRoundTrip.OutgrownImage | tools/mkfatimg.py:80-91 | an accepted image that outgrows its size |
| FatRoundTrip.ChainIntoEndMarks | src/fat_ro.c:82-85 | an accepted image with a file that cannot be read to its end |
| FatRoundTrip.NameTooLong | src/fat_ro.c:94-112 | an accepted image with a file that is not found under its name of 53 characters |
| FatRoundTrip.ImageKeepsSizeIff | tools/mkfatimg.py:159-168 | the image keeps its size exactly when the data fits the sectors really left; always so at sizes that settle |
| FatRoundTrip.OverflowShiftsData | tools/mkfatimg.py:143-154 | with more than 512 entries the reader finds directory entries where the first file's data should be |
| FatRoundTrip.OverflowBreaksRoundTrip | tools/mkfatimg.py:153-154 | so, for instance, a first file that starts with a zero byte does not read back |
| EventRing.PushRefines | src/monitor.c:40-51 | a push enqueues, dropping the oldest of 1024 |
| EventRing.PopTakes | src/monitor.c:53-64 | for any lag at all, which event a pop takes: it sees the lag modulo 2^32 |
| EventRing.PopRefinesIff | src/monitor.c:53-64 | the lag seen is the real one exactly below 2^32 or wrapped onto an overflow; then the pop is the queue's |
| EventRing.FullTurnReadsEmpty | src/monitor.c:53-64 | after any 2^32 events from power-up, none read, the ring holds the last 1024 and a read finds it empty |
| EventRing.RingIsDropOldestQueue | src/monitor.c:40-64 | every run in which reads come in time answers every read as a drop-oldest queue of 1024 |
| EventRing.EmptyAtBoot | src/monitor.c:18 | the zeroed ring is the empty queue |
| EventRing.EventBuffer.Put | src/monitor.c:40-51 | in place: writes the slot and wraps the index as specified |
| EventRing.EventBuffer.Take | src/monitor.c:53-64 | in place: skips forward after an overflow and reads as specified |
| RingRace.StepKeeps | src/monitor.c:40-64 | every single field store, publication, load, field copy or index store keeps the two-core invariant |
| RingRace.ReadsAreOrderedAndIntact | src/monitor.c:40-64 | under every interleaving reads come in order and at most once, and one that ends before the writer begins the event 1024 later returns exactly what was pushed |
| RingRace.StepsMakeAPush | src/monitor.c:40-51 | uninterrupted, the steps are the whole push |
| RingRace.StepsMakeAPop | src/monitor.c:53-64 | uninterrupted, the steps are the whole pop |
| RingRace.OvertakenCopyTears | src/monitor.c:61 | the bound is tight: overtaken, a copy mixes two events |
| WholePath.DriverSeesContents | src/storage.c:43-63 | the blocks the FAT driver reads are the abstract contents of the write-back cache |
| WholePath.HostImageStays | src/storage.c:43-120 | an image that arrives in any pieces, in any order and with any repeats, among reads, syncs, idle polls and flash failures, is what the driver reads block for block, once the last write to every address was accepted with the image's byte |
| WholePath.StoredFileReads | src/fat_ro.c:218-268 | a file of a built image opens and delivers exactly its bytes |
| WholePath.StoredBinaryIff | src/deckload.c:85-112 | a stored binary becomes its specified deck exactly when it fits: one hex card of 1 to 40 bytes for base 0, otherwise the encoder's deck |
| WholePath.StoredTextIff | src/deckload.c:26-47 | a printed deck stored on the volume loads back card for card, exactly when the parser can hold it |
| WholePath.LoadedDeckIsGood | src/deckload.c:26-66 | every text deck the loader hands over, prepared or not, meets what the feeder's invariants need; it meets the column bound of the session theorems exactly when none of its cards exceeds 256 columns |
| WholePath.BatchDeckIsGood | src/deckload.c:68-83 | the same for every batch of at least one source |
| WholePath.BootedAndLoaded | src/feeder.c:54-65 | after boot and a load into slot 0 the main theorems' hypotheses hold, whatever the other slot holds |
| WholePath.LoadedAfterAnyRun | src/feeder.c:219-390 | after any run that leaves the feeder disarmed, injected errors included, a load into slot 0 gives them too, with the policy the run left |
| WholePath.SampledIsSent | pio/presenter.pio:35-44 | a presenter that has run dry has shown at its strobes exactly the characters the feeder sent |
| WholePath.FileReachesMemory | src/deckload.c:85-112 | from a file on the volume under the write-back cache through deck, feeder and waveform to memory: the file's bytes at their base; at 0 two no-operations and the jump to the entry, which execution from 0 reaches; nothing else changed outside the card buffer |
| WholePath.PrintedDeckReachesMachine | src/deckload.c:26-66 | from a printed deck on the volume, prepared or not, to the machine: the loader card in hex and every later card in column binary, one transfer each |
| WholePath.WideCardFromText | src/deck.c:51-89 | a text the parser accepts whose card the feeder opens and never finishes |
| WholePath.FileReachesMachine | src/deckload.c:85-112 | from a file of 1 to 40 bytes loaded with base 0 to the machine: one transfer that packs to the file's bytes and zeros |

## Left out

- FeederModel.RunConcat: handlers are atomic steps; preemption inside a handler and memory ordering between cores are not modelled (the event ring is the one place where steps are split).
- FeederEngine.Reader.OnIpc: an ARM word must name a slot that holds a deck, and in a run one that does not is no step: the console arms only the slot it has just loaded (src/console.c:154-180). The FININ pin level after ARM, REWIND and GO is not claimed; those paths clear the pending flag without lowering the pin.
- FeederEngine.Reader.Poll: the idle auto-rewind is only a remark in the source and has no step.
- FeederSession.SessionTrace: runs with EJECT, with command 0x48, with an injected error, or with a policy change while a card is open are covered by the all-runs invariants only.
- WholePath.FileReachesMemory: the timing between pushing a word and driving it is not related to the machine's commands; the waveform theorem holds for every arrival schedule, and the machine's own program (what the loader card does when executed) is the documented scatter loader.
- Transcode.TranscodeColumn: the normal mode is the source's stub, the constant 0x20; mixed modes do not exist.
- StorageModel.CacheRefinesFlatDevice: flash address arithmetic is not wrapped at 32 bits; the in-place methods require requests within the safe range. The region is exactly 3 MiB and starts out as any bytes.
- FatModel.CachedIsDirect: the image does not change between lookups; the driver's static sector cache is never invalidated after the host rewrites the volume. Table sectors are numbered below 2^32 - 1, which 16-bit cluster numbers and a 16-bit reserved count guarantee.
- FatRead.FatFile.Read: a volume whose sector numbers exceed 32 bits when multiplied by 512 is not distinguished; the sector number itself wraps as in the source.
- FatBuilder.BuildImage: names are ASCII and 1 to 255 characters long, as a host file system gives them; messages, exit codes and file access are not modelled, and the boot sector and a name part are laid out as whole values rather than field by field.
- FatListing.OpensFirstItem: name parts that stand in wrong order or before no entry of their own are not among the items.
- FatAlias.ShortAlias: up to 99,999 aliases, more than a FAT16 volume can number; characters are ASCII.
- CapPrinter.EmitCards: only the printer and the firmware's parser are modelled, not the tool's own reader of captures, which also accepts leading blanks and other line separators.
- CapParser.Parser.ParseChunk: the overflow flag, which nothing reads, is not kept.
- Deckload.LoadBatch: deck and file display names are not modelled; sources are given, not looked up in the table of four batches.
- Deckload.LoadBin: the base and entry come from the caller; console parsing is not modelled.
- Surgery.SerialStartsAtZeroIff: decks with no marked loader keep the index-1 fallback, which does not track the moved card; the lemma says exactly when that happens.
- RingRace.ReadsAreOrderedAndIntact: stores and copies of one field are atomic, and publication orders the stores before it, as the source's release and acquire do.
- Presenter.WaveformIsExact: the FIFO is unbounded there; the feeder model keeps its depth of four. The instruction that lowers FININ between cards is not part of the interpreted program.
- USB, the console, button, LEDs, GPIO and PIO register setup, interrupt priorities, configuration storage and its CRC: plumbing without a property of its own here.
- Directory listing for the console: the same walk as opening, without the name test.
