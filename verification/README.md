# Verified model of go-LIN

go-LIN is a LIN 2.x library. This project models its five stateful or arithmetic parts in Dafny and proves what they
keep over every input, every run and every interleaving. `dafny verify dfyconfig.toml` checks everything.

| part | files |
|---|---|
| End-to-end protection (`safety/e2e.go`) | `Bits`, `Crc`, `CrcPolynomial`, `CrcOrder`, `E2E`, `E2EDetection`, `E2EStream` |
| LDF signal codec and parser (`ldf/parser.go`) | `Signals`, `SignalCodec`, `SignalRoundTrip`, `LdfText`, `LdfDatabase`, `LdfGrammar`, `LdfParser`, `LdfLines`, `LdfRecovery`, `LdfUnclosed`, `LdfPrint`, `LdfRoundTrip`, `LdfSpacing` |
| Virtual bus (`virtual/bus.go`) | `BusModel`, `BusMachine`, `BusSafety`, `BusDelivery`, `BusConservation`, `BusHistory`, `BusAccounts`, `VirtualBus`, `BusRefinement` |
| Master and diagnostics (`master/master.go`, `diagnostic.go`) | `Master`, `MasterRun`, `MasterCallbacks`, `Diagnostic`, `Exchange`, `ViewHistory` |
| LIN arithmetic and slave (`lin.go`, `slave/slave.go`) | `Options`, `Bytes`, `Lin`, `Slave`, `SlaveMachine` |

How the parts are modelled:

- Code that updates state is imperative here too: classes for `Protector`, `Receiver`, the LDF parser, `Bus`,
  `Subscription` and both nodes, arrays for byte buffers, and the source's loops. Each such method is proved equal to a
  function of the old state, and the properties are lemmas about those functions.
- The CRC register is refined twice: the shift-and-xor loop on 16-bit words to a bit-serial register, and that register
  to polynomial division over GF(2).
- The parser methods, with their nested recovery loops, are proved to compute a fold of one line at a time over an
  automaton. Resynchronisation then is a statement about that fold, and so is the round trip: a description written out
  line by line is read back exactly.
- The bus appears twice. `BusMachine` splits every call into its atomic steps (lock sections, channel operations, counter
  additions), so that all interleavings are runs of one state machine. `VirtualBus` is the object, one call at a time,
  with its heap: stored arrays, copies and aliasing. `BusRefinement` proves that the steps of an undisturbed SendHeader,
  successful or not, and of an undisturbed Close add up to the method of the object, and what an undisturbed drain that
  times out comes to; the other calls are single steps.
- A run of the master is driven by what surrounds it: for every slot the calls made by others before it, whether the
  context is cancelled, and the bus's answer. The lemmas hold for every such sequence, whatever the bus. `Master.Node.Run`
  works on a virtual bus that others use at the same time, and `MasterRun.RunOnBusIsARun` proves that each of its runs is
  one of these, with the answers the bus gives.
- What a function of this kind means is pinned down a second time without naming it: known values (`Crc.CheckValue`), bytes
  on the wire (`E2E.Layout`, `Diagnostic.PackedBytes`), exact outcomes by input (`LdfLines`), and laws over whole histories
  of calls (`ViewHistory`, `BusHistory`, `MasterCallbacks`).
- The slave appears as the object, one call at a time, and in `SlaveMachine` with its calls split into their two steps.

Where the code and its documentation disagree, the model follows the code:

- `SEOOC.md:52` promises a CRC mismatch on any multi-bit corruption. `E2EDetection.FourFlipsMissed` gives a frame and a
  four-bit corruption that passes; `E2EDetection.UndetectedIsMultiple` says exactly which corruptions pass, and
  `E2EDetection.CaughtCorruptionIsRejected` collects the classes that never do.
- `SEOOC.md:53` promises a sequence gap on replayed frames. A gap reseeds the receiver, so the second of two replayed
  frames is accepted: `E2EStream.ReplayedPairIsAccepted`. `E2EStream.ReceiverExact` says exactly when a frame is accepted.
- `ldf/parser.go:444-447` promises that an invalid frame header does not swallow well-formed frames. That holds in a
  `Frames` section for a rejected definition that brings its own closing line (`LdfRecovery.Resynchronisation`), and not
  otherwise. A definition on a single line is always rejected (`LdfUnclosed.OneLineDefinitionIsAStub`), has no such line,
  and takes the next frame with it (`LdfUnclosed.NextFrameIsSwallowed`); `LdfUnclosed.StubExact` says exactly when nothing
  is lost. Between the section keyword and its brace even a complete rejected definition makes the parser read the brace
  line, up to the first closing brace, as another one, so that usually the first frame is missing from a file that still
  parses (`LdfRecovery.FirstFrameIsSwallowed`); `LdfRecovery.InsertionBeforeBrace` says exactly when it makes no difference.
- `master/master.go:122-124` says that a response is never solicited that the target was not asked for. Another node can
  replace the registration on 0x3C before the header goes out, and the response is solicited all the same
  (`Exchange.RequestCanBeReplaced`); the request goes out exactly when its registration was left alone
  (`Exchange.RequestGoesOut`).
- `slave/slave.go:62-79` keeps the index of identifiers beside the bus. Overlapping calls on one identifier can leave the
  two apart for good (`SlaveMachine.OverlapDisagrees`); `SlaveMachine.AgreementExact` says exactly when they agree.

## Model

| member | source | states |
|---|---|---|
| Crc.ComputeCrc16 | safety/e2e.go:245-258 | the nested loops on 16-bit words compute the bit-serial register started at all ones |
| Crc.ShiftRefined | safety/e2e.go:250-254 | one inner iteration is one multiplication by x modulo the generator |
| Crc.WindowIsShifts | safety/e2e.go:249-250 | adding a window of bits at the top and shifting equals feeding the bits one by one |
| CrcPolynomial.Division | safety/e2e.go:245-258 | after every bit, dividend = quotient times generator plus register |
| CrcPolynomial.CrcIsRemainder | safety/e2e.go:242-258 | a 16-bit word is the CRC if and only if it is congruent to data(x)x^16 + 0xFFFF x^(8n) modulo x^16+x^12+x^5+1 |
| CrcPolynomial.SerialIsRemainder | safety/e2e.go:245-258 | the same for any start value and any number of bits, with uniqueness of the remainder |
| Crc.CrcAffine | safety/e2e.go:245-258 | the CRCs of equally long inputs differ by the zero-start CRC of their difference |
| Crc.ShiftInjective | safety/e2e.go:250-254 | a zero-input step maps only the zero register to zero |
| Crc.BurstIsSeen | safety/e2e.go:245-258 | no error pattern inside 16 consecutive bits leaves the register at zero, at any length |
| Crc.CrcParity | safety/e2e.go:245-258 | the CRC of any data has the bit parity of the data |
| Crc.CrcByByte | safety/e2e.go:245-258 | the recurrence on 16-bit words: one more byte is added at the top and clocked eight times with 0x1021 |
| Crc.CheckValue | safety/e2e.go:242-258 | the nine ASCII digits give 0x29B1, the published check value of CRC-16/CCITT-FALSE |
| CrcOrder.OrderOfX | safety/e2e.go:242-258 | x^n is 1 modulo the generator exactly when 32767 divides n |
| E2E.BuildHeader | safety/e2e.go:231-240 | the header filled in place, followed by the payload, is the protected frame |
| E2E.Protector.Protect | safety/e2e.go:124-131 | output is the frame of the old counter, in fresh memory; the counter grows by one modulo 2^32 |
| E2E.ProtectedPasses | safety/e2e.go:124-131 | a protected frame passes every check of a receiver of that identity, and counter and payload read back |
| E2E.PassingIsProtected | safety/e2e.go:168-209 | conversely, a frame that passes is exactly what a sender of that identity and counter writes |
| E2E.Layout | safety/e2e.go:231-240 | byte by byte: DataID, SourceID and counter little-endian, then the CRC of the frame with a zeroed slot, then the payload; ten bytes in front in all |
| E2E.ShortIsRefused | safety/e2e.go:169-174 | an input below ten bytes is too short, whatever the state, which stays |
| E2E.CorruptIsRefused | safety/e2e.go:182-195 | a longer one whose CRC equation fails is a CRC mismatch with the counter on the wire; the state stays |
| E2E.ForeignIsRefused | safety/e2e.go:197-209 | one whose CRC equation holds but with another DataID or SourceID is an identity mismatch with that counter; the state stays |
| E2E.ForeignSenderIsRefused | safety/e2e.go:197-209 | so every frame of every sender of another identity is an identity mismatch |
| E2E.ContinuingIsAccepted | safety/e2e.go:211-229 | a passing frame that is the first or continues the sequence is accepted with its payload and becomes the reference |
| E2E.GapIsReported | safety/e2e.go:214-222 | any other passing frame is a sequence gap and becomes the reference all the same |
| E2E.Receiver.Unwrap | safety/e2e.go:168-229 | outcome and new state are those of the specification for every input (E2E.ShortIsRefused to E2E.GapIsReported say which they are); an accepted payload is a fresh copy |
| E2E.CheckCrc | safety/e2e.go:182-189 | the scratch copy with zeroed slot decides the CRC equation, without touching the input |
| E2EDetection.SyndromeDecides | safety/e2e.go:182-195 | a corruption passes the CRC check exactly when its syndrome is zero, with the slot in the middle of the frame |
| E2EDetection.UndetectedIsMultiple | safety/e2e.go:182-195 | in polynomial terms: exactly when the flips, slot moved to the end, are a multiple of the generator |
| E2EDetection.BurstDetected | safety/e2e.go:168-195 | every nonzero change inside 16 consecutive bits outside the slot is caught, at every payload length |
| E2EDetection.SlotChangeDetected | safety/e2e.go:182-195 | every change of the slot alone is caught |
| E2EDetection.OddDetected | safety/e2e.go:182-195 | every odd number of flips anywhere, slot included, is caught |
| E2EDetection.PairSyndrome | safety/e2e.go:182-195 | two flips are missed exactly when their exponents differ by a multiple of 32767 |
| E2EDetection.UpToThreeFlipsDetected | safety/e2e.go:182-195 | up to 4093 bytes of frame, one to three flips are always caught |
| E2EDetection.TwoFlipsMissed | safety/e2e.go:182-195 | the bound is tight: in every frame of 4094 bytes two certain flips cancel |
| E2EDetection.CaughtCorruptionIsRejected | safety/e2e.go:168-195 | for all these classes Unwrap reports a CRC mismatch and keeps its state, whatever state and identity it has |
| E2EDetection.FourFlipsMissed | SEOOC.md:52 | a concrete protected frame and a four-bit corruption of it that is accepted |
| E2EStream.ReceiverExact | safety/e2e.go:168-229 | on any stream: failing inputs change nothing; a passing frame is accepted if and only if it is the first such or continues the previous such |
| E2EStream.OnlyGoodOnesMatter | safety/e2e.go:168-229 | inputs that fail a check make no difference to state or accepted payloads |
| E2EStream.GapsAreBreaks | safety/e2e.go:214-222 | the number of gap errors is the number of non-consecutive neighbours among passing frames |
| E2EStream.LosslessDelivery | safety/e2e.go:124-131 | frames of one run of Protect calls, among any rejected noise, deliver exactly the original payloads, across wrap-around |
| E2EStream.ReplayedPairIsAccepted | SEOOC.md:53 | two replayed frames: the first is a gap, the second is accepted |
| SignalCodec.ExtractBits | ldf/parser.go:211-224 | the loop accumulates the bits from the offset on, clipped at the payload end and at 64 bits |
| SignalCodec.ExtractedBit | ldf/parser.go:211-224 | bit k of the extracted value is payload bit offset + k, and 0 beyond the width or the 64th bit |
| SignalRoundTrip.SignalValueBit | ldf/parser.go:211-224 | bit k of a decoded value is payload bit offset + k inside the width, the payload and 64 bits, else 0 |
| Signals.DataBitIsMask | ldf/parser.go:217-220 | helper: payload bit b is what the mask 1 << (b mod 8) selects in byte b / 8 |
| Signals.ValueBitIsShift | ldf/parser.go:268-273 | helper: bit i of a value v is (v / 2^i) mod 2 |
| SignalCodec.PackBits | ldf/parser.go:262-275 | exactly the covered bits inside the payload change, to those of the value |
| SignalCodec.Encode | ldf/parser.go:238-256 | absent for unknown identifiers, else a fresh payload of the declared length with the bits of the three rows below |
| SignalCodec.EncodeIsBitExact | ldf/parser.go:238-275 | every output bit is the one the references decide, the last covering one winning |
| SignalRoundTrip.GivenValueIsSent | ldf/parser.go:245-275 | a bit last covered by a signal whose value is given is that bit of the given value |
| SignalRoundTrip.InitialValueIsSent | ldf/parser.go:247-251 | a bit last covered by a declared signal without a value is that bit of its initial value |
| SignalRoundTrip.UncoveredIsZero | ldf/parser.go:243-256 | a bit no declared signal covers is 0 |
| SignalCodec.Decode | ldf/parser.go:192-206 | every declared signal of the frame with its extracted value, later references of a name winning |
| SignalRoundTrip.DecodedNames | ldf/parser.go:192-206 | exactly the declared signals the frame refers to are decoded |
| SignalRoundTrip.DecodeAfterEncode | ldf/parser.go:192-275 | a signal not reused or overwritten later comes back modulo 2^min(width, 64, room) |
| SignalRoundTrip.GivenValueReturns | ldf/parser.go:192-275 | in particular a given value comes back modulo that power of two |
| SignalRoundTrip.InitialValueReturns | ldf/parser.go:192-275 | and a declared signal that is left out comes back as its initial value modulo it |
| SignalRoundTrip.WellLaidOutRoundTrip | ldf/parser.go:192-275 | with distinct names and disjoint ranges every declared signal does, given or left out |
| SignalRoundTrip.EncodeAfterDecode | ldf/parser.go:192-275 | with distinct names and widths up to 64, re-encoding restores covered bits and clears the rest, overlaps included |
| LdfGrammar.ParseFrameHeader | ldf/parser.go:487-519 | an accepted header has identifier at most 0x3F and length 0 to 8 |
| LdfGrammar.ParseRef | ldf/parser.go:463-477 | an accepted signal reference has a non-negative offset |
| LdfGrammar.ParsedIsSound | ldf/parser.go:317-579 | every parsed database: frames under their own identifiers, ranges as above, schedule entries naming declared frames |
| LdfGrammar.FeedAllConcat | ldf/parser.go:317-355 | locality: reading on from a cursor position depends only on the state reached there |
| LdfRecovery.Resynchronisation | ldf/parser.go:429-482 | inserting at frame level a rejected frame block with its own closing line leaves database and success or failure unchanged |
| LdfRecovery.ResynchronisationAfterKeyword | ldf/parser.go:429-482 | the same between the section keyword and what follows, when neither block nor continuation starts with a brace |
| LdfRecovery.ItemReads | ldf/parser.go:433-482 | at frame level, lines up to the first closing brace close the section if no line opens a definition, and else declare the first one if its header is accepted |
| LdfRecovery.InsertionBeforeBrace | ldf/parser.go:429-482 | a block before the section's brace makes no difference to any continuation if and only if the lines behind the brace open a definition before the first closing brace, and it declares the same as the brace line does or is stored already |
| LdfRecovery.HarmShows | ldf/parser.go:429-482 | otherwise the two files already differ when they end, or close the section, right behind that closing brace |
| LdfRecovery.NoBraceNoParse | ldf/parser.go:429-484 | with no closing brace left neither file parses |
| LdfRecovery.BracedBlockShows | ldf/parser.go:430-432 | a block whose own first line starts with a brace takes the place of the section's and always makes a difference to some continuation |
| LdfRecovery.FirstFrameIsSwallowed | ldf/parser.go:444-447 | behind such a block the first frame of the section, with its references, is missing from a file that still parses, and is there without the block |
| LdfRecovery.EmptySectionIsFatal | ldf/parser.go:444-447 | an empty section behind such a block makes the file fail that parses without it |
| LdfUnclosed.StubExact | ldf/parser.go:440-453 | a rejected header without a closing line of its own makes no difference to any continuation if and only if the lines up to the next closing brace open a definition that declares nothing or a frame already stored |
| LdfUnclosed.StubHarmShows | ldf/parser.go:440-453 | otherwise the two files already differ when they end, or close the section, right there |
| LdfUnclosed.NextFrameIsSwallowed | ldf/parser.go:440-453 | at frame level the next frame is missing from a file that still parses, and is there without the stub |
| LdfUnclosed.StubNeverClosed | ldf/parser.go:440-484 | with no closing brace left neither file parses |
| LdfUnclosed.OneLineDefinitionIsAStub | ldf/parser.go:487-512 | every definition with text behind its brace is rejected, because its length field then holds the brace |
| LdfSpacing.SpacingIsFree | ldf/parser.go:357-570 | in any file, well formed or not, white space around the colons, commas, semicolons and braces of section lines and between the words of a slot does not change what it parses to |
| LdfSpacing.ParseInvertsAnyLayout | ldf/parser.go:317-579 | so a printed description parses to what it describes in every such layout |
| LdfSpacing.KeywordColonIsFixed | ldf/parser.go:367-380 | the exception: with white space before the colon of `Master:` or `Slaves:` the line says nothing |
| LdfRoundTrip.ParseInvertsPrint | ldf/parser.go:317-579 | a printed description, each number in decimal or in hexadecimal, parses to exactly the versions, nodes, signals, frames and schedules it describes, whatever order the frame table is searched in |
| LdfRoundTrip.SignalReads | ldf/parser.go:399-424 | a printed signal line adds exactly that signal: width, initial value, publisher and subscribers each in their place, numbers in either notation |
| LdfRoundTrip.HeaderReads | ldf/parser.go:487-519 | a printed frame header parses to its name, identifier, publisher and length, numbers in either notation |
| LdfRoundTrip.RefReads | ldf/parser.go:463-477 | a printed signal reference parses to its name and offset, in either notation |
| LdfRoundTrip.SlotReads | ldf/parser.go:544-552 | a printed schedule slot is recognised with its frame name and delay, unless the name starts like a diagnostic slot |
| LdfRoundTrip.NameResolves | ldf/parser.go:572-579 | when names and identifiers are distinct, a frame name resolves to its own identifier under every search order |
| LdfPrint.NumeralParsesExactly | ldf/parser.go:604-611 | an integer reads back from its decimal numeral if and only if it fits into 64 bits, and is refused otherwise |
| LdfPrint.HexadecimalParsesExactly | ldf/parser.go:604-608 | a number reads back from its hexadecimal numeral, `0x` or `0X`, every digit in either case, if and only if it is below 2^63 |
| LdfPrint.HexadecimalScans | ldf/parser.go:613-617 | an initial value or delay reads back from hexadecimal up to 2^64 |
| LdfPrint.LargeHexadecimalScans | ldf/parser.go:613-617 | and from there on as the largest 64-bit value, the range error being ignored |
| LdfLines.HeaderMeans | ldf/parser.go:487-519 | for any header line with three fields or more: accepted if and only if the first reads as 0 to 0x3F and the third as 0 to 8, and then with exactly these; further fields are ignored |
| LdfLines.ShortHeaderIsRejected | ldf/parser.go:498-500 | a header line with fewer fields is rejected |
| LdfLines.UsualHeaderReads | ldf/parser.go:487-519 | in the layout of the repository's own files, `Name: 0x10, Node, 4 {`, every frame header is read back |
| LdfLines.SignalMeans | ldf/parser.go:398-424 | any signal line with three fields or more declares exactly one signal, with width 0 if the width cannot be read; with fewer it declares nothing |
| LdfLines.RefMeans | ldf/parser.go:463-477 | any reference line counts if and only if its offset reads as a number that is not negative |
| LdfLines.SlotMeans | ldf/parser.go:543-561 | any line of a table adds an entry if and only if it has three words, `delay` in any case as the second, no diagnostic slot, and the name of a stored frame; the delay wraps at 2^32 |
| LdfLines.SemicolonIsIgnored | ldf/parser.go:604-614 | one semicolon directly behind a number is not part of it |
| LdfLines.UnquotedIsEmpty | ldf/parser.go:581-591 | a version line without two quotation marks gives an empty version |
| LdfLines.OtherLinesSayNothing | ldf/parser.go:317-355 | outside the sections a line that starts with none of the seven keywords changes nothing |
| LdfLines.UnclosedKeywordFails | ldf/parser.go:357-570 | if no closing brace follows the keyword of any of the four sections, the file does not parse |
| LdfParser.Parser.ParseTop | ldf/parser.go:317-355 | terminates with the cursor at the end on success and never past it, with the automaton's database and verdict |
| LdfParser.Parser.ParseNodes | ldf/parser.go:357-385 | the section loop ends where the automaton leaves the section, or the lines ran out |
| LdfParser.Parser.ParseSignals | ldf/parser.go:387-427 | the same for the signal section |
| LdfParser.Parser.Declare | ldf/parser.go:398-424 | one signal line: the database is that of the automaton after the line |
| LdfParser.Parser.ParseFrames | ldf/parser.go:429-485 | the same for the frame section with its header recovery |
| LdfParser.Parser.SkipBody | ldf/parser.go:448-453 | the recovery loop stops behind the first closing brace |
| LdfParser.Parser.ParseFrameBody | ldf/parser.go:455-479 | the body loop stores the frame under its identifier with the accepted references |
| LdfParser.Parser.ParseScheduleTables | ldf/parser.go:521-570 | the same for the schedule section |
| LdfParser.Parser.ParseTable | ldf/parser.go:536-564 | the table loop stores the entries that resolve to a declared frame |
| LdfParser.SearchFrame | ldf/parser.go:572-579 | some frame of the name, whichever the iteration order offers; 0xFF only if no frame below 0xFF has the name |
| LdfParser.ParseFile | ldf/parser.go:278-297 | the automaton's verdict and database: only sound databases come out, and exactly for files that end outside every section; the rows of LdfLines and LdfRoundTrip say what the lines mean |
| BusSafety.NextKeepsSafety | virtual/bus.go:177-267 | every atomic step keeps the lock discipline and never sends to or closes a closed channel |
| BusDelivery.RunKeepsInv | virtual/bus.go:99-359 | every state of every interleaving satisfies safety, exactly-once accounting and frame provenance |
| BusDelivery.BusIsSafe | virtual/bus.go:222-267 | no panic, closed means no subscribers, queues hold at most 64 |
| BusDelivery.OneFramePerSubscriber | virtual/bus.go:332-347 | a SendHeader call enters a queue at most once and only with matching filters; once returned, exactly once enqueued or refused in every covered matching subscription |
| BusDelivery.FrameOrigin | virtual/bus.go:177-212 | every frame has identifier at most 0x3F, 1 to 8 bytes, its own PID's checksum, and data and type of the remembered lookup |
| BusDelivery.ItemOrigin | virtual/bus.go:332-347 | every frame in any queue is the frame of the call that sent it |
| BusDelivery.LookupPoint | virtual/bus.go:182-189 | in every run the lookup a call remembers was made at an earlier step of that call, on an open bus, in the table of that moment |
| BusDelivery.FrameProvenance | virtual/bus.go:177-206 | so every frame of a call was made of what was registered for its identifier at that step |
| BusHistory.LastPublicationHolds | virtual/bus.go:99-161 | in every run, from a publication to the next one for the same identifier on an open bus, the table holds its bytes, classic if asked for and enhanced otherwise, or nothing after a removal |
| BusHistory.FrameIsLastPublication | virtual/bus.go:99-212 | so the frame of every call carries the identifier it was started with and the bytes, type and checksum of the last publication before its lookup |
| BusHistory.FailureOrigin | virtual/bus.go:177-191 | every failed call failed at a step where its error was true: identifier above 0x3F, bus closed, or nothing registered |
| BusHistory.QueuesAreFifo | virtual/bus.go:332-347 | over any run what entered a queue and what was received from it only grow at their ends |
| BusDelivery.FramesAreValid | virtual/bus.go:177-212 | if a run registers 0x3C and 0x3D with the classic checksum only, every frame of every call passes ValidateFrame |
| BusDelivery.QueuedFramesAreValid | virtual/bus.go:332-347 | and so does every frame that ever entered a queue |
| BusDelivery.ClosedForGood | virtual/bus.go:255-267 | once Close has completed nothing enters any queue for the rest of the run |
| BusConservation.RunKeepsBalance | virtual/bus.go:332-347 | in every state of every run the counters equal what entered and was refused, less the additions still owed |
| BusConservation.Conservation | virtual/bus.go:208-347 | at quiescence deliverCount is received plus buffered, bytesDelivered their lengths, dropCount the refusals plus drain samples, modulo 2^64 |
| BusConservation.MatchedOffers | virtual/bus.go:332-347 | in every subscription matched offers are received plus buffered plus refused |
| BusConservation.AllOffersAreCounted | virtual/bus.go:275-347 | at quiescence deliverCount plus dropCount are all matched offers plus the drain samples, modulo 2^64 |
| BusAccounts.WritesAndErrors | virtual/bus.go:99-235 | at every moment writeCount and bytesWritten are the synthesised frames and their lengths, and errorCount the failed lookups plus the registrations and subscriptions a closed bus refused, modulo 2^64 |
| BusRefinement.FailedSendAlone | virtual/bus.go:182-191 | an undisturbed call on a closed bus or without a response ends in one step with that error, counted as in the sequential bus |
| BusRefinement.CloseAlone | virtual/bus.go:255-267 | an undisturbed Close ends with every subscription closed, its queue intact, and none left; on a closed bus with nothing changed |
| BusRefinement.DrainAlone | virtual/bus.go:275-309 | an undisturbed drain that times out adds exactly the frames still buffered to dropCount and then closes the bus |
| BusRefinement.SendHeaderAlone | virtual/bus.go:177-347 | the atomic steps of an undisturbed call that finds a response end with the queues, counters and frame of the sequential bus |
| VirtualBus.Bus.Publish | virtual/bus.go:99-123 | error cases in order; otherwise the table holds a private copy with enhanced checksum, or loses the entry |
| VirtualBus.Bus.PublishClassic | virtual/bus.go:126-150 | the same with the classic checksum |
| VirtualBus.Bus.PublishFrame | virtual/bus.go:156-161 | the frame's checksum type selects between the two, errors and counters included |
| VirtualBus.Bus.SendHeader | virtual/bus.go:177-212 | error cases with their count, or the frame of the table entry in fresh memory, offered to every subscriber, with the counters |
| VirtualBus.Bus.Broadcast | virtual/bus.go:332-347 | every subscriber in turn gets the frame if it matches and has room |
| VirtualBus.Bus.Subscribe | virtual/bus.go:222-235 | a fresh empty subscription at the end of the list, or a counted error on a closed bus |
| VirtualBus.Bus.Close | virtual/bus.go:255-267 | all subscriptions closed with their queues intact, none left, idempotent |
| VirtualBus.HolderWrites | virtual/bus.go:120-199 | writing to any array ever passed to or handed out by the bus leaves every stored response as it was |
| VirtualBus.BroadcastCounts | virtual/bus.go:332-347 | deliveries, bytes and drops of one broadcast are the accepting and refusing subscribers |
| VirtualBus.BroadcastGrowth | virtual/bus.go:332-347 | the queues grow by exactly the deliveries |
| VirtualBus.BroadcastWrites | virtual/bus.go:208-212 | a broadcast adds one frame and its bytes to the write counters, whoever is listening, and no error |
| VirtualBus.ErrorsCounted | virtual/bus.go:111-191 | a closed bus and a missing response count as one error each, refused arguments as none |
| BusModel.CheckIsExact | virtual/bus.go:99-109 | a registration is accepted if and only if the identifier is at most 0x3F and the data absent or of 1 to 8 bytes; otherwise the first failing check names the error |
| ViewHistory.LastRegistrationAnswers | virtual/bus.go:99-212 | after any calls on an open bus a header is answered by the last accepted registration of its identifier: its bytes, its checksum type, the checksum in closed form; no response after a removal |
| ViewHistory.AnswerStays | virtual/bus.go:99-212 | without one the answer is what it was: refused registrations and all other calls make no difference |
| ViewHistory.ClosedAnswersNothing | virtual/bus.go:177-187 | once closed, a bus stays closed and answers nothing, while identifiers above 0x3F are refused as such |
| ViewHistory.QueueHoldsTheOldest | virtual/bus.go:332-359 | a subscriber that does not read holds the oldest 64 of all the frames its filters want, in the order of the headers |
| Master.Node.SetSchedule | master/master.go:83-91 | accepted exactly when every identifier is at most 0x3F; a refused schedule changes nothing |
| Master.Node.SetSporadicGroup | master/master.go:163-186 | accepted exactly when all identifiers are at most 0x3F, checked before anything changes; an empty list removes the group |
| Master.Node.SelectSporadic | master/master.go:204-218 | resolves the slot and clears exactly the chosen flag |
| Master.FirstPending | master/master.go:211-217 | the chosen candidate is pending and no earlier one is; none is chosen only if none is pending |
| Master.Node.Run | master/master.go:235-276 | on a virtual bus where others register, close, subscribe, receive and send headers, the nested loops realise the cyclic run, whose callbacks and cancellation the rows of MasterCallbacks and MasterRun pin down, and the bus ends as all of them left it |
| MasterRun.RunOnBusIsARun | master/master.go:235-276 | every run on a bus is a run with the visits the bus's answers amount to, so that every law of runs holds of it |
| MasterRun.RunHeaders | master/master.go:235-260 | the headers the bus saw are slot by slot those of the others, then the node's own |
| MasterRun.QuietRunHeaders | master/master.go:235-260 | when nobody else sends headers they are exactly those among the run's events |
| MasterRun.RunOnBusObserved | master/master.go:247-260 | in particular the events are the slot trace and their headers those of the unskipped slots, in order |
| MasterRun.RunLaw | master/master.go:204-276 | slot i of any run is schedule entry i mod n; a chosen candidate is pending with no higher-priority pending peer; skipped means none pending |
| MasterRun.RunObserved | master/master.go:247-260 | the events are slot by slot those of the resolutions; headers are the unskipped ones; skipped slots fire nothing |
| MasterCallbacks.CallbacksAreExact | master/master.go:247-262 | over every run OnFrame is told exactly the answers and OnError exactly the failures of the unskipped slots, in order, each right behind its own slot's header, and nothing if not registered |
| MasterCallbacks.BusCallbacksAreExact | master/master.go:247-262 | the same on a bus, with the bus's answers |
| MasterRun.CancellationStops | master/master.go:241-275 | the first cancellation ends the run for good: in a delay, which is only waited for when positive, after its slot, else before it; nothing later has any effect |
| MasterRun.RunStops | master/master.go:241-275 | and a run is stopped exactly when there is one |
| MasterRun.BusRunStops | master/master.go:241-275 | the same on a bus |
| MasterRun.LastGroupCounts | master/master.go:163-186 | after any calls a slot's group is the list of the last accepted call for it, and none if that list is empty |
| MasterRun.GroupStays | master/master.go:163-186 | without one it is what it was; calls with an identifier above 0x3F change nothing |
| MasterRun.RaisedIsPending | master/master.go:192-197 | between slots the pending identifiers are the old ones and those raised |
| MasterRun.RaisesAreSentOrPending | master/master.go:192-218 | per identifier, false-to-true raises equal sporadic attempts plus one if still pending |
| MasterRun.Drain | master/master.go:204-276 | more slot visits than distinct pending candidates ahead of candidate k get k sent |
| MasterRun.DrainedWithinVisits | master/master.go:204-276 | so k+1 visits suffice, even when other slots share candidates |
| MasterRun.DrainedWithinCycles | master/master.go:235-276 | and so do k+1 cycles of the schedule, from any point of a run |
| MasterRun.ParsedSchedulesAreValid | master/master.go:284-291 | SetSchedule accepts every schedule table of every parsed description file |
| Master.Node.Diagnostics | master/master.go:127-147 | result and bus afterwards, headers included, are those of the exchange, with others acting before each header |
| Exchange.ExchangeHeaders | master/master.go:127-147 | the bus sees the headers of the exchange, each behind those others sent before it, and no further ones |
| Exchange.RequestGoesOut | master/master.go:127-137 | what goes out on 0x3C is the request if and only if its registration is still in place |
| Exchange.RequestCanBeReplaced | master/master.go:119-137 | another node can replace it in between, and the response is solicited all the same |
| Exchange.AnswerArrives | master/master.go:127-147 | on an open bus with the answer registered, exactly that answer returns; exactly 0x3C then 0x3D are broadcast, classic and valid |
| Exchange.RequestFailures | master/master.go:127-137 | up to the request: data over five bytes, a closed bus and a missing registration each fail with their error, and with no header or the request header sent |
| Exchange.RestDecides | master/master.go:138-147 | once the request is out the outcome is that of the response header |
| Exchange.AnswerIsWhatIsRegistered | master/master.go:138-147 | which is what is registered on 0x3D then, if it is eight bytes with a length byte from 1 to 6, and else an invalid frame; closed bus and missing response fail as such |
| Diagnostic.PackDiag | diagnostic.go:90-104 | the buffer filled in place is NAD, PCI, service, data, padding; longer data is refused |
| Diagnostic.PackedBytes | diagnostic.go:90-104 | byte by byte: NAD, length with the service byte, service, data, 0xFF up to eight bytes |
| Diagnostic.MessageFrames | diagnostic.go:56-88 | requests go out on 0x3C and responses on 0x3D, classic, with the checksum over the eight bytes alone |
| Diagnostic.ReadableIsExact | diagnostic.go:110-147 | a payload is read if and only if it has eight bytes and a length byte from 1 to 6, and then byte by byte from its places |
| Diagnostic.MessagesRoundTrip | diagnostic.go:56-147 | both message kinds come back unchanged, in valid frames, exactly when the data fits |
| Diagnostic.PackInvertsUnpack | diagnostic.go:90-147 | packing an unpacked payload restores it exactly when the rest was padding |
| Lin.CalcChecksum | lin.go:263-276 | the carry-around loop computes the specified checksum; its closed form is the next row |
| Lin.ChecksumIs | lin.go:263-276 | 255 less the sum S of the data, and of the PID if enhanced, folded to ((S-1) mod 255)+1, or 0 for S = 0 |
| Lin.ClassicIgnoresPid | lin.go:256-267 | any checksum that is not enhanced is the same under every PID |
| Lin.EnhancedSeesPid | lin.go:256-276 | with the enhanced one the same data never has the same checksum under two identifiers |
| Lin.ChecksumVerifies | lin.go:263-276 | adding the checksum to the covered bytes always folds to 0xFF |
| Lin.ChecksumCollision | lin.go:263-276 | checksums agree exactly when the sums agree modulo 255 and are both zero or both not |
| Lin.ChecksumOrderIndependent | lin.go:263-276 | reordering the data is never noticed |
| Lin.OneByteBlindSpot | lin.go:263-276 | a one-byte change is missed exactly when it swaps 0x00 and 0xFF and the rest of the sum is nonzero |
| Lin.EnhancedBlindSpot | lin.go:232-276 | with an enhanced checksum over a protected identifier that rest is always nonzero |
| Lin.MatchesAnyScan | virtual/bus.go:349-359 | the scan accepts a frame exactly when there are no filters or one matches |
| Lin.ParityBits | lin.go:222-239 | bit 6 of a protected identifier is even parity over bits 0, 1, 2 and 4, bit 7 odd parity over 1, 3, 4 and 5, below them the identifier |
| Lin.PidCarriesId | lin.go:232-252 | every identifier up to 0x3F verifies and comes back |
| Lin.ValidationIsExact | lin.go:286-300 | a frame is valid if and only if its identifier is at most 0x3F, it has 1 to 8 bytes, and is classic on 0x3C and 0x3D |
| Slave.Node.SetResponse | slave/slave.go:62-79 | error cases leave index and table alone; otherwise both change together, and agreement is kept |
| Slave.Node.RemoveId | slave/slave.go:111-119 | in-place compaction leaves the old list without the identifier, order kept |
| Slave.WithoutContents | slave/slave.go:111-119 | that list has exactly the other identifiers, and no new duplicates |
| Slave.Node.ContainsId | slave/slave.go:102-109 | the scan decides membership in the index |
| Slave.Node.RegisteredIds | slave/slave.go:94-100 | a fresh copy of the index |
| Slave.IndexAgrees | slave/slave.go:62-79 | after any calls, failing and on a closed bus included, the index is duplicate-free and equals the table's keys |
| Slave.ListedMeansLastRegistered | slave/slave.go:62-79 | an identifier is listed exactly when the last call that got through for it registered data |
| Slave.LastResponseHolds | slave/slave.go:62-79 | and the bus then holds the bytes of that call, with the enhanced checksum |
| SlaveMachine.AgreementExact | slave/slave.go:62-79 | at every moment of every interleaving, index and bus agree if and only if for each identifier the call that published last and the call that recorded last both register, or neither does |
| SlaveMachine.QuiescentAgreement | slave/slave.go:62-79 | so they agree whenever all calls are over and none on the same identifier overlapped |
| SlaveMachine.OverlapDisagrees | slave/slave.go:62-79 | a removal between the two steps of a registration leaves an identifier in the index that the bus does not know |
| SlaveMachine.UnbrokenCall | slave/slave.go:62-79 | a call whose two steps follow each other is the sequential one |
| BusModel.YieldedFrameIsValid | virtual/bus.go:193-206 | helper: a synthesised frame satisfies everything ValidateFrame asks, except that classic on 0x3C/0x3D is up to the registration |
| Exchange.ResponseIsSolicitedOnlyAfterRequest | master/master.go:119-137 | helper: the 0x3D header is sent if and only if the request fitted, was published, and until its header the bus stayed open with some registration on 0x3C; else the exchange fails |
| Lin.VerifyInvertsProtect | lin.go:232-252 | helper: verification accepts exactly the protected identifiers and returns the 6-bit identifier |
| Lin.PidDetectsSingleBit | lin.go:232-252 | helper: every single-bit error in a protected identifier is detected |
| Lin.ProtectIsInjective | lin.go:232-240 | helper: no two identifiers share a protected identifier, and none is zero |
| BusDelivery.LookupIsRecorded | virtual/bus.go:182-189 | helper: one step makes at most one lookup, and never changes one that a frame stems from |

## Left out

- E2EDetection.UpToThreeFlipsDetected: bounded to frames of 4093 bytes because longer ones have undetected pairs (E2EDetection.TwoFlipsMissed); E2EDetection.PairSyndrome has the exact condition for every length.
- LdfParser.SearchFrame: the iteration order of the frame table is open in the original; it is an arbitrary hint per search here, and every choice among frames of the same name is covered.
- Master.Node.Run: others act between slots, not in the middle of one (BusMachine has those interleavings); the wait of a slot is only the point where cancellation may strike.
- VirtualBus.Bus.SendHeader: one call at a time; interleavings are the subject of BusMachine, where frames are values and aliasing is not modelled.
- BusDelivery.BusIsSafe: a drain that sees all queues empty may do so at any moment in the model, since its polling loop reads no consistent snapshot; its time-out is a free choice. The error counter is added in the lookup step.
- E2E.Protector.Protect: the atomicity of the counter under concurrent calls is taken as one call at a time; likewise Unwrap, whose checks before its lock depend on the input alone.
- Slave.IndexAgrees: calls that do not overlap; overlapping ones are the subject of SlaveMachine, on values. In both the node is the only publisher on its bus.
- LdfParser.ParseFile: starts from trimmed non-empty lines; reading, comment stripping and numerals that may be floating point (initial values and delays not in hexadecimal, speed) are parameters.
- LdfRoundTrip.ParseInvertsPrint: one compact layout (LdfSpacing.ParseInvertsAnyLayout has the others), every section brace on a line of its own; names are letters, digits, `_` and `-`; initial values in decimal are at most 2^53, up to which the reader's detour through floating point (`ldf/parser.go:613-623`) is exact, and that it is exact there is a hypothesis, which `LdfRoundTrip.DecimalLexiconReads` shows can be met.
- SignalCodec.ExtractBits: 64-bit values are numbers below 2^64 whose bit operations are written arithmetically, and int is unbounded.
- `adapt.go`, `mock`, `stats`, `optional.go`, `seooc.go`, the commands and the examples: wrappers, counters and I/O; the RELAY library is not part of this model.
- `ToMessage` and `FromMessage` in `lin.go`, and the bus's own SetSchedule, Health and Metrics: thin conversions and getters.
- Error texts and wrapping: only the kind of an error is kept, and an over-range identifier is a kind of its own.
- Changing the filter slice after Subscribe, or the data of a delivered frame, which subscribers share: filters are values and delivered frames read-only.
