# PiNozCam for Moonraker: a model and its proofs

A Dafny 4.11 model of the parts of moonraker-pinozcam whose behaviour is hard
to see from any one function, with proofs about every input, every run or
every interleaving. `dafny verify dfyconfig.toml` checks it.

## What is modelled

- **The camera stream** (`Bytes`, `HeaderBlock`, `HeaderLines`,
  `MultipartSpec`, `MultipartParser`, `MultipartConfluence`, `MultipartWire`,
  `MultipartGrammar`, `MjpegWriter`).
  The incremental multipart/x-mixed-replace parser is a class over a growing
  buffer, proved to follow a transition system. The system does not care how
  the stream is cut, except that a finer cut may be refused earlier, and
  exactly when is stated. It reads to their end exactly the streams of a
  grammar, with the parts the grammar gives, and inverts the writer of the live
  view and the framing by delimiter lines of section 5.1.1 of RFC 2046.
- **The detector's postprocess** (`Geometry`, `Ranking`, `Decode`, `DecodeLaw`,
  `Nms`, `IouPixels`, `Severity`). Decoding undoes the encoding of boxes; the
  index-in-place suppression loop equals recursive greedy
  suppression, its result is characterised, and the area is the size of a
  union of rectangles.
- **The daemon pipe** (`PipeWire`, `NozcamDaemon`, `NozcamBackend`). Both ends:
  bytes, short reads, deadlines, restarts and abandoned calls. The class
  invariant `Valid`, which every public call and every locked step keeps, failed
  ones included, says what may still be in the pipe; from it, an accepted
  inference is the answer to the request just sent; and a frame is answered
  whenever the daemon and the system do their part.
- **Frames and verdicts** (`FrameBuffer`, `FrameLosses`, `FailureWindow`,
  `Episode`, `Detector`, `Sampling`). The candidate buffer keeps the best frames and loses none
  unaccounted; the window agrees with the whole history, so that over any run
  it is known exactly when the printer is commanded; the failure episode
  limits what the printer is told; and samplers, buffers and detector together
  judge no frame by criteria older than its epoch.
- **Settings** (`ConfigReload`, `TextLines`, `IniEditor`, `IniReader`,
  `IniMeaning`, `IniLines`, `IniReadBack`, `IniSave`, `IniSaveFails`, `IniOrdinary`). Reloading
  as a protocol between editors, threads and the detector; the in-place line
  editor with the text it reads and writes; the reader as a pass over the lines;
  and exactly when what was written reads back.
- **Confirmations** (`Confirm`), **masks** (`Mask`), **letterboxing**
  (`Letterbox`, `LetterboxFit`).

The pattern is the same throughout: methods change state as the program does
and are proved against functions on values; lemmas then say what those
functions mean.

## What it assumes

- A byte is the character of the same code (latin-1) in the stream modules and
  a number below 256 on the pipe. Library calls (`find`, `strip`, `re.split`,
  `int`, `min`, `max`, `std::sort`, `struct.pack`) are functions with their
  documented meaning.
- Boxes, scores and ratios are reals, and the letterbox scale is exact;
  rounding to pixels is half to even, as Python does it. `exp` is any positive
  function, and the anchor table any table of positive sizes.
- A locked section is one step. Clock reads, sharpness, inference, file reads
  and pipe events are parameters, so every sequence of them is covered. Clocks
  that a result needs to be ordered are said to be so in its precondition.
- A non-blocking pipe write of at most 4096 bytes is all or nothing. Every
  reply of the daemon is text: 2 to 2^20 bytes without NUL, as it builds them
  all from C strings. INFO replies carry no request id; a successful inference
  echoes its id in a reply that passes validation; `pong` is not JSON. The
  JSON parser is otherwise any function.
- Each save gives the settings file a fresh stamp. The reader is the
  configparser of Python 3.11 with its default delimiters, comments and
  strictness, but no interpolation, which only touches values holding `%`;
  written keys are plain lower-case identifiers and values single lines.
  `strip` and `lower` are those of latin-1 text there too.

## What the proofs found

- The handler reads the configured action a second time. A save between the
  detector's read and the handler's can cancel twice in one episode
  (`RacingSaveCancelsTwice`); the exact condition for safety is
  `CommandsIncreaseIff`.
- `write_options` stamps after loading. An edit by someone else in between is
  never seen (`EditInsideWriteIff`, `LostEditStaysLost`), and a write onto a
  file that does not parse changes the loaded settings without moving the
  generation (`WriteOntoBrokenFileIff`).
- The handler's read can be 0 with no edit to the action at all: a writer's new
  parser is visible before it has read the file (`WriteShowsEmpty`). A pause
  decided on and then read as 0 counts as handled, and is not tried again while
  the failure lasts (`MisreadPauseIsLost`; the condition is
  `LatchIsCarriedOutIff`).
- A settings write reads back from exactly the files that pass `Checks`
  (`WriteReadsBackIff`); ordinary ones do (`OrdinaryIsSafe`). Three kinds that
  load and do not: a header with a note behind it, which the editor misses
  (`NotedHeaderFails`), a key spelled `key: value` (`ColonKeyFails`), after
  either of which the file no longer loads, and options indented alike, where a
  write silently swallows the next one (`IndentedNeighbourIsSwallowed`).
- A sampler reads the epoch after it has fetched the frame, so a frame in hand
  at a change of criteria is not retired (`FetchedBeforeIsJudged`), although the
  comment at detector.py:350 says the epoch comes first.
- The writer splits the file wherever `splitlines` does, the reader only at
  line feeds. A form feed or a U+2028 inside a comment leaves the rest of the
  comment as a live line after the next save (`BreakSplits`, `SameLinesIff`).
- A finer cut of a stream may be refused where a coarser one is not
  (`FinerCutMayRaise`, `CutRaisesNothingIff`).

The request id is there for callers that share a client. One caller alone
always kills the process after a failed exchange and before the next, so it
only ever finds unread INFO replies, which have no id, and any id would do.
But `infer` takes the lock three times, and another caller's exchange can come
between a failed one and its stop: then the unread reply is an inference, and
only the number tells it from one's own (`OnlyOwnReply`). What no id can tell
is a request left part-written: until the stop, nothing is promised to another
caller (`torn` in `NozcamBackend`).

Where texts and code differ the code is followed: a frame alarms when its area
exceeds the sensitivity, not at half severity (detector.py:623); arming needs
20 frames and 30 seconds (window.py:13-14); camera notices are not exempt from
the alert budget (\_\_main\_\_.py:255-257), so nothing is claimed about them.

## Model

| member | source | states |
|---|---|---|
| MultipartConfluence.ChunkConfluence | moonraker_pinozcam/mjpegstream.py:83-95 | If feeding a stream in some cut into chunks raises nothing, every coarser cut raises nothing, returns the same parts and ends with the same buffer, phase and pending headers |
| MultipartConfluence.CutRaisesNothingIff | moonraker_pinozcam/mjpegstream.py:115-223 | A cut raises nothing if and only if the bytes hold no over-long header line and no bad length, whatever the cut, and at no chunk's end is the parser left waiting with more than the limit for what it waits for |
| MultipartConfluence.AcceptedIff | moonraker_pinozcam/mjpegstream.py:115-223 | One feed is accepted if and only if the parser without its waiting limits accepts it and does not stop over one of the four |
| MultipartConfluence.RefusalLasts | moonraker_pinozcam/mjpegstream.py:149-155 | What is refused for its content is refused for the same reason whatever bytes follow |
| MultipartConfluence.FinerCutMayRaise | moonraker_pinozcam/mjpegstream.py:117-123 | Errors go one way: a stream accepted in one chunk and refused in two, because a limit is checked only when nothing was found |
| MultipartConfluence.StepExtends | moonraker_pinozcam/mjpegstream.py:103-223 | A step that does anything on a buffer does the same on the buffer with more bytes after it, leaving those bytes behind |
| MultipartConfluence.TerminatorExtends | moonraker_pinozcam/mjpegstream.py:234-246 | The earliest header terminator stays the earliest when bytes arrive: a CRLF CRLF completed later never starts before an LF LF already seen, nor the reverse |
| MultipartConfluence.RunContinues | moonraker_pinozcam/mjpegstream.py:88-95 | An error-free pass of the loop stops where it waits for input, and more input continues it as if all had come at once |
| MultipartConfluence.FeedAllIsFeed | moonraker_pinozcam/mjpegstream.py:83-95 | An error-free chunked feed equals one feed of the concatenation |
| MultipartSpec.ScanFromMeaning | moonraker_pinozcam/mjpegstream.py:184-207 | The delimiter search finds the first line-anchored delimiter followed by `--`, CRLF or LF; it waits only when there is none and some anchored delimiter cannot be judged yet; it reports nothing only when neither is there |
| MultipartWire.OpenBodyReturnsIff | moonraker_pinozcam/mjpegstream.py:177-223 | A body without a declared length comes back whole, minus one line ending, if and only if it holds no delimiter line |
| MultipartWire.RunPrefix | moonraker_pinozcam/mjpegstream.py:83-223 | One call of the parser on any prefix of the wire raises nothing and returns exactly the parts complete in that prefix: a sized one with its last byte, an open one once the next delimiter can be judged |
| MultipartWire.PrefixParses | moonraker_pinozcam/mjpegstream.py:83-275 | Any list of writable parts, any prefix of their wire form, any chunking: no error, and exactly the complete parts in order |
| MultipartGrammar.ReadToEndIff | moonraker_pinozcam/mjpegstream.py:83-262 | A stream is read to its end, with these parts and no error, if and only if it is well formed and these are its parts: any preamble, delimiter lines with any padding, blocks ended by CRLF CRLF or LF LF, bodies of declared length or up to the line ending before the next delimiter line, CRLF or LF, the closing delimiter and anything |
| MultipartGrammar.ChunksReadToEndIff | moonraker_pinozcam/mjpegstream.py:83-95 | The same for any chunks that raise nothing on the way |
| MultipartGrammar.StreamIsRead | moonraker_pinozcam/mjpegstream.py:103-223 | Every well-formed stream is read to its end and gives its parts in order |
| MultipartGrammar.ReadIsStream | moonraker_pinozcam/mjpegstream.py:103-223 | Whatever is read to its end is a well-formed stream |
| MultipartGrammar.TerminatorMeans | moonraker_pinozcam/mjpegstream.py:234-246 | The header block ends at the earlier of the two terminators |
| MultipartGrammar.BodyEndMeans | moonraker_pinozcam/mjpegstream.py:208-212 | One line ending before the delimiter belongs to it, CRLF or a bare LF |
| MultipartGrammar.SeekCloses | moonraker_pinozcam/mjpegstream.py:115-129 | A delimiter followed by two dashes ends the stream, whatever comes before or after |
| MultipartSpec.DelimiterOfEither | moonraker_pinozcam/mjpegstream.py:28-32 | A boundary token given raw and one given with its dashes stand for the same delimiter |
| MultipartParsing.MultipartParser.Create | moonraker_pinozcam/mjpegstream.py:64-81 | An empty boundary is refused; otherwise the parser starts empty, with the delimiter normalised and the limits kept |
| MultipartParsing.MultipartParser.constructor | moonraker_pinozcam/mjpegstream.py:64-81 | The initial state: empty buffer, searching for the first boundary, no pending part |
| MultipartParsing.MultipartParser.Feed | moonraker_pinozcam/mjpegstream.py:83-95 | The object, after any chunk, is in the state the transition system reaches, having returned its parts or raised its error; the loop terminates on buffer length and phase, zero-length bodies included |
| MultipartParsing.MultipartParser.AdvanceOnce | moonraker_pinozcam/mjpegstream.py:103-113 | One turn equals one step of the transition system, and a turn that makes progress shortens the buffer or lowers the phase |
| MultipartParsing.MultipartParser.AdvanceSeekBoundary | moonraker_pinozcam/mjpegstream.py:115-138 | The boundary search as a step: gap limit, closing boundary, line limit |
| MultipartParsing.MultipartParser.AdvanceHeaderBlock | moonraker_pinozcam/mjpegstream.py:140-162 | The header block as a step; when a line or a length is refused the block is already consumed |
| MultipartParsing.MultipartParser.ParseHeaderBlock | moonraker_pinozcam/mjpegstream.py:248-262 | The line loop builds the map that folding all the lines gives, or reports an over-long line; what that map says is HeaderLines.ParseMeans |
| MultipartParsing.MultipartParser.AdvanceBodyKnown | moonraker_pinozcam/mjpegstream.py:164-175 | A body of declared length is cut by count alone, never scanned |
| MultipartParsing.MultipartParser.AdvanceBodyScan | moonraker_pinozcam/mjpegstream.py:177-223 | The scanned body as a step; the size limit is reached only when no candidate delimiter is left |
| MultipartParsing.MultipartParser.FindDelimiterLine | moonraker_pinozcam/mjpegstream.py:184-207 | The in-place search loop finds what the recursive scan does, to which ScanFromMeaning gives its meaning |
| HeaderBlock.LengthAcceptedIff | moonraker_pinozcam/mjpegstream.py:264-275 | A length of n is declared by exactly the texts that are, stripped, an optional sign and a numeral of at most 4300 digits worth n, within the part limit |
| HeaderBlock.NumeralIff | moonraker_pinozcam/mjpegstream.py:269-272 | What converts is digits with single underscores between them, and its value is positional |
| HeaderBlock.IntOfDecimal | moonraker_pinozcam/mjpegstream.py:269-275 | Reading back a printed decimal gives the number |
| HeaderBlock.SplitFirst | moonraker_pinozcam/mjpegstream.py:251-252 | A line without line endings is split off whole, before whatever follows its CRLF |
| HeaderLines.SpelledLineSets | moonraker_pinozcam/mjpegstream.py:257-261 | A name without a colon, a colon and a value, with whitespace or none around each: the line sets the lower-cased bare name to the bare value |
| HeaderLines.PlainLineSetsNothing | moonraker_pinozcam/mjpegstream.py:258-259 | A line without a colon changes nothing |
| HeaderLines.ColonLineSpells | moonraker_pinozcam/mjpegstream.py:257-261 | Every other line has that form |
| HeaderLines.ParseMeans | moonraker_pinozcam/mjpegstream.py:248-262 | A block is refused exactly for an over-long line; otherwise a key is there exactly if some line names it, with the value the last such line gives |
| HeaderLines.LineIsSplit | moonraker_pinozcam/mjpegstream.py:251-251 | CRLF and bare LF both end a line, a CRLF as one |
| HeaderLines.CaseDoesNotMatter | moonraker_pinozcam/mjpegstream.py:261-261 | Names that differ in the case of ASCII letters are one key |
| MjpegWriter.Stream | moonraker_pinozcam/web.py:519-531 | What the stream loop has written is the concatenation of one framed part per frame, in order |
| MjpegWriter.StreamRoundTrip | moonraker_pinozcam/web.py:519-531 | For any frames within the limits, whatever bytes they hold, any prefix of what the writer sends, in any chunks: no error, and exactly the frames whose last byte has arrived, unchanged, with the two headers written |
| MjpegWriter.CompleteByOffsets | moonraker_pinozcam/web.py:526-530 | The number of parts out after n bytes is the number of bodies that end within the first n bytes |
| MjpegWriter.DefaultsHaveRoom | moonraker_pinozcam/mjpegstream.py:22-25 | The default limits leave room for every frame up to 16 MiB |
| MjpegWriter.WrittenPartIsSized | moonraker_pinozcam/web.py:526-530 | The written header block parses to its two headers, ends nowhere inside, and declares exactly the body length |
| Ranking.SortArranges | src/common/nozcam_postprocess.cpp:168-179 | Sorting yields exactly the given indices, by descending score and ascending index |
| Ranking.ArrangementUnique | src/common/nozcam_postprocess.cpp:109-117 | Only one such arrangement exists, so the result does not depend on the sorting algorithm |
| Ranking.TopNIsTop | src/common/nozcam_postprocess.cpp:109-117 | Whatever is left out of the first n ranks after all of them |
| Suppression.IouIsRatio | src/common/nozcam_postprocess.cpp:181-230 | For boxes of positive extent the IoU denominator is positive and IoU is symmetric, in [0, 1], and 1 for a box with itself |
| IouPixels.IouCounts | src/common/nozcam_postprocess.cpp:213-230 | For boxes on whole pixels the IoU is the number of shared pixels over the number of all pixels |
| Suppression.Nms | src/common/nozcam_postprocess.cpp:157-249 | The index-in-place loop, with its odd exit index, returns exactly the recursive greedy suppression of the sorted positive-score candidates, capped at the limit |
| Suppression.KeepAround | src/common/nozcam_postprocess.cpp:213-241 | One filtering pass keeps what the three-part criterion keeps, box i itself always, with the areas in step |
| Suppression.EarlierIsKept | src/common/nozcam_postprocess.cpp:217-239 | Nothing before position i is dropped in round i, equal scores included |
| Suppression.RoundStep | src/common/nozcam_postprocess.cpp:199-242 | Each round keeps the loop invariant: passed boxes, then boxes none of them suppresses, with the greedy result unchanged |
| Suppression.GreedyShape | src/common/nozcam_postprocess.cpp:206-242 | The greedy result descends, holds no two overlapping boxes of a class, and explains every box it drops by one of the same class scoring at least as high |
| Suppression.NmsResultIs | src/common/nozcam_postprocess.cpp:157-249 | The result: at most the cap, descending, no over-threshold overlap within a class, only positive candidates, and every other positive candidate is suppressed by a result of at least its score or pushed out by a full list scoring at least as high |
| Suppression.BoxesToDraw | moonraker_pinozcam/detector.py:436-441 | The early-exit loop shows the longest prefix of boxes at or above the threshold |
| Suppression.BreakIsFilter | moonraker_pinozcam/detector.py:436-441 | On a suppression result that prefix is a filter, so every box counted in the area is drawn |
| Decode.AnchorInRange | src/common/nozcam_postprocess.cpp:126-134 | For every index and any class count the anchor row stays inside the table of nine and the position inside the grid |
| Decode.PlaceInverts | src/common/nozcam_postprocess.cpp:126-134 | With the single class the model has, the asymmetric divisions invert the (anchor, row, column) layout exactly |
| Decode.DecodedBoxIsSane | src/common/nozcam_postprocess.cpp:59-81 | For every delta, prior and positive exponential the clamped box lies in the canvas and keeps positive inclusive extent on both axes, even below one pixel |
| DecodeLaw.DecodesWhatIsDescribed | src/common/nozcam_postprocess.cpp:59-81 | If the deltas say where the centre of a box lies from the prior's, in prior extents, and by what exponential factors it is larger, that box comes out, clamped to the canvas |
| DecodeLaw.EveryDeltaDescribes | src/common/nozcam_postprocess.cpp:59-81 | Every delta describes exactly one box |
| DecodeLaw.PriorIsCentred | src/common/nozcam_postprocess.cpp:38-55 | A prior is centred on its grid cell and as large as its scaled base |
| DecodeLaw.CandidateIsDescribed | src/common/nozcam_postprocess.cpp:123-152 | The candidate of an anchor at a grid cell has the network's score there and exactly the box its deltas describe relative to that anchor's prior at that cell, clamped to the canvas |
| Decode.DecodeLevel | src/common/nozcam_postprocess.cpp:90-154 | The level loop appends the candidates of the selected indices, best first |
| Decode.DecodedIsSane | src/common/nozcam_postprocess.cpp:123-152 | Every candidate of a level has positive extent |
| Decode.RankedIsTop | src/common/nozcam_postprocess.cpp:98-117 | An index left out scores below the threshold, or the level is full of indices that rank before it |
| DecodeLaw.DecodedAre | src/common/nozcam_postprocess.cpp:98-154 | A level gives one candidate per index taken, by descending score and ascending index; an index at the threshold is left out only when the cap is full of higher scores, or equal ones with lower index |
| Severity.FillBox | src/common/nozcam_postprocess.cpp:321-342 | Filling one box sets exactly the cells of its content-clamped half-open rectangle and leaves the others, every write in range |
| Severity.TotalArea | src/common/nozcam_postprocess.cpp:309-347 | The byte total is the number of distinct cells in the union of the counted boxes |
| Severity.OnesAreUnion | src/common/nozcam_postprocess.cpp:311-346 | A bitmap that shows the boxes has its ones at the cells of the union |
| Severity.UnionMonotone | src/common/nozcam_postprocess.cpp:309-347 | More boxes never cover less, and neither order nor repetition matters |
| Severity.CoversMeans | src/common/nozcam_postprocess.cpp:319-342 | A counted box covers the content cells, less the last row and column, whose far edges lie beyond its near edges and which it reaches across |
| Severity.AllDecodedHas | src/common/nozcam_postprocess.cpp:285-289 | Everything decoded is what some level gives at its own stride |
| Severity.SeverityIsShare | src/common/nozcam_postprocess.cpp:350-352 | Up to the sensitivity the severity is the area's share of it |
| Severity.AreaBound | src/common/nozcam_postprocess.cpp:331-342 | The union has at most (width-1)*(height-1) content cells, so the area fraction is below one |
| Severity.Postprocess | src/common/nozcam_postprocess.cpp:263-358 | The detections are the suppression of everything decoded, the area is the union over the content rectangle, in [0, 1), and the severity is in [0, 1] |
| Severity.AlarmIsFullSeverity | src/common/nozcam_postprocess.cpp:350-352 | Severity is one exactly from the sensitivity on, so an alarming area always has full severity |
| Severity.HalfSeverityMayNotAlarm | moonraker_pinozcam/detector.py:608-623 | Half severity without an alarm happens exactly from half the sensitivity up to the sensitivity |
| PipeWire.Lockstep | src/executorch/nozcam_daemon.cpp:364-606 | To any sequence of the client's own requests the daemon writes one reply each, in order, and nothing else, whether it serves or refuses them |
| PipeWire.ServeOne | src/executorch/nozcam_daemon.cpp:364-465 | The resident loop consumes exactly one encoded request per turn, also when it refuses the payload length or the rectangle |
| PipeWire.InferDecodes | src/executorch/nozcam_daemon.cpp:417-424 | The daemon reads back the id, the signed rectangle and the pixels the client packed |
| PipeWire.LeRoundTrip | moonraker_pinozcam/nozcam_backend.py:1127-1135 | Packing and unpacking a 32-bit word little-endian gives the word |
| PipeWire.LeBytes | moonraker_pinozcam/nozcam_backend.py:1127-1135 | The least significant byte comes first |
| PipeWire.SignedMeans | moonraker_pinozcam/nozcam_backend.py:1127-1129 | Negative rectangle fields are in two's complement |
| PipeWire.InferLayout | moonraker_pinozcam/nozcam_backend.py:1120-1134 | Where command, length, id, rectangle and pixels stand in the bytes of a request |
| PipeWire.ServeOther | src/executorch/nozcam_daemon.cpp:367-392 | A farewell ends the daemon's output; an unknown command is refused by its header alone |
| Geometry.ContentRectIff | src/common/nozcam_postprocess.cpp:253-260 | A content rectangle passes exactly if it is not empty and no pixel of it lies outside the canvas |
| PipeWire.ServeGrows | src/executorch/nozcam_daemon.cpp:364-606 | More input only adds output: nothing already said changes |
| PipeWire.MisalignedHeader | moonraker_pinozcam/nozcam_backend.py:1135-1147 | Eight bytes read from anywhere inside a NUL-free text reply of up to 2^20 bytes, wherever they end, announce a non-zero status or an oversized body |
| NozcamDaemon.Resident.constructor | src/executorch/nozcam_daemon.cpp:363-366 | A process that has read and written nothing |
| NozcamDaemon.Resident.ReadExact | src/executorch/nozcam_daemon.cpp:75-89 | Over any short reads: exactly the next n bytes, or nothing once the peer has closed or a read has failed |
| NozcamDaemon.Resident.DrainBounded | src/executorch/nozcam_daemon.cpp:91-101 | Exactly n bytes are discarded through the fixed buffer, however they arrive |
| NozcamDaemon.Resident.WriteExact | src/executorch/nozcam_daemon.cpp:103-117 | Over any short writes: all bytes, once, in order, or a beginning of them and false |
| NozcamDaemon.Resident.SendFrame | src/executorch/nozcam_daemon.cpp:119-130 | One reply, header then body, or a beginning of it and false |
| NozcamDaemon.Resident.Turn | src/executorch/nozcam_daemon.cpp:365-392 | One turn answers or refuses one request as the specification says, consuming input whenever it goes on |
| NozcamDaemon.Resident.Dispatch | src/executorch/nozcam_daemon.cpp:367-392 | The header read, each command is answered, refused or ends the loop |
| NozcamDaemon.Resident.ReadPayload | src/executorch/nozcam_daemon.cpp:417-424 | Id, rectangle and pixels are the next bytes, whole |
| NozcamDaemon.Resident.InferTurn | src/executorch/nozcam_daemon.cpp:403-465 | A wrong payload length is refused and drained, a rectangle off the canvas refused, anything else inferred |
| NozcamDaemon.Resident.Loop | src/executorch/nozcam_daemon.cpp:364-606 | Whatever bytes arrive before the peer closes, the loop writes a beginning of what the function Serve, to which Lockstep applies, says, and all of it unless a call fails |
| NozcamClient.GoodHeaderIsAligned | moonraker_pinozcam/nozcam_backend.py:1135-1148 | A good-looking header, read anywhere among unread replies of any kind, stands at the start of one |
| NozcamClient.AlignedRead | moonraker_pinozcam/nozcam_backend.py:1135-1148 | Reading from the start of a reply reads that reply |
| NozcamClient.IdsComeRound | moonraker_pinozcam/nozcam_backend.py:1121-1122 | Ids stay in 1 to 2^32-1, skip 0, and an id is drawn again only after all the others |
| NozcamClient.NozcamBackend.YoungIdsAreNew | moonraker_pinozcam/nozcam_backend.py:1121-1122 | Short of 2^32-1 inferences by one process, no unread reply carries the id drawn next |
| NozcamClient.NozcamBackend.DrawId | moonraker_pinozcam/nozcam_backend.py:1120-1122 | The next id is drawn and remembered, and the ids of unread replies stay recent |
| NozcamClient.NozcamBackend.WriteExact | moonraker_pinozcam/nozcam_backend.py:1078-1093 | Success means all bytes were sent; a failed write of at most a pipe buffer sent none; and it does not fail, however short the writes, while the system lets bytes move as often as there are bytes |
| NozcamClient.NozcamBackend.ReadExact | moonraker_pinozcam/nozcam_backend.py:1095-1112 | Success means exactly the next bytes of the stream, over any short reads; failure may have consumed some, and means that the bytes were not there or the system did not let them move |
| NozcamClient.NozcamBackend.WriteMessage | moonraker_pinozcam/nozcam_backend.py:1132-1134 | The header goes whole or not at all, so only a payload can be cut |
| NozcamClient.NozcamBackend.SendRequest | moonraker_pinozcam/nozcam_backend.py:1120-1134 | On success exactly one more request is on the wire; a failed INFO put nothing there; a cut INFER is remembered as such |
| NozcamClient.NozcamBackend.ReadReply | moonraker_pinozcam/nozcam_backend.py:1135-1148 | On success one whole reply was read; before any stale reply, a bad header is the daemon's own refusal |
| NozcamClient.NozcamBackend.ReadRest | moonraker_pinozcam/nozcam_backend.py:1137-1148 | After a header the body is read whole, or the length, the system or the status refuses it |
| NozcamClient.NozcamBackend.CallLocked | moonraker_pinozcam/nozcam_backend.py:1114-1148 | One exchange: what it answers is one whole reply, to this request or to an earlier one given up; whatever happens, what may still be in the pipe stays known; from a clean pipe, a willing system and a granting daemon it answers, with that grant |
| NozcamClient.NozcamBackend.InferLocked | moonraker_pinozcam/nozcam_backend.py:1150-1201 | Whatever replies are still unread, other callers' inferences included, a result is accepted only as the daemon's answer to the very request this call sent, with its id, rectangle and pixels, nothing left unread; from a clean pipe, a willing system and a granting daemon it is accepted; with no process the id is drawn and the error is one its caller does not handle |
| NozcamClient.NozcamBackend.ValidateResult | moonraker_pinozcam/nozcam_backend.py:1154-1201 | Accepted exactly with the id sent and well-shaped fields; a reply that is no object, or holds no number where one is checked, raises what the caller does not handle, unless the id was wrong first |
| NozcamClient.NozcamBackend.NothingEscapes | moonraker_pinozcam/nozcam_backend.py:1154-1201 | No whole reply of an honest daemon gets there |
| NozcamClient.NozcamBackend.OnlyOwnReply | moonraker_pinozcam/nozcam_backend.py:1163-1171 | The id tells this request's reply from every unread one: an INFO reply has none, another inference a different one |
| NozcamClient.NozcamBackend.RejectedIsStale | moonraker_pinozcam/nozcam_backend.py:1150-1161 | A whole reply is rejected only if it was a stale one |
| NozcamClient.NozcamBackend.StartLocked | moonraker_pinozcam/nozcam_backend.py:902-965 | A start that succeeds leaves the new process with its settings and an aligned, empty stream; it succeeds if the process describes itself well, runs the warm-up and the system lets the bytes move |
| NozcamClient.NozcamBackend.HandshakeLocked | moonraker_pinozcam/nozcam_backend.py:1203-1236 | INFO must describe the right tensors and a warm-up inference succeed; when they do, and the system lets the bytes move, so does the handshake |
| NozcamClient.NozcamBackend.GrantedParses | moonraker_pinozcam/nozcam_backend.py:1150-1161 | The reply to an inference the daemon grants passes validation |
| NozcamClient.NozcamBackend.StopLocked | moonraker_pinozcam/nozcam_backend.py:990-1010 | After tear-down, farewell sent or not, the process and its settings are forgotten, so none of its bytes can be read again |
| NozcamClient.NozcamBackend.EnsureStarted | moonraker_pinozcam/nozcam_backend.py:778-845 | A running process with these settings is left alone and a running backoff refused, both untouched; otherwise success means a new process with these settings and a fresh backoff, failure none and one failure more; the invariant holds either way, CPU fallback included |
| NozcamClient.NozcamBackend.NoteFailure | moonraker_pinozcam/nozcam_backend.py:765-771 | Failures count up and the next attempt waits 1, 5, then 30 seconds |
| NozcamClient.NozcamBackend.InferFrame | moonraker_pinozcam/nozcam_backend.py:1305-1329 | Over three separate turns of the lock, with other threads' diagnostics, stops and kills between any two, a returned result is the answer to this frame, and after a failed one the process is gone and the next attempt waits; a frame undisturbed by other threads, on a process kept or newly started, is answered whenever system and daemon do their part |
| NozcamClient.NozcamBackend.Exchange | moonraker_pinozcam/nozcam_backend.py:1314-1329 | The exchange of a frame and, after a failure, the stop: failing leaves no process and a delay, unless the error is an unhandled one |
| NozcamClient.NozcamBackend.InfoCall | moonraker_pinozcam/nozcam_backend.py:1246-1255 | Diagnostics never restart the process, and leave every later inference as safe as before, even on what a failed exchange left behind |
| FrameBuffering.Conservation | moonraker_pinozcam/framebuffer.py:79-211 | Over every interleaving: produced = taken + expired + evicted + held + thrown away, and held never exceeds the capacity |
| FrameBuffering.TakenIsCurrent | moonraker_pinozcam/framebuffer.py:91-170 | A taken frame is within the age limit and was accepted by a put; if that put carried an epoch, nothing bumped the epoch since it was read |
| FrameBuffering.EpochGrows | moonraker_pinozcam/framebuffer.py:79-89 | The epoch never decreases and any bump makes it strictly greater |
| FrameBuffering.StreamingTopK | moonraker_pinozcam/framebuffer.py:106-182 | From any point where the buffer is empty, through any puts, accepted or refused, with or without an epoch, and looks that expire nothing, it holds exactly the capacity greatest of all accepted frames by (score, captured_at), as a multiset |
| FrameBuffering.DrainDescends | moonraker_pinozcam/framebuffer.py:143-154 | Successive takes hand out exactly what was held, greatest first |
| FrameBuffering.TakeIsDrainHead | moonraker_pinozcam/framebuffer.py:143-154 | A take without expiry returns the head of that order and leaves the rest |
| FrameBuffering.UnmeasuredByRecency | moonraker_pinozcam/framebuffer.py:146-151 | Unmeasured frames are told apart by recency alone and lose to any measured one |
| FrameLosses.ExpireMeans | moonraker_pinozcam/framebuffer.py:163-170 | Exactly the frames that are too old go, every one of them, and are counted |
| FrameLosses.TakeAnswers | moonraker_pinozcam/framebuffer.py:136-161 | A take returns a frame exactly if a young one is held, and then one no less sharp than any, the newest of equals; nothing at a closed buffer or past the deadline; and otherwise waits |
| FrameLosses.TakeRemoves | moonraker_pinozcam/framebuffer.py:143-154 | It removes that frame, once, and the old ones |
| FrameLosses.LostBecause | moonraker_pinozcam/framebuffer.py:106-211 | A frame leaves the buffer by an outright discard, by age, by being taken, or by being no better than a full buffer of others |
| FrameLosses.AcceptedIsHeld | moonraker_pinozcam/framebuffer.py:106-126 | An accepted frame is held, or was no better than a full buffer |
| FrameLosses.AcceptedIsCounted | moonraker_pinozcam/framebuffer.py:106-126 | Each accepted frame is counted, and once more if it was measured |
| FrameLosses.RefusedChangesNothing | moonraker_pinozcam/framebuffer.py:106-112 | A closed buffer or another epoch refuses a frame and nothing held changes |
| FrameLosses.OutrightDiscards | moonraker_pinozcam/framebuffer.py:79-211 | A bump, a clear, a close and a reopen all leave the buffer empty; a bump alone moves the epoch, closing refuses what comes, reopening accepts again with the counters at zero |
| FrameBuffering.FrameBuffer.constructor | moonraker_pinozcam/framebuffer.py:42-61 | An empty, open buffer; a capacity below one becomes one |
| FrameBuffering.FrameBuffer.BumpEpoch | moonraker_pinozcam/framebuffer.py:79-89 | Everything held is thrown away and the epoch advances |
| FrameBuffering.FrameBuffer.ExpireLocked | moonraker_pinozcam/framebuffer.py:163-170 | Exactly the frames older than the cutoff go, and are counted |
| FrameBuffering.FrameBuffer.PutFrame | moonraker_pinozcam/framebuffer.py:106-126 | A put is accepted exactly when open and of the current epoch, and then leaves the state the specification gives |
| FrameBuffering.FrameBuffer.EvictAll | moonraker_pinozcam/framebuffer.py:118-124 | The least by (score, captured_at) goes until the capacity is met |
| FrameBuffering.FrameBuffer.TakeOnce | moonraker_pinozcam/framebuffer.py:143-161 | One turn of the wait loop: the best candidate, None when closed or out of time, or keep waiting |
| FrameBuffering.FrameBuffer.ShouldMeasure | moonraker_pinozcam/framebuffer.py:172-182 | Measuring pays exactly when enough unexpired candidates wait |
| FrameBuffering.FrameBuffer.Clear | moonraker_pinozcam/framebuffer.py:194-197 | Everything held is thrown away, the epoch kept |
| FrameBuffering.FrameBuffer.CloseBuffer | moonraker_pinozcam/framebuffer.py:199-204 | Everything held is thrown away and further puts are refused |
| FrameBuffering.FrameBuffer.ReopenBuffer | moonraker_pinozcam/framebuffer.py:206-211 | Puts are accepted again under the same epoch, counters from zero |
| Windowing.WindowIsHistory | moonraker_pinozcam/window.py:36-83 | On a monotone clock the window holds exactly the verdicts of the last count_time of the whole history, and has counted every frame since the first |
| Windowing.MetIff | moonraker_pinozcam/window.py:62-85 | The criterion is met if and only if there were at least 20 frames over at least 30 s since the reset and, among the frames of the last count_time, the alarming ones number at least the ratio times all of them |
| Windowing.AlarmsCount | moonraker_pinozcam/window.py:79-81 | What is counted are the verdicts that alarm |
| Windowing.PruneIsRecent | moonraker_pinozcam/window.py:57-60 | Popping stale entries off the front of an ordered window is a filter by time |
| Windowing.FailureWindow.constructor | moonraker_pinozcam/window.py:28-34 | An empty window |
| Windowing.FailureWindow.ResetWindow | moonraker_pinozcam/window.py:36-46 | All history goes; the settings stay |
| Windowing.FailureWindow.AddVerdict | moonraker_pinozcam/window.py:48-55 | One verdict is added and stale ones pruned |
| Windowing.FailureWindow.PruneEntries | moonraker_pinozcam/window.py:57-60 | The popping loop does what Prune says |
| Windowing.FailureWindow.DecideNow | moonraker_pinozcam/window.py:70-85 | The ratio is always computed and stored; the answer also needs the window to be armed |
| Episodes.HandledLevelsIncrease | moonraker_pinozcam/detector.py:670-707 | Within one episode handled actions have strictly increasing levels, whatever the handler meets |
| Episodes.UnhandledTriesAgain | moonraker_pinozcam/detector.py:689-707 | A firing that was not handled leaves the latch and the next met frame fires again |
| Episodes.HandledIff | moonraker_pinozcam/__main__.py:171-234 | Handled means: nobody to ask, no print running, a command carried out, or at action 0 an alert delivered or no channel for it |
| Episodes.UndeliveredAlertTriesAgain | moonraker_pinozcam/__main__.py:217-234 | An alert that reached nobody is tried again at the next failing frame |
| Episodes.CommandsIncreaseIff | moonraker_pinozcam/__main__.py:171-234 | Every run keeps printer commands strictly increasing within an episode if and only if the pairs (level decided on, level the handler reads) that can occur are strictly monotone |
| Episodes.AtMostOneOfEach | moonraker_pinozcam/__main__.py:186-234 | Then an episode has at most one pause and one cancel, and no pause after a cancel |
| Episodes.AgreeingReadsAreSafe | moonraker_pinozcam/__main__.py:186-234 | If no save comes between the two reads of the action, commands always increase |
| Episodes.RacingSaveCancelsTwice | moonraker_pinozcam/__main__.py:186-195 | A save between the two reads can cancel twice in one episode |
| Episodes.UnsafeRun | moonraker_pinozcam/__main__.py:186-195 | Any non-monotone pair of reads has a run that repeats or lowers a command within an episode |
| Episodes.HandledIsCarriedOutIff | moonraker_pinozcam/__main__.py:171-234 | A handled firing for a command carried that command out if and only if there was a handler, a print running, and the handler read the same action |
| Episodes.LatchIsCarriedOutIff | moonraker_pinozcam/detector.py:670-707 | In every run a latch at a command's level goes back to one handled firing of the running episode, and that command was carried out exactly then |
| Episodes.MisreadPauseIsLost | moonraker_pinozcam/__main__.py:186-234 | A pause decided on, read as alert only by the handler and alerted, latches the pause: the printer is told nothing, and while the failure lasts no decision to pause fires again |
| Detection.LatchIsEpisode | moonraker_pinozcam/detector.py:107-127 | Over any run of frames, saved settings, starts, resumes and stops, the detector's latch is the episode machine's latch on the trace |
| Detection.CriterionIff | moonraker_pinozcam/detector.py:608-625 | Over any run the criterion is met at a frame exactly if, since the last new criteria or fresh start, there were 20 frames over 30 s and, of those in the last count time, the ones whose area exceeds the sensitivity reach the failure ratio |
| Detection.CommandIff | moonraker_pinozcam/detector.py:608-703 | Exactly when a frame makes the printer carry out a command: the criterion is met, the episode has not come to this level, and the handler finds a print running, reads that command and gets it through |
| Detection.CarriedIsPerformed | moonraker_pinozcam/detector.py:670-703 | At every frame the printer receives exactly the command the episode machine performs at that frame's position in the trace |
| Detection.DetectorCommandsIncrease | moonraker_pinozcam/detector.py:557-703 | In every run, unless a save slips between the two reads of the action, the commands the printer receives between two ends of an episode strictly increase |
| Detection.ResumeContinues | moonraker_pinozcam/detector.py:107-127 | A resume neither ends the episode nor touches the window; a fresh start does both |
| Detection.RefreshScope | moonraker_pinozcam/detector.py:547-568 | New criteria discard the window and the latch; a new ratio alone discards nothing |
| Detection.Detector.constructor | moonraker_pinozcam/detector.py:107-127 | The state before any run: no latch, an empty window, a generation no settings have |
| Detection.Detector.StartRun | moonraker_pinozcam/detector.py:107-127 | A fresh start clears latch and window and retires every candidate of the last print; a resume and a repeated start change nothing |
| Detection.Detector.RefreshSettings | moonraker_pinozcam/detector.py:518-568 | Settings are applied once per generation; changed criteria leave no candidate held and advance the epoch, changed dimensions bring an empty buffer that has them |
| Detection.Detector.RebuildBuffer | moonraker_pinozcam/detector.py:532-538 | A buffer whose capacity or age the settings no longer ask for is replaced by an empty one that has them; otherwise it stays |
| Detection.Detector.ApplyCriteria | moonraker_pinozcam/detector.py:557-568 | New criteria reset the window, clear the latch and retire every candidate |
| Detection.Detector.Score | moonraker_pinozcam/detector.py:618-703 | One judged frame moves the state as specified, and the printer receives exactly the command the episode machine says |
| Detection.Detector.HandleFailure | moonraker_pinozcam/__main__.py:171-234 | What counts as handled: a command carried out, an alert delivered or no channel for it, or nothing left to protect |
| Sampling.JudgedIsCurrent | moonraker_pinozcam/detector.py:314-379 | Over every interleaving of samplers, settings, starts, buffer replacements and the detector: a judged frame was offered by a sampler that read its epoch after every criteria change and fresh start so far, and read which buffer is in use after every replacement |
| Sampling.JudgedByItsCriteria | moonraker_pinozcam/detector.py:547-568 | A frame is judged by the sensitivity, threshold and window length in force when its epoch was read |
| Sampling.HeldWasOffered | moonraker_pinozcam/detector.py:325-379 | A frame held in a buffer was offered to that buffer by a sampler that had begun on it, with the epoch current at the offer, and no change came since while the buffer was in use |
| Sampling.StepBuffer | moonraker_pinozcam/detector.py:536-568 | The epoch of a buffer moves just at a change made while it is in use, and then nothing stays in it |
| Sampling.FetchedBeforeIsJudged | moonraker_pinozcam/detector.py:314-350 | The epoch is read after the frame is fetched: a frame in a sampler's hands at a change, with no epoch yet, is judged after it |
| ConfigReload.ProtocolSafety | moonraker_pinozcam/config.py:35-87 | Over every interleaving of editors, reloaders, writers and the detector: equal stamps mean the loaded content is the file, equal generations at rest mean the detector applies what is loaded, and a parser still empty is loaded just while a writer has yet to fill it |
| ConfigReload.StepKeepsInv | moonraker_pinozcam/config.py:57-87 | Every enabled step keeps the invariant, except a foreign edit between a writer's load and its stamp and a write onto a file that does not parse |
| ConfigReload.PollCatchesUp | moonraker_pinozcam/detector.py:518-562 | From any reachable state, once editing stops on a file that parses, one poll loads it and the detector applies it |
| ConfigReload.EditInsideWriteIff | moonraker_pinozcam/config.py:219-227 | Whatever others do between a writer's load and its stamp, the stamp tells the truth if and only if the last edit there saved what the writer had written |
| ConfigReload.LostEditStaysLost | moonraker_pinozcam/config.py:73-75 | Such an edit is not seen by any later poll |
| ConfigReload.WriteOntoBrokenFileIff | moonraker_pinozcam/config.py:219-227 | After a settings write, equal generations still mean current settings if and only if the written file parses |
| ConfigReload.WriteShowsEmpty | moonraker_pinozcam/config.py:219-227 | Between the two halves of a write, readers outside the lock find no settings at all; a detector that applies them is told to look again |
| ConfigReload.ReloadIsThreeSteps | moonraker_pinozcam/config.py:73-87 | An undisturbed reload equals its stat, read and commit steps |
| ConfigReload.WriteIsItsSteps | moonraker_pinozcam/config.py:219-227 | An undisturbed write loads and stamps the written content, or raises with neither stamp nor generation moved |
| ConfigReload.Config.Open | moonraker_pinozcam/config.py:21-44 | A missing or unparsable file is refused; otherwise the stamp taken before the read is kept |
| ConfigReload.Config.ReloadIfChanged | moonraker_pinozcam/config.py:73-87 | True exactly when the stamp changed and the file parsed; otherwise nothing moves, so the next poll tries again |
| ConfigReload.Config.LoadWritten | moonraker_pinozcam/config.py:219-227 | The written file becomes the loaded one with a new stamp and generation, or the remains of a failed load with the old ones |
| Confirmation.ConsumeIff | moonraker_pinozcam/confirm.py:48-66 | A confirmation is honoured if and only if an offer of that nonce on that channel and action is at most CONFIRM_TTL old and no new scope, newer offer, earlier use or matching withdrawal came since; other channels appear nowhere |
| Confirmation.NonceWorksOnce | moonraker_pinozcam/confirm.py:48-66 | With unique nonces each confirms at most once |
| Confirmation.HeldIsStanding | moonraker_pinozcam/confirm.py:36-66 | Every held token was offered, still stands, and carries the current scope |
| Confirmation.StandingIsHeld | moonraker_pinozcam/confirm.py:36-97 | Every standing offer is held, unless a clock read found it too old |
| Confirmation.PendingIff | moonraker_pinozcam/confirm.py:68-81 | A channel has something pending exactly while an offer made on it stands and is at most CONFIRM_TTL old |
| Confirmation.ExpiredMeans | moonraker_pinozcam/confirm.py:56-66 | A late confirmation is told so if its offer still stands and no clock read before found it old |
| Confirmation.CommandNeedsLiveOffer | moonraker_pinozcam/notify.py:631-661 | A Yes commands the printer only for a live offer of that action, in exactly the states that command allows, and once per nonce |
| Confirmation.CommandIff | moonraker_pinozcam/notify.py:631-661 | A Yes commands the printer exactly if there is a live offer, and the command is the action's own in a state where it makes sense |
| Confirmation.ConfirmStore.constructor | moonraker_pinozcam/confirm.py:13-16 | No tokens, scope zero |
| Confirmation.ConfirmStore.NewConfirmScope | moonraker_pinozcam/confirm.py:25-27 | Every outstanding token goes and the scope advances |
| Confirmation.ConfirmStore.IssueConfirm | moonraker_pinozcam/confirm.py:42-46 | The channel's offer for the action is replaced, no other |
| Confirmation.ConfirmStore.ConsumeConfirm | moonraker_pinozcam/confirm.py:56-66 | Verdict and removal in one step: stale changes nothing, expired and ok remove the token |
| Confirmation.ConfirmStore.ConfirmPending | moonraker_pinozcam/confirm.py:76-81 | All expired tokens go, and the answer is whether one of this channel is left |
| Confirmation.ConfirmStore.DropConfirm | moonraker_pinozcam/confirm.py:92-97 | A matching offer is withdrawn, a newer one is not |
| IniSaving.WriteReadsBackIff | moonraker_pinozcam/config.py:158-220 | For any file that loads and any plain keys: whatever values are written, the written file loads, the keys read their stripped values and every other option of every section reads as before, if and only if the old lines pass the checks: the file with the header the editor looks for loads, each line it rewrites or adds is in the reader's section, each line left alone is no written key to the reader, and a line next after a written one is not indented |
| IniSaving.CheckedWriteReadsBack | moonraker_pinozcam/config.py:158-220 | On a file that passes, the write is safe |
| IniSaving.NewWriteReadsBackIff | moonraker_pinozcam/config.py:158-220 | For values that no option has yet, one single write reads back if and only if the file passes |
| IniSaving.BrokenStaysBroken | moonraker_pinozcam/config.py:168-220 | If the file with the appended header does not load, neither does the written one |
| IniSaving.AppendedHeader | moonraker_pinozcam/config.py:168-170 | Appending the header keeps the file loading exactly when the reader has not met the section, and changes no option |
| IniSaving.BodyItemsAre | moonraker_pinozcam/config.py:179-196 | The places of a write, which depend on the keys alone, give the old body and, filled with the values, the edited one |
| IniSaving.BodyOwed | moonraker_pinozcam/config.py:179-196 | Every key is written at exactly one place |
| IniReadBack.StepKeepsAbreast | moonraker_pinozcam/config.py:180-220 | At a place that passes, the reader of the new file stays abreast of the reader of the old one: same sections, same other options, written keys done so far with their values |
| IniReadBack.ChecksSuffice | moonraker_pinozcam/config.py:180-220 | So it does over all places, whatever the lines are |
| IniReadBack.ChecksNeeded | moonraker_pinozcam/config.py:180-220 | If the outcome is right for values no line has yet, every place passes |
| IniReadBack.NeverPlaced | moonraker_pinozcam/config.py:180-220 | A key not written where the reader is in its section never reads as its new value |
| IniReadBack.ContinuedShows | moonraker_pinozcam/config.py:180-220 | A line that goes on with an option's value shows in it for good |
| IniOrdinary.OrdinaryIsSafe | moonraker_pinozcam/config.py:158-220 | A file with everything in the first column, headers with nothing behind them and the written keys spelled `key = value` passes the checks for any section |
| IniSaveFails.MissedHeaderFails | moonraker_pinozcam/config.py:162-170 | If the reader knows the section and the editor finds no such line, the file no longer loads after any write |
| IniSaveFails.NotedHeaderFails | moonraker_pinozcam/config.py:164-170 | So `[section] # note` above an option loads, and after a write it does not |
| IniSaveFails.IndentedNeighbourIsSwallowed | moonraker_pinozcam/config.py:181-186 | Two options indented alike load as two; writing the first makes the second a part of its value, and no error is raised |
| IniSaveFails.ColonKeyFails | moonraker_pinozcam/config.py:181-196 | `key: value` loads; writing that key adds it a second time, and the file no longer loads |
| IniReading.ReadGrows | moonraker_pinozcam/config.py:219-220 | One line redefines no option and lets only the open value grow |
| IniReading.ValueStays | moonraker_pinozcam/config.py:219-220 | An option once read keeps its value, except for lines appended while it is open |
| IniMeaning.KindMeans | moonraker_pinozcam/config.py:219-220 | What each line is: blank, a comment, a section header, an option, or refused |
| IniMeaning.HeaderNameIff | moonraker_pinozcam/config.py:219-220 | A line opens a section exactly if it starts with a bracket, a name and the last closing bracket |
| IniMeaning.AssignmentIs | moonraker_pinozcam/config.py:219-220 | A key, an equals sign or colon, a value, with whitespace or none around the sign: the first sign counts |
| IniMeaning.NoSignNoOption | moonraker_pinozcam/config.py:219-220 | A line with neither sign assigns nothing |
| IniMeaning.ValueOfBlock | moonraker_pinozcam/config.py:219-220 | An option's value is its first line and every deeper or blank line below it; comments add nothing and nothing else changes |
| IniMeaning.LineStands | moonraker_pinozcam/config.py:219-220 | Each line of a value stands in its text between line ends |
| IniLines.EditedIsRead | moonraker_pinozcam/config.py:181-184 | A line the editor takes for a plain key is, to the reader, that key or no option at all, unless it goes on with a value |
| IniLines.WrittenLine | moonraker_pinozcam/config.py:186-186 | A written line is seen under its key by editor and reader alike, in the first column, with the stripped value |
| IniLines.ColonLine | moonraker_pinozcam/config.py:181-186 | Every line `key: value` is one the reader takes for the key and the editor misses |
| IniEditing.SortMeans | moonraker_pinozcam/config.py:194-194 | Sorting the missing keys keeps the settings and orders them strictly by key |
| IniEditing.KeyBeforeIff | moonraker_pinozcam/config.py:194-194 | The order of keys: the one that stops first, or the lower character where they part |
| IniEditing.BlanksBelow | moonraker_pinozcam/config.py:191-193 | Added keys go after the last line that is not blank |
| IniEditing.OthersSurvive | moonraker_pinozcam/config.py:180-196 | Every line that does not assign a written key survives, unchanged and in order |
| IniEditing.EditIsIdempotent | moonraker_pinozcam/config.py:179-196 | A second identical edit of the section changes nothing |
| IniEditing.FileEdit | moonraker_pinozcam/config.py:162-196 | Only the section's body changes in the file, as specified, its header appended if it was missing; a second identical write changes nothing |
| IniEditing.NewSectionGoesLast | moonraker_pinozcam/config.py:168-196 | A section that is not there yet goes to the end, below a blank line, with its keys |
| IniEditing.WriteOptionsLocked | moonraker_pinozcam/config.py:162-196 | The in-place list edits produce exactly the specified file |
| IniEditing.EditSection | moonraker_pinozcam/config.py:179-196 | Rewriting and inserting between the header and the section's end gives the edited body there and changes nothing else |
| IniEditing.RewriteText | moonraker_pinozcam/config.py:158-208 | Text in, text out: the reader and the next writer both find the edited file in it, line for line |
| TextLines.WrittenReadsBack | moonraker_pinozcam/config.py:208-208 | Lines written and read back are themselves, when none holds a line end |
| TextLines.SameLinesIff | moonraker_pinozcam/config.py:159-160 | The writer, which splits at every line boundary, sees the reader's lines if and only if every boundary in the text is a line feed |
| TextLines.BreakSplits | moonraker_pinozcam/config.py:159-160 | Any other boundary is inside one line to the reader, and two lines after a save |
| IniEditing.RewriteKeys | moonraker_pinozcam/config.py:179-186 | The pass rewrites the first line of each key there and leaves the others to be added |
| IniEditing.InsertPoint | moonraker_pinozcam/config.py:191-193 | New keys go before the trailing blank lines of the section |
| IniEditing.InsertLines | moonraker_pinozcam/config.py:194-196 | The missing keys are inserted there in key order |
| IniEditing.FindHeader | moonraker_pinozcam/config.py:162-167 | The first line that is the section header |
| IniEditing.FindSectionEnd | moonraker_pinozcam/config.py:172-177 | The next section header, or the end of the file |
| Masking.ApplyToImage | moonraker_pinozcam/mask.py:126-163 | The run-merged rectangles paint, on a copy, exactly the pixels whose cell is masked, at any image size and grid, the early exits included |
| Masking.CellsPartition | moonraker_pinozcam/mask.py:137-155 | The cell intervals partition the image at any size: every pixel lies in exactly one, and the outer edges are the image's |
| Masking.CellsAreEven | moonraker_pinozcam/mask.py:137-155 | No cell is more than a pixel wider than another |
| Masking.PixelFollowsString | moonraker_pinozcam/mask.py:26-50 | A pixel in the interval of row r and column c is masked exactly if character r * grid + c is a one |
| Masking.SampledBrackets | moonraker_pinozcam/mask.py:38-45 | At any other size the nearest stored cell towards the corner counts |
| Masking.RunCovers | moonraker_pinozcam/mask.py:150-155 | A run of cells covers exactly the pixels whose cell is in the run |
| Masking.DecodeEncode | moonraker_pinozcam/mask.py:26-50 | A grid written and read back at its own size is itself |
| Masking.EncodeDecode | moonraker_pinozcam/mask.py:26-50 | A string of the grid's size comes back with everything but `1` written as `0` |
| Masking.Upscaled | moonraker_pinozcam/mask.py:38-45 | A stored n x n mask is read on a grid n divides by repeating every cell |
| Masking.OwnResolution | moonraker_pinozcam/mask.py:29-45 | Such a mask blacks exactly the pixels it would black at its own resolution |
| Masking.EmptyDecodesBlank | moonraker_pinozcam/mask.py:53-54 | A mask without a `1` decodes to no masked cell, so the early exit agrees with the loop |
| Masking.DecodedAt | moonraker_pinozcam/mask.py:34-45 | A length that is no square masks nothing; otherwise each cell is its nearest stored one |
| Letterbox.FitIsValid | moonraker_pinozcam/nozcam_backend.py:1269-1278 | For every image size the content rectangle passes the daemon's check, touches the canvas on at least one axis, and is centred to the pixel |
| LetterboxFit.FitKeepsShape | moonraker_pinozcam/nozcam_backend.py:1266-1275 | The content rectangle has the shape of the upright frame up to rounding, and the frame is turned exactly if it is higher than wide |
| LetterboxFit.FitIsProportional | moonraker_pinozcam/nozcam_backend.py:1269-1275 | The limiting side fills the canvas and the other is its proportional size, rounded half to even, a pixel at least |
| LetterboxFit.TurnMovesPixels | moonraker_pinozcam/nozcam_backend.py:1266-1268 | Turning a box and turning the pixels under it clockwise is the same |
| LetterboxFit.PlaceIsProportional | moonraker_pinozcam/nozcam_backend.py:1269-1278 | The whole frame goes onto the whole content rectangle, points between in proportion |
| Letterbox.UnfitIsInside | moonraker_pinozcam/nozcam_backend.py:1286-1303 | Whatever the canvas box, the mapped box is ordered and inside the image |
| Letterbox.UnfitInvertsPlace | moonraker_pinozcam/nozcam_backend.py:1286-1303 | Undoing the fit returns every ordered box of the image exactly, turned or not |
| Letterbox.PlaceInvertsUnfit | moonraker_pinozcam/nozcam_backend.py:1286-1303 | Placing an unmapped canvas box gives it back, clamped to the content rectangle |

## Left out

- FrameBuffering.FrameBuffer.TakeOnce: models one turn of `take` under its lock; the sleep between turns and its wake-up are not modelled.
- NozcamClient.NozcamBackend.StopLocked: waiting for the process and SIGKILL are not modelled; nothing of the old pipe is read afterwards either way.
- NozcamClient.NozcamBackend.InferLocked: promises nothing to a caller that comes between another's part-written request and its stop.
- Detection.Detector.StartRun: the threads themselves, joins and their timeouts are not modelled; whether a run is alive is a field.
- Confirmation.CommandNeedsLiveOffer: models the confirmed pause, resume and stop only, not the chat texts nor the commands that need no confirmation.
- IniSaving.WriteReadsBackIff: interpolated values and the fall-back to the DEFAULT section when a setting is looked up are outside what it says; written keys are plain and values single lines, which is what callers write.
- Sampling.JudgedIsCurrent: a refresh is two steps, the new buffer and the new criteria; the single assignments inside each are not told apart.
- Severity.Postprocess: covers the single-class model the program ships, with levels whose shape the daemon has checked; the profiling counters are not modelled.
- The sampler's pacing and decoding: each sample is a fetch, two reads and, later, an offer.
- `kill()` in the middle of an exchange: a call it interrupts fails like any broken pipe; between the turns of the lock it is modelled.
- The network itself: tensor shape checks, vendor calls, the HWC to CHW copy and the other daemons, which share this loop.
- Floating-point rounding in scores, boxes, areas and ratios.
- The writing of the temporary settings file and its rename: taken as one atomic replacement.
- Sockets, HTTP, websockets, Telegram and Discord delivery, the alert budget and logging: input and output over libraries.
- JPEG decoding, sharpness, drawing, fonts, image transforms and the mask's camera signature: images are opaque, except the pixel grid a mask is painted on.
- Hardware detection, CPU topology, camera discovery, URL redaction, credentials, installers: branch tables with only easy claims.
- The one-slot frame source and the JPEG cache: easier members of the same kind as the candidate buffer.
