# GcodeDispatch: a verified model of the console-line dispatcher

This project models the console-line handler of the Smoothie firmware's
`GcodeDispatch` module. The handler receives one raw text line from a serial
or file stream. It applies the reliability envelope (`N<seq> ... *<checksum>`):
the XOR checksum, the sequence number and the `M110` "set line number"
command. It strips the line-number prefix and the comment, splits the body
into `G`/`M`/`T` command tokens, and handles each token in one of two ways.
Outside an upload, `M28` starts an upload and `M501` deletes the
config-override file; neither is published. `M500` deletes the override
file and is published once with its output sent to a fresh override file
instead of the console, then answered with its own message. Every other
token is published on the console and acknowledged; `M503` first prints
whether an override file exists and is then published like the rest. During an upload the token is
written to the destination file (`M29` ends the upload); this path includes
degraded mode after a failed write and the close-and-reopen after 400 bytes.

The project has five modules:

- `GcodeText` (`gcode_text.dfy`): the std::string operations the handler
  uses. These are `find_first_of`/`find_first_not_of` (`FindFirst`), the
  checksum fold (`XorFold`, with `ComputeChecksum`, the loop as written),
  line-number and comment stripping, and the split of a body into tokens
  (`TokenEnd`, `SplitCommands`).
- `Decimal` (`decimal.dfy`): `%d` rendering of the number in the resend
  request, and its round trip.
- `DispatchSpec` (`dispatch_spec.dfy`): the session as a value (`Session`)
  and the effect on it of one token, of one line and of a stream of lines
  (`ProcessToken`, `ProcessTokens`, `ReceiveLine`, `ReceiveLines`). Every response is a `Response` value, and
  `Render` gives its exact printed text.
- `DispatchProperties` (`dispatch_properties.dfy`): what the handler
  guarantees, stated and proved about `DispatchSpec`.
- `GcodeDispatch` (`gcode_dispatch.dfy`): class `Dispatcher`, whose fields
  are the module's state. `OnConsoleLineReceived` updates them step by step
  as the firmware does. It is proved to leave `State()` equal to
  `ReceiveLine` of the old state and to keep the session invariant.

Code the handler calls but cannot see is modelled by oracles (`Oracles`):

- `parse` is what the Gcode parser reports for a text (`has_m`, `m`, the `N`
  value, the `*` value).
- `env(k)` gives, for the k-th token of the line:
  - what the event subscribers left in the record (`accepted_by_module`,
    `txt_after_ok`, `add_nl`);
  - what `fopen` and `fwrite` returned;
  - whether the override file exists.

Output printed to the line's stream is the sequence `out`. Events published
to the rest of the firmware (`call_event(ON_GCODE_RECEIVED)`, and removal of
the override file) are the sequence `events`. Upload destinations are the map
`files`.

The model keeps these behaviours of the code as written:

- The checksum covers the text before the first `*` on the line
  (`find_first_of("*")`, line 58), not the text before the last one.
- A non-empty body with no command letter is one token and is dispatched,
  for example the `X10` of `N5 X10*..`. It does not yield zero tokens
  (`GcodeText.SplitCommandsWithoutLetters`).
- Text before a body's first command letter stays with that command
  (`GcodeText.SplitLeadingText`).
- An upload stores each token with its own newline (line 189), not each
  received line. A line holding two commands becomes two lines of the file.

## Model

| member | source | states |
|---|---|---|
| GcodeText.FindFirstSpec | src/modules/communication/GcodeDispatch.cpp:58-91 | the search returns the first position at or after `from` whose membership in the set is as asked; it returns npos only when no such position exists |
| GcodeText.BeforeStarSpec | src/modules/communication/GcodeDispatch.cpp:58-59 | the text kept before the checksum holds no `*` and ends at the line's first `*`; it is the whole line when there is none |
| GcodeText.ComputeChecksum | src/modules/communication/GcodeDispatch.cpp:61-66 | the loop yields the XOR fold of the prefix bytes minus the transmitted value; it is zero exactly when they agree |
| GcodeText.XorFoldAppend | src/modules/communication/GcodeDispatch.cpp:62-63 | folding a concatenation XORs the folds of the parts |
| GcodeText.SingleByteChangeDetected | src/modules/communication/GcodeDispatch.cpp:62-65 | changing any single byte of the checked text changes the fold, so a corrupted byte fails the check |
| GcodeText.StripLineNumberSpec | src/modules/communication/GcodeDispatch.cpp:68-69 | the dropped prefix is all line-number characters; what remains is non-empty and starts with the first other character |
| GcodeText.StripCommentSpec | src/modules/communication/GcodeDispatch.cpp:78-81 | the stripped text holds no `;` or `(` and ends where the first of them was |
| GcodeText.TokenEndSpec | src/modules/communication/GcodeDispatch.cpp:91-99 | the first token holds the remainder's first command letter and no other; the rest starts with the next command letter; without command letters the whole remainder is one token |
| GcodeText.SplitCommandsConcat | src/modules/communication/GcodeDispatch.cpp:90-99 | the tokens put back together in order give the body: nothing is lost, duplicated or reordered |
| GcodeText.SplitCommandsTokens | src/modules/communication/GcodeDispatch.cpp:90-99 | every token is non-empty with at most one command letter, every token after the first starts with one, and when the body holds a command letter so does every token; with `SplitCommandsConcat` this fixes the split |
| GcodeText.SplitCommandsWithoutLetters | src/modules/communication/GcodeDispatch.cpp:91-95 | a non-empty body without G, M or T is a single token |
| GcodeText.SplitLeadingText | src/modules/communication/GcodeDispatch.cpp:90-99 | `X G1` is one token: the text before the first command letter stays with it |
| GcodeText.SplitTwoCommands | src/modules/communication/GcodeDispatch.cpp:90-99 | `G1 X1 M104 S200` splits into `G1 X1 ` and `M104 S200` |
| Decimal.NatToStringRoundTrip | src/modules/communication/GcodeDispatch.cpp:214 | the decimal digits printed for a non-negative number read back as that number |
| Decimal.IntToStringRoundTrip | src/modules/communication/GcodeDispatch.cpp:214 | `%d` of any integer, signed, reads back as that integer |
| DispatchSpec.ReceiveLineSetsLineNumber | src/modules/communication/GcodeDispatch.cpp:43-54 | a numbered M110 line sets the line number to its N value and answers `ok`, whatever its checksum; it publishes nothing and leaves the files and the upload state unchanged |
| DispatchSpec.ReceiveLineAccepted | src/modules/communication/GcodeDispatch.cpp:83-99 | an accepted line advances the line number when numbered, then processes the tokens of its stripped body in order |
| DispatchSpec.ReceiveLineRejected | src/modules/communication/GcodeDispatch.cpp:212-215 | a rejected line changes nothing but appending `rs N<expected>` |
| DispatchSpec.ReceiveLineUnframed | src/modules/communication/GcodeDispatch.cpp:218-220 | a comment or blank line gets one `ok`; any other line not starting with G, M, T or N changes nothing |
| DispatchProperties.NumberedLineOutcome | src/modules/communication/GcodeDispatch.cpp:83-88 | a numbered non-M110 line advances the line number iff it is accepted, and gets exactly a resend request iff it is not; a rejected line changes nothing else |
| DispatchProperties.NumberedLineProcessed | src/modules/communication/GcodeDispatch.cpp:85-88 | an accepted numbered line advances the line number by one and does not ask for a resend |
| DispatchProperties.UnnumberedLineAccepted | src/modules/communication/GcodeDispatch.cpp:71-75 | a G, M or T line is always processed: the tokens of its comment-stripped text, line number unchanged, output only appended |
| DispatchProperties.CommentOnlyLine | src/modules/communication/GcodeDispatch.cpp:218-219 | `; hello` yields no token and one `ok` |
| DispatchProperties.NumberedBodyStripped | src/modules/communication/GcodeDispatch.cpp:67-81 | the body of a numbered line starts after its line-number prefix and holds no comment character |
| DispatchProperties.ResendNamesLine | src/modules/communication/GcodeDispatch.cpp:214 | the resend request is `rs N`, the expected line number readable back as a number, then CR LF |
| DispatchProperties.ProcessTokenExtends | src/modules/communication/GcodeDispatch.cpp:101-209 | a token keeps the line number, only appends output and events, and never emits a resend request |
| DispatchProperties.ProcessTokensExtends | src/modules/communication/GcodeDispatch.cpp:90-210 | the same for all the tokens of a line |
| DispatchProperties.ProcessTokenPreservesInvariant | src/modules/communication/GcodeDispatch.cpp:190-205 | the byte counter stays within 0..400, and an open handle implies an upload into a file the session created |
| DispatchProperties.ProcessTokensPreservesInvariant | src/modules/communication/GcodeDispatch.cpp:90-210 | the invariant holds across all the tokens of a line |
| DispatchProperties.ReceiveLinePreservesInvariant | src/modules/communication/GcodeDispatch.cpp:32-221 | the invariant holds across any line |
| DispatchProperties.AcknowledgementText | src/modules/communication/GcodeDispatch.cpp:161-167 | the acknowledgement is the unclaimed diagnostic when enabled and unclaimed, else `ok` with the consumer's text, else a bare `ok` |
| DispatchProperties.PublishAcksOnce | src/modules/communication/GcodeDispatch.cpp:157-167 | a published token is acknowledged exactly once; the blank line before it is not an acknowledgement |
| DispatchProperties.OneAckOutsideUpload | src/modules/communication/GcodeDispatch.cpp:106-167 | outside an upload every token except M28 adds exactly one acknowledgement; M28 adds none |
| DispatchProperties.OpenAcksNone | src/modules/communication/GcodeDispatch.cpp:108-121 | M28's replies, success or failure, carry no `ok` |
| DispatchProperties.OverrideAcksOnce | src/modules/communication/GcodeDispatch.cpp:123-139 | M500 and M501 each acknowledge exactly once |
| DispatchProperties.DispatchPublishAcksOnce | src/modules/communication/GcodeDispatch.cpp:141-167 | M503 and every other published token acknowledge exactly once; the M503 status line is not an acknowledgement |
| DispatchProperties.OneAckDuringUpload | src/modules/communication/GcodeDispatch.cpp:171-209 | during an upload every token is acknowledged once, except M29 and a token whose write fails |
| DispatchProperties.WriteTokenOut | src/modules/communication/GcodeDispatch.cpp:191-206 | a write adds exactly one reply: the error when short, `ok` otherwise |
| DispatchProperties.PublishedToken | src/modules/communication/GcodeDispatch.cpp:141-167 | the whole new session for a token other than M28/M500/M501: it is published once on the console; M503 first reports whether an override exists; then come the optional blank line and the acknowledgement; no other field changes |
| DispatchProperties.OverrideCommands | src/modules/communication/GcodeDispatch.cpp:123-139 | M500 removes the override file, publishes the command into it and reports it; M501 only removes it; neither is published on the console |
| DispatchProperties.StartUpload | src/modules/communication/GcodeDispatch.cpp:108-121 | M28 targets `/sd/` plus the text after the first four characters; on success it starts an upload into an emptied file; on failure it stays idle and reports the failure |
| DispatchProperties.OpenStep | src/modules/communication/GcodeDispatch.cpp:111-116 | the whole session after an M28 whose file opens |
| DispatchProperties.EndUpload | src/modules/communication/GcodeDispatch.cpp:173-181 | M29 during an upload ends it, clears the name, writes nothing and reports completion |
| DispatchProperties.WriteOneToken | src/modules/communication/GcodeDispatch.cpp:189-208 | a full write appends the token and a newline; past 400 bytes the handle is reopened and the counter restarts, otherwise the counter grows by the bytes written |
| DispatchProperties.WriteFailureDegrades | src/modules/communication/GcodeDispatch.cpp:191-196 | a short write reports the error and drops the handle while the upload continues; the file keeps what was written |
| DispatchProperties.DegradedUploadDiscards | src/modules/communication/GcodeDispatch.cpp:183-187 | with the handle dropped, every token up to M29 is discarded with a bare `ok` |
| DispatchProperties.UploadAppends | src/modules/communication/GcodeDispatch.cpp:189-208 | successful writes append every token and its newline in order, however often the handle is reopened, with one `ok` each |
| DispatchProperties.WriteAfterOpen | src/modules/communication/GcodeDispatch.cpp:189-208 | tokens written into a just-opened file leave exactly those lines in it and the upload still open |
| DispatchProperties.UploadRoundTrip | src/modules/communication/GcodeDispatch.cpp:108-181 | within one line, M28, tokens, M29 leaves the destination holding exactly the tokens, each with a newline, and the session idle; replies are the open notice, one `ok` per token and the done notice; nothing is published |
| DispatchProperties.UploadLineAppends | src/modules/communication/GcodeDispatch.cpp:83-208 | an accepted line received during an open upload appends each of its tokens with its newline, moves the line number as its numbering says, and keeps the upload open |
| DispatchProperties.UploadBodyAppends | src/modules/communication/GcodeDispatch.cpp:83-208 | body lines accepted in turn during an open upload append every token of every line, in order, to the destination and keep the upload open |
| DispatchProperties.ReceiveLinesSplit | src/modules/communication/GcodeDispatch.cpp:32-221 | receiving a stream of lines equals receiving its two parts in turn, and the stream is well formed exactly when both parts are |
| DispatchProperties.UploadAcrossLines | src/modules/communication/GcodeDispatch.cpp:83-208 | a line holding M28 whose file opens, body lines whose writes succeed, then a line holding M29: the destination, and no other file, ends holding every body token with its newline, line after line; the session is idle, the line number has moved on with the lines, and nothing was published |
| DispatchProperties.ProcessTokensSplit | src/modules/communication/GcodeDispatch.cpp:90-210 | processing a run of tokens equals processing its two halves in turn |
| GcodeDispatch.Dispatcher.constructor | src/modules/communication/GcodeDispatch.cpp:23-29 | after loading, the line number is -1, no upload is in progress and the invariant holds |
| GcodeDispatch.Dispatcher.OnConsoleLineReceived | src/modules/communication/GcodeDispatch.cpp:32-221 | the handler leaves the state equal to `ReceiveLine` of the old state and keeps the invariant |
| GcodeDispatch.Dispatcher.ValidateAndDispatch | src/modules/communication/GcodeDispatch.cpp:83-215 | an accepted line is processed after the line number advances; a rejected one only appends the resend request |
| GcodeDispatch.Dispatcher.ReadEnvelope | src/modules/communication/GcodeDispatch.cpp:42-81 | the returned body is the stripped body, and residue zero with the expected number holds iff the line is accepted |
| GcodeDispatch.Dispatcher.AcceptLine | src/modules/communication/GcodeDispatch.cpp:85-90 | the line number advances for a numbered line, then the body's tokens are processed |
| GcodeDispatch.Dispatcher.RequestResend | src/modules/communication/GcodeDispatch.cpp:212-215 | only the resend request for the expected line is appended |
| GcodeDispatch.Dispatcher.DispatchTokens | src/modules/communication/GcodeDispatch.cpp:90-99 | the split loop leaves the state equal to processing `SplitCommands` of the body in order |
| GcodeDispatch.Dispatcher.HandleToken | src/modules/communication/GcodeDispatch.cpp:101-209 | one token is handled as `ProcessToken` says |
| GcodeDispatch.Dispatcher.DispatchToken | src/modules/communication/GcodeDispatch.cpp:101-169 | a token outside an upload changes the state as `DispatchStep` says |
| GcodeDispatch.Dispatcher.UploadToken | src/modules/communication/GcodeDispatch.cpp:171-209 | a token during an upload changes the state as `UploadStep` says |

## Left out

- `register_for_event` (line 26) and reading the configuration (line 25):
  the event registration is not modelled. The configuration value and the
  override path are the constructor's `Config` argument.
- The Gcode parser, the event subscribers and `FileStream` are oracles. What
  subscribers do with a published command, including what M500's consumers
  write into the override file, is not modelled; the event records only which
  sink it was given.
- GcodeDispatch.Dispatcher.OnConsoleLineReceived: requires `WellFormed`.
  Where a line violates it, the source throws `std::out_of_range` and the
  model does not describe the result. This covers two cases:
  - a numbered line whose text before `*` has only line-number characters
    (`substr(npos)`, line 69), whether or not the line is then accepted;
  - an accepted line with an M28 token shorter than four characters
    (`substr(4)`, line 111). A rejected line is never split, so its tokens
    are not constrained.
- GcodeDispatch.Dispatcher.OnConsoleLineReceived: the M28 length condition
  is required of every token of an accepted line that the parser reports as
  M28. This includes tokens that arrive during an upload, where the source
  does not take the substring.
- DispatchProperties.UploadAcrossLines: covers uploads whose opening and
  closing lines hold just the M28 and the M29 token. Every body line must
  start with G, M, T or N, must not be a numbered M110 line, must be
  accepted, and every write must succeed. So it does not cover a stream
  holding any of these between M28 and M29:
  - comment and blank lines, which get `ok` and are not written (line 218);
  - lines with any other first character, which are dropped;
  - numbered M110 lines, which reset the line number (lines 48-54);
  - rejected lines, which get a resend request;
  - failed writes.

  Each of these is covered line by line by `DispatchSpec.ReceiveLineUnframed`,
  `DispatchSpec.ReceiveLineSetsLineNumber`, `DispatchSpec.ReceiveLineRejected`
  and `DispatchProperties.WriteFailureDegrades`.
- `fclose(NULL)` on M29 after a failed write (line 175) is undefined
  behaviour in C. It is modelled as doing nothing.
- The checksum loop dereferences the end iterator (line 62). The model stops
  at the end of the text.
- The byte counter `cnt` is a function-local `static` (line 190), shared by
  every instance. It is modelled as a field of the one dispatcher.
- Machine integers: `currentline + 1`, `cnt` and the casts of parser values
  to `int` are unbounded here. Overflow at `INT_MAX` is not modelled.
- Characters count as bytes. The fold keeps the low eight bits of each
  character, which is what survives `cs &= 0xff` whether `char` is signed
  or not.
- `txt_after_ok.clear()` (line 165) clears a record that is deleted right
  after, so it is not modelled. Neither are the `new`/`delete` of records and
  streams.
- File contents: `fopen(..., "w")` truncating and `fopen(..., "a")` reopening
  are modelled by the destination map. A file that fails to open is left
  untouched, and the model does not track files it did not create.
- `ad5206.h` (the digital potentiometer driver) is not part of this model.

