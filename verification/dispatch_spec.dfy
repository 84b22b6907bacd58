/** What one received line does to the dispatcher's session: the value-level
    specification that the Dispatcher class is proved against.

    Everything the dispatcher learns from code outside this component is an
    oracle: `Oracles.parse` gives what the Gcode parser reports for a text,
    and `Oracles.env(k)` gives, for the k-th token of the line, what the
    subscribers of the gcode event left in the record, what the file calls
    returned, and whether the override file exists. */
module DispatchSpec {
  import opened GcodeText
  import Decimal

  /** Byte count after which an open upload is closed and reopened for append. */
  const ReopenThreshold := 400

  /** What the Gcode parser reports for a text: `has_letter('M')` / `has_m`,
      `(int) get_value('M')` / `m`, `(int) get_value('N')` and
      `(int) get_value('*')`. */
  datatype GcodeFields = GcodeFields(hasM: bool, m: int, n: int, star: int)

  /** What the outside world decides for one token. */
  datatype TokenEnv = TokenEnv(
    accepted: bool,         // accepted_by_module after the event
    txtAfterOk: string,     // txt_after_ok after the event
    addNl: bool,            // add_nl after the event
    overridePresent: bool,  // fopen(config-override, "r") succeeds
    openOk: bool,           // fopen(upload, "w") succeeds
    written: nat,           // what fwrite returns
    reopenOk: bool)         // fopen(upload, "a") succeeds

  datatype Oracles = Oracles(parse: string -> GcodeFields, env: nat -> TokenEnv)

  /** Settings read when the module is loaded. */
  datatype Config = Config(returnErrorOnUnhandled: bool, overridePath: string)

  /** One printf on the line's output stream. */
  datatype Response =
    | Ok
    | OkText(text: string)
    | OkUnclaimed
    | Newline
    | Resend(line: int)
    | WritingToFile(path: string)
    | OpenFailed(path: string)
    | DoneSaving
    | WriteError
    | SettingsStored(path: string)
    | OverrideDeleted(path: string)
    | OverridePresent(path: string)
    | NoOverride

  /** Where a published command's own output goes. */
  datatype Sink = Console | OverrideFile

  /** What the dispatcher does to the rest of the firmware. */
  datatype Event =
    | GcodeReceived(command: string, sink: Sink)  // call_event(ON_GCODE_RECEIVED)
    | OverrideRemoved                              // remove(config-override)

  /** The dispatcher's session together with what it has emitted so far.
      `uploadOpen` stands for upload_fd != NULL; `files` holds the upload
      destinations this session has written; `cnt` is the byte counter of the
      upload write path. */
  datatype Session = Session(
    currentline: int,
    uploading: bool,
    uploadOpen: bool,
    uploadFilename: string,
    files: map<string, string>,
    cnt: int,
    out: seq<Response>,
    events: seq<Event>)

  /** The session right after the module is loaded. */
  function Initial(): Session {
    Session(-1, false, false, [], map[], 0, [], [])
  }

  /** What every reachable session satisfies. */
  ghost predicate SessionInvariant(s: Session) {
    && 0 <= s.cnt <= ReopenThreshold
    && (s.uploadOpen ==> s.uploading && s.uploadFilename in s.files)
  }

  /** The exact text each response prints. */
  function Render(r: Response): (text: string)
    ensures |text| >= 2 && text[|text| - 1] == '\n'
  {
    match r
    case Ok => "ok\r\n"
    case OkText(t) => "ok " + t + "\r\n"
    case OkUnclaimed => "ok (command unclaimed)\r\n"
    case Newline => "\r\n"
    case Resend(n) => "rs N" + Decimal.IntToString(n) + "\r\n"
    case WritingToFile(p) => "Writing to file: " + p + "\r\n"
    case OpenFailed(p) => "open failed, File: " + p + ".\r\n"
    case DoneSaving => "Done saving file.\r\n"
    case WriteError => "Error:error writing to file.\r\n"
    case SettingsStored(p) => "Settings Stored to " + p + "\r\nok\r\n"
    case OverrideDeleted(p) => "config override file deleted " + p + ", reboot needed\r\nok\r\n"
    case OverridePresent(p) => "; config override present: " + p + "\n"
    case NoOverride => "; No config override\n"
  }

  /** The responses that acknowledge a command with `ok`. */
  predicate IsAck(r: Response) {
    r.Ok? || r.OkText? || r.OkUnclaimed? || r.SettingsStored? || r.OverrideDeleted?
  }

  function CountAcks(rs: seq<Response>): nat {
    if rs == [] then 0 else CountAcks(rs[..|rs| - 1]) + (if IsAck(rs[|rs| - 1]) then 1 else 0)
  }

  predicate IsM(f: GcodeFields, code: int) {
    f.hasM && f.m == code
  }

  // ----- the line envelope -----

  predicate Numbered(line: string) {
    FirstChar(line) == 'N'
  }

  /** A numbered line that declares M110 (set current line number). */
  predicate SetsLineNumber(o: Oracles, line: string) {
    Numbered(line) && IsM(o.parse(line), 110)
  }

  /** The line goes to checksum and sequence validation. */
  predicate Validated(o: Oracles, line: string) {
    FirstChar(line) in {'G', 'M', 'T', 'N'} && !SetsLineNumber(o, line)
  }

  /** The body left once the checksum, the line-number prefix and the
      comment are stripped. */
  function Body(line: string): string
    requires Numbered(line) ==> HasCommandText(BeforeStar(line))
  {
    if Numbered(line) then StripComment(StripLineNumber(BeforeStar(line))) else StripComment(line)
  }

  /** A numbered line with a `*` passes when the fold of what precedes its
      first `*` equals the transmitted value; other lines pass outright. */
  predicate ChecksumOk(o: Oracles, line: string) {
    !Numbered(line) || '*' !in line || XorFold(BeforeStar(line)) as int == o.parse(line).star
  }

  /** The sequence number of a line: its N value, or the expected one. */
  function LineNumber(o: Oracles, currentline: int, line: string): int {
    if Numbered(line) then o.parse(line).n else currentline + 1
  }

  predicate Accepted(o: Oracles, currentline: int, line: string) {
    ChecksumOk(o, line) && LineNumber(o, currentline, line) == currentline + 1
  }

  /** What the line must satisfy for the dispatcher not to fault when it
      arrives with `currentline` as the last line number: a numbered line
      has something after its line-number prefix, and when the line is
      accepted, every M28 token among its tokens is long enough to hold a
      file name.  A rejected line is never split, so its tokens are free. */
  ghost predicate WellFormed(o: Oracles, currentline: int, line: string) {
    Validated(o, line) ==>
      && (Numbered(line) ==> HasCommandText(BeforeStar(line)))
      && (Accepted(o, currentline, line) ==> UploadNamesFit(o, SplitCommands(Body(line))))
  }

  /** Every M28 token among `toks` is long enough to hold a file name. */
  predicate UploadNamesFit(o: Oracles, toks: seq<string>) {
    toks == [] || ((IsM(o.parse(toks[0]), 28) ==> |toks[0]| >= 4) && UploadNamesFit(o, toks[1..]))
  }

  // ----- one token -----

  /** The single `ok` line after a published command. */
  function Acknowledgement(c: Config, e: TokenEnv): Response {
    if c.returnErrorOnUnhandled && !e.accepted then OkUnclaimed
    else if e.txtAfterOk != [] then OkText(e.txtAfterOk)
    else Ok
  }

  /** Generic dispatch: publish, then an optional blank line and the ack. */
  function Publish(c: Config, s: Session, tok: string, e: TokenEnv): Session {
    s.(events := s.events + [GcodeReceived(tok, Console)],
       out := s.out + (if e.addNl then [Newline] else []) + [Acknowledgement(c, e)])
  }

  /** M28: open the destination for writing. */
  function OpenUpload(s: Session, path: string, e: TokenEnv): Session {
    if e.openOk then
      s.(uploadFilename := path, uploadOpen := true, uploading := true,
         files := s.files[path := []], out := s.out + [WritingToFile(path)])
    else
      s.(uploadFilename := path, uploadOpen := false, out := s.out + [OpenFailed(path)])
  }

  function Append(files: map<string, string>, path: string, data: string): map<string, string> {
    files[path := (if path in files then files[path] else []) + data]
  }

  /** Upload pass-through: write the token and its newline, then either
      report the failed write or count the bytes, refreshing the handle
      past the threshold. */
  function WriteToken(s: Session, data: string, e: TokenEnv): Session {
    var n := if e.written < |data| then e.written else |data|;
    var files := Append(s.files, s.uploadFilename, data[..n]);
    if n != |data| then
      s.(files := files, uploadOpen := false, out := s.out + [WriteError])
    else if s.cnt + |data| > ReopenThreshold then
      s.(files := files, uploadOpen := e.reopenOk, cnt := 0, out := s.out + [Ok])
    else
      s.(files := files, cnt := s.cnt + |data|, out := s.out + [Ok])
  }

  /** A token outside an upload: M28 opens an upload, M500 and M501 act on
      the override file, M503 reports on it before being published, and
      everything else is published. */
  function DispatchStep(c: Config, s: Session, tok: string, f: GcodeFields, e: TokenEnv): Session
    requires IsM(f, 28) ==> |tok| >= 4
  {
    if IsM(f, 28) then OpenUpload(s, "/sd/" + tok[4..], e)
    else if IsM(f, 500) then
      s.(events := s.events + [OverrideRemoved, GcodeReceived(tok, OverrideFile)],
         out := s.out + [SettingsStored(c.overridePath)])
    else if IsM(f, 501) then
      s.(events := s.events + [OverrideRemoved], out := s.out + [OverrideDeleted(c.overridePath)])
    else if IsM(f, 503) then
      var status := if e.overridePresent then OverridePresent(c.overridePath) else NoOverride;
      Publish(c, s.(out := s.out + [status]), tok, e)
    else Publish(c, s, tok, e)
  }

  /** A token during an upload: M29 ends it, a lost handle drops the token
      with a bare `ok`, anything else is written with its newline. */
  function UploadStep(s: Session, tok: string, e: TokenEnv): Session {
    if HasPrefix(tok, "M29") then
      s.(uploadOpen := false, uploading := false, uploadFilename := [], out := s.out + [DoneSaving])
    else if !s.uploadOpen then
      s.(out := s.out + [Ok])
    else
      WriteToken(s, tok + "\n", e)
  }

  /** One token of an accepted line. */
  function ProcessToken(c: Config, s: Session, tok: string, f: GcodeFields, e: TokenEnv): Session
    requires !s.uploading && IsM(f, 28) ==> |tok| >= 4
  {
    if !s.uploading then DispatchStep(c, s, tok, f, e) else UploadStep(s, tok, e)
  }

  /** The tokens of an accepted line, the first being the k-th. */
  function ProcessTokens(c: Config, o: Oracles, s: Session, toks: seq<string>, k: nat): Session
    requires UploadNamesFit(o, toks)
    decreases |toks|
  {
    if toks == [] then s
    else
      ProcessTokens(c, o, ProcessToken(c, s, toks[0], o.parse(toks[0]), o.env(k)), toks[1..], k + 1)
  }

  /** The last line number once an accepted line is processed: a numbered
      line moves it on by one, an unnumbered line leaves it alone. */
  function NextLine(currentline: int, line: string): int {
    if Numbered(line) then currentline + 1 else currentline
  }

  /** An accepted line moves the session's line number as NextLine says and
      changes nothing else. */
  function Advance(s: Session, line: string): (r: Session)
    ensures r.currentline == NextLine(s.currentline, line)
    ensures r == s.(currentline := r.currentline)
  {
    if Numbered(line) then s.(currentline := s.currentline + 1) else s
  }

  /** One received line. */
  function ReceiveLine(c: Config, o: Oracles, s: Session, line: string): Session
    requires WellFormed(o, s.currentline, line)
  {
    var first := FirstChar(line);
    if first in {'G', 'M', 'T', 'N'} then
      if SetsLineNumber(o, line) then
        s.(currentline := o.parse(line).n, out := s.out + [Ok])
      else if Accepted(o, s.currentline, line) then
        ProcessTokens(c, o, Advance(s, line), SplitCommands(Body(line)), 0)
      else
        s.(out := s.out + [Resend(s.currentline + 1)])
    else if first in {';', '(', ' ', '\n', '\r'} then
      s.(out := s.out + [Ok])
    else
      s
  }

  /** Every line of a stream is well formed in the session it arrives in. */
  ghost predicate LinesWellFormed(c: Config, os: seq<Oracles>, s: Session, lines: seq<string>)
    requires |os| == |lines|
    decreases |lines|
  {
    lines == [] ||
    (WellFormed(os[0], s.currentline, lines[0])
     && LinesWellFormed(c, os[1..], ReceiveLine(c, os[0], s, lines[0]), lines[1..]))
  }

  /** Lines received one after another on a stream, the i-th seen through
      the oracles `os[i]`. */
  ghost function ReceiveLines(c: Config, os: seq<Oracles>, s: Session, lines: seq<string>): Session
    requires |os| == |lines| && LinesWellFormed(c, os, s, lines)
    decreases |lines|
  {
    if lines == [] then s else ReceiveLines(c, os[1..], ReceiveLine(c, os[0], s, lines[0]), lines[1..])
  }

  // ----- the branches of ReceiveLine, one at a time -----

  lemma ReceiveLineSetsLineNumber(c: Config, o: Oracles, s: Session, line: string)
    requires WellFormed(o, s.currentline, line) && SetsLineNumber(o, line)
    ensures ReceiveLine(c, o, s, line) == s.(currentline := o.parse(line).n, out := s.out + [Ok])
  {
  }

  /** What WellFormed gives for a line that goes to validation. */
  lemma ValidatedLineFits(o: Oracles, currentline: int, line: string)
    requires WellFormed(o, currentline, line) && Validated(o, line)
    ensures Numbered(line) ==> HasCommandText(BeforeStar(line))
    ensures Accepted(o, currentline, line) ==> UploadNamesFit(o, SplitCommands(Body(line)))
  {
  }

  lemma ReceiveLineAccepted(c: Config, o: Oracles, s: Session, line: string)
    requires WellFormed(o, s.currentline, line) && Validated(o, line) && Accepted(o, s.currentline, line)
    ensures Numbered(line) ==> HasCommandText(BeforeStar(line))
    ensures UploadNamesFit(o, SplitCommands(Body(line)))
    ensures ReceiveLine(c, o, s, line)
         == ProcessTokens(c, o, Advance(s, line), SplitCommands(Body(line)), 0)
  {
    ValidatedLineFits(o, s.currentline, line);
    assert FirstChar(line) in {'G', 'M', 'T', 'N'} && !SetsLineNumber(o, line);
  }

  lemma ReceiveLineRejected(c: Config, o: Oracles, s: Session, line: string)
    requires WellFormed(o, s.currentline, line) && Validated(o, line) && !Accepted(o, s.currentline, line)
    ensures ReceiveLine(c, o, s, line) == s.(out := s.out + [Resend(s.currentline + 1)])
  {
  }

  lemma ReceiveLineUnframed(c: Config, o: Oracles, s: Session, line: string)
    requires FirstChar(line) !in {'G', 'M', 'T', 'N'}
    ensures FirstChar(line) in {';', '(', ' ', '\n', '\r'} ==> ReceiveLine(c, o, s, line) == s.(out := s.out + [Ok])
    ensures FirstChar(line) !in {';', '(', ' ', '\n', '\r'} ==> ReceiveLine(c, o, s, line) == s
  {
  }
}
