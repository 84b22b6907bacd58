/** The GcodeDispatch module: the session fields it keeps across calls and
    its handler for a received console line, written step by step as the
    firmware runs it and proved to do what DispatchSpec.ReceiveLine says. */
module GcodeDispatch {
  import opened GcodeText
  import opened DispatchSpec
  import DispatchProperties

  class Dispatcher {
    /** return_error_on_unhandled_gcode and the config-override path. */
    const config: Config

    var currentline: int
    var uploading: bool
    /** upload_fd != NULL */
    var uploadOpen: bool
    var uploadFilename: string
    /** The upload destinations as this session wrote them. */
    var files: map<string, string>
    /** The byte counter of the upload write path, kept across calls. */
    var cnt: int
    /** Everything printed on the output stream, in order. */
    var out: seq<Response>
    /** Everything published to the rest of the firmware, in order. */
    var events: seq<Event>

    function State(): Session
      reads this
    {
      Session(currentline, uploading, uploadOpen, uploadFilename, files, cnt, out, events)
    }

    ghost predicate Valid()
      reads this
    {
      SessionInvariant(State())
    }

    /** Loading the module: read the configuration, no line seen yet, not
        uploading. */
    constructor (config: Config)
      ensures this.config == config
      ensures State() == Initial() && Valid()
    {
      this.config := config;
      currentline := -1;
      uploading := false;
      uploadOpen := false;
      uploadFilename := [];
      files := map[];
      cnt := 0;
      out := [];
      events := [];
    }

    /** One command token of an accepted line; `k` is its position in the line. */
    method HandleToken(o: Oracles, single: string, k: nat)
      requires !uploading && IsM(o.parse(single), 28) ==> |single| >= 4
      modifies this
      ensures State() == ProcessToken(config, old(State()), single, o.parse(single), o.env(k))
    {
      if !uploading {
        DispatchToken(o.parse(single), single, o.env(k));
      } else {
        UploadToken(single, o.env(k));
      }
    }

    /** A token outside an upload: M28, M500 and M501 are handled here, M503
        reports on the override file, and the rest is published and
        acknowledged. */
    method DispatchToken(gcode: GcodeFields, single: string, e: TokenEnv)
      requires !uploading && (IsM(gcode, 28) ==> |single| >= 4)
      modifies this
      ensures State() == DispatchStep(config, old(State()), single, gcode, e)
    {
      if gcode.hasM {
        if gcode.m == 28 {
          uploadFilename := "/sd/" + single[4..];
          uploadOpen := e.openOk;
          if uploadOpen {
            files := files[uploadFilename := []];
            uploading := true;
            out := out + [WritingToFile(uploadFilename)];
          } else {
            out := out + [OpenFailed(uploadFilename)];
          }
          return;
        } else if gcode.m == 500 {
          events := events + [OverrideRemoved, GcodeReceived(single, OverrideFile)];
          out := out + [SettingsStored(config.overridePath)];
          return;
        } else if gcode.m == 501 {
          events := events + [OverrideRemoved];
          out := out + [OverrideDeleted(config.overridePath)];
          return;
        } else if gcode.m == 503 {
          if e.overridePresent {
            out := out + [OverridePresent(config.overridePath)];
          } else {
            out := out + [NoOverride];
          }
        }
      }
      events := events + [GcodeReceived(single, Console)];
      if e.addNl {
        out := out + [Newline];
      }
      if config.returnErrorOnUnhandled && !e.accepted {
        out := out + [OkUnclaimed];
      } else if e.txtAfterOk != [] {
        out := out + [OkText(e.txtAfterOk)];
      } else {
        out := out + [Ok];
      }
    }

    /** A token during an upload: M29 ends it, a dropped handle discards the
        token, anything else is written with its newline. */
    method UploadToken(single: string, e: TokenEnv)
      requires uploading
      modifies this
      ensures State() == UploadStep(old(State()), single, e)
    {
      if HasPrefix(single, "M29") {
        uploadOpen := false;
        uploading := false;
        uploadFilename := [];
        out := out + [DoneSaving];
        return;
      }
      if !uploadOpen {
        out := out + [Ok];
        return;
      }
      var data := single + "\n";
      var written := if e.written < |data| then e.written else |data|;
      files := Append(files, uploadFilename, data[..written]);
      if written != |data| {
        out := out + [WriteError];
        uploadOpen := false;
        return;
      }
      cnt := cnt + |data|;
      if cnt > ReopenThreshold {
        uploadOpen := e.reopenOk;
        cnt := 0;
      }
      out := out + [Ok];
    }

    /** The console-line handler. */
    method OnConsoleLineReceived(o: Oracles, line: string)
      requires Valid() && WellFormed(o, currentline, line)
      modifies this
      ensures Valid()
      ensures State() == ReceiveLine(config, o, old(State()), line)
    {
      ghost var s0 := State();
      DispatchProperties.ReceiveLinePreservesInvariant(config, o, s0, line);
      var firstChar := FirstChar(line);
      if firstChar == 'G' || firstChar == 'M' || firstChar == 'T' || firstChar == 'N' {
        if firstChar == 'N' {
          var fullLine := o.parse(line);
          if fullLine.hasM && fullLine.m == 110 {
            currentline := fullLine.n;
            out := out + [Ok];
            ReceiveLineSetsLineNumber(config, o, s0, line);
            return;
          }
        }
        assert Validated(o, line);
        ValidatedLineFits(o, s0.currentline, line);
        ValidateAndDispatch(o, line);
        if Accepted(o, s0.currentline, line) {
          ReceiveLineAccepted(config, o, s0, line);
        } else {
          ReceiveLineRejected(config, o, s0, line);
        }
      } else {
        ReceiveLineUnframed(config, o, s0, line);
        if firstChar == ';' || firstChar == '(' || firstChar == ' ' || firstChar == '\n' || firstChar == '\r' {
          out := out + [Ok];
        }
      }
    }

    /** A G, M, T or N line other than M110: dispatched when its checksum
        and sequence number are right, answered with a resend request
        otherwise. */
    method ValidateAndDispatch(o: Oracles, line: string)
      requires Validated(o, line)
      requires Numbered(line) ==> HasCommandText(BeforeStar(line))
      requires Accepted(o, currentline, line) ==> UploadNamesFit(o, SplitCommands(Body(line)))
      modifies this
      ensures Accepted(o, old(currentline), line)
          ==> State() == ProcessTokens(config, o, Advance(old(State()), line), SplitCommands(Body(line)), 0)
      ensures !Accepted(o, old(currentline), line)
          ==> State() == old(State()).(out := old(out) + [Resend(old(currentline) + 1)])
    {
      var ln, cs, possibleCommand := ReadEnvelope(o, line);
      if cs == 0 && ln == currentline + 1 {
        AcceptLine(o, line, possibleCommand);
      } else {
        RequestResend();
      }
    }

    /** An accepted line: a numbered one moves the expected line number on,
        then its tokens are dispatched. */
    method AcceptLine(o: Oracles, line: string, body: string)
      requires UploadNamesFit(o, SplitCommands(body))
      modifies this
      ensures State() == ProcessTokens(config, o, Advance(old(State()), line), SplitCommands(body), 0)
    {
      if FirstChar(line) == 'N' {
        currentline := currentline + 1;
      }
      assert State() == Advance(old(State()), line);
      DispatchTokens(o, body);
    }

    /** A rejected line: ask for the expected line again. */
    method RequestResend()
      modifies this
      ensures State() == old(State()).(out := old(out) + [Resend(old(currentline) + 1)])
    {
      out := out + [Resend(currentline + 1)];
    }

    /** The validation steps of a G, M, T or N line that is not M110: the
        sequence number, the checksum residue (zero when intact) and the
        body left after stripping the checksum, the line-number prefix and
        the comment.  An unnumbered line is trusted: residue zero and the
        expected sequence number. */
    method ReadEnvelope(o: Oracles, line: string) returns (ln: int, cs: int, body: string)
      requires Validated(o, line)
      requires Numbered(line) ==> HasCommandText(BeforeStar(line))
      ensures body == Body(line)
      ensures (cs == 0 && ln == currentline + 1) <==> Accepted(o, currentline, line)
    {
      var possibleCommand := line;
      if FirstChar(line) == 'N' {
        var fullLine := o.parse(possibleCommand);
        ln := fullLine.n;
        var chksum := fullLine.star;
        cs := 0;
        var chkpos := FindFirst(possibleCommand, {'*'}, true, 0);
        FindFirstSpec(line, {'*'}, true, 0);
        BeforeStarSpec(line);
        if chkpos.Some? {
          possibleCommand := possibleCommand[..chkpos.value];
          assert possibleCommand == BeforeStar(line);
          cs := ComputeChecksum(possibleCommand, chksum);
        }
        assert possibleCommand == BeforeStar(line);
        FindFirstSpec(possibleCommand, LineNumberChars, false, 0);
        var lnsize := FindFirst(possibleCommand, LineNumberChars, false, 0);
        possibleCommand := possibleCommand[lnsize.value..];
      } else {
        cs := 0;
        ln := currentline + 1;
      }
      var comment := FindFirst(possibleCommand, CommentChars, true, 0);
      if comment.Some? {
        possibleCommand := possibleCommand[..comment.value];
      }
      body := possibleCommand;
    }

    /** The split loop of an accepted line: take the text up to the second
        command letter as one token, handle it, and go on with the rest. */
    method DispatchTokens(o: Oracles, body: string)
      requires UploadNamesFit(o, SplitCommands(body))
      modifies this
      ensures State() == ProcessTokens(config, o, old(State()), SplitCommands(body), 0)
    {
      var possibleCommand := body;
      var k := 0;
      while |possibleCommand| > 0
        invariant UploadNamesFit(o, SplitCommands(possibleCommand))
        invariant ProcessTokens(config, o, State(), SplitCommands(possibleCommand), k)
               == ProcessTokens(config, o, old(State()), SplitCommands(body), 0)
        decreases |possibleCommand|
      {
        ghost var before := possibleCommand;
        var first := FindFirst(possibleCommand, CommandLetters, true, 0);
        var nextcmd := FindFirst(possibleCommand, CommandLetters, true, if first.Some? then first.value + 1 else 0);
        var singleCommand: string;
        if nextcmd.None? {
          singleCommand := possibleCommand;
          possibleCommand := [];
        } else {
          singleCommand := possibleCommand[..nextcmd.value];
          possibleCommand := possibleCommand[nextcmd.value..];
        }
        assert singleCommand == before[..TokenEnd(before)] && possibleCommand == before[TokenEnd(before)..];
        SplitCommandsHead(before);
        HandleToken(o, singleCommand, k);
        k := k + 1;
      }
    }
  }
}
