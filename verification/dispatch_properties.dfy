/** What the dispatcher guarantees, proved about DispatchSpec. */
module DispatchProperties {
  import opened GcodeText
  import opened DispatchSpec
  import Decimal

  /** `n` bare acknowledgements. */
  function Oks(n: nat): (rs: seq<Response>)
    ensures |rs| == n
  {
    if n == 0 then [] else [Ok] + Oks(n - 1)
  }

  /** What an upload destination receives for a run of tokens: each token
      followed by a newline. */
  function Lines(toks: seq<string>): string {
    if toks == [] then [] else toks[0] + "\n" + Lines(toks[1..])
  }

  /** `r` continues `s`: same line number, and only responses other than a
      resend request and events are added at the end. */
  ghost predicate Extends(s: Session, r: Session) {
    && r.currentline == s.currentline
    && |s.out| <= |r.out| && r.out[..|s.out|] == s.out
    && (forall i :: |s.out| <= i < |r.out| ==> !r.out[i].Resend?)
    && |s.events| <= |r.events| && r.events[..|s.events|] == s.events
  }

  predicate NoUploadEnd(toks: seq<string>) {
    forall i :: 0 <= i < |toks| ==> !HasPrefix(toks[i], "M29")
  }

  /** Every write of the tokens, the first being the k-th of the line,
      succeeds in full, and so does every reopen. */
  predicate WritesSucceed(o: Oracles, toks: seq<string>, k: nat) {
    forall i :: 0 <= i < |toks| ==> o.env(k + i).written >= |toks[i]| + 1 && o.env(k + i).reopenOk
  }

  lemma WritesSucceedTail(o: Oracles, toks: seq<string>, k: nat)
    requires toks != [] && WritesSucceed(o, toks, k)
    ensures o.env(k).written >= |toks[0]| + 1 && o.env(k).reopenOk
    ensures WritesSucceed(o, toks[1..], k + 1)
  {
    assert o.env(k + 0) == o.env(k);
    forall i | 0 <= i < |toks[1..]|
      ensures o.env(k + 1 + i).written >= |toks[1..][i]| + 1 && o.env(k + 1 + i).reopenOk
    {
      assert toks[1..][i] == toks[i + 1];
      assert k + 1 + i == k + (i + 1);
    }
  }

  lemma NoUploadEndTail(toks: seq<string>)
    requires toks != [] && NoUploadEnd(toks)
    ensures !HasPrefix(toks[0], "M29") && NoUploadEnd(toks[1..])
  {
    forall i | 0 <= i < |toks[1..]| ensures toks[1..][i] == toks[i + 1] { }
  }

  lemma {:induction false} NamesFitConcat(o: Oracles, a: seq<string>, b: seq<string>)
    ensures UploadNamesFit(o, a + b) <==> UploadNamesFit(o, a) && UploadNamesFit(o, b)
    decreases |a|
  {
    if a == [] {
      assert a + b == b;
    } else {
      assert (a + b)[0] == a[0] && (a + b)[1..] == a[1..] + b;
      NamesFitConcat(o, a[1..], b);
    }
  }

  // ----- tokens -----

  lemma ProcessTokenExtends(c: Config, s: Session, tok: string, f: GcodeFields, e: TokenEnv)
    requires !s.uploading && IsM(f, 28) ==> |tok| >= 4
    ensures Extends(s, ProcessToken(c, s, tok, f, e))
  {
    var r := ProcessToken(c, s, tok, f, e);
    if s.uploading {
      assert r == UploadStep(s, tok, e);
      ExtendsByOne(s, r);
    } else if IsM(f, 503) || !(IsM(f, 28) || IsM(f, 500) || IsM(f, 501)) {
      PublishExtends(c, s, tok, f, e);
    } else {
      ExtendsByOne(s, r);
    }
  }

  /** A step that adds one response, not a resend request, and some events. */
  lemma ExtendsByOne(s: Session, r: Session)
    requires r.currentline == s.currentline && |r.out| == |s.out| + 1 && r.out[..|s.out|] == s.out
    requires !r.out[|s.out|].Resend?
    requires |s.events| <= |r.events| && r.events[..|s.events|] == s.events
    ensures Extends(s, r)
  {
  }

  lemma PublishExtends(c: Config, s: Session, tok: string, f: GcodeFields, e: TokenEnv)
    requires !s.uploading && !IsM(f, 28) && !IsM(f, 500) && !IsM(f, 501)
    ensures Extends(s, DispatchStep(c, s, tok, f, e))
  {
    var status: seq<Response> :=
      if IsM(f, 503) then [if e.overridePresent then OverridePresent(c.overridePath) else NoOverride] else [];
    var more := status + (if e.addNl then [Newline] else []) + [Acknowledgement(c, e)];
    var r := DispatchStep(c, s, tok, f, e);
    assert r.out == s.out + more;
    assert r.events == s.events + [GcodeReceived(tok, Console)];
    assert forall i :: 0 <= i < |more| ==> !more[i].Resend?;
    assert forall i :: |s.out| <= i < |r.out| ==> r.out[i] == more[i - |s.out|];
  }

  lemma {:induction false} ProcessTokensExtends(c: Config, o: Oracles, s: Session, toks: seq<string>, k: nat)
    requires UploadNamesFit(o, toks)
    ensures Extends(s, ProcessTokens(c, o, s, toks, k))
    decreases |toks|
  {
    if toks != [] {
      var s1 := ProcessToken(c, s, toks[0], o.parse(toks[0]), o.env(k));
      ProcessTokenExtends(c, s, toks[0], o.parse(toks[0]), o.env(k));
      ProcessTokensExtends(c, o, s1, toks[1..], k + 1);
      var r := ProcessTokens(c, o, s1, toks[1..], k + 1);
      assert r.out[..|s1.out|][..|s.out|] == r.out[..|s.out|];
      assert r.events[..|s1.events|][..|s.events|] == r.events[..|s.events|];
      forall i | |s.out| <= i < |r.out|
        ensures !r.out[i].Resend?
      {
        if i < |s1.out| {
          assert r.out[i] == r.out[..|s1.out|][i];
        }
      }
    }
  }

  /** A token keeps the byte counter within the threshold and never leaves a
      handle open outside an upload or on a file it has not created. */
  lemma ProcessTokenPreservesInvariant(c: Config, s: Session, tok: string, f: GcodeFields, e: TokenEnv)
    requires SessionInvariant(s)
    requires !s.uploading && IsM(f, 28) ==> |tok| >= 4
    ensures SessionInvariant(ProcessToken(c, s, tok, f, e))
  {
  }

  lemma {:induction false} ProcessTokensPreservesInvariant(c: Config, o: Oracles, s: Session, toks: seq<string>, k: nat)
    requires SessionInvariant(s)
    requires UploadNamesFit(o, toks)
    ensures SessionInvariant(ProcessTokens(c, o, s, toks, k))
    decreases |toks|
  {
    if toks != [] {
      ProcessTokenPreservesInvariant(c, s, toks[0], o.parse(toks[0]), o.env(k));
      ProcessTokensPreservesInvariant(c, o, ProcessToken(c, s, toks[0], o.parse(toks[0]), o.env(k)), toks[1..], k + 1);
    }
  }

  lemma ReceiveLinePreservesInvariant(c: Config, o: Oracles, s: Session, line: string)
    requires SessionInvariant(s) && WellFormed(o, s.currentline, line)
    ensures SessionInvariant(ReceiveLine(c, o, s, line))
  {
    if FirstChar(line) !in {'G', 'M', 'T', 'N'} {
      ReceiveLineUnframed(c, o, s, line);
    } else if SetsLineNumber(o, line) {
      ReceiveLineSetsLineNumber(c, o, s, line);
    } else if Accepted(o, s.currentline, line) {
      ReceiveLineAccepted(c, o, s, line);
      ProcessTokensPreservesInvariant(c, o, Advance(s, line), SplitCommands(Body(line)), 0);
    } else {
      ReceiveLineRejected(c, o, s, line);
    }
  }

  // ----- lines -----

  /** The sequence rule for a numbered line that is not M110: it is
      processed exactly when its checksum passes and it carries the next
      line number; processing advances the line number by one, rejection
      changes nothing but asking for the next line again. */
  lemma NumberedLineOutcome(c: Config, o: Oracles, s: Session, line: string)
    requires WellFormed(o, s.currentline, line)
    requires Numbered(line) && !SetsLineNumber(o, line)
    ensures var r := ReceiveLine(c, o, s, line);
      && (r.currentline == s.currentline + 1 <==> Accepted(o, s.currentline, line))
      && (r.out == s.out + [Resend(s.currentline + 1)] <==> !Accepted(o, s.currentline, line))
      && (!Accepted(o, s.currentline, line) ==> r == s.(out := s.out + [Resend(s.currentline + 1)]))
  {
    assert Validated(o, line);
    if Accepted(o, s.currentline, line) {
      NumberedLineProcessed(c, o, s, line);
    } else {
      ReceiveLineRejected(c, o, s, line);
    }
  }

  /** An accepted numbered line advances the line number and asks for no
      resend. */
  lemma NumberedLineProcessed(c: Config, o: Oracles, s: Session, line: string)
    requires WellFormed(o, s.currentline, line) && Validated(o, line) && Numbered(line) && Accepted(o, s.currentline, line)
    ensures ReceiveLine(c, o, s, line).currentline == s.currentline + 1
    ensures ReceiveLine(c, o, s, line).out != s.out + [Resend(s.currentline + 1)]
  {
    ReceiveLineAccepted(c, o, s, line);
    var s1 := Advance(s, line);
    var toks := SplitCommands(Body(line));
    var r := ProcessTokens(c, o, s1, toks, 0);
    ProcessTokensExtends(c, o, s1, toks, 0);
    if |r.out| > |s.out| {
      assert !r.out[|s.out|].Resend?;
      assert (s.out + [Resend(s.currentline + 1)])[|s.out|].Resend?;
    }
  }

  /** A line starting with G, M or T is always processed and keeps the line
      number; its tokens are the comment-stripped line split at the command
      letters. */
  lemma UnnumberedLineAccepted(c: Config, o: Oracles, s: Session, line: string)
    requires WellFormed(o, s.currentline, line)
    requires FirstChar(line) in {'G', 'M', 'T'}
    ensures var r := ReceiveLine(c, o, s, line);
      && r == ProcessTokens(c, o, s, SplitCommands(StripComment(line)), 0)
      && Extends(s, r)
  {
    ProcessTokensExtends(c, o, s, SplitCommands(StripComment(line)), 0);
  }

  /** A comment-only line yields no token and one acknowledgement. */
  lemma CommentOnlyLine(c: Config, o: Oracles, s: Session)
    ensures SplitCommands(StripComment("; hello")) == []
    ensures ReceiveLine(c, o, s, "; hello") == s.(out := s.out + [Ok])
  {
    assert FindFirst("; hello", CommentChars, true, 0) == Some(0);
  }

  /** The body of a numbered line starts past its line-number prefix and
      holds no comment. */
  lemma NumberedBodyStripped(line: string)
    requires Numbered(line) && HasCommandText(BeforeStar(line))
    ensures var b := Body(line);
      && (b != [] ==> b[0] !in LineNumberChars)
      && (forall j :: 0 <= j < |b| ==> b[j] != ';' && b[j] != '(')
      && HasPrefix(StripLineNumber(BeforeStar(line)), b)
  {
    StripLineNumberSpec(BeforeStar(line));
    StripCommentSpec(StripLineNumber(BeforeStar(line)));
  }

  /** The resend request names the next expected line, readable back as a
      number. */
  lemma ResendNamesLine(n: int)
    ensures var text := Render(Resend(n));
      && |text| > 6 && text[..4] == "rs N" && text[|text| - 2..] == "\r\n"
      && Decimal.ParseInt(text[4..|text| - 2]) == n
  {
    var digits := Decimal.IntToString(n);
    var text := Render(Resend(n));
    assert text == "rs N" + digits + "\r\n";
    assert text[4..|text| - 2] == digits;
    Decimal.IntToStringRoundTrip(n);
  }

  // ----- responses -----

  lemma {:induction false} CountAcksAppend(a: seq<Response>, b: seq<Response>)
    ensures CountAcks(a + b) == CountAcks(a) + CountAcks(b)
    decreases |b|
  {
    if b == [] {
      assert a + b == a;
    } else {
      assert (a + b)[..|a + b| - 1] == a + b[..|b| - 1];
      assert (a + b)[|a + b| - 1] == b[|b| - 1];
      CountAcksAppend(a, b[..|b| - 1]);
    }
  }

  lemma CountAcksSingle(x: Response)
    ensures CountAcks([x]) == if IsAck(x) then 1 else 0
  {
    assert [x][..0] == [];
  }

  /** The acknowledgement text, by priority: the unclaimed diagnostic, then
      the consumer's text, then a bare ok. */
  lemma AcknowledgementText(c: Config, e: TokenEnv)
    ensures var text := Render(Acknowledgement(c, e));
      text == if c.returnErrorOnUnhandled && !e.accepted then "ok (command unclaimed)\r\n"
              else if e.txtAfterOk != [] then "ok " + e.txtAfterOk + "\r\n"
              else "ok\r\n"
  {
  }

  /** Generic dispatch acknowledges exactly once; a blank line or an M503
      status line before the ack is not an ack. */
  lemma PublishAcksOnce(c: Config, s: Session, tok: string, e: TokenEnv)
    ensures CountAcks(Publish(c, s, tok, e).out) == CountAcks(s.out) + 1
  {
    var nl: seq<Response> := if e.addNl then [Newline] else [];
    assert CountAcks(nl) == 0 by {
      if nl != [] { CountAcksSingle(nl[0]); }
    }
    CountAcksSingle(Acknowledgement(c, e));
    CountAcksAppend(s.out, nl);
    CountAcksAppend(s.out + nl, [Acknowledgement(c, e)]);
  }

  /** Outside an upload every token but M28 is acknowledged exactly once;
      the replies to M28 carry no ok. */
  lemma OneAckOutsideUpload(c: Config, s: Session, tok: string, f: GcodeFields, e: TokenEnv)
    requires !s.uploading && (IsM(f, 28) ==> |tok| >= 4)
    ensures var r := ProcessToken(c, s, tok, f, e);
      CountAcks(r.out) == CountAcks(s.out) + (if IsM(f, 28) then 0 else 1)
  {
    assert ProcessToken(c, s, tok, f, e) == DispatchStep(c, s, tok, f, e);
    if IsM(f, 28) {
      OpenAcksNone(c, s, tok, f, e);
    } else if IsM(f, 500) || IsM(f, 501) {
      OverrideAcksOnce(c, s, tok, f, e);
    } else {
      DispatchPublishAcksOnce(c, s, tok, f, e);
    }
  }

  lemma OpenAcksNone(c: Config, s: Session, tok: string, f: GcodeFields, e: TokenEnv)
    requires IsM(f, 28) && |tok| >= 4
    ensures CountAcks(DispatchStep(c, s, tok, f, e).out) == CountAcks(s.out)
  {
    var path := "/sd/" + tok[4..];
    var x := if e.openOk then WritingToFile(path) else OpenFailed(path);
    assert DispatchStep(c, s, tok, f, e) == OpenUpload(s, path, e);
    assert OpenUpload(s, path, e).out == s.out + [x];
    CountAcksSingle(x);
    CountAcksAppend(s.out, [x]);
  }

  lemma DispatchPublishAcksOnce(c: Config, s: Session, tok: string, f: GcodeFields, e: TokenEnv)
    requires !IsM(f, 28) && !IsM(f, 500) && !IsM(f, 501)
    ensures CountAcks(DispatchStep(c, s, tok, f, e).out) == CountAcks(s.out) + 1
  {
    var r := DispatchStep(c, s, tok, f, e);
    if IsM(f, 503) {
      var x := if e.overridePresent then OverridePresent(c.overridePath) else NoOverride;
      var s1 := s.(out := s.out + [x]);
      assert r == Publish(c, s1, tok, e);
      CountAcksSingle(x);
      CountAcksAppend(s.out, [x]);
      PublishAcksOnce(c, s1, tok, e);
    } else {
      assert r == Publish(c, s, tok, e);
      PublishAcksOnce(c, s, tok, e);
    }
  }

  lemma OverrideAcksOnce(c: Config, s: Session, tok: string, f: GcodeFields, e: TokenEnv)
    requires !IsM(f, 28) && (IsM(f, 500) || IsM(f, 501))
    ensures CountAcks(DispatchStep(c, s, tok, f, e).out) == CountAcks(s.out) + 1
  {
    var x := if IsM(f, 500) then SettingsStored(c.overridePath) else OverrideDeleted(c.overridePath);
    assert DispatchStep(c, s, tok, f, e).out == s.out + [x];
    CountAcksSingle(x);
    CountAcksAppend(s.out, [x]);
  }

  /** During an upload every token is acknowledged exactly once, except M29
      and a token whose write fails. */
  lemma OneAckDuringUpload(c: Config, s: Session, tok: string, f: GcodeFields, e: TokenEnv)
    requires s.uploading
    ensures var r := ProcessToken(c, s, tok, f, e);
      CountAcks(r.out) == CountAcks(s.out) +
        (if HasPrefix(tok, "M29") || (s.uploadOpen && e.written < |tok| + 1) then 0 else 1)
  {
    var r := UploadStep(s, tok, e);
    assert ProcessToken(c, s, tok, f, e) == r;
    var x: Response;
    if HasPrefix(tok, "M29") {
      x := DoneSaving;
    } else if !s.uploadOpen {
      x := Ok;
    } else {
      WriteTokenOut(s, tok + "\n", e);
      x := if e.written < |tok| + 1 then WriteError else Ok;
    }
    assert r.out == s.out + [x];
    CountAcksSingle(x);
    CountAcksAppend(s.out, [x]);
  }

  /** A write adds one response: the error when it is short, `ok` otherwise. */
  lemma WriteTokenOut(s: Session, data: string, e: TokenEnv)
    ensures WriteToken(s, data, e).out == s.out + [if e.written < |data| then WriteError else Ok]
  {
  }

  /** A token outside an upload that is not M28, M500 or M501 is published
      once, on the console; M503 first reports whether an override exists. */
  lemma PublishedToken(c: Config, s: Session, tok: string, f: GcodeFields, e: TokenEnv)
    requires !s.uploading && !IsM(f, 28) && !IsM(f, 500) && !IsM(f, 501)
    ensures ProcessToken(c, s, tok, f, e)
      == s.(events := s.events + [GcodeReceived(tok, Console)],
            out := s.out
              + (if IsM(f, 503) then [if e.overridePresent then OverridePresent(c.overridePath) else NoOverride] else [])
              + (if e.addNl then [Newline] else [])
              + [Acknowledgement(c, e)])
  {
  }

  /** M500 removes the override, publishes the command into a fresh override
      file and reports it; M501 only removes the override. Neither is
      published on the console. */
  lemma OverrideCommands(c: Config, s: Session, tok: string, f: GcodeFields, e: TokenEnv)
    requires !s.uploading
    ensures IsM(f, 500) ==>
              ProcessToken(c, s, tok, f, e)
              == s.(events := s.events + [OverrideRemoved, GcodeReceived(tok, OverrideFile)],
                    out := s.out + [SettingsStored(c.overridePath)])
    ensures IsM(f, 501) ==>
              ProcessToken(c, s, tok, f, e)
              == s.(events := s.events + [OverrideRemoved], out := s.out + [OverrideDeleted(c.overridePath)])
  {
  }

  // ----- upload -----

  /** M28 outside an upload opens "/sd/" plus the rest of the token:
      on success the session uploads into an emptied file; on failure it
      stays idle.  Either way the reply carries no ok. */
  lemma StartUpload(c: Config, s: Session, tok: string, f: GcodeFields, e: TokenEnv)
    requires !s.uploading && IsM(f, 28) && |tok| >= 4
    ensures var r := ProcessToken(c, s, tok, f, e);
      var path := "/sd/" + tok[4..];
      && r.uploadFilename == path
      && (e.openOk ==> r.uploading && r.uploadOpen && r.files == s.files[path := []] && r.out == s.out + [WritingToFile(path)])
      && (!e.openOk ==> !r.uploading && !r.uploadOpen && r.files == s.files && r.out == s.out + [OpenFailed(path)])
      && r.events == s.events
  {
  }

  /** M29 during an upload closes it, clears the name and is never written. */
  lemma EndUpload(c: Config, s: Session, tok: string, f: GcodeFields, e: TokenEnv)
    requires s.uploading && HasPrefix(tok, "M29")
    ensures ProcessToken(c, s, tok, f, e)
      == s.(uploading := false, uploadOpen := false, uploadFilename := [], out := s.out + [DoneSaving])
  {
  }

  /** One written token: its bytes and a newline land at the end of the
      file; past the threshold the handle is reopened for append and the
      counter restarts, the contents being the same either way. */
  lemma WriteOneToken(c: Config, s: Session, tok: string, f: GcodeFields, e: TokenEnv)
    requires s.uploading && s.uploadOpen && s.uploadFilename in s.files && !HasPrefix(tok, "M29")
    requires e.written >= |tok| + 1
    ensures var r := ProcessToken(c, s, tok, f, e);
      && r.files == s.files[s.uploadFilename := s.files[s.uploadFilename] + tok + "\n"]
      && r.out == s.out + [Ok]
      && (s.cnt + |tok| + 1 > ReopenThreshold ==> r.cnt == 0 && r.uploadOpen == e.reopenOk)
      && (s.cnt + |tok| + 1 <= ReopenThreshold ==> r.cnt == s.cnt + |tok| + 1 && r.uploadOpen)
      && r.uploading && r.uploadFilename == s.uploadFilename
  {
    var name := s.uploadFilename;
    assert (tok + "\n")[..|tok| + 1] == tok + "\n";
    assert s.files[name] + (tok + "\n") == s.files[name] + tok + "\n";
    assert ProcessToken(c, s, tok, f, e) == WriteToken(s, tok + "\n", e);
  }

  /** A failed write reports the error and drops the handle; the session
      keeps uploading, and the file keeps what fwrite managed to write. */
  lemma WriteFailureDegrades(c: Config, s: Session, tok: string, f: GcodeFields, e: TokenEnv)
    requires s.uploading && s.uploadOpen && s.uploadFilename in s.files && !HasPrefix(tok, "M29")
    requires e.written < |tok| + 1
    ensures var r := ProcessToken(c, s, tok, f, e);
      && r.uploading && !r.uploadOpen
      && r.out == s.out + [WriteError]
      && r.files == s.files[s.uploadFilename := s.files[s.uploadFilename] + (tok + "\n")[..e.written]]
  {
    var data := tok + "\n";
    assert ProcessToken(c, s, tok, f, e) == WriteToken(s, data, e);
  }

  /** With the handle dropped, every token up to M29 is acknowledged and
      discarded. */
  lemma {:induction false} DegradedUploadDiscards(c: Config, o: Oracles, s: Session, toks: seq<string>, k: nat)
    requires s.uploading && !s.uploadOpen && NoUploadEnd(toks) && UploadNamesFit(o, toks)
    ensures ProcessTokens(c, o, s, toks, k) == s.(out := s.out + Oks(|toks|))
    decreases |toks|
  {
    if toks == [] {
      assert s.out + Oks(0) == s.out;
    } else {
      var s1 := s.(out := s.out + [Ok]);
      NoUploadEndTail(toks);
      DegradedUploadDiscards(c, o, s1, toks[1..], k + 1);
      assert s.out + [Ok] + Oks(|toks| - 1) == s.out + Oks(|toks|);
    }
  }

  /** Writes that succeed append every token with its newline, in order,
      whatever the byte counter and however often the handle is refreshed. */
  lemma {:induction false} UploadAppends(c: Config, o: Oracles, s: Session, toks: seq<string>, k: nat)
    requires s.uploading && s.uploadOpen && s.uploadFilename in s.files && NoUploadEnd(toks) && UploadNamesFit(o, toks)
    requires WritesSucceed(o, toks, k)
    ensures var r := ProcessTokens(c, o, s, toks, k);
      && r == s.(files := s.files[s.uploadFilename := s.files[s.uploadFilename] + Lines(toks)],
                 cnt := r.cnt, out := s.out + Oks(|toks|))
    decreases |toks|
  {
    var name := s.uploadFilename;
    if toks == [] {
      assert s.files[name] + Lines(toks) == s.files[name];
      assert s.files[name := s.files[name] + Lines(toks)] == s.files;
      assert s.out + Oks(0) == s.out;
    } else {
      var e := o.env(k);
      WritesSucceedTail(o, toks, k);
      var s1 := ProcessToken(c, s, toks[0], o.parse(toks[0]), e);
      WriteOneToken(c, s, toks[0], o.parse(toks[0]), e);
      NoUploadEndTail(toks);
      assert s1.uploading && s1.uploadOpen && s1.uploadFilename == name && name in s1.files;
      ProcessTokensFirst(c, o, s, toks, k);
      UploadAppends(c, o, s1, toks[1..], k + 1);
      LinesFirst(s.files[name], toks);
      OksFirst(s.out, |toks|);
    }
  }

  lemma LinesFirst(prefix: string, toks: seq<string>)
    requires toks != []
    ensures prefix + Lines(toks) == prefix + toks[0] + "\n" + Lines(toks[1..])
  {
  }

  lemma OksFirst(rs: seq<Response>, n: nat)
    requires n > 0
    ensures rs + [Ok] + Oks(n - 1) == rs + Oks(n)
  {
    assert rs + [Ok] + Oks(n - 1) == rs + ([Ok] + Oks(n - 1));
  }

  /** The upload round trip within a line: M28 that opens, then tokens that
      are written without failure, then M29.  The destination holds exactly
      the tokens, each with its newline; the session is idle again; the
      replies are the open notice, one ok per token and the done notice;
      nothing is published. */
  lemma UploadRoundTrip(c: Config, o: Oracles, s: Session, open: string, data: seq<string>, close: string, k: nat)
    requires !s.uploading && IsM(o.parse(open), 28) && |open| >= 4 && o.env(k).openOk
    requires NoUploadEnd(data) && HasPrefix(close, "M29")
    requires UploadNamesFit(o, [open] + data + [close])
    requires WritesSucceed(o, data, k + 1)
    ensures var path := "/sd/" + open[4..];
      var r := ProcessTokens(c, o, s, [open] + data + [close], k);
      && path in r.files && r.files[path] == Lines(data)
      && !r.uploading && !r.uploadOpen && r.uploadFilename == []
      && r.out == s.out + [WritingToFile(path)] + Oks(|data|) + [DoneSaving]
      && r.events == s.events && r.currentline == s.currentline
  {
    var path := "/sd/" + open[4..];
    var rest := data + [close];
    assert [open] + data + [close] == [open] + rest;
    NamesFitConcat(o, [open], rest);
    NamesFitConcat(o, data, [close]);
    ProcessTokensSplit(c, o, s, [open], rest, k);
    var s1 := s.(uploadFilename := path, uploadOpen := true, uploading := true,
                 files := s.files[path := []], out := s.out + [WritingToFile(path)]);
    OpenRun(c, o, s, open, k);
    ProcessTokensSplit(c, o, s1, data, [close], k + 1);
    WriteAfterOpen(c, o, s1, data, k + 1);
    var s2 := ProcessTokens(c, o, s1, data, k + 1);
    CloseRun(c, o, s2, close, k + 1 + |data|);
  }

  /** An M28 run whose file opens. */
  lemma OpenRun(c: Config, o: Oracles, s: Session, open: string, k: nat)
    requires !s.uploading && IsM(o.parse(open), 28) && |open| >= 4 && o.env(k).openOk
    ensures UploadNamesFit(o, [open])
    ensures var path := "/sd/" + open[4..];
      ProcessTokens(c, o, s, [open], k)
      == s.(uploadFilename := path, uploadOpen := true, uploading := true,
            files := s.files[path := []], out := s.out + [WritingToFile(path)])
  {
    ProcessTokensSingle(c, o, s, open, k);
    OpenStep(c, s, open, o.parse(open), o.env(k));
  }

  /** An M29 run during an upload. */
  lemma CloseRun(c: Config, o: Oracles, s: Session, close: string, k: nat)
    requires s.uploading && HasPrefix(close, "M29") && UploadNamesFit(o, [close])
    ensures ProcessTokens(c, o, s, [close], k)
      == s.(uploading := false, uploadOpen := false, uploadFilename := [], out := s.out + [DoneSaving])
  {
    assert [close][0] == close;
    ProcessTokensSingle(c, o, s, close, k);
    EndUpload(c, s, close, o.parse(close), o.env(k));
  }

  // ----- uploads across lines -----

  /** Each numbered line has text after its line-number prefix. */
  ghost predicate Framed(lines: seq<string>) {
    forall i :: 0 <= i < |lines| && Numbered(lines[i]) ==> HasCommandText(BeforeStar(lines[i]))
  }

  /** What an upload writes for its body lines: every token of every line,
      each with its newline, line after line. */
  ghost function UploadedText(lines: seq<string>): string
    requires Framed(lines)
    decreases |lines|
  {
    if lines == [] then []
    else
      assert forall i :: 0 <= i < |lines| - 1 ==> lines[1..][i] == lines[i + 1];
      Lines(SplitCommands(Body(lines[0]))) + UploadedText(lines[1..])
  }

  /** The last line number once every line is accepted in turn. */
  function LineAfter(currentline: int, lines: seq<string>): int
    decreases |lines|
  {
    if lines == [] then currentline else LineAfter(NextLine(currentline, lines[0]), lines[1..])
  }

  /** The body lines of an upload, the first arriving after line number
      `currentline`: each is validated and accepted in turn, none of its
      tokens starts with M29, and every one of its writes succeeds. */
  ghost predicate UploadBody(os: seq<Oracles>, currentline: int, lines: seq<string>)
    requires |os| == |lines|
    decreases |lines|
  {
    lines == [] ||
    (&& Validated(os[0], lines[0])
     && WellFormed(os[0], currentline, lines[0])
     && Accepted(os[0], currentline, lines[0])
     && NoUploadEnd(SplitCommands(Body(lines[0])))
     && WritesSucceed(os[0], SplitCommands(Body(lines[0])), 0)
     && UploadBody(os[1..], NextLine(currentline, lines[0]), lines[1..]))
  }

  /** Body lines received during an open upload append every token of
      every line to the destination, in order, and keep the upload open. */
  lemma {:induction false} UploadBodyAppends(c: Config, os: seq<Oracles>, s: Session, lines: seq<string>)
    requires |os| == |lines|
    requires s.uploading && s.uploadOpen && s.uploadFilename in s.files
    requires UploadBody(os, s.currentline, lines)
    ensures Framed(lines) && LinesWellFormed(c, os, s, lines)
    ensures var r := ReceiveLines(c, os, s, lines);
      r == s.(files := s.files[s.uploadFilename := s.files[s.uploadFilename] + UploadedText(lines)],
              currentline := LineAfter(s.currentline, lines), cnt := r.cnt, out := r.out)
    decreases |lines|
  {
    var name := s.uploadFilename;
    if lines == [] {
      assert s.files[name] + [] == s.files[name];
      assert s.files[name := s.files[name]] == s.files;
    } else {
      var r1 := UploadBodyHead(c, os, s, lines);
      UploadBodyAppends(c, os[1..], r1, lines[1..]);
      ReceiveLinesCons(c, os, s, lines);
      FramedCons(lines);
      UploadedTextCons(s.files, name, lines);
    }
  }

  /** The first body line, received during an open upload, leaves the
      session `r1` in which the rest of the body arrives. */
  lemma UploadBodyHead(c: Config, os: seq<Oracles>, s: Session, lines: seq<string>) returns (r1: Session)
    requires |os| == |lines| && lines != []
    requires s.uploading && s.uploadOpen && s.uploadFilename in s.files
    requires UploadBody(os, s.currentline, lines)
    ensures WellFormed(os[0], s.currentline, lines[0])
    ensures Numbered(lines[0]) ==> HasCommandText(BeforeStar(lines[0]))
    ensures r1 == ReceiveLine(c, os[0], s, lines[0])
    ensures var name := s.uploadFilename;
      r1 == s.(files := s.files[name := s.files[name] + Lines(SplitCommands(Body(lines[0])))],
               currentline := NextLine(s.currentline, lines[0]), cnt := r1.cnt, out := r1.out)
    ensures UploadBody(os[1..], r1.currentline, lines[1..])
  {
    UploadLineAppends(c, os[0], s, lines[0]);
    r1 := ReceiveLine(c, os[0], s, lines[0]);
  }

  /** A stream is its first line, then the rest. */
  lemma ReceiveLinesCons(c: Config, os: seq<Oracles>, s: Session, lines: seq<string>)
    requires |os| == |lines| && lines != []
    requires WellFormed(os[0], s.currentline, lines[0])
    requires LinesWellFormed(c, os[1..], ReceiveLine(c, os[0], s, lines[0]), lines[1..])
    ensures LinesWellFormed(c, os, s, lines)
    ensures ReceiveLines(c, os, s, lines) == ReceiveLines(c, os[1..], ReceiveLine(c, os[0], s, lines[0]), lines[1..])
  {
  }

  /** Appending the first line's text, then the rest's, appends the whole. */
  lemma UploadedTextCons(files: map<string, string>, name: string, lines: seq<string>)
    requires name in files && lines != [] && Framed(lines)
    requires Numbered(lines[0]) ==> HasCommandText(BeforeStar(lines[0]))
    ensures Framed(lines[1..])
    ensures var first := files[name] + Lines(SplitCommands(Body(lines[0])));
      files[name := first][name := first + UploadedText(lines[1..])]
      == files[name := files[name] + UploadedText(lines)]
  {
    assert forall i :: 0 <= i < |lines| - 1 ==> lines[1..][i] == lines[i + 1];
    var toks := SplitCommands(Body(lines[0]));
    var first := files[name] + Lines(toks);
    var tail := UploadedText(lines[1..]);
    assert UploadedText(lines) == Lines(toks) + tail;
    AppendAssoc(files[name], Lines(toks), tail);
    MapUpdateTwice(files, name, first, first + tail);
  }

  lemma AppendAssoc(a: string, b: string, c: string)
    ensures (a + b) + c == a + (b + c)
  {
  }

  lemma MapUpdateTwice(m: map<string, string>, k: string, a: string, b: string)
    ensures m[k := a][k := b] == m[k := b]
  {
  }

  /** One body line received during an open upload appends each of its
      tokens with its newline and keeps the upload open. */
  lemma UploadLineAppends(c: Config, o: Oracles, s: Session, line: string)
    requires s.uploading && s.uploadOpen && s.uploadFilename in s.files
    requires Validated(o, line) && WellFormed(o, s.currentline, line) && Accepted(o, s.currentline, line)
    requires NoUploadEnd(SplitCommands(Body(line))) && WritesSucceed(o, SplitCommands(Body(line)), 0)
    ensures var r := ReceiveLine(c, o, s, line);
      var name := s.uploadFilename;
      r == s.(files := s.files[name := s.files[name] + Lines(SplitCommands(Body(line)))],
              currentline := NextLine(s.currentline, line), cnt := r.cnt, out := r.out)
  {
    ReceiveLineAccepted(c, o, s, line);
    UploadAppends(c, o, Advance(s, line), SplitCommands(Body(line)), 0);
  }

  lemma FramedCons(lines: seq<string>)
    requires lines != [] && (Numbered(lines[0]) ==> HasCommandText(BeforeStar(lines[0])))
    requires Framed(lines[1..])
    ensures Framed(lines)
  {
    forall i | 0 < i < |lines| ensures lines[i] == lines[1..][i - 1] { }
  }

  /** A one-line stream is that line. */
  lemma ReceiveLinesSingle(c: Config, o: Oracles, s: Session, line: string)
    ensures LinesWellFormed(c, [o], s, [line]) <==> WellFormed(o, s.currentline, line)
    ensures WellFormed(o, s.currentline, line) ==> ReceiveLines(c, [o], s, [line]) == ReceiveLine(c, o, s, line)
  {
    assert [o][1..] == [] && [line][1..] == [];
  }

  /** Receiving a stream in two parts. */
  lemma {:induction false} ReceiveLinesSplit(c: Config, oa: seq<Oracles>, ob: seq<Oracles>, s: Session, a: seq<string>, b: seq<string>)
    requires |oa| == |a| && |ob| == |b|
    ensures LinesWellFormed(c, oa + ob, s, a + b)
        <==> LinesWellFormed(c, oa, s, a) && LinesWellFormed(c, ob, ReceiveLines(c, oa, s, a), b)
    ensures LinesWellFormed(c, oa + ob, s, a + b)
        ==> ReceiveLines(c, oa + ob, s, a + b) == ReceiveLines(c, ob, ReceiveLines(c, oa, s, a), b)
    decreases |a|
  {
    if a == [] {
      assert a + b == b && oa + ob == ob;
    } else {
      assert (a + b)[0] == a[0] && (a + b)[1..] == a[1..] + b;
      assert (oa + ob)[0] == oa[0] && (oa + ob)[1..] == oa[1..] + ob;
      if WellFormed(oa[0], s.currentline, a[0]) {
        ReceiveLinesSplit(c, oa[1..], ob, ReceiveLine(c, oa[0], s, a[0]), a[1..], b);
      }
    }
  }

  /** The upload round trip across lines: a line holding just an M28 whose
      file opens, body lines whose writes all succeed, then a line holding
      just M29.  The destination, and no other file, ends up holding every
      token of the body lines with its newline, line after line; the
      session is idle again, the line number has moved on with the lines,
      and nothing was published. */
  lemma UploadAcrossLines(c: Config, s: Session,
                          oOpen: Oracles, openLine: string, open: string,
                          os: seq<Oracles>, lines: seq<string>,
                          oClose: Oracles, closeLine: string, close: string)
    requires !s.uploading
    requires Validated(oOpen, openLine) && WellFormed(oOpen, s.currentline, openLine)
    requires Accepted(oOpen, s.currentline, openLine)
    requires SplitCommands(Body(openLine)) == [open] && IsM(oOpen.parse(open), 28) && oOpen.env(0).openOk
    requires |os| == |lines| && UploadBody(os, NextLine(s.currentline, openLine), lines)
    requires var n := LineAfter(NextLine(s.currentline, openLine), lines);
      && Validated(oClose, closeLine) && WellFormed(oClose, n, closeLine) && Accepted(oClose, n, closeLine)
      && SplitCommands(Body(closeLine)) == [close] && HasPrefix(close, "M29")
    ensures |open| >= 4 && Framed(lines)
    ensures LinesWellFormed(c, [oOpen] + os + [oClose], s, [openLine] + lines + [closeLine])
    ensures var r := ReceiveLines(c, [oOpen] + os + [oClose], s, [openLine] + lines + [closeLine]);
      var path := "/sd/" + open[4..];
      && r.files == s.files[path := UploadedText(lines)]
      && !r.uploading && !r.uploadOpen && r.uploadFilename == []
      && r.currentline == NextLine(LineAfter(NextLine(s.currentline, openLine), lines), closeLine)
      && r.events == s.events
  {
    ReceiveLineAccepted(c, oOpen, s, openLine);
    assert [open][0] == open;
    var path := "/sd/" + open[4..];
    var s0 := Advance(s, openLine);
    ProcessTokensSingle(c, oOpen, s0, open, 0);
    OpenStep(c, s0, open, oOpen.parse(open), oOpen.env(0));
    var s1 := ReceiveLine(c, oOpen, s, openLine);
    assert s1.files == s.files[path := []] && s1.uploadFilename == path;
    UploadBodyAppends(c, os, s1, lines);
    var s2 := ReceiveLines(c, os, s1, lines);
    assert s1.files[path] + UploadedText(lines) == UploadedText(lines);
    assert s2.files == s.files[path := UploadedText(lines)];
    ReceiveLineAccepted(c, oClose, s2, closeLine);
    assert [close][0] == close;
    var s3 := Advance(s2, closeLine);
    ProcessTokensSingle(c, oClose, s3, close, 0);
    EndUpload(c, s3, close, oClose.parse(close), oClose.env(0));
    ReceiveLinesSingle(c, oOpen, s, openLine);
    ReceiveLinesSplit(c, [oOpen], os, s, [openLine], lines);
    ReceiveLinesSingle(c, oClose, s2, closeLine);
    ReceiveLinesSplit(c, [oOpen] + os, [oClose], s, [openLine] + lines, [closeLine]);
  }

  /** M28 whose file opens starts an upload into an empty file. */
  lemma OpenStep(c: Config, s: Session, open: string, f: GcodeFields, e: TokenEnv)
    requires !s.uploading && IsM(f, 28) && |open| >= 4 && e.openOk
    ensures var path := "/sd/" + open[4..];
      ProcessToken(c, s, open, f, e)
      == s.(uploadFilename := path, uploadOpen := true, uploading := true,
            files := s.files[path := []], out := s.out + [WritingToFile(path)])
  {
  }

  /** Tokens written without failure into the file an M28 just opened. */
  lemma WriteAfterOpen(c: Config, o: Oracles, s1: Session, data: seq<string>, k: nat)
    requires s1.uploading && s1.uploadOpen && s1.uploadFilename in s1.files && s1.files[s1.uploadFilename] == []
    requires NoUploadEnd(data) && UploadNamesFit(o, data) && WritesSucceed(o, data, k)
    ensures var r := ProcessTokens(c, o, s1, data, k);
      && r.uploading && r.uploadOpen && r.uploadFilename == s1.uploadFilename
      && s1.uploadFilename in r.files && r.files[s1.uploadFilename] == Lines(data)
      && r.out == s1.out + Oks(|data|)
      && r.events == s1.events && r.currentline == s1.currentline
  {
    UploadAppends(c, o, s1, data, k);
    assert [] + Lines(data) == Lines(data);
  }

  lemma ProcessTokensSingle(c: Config, o: Oracles, s: Session, tok: string, k: nat)
    requires IsM(o.parse(tok), 28) ==> |tok| >= 4
    ensures UploadNamesFit(o, [tok])
    ensures ProcessTokens(c, o, s, [tok], k) == ProcessToken(c, s, tok, o.parse(tok), o.env(k))
  {
    assert [tok][0] == tok && [tok][1..] == [];
  }

  /** The first token of a non-empty run is processed first. */
  lemma ProcessTokensFirst(c: Config, o: Oracles, s: Session, toks: seq<string>, k: nat)
    requires toks != [] && UploadNamesFit(o, toks)
    ensures UploadNamesFit(o, toks[1..])
    ensures ProcessTokens(c, o, s, toks, k)
         == ProcessTokens(c, o, ProcessToken(c, s, toks[0], o.parse(toks[0]), o.env(k)), toks[1..], k + 1)
  {
  }

  /** Processing a run of tokens in two parts. */
  lemma {:induction false} ProcessTokensSplit(c: Config, o: Oracles, s: Session, a: seq<string>, b: seq<string>, k: nat)
    requires UploadNamesFit(o, a) && UploadNamesFit(o, b) && UploadNamesFit(o, a + b)
    ensures ProcessTokens(c, o, s, a + b, k) == ProcessTokens(c, o, ProcessTokens(c, o, s, a, k), b, k + |a|)
    decreases |a|
  {
    if a != [] {
      assert (a + b)[0] == a[0] && (a + b)[1..] == a[1..] + b;
      ProcessTokensSplit(c, o, ProcessToken(c, s, a[0], o.parse(a[0]), o.env(k)), a[1..], b, k + 1);
    } else {
      assert a + b == b;
    }
  }
}
