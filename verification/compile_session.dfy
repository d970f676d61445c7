/** One compile attempt, on the CompileDeployCard panel and on the legacy
    page (main.tsx): the request id, the guard on the target project, the
    upload of the project archive, the writes of the returned files and the
    log and error state each page ends in. The network is abstracted into
    its outcomes: whether the log channel opened (and what it delivered)
    and what the compile endpoint returned. */
module CompileSession {
  import opened Wrappers
  import opened JsStrings
  import opened JsBigInt
  import opened JsValues
  import opened Workspace
  import opened Archive
  import opened BuildLog

  // ---- Request ids ----

  /** The characters `/[-:]/g` removes from the ISO time. */
  const DateSeparators: set<char> := {'-', ':'}

  /** The characters `/[-:.]/g` removes from the ISO time. */
  const TimeSeparators: set<char> := {'-', ':', '.'}

  /** CompileDeployCard's id: `req_`, the ISO time with every `-`, `:` and
      `.` removed, `_`, then characters 2 to 8 of the random number's
      base-36 text. */
  function CardRequestId(isoTime: string, randomText: string): string {
    "req_" + RemoveAll(isoTime, TimeSeparators) + "_" + Substring(randomText, 2, 8)
  }

  /** The first position at or after `from` where `/\..+/` matches: a `.`
      followed by a character that is not a line terminator. */
  function FractionAt(s: string, from: nat): (r: Option<nat>)
    ensures r.Some? ==> from <= r.value && r.value + 1 < |s| && s[r.value] == '.'
                        && s[r.value + 1] !in LineTerminators
    ensures forall j :: from <= j && (r.None? || j < r.value) && j + 1 < |s| && s[j] == '.'
                        ==> s[j + 1] in LineTerminators
    decreases |s| - from
  {
    if from + 1 >= |s| then None
    else if s[from] == '.' && s[from + 1] !in LineTerminators then Some(from)
    else FractionAt(s, from + 1)
  }

  /** Where a greedy `.+` starting at `from` stops: the next line terminator. */
  function LineEnd(s: string, from: nat): (k: nat)
    requires from <= |s|
    ensures from <= k <= |s|
    ensures forall j :: from <= j < k ==> s[j] !in LineTerminators
    ensures k < |s| ==> s[k] in LineTerminators
    decreases |s| - from
  {
    if from == |s| || s[from] in LineTerminators then from else LineEnd(s, from + 1)
  }

  /** `s.replace(/\..+/, '')`. */
  function DropFraction(s: string): string {
    match FractionAt(s, 0)
    case None => s
    case Some(i) => s[..i] + s[LineEnd(s, i + 1)..]
  }

  /** The legacy page's id: the ISO time without `-` and `:` and without
      its fractional part, `_`, then characters 2 to 8 of the random
      number's base-36 text; no `req_` prefix. */
  function PageRequestId(isoTime: string, randomText: string): string {
    DropFraction(RemoveAll(isoTime, DateSeparators)) + "_" + Substring(randomText, 2, 8)
  }

  predicate IsBase36Digit(c: char) {
    ('0' <= c <= '9') || ('a' <= c <= 'z')
  }

  /** The random part: at most six base-36 digits, taken from the digits
      after `0.` of `Math.random().toString(36)`. */
  lemma RandomPart(digits: string)
    requires forall i :: 0 <= i < |digits| ==> IsBase36Digit(digits[i])
    ensures Substring("0." + digits, 2, 8) == SliceFront(digits, 6)
    ensures |Substring("0." + digits, 2, 8)| <= 6
    ensures forall i :: 0 <= i < |Substring("0." + digits, 2, 8)| ==> IsBase36Digit(Substring("0." + digits, 2, 8)[i])
  {
    var t := "0." + digits;
    assert t[2..] == digits;
    assert t[Min(2, |t|)..Min(8, |t|)] == digits[..Min(6, |digits|)];
  }

  /** A fraction after text without `.` is dropped entirely. */
  lemma DropTrailingFraction(head: string, fraction: string)
    requires Lacks(head, {'.'})
    requires fraction != [] && Lacks(fraction, LineTerminators)
    ensures DropFraction(head + "." + fraction) == head
  {
    var s := head + "." + fraction;
    assert s[|head|] == '.' && s[|head| + 1] == fraction[0];
    assert forall j :: 0 <= j < |head| ==> s[j] == head[j];
    assert FractionAt(s, 0) == Some(|head|);
    assert forall j :: |head| + 1 <= j < |s| ==> s[j] == fraction[j - |head| - 1];
    assert LineEnd(s, |head| + 1) == |s|;
    assert s[..|head|] == head;
  }

  lemma RemoveAroundDot(date: string, fraction: string, chars: set<char>)
    requires Lacks(fraction, chars)
    ensures RemoveAll(date + "." + fraction, chars)
            == RemoveAll(date, chars) + RemoveAll(".", chars) + fraction
  {
    RemoveAllAppend(date, ".", chars);
    RemoveAllAppend(date + ".", fraction, chars);
    RemoveAllRemoves(fraction, chars);
  }

  /** For a timestamp `date.fraction` (as `toISOString` produces), the
      legacy id drops the fraction and has no prefix. */
  lemma PageRequestIdShape(date: string, fraction: string, randomText: string)
    requires Lacks(date, {'.'})
    requires fraction != [] && Lacks(fraction, TimeSeparators) && Lacks(fraction, LineTerminators)
    ensures PageRequestId(date + "." + fraction, randomText)
            == RemoveAll(date, DateSeparators) + "_" + Substring(randomText, 2, 8)
  {
    var compact := RemoveAll(date, DateSeparators);
    assert RemoveAll(".", DateSeparators) == "." by {
      assert "."[0] !in DateSeparators;
    }
    assert Lacks(fraction, DateSeparators);
    RemoveAroundDot(date, fraction, DateSeparators);
    RemoveAllRemoves(date, DateSeparators);
    assert Lacks(compact, {'.'});
    DropTrailingFraction(compact, fraction);
  }

  /** For the same timestamp, CompileDeployCard's id keeps the fraction's
      characters and starts with `req_`. */
  lemma CardRequestIdShape(date: string, fraction: string, randomText: string)
    requires Lacks(date, {'.'})
    requires Lacks(fraction, TimeSeparators)
    ensures CardRequestId(date + "." + fraction, randomText)
            == "req_" + RemoveAll(date, DateSeparators) + fraction + "_" + Substring(randomText, 2, 8)
  {
    assert RemoveAll(".", TimeSeparators) == [] by {
      assert "."[0] in TimeSeparators;
    }
    RemoveAroundDot(date, fraction, TimeSeparators);
    RemoveAllSubset(date, DateSeparators, TimeSeparators);
  }

  /** Removing extra characters that do not occur changes nothing. */
  lemma {:induction false} RemoveAllSubset(s: string, a: set<char>, b: set<char>)
    requires a <= b
    requires Lacks(s, b - a)
    ensures RemoveAll(s, b) == RemoveAll(s, a)
  {
    if s != [] {
      RemoveAllSubset(s[1..], a, b);
    }
  }

  // ---- The compile request ----

  /** The multipart upload: the archive under `<project>.zip` and the
      project path, posted to the compile endpoint for the request id. */
  datatype Submission = Submission(url: string, fileName: string, projectPath: string, archive: seq<ZipEntry>)

  function CompileUrl(requestId: string): string {
    "http://localhost:3000/compile?requestId=" + requestId
  }

  /** The upload for `target`, or the read error that aborted the archive. */
  function Upload(target: string, files: seq<FileInfo>, read: string -> Result<string, string>, requestId: string)
    : Result<Submission, string>
  {
    match GenerateZip(BuildInput(files, target), target, read)
    case Err(msg) => Err(msg)
    case Ok(archive) => Ok(Submission(CompileUrl(requestId), target + ".zip", target, archive))
  }

  /** `disabled={!targetProject || loading}` on both pages' Compile button. */
  predicate CompileDisabled(target: string, loading: bool) {
    target == "" || loading
  }

  /** What came back from the compile endpoint: the post failed, the reply
      was not a zip archive, or the archive's entries. */
  datatype Reply = PostFails(reason: string) | NotAnArchive(reason: string) | Unpacked(entries: seq<ZipEntry>)

  /** The writes that succeeded, in order; `install` is the outcome of
      decoding an entry and writing it to the workspace. */
  function Installed(ws: seq<(string, string)>, install: ((string, string)) -> Result<(), string>)
    : (done: seq<(string, string)>)
    ensures |done| <= |ws|
    ensures forall w :: w in done <==> w in ws && install(w).Ok?
  {
    if ws == [] then []
    else (if install(ws[0]).Ok? then [ws[0]] else []) + Installed(ws[1..], install)
  }

  /** The message of the first write, in entry order, that failed. */
  function FirstFailure(ws: seq<(string, string)>, install: ((string, string)) -> Result<(), string>)
    : (r: Option<string>)
    ensures r.None? <==> forall i :: 0 <= i < |ws| ==> install(ws[i]).Ok?
    ensures r.Some? ==> exists i :: 0 <= i < |ws| && install(ws[i]) == Err(r.value)
                                    && forall j :: 0 <= j < i ==> install(ws[j]).Ok?
  {
    if ws == [] then None
    else match install(ws[0])
      case Err(msg) => Some(msg)
      case Ok(_) =>
        var r := FirstFailure(ws[1..], install);
        if r.Some? then
          ghost var i :| 0 <= i < |ws| - 1 && install(ws[1..][i]) == Err(r.value)
                         && forall j :: 0 <= j < i ==> install(ws[1..][j]).Ok?;
          assert install(ws[i + 1]) == Err(r.value);
          assert forall j :: 0 <= j < i + 1 ==> install(ws[j]).Ok? by {
            forall j | 0 <= j < i + 1
              ensures install(ws[j]).Ok?
            {
              if j > 0 {
                assert ws[j] == ws[1..][j - 1];
              }
            }
          }
          r
        else
          assert forall i :: 0 <= i < |ws| ==> install(ws[i]).Ok? by {
            forall i | 0 <= i < |ws|
              ensures install(ws[i]).Ok?
            {
              if i > 0 {
                assert ws[i] == ws[1..][i - 1];
              }
            }
          }
          r
  }

  /** When no write fails, every write is installed. */
  lemma {:induction false} InstalledAll(ws: seq<(string, string)>, install: ((string, string)) -> Result<(), string>)
    requires forall i :: 0 <= i < |ws| ==> install(ws[i]).Ok?
    ensures Installed(ws, install) == ws
  {
    if ws != [] {
      forall i | 0 <= i < |ws| - 1
        ensures install(ws[1..][i]).Ok?
      {
        assert ws[1..][i] == ws[i + 1];
      }
      InstalledAll(ws[1..], install);
      assert install(ws[0]).Ok?;
      assert Installed(ws, install) == [ws[0]] + Installed(ws[1..], install);
      assert [ws[0]] + ws[1..] == ws;
    }
  }

  // ---- The legacy page (main.tsx) ----

  datatype LegacyPage = LegacyPage(logs: seq<string>, error: Option<string>, loading: bool)

  datatype LegacyRun = LegacyRun(page: LegacyPage, submitted: Option<Submission>, writes: seq<(string, string)>)

  const NoTargetMessage: string := "No target project selected!"

  function WrittenLines(writes: seq<(string, string)>): seq<string> {
    seq(|writes|, i requires 0 <= i < |writes| => "File written to Remix: " + writes[i].0)
  }

  function UploadNotice(target: string): string {
    "Project \"" + target + "\" uploaded, compiling..."
  }

  function LegacyFailed(logs: seq<string>, msg: string): LegacyPage {
    LegacyPage(logs + ["Error: " + msg], Some("Compilation failed."), false)
  }

  /** `handleCompile` of the legacy page. The upload notice is logged once
      the post returned, before the reply is unpacked; each successful
      write logs its line; the first failing write, in entry order, fails
      the attempt after the others have landed. */
  function LegacyCompile(page: LegacyPage, target: string, files: seq<FileInfo>,
                         read: string -> Result<string, string>, requestId: string,
                         reply: Reply, install: ((string, string)) -> Result<(), string>): LegacyRun
  {
    if target == "" then
      LegacyRun(page.(logs := page.logs + [NoTargetMessage]), None, [])
    else match Upload(target, files, read, requestId)
      case Err(msg) => LegacyRun(LegacyFailed(page.logs, msg), None, [])
      case Ok(sub) =>
        match reply
        case PostFails(msg) => LegacyRun(LegacyFailed(page.logs, msg), Some(sub), [])
        case NotAnArchive(msg) => LegacyRun(LegacyFailed(page.logs + [UploadNotice(target)], msg), Some(sub), [])
        case Unpacked(entries) =>
          var ws := Writes(LegacyOutputRoot(target), entries);
          var done := Installed(ws, install);
          var logs := page.logs + [UploadNotice(target)] + WrittenLines(done);
          match FirstFailure(ws, install)
          case None => LegacyRun(LegacyPage(logs + ["Compilation completed!"], None, false), Some(sub), done)
          case Some(msg) => LegacyRun(LegacyFailed(logs, msg), Some(sub), done)
  }

  /** Without a target the legacy page only logs the complaint: nothing is
      uploaded or written and `loading` is untouched. */
  lemma LegacyNoTarget(page: LegacyPage, files: seq<FileInfo>, read: string -> Result<string, string>,
                       requestId: string, reply: Reply, install: ((string, string)) -> Result<(), string>)
    ensures var run := LegacyCompile(page, "", files, read, requestId, reply, install);
            && run.page.logs == page.logs + ["No target project selected!"]
            && run.submitted.None? && run.writes == []
            && run.page.loading == page.loading && run.page.error == page.error
  {
  }

  /** With a target, the legacy page always ends with `loading` false, and
      it ends without an error iff the archive was built, the post
      succeeded, the reply unpacked and every write succeeded. An error is
      always `Compilation failed.` with `Error: <cause>` as the last log
      line; a failing write names the first failing entry. */
  lemma LegacyOutcome(page: LegacyPage, target: string, files: seq<FileInfo>,
                      read: string -> Result<string, string>, requestId: string,
                      reply: Reply, install: ((string, string)) -> Result<(), string>)
    requires target != ""
    ensures var run := LegacyCompile(page, target, files, read, requestId, reply, install);
            var ws := if reply.Unpacked? then Writes(LegacyOutputRoot(target), reply.entries) else [];
            && !run.page.loading
            && page.logs <= run.page.logs
            && (run.page.error.None? <==>
                  Upload(target, files, read, requestId).Ok? && reply.Unpacked?
                  && forall i :: 0 <= i < |ws| ==> install(ws[i]).Ok?)
            && (run.page.error.Some? ==>
                  && run.page.error == Some("Compilation failed.")
                  && StartsWith(run.page.logs[|run.page.logs| - 1], "Error: "))
            && (run.page.error.None? ==> run.page.logs[|run.page.logs| - 1] == "Compilation completed!")
            && (Upload(target, files, read, requestId).Ok? && reply.Unpacked? && FirstFailure(ws, install).Some? ==>
                  run.page.logs[|run.page.logs| - 1] == "Error: " + FirstFailure(ws, install).value)
            && (Upload(target, files, read, requestId).Err? || reply.PostFails? ==>
                  run.writes == [] && |run.page.logs| == |page.logs| + 1)
  {
    var run := LegacyCompile(page, target, files, read, requestId, reply, install);
    assert run.page.logs[..|page.logs|] == page.logs;
  }

  /** What the legacy log shows once the post returned: the upload notice,
      then one `File written to Remix:` line per installed file, each under
      `browser/<target>/target/`, and the installed files are exactly the
      non-directory entries whose write succeeded. */
  lemma LegacyLog(page: LegacyPage, target: string, files: seq<FileInfo>,
                  read: string -> Result<string, string>, requestId: string,
                  reply: Reply, install: ((string, string)) -> Result<(), string>)
    requires target != ""
    requires Upload(target, files, read, requestId).Ok?
    requires !reply.PostFails?
    ensures var run := LegacyCompile(page, target, files, read, requestId, reply, install);
            && run.submitted == Some(Upload(target, files, read, requestId).value)
            && run.page.logs[|page.logs|] == "Project \"" + target + "\" uploaded, compiling..."
            && |run.page.logs| == |page.logs| + |run.writes| + 2
            && (forall i :: 0 <= i < |run.writes| ==>
                  && run.page.logs[|page.logs| + 1 + i] == "File written to Remix: " + run.writes[i].0
                  && StartsWith(run.writes[i].0, LegacyOutputRoot(target)))
            && (forall w :: w in run.writes <==>
                  reply.Unpacked? && install(w).Ok?
                  && exists e :: e in reply.entries && !e.isDir && w == (LegacyOutputRoot(target) + e.name, e.content))
  {
    var run := LegacyCompile(page, target, files, read, requestId, reply, install);
    if reply.Unpacked? {
      var ws := run.writes;
      forall i | 0 <= i < |ws|
        ensures StartsWith(ws[i].0, LegacyOutputRoot(target))
      {
        assert ws[i] in ws;
        var e :| e in reply.entries && !e.isDir && ws[i] == (LegacyOutputRoot(target) + e.name, e.content);
        assert ws[i].0[..|LegacyOutputRoot(target)|] == LegacyOutputRoot(target);
      }
    }
  }

  // ---- The CompileDeployCard panel ----

  datatype CardPage = CardPage(
    compileError: Option<string>,
    compileLogs: seq<JsValue>,
    loading: bool,
    deployResult: Option<string>,
    terminal: seq<TerminalLine>)

  /** What the log channel did: opened and delivered `messages` before the
      compile request settled and `late` after it, before the `finally`
      closed the socket; or failed before opening. */
  datatype Channel = Opens(messages: seq<Option<Frame>>, late: seq<Option<Frame>>) | FailsToOpen

  /** The panel afterwards, the request id sent to bind the channel, the
      upload, and the workspace writes that succeeded. */
  datatype CardRun = CardRun(page: CardPage, bound: Option<string>, submitted: Option<Submission>,
                             writes: seq<(string, string)>)

  function InfoLines(vs: seq<JsValue>): seq<TerminalLine> {
    seq(|vs|, i requires 0 <= i < |vs| => TerminalLine(Info, vs[i]))
  }

  /** The panel when a compile starts: loading, no error, empty log, no
      deploy result. */
  function Started(page: CardPage): CardPage {
    page.(loading := true, compileError := None, compileLogs := [], deployResult := None)
  }

  function CardFailure(page: CardPage, msg: string): CardPage {
    page.(compileError := Some("Compilation failed: " + msg), loading := false,
          terminal := page.terminal + [TerminalLine(Error, JsString("\U{274C} Compilation failed: " + msg))])
  }

  const CompletedLine: TerminalLine := TerminalLine(Info, JsString("\U{2705} Compilation completed!"))

  /** The `try` after the upload was built or failed: the reply, the
      writes under `root`, and the `finally` that clears `loading`. */
  function CardSettle(streamed: CardPage, requestId: string, upload: Result<Submission, string>,
                      root: string, reply: Reply, install: ((string, string)) -> Result<(), string>): CardRun
  {
    match upload
    case Err(msg) => CardRun(CardFailure(streamed, msg), Some(requestId), None, [])
    case Ok(sub) =>
      match reply
      case PostFails(msg) => CardRun(CardFailure(streamed, msg), Some(requestId), Some(sub), [])
      case NotAnArchive(msg) => CardRun(CardFailure(streamed, msg), Some(requestId), Some(sub), [])
      case Unpacked(entries) =>
        var ws := Writes(root, entries);
        match FirstFailure(ws, install)
        case None =>
          CardRun(streamed.(loading := false, terminal := streamed.terminal + [CompletedLine]),
                  Some(requestId), Some(sub), Installed(ws, install))
        case Some(msg) => CardRun(CardFailure(streamed, msg), Some(requestId), Some(sub), Installed(ws, install))
  }

  /** Messages that arrive after the outcome was logged, before the socket
      is closed, are still logged. */
  function WithLate(run: CardRun, late: seq<Option<Frame>>): CardRun {
    run.(page := run.page.(compileLogs := run.page.compileLogs + Carried(late),
                           terminal := run.page.terminal + InfoLines(Carried(late))))
  }

  /** The part of `handleCompile` after the channel opened: the streamed
      log, the upload, the outcome, and the late messages. */
  function CardAfterOpen(started: CardPage, target: string, files: seq<FileInfo>,
                         read: string -> Result<string, string>, requestId: string,
                         messages: seq<Option<Frame>>, late: seq<Option<Frame>>,
                         reply: Reply, install: ((string, string)) -> Result<(), string>): CardRun
  {
    var streamed := started.(compileLogs := started.compileLogs + Carried(messages),
                             terminal := started.terminal + InfoLines(Carried(messages)));
    WithLate(CardSettle(streamed, requestId, Upload(target, files, read, requestId), OutputRoot(target), reply, install),
             late)
  }

  function CardNoTarget(page: CardPage): CardRun {
    CardRun(page.(compileError := Some(NoTargetMessage),
                  terminal := page.terminal + [TerminalLine(Error, JsString(NoTargetMessage))]),
            None, None, [])
  }

  /** `handleCompile` of CompileDeployCard as written. When the channel
      fails to open, the awaited promise rejects outside the `try`, so the
      handler leaves without running its `finally`. */
  function CardCompileAsWritten(page: CardPage, target: string, files: seq<FileInfo>,
                                read: string -> Result<string, string>, requestId: string,
                                channel: Channel, reply: Reply,
                                install: ((string, string)) -> Result<(), string>): CardRun
  {
    if target == "" then CardNoTarget(page)
    else match channel
      case FailsToOpen => CardRun(Started(page), None, None, [])
      case Opens(messages, late) =>
        CardAfterOpen(Started(page), target, files, read, requestId, messages, late, reply, install)
  }

  /** `handleCompile` with the channel failure handled the way the panel's
      own later `onerror` handler does: the error is shown and `loading`
      is cleared. */
  function CardCompile(page: CardPage, target: string, files: seq<FileInfo>,
                       read: string -> Result<string, string>, requestId: string,
                       channel: Channel, reply: Reply,
                       install: ((string, string)) -> Result<(), string>): CardRun
  {
    if target == "" then CardNoTarget(page)
    else match channel
      case FailsToOpen =>
        CardRun(Started(page).(compileError := Some("WebSocket connection failed."), loading := false),
                None, None, [])
      case Opens(messages, late) =>
        CardAfterOpen(Started(page), target, files, read, requestId, messages, late, reply, install)
  }

  /** As written, a log channel that fails to open leaves the panel
      loading, with no error shown and the Compile button disabled for
      good. */
  lemma CardChannelFailureStuck(page: CardPage, target: string, files: seq<FileInfo>,
                                read: string -> Result<string, string>, requestId: string,
                                reply: Reply, install: ((string, string)) -> Result<(), string>)
    requires target != ""
    ensures var run := CardCompileAsWritten(page, target, files, read, requestId, FailsToOpen, reply, install);
            run.page.loading && run.page.compileError.None? && CompileDisabled(target, run.page.loading)
  {
  }

  /** With the correction, every compile attempt with a target ends with
      `loading` false, so the button is usable again; no error is shown iff
      the channel opened, the archive was built, the reply unpacked and
      every write succeeded; and a failing write reports the first failing
      entry after the others were written. */
  lemma CardCompileSettles(page: CardPage, target: string, files: seq<FileInfo>,
                           read: string -> Result<string, string>, requestId: string,
                           channel: Channel, reply: Reply, install: ((string, string)) -> Result<(), string>)
    requires target != ""
    ensures var run := CardCompile(page, target, files, read, requestId, channel, reply, install);
            var ws := if reply.Unpacked? then Writes(OutputRoot(target), reply.entries) else [];
            && !run.page.loading
            && !CompileDisabled(target, run.page.loading)
            && (run.page.compileError.None? <==>
                  channel.Opens? && Upload(target, files, read, requestId).Ok? && reply.Unpacked?
                  && forall i :: 0 <= i < |ws| ==> install(ws[i]).Ok?)
            && (channel.Opens? && Upload(target, files, read, requestId).Ok? && reply.Unpacked? ==>
                  && (forall w :: w in run.writes <==> w in ws && install(w).Ok?)
                  && (FirstFailure(ws, install).Some? ==>
                        run.page.compileError == Some("Compilation failed: " + FirstFailure(ws, install).value)))
            && (!(channel.Opens? && Upload(target, files, read, requestId).Ok? && reply.Unpacked?) ==> run.writes == [])
  {
  }

  /** The `try` when the upload was built, the reply unpacked and every
      write succeeded. */
  lemma CardSettleSucceeds(streamed: CardPage, requestId: string, sub: Submission,
                           root: string, entries: seq<ZipEntry>,
                           install: ((string, string)) -> Result<(), string>)
    requires forall i :: 0 <= i < |Writes(root, entries)| ==> install(Writes(root, entries)[i]).Ok?
    ensures CardSettle(streamed, requestId, Ok(sub), root, Unpacked(entries), install)
            == CardRun(streamed.(loading := false, terminal := streamed.terminal + [CompletedLine]),
                       Some(requestId), Some(sub), Writes(root, entries))
  {
    var ws := Writes(root, entries);
    InstalledAll(ws, install);
    assert FirstFailure(ws, install).None?;
  }

  /** The panel after a compile in which every step succeeded. */
  lemma CardSucceeded(page: CardPage, target: string, files: seq<FileInfo>,
                      read: string -> Result<string, string>, requestId: string,
                      messages: seq<Option<Frame>>, late: seq<Option<Frame>>, entries: seq<ZipEntry>,
                      install: ((string, string)) -> Result<(), string>)
    requires target != ""
    requires Upload(target, files, read, requestId).Ok?
    requires forall i :: 0 <= i < |Writes(OutputRoot(target), entries)| ==> install(Writes(OutputRoot(target), entries)[i]).Ok?
    ensures CardCompile(page, target, files, read, requestId, Opens(messages, late), Unpacked(entries), install)
            == CardRun(Started(page).(loading := false,
                                      compileLogs := Carried(messages) + Carried(late),
                                      terminal := page.terminal + InfoLines(Carried(messages)) + [CompletedLine]
                                                  + InfoLines(Carried(late))),
                       Some(requestId), Some(Upload(target, files, read, requestId).value),
                       Writes(OutputRoot(target), entries))
  {
    var started := Started(page);
    var streamed := started.(compileLogs := started.compileLogs + Carried(messages),
                             terminal := started.terminal + InfoLines(Carried(messages)));
    CardSettleSucceeds(streamed, requestId, Upload(target, files, read, requestId).value,
                       OutputRoot(target), entries, install);
    assert started.compileLogs + Carried(messages) == Carried(messages);
  }

  /** A successful compile on the panel: the channel was bound to this
      request id, the uploaded archive is the project's build input, the
      log holds the messages carried before and after the reply, the
      completion line sits between them on the terminal, and every entry
      is written under `browser/<target>/`, named back to its archive
      entry. */
  lemma CardSuccess(page: CardPage, target: string, files: seq<FileInfo>,
                    read: string -> Result<string, string>, requestId: string,
                    messages: seq<Option<Frame>>, late: seq<Option<Frame>>, entries: seq<ZipEntry>,
                    install: ((string, string)) -> Result<(), string>)
    requires target != ""
    requires Upload(target, files, read, requestId).Ok?
    requires forall i :: 0 <= i < |Writes(OutputRoot(target), entries)| ==> install(Writes(OutputRoot(target), entries)[i]).Ok?
    ensures var run := CardCompile(page, target, files, read, requestId, Opens(messages, late), Unpacked(entries), install);
            && run.bound == Some(requestId)
            && run.submitted.Some?
            && run.submitted.value.archive == GenerateZip(BuildInput(files, target), target, read).value
            && run.page.compileLogs == Carried(messages) + Carried(late)
            && run.page.compileError.None?
            && run.page.terminal == page.terminal + InfoLines(Carried(messages)) + [CompletedLine] + InfoLines(Carried(late))
            && run.writes == Writes(OutputRoot(target), entries)
            && (forall w :: w in run.writes ==>
                  exists e :: e in entries && !e.isDir && w.1 == e.content
                              && w.0 == OutputRoot(target) + e.name
                              && ArchiveName(w.0, target) == e.name)
  {
    CardSucceeded(page, target, files, read, requestId, messages, late, entries, install);
    var ws := Writes(OutputRoot(target), entries);
    forall w | w in ws
      ensures exists e :: e in entries && !e.isDir && w.1 == e.content
                          && w.0 == OutputRoot(target) + e.name
                          && ArchiveName(w.0, target) == e.name
    {
      var e :| e in entries && !e.isDir && w == (OutputRoot(target) + e.name, e.content);
      InstallThenName(target, e.name);
    }
  }
}
