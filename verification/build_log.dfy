/** The compile log of CompileDeployCard: every inbound message of the log
    channel is parsed as JSON, and a truthy `logMsg` is appended to the log
    and forwarded to the terminal; anything else is dropped. */
module BuildLog {
  import opened Wrappers
  import opened JsValues

  /** A message that parsed as a JSON object, with its `logMsg` field
      (`None` when the field is absent). */
  datatype Frame = Frame(logMsg: Option<JsValue>)

  /** What one inbound message contributes: its `logMsg` if the message
      parsed (`Some`) and the field is truthy. */
  function Carried1(message: Option<Frame>): seq<JsValue> {
    match message
    case Some(Frame(Some(v))) => if Truthy(v) then [v] else []
    case _ => []
  }

  /** The values a sequence of messages contributes, in arrival order. */
  function Carried(messages: seq<Option<Frame>>): (vs: seq<JsValue>)
    ensures |vs| <= |messages|
  {
    if messages == [] then [] else Carried1(messages[0]) + Carried(messages[1..])
  }

  /** The `onmessage` handler: the new compile log and terminal output. */
  function OnMessage(log: seq<JsValue>, terminal: seq<TerminalLine>, message: Option<Frame>)
    : (seq<JsValue>, seq<TerminalLine>)
  {
    match message
    case Some(Frame(Some(v))) =>
      if Truthy(v) then (log + [v], terminal + [TerminalLine(Info, v)]) else (log, terminal)
    case _ => (log, terminal)
  }

  lemma {:induction false} CarriedAppend(a: seq<Option<Frame>>, b: seq<Option<Frame>>)
    ensures Carried(a + b) == Carried(a) + Carried(b)
  {
    if a == [] {
      assert a + b == b;
    } else {
      assert (a + b)[1..] == a[1..] + b;
      CarriedAppend(a[1..], b);
    }
  }

  /** Feeding the messages to the handler in arrival order: the log gains
      exactly the carried values, in order, and the terminal gets each of
      them as an info line. */
  method Consume(log0: seq<JsValue>, messages: seq<Option<Frame>>)
    returns (log: seq<JsValue>, terminal: seq<TerminalLine>)
    ensures log == log0 + Carried(messages)
    ensures |terminal| == |Carried(messages)|
    ensures forall i :: 0 <= i < |terminal| ==> terminal[i] == TerminalLine(Info, Carried(messages)[i])
  {
    log, terminal := log0, [];
    var i := 0;
    while i < |messages|
      invariant 0 <= i <= |messages|
      invariant log == log0 + Carried(messages[..i])
      invariant |terminal| == |Carried(messages[..i])|
      invariant forall j :: 0 <= j < |terminal| ==> terminal[j] == TerminalLine(Info, Carried(messages[..i])[j])
    {
      CarriedAppend(messages[..i], [messages[i]]);
      assert messages[..i + 1] == messages[..i] + [messages[i]];
      var next := OnMessage(log, terminal, messages[i]);
      log, terminal := next.0, next.1;
      i := i + 1;
    }
    assert messages[..i] == messages;
  }

  /** A value is in the log exactly when some message that parsed carried
      it as a truthy `logMsg`. */
  lemma {:induction false} CarriedMembers(messages: seq<Option<Frame>>, v: JsValue)
    ensures v in Carried(messages)
            <==> Truthy(v) && exists i :: 0 <= i < |messages| && messages[i] == Some(Frame(Some(v)))
  {
    if messages != [] {
      CarriedMembers(messages[1..], v);
      if exists i :: 0 <= i < |messages| && messages[i] == Some(Frame(Some(v))) {
        var i :| 0 <= i < |messages| && messages[i] == Some(Frame(Some(v)));
        if i > 0 {
          assert messages[1..][i - 1] == messages[i];
        }
      }
      if exists i :: 0 <= i < |messages[1..]| && messages[1..][i] == Some(Frame(Some(v))) {
        var i :| 0 <= i < |messages[1..]| && messages[1..][i] == Some(Frame(Some(v)));
        assert messages[i + 1] == messages[1..][i];
      }
    }
  }

  /** A malformed message, or one without a truthy `logMsg`, leaves the
      log and the terminal unchanged. */
  lemma IgnoredMessage(log: seq<JsValue>, terminal: seq<TerminalLine>, message: Option<Frame>)
    requires message.None? || message.value.logMsg.None? || !Truthy(message.value.logMsg.value)
    ensures OnMessage(log, terminal, message) == (log, terminal)
  {
  }
}
