/** One run of `main`: initialise the session, take an upload, honour
    "Clear Conversation", and answer a prompt by appending the user entry,
    composing the request, streaming the reply and appending it. Rendering is
    left out; what is shown is kept as the preview text and the streamed
    snapshots. */
module Controller {
  import opened Wrappers
  import opened Chat
  import opened SessionState
  import opened Context
  import opened Streaming
  import Documents

  /** What one prompt leaves behind: the session, the request sent (none
      when composing raised), the streamed snapshots, and whether the run
      raised. */
  datatype TurnResult = TurnResult(
    session: Session,
    sent: Option<seq<Message>>,
    snapshots: seq<string>,
    crashed: bool)

  /** The text of the assistant entry a response produces. */
  function ReplyText(resp: Response): (t: string)
    ensures resp.failure.None? ==> t == Assemble(resp.lines)
    ensures resp.failure.Some? ==> t == ErrorPrefix + resp.failure.value
  {
    Consume(resp).text
  }

  /** The session right after `messages.append({"role": "user", ...})`. */
  function Asked(s: Session, prompt: string): (s': Session) {
    Session(s.messages + [Message(User, prompt)], s.fileContent, s.fileType)
  }

  /** The prompt branch of `main`. The earlier history is never touched; the
      user entry is appended first; unless composing raises, the request is
      the composition of the session holding the prompt (so it ends with the
      whole history including the prompt), and exactly one assistant entry
      with the reply (or the error string) follows. */
  function ChatTurn(s: Session, prompt: string, resp: Response): (r: TurnResult)
    ensures r.session.fileContent == s.fileContent && r.session.fileType == s.fileType
    ensures |r.session.messages| > |s.messages|
    ensures r.session.messages[..|s.messages|] == s.messages
    ensures r.session.messages[|s.messages|] == Message(User, prompt)
    ensures r.crashed <==> HasContext(s) && s.fileType.None?
    ensures r.crashed ==> |r.session.messages| == |s.messages| + 1 && r.sent.None? && r.snapshots == []
    ensures !r.crashed ==>
              && |r.session.messages| == |s.messages| + 2
              && r.session.messages[|s.messages| + 1] == Message(Assistant, ReplyText(resp))
              && r.snapshots == Consume(resp).snapshots
              && r.sent.Some?
              && |r.sent.value| >= |s.messages| + 1
              && r.sent.value[|r.sent.value| - |s.messages| - 1..] == s.messages + [Message(User, prompt)]
              && r.sent == Compose(Asked(s, prompt))
  {
    var asked := Asked(s, prompt);
    assert asked.messages[..|s.messages|] == s.messages;
    match Compose(asked)
    case None => TurnResult(asked, None, [], true)
    case Some(out) =>
      var o := Consume(resp);
      var answered := Session(asked.messages + [Message(Assistant, o.text)], s.fileContent, s.fileType);
      assert answered.messages[..|s.messages|] == s.messages;
      TurnResult(answered, Some(out), o.snapshots, false)
  }

  /** On a well-formed session a turn never raises, appends exactly the user
      entry and the assistant entry, and keeps the session well formed. */
  lemma ChatTurnWellFormed(s: Session, prompt: string, resp: Response)
    requires WellFormed(s)
    ensures var r := ChatTurn(s, prompt, resp);
            && !r.crashed
            && r.session.messages == s.messages + [Message(User, prompt), Message(Assistant, ReplyText(resp))]
            && WellFormed(r.session)
  {
    var asked := Asked(s, prompt);
    NoSystemAppend(s.messages, Message(User, prompt));
    assert Compose(asked).Some?;
    var reply := Message(Assistant, Consume(resp).text);
    assert ChatTurn(s, prompt, resp).session.messages == asked.messages + [reply];
    NoSystemAppend(asked.messages, reply);
    assert asked.messages + [reply] == s.messages + [Message(User, prompt), reply];
  }

  /** Appending a user or assistant entry keeps the history free of system entries. */
  lemma NoSystemAppend(h: seq<Message>, m: Message)
    requires NoSystem(h) && m.role != System
    ensures NoSystem(h + [m])
  {
    forall i | 0 <= i < |h + [m]| ensures (h + [m])[i].role != System {
      if i < |h| {
        assert (h + [m])[i] == h[i];
      }
    }
  }

  /** The user's actions in one run: a file in the uploader, a click on
      "Clear Conversation", a submitted prompt, and what the chat endpoint
      would answer to it. */
  datatype Event = Event(
    upload: Option<Documents.UploadedFile>,
    clear: bool,
    prompt: Option<string>,
    response: Response)

  /** What one run leaves behind and shows. */
  datatype RunResult = RunResult(
    session: Session,
    preview: Option<string>,
    sent: Option<seq<Message>>,
    snapshots: seq<string>,
    crashed: bool)

  /** `if prompt := st.chat_input(...)`: nothing submitted, or an empty string. */
  predicate Asks(ev: Event) {
    ev.prompt.Some? && ev.prompt.value != ""
  }

  /** The session after initialisation and the upload branch. */
  function Prepared(raw: RawState, ev: Event): (s: Session)
    ensures s.messages == Initialize(raw).messages
    ensures ev.upload.None? ==> s == Initialize(raw)
    ensures ev.upload.Some? ==>
              var read := Documents.ReadFileContent(ev.upload.value);
              s.fileContent == Some(read.content) && s.fileType == Some(read.fileType)
  {
    match ev.upload
    case None => Initialize(raw)
    case Some(f) => Attach(Initialize(raw), Documents.ReadFileContent(f))
  }

  /** One run of `main`. A click on "Clear Conversation" empties the session
      and reruns the script before any prompt is read; an absent or empty
      prompt sends nothing; otherwise the prompt is answered. */
  function Run(raw: RawState, ev: Event): (r: RunResult)
    ensures ev.upload.Some? ==> r.preview == Documents.PlainPreview(Documents.ReadFileContent(ev.upload.value))
    ensures ev.upload.None? ==> r.preview.None?
    ensures ev.clear ==> r.session.messages == [] && r.session.fileContent.None? && r.session.fileType.None?
    ensures ev.clear || !Asks(ev) ==> r.sent.None? && r.snapshots == [] && !r.crashed
    ensures !ev.clear && !Asks(ev) ==> r.session == Prepared(raw, ev)
    ensures !ev.clear && Asks(ev) ==>
              var t := ChatTurn(Prepared(raw, ev), ev.prompt.value, ev.response);
              r.session == t.session && r.sent == t.sent && r.snapshots == t.snapshots && r.crashed == t.crashed
    ensures WellFormed(Initialize(raw)) ==> WellFormed(r.session) && !r.crashed
  {
    var s := Prepared(raw, ev);
    var preview := match ev.upload case None => None case Some(f) => Documents.PlainPreview(Documents.ReadFileContent(f));
    if ev.clear then
      RunResult(Clear(s), preview, None, [], false)
    else if Asks(ev) then
      ChatTurnWellFormedIf(s, ev.prompt.value, ev.response);
      var t := ChatTurn(s, ev.prompt.value, ev.response);
      RunResult(t.session, preview, t.sent, t.snapshots, t.crashed)
    else
      RunResult(s, preview, None, [], false)
  }

  lemma ChatTurnWellFormedIf(s: Session, prompt: string, resp: Response)
    ensures WellFormed(s) ==> WellFormed(ChatTurn(s, prompt, resp).session) && !ChatTurn(s, prompt, resp).crashed
  {
    if WellFormed(s) {
      ChatTurnWellFormed(s, prompt, resp);
    }
  }

  /** The results of a sequence of runs: the first starts from `raw`, and
      each later one starts from the state the previous one stored. */
  function Runs(raw: RawState, evs: seq<Event>): (rs: seq<RunResult>)
    ensures |rs| == |evs|
    ensures |evs| > 0 ==> rs[0] == Run(raw, evs[0])
    ensures forall k :: 0 < k < |evs| ==> rs[k] == Run(Store(rs[k - 1].session), evs[k])
    decreases |evs|
  {
    if |evs| == 0 then []
    else
      var r := Run(raw, evs[0]);
      [r] + Runs(Store(r.session), evs[1..])
  }

  /** A run that did not raise and left a well-formed session behind. */
  predicate Safe(r: RunResult) {
    !r.crashed && WellFormed(r.session)
  }

  /** One safe run stores a state that initialises to a well-formed session. */
  lemma RunSafe(raw: RawState, ev: Event)
    requires WellFormed(Initialize(raw))
    ensures Safe(Run(raw, ev))
    ensures WellFormed(Initialize(Store(Run(raw, ev).session)))
  {
    InitializeStored(Run(raw, ev).session);
  }

  /** From a well-formed start, no run ever raises and every stored session
      is well formed. */
  lemma {:induction false} RunsStayWellFormed(raw: RawState, evs: seq<Event>)
    requires WellFormed(Initialize(raw))
    ensures forall k :: 0 <= k < |evs| ==> Safe(Runs(raw, evs)[k])
    decreases |evs|
  {
    if |evs| > 0 {
      var rs := Runs(raw, evs);
      var r := rs[0];
      RunSafe(raw, evs[0]);
      var next := Store(r.session);
      RunsStayWellFormed(next, evs[1..]);
      var rest := Runs(next, evs[1..]);
      assert rs == [r] + rest;
      forall k | 0 < k < |evs| ensures Safe(rs[k]) {
        assert rs[k] == rest[k - 1];
      }
    }
  }

  /** A session that starts fresh never reaches the `file_type.upper()`
      failure: the document's content and type are always set together and
      no system entry is ever stored. */
  lemma {:induction false} FreshSessionNeverCrashes(evs: seq<Event>)
    ensures forall k :: 0 <= k < |evs| ==> !Runs(Fresh, evs)[k].crashed && WellFormed(Runs(Fresh, evs)[k].session)
  {
    FreshIsEmpty();
    RunsStayWellFormed(Fresh, evs);
  }

  /** After "Clear Conversation", a run with an empty uploader sends only the
      new prompt, with no system message. */
  lemma ClearThenAsk(raw: RawState, clear: Event, ask: Event)
    requires clear.clear
    requires !ask.clear && Asks(ask) && ask.upload.None?
    ensures Run(Store(Run(raw, clear).session), ask).sent == Some([Message(User, ask.prompt.value)])
  {
    InitializeStored(Run(raw, clear).session);
  }

  /** After "Clear Conversation", a run whose uploader still holds a file with
      content puts that file's system message back at the head of the
      request: clearing does not outlast the uploader. */
  lemma ClearThenAskWithFile(raw: RawState, clear: Event, ask: Event)
    requires clear.clear
    requires !ask.clear && Asks(ask) && ask.upload.Some?
    requires Documents.ReadFileContent(ask.upload.value).content != ""
    ensures var sent := Run(Store(Run(raw, clear).session), ask).sent;
            && sent.Some? && |sent.value| == 2
            && sent.value[0].role == System
            && sent.value[1] == Message(User, ask.prompt.value)
  {
    InitializeStored(Run(raw, clear).session);
  }
}
