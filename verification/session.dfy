/** The per-session state of app.py: the three keys of `st.session_state`
    the app uses, their initialisation, the upload that replaces the
    document, and "Clear Conversation". */
module SessionState {
  import opened Wrappers
  import opened Chat
  import Documents

  /** Whether a key is present in `st.session_state`, and its value if so. */
  datatype Slot<T> = Missing | Present(value: T)

  /** `st.session_state` as the script finds it at the start of a run. */
  datatype RawState = RawState(
    messages: Slot<seq<Message>>,
    fileContent: Slot<Option<string>>,
    fileType: Slot<Option<string>>)

  /** The session once every key is present. */
  datatype Session = Session(
    messages: seq<Message>,
    fileContent: Option<string>,
    fileType: Option<string>)

  /** The state of a session that has never run. */
  const Fresh: RawState := RawState(Missing, Missing, Missing)

  /** The state left behind after a run: every key present. */
  function Store(s: Session): (raw: RawState) {
    RawState(Present(s.messages), Present(s.fileContent), Present(s.fileType))
  }

  /** Every key present in `raw` keeps its value in `stored`. */
  predicate Keeps(raw: RawState, stored: RawState) {
    && (raw.messages.Present? ==> stored.messages == raw.messages)
    && (raw.fileContent.Present? ==> stored.fileContent == raw.fileContent)
    && (raw.fileType.Present? ==> stored.fileType == raw.fileType)
  }

  /** `initialize_session_state`: existing keys are never overwritten; missing
      ones get an empty history and no document. */
  function Initialize(raw: RawState): (s: Session)
    ensures Keeps(raw, Store(s))
    ensures raw.messages.Missing? ==> s.messages == []
    ensures raw.fileContent.Missing? ==> s.fileContent.None?
    ensures raw.fileType.Missing? ==> s.fileType.None?
  {
    Session(
      match raw.messages case Present(m) => m case Missing => [],
      match raw.fileContent case Present(c) => c case Missing => None,
      match raw.fileType case Present(t) => t case Missing => None)
  }

  /** Round trip: initialising a stored session gives it back unchanged. */
  lemma InitializeStored(s: Session)
    ensures Initialize(Store(s)) == s
  {
  }

  /** Initialising twice is initialising once. */
  lemma InitializeIdempotent(raw: RawState)
    ensures Initialize(Store(Initialize(raw))) == Initialize(raw)
  {
    InitializeStored(Initialize(raw));
  }

  /** Content and type are set and cleared together. */
  predicate Paired(s: Session) {
    s.fileContent.Some? <==> s.fileType.Some?
  }

  /** The invariant every reachable session keeps. */
  predicate WellFormed(s: Session) {
    Paired(s) && NoSystem(s.messages)
  }

  /** A session that has never run starts empty and well formed. */
  lemma FreshIsEmpty()
    ensures Initialize(Fresh) == Session([], None, None)
    ensures WellFormed(Initialize(Fresh))
  {
  }

  /** The upload branch of `main`: content and type are replaced together
      and the history is left alone. */
  function Attach(s: Session, r: Documents.FileRead): (s': Session)
    ensures s'.messages == s.messages
    ensures s'.fileContent == Some(r.content) && s'.fileType == Some(r.fileType)
    ensures WellFormed(s) ==> WellFormed(s')
  {
    Session(s.messages, Some(r.content), Some(r.fileType))
  }

  /** "Clear Conversation": whatever the session held, it ends with no
      history and no document. */
  function Clear(s: Session): (s': Session)
    ensures |s'.messages| == 0
    ensures s'.fileContent.None? && s'.fileType.None?
    ensures WellFormed(s')
  {
    Session([], None, None)
  }

  /** Clearing is idempotent. */
  lemma ClearIdempotent(s: Session)
    ensures Clear(Clear(s)) == Clear(s)
  {
  }
}
