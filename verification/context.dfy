/** The outbound message list `main` builds for each prompt: an optional
    system message describing the uploaded document, then the whole stored
    history. */
module Context {
  import opened Wrappers
  import opened Chat
  import opened Text
  import opened SessionState
  import Documents

  /** The fixed instruction that closes the system message. */
  const Instruction: string :=
    "Please analyze this code and answer any questions about it. If asked to suggest improvements, provide specific code examples."

  /** The text before the document in the system message. */
  function Header(fileType: string): (h: string) {
    "This is a " + AsciiUpper(fileType) + " file:\n\n"
  }

  /** The text after the document in the system message. */
  const Trailer: string := "\n\n" + Instruction

  /** The system message text: the upper-cased type, the document verbatim,
      then the instruction. */
  function ContextText(fileType: string, content: string): (t: string)
    ensures |t| == |Header(fileType)| + |content| + |Trailer|
    ensures t[..|Header(fileType)|] == Header(fileType)
    ensures t[|Header(fileType)|..|Header(fileType)| + |content|] == content
    ensures t[|t| - |Trailer|..] == Trailer
  {
    var h := Header(fileType);
    var t := h + content + Trailer;
    assert t[|h|..|h| + |content|] == content;
    t
  }

  /** For a given type the system message determines the document. */
  lemma ContextTextInjective(fileType: string, c1: string, c2: string)
    requires ContextText(fileType, c1) == ContextText(fileType, c2)
    ensures c1 == c2
  {
    var h := |Header(fileType)|;
    assert |c1| == |c2|;
    assert c1 == ContextText(fileType, c1)[h..h + |c1|];
  }

  /** `if st.session_state.file_content:` — a document that is absent or
      empty is falsy and adds no context. */
  predicate HasContext(s: Session) {
    s.fileContent.Some? && s.fileContent.value != ""
  }

  /** The message list sent to the chat endpoint. It is `None` where the
      source raises: a non-empty document whose type is `None` makes
      `file_type.upper()` fail. Otherwise it is the history, preceded by one
      system message exactly when there is context. */
  function Compose(s: Session): (r: Option<seq<Message>>)
    ensures r.None? <==> HasContext(s) && s.fileType.None?
    ensures r.Some? ==> |r.value| == |s.messages| + (if HasContext(s) then 1 else 0)
    ensures r.Some? ==> r.value[|r.value| - |s.messages|..] == s.messages
    ensures r.Some? && HasContext(s) ==>
              r.value[0] == Message(System, ContextText(s.fileType.value, s.fileContent.value))
  {
    if HasContext(s) then
      match s.fileType
      case None => None
      case Some(t) => Some([Message(System, ContextText(t, s.fileContent.value))] + s.messages)
    else Some(s.messages)
  }

  /** The inverse of composition: the history is what follows a leading
      system message, or the whole list when there is none. */
  function History(ms: seq<Message>): (h: seq<Message>)
    ensures |ms| > 0 && ms[0].role == System ==> |h| == |ms| - 1
    ensures !(|ms| > 0 && ms[0].role == System) ==> h == ms
    ensures |h| <= |ms| && h == ms[|ms| - |h|..]
  {
    if |ms| > 0 && ms[0].role == System then ms[1..] else ms
  }

  /** On a well-formed session composition never fails, the list starts with
      a system message exactly when there is context, it holds no other
      system message, and stripping the context gives the history back. */
  lemma ComposeWellFormed(s: Session)
    requires WellFormed(s)
    ensures Compose(s).Some?
    ensures var ms := Compose(s).value;
            && (HasContext(s) <==> |ms| > 0 && ms[0].role == System)
            && NoSystem(if HasContext(s) then ms[1..] else ms)
            && History(ms) == s.messages
  {
    var ms := Compose(s).value;
    if HasContext(s) {
      assert ms[1..] == s.messages;
    } else if |ms| > 0 {
      assert ms[0] == s.messages[0];
    }
  }

  /** A type label alone never adds context: without a document the list is
      exactly the history, whatever the label. */
  lemma NoDocumentNoContext(s: Session)
    requires !HasContext(s)
    ensures Compose(s) == Some(s.messages)
  {
  }

  /** Uploading a document and then clearing leaves nothing to compose but
      the (empty) history. */
  lemma AttachThenClear(s: Session, r: Documents.FileRead)
    ensures Compose(Clear(Attach(s, r))) == Some([])
  {
  }
}
