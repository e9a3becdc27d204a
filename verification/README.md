# Ollama chat front-end: session, context and streaming rules in Dafny

`app.py` is a Streamlit page that chats with a local Ollama server. Most of it
is UI glue. The model covers the rules underneath the UI:

- **Session state.** The page keeps three keys in `st.session_state`: `messages`,
  `file_content` and `file_type`. `initialize_session_state` fills in only the
  missing keys. An upload replaces the document. "Clear Conversation" empties
  all three (`SessionState`).
- **Document reading.** `read_pdf` joins the page texts, each followed by a
  newline. `read_code_file` labels a file with the last `.`-segment of its name,
  or with `"text"` when highlighting fails. `read_file_content` dispatches on the
  MIME type. The plain preview is cut to 1000 characters plus `"..."`
  (`Documents`, `Text`).
- **Context composition.** For each prompt, `main` builds the request. It starts
  with one synthesized `system` message when the stored document is truthy
  (present and non-empty). After that comes the stored history, unchanged and
  in order. The system message is never stored (`Context`).
- **Stream assembly.** `stream_chat_with_ollama` folds the streamed lines into
  the reply. Each piece of content shows a snapshot with the cursor glyph
  U+258C. At the end the reply itself is shown and returned. A
  `RequestException` returns `"Error: " + str(e)` instead (`Streaming`). A
  loop method, `StreamChat`, is proved equal to the functional `Consume`.
- **The turn cycle.** A prompt appends the user entry, composes the request,
  streams the reply and appends the assistant entry. `Run` models one whole
  script run: initialise, upload, clear, prompt. `Runs` models a sequence of
  runs, each starting from the state the previous run stored (`Controller`).

Modules: `Wrappers` (Option), `Chat` (roles and entries), `Text`, `Documents`,
`SessionState`, `Context`, `Streaming`, `Controller`.

The inputs the model cannot compute come in as parameters:

- the server's streamed answer, as a `Streaming.Response` of decoded lines and
  an optional transport failure;
- what the decoders return (UTF-8 text, PDF page texts), and whether pygments
  highlighting succeeded, as fields of `Documents.UploadedFile`;
- the user's actions in a run, as a `Controller.Event`.

Results proved about the whole page:

- From a fresh session, `file_content` and `file_type` are always set and
  cleared together, so the `file_type.upper()` call can never raise
  (`FreshSessionNeverCrashes`).
- Every turn appends exactly one user entry and one assistant entry, even when
  the transport fails.
- Clearing empties the session. But if the uploader still holds a file with
  content on the next run, that run installs the document again, so the next
  request carries the system message again (`ClearThenAskWithFile`).

Three behaviours of the code worth stating:

- **Malformed stream lines.** They are not skipped: `json.loads` raises outside
  the `except`, so they are not modelled.
- **Empty document.** An empty document adds no context, because `""` is falsy.
- **Snapshot lengths.** The final snapshot is one character shorter than the
  last cursored snapshot. So snapshot lengths do not grow monotonically. What
  grows is the shown text without the cursor (`PartialsGrow`).

## Model

| member | source | states |
|---|---|---|
| SessionState.Initialize | app.py:10-16 | a key already present keeps its value; a missing `messages` becomes `[]` and a missing `file_content` / `file_type` becomes `None` |
| SessionState.InitializeIdempotent | app.py:10-16 | initialising an already initialised state changes nothing |
| SessionState.FreshIsEmpty | app.py:10-16 | a session that has never run starts with no history and no document, and is well formed |
| SessionState.Attach | app.py:93-96 | an upload replaces content and type together and leaves the history unchanged; well-formedness is kept |
| SessionState.Clear | app.py:107-110 | after clearing there is no history, no content and no type, whatever the session held |
| SessionState.ClearIdempotent | app.py:107-110 | clearing twice is clearing once |
| Documents.ReadPdf | app.py:18-23 | a PDF's text is its page texts joined by newlines with a final newline (`"\n".join(pages + [""])`); it is labelled "pdf" and has no style sheet |
| Documents.PdfPagesRecovered | app.py:20-22 | when no page text holds a newline, splitting the accumulated text on newlines gives back the pages plus one empty part |
| Documents.TypeLabel | app.py:32 | the label `name.split('.')[-1]` is the name's last segment: a dot-free suffix that is the whole name or follows a dot |
| Documents.ReadCodeFile | app.py:25-34 | the content is the decoded text; on success the label is the last `.`-segment and a style sheet is produced; on any failure the label is "text" with no style sheet |
| Documents.ReadFileContent | app.py:36-41 | a PDF MIME type goes to the PDF reader and every other type to the code reader; the label never contains a dot |
| Documents.PlainPreview | app.py:101-105 | the plain preview is shown exactly when there is no style sheet, and it is the cut preview of the content |
| Text.Preview | app.py:105 | content of at most 1000 characters is shown whole; longer content becomes its first 1000 characters followed by "..." |
| Text.PreviewIdempotent | app.py:105 | cutting a preview again changes nothing |
| Text.AsciiUpper | app.py:132 | the upper-cased label has the same length; each lower-case ASCII letter becomes its own capital and every other character is kept |
| Text.SplitJoin | app.py:32 | the split model inverts joining: splitting the join of separator-free parts gives the parts back |
| Context.ContextText | app.py:132-133 | the system text is "This is a " + upper(type) + " file:\n\n", then the document verbatim, then "\n\n" and the fixed instruction |
| Context.ContextTextInjective | app.py:132-133 | for a given type, the system text determines the document |
| Context.Compose | app.py:128-144 | the request is the history, preceded by exactly one system message when the document is truthy; it fails only when a truthy document has no type (`None.upper()`) |
| Context.ComposeWellFormed | app.py:128-144 | on a well-formed session: composing never fails; a system message leads exactly when there is context; no other system message occurs; stripping it gives back the history |
| Context.NoDocumentNoContext | app.py:130 | with no document, or an empty one, the request is exactly the history |
| Context.AttachThenClear | app.py:93-110 | after an upload and then a clear, the request has no system message and no history |
| Streaming.AssembleAppend | app.py:59-64 | the reply from two runs of lines is the first run's reply followed by the second's |
| Streaming.AssembleLine | app.py:59-64 | an empty line or a record without `message` adds nothing; a record with content adds exactly that content, in arrival order |
| Streaming.PartialsGrow | app.py:64-65 | each cursored snapshot is a prefix of a later snapshot's text followed by the cursor, and so is a prefix of the final reply |
| Streaming.Consume | app.py:52-70 | snapshot k is exactly the first k+1 contents followed by the cursor, and so a prefix of the reply plus the cursor; without a failure, one more snapshot shows the reply with no cursor, and it is returned; with a failure, `"Error: " + str(e)` is returned after the snapshots already shown |
| Streaming.StreamChat | app.py:56-68 | the accumulation loop computes exactly what `Consume` describes |
| Streaming.HelloStream | app.py:59-68 | the lines "Hel", "lo", an empty line and "!" show "Hel▌", "Hello▌", "Hello!▌", then "Hello!", which is returned |
| Streaming.FailureBeforeStream | app.py:52-54 | when the request fails before any line arrives, nothing is shown and only the error string is returned |
| Controller.ReplyText | app.py:148-151 | the assistant entry holds the assembled reply, or `"Error: " + str(e)` after a transport failure |
| Controller.ChatTurn | app.py:119-151 | earlier history is kept; the user entry comes next; unless composing raises, the request is the composition of the session holding the prompt, the snapshots are the streamed ones, and exactly one assistant entry with the reply follows; it raises exactly when a non-empty document has no type |
| Controller.ChatTurnWellFormed | app.py:121-151 | on a well-formed session a turn appends exactly `{user, prompt}` then `{assistant, reply}` and stays well formed |
| Controller.Prepared | app.py:75-96 | after initialisation and upload, the history is the initialised one and an uploaded file's content and label replace the document |
| Controller.Run | app.py:72-151 | a clear empties the session and sends nothing; an empty or missing prompt sends nothing and changes no history; a prompt is a chat turn on the prepared session, with the same stored session, request, snapshots and failure; well-formedness is kept |
| Controller.Runs | app.py:72-151 | a sequence of script runs: the first starts from the given state, and each later run starts from the session the previous run stored |
| Controller.RunsStayWellFormed | app.py:72-151 | from a well-formed state, no run in any sequence raises, and every stored session is well formed |
| Controller.FreshSessionNeverCrashes | app.py:130-132 | starting from a fresh session, the `file_type.upper()` failure is never reached |
| Controller.ClearThenAsk | app.py:107-144 | after a clear, a prompt with an empty uploader sends only that prompt |
| Controller.ClearThenAskWithFile | app.py:87-144 | after a clear, a prompt while the uploader still holds a file with content sends that file's system message and then the prompt |

## Left out

- Rendering is not modelled: `st.title`, the sidebar, chat bubbles, the echo of the prompt (app.py:124-125) and the history display loop (app.py:114-116). The placeholder is modelled as the list of snapshots written to it.
- The HTTP request is not modelled: the URL, the `model` selectbox and the JSON request body. The server's answer is a parameter (`Streaming.Response`), so the model does not connect the request sent to the reply received.
- JSON decoding is not modelled. Each line arrives decoded as `Blank` or `Record(message)`. A line that is not JSON, or a `message` without `content`, raises an exception the code does not catch.
- Decoding and extraction are not modelled. UTF-8 decoding of an upload can raise outside the `try` of `read_code_file`. PyPDF2 page extraction and pygments highlighting are foreign libraries. Their results are fields of `UploadedFile`. Highlighting success is a boolean, and a successful style sheet is taken to be non-empty.
- Text.AsciiUpper: upper-cases ASCII letters only, not Python's full Unicode `str.upper`, which can change a string's length.
- `st.rerun()` after "Clear Conversation" is modelled as ending the run: no prompt is read in that run.
- Exceptions outside the model are not modelled: the `file_type.upper()` failure is the only exception represented (as `crashed`). What Streamlit shows after an exception is not modelled either.
- The command-line variant of the front-end, which calls a CLI tool instead of HTTP, is not part of this model.
