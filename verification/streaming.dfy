/** The streaming client `stream_chat_with_ollama`: it folds the lines of a
    streamed chat response into one reply, showing every intermediate reply
    with a cursor glyph, and turns a transport failure into an error string.
    The HTTP request and JSON decoding are outside the model: the response
    arrives as already-decoded lines. */
module Streaming {
  import opened Wrappers

  /** The glyph appended to every intermediate snapshot (U+258C). */
  const Cursor: string := "\U{258C}"

  /** The prefix of the string returned on a `RequestException`. */
  const ErrorPrefix: string := "Error: "

  /** One line of the streamed body. `Blank` is an empty line, skipped by
      `if line:`; a `Record` carries `message.content` when the decoded object
      has a `message` key and `None` when it has not. */
  datatype Line = Blank | Record(message: Option<string>)

  /** What the transport delivered: the lines read, in arrival order, and the
      text of the `RequestException` raised after them, if any. A failure of
      the request itself or of `raise_for_status` has no lines. */
  datatype Response = Response(lines: seq<Line>, failure: Option<string>)

  /** The snapshots written to the placeholder, in order, and the returned string. */
  datatype Outcome = Outcome(snapshots: seq<string>, text: string)

  /** The fragment one line contributes: its content, or nothing. */
  function Fragment(line: Line): (f: seq<string>)
    ensures |f| <= 1
    ensures |f| == 1 <==> line.Record? && line.message.Some?
  {
    match line
    case Record(Some(chunk)) => [chunk]
    case _ => []
  }

  /** The fragments of a run of lines, in arrival order. */
  function Fragments(lines: seq<Line>): (fs: seq<string>)
    ensures |fs| <= |lines|
    decreases |lines|
  {
    if |lines| == 0 then []
    else Fragments(lines[..|lines| - 1]) + Fragment(lines[|lines| - 1])
  }

  /** Concatenation of fragments, in order. */
  function Concat(fs: seq<string>): (text: string)
    decreases |fs|
  {
    if |fs| == 0 then "" else Concat(fs[..|fs| - 1]) + fs[|fs| - 1]
  }

  /** The reply a run of lines assembles to. */
  function Assemble(lines: seq<Line>): (reply: string) {
    Concat(Fragments(lines))
  }

  /** The intermediate snapshots: after each fragment, the text so far and the cursor. */
  function Partials(fs: seq<string>): (ps: seq<string>)
    ensures |ps| == |fs|
    decreases |fs|
  {
    if |fs| == 0 then [] else Partials(fs[..|fs| - 1]) + [Concat(fs) + Cursor]
  }

  /** `p` is some prefix of `full` followed by the cursor. */
  predicate Cursored(p: string, full: string) {
    |p| >= |Cursor| && p[|p| - |Cursor|..] == Cursor && p[..|p| - |Cursor|] <= full
  }

  lemma {:induction false} FragmentsAppend(a: seq<Line>, b: seq<Line>)
    ensures Fragments(a + b) == Fragments(a) + Fragments(b)
    decreases |b|
  {
    if |b| == 0 {
      assert a + b == a;
    } else {
      var b' := b[..|b| - 1];
      FragmentsAppend(a, b');
      assert (a + b)[..|a + b| - 1] == a + b';
      assert (a + b)[|a + b| - 1] == b[|b| - 1];
    }
  }

  lemma {:induction false} ConcatAppend(x: seq<string>, y: seq<string>)
    ensures Concat(x + y) == Concat(x) + Concat(y)
    decreases |y|
  {
    if |y| == 0 {
      assert x + y == x;
    } else {
      var y' := y[..|y| - 1];
      ConcatAppend(x, y');
      assert (x + y)[..|x + y| - 1] == x + y';
      assert (x + y)[|x + y| - 1] == y[|y| - 1];
    }
  }

  /** Assembly is a homomorphism: the reply of two runs of lines is the reply
      of the first followed by the reply of the second. */
  lemma AssembleAppend(a: seq<Line>, b: seq<Line>)
    ensures Assemble(a + b) == Assemble(a) + Assemble(b)
  {
    FragmentsAppend(a, b);
    ConcatAppend(Fragments(a), Fragments(b));
  }

  /** Empty lines and records without `message` add nothing to the reply
      wherever they arrive; a record with content adds exactly its content. */
  lemma AssembleLine(a: seq<Line>, line: Line, b: seq<Line>)
    ensures Assemble(a + [line] + b) ==
            Assemble(a) + (if line.Record? && line.message.Some? then line.message.value else "") + Assemble(b)
  {
    AssembleAppend(a + [line], b);
    AssembleAppend(a, [line]);
    assert [line][..0] == [];
    assert Fragments([line]) == Fragment(line);
  }

  /** One more fragment: the reply grows by it and one more snapshot shows it. */
  lemma ConcatStep(fs: seq<string>, chunk: string)
    ensures Concat(fs + [chunk]) == Concat(fs) + chunk
    ensures Partials(fs + [chunk]) == Partials(fs) + [Concat(fs) + chunk + Cursor]
  {
    assert (fs + [chunk])[..|fs|] == fs;
  }

  /** A prefix of the fragments concatenates to a prefix of the reply. */
  lemma {:induction false} ConcatPrefix(fs: seq<string>, j: nat)
    requires j <= |fs|
    ensures Concat(fs[..j]) <= Concat(fs)
    decreases |fs|
  {
    if j < |fs| {
      var init := fs[..|fs| - 1];
      ConcatPrefix(init, j);
      assert init[..j] == fs[..j];
    } else {
      assert fs[..j] == fs;
    }
  }

  /** The k-th snapshot is the first k+1 fragments followed by the cursor. */
  lemma {:induction false} PartialsAt(fs: seq<string>, k: nat)
    requires k < |fs|
    ensures Partials(fs)[k] == Concat(fs[..k + 1]) + Cursor
    decreases |fs|
  {
    if k < |fs| - 1 {
      var init := fs[..|fs| - 1];
      PartialsAt(init, k);
      assert init[..k + 1] == fs[..k + 1];
    } else {
      assert fs[..k + 1] == fs;
    }
  }

  /** Snapshot i shows a prefix of what snapshot j shows, for i <= j; with j
      the last snapshot, a prefix of the whole reply. */
  lemma {:induction false} PartialsGrow(fs: seq<string>, i: nat, j: nat)
    requires i <= j < |fs|
    ensures Cursored(Partials(fs)[i], Concat(fs[..j + 1]))
  {
    PartialsAt(fs, i);
    ConcatPrefix(fs[..j + 1], i + 1);
    assert fs[..j + 1][..i + 1] == fs[..i + 1];
    CursorAppended(Concat(fs[..i + 1]), Concat(fs[..j + 1]));
  }

  lemma CursorAppended(x: string, full: string)
    requires x <= full
    ensures Cursored(x + Cursor, full)
  {
    var p := x + Cursor;
    assert p[..|p| - |Cursor|] == x;
    assert p[|p| - |Cursor|..] == Cursor;
  }

  /** What the client shows and returns. Without a failure: one cursored
      snapshot per fragment, then the reply itself, which is returned. With a
      failure: the snapshots shown before it and `"Error: " + str(e)`. */
  function Consume(resp: Response): (o: Outcome)
    ensures resp.failure.None? ==>
              && o.text == Assemble(resp.lines)
              && |o.snapshots| == |Fragments(resp.lines)| + 1
              && o.snapshots[|o.snapshots| - 1] == o.text
    ensures resp.failure.Some? ==>
              && o.text == ErrorPrefix + resp.failure.value
              && |o.snapshots| == |Fragments(resp.lines)|
    ensures forall k :: 0 <= k < |Fragments(resp.lines)| ==>
              o.snapshots[k] == Concat(Fragments(resp.lines)[..k + 1]) + Cursor
    ensures forall k :: 0 <= k < |Fragments(resp.lines)| ==> Cursored(o.snapshots[k], Assemble(resp.lines))
  {
    var fs := Fragments(resp.lines);
    var partials := Partials(fs);
    assert forall k :: 0 <= k < |fs| ==> partials[k] == Concat(fs[..k + 1]) + Cursor && Cursored(partials[k], Concat(fs)) by {
      forall k | 0 <= k < |fs| ensures partials[k] == Concat(fs[..k + 1]) + Cursor && Cursored(partials[k], Concat(fs)) {
        PartialsAt(fs, k);
        PartialsGrow(fs, k, |fs| - 1);
        assert fs[..|fs|] == fs;
      }
    }
    match resp.failure
    case None => Outcome(partials + [Concat(fs)], Concat(fs))
    case Some(e) => Outcome(partials, ErrorPrefix + e)
  }

  /** The loop of `stream_chat_with_ollama`: it writes a snapshot after every
      line with content and one final snapshot, and it agrees with `Consume`. */
  method StreamChat(resp: Response) returns (snapshots: seq<string>, text: string)
    ensures Outcome(snapshots, text) == Consume(resp)
    ensures resp.failure.None? ==> text == Assemble(resp.lines) && snapshots[|snapshots| - 1] == text
    ensures resp.failure.Some? ==> text == ErrorPrefix + resp.failure.value
  {
    var full := "";
    snapshots := [];
    var i := 0;
    while i < |resp.lines|
      invariant 0 <= i <= |resp.lines|
      invariant full == Assemble(resp.lines[..i])
      invariant snapshots == Partials(Fragments(resp.lines[..i]))
    {
      var prefix := resp.lines[..i + 1];
      var before := Fragments(resp.lines[..i]);
      assert prefix[..i] == resp.lines[..i];
      assert Fragments(prefix) == before + Fragment(resp.lines[i]);
      match resp.lines[i] {
        case Record(Some(chunk)) =>
          ConcatStep(before, chunk);
          full := full + chunk;
          snapshots := snapshots + [full + Cursor];
        case _ =>
          assert before + [] == before;
      }
      i := i + 1;
    }
    assert resp.lines[..i] == resp.lines;
    match resp.failure {
      case Some(e) =>
        text := ErrorPrefix + e;
      case None =>
        snapshots := snapshots + [full];
        text := full;
    }
  }

  /** A worked stream: fragments "Hel", "lo", an empty line and "!" show
      "Hel▌", "Hello▌", "Hello!▌" and then "Hello!", which is returned. */
  lemma HelloStream()
    ensures var resp := Response([Record(Some("Hel")), Record(Some("lo")), Blank, Record(Some("!"))], None);
            Consume(resp) == Outcome(["Hel" + Cursor, "Hello" + Cursor, "Hello!" + Cursor, "Hello!"], "Hello!")
  {
    var lines := [Record(Some("Hel")), Record(Some("lo")), Blank, Record(Some("!"))];
    assert Fragments(lines[..1]) == ["Hel"] by {
      assert lines[..1][..0] == [];
    }
    assert Fragments(lines[..2]) == ["Hel", "lo"] by {
      assert lines[..2][..1] == lines[..1];
    }
    assert Fragments(lines[..3]) == ["Hel", "lo"] by {
      assert lines[..3][..2] == lines[..2];
    }
    assert Fragments(lines) == ["Hel", "lo", "!"] by {
      assert lines[..3] == lines[..|lines| - 1];
    }
    var f1: seq<string> := ["Hel"];
    var f2: seq<string> := ["Hel", "lo"];
    var f3: seq<string> := ["Hel", "lo", "!"];
    ConcatStep([], "Hel");
    assert [] + ["Hel"] == f1;
    assert Concat(f1) == "Hel";
    assert Partials(f1) == ["Hel" + Cursor];
    ConcatStep(f1, "lo");
    assert f1 + ["lo"] == f2;
    assert Concat(f2) == "Hello";
    assert Partials(f2) == ["Hel" + Cursor, "Hello" + Cursor];
    ConcatStep(f2, "!");
    assert f2 + ["!"] == f3;
    assert Concat(f3) == "Hello!";
    assert Partials(f3) == ["Hel" + Cursor, "Hello" + Cursor, "Hello!" + Cursor];
  }

  /** A failure before any line shows nothing and returns only the error. */
  lemma FailureBeforeStream(e: string)
    ensures Consume(Response([], Some(e))) == Outcome([], ErrorPrefix + e)
  {
  }
}
