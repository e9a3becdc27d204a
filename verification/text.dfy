/** The small string rules of the app: ASCII upper-casing of the type label,
    Python's `str.split` and `str.join` on a one-character separator, and the
    1000-character preview cut. */
module Text {

  predicate IsLowerAscii(c: char) {
    'a' <= c <= 'z'
  }

  /** `str.upper` restricted to ASCII: lower-case letters map to their capitals,
      everything else is kept. */
  function UpperChar(c: char): (u: char)
    ensures !IsLowerAscii(u)
    ensures !IsLowerAscii(c) ==> u == c
    ensures IsLowerAscii(c) ==> 'A' <= u <= 'Z' && c as int - u as int == 'a' as int - 'A' as int
  {
    if IsLowerAscii(c) then (c as int - ('a' as int - 'A' as int)) as char else c
  }

  /** The file-type label as shown in the context message: same length, every
      lower-case ASCII letter replaced by its own capital, every other
      character kept in place. */
  function AsciiUpper(s: string): (r: string)
    ensures |r| == |s|
    ensures forall i :: 0 <= i < |r| ==> !IsLowerAscii(r[i])
    ensures forall i :: 0 <= i < |r| ==> !IsLowerAscii(s[i]) ==> r[i] == s[i]
    ensures forall i :: 0 <= i < |r| ==> IsLowerAscii(s[i]) ==> r[i] as int == s[i] as int - ('a' as int - 'A' as int)
  {
    seq(|s|, i requires 0 <= i < |s| => UpperChar(s[i]))
  }

  /** No part contains the separator. */
  predicate FreeOf(parts: seq<string>, sep: char) {
    forall i :: 0 <= i < |parts| ==> sep !in parts[i]
  }

  /** `sep.join(parts)` for a non-empty list of parts. */
  function Join(parts: seq<string>, sep: char): (joined: string)
    requires |parts| >= 1
    decreases |parts|
  {
    if |parts| == 1 then parts[0]
    else Join(parts[..|parts| - 1], sep) + [sep] + parts[|parts| - 1]
  }

  /** Growing the last part grows the joined string at its end. */
  lemma {:induction false} JoinExtendLast(parts: seq<string>, sep: char, w: string)
    requires |parts| >= 1
    ensures Join(parts[..|parts| - 1] + [parts[|parts| - 1] + w], sep) == Join(parts, sep) + w
  {
    var n := |parts|;
    var grown := parts[..n - 1] + [parts[n - 1] + w];
    assert grown[..n - 1] == parts[..n - 1];
  }

  /** `s.split(sep)`: the parts between separators, never an empty list
      (`SplitFreeOf` shows no part holds the separator, `JoinSplit` that the
      parts join back to `s`). */
  function Split(s: string, sep: char): (parts: seq<string>)
    ensures |parts| >= 1
    decreases |s|
  {
    if |s| == 0 then [""]
    else
      var init := Split(s[..|s| - 1], sep);
      var c := s[|s| - 1];
      if c == sep then init + [""]
      else init[..|init| - 1] + [init[|init| - 1] + [c]]
  }

  /** No part of a split holds the separator. */
  lemma {:induction false} SplitFreeOf(s: string, sep: char)
    ensures FreeOf(Split(s, sep), sep)
    decreases |s|
  {
    if |s| > 0 {
      var init := Split(s[..|s| - 1], sep);
      SplitFreeOf(s[..|s| - 1], sep);
      var c := s[|s| - 1];
      if c != sep {
        var last := init[|init| - 1] + [c];
        assert sep !in init[|init| - 1];
        assert sep !in last;
        var parts := init[..|init| - 1] + [last];
        forall i | 0 <= i < |parts| ensures sep !in parts[i] {
          if i < |init| - 1 {
            assert parts[i] == init[i];
          }
        }
      }
    }
  }

  /** Round trip: joining the parts of a split gives the string back. */
  lemma {:induction false} JoinSplit(s: string, sep: char)
    ensures Join(Split(s, sep), sep) == s
    decreases |s|
  {
    if |s| > 0 {
      var init := Split(s[..|s| - 1], sep);
      JoinSplit(s[..|s| - 1], sep);
      var c := s[|s| - 1];
      assert s == s[..|s| - 1] + [c];
      if c == sep {
        assert (init + [""])[..|init|] == init;
      } else {
        JoinExtendLast(init, sep, [c]);
      }
    }
  }

  /** `w` is the last `sep`-separated segment of `s`: a suffix of `s` free of
      `sep` that is either all of `s` or preceded by `sep`. */
  predicate IsLastSegment(w: string, s: string, sep: char) {
    && |w| <= |s|
    && s[|s| - |w|..] == w
    && sep !in w
    && (|w| == |s| || s[|s| - |w| - 1] == sep)
  }

  /** A string has only one last segment. */
  lemma LastSegmentUnique(w1: string, w2: string, s: string, sep: char)
    requires IsLastSegment(w1, s, sep) && IsLastSegment(w2, s, sep)
    ensures w1 == w2
  {
    if |w1| < |w2| {
      assert false;
    } else if |w2| < |w1| {
      assert false;
    }
  }

  /** The last part of a join of separator-free parts is the joined string's
      last segment; it is all of the string exactly when there is one part. */
  lemma LastPartIsLastSegment(parts: seq<string>, sep: char)
    requires |parts| >= 1
    requires FreeOf(parts, sep)
    ensures IsLastSegment(parts[|parts| - 1], Join(parts, sep), sep)
    ensures |parts| == 1 <==> |parts[|parts| - 1]| == |Join(parts, sep)|
    ensures |parts| > 1 ==> Join(parts[..|parts| - 1], sep) == Join(parts, sep)[..|Join(parts, sep)| - |parts[|parts| - 1]| - 1]
  {
    var s := Join(parts, sep);
    var w := parts[|parts| - 1];
    if |parts| > 1 {
      var head := Join(parts[..|parts| - 1], sep) + [sep];
      assert s == head + w;
      assert s[|s| - |w|..] == w;
      assert s[|s| - |w| - 1] == head[|head| - 1] == sep;
      assert s[..|s| - |w| - 1] == head[..|head| - 1];
    }
  }

  /** Joining is injective on separator-free parts. */
  lemma {:induction false} JoinInjective(p: seq<string>, q: seq<string>, sep: char)
    requires |p| >= 1 && |q| >= 1
    requires FreeOf(p, sep) && FreeOf(q, sep)
    requires Join(p, sep) == Join(q, sep)
    ensures p == q
    decreases |p|
  {
    var s := Join(p, sep);
    LastPartIsLastSegment(p, sep);
    LastPartIsLastSegment(q, sep);
    LastSegmentUnique(p[|p| - 1], q[|q| - 1], s, sep);
    if |p| > 1 {
      assert |q| > 1;
      JoinInjective(p[..|p| - 1], q[..|q| - 1], sep);
      assert p == p[..|p| - 1] + [p[|p| - 1]];
      assert q == q[..|q| - 1] + [q[|q| - 1]];
    }
  }

  /** Round trip: splitting a join of separator-free parts gives the parts back. */
  lemma SplitJoin(parts: seq<string>, sep: char)
    requires |parts| >= 1
    requires FreeOf(parts, sep)
    ensures Split(Join(parts, sep), sep) == parts
  {
    var s := Join(parts, sep);
    SplitFreeOf(s, sep);
    JoinSplit(s, sep);
    JoinInjective(Split(s, sep), parts, sep);
  }

  /** Python's `s.split(sep)[-1]` is the last segment of `s`. */
  lemma SplitLastIsLastSegment(s: string, sep: char)
    ensures var parts := Split(s, sep);
            IsLastSegment(parts[|parts| - 1], s, sep)
  {
    SplitFreeOf(s, sep);
    JoinSplit(s, sep);
    LastPartIsLastSegment(Split(s, sep), sep);
  }

  /** The preview limit of the file-content expander. */
  const PreviewLimit: nat := 1000

  /** The marker appended to a cut preview. */
  const Ellipsis: string := "..."

  /** `content[:1000] + "..." if len(content) > 1000 else content`: short
      content is shown whole; long content is cut to its first 1000
      characters and marked. */
  function Preview(content: string): (r: string)
    ensures |content| <= PreviewLimit ==> r == content
    ensures |content| > PreviewLimit ==> |r| == PreviewLimit + |Ellipsis|
    ensures |content| > PreviewLimit ==> r[..PreviewLimit] == content[..PreviewLimit] && r[PreviewLimit..] == Ellipsis
    ensures |r| <= PreviewLimit + |Ellipsis|
  {
    if |content| > PreviewLimit then content[..PreviewLimit] + Ellipsis else content
  }

  /** Previewing a preview changes nothing: a cut preview is exactly 1003
      characters long and is cut again to the same text. */
  lemma PreviewIdempotent(content: string)
    ensures Preview(Preview(content)) == Preview(content)
  {
    var p := Preview(content);
    if |content| > PreviewLimit {
      assert p[..PreviewLimit] == content[..PreviewLimit];
    }
  }
}
