/** Finding a quote in a file, whitespace aside: `locate_quote` in check.rs. */
module LocateQuote {
  import opened Wrappers
  import opened Text

  // ---------- the squashed file ----------

  function SquashAll(lines: seq<string>): (squashed: seq<string>)
    ensures |squashed| == |lines| && forall i :: 0 <= i < |lines| ==> squashed[i] == Squash(lines[i])
  {
    seq(|lines|, i requires 0 <= i < |lines| => Squash(lines[i]))
  }

  /** The squashed lines from `i` up to `j`, blank ones left out, joined by spaces. */
  function Joined(lines: seq<string>, i: nat, j: nat): (s: string)
    requires i <= j <= |lines|
  {
    if i == j then "" else Glue(Joined(lines, i, j - 1), lines[j - 1])
  }

  /** The same, but nothing is added any more once the text has `limit` bytes. */
  function Window(lines: seq<string>, i: nat, j: nat, limit: nat): (s: string)
    requires i <= j <= |lines|
  {
    if i == j then ""
    else
      var before := Window(lines, i, j - 1, limit);
      if ByteLen(before) >= limit then before else Glue(before, lines[j - 1])
  }

  /** The first line of the quote that is not blank, squashed. */
  function FirstLine(lines: seq<string>): (first: Option<string>) {
    if lines == [] then None
    else if Trim(lines[0]) != "" then Some(Squash(Trim(lines[0])))
    else FirstLine(lines[1..])
  }

  function Limit(q: string, first: string): (limit: nat) {
    ByteLen(q) + ByteLen(first) + 200
  }

  /** The quote is taken to start in line `i`: the line holds its first line, and the window from there holds it all. */
  predicate Accepts(lines: seq<string>, q: string, first: string, i: nat)
    requires i < |lines|
  {
    Contains(lines[i], first) && Contains(Window(lines, i, |lines|, Limit(q, first)), q)
  }

  function Distance(a: nat, b: nat): (d: nat) {
    if a >= b then a - b else b - a
  }

  /** The answer among the first `k` lines: the accepted line nearest the reported one, the earlier of two. */
  ghost predicate IsNearest(lines: seq<string>, q: string, first: string, reported: nat, k: nat, best: Option<nat>)
    requires k <= |lines|
  {
    match best
    case None => forall i :: 0 <= i < k ==> !Accepts(lines, q, first, i)
    case Some(ln) =>
      && 1 <= ln <= k && Accepts(lines, q, first, ln - 1)
      && (forall i :: 0 <= i < k && Accepts(lines, q, first, i) ==> Distance(ln, reported) <= Distance(i + 1, reported))
      && (forall i :: 0 <= i < ln - 1 && Accepts(lines, q, first, i) ==>
         Distance(ln, reported) < Distance(i + 1, reported))
  }

  function SquashedLines(text: string): (squashed: seq<string>)
    ensures |squashed| == |Lines(text)| && forall i :: 0 <= i < |squashed| ==> squashed[i] == Squash(Lines(text)[i])
  {
    SquashAll(Lines(text))
  }

  /** What `locate_quote` answers. */
  ghost predicate IsLocation(content: string, quote: string, reported: nat, answer: Option<nat>) {
    var q, first := Squash(quote), FirstLine(Lines(quote));
    if ByteLen(q) < 8 || first.None? then answer == None
    else IsNearest(SquashedLines(content), q, first.value, reported, |SquashedLines(content)|, answer)
  }

  // ---------- the methods ----------

  method Locate(content: string, quote: string, reported: nat) returns (best: Option<nat>)
    ensures IsLocation(content, quote, reported, best)
  {
    hide Squash, Accepts, IsNearest, ByteLen, FirstLine, Lines, SquashAll;
    best := None;
    var q := Squash(quote);
    var firstLine := FirstLine(Lines(quote));
    if ByteLen(q) < 8 || firstLine.None? {
      return;
    }
    var lines, first := Lines(content), firstLine.value;
    ghost var squashed := SquashedLines(content);
    NothingReadYet(squashed, q, first, reported);
    for i := 0 to |lines|
      invariant IsNearest(squashed, q, first, reported, i, best)
    {
      NearestGrows(squashed, q, first, reported, i, best);
      var accepted := StartsHere(lines, squashed, q, first, i);
      var ln := i + 1;
      if accepted && (best.None? || Distance(best.value, reported) > Distance(ln, reported)) {
        best := Some(ln);
      }
    }
  }

  /** Whether the quote is taken to start in line `i`. */
  method StartsHere(lines: seq<string>, ghost squashed: seq<string>, q: string, first: string, i: nat)
    returns (accepted: bool)
    requires i < |lines| && squashed == SquashAll(lines) && ByteLen(q) >= 8
    ensures accepted == Accepts(squashed, q, first, i)
  {
    if !Contains(Squash(lines[i]), first) {
      return false;
    }
    var window := Gather(lines, squashed, i, Limit(q, first));
    return Contains(window, q);
  }

  lemma NothingReadYet(lines: seq<string>, q: string, first: string, reported: nat)
    ensures IsNearest(lines, q, first, reported, 0, None)
  {
  }

  lemma NearestGrows(lines: seq<string>, q: string, first: string, reported: nat, i: nat, best: Option<nat>)
    requires i < |lines| && IsNearest(lines, q, first, reported, i, best)
    ensures var nearer := best.None? || Distance(best.value, reported) > Distance(i + 1, reported);
            var after := if Accepts(lines, q, first, i) && nearer then Some(i + 1) else best;
            IsNearest(lines, q, first, reported, i + 1, after)
  {
  }

  /** Enough following lines to hold the whole quote. */
  method Gather(lines: seq<string>, ghost squashed: seq<string>, i: nat, limit: nat) returns (window: string)
    requires i < |lines| && squashed == SquashAll(lines) && limit > 0
    ensures window == Window(squashed, i, |lines|, limit)
  {
    hide *;
    window := "";
    EmptyWindow(squashed, i, limit);
    for j := i to |lines|
      invariant window == Window(squashed, i, j, limit)
      invariant ByteLen(window) < limit
    {
      var l := Squash(lines[j]);
      OneLineMore(squashed, i, j, limit, window, l);
      if l != "" {
        if window != "" {
          window := window + " ";
        }
        window := window + l;
        if ByteLen(window) >= limit {
          FullWindowStays(squashed, i, j + 1, |lines|, limit);
          return;
        }
      }
    }
  }

  lemma EmptyWindow(lines: seq<string>, i: nat, limit: nat)
    requires i <= |lines| && limit > 0
    ensures Window(lines, i, i, limit) == "" && ByteLen("") < limit
  {
  }

  lemma OneLineMore(lines: seq<string>, i: nat, j: nat, limit: nat, window: string, l: string)
    requires i <= j < |lines| && window == Window(lines, i, j, limit) && ByteLen(window) < limit && l == lines[j]
    ensures Window(lines, i, j + 1, limit) == if l == "" then window else if window == "" then l else window + " " + l
    ensures "" + l == l
  {
  }

  lemma {:induction false} FullWindowStays(lines: seq<string>, i: nat, j: nat, k: nat, limit: nat)
    requires i <= j <= k <= |lines| && ByteLen(Window(lines, i, j, limit)) >= limit
    ensures Window(lines, i, k, limit) == Window(lines, i, j, limit)
  {
    if j < k {
      FullWindowStays(lines, i, j, k - 1, limit);
    }
  }

  // ---------- windows and the file ----------

  /** A window is the joined lines up to some line, which is the last unless the window is full. */
  lemma {:induction false} WindowIsJoined(lines: seq<string>, i: nat, j: nat, limit: nat) returns (m: nat)
    requires i <= j <= |lines|
    ensures i <= m <= j && Window(lines, i, j, limit) == Joined(lines, i, m)
    ensures m == j || ByteLen(Joined(lines, i, m)) >= limit
  {
    hide Glue, ByteLen;
    if i == j {
      m := i;
    } else {
      m := WindowIsJoined(lines, i, j - 1, limit);
      if ByteLen(Window(lines, i, j - 1, limit)) < limit {
        m := j;
      }
    }
  }

  lemma {:induction false} JoinedGrows(lines: seq<string>, i: nat, j: nat, k: nat)
    requires i <= j <= k <= |lines|
    ensures Joined(lines, i, j) <= Joined(lines, i, k)
  {
    if j < k {
      JoinedGrows(lines, i, j, k - 1);
    }
  }

  /** The text of the file from piece `i` on. */
  function TextFrom(pieces: seq<string>, i: nat): (text: string)
    requires i <= |pieces|
    decreases |pieces| - i
  {
    if i == |pieces| then "" else pieces[i] + TextFrom(pieces, i + 1)
  }

  lemma {:induction false} TextFromIsTheRest(pieces: seq<string>, i: nat)
    requires i <= |pieces|
    ensures ConcatTo(pieces, i) + TextFrom(pieces, i) == Concat(pieces)
    decreases |pieces| - i
  {
    if i < |pieces| {
      TextFromIsTheRest(pieces, i + 1);
      assert ConcatTo(pieces, i) + (pieces[i] + TextFrom(pieces, i + 1)) ==
             ConcatTo(pieces, i + 1) + TextFrom(pieces, i + 1);
    } else {
      assert Concat(pieces) + "" == Concat(pieces);
    }
  }

  lemma JoinedStep(lines: seq<string>, i: nat, j: nat)
    requires i < j <= |lines|
    ensures Joined(lines, i, j) == Glue(Joined(lines, i, j - 1), lines[j - 1])
  {
  }

  lemma JoinedOfOne(lines: seq<string>, i: nat)
    requires i < |lines|
    ensures Joined(lines, i, i + 1) == lines[i] == Glue(lines[i], Joined(lines, i + 1, i + 1))
  {
  }

  lemma {:induction false} JoinedFromFront(lines: seq<string>, i: nat, j: nat)
    requires i < j <= |lines|
    ensures Joined(lines, i, j) == Glue(lines[i], Joined(lines, i + 1, j))
  {
    hide Glue, Joined;
    if i + 1 < j {
      JoinedFromFront(lines, i, j - 1);
      JoinedStep(lines, i, j);
      JoinedStep(lines, i + 1, j);
      GlueIsAssociative(lines[i], Joined(lines, i + 1, j - 1), lines[j - 1]);
    } else {
      JoinedOfOne(lines, i);
    }
  }

  lemma SquashOfPiece(piece: string)
    ensures Squash(StripEol(piece)) == Squash(piece)
  {
    if piece != "" && piece[|piece| - 1] == '\n' {
      var line := piece[..|piece| - 1];
      assert piece == line + ['\n'] + "";
      SquashOfConcat(line, '\n', "");
      if line != "" && line[|line| - 1] == '\r' {
        assert line == line[..|line| - 1] + ['\r'] + "";
        SquashOfConcat(line[..|line| - 1], '\r', "");
      }
    }
  }

  ghost predicate AreLinesOf(pieces: seq<string>, lines: seq<string>) {
    && |lines| == |pieces|
    && (forall j :: 0 <= j < |pieces| ==> lines[j] == Squash(StripEol(pieces[j])))
    && (forall j :: 0 <= j < |pieces| - 1 ==> pieces[j] != "" && pieces[j][|pieces[j]| - 1] == '\n')
  }

  /** A piece's newline keeps it apart from what follows. */
  lemma SquashOfLineAndRest(piece: string, rest: string)
    requires piece != "" && piece[|piece| - 1] == '\n'
    ensures Squash(piece + rest) == Glue(Squash(piece), Squash(rest))
  {
    var line := piece[..|piece| - 1];
    assert piece == line + ['\n'] + "";
    assert piece + rest == line + ['\n'] + rest;
    SquashOfConcat(line, '\n', rest);
    SquashOfConcat(line, '\n', "");
  }

  lemma SquashOfNothing()
    ensures Squash("") == ""
  {
  }

  /** Squashing a file's text from some line on is joining its squashed lines. */
  lemma {:induction false} TextFromIsJoined(pieces: seq<string>, lines: seq<string>, i: nat)
    requires AreLinesOf(pieces, lines) && i <= |lines|
    ensures Squash(TextFrom(pieces, i)) == Joined(lines, i, |lines|)
    decreases |lines| - i
  {
    hide Squash, StripEol;
    if i == |lines| {
      SquashOfNothing();
    } else {
      TextFromIsJoined(pieces, lines, i + 1);
      JoinedFromFront(lines, i, |lines|);
      SquashOfPiece(pieces[i]);
      if i < |lines| - 1 {
        SquashOfLineAndRest(pieces[i], TextFrom(pieces, i + 1));
      } else {
        assert pieces[i] + "" == pieces[i];
      }
    }
  }

  lemma LinesOfPieces(content: string)
    ensures AreLinesOf(SplitInclusive(content), SquashedLines(content))
  {
    SplitIsWellCut(content);
  }

  lemma ContainsInPrefix(hay: string, more: string, needle: string)
    requires hay <= more && Contains(hay, needle)
    ensures Contains(more, needle)
  {
    var k :| 0 <= k <= |hay| && OccursAt(hay, needle, k);
    assert more[k..k + |needle|] == hay[k..k + |needle|];
    assert OccursAt(more, needle, k);
  }

  // ---------- main results ----------

  lemma LocatedIsAccepted(content: string, quote: string, reported: nat, ln: nat)
    requires IsLocation(content, quote, reported, Some(ln))
    ensures FirstLine(Lines(quote)).Some? && 1 <= ln <= |Lines(content)|
    ensures Accepts(SquashedLines(content), Squash(quote), FirstLine(Lines(quote)).value, ln - 1)
  {
  }

  lemma AcceptedIsThere(lines: seq<string>, q: string, first: string, i: nat)
    requires i < |lines| && Accepts(lines, q, first, i)
    ensures Contains(Joined(lines, i, |lines|), q)
  {
    var m := WindowIsJoined(lines, i, |lines|, Limit(q, first));
    JoinedGrows(lines, i, m, |lines|);
    ContainsInPrefix(Joined(lines, i, m), Joined(lines, i, |lines|), q);
  }

  /** Sound: from a located line on, the file's own text, squashed, holds the squashed quote. */
  lemma LocatedIsThere(content: string, quote: string, reported: nat, ln: nat)
    requires IsLocation(content, quote, reported, Some(ln))
    ensures 1 <= ln <= |Lines(content)|
    ensures ConcatTo(SplitInclusive(content), ln - 1) + TextFrom(SplitInclusive(content), ln - 1) == content
    ensures Contains(Squash(TextFrom(SplitInclusive(content), ln - 1)), Squash(quote))
  {
    hide *;
    LocatedIsAccepted(content, quote, reported, ln);
    AcceptedIsThere(SquashedLines(content), Squash(quote), FirstLine(Lines(quote)).value, ln - 1);
    LinesOfPieces(content);
    TextFromIsJoined(SplitInclusive(content), SquashedLines(content), ln - 1);
    TextFromIsTheRest(SplitInclusive(content), ln - 1);
    ConcatOfSplit(content);
  }

  lemma {:induction false} ByteLenPast(a: string, b: string, k: nat)
    requires k <= |b|
    ensures ByteLenTo(a + b, |a| + k) == ByteLen(a) + ByteLenTo(b, k)
  {
    if k == 0 {
      ByteLenOfPrefix(a + b, a, |a|);
    } else {
      ByteLenPast(a, b, k - 1);
    }
  }

  lemma LongerInBytes(a: string, b: string)
    requires a <= b && ByteLen(a) >= ByteLen(b)
    ensures a == b
  {
    ByteLenOfPrefix(a, b, |a|);
    ByteLenGrows(b, |a|, |b|);
  }

  lemma PrefixesOfOne(a: string, b: string, c: string)
    requires a <= c && b <= c
    ensures a <= b || b <= a
  {
    if |a| <= |b| {
      assert b[..|a|] == c[..|a|];
    } else {
      assert a[..|b|] == c[..|b|];
    }
  }

  /** A quote that starts early enough in the joined lines is not lost to the window's cut. */
  lemma EarlyQuoteIsInWindow(lines: seq<string>, i: nat, q: string, first: string, o: nat)
    requires i < |lines| && OccursAt(Joined(lines, i, |lines|), q, o)
    requires ByteLen(Joined(lines, i, |lines|)[..o]) <= ByteLen(first) + 200
    ensures Contains(Window(lines, i, |lines|, Limit(q, first)), q)
  {
    var all := Joined(lines, i, |lines|);
    var m := WindowIsJoined(lines, i, |lines|, Limit(q, first));
    var window := Joined(lines, i, m);
    JoinedGrows(lines, i, m, |lines|);
    QuoteBeforeCut(all, window, q, o, Limit(q, first));
  }

  lemma QuoteBeforeCut(all: string, window: string, q: string, o: nat, limit: nat)
    requires OccursAt(all, q, o) && window <= all
    requires window == all || ByteLen(window) >= limit
    requires ByteLen(all[..o]) + ByteLen(q) <= limit
    ensures Contains(window, q)
  {
    var upTo := all[..o + |q|];
    assert upTo == all[..o] + q;
    ByteLenPast(all[..o], q, |q|);
    PrefixesOfOne(window, upTo, all);
    if window <= upTo && window != all {
      LongerInBytes(window, upTo);
    }
    assert upTo <= window;
    assert window[o..o + |q|] == q by {
      assert window[..o + |q|] == upTo;
    }
    assert OccursAt(window, q, o);
  }

  // ---------- completeness ----------

  lemma SquashOfText(text: string)
    ensures Squash(text) == Joined(SquashedLines(text), 0, |SquashedLines(text)|)
  {
    LinesOfPieces(text);
    TextFromIsJoined(SplitInclusive(text), SquashedLines(text), 0);
    TextFromIsTheRest(SplitInclusive(text), 0);
    ConcatOfSplit(text);
    assert "" + TextFrom(SplitInclusive(text), 0) == TextFrom(SplitInclusive(text), 0);
  }

  lemma BlankSquashesToNothing(line: string)
    ensures Trim(line) == "" <==> Squash(line) == ""
  {
    var t := Trim(line);
    SquashOfTrim(line);
    JoinIsEmpty(Words(t), |Words(t)|);
    if t != "" {
      assert WordsTo(t, |t|).word != "";
    }
  }

  /** The first line is the first one that squashes to something. */
  lemma {:induction false} FirstLineExactly(lines: seq<string>, squashed: seq<string>) returns (f: nat)
    requires squashed == SquashAll(lines)
    requires exists k :: 0 <= k < |lines| && squashed[k] != ""
    ensures f < |lines| && FirstLine(lines) == Some(squashed[f])
    ensures squashed[f] != "" && forall k :: 0 <= k < f ==> squashed[k] == ""
  {
    hide Squash, Trim;
    BlankSquashesToNothing(lines[0]);
    SquashOfTrim(lines[0]);
    if Trim(lines[0]) != "" {
      f := 0;
    } else {
      var k :| 0 <= k < |lines| && squashed[k] != "";
      assert squashed[1..] == SquashAll(lines[1..]);
      assert squashed[1..][k - 1] != "";
      f := FirstLineExactly(lines[1..], squashed[1..]);
      assert forall j :: 1 <= j < f + 1 ==> squashed[j] == squashed[1..][j - 1];
      f := f + 1;
    }
  }

  lemma {:induction false} BlanksInFrontDoNotCount(lines: seq<string>, f: nat, j: nat)
    requires f <= j <= |lines| && forall k :: 0 <= k < f ==> lines[k] == ""
    ensures Joined(lines, 0, j) == Joined(lines, f, j)
    decreases f, j
  {
    if j > f {
      BlanksInFrontDoNotCount(lines, f, j - 1);
    } else if j > 0 {
      BlanksInFrontDoNotCount(lines, f - 1, j - 1);
    }
  }

  lemma {:induction false} SomeLineIsNotBlank(lines: seq<string>, j: nat)
    requires j <= |lines| && Joined(lines, 0, j) != ""
    ensures exists k :: 0 <= k < j && lines[k] != ""
  {
    if lines[j - 1] == "" {
      SomeLineIsNotBlank(lines, j - 1);
    }
  }

  /** Equal lines join to equal texts. */
  lemma {:induction false} JoinedAlike(a: seq<string>, b: seq<string>, at: nat, i: nat, j: nat)
    requires i <= j <= |a| && at + j <= |b|
    requires forall k :: i <= k < j ==> a[k] == b[at + k]
    ensures Joined(a, i, j) == Joined(b, at + i, at + j)
  {
    if i < j {
      hide Glue, Joined;
      JoinedAlike(a, b, at, i, j - 1);
      JoinedStep(a, i, j);
      JoinedStep(b, at + i, at + j);
      assert b[at + (j - 1)] == a[j - 1];
    }
  }

  /** The first non-blank line of a quote long enough to identify anything, and the quote as its joined lines. */
  lemma QuoteFromItsLines(quote: string) returns (f: nat)
    requires ByteLen(Squash(quote)) >= 8
    ensures f < |SquashedLines(quote)| && FirstLine(Lines(quote)) == Some(SquashedLines(quote)[f])
    ensures SquashedLines(quote)[f] != "" && forall k :: 0 <= k < f ==> SquashedLines(quote)[k] == ""
    ensures Squash(quote) == Joined(SquashedLines(quote), f, |SquashedLines(quote)|)
  {
    var lines := SquashedLines(quote);
    SquashOfText(quote);
    SomeLineIsNotBlank(lines, |lines|);
    f := FirstLineExactly(Lines(quote), lines);
    BlanksInFrontDoNotCount(lines, f, |lines|);
  }

  lemma ContainsItself(s: string)
    ensures Contains(s, s)
  {
    assert OccursAt(s, s, 0);
  }

  /** A run of whole lines is accepted where it starts. */
  lemma WholeLinesAreAccepted(lines: seq<string>, i: nat, j: nat)
    requires i < j <= |lines|
    ensures Accepts(lines, Joined(lines, i, j), lines[i], i)
  {
    var q, all := Joined(lines, i, j), Joined(lines, i, |lines|);
    JoinedGrows(lines, i, j, |lines|);
    assert all[0..0 + |q|] == q;
    EarlyQuoteIsInWindow(lines, i, q, lines[i], 0);
    ContainsItself(lines[i]);
  }

  lemma NearestIsNoFarther(
    lines: seq<string>, q: string, first: string, reported: nat, answer: Option<nat>, i: nat)
    requires i < |lines| && Accepts(lines, q, first, i) && IsNearest(lines, q, first, reported, |lines|, answer)
    ensures answer.Some? && Distance(answer.value, reported) <= Distance(i + 1, reported)
  {
  }

  lemma LocationIsNearest(content: string, quote: string, reported: nat, answer: Option<nat>, first: string)
    requires IsLocation(content, quote, reported, answer) && ByteLen(Squash(quote)) >= 8
    requires FirstLine(Lines(quote)) == Some(first)
    ensures IsNearest(SquashedLines(content), Squash(quote), first, reported, |SquashedLines(content)|, answer)
  {
  }

  /**
   * Complete: a quote of at least eight bytes that stands in the file as whole lines, whitespace aside, is always
   * found, at a line no farther from the reported one than where its first non-blank line stands.
   */
  lemma WholeLinesAreFound(content: string, quote: string, reported: nat, answer: Option<nat>, at: nat)
    returns (f: nat)
    requires IsLocation(content, quote, reported, answer) && ByteLen(Squash(quote)) >= 8
    requires at + |Lines(quote)| <= |Lines(content)|
    requires forall k :: 0 <= k < |Lines(quote)| ==> SquashedLines(quote)[k] == SquashedLines(content)[at + k]
    ensures f < |Lines(quote)| && FirstLine(Lines(quote)) == Some(SquashedLines(quote)[f])
    ensures answer.Some? && Distance(answer.value, reported) <= Distance(at + f + 1, reported)
  {
    hide *;
    f := QuoteFromItsLines(quote);
    var lines, n, first := SquashedLines(content), |Lines(quote)|, SquashedLines(quote)[f];
    LocationIsNearest(content, quote, reported, answer, first);
    JoinedAlike(SquashedLines(quote), lines, at, f, n);
    WholeLinesAreAccepted(lines, at + f, at + n);
    NearestIsNoFarther(lines, Squash(quote), first, reported, answer, at + f);
  }

  lemma {:induction false} WindowGrows(lines: seq<string>, i: nat, j: nat, k: nat, limit: nat)
    requires i <= j <= k <= |lines|
    ensures Window(lines, i, j, limit) <= Window(lines, i, k, limit)
  {
    if j < k {
      WindowGrows(lines, i, j, k - 1, limit);
    }
  }

  lemma QuoteInOneLineIsAccepted(lines: seq<string>, q: string, i: nat)
    requires i < |lines| && Contains(lines[i], q)
    ensures Accepts(lines, q, q, i)
  {
    var limit := Limit(q, q);
    assert Window(lines, i, i, limit) == "";
    assert Window(lines, i, i + 1, limit) == lines[i];
    WindowGrows(lines, i, i + 1, |lines|, limit);
    ContainsInPrefix(lines[i], Window(lines, i, |lines|, limit), q);
  }

  /**
   * A quote with one non-blank line is found exactly when a single line of the file holds it: one that joins two
   * lines of the file into one is not, although whitespace is otherwise ignored.
   */
  lemma OneLineQuoteNeedsOneLine(content: string, quote: string, reported: nat, answer: Option<nat>)
    requires IsLocation(content, quote, reported, answer) && ByteLen(Squash(quote)) >= 8
    requires FirstLine(Lines(quote)) == Some(Squash(quote))
    ensures answer.Some?
       <==> exists i :: 0 <= i < |Lines(content)| && Contains(SquashedLines(content)[i], Squash(quote))
  {
    var lines, q := SquashedLines(content), Squash(quote);
    if i :| 0 <= i < |lines| && Contains(lines[i], q) {
      QuoteInOneLineIsAccepted(lines, q, i);
      NearestIsNoFarther(lines, q, q, reported, answer, i);
    }
    if answer.Some? {
      LocatedIsAccepted(content, quote, reported, answer.value);
    }
  }

  // ---------- exactly which quotes are found ----------

  /** `q` stands in the lines from `i` up to `m`, and without the last of them they are shorter than `limit` bytes. */
  predicate HoldsUpTo(lines: seq<string>, i: nat, m: nat, limit: nat, q: string)
    requires i < |lines|
  {
    i < m <= |lines| && ByteLen(Joined(lines, i, m - 1)) < limit && Contains(Joined(lines, i, m), q)
  }

  /** A quote a caller can see is in reach: a line holds its first line, and no more lines are needed than fit. */
  ghost predicate IsInReach(lines: seq<string>, q: string, first: string, i: nat)
    requires i < |lines|
  {
    var limit := ByteLen(q) + ByteLen(first) + 200;
    Contains(lines[i], first) && exists m :: HoldsUpTo(lines, i, m, limit, q)
  }

  /** The window stops with the line that fills it. */
  lemma {:induction false} WindowStops(lines: seq<string>, i: nat, j: nat, limit: nat) returns (m: nat)
    requires i < j <= |lines| && limit > 0
    ensures i < m <= j && Window(lines, i, j, limit) == Joined(lines, i, m)
    ensures ByteLen(Joined(lines, i, m - 1)) < limit
    ensures m == j || ByteLen(Joined(lines, i, m)) >= limit
  {
    hide Window, Joined, Glue, ByteLen;
    WindowStep(lines, i, j, limit);
    JoinedStep(lines, i, j);
    if i + 1 == j {
      EmptyWindow(lines, i, limit);
      NothingJoined(lines, i);
      m := j;
    } else {
      m := WindowStops(lines, i, j - 1, limit);
      if ByteLen(Window(lines, i, j - 1, limit)) < limit {
        m := j;
      }
    }
  }

  lemma NothingJoined(lines: seq<string>, i: nat)
    requires i <= |lines|
    ensures Joined(lines, i, i) == ""
  {
  }

  lemma WindowStep(lines: seq<string>, i: nat, j: nat, limit: nat)
    requires i < j <= |lines|
    ensures Window(lines, i, j, limit)
         == if ByteLen(Window(lines, i, j - 1, limit)) >= limit then Window(lines, i, j - 1, limit)
            else Glue(Window(lines, i, j - 1, limit), lines[j - 1])
  {
  }

  lemma PrefixIsShorter(a: string, b: string)
    requires a <= b
    ensures ByteLen(a) <= ByteLen(b)
  {
    ByteLenOfPrefix(a, b, |a|);
    ByteLenGrows(b, |a|, |b|);
  }

  lemma WindowExactly(lines: seq<string>, i: nat, limit: nat, q: string)
    requires i < |lines| && limit > 0
    ensures Contains(Window(lines, i, |lines|, limit), q) <==> exists m :: HoldsUpTo(lines, i, m, limit, q)
  {
    hide ByteLen, Contains, Joined, Window;
    var m := WindowStops(lines, i, |lines|, limit);
    if n :| HoldsUpTo(lines, i, n, limit, q) {
      if m < n {
        JoinedGrows(lines, i, m, n - 1);
        PrefixIsShorter(Joined(lines, i, m), Joined(lines, i, n - 1));
      }
      JoinedGrows(lines, i, n, m);
      ContainsInPrefix(Joined(lines, i, n), Joined(lines, i, m), q);
    }
    if Contains(Joined(lines, i, m), q) {
      assert HoldsUpTo(lines, i, m, limit, q);
    }
  }

  lemma AcceptsExactly(lines: seq<string>, q: string, first: string, i: nat)
    requires i < |lines|
    ensures Accepts(lines, q, first, i) <==> IsInReach(lines, q, first, i)
  {
    hide Contains, Window, HoldsUpTo, ByteLen;
    var limit := ByteLen(q) + ByteLen(first) + 200;
    assert Limit(q, first) == limit;
    WindowExactly(lines, i, limit, q);
  }

  /**
   * A quote of at least eight bytes is found exactly when some line holds its first non-blank line, and from there on
   * the quote stands in the joined lines before 200 bytes more than the quote and its first line are full.
   */
  lemma FoundIffInReach(content: string, quote: string, reported: nat, answer: Option<nat>) returns (first: string)
    requires IsLocation(content, quote, reported, answer) && ByteLen(Squash(quote)) >= 8
    ensures FirstLine(Lines(quote)) == Some(first)
    ensures answer.Some?
       <==> exists i :: 0 <= i < |Lines(content)| && IsInReach(SquashedLines(content), Squash(quote), first, i)
  {
    hide *;
    var lines, q := SquashedLines(content), Squash(quote);
    var f := QuoteFromItsLines(quote);
    first := SquashedLines(quote)[f];
    LocationIsNearest(content, quote, reported, answer, first);
    if i :| 0 <= i < |lines| && IsInReach(lines, q, first, i) {
      AcceptsExactly(lines, q, first, i);
      NearestIsNoFarther(lines, q, first, reported, answer, i);
    }
    if answer.Some? {
      LocatedIsAccepted(content, quote, reported, answer.value);
      AcceptsExactly(lines, q, first, answer.value - 1);
    }
  }

  /** Where a quote's first line with anything on it is, which is what `FoundIffInReach` calls its first line. */
  lemma FirstLineIsNotBlank(quote: string, first: string) returns (f: nat)
    requires ByteLen(Squash(quote)) >= 8 && FirstLine(Lines(quote)) == Some(first)
    ensures f < |Lines(quote)| && first == Squash(Lines(quote)[f]) != ""
    ensures forall k :: 0 <= k < f ==> Squash(Lines(quote)[k]) == ""
  {
    f := QuoteFromItsLines(quote);
  }

  lemma ShortQuotesAreLost(content: string, quote: string, reported: nat, answer: Option<nat>)
    requires IsLocation(content, quote, reported, answer) && ByteLen(Squash(quote)) < 8
    ensures answer == None
  {
  }

  /**
   * No line in reach is nearer the reported one than the answer, and none in front of it is as near: between the answer
   * and its mirror image there is none.
   */
  lemma NoneIsNearer(content: string, quote: string, reported: nat, ln: nat, first: string, i: nat)
    requires IsLocation(content, quote, reported, Some(ln)) && FirstLine(Lines(quote)) == Some(first)
    requires i < |Lines(content)| && IsInReach(SquashedLines(content), Squash(quote), first, i)
    ensures 1 <= ln <= |Lines(content)| && IsInReach(SquashedLines(content), Squash(quote), first, ln - 1)
    ensures ln <= reported ==> !(ln < i + 1 < 2 * reported - ln)
    ensures ln > reported ==> !(2 * reported - ln <= i + 1 < ln)
  {
    hide Accepts, IsInReach, Squash, Lines, FirstLine, SquashAll;
    AcceptsExactly(SquashedLines(content), Squash(quote), first, i);
    AcceptsExactly(SquashedLines(content), Squash(quote), first, ln - 1);
  }

  // ---------- quotes that are lost ----------

  lemma LinesOfExample()
    ensures Lines("aaaa\nbbbb") == ["aaaa", "bbbb"] && Lines("aaaa bbbb") == ["aaaa bbbb"]
  {
    SplitOfOnePiece("aaaa\n");
    SplitOfOnePiece("bbbb");
    SplitOfConcat("aaaa\n", "bbbb");
    assert "aaaa\nbbbb" == "aaaa\n" + "bbbb";
    assert "aaaa\n"[..4] == "aaaa";
    SplitOfOnePiece("aaaa bbbb");
  }

  lemma SquashOfExample()
    ensures Squash("aaaa") == "aaaa" && Squash("bbbb") == "bbbb"
    ensures Squash("aaaa\nbbbb") == "aaaa bbbb" && Squash("aaaa bbbb") == "aaaa bbbb"
  {
    hide Squash;
    WordIsSquashed("aaaa");
    WordIsSquashed("bbbb");
    SquashOfConcat("aaaa", '\n', "bbbb");
    SquashOfConcat("aaaa", ' ', "bbbb");
    assert "aaaa\nbbbb" == "aaaa" + ['\n'] + "bbbb";
    assert "aaaa bbbb" == "aaaa" + [' '] + "bbbb";
  }

  /** The file and the quote squash to the same text, and yet the quote is not found. */
  lemma RewrappedQuoteIsLost(reported: nat, answer: Option<nat>)
    requires IsLocation("aaaa\nbbbb", "aaaa bbbb", reported, answer)
    ensures Squash("aaaa\nbbbb") == Squash("aaaa bbbb") && ByteLen(Squash("aaaa bbbb")) >= 8
    ensures answer == None
  {
    hide *;
    LinesOfExample();
    SquashOfExample();
    NineBytes();
    SquashOfTrim("aaaa bbbb");
    BlankSquashesToNothing("aaaa bbbb");
    FirstOfOne("aaaa bbbb");
    OneLineQuoteNeedsOneLine("aaaa\nbbbb", "aaaa bbbb", reported, answer);
    forall i | 0 <= i < |Lines("aaaa\nbbbb")|
      ensures !Contains(SquashedLines("aaaa\nbbbb")[i], "aaaa bbbb")
    {
      TooShortToContain(SquashedLines("aaaa\nbbbb")[i], "aaaa bbbb");
    }
  }

  const LONG: string := seq(300, i => 'x')

  lemma LinesOfLongExample()
    ensures Lines(LONG + " alpha beta\ngamma delta") == [LONG + " alpha beta", "gamma delta"]
    ensures Lines("alpha beta\ngamma delta") == ["alpha beta", "gamma delta"]
  {
    LinesOfTwo(LONG + " alpha beta", "gamma delta");
    LinesOfTwo("alpha beta", "gamma delta");
    assert LONG + " alpha beta\ngamma delta" == LONG + " alpha beta" + ['\n'] + "gamma delta";
    assert "alpha beta\ngamma delta" == "alpha beta" + ['\n'] + "gamma delta";
  }

  lemma LinesOfTwo(a: string, b: string)
    requires '\n' !in a && '\n' !in b && b != "" && a != "" && a[|a| - 1] != '\r'
    ensures Lines(a + ['\n'] + b) == [a, b]
  {
    SplitOfOnePiece(a + ['\n']);
    SplitOfOnePiece(b);
    SplitOfConcat(a + ['\n'], b);
    assert (a + ['\n'])[..|a|] == a;
  }

  lemma SquashOfTwoWords(a: string, b: string)
    requires a != "" && b != "" && forall c :: c in a || c in b ==> !IsWhite(c)
    ensures Squash(a + [' '] + b) == a + [' '] + b
  {
    hide Squash;
    WordIsSquashed(a);
    WordIsSquashed(b);
    SquashOfConcat(a, ' ', b);
  }

  lemma SquashOfLongExample()
    ensures Squash("alpha beta") == "alpha beta" && Squash("gamma delta") == "gamma delta"
    ensures Squash(LONG + " alpha beta") == LONG + " alpha beta"
    ensures Squash("alpha beta\ngamma delta") == "alpha beta gamma delta"
  {
    hide Squash;
    SquashOfTwoWords("alpha", "beta");
    SquashOfTwoWords("gamma", "delta");
    assert "alpha" + [' '] + "beta" == "alpha beta" && "gamma" + [' '] + "delta" == "gamma delta";
    SquashOfTwo(LONG, ' ', "alpha beta");
    SquashOfTwo("alpha beta", '\n', "gamma delta");
    WordIsSquashed(LONG);
    assert LONG + [' '] + "alpha beta" == LONG + " alpha beta";
    assert "alpha beta" + ['\n'] + "gamma delta" == "alpha beta\ngamma delta";
  }

  lemma SquashOfTwo(a: string, c: char, b: string)
    requires IsWhite(c)
    ensures Squash(a) != "" && Squash(b) != "" ==> Squash(a + [c] + b) == Squash(a) + [' '] + Squash(b)
  {
    SquashOfConcat(a, c, b);
  }

  lemma ContainsItsCharacters(hay: string, needle: string, c: char)
    requires c in needle
    ensures Contains(hay, needle) ==> c in hay
  {
    var i :| 0 <= i < |needle| && needle[i] == c;
    forall k | 0 <= k <= |hay| && OccursAt(hay, needle, k)
      ensures hay[k + i] == c
    {
      assert hay[k..k + |needle|][i] == hay[k + i];
    }
  }

  lemma BytesOfAscii(s: string, k: nat)
    requires k <= |s| && forall i :: 0 <= i < |s| ==> CharLen(s[i]) == 1
    ensures ByteLenTo(s, k) == k
  {
  }

  /** No line of the example has the quote in reach: behind the long line the window is full. */
  lemma NothingInReach(lines: seq<string>, q: string, first: string, i: nat)
    requires lines == [LONG + " alpha beta", "gamma delta"] && i < 2
    requires q == "alpha beta gamma delta" && first == "alpha beta"
    ensures !IsInReach(lines, q, first, i)
  {
    hide Contains, Joined, ByteLen;
    BytesOfAscii(q, |q|);
    BytesOfAscii(first, |first|);
    BytesAtLeast(lines[0]);
    BytesAreTheirSum(q);
    BytesAreTheirSum(first);
    ContainsItsCharacters(lines[1], first, first[6]);
    ContainsItsCharacters(lines[0], q, q[11]);
    JoinedOfOne(lines, 0);
    assert i == 0 ==> forall m :: m != 1 ==> !HoldsUpTo(lines, 0, m, Limit(q, first), q) by {
      JoinedGrowsBytes(lines, 0);
    }
  }

  lemma JoinedGrowsBytes(lines: seq<string>, i: nat)
    requires i < |lines|
    ensures forall m :: i < m <= |lines| ==> ByteLen(Joined(lines, i, m)) >= ByteLen(lines[i])
  {
    hide ByteLen;
    forall m | i < m <= |lines|
      ensures ByteLen(Joined(lines, i, m)) >= ByteLen(lines[i])
    {
      JoinedOfOne(lines, i);
      JoinedGrows(lines, i, i + 1, m);
      PrefixIsShorter(Joined(lines, i, i + 1), Joined(lines, i, m));
    }
  }

  lemma BytesAtLeast(s: string)
    ensures ByteLen(s) >= |s|
  {
    ByteLenGrows(s, 0, |s|);
  }

  lemma BytesAreTheirSum(s: string)
    ensures ByteLen(s) == ByteLenTo(s, |s|)
  {
  }

  /** A quote that stands in the file character by character, and yet is not found: its first line ends a long line. */
  lemma LongLineHidesQuote(reported: nat, answer: Option<nat>)
    requires IsLocation(LONG + " alpha beta\ngamma delta", "alpha beta\ngamma delta", reported, answer)
    ensures Contains(LONG + " alpha beta\ngamma delta", "alpha beta\ngamma delta")
    ensures answer == None
  {
    hide *;
    var content, quote := LONG + " alpha beta\ngamma delta", "alpha beta\ngamma delta";
    StandsBehind(LONG, content, quote);
    LinesOfLongExample();
    SquashOfLongExample();
    BytesAtLeast(Squash(quote));
    var first := FoundIffInReach(content, quote, reported, answer);
    FirstOfLongExample(quote, first);
    var lines := SquashedLines(content);
    assert lines == [LONG + " alpha beta", "gamma delta"];
    forall i | 0 <= i < |lines|
      ensures !IsInReach(lines, Squash(quote), first, i)
    {
      NothingInReach(lines, Squash(quote), first, i);
    }
  }

  lemma FirstOfLongExample(quote: string, first: string)
    requires Lines(quote) == ["alpha beta", "gamma delta"] && FirstLine(Lines(quote)) == Some(first)
    ensures first == "alpha beta"
  {
    hide Squash, Trim;
    SquashOfLongExample();
    SquashOfTrim("alpha beta");
    BlankSquashesToNothing("alpha beta");
  }

  lemma StandsBehind(front: string, hay: string, needle: string)
    requires hay == front + [' '] + needle
    ensures Contains(hay, needle)
  {
    assert hay[|front| + 1..|front| + 1 + |needle|] == needle;
    assert OccursAt(hay, needle, |front| + 1);
  }

  lemma NineBytes()
    ensures ByteLen("aaaa bbbb") >= 8
  {
    ByteLenGrows("aaaa bbbb", 0, 9);
  }

  lemma FirstOfOne(line: string)
    requires Trim(line) != ""
    ensures FirstLine([line]) == Some(Squash(Trim(line)))
  {
  }

  lemma TooShortToContain(hay: string, needle: string)
    requires |hay| < |needle|
    ensures !Contains(hay, needle)
  {
  }
}
