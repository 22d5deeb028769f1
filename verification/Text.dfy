/** Strings as the Rust standard library sees them: their order, bytes, whitespace and pieces. */
module Text {
  import opened Wrappers

  /** The order of `String`: code point by code point, a prefix first. */
  predicate Less(a: string, b: string) {
    if b == "" then false
    else if a == "" then true
    else a[0] < b[0] || (a[0] == b[0] && Less(a[1..], b[1..]))
  }

  lemma {:induction false} LessIsTotal(a: string, b: string)
    ensures Less(a, b) || a == b || Less(b, a)
    ensures !(Less(a, b) && Less(b, a)) && !Less(a, a)
  {
    if a != "" {
      LessIsTotal(a[1..], if b == "" then "" else b[1..]);
      if b != "" && a[0] == b[0] && a[1..] == b[1..] {
        assert a == [a[0]] + a[1..] == [b[0]] + b[1..] == b;
      }
    }
  }

  lemma {:induction false} LessIsTransitive(a: string, b: string, c: string)
    requires Less(a, b) && Less(b, c)
    ensures Less(a, c)
  {
    if a != "" && a[0] == b[0] && b[0] == c[0] {
      LessIsTransitive(a[1..], b[1..], c[1..]);
    }
  }

  /** The texts agree in front of `k`, and there the first one ends or has the smaller character. */
  predicate DiffersAt(a: string, b: string, k: int) {
    && 0 <= k <= |a| && k < |b| && (forall i :: 0 <= i < k ==> a[i] == b[i])
    && (k == |a| || a[k] < b[k])
  }

  lemma {:induction false} LessIffDiffers(a: string, b: string)
    ensures Less(a, b) <==> exists k :: DiffersAt(a, b, k)
  {
    if a == "" && b != "" {
      assert DiffersAt(a, b, 0);
    } else if a != "" && b != "" {
      LessIffDiffers(a[1..], b[1..]);
      if a[0] < b[0] {
        assert DiffersAt(a, b, 0);
      }
      if k :| DiffersAt(a[1..], b[1..], k) && a[0] == b[0] {
        assert forall i :: 0 < i < k + 1 ==> a[i] == a[1..][i - 1] && b[i] == b[1..][i - 1];
        assert DiffersAt(a, b, k + 1);
      }
      if k :| DiffersAt(a, b, k) && k > 0 {
        assert forall i :: 0 <= i < k - 1 ==> a[1..][i] == a[i + 1] && b[1..][i] == b[i + 1];
        assert DiffersAt(a[1..], b[1..], k - 1);
      }
    }
  }

  // ---------- bytes ----------

  /** How many bytes a character takes in UTF-8. */
  function CharLen(c: char): (n: nat)
    ensures n >= 1
  {
    if c as int < 0x80 then 1 else if c as int < 0x800 then 2 else if c as int < 0x1_0000 then 3 else 4
  }

  function ByteLenTo(s: string, k: nat): (n: nat)
    requires k <= |s|
    ensures n >= k
  {
    if k == 0 then 0 else ByteLenTo(s, k - 1) + CharLen(s[k - 1])
  }

  /** `len()` of a `str`. */
  function ByteLen(s: string): (n: nat) {
    ByteLenTo(s, |s|)
  }

  lemma {:induction false} ByteLenOfPrefix(a: string, b: string, k: nat)
    requires k <= |a| && k <= |b| && forall i :: 0 <= i < k ==> a[i] == b[i]
    ensures ByteLenTo(a, k) == ByteLenTo(b, k)
  {
    if k > 0 {
      ByteLenOfPrefix(a, b, k - 1);
    }
  }

  lemma {:induction false} ByteLenGrows(s: string, j: nat, k: nat)
    requires j <= k <= |s|
    ensures ByteLenTo(s, j) + (k - j) <= ByteLenTo(s, k)
  {
    if j < k {
      ByteLenGrows(s, j, k - 1);
    }
  }

  /** The bytes of a character in UTF-8 (section 3 of RFC 3629). */
  function Utf8(c: char): (bytes: seq<nat>) {
    var u: nat := c as int;
    if u <= 0x7F then [u]
    else if u <= 0x7FF then [0xC0 + u / 64, 0x80 + u % 64]
    else if u <= 0xFFFF then [0xE0 + u / 4096, 0x80 + u / 64 % 64, 0x80 + u % 64]
    else [0xF0 + u / 262144, 0x80 + u / 4096 % 64, 0x80 + u / 64 % 64, 0x80 + u % 64]
  }

  /** The bytes of the first `k` characters, one after the other. */
  function Utf8To(s: string, k: nat): (bytes: seq<nat>)
    requires k <= |s|
  {
    if k == 0 then [] else Utf8To(s, k - 1) + Utf8(s[k - 1])
  }

  lemma {:induction false} LengthInUtf8(s: string, k: nat)
    requires k <= |s|
    ensures ByteLenTo(s, k) == |Utf8To(s, k)|
  {
    if k > 0 {
      LengthInUtf8(s, k - 1);
    }
  }

  // ---------- whitespace, words, squashing ----------

  /** The characters with the Unicode property White_Space. */
  predicate IsWhite(c: char) {
    var u := c as int;
    || 9 <= u <= 13 || u == 32 || u == 0x85 || u == 0xA0 || u == 0x1680
    || 0x2000 <= u <= 0x200A || u == 0x2028 || u == 0x2029 || u == 0x202F || u == 0x205F || u == 0x3000
  }

  const WHITE: string := "\t\n\U{00000B}\U{00000C}\r \U{000085}\U{0000A0}\U{001680}"
    + "\U{002000}\U{002001}\U{002002}\U{002003}\U{002004}\U{002005}\U{002006}\U{002007}\U{002008}\U{002009}\U{00200A}"
    + "\U{002028}\U{002029}\U{00202F}\U{00205F}\U{003000}"

  lemma WhiteIsListed(c: char)
    ensures IsWhite(c) <==> c in WHITE
  {
  }

  /** The words finished so far, and the one being read. */
  datatype Splitting = Splitting(words: seq<string>, word: string) {
    function Finish(): (words: seq<string>) {
      if word == "" then words else words + [word]
    }
  }

  function WordsTo(s: string, k: nat): (st: Splitting)
    requires k <= |s|
    ensures forall w :: w in st.words ==> w != ""
  {
    if k == 0 then Splitting([], "")
    else
      var before := WordsTo(s, k - 1);
      if IsWhite(s[k - 1]) then Splitting(before.Finish(), "") else Splitting(before.words, before.word + [s[k - 1]])
  }

  /** `split_whitespace().collect()`. */
  function Words(s: string): (words: seq<string>)
    ensures forall w :: w in words ==> w != ""
  {
    WordsTo(s, |s|).Finish()
  }

  /** Whitespace runs become single spaces, and none stands at either end. */
  function Squash(s: string): (squashed: string) {
    JoinOn(Words(s), ' ', |Words(s)|)
  }

  /** Two squashed texts, one after the other. */
  function Glue(a: string, b: string): (glued: string)
    ensures a <= glued
  {
    if a == "" then b else if b == "" then a else a + " " + b
  }

  lemma {:induction false} WordsToOfPrefix(a: string, b: string, k: nat)
    requires k <= |a| && k <= |b| && forall i :: 0 <= i < k ==> a[i] == b[i]
    ensures WordsTo(a, k) == WordsTo(b, k)
  {
    if k > 0 {
      WordsToOfPrefix(a, b, k - 1);
    }
  }

  /** After a whitespace character, words start afresh. */
  lemma {:induction false} WordsToPast(a: string, w: char, b: string, k: nat)
    requires IsWhite(w) && k <= |b|
    ensures WordsTo(a + [w] + b, |a| + 1 + k) == Splitting(Words(a) + WordsTo(b, k).words, WordsTo(b, k).word)
  {
    var s := a + [w] + b;
    if k == 0 {
      WordsToOfPrefix(s, a, |a|);
      assert s[|a|] == w;
      assert Words(a) + [] == Words(a);
    } else {
      WordsToPast(a, w, b, k - 1);
      assert s[|a| + k] == b[k - 1];
      var before := WordsTo(b, k - 1);
      assert Words(a) + before.words + [before.word] == Words(a) + (before.words + [before.word]);
    }
  }

  lemma WordsOfConcat(a: string, w: char, b: string)
    requires IsWhite(w)
    ensures Words(a + [w] + b) == Words(a) + Words(b)
  {
    WordsToPast(a, w, b, |b|);
    var last := WordsTo(b, |b|);
    assert Words(a) + last.words + [last.word] == Words(a) + (last.words + [last.word]);
  }

  lemma {:induction false} JoinOfPrefix(a: seq<string>, b: seq<string>, c: char, k: nat)
    requires k <= |a| && k <= |b| && forall i :: 0 <= i < k ==> a[i] == b[i]
    ensures JoinOn(a, c, k) == JoinOn(b, c, k)
  {
    if k > 0 {
      JoinOfPrefix(a, b, c, k - 1);
    }
  }

  lemma {:induction false} JoinIsEmpty(words: seq<string>, k: nat)
    requires k <= |words| && forall w :: w in words ==> w != ""
    ensures JoinOn(words, ' ', k) == "" <==> k == 0
  {
    if k == 1 {
      assert words[0] in words;
    }
  }

  lemma SpacesAssociate(a: string, b: string, c: string)
    ensures a + " " + b + " " + c == a + " " + (b + " " + c)
  {
  }

  lemma {:induction false} JoinPast(a: seq<string>, b: seq<string>, k: nat)
    requires k <= |b| && (forall w :: w in a ==> w != "") && (forall w :: w in b ==> w != "")
    ensures JoinOn(a + b, ' ', |a| + k) == Glue(JoinOn(a, ' ', |a|), JoinOn(b, ' ', k))
  {
    JoinIsEmpty(a, |a|);
    JoinIsEmpty(b, k);
    if k == 0 {
      JoinOfPrefix(a + b, a, ' ', |a|);
    } else {
      JoinPast(a, b, k - 1);
      JoinIsEmpty(b, k - 1);
      assert (a + b)[|a| + k - 1] == b[k - 1];
      if a != [] && k > 1 {
        SpacesAssociate(JoinOn(a, ' ', |a|), JoinOn(b, ' ', k - 1), b[k - 1]);
      }
    }
  }

  /** Squashing a text with a whitespace character in it glues the squashed halves. */
  lemma SquashOfConcat(a: string, w: char, b: string)
    requires IsWhite(w)
    ensures Squash(a + [w] + b) == Glue(Squash(a), Squash(b))
  {
    WordsOfConcat(a, w, b);
    JoinPast(Words(a), Words(b), |Words(b)|);
  }

  lemma {:induction false} WordIsOneWord(s: string, k: nat)
    requires k <= |s| && forall i :: 0 <= i < |s| ==> !IsWhite(s[i])
    ensures WordsTo(s, k) == Splitting([], s[..k])
  {
    if k > 0 {
      WordIsOneWord(s, k - 1);
      assert s[..k] == s[..k - 1] + [s[k - 1]];
    }
  }

  lemma WordIsSquashed(s: string)
    requires s != "" && forall i :: 0 <= i < |s| ==> !IsWhite(s[i])
    ensures Squash(s) == s
  {
    WordIsOneWord(s, |s|);
    assert s[..|s|] == s;
    assert Words(s) == [s];
  }

  lemma GlueIsAssociative(a: string, b: string, c: string)
    ensures Glue(Glue(a, b), c) == Glue(a, Glue(b, c))
  {
    if a != "" && b != "" && c != "" {
      assert a + " " + b + " " + c == a + " " + (b + " " + c);
    }
  }

  // ---------- trimming ----------

  function TrimStart(s: string): (t: string)
    ensures t != "" ==> !IsWhite(t[0])
  {
    if s != "" && IsWhite(s[0]) then TrimStart(s[1..]) else s
  }

  function TrimEnd(s: string): (t: string)
    ensures t <= s && (t != "" ==> !IsWhite(t[|t| - 1]))
  {
    if s != "" && IsWhite(s[|s| - 1]) then TrimEnd(s[..|s| - 1]) else s
  }

  function Trim(s: string): (t: string)
    ensures t != "" ==> !IsWhite(t[0]) && !IsWhite(t[|t| - 1])
  {
    TrimEnd(TrimStart(s))
  }

  predicate AllWhite(s: string) {
    forall i :: 0 <= i < |s| ==> IsWhite(s[i])
  }

  lemma {:induction false} TrimStartTakesWhite(s: string) returns (front: string)
    ensures s == front + TrimStart(s) && AllWhite(front)
  {
    if s != "" && IsWhite(s[0]) {
      front := TrimStartTakesWhite(s[1..]);
      front := [s[0]] + front;
    } else {
      front := "";
    }
  }

  lemma {:induction false} TrimEndTakesWhite(s: string) returns (back: string)
    ensures s == TrimEnd(s) + back && AllWhite(back)
  {
    if s != "" && IsWhite(s[|s| - 1]) {
      back := TrimEndTakesWhite(s[..|s| - 1]);
      back := back + [s[|s| - 1]];
    } else {
      back := "";
    }
  }

  /** Trimming takes white space off both ends, all of it, and nothing else. */
  lemma TrimTakesWhite(s: string) returns (front: string, back: string)
    ensures s == front + Trim(s) + back && AllWhite(front) && AllWhite(back)
    ensures Trim(s) != "" ==> !IsWhite(Trim(s)[0]) && !IsWhite(Trim(s)[|Trim(s)| - 1])
  {
    front := TrimStartTakesWhite(s);
    back := TrimEndTakesWhite(TrimStart(s));
  }

  /** What stands between white space, and has none at its own ends, is what trimming leaves. */
  lemma TrimOfBetween(front: string, s: string, back: string)
    requires AllWhite(front) && AllWhite(back)
    requires s == "" || (!IsWhite(s[0]) && !IsWhite(s[|s| - 1]))
    ensures Trim(front + s + back) == s
  {
    TrimStartPast(front, s + back);
    assert front + s + back == front + (s + back);
    if s == "" {
      TrimStartPast(back, "");
      assert s + back == back && back + "" == back;
    } else {
      assert (s + back)[0] == s[0];
      TrimEndBefore(s, back);
    }
  }

  lemma {:induction false} TrimStartPast(front: string, s: string)
    requires AllWhite(front)
    ensures TrimStart(front + s) == TrimStart(s)
  {
    if front != "" {
      assert (front + s)[1..] == front[1..] + s;
      TrimStartPast(front[1..], s);
    } else {
      assert front + s == s;
    }
  }

  lemma {:induction false} TrimEndBefore(s: string, back: string)
    requires AllWhite(back) && s != "" && !IsWhite(s[|s| - 1])
    ensures TrimEnd(s + back) == s
  {
    if back != "" {
      var n := |back| - 1;
      assert (s + back)[..|s| + n] == s + back[..n];
      TrimEndBefore(s, back[..n]);
    } else {
      assert s + back == s;
    }
  }

  lemma {:induction false} SquashOfTrim(s: string)
    ensures Squash(Trim(s)) == Squash(s)
  {
    SquashOfTrimStart(s);
    SquashOfTrimEnd(TrimStart(s));
  }

  lemma {:induction false} SquashOfTrimStart(s: string)
    ensures Squash(TrimStart(s)) == Squash(s)
  {
    if s != "" && IsWhite(s[0]) {
      SquashOfTrimStart(s[1..]);
      assert s == "" + [s[0]] + s[1..];
      SquashOfConcat("", s[0], s[1..]);
    }
  }

  lemma {:induction false} SquashOfTrimEnd(s: string)
    ensures Squash(TrimEnd(s)) == Squash(s)
  {
    if s != "" && IsWhite(s[|s| - 1]) {
      var n := |s| - 1;
      SquashOfTrimEnd(s[..n]);
      assert s == s[..n] + [s[n]] + "";
      SquashOfConcat(s[..n], s[n], "");
    }
  }

  // ---------- lines ----------

  /** The pieces finished by a newline so far, and the open one. */
  datatype Cutting = Cutting(pieces: seq<string>, open: string) {
    function Finish(): (pieces: seq<string>) {
      if open == "" then pieces else pieces + [open]
    }
  }

  function PiecesTo(s: string, k: nat): (st: Cutting)
    requires k <= |s|
  {
    if k == 0 then Cutting([], "")
    else
      var before := PiecesTo(s, k - 1);
      if s[k - 1] == '\n' then Cutting(before.pieces + [before.open + "\n"], "")
      else Cutting(before.pieces, before.open + [s[k - 1]])
  }

  /** `split_inclusive('\n')`: every piece keeps its newline. */
  function SplitInclusive(s: string): (pieces: seq<string>) {
    PiecesTo(s, |s|).Finish()
  }

  /** A piece without its line ending: a newline and a carriage return before it. */
  function StripEol(piece: string): (line: string) {
    if piece == "" || piece[|piece| - 1] != '\n' then piece
    else
      var line := piece[..|piece| - 1];
      if line != "" && line[|line| - 1] == '\r' then line[..|line| - 1] else line
  }

  /** `lines()`. */
  function Lines(s: string): (lines: seq<string>)
    ensures |lines| == |SplitInclusive(s)|
    ensures forall i :: 0 <= i < |lines| ==> lines[i] == StripEol(SplitInclusive(s)[i])
  {
    var pieces := SplitInclusive(s);
    seq(|pieces|, i requires 0 <= i < |pieces| => StripEol(pieces[i]))
  }

  /** The first `k` pieces, one after the other. */
  function ConcatTo(pieces: seq<string>, k: nat): (s: string)
    requires k <= |pieces|
  {
    if k == 0 then "" else ConcatTo(pieces, k - 1) + pieces[k - 1]
  }

  function Concat(pieces: seq<string>): (s: string) {
    ConcatTo(pieces, |pieces|)
  }

  lemma {:induction false} ConcatOfPrefix(a: seq<string>, b: seq<string>, k: nat)
    requires k <= |a| && k <= |b| && forall i :: 0 <= i < k ==> a[i] == b[i]
    ensures ConcatTo(a, k) == ConcatTo(b, k)
  {
    if k > 0 {
      ConcatOfPrefix(a, b, k - 1);
    }
  }

  lemma {:induction false} ConcatGrows(pieces: seq<string>, j: nat, k: nat)
    requires j <= k <= |pieces|
    ensures ConcatTo(pieces, j) <= ConcatTo(pieces, k)
  {
    if j < k {
      ConcatGrows(pieces, j, k - 1);
    }
  }

  lemma {:induction false} PiecesAddUp(s: string, k: nat)
    requires k <= |s|
    ensures Concat(PiecesTo(s, k).pieces) + PiecesTo(s, k).open == s[..k]
  {
    if k > 0 {
      PiecesAddUp(s, k - 1);
      var before := PiecesTo(s, k - 1);
      assert s[..k] == s[..k - 1] + [s[k - 1]];
      if s[k - 1] == '\n' {
        ConcatOfPrefix(before.pieces, before.pieces + [before.open + "\n"], |before.pieces|);
        assert Concat(before.pieces) + (before.open + "\n") == Concat(before.pieces) + before.open + "\n";
      } else {
        assert Concat(before.pieces) + (before.open + [s[k - 1]]) == Concat(before.pieces) + before.open + [s[k - 1]];
      }
    }
  }

  /** The pieces of a text, one after the other, are the text. */
  lemma ConcatOfSplit(s: string)
    ensures Concat(SplitInclusive(s)) == s
  {
    PiecesAddUp(s, |s|);
    assert s[..|s|] == s;
    var st := PiecesTo(s, |s|);
    if st.open != "" {
      ConcatOfPrefix(st.pieces, st.pieces + [st.open], |st.pieces|);
    } else {
      assert Concat(st.pieces) + "" == Concat(st.pieces);
    }
  }

  lemma {:induction false} PiecesOfPrefix(a: string, b: string, k: nat)
    requires k <= |a| && k <= |b| && forall i :: 0 <= i < k ==> a[i] == b[i]
    ensures PiecesTo(a, k) == PiecesTo(b, k)
  {
    if k > 0 {
      PiecesOfPrefix(a, b, k - 1);
    }
  }

  ghost predicate EndsLine(s: string) {
    s == "" || s[|s| - 1] == '\n'
  }

  /** Behind a finished line, pieces start afresh. */
  lemma {:induction false} PiecesPast(a: string, b: string, k: nat)
    requires EndsLine(a) && k <= |b|
    ensures PiecesTo(a + b, |a| + k) == Cutting(SplitInclusive(a) + PiecesTo(b, k).pieces, PiecesTo(b, k).open)
  {
    if k == 0 {
      PiecesOfPrefix(a + b, a, |a|);
      assert SplitInclusive(a) + [] == SplitInclusive(a);
    } else {
      PiecesPast(a, b, k - 1);
      var before := PiecesTo(b, k - 1);
      assert (a + b)[|a| + k - 1] == b[k - 1];
      assert SplitInclusive(a) + before.pieces + [before.open + "\n"]
          == SplitInclusive(a) + (before.pieces + [before.open + "\n"]);
    }
  }

  lemma SplitOfConcat(a: string, b: string)
    requires EndsLine(a)
    ensures SplitInclusive(a + b) == SplitInclusive(a) + SplitInclusive(b)
  {
    PiecesPast(a, b, |b|);
    var last := PiecesTo(b, |b|);
    assert SplitInclusive(a) + last.pieces + [last.open] == SplitInclusive(a) + (last.pieces + [last.open]);
  }

  lemma {:induction false} PiecesOfPlain(s: string, k: nat)
    requires k <= |s| && forall i :: 0 <= i < k ==> s[i] != '\n'
    ensures PiecesTo(s, k) == Cutting([], s[..k])
  {
    if k > 0 {
      PiecesOfPlain(s, k - 1);
      assert s[..k] == s[..k - 1] + [s[k - 1]];
    }
  }

  /** A text with no newline, or only a final one, is one piece. */
  lemma SplitOfOnePiece(s: string)
    requires s != "" && forall i :: 0 <= i < |s| - 1 ==> s[i] != '\n'
    ensures SplitInclusive(s) == [s]
  {
    PiecesOfPlain(s, |s| - 1);
    assert s == s[..|s| - 1] + [s[|s| - 1]];
  }

  /**
   * What `split_inclusive` yields: no piece is empty, and a newline stands at the end of every piece but maybe the
   * last.
   */
  ghost predicate WellCut(pieces: seq<string>) {
    && (forall j :: 0 <= j < |pieces| ==>
          pieces[j] != "" && forall i :: 0 <= i < |pieces[j]| - 1 ==> pieces[j][i] != '\n')
    && (forall j :: 0 <= j < |pieces| - 1 ==> EndsLine(pieces[j]))
  }

  lemma {:induction false} PiecesAreWellCut(s: string, k: nat)
    requires k <= |s|
    ensures var st := PiecesTo(s, k);
            && WellCut(st.pieces) && (forall j :: 0 <= j < |st.pieces| ==> EndsLine(st.pieces[j]))
            && '\n' !in st.open
  {
    if k > 0 {
      PiecesAreWellCut(s, k - 1);
    }
  }

  lemma SplitIsWellCut(s: string)
    ensures WellCut(SplitInclusive(s))
  {
    PiecesAreWellCut(s, |s|);
  }

  lemma {:induction false} ConcatEndsLine(pieces: seq<string>, k: nat)
    requires k <= |pieces| && forall j :: 0 <= j < k ==> pieces[j] != "" && EndsLine(pieces[j])
    ensures EndsLine(ConcatTo(pieces, k))
  {
  }

  lemma SplitOfNothing()
    ensures SplitInclusive("") == []
  {
  }

  /** Well-cut pieces, put together and cut again, are the same pieces. */
  lemma {:induction false} SplitOfConcatTo(pieces: seq<string>, k: nat)
    requires k <= |pieces| && WellCut(pieces)
    ensures SplitInclusive(ConcatTo(pieces, k)) == pieces[..k]
  {
    hide SplitInclusive;
    if k == 0 {
      SplitOfNothing();
    } else {
      SplitOfConcatTo(pieces, k - 1);
      ConcatEndsLine(pieces, k - 1);
      SplitOfConcat(ConcatTo(pieces, k - 1), pieces[k - 1]);
      SplitOfOnePiece(pieces[k - 1]);
      assert pieces[..k] == pieces[..k - 1] + [pieces[k - 1]];
    }
  }

  lemma SplitOfPieces(pieces: seq<string>)
    requires WellCut(pieces)
    ensures SplitInclusive(Concat(pieces)) == pieces
  {
    SplitOfConcatTo(pieces, |pieces|);
    assert pieces[..|pieces|] == pieces;
  }

  /** No line holds a newline. */
  lemma LineHasNoNewline(s: string, i: nat)
    requires i < |Lines(s)|
    ensures '\n' !in Lines(s)[i]
  {
    SplitIsWellCut(s);
    var piece := SplitInclusive(s)[i];
    assert forall j :: 0 <= j < |piece| - 1 ==> piece[j] != '\n';
  }

  lemma LinesOfPiece(piece: string, rest: string)
    requires piece != "" && piece[|piece| - 1] == '\n' && forall i :: 0 <= i < |piece| - 1 ==> piece[i] != '\n'
    ensures Lines(piece + rest) == [StripEol(piece)] + Lines(rest)
  {
    hide SplitInclusive, StripEol;
    SplitOfOnePiece(piece);
    SplitOfConcat(piece, rest);
    assert SplitInclusive(piece + rest) == [piece] + SplitInclusive(rest);
  }

  lemma EndingsAreStripped(line: string)
    ensures line == "" || line[|line| - 1] != '\r' ==> StripEol(line + "\n") == line
    ensures StripEol(line + "\r\n") == line
  {
    assert (line + "\n")[..|line|] == line;
    assert (line + "\r\n")[..|line| + 1] == line + "\r";
    assert (line + "\r")[..|line|] == line;
  }

  /** A line and its ending, with or without a carriage return, is read off; what follows is read by itself. */
  lemma LinesOfLine(line: string, rest: string)
    requires '\n' !in line
    ensures line == "" || line[|line| - 1] != '\r' ==> Lines(line + "\n" + rest) == [line] + Lines(rest)
    ensures Lines(line + "\r\n" + rest) == [line] + Lines(rest)
  {
    hide Lines, StripEol;
    EndingsAreStripped(line);
    LinesOfPiece(line + "\n", rest);
    LinesOfPiece(line + "\r\n", rest);
  }

  lemma LinesOfLast(line: string)
    requires '\n' !in line
    ensures Lines(line) == if line == "" then [] else [line]
  {
    if line == "" {
      SplitOfNothing();
    } else {
      SplitOfOnePiece(line);
      assert line[|line| - 1] in line;
    }
  }

  // ---------- cutting at a character, and joining ----------

  /** The first `k` characters cut at every `c`: what is cut off, and the open part. */
  function PartsTo(s: string, c: char, k: nat): (st: Cutting)
    requires k <= |s|
  {
    if k == 0 then Cutting([], "")
    else
      var before := PartsTo(s, c, k - 1);
      if s[k - 1] == c then Cutting(before.pieces + [before.open], "")
      else Cutting(before.pieces, before.open + [s[k - 1]])
  }

  /** `split(c)`: one part more than there are `c`s. */
  function SplitOn(s: string, c: char): (parts: seq<string>)
    ensures parts != []
  {
    PartsTo(s, c, |s|).pieces + [PartsTo(s, c, |s|).open]
  }

  /** `join` of the first `k` parts. */
  function JoinOn(parts: seq<string>, c: char, k: nat): (s: string)
    requires k <= |parts|
  {
    if k == 0 then "" else if k == 1 then parts[0] else JoinOn(parts, c, k - 1) + [c] + parts[k - 1]
  }

  lemma {:induction false} PartsOfPrefix(a: string, b: string, c: char, k: nat)
    requires k <= |a| && k <= |b| && forall i :: 0 <= i < k ==> a[i] == b[i]
    ensures PartsTo(a, c, k) == PartsTo(b, c, k)
  {
    if k > 0 {
      PartsOfPrefix(a, b, c, k - 1);
    }
  }

  lemma {:induction false} PartsPast(a: string, c: char, b: string, k: nat)
    requires k <= |b|
    ensures PartsTo(a + [c] + b, c, |a| + 1 + k)
         == Cutting(SplitOn(a, c) + PartsTo(b, c, k).pieces, PartsTo(b, c, k).open)
  {
    var s := a + [c] + b;
    if k == 0 {
      PartsOfPrefix(s, a, c, |a|);
      assert s[|a|] == c;
      assert SplitOn(a, c) + [] == SplitOn(a, c);
    } else {
      PartsPast(a, c, b, k - 1);
      assert s[|a| + k] == b[k - 1];
      var before := PartsTo(b, c, k - 1);
      assert SplitOn(a, c) + before.pieces + [before.open] == SplitOn(a, c) + (before.pieces + [before.open]);
    }
  }

  lemma SplitOfJoined(a: string, c: char, b: string)
    ensures SplitOn(a + [c] + b, c) == SplitOn(a, c) + SplitOn(b, c)
  {
    PartsPast(a, c, b, |b|);
    var last := PartsTo(b, c, |b|);
    assert SplitOn(a, c) + last.pieces + [last.open] == SplitOn(a, c) + (last.pieces + [last.open]);
  }

  lemma {:induction false} PartsOfUncut(s: string, c: char, k: nat)
    requires k <= |s| && c !in s
    ensures PartsTo(s, c, k) == Cutting([], s[..k])
  {
    if k > 0 {
      PartsOfUncut(s, c, k - 1);
      assert s[k - 1] in s;
      assert s[..k] == s[..k - 1] + [s[k - 1]];
    }
  }

  lemma SplitOfOnePart(s: string, c: char)
    requires c !in s
    ensures SplitOn(s, c) == [s]
  {
    PartsOfUncut(s, c, |s|);
    assert s[..|s|] == s;
  }

  /** Cutting undoes joining when no part holds the separator. */
  lemma {:induction false} SplitOfJoin(parts: seq<string>, c: char, k: nat)
    requires 0 < k <= |parts| && forall i :: 0 <= i < |parts| ==> c !in parts[i]
    ensures SplitOn(JoinOn(parts, c, k), c) == parts[..k]
  {
    SplitOfOnePart(parts[k - 1], c);
    if k > 1 {
      SplitOfJoin(parts, c, k - 1);
      SplitOfJoined(JoinOn(parts, c, k - 1), c, parts[k - 1]);
      assert parts[..k] == parts[..k - 1] + [parts[k - 1]];
    } else {
      assert parts[..1] == [parts[0]];
    }
  }

  /** Parts hold no separator and nothing that was not in the text; the first holds the text's first character. */
  lemma {:induction false} PartsComeFromText(s: string, c: char, k: nat)
    requires k <= |s|
    ensures var st := PartsTo(s, c, k);
            && (forall i :: 0 <= i < |st.pieces| ==> c !in st.pieces[i] && forall x :: x in st.pieces[i] ==> x in s)
            && c !in st.open && (forall x :: x in st.open ==> x in s)
            && (k > 0 && s[0] != c ==> if st.pieces == [] then st.open != "" else st.pieces[0] != "")
  {
    if k > 0 {
      PartsComeFromText(s, c, k - 1);
    }
  }

  lemma {:induction false} JoinStartsAndEnds(parts: seq<string>, c: char, k: nat)
    requires 0 < k <= |parts| && parts[0] != "" && parts[k - 1] != ""
    ensures JoinOn(parts, c, k) != "" && JoinOn(parts, c, k)[0] == parts[0][0]
    ensures JoinOn(parts, c, k)[|JoinOn(parts, c, k)| - 1] == parts[k - 1][|parts[k - 1]| - 1]
  {
    JoinStarts(parts, c, k);
  }

  lemma {:induction false} JoinStarts(parts: seq<string>, c: char, k: nat)
    requires 0 < k <= |parts| && parts[0] != ""
    ensures JoinOn(parts, c, k) != "" && JoinOn(parts, c, k)[0] == parts[0][0]
  {
    if k > 1 {
      JoinStarts(parts, c, k - 1);
    }
  }

  lemma {:induction false} JoinKeepsOut(parts: seq<string>, c: char, k: nat, x: char)
    requires k <= |parts| && x != c && forall i :: 0 <= i < |parts| ==> x !in parts[i]
    ensures x !in JoinOn(parts, c, k)
  {
    if k > 0 {
      JoinKeepsOut(parts, c, k - 1, x);
    }
  }

  // ---------- the first of a character ----------

  /** What stands before the first `c`, or everything. */
  function Until(s: string, c: char): (head: string)
    ensures head <= s && c !in head
  {
    if s == "" || s[0] == c then "" else [s[0]] + Until(s[1..], c)
  }

  /** What stands after the first `c`, if there is one. */
  function After(s: string, c: char): (rest: Option<string>) {
    if |Until(s, c)| == |s| then None else Some(s[|Until(s, c)| + 1..])
  }

  lemma {:induction false} UntilOfConcat(head: string, c: char, rest: string)
    requires c !in head
    ensures Until(head + [c] + rest, c) == head && After(head + [c] + rest, c) == Some(rest)
  {
    var s := head + [c] + rest;
    if head != "" {
      assert s[1..] == head[1..] + [c] + rest;
      assert forall x :: x in head[1..] ==> x in head;
      UntilOfConcat(head[1..], c, rest);
    }
    assert s[|head| + 1..] == rest;
  }

  // ---------- substrings ----------

  predicate OccursAt(hay: string, needle: string, k: nat) {
    k + |needle| <= |hay| && hay[k..k + |needle|] == needle
  }

  predicate Contains(hay: string, needle: string) {
    exists k :: 0 <= k <= |hay| && OccursAt(hay, needle, k)
  }

  /** A text holds another exactly if it is that text with something in front and something behind. */
  lemma ContainsIffBetween(hay: string, needle: string)
    ensures Contains(hay, needle) <==> exists front, back :: hay == front + needle + back
  {
    if k :| 0 <= k <= |hay| && OccursAt(hay, needle, k) {
      assert hay == hay[..k] + needle + hay[k + |needle|..];
    }
    if front, back :| hay == front + needle + back {
      assert hay[|front|..|front| + |needle|] == needle;
      assert OccursAt(hay, needle, |front|);
    }
  }

  lemma {:induction false} JoinOfParts(s: string, c: char, k: nat)
    requires k <= |s|
    ensures var st := PartsTo(s, c, k);
            JoinOn(st.pieces + [st.open], c, |st.pieces| + 1) == s[..k]
  {
    if k > 0 {
      JoinOfParts(s, c, k - 1);
      var before, st := PartsTo(s, c, k - 1), PartsTo(s, c, k);
      assert s[..k] == s[..k - 1] + [s[k - 1]];
      JoinOfPrefix(before.pieces + [before.open], st.pieces + [st.open], c, |before.pieces|);
      if s[k - 1] == c {
        assert st.pieces + [st.open] == before.pieces + [before.open] + [""];
        JoinOfPrefix(before.pieces + [before.open], st.pieces + [st.open], c, |before.pieces| + 1);
      }
    }
  }

  /** Joining undoes cutting. */
  lemma JoinOfSplit(s: string, c: char)
    ensures JoinOn(SplitOn(s, c), c, |SplitOn(s, c)|) == s
  {
    JoinOfParts(s, c, |s|);
    assert s[..|s|] == s;
  }
}
