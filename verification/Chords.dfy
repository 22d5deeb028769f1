/** Chord sheets pasted as plain text: `is_chord` and `parse_pasted` in ug.rs. */
module Chords {
  import opened Wrappers
  import opened Text

  // ---------- chords ----------

  predicate IsRootLetter(c: char) {
    'A' <= c <= 'G'
  }

  /** The words of a chord's quality, in the order they are tried. */
  const WORDS: seq<string> := ["maj", "min", "dim", "aug", "sus", "add", "m", "M"]

  predicate IsQualityChar(c: char) {
    '0' <= c <= '9' || c in "#b+-()\U{00B0}\U{00F8}"
  }

  /** The first word the text starts with, from word `i` on; or the number of words. */
  function WordAt(rest: string, i: nat): (w: nat)
    requires i <= |WORDS|
    ensures i <= w <= |WORDS|
    ensures w < |WORDS| ==> WORDS[w] <= rest
    ensures forall j :: i <= j < w ==> !(WORDS[j] <= rest)
    decreases |WORDS| - i
  {
    if i == |WORDS| || WORDS[i] <= rest then i else WordAt(rest, i + 1)
  }

  /** The greedy loop: the first word that fits is taken, otherwise one quality character. */
  predicate IsQuality(rest: string)
    decreases |rest|
  {
    if rest == "" then true
    else
      var w := WordAt(rest, 0);
      if w < |WORDS| then (assert |WORDS[w]| > 0; IsQuality(rest[|WORDS[w]|..]))
      else IsQualityChar(rest[0]) && IsQuality(rest[1..])
  }

  predicate IsRootOnly(s: string) {
    && (ByteLen(s) == 1 || ByteLen(s) == 2)
    && s != "" && IsRootLetter(s[0])
    && (ByteLen(s) == 1 || s[|s| - 1] == '#' || s[|s| - 1] == 'b')
  }

  /** What is left of a chord after its root and at most one sharp or flat. */
  function AfterRoot(main: string): (rest: string)
    requires main != ""
  {
    if |main| > 1 && (main[1] == '#' || main[1] == 'b') then main[2..] else main[1..]
  }

  predicate IsChord(token: string) {
    var main, bass := Until(token, '/'), After(token, '/');
    && (bass.Some? ==> IsRootOnly(bass.value))
    && main != "" && IsRootLetter(main[0]) && IsQuality(AfterRoot(main))
  }

  // ---------- the chord grammar ----------

  /** One item of a quality: a word or a character. */
  predicate IsItem(item: string) {
    item in WORDS || (|item| == 1 && IsQualityChar(item[0]))
  }

  predicate AreItems(items: seq<string>) {
    forall i :: 0 <= i < |items| ==> IsItem(items[i])
  }

  /** The items one after the other. */
  function Spell(items: seq<string>): (s: string) {
    if items == [] then "" else items[0] + Spell(items[1..])
  }

  predicate IsAccidental(s: string) {
    s == "" || s == "#" || s == "b"
  }

  /** A root letter, an optional sharp or flat, quality items, and an optional slash with a bass note. */
  ghost predicate IsSpelled(token: string, root: char, accidental: string, items: seq<string>, bass: string) {
    && IsRootLetter(root) && IsAccidental(accidental) && AreItems(items) && IsBass(bass)
    && token == [root] + accidental + Spell(items) + bass
  }

  predicate IsBass(bass: string) {
    bass == "" || (|bass| >= 2 && bass[0] == '/' && IsRootLetter(bass[1]) && IsAccidental(bass[2..]))
  }

  /** Every item starts with its own letters: none of the words but `m` starts another. */
  lemma ItemStarts(item: string)
    requires IsItem(item)
    ensures item != "" && '/' !in item && '[' !in item
    ensures item[0] == 'a' ==> |item| > 1 && item[1] != 'j'
    ensures item[0] != 'i' && item[0] != 'j' && item[0] != 'n'
    ensures item[0] == 'm' ==> item == "m" || item == "maj" || item == "min"
    ensures item[0] == '#' || item[0] == 'b' ==> |item| == 1
  {
    if item in WORDS {
      var i :| 0 <= i < |WORDS| && WORDS[i] == item;
      assert WORDS[0] == "maj" && WORDS[1] == "min" && WORDS[2] == "dim" && WORDS[3] == "aug";
      assert WORDS[4] == "sus" && WORDS[5] == "add" && WORDS[6] == "m" && WORDS[7] == "M";
    }
  }

  lemma {:induction false} SpellHasNoSlash(items: seq<string>)
    requires AreItems(items)
    ensures '/' !in Spell(items) && '[' !in Spell(items)
  {
    if items != [] {
      ItemStarts(items[0]);
      SpellHasNoSlash(items[1..]);
    }
  }

  /** Two words that start one text are the same, but for `m` in front of `maj` and `min`. */
  lemma WordsOverlap(v: nat, w: nat, s: string)
    requires v < w < |WORDS| && WORDS[v] <= s && WORDS[w] <= s
    ensures WORDS[w] == "m"
    ensures || (WORDS[v] == "maj" && |s| > 2 && s[1] == 'a' && s[2] == 'j')
            || (WORDS[v] == "min" && |s| > 1 && s[1] == 'i')
  {
    assert s[0] == WORDS[v][0] && s[0] == WORDS[w][0];
    assert WORDS[0] == "maj" && WORDS[1] == "min" && WORDS[2] == "dim" && WORDS[3] == "aug";
    assert WORDS[4] == "sus" && WORDS[5] == "add" && WORDS[6] == "m" && WORDS[7] == "M";
    assert v == 0 || v == 1 || v == 2 || v == 3 || v == 4 || v == 5 || v == 6;
    assert |WORDS[v]| == 3 ==> s[1] == WORDS[v][1] && s[2] == WORDS[v][2];
  }

  lemma NoItemContinuesM(items: seq<string>)
    requires AreItems(items) && items != [] && items[0] == "m"
    ensures var s := Spell(items); !(|s| > 2 && s[1] == 'a' && s[2] == 'j') && !(|s| > 1 && s[1] == 'i')
  {
    if |items| > 1 {
      ItemStarts(items[1]);
      assert Spell(items) == "m" + (items[1] + Spell(items[1..][1..]));
    } else {
      assert Spell(items[1..]) == "";
    }
  }

  lemma WordsAreNoCharacters(w: nat)
    requires w < |WORDS|
    ensures !IsQualityChar(WORDS[w][0])
  {
    assert WORDS[0] == "maj" && WORDS[1] == "min" && WORDS[2] == "dim" && WORDS[3] == "aug";
    assert WORDS[4] == "sus" && WORDS[5] == "add" && WORDS[6] == "m" && WORDS[7] == "M";
    assert w == 0 || w == 1 || w == 2 || w == 3 || w == 4 || w == 5 || w == 6 || w == 7;
  }

  lemma WordIsForced(items: seq<string>, i: nat, w: nat)
    requires AreItems(items) && items != [] && w <= i < |WORDS|
    requires items[0] == WORDS[i] && WORDS[w] <= Spell(items)
    ensures w == i
  {
    hide IsQualityChar;
    assert items[0] <= Spell(items);
    if w < i {
      WordsOverlap(w, i, Spell(items));
      NoItemContinuesM(items);
    }
  }

  lemma CharacterIsForced(items: seq<string>, w: nat)
    requires AreItems(items) && items != [] && items[0] !in WORDS && w < |WORDS|
    ensures !(WORDS[w] <= Spell(items))
  {
    hide IsQualityChar;
    WordsAreNoCharacters(w);
    assert Spell(items)[0] == items[0][0];
    assert |WORDS[w]| > 0;
  }

  /** The word the loop takes is the item that stands there: taking the longer word first loses nothing. */
  lemma FirstItemIsForced(items: seq<string>)
    requires AreItems(items) && items != []
    ensures var w := WordAt(Spell(items), 0);
            if w < |WORDS| then items[0] == WORDS[w] else items[0] !in WORDS
  {
    hide IsQualityChar, IsItem, Spell;
    var w := WordAt(Spell(items), 0);
    if items[0] in WORDS {
      var i :| 0 <= i < |WORDS| && WORDS[i] == items[0];
      ItemStartsSpell(items);
      WordIsForced(items, i, w);
    } else if w < |WORDS| {
      CharacterIsForced(items, w);
    }
  }

  lemma ItemStartsSpell(items: seq<string>)
    requires items != []
    ensures items[0] <= Spell(items)
  {
  }

  lemma {:induction false} ItemsAreQuality(items: seq<string>)
    requires AreItems(items)
    ensures IsQuality(Spell(items))
  {
    if items != [] {
      ItemsAreQuality(items[1..]);
      FirstItemIsForced(items);
      ItemStarts(items[0]);
      var s := Spell(items);
      assert s[|items[0]|..] == Spell(items[1..]);
    }
  }

  lemma QualityStep(rest: string) returns (item: string)
    requires IsQuality(rest) && rest != ""
    ensures IsItem(item) && item != "" && item <= rest && IsQuality(rest[|item|..])
  {
    var w := WordAt(rest, 0);
    item := if w < |WORDS| then WORDS[w] else [rest[0]];
  }

  lemma {:induction false} QualityHasItems(rest: string) returns (items: seq<string>)
    requires IsQuality(rest)
    ensures AreItems(items) && Spell(items) == rest
    decreases |rest|
  {
    hide IsQuality, IsItem;
    if rest == "" {
      items := [];
    } else {
      var item := QualityStep(rest);
      var more := QualityHasItems(rest[|item|..]);
      items := [item] + more;
      assert items[1..] == more;
      assert rest == item + rest[|item|..];
    }
  }

  lemma RootOnlyIffBass(s: string)
    ensures IsRootOnly(s) <==> IsBass("/" + s)
  {
    assert ByteLenTo(s, 0) == 0;
    if |s| >= 1 {
      assert ByteLenTo(s, 1) == CharLen(s[0]);
    }
    if |s| >= 2 {
      assert ByteLenTo(s, 2) == CharLen(s[0]) + CharLen(s[1]);
      ByteLenGrows(s, 2, |s|);
    }
    if s != "" {
      assert ("/" + s)[2..] == s[1..];
    }
  }

  lemma {:induction false} UntilOfUncut(s: string, c: char)
    requires c !in s
    ensures Until(s, c) == s
  {
    if s != "" {
      assert forall x :: x in s[1..] ==> x in s;
      UntilOfUncut(s[1..], c);
    }
  }

  lemma SpelledIsChord(token: string, root: char, accidental: string, items: seq<string>, bass: string)
    requires IsSpelled(token, root, accidental, items, bass)
    ensures IsChord(token)
  {
    var main := [root] + accidental + Spell(items);
    SpellHasNoSlash(items);
    if bass == "" {
      assert token == main;
      UntilOfUncut(main, '/');
    } else {
      assert bass == "/" + bass[1..];
      assert token == main + ['/'] + bass[1..];
      UntilOfConcat(main, '/', bass[1..]);
      RootOnlyIffBass(bass[1..]);
    }
    RootLeavesItems(root, accidental, items);
  }

  lemma RootLeavesItems(root: char, accidental: string, items: seq<string>)
    requires IsAccidental(accidental) && AreItems(items)
    ensures IsQuality(AfterRoot([root] + accidental + Spell(items)))
  {
    hide IsQuality;
    var main := [root] + accidental + Spell(items);
    ItemsAreQuality(items);
    if accidental == "" && items != [] {
      ItemStarts(items[0]);
      ItemsAreQuality(items[1..]);
      assert main[1..] == Spell(items);
      assert items[0][0] == main[1];
      if |items[0]| == 1 {
        assert main[2..] == Spell(items[1..]);
      }
    } else {
      assert accidental != "" ==> main[2..] == Spell(items);
      assert accidental == "" ==> main[1..] == Spell(items);
    }
  }

  lemma ChordIsSpelled(token: string)
    requires IsChord(token)
    ensures exists root, accidental, items, bass :: IsSpelled(token, root, accidental, items, bass)
  {
    hide IsQuality;
    var main, after := Until(token, '/'), After(token, '/');
    var items := QualityHasItems(AfterRoot(main));
    var accidental := if |main| > 1 && (main[1] == '#' || main[1] == 'b') then [main[1]] else "";
    var bass := if after.None? then "" else "/" + after.value;
    if after.Some? {
      RootOnlyIffBass(after.value);
      SplitsAtSlash(token);
    }
    assert main == [main[0]] + accidental + Spell(items);
    assert token == main + bass;
    assert IsSpelled(token, main[0], accidental, items, bass);
  }

  lemma {:induction false} SplitsAtSlash(token: string)
    requires |Until(token, '/')| < |token|
    ensures token == Until(token, '/') + "/" + token[|Until(token, '/')| + 1..]
  {
    if token[0] != '/' {
      SplitsAtSlash(token[1..]);
    }
  }

  /** The greedy reader accepts exactly the chord grammar. */
  lemma ChordIffSpelled(token: string)
    ensures IsChord(token) <==> exists root, accidental, items, bass :: IsSpelled(token, root, accidental, items, bass)
  {
    if IsChord(token) {
      ChordIsSpelled(token);
    }
    if root, accidental, items, bass :| IsSpelled(token, root, accidental, items, bass) {
      SpelledIsChord(token, root, accidental, items, bass);
    }
  }

  lemma ChordHasNoBracket(token: string)
    requires IsChord(token)
    ensures '[' !in token && token != ""
  {
    hide IsChord;
    ChordIsSpelled(token);
    var root, accidental, items, bass :| IsSpelled(token, root, accidental, items, bass);
    SpellHasNoSlash(items);
    if |bass| >= 2 {
      assert bass == [bass[0]] + [bass[1]] + bass[2..];
    }
  }

  // ---------- the grammar, letter by letter ----------

  /** How a chord is written: all its letters and words, spelled out. */
  ghost predicate IsWritten(token: string, root: char, accidental: string, items: seq<string>, bass: string) {
    && root in "ABCDEFG" && accidental in ["", "#", "b"]
    && (forall i :: 0 <= i < |items| ==>
          || items[i] in ["maj", "min", "dim", "aug", "sus", "add", "m", "M"]
          || (|items[i]| == 1 && items[i][0] in "0123456789#b+-()\U{00B0}\U{00F8}"))
    && (bass == "" || exists note, sign :: note in "ABCDEFG" && sign in ["", "#", "b"] && bass == "/" + [note] + sign)
    && token == [root] + accidental + Spell(items) + bass
  }

  lemma LettersAre(c: char)
    ensures IsRootLetter(c) <==> c in "ABCDEFG"
    ensures IsQualityChar(c) <==> c in "0123456789#b+-()\U{00B0}\U{00F8}"
  {
    RootLettersAre(c);
    QualityLettersAre(c);
  }

  lemma RootLettersAre(c: char)
    ensures IsRootLetter(c) <==> c in "ABCDEFG"
  {
    var s := "ABCDEFG";
    assert s[0] == 'A' && s[1] == 'B' && s[2] == 'C' && s[3] == 'D' && s[4] == 'E' && s[5] == 'F' && s[6] == 'G';
  }

  lemma QualityLettersAre(c: char)
    ensures IsQualityChar(c) <==> c in "0123456789#b+-()\U{00B0}\U{00F8}"
  {
    var digits, rest := "0123456789", "#b+-()\U{00B0}\U{00F8}";
    assert digits[0] == '0' && digits[1] == '1' && digits[2] == '2' && digits[3] == '3' && digits[4] == '4';
    assert digits[5] == '5' && digits[6] == '6' && digits[7] == '7' && digits[8] == '8' && digits[9] == '9';
    assert "0123456789#b+-()\U{00B0}\U{00F8}" == digits + rest;
    assert c in digits + rest <==> c in digits || c in rest;
  }

  lemma BassIsWritten(bass: string)
    ensures IsBass(bass) <==>
            || bass == ""
            || exists note, sign :: note in "ABCDEFG" && sign in ["", "#", "b"] && bass == "/" + [note] + sign
  {
    hide IsRootLetter;
    if IsBass(bass) && bass != "" {
      RootLettersAre(bass[1]);
      assert bass == "/" + [bass[1]] + bass[2..];
      assert bass[2..] in ["", "#", "b"];
    }
    if note, sign :| note in "ABCDEFG" && sign in ["", "#", "b"] && bass == "/" + [note] + sign {
      RootLettersAre(note);
      assert bass[1] == note && bass[2..] == sign;
    }
  }

  lemma SpelledIffWritten(token: string, root: char, accidental: string, items: seq<string>, bass: string)
    ensures IsSpelled(token, root, accidental, items, bass) <==> IsWritten(token, root, accidental, items, bass)
  {
    hide IsRootLetter, IsQualityChar, Spell, IsBass;
    RootLettersAre(root);
    BassIsWritten(bass);
    forall i | 0 <= i < |items| && |items[i]| == 1
      ensures IsQualityChar(items[i][0]) <==> items[i][0] in "0123456789#b+-()\U{00B0}\U{00F8}"
    {
      QualityLettersAre(items[i][0]);
    }
  }

  /** The greedy reader accepts exactly what is written as a chord. */
  lemma ChordIffWritten(token: string)
    ensures IsChord(token) <==> exists root, accidental, items, bass :: IsWritten(token, root, accidental, items, bass)
  {
    hide IsChord, IsSpelled, IsWritten;
    ChordIffSpelled(token);
    forall root, accidental, items, bass
      ensures IsSpelled(token, root, accidental, items, bass) <==> IsWritten(token, root, accidental, items, bass)
    {
      SpelledIffWritten(token, root, accidental, items, bass);
    }
  }

  // ---------- chord lines ----------

  function LowerAscii(c: char): (l: char) {
    if 'A' <= c <= 'Z' then (c as int + 32) as char else c
  }

  predicate SameIgnoringCase(a: string, b: string) {
    |a| == |b| && forall i :: 0 <= i < |a| ==> LowerAscii(a[i]) == LowerAscii(b[i])
  }

  /** Bar lines, repeat counts and "no chord", which may share a chord line. */
  predicate IsFiller(token: string) {
    || (forall i :: 0 <= i < |token| ==> token[i] in "|-/:.")
    || SameIgnoringCase(token, "N.C.") || SameIgnoringCase(token, "NC")
    || (token != "" && (token[0] == 'x' || token[0] == 'X') && forall i :: 1 <= i < |token| ==> '0' <= token[i] <= '9')
    || (token != "" && token[0] == '(' && token[|token| - 1] == ')' && ByteLen(token) <= 5)
  }

  lemma NoChordIs(token: string)
    ensures SameIgnoringCase(token, "NC") <==> token in ["NC", "Nc", "nC", "nc"]
    ensures SameIgnoringCase(token, "N.C.") <==> token in ["N.C.", "N.c.", "n.C.", "n.c."]
  {
    LettersIgnoringCase();
    if SameIgnoringCase(token, "NC") {
      assert token == [token[0], token[1]];
    }
    if SameIgnoringCase(token, "N.C.") {
      assert token == [token[0], token[1], token[2], token[3]];
    }
  }

  lemma LettersIgnoringCase()
    ensures forall c :: LowerAscii(c) == LowerAscii('N') <==> c == 'N' || c == 'n'
    ensures forall c :: LowerAscii(c) == LowerAscii('C') <==> c == 'C' || c == 'c'
    ensures forall c :: LowerAscii(c) == LowerAscii('.') <==> c == '.'
  {
  }

  predicate AreDigits(s: string) {
    forall c :: c in s ==> c in "0123456789"
  }

  /** What may stand beside chords: bar lines, "no chord", repeat counts, and something short in parentheses. */
  lemma FillersAre(token: string)
    ensures IsFiller(token) <==>
            || (forall c :: c in token ==> c in "|-/:.")
            || token in ["NC", "Nc", "nC", "nc", "N.C.", "N.c.", "n.C.", "n.c."]
            || (exists count :: AreDigits(count) && (token == "x" + count || token == "X" + count))
            || (2 <= |token| && ByteLen(token) <= 5 && token[0] == '(' && token[|token| - 1] == ')')
  {
    hide SameIgnoringCase, ByteLen;
    NoChordIs(token);
    DigitsAre();
    if token != "" && (token[0] == 'x' || token[0] == 'X') && forall i :: 1 <= i < |token| ==> '0' <= token[i] <= '9' {
      var count := token[1..];
      assert token == [token[0]] + count;
      assert AreDigits(count);
    }
    if count :| AreDigits(count) && (token == "x" + count || token == "X" + count) {
      assert forall i :: 1 <= i < |token| ==> token[i] == count[i - 1] && token[i] in count;
    }
  }

  lemma DigitsAre()
    ensures forall c: char :: '0' <= c <= '9' <==> c in "0123456789"
  {
    var digits := "0123456789";
    assert digits[0] == '0' && digits[1] == '1' && digits[2] == '2' && digits[3] == '3' && digits[4] == '4';
    assert digits[5] == '5' && digits[6] == '6' && digits[7] == '7' && digits[8] == '8' && digits[9] == '9';
  }

  /** Only chords and what may stand beside them, and at least one chord. */
  predicate IsChordLine(line: string) {
    var words := Words(line);
    && (forall i :: 0 <= i < |words| ==> IsChord(words[i]) || IsFiller(words[i]))
    && exists i :: 0 <= i < |words| && IsChord(words[i])
  }

  /** A line of chords: no word of it is anything else but a filler, and one is a chord. */
  lemma ChordLinesAre(line: string)
    ensures IsChordLine(line) <==>
            && (forall word :: word in Words(line) ==> IsChord(word) || IsFiller(word))
            && (exists word :: word in Words(line) && IsChord(word))
  {
    hide IsChord, IsFiller, Words;
  }

  method ChordLine(line: string) returns (isChords: bool)
    ensures isChords == IsChordLine(line)
  {
    hide IsChord, IsFiller, Words;
    var words := Words(line);
    var any := false;
    for k := 0 to |words|
      invariant forall i :: 0 <= i < k ==> IsChord(words[i]) || IsFiller(words[i])
      invariant any <==> exists i :: 0 <= i < k && IsChord(words[i])
    {
      if IsChord(words[k]) {
        any := true;
      } else if !IsFiller(words[k]) {
        return false;
      }
    }
    return any;
  }

  // ---------- the markup ----------

  /** A token as it is written out: chords in tags, everything else as it stands. */
  function Wrapped(token: string): (s: string) {
    if IsChord(token) then "[ch]" + token + "[/ch]" else token
  }

  /** What the loop has written, and the token it is reading. */
  datatype Marking = Marking(out: string, token: string) {
    function Flushed(): (s: string) {
      if token == "" then out else out + Wrapped(token)
    }
  }

  function MarkTo(line: string, k: nat): (st: Marking)
    requires k <= |line|
  {
    if k == 0 then Marking("", "")
    else
      var before := MarkTo(line, k - 1);
      if IsWhite(line[k - 1]) then Marking(before.Flushed() + [line[k - 1]], "")
      else Marking(before.out, before.token + [line[k - 1]])
  }

  /** The line with its chords wrapped: the sentinel space flushes the last token and is taken off again. */
  function Marked(line: string): (s: string) {
    MarkTo(line, |line|).Flushed()
  }

  function MarkedLine(line: string): (s: string) {
    if IsChordLine(line) then Marked(line) else line
  }

  lemma {:induction false} MarkToOfPrefix(line: string, more: string, k: nat)
    requires k <= |line|
    ensures MarkTo(line + more, k) == MarkTo(line, k)
  {
    if k > 0 {
      MarkToOfPrefix(line, more, k - 1);
    }
  }

  /** A space after the line flushes its last token and adds nothing but itself. */
  lemma SentinelFlushes(line: string)
    ensures MarkTo(line + " ", |line| + 1).out == Marked(line) + " "
  {
    hide IsChord;
    MarkToOfPrefix(line, " ", |line|);
  }

  method MarkLine(line: string) returns (out: string)
    ensures out == MarkedLine(line)
  {
    hide IsChord, IsChordLine, IsWhite;
    var isChords := ChordLine(line);
    if !isChords {
      return line;
    }
    out := "";
    var token := "";
    var chars := line + " ";
    for k := 0 to |chars|
      invariant Marking(out, token) == MarkTo(chars, k)
    {
      var c := chars[k];
      if IsWhite(c) {
        if token != "" {
          if IsChord(token) {
            out := out + ("[ch]" + token + "[/ch]");
          } else {
            out := out + token;
          }
          token := "";
        }
        out := out + [c];
      } else {
        token := token + [c];
      }
    }
    SentinelFlushes(line);
    out := out[..|out| - 1];
  }

  /** `replace("\r\n", "\n")`. */
  function WithoutCr(text: string): (s: string) {
    if text == "" then ""
    else if "\r\n" <= text then "\n" + WithoutCr(text[2..])
    else [text[0]] + WithoutCr(text[1..])
  }

  lemma OneCharacterOn(s: string)
    requires s != "" && s[0] != '\r'
    ensures WithoutCr(s) == [s[0]] + WithoutCr(s[1..])
  {
  }

  lemma OneEndingOn(rest: string)
    ensures WithoutCr("\r\n" + rest) == "\n" + WithoutCr(rest) && WithoutCr("") == ""
  {
    assert ("\r\n" + rest)[2..] == rest;
  }

  /** Each carriage return in front of a newline goes, and nothing else. */
  lemma {:induction false} EndingsBecomeNewlines(line: string, rest: string)
    requires '\r' !in line
    ensures WithoutCr(line + "\r\n" + rest) == line + "\n" + WithoutCr(rest)
    ensures WithoutCr(line + "\n" + rest) == line + "\n" + WithoutCr(rest)
    ensures WithoutCr(line) == line
  {
    hide WithoutCr;
    if line != "" {
      assert (line + "\r\n" + rest)[1..] == line[1..] + "\r\n" + rest;
      assert (line + "\n" + rest)[1..] == line[1..] + "\n" + rest;
      OneCharacterOn(line + "\r\n" + rest);
      OneCharacterOn(line + "\n" + rest);
      OneCharacterOn(line);
      EndingsBecomeNewlines(line[1..], rest);
    } else {
      assert "" + "\r\n" + rest == "\r\n" + rest && "" + "\n" + rest == "\n" + rest;
      assert ("\r\n" + rest)[2..] == rest && ("\n" + rest)[1..] == rest;
      OneEndingOn(rest);
      OneCharacterOn("\n" + rest);
    }
  }

  function MarkedLines(lines: seq<string>): (marked: seq<string>)
    ensures |marked| == |lines| && forall i :: 0 <= i < |lines| ==> marked[i] == MarkedLine(lines[i])
  {
    seq(|lines|, i requires 0 <= i < |lines| => MarkedLine(lines[i]))
  }

  /** The content of a pasted sheet: text that carries markup is kept, other text gets it line by line. */
  function Content(pasted: string): (content: string) {
    var text := WithoutCr(pasted);
    if Contains(text, "[ch]") then text else JoinOn(MarkedLines(Lines(text)), '\n', |Lines(text)|)
  }

  method ParsePasted(pasted: string) returns (content: string)
    ensures content == Content(pasted)
  {
    hide MarkedLine, Lines;
    var text := WithoutCr(pasted);
    if Contains(text, "[ch]") {
      return text;
    }
    var lines := Lines(text);
    content := "";
    for k := 0 to |lines|
      invariant content == JoinOn(MarkedLines(lines), '\n', k)
    {
      var line := MarkLine(lines[k]);
      content := if k == 0 then line else content + ['\n'] + line;
    }
  }

  // ---------- deleting the tags gives the text back ----------

  function StripTags(s: string): (plain: string) {
    if s == "" then ""
    else if "[ch]" <= s then StripTags(s[4..])
    else if "[/ch]" <= s then StripTags(s[5..])
    else [s[0]] + StripTags(s[1..])
  }

  /** Characters that stand in no tag. */
  predicate IsTagless(c: char) {
    c !in "[]/ch"
  }

  lemma StripStep(s: string)
    requires s != ""
    ensures "[ch]" <= s ==> StripTags(s) == StripTags(s[4..])
    ensures !("[ch]" <= s) && "[/ch]" <= s ==> StripTags(s) == StripTags(s[5..])
    ensures !("[ch]" <= s) && !("[/ch]" <= s) ==> StripTags(s) == [s[0]] + StripTags(s[1..])
  {
  }

  lemma ConcatTail(a: string, c: char, b: string, n: nat)
    requires n <= |a|
    ensures (a + [c] + b)[n..] == a[n..] + [c] + b
  {
  }

  lemma FirstInARow(x: char, a: string, c: char, b: string)
    ensures [x] + (a + [c] + b) == [x] + a + [c] + b
  {
  }

  /** Deleting tags works on both sides of a character that stands in none. */
  lemma {:induction false} StripOfConcat(a: string, c: char, b: string)
    requires IsTagless(c)
    ensures StripTags(a + [c] + b) == StripTags(a) + [c] + StripTags(b)
  {
    hide StripTags;
    var s := a + [c] + b;
    StripStep(s);
    if a == "" {
      assert s == [c] + b && s[1..] == b;
      StripOfNothing();
      assert "" + [c] + StripTags(b) == [c] + StripTags(b);
    } else {
      StripStep(a);
      var n := if "[ch]" <= a then 4 else if "[/ch]" <= a then 5 else 1;
      if n == 1 {
        NoTagAcross("[ch]", a, c, b);
        NoTagAcross("[/ch]", a, c, b);
        FirstInARow(a[0], StripTags(a[1..]), c, StripTags(b));
      } else if n == 5 {
        NoTagAcross("[ch]", a, c, b);
      }
      ConcatTail(a, c, b, n);
      StripOfConcat(a[n..], c, b);
    }
  }

  lemma NoTagAcross(tag: string, a: string, c: char, b: string)
    requires c !in tag && !(tag <= a)
    ensures !(tag <= a + [c] + b)
  {
    var s := a + [c] + b;
    assert s[|a|] == c;
    if |a| < |tag| {
      assert tag[|a|] in tag;
    } else {
      assert s[..|tag|] == a[..|tag|];
    }
  }

  lemma StartIsContained(s: string, needle: string)
    ensures needle <= s ==> Contains(s, needle)
  {
    if needle <= s {
      assert OccursAt(s, needle, 0);
    }
  }

  lemma TailContainsLess(s: string, needle: string)
    requires s != ""
    ensures Contains(s[1..], needle) ==> Contains(s, needle)
  {
    if Contains(s[1..], needle) {
      var k :| 0 <= k <= |s[1..]| && OccursAt(s[1..], needle, k);
      assert s[k + 1..k + 1 + |needle|] == s[1..][k..k + |needle|];
      assert OccursAt(s, needle, k + 1);
    }
  }

  lemma {:induction false} StripOfPlain(s: string)
    requires !Contains(s, "[ch]") && !Contains(s, "[/ch]")
    ensures StripTags(s) == s
  {
    hide Contains;
    if s != "" {
      StartIsContained(s, "[ch]");
      StartIsContained(s, "[/ch]");
      TailContainsLess(s, "[ch]");
      TailContainsLess(s, "[/ch]");
      StripOfPlain(s[1..]);
    }
  }

  lemma {:induction false} StripOfTagged(token: string)
    requires '[' !in token
    ensures StripTags(token + "[/ch]") == token
  {
    if token == "" {
      var s := token + "[/ch]";
      assert s == "[/ch]" && s[1] != "[ch]"[1];
      assert s[5..] == "";
    } else {
      var s := token + "[/ch]";
      assert s[1..] == token[1..] + "[/ch]";
      assert s[0] == token[0] && token[0] in token;
      assert forall x :: x in token[1..] ==> x in token;
      StripOfTagged(token[1..]);
    }
  }

  lemma StripOfWrapped(token: string)
    requires !Contains(token, "[ch]") && !Contains(token, "[/ch]")
    ensures StripTags(Wrapped(token)) == token
  {
    hide IsChord;
    if IsChord(token) {
      ChordHasNoBracket(token);
      var s := "[ch]" + token + "[/ch]";
      assert s[4..] == token + "[/ch]";
      StripOfTagged(token);
    } else {
      StripOfPlain(token);
    }
  }

  // ---------- main results about the markup ----------

  /** `sub` stands somewhere in `s`. */
  lemma PartContainsLess(s: string, i: nat, j: nat, needle: string)
    requires i <= j <= |s|
    ensures Contains(s[i..j], needle) ==> Contains(s, needle)
  {
    if Contains(s[i..j], needle) {
      var part := s[i..j];
      var k :| 0 <= k <= |part| && OccursAt(part, needle, k);
      assert forall m :: 0 <= m < |needle| ==> needle[m] == part[k..k + |needle|][m] == s[i + k + m];
      assert s[i + k..i + k + |needle|] == needle;
      assert OccursAt(s, needle, i + k);
    }
  }

  predicate HasNoTags(s: string) {
    !Contains(s, "[ch]") && !Contains(s, "[/ch]")
  }

  /** What is written ends at a space or is empty, so that what comes next is stripped on its own. */
  ghost predicate AtBoundary(out: string) {
    out == "" || (IsWhite(out[|out| - 1]) && IsTagless(out[|out| - 1]))
  }

  lemma StripAtBoundary(out: string, more: string)
    requires AtBoundary(out)
    ensures StripTags(out + more) == StripTags(out) + StripTags(more)
  {
    if out == "" {
      assert out + more == more;
    } else {
      var n := |out| - 1;
      assert out == out[..n] + [out[n]] + "";
      assert out + more == out[..n] + [out[n]] + more;
      StripOfConcat(out[..n], out[n], "");
      StripOfConcat(out[..n], out[n], more);
      assert StripTags(out[..n]) + [out[n]] + "" == StripTags(out[..n]) + [out[n]];
    }
  }

  lemma WhiteIsTagless(c: char)
    requires IsWhite(c)
    ensures IsTagless(c)
  {
  }

  lemma StripOfNothing()
    ensures StripTags("") == ""
  {
  }

  /** So far, the written text without tags and the token being read make up the line. */
  ghost predicate IsSoFar(line: string, k: nat)
    requires k <= |line|
  {
    var st := MarkTo(line, k);
    && AtBoundary(st.out) && |st.token| <= k && st.token == line[k - |st.token|..k]
    && StripTags(st.out) == line[..k - |st.token|]
  }

  lemma {:induction false} MarkedSoFar(line: string, k: nat)
    requires k <= |line| && HasNoTags(line)
    ensures IsSoFar(line, k)
  {
    hide IsChord, HasNoTags, IsWhite, StripTags, IsSoFar;
    if k == 0 {
      StartsSoFar(line);
    } else {
      MarkedSoFar(line, k - 1);
      if IsWhite(line[k - 1]) {
        FlushedSoFar(line, k - 1);
        WhiteSoFar(line, k);
      } else {
        TokenSoFar(line, k);
      }
    }
  }

  lemma StartsSoFar(line: string)
    ensures IsSoFar(line, 0)
  {
  }

  lemma TokenSoFar(line: string, k: nat)
    requires 0 < k <= |line| && IsSoFar(line, k - 1) && !IsWhite(line[k - 1])
    ensures IsSoFar(line, k)
  {
    hide IsWhite, StripTags, IsChord;
    var before := MarkTo(line, k - 1);
    assert line[k - 1 - |before.token|..k] == before.token + [line[k - 1]];
  }

  lemma WhiteSoFar(line: string, k: nat)
    requires 0 < k <= |line| && IsWhite(line[k - 1]) && StripTags(MarkTo(line, k - 1).Flushed()) == line[..k - 1]
    ensures IsSoFar(line, k)
  {
    hide IsWhite, StripTags, IsChord, IsTagless;
    var out, c := MarkTo(line, k - 1).Flushed(), line[k - 1];
    WhiteIsTagless(c);
    StripOfConcat(out, c, "");
    StripOfNothing();
    assert out + [c] + "" == out + [c];
    assert line[..k] == line[..k - 1] + [c];
    assert line[..k] + "" == line[..k];
  }

  lemma FlushedSoFar(line: string, k: nat)
    requires k <= |line| && HasNoTags(line) && IsSoFar(line, k)
    ensures StripTags(MarkTo(line, k).Flushed()) == line[..k]
  {
    hide IsChord, AtBoundary, Contains, StripTags, Wrapped;
    var st := MarkTo(line, k);
    var i := k - |st.token|;
    if st.token != "" {
      PartContainsLess(line, i, k, "[ch]");
      PartContainsLess(line, i, k, "[/ch]");
      StripAtBoundary(st.out, Wrapped(st.token));
      StripOfWrapped(st.token);
      assert line[..i] + line[i..k] == line[..k];
    }
  }

  lemma StripOfMarkedLine(line: string)
    requires HasNoTags(line)
    ensures StripTags(MarkedLine(line)) == line
  {
    hide IsChord, IsChordLine, StripTags, IsSoFar;
    if IsChordLine(line) {
      MarkedSoFar(line, |line|);
      FlushedSoFar(line, |line|);
      assert line[..|line|] == line;
    } else {
      StripOfPlain(line);
    }
  }

  lemma {:induction false} StripOfLines(lines: seq<string>, k: nat)
    requires k <= |lines| && forall i :: 0 <= i < |lines| ==> HasNoTags(lines[i])
    ensures StripTags(JoinOn(MarkedLines(lines), '\n', k)) == JoinOn(lines, '\n', k)
  {
    hide MarkedLine, HasNoTags;
    if k > 0 {
      StripOfMarkedLine(lines[k - 1]);
      if k > 1 {
        StripOfLines(lines, k - 1);
        StripOfConcat(JoinOn(MarkedLines(lines), '\n', k - 1), '\n', MarkedLine(lines[k - 1]));
      }
    }
  }

  /** The text without one final newline. */
  function LessFinalNewline(text: string): (s: string) {
    if text != "" && text[|text| - 1] == '\n' then text[..|text| - 1] else text
  }

  lemma {:induction false} WithoutCrKeeps(text: string)
    requires '\r' !in text
    ensures WithoutCr(text) == text
  {
    if text != "" {
      assert text[0] in text;
      assert forall x :: x in text[1..] ==> x in text;
      WithoutCrKeeps(text[1..]);
    }
  }

  lemma SliceInPrefix(before: string, piece: string, line: string, text: string)
    requires before + piece <= text && line <= piece
    ensures |before| + |line| <= |text| && text[|before|..|before| + |line|] == line
  {
    assert forall i :: 0 <= i < |line| ==> line[i] == (before + piece)[|before| + i];
  }

  /** A line is a part of the text. */
  lemma LineIsPart(text: string, i: nat) returns (a: nat, b: nat)
    requires i < |Lines(text)|
    ensures a <= b <= |text| && text[a..b] == Lines(text)[i]
  {
    hide SplitInclusive;
    var pieces := SplitInclusive(text);
    ConcatOfSplit(text);
    ConcatGrows(pieces, i + 1, |pieces|);
    a := |ConcatTo(pieces, i)|;
    var line := StripEol(pieces[i]);
    b := a + |line|;
    assert line <= pieces[i];
    SliceInPrefix(ConcatTo(pieces, i), pieces[i], line, text);
  }

  lemma LinesHaveNoTags(text: string)
    requires HasNoTags(text)
    ensures forall i :: 0 <= i < |Lines(text)| ==> HasNoTags(Lines(text)[i])
  {
    hide Lines, Contains;
    forall i | 0 <= i < |Lines(text)|
      ensures HasNoTags(Lines(text)[i])
    {
      var a, b := LineIsPart(text, i);
      PartContainsLess(text, a, b, "[ch]");
      PartContainsLess(text, a, b, "[/ch]");
    }
  }

  lemma FourInARow(a: string, b: string, c: string, d: string)
    ensures a + b + c + d == (a + b) + (c + d)
  {
  }

  function NewlineOf(piece: string): (eol: string) {
    if piece != "" && piece[|piece| - 1] == '\n' then "\n" else ""
  }

  lemma PieceLessNewline(piece: string)
    ensures LessFinalNewline(piece) + NewlineOf(piece) == piece
  {
  }

  /** Joining the lines gives the pieces back, but for the last newline. */
  lemma {:induction false} JoinOfPieces(pieces: seq<string>, lines: seq<string>, k: nat)
    requires 0 < k <= |pieces| == |lines|
    requires forall i :: 0 <= i < |pieces| - 1 ==> NewlineOf(pieces[i]) == "\n"
    requires forall i :: 0 <= i < |pieces| ==> lines[i] == LessFinalNewline(pieces[i])
    ensures JoinOn(lines, '\n', k) + NewlineOf(pieces[k - 1]) == ConcatTo(pieces, k)
  {
    hide NewlineOf, LessFinalNewline;
    PieceLessNewline(pieces[k - 1]);
    if k > 1 {
      JoinOfPieces(pieces, lines, k - 1);
      FourInARow(JoinOn(lines, '\n', k - 1), "\n", lines[k - 1], NewlineOf(pieces[k - 1]));
    } else {
      assert ConcatTo(pieces, 1) == "" + pieces[0] == pieces[0];
    }
  }

  lemma WellCutNewlines(pieces: seq<string>)
    requires WellCut(pieces)
    ensures forall i :: 0 <= i < |pieces| - 1 ==> NewlineOf(pieces[i]) == "\n"
  {
  }

  lemma PartLacks(before: string, piece: string, text: string, x: char)
    requires before + piece <= text && x !in text
    ensures x !in piece
  {
    forall i | 0 <= i < |piece|
      ensures piece[i] != x
    {
      assert (before + piece)[|before| + i] == piece[i];
      assert text[|before| + i] in text;
    }
  }

  lemma StripEolIsLessNewline(piece: string)
    requires '\r' !in piece
    ensures StripEol(piece) == LessFinalNewline(piece)
  {
    if |piece| >= 2 {
      assert piece[|piece| - 2] in piece;
    }
  }

  lemma LineIsLessNewline(text: string, i: nat)
    requires '\r' !in text && i < |Lines(text)|
    ensures Lines(text)[i] == LessFinalNewline(SplitInclusive(text)[i])
  {
    hide SplitInclusive, StripEol, LessFinalNewline;
    var pieces := SplitInclusive(text);
    ConcatOfSplit(text);
    ConcatGrows(pieces, i + 1, |pieces|);
    PartLacks(ConcatTo(pieces, i), pieces[i], text, '\r');
    StripEolIsLessNewline(pieces[i]);
  }

  lemma LinesJoinBack(text: string)
    requires '\r' !in text
    ensures JoinOn(Lines(text), '\n', |Lines(text)|) == LessFinalNewline(text)
  {
    hide SplitInclusive, WellCut, NewlineOf, LessFinalNewline, StripEol;
    var pieces, lines := SplitInclusive(text), Lines(text);
    ConcatOfSplit(text);
    SplitIsWellCut(text);
    WellCutNewlines(pieces);
    forall i | 0 <= i < |pieces|
      ensures lines[i] == LessFinalNewline(pieces[i])
    {
      LineIsLessNewline(text, i);
    }
    var n := |pieces|;
    if n == 0 {
      LessOfNothing();
    } else {
      JoinOfPieces(pieces, lines, n);
      PieceEndsText(pieces, text);
      PieceLessNewline(text);
      SameEndings(JoinOn(lines, '\n', n), LessFinalNewline(text), NewlineOf(text));
    }
  }

  lemma LessOfNothing()
    ensures LessFinalNewline("") == ""
  {
  }

  lemma SameEndings(a: string, b: string, eol: string)
    requires a + eol == b + eol
    ensures a == b
  {
    assert |a| == |b|;
    assert a == (a + eol)[..|a|] && b == (b + eol)[..|b|];
  }

  lemma PieceEndsText(pieces: seq<string>, text: string)
    requires pieces != [] && WellCut(pieces) && text == Concat(pieces)
    ensures NewlineOf(pieces[|pieces| - 1]) == NewlineOf(text)
  {
    var last := pieces[|pieces| - 1];
    assert text == ConcatTo(pieces, |pieces| - 1) + last;
    assert last != "";
  }

  /** Deleting the tags from a pasted sheet's content gives the text back, less one final newline. */
  lemma StripGivesTextBack(pasted: string)
    requires '\r' !in pasted && HasNoTags(pasted)
    ensures StripTags(Content(pasted)) == LessFinalNewline(pasted)
  {
    hide Lines, StripTags, MarkedLine, WithoutCr;
    WithoutCrKeeps(pasted);
    LinesHaveNoTags(pasted);
    StripOfLines(Lines(pasted), |Lines(pasted)|);
    LinesJoinBack(pasted);
  }

  /** The words with the chords among them in tags. */
  function WrapAll(words: seq<string>): (wrapped: seq<string>)
    ensures |wrapped| == |words| && forall i :: 0 <= i < |words| ==> wrapped[i] == Wrapped(words[i])
  {
    seq(|words|, i requires 0 <= i < |words| => Wrapped(words[i]))
  }

  lemma WordsAtBoundary(out: string, more: string)
    requires out == "" || IsWhite(out[|out| - 1])
    ensures Words(out + more) == Words(out) + Words(more)
  {
    hide Words;
    if out == "" {
      assert out + more == more;
      NoWords();
      assert [] + Words(more) == Words(more);
    } else {
      var n := |out| - 1;
      assert out == out[..n] + [out[n]] + "";
      assert out + more == out[..n] + [out[n]] + more;
      WordsOfConcat(out[..n], out[n], "");
      WordsOfConcat(out[..n], out[n], more);
      NoWords();
      assert Words(out[..n]) + [] == Words(out[..n]);
    }
  }

  lemma NoWords()
    ensures Words("") == []
  {
  }

  predicate IsWord(token: string) {
    token != "" && forall i :: 0 <= i < |token| ==> !IsWhite(token[i])
  }

  lemma WrappedIsOneWord(token: string)
    requires IsWord(token)
    ensures Words(Wrapped(token)) == [Wrapped(token)]
  {
    hide IsChord;
    var w := Wrapped(token);
    if IsChord(token) {
      assert w == "[ch]" + token + "[/ch]";
    }
    assert IsWord(w);
    WordIsOneWord(w, |w|);
    assert w[..|w|] == w;
  }

  /** Word by word: what is written holds the finished words, wrapped, and the token is the word being read. */
  ghost predicate WordsSoFar(line: string, k: nat)
    requires k <= |line|
  {
    var st, split := MarkTo(line, k), WordsTo(line, k);
    && (st.out == "" || IsWhite(st.out[|st.out| - 1]))
    && st.token == split.word && (st.token == "" || IsWord(st.token))
    && Words(st.out) == WrapAll(split.words)
  }

  lemma FlushedWords(line: string, k: nat)
    requires k <= |line| && WordsSoFar(line, k)
    ensures Words(MarkTo(line, k).Flushed()) == WrapAll(WordsTo(line, k).Finish())
  {
    hide Words, Wrapped;
    var st, split := MarkTo(line, k), WordsTo(line, k);
    if st.token != "" {
      WordsAtBoundary(st.out, Wrapped(st.token));
      WrappedIsOneWord(st.token);
      assert WrapAll(split.words + [split.word]) == WrapAll(split.words) + [Wrapped(split.word)];
    }
  }

  lemma {:induction false} WordsAreWrapped(line: string, k: nat)
    requires k <= |line|
    ensures WordsSoFar(line, k)
  {
    hide Words, Wrapped, IsWhite;
    if k == 0 {
      NoWords();
    } else {
      WordsAreWrapped(line, k - 1);
      var before, c := MarkTo(line, k - 1), line[k - 1];
      if IsWhite(c) {
        FlushedWords(line, k - 1);
        WordsOfConcat(before.Flushed(), c, "");
        NoWords();
        assert before.Flushed() + [c] + "" == before.Flushed() + [c];
        assert Words(before.Flushed()) + [] == Words(before.Flushed());
      }
    }
  }

  /** On a chord line the words stay the words, and exactly the chords among them are wrapped; other lines stay. */
  lemma ExactlyTheChordsAreWrapped(line: string)
    ensures Words(MarkedLine(line)) == if IsChordLine(line) then WrapAll(Words(line)) else Words(line)
  {
    hide IsChordLine, Wrapped, WordsSoFar;
    WordsAreWrapped(line, |line|);
    FlushedWords(line, |line|);
  }
}
