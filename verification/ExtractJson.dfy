/** Pulling JSON out of a model's prose: `extract_json` in parse.rs. */
module ExtractJson {
  import opened Wrappers

  // ---------- the string-aware scan ----------

  datatype Scan = Scan(depth: int, inStr: bool, escaped: bool)

  const START := Scan(0, false, false)

  predicate IsOpen(open: char) {
    open == '[' || open == '{'
  }

  function Close(open: char): (close: char) {
    if open == '[' then ']' else '}'
  }

  /** What one character does to the scan: only brackets outside strings count. */
  function Step(open: char, st: Scan, c: char): (after: Scan) {
    if st.inStr then
      if st.escaped then st.(escaped := false)
      else if c == '\\' then st.(escaped := true)
      else if c == '"' then st.(inStr := false)
      else st
    else if c == '"' then st.(inStr := true)
    else if c == open then st.(depth := st.depth + 1)
    else if c == Close(open) then st.(depth := st.depth - 1)
    else st
  }

  /** The scan after the first `k` characters. */
  function Run(open: char, st: Scan, text: string, k: nat): (after: Scan)
    requires k <= |text|
  {
    if k == 0 then st else Step(open, Run(open, st, text, k - 1), text[k - 1])
  }

  /** The matched span that opens at `s` ends at `e`: there the brackets outside strings balance for the first time. */
  ghost predicate IsSpan(text: string, open: char, s: nat, e: nat) {
    && s <= e < |text| && text[s] == open
    && Run(open, START, text[s..], e + 1 - s).depth == 0
    && forall k :: 0 < k <= e - s ==> Run(open, START, text[s..], k).depth > 0
  }

  /** A span the JSON reader accepts. */
  ghost predicate IsHit<V>(text: string, open: char, parse: string -> Option<V>, s: nat, e: nat) {
    IsSpan(text, open, s, e) && parse(text[s..e + 1]).Some?
  }

  /** The value of the earliest accepted span, and nothing only when no span is accepted. */
  ghost predicate IsExtract<V>(text: string, open: char, parse: string -> Option<V>, r: Option<V>) {
    match r
    case None => forall s: nat, e: nat :: !IsHit(text, open, parse, s, e)
    case Some(v) =>
      exists s: nat, e: nat ::
        && IsHit(text, open, parse, s, e) && parse(text[s..e + 1]) == Some(v)
        && NoHitBefore(text, open, parse, s)
  }

  ghost predicate NoHitBefore<V>(text: string, open: char, parse: string -> Option<V>, n: nat) {
    forall s: nat, e: nat :: s < n ==> !IsHit(text, open, parse, s, e)
  }

  lemma SpanIsUnique(text: string, open: char, s: nat, e: nat)
    requires IsSpan(text, open, s, e)
    ensures forall f: nat :: f != e ==> !IsSpan(text, open, s, f)
  {
    forall f: nat | f != e
      ensures !IsSpan(text, open, s, f)
    {
      if s <= f < e {
        assert Run(open, START, text[s..], f + 1 - s).depth > 0;
      } else if e < f < |text| {
        assert Run(open, START, text[s..], e + 1 - s).depth == 0;
      }
    }
  }

  // ---------- the method ----------

  /** The end of the span that opens at `s`, if it is ever closed. */
  method MatchEnd(text: string, open: char, s: nat) returns (end: Option<nat>)
    requires IsOpen(open) && s < |text| && text[s] == open
    ensures end.Some? ==> IsSpan(text, open, s, end.value)
    ensures end.None? ==> forall e :: !IsSpan(text, open, s, e)
  {
    var depth, inStr, escaped := 0, false, false;
    ghost var tail := text[s..];
    for i := s to |text|
      invariant Scan(depth, inStr, escaped) == Run(open, START, tail, i - s)
      invariant forall k :: 0 < k <= i - s ==> Run(open, START, tail, k).depth > 0
    {
      var c := text[i];
      assert c == tail[i - s];
      if inStr {
        if escaped {
          escaped := false;
        } else if c == '\\' {
          escaped := true;
        } else if c == '"' {
          inStr := false;
        }
      } else if c == '"' {
        inStr := true;
      } else if c == open {
        depth := depth + 1;
      } else if c == Close(open) {
        depth := depth - 1;
        if depth == 0 {
          return Some(i);
        }
      }
    }
    return None;
  }

  method ExtractJson<V>(text: string, open: char, parse: string -> Option<V>) returns (r: Option<V>)
    requires IsOpen(open)
    ensures IsExtract(text, open, parse, r)
  {
    var start := 0;
    while start < |text|
      invariant start <= |text|
      invariant NoHitBefore(text, open, parse, start)
    {
      if text[start] == open {
        var end := MatchEnd(text, open, start);
        if end.Some? {
          var v := parse(text[start..end.value + 1]);
          if v.Some? {
            assert IsHit(text, open, parse, start, end.value);
            return v;
          }
          SpanIsUnique(text, open, start, end.value);
        }
      }
      start := start + 1;
    }
    return None;
  }

  // ---------- JSON texts ----------

  /** One piece of a string: a character that stands for itself, or a backslash and the character after it. */
  datatype Piece = Unescaped(c: char) | Escaped(c: char)

  /**
   * A JSON text with its whitespace. It covers the grammar of RFC 8259, sections 2 to 7, and a little more:
   * `Plain` is any run without quotes and brackets (numbers and the three names among them), and after an
   * escape any character may follow (the four digits of `\u` are unescaped pieces).
   */
  datatype Json =
    | Plain(text: string)
    | Quoted(pieces: seq<Piece>)
    | Array(space: string, elements: Elements)
    | Object(space: string, members: Members)

  datatype Elements = NoElement | Element(left: string, value: Json, right: string, rest: Elements)

  datatype Members =
    | NoMember
    | Member(left: string, key: seq<Piece>, mid: string, skip: string, value: Json, right: string, rest: Members)

  predicate IsPlain(text: string) {
    forall i :: 0 <= i < |text| ==> text[i] !in ['"', '[', ']', '{', '}']
  }

  predicate ArePieces(pieces: seq<Piece>) {
    forall i :: 0 <= i < |pieces| ==> pieces[i].Unescaped? ==> pieces[i].c != '"' && pieces[i].c != '\\'
  }

  predicate IsJson(v: Json) {
    match v
    case Plain(text) => IsPlain(text)
    case Quoted(pieces) => ArePieces(pieces)
    case Array(space, elements) => IsPlain(space) && AreElements(elements)
    case Object(space, members) => IsPlain(space) && AreMembers(members)
  }

  predicate AreElements(elements: Elements) {
    match elements
    case NoElement => true
    case Element(left, value, right, rest) => IsPlain(left) && IsJson(value) && IsPlain(right) && AreElements(rest)
  }

  predicate AreMembers(members: Members) {
    match members
    case NoMember => true
    case Member(left, key, mid, skip, value, right, rest) =>
      && IsPlain(left) && ArePieces(key) && IsPlain(mid) && IsPlain(skip) && IsJson(value) && IsPlain(right)
      && AreMembers(rest)
  }

  function RenderPieces(pieces: seq<Piece>, k: nat): (text: string)
    requires k <= |pieces|
  {
    if k == 0 then ""
    else
      RenderPieces(pieces, k - 1) + match pieces[k - 1] case Unescaped(c) => [c] case Escaped(c) => ['\\', c]
  }

  function RenderString(pieces: seq<Piece>): (text: string) {
    "\"" + RenderPieces(pieces, |pieces|) + "\""
  }

  function Render(v: Json): (text: string) {
    match v
    case Plain(text) => text
    case Quoted(pieces) => RenderString(pieces)
    case Array(space, elements) => "[" + (space + RenderElements(elements)) + "]"
    case Object(space, members) => "{" + (space + RenderMembers(members)) + "}"
  }

  function RenderElements(elements: Elements): (text: string) {
    match elements
    case NoElement => ""
    case Element(left, value, right, rest) =>
      left + (Render(value) + (right + ((if rest.NoElement? then "" else ",") + RenderElements(rest))))
  }

  function RenderMembers(members: Members): (text: string) {
    match members
    case NoMember => ""
    case Member(left, key, mid, skip, value, right, rest) =>
      left + (RenderString(key) + ((mid + ":" + skip) + (Render(value)
      + (right + ((if rest.NoMember? then "" else ",") + RenderMembers(rest))))))
  }

  // ---------- JSON texts leave the scan as they found it ----------

  lemma {:induction false} RunOfConcat(open: char, st: Scan, a: string, b: string, k: nat)
    requires k <= |b|
    ensures Run(open, st, a + b, |a| + k) == Run(open, Run(open, st, a, |a|), b, k)
  {
    if k == 0 {
      RunOfPrefix(open, st, a + b, a, |a|);
    } else {
      RunOfConcat(open, st, a, b, k - 1);
    }
  }

  lemma {:induction false} RunOfPrefix(open: char, st: Scan, a: string, b: string, k: nat)
    requires k <= |a| && k <= |b| && forall i :: 0 <= i < k ==> a[i] == b[i]
    ensures Run(open, st, a, k) == Run(open, st, b, k)
  {
    if k > 0 {
      RunOfPrefix(open, st, a, b, k - 1);
    }
  }

  function At(depth: int): (st: Scan) {
    Scan(depth, false, false)
  }

  /** Scanned outside a string, the text comes back to the same depth and never dips below it. */
  ghost predicate Neutral(open: char, text: string) {
    forall d: int ::
      && Run(open, At(d), text, |text|) == At(d)
      && forall k :: 0 <= k <= |text| ==> Run(open, At(d), text, k).depth >= d
  }

  lemma NeutralConcat(open: char, a: string, b: string)
    requires Neutral(open, a) && Neutral(open, b)
    ensures Neutral(open, a + b)
  {
    forall d: int
      ensures Run(open, At(d), a + b, |a + b|) == At(d)
      ensures forall k :: 0 <= k <= |a + b| ==> Run(open, At(d), a + b, k).depth >= d
    {
      RunOfConcat(open, At(d), a, b, |b|);
      forall k | 0 <= k <= |a + b|
        ensures Run(open, At(d), a + b, k).depth >= d
      {
        if k <= |a| {
          RunOfPrefix(open, At(d), a + b, a, k);
        } else {
          RunOfConcat(open, At(d), a, b, k - |a|);
        }
      }
    }
  }

  lemma {:induction false} RunOverPlain(open: char, text: string, d: int, k: nat)
    requires IsOpen(open) && IsPlain(text) && k <= |text|
    ensures Run(open, At(d), text, k) == At(d)
  {
    if k > 0 {
      RunOverPlain(open, text, d, k - 1);
      assert text[k - 1] !in ['"', '[', ']', '{', '}'];
    }
  }

  lemma PlainIsNeutral(open: char, text: string)
    requires IsOpen(open) && IsPlain(text)
    ensures Neutral(open, text)
  {
    forall d: int, k: nat | k <= |text|
      ensures Run(open, At(d), text, k) == At(d)
    {
      RunOverPlain(open, text, d, k);
    }
  }

  /** Inside a string no bracket counts and no escaped quote ends it. */
  lemma {:induction false} RunOverPieces(open: char, pieces: seq<Piece>, d: int, n: nat)
    requires ArePieces(pieces) && n <= |pieces|
    ensures var text := RenderPieces(pieces, n);
            && Run(open, Scan(d, true, false), text, |text|) == Scan(d, true, false)
            && forall k :: 0 <= k <= |text| ==> Run(open, Scan(d, true, false), text, k).depth == d
  {
    if n > 0 {
      RunOverPieces(open, pieces, d, n - 1);
      var before := RenderPieces(pieces, n - 1);
      var last := match pieces[n - 1] case Unescaped(c) => [c] case Escaped(c) => ['\\', c];
      forall k | 0 <= k <= |before + last|
        ensures Run(open, Scan(d, true, false), before + last, k).depth == d
        ensures k == |before + last| ==> Run(open, Scan(d, true, false), before + last, k) == Scan(d, true, false)
      {
        if k <= |before| {
          RunOfPrefix(open, Scan(d, true, false), before + last, before, k);
        } else {
          RunOfConcat(open, Scan(d, true, false), before, last, k - |before|);
          RunOfTwo(open, Scan(d, true, false), last, k - |before|);
        }
      }
    }
  }

  lemma RunOfTwo(open: char, st: Scan, text: string, k: nat)
    requires 0 < k <= |text| <= 2
    ensures Run(open, st, text, k)
         == if k == 1 then Step(open, st, text[0]) else Step(open, Step(open, st, text[0]), text[1])
  {
    assert Run(open, st, text, 1) == Step(open, Run(open, st, text, 0), text[0]);
  }

  lemma StringIsNeutral(open: char, pieces: seq<Piece>)
    requires IsOpen(open) && ArePieces(pieces)
    ensures Neutral(open, RenderString(pieces))
  {
    var body := RenderPieces(pieces, |pieces|);
    var text := RenderString(pieces);
    assert text == "\"" + (body + "\"");
    forall d: int, k: nat | k <= |text|
      ensures Run(open, At(d), text, k).depth == d
      ensures k == |text| ==> Run(open, At(d), text, k) == At(d)
    {
      RunOverPieces(open, pieces, d, |pieces|);
      RunOfTwo(open, At(d), "\"", 1);
      if k > 0 {
        RunOfConcat(open, At(d), "\"", body + "\"", k - 1);
        if k - 1 <= |body| {
          RunOfPrefix(open, Scan(d, true, false), body + "\"", body, k - 1);
        } else {
          RunOfConcat(open, Scan(d, true, false), body, "\"", 1);
          RunOfTwo(open, Scan(d, true, false), "\"", 1);
        }
      }
    }
  }

  /** What brackets of either kind do around a neutral body. */
  lemma RunOverBrackets(open: char, bracket: char, body: string, d: int, k: nat)
    requires IsOpen(open) && IsOpen(bracket) && Neutral(open, body)
    requires k <= |body| + 2
    ensures var text := [bracket] + body + [Close(bracket)];
            && (k == |text| ==> Run(open, At(d), text, k) == At(d))
            && (k == 0 ==> Run(open, At(d), text, k) == At(d))
            && (0 < k < |text| ==> Run(open, At(d), text, k).depth >= if bracket == open then d + 1 else d)
  {
    var text := [bracket] + body + [Close(bracket)];
    assert text == [bracket] + (body + [Close(bracket)]);
    var inner := if bracket == open then d + 1 else d;
    RunOfTwo(open, At(d), [bracket], 1);
    if k > 0 {
      RunOfConcat(open, At(d), [bracket], body + [Close(bracket)], k - 1);
      if k - 1 <= |body| {
        RunOfPrefix(open, At(inner), body + [Close(bracket)], body, k - 1);
      } else {
        RunOfConcat(open, At(inner), body, [Close(bracket)], 1);
        RunOfTwo(open, At(inner), [Close(bracket)], 1);
      }
    }
  }

  lemma BracketedIsNeutral(open: char, bracket: char, body: string)
    requires IsOpen(open) && IsOpen(bracket) && Neutral(open, body)
    ensures Neutral(open, [bracket] + body + [Close(bracket)])
  {
    var text := [bracket] + body + [Close(bracket)];
    forall d: int, k: nat | k <= |text|
      ensures Run(open, At(d), text, k).depth >= d
      ensures k == |text| ==> Run(open, At(d), text, k) == At(d)
    {
      RunOverBrackets(open, bracket, body, d, k);
    }
  }

  lemma {:induction false} JsonIsNeutral(open: char, v: Json)
    requires IsOpen(open) && IsJson(v)
    ensures Neutral(open, Render(v))
  {
    match v
    case Plain(text) =>
      PlainIsNeutral(open, text);
    case Quoted(pieces) =>
      StringIsNeutral(open, pieces);
    case Array(space, elements) =>
      PlainIsNeutral(open, space);
      ElementsAreNeutral(open, elements);
      NeutralConcat(open, space, RenderElements(elements));
      BracketedIsNeutral(open, '[', space + RenderElements(elements));
    case Object(space, members) =>
      PlainIsNeutral(open, space);
      MembersAreNeutral(open, members);
      NeutralConcat(open, space, RenderMembers(members));
      BracketedIsNeutral(open, '{', space + RenderMembers(members));
  }

  lemma {:induction false} ElementsAreNeutral(open: char, elements: Elements)
    requires IsOpen(open) && AreElements(elements)
    ensures Neutral(open, RenderElements(elements))
  {
    match elements
    case NoElement =>
      PlainIsNeutral(open, "");
    case Element(left, value, right, rest) =>
      var comma := if rest.NoElement? then "" else ",";
      PlainIsNeutral(open, left);
      JsonIsNeutral(open, value);
      PlainIsNeutral(open, right);
      PlainIsNeutral(open, comma);
      ElementsAreNeutral(open, rest);
      NeutralConcat(open, comma, RenderElements(rest));
      NeutralConcat(open, right, comma + RenderElements(rest));
      NeutralConcat(open, Render(value), right + (comma + RenderElements(rest)));
      NeutralConcat(open, left, Render(value) + (right + (comma + RenderElements(rest))));
  }

  lemma {:induction false} MembersAreNeutral(open: char, members: Members)
    requires IsOpen(open) && AreMembers(members)
    ensures Neutral(open, RenderMembers(members))
  {
    match members
    case NoMember =>
      PlainIsNeutral(open, "");
    case Member(left, key, mid, skip, value, right, rest) =>
      var comma := if rest.NoMember? then "" else ",";
      PlainIsNeutral(open, left);
      StringIsNeutral(open, key);
      PlainIsNeutral(open, mid + ":" + skip);
      JsonIsNeutral(open, value);
      PlainIsNeutral(open, right);
      PlainIsNeutral(open, comma);
      MembersAreNeutral(open, rest);
      var after := right + (comma + RenderMembers(rest));
      NeutralConcat(open, comma, RenderMembers(rest));
      NeutralConcat(open, right, comma + RenderMembers(rest));
      NeutralConcat(open, Render(value), after);
      NeutralConcat(open, mid + ":" + skip, Render(value) + after);
      NeutralConcat(open, RenderString(key), (mid + ":" + skip) + (Render(value) + after));
      NeutralConcat(open, left, RenderString(key) + ((mid + ":" + skip) + (Render(value) + after)));
  }

  // ---------- main result ----------

  /** An array or object text is exactly one span, wherever it stands. */
  lemma JsonIsOneSpan(prose: string, v: Json, rest: string)
    requires IsJson(v) && (v.Array? || v.Object?)
    ensures var open := if v.Array? then '[' else '{';
            IsSpan(prose + Render(v) + rest, open, |prose|, |prose| + |Render(v)| - 1)
  {
    var open := if v.Array? then '[' else '{';
    var body := if v.Array? then v.space + RenderElements(v.elements) else v.space + RenderMembers(v.members);
    var text := prose + Render(v) + rest;
    assert Render(v) == [open] + body + [Close(open)];
    PlainIsNeutral(open, v.space);
    if v.Array? {
      ElementsAreNeutral(open, v.elements);
      NeutralConcat(open, v.space, RenderElements(v.elements));
    } else {
      MembersAreNeutral(open, v.members);
      NeutralConcat(open, v.space, RenderMembers(v.members));
    }
    assert text[|prose|..] == Render(v) + rest;
    forall k: nat | k <= |Render(v)|
      ensures k == |Render(v)| ==> Run(open, START, text[|prose|..], k).depth == 0
      ensures 0 < k < |Render(v)| ==> Run(open, START, text[|prose|..], k).depth > 0
    {
      RunOfPrefix(open, At(0), Render(v) + rest, Render(v), k);
      RunOverBrackets(open, open, body, 0, k);
    }
  }

  /** An accepted array or object comes out as the reader reads it when nothing accepted opens before it. */
  lemma ExtractsFirstAccepted<V>(prose: string, v: Json, rest: string, parse: string -> Option<V>, r: Option<V>)
    requires IsJson(v) && (v.Array? || v.Object?)
    requires parse(Render(v)).Some?
    requires NoHitBefore(prose + Render(v) + rest, if v.Array? then '[' else '{', parse, |prose|)
    requires IsExtract(prose + Render(v) + rest, if v.Array? then '[' else '{', parse, r)
    ensures r == parse(Render(v))
  {
    var open := if v.Array? then '[' else '{';
    var text, s, e := prose + Render(v) + rest, |prose|, |prose| + |Render(v)| - 1;
    JsonIsOneSpan(prose, v, rest);
    assert text[s..e + 1] == Render(v);
    assert IsHit(text, open, parse, s, e);
    var s': nat, e': nat :| IsHit(text, open, parse, s', e') && parse(text[s'..e' + 1]) == r
                            && NoHitBefore(text, open, parse, s');
    assert s' == s;
    SpanIsUnique(text, open, s, e);
  }

  /**
   * Behind prose without the opening bracket and before any text, an array or object the JSON reader accepts
   * comes out as the reader reads it: brackets, quotes and escapes in its strings do not matter.
   */
  lemma ExtractsWhatWasWritten<V>(prose: string, v: Json, rest: string, parse: string -> Option<V>, r: Option<V>)
    requires IsJson(v) && (v.Array? || v.Object?)
    requires (if v.Array? then '[' else '{') !in prose
    requires parse(Render(v)).Some?
    requires IsExtract(prose + Render(v) + rest, if v.Array? then '[' else '{', parse, r)
    ensures r == parse(Render(v))
  {
    var text := prose + Render(v) + rest;
    assert forall i :: 0 <= i < |prose| ==> text[i] == prose[i];
    ExtractsFirstAccepted(prose, v, rest, parse, r);
  }
}
