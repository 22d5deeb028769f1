/** The table rows of an agent's hub file, and writing a reply into one: hub.rs. */
module Hub {
  import opened Wrappers
  import opened Text

  datatype Row = Row(number: string, cells: seq<string>, headers: seq<string>, reply: string)

  datatype ReplyError = NoSuchRow | BadText

  datatype Outcome = Written(hub: string) | Refused(error: ReplyError)

  // ---------- cells ----------

  function TrimBarsStart(s: string): (t: string)
    ensures t != "" ==> t[0] != '|'
  {
    if s != "" && s[0] == '|' then TrimBarsStart(s[1..]) else s
  }

  function TrimBarsEnd(s: string): (t: string)
    ensures t <= s && (t != "" ==> t[|t| - 1] != '|')
  {
    if s != "" && s[|s| - 1] == '|' then TrimBarsEnd(s[..|s| - 1]) else s
  }

  /** `trim_matches('|')`. */
  function TrimBars(s: string): (t: string)
    ensures t != "" ==> t[0] != '|' && t[|t| - 1] != '|'
  {
    TrimBarsEnd(TrimBarsStart(s))
  }

  function Parts(line: string): (parts: seq<string>)
    ensures parts != []
  {
    SplitOn(TrimBars(Trim(line)), '|')
  }

  function TrimAll(parts: seq<string>): (cells: seq<string>)
    ensures |cells| == |parts| && forall i :: 0 <= i < |parts| ==> cells[i] == Trim(parts[i])
  {
    seq(|parts|, i requires 0 <= i < |parts| => Trim(parts[i]))
  }

  function Cells(line: string): (cells: seq<string>)
    ensures cells != []
  {
    TrimAll(Parts(line))
  }

  predicate IsDashes(cell: string) {
    cell != "" && forall i :: 0 <= i < |cell| ==> cell[i] == '-' || cell[i] == ':'
  }

  predicate AreDashes(cells: seq<string>) {
    forall i :: 0 <= i < |cells| ==> IsDashes(cells[i])
  }

  predicate IsSeparator(line: string) {
    AreDashes(Cells(line))
  }

  // ---------- the table of a section ----------

  function Lower(c: char): (l: char) {
    if 'A' <= c <= 'Z' then (c as int + 32) as char else c
  }

  predicate EqIgnoreAsciiCase(a: string, b: string) {
    |a| == |b| && forall i :: 0 <= i < |a| ==> Lower(a[i]) == Lower(b[i])
  }

  /** What the walk makes of a line: a heading, a table line, or neither. */
  datatype LineKind = Heading(title: string) | TableLine | Other

  function KindOf(line: string): (kind: LineKind) {
    var t := Trim(line);
    if "## " <= t then Heading(Trim(t[3..])) else if t != "" && t[0] == '|' then TableLine else Other
  }

  datatype Walk = Walk(inSection: bool, table: seq<nat>, over: bool)

  function Walked(walk: Walk, kind: LineKind, heading: string, i: nat): (after: Walk) {
    if walk.over then walk
    else match kind
      case Heading(title) =>
        if walk.inSection then walk.(over := true) else walk.(inSection := EqIgnoreAsciiCase(title, heading))
      case TableLine => if walk.inSection then walk.(table := walk.table + [i]) else walk
      case Other => if walk.inSection && walk.table != [] then walk.(over := true) else walk
  }

  /** The walk over the first `k` lines. */
  function WalkTo(lines: seq<string>, heading: string, k: nat): (walk: Walk)
    requires k <= |lines|
    ensures forall j :: 0 <= j < |walk.table| ==> walk.table[j] < k
  {
    if k == 0 then Walk(false, [], false)
    else Walked(WalkTo(lines, heading, k - 1), KindOf(lines[k - 1]), heading, k - 1)
  }

  /** The line indexes of the first table under the heading, its header first; empty if there is none. */
  function SectionTable(lines: seq<string>, heading: string): (table: seq<nat>)
    ensures forall j :: 0 <= j < |table| ==> table[j] < |lines|
  {
    var walk := WalkTo(lines, heading, |lines|);
    if walk.inSection then walk.table else []
  }

  // ---------- rows and replies ----------

  /** The body lines among the first `k` lines of a table: no header, no separators. */
  function BodyTo(lines: seq<string>, table: seq<nat>, k: nat): (body: seq<nat>)
    requires k <= |table| && forall j :: 0 <= j < |table| ==> table[j] < |lines|
    ensures forall j :: 0 <= j < |body| ==> body[j] < |lines|
  {
    if k <= 1 then []
    else
      BodyTo(lines, table, k - 1) + if IsSeparator(lines[table[k - 1]]) then [] else [table[k - 1]]
  }

  function Body(lines: seq<string>, heading: string): (body: seq<nat>)
    ensures forall j :: 0 <= j < |body| ==> body[j] < |lines|
  {
    var table := SectionTable(lines, heading);
    BodyTo(lines, table, |table|)
  }

  function RowOf(cells: seq<string>, headers: seq<string>): (row: Row)
    requires cells != []
  {
    Row(cells[0], cells, headers, cells[|cells| - 1])
  }

  function Headers(lines: seq<string>, heading: string): (headers: seq<string>) {
    var table := SectionTable(lines, heading);
    if table == [] then [] else Cells(lines[table[0]])
  }

  /** The table rows under the heading, in file order. */
  function Rows(hub: string, heading: string): (rows: seq<Row>) {
    var lines := Lines(hub);
    var body := Body(lines, heading);
    seq(|body|, j requires 0 <= j < |body| => RowOf(Cells(lines[body[j]]), Headers(lines, heading)))
  }

  /** The first body line, from `j` on, with this number; or the length. */
  function FindRow(lines: seq<string>, body: seq<nat>, number: string, j: nat): (p: nat)
    requires j <= |body| && forall i :: 0 <= i < |body| ==> body[i] < |lines|
    ensures j <= p <= |body|
    ensures p < |body| ==> Cells(lines[body[p]])[0] == number
    ensures forall i :: j <= i < p ==> Cells(lines[body[i]])[0] != number
    decreases |body| - j
  {
    if j == |body| || Cells(lines[body[j]])[0] == number then j else FindRow(lines, body, number, j + 1)
  }

  predicate IsBadText(text: string) {
    text == "" || '|' in text || '\n' in text || '\r' in text
  }

  /** The row's line with the text in its last cell. */
  function Rewritten(line: string, text: string): (s: string) {
    var parts := Parts(line);
    var replied := parts[|parts| - 1 := " " + text + " "];
    "|" + JoinOn(replied, '|', |replied|) + "|"
  }

  /** A piece of the file with its line replaced and its newline kept. */
  function ReplacePiece(piece: string, line: string): (s: string) {
    line + if piece != "" && piece[|piece| - 1] == '\n' then "\n" else ""
  }

  /** The file with the text in the reply cell of one line, and nothing else changed. */
  function FileWith(hub: string, index: nat, text: string): (out: string)
    requires index < |Lines(hub)|
  {
    var pieces := SplitInclusive(hub);
    Concat(pieces[index := ReplacePiece(pieces[index], Rewritten(Lines(hub)[index], text))])
  }

  function SetReplySpec(hub: string, heading: string, number: string, raw: string): (outcome: Outcome) {
    var text := Trim(raw);
    if IsBadText(text) then Refused(BadText)
    else
      var body := Body(Lines(hub), heading);
      var p := FindRow(Lines(hub), body, number, 0);
      if p == |body| then Refused(NoSuchRow) else Written(FileWith(hub, body[p], text))
  }

  // ---------- the methods ----------

  method FindTable(lines: seq<string>, heading: string) returns (table: seq<nat>)
    ensures table == SectionTable(lines, heading)
  {
    hide KindOf, EqIgnoreAsciiCase;
    var inSection := false;
    table := [];
    for i := 0 to |lines|
      invariant Walk(inSection, table, false) == WalkTo(lines, heading, i)
    {
      match KindOf(lines[i])
      case Heading(title) =>
        if inSection {
          OverStays(lines, heading, i + 1, |lines|);
          return;
        }
        inSection := EqIgnoreAsciiCase(title, heading);
      case TableLine =>
        if inSection {
          table := table + [i];
        }
      case Other =>
        if inSection && table != [] {
          OverStays(lines, heading, i + 1, |lines|);
          return;
        }
    }
    if !inSection {
      table := [];
    }
  }

  lemma {:induction false} OverStays(lines: seq<string>, heading: string, j: nat, k: nat)
    requires j <= k <= |lines| && WalkTo(lines, heading, j).over
    ensures WalkTo(lines, heading, k) == WalkTo(lines, heading, j)
    decreases k
  {
    hide KindOf;
    if j < k {
      OverStays(lines, heading, j, k - 1);
    }
  }

  method SetReply(hub: string, heading: string, number: string, raw: string) returns (outcome: Outcome)
    ensures outcome == SetReplySpec(hub, heading, number, raw)
  {
    hide Trim, SplitInclusive, IsBadText, Rewritten, KindOf, IsSeparator, ReplacePiece, SectionTable, BodyTo, Cells;
    var text := Trim(raw);
    if IsBadText(text) {
      return Refused(BadText);
    }
    var lines := Lines(hub);
    var table := FindTable(lines, heading);
    var body := BodyTo(lines, table, |table|);
    var p := FindRow(lines, body, number, 0);
    if p == |body| {
      return Refused(NoSuchRow);
    }
    var out := WriteLine(SplitInclusive(hub), body[p], Rewritten(lines[body[p]], text));
    return Written(out);
  }

  /** Copies the pieces, one of them with its line replaced. */
  method WriteLine(pieces: seq<string>, index: nat, line: string) returns (out: string)
    requires index < |pieces|
    ensures out == Concat(pieces[index := ReplacePiece(pieces[index], line)])
  {
    hide ReplacePiece;
    ghost var after := pieces[index := ReplacePiece(pieces[index], line)];
    out := "";
    for i := 0 to |pieces|
      invariant out == ConcatTo(after, i)
    {
      out := out + if i == index then ReplacePiece(pieces[i], line) else pieces[i];
    }
  }

  // ---------- a line's parts ----------

  lemma {:induction false} TrimBarsKeepsCharacters(s: string)
    ensures forall c :: c in TrimBars(s) ==> c in s
  {
    TrimBarsStartKeepsCharacters(s);
  }

  lemma {:induction false} TrimBarsStartKeepsCharacters(s: string)
    ensures forall c :: c in TrimBarsStart(s) ==> c in s
  {
    if s != "" && s[0] == '|' {
      TrimBarsStartKeepsCharacters(s[1..]);
    }
  }

  lemma {:induction false} TrimStartKeepsCharacters(s: string)
    ensures forall c :: c in TrimStart(s) ==> c in s
  {
    if s != "" && IsWhite(s[0]) {
      TrimStartKeepsCharacters(s[1..]);
    }
  }

  lemma PartsOfLine(line: string)
    ensures forall i :: 0 <= i < |Parts(line)| ==>
                          '|' !in Parts(line)[i] && forall c :: c in Parts(line)[i] ==> c in line
    ensures |Parts(line)| >= 2 ==> Parts(line)[0] != ""
  {
    var s := TrimBars(Trim(line));
    TrimBarsKeepsCharacters(Trim(line));
    TrimStartKeepsCharacters(line);
    PartsComeFromText(s, '|', |s|);
  }

  // ---------- a rewritten line reads back ----------

  /** What a reply must be: trimmed, and nothing that would break the table. */
  predicate IsReply(text: string) {
    Trim(text) == text && !IsBadText(text)
  }

  lemma {:induction false} TrimIsIdempotent(s: string)
    ensures Trim(Trim(s)) == Trim(s)
  {
    var t := Trim(s);
    assert TrimStart(t) == t;
  }

  lemma TrimOfPadded(text: string)
    requires IsReply(text)
    ensures Trim(" " + text + " ") == text
  {
    var s := " " + text + " ";
    assert s[1..] == text + " ";
    assert Trim(text)[0] == text[0];
    assert TrimStart(text + " ") == text + " ";
    assert (text + " ")[..|text|] == text;
    assert TrimEnd(text) == text;
  }

  lemma TrimBarsOfWrapped(s: string)
    requires s != "" && s[0] != '|' && s[|s| - 1] != '|'
    ensures TrimBars("|" + s + "|") == s && Trim("|" + s + "|") == "|" + s + "|"
  {
    var w := "|" + s + "|";
    assert w[1..] == s + "|";
    assert TrimBarsStart(s + "|") == s + "|";
    assert (s + "|")[..|s|] == s;
    assert TrimBarsEnd(s) == s;
  }

  function RepliedParts(line: string, text: string): (parts: seq<string>)
    ensures |parts| == |Parts(line)|
  {
    Parts(line)[|Parts(line)| - 1 := " " + text + " "]
  }

  lemma RewrittenReadsBack(line: string, text: string)
    requires IsReply(text)
    ensures Parts(Rewritten(line, text)) == RepliedParts(line, text)
    ensures KindOf(Rewritten(line, text)) == TableLine
  {
    hide SplitOn;
    var parts := RepliedParts(line, text);
    PartsOfLine(line);
    var joined := JoinOn(parts, '|', |parts|);
    JoinStartsAndEnds(parts, '|', |parts|);
    assert parts[0][0] != '|' by {
      assert parts[0][0] in parts[0];
    }
    TrimBarsOfWrapped(joined);
    SplitOfJoin(parts, '|', |parts|);
    assert parts[..|parts|] == parts;
    assert Rewritten(line, text) == "|" + joined + "|";
    assert Rewritten(line, text)[0] == '|';
  }

  /**
   * A rewritten line keeps nothing of what stood around the row: neither its indentation nor a carriage return at its
   * end.
   */
  lemma RewrittenLosesMargins(line: string, text: string, piece: string)
    ensures Rewritten(line, text) == Rewritten(Trim(line), text) && "|" <= Rewritten(line, text)
    ensures piece != "" && EndsLine(piece) ==>
             ReplacePiece(piece, Rewritten(line, text)) == Rewritten(line, text) + "\n"
    ensures IsReply(text) && '\r' !in line ==> '\r' !in Rewritten(line, text)
  {
    hide Trim;
    TrimIsIdempotent(line);
    if IsReply(text) && '\r' !in line {
      PartsOfLine(line);
      var parts := RepliedParts(line, text);
      JoinKeepsOut(parts, '|', |parts|, '\r');
    }
  }

  lemma RewrittenCells(line: string, text: string)
    requires IsReply(text)
    ensures Cells(Rewritten(line, text)) == Cells(line)[|Cells(line)| - 1 := text]
  {
    hide Trim, Parts, Rewritten;
    RewrittenReadsBack(line, text);
    TrimOfPadded(text);
  }

  lemma RewrittenIsOneLine(line: string, text: string)
    requires IsReply(text) && '\n' !in line
    ensures '\n' !in Rewritten(line, text) && Rewritten(line, text) != ""
    ensures Rewritten(line, text)[|Rewritten(line, text)| - 1] == '|'
  {
    hide Parts, Trim;
    PartsOfLine(line);
    var parts := RepliedParts(line, text);
    JoinKeepsOut(parts, '|', |parts|, '\n');
  }

  // ---------- the file with one line rewritten ----------

  lemma ReplacedPiece(piece: string, line: string)
    requires piece != "" && '\n' !in line && line != "" && line[|line| - 1] == '|'
    ensures StripEol(ReplacePiece(piece, line)) == line && ReplacePiece(piece, line) != ""
    ensures EndsLine(piece) <==> EndsLine(ReplacePiece(piece, line))
    ensures forall i :: 0 <= i < |ReplacePiece(piece, line)| - 1 ==> ReplacePiece(piece, line)[i] != '\n'
  {
    assert line[|line| - 1] in line;
    assert (line + "\n")[..|line|] == line;
    forall i | 0 <= i < |line|
      ensures line[i] != '\n'
    {
      assert line[i] in line;
    }
  }

  lemma ReplacedFile(hub: string, index: nat, line: string)
    requires index < |Lines(hub)| && '\n' !in line && line != "" && line[|line| - 1] == '|'
    ensures var pieces := SplitInclusive(hub)[index := ReplacePiece(SplitInclusive(hub)[index], line)];
            && SplitInclusive(Concat(pieces)) == pieces
            && Lines(Concat(pieces)) == Lines(hub)[index := line]
  {
    hide SplitInclusive, StripEol, ReplacePiece;
    var before := SplitInclusive(hub);
    var pieces := before[index := ReplacePiece(before[index], line)];
    SplitIsWellCut(hub);
    ReplacedPiece(before[index], line);
    assert WellCut(pieces);
    SplitOfPieces(pieces);
  }

  lemma {:induction false} SameWalk(a: seq<string>, b: seq<string>, heading: string, k: nat)
    requires k <= |a| == |b| && forall i :: 0 <= i < |a| ==> KindOf(a[i]) == KindOf(b[i])
    ensures WalkTo(a, heading, k) == WalkTo(b, heading, k)
  {
    hide KindOf;
    if k > 0 {
      SameWalk(a, b, heading, k - 1);
    }
  }

  lemma {:induction false} TableIsAscending(lines: seq<string>, heading: string, k: nat)
    requires k <= |lines|
    ensures forall i, j :: 0 <= i < j < |WalkTo(lines, heading, k).table| ==>
                             WalkTo(lines, heading, k).table[i] < WalkTo(lines, heading, k).table[j]
  {
    hide KindOf;
    if k > 0 {
      TableIsAscending(lines, heading, k - 1);
    }
  }

  ghost predicate Ascending(table: seq<nat>) {
    forall i, j :: 0 <= i < j < |table| ==> table[i] < table[j]
  }

  /** Body lines come from the table's tail, in order. */
  lemma {:induction false} BodyIsTail(lines: seq<string>, table: seq<nat>, k: nat)
    requires k <= |table| && (forall j :: 0 <= j < |table| ==> table[j] < |lines|) && Ascending(table)
    ensures Ascending(BodyTo(lines, table, k))
    ensures forall b :: b in BodyTo(lines, table, k) ==> exists j :: 1 <= j < k && table[j] == b
  {
    hide IsSeparator;
    if k > 1 {
      BodyIsTail(lines, table, k - 1);
      var before := BodyTo(lines, table, k - 1);
      forall i | 0 <= i < |before|
        ensures before[i] < table[k - 1]
      {
        assert before[i] in before;
        var j :| 1 <= j < k - 1 && table[j] == before[i];
      }
    }
  }

  /** Rewriting a body line into one that is no separator leaves the body as it is. */
  lemma {:induction false} SameBody(lines: seq<string>, table: seq<nat>, k: nat, index: nat, line: string)
    requires k <= |table| && (forall j :: 0 <= j < |table| ==> table[j] < |lines|)
    requires index < |lines| && !IsSeparator(lines[index]) && !IsSeparator(line)
    ensures BodyTo(lines[index := line], table, k) == BodyTo(lines, table, k)
  {
    hide IsSeparator;
    if k > 1 {
      SameBody(lines, table, k - 1, index, line);
    }
  }

  /** Rewriting a body line into a separator takes one row away. */
  lemma {:induction false} ShorterBody(lines: seq<string>, table: seq<nat>, k: nat, index: nat, line: string)
    requires k <= |table| && (forall j :: 0 <= j < |table| ==> table[j] < |lines|)
    requires index < |lines| && !IsSeparator(lines[index]) && IsSeparator(line)
    ensures |BodyTo(lines[index := line], table, k)| <= |BodyTo(lines, table, k)|
    ensures index in BodyTo(lines, table, k) ==>
              |BodyTo(lines[index := line], table, k)| < |BodyTo(lines, table, k)|
  {
    hide IsSeparator;
    if k > 1 {
      ShorterBody(lines, table, k - 1, index, line);
    }
  }

  lemma {:induction false} BodyHasNoSeparator(lines: seq<string>, table: seq<nat>, k: nat)
    requires k <= |table| && forall j :: 0 <= j < |table| ==> table[j] < |lines|
    ensures forall i :: i in BodyTo(lines, table, k) ==> !IsSeparator(lines[i])
  {
    hide IsSeparator;
    if k > 0 {
      BodyHasNoSeparator(lines, table, k - 1);
    }
  }

  lemma {:induction false} TableHasTableLines(lines: seq<string>, heading: string, k: nat)
    requires k <= |lines|
    ensures forall i :: i in WalkTo(lines, heading, k).table ==> KindOf(lines[i]) == TableLine
  {
    hide KindOf;
    if k > 0 {
      TableHasTableLines(lines, heading, k - 1);
    }
  }

  /** The table and its header do not change when a body line is rewritten as a table line. */
  lemma SameTable(lines: seq<string>, heading: string, index: nat, line: string)
    requires index < |lines| && index in Body(lines, heading) && KindOf(line) == TableLine
    ensures SectionTable(lines[index := line], heading) == SectionTable(lines, heading)
    ensures Headers(lines[index := line], heading) == Headers(lines, heading)
    ensures Ascending(Body(lines, heading))
  {
    hide KindOf, IsSeparator, Cells;
    var table := SectionTable(lines, heading);
    TableIsAscending(lines, heading, |lines|);
    BodyIsTail(lines, table, |table|);
    var j :| 1 <= j < |table| && table[j] == index;
    TableHasTableLines(lines, heading, |lines|);
    SameWalk(lines, lines[index := line], heading, |lines|);
    assert table[0] < index;
  }

  // ---------- main results ----------

  /** The row with its reply cell replaced. */
  function Replied(row: Row, text: string): (after: Row)
    requires row.cells != []
  {
    row.(cells := row.cells[|row.cells| - 1 := text], reply := text)
  }

  /** A caller can check it: the number is not the cell replied in, and some cell is not made only of dashes. */
  predicate KeepsRow(row: Row, text: string)
    requires row.cells != []
  {
    (|row.cells| >= 2 || text == row.number) && !AreDashes(row.cells[|row.cells| - 1 := text])
  }

  /** The position of the row a reply goes to. */
  function RowIndex(hub: string, heading: string, number: string): (p: nat) {
    FindRow(Lines(hub), Body(Lines(hub), heading), number, 0)
  }

  function LineIndex(hub: string, heading: string, number: string): (index: nat)
    requires RowIndex(hub, heading, number) < |Body(Lines(hub), heading)|
  {
    Body(Lines(hub), heading)[RowIndex(hub, heading, number)]
  }

  /** The reply goes to the first row with that number, and is refused only for bad text or when there is none. */
  lemma RepliesToFirstRow(hub: string, heading: string, number: string, raw: string)
    ensures var rows, p := Rows(hub, heading), RowIndex(hub, heading, number);
            && p <= |rows| && (forall q :: 0 <= q < p ==> rows[q].number != number)
            && (p < |rows| ==> rows[p].number == number && rows[p].cells != [])
            && (SetReplySpec(hub, heading, number, raw) == Refused(BadText) <==> IsBadText(Trim(raw)))
            && (SetReplySpec(hub, heading, number, raw) == Refused(NoSuchRow) <==>
                  !IsBadText(Trim(raw)) && forall q :: 0 <= q < |rows| ==> rows[q].number != number)
  {
    hide Trim, Lines, Body, Cells, Rewritten, ReplacePiece, SplitInclusive;
  }

  /** What a written reply makes of the file's lines: one line changes. */
  lemma WrittenLines(hub: string, heading: string, number: string, raw: string, out: string)
    requires SetReplySpec(hub, heading, number, raw) == Written(out)
    ensures RowIndex(hub, heading, number) < |Body(Lines(hub), heading)| && IsReply(Trim(raw))
    ensures var index := LineIndex(hub, heading, number);
            var line := Rewritten(Lines(hub)[index], Trim(raw));
            && Lines(out) == Lines(hub)[index := line]
            && SplitInclusive(out) == SplitInclusive(hub)[index := ReplacePiece(SplitInclusive(hub)[index], line)]
  {
    hide Lines, Body, Cells, Rewritten, ReplacePiece, SplitInclusive, TrimStart, TrimEnd;
    TrimIsIdempotent(raw);
    var index := LineIndex(hub, heading, number);
    LineHasNoNewline(hub, index);
    RewrittenIsOneLine(Lines(hub)[index], Trim(raw));
    ReplacedFile(hub, index, Rewritten(Lines(hub)[index], Trim(raw)));
  }

  lemma ReplyFits(hub: string, heading: string, number: string, raw: string, out: string)
    requires SetReplySpec(hub, heading, number, raw) == Written(out)
    ensures var p := RowIndex(hub, heading, number);
            && p < |Rows(hub, heading)|
            && (var line := Rewritten(Lines(hub)[LineIndex(hub, heading, number)], Trim(raw));
               && Cells(line) == Replied(Rows(hub, heading)[p], Trim(raw)).cells
               && (IsSeparator(line) <==> AreDashes(Replied(Rows(hub, heading)[p], Trim(raw)).cells))
               && KindOf(line) == TableLine)
  {
    hide Lines, Body, Cells, Rewritten, ReplacePiece, SplitInclusive, Trim, KindOf;
    WrittenLines(hub, heading, number, raw, out);
    var line := Lines(hub)[LineIndex(hub, heading, number)];
    RewrittenReadsBack(line, Trim(raw));
    RewrittenCells(line, Trim(raw));
    assert Rows(hub, heading)[RowIndex(hub, heading, number)].cells == Cells(line);
  }

  /** The rows after a reply that keeps its row. */
  lemma RowsAfterReply(hub: string, heading: string, number: string, raw: string, out: string)
    requires SetReplySpec(hub, heading, number, raw) == Written(out)
    requires !AreDashes(Replied(Rows(hub, heading)[RowIndex(hub, heading, number)], Trim(raw)).cells)
    ensures Body(Lines(out), heading) == Body(Lines(hub), heading)
    ensures var p, rows := RowIndex(hub, heading, number), Rows(hub, heading);
            Rows(out, heading) == rows[p := RowOf(Replied(rows[p], Trim(raw)).cells, rows[p].headers)]
  {
    hide Lines, Cells, Rewritten, ReplacePiece, SplitInclusive, Trim, KindOf, IsSeparator, SectionTable, Headers;
    var lines, index := Lines(hub), LineIndex(hub, heading, number);
    var line := Rewritten(lines[index], Trim(raw));
    WrittenLines(hub, heading, number, raw, out);
    ReplyFits(hub, heading, number, raw, out);
    SameTable(lines, heading, index, line);
    var table := SectionTable(lines, heading);
    BodyHasNoSeparator(lines, table, |table|);
    SameBody(lines, table, |table|, index, line);
    var body, p, rows := Body(lines, heading), RowIndex(hub, heading, number), Rows(hub, heading);
    forall j | 0 <= j < |body|
      ensures Rows(out, heading)[j] == if j == p then RowOf(Cells(line), Headers(lines, heading)) else rows[j]
    {
      assert j != p ==> body[j] != body[p];
    }
  }

  /**
   * A written reply changes its own row's reply cell and nothing else, exactly when the number is not the cell
   * replied in and some cell of the row is not made only of dashes and colons.
   */
  lemma ReplyChangesOneCell(hub: string, heading: string, number: string, raw: string, out: string)
    requires SetReplySpec(hub, heading, number, raw) == Written(out)
    ensures var p, rows, text := RowIndex(hub, heading, number), Rows(hub, heading), Trim(raw);
            && p < |rows|
            && (Rows(out, heading) == rows[p := Replied(rows[p], text)] <==> KeepsRow(rows[p], text))
  {
    hide Lines, Cells, Rewritten, ReplacePiece, SplitInclusive, Trim, KindOf, IsSeparator, SectionTable, Headers, Body;
    var p, rows, text := RowIndex(hub, heading, number), Rows(hub, heading), Trim(raw);
    ReplyFits(hub, heading, number, raw, out);
    RepliesToFirstRow(hub, heading, number, raw);
    if AreDashes(Replied(rows[p], text).cells) {
      LostRow(hub, heading, number, raw, out);
    } else {
      RowsAfterReply(hub, heading, number, raw, out);
      assert Rows(out, heading)[p] == RowOf(Replied(rows[p], text).cells, rows[p].headers);
    }
  }

  /** A row whose cells would all be dashes is a separator from then on: one row less. */
  lemma LostRow(hub: string, heading: string, number: string, raw: string, out: string)
    requires SetReplySpec(hub, heading, number, raw) == Written(out)
    requires AreDashes(Replied(Rows(hub, heading)[RowIndex(hub, heading, number)], Trim(raw)).cells)
    ensures |Rows(out, heading)| < |Rows(hub, heading)|
  {
    hide Lines, Cells, Rewritten, ReplacePiece, SplitInclusive, Trim, KindOf, IsSeparator, SectionTable, Headers;
    var lines, index := Lines(hub), LineIndex(hub, heading, number);
    var line := Rewritten(lines[index], Trim(raw));
    WrittenLines(hub, heading, number, raw, out);
    ReplyFits(hub, heading, number, raw, out);
    SameTable(lines, heading, index, line);
    var table := SectionTable(lines, heading);
    BodyHasNoSeparator(lines, table, |table|);
    ShorterBody(lines, table, |table|, index, line);
  }

  lemma RewrittenTwice(line: string, text: string, later: string)
    requires IsReply(text)
    ensures Rewritten(Rewritten(line, text), later) == Rewritten(line, later)
  {
    hide Parts, Trim;
    RewrittenReadsBack(line, text);
    assert RepliedParts(line, text)[|Parts(line)| - 1 := " " + later + " "] == RepliedParts(line, later);
  }

  lemma ReplacedTwice(piece: string, line: string, later: string)
    requires '\n' !in line && piece != "" && line != "" && line[|line| - 1] == '|'
    ensures ReplacePiece(ReplacePiece(piece, line), later) == ReplacePiece(piece, later)
  {
    ReplacedPiece(piece, line);
  }

  lemma {:induction false} FoundAgain(
    lines: seq<string>, after: seq<string>, body: seq<nat>, number: string, j: nat, p: nat)
    requires |after| == |lines| && (forall i :: 0 <= i < |body| ==> body[i] < |lines|) && j <= p < |body|
    requires forall i :: 0 <= i < p ==> Cells(after[body[i]])[0] != number
    requires Cells(after[body[p]])[0] == number
    ensures FindRow(after, body, number, j) == p
    decreases p - j
  {
    hide Cells;
    if j < p {
      FoundAgain(lines, after, body, number, j + 1, p);
    }
  }

  /** The pieces of the file a reply is written into, from what the row's line and number are. */
  lemma WrittenPieces(hub: string, heading: string, number: string, raw: string)
    requires RowIndex(hub, heading, number) < |Body(Lines(hub), heading)|
    ensures SetReplySpec(hub, heading, number, raw)
         == if IsBadText(Trim(raw)) then Refused(BadText)
            else Written(FileWith(hub, LineIndex(hub, heading, number), Trim(raw)))
  {
    hide Lines, Cells, Rewritten, ReplacePiece, SplitInclusive, Trim, Body, Concat;
  }

  lemma SameRowAfterReply(hub: string, heading: string, number: string, raw: string, out: string)
    requires SetReplySpec(hub, heading, number, raw) == Written(out)
    requires RowIndex(hub, heading, number) < |Rows(hub, heading)|
    requires KeepsRow(Rows(hub, heading)[RowIndex(hub, heading, number)], Trim(raw))
    ensures RowIndex(out, heading, number) == RowIndex(hub, heading, number) < |Body(Lines(out), heading)|
    ensures Body(Lines(out), heading) == Body(Lines(hub), heading)
  {
    hide Lines, Cells, Rewritten, ReplacePiece, SplitInclusive, Trim, KindOf, IsSeparator, SectionTable, Headers, Body;
    var p := RowIndex(hub, heading, number);
    ReplyFits(hub, heading, number, raw, out);
    RowsAfterReply(hub, heading, number, raw, out);
    RepliesToFirstRow(hub, heading, number, raw);
    var after, body := Lines(out), Body(Lines(hub), heading);
    forall i | 0 <= i <= p
      ensures Cells(after[body[i]])[0] == number <==> i == p
    {
      assert Cells(after[body[i]]) == Rows(out, heading)[i].cells;
    }
    WrittenLines(hub, heading, number, raw, out);
    FoundAgain(Lines(hub), after, body, number, 0, p);
  }

  /** A second reply to the row gives the file that writing it directly gives. */
  lemma LastReplyWins(hub: string, heading: string, number: string, raw: string, out: string, later: string)
    requires SetReplySpec(hub, heading, number, raw) == Written(out)
    requires RowIndex(hub, heading, number) < |Rows(hub, heading)|
    requires KeepsRow(Rows(hub, heading)[RowIndex(hub, heading, number)], Trim(raw))
    ensures SetReplySpec(out, heading, number, later) == SetReplySpec(hub, heading, number, later)
  {
    hide *;
    WrittenLines(hub, heading, number, raw, out);
    SameRowAfterReply(hub, heading, number, raw, out);
    SameLineIndex(hub, out, heading, number);
    WrittenPieces(hub, heading, number, later);
    WrittenPieces(out, heading, number, later);
    var index := LineIndex(hub, heading, number);
    var before, line := Lines(hub)[index], Rewritten(Lines(hub)[index], Trim(raw));
    LineHasNoNewline(hub, index);
    RewrittenIsOneLine(before, Trim(raw));
    RewrittenTwice(before, Trim(raw), Trim(later));
    PieceIsNotEmpty(hub, index);
    var pieces, piece := SplitInclusive(hub), SplitInclusive(hub)[index];
    ReplacedTwice(piece, line, Rewritten(before, Trim(later)));
    UpdatedTwice(pieces, index, ReplacePiece(piece, line), ReplacePiece(piece, Rewritten(before, Trim(later))));
    FileFromPieces(out, index, Trim(later));
    FileFromPieces(hub, index, Trim(later));
  }

  lemma FileFromPieces(hub: string, index: nat, text: string)
    requires index < |Lines(hub)|
    ensures FileWith(hub, index, text)
         == Concat(SplitInclusive(hub)[
                     index := ReplacePiece(SplitInclusive(hub)[index], Rewritten(Lines(hub)[index], text))])
  {
  }

  lemma SameLineIndex(hub: string, out: string, heading: string, number: string)
    requires RowIndex(out, heading, number) == RowIndex(hub, heading, number) < |Body(Lines(hub), heading)|
    requires Body(Lines(out), heading) == Body(Lines(hub), heading)
    ensures LineIndex(out, heading, number) == LineIndex(hub, heading, number) < |Lines(hub)|
  {
    hide Lines, Body;
  }

  lemma PieceIsNotEmpty(hub: string, index: nat)
    requires index < |SplitInclusive(hub)|
    ensures SplitInclusive(hub)[index] != ""
  {
    SplitIsWellCut(hub);
  }

  lemma UpdatedTwice(pieces: seq<string>, index: nat, first: string, second: string)
    requires index < |pieces|
    ensures pieces[index := first][index := second] == pieces[index := second]
  {
  }

  // ---------- the table of a section, line by line ----------

  const CAPITALS: string := "ABCDEFGHIJKLMNOPQRSTUVWXYZ"
  const SMALL: string := "abcdefghijklmnopqrstuvwxyz"

  /** One character, or a letter of the alphabet in both its cases. */
  predicate SameLetter(a: char, b: char) {
    || a == b
    || (exists n :: 0 <= n < 26 && CAPITALS[n] == a && SMALL[n] == b)
    || (exists n :: 0 <= n < 26 && CAPITALS[n] == b && SMALL[n] == a)
  }

  predicate SameLetters(a: string, b: string) {
    |a| == |b| && forall i :: 0 <= i < |a| ==> SameLetter(a[i], b[i])
  }

  lemma AlphabetIs()
    ensures forall n :: 0 <= n < 26 ==> CAPITALS[n] as int == 65 + n && SMALL[n] as int == 97 + n
  {
  }

  lemma SameLetterIffLower(a: char, b: char)
    ensures SameLetter(a, b) <==> Lower(a) == Lower(b)
  {
    AlphabetIs();
    if Lower(a) == Lower(b) && a != b {
      if 'A' <= a <= 'Z' {
        assert CAPITALS[a as int - 65] == a && SMALL[a as int - 65] == b;
      } else {
        assert CAPITALS[b as int - 65] == b && SMALL[b as int - 65] == a;
      }
    }
  }

  lemma SameLettersIffEqual(a: string, b: string)
    ensures SameLetters(a, b) <==> EqIgnoreAsciiCase(a, b)
  {
    hide SameLetter, Lower;
    if |a| == |b| {
      forall i | 0 <= i < |a|
        ensures SameLetter(a[i], b[i]) <==> Lower(a[i]) == Lower(b[i])
      {
        SameLetterIffLower(a[i], b[i]);
      }
    }
  }

  predicate IsHeadingLine(line: string) {
    |Trim(line)| >= 3 && Trim(line)[0] == '#' && Trim(line)[1] == '#' && Trim(line)[2] == ' '
  }

  predicate IsBarLine(line: string) {
    Trim(line) != "" && Trim(line)[0] == '|'
  }

  /** The line opens the section of this heading, up to case. */
  predicate Opens(line: string, heading: string) {
    IsHeadingLine(line) && SameLetters(Trim(Trim(line)[3..]), heading)
  }

  lemma KindsAre(line: string, heading: string)
    ensures KindOf(line).Heading? <==> IsHeadingLine(line)
    ensures KindOf(line) == TableLine <==> IsBarLine(line)
    ensures KindOf(line).Heading? ==> (EqIgnoreAsciiCase(KindOf(line).title, heading) <==> Opens(line, heading))
  {
    hide Trim, SameLetters, EqIgnoreAsciiCase;
    var t := Trim(line);
    assert "## " <= t <==> IsHeadingLine(line);
    if IsHeadingLine(line) {
      SameLettersIffEqual(Trim(t[3..]), heading);
    }
  }

  /** The first line that opens the section. */
  predicate IsOpening(lines: seq<string>, heading: string, h: nat) {
    h < |lines| && Opens(lines[h], heading) && forall i :: 0 <= i < h ==> !Opens(lines[i], heading)
  }

  /** Lines `a` up to `b` are a run of table lines, with nothing but other text between the opening line and them. */
  predicate IsRun(lines: seq<string>, h: nat, a: nat, b: nat) {
    && h < a <= b <= |lines|
    && (forall i :: h < i < a ==> !IsHeadingLine(lines[i]) && !IsBarLine(lines[i]))
    && (forall i :: a <= i < b ==> IsBarLine(lines[i]))
  }

  /** The run is over: a longer one is no table any more, and one not begun is never begun behind the next heading. */
  predicate IsOver(lines: seq<string>, a: nat, b: nat) {
    b < |lines| && if a == b then IsHeadingLine(lines[b]) else !IsBarLine(lines[b])
  }

  function Range(a: nat, b: nat): (indexes: seq<nat>)
    requires a <= b
  {
    if a == b then [] else Range(a, b - 1) + [b - 1]
  }

  /** What the walk has found after `k` lines: no opening yet, or an opening and a run up to here or to its end. */
  ghost predicate WalkIs(lines: seq<string>, heading: string, k: nat, walk: Walk, h: nat, a: nat, b: nat) {
    if !walk.inSection
    then !walk.over && walk.table == [] && k <= |lines| && forall i :: 0 <= i < k ==> !Opens(lines[i], heading)
    else
      && IsOpening(lines, heading, h) && IsRun(lines, h, a, b) && walk.table == Range(a, b)
      && if walk.over then b < k && IsOver(lines, a, b) else b == k
  }

  lemma RangeIsEmpty(a: nat, b: nat)
    requires a <= b
    ensures Range(a, b) == [] <==> a == b
  {
  }

  lemma WalkGoesOn(lines: seq<string>, heading: string, k: nat, walk: Walk, h: nat, a: nat, b: nat)
    returns (h': nat, a': nat, b': nat)
    requires k < |lines| && WalkIs(lines, heading, k, walk, h, a, b)
    ensures WalkIs(lines, heading, k + 1, Walked(walk, KindOf(lines[k]), heading, k), h', a', b')
  {
    hide IsHeadingLine, IsBarLine, Opens, KindOf, EqIgnoreAsciiCase;
    KindsAre(lines[k], heading);
    HeadingIsNoBar(lines[k], heading);
    h', a', b' := h, a, b;
    if !walk.inSection {
      h', a', b' := k, k + 1, k + 1;
    } else if !walk.over {
      RangeIsEmpty(a, b);
      if KindOf(lines[k]) == TableLine {
        b' := k + 1;
      } else if a == b && !KindOf(lines[k]).Heading? {
        a', b' := k + 1, k + 1;
      }
    }
  }

  lemma HeadingIsNoBar(line: string, heading: string)
    ensures !(IsHeadingLine(line) && IsBarLine(line)) && (Opens(line, heading) ==> IsHeadingLine(line))
  {
  }

  lemma {:induction false} WalkExactly(lines: seq<string>, heading: string, k: nat) returns (h: nat, a: nat, b: nat)
    requires k <= |lines|
    ensures WalkIs(lines, heading, k, WalkTo(lines, heading, k), h, a, b)
  {
    hide WalkIs, Walked, KindOf;
    if k == 0 {
      h, a, b := 0, 0, 0;
      NothingWalked(lines, heading);
    } else {
      h, a, b := WalkExactly(lines, heading, k - 1);
      h, a, b := WalkGoesOn(lines, heading, k - 1, WalkTo(lines, heading, k - 1), h, a, b);
    }
  }

  lemma NothingWalked(lines: seq<string>, heading: string)
    ensures WalkIs(lines, heading, 0, Walk(false, [], false), 0, 0, 0)
  {
  }

  /**
   * The table of a section is the first unbroken run of lines that start with a bar, between the first line that opens
   * the section and the next heading; there is none exactly if nothing opens the section or no such run comes.
   */
  lemma TableIsFirstRun(lines: seq<string>, heading: string) returns (h: nat, a: nat, b: nat)
    ensures (forall i :: 0 <= i < |lines| ==> !Opens(lines[i], heading)) ==> SectionTable(lines, heading) == []
    ensures (exists i :: 0 <= i < |lines| && Opens(lines[i], heading)) ==>
              && IsOpening(lines, heading, h) && IsRun(lines, h, a, b) && (b == |lines| || IsOver(lines, a, b))
              && SectionTable(lines, heading) == Range(a, b)
  {
    hide Opens, IsRun, IsOver;
    h, a, b := WalkExactly(lines, heading, |lines|);
  }

  /** The table's lines are the numbers from `a` to `b`. */
  lemma {:induction false} RangeCounts(a: nat, b: nat)
    requires a <= b
    ensures |Range(a, b)| == b - a && forall j :: 0 <= j < b - a ==> Range(a, b)[j] == a + j
  {
    if a < b {
      RangeCounts(a, b - 1);
    }
  }

  // ---------- rows, cell by cell ----------

  /** A line of cells between bars, whatever white space is around them. */
  lemma CellsBetweenBars(front: string, parts: seq<string>, back: string)
    requires AllWhite(front) && AllWhite(back) && parts != [] && parts[0] != "" && parts[|parts| - 1] != ""
    requires forall i :: 0 <= i < |parts| ==> '|' !in parts[i]
    ensures var line := front + ("|" + JoinOn(parts, '|', |parts|) + "|") + back;
            && |Cells(line)| == |parts|
            && forall i :: 0 <= i < |parts| ==> Cells(line)[i] == Trim(parts[i])
  {
    hide Trim, SplitOn;
    var joined := JoinOn(parts, '|', |parts|);
    JoinStartsAndEnds(parts, '|', |parts|);
    assert parts[0][0] in parts[0];
    var last := parts[|parts| - 1];
    assert last[|last| - 1] in last;
    TrimBarsOfWrapped(joined);
    TrimOfBetween(front, "|" + joined + "|", back);
    SplitOfJoin(parts, '|', |parts|);
    assert parts[..|parts|] == parts;
  }

  /** A separator has only dashes and colons in its cells, and no cell is empty. */
  lemma SeparatorsAre(line: string)
    ensures IsSeparator(line) <==>
            forall i :: 0 <= i < |Cells(line)| ==>
              Cells(line)[i] != "" && forall c :: c in Cells(line)[i] ==> c in "-:"
  {
    hide Cells;
    forall cell: string
      ensures IsDashes(cell) <==> cell != "" && forall c :: c in cell ==> c in "-:"
    {
      DashesAre(cell);
    }
  }

  lemma DashesAre(cell: string)
    ensures IsDashes(cell) <==> cell != "" && forall c :: c in cell ==> c in "-:"
  {
    assert "-:"[0] == '-' && "-:"[1] == ':';
    if forall c :: c in cell ==> c in "-:" {
      forall i | 0 <= i < |cell|
        ensures cell[i] == '-' || cell[i] == ':'
      {
        assert cell[i] in cell;
      }
    }
  }

  lemma {:induction false} BodyHasTheRest(lines: seq<string>, table: seq<nat>, k: nat)
    requires k <= |table| && forall j :: 0 <= j < |table| ==> table[j] < |lines|
    ensures forall i :: i in BodyTo(lines, table, k) <==>
                        exists j :: 1 <= j < k && table[j] == i && !IsSeparator(lines[i])
  {
    hide IsSeparator;
    if k > 0 {
      BodyHasTheRest(lines, table, k - 1);
    }
  }

  /** A row is a line of the table, not its first and no separator: its first cell is its number, its last the reply. */
  lemma RowsAreLines(hub: string, heading: string, p: nat) returns (j: nat)
    requires p < |Rows(hub, heading)|
    ensures var lines, table, row := Lines(hub), SectionTable(Lines(hub), heading), Rows(hub, heading)[p];
            && 1 <= j < |table| && !IsSeparator(lines[table[j]])
            && row.cells == Cells(lines[table[j]]) && row.headers == Cells(lines[table[0]])
            && row.number == row.cells[0] && row.reply == row.cells[|row.cells| - 1]
  {
    hide Lines, Cells, IsSeparator, SectionTable;
    var lines, table := Lines(hub), SectionTable(Lines(hub), heading);
    BodyHasTheRest(lines, table, |table|);
    var i := Body(lines, heading)[p];
    assert i in BodyTo(lines, table, |table|);
    j :| 1 <= j < |table| && table[j] == i && !IsSeparator(lines[i]);
  }

  /** Every other line of the table is a row, and the rows come in the order of their lines. */
  lemma LinesAreRows(hub: string, heading: string, j: nat) returns (p: nat)
    requires 1 <= j < |SectionTable(Lines(hub), heading)|
    requires !IsSeparator(Lines(hub)[SectionTable(Lines(hub), heading)[j]])
    ensures p < |Rows(hub, heading)| && Body(Lines(hub), heading)[p] == SectionTable(Lines(hub), heading)[j]
    ensures Ascending(Body(Lines(hub), heading)) && |Rows(hub, heading)| == |Body(Lines(hub), heading)|
  {
    hide Lines, Cells, IsSeparator, WalkTo, KindOf;
    var lines, table := Lines(hub), SectionTable(Lines(hub), heading);
    BodyHasTheRest(lines, table, |table|);
    TableIsAscending(lines, heading, |lines|);
    BodyIsTail(lines, table, |table|);
    assert table[j] in BodyTo(lines, table, |table|);
    p :| 0 <= p < |Body(lines, heading)| && Body(lines, heading)[p] == table[j];
  }

  /** What a reply may not be. */
  lemma BadTextIs(text: string)
    ensures IsBadText(text) <==> text == "" || exists c :: c in text && c in "|\n\r"
  {
    assert "|\n\r"[0] == '|' && "|\n\r"[1] == '\n' && "|\n\r"[2] == '\r';
  }

  // ---------- a row that is lost ----------

  const HEADING_LINE: string := "## Q"
  const HEADER_LINE: string := "|n|r|"
  const ROW_LINE: string := "|-| |"
  const HUB: string := HEADING_LINE + "\n" + (HEADER_LINE + "\n" + (ROW_LINE + "\n"))

  lemma PieceOfLine(line: string, rest: string)
    requires '\n' !in line && line != "" && line[|line| - 1] != '\r'
    ensures SplitInclusive(line + "\n" + rest) == [line + "\n"] + SplitInclusive(rest)
    ensures StripEol(line + "\n") == line
  {
    SplitOfOnePiece(line + "\n");
    SplitOfConcat(line + "\n", rest);
    assert (line + "\n")[..|line|] == line;
  }

  lemma LinesOfHub()
    ensures Lines(HUB) == [HEADING_LINE, HEADER_LINE, ROW_LINE]
  {
    hide StripEol, SplitInclusive;
    PieceOfLine(HEADING_LINE, HEADER_LINE + "\n" + (ROW_LINE + "\n"));
    PieceOfLine(HEADER_LINE, ROW_LINE + "\n");
    PieceOfLine(ROW_LINE, "");
    assert ROW_LINE + "\n" + "" == ROW_LINE + "\n";
    SplitOfNothing();
    assert SplitInclusive(HUB) == [HEADING_LINE + "\n", HEADER_LINE + "\n", ROW_LINE + "\n"];
  }

  lemma TrimOfUntrimmed(s: string)
    requires s != "" && !IsWhite(s[0]) && !IsWhite(s[|s| - 1])
    ensures Trim(s) == s
  {
  }

  lemma KindsOfHub()
    ensures KindOf(HEADING_LINE) == Heading("Q") && KindOf(HEADER_LINE) == TableLine && KindOf(ROW_LINE) == TableLine
  {
    hide Trim;
    TrimOfUntrimmed(HEADING_LINE);
    TrimOfUntrimmed(HEADER_LINE);
    TrimOfUntrimmed(ROW_LINE);
    TrimOfUntrimmed("Q");
    assert HEADING_LINE[3..] == "Q";
  }

  lemma CellsOfRow()
    ensures Cells(ROW_LINE) == ["-", ""] && !IsSeparator(ROW_LINE)
  {
    hide Trim, TrimBars, SplitOn;
    TrimBarsOfWrapped("-| ");
    assert ROW_LINE == "|" + "-| " + "|";
    SplitOfJoined("-", '|', " ");
    SplitOfOnePart("-", '|');
    SplitOfOnePart(" ", '|');
    assert "-" + ['|'] + " " == "-| ";
    TrimOfUntrimmed("-");
    TrimOfBlank();
    assert Parts(ROW_LINE) == ["-", " "];
    assert !IsDashes(Cells(ROW_LINE)[1]);
  }

  lemma TrimOfBlank()
    ensures Trim(" ") == ""
  {
  }

  lemma TableOfHub()
    ensures SectionTable(Lines(HUB), "Q") == [1, 2]
  {
    hide Lines, KindOf;
    LinesOfHub();
    KindsOfHub();
    var lines := Lines(HUB);
    assert WalkTo(lines, "Q", 1) == Walk(true, [], false);
    assert WalkTo(lines, "Q", 2) == Walk(true, [1], false);
    assert WalkTo(lines, "Q", 3) == Walk(true, [1, 2], false);
  }

  lemma BodyOfHub()
    ensures Body(Lines(HUB), "Q") == [2]
  {
    hide Lines, IsSeparator, SectionTable;
    LinesOfHub();
    TableOfHub();
    CellsOfRow();
    assert BodyTo(Lines(HUB), [1, 2], 1) == [];
    assert BodyTo(Lines(HUB), [1, 2], 2) == [2];
  }

  /** A hub whose only row is numbered by a dash: replying with a dash makes the row a separator, and it is gone. */
  lemma DashReplyLosesItsRow() returns (out: string)
    ensures |Rows(HUB, "Q")| == 1 && Rows(HUB, "Q")[0].cells == ["-", ""]
    ensures SetReplySpec(HUB, "Q", "-", "-") == Written(out) && Rows(out, "Q") == []
  {
    hide HUB, Lines, Body, Cells, FileWith, Trim;
    LinesOfHub();
    BodyOfHub();
    CellsOfRow();
    TrimOfUntrimmed("-");
    assert RowIndex(HUB, "Q", "-") == 0;
    out := FileWith(HUB, 2, "-");
    assert !IsBadText("-");
    assert Replied(Rows(HUB, "Q")[0], "-").cells == ["-", "-"];
    LostRow(HUB, "Q", "-", "-", out);
  }
}
