/** The probe script's Markdown report, and a reader that undoes it. */
module MarkdownTable {
  import opened Text
  import opened UsernameRange

  datatype ProbeResult = ProbeResult(username: string, ok: bool, value: Option<string>, error: Option<string>)

  function EscapePipes(s: string): string {
    if s == [] then [] else (if s[0] == '|' then "\\|" else [s[0]]) + EscapePipes(s[1..])
  }

  function NewlinesToSpaces(s: string): string {
    seq(|s|, i requires 0 <= i < |s| => if s[i] == '\n' then ' ' else s[i])
  }

  function EscapeCell(s: string): string { Strip(NewlinesToSpaces(EscapePipes(s))) }

  /** `x or "-"`: a missing or empty field shows as a dash. */
  function OrDash(s: Option<string>): string { if s.None? || s.value == [] then "-" else s.value }

  function StatusText(ok: bool): string { if ok then "ok" else "failed" }

  function Row(cells: seq<string>): string {
    if cells == [] then "|" else "| " + cells[0] + " " + Row(cells[1..])
  }

  function Cells(r: ProbeResult): seq<string> {
    [EscapeCell(r.username), StatusText(r.ok), EscapeCell(OrDash(r.value)), EscapeCell(OrDash(r.error))]
  }

  function RowOf(r: ProbeResult): string { Row(Cells(r)) }

  const HEADER := "| username | status | value | error |"
  const RULE := "| --- | --- | --- | --- |"

  function Lines(results: seq<ProbeResult>): seq<string> {
    [HEADER, RULE] + seq(|results|, i requires 0 <= i < |results| => RowOf(results[i]))
  }

  function Join(lines: seq<string>): string {
    if lines == [] then [] else if |lines| == 1 then lines[0] else lines[0] + "\n" + Join(lines[1..])
  }

  method RenderMarkdownTable(results: seq<ProbeResult>) returns (text: string)
    ensures text == Join(Lines(results))
  {
    var lines := [HEADER, RULE];
    for i := 0 to |results|
      invariant lines == Lines(results[..i])
    {
      lines := lines + [RowOf(results[i])];
    }
    assert results[..|results|] == results;
    text := Join(lines);
  }

  // ---------------------------------------------------------------------------------------------
  // A reader.
  // ---------------------------------------------------------------------------------------------

  /** Split at newlines. */
  function SplitLines(s: string): (lines: seq<string>)
    ensures lines != []
  {
    if s == [] then [[]]
    else
      var rest := SplitLines(s[1..]);
      if s[0] == '\n' then [[]] + rest else [[s[0]] + rest[0]] + rest[1..]
  }

  /** Split at pipes that no backslash immediately precedes; `escaped` says whether one does at the start. */
  function SplitCells(s: string, escaped: bool): (cells: seq<string>)
    ensures cells != []
  {
    if s == [] then [[]]
    else
      var rest := SplitCells(s[1..], s[0] == '\\');
      if s[0] == '|' && !escaped then [[]] + rest else [[s[0]] + rest[0]] + rest[1..]
  }

  /** Drop the backslash before each pipe. */
  function Unescape(s: string): string {
    if s == [] then []
    else if s[0] == '\\' && |s| > 1 && s[1] == '|' then Unescape(s[1..])
    else [s[0]] + Unescape(s[1..])
  }

  /** A cell as read: one space of padding off each side, pipes unescaped. */
  function ReadCell(cell: string): string {
    if |cell| < 2 then cell else Unescape(cell[1..|cell| - 1])
  }

  /** A row as read: what stands between its first and last bare pipes. */
  function ReadRow(line: string): seq<string> {
    var cells := SplitCells(line, false);
    if |cells| < 2 then [] else
    seq(|cells| - 2, i requires 0 <= i < |cells| - 2 => ReadCell(cells[i + 1]))
  }

  /** The rows below the header and the rule. */
  function ReadRows(lines: seq<string>): seq<seq<string>> {
    if |lines| < 2 then [] else seq(|lines| - 2, i requires 0 <= i < |lines| - 2 => ReadRow(lines[i + 2]))
  }

  function ReadTable(text: string): seq<seq<string>> { ReadRows(SplitLines(text)) }

  /** What survives of a field: newlines are spaces and the ends are trimmed. */
  function Shown(s: string): string { Strip(NewlinesToSpaces(s)) }

  function ShownRow(r: ProbeResult): seq<string> {
    [Shown(r.username), StatusText(r.ok), Shown(OrDash(r.value)), Shown(OrDash(r.error))]
  }

  // ---------------------------------------------------------------------------------------------

  /** No bare pipe, given whether a backslash precedes the string. */
  predicate NoBarePipe(s: string, escaped: bool) {
    s == [] || ((s[0] == '|' ==> escaped) && NoBarePipe(s[1..], s[0] == '\\'))
  }

  /** Escaping and newline replacement commute: both work character by character. */
  lemma {:induction false} EscapeThenReplace(s: string)
    ensures NewlinesToSpaces(EscapePipes(s)) == EscapePipes(NewlinesToSpaces(s))
  {
    if s != [] {
      EscapeThenReplace(s[1..]);
      var n := NewlinesToSpaces(s);
      assert n == [n[0]] + NewlinesToSpaces(s[1..]);
      assert n[1..] == NewlinesToSpaces(s[1..]);
      var head := if s[0] == '|' then "\\|" else [s[0]];
      var tail := EscapePipes(s[1..]);
      assert NewlinesToSpaces(head + tail) == NewlinesToSpaces(head) + NewlinesToSpaces(tail);
      assert NewlinesToSpaces(head) == if n[0] == '|' then "\\|" else [n[0]];
    }
  }

  lemma {:induction false} EscapeAppend(a: string, b: string)
    ensures EscapePipes(a + b) == EscapePipes(a) + EscapePipes(b)
  {
    if a == [] {
      assert a + b == b;
    } else {
      assert (a + b)[1..] == a[1..] + b;
      EscapeAppend(a[1..], b);
    }
  }

  /** Escaping and trimming commute: a blank is neither a pipe nor a backslash. */
  lemma {:induction false} EscapeTrimLeft(s: string)
    ensures TrimLeft(EscapePipes(s), PyBlank) == EscapePipes(TrimLeft(s, PyBlank))
  {
    if s != [] {
      EscapeTrimLeft(s[1..]);
      if PyBlank(s[0]) {
        assert EscapePipes(s)[1..] == EscapePipes(s[1..]);
      }
    }
  }

  lemma {:induction false} EscapeTrimRight(s: string)
    ensures TrimRight(EscapePipes(s), PyBlank) == EscapePipes(TrimRight(s, PyBlank))
    decreases |s|
  {
    if s != [] {
      var front, last := s[..|s| - 1], s[|s| - 1];
      assert s == front + [last];
      EscapeAppend(front, [last]);
      EscapeTrimRight(front);
      assert [last][1..] == [];
      var e := EscapePipes(s);
      assert e[|e| - 1] == last;
      if PyBlank(last) {
        assert e[..|e| - 1] == EscapePipes(front);
      }
    }
  }

  /** An escaped cell is the escape of what is shown. */
  lemma EscapeCellIsEscape(s: string)
    ensures EscapeCell(s) == EscapePipes(Shown(s))
  {
    EscapeThenReplace(s);
    EscapeTrimLeft(NewlinesToSpaces(s));
    EscapeTrimRight(TrimLeft(NewlinesToSpaces(s), PyBlank));
  }

  lemma {:induction false} EscapeHasNoBarePipe(s: string, escaped: bool)
    ensures NoBarePipe(EscapePipes(s), escaped)
  {
    if s != [] {
      var e, rest := EscapePipes(s), EscapePipes(s[1..]);
      if s[0] == '|' {
        EscapeHasNoBarePipe(s[1..], false);
        assert e == "\\|" + rest;
        assert e[1..] == "|" + rest && e[1..][1..] == rest;
      } else {
        EscapeHasNoBarePipe(s[1..], s[0] == '\\');
        assert e[1..] == rest;
      }
    }
  }

  /** Removing the backslash before each pipe undoes the escaping, whatever backslashes the text has. */
  lemma {:induction false} UnescapeUndoes(s: string)
    ensures Unescape(EscapePipes(s)) == s
  {
    if s != [] {
      UnescapeUndoes(s[1..]);
      var e, rest := EscapePipes(s), EscapePipes(s[1..]);
      if s[0] == '|' {
        assert e == "\\|" + rest;
        assert e[1..] == "|" + rest && e[1..][1..] == rest;
      } else {
        assert e[1..] == rest;
        if s[0] == '\\' && |e| > 1 {
          assert rest[0] != '|' by { EscapeNeverStartsWithPipe(s[1..]); }
        }
      }
    }
  }

  lemma EscapeNeverStartsWithPipe(s: string)
    requires s != []
    ensures EscapePipes(s) != [] && EscapePipes(s)[0] != '|'
  {
  }

  /** A piece without bare pipes, followed by a space and a pipe, is the first cell. */
  lemma {:induction false} SplitFirst(cell: string, rest: string, escaped: bool)
    requires NoBarePipe(cell, escaped)
    ensures SplitCells(cell + " |" + rest, escaped) == [cell + " "] + SplitCells(rest, false)
  {
    var s := cell + " |" + rest;
    if cell == [] {
      assert s == " |" + rest;
      assert s[1..] == "|" + rest && s[1..][1..] == rest;
      assert SplitCells(s[1..], false) == [[]] + SplitCells(rest, false);
      assert [' '] + [] == cell + " ";
    } else {
      assert s[1..] == cell[1..] + " |" + rest;
      SplitFirst(cell[1..], rest, cell[0] == '\\');
      assert [cell[0]] + (cell[1..] + " ") == cell + " ";
    }
  }

  function EscapeAll(fields: seq<string>): seq<string> {
    seq(|fields|, i requires 0 <= i < |fields| => EscapePipes(fields[i]))
  }

  function Spaced(cells: seq<string>): seq<string> {
    seq(|cells|, i requires 0 <= i < |cells| => " " + cells[i] + " ")
  }

  lemma CellSplits(field: string, tail: string)
    ensures SplitCells(" " + EscapePipes(field) + " |" + tail, false)
         == [" " + EscapePipes(field) + " "] + SplitCells(tail, false)
  {
    var c := EscapePipes(field);
    EscapeHasNoBarePipe(field, false);
    assert (" " + c)[1..] == c;
    SplitFirst(" " + c, tail, false);
  }

  lemma RowTail(c: string, rest: string)
    requires rest != [] && rest[0] == '|'
    ensures ("| " + c + " " + rest)[1..] == " " + c + " |" + rest[1..]
  {
    assert rest == "|" + rest[1..];
  }

  /** Splitting a row at its bare pipes gives back the spaced cells, between two empty ends. */
  lemma {:induction false} RowSplits(fields: seq<string>)
    ensures var row := Row(EscapeAll(fields));
            row != [] && row[0] == '|' && SplitCells(row[1..], false) == Spaced(EscapeAll(fields)) + [[]]
  {
    var cells := EscapeAll(fields);
    if fields == [] {
      assert Row(cells)[1..] == [];
    } else {
      var rest := Row(cells[1..]);
      assert cells[1..] == EscapeAll(fields[1..]);
      RowSplits(fields[1..]);
      RowTail(cells[0], rest);
      CellSplits(fields[0], rest[1..]);
      assert Spaced(cells) == [" " + cells[0] + " "] + Spaced(cells[1..]);
    }
  }

  lemma CellReadsBack(field: string)
    ensures ReadCell(" " + EscapePipes(field) + " ") == field
  {
    var cell := " " + EscapePipes(field) + " ";
    assert cell[1..|cell| - 1] == EscapePipes(field);
    UnescapeUndoes(field);
  }

  /** Every row reads back as its fields. */
  lemma RowReadsBack(fields: seq<string>)
    ensures ReadRow(Row(EscapeAll(fields))) == fields
  {
    var cells := EscapeAll(fields);
    var split := SplitCells(Row(cells), false);
    assert split == [[]] + (Spaced(cells) + [[]]) by { RowSplits(fields); }
    assert |split| == |fields| + 2;
    forall i | 0 <= i < |fields| ensures ReadCell(split[i + 1]) == fields[i] {
      assert split[i + 1] == " " + EscapePipes(fields[i]) + " ";
      CellReadsBack(fields[i]);
    }
  }

  lemma CellsAreEscapes(r: ProbeResult)
    ensures Cells(r) == EscapeAll(ShownRow(r))
  {
    EscapeCellIsEscape(r.username);
    EscapeCellIsEscape(OrDash(r.value));
    EscapeCellIsEscape(OrDash(r.error));
    StatusIsPlain(r.ok);
  }

  lemma StatusIsPlain(ok: bool)
    ensures EscapePipes(StatusText(ok)) == StatusText(ok)
  {
    PlainIsFixed(StatusText(ok));
  }

  lemma {:induction false} PlainIsFixed(s: string)
    requires '|' !in s
    ensures EscapePipes(s) == s
  {
    if s != [] {
      PlainIsFixed(s[1..]);
    }
  }

  // ---------------------------------------------------------------------------------------------

  lemma {:induction false} EscapeHasNoNewline(s: string)
    requires '\n' !in s
    ensures '\n' !in EscapePipes(s)
  {
    if s != [] {
      EscapeHasNoNewline(s[1..]);
    }
  }

  lemma {:induction false} TrimLeftKeeps(s: string, c: char)
    requires c !in s
    ensures c !in TrimLeft(s, PyBlank)
  {
    if s != [] && PyBlank(s[0]) {
      TrimLeftKeeps(s[1..], c);
    }
  }

  lemma ShownHasNoNewline(s: string)
    ensures '\n' !in Shown(s)
  {
    TrimLeftKeeps(NewlinesToSpaces(s), '\n');
    TrimRightKeepsHead(TrimLeft(NewlinesToSpaces(s), PyBlank), PyBlank);
  }

  lemma {:induction false} RowHasNoNewline(fields: seq<string>)
    requires forall i :: 0 <= i < |fields| ==> '\n' !in fields[i]
    ensures '\n' !in Row(EscapeAll(fields))
  {
    if fields != [] {
      EscapeHasNoNewline(fields[0]);
      assert EscapeAll(fields)[1..] == EscapeAll(fields[1..]);
      RowHasNoNewline(fields[1..]);
    }
  }

  lemma RowOfHasNoNewline(r: ProbeResult)
    ensures '\n' !in RowOf(r)
  {
    CellsAreEscapes(r);
    ShownHasNoNewline(r.username);
    ShownHasNoNewline(OrDash(r.value));
    ShownHasNoNewline(OrDash(r.error));
    RowHasNoNewline(ShownRow(r));
  }

  lemma {:induction false} SplitOne(line: string)
    requires '\n' !in line
    ensures SplitLines(line) == [line]
  {
    if line != [] {
      SplitOne(line[1..]);
      assert [line[0]] + line[1..] == line;
    }
  }

  lemma {:induction false} SplitFirstLine(line: string, rest: string)
    requires '\n' !in line
    ensures SplitLines(line + "\n" + rest) == [line] + SplitLines(rest)
  {
    var s := line + "\n" + rest;
    if line == [] {
      assert s[1..] == rest;
    } else {
      assert s[1..] == line[1..] + "\n" + rest;
      SplitFirstLine(line[1..], rest);
      assert [line[0]] + line[1..] == line;
    }
  }

  lemma {:induction false} LinesSplit(lines: seq<string>)
    requires lines != [] && forall i :: 0 <= i < |lines| ==> '\n' !in lines[i]
    ensures SplitLines(Join(lines)) == lines
  {
    if |lines| == 1 {
      SplitOne(lines[0]);
    } else {
      LinesSplit(lines[1..]);
      SplitFirstLine(lines[0], Join(lines[1..]));
      assert [lines[0]] + lines[1..] == lines;
    }
  }

  /**
   * Main result: the report has a header, a rule and one line per result, and reading it back at its
   * bare pipes recovers every field up to newlines, trimming and the dash for nothing.
   */
  lemma TableReadsBack(results: seq<ProbeResult>)
    ensures |SplitLines(Join(Lines(results)))| == 2 + |results|
    ensures var rows := ReadTable(Join(Lines(results)));
            |rows| == |results| && forall i :: 0 <= i < |results| ==> rows[i] == ShownRow(results[i])
  {
    LinesHaveNoNewline(results);
    LinesSplit(Lines(results));
    RowsReadBack(results);
  }

  /** The rows as read, in terms of the results: who, how it went, and a dash for what is missing. */
  lemma TableShows(results: seq<ProbeResult>, i: nat)
    requires i < |results|
    ensures var rows, r := ReadTable(Join(Lines(results))), results[i];
            && i < |rows| && |rows[i]| == 4
            && rows[i][0] == Shown(r.username) && rows[i][1] == (if r.ok then "ok" else "failed")
            && rows[i][2] == (if r.value.Some? && r.value.value != "" then Shown(r.value.value) else "-")
            && rows[i][3] == (if r.error.Some? && r.error.value != "" then Shown(r.error.value) else "-")
  {
    TableReadsBack(results);
    DashIsShown();
  }

  lemma DashIsShown()
    ensures Shown("-") == "-"
  {
    assert NewlinesToSpaces("-") == "-";
    TrimmedIsFixed("-", PyBlank);
  }

  /** What is shown of a field: every newline as a space, without the blanks around it. */
  lemma ShownOf(s: string, pre: string, core: string, post: string)
    requires AllBlank(pre, PyBlank) && AllBlank(post, PyBlank) && TrimmedBy(core, PyBlank)
    requires |s| == |pre + core + post|
    requires forall i :: 0 <= i < |s| ==> (pre + core + post)[i] == if s[i] == '\n' then ' ' else s[i]
    ensures Shown(s) == core
  {
    assert NewlinesToSpaces(s) == pre + core + post;
    TrimOf(pre, core, post, PyBlank);
  }

  lemma FirstLines(results: seq<ProbeResult>)
    ensures var lines := SplitLines(Join(Lines(results)));
            |lines| >= 2 && lines[0] == HEADER && lines[1] == RULE
  {
    LinesHaveNoNewline(results);
    LinesSplit(Lines(results));
  }

  lemma HeadingCells(line: string, a: string, b: string, c: string, d: string)
    requires line == HEADER && a == "username" && b == "status" && c == "value" && d == "error"
    ensures ReadRow(line) == [a, b, c, d]
  {
    HeaderIsRow(a, b, c, d);
    assert '|' !in a && '|' !in b && '|' !in c && '|' !in d;
    PlainRow(line, [a, b, c, d]);
  }

  lemma RuleCells(line: string, a: string)
    requires line == RULE && a == "---"
    ensures ReadRow(line) == [a, a, a, a]
  {
    RuleIsRow(a);
    assert '|' !in a;
    PlainRow(line, [a, a, a, a]);
  }

  /** The first two lines read as the heading and the rule. */
  lemma TableHeading(results: seq<ProbeResult>, a: string, b: string, c: string, d: string, dashes: string)
    requires a == "username" && b == "status" && c == "value" && d == "error" && dashes == "---"
    ensures var lines := SplitLines(Join(Lines(results)));
            && |lines| >= 2 && ReadRow(lines[0]) == [a, b, c, d]
            && ReadRow(lines[1]) == [dashes, dashes, dashes, dashes]
  {
    FirstLines(results);
    var lines := SplitLines(Join(Lines(results)));
    HeadingCells(lines[0], a, b, c, d);
    RuleCells(lines[1], dashes);
  }

  lemma PlainRow(line: string, cells: seq<string>)
    requires line == Row(cells) && forall i :: 0 <= i < |cells| ==> '|' !in cells[i]
    ensures ReadRow(line) == cells
  {
    forall i | 0 <= i < |cells| ensures EscapePipes(cells[i]) == cells[i] {
      PlainIsFixed(cells[i]);
    }
    assert EscapeAll(cells) == cells;
    RowReadsBack(cells);
  }

  lemma RowOfFour(a: string, b: string, c: string, d: string)
    ensures Row([a, b, c, d]) == "| " + a + " " + ("| " + b + " " + ("| " + c + " " + ("| " + d + " " + "|")))
  {
    assert [a, b, c, d][1..] == [b, c, d] && [b, c, d][1..] == [c, d] && [c, d][1..] == [d] && [d][1..] == [];
    assert Row([d]) == "| " + d + " " + Row([]);
    assert Row([c, d]) == "| " + c + " " + Row([d]);
    assert Row([b, c, d]) == "| " + b + " " + Row([c, d]);
  }

  lemma HeaderIsRow(a: string, b: string, c: string, d: string)
    requires a == "username" && b == "status" && c == "value" && d == "error"
    ensures HEADER == Row([a, b, c, d])
  {
    RowOfFour(a, b, c, d);
  }

  lemma RuleIsRow(a: string)
    requires a == "---"
    ensures RULE == Row([a, a, a, a])
  {
    RowOfFour(a, a, a, a);
  }

  lemma RowsReadBack(results: seq<ProbeResult>)
    ensures |ReadRows(Lines(results))| == |results|
    ensures forall i :: 0 <= i < |results| ==> ReadRows(Lines(results))[i] == ShownRow(results[i])
  {
    forall i | 0 <= i < |results| ensures ReadRows(Lines(results))[i] == ShownRow(results[i]) {
      RowIsThirdOn(Lines(results), i);
      RowOfReadsBack(results[i]);
    }
  }

  lemma RowIsThirdOn(lines: seq<string>, i: nat)
    requires i + 2 < |lines|
    ensures i < |ReadRows(lines)| && ReadRows(lines)[i] == ReadRow(lines[i + 2])
  {
  }

  lemma LinesHaveNoNewline(results: seq<ProbeResult>)
    ensures forall i :: 0 <= i < |Lines(results)| ==> '\n' !in Lines(results)[i]
  {
    forall i | 0 <= i < |results| ensures '\n' !in RowOf(results[i]) {
      RowOfHasNoNewline(results[i]);
    }
  }

  lemma RowOfReadsBack(r: ProbeResult)
    ensures ReadRow(RowOf(r)) == ShownRow(r)
  {
    CellsAreEscapes(r);
    RowReadsBack(ShownRow(r));
  }
}
