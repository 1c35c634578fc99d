/** `toMarkdown` of src/utils/tables/markdown.ts: a pipe table in the style of
    section 4.10 (Tables extension) of the GitHub Flavored Markdown spec.
    Nothing is escaped: header and cell text is pasted in verbatim. */
module Markdown {
  import opened Results
  import opened Tables
  import opened Seqs

  /** A text with one space on each side, as it sits between two pipes. */
  function Pad(text: string): string {
    " " + text + " "
  }

  function PadAll(texts: seq<string>): (padded: seq<string>)
    ensures |padded| == |texts|
    ensures forall i :: 0 <= i < |texts| ==> padded[i] == Pad(texts[i])
  {
    seq(|texts|, i requires 0 <= i < |texts| => Pad(texts[i]))
  }

  /** The header line: each header after a pipe and a space and before a
      space, then one closing pipe (markdown.ts lines 10-12). */
  function HeaderRow(headers: seq<string>): string {
    Join(seq(|headers|, i requires 0 <= i < |headers| => "| " + headers[i] + " "), "") + "|"
  }

  /** The divider line: one `| --- ` per column, then a closing pipe. */
  function Divider(columns: nat): string {
    Join(seq(columns, i requires 0 <= i < columns => "| --- "), "") + "|"
  }

  /** A body line: the cells separated by ` | `, inside an opening `| ` and
      a closing ` |`. */
  function RenderRow(row: seq<string>): string {
    "| " + Join(row, " | ") + " |"
  }

  function RenderRows(body: seq<seq<string>>): (lines: seq<string>)
    ensures |lines| == |body|
    ensures forall i :: 0 <= i < |body| ==> lines[i] == RenderRow(body[i])
  {
    seq(|body|, i requires 0 <= i < |body| => RenderRow(body[i]))
  }

  /** The body lines joined by newlines; no rows give the empty string. */
  function BodyRows(body: seq<seq<string>>): string {
    Join(RenderRows(body), "\n")
  }

  /** `toMarkdown`: the header line, the divider and the body, each on
      its own line. Nothing in a text is escaped. */
  function ToMarkdown(table: Table<string>): string {
    HeaderRow(table.headers) + "\n" + Divider(|table.headers|) + "\n" + BodyRows(table.body)
  }

  /** The lines of the rendering: header row, divider, then one line per body
      row, or a single empty line when the body is empty. */
  function Lines(table: Table<string>): (lines: seq<string>)
    ensures |lines| == 2 + (if |table.body| == 0 then 1 else |table.body|)
  {
    [HeaderRow(table.headers), Divider(|table.headers|)] +
    (if |table.body| == 0 then [""] else RenderRows(table.body))
  }

  /** No header or cell text contains `c`. */
  predicate FreeOf(table: Table<string>, c: char) {
    && (forall k :: 0 <= k < |table.headers| ==> c !in table.headers[k])
    && (forall i, j :: 0 <= i < |table.body| && 0 <= j < |table.body[i]| ==> c !in table.body[i][j])
  }

  // ---------------------------------------------------------------------
  // Line structure

  /** `c` occurs in a join only if it occurs in a part or in the separator. */
  lemma {:induction false} JoinFreeOf(parts: seq<string>, sep: string, c: char)
    requires c !in sep
    requires forall i :: 0 <= i < |parts| ==> c !in parts[i]
    ensures c !in Join(parts, sep)
    decreases |parts|
  {
    if |parts| > 1 {
      JoinFreeOf(parts[1..], sep, c);
    }
  }

  /** The rendering is its lines joined with newlines. */
  lemma ToMarkdownIsJoinedLines(table: Table<string>)
    ensures ToMarkdown(table) == Join(Lines(table), "\n")
  {
    var hr := HeaderRow(table.headers);
    var dv := Divider(|table.headers|);
    var tail := if |table.body| == 0 then [""] else RenderRows(table.body);
    assert Join(tail, "\n") == BodyRows(table.body);
    JoinAppend([hr, dv], tail, "\n");
    assert [hr, dv][1..] == [dv];
    assert Join([hr, dv], "\n") == hr + "\n" + dv;
  }

  /** With no newline in any text, splitting the rendering on newlines gives
      back its lines: the header row, the divider, and one line per body row;
      an empty body leaves one empty last line. */
  lemma MarkdownLines(table: Table<string>)
    requires FreeOf(table, '\n')
    ensures Split(ToMarkdown(table), '\n') == Lines(table)
  {
    ToMarkdownIsJoinedLines(table);
    var lines := Lines(table);
    forall i | 0 <= i < |lines|
      ensures '\n' !in lines[i]
    {
      if i == 0 {
        HeaderRowFreeOf(table.headers, '\n');
      } else if i == 1 {
        DividerShape(|table.headers|);
      } else if |table.body| > 0 {
        RenderRowFreeOf(table.body[i - 2], '\n');
      }
    }
    SplitJoin(lines, '\n');
  }

  /** The header row holds `c` only if a header does, `c` being neither a
      space nor a pipe. */
  lemma HeaderRowFreeOf(headers: seq<string>, c: char)
    requires c != ' ' && c != '|'
    requires forall k :: 0 <= k < |headers| ==> c !in headers[k]
    ensures c !in HeaderRow(headers)
  {
    HeaderRowCells(headers);
    JoinFreeOf([""] + PadAll(headers) + [""], "|", c);
  }

  /** A rendered row holds `c` only if a cell does, `c` being neither a
      space nor a pipe. */
  lemma RenderRowFreeOf(row: seq<string>, c: char)
    requires c != ' ' && c != '|'
    requires forall j :: 0 <= j < |row| ==> c !in row[j]
    ensures c !in RenderRow(row)
  {
    JoinFreeOf(row, " | ", c);
  }

  // ---------------------------------------------------------------------
  // Row structure

  /** A string that starts and ends with a pipe and has the padded texts in between. */
  lemma {:induction false} PipeFramed(texts: seq<string>)
    ensures Join([""] + PadAll(texts) + [""], "|") ==
      if |texts| == 0 then "|" else "|" + Join(PadAll(texts), "|") + "|"
  {
    var p := PadAll(texts);
    if |texts| == 0 {
      assert [""] + p + [""] == ["", ""];
      assert ["", ""][1..] == [""];
    } else {
      assert ([""] + p + [""])[1..] == p + [""];
      JoinAppend(p, [""], "|");
    }
  }

  lemma {:induction false} HeaderPieces(headers: seq<string>)
    requires |headers| >= 1
    ensures Join(seq(|headers|, i requires 0 <= i < |headers| => "| " + headers[i] + " "), "") ==
      "|" + Join(PadAll(headers), "|")
    decreases |headers|
  {
    var pieces := seq(|headers|, i requires 0 <= i < |headers| => "| " + headers[i] + " ");
    if |headers| > 1 {
      var rest := headers[1..];
      assert pieces[1..] == seq(|rest|, i requires 0 <= i < |rest| => "| " + rest[i] + " ");
      HeaderPieces(rest);
      assert PadAll(headers)[1..] == PadAll(rest);
    }
  }

  /** The header row is the padded headers framed and separated by pipes. */
  lemma HeaderRowCells(headers: seq<string>)
    ensures HeaderRow(headers) == Join([""] + PadAll(headers) + [""], "|")
  {
    PipeFramed(headers);
    if |headers| > 0 {
      HeaderPieces(headers);
    }
  }

  lemma {:induction false} RowPieces(row: seq<string>)
    requires |row| >= 1
    ensures " " + Join(row, " | ") + " " == Join(PadAll(row), "|")
    decreases |row|
  {
    if |row| > 1 {
      RowPieces(row[1..]);
      assert PadAll(row)[1..] == PadAll(row[1..]);
    }
  }

  /** A non-empty body row is its padded cells framed and separated by pipes;
      an empty row renders as `|  |`, exactly like a row of one empty cell. */
  lemma RenderRowCells(row: seq<string>)
    ensures |row| >= 1 ==> RenderRow(row) == Join([""] + PadAll(row) + [""], "|")
    ensures |row| == 0 ==> RenderRow(row) == RenderRow([""])
  {
    PipeFramed(row);
    if |row| > 0 {
      RowPieces(row);
    }
  }

  /** The divider is `| --- ` once per column, then `|`. */
  lemma {:induction false} DividerShape(columns: nat)
    ensures |Divider(columns)| == 6 * columns + 1
    ensures forall i :: 0 <= i < 6 * columns ==> Divider(columns)[i] == "| --- "[i % 6]
    ensures Divider(columns)[6 * columns] == '|'
    ensures '\n' !in Divider(columns)
    decreases columns
  {
    if columns > 0 {
      DividerShape(columns - 1);
      DividerCons(columns);
      var d := Divider(columns);
      var e := Divider(columns - 1);
      forall i | 6 <= i < 6 * columns
        ensures d[i] == "| --- "[i % 6]
      {
        assert d[i] == e[i - 6];
        assert (i - 6) % 6 == i % 6;
      }
    }
  }

  /** One more column puts one more `| --- ` in front. */
  lemma DividerCons(columns: nat)
    requires columns > 0
    ensures Divider(columns) == "| --- " + Divider(columns - 1)
  {
    var pieces := seq(columns, i requires 0 <= i < columns => "| --- ");
    assert pieces[1..] == seq(columns - 1, i requires 0 <= i < columns - 1 => "| --- ");
    if columns > 1 {
      assert Join(pieces, "") == "| --- " + Join(pieces[1..], "");
    }
  }

  // ---------------------------------------------------------------------
  // Reading a rendering back

  /** Removes the one space on each side that `Pad` adds. */
  function Unpad(piece: string): Option<string> {
    if |piece| >= 2 && piece[0] == ' ' && piece[|piece| - 1] == ' ' then Some(piece[1..|piece| - 1]) else None
  }

  function UnpadAll(pieces: seq<string>): Option<seq<string>>
    decreases |pieces|
  {
    if |pieces| == 0 then Some([])
    else match (Unpad(pieces[0]), UnpadAll(pieces[1..]))
      case (Some(text), Some(texts)) => Some([text] + texts)
      case _ => None
  }

  /** The texts between the pipes of one line, when it starts and ends with a pipe. */
  function ParseCells(line: string): Option<seq<string>> {
    var parts := Split(line, '|');
    if |parts| < 2 || parts[0] != "" || parts[|parts| - 1] != "" then None
    else UnpadAll(parts[1..|parts| - 1])
  }

  function ParseRows(lines: seq<string>): Option<seq<seq<string>>>
    decreases |lines|
  {
    if |lines| == 0 then Some([])
    else match (ParseCells(lines[0]), ParseRows(lines[1..]))
      case (Some(row), Some(rows)) => Some([row] + rows)
      case _ => None
  }

  /** A reader for the renderings `ToMarkdown` produces. */
  function ParseMarkdown(text: string): Option<Table<string>> {
    ParseLines(Split(text, '\n'))
  }

  /** Header line, divider line, then the body lines or one empty line. */
  function ParseLines(lines: seq<string>): Option<Table<string>> {
    if |lines| < 3 then None
    else match ParseCells(lines[0])
      case None => None
      case Some(headers) =>
        if lines[1] != Divider(|headers|) then None
        else if lines[2..] == [""] then Some(Table(headers, []))
        else match ParseRows(lines[2..])
          case None => None
          case Some(body) => Some(Table(headers, body))
  }

  lemma {:induction false} UnpadPadAll(texts: seq<string>)
    ensures UnpadAll(PadAll(texts)) == Some(texts)
    decreases |texts|
  {
    if |texts| > 0 {
      var p := PadAll(texts);
      assert p[0] == " " + texts[0] + " ";
      assert p[0][1..|p[0]| - 1] == texts[0];
      assert Unpad(p[0]) == Some(texts[0]);
      assert p[1..] == PadAll(texts[1..]);
      UnpadPadAll(texts[1..]);
      assert UnpadAll(p) == Some([texts[0]] + texts[1..]);
      assert [texts[0]] + texts[1..] == texts;
    }
  }

  /** Texts free of pipes come back from a line that frames them with pipes. */
  lemma ParseFramed(texts: seq<string>)
    requires forall i :: 0 <= i < |texts| ==> '|' !in texts[i]
    ensures ParseCells(Join([""] + PadAll(texts) + [""], "|")) == Some(texts)
  {
    var parts := [""] + PadAll(texts) + [""];
    forall i | 0 <= i < |parts|
      ensures '|' !in parts[i]
    {
      if 1 <= i < |parts| - 1 {
        assert parts[i] == " " + texts[i - 1] + " ";
      }
    }
    SplitJoin(parts, '|');
    assert parts[1..|parts| - 1] == PadAll(texts);
    UnpadPadAll(texts);
  }

  lemma {:induction false} ParseRenderedRows(body: seq<seq<string>>)
    requires forall i, j :: 0 <= i < |body| && 0 <= j < |body[i]| ==> '|' !in body[i][j]
    requires forall i :: 0 <= i < |body| ==> |body[i]| >= 1
    ensures ParseRows(RenderRows(body)) == Some(body)
    decreases |body|
  {
    if |body| > 0 {
      var lines := RenderRows(body);
      RenderRowCells(body[0]);
      ParseFramed(body[0]);
      assert ParseCells(lines[0]) == Some(body[0]);
      assert lines[1..] == RenderRows(body[1..]);
      ParseRenderedRows(body[1..]);
      assert body == [body[0]] + body[1..];
    }
  }

  /** Round trip: a table whose texts hold no pipe and no newline, and whose
      rows are not empty, is read back exactly from its rendering. */
  lemma MarkdownRoundTrip(table: Table<string>)
    requires FreeOf(table, '\n') && FreeOf(table, '|')
    requires forall i :: 0 <= i < |table.body| ==> |table.body[i]| >= 1
    ensures ParseMarkdown(ToMarkdown(table)) == Some(table)
  {
    MarkdownLines(table);
    ParseOwnLines(table);
  }

  lemma ParseOwnLines(table: Table<string>)
    requires FreeOf(table, '|')
    requires forall i :: 0 <= i < |table.body| ==> |table.body[i]| >= 1
    ensures ParseLines(Lines(table)) == Some(table)
  {
    var lines := Lines(table);
    HeaderRowCells(table.headers);
    ParseFramed(table.headers);
    assert ParseCells(lines[0]) == Some(table.headers);
    if |table.body| > 0 {
      assert lines[2..] == RenderRows(table.body);
      RenderRowCells(table.body[0]);
      PipeFramed(table.body[0]);
      assert lines[2][0] == '|';
      assert lines[2..] != [""];
      ParseRenderedRows(table.body);
    }
  }

  /** Nothing is escaped: a newline inside a cell splits that row over two lines. */
  lemma NewlineInCellSplitsRow()
    ensures Split(ToMarkdown(Table(["A"], [["a\nb"]])), '\n') == ["| A |", "| --- |", "| a", "b |"]
  {
    var t := Table(["A"], [["a\nb"]]);
    HeaderRowCells(t.headers);
    assert PadAll(t.headers)[0] == Pad("A") == " A ";
    assert PadAll(t.headers) == [" A "];
    assert Join(["", " A ", ""], "|") == "| A |";
    DividerShape(1);
    assert Divider(1) == "| --- |";
    assert RenderRow(["a\nb"]) == "| a\nb |";
    assert RenderRows(t.body) == ["| a\nb |"];
    var parts := ["| A |", "| --- |", "| a", "b |"];
    assert ToMarkdown(t) == Join(parts, "\n");
    SplitJoin(parts, '\n');
  }
}
