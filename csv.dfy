/**
 * Comma-separated text as the teacher's export writes it: every cell in double
 * quotes, cells joined by `,` and lines by `\n`. It is checked against a reader
 * of the quoted form of RFC 4180 (section 2, rules 5 to 7: a field enclosed in
 * double quotes, a double quote inside it written as two, fields separated by
 * commas and records by line breaks).
 */
module Csv {
  import opened Wrappers
  import Text

  /** `` `"${cell}"` ``: the quoting the export uses, which leaves the cell's own quotes single. */
  function QuoteAsWritten(cell: string): string {
    "\"" + cell + "\""
  }

  /** The cell with every double quote written twice. */
  function Escape(cell: string): (r: string)
    ensures |r| >= |cell|
  {
    if cell == [] then []
    else (if cell[0] == '"' then "\"\"" else [cell[0]]) + Escape(cell[1..])
  }

  /** A cell quoted as RFC 4180 asks. */
  function Quote(cell: string): string {
    "\"" + Escape(cell) + "\""
  }

  /** `row.map(cell => quote(cell)).join(',')`. */
  function Line(cells: seq<string>, quote: string -> string): string {
    Text.Join(Quoted(cells, quote), ",")
  }

  /** `rows.map(row => Line(row)).join('\n')`. */
  function Content(rows: seq<seq<string>>, quote: string -> string): string {
    Text.Join(Lines(rows, quote), "\n")
  }

  // ---------------------------------------------------------------------------
  // The reader
  // ---------------------------------------------------------------------------

  /** The text of a quoted field after its opening quote, up to its closing quote, and what follows. */
  function ReadQuoted(s: string): (r: Option<(string, string)>)
    ensures r.Some? ==> |r.value.1| < |s|
    decreases |s|
  {
    if s == [] then None
    else if s[0] == '"' then
      if |s| >= 2 && s[1] == '"' then
        match ReadQuoted(s[2..])
        case None => None
        case Some((v, rest)) => Some(("\"" + v, rest))
      else Some(("", s[1..]))
    else
      match ReadQuoted(s[1..])
      case None => None
      case Some((v, rest)) => Some(([s[0]] + v, rest))
  }

  /** One quoted field at the start of `s`. */
  function ReadField(s: string): (r: Option<(string, string)>)
    ensures r.Some? ==> |r.value.1| < |s|
  {
    if s != [] && s[0] == '"' then ReadQuoted(s[1..]) else None
  }

  /** The fields of one record, separated by commas; the reader stops at the first character that is not a comma. */
  function ReadRecord(s: string): (r: Option<(seq<string>, string)>)
    ensures r.Some? ==> |r.value.1| < |s|
    decreases |s|
  {
    match ReadField(s)
    case None => None
    case Some((f, rest)) =>
      if rest != [] && rest[0] == ',' then
        match ReadRecord(rest[1..])
        case None => None
        case Some((fs, rest')) => Some(([f] + fs, rest'))
      else Some(([f], rest))
  }

  /** Records separated by line breaks, up to the end of the text; `None` when the text is not of that form. */
  function ReadAll(s: string): Option<seq<seq<string>>>
    decreases |s|
  {
    match ReadRecord(s)
    case None => None
    case Some((record, rest)) =>
      if rest == [] then Some([record])
      else if rest[0] == '\n' then
        match ReadAll(rest[1..])
        case None => None
        case Some(records) => Some([record] + records)
      else None
  }

  // ---------------------------------------------------------------------------
  // Round trip
  // ---------------------------------------------------------------------------

  /** Text that cannot continue a field or a record: it is empty or starts with neither a quote nor a comma. */
  predicate Boundary(rest: string) {
    rest == [] || (rest[0] != '"' && rest[0] != ',')
  }

  lemma {:induction false} ReadQuotedEscape(cell: string, rest: string)
    requires rest == [] || rest[0] != '"'
    ensures ReadQuoted(Escape(cell) + "\"" + rest) == Some((cell, rest))
    decreases |cell|
  {
    var s := Escape(cell) + "\"" + rest;
    if cell == [] {
      assert s == "\"" + rest;
      assert s[1..] == rest;
    } else if cell[0] == '"' {
      ReadQuotedEscape(cell[1..], rest);
      assert s[2..] == Escape(cell[1..]) + "\"" + rest by {
        Regroup("\"\"", Escape(cell[1..]), "\"", rest);
      }
      HeadAndTail(cell);
    } else {
      ReadQuotedEscape(cell[1..], rest);
      assert s[1..] == Escape(cell[1..]) + "\"" + rest by {
        Regroup([cell[0]], Escape(cell[1..]), "\"", rest);
      }
      HeadAndTail(cell);
    }
  }

  /** A quoted cell reads back as the cell itself, whatever it contains. */
  lemma ReadFieldQuote(cell: string, rest: string)
    requires rest == [] || rest[0] != '"'
    ensures ReadField(Quote(cell) + rest) == Some((cell, rest))
  {
    ReadQuotedEscape(cell, rest);
    assert (Quote(cell) + rest)[1..] == Escape(cell) + "\"" + rest;
  }

  /** The quoted cells of a line. */
  function Quoted(cells: seq<string>, quote: string -> string): (parts: seq<string>)
    ensures |parts| == |cells| && forall i :: 0 <= i < |cells| ==> parts[i] == quote(cells[i])
  {
    seq(|cells|, i requires 0 <= i < |cells| => quote(cells[i]))
  }

  /** A line of several cells is the first quoted cell, a comma, and the line of the others. */
  lemma LineFront(cells: seq<string>, quote: string -> string)
    requires |cells| >= 2
    ensures Line(cells, quote) == quote(cells[0]) + "," + Line(cells[1..], quote)
  {
    var parts := Quoted(cells, quote);
    assert Line(cells, quote) == Text.Join(parts, ",");
    Text.JoinFront(parts, ",");
    assert parts[1..] == Quoted(cells[1..], quote);
  }

  /** A field followed by a comma continues the record. */
  lemma ReadRecordCons(s: string, tail: string, field: string, fields: seq<string>, rest: string)
    requires ReadField(s) == Some((field, "," + tail))
    requires ReadRecord(tail) == Some((fields, rest))
    ensures ReadRecord(s) == Some(([field] + fields, rest))
  {
    assert ("," + tail)[1..] == tail;
  }

  /** A line reads back as its cells. */
  lemma {:induction false} ReadRecordLine(cells: seq<string>, rest: string)
    requires |cells| >= 1 && Boundary(rest)
    ensures ReadRecord(Line(cells, Quote) + rest) == Some((cells, rest))
    decreases |cells|
  {
    if |cells| == 1 {
      assert Line(cells, Quote) + rest == Quote(cells[0]) + rest by {
        assert Line(cells, Quote) == Text.Join(Quoted(cells, Quote), ",") == Quote(cells[0]);
      }
      ReadFieldQuote(cells[0], rest);
      assert cells == [cells[0]];
    } else {
      ReadRecordLine(cells[1..], rest);
      ReadRecordLineStep(cells, rest);
    }
  }

  /** The inductive step: the first cell, a comma, and the line of the other cells. */
  lemma ReadRecordLineStep(cells: seq<string>, rest: string)
    requires |cells| >= 2 && Boundary(rest)
    requires ReadRecord(Line(cells[1..], Quote) + rest) == Some((cells[1..], rest))
    ensures ReadRecord(Line(cells, Quote) + rest) == Some((cells, rest))
  {
    var tail := Line(cells[1..], Quote) + rest;
    var s := Line(cells, Quote) + rest;
    assert s == Quote(cells[0]) + ("," + tail) by {
      LineFront(cells, Quote);
      Regroup(Quote(cells[0]), ",", Line(cells[1..], Quote), rest);
    }
    assert ReadField(s) == Some((cells[0], "," + tail)) by {
      ReadFieldQuote(cells[0], "," + tail);
    }
    ReadRecordCons(s, tail, cells[0], cells[1..], rest);
    HeadAndTail(cells);
  }

  /** The lines of a text. */
  function Lines(rows: seq<seq<string>>, quote: string -> string): (lines: seq<string>)
    ensures |lines| == |rows| && forall i :: 0 <= i < |rows| ==> lines[i] == Line(rows[i], quote)
  {
    seq(|rows|, i requires 0 <= i < |rows| => Line(rows[i], quote))
  }

  /** A text of several rows is the first row's line, a line break, and the text of the others. */
  lemma ContentFront(rows: seq<seq<string>>, quote: string -> string)
    requires |rows| >= 2
    ensures Content(rows, quote) == Line(rows[0], quote) + "\n" + Content(rows[1..], quote)
  {
    var lines := Lines(rows, quote);
    assert Content(rows, quote) == Text.Join(lines, "\n");
    Text.JoinFront(lines, "\n");
    assert lines[1..] == Lines(rows[1..], quote);
  }

  /** A record followed by a line break continues the text. */
  lemma ReadAllCons(s: string, line: string, tail: string, record: seq<string>, records: seq<seq<string>>)
    requires s == line + ("\n" + tail)
    requires ReadRecord(s) == Some((record, "\n" + tail))
    requires ReadAll(tail) == Some(records)
    ensures ReadAll(s) == Some([record] + records)
  {
    assert ("\n" + tail)[1..] == tail;
  }

  /**
   * The text reads back as the rows it was made from: the quoting of RFC 4180
   * keeps commas, line breaks and quotes inside cells.
   */
  lemma {:induction false} ReadAllContent(rows: seq<seq<string>>)
    requires |rows| >= 1
    requires forall i :: 0 <= i < |rows| ==> |rows[i]| >= 1
    ensures ReadAll(Content(rows, Quote)) == Some(rows)
    decreases |rows|
  {
    if |rows| == 1 {
      assert Content(rows, Quote) == Line(rows[0], Quote) + "" by {
        assert Content(rows, Quote) == Text.Join(Lines(rows, Quote), "\n") == Line(rows[0], Quote);
      }
      ReadRecordLine(rows[0], "");
      assert rows == [rows[0]];
    } else {
      ReadAllContent(rows[1..]);
      ReadAllContentStep(rows);
    }
  }

  /** The inductive step: the first row's line, a line break, and the text of the other rows. */
  lemma ReadAllContentStep(rows: seq<seq<string>>)
    requires |rows| >= 2 && |rows[0]| >= 1
    requires ReadAll(Content(rows[1..], Quote)) == Some(rows[1..])
    ensures ReadAll(Content(rows, Quote)) == Some(rows)
  {
    var tail := Content(rows[1..], Quote);
    var line := Line(rows[0], Quote);
    var s := Content(rows, Quote);
    assert s == line + ("\n" + tail) by {
      ContentFront(rows, Quote);
      Regroup(line, "\n", tail, "");
    }
    assert ReadRecord(s) == Some((rows[0], "\n" + tail)) by {
      ReadRecordLine(rows[0], "\n" + tail);
    }
    ReadAllCons(s, line, tail, rows[0], rows[1..]);
    HeadAndTail(rows);
  }

  lemma Regroup(a: string, b: string, c: string, d: string)
    ensures a + b + c + d == a + (b + (c + d))
    ensures a + b + c == a + (b + c)
  {
  }

  lemma HeadAndTail<T>(s: seq<T>)
    requires |s| >= 1
    ensures [s[0]] + s[1..] == s
  {
  }

  // ---------------------------------------------------------------------------
  // The quoting as written
  // ---------------------------------------------------------------------------

  /** A cell without a double quote. */
  predicate QuoteFree(cell: string) {
    forall k :: 0 <= k < |cell| ==> cell[k] != '"'
  }

  /** The cell `a"b` as written is `"a"b"`: its field ends after the `a`, and `b"` is left over. */
  lemma ReadQuoteInCell(rest: string)
    ensures ReadRecord(QuoteAsWritten("a\"b") + rest) == Some((["a"], "b\"" + rest))
  {
    var s := QuoteAsWritten("a\"b") + rest;
    assert s == "\"a\"b\"" + rest;
    assert s[1..] == "a\"b\"" + rest && s[1..][1..] == "\"b\"" + rest;
    assert s[1..][1..][1..] == "b\"" + rest;
    assert ReadQuoted(s[1..][1..]) == Some(("", "b\"" + rest));
    assert ['a'] + "" == "a";
    assert ReadQuoted(s[1..]) == Some(("a", "b\"" + rest));
  }

  /**
   * A line whose other cells hold no double quote and whose last cell is `a"b`,
   * quoted as written, reads as its cells up to the `a`, leaving `b"` unread.
   */
  lemma {:induction false} ReadRecordQuoteLast(cells: seq<string>)
    requires |cells| >= 1 && cells[|cells| - 1] == "a\"b"
    requires forall j :: 0 <= j < |cells| - 1 ==> QuoteFree(cells[j])
    ensures ReadRecord(Line(cells, QuoteAsWritten)) == Some((cells[..|cells| - 1] + ["a"], "b\""))
    decreases |cells|
  {
    if |cells| == 1 {
      assert Line(cells, QuoteAsWritten) == QuoteAsWritten("a\"b") + "" by {
        assert Line(cells, QuoteAsWritten) == Text.Join(Quoted(cells, QuoteAsWritten), ",") == QuoteAsWritten(cells[0]);
      }
      ReadQuoteInCell("");
      assert cells[..0] + ["a"] == ["a"] && "b\"" + "" == "b\"";
    } else {
      var tail := Line(cells[1..], QuoteAsWritten);
      var s := Line(cells, QuoteAsWritten);
      ReadRecordQuoteLast(cells[1..]);
      EscapeWithoutQuotes(cells[0]);
      assert s == Quote(cells[0]) + ("," + tail) by {
        LineFront(cells, QuoteAsWritten);
        Regroup(Quote(cells[0]), ",", tail, "");
      }
      ReadFieldQuote(cells[0], "," + tail);
      ReadRecordCons(s, tail, cells[0], cells[1..][..|cells| - 2] + ["a"], "b\"");
      assert [cells[0]] + (cells[1..][..|cells| - 2] + ["a"]) == cells[..|cells| - 1] + ["a"];
    }
  }

  /**
   * Quoted as written, a text whose last cell is `a"b` and whose other cells hold
   * no double quote is not read back at all.
   */
  lemma {:induction false} ContentQuoteLastUnreadable(rows: seq<seq<string>>)
    requires |rows| >= 1 && forall i :: 0 <= i < |rows| ==> |rows[i]| >= 1
    requires rows[|rows| - 1][|rows[|rows| - 1]| - 1] == "a\"b"
    requires forall i, j :: 0 <= i < |rows| && 0 <= j < |rows[i]| && !(i == |rows| - 1 && j == |rows[i]| - 1) ==>
               QuoteFree(rows[i][j])
    ensures ReadAll(Content(rows, QuoteAsWritten)) == None
    decreases |rows|
  {
    if |rows| == 1 {
      assert Content(rows, QuoteAsWritten) == Line(rows[0], QuoteAsWritten) by {
        assert Content(rows, QuoteAsWritten) == Text.Join(Lines(rows, QuoteAsWritten), "\n");
      }
      ReadRecordQuoteLast(rows[0]);
    } else {
      var tail := Content(rows[1..], QuoteAsWritten);
      var line := Line(rows[0], QuoteAsWritten);
      var s := Content(rows, QuoteAsWritten);
      ContentQuoteLastUnreadable(rows[1..]);
      assert s == line + ("\n" + tail) by {
        ContentFront(rows, QuoteAsWritten);
        Regroup(line, "\n", tail, "");
      }
      LineWithoutQuotes(rows[0]);
      ReadRecordLine(rows[0], "\n" + tail);
      assert ("\n" + tail)[1..] == tail;
    }
  }

  /** A cell holding a double quote ends its field early: the text as written is not read back at all. */
  lemma QuoteInCellBreaksReading()
    ensures ReadAll(Content([["a\"b"]], QuoteAsWritten)) == None
  {
    ContentQuoteLastUnreadable([["a\"b"]]);
  }

  /** Without double quotes in any cell, the quoting as written and the escaped quoting give the same text. */
  lemma {:induction false} EscapeWithoutQuotes(cell: string)
    requires forall k :: 0 <= k < |cell| ==> cell[k] != '"'
    ensures Escape(cell) == cell && Quote(cell) == QuoteAsWritten(cell)
    decreases |cell|
  {
    if cell != [] {
      EscapeWithoutQuotes(cell[1..]);
      assert [cell[0]] + cell[1..] == cell;
    }
  }

  /** Without double quotes in its cells, a line is the same under either quoting. */
  lemma LineWithoutQuotes(cells: seq<string>)
    requires forall j :: 0 <= j < |cells| ==> QuoteFree(cells[j])
    ensures Line(cells, QuoteAsWritten) == Line(cells, Quote)
  {
    forall j | 0 <= j < |cells| ensures QuoteAsWritten(cells[j]) == Quote(cells[j]) {
      EscapeWithoutQuotes(cells[j]);
    }
    assert Quoted(cells, QuoteAsWritten) == Quoted(cells, Quote);
  }

  lemma ContentWithoutQuotes(rows: seq<seq<string>>)
    requires forall i, j, k :: 0 <= i < |rows| && 0 <= j < |rows[i]| && 0 <= k < |rows[i][j]| ==> rows[i][j][k] != '"'
    ensures Content(rows, QuoteAsWritten) == Content(rows, Quote)
  {
    forall i | 0 <= i < |rows| ensures Line(rows[i], QuoteAsWritten) == Line(rows[i], Quote) {
      LineWithoutQuotes(rows[i]);
    }
    assert Lines(rows, QuoteAsWritten) == Lines(rows, Quote);
  }
}
