/**
 * `convertToCSV` (pages/api/analyze.js:104-119) and a reader for the text it writes.
 *
 * The title and labels fields are quoted with inner double quotes doubled, as in rule 7
 * of section 2 of RFC 4180; the other fields are written bare. Unlike rule 1 of that
 * section, records end in a line feed, not a carriage return and line feed, and the last
 * record has no line break after it.
 */
module Csv {
  import opened Wrappers
  import opened Text
  import opened Cost
  import opened Records

  const HeaderNames := ["issue_number", "title", "complexity", "estimated_cost", "labels", "url"]

  /** `headers.join(',')`. */
  const Header := Join(HeaderNames, ",")

  /** Joining six parts puts the separator between neighbours. */
  lemma JoinSix(a: string, b: string, c: string, d: string, e: string, f: string, sep: string)
    ensures Join([a, b, c, d, e, f], sep) == a + sep + b + sep + c + sep + d + sep + e + sep + f
  {
    JoinCons(e, [f], sep);
    assert [d, e, f] == [d] + [e, f];
    JoinCons(d, [e, f], sep);
    assert [c, d, e, f] == [c] + [d, e, f];
    JoinCons(c, [d, e, f], sep);
    assert [b, c, d, e, f] == [b] + [c, d, e, f];
    JoinCons(b, [c, d, e, f], sep);
    assert [a, b, c, d, e, f] == [a] + [b, c, d, e, f];
    JoinCons(a, [b, c, d, e, f], sep);
  }

  /** The header written out, one name and comma at a time. */
  lemma HeaderSpelledOut()
    ensures Header == "issue_number" + "," + "title" + "," + "complexity" + "," + "estimated_cost" + ","
      + "labels" + "," + "url"
  {
    JoinSix("issue_number", "title", "complexity", "estimated_cost", "labels", "url", ",");
  }

  /** One field as written: bare, or in double quotes with inner quotes doubled. */
  datatype Cell = Plain(text: string) | Quoted(text: string)

  /** `s.replace(/"/g, '""')`. */
  function Escape(s: string): string
  {
    if s == [] then []
    else (if s[0] == '"' then "\"\"" else [s[0]]) + Escape(s[1..])
  }

  function Encode(c: Cell): string
  {
    match c
    case Plain(t) => t
    case Quoted(t) => "\"" + Escape(t) + "\""
  }

  /** `row.join(',')` over the encoded fields. */
  function Render(cells: seq<Cell>): string
  {
    Join(seq(|cells|, k requires 0 <= k < |cells| => Encode(cells[k])), ",")
  }

  /** `${n}` for a number that is an integer or NaN. */
  function ShowAmount(a: Amount): string
  {
    match a
    case Dollars(n) => ShowInt(n)
    case NaN => "NaN"
  }

  /** The six fields of one result row, in header order. */
  function Cells(item: AnalyzedIssue): seq<Cell>
  {
    [ Plain(ShowInt(item.issueNumber)),
      Quoted(item.title),
      Plain(item.complexity),
      Plain("$" + ShowAmount(item.estimatedCost)),
      Quoted(item.labels),
      Plain(item.url) ]
  }

  /** The field values a reader should get back from the row of `item`. */
  function FieldTexts(item: AnalyzedIssue): seq<string>
  {
    [ ShowInt(item.issueNumber), item.title, item.complexity,
      "$" + ShowAmount(item.estimatedCost), item.labels, item.url ]
  }

  function Row(item: AnalyzedIssue): string
  {
    Render(Cells(item))
  }

  function Rows(data: seq<AnalyzedIssue>): (r: seq<string>)
    ensures |r| == |data|
  {
    seq(|data|, k requires 0 <= k < |data| => Row(data[k]))
  }

  /** `convertToCSV(data)`: the header and then one row per item, joined with line feeds. */
  function ConvertToCsv(data: seq<AnalyzedIssue>): string
  {
    Join([Header] + Rows(data), "\n")
  }

  /**
   * The text starts with the header, and each item adds a line feed and its row at the
   * end, so rows come in input order and nothing trails the last one.
   */
  lemma ConvertToCsvShape(data: seq<AnalyzedIssue>, item: AnalyzedIssue)
    ensures ConvertToCsv([]) == Header
    ensures ConvertToCsv(data + [item]) == ConvertToCsv(data) + "\n" + Row(item)
  {
    assert [Header] + Rows(data + [item]) == ([Header] + Rows(data)) + [Row(item)];
    JoinSnoc([Header] + Rows(data), Row(item), "\n");
  }

  /**
   * Reads a quoted field's content, the opening quote already consumed: a doubled quote
   * stands for one quote, a single quote closes the field. Gives the content and what
   * follows the closing quote, or None when the field is never closed.
   */
  function ReadQuoted(s: string): (r: Option<(string, string)>)
    ensures r.Some? ==> |r.value.1| < |s|
    decreases |s|
  {
    if s == [] then None
    else if s[0] == '"' then
      if |s| >= 2 && s[1] == '"' then
        match ReadQuoted(s[2..])
        case None => None
        case Some((t, rest)) => Some(("\"" + t, rest))
      else Some(([], s[1..]))
    else
      match ReadQuoted(s[1..])
      case None => None
      case Some((t, rest)) => Some(([s[0]] + t, rest))
  }

  /** Reads one line of comma-separated fields, quoted or bare. */
  function ReadRecord(line: string): Option<seq<string>>
    decreases |line|
  {
    if |line| > 0 && line[0] == '"' then
      match ReadQuoted(line[1..])
      case None => None
      case Some((t, rest)) =>
        if rest == [] then Some([t])
        else if rest[0] == ',' then
          match ReadRecord(rest[1..])
          case None => None
          case Some(fs) => Some([t] + fs)
        else None
    else
      var i := IndexOf(line, ',');
      if i == |line| then Some([line])
      else
        match ReadRecord(line[i + 1..])
        case None => None
        case Some(fs) => Some([line[..i]] + fs)
  }

  /** Undoubling the quotes of an escaped field gives the field back. */
  lemma {:induction false} ReadQuotedEscape(t: string, rest: string)
    requires rest == [] || rest[0] != '"'
    ensures ReadQuoted(Escape(t) + "\"" + rest) == Some((t, rest))
    decreases |t|
  {
    var s := Escape(t) + "\"" + rest;
    if t == [] {
      assert s == "\"" + rest;
      assert s[1..] == rest;
    } else if t[0] == '"' {
      ReadQuotedEscape(t[1..], rest);
      assert s == "\"\"" + (Escape(t[1..]) + "\"" + rest);
      assert s[2..] == Escape(t[1..]) + "\"" + rest;
      assert "\"" + t[1..] == t;
    } else {
      ReadQuotedEscape(t[1..], rest);
      assert s == [t[0]] + (Escape(t[1..]) + "\"" + rest);
      assert s[1..] == Escape(t[1..]) + "\"" + rest;
      assert [t[0]] + t[1..] == t;
    }
  }

  /** A bare field can be read back: no comma inside, and no quote to open it. */
  predicate PlainSafe(t: string)
  {
    ',' !in t && (t == [] || t[0] != '"')
  }

  predicate Readable(c: Cell)
  {
    c.Plain? ==> PlainSafe(c.text)
  }

  function Texts(cells: seq<Cell>): (r: seq<string>)
    ensures |r| == |cells|
  {
    seq(|cells|, k requires 0 <= k < |cells| => cells[k].text)
  }

  /** A bare field followed by a comma and a readable record reads as that field and the record. */
  lemma ReadPlainField(t: string, more: string, fs: seq<string>)
    requires PlainSafe(t) && ReadRecord(more) == Some(fs)
    ensures ReadRecord(t + "," + more) == Some([t] + fs)
  {
    var line := t + "," + more;
    IndexOfAfter(t, ',', more);
    assert line[..|t|] == t;
    assert line[|t| + 1..] == more;
    assert line[0] != '"' by {
      if t != [] {
        assert line[0] == t[0];
      }
    }
  }

  /** A bare field alone reads as itself. */
  lemma ReadPlainLast(t: string)
    requires PlainSafe(t)
    ensures ReadRecord(t) == Some([t])
  {
  }

  /** A quoted field followed by a comma and a readable record reads as that field and the record. */
  lemma ReadQuotedField(t: string, more: string, fs: seq<string>)
    requires ReadRecord(more) == Some(fs)
    ensures ReadRecord(Encode(Quoted(t)) + "," + more) == Some([t] + fs)
  {
    var rest := "," + more;
    var line := Encode(Quoted(t)) + "," + more;
    assert line[1..] == Escape(t) + "\"" + rest;
    ReadQuotedEscape(t, rest);
    assert rest[1..] == more;
  }

  /** A quoted field alone reads as its text. */
  lemma ReadQuotedLast(t: string)
    ensures ReadRecord(Encode(Quoted(t))) == Some([t])
  {
    var line := Encode(Quoted(t));
    assert line[1..] == Escape(t) + "\"" + "";
    ReadQuotedEscape(t, "");
  }

  /** A rendered record is its first field, then a comma and the rest when there is more. */
  lemma RenderCons(cells: seq<Cell>)
    requires |cells| > 0
    ensures Render(cells) == Encode(cells[0]) + (if |cells| == 1 then "" else "," + Render(cells[1..]))
  {
    if |cells| > 1 {
      var encoded := seq(|cells|, k requires 0 <= k < |cells| => Encode(cells[k]));
      assert encoded[1..] == seq(|cells| - 1, k requires 0 <= k < |cells| - 1 => Encode(cells[1..][k]));
    }
  }

  lemma TextsCons(cells: seq<Cell>)
    requires |cells| > 0
    ensures Texts(cells) == [cells[0].text] + Texts(cells[1..])
  {
    assert Texts(cells)[1..] == Texts(cells[1..]);
  }

  /** Reading a rendered record gives back every field's text. */
  lemma {:induction false} ReadRender(cells: seq<Cell>)
    requires |cells| > 0
    requires forall k :: 0 <= k < |cells| ==> Readable(cells[k])
    ensures ReadRecord(Render(cells)) == Some(Texts(cells))
    decreases |cells|
  {
    RenderCons(cells);
    TextsCons(cells);
    var c := cells[0];
    if |cells| > 1 {
      var more := Render(cells[1..]);
      assert Render(cells) == Encode(c) + "," + more;
      assert forall k :: 0 <= k < |cells| - 1 ==> cells[1..][k] == cells[k + 1];
      ReadRender(cells[1..]);
      if c.Plain? {
        ReadPlainField(c.text, more, Texts(cells[1..]));
      } else {
        ReadQuotedField(c.text, more, Texts(cells[1..]));
      }
    } else {
      assert Render(cells) == Encode(c);
      assert Texts(cells) == [c.text];
      if c.Plain? {
        assert Encode(c) == c.text;
        ReadPlainLast(c.text);
      } else {
        ReadQuotedLast(c.text);
      }
    }
  }

  /** The fields of a result row that the reader can recover. */
  predicate Serializable(item: AnalyzedIssue)
  {
    PlainSafe(item.complexity) && PlainSafe(item.url) &&
    '\n' !in item.title && '\n' !in item.labels &&
    '\n' !in item.complexity && '\n' !in item.url
  }

  lemma NumbersArePlain(i: int, a: Amount)
    ensures PlainSafe(ShowInt(i)) && '\n' !in ShowInt(i)
    ensures PlainSafe("$" + ShowAmount(a)) && '\n' !in "$" + ShowAmount(a)
  {
    ParseShowInt(i);
    match a
    case Dollars(n) => ParseShowInt(n);
    case NaN =>
  }

  lemma EscapeKeepsLines(t: string)
    ensures '\n' in Escape(t) <==> '\n' in t
  {
  }

  lemma RowHasNoLineFeed(item: AnalyzedIssue)
    requires Serializable(item)
    ensures '\n' !in Row(item)
  {
    NumbersArePlain(item.issueNumber, item.estimatedCost);
    EscapeKeepsLines(item.title);
    EscapeKeepsLines(item.labels);
    var cells := Cells(item);
    var encoded := seq(|cells|, j requires 0 <= j < |cells| => Encode(cells[j]));
    assert forall j :: 0 <= j < |encoded| ==> '\n' !in encoded[j];
    JoinAvoids(encoded, ",", '\n');
  }

  lemma HeaderHasNoLineFeed()
    ensures '\n' !in Header
  {
    JoinAvoids(HeaderNames, ",", '\n');
  }

  /** A row recovers its item's fields. */
  lemma ReadRow(item: AnalyzedIssue)
    requires PlainSafe(item.complexity) && PlainSafe(item.url)
    ensures ReadRecord(Row(item)) == Some(FieldTexts(item))
  {
    CellsReadable(item);
    ReadRender(Cells(item));
    TextsOfCells(item);
  }

  lemma TextsOfCells(item: AnalyzedIssue)
    ensures Texts(Cells(item)) == FieldTexts(item)
  {
  }

  lemma CellsReadable(item: AnalyzedIssue)
    requires PlainSafe(item.complexity) && PlainSafe(item.url)
    ensures forall k :: 0 <= k < |Cells(item)| ==> Readable(Cells(item)[k])
  {
    NumbersArePlain(item.issueNumber, item.estimatedCost);
  }

  /** Bare fields joined with commas read back as those fields. */
  lemma {:induction false} ReadPlainJoin(names: seq<string>)
    requires |names| > 0
    requires forall k :: 0 <= k < |names| ==> PlainSafe(names[k])
    ensures ReadRecord(Join(names, ",")) == Some(names)
    decreases |names|
  {
    if |names| == 1 {
      assert Join(names, ",") == names[0];
      assert names == [names[0]];
      ReadPlainLast(names[0]);
    } else {
      var more := Join(names[1..], ",");
      assert Join(names, ",") == names[0] + "," + more;
      ReadPlainJoin(names[1..]);
      ReadPlainField(names[0], more, names[1..]);
      assert [names[0]] + names[1..] == names;
    }
  }

  /** The header reads back as the six column names. */
  lemma ReadHeader()
    ensures ReadRecord(Header) == Some(HeaderNames)
  {
    assert forall k :: 0 <= k < |HeaderNames| ==> PlainSafe(HeaderNames[k]);
    ReadPlainJoin(HeaderNames);
  }

  /**
   * Splitting the CSV text at line feeds and reading each line recovers the header and,
   * line by line in input order, every field of every item (issue numbers as their
   * decimal text, costs after the `$`), provided no field holds a line feed and the bare
   * fields hold no comma and do not start with a quote.
   */
  lemma CsvRoundTrip(data: seq<AnalyzedIssue>)
    requires forall k :: 0 <= k < |data| ==> Serializable(data[k])
    ensures var lines := Split(ConvertToCsv(data), '\n');
      |lines| == |data| + 1 &&
      ReadRecord(lines[0]) == Some(HeaderNames) &&
      forall k :: 0 <= k < |data| ==> ReadRecord(lines[k + 1]) == Some(FieldTexts(data[k]))
  {
    var parts := [Header] + Rows(data);
    forall k | 0 <= k < |parts| ensures '\n' !in parts[k] {
      if k == 0 {
        HeaderHasNoLineFeed();
      } else {
        RowHasNoLineFeed(data[k - 1]);
      }
    }
    SplitJoin(parts, '\n');
    ReadHeader();
    forall k | 0 <= k < |data| ensures ReadRecord(parts[k + 1]) == Some(FieldTexts(data[k])) {
      assert parts[k + 1] == Row(data[k]);
      ReadRow(data[k]);
    }
  }
}
