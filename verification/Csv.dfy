/** Semicolon-separated CSV: the encoder, a reader after section 2 of RFC 4180, and the physical line count. */
module Csv {
  import opened Wrappers
  import opened Utf8
  import opened TextEncoding

  /** s.replaceAll(c, put). */
  function ReplaceAll(s: string, c: char, put: string): string {
    if s == "" then "" else (if s[0] == c then put else [s[0]]) + ReplaceAll(s[1..], c, put)
  }

  predicate IsSpecial(c: char) { c == ';' || c == '"' || c == '\r' || c == '\n' }

  predicate NeedsQuotes(value: string) {
    exists k :: 0 <= k < |value| && IsSpecial(value[k])
  }

  function CsvField(value: string): string {
    if NeedsQuotes(value) then "\"" + ReplaceAll(value, '"', "\"\"") + "\"" else value
  }

  lemma {:induction false} DoublingGrows(v: string)
    ensures |ReplaceAll(v, '"', "\"\"")| >= |v|
  {
    if v == "" {
    } else {
      DoublingGrows(v[1..]);
    }
  }

  /** A field is written as it is exactly when it holds no semicolon, quote or line end. */
  lemma PlainFieldIff(v: string)
    ensures CsvField(v) == v <==> forall c :: c in v ==> c != ';' && c != '"' && c != '\r' && c != '\n'
  {
    DoublingGrows(v);
    if forall c :: c in v ==> c != ';' && c != '"' && c != '\r' && c != '\n' {
      forall k | 0 <= k < |v| ensures !IsSpecial(v[k]) { assert v[k] in v; }
    }
  }

  function Fields(row: seq<string>): seq<string> {
    if row == [] then [] else [CsvField(row[0])] + Fields(row[1..])
  }

  function RowText(row: seq<string>): string { Join(Fields(row), ";") }

  function RowTexts(rows: seq<seq<string>>): seq<string> {
    if rows == [] then [] else [RowText(rows[0])] + RowTexts(rows[1..])
  }

  function CsvText(rows: seq<seq<string>>): string {
    var content := Join(RowTexts(rows), "\r\n");
    if |content| == 0 then "" else content + "\r\n"
  }

  const UTF8_BOM: seq<Byte> := [0xEF, 0xBB, 0xBF]

  /** The mark is the encoding of U+FEFF. */
  lemma MarkIsEncoded()
    ensures UTF8_BOM == Encode("\U{FEFF}")
  {
    assert Encode("\U{FEFF}"[1..]) == [];
  }

  /** The bytes of a document, behind a byte order mark. */
  function CsvBytes(rows: seq<seq<string>>): seq<Byte> { UTF8_BOM + Encode(CsvText(rows)) }

  method EncodeSemicolonCsvRows(rows: seq<seq<string>>) returns (bytes: array<Byte>)
    ensures fresh(bytes) && bytes[..] == CsvBytes(rows)
  {
    var encoded := Encode(CsvText(rows));
    bytes := new Byte[|UTF8_BOM| + |encoded|](_ => 0);
    forall k | 0 <= k < |UTF8_BOM| { bytes[k] := UTF8_BOM[k]; }
    forall k | 0 <= k < |encoded| { bytes[|UTF8_BOM| + k] := encoded[k]; }
  }

  // The reader.

  /** The rest of a quoted field, after its opening quote, and what follows the closing one. */
  function ReadQuoted(s: string): (r: Option<(string, string)>)
    ensures r.Some? ==> |r.value.1| < |s|
  {
    if s == "" then None
    else if s[0] != '"' then
      match ReadQuoted(s[1..]) case None => None case Some((v, rest)) => Some(([s[0]] + v, rest))
    else if |s| > 1 && s[1] == '"' then
      match ReadQuoted(s[2..]) case None => None case Some((v, rest)) => Some(("\"" + v, rest))
    else Some(("", s[1..]))
  }

  function ReadPlain(s: string): (r: (string, string))
    ensures |r.1| <= |s|
  {
    if s == "" || IsSpecial(s[0]) then ("", s)
    else
      var (v, rest) := ReadPlain(s[1..]);
      ([s[0]] + v, rest)
  }

  function ReadField(s: string): (r: Option<(string, string)>)
    ensures r.Some? ==> |r.value.1| <= |s|
  {
    if s != "" && s[0] == '"' then ReadQuoted(s[1..]) else Some(ReadPlain(s))
  }

  /** One record: fields separated by semicolons, ended by CR LF or by the end of the text. */
  function ReadRow(s: string): (r: Option<(seq<string>, string)>)
    ensures r.Some? ==> r.value.0 != [] && |r.value.1| <= |s| && (s != "" ==> |r.value.1| < |s|)
    decreases |s|
  {
    match ReadField(s)
    case None => None
    case Some((field, rest)) =>
      if rest == "" then Some(([field], ""))
      else if rest[0] == ';' then
        (match ReadRow(rest[1..])
         case None => None
         case Some((more, after)) => Some(([field] + more, after)))
      else if |rest| > 1 && rest[0] == '\r' && rest[1] == '\n' then Some(([field], rest[2..]))
      else None
  }

  function ReadTable(s: string): (r: Option<seq<seq<string>>>)
    ensures r.Some? ==> forall row :: row in r.value ==> row != []
    decreases |s|
  {
    if s == "" then Some([])
    else
      match ReadRow(s)
      case None => None
      case Some((row, rest)) => match ReadTable(rest) case None => None case Some(more) => Some([row] + more)
  }

  /** Reads a document: strips the byte order mark, decodes UTF-8, reads the records. */
  function ReadBytes(bytes: seq<Byte>): Option<seq<seq<string>>> {
    if !(UTF8_BOM <= bytes) then None
    else match Decode(bytes[|UTF8_BOM|..]) case None => None case Some(text) => ReadTable(text)
  }

  lemma ReadDoubledQuote(more: string)
    requires ReadQuoted(more).Some?
    ensures ReadQuoted("\"\"" + more) == Some(("\"" + ReadQuoted(more).value.0, ReadQuoted(more).value.1))
  {
    assert ("\"\"" + more)[2..] == more;
  }

  lemma ReadOther(c: char, more: string)
    requires c != '"' && ReadQuoted(more).Some?
    ensures ReadQuoted([c] + more) == Some(([c] + ReadQuoted(more).value.0, ReadQuoted(more).value.1))
  {
    assert ([c] + more)[1..] == more;
  }

  /** A quoted field after its opening quote, followed by t. */
  function QuotedTail(v: string, t: string): string { ReplaceAll(v, '"', "\"\"") + "\"" + t }

  lemma QuotedTailStep(v: string, t: string)
    requires v != ""
    ensures QuotedTail(v, t) == (if v[0] == '"' then "\"\"" else [v[0]]) + QuotedTail(v[1..], t)
  {
  }

  lemma {:induction false} QuotedRead(v: string, t: string)
    requires t == "" || t[0] != '"'
    ensures ReadQuoted(QuotedTail(v, t)) == Some((v, t))
  {
    if v == "" {
      assert QuotedTail(v, t) == "\"" + t;
      assert QuotedTail(v, t)[1..] == t;
    } else {
      hide ReadQuoted, QuotedTail;
      var more := QuotedTail(v[1..], t);
      QuotedTailStep(v, t);
      QuotedRead(v[1..], t);
      assert v == [v[0]] + v[1..];
      if v[0] == '"' {
        ReadDoubledQuote(more);
      } else {
        ReadOther(v[0], more);
      }
    }
  }

  lemma {:induction false} PlainRead(v: string, t: string)
    requires !NeedsQuotes(v) && (t == "" || IsSpecial(t[0]))
    ensures ReadPlain(v + t) == (v, t)
  {
    if v == "" {
      assert v + t == t;
    } else {
      assert !IsSpecial(v[0]);
      assert !NeedsQuotes(v[1..]) by {
        forall k | 0 <= k < |v[1..]| ensures !IsSpecial(v[1..][k]) {
          assert v[1..][k] == v[k + 1];
        }
      }
      assert (v + t)[1..] == v[1..] + t;
      PlainRead(v[1..], t);
      assert v == [v[0]] + v[1..];
    }
  }

  lemma FieldRead(v: string, t: string)
    requires t == "" || t[0] == ';' || t[0] == '\r'
    ensures ReadField(CsvField(v) + t) == Some((v, t))
  {
    if NeedsQuotes(v) {
      assert CsvField(v) + t == "\"" + QuotedTail(v, t);
      assert (CsvField(v) + t)[1..] == QuotedTail(v, t);
      QuotedRead(v, t);
    } else {
      PlainRead(v, t);
      if v != "" {
        assert !IsSpecial(v[0]);
      }
    }
  }

  lemma LastFieldRead(v: string, t: string)
    ensures ReadRow(CsvField(v) + "\r\n" + t) == Some(([v], t))
  {
    hide ReadField, CsvField;
    var rest := "\r\n" + t;
    assert CsvField(v) + "\r\n" + t == CsvField(v) + rest;
    FieldRead(v, rest);
    assert rest[2..] == t;
  }

  lemma FieldThenRow(v: string, more: string)
    requires ReadRow(more).Some?
    ensures ReadRow(CsvField(v) + ";" + more) == Some(([v] + ReadRow(more).value.0, ReadRow(more).value.1))
  {
    hide ReadField, CsvField;
    var rest := ";" + more;
    assert CsvField(v) + ";" + more == CsvField(v) + rest;
    FieldRead(v, rest);
    assert rest[1..] == more;
  }

  lemma RowTextCons(row: seq<string>)
    requires |row| > 1
    ensures RowText(row) == CsvField(row[0]) + ";" + RowText(row[1..])
  {
    assert Fields(row)[1..] == Fields(row[1..]);
  }

  lemma {:induction false} RowRead(row: seq<string>, t: string)
    requires row != []
    ensures ReadRow(RowText(row) + "\r\n" + t) == Some((row, t))
  {
    if |row| == 1 {
      assert Fields(row) == [CsvField(row[0])];
      LastFieldRead(row[0], t);
      assert row == [row[0]];
    } else {
      hide ReadRow, CsvField, Fields, RowText;
      RowTextCons(row);
      var more := RowText(row[1..]) + "\r\n" + t;
      RowRead(row[1..], t);
      FieldThenRow(row[0], more);
      assert RowText(row) + "\r\n" + t == CsvField(row[0]) + ";" + more;
      assert row == [row[0]] + row[1..];
    }
  }

  /** Every record followed by CR LF. */
  function Records(rows: seq<seq<string>>): string {
    if rows == [] then "" else RowText(rows[0]) + "\r\n" + Records(rows[1..])
  }

  lemma {:induction false} JoinedRecords(rows: seq<seq<string>>)
    requires rows != []
    ensures Join(RowTexts(rows), "\r\n") + "\r\n" == Records(rows)
  {
    if |rows| == 1 {
      assert RowTexts(rows) == [RowText(rows[0])];
      assert Records(rows[1..]) == "";
    } else {
      JoinedRecords(rows[1..]);
      assert RowTexts(rows)[1..] == RowTexts(rows[1..]);
      var first, rest := RowText(rows[0]), Join(RowTexts(rows[1..]), "\r\n");
      assert Join(RowTexts(rows), "\r\n") == first + "\r\n" + rest;
      assert first + "\r\n" + rest + "\r\n" == first + "\r\n" + (rest + "\r\n");
    }
  }

  /** The text of a document is its records, except that a single empty record leaves nothing. */
  lemma CsvTextIsRecords(rows: seq<seq<string>>)
    ensures CsvText(rows) == if |rows| == 1 && RowText(rows[0]) == "" then "" else Records(rows)
  {
    if rows != [] {
      JoinedRecords(rows);
      if |rows| == 1 {
        assert RowTexts(rows) == [RowText(rows[0])];
      } else {
        assert |RowTexts(rows)| > 1;
      }
    }
  }

  lemma {:induction false} TableRead(rows: seq<seq<string>>)
    requires forall row :: row in rows ==> row != []
    ensures ReadTable(Records(rows)) == Some(rows)
  {
    if rows == [] {
    } else {
      assert rows[0] in rows;
      forall row | row in rows[1..] ensures row != [] {
        assert row in rows;
      }
      RowRead(rows[0], Records(rows[1..]));
      TableRead(rows[1..]);
      assert rows == [rows[0]] + rows[1..];
    }
  }

  lemma EmptyRow(row: seq<string>)
    requires row != []
    ensures RowText(row) == "" <==> row == [""]
  {
    if |row| == 1 {
      assert Fields(row) == [CsvField(row[0])];
      assert row == [row[0]];
      assert CsvField(row[0]) == "" <==> row[0] == "";
    } else {
      assert |Fields(row)| > 1 by { assert Fields(row)[1..] == Fields(row[1..]); }
    }
  }

  /** A document reads back as the table it was made from exactly when every row has a field and the table is not the
      single empty field, which leaves an empty document. */
  lemma CsvRoundTripIff(rows: seq<seq<string>>)
    ensures ReadBytes(CsvBytes(rows)) == Some(rows)
      <==> (forall row :: row in rows ==> row != []) && rows != [[""]]
  {
    assert CsvBytes(rows)[|UTF8_BOM|..] == Encode(CsvText(rows));
    DecodeEncode(CsvText(rows));
    CsvTextIsRecords(rows);
    if forall row :: row in rows ==> row != [] {
      TableRead(rows);
      if |rows| == 1 {
        EmptyRow(rows[0]);
        assert rows == [rows[0]];
      }
    }
  }

  /** The one table of full rows that is lost. */
  lemma EmptyFieldIsLost()
    ensures ReadBytes(CsvBytes([[""]])) == Some([])
  {
    var rows := [[""]];
    assert CsvBytes(rows)[|UTF8_BOM|..] == Encode(CsvText(rows));
    DecodeEncode(CsvText(rows));
    CsvTextIsRecords(rows);
    EmptyRow(rows[0]);
  }

  // Physical lines.

  /** The character loop that counts the lines a field spans. */
  method CountCsvPhysicalLines(value: string) returns (count: nat)
    ensures count == 1 + TextBreaks(value)
  {
    count := 1;
    var index := 0;
    assert value[0..] == value;
    while index < |value|
      invariant 0 <= index <= |value|
      invariant count + TextBreaks(value[index..]) == 1 + TextBreaks(value)
    {
      var character := value[index];
      var tail := value[index..];
      assert tail[1..] == value[index + 1..];
      if character == '\r' {
        count := count + 1;
        if index + 1 < |value| && value[index + 1] == '\n' {
          assert tail[2..] == value[index + 2..];
          CrLfStep(tail);
          index := index + 1;
        } else {
          StepBreaks(tail);
        }
      } else {
        StepBreaks(tail);
        if character == '\n' {
          count := count + 1;
        }
      }
      index := index + 1;
    }
  }

  function FieldLines(value: string): nat { 1 + TextBreaks(value) }

  function SumFieldLines(fields: seq<string>): nat {
    if fields == [] then 0 else FieldLines(fields[0]) + SumFieldLines(fields[1..])
  }

  /** Lines that one row spans: its fields share the line that holds them. */
  function RowPhysicalLines(fields: seq<string>): nat {
    EachFieldHasALine(fields);
    SumFieldLines(fields) - (|fields| - 1)
  }

  lemma {:induction false} EachFieldHasALine(fields: seq<string>)
    ensures SumFieldLines(fields) >= |fields|
  {
    if fields == [] {
    } else {
      EachFieldHasALine(fields[1..]);
    }
  }

  function RowBreaks(fields: seq<string>): nat {
    if fields == [] then 0 else TextBreaks(fields[0]) + RowBreaks(fields[1..])
  }

  lemma {:induction false} RowLinesAreBreaks(fields: seq<string>)
    ensures RowPhysicalLines(fields) == 1 + RowBreaks(fields)
  {
    if fields == [] {
    } else {
      RowLinesAreBreaks(fields[1..]);
    }
  }

  /** Doubling quotes does not touch line breaks. */
  lemma {:induction false} DoublingKeepsBreaks(v: string)
    ensures TextBreaks(ReplaceAll(v, '"', "\"\"")) == TextBreaks(v)
    ensures StartsLf(ReplaceAll(v, '"', "\"\"")) == StartsLf(v)
    decreases |v|
  {
    var d := ReplaceAll(v, '"', "\"\"");
    if v == "" {
    } else {
      var more := ReplaceAll(v[1..], '"', "\"\"");
      DoublingKeepsBreaks(v[1..]);
      if v[0] == '"' {
        assert d == "\"\"" + more && v == "\"" + v[1..];
        BreaksConcat("\"\"", more);
        BreaksConcat("\"", v[1..]);
        NoBreaks("\"\"");
        NoBreaks("\"");
      } else if v[0] == '\r' && StartsLf(v[1..]) {
        var rest := v[2..];
        assert v[1..][1..] == rest;
        assert ReplaceAll(v[1..], '"', "\"\"") == ['\n'] + ReplaceAll(rest, '"', "\"\"");
        assert d == ['\r', '\n'] + ReplaceAll(rest, '"', "\"\"");
        assert d[2..] == ReplaceAll(rest, '"', "\"\"");
        CrLfStep(v);
        CrLfStep(d);
        DoublingKeepsBreaks(rest);
      } else {
        assert d == [v[0]] + more && d[1..] == more;
        StepBreaks(v);
        StepBreaks(d);
      }
    }
  }

  lemma {:induction false} NoBreaks(s: string)
    requires forall k :: 0 <= k < |s| ==> s[k] != '\r' && s[k] != '\n'
    ensures TextBreaks(s) == 0
  {
    if s == "" {
    } else {
      StepBreaks(s);
      NoBreaks(s[1..]);
    }
  }

  /** A written field has the line breaks of its value and never touches a neighbouring line break. */
  lemma FieldBreaks(v: string)
    ensures TextBreaks(CsvField(v)) == TextBreaks(v)
    ensures !EndsCr(CsvField(v)) && !StartsLf(CsvField(v))
  {
    hide TextBreaks;
    if NeedsQuotes(v) {
      var d := ReplaceAll(v, '"', "\"\"");
      DoublingKeepsBreaks(v);
      hide ReplaceAll;
      NoBreaks("\"");
      BreaksConcat("\"", d);
      BreaksConcat("\"" + d, "\"");
    } else if v != "" {
      assert !IsSpecial(v[0]) && !IsSpecial(v[|v| - 1]);
    }
  }

  lemma {:induction false} RowTextBreaks(row: seq<string>)
    ensures TextBreaks(RowText(row)) == RowBreaks(row)
    ensures !EndsCr(RowText(row)) && !StartsLf(RowText(row))
  {
    if |row| == 1 {
      assert Fields(row) == [CsvField(row[0])];
      FieldBreaks(row[0]);
      assert RowBreaks(row[1..]) == 0;
    } else if row != [] {
      assert Fields(row)[1..] == Fields(row[1..]);
      var first, rest := CsvField(row[0]), RowText(row[1..]);
      assert RowText(row) == first + ";" + rest;
      FieldBreaks(row[0]);
      RowTextBreaks(row[1..]);
      NoBreaks(";");
      BreaksConcat(first, ";");
      BreaksConcat(first + ";", rest);
    }
  }

  function TableBreaks(rows: seq<seq<string>>): nat {
    if rows == [] then 0 else 1 + RowBreaks(rows[0]) + TableBreaks(rows[1..])
  }

  lemma {:induction false} RecordsBreaks(rows: seq<seq<string>>)
    ensures TextBreaks(Records(rows)) == TableBreaks(rows) && !StartsLf(Records(rows))
  {
    if rows == [] {
    } else {
      var row, rest := RowText(rows[0]), Records(rows[1..]);
      RowTextBreaks(rows[0]);
      RecordsBreaks(rows[1..]);
      assert TextBreaks("\r\n") == 1 by { CrLfStep("\r\n"); }
      BreaksConcat(row, "\r\n");
      BreaksConcat(row + "\r\n", rest);
      if row == "" {
        assert Records(rows)[0] == '\r';
      }
    }
  }

  /** The line breaks in the bytes of a document are the physical lines of its rows, except that a single row without
      text is not written at all. */
  lemma CsvBytesBreaks(rows: seq<seq<string>>)
    ensures Breaks(CsvBytes(rows)) == if |rows| == 1 && RowText(rows[0]) == "" then 0 else TableBreaks(rows)
  {
    hide Records, RowText, CsvText, Breaks, Encode, TableBreaks;
    CsvTextIsRecords(rows);
    BytesHaveTextBreaks(CsvText(rows));
    assert CR !in UTF8_BOM && LF !in UTF8_BOM;
    BreaksSkip(UTF8_BOM, Encode(CsvText(rows)));
    RecordsBreaks(rows);
    NothingBreaks();
  }

  lemma NothingBreaks()
    ensures Breaks(Encode("")) == 0
  {
  }
}
