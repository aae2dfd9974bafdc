/** What each file of an XML export says about itself. */
module ShiftXmlFiles {
  import opened Wrappers
  import opened CivilText
  import opened Gismt
  import opened GismtReader
  import opened GismtLaws
  import opened ShiftBlocks
  import opened BlockSplit
  import opened ShiftExports
  import opened ShiftExportLaws

  /** A text without its leading white space. */
  function TrimStart(s: string): string {
    if s != "" && IsSpace(s[0]) then TrimStart(s[1..]) else s
  }

  lemma {:induction false} TrimBeforeEnd(s: string, end: string)
    requires end != "" && !IsSpace(end[0]) && !IsSpace(end[|end| - 1])
    ensures Trim(s + end) == TrimStart(s) + end
  {
    hide IsSpace;
    var t := s + end;
    assert t[|t| - 1] == end[|end| - 1];
    if s == "" {
      assert t == end;
    } else {
      assert t[0] == s[0] && t[1..] == s[1..] + end;
      TrimBeforeEnd(s[1..], end);
    }
  }

  lemma TrimTwice(s: string)
    ensures Trim(Trim(s)) == Trim(s)
  {
    hide IsSpace, Blank;
    var before, after := TrimIs(s);
  }

  lemma {:induction false} DecimalNumber(n: nat)
    ensures AllDigits(Decimal(n)) && NumberOf(Decimal(n)) == n
  {
    var s := Decimal(n);
    if n < 10 {
      assert s[..0] == "" && NumberOf("") == 0;
    } else {
      DecimalNumber(n / 10);
      assert s[..|s| - 1] == Decimal(n / 10) && s[|s| - 1] == DigitOf(n % 10);
    }
  }

  lemma DigitIsNoSpace(c: char)
    requires IsDigit(c)
    ensures !IsSpace(c)
  {
  }

  lemma NumberedText(s: string, n: nat)
    ensures Trim(s + ("-" + Decimal(n))) == TrimStart(s) + "-" + Decimal(n)
  {
    hide IsSpace, Trim, TrimStart, Decimal;
    var end := "-" + Decimal(n);
    DecimalNumber(n);
    DigitIsNoSpace(end[|end| - 1]);
    HyphenIsNoSpace();
    TrimBeforeEnd(s, end);
    assert TrimStart(s) + end == TrimStart(s) + "-" + Decimal(n);
  }

  lemma HyphenIsNoSpace()
    ensures !IsSpace('-')
  {
  }

  /** The identifier or number of file k of an export: the given text, trimmed, and behind it the number of the file
      when there are several. */
  function FileText(text: string, k: nat, fileCount: nat): string {
    if fileCount > 1 then TrimStart(text) + "-" + Decimal(k) else Trim(text)
  }

  /** Each file of an XML export names the organization, its own identifier and number, and both moments. */
  lemma XmlFilesNameThemselves(input: Input, k: nat)
    requires RenderShiftExport(input).Ok? && k < |RenderShiftExport(input).value| && FormatOf(input).extension == Xml
    ensures input.document.Some?
    ensures var parts, m := RenderShiftExport(input).value, input.document.value;
      && ReadDocument(parts[k].bytes).Some?
      && var (inn, document, _) := ReadDocument(parts[k].bytes).value;
      && inn == Trim(input.organizationInn) && document.organizationName == Trim(input.organizationName)
      && document.documentId == FileText(m.documentId, k + 1, |parts|)
      && document.documentNumber == FileText(m.documentNumber, k + 1, |parts|)
      && document.fileDateTime == m.fileDateTime && document.operationDateTime == m.operationDateTime
  {
    hide RenderShiftExport, FindFormat, CreateBlocks, FORMATS, RenderParts, Split, Joined, CountsItsContent,
         ReadDocument, RenderXml, SumCodes, SumBoxes, SumPallets, AllXmlBoxes, AllXmlPallets, Trim, TrimStart, Decimal,
         OneLineTexts, WritesBox, WritesPallet;
    var d, blocks, split, parts := ExportPieces(input);
    ExportPartFacts(input, d, blocks, split, parts, k);
    SplitNotEmpty(d, blocks, input.maxLines, split, input, parts);
    var m, inn, name := input.document.value, Trim(input.organizationInn), Trim(input.organizationName);
    DocumentSaysSource(inn, DocumentFor(m, name, k + 1, |split| > 1), AllXmlBoxes(split[k].blocks),
                       AllXmlPallets(split[k].blocks));
    TrimTwice(input.organizationInn);
    TrimTwice(input.organizationName);
    NumberedText(m.documentId, k + 1);
    NumberedText(m.documentNumber, k + 1);
    assert m.documentId + "" == m.documentId && m.documentNumber + "" == m.documentNumber;
  }

  /** Of several files no two have the same identifier or the same number. */
  lemma XmlFilesDiffer(input: Input, j: nat, k: nat)
    requires RenderShiftExport(input).Ok? && j < k < |RenderShiftExport(input).value|
    requires FormatOf(input).extension == Xml
    ensures var parts := RenderShiftExport(input).value;
      && ReadDocument(parts[j].bytes).Some? && ReadDocument(parts[k].bytes).Some?
      && ReadDocument(parts[j].bytes).value.1.documentId != ReadDocument(parts[k].bytes).value.1.documentId
      && ReadDocument(parts[j].bytes).value.1.documentNumber != ReadDocument(parts[k].bytes).value.1.documentNumber
  {
    hide RenderShiftExport, FindFormat, FORMATS, ReadDocument, Trim, TrimStart, Decimal;
    XmlFilesNameThemselves(input, j);
    XmlFilesNameThemselves(input, k);
    NumbersDiffer(TrimStart(input.document.value.documentId), j + 1, k + 1);
    NumbersDiffer(TrimStart(input.document.value.documentNumber), j + 1, k + 1);
  }

  lemma NumbersDiffer(s: string, j: nat, k: nat)
    requires j != k
    ensures s + "-" + Decimal(j) != s + "-" + Decimal(k)
  {
    hide Decimal, NumberOf;
    DecimalNumber(j);
    DecimalNumber(k);
    assert (s + "-" + Decimal(j))[|s| + 1..] == Decimal(j);
    assert (s + "-" + Decimal(k))[|s| + 1..] == Decimal(k);
  }
}
