/** A whole shift export: the parts, their bytes and their counters. */
module ShiftExports {
  import opened Wrappers
  import opened CivilText
  import opened Utf8
  import opened TextEncoding
  import opened Csv
  import opened Gismt
  import opened GismtReader
  import opened ShiftBlocks
  import opened BlockSplit

  datatype Metadata = Metadata(
    documentId: string,
    documentNumber: string,
    fileDateTime: string,
    operationDateTime: string)

  /** An absent organization number or name is the empty text. */
  datatype Input = Input(
    formatId: FormatId,
    formatVersion: int,
    shiftDate: string,
    maxLines: Option<int>,
    source: Source,
    organizationInn: string,
    organizationName: string,
    document: Option<Metadata>)

  datatype Part = Part(
    partNumber: nat,
    physicalLineCount: nat,
    codeCount: nat,
    boxCount: nat,
    palletCount: nat,
    bytes: seq<Byte>)

  predicate ValidLineLimit(maxLines: Option<int>) {
    maxLines.Some? ==> 2 <= maxLines.value <= 1_000_000
  }

  /** The metadata of one part: with several parts, identifier and number carry the part number. */
  function DocumentFor(m: Metadata, organizationName: string, partNumber: nat, hasMultipleParts: bool): Document {
    var suffix := if hasMultipleParts then "-" + Decimal(partNumber) else "";
    Document(m.documentId + suffix, m.documentNumber + suffix, m.fileDateTime, m.operationDateTime, organizationName)
  }

  function RenderXmlPart(inn: string, document: Document, blocks: seq<Block>): Result<Rendered, ExportError> {
    match RenderXml(inn, document, AllXmlBoxes(blocks), AllXmlPallets(blocks))
    case Ok(r) => Ok(r)
    case Err(InvalidSscc) => Err(InvalidBoxSscc)
    case Err(e) => Err(Aggregation(e))
  }

  function CsvHeaderFor(boxMode: BoxMode): seq<string> {
    if boxMode == Flat then ["code"]
    else if boxMode == Boxes then ["box_sscc", "code"]
    else ["pallet_sscc", "box_sscc", "code"]
  }

  function EncodePart(d: Descriptor, blocks: seq<Block>): seq<Byte> {
    if d.extension == CsvExtension then CsvBytes([CsvHeaderFor(d.boxMode)] + AllRows(blocks))
    else EncodeLfText(AllLines(blocks))
  }

  function RenderPart(d: Descriptor, input: Input, part: PartBlocks, partNumber: nat, hasMultipleParts: bool)
    : Result<Part, ExportError>
    requires d.extension == Xml ==> input.document.Some?
  {
    if d.extension == Xml then
      match RenderXmlPart(Trim(input.organizationInn),
                          DocumentFor(input.document.value, Trim(input.organizationName), partNumber, hasMultipleParts),
                          part.blocks)
      case Err(e) => Err(e)
      case Ok(r) =>
        var fromBlocks := d.boxMode == PalletBoxes;
        Ok(Part(partNumber, r.physicalLineCount,
                if fromBlocks then SumCodes(part.blocks) else r.codeCount,
                if fromBlocks then SumBoxes(part.blocks) else r.boxCount,
                SumPallets(part.blocks), r.bytes))
    else
      Ok(Part(partNumber, part.physicalLineCount, SumCodes(part.blocks), SumBoxes(part.blocks),
              SumPallets(part.blocks), EncodePart(d, part.blocks)))
  }

  function RenderParts(d: Descriptor, input: Input, parts: seq<PartBlocks>, from: nat, hasMultipleParts: bool)
    : Result<seq<Part>, ExportError>
    requires d.extension == Xml ==> input.document.Some?
  {
    if parts == [] then Ok([])
    else
      match RenderPart(d, input, parts[0], from + 1, hasMultipleParts)
      case Err(e) => Err(e)
      case Ok(first) =>
        match RenderParts(d, input, parts[1..], from + 1, hasMultipleParts)
        case Err(e) => Err(e)
        case Ok(rest) => Ok([first] + rest)
  }

  /** The checks before the source is looked at. */
  function CheckInput(d: Descriptor, input: Input): Option<ExportError> {
    if !Suits(d, input.source) then Some(FormatSourceMismatch)
    else if !HasDateShape(input.shiftDate) then Some(InvalidShiftDate)
    else if !ValidLineLimit(input.maxLines) then Some(InvalidLineLimit)
    else if d.extension != Xml then None
    else if Trim(input.organizationInn) == "" then Some(Aggregation(OrgInnMissing))
    else if Trim(input.organizationName) == "" then Some(OrgNameMissing)
    else if input.document.None? then Some(DocumentMetadataMissing)
    else None
  }

  /** The first, whole rendering of an XML export, made only for its errors. */
  function CheckWhole(d: Descriptor, input: Input, blocks: seq<Block>): Option<ExportError>
    requires d.extension == Xml ==> input.document.Some?
  {
    if d.extension != Xml then None
    else
      match RenderXmlPart(Trim(input.organizationInn),
                          DocumentFor(input.document.value, Trim(input.organizationName), 1, false), blocks)
      case Err(e) => Some(e)
      case Ok(_) => None
  }

  function RenderShiftExport(input: Input): Result<seq<Part>, ExportError> {
    hide FindFormat, FORMATS, CreateBlocks, CheckWhole, SumCodes, Split, RenderParts;
    match FindFormat(FORMATS, input.formatId, input.formatVersion)
    case None => Err(FormatNotFound)
    case Some(d) =>
      match CheckInput(d, input)
      case Some(e) => Err(e)
      case None =>
        match CreateBlocks(d, input.source)
        case Err(e) => Err(e)
        case Ok(blocks) =>
          match CheckWhole(d, input, blocks)
          case Some(e) => Err(e)
          case None =>
            if SumCodes(blocks) == 0 then Err(EmptySource)
            else
              match Split(d, blocks, input.maxLines)
              case Err(e) => Err(e)
              case Ok(parts) => RenderParts(d, input, parts, 0, |parts| > 1)
  }

  // The pieces of a successful export.

  function FormatOf(input: Input): Descriptor
    requires FindFormat(FORMATS, input.formatId, input.formatVersion).Some?
  {
    FindFormat(FORMATS, input.formatId, input.formatVersion).value
  }

  ghost predicate Exported(input: Input, d: Descriptor, blocks: seq<Block>, split: seq<PartBlocks>, parts: seq<Part>) {
    && RenderShiftExport(input) == Ok(parts)
    && d in FORMATS && d.id == input.formatId && d.version == input.formatVersion
    && Suits(d, input.source) && ValidLineLimit(input.maxLines)
    && (d.extension == Xml ==> input.document.Some?)
    && CreateBlocks(d, input.source) == Ok(blocks) && SumCodes(blocks) != 0
    && Split(d, blocks, input.maxLines) == Ok(split)
    && RenderParts(d, input, split, 0, |split| > 1) == Ok(parts)
  }

  lemma ExportPieces(input: Input) returns (d: Descriptor, blocks: seq<Block>, split: seq<PartBlocks>, parts: seq<Part>)
    requires RenderShiftExport(input).Ok?
    ensures Exported(input, d, blocks, split, parts) && d == FormatOf(input)
  {
    hide FindFormat, CreateBlocks, RenderParts, CheckWhole, Split, SumCodes;
    d := FindFormat(FORMATS, input.formatId, input.formatVersion).value;
    blocks := CreateBlocks(d, input.source).value;
    split := Split(d, blocks, input.maxLines).value;
    parts := RenderShiftExport(input).value;
  }

  /** In the catalogue of formats a CSV never shows the pallet layer alone, and only flat formats are without boxes. */
  lemma FormatFacts(d: Descriptor)
    requires d in FORMATS
    ensures !(d.extension == CsvExtension && d.boxMode == PalletBoxes) && !(d.extension == Xml && d.boxMode == Flat)
  {
  }

  lemma BlocksCount(d: Descriptor, source: Source)
    requires d in FORMATS && Suits(d, source) && CreateBlocks(d, source).Ok?
    ensures AllCount(d, CreateBlocks(d, source).value)
  {
    hide CountsItsContent, MapAll, FORMATS, PalletGroupBlock, BoxBlock, PalletModeBoxBlock, PalletBoxesBlock;
    FormatFacts(d);
    var blocks := CreateBlocks(d, source).value;
    match source
    case FlatSource(codes) => CodeBlocksCount(d, codes);
    case BoxSource(boxes) =>
      var f := (box: Box) => BoxBlock(d, box);
      assert MapAll(boxes, f) == Ok(blocks);
      forall k | 0 <= k < |blocks| ensures CountsItsContent(d, blocks[k]) {
        assert f(boxes[k]) == Ok(blocks[k]);
        BoxBlockCounts(d, boxes[k]);
      }
    case PalletSource(pallets, looseBoxes) =>
      if d.boxMode == PalletBoxes {
        var f := (pallet: Pallet) => PalletBoxesBlock(d, pallet);
        assert MapAll(pallets, f) == Ok(blocks);
        forall k | 0 <= k < |blocks| ensures CountsItsContent(d, blocks[k]) {
          assert f(pallets[k]) == Ok(blocks[k]);
          PalletBoxesCounts(d, pallets[k]);
        }
      } else {
        PalletBlocksCount(d, pallets, looseBoxes);
      }
  }

  lemma PalletBlocksCount(d: Descriptor, pallets: seq<Pallet>, looseBoxes: seq<Box>)
    requires d.boxMode != PalletBoxes && CreateBlocks(d, PalletSource(pallets, looseBoxes)).Ok?
    ensures AllCount(d, CreateBlocks(d, PalletSource(pallets, looseBoxes)).value)
  {
    hide CountsItsContent, MapAll, PalletGroupBlock, PalletModeBoxBlock;
    var f := (pallet: Pallet) => PalletGroupBlock(d, pallet);
    var g := (box: Box) => PalletModeBoxBlock(d, box, "");
    var groups, loose := MapAll(pallets, f).value, MapAll(looseBoxes, g).value;
    forall k | 0 <= k < |groups| ensures CountsItsContent(d, groups[k]) {
      assert f(pallets[k]) == Ok(groups[k]);
      PalletGroupCounts(d, pallets[k]);
    }
    forall k | 0 <= k < |loose| ensures CountsItsContent(d, loose[k]) {
      assert g(looseBoxes[k]) == Ok(loose[k]);
      PalletModeBoxCounts(d, looseBoxes[k], "");
    }
  }

  lemma NoneRendered(d: Descriptor, input: Input, from: nat, multiple: bool)
    requires d.extension == Xml ==> input.document.Some?
    ensures RenderParts(d, input, [], from, multiple) == Ok([])
  {
    hide RenderPart;
  }

  lemma FirstRendered(d: Descriptor, input: Input, parts: seq<PartBlocks>, from: nat, multiple: bool)
    requires d.extension == Xml ==> input.document.Some?
    requires parts != [] && RenderParts(d, input, parts, from, multiple).Ok?
    ensures RenderPart(d, input, parts[0], from + 1, multiple).Ok?
    ensures RenderParts(d, input, parts[1..], from + 1, multiple).Ok?
    ensures RenderParts(d, input, parts, from, multiple).value
            == [RenderPart(d, input, parts[0], from + 1, multiple).value]
               + RenderParts(d, input, parts[1..], from + 1, multiple).value
  {
    hide RenderPart;
  }

  lemma {:induction false} PartsRendered(d: Descriptor, input: Input, parts: seq<PartBlocks>, from: nat, multiple: bool)
    requires d.extension == Xml ==> input.document.Some?
    requires RenderParts(d, input, parts, from, multiple).Ok?
    ensures var r := RenderParts(d, input, parts, from, multiple).value;
      && |r| == |parts|
      && forall k :: 0 <= k < |r| ==> RenderPart(d, input, parts[k], from + k + 1, multiple) == Ok(r[k])
  {
    hide RenderPart, RenderParts;
    if parts == [] {
      NoneRendered(d, input, from, multiple);
    } else {
      FirstRendered(d, input, parts, from, multiple);
      PartsRendered(d, input, parts[1..], from + 1, multiple);
      var r := RenderParts(d, input, parts, from, multiple).value;
      forall k | 0 <= k < |r| ensures RenderPart(d, input, parts[k], from + k + 1, multiple) == Ok(r[k]) {
        if k > 0 {
          assert parts[k] == parts[1..][k - 1] && r[k] == r[1..][k - 1];
        }
      }
    }
  }

  lemma {:induction false} PartBlocksCount(d: Descriptor, parts: seq<PartBlocks>)
    requires AllCount(d, Joined(parts))
    ensures forall p :: p in parts ==> AllCount(d, p.blocks)
  {
    if parts == [] {
    } else {
      hide CountsItsContent;
      var first, rest := parts[0].blocks, Joined(parts[1..]);
      forall k | 0 <= k < |first| ensures CountsItsContent(d, first[k]) {
        assert first[k] == (first + rest)[k];
      }
      forall k | 0 <= k < |rest| ensures CountsItsContent(d, rest[k]) {
        assert rest[k] == (first + rest)[|first| + k];
      }
      PartBlocksCount(d, parts[1..]);
      assert forall p :: p in parts <==> p == parts[0] || p in parts[1..];
    }
  }

  // Line counts.

  predicate OneLineTexts(blocks: seq<Block>) {
    forall line :: line in AllLines(blocks) ==> OneLine(line)
  }

  lemma HeaderTexts()
    ensures TextBreaks("code") == 0 && TextBreaks("box_sscc") == 0 && TextBreaks("pallet_sscc") == 0
  {
    hide TextBreaks;
    NoBreaks("code");
    NoBreaks("box_sscc");
    NoBreaks("pallet_sscc");
  }

  lemma RowBreaksCons(v: string, rest: seq<string>)
    ensures RowBreaks([v] + rest) == TextBreaks(v) + RowBreaks(rest)
  {
    assert ([v] + rest)[1..] == rest;
  }

  lemma HeaderHasText(mode: BoxMode)
    ensures RowText(CsvHeaderFor(mode)) != "" && RowBreaks(CsvHeaderFor(mode)) == 0
  {
    hide RowBreaks, TextBreaks, RowText;
    HeaderTexts();
    RowBreaksCons("code", []);
    RowBreaksCons("box_sscc", ["code"]);
    RowBreaksCons("pallet_sscc", ["box_sscc", "code"]);
    assert RowBreaks([]) == 0 by { NoFields(); }
    assert ["code"] + [] == ["code"];
    assert ["box_sscc"] + ["code"] == ["box_sscc", "code"];
    assert ["pallet_sscc"] + ["box_sscc", "code"] == ["pallet_sscc", "box_sscc", "code"];
    EmptyRow(CsvHeaderFor(mode));
    assert CsvHeaderFor(mode)[0] != "";
  }

  lemma NoFields()
    ensures RowBreaks([]) == 0
  {
  }

  lemma CsvPartLines(d: Descriptor, part: PartBlocks)
    requires d.extension == CsvExtension && AllCount(d, part.blocks)
    ensures Breaks(EncodePart(d, part.blocks)) == HeaderLines(d) + SumLines(part.blocks)
  {
    hide CountsItsContent, Breaks, RowText, RowBreaks, CsvHeaderFor, CsvBytes;
    SumsCount(d, part.blocks);
    var rows := [CsvHeaderFor(d.boxMode)] + AllRows(part.blocks);
    HeaderHasText(d.boxMode);
    assert rows[1..] == AllRows(part.blocks);
    CsvBytesBreaks(rows);
  }

  lemma TxtPartLines(d: Descriptor, part: PartBlocks)
    requires d.extension == Txt && AllCount(d, part.blocks)
    ensures Breaks(EncodePart(d, part.blocks)) >= HeaderLines(d) + SumLines(part.blocks)
    ensures Breaks(EncodePart(d, part.blocks)) == HeaderLines(d) + SumLines(part.blocks)
            <==> OneLineTexts(part.blocks)
  {
    hide CountsItsContent, Breaks, OneLine, TextBreaks, LfText, EncodeLfText;
    SumsCount(d, part.blocks);
    LfBytesBreaks(AllLines(part.blocks));
    LfTextBreaksIff(AllLines(part.blocks));
  }

  /** The lines and counters of a rendered part. */
  lemma PartFacts(d: Descriptor, input: Input, part: PartBlocks, partNumber: nat, multiple: bool)
    requires d.extension == Xml ==> input.document.Some?
    requires AllCount(d, part.blocks) && part.physicalLineCount == HeaderLines(d) + SumLines(part.blocks)
    requires RenderPart(d, input, part, partNumber, multiple).Ok?
    ensures var p := RenderPart(d, input, part, partNumber, multiple).value;
      && p.partNumber == partNumber
      && p.physicalLineCount == part.physicalLineCount
      && (d.extension != Txt ==> p.physicalLineCount == Breaks(p.bytes))
      && (d.extension == Txt ==> (p.physicalLineCount == Breaks(p.bytes) <==> OneLineTexts(part.blocks)))
      && p.codeCount == SumCodes(part.blocks) && p.boxCount == SumBoxes(part.blocks)
      && p.palletCount == SumPallets(part.blocks)
  {
    hide CountsItsContent, Breaks, EncodePart, RenderXml, Trim, DocumentFor, SumLines, SumCodes, SumBoxes, SumPallets,
         AllXmlBoxes, AllXmlPallets, OneLineTexts;
    match d.extension
    case Txt => TxtPartLines(d, part);
    case CsvExtension => CsvPartLines(d, part);
    case Xml =>
      var document := DocumentFor(input.document.value, Trim(input.organizationName), partNumber, multiple);
      SumsCount(d, part.blocks);
      RenderedLineCount(Trim(input.organizationInn), document, AllXmlBoxes(part.blocks), AllXmlPallets(part.blocks));
      XmlLinesSum(Trim(input.organizationInn), document, AllXmlBoxes(part.blocks), AllXmlPallets(part.blocks));
  }

  lemma XmlLinesSum(inn: string, document: Document, boxes: seq<Box>, pallets: seq<XmlPallet>)
    requires RenderXml(inn, document, boxes, pallets).Ok?
    ensures RenderXml(inn, document, boxes, pallets).value.physicalLineCount
         == OVERHEAD_LINES + BoxesLineCount(boxes) + PalletsLineCount(pallets)
  {
    hide Checked;
  }

  /** Everything that is known of part k of an export. */
  lemma ExportPartFacts(input: Input, d: Descriptor, blocks: seq<Block>, split: seq<PartBlocks>, parts: seq<Part>,
                        k: nat)
    requires Exported(input, d, blocks, split, parts) && k < |parts|
    ensures |parts| == |split| && Joined(split) == blocks
    ensures RenderPart(d, input, split[k], k + 1, |split| > 1) == Ok(parts[k])
    ensures AllCount(d, split[k].blocks) && split[k].blocks != []
    ensures parts[k].partNumber == k + 1
    ensures parts[k].physicalLineCount == split[k].physicalLineCount
    ensures input.maxLines.Some? ==> parts[k].physicalLineCount <= input.maxLines.value
    ensures d.extension != Txt ==> parts[k].physicalLineCount == Breaks(parts[k].bytes)
    ensures d.extension == Txt ==>
      (parts[k].physicalLineCount == Breaks(parts[k].bytes) <==> OneLineTexts(split[k].blocks))
    ensures parts[k].codeCount == SumCodes(split[k].blocks) && parts[k].boxCount == SumBoxes(split[k].blocks)
    ensures parts[k].palletCount == SumPallets(split[k].blocks)
  {
    hide CountsItsContent, Breaks, RenderPart, RenderParts, CreateBlocks, Split, OneLineTexts, RenderShiftExport,
         Joined, SumLines, SumBoxes, SumPallets, FORMATS;
    BlocksCount(d, input.source);
    HeaderFits(d, blocks, input.maxLines, split);
    SplitKeepsBlocks(d, blocks, input.maxLines);
    PartBlocksCount(d, split);
    PartsRendered(d, input, split, 0, |split| > 1);
    assert split[k] in split;
    assert blocks != [];
    PartFacts(d, input, split[k], k + 1, |split| > 1);
  }

  /** A cap below the header fails on the first block. */
  lemma HeaderFits(d: Descriptor, blocks: seq<Block>, maxLines: Option<int>, split: seq<PartBlocks>)
    requires Split(d, blocks, maxLines) == Ok(split) && SumCodes(blocks) != 0
    ensures maxLines.Some? ==> HeaderLines(d) <= maxLines.value
  {
    if maxLines.Some? {
      SplitFailsIff(d, blocks, maxLines.value);
      assert blocks[0] in blocks;
      assert !TooBig(HeaderLines(d), maxLines.value, blocks[0]);
    }
  }

  /** Each CSV and XML file has exactly the line breaks that its part announces, so a line limit holds of the bytes. */
  lemma LineCountsAreExact(input: Input, k: nat)
    requires RenderShiftExport(input).Ok? && k < |RenderShiftExport(input).value|
    requires FormatOf(input).extension != Txt
    ensures var p := RenderShiftExport(input).value[k];
      && p.physicalLineCount == Breaks(p.bytes)
      && (input.maxLines.Some? ==> Breaks(p.bytes) <= input.maxLines.value)
  {
    hide RenderShiftExport, Breaks, FindFormat;
    var d, blocks, split, parts := ExportPieces(input);
    ExportPartFacts(input, d, blocks, split, parts, k);
  }

  /** The texts that a TXT export writes as they are: the codes, and the SSCCs of the frozen first version. */
  predicate TxtSafe(d: Descriptor, source: Source) {
    match source
    case FlatSource(codes) => forall c :: c in codes ==> OneLine(c)
    case BoxSource(boxes) => forall b :: b in boxes ==> SafeBox(b) && (IsLegacy(d) ==> OneLine(b.sscc))
    case PalletSource(pallets, looseBoxes) =>
      d.boxMode == PalletBoxes
      || ((forall p :: p in pallets ==> SafeBoxes(p.boxes)) && SafeBoxes(looseBoxes))
  }

  predicate SafeBox(b: Box) { forall c :: c in b.codes ==> OneLine(c) }

  predicate SafeBoxes(boxes: seq<Box>) { forall b :: b in boxes ==> SafeBox(b) }

  predicate SafeBlock(b: Block) { forall line :: line in b.lines ==> OneLine(line) }

  predicate SafeBlocks(blocks: seq<Block>) { forall k :: 0 <= k < |blocks| ==> SafeBlock(blocks[k]) }

  lemma {:induction false} SafeLines(blocks: seq<Block>)
    ensures OneLineTexts(blocks) <==> SafeBlocks(blocks)
  {
    if blocks == [] {
    } else {
      hide OneLine;
      var rest := blocks[1..];
      SafeLines(rest);
      assert forall line :: line in AllLines(blocks) <==> line in blocks[0].lines || line in AllLines(rest);
      if SafeBlocks(blocks) {
        forall k | 0 <= k < |rest| ensures SafeBlock(rest[k]) { assert rest[k] == blocks[k + 1]; }
      }
      if SafeBlock(blocks[0]) && SafeBlocks(rest) {
        forall k | 0 <= k < |blocks| ensures SafeBlock(blocks[k]) { assert k > 0 ==> blocks[k] == rest[k - 1]; }
      }
      assert OneLineTexts(blocks) <==> SafeBlock(blocks[0]) && OneLineTexts(rest);
    }
  }

  lemma FormattedIsOneLine(sscc: string)
    requires FormatBoxSscc(sscc).Ok?
    ensures OneLine(FormatBoxSscc(sscc).value)
  {
    SsccClean(sscc);
    CleanIsOneLine(FormatBoxSscc(sscc).value);
  }

  lemma EmptyIsOneLine()
    ensures OneLine("")
  {
  }
}
