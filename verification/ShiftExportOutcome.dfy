/** When a shift export is made, said of its input alone, and what each refusal means. */
module ShiftExportOutcome {
  import opened Wrappers
  import opened CivilText
  import opened MarkingCodes
  import opened Gismt
  import opened GismtLaws
  import opened GismtTimestamps
  import opened ShiftBlocks
  import opened BlockSplit
  import opened ShiftExports
  import opened ShiftExportLaws
  import opened ShiftExportReadBack
  import opened ShiftXmlFiles
  import opened ShiftExportSizes

  // The source.

  predicate SsccsGood(boxes: seq<Box>) { forall b :: b in boxes ==> IsSscc(b.sscc) }

  predicate PalletGood(p: Pallet) { IsSscc(p.sscc) && SsccsGood(p.boxes) }

  predicate PalletsGood(pallets: seq<Pallet>) { forall p :: p in pallets ==> PalletGood(p) }

  /** The SSCCs that a text file shows have 18 digits; the frozen formats show them as they are. */
  predicate TextSourceGood(d: Descriptor, source: Source) {
    match source
    case FlatSource(_) => true
    case BoxSource(boxes) => IsLegacy(d) || SsccsGood(boxes)
    case PalletSource(pallets, looseBoxes) =>
      PalletsGood(pallets) && (d.boxMode == PalletBoxes || SsccsGood(looseBoxes))
  }

  ghost predicate BoxesGood(boxes: seq<Box>) { forall b :: b in boxes ==> GoodBox(b) }

  /** The boxes that XML lists have good codes too, and all its SSCCs 18 digits. */
  ghost predicate XmlSourceGood(d: Descriptor, source: Source) {
    BoxesGood(SourceXmlBoxes(d, source)) && PalletsGood(PalletsOf(source))
  }

  lemma FormatsWhen(sscc: string)
    ensures FormatBoxSscc(sscc).Ok? <==> IsSscc(sscc)
    ensures FormatBoxSscc(sscc).Err? ==> FormatBoxSscc(sscc) == Err(InvalidBoxSscc)
  {
  }

  lemma BoxBlockWhen(d: Descriptor, box: Box)
    requires d.extension != Xml
    ensures BoxBlock(d, box).Ok? <==> IsLegacy(d) || IsSscc(box.sscc)
    ensures BoxBlock(d, box).Err? ==> BoxBlock(d, box) == Err(InvalidBoxSscc)
  {
    hide FormatBoxSscc, IsSscc;
    FormatsWhen(box.sscc);
  }

  lemma PalletModeBoxWhen(d: Descriptor, box: Box, column: string)
    requires d.extension != Xml
    ensures PalletModeBoxBlock(d, box, column).Ok? <==> IsSscc(box.sscc)
    ensures PalletModeBoxBlock(d, box, column).Err? ==> PalletModeBoxBlock(d, box, column) == Err(InvalidBoxSscc)
  {
    hide FormatBoxSscc, IsSscc;
    FormatsWhen(box.sscc);
  }

  lemma BoxesWhen(d: Descriptor, boxes: seq<Box>, column: string)
    requires d.extension != Xml
    ensures var r := MapAll(boxes, (box: Box) => PalletModeBoxBlock(d, box, column));
      (r.Ok? <==> SsccsGood(boxes)) && (r.Err? ==> r == Err(InvalidBoxSscc))
  {
    hide MapAll, PalletModeBoxBlock, IsSscc;
    var f := (box: Box) => PalletModeBoxBlock(d, box, column);
    AllMapped(boxes, f);
    forall b ensures (f(b).Ok? <==> IsSscc(b.sscc)) && (f(b).Err? ==> f(b) == Err(InvalidBoxSscc)) {
      PalletModeBoxWhen(d, b, column);
    }
  }

  lemma GroupWhen(d: Descriptor, pallet: Pallet)
    requires d.extension != Xml
    ensures PalletGroupBlock(d, pallet).Ok? <==> PalletGood(pallet)
    ensures PalletGroupBlock(d, pallet).Err? ==> PalletGroupBlock(d, pallet) == Err(InvalidBoxSscc)
  {
    hide FormatBoxSscc, MapAll, PalletModeBoxBlock, IsSscc, SsccsGood, SumCodes, SumLines, AllLines, AllRows;
    FormatsWhen(pallet.sscc);
    if d.extension == CsvExtension {
      if FormatBoxSscc(pallet.sscc).Ok? {
        BoxesWhen(d, pallet.boxes, FormatBoxSscc(pallet.sscc).value);
      }
    } else {
      BoxesWhen(d, pallet.boxes, "");
    }
  }

  lemma LayerWhen(d: Descriptor, pallet: Pallet)
    requires d.extension != Xml
    ensures PalletBoxesBlock(d, pallet).Ok? <==> PalletGood(pallet)
    ensures PalletBoxesBlock(d, pallet).Err? ==> PalletBoxesBlock(d, pallet) == Err(InvalidBoxSscc)
  {
    hide FormatBoxSscc, MapAll, BoxSsccs, IsSscc, BoxesCodeCount, Ssccs;
    FormatsWhen(pallet.sscc);
    var ssccs := BoxSsccs(pallet.boxes);
    AllMapped(ssccs, FormatBoxSscc);
    forall s ensures (FormatBoxSscc(s).Ok? <==> IsSscc(s))
                     && (FormatBoxSscc(s).Err? ==> FormatBoxSscc(s) == Err(InvalidBoxSscc)) {
      FormatsWhen(s);
    }
    SsccMembers(pallet.boxes);
  }

  lemma SsccMembers(boxes: seq<Box>)
    ensures SsccsGood(boxes) <==> forall s :: s in BoxSsccs(boxes) ==> IsSscc(s)
  {
    hide BoxSsccs, IsSscc;
    SsccsAre(boxes);
    var ssccs := Ssccs(boxes);
    assert forall k :: 0 <= k < |boxes| ==> ssccs[k] == boxes[k].sscc;
    if forall s :: s in ssccs ==> IsSscc(s) {
      forall b | b in boxes ensures IsSscc(b.sscc) {
        var k :| 0 <= k < |boxes| && boxes[k] == b;
        assert ssccs[k] in ssccs;
      }
    }
    if SsccsGood(boxes) {
      forall s | s in ssccs ensures IsSscc(s) {
        var k :| 0 <= k < |ssccs| && ssccs[k] == s;
        assert boxes[k] in boxes;
      }
    }
  }

  /** When the blocks of a text file can be made. */
  lemma TextBlocksWhen(d: Descriptor, source: Source)
    requires d.extension != Xml && Suits(d, source)
    ensures CreateBlocks(d, source).Ok? <==> TextSourceGood(d, source)
    ensures CreateBlocks(d, source).Err? ==> CreateBlocks(d, source) == Err(InvalidBoxSscc)
  {
    hide MapAll, BoxBlock, PalletGroupBlock, PalletBoxesBlock, PalletModeBoxBlock, IsSscc, PalletGood, IsLegacy;
    match source
    case FlatSource(_) =>
    case BoxSource(boxes) =>
      var f := (box: Box) => BoxBlock(d, box);
      AllMapped(boxes, f);
      forall b ensures (f(b).Ok? <==> IsLegacy(d) || IsSscc(b.sscc)) && (f(b).Err? ==> f(b) == Err(InvalidBoxSscc)) {
        BoxBlockWhen(d, b);
      }
      assert CreateBlocks(d, source) == MapAll(boxes, f);
    case PalletSource(pallets, looseBoxes) =>
      PalletTextWhen(d, pallets, looseBoxes);
  }

  lemma PalletTextWhen(d: Descriptor, pallets: seq<Pallet>, looseBoxes: seq<Box>)
    requires d.extension != Xml
    ensures var r := CreateBlocks(d, PalletSource(pallets, looseBoxes));
      && (r.Ok? <==> TextSourceGood(d, PalletSource(pallets, looseBoxes)))
      && (r.Err? ==> r == Err(InvalidBoxSscc))
  {
    hide MapAll, PalletGroupBlock, PalletBoxesBlock, PalletModeBoxBlock, PalletGood, SsccsGood;
    if d.boxMode == PalletBoxes {
      var f := (pallet: Pallet) => PalletBoxesBlock(d, pallet);
      AllMapped(pallets, f);
      forall p ensures (f(p).Ok? <==> PalletGood(p)) && (f(p).Err? ==> f(p) == Err(InvalidBoxSscc)) {
        LayerWhen(d, p);
      }
      assert CreateBlocks(d, PalletSource(pallets, looseBoxes)) == MapAll(pallets, f);
    } else {
      var f := (pallet: Pallet) => PalletGroupBlock(d, pallet);
      AllMapped(pallets, f);
      forall p ensures (f(p).Ok? <==> PalletGood(p)) && (f(p).Err? ==> f(p) == Err(InvalidBoxSscc)) {
        GroupWhen(d, p);
      }
      BoxesWhen(d, looseBoxes, "");
    }
  }

  /** The blocks of an XML file can always be made; what is wrong with them shows when they are rendered. */
  lemma XmlBlocksAlways(d: Descriptor, source: Source)
    requires d.extension == Xml
    ensures CreateBlocks(d, source).Ok?
  {
    hide MapAll, AllXmlBoxes, SumLines, SumCodes, BoxSsccs;
    match source
    case FlatSource(_) =>
    case BoxSource(boxes) => AllMapped(boxes, (box: Box) => BoxBlock(d, box));
    case PalletSource(pallets, looseBoxes) =>
      forall p ensures PalletGroupBlock(d, p).Ok? {
        AllMapped(p.boxes, (box: Box) => PalletModeBoxBlock(d, box, ""));
      }
      AllMapped(pallets, (pallet: Pallet) => PalletBoxesBlock(d, pallet));
      AllMapped(pallets, (pallet: Pallet) => PalletGroupBlock(d, pallet));
      AllMapped(looseBoxes, (box: Box) => PalletModeBoxBlock(d, box, ""));
  }

  // The files.

  /** What the document of file k of n says about itself is within its limits. */
  ghost predicate FileGood(m: Metadata, organizationName: string, k: nat, n: nat) {
    && GoodText(FileText(m.documentId, k, n), 150) && GoodText(FileText(m.documentNumber, k, n), 150)
    && GoodText(Trim(organizationName), 1_000)
    && IsIsoText(m.fileDateTime) && IsIsoText(m.operationDateTime)
  }

  lemma FileGoodIff(m: Metadata, organizationName: string, k: nat, n: nat)
    ensures GoodMetadata(DocumentFor(m, Trim(organizationName), k, n > 1)) <==> FileGood(m, organizationName, k, n)
  {
    hide Trim, TrimStart, Decimal, GoodText, IsIsoText;
    TrimTwice(organizationName);
    NumberedText(m.documentId, k);
    NumberedText(m.documentNumber, k);
    assert m.documentId + "" == m.documentId && m.documentNumber + "" == m.documentNumber;
  }

  lemma {:induction false} PieceOfXml(split: seq<PartBlocks>, k: nat)
    requires k < |split|
    ensures forall b :: b in AllXmlBoxes(split[k].blocks) ==> b in AllXmlBoxes(Joined(split))
    ensures forall p :: p in AllXmlPallets(split[k].blocks) ==> p in AllXmlPallets(Joined(split))
  {
    hide AllXmlBoxes, AllXmlPallets;
    XmlConcat(split[0].blocks, Joined(split[1..]));
    if k == 0 {
    } else {
      PieceOfXml(split[1..], k - 1);
    }
  }

  lemma {:induction false} PalletsXmlGood(pallets: seq<Pallet>)
    ensures PalletsGood(pallets) <==> forall p :: p in PalletsXml(pallets) ==> GoodPallet(p)
  {
    if pallets == [] {
    } else {
      hide IsSscc, BoxSsccs, SsccsGood;
      PalletsXmlGood(pallets[1..]);
      SsccMembers(pallets[0].boxes);
      assert forall p :: p in pallets <==> p == pallets[0] || p in pallets[1..];
      assert GoodPallet(PalletXml(pallets[0])) <==> PalletGood(pallets[0]);
      hide GoodPallet, PalletGood;
      assert forall p :: p in PalletsXml(pallets) <==> p == PalletXml(pallets[0]) || p in PalletsXml(pallets[1..]);
    }
  }

  /** The defects an XML document can have, with the meaning of each error. */
  ghost predicate XmlErrorTrue(inn: string, d: Document, boxes: seq<Box>, pallets: seq<XmlPallet>, e: ExportError) {
    match e
    case InvalidBoxSscc => (exists b :: b in boxes && !IsSscc(b.sscc)) || exists p :: p in pallets && !GoodPallet(p)
    case Aggregation(InvalidOrgInn) => !IsLegalEntityInn(Trim(inn))
    case Aggregation(InvalidDocumentMetadata) => !GoodMetadata(d)
    case Aggregation(InvalidCis) => exists b :: b in boxes && IsSscc(b.sscc) && !GoodBox(b)
    case _ => false
  }

  lemma BadBoxNamed(inn: string, document: Document, boxes: seq<Box>, pallets: seq<XmlPallet>, b: Box)
    requires b in boxes && !GoodBox(b)
    ensures IsLegalEntityInn(Trim(inn)) && GoodMetadata(document) ==>
      && RenderXml(inn, document, boxes, pallets).Err?
      && var e := RenderXml(inn, document, boxes, pallets).error;
      || (e == InvalidSscc && exists x :: x in boxes && !IsSscc(x.sscc))
      || (e == InvalidCis && exists x :: x in boxes && IsSscc(x.sscc) && !GoodBox(x))
  {
    hide RenderXml, GoodMetadata, GoodBox, Trim, IsSscc, IsLegalEntityInn;
    var k := SomeFirstBad(boxes, b);
    assert boxes[k] in boxes;
    if IsLegalEntityInn(Trim(inn)) && GoodMetadata(document) {
      FirstBadBoxNamed(inn, document, boxes, pallets, k);
    }
  }

  lemma XmlPartWhen(inn: string, document: Document, blocks: seq<Block>)
    ensures RenderXmlPart(inn, document, blocks).Ok? <==>
      && IsLegalEntityInn(Trim(inn)) && GoodMetadata(document)
      && BoxesGood(AllXmlBoxes(blocks)) && (forall p :: p in AllXmlPallets(blocks) ==> GoodPallet(p))
    ensures Trim(inn) != "" && RenderXmlPart(inn, document, blocks).Err? ==>
      XmlErrorTrue(inn, document, AllXmlBoxes(blocks), AllXmlPallets(blocks),
                   RenderXmlPart(inn, document, blocks).error)
  {
    hide RenderXml, GoodMetadata, GoodBox, GoodPallet, Trim, IsSscc, AllXmlBoxes, AllXmlPallets, IsLegalEntityInn;
    var boxes, pallets := AllXmlBoxes(blocks), AllXmlPallets(blocks);
    RenderedIff(inn, document, boxes, pallets);
    if RenderXml(inn, document, boxes, pallets).Err? {
      RenderErrors(inn, document, boxes, pallets);
      if b :| b in boxes && !GoodBox(b) {
        BadBoxNamed(inn, document, boxes, pallets, b);
      }
    }
  }

  lemma {:induction false} PartsWhen(d: Descriptor, input: Input, parts: seq<PartBlocks>, from: nat, multiple: bool)
    requires d.extension == Xml ==> input.document.Some?
    ensures RenderParts(d, input, parts, from, multiple).Ok? <==>
      forall k :: 0 <= k < |parts| ==> RenderPart(d, input, parts[k], from + k + 1, multiple).Ok?
    ensures RenderParts(d, input, parts, from, multiple).Err? ==>
      exists k :: 0 <= k < |parts| && RenderPart(d, input, parts[k], from + k + 1, multiple)
        == Err(RenderParts(d, input, parts, from, multiple).error)
  {
    hide RenderPart;
    if parts == [] {
    } else {
      var rest := parts[1..];
      PartsWhen(d, input, rest, from + 1, multiple);
      var f := (k: nat) requires k < |parts| => RenderPart(d, input, parts[k], from + k + 1, multiple);
      assert forall k :: 0 <= k < |rest| ==> RenderPart(d, input, rest[k], from + 1 + k + 1, multiple) == f(k + 1);
      assert f(0) == RenderPart(d, input, parts[0], from + 1, multiple);
    }
  }

  // The outcome.

  /** The source can be written in this format. */
  ghost predicate SourceGood(d: Descriptor, input: Input) {
    if d.extension == Xml then
      && IsLegalEntityInn(Trim(input.organizationInn))
      && input.document.Some? && FileGood(input.document.value, input.organizationName, 1, 1)
      && XmlSourceGood(d, input.source)
    else TextSourceGood(d, input.source)
  }

  predicate TooLong(d: Descriptor, source: Source, max: int, k: nat) {
    k < |Sizes(d, source)| && HeaderLines(d) + Sizes(d, source)[k] > max
  }

  /** Every indivisible piece fits into a file of its own. */
  ghost predicate FitsLimit(d: Descriptor, input: Input) {
    input.maxLines.Some? ==> forall k: nat :: !TooLong(d, input.source, input.maxLines.value, k)
  }

  ghost predicate FirstTooLong(d: Descriptor, input: Input, k: nat) {
    && input.maxLines.Some? && TooLong(d, input.source, input.maxLines.value, k)
    && forall j: nat :: j < k ==> !TooLong(d, input.source, input.maxLines.value, j)
  }

  function FileCount(d: Descriptor, input: Input): nat {
    match CreateBlocks(d, input.source)
    case Err(_) => 0
    case Ok(blocks) => match Split(d, blocks, input.maxLines) case Err(_) => 0 case Ok(split) => |split|
  }

  /** Each file of an XML export can be named by its number. */
  ghost predicate FilesGood(d: Descriptor, input: Input) {
    d.extension == Xml ==>
      && input.document.Some?
      && forall k :: 1 <= k <= FileCount(d, input) ==>
        FileGood(input.document.value, input.organizationName, k, FileCount(d, input))
  }

  /** What is wrong with an input whose source was looked at. */
  ghost predicate ErrorTrue(d: Descriptor, input: Input, e: ExportError) {
    match e
    case InvalidBoxSscc =>
      if d.extension == Xml then
        !PalletsGood(PalletsOf(input.source)) || !SsccsGood(SourceXmlBoxes(d, input.source))
      else !TextSourceGood(d, input.source)
    case EmptySource => SourceCodes(d, input.source) == 0
    case BoxExceedsLineLimit => exists k: nat :: FirstTooLong(d, input, k) && k >= |PalletsOf(input.source)|
    case PalletExceedsLineLimit => exists k: nat :: FirstTooLong(d, input, k) && k < |PalletsOf(input.source)|
    case Aggregation(InvalidOrgInn) => d.extension == Xml && !IsLegalEntityInn(Trim(input.organizationInn))
    case Aggregation(InvalidDocumentMetadata) =>
      && d.extension == Xml && input.document.Some?
      && (!FileGood(input.document.value, input.organizationName, 1, 1) || !FilesGood(d, input))
    case Aggregation(InvalidCis) =>
      d.extension == Xml && exists b :: b in SourceXmlBoxes(d, input.source) && IsSscc(b.sscc) && !GoodBox(b)
    case _ => false
  }

  lemma NoPartNumber(m: Metadata, organizationName: string)
    ensures GoodMetadata(DocumentFor(m, Trim(organizationName), 1, false)) <==> FileGood(m, organizationName, 1, 1)
  {
    FileGoodIff(m, organizationName, 1, 1);
  }

  lemma XmlOfSource(d: Descriptor, source: Source)
    requires d in FORMATS && d.extension == Xml && Suits(d, source) && CreateBlocks(d, source).Ok?
    ensures AllXmlBoxes(CreateBlocks(d, source).value) == SourceXmlBoxes(d, source)
    ensures (forall p :: p in AllXmlPallets(CreateBlocks(d, source).value) ==> GoodPallet(p))
      <==> PalletsGood(PalletsOf(source))
  {
    hide FORMATS, CreateBlocks, AllXmlBoxes, AllXmlPallets, SourceXmlBoxes, PalletsXml, GoodPallet, PalletsGood;
    BlocksHoldSource(d, source);
    PalletsXmlGood(PalletsOf(source));
    NoPalletsXml();
  }

  /** The first, whole rendering of an XML export tells whether its source is good. */
  lemma WholeWhen(d: Descriptor, input: Input)
    requires d in FORMATS && d.extension == Xml && CheckInput(d, input) == None && CreateBlocks(d, input.source).Ok?
    ensures var blocks := CreateBlocks(d, input.source).value;
      && (CheckWhole(d, input, blocks) == None <==> SourceGood(d, input))
      && (CheckWhole(d, input, blocks).Some? ==> ErrorTrue(d, input, CheckWhole(d, input, blocks).value))
  {
    hide FORMATS, CreateBlocks, AllXmlBoxes, AllXmlPallets, SourceXmlBoxes, GoodPallet, PalletsGood, GoodMetadata,
         DocumentFor, FileGood, Trim, RenderXmlPart, IsLegalEntityInn, GoodBox, IsSscc, HasDateShape, FilesGood;
    var blocks, name := CreateBlocks(d, input.source).value, Trim(input.organizationName);
    var document := DocumentFor(input.document.value, name, 1, false);
    XmlPartWhen(Trim(input.organizationInn), document, blocks);
    TrimTwice(input.organizationInn);
    NoPartNumber(input.document.value, input.organizationName);
    XmlOfSource(d, input.source);
  }

  lemma TooLongIsTooBig(d: Descriptor, source: Source, blocks: seq<Block>, max: int, k: nat)
    requires Sized(d, source, blocks)
    ensures TooLong(d, source, max, k) <==> k < |blocks| && TooBig(HeaderLines(d), max, blocks[k])
  {
    hide Sizes;
  }

  lemma {:induction false} FirstOf(header: nat, max: int, blocks: seq<Block>, b: Block) returns (k: nat)
    requires b in blocks && TooBig(header, max, b)
    ensures FirstTooBig(header, max, blocks, k)
  {
    if TooBig(header, max, blocks[0]) {
      k := 0;
    } else {
      k := FirstOf(header, max, blocks[1..], b);
      forall j | 0 <= j < k + 1 ensures !TooBig(header, max, blocks[j]) {
        assert j > 0 ==> blocks[j] == blocks[1..][j - 1];
      }
      k := k + 1;
    }
  }

  /** When the pieces can be cut into files. */
  lemma SplitWhen(d: Descriptor, input: Input)
    requires d in FORMATS && Suits(d, input.source) && CreateBlocks(d, input.source).Ok?
    ensures var r := Split(d, CreateBlocks(d, input.source).value, input.maxLines);
      && (r.Ok? <==> FitsLimit(d, input))
      && (r.Err? ==> ErrorTrue(d, input, r.error))
  {
    hide FORMATS, CreateBlocks, Sizes, TooLong, TooBig, Greedy, FilesGood, SourceXmlBoxes, PalletsOf;
    var source, blocks := input.source, CreateBlocks(d, input.source).value;
    if input.maxLines.Some? {
      var max := input.maxLines.value;
      BlocksAreSized(d, source);
      SplitFailsIff(d, blocks, max);
      forall k: nat ensures TooLong(d, source, max, k) <==> k < |blocks| && TooBig(HeaderLines(d), max, blocks[k]) {
        TooLongIsTooBig(d, source, blocks, max, k);
      }
      if b :| b in blocks && TooBig(HeaderLines(d), max, b) {
        var k := FirstOf(HeaderLines(d), max, blocks, b);
        assert FirstTooLong(d, input, k);
        assert blocks[k].isPalletGroup <==> k < |PalletsOf(source)|;
      } else if k: nat :| TooLong(d, source, max, k) {
        assert blocks[k] in blocks;
      }
    }
  }

  lemma PartWhen(d: Descriptor, input: Input, split: seq<PartBlocks>, k: nat)
    requires d in FORMATS && d.extension == Xml && input.document.Some? && Suits(d, input.source) && k < |split|
    requires CreateBlocks(d, input.source) == Ok(Joined(split)) && SourceGood(d, input)
    ensures var r := RenderPart(d, input, split[k], k + 1, |split| > 1);
      && (r.Ok? <==> FileGood(input.document.value, input.organizationName, k + 1, |split|))
      && (r.Err? ==> r == Err(Aggregation(InvalidDocumentMetadata)))
  {
    hide FORMATS, CreateBlocks, AllXmlBoxes, AllXmlPallets, SourceXmlBoxes, GoodPallet, PalletsGood, GoodMetadata,
         DocumentFor, FileGood, Trim, RenderXmlPart, IsLegalEntityInn, GoodBox, Joined, SumCodes, SumBoxes, SumPallets;
    var document := DocumentFor(input.document.value, Trim(input.organizationName), k + 1, |split| > 1);
    XmlOfSource(d, input.source);
    PieceOfXml(split, k);
    FileGoodIff(input.document.value, input.organizationName, k + 1, |split|);
    TrimTwice(input.organizationInn);
    XmlPartWhen(Trim(input.organizationInn), document, split[k].blocks);
    InnIsNotEmpty(Trim(input.organizationInn));
    assert forall p :: p in AllXmlPallets(split[k].blocks) ==> GoodPallet(p);
    assert BoxesGood(AllXmlBoxes(split[k].blocks));
    GoodBoxesHaveSsccs(AllXmlBoxes(split[k].blocks));
  }

  lemma GoodBoxesHaveSsccs(boxes: seq<Box>)
    requires BoxesGood(boxes)
    ensures forall b :: b in boxes ==> IsSscc(b.sscc)
  {
    hide IsSscc;
  }

  lemma InnIsNotEmpty(inn: string)
    requires IsLegalEntityInn(inn)
    ensures inn != ""
  {
  }

  /** When the files can be rendered once the source is known to be good. */
  lemma FilesWhen(d: Descriptor, input: Input, split: seq<PartBlocks>)
    requires d in FORMATS && (d.extension == Xml ==> input.document.Some?) && Suits(d, input.source)
    requires CreateBlocks(d, input.source) == Ok(Joined(split)) && SourceGood(d, input)
    requires FileCount(d, input) == |split|
    ensures var r := RenderParts(d, input, split, 0, |split| > 1);
      && (r.Ok? <==> FilesGood(d, input))
      && (r.Err? ==> ErrorTrue(d, input, r.error))
  {
    hide FORMATS, CreateBlocks, RenderPart, RenderParts, SourceGood, FileGood, Joined, FileCount, SourceXmlBoxes;
    PartsWhen(d, input, split, 0, |split| > 1);
    var multiple := |split| > 1;
    if d.extension == Xml {
      forall k | 0 <= k < |split|
        ensures var r := RenderPart(d, input, split[k], 0 + k + 1, multiple);
          && (r.Ok? <==> FileGood(input.document.value, input.organizationName, k + 1, |split|))
          && (r.Err? ==> r == Err(Aggregation(InvalidDocumentMetadata)))
      {
        PartWhen(d, input, split, k);
      }
      if forall k :: 0 <= k < |split| ==> RenderPart(d, input, split[k], 0 + k + 1, multiple).Ok? {
        forall k | 1 <= k <= |split| ensures FileGood(input.document.value, input.organizationName, k, |split|) {
          assert RenderPart(d, input, split[k - 1], 0 + (k - 1) + 1, multiple).Ok?;
        }
      }
    } else {
      forall k | 0 <= k < |split| ensures RenderPart(d, input, split[k], 0 + k + 1, multiple).Ok? {
        PlainPartRenders(d, input, split[k], k + 1, multiple);
      }
    }
  }

  lemma PlainPartRenders(d: Descriptor, input: Input, part: PartBlocks, partNumber: nat, multiple: bool)
    requires d.extension != Xml
    ensures RenderPart(d, input, part, partNumber, multiple).Ok?
  {
  }

  /** The outcome for an input that passed the first checks. */
  lemma CheckedOutcome(d: Descriptor, input: Input)
    requires d in FORMATS && FindFormat(FORMATS, input.formatId, input.formatVersion) == Some(d)
    requires CheckInput(d, input) == None
    ensures var r := RenderShiftExport(input);
      && (r.Ok? <==>
            SourceGood(d, input) && SourceCodes(d, input.source) > 0 && FitsLimit(d, input) && FilesGood(d, input))
      && (r.Err? ==> ErrorTrue(d, input, r.error))
  {
    hide FORMATS, FindFormat, CreateBlocks, CheckWhole, SumCodes, Split, RenderParts, FilesGood, FitsLimit, SourceCodes,
         XmlSourceGood, TextSourceGood, FileGood, ErrorTrue, HasDateShape, Trim, IsLegalEntityInn, Joined, FileCount;
    SourceWhen(d, input);
    if SourceGood(d, input) {
      var blocks := CreateBlocks(d, input.source).value;
      SourceSums(d, input.source);
      SplitWhen(d, input);
      if SumCodes(blocks) == 0 {
        NoCodes(d, input);
      } else if Split(d, blocks, input.maxLines).Ok? {
        var split := Split(d, blocks, input.maxLines).value;
        HeaderFits(d, blocks, input.maxLines, split);
        SplitKeepsBlocks(d, blocks, input.maxLines);
        CountOfFiles(d, input);
        FilesWhen(d, input, split);
      }
    }
  }

  lemma NoCodes(d: Descriptor, input: Input)
    requires SourceCodes(d, input.source) == 0
    ensures ErrorTrue(d, input, EmptySource)
  {
  }

  lemma CountOfFiles(d: Descriptor, input: Input)
    requires CreateBlocks(d, input.source).Ok?
    requires Split(d, CreateBlocks(d, input.source).value, input.maxLines).Ok?
    ensures FileCount(d, input) == |Split(d, CreateBlocks(d, input.source).value, input.maxLines).value|
  {
    hide CreateBlocks, Split;
  }

  lemma SourceWhen(d: Descriptor, input: Input)
    requires d in FORMATS && CheckInput(d, input) == None
    ensures SourceGood(d, input) <==>
      CreateBlocks(d, input.source).Ok? && CheckWhole(d, input, CreateBlocks(d, input.source).value) == None
    ensures CreateBlocks(d, input.source).Err? ==> ErrorTrue(d, input, CreateBlocks(d, input.source).error)
    ensures CreateBlocks(d, input.source).Ok? && CheckWhole(d, input, CreateBlocks(d, input.source).value).Some? ==>
      ErrorTrue(d, input, CheckWhole(d, input, CreateBlocks(d, input.source).value).value)
  {
    hide FORMATS, CreateBlocks, FilesGood, XmlSourceGood, TextSourceGood, FileGood, HasDateShape, Trim,
         IsLegalEntityInn, RenderXmlPart;
    if d.extension == Xml {
      XmlBlocksAlways(d, input.source);
      WholeWhen(d, input);
    } else {
      TextBlocksWhen(d, input.source);
    }
  }

  /** What is asked of an input before its source is looked at. */
  predicate InputGood(d: Descriptor, input: Input) {
    && Suits(d, input.source) && HasDateShape(input.shiftDate)
    && (input.maxLines.Some? ==> 2 <= input.maxLines.value <= 1_000_000)
    && (d.extension == Xml ==>
          Trim(input.organizationInn) != "" && Trim(input.organizationName) != "" && input.document.Some?)
  }

  function DescriptorOf(input: Input): Descriptor {
    Descriptor(input.formatId, input.formatVersion, ExtensionOf(input.formatId), ModeOf(input.formatId))
  }

  /** Exactly which exports are made: the format exists and suits the source, the date has its shape, the limit is none
      or from 2 to a million and takes every indivisible piece, there is at least one code, every SSCC shown has 18
      digits, and for XML the organization, the codes and the document of every file are good. */
  lemma ExportSucceedsIff(input: Input)
    ensures var d := DescriptorOf(input);
      RenderShiftExport(input).Ok? <==>
        && IsKnown(input.formatId, input.formatVersion) && InputGood(d, input)
        && SourceGood(d, input) && SourceCodes(d, input.source) > 0 && FitsLimit(d, input) && FilesGood(d, input)
  {
    hide FORMATS, FindFormat, CreateBlocks, CheckWhole, SumCodes, Split, RenderParts, FilesGood, FitsLimit, SourceCodes,
         SourceGood, HasDateShape, Trim, Suits;
    KnownFormats(input.formatId, input.formatVersion);
    if IsKnown(input.formatId, input.formatVersion) {
      KnownIsListed(input.formatId, input.formatVersion);
      if CheckInput(DescriptorOf(input), input) == None {
        CheckedOutcome(DescriptorOf(input), input);
      }
    }
  }

  /** What each refusal means: the first checks are named exactly and in their order, and an error about the source
      names a defect that the source has. */
  lemma ExportErrors(input: Input)
    requires RenderShiftExport(input).Err?
    ensures var d, e, xml := DescriptorOf(input), RenderShiftExport(input).error, ExtensionOf(input.formatId) == Xml;
      var known := IsKnown(input.formatId, input.formatVersion);
      var suits := known && Suits(d, input.source);
      var dated := suits && HasDateShape(input.shiftDate);
      var ready := dated && (input.maxLines.Some? ==> 2 <= input.maxLines.value <= 1_000_000);
      && (e == FormatNotFound <==> !known)
      && (e == FormatSourceMismatch <==> known && !suits)
      && (e == InvalidShiftDate <==> suits && !dated)
      && (e == InvalidLineLimit <==> dated && !ready)
      && (e == Aggregation(OrgInnMissing) <==> ready && xml && Trim(input.organizationInn) == "")
      && (e == OrgNameMissing <==>
            ready && xml && Trim(input.organizationInn) != "" && Trim(input.organizationName) == "")
      && (e == DocumentMetadataMissing <==>
            && ready && xml && Trim(input.organizationInn) != "" && Trim(input.organizationName) != ""
            && input.document.None?)
      && (known && InputGood(d, input) ==> ErrorTrue(d, input, e))
  {
    hide FORMATS, FindFormat, CreateBlocks, CheckWhole, SumCodes, Split, RenderParts, FilesGood, FitsLimit, SourceCodes,
         SourceGood, HasDateShape, Trim, Suits, FileGood, PalletsGood, SourceXmlBoxes, SsccsGood, TextSourceGood,
         IsLegalEntityInn;
    KnownFormats(input.formatId, input.formatVersion);
    if IsKnown(input.formatId, input.formatVersion) {
      KnownIsListed(input.formatId, input.formatVersion);
      if CheckInput(DescriptorOf(input), input) == None {
        CheckedOutcome(DescriptorOf(input), input);
      }
    }
  }
}
