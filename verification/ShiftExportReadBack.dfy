/** Reading back a whole export: what all its files together say is what the source said. */
module ShiftExportReadBack {
  import opened Wrappers
  import opened Utf8
  import opened Csv
  import opened Gismt
  import opened MarkingCodes
  import opened GismtReader
  import opened GismtLaws
  import opened ShiftBlocks
  import opened BlockSplit
  import opened ShiftExports
  import opened ShiftExportLaws

  // XML files.

  /** The boxes whose codes an XML export lists. */
  function SourceXmlBoxes(d: Descriptor, source: Source): seq<Box> {
    match source
    case FlatSource(_) => []
    case BoxSource(boxes) => boxes
    case PalletSource(pallets, looseBoxes) =>
      if d.boxMode == PalletBoxes then [] else BoxesOfPallets(pallets) + looseBoxes
  }

  function BoxesOfPallets(pallets: seq<Pallet>): seq<Box> {
    if pallets == [] then [] else pallets[0].boxes + BoxesOfPallets(pallets[1..])
  }

  /** The pallets it lists, each with the SSCCs of its boxes. */
  function SourceXmlPallets(source: Source): seq<XmlPallet> {
    match source
    case PalletSource(pallets, _) => PalletsXml(pallets)
    case _ => []
  }

  function PalletsXml(pallets: seq<Pallet>): seq<XmlPallet> {
    if pallets == [] then [] else [PalletXml(pallets[0])] + PalletsXml(pallets[1..])
  }

  /** What a reader finds in the file of a part. */
  function PacksRead(p: Part): seq<Pack> {
    match ReadDocument(p.bytes) case None => [] case Some((_, _, packs)) => packs
  }

  /** How many of the packs found are boxes: the counter of the part, or none in the pallet layer. */
  function BoxesIn(d: Descriptor, p: Part): nat {
    if d.boxMode == PalletBoxes || p.boxCount > |PacksRead(p)| then 0 else p.boxCount
  }

  function AllBoxesRead(d: Descriptor, parts: seq<Part>): seq<Pack> {
    if parts == [] then []
    else PacksRead(parts[0])[..BoxesIn(d, parts[0])] + AllBoxesRead(d, parts[1..])
  }

  function AllPalletsRead(d: Descriptor, parts: seq<Part>): seq<Pack> {
    if parts == [] then []
    else PacksRead(parts[0])[BoxesIn(d, parts[0])..] + AllPalletsRead(d, parts[1..])
  }

  lemma MapAllConcat<A, B, E>(a: seq<A>, b: seq<A>, f: A -> Result<B, E>)
    requires MapAll(a, f).Ok? && MapAll(b, f).Ok?
    ensures MapAll(a + b, f) == Ok(MapAll(a, f).value + MapAll(b, f).value)
  {
    hide MapAll;
    var all, r := a + b, MapAll(a, f).value + MapAll(b, f).value;
    forall k | 0 <= k < |all| ensures f(all[k]) == Ok(r[k]) {
      if k >= |a| { assert all[k] == b[k - |a|]; }
    }
    assert MapAll(all, f).Ok?;
    assert MapAll(all, f).value == r;
  }

  lemma {:induction false} XmlConcat(a: seq<Block>, b: seq<Block>)
    ensures AllXmlBoxes(a + b) == AllXmlBoxes(a) + AllXmlBoxes(b)
    ensures AllXmlPallets(a + b) == AllXmlPallets(a) + AllXmlPallets(b)
  {
    if a == [] {
      assert a + b == b;
    } else {
      assert (a + b)[1..] == a[1..] + b;
      XmlConcat(a[1..], b);
    }
  }

  /** What the file of a part says is what its blocks say. */
  ghost predicate Says(d: Descriptor, p: Part, blocks: seq<Block>) {
    && BoxPacks(AllXmlBoxes(blocks)).Ok? && PalletPacks(AllXmlPallets(blocks)).Ok?
    && ReadDocument(p.bytes).Some?
    && PacksRead(p) == BoxPacks(AllXmlBoxes(blocks)).value + PalletPacks(AllXmlPallets(blocks)).value
    && BoxesIn(d, p) == |AllXmlBoxes(blocks)|
  }

  lemma {:induction false} PartsSay(d: Descriptor, split: seq<PartBlocks>, parts: seq<Part>)
    requires |parts| == |split| && forall k :: 0 <= k < |parts| ==> Says(d, parts[k], split[k].blocks)
    ensures BoxPacks(AllXmlBoxes(Joined(split))) == Ok(AllBoxesRead(d, parts))
    ensures PalletPacks(AllXmlPallets(Joined(split))) == Ok(AllPalletsRead(d, parts))
  {
    if parts == [] {
    } else {
      hide AllXmlBoxes, AllXmlPallets, ReadDocument, PacksRead, BoxesIn, MapAll;
      var mine, rest := split[0].blocks, split[1..];
      assert Says(d, parts[0], mine);
      forall k | 0 <= k < |parts| - 1 ensures Says(d, parts[1..][k], rest[k].blocks) {
        assert Says(d, parts[k + 1], split[k + 1].blocks);
      }
      PartsSay(d, rest, parts[1..]);
      XmlConcat(mine, Joined(rest));
      MapAllConcat(AllXmlBoxes(mine), AllXmlBoxes(Joined(rest)), BoxPack);
      MapAllConcat(AllXmlPallets(mine), AllXmlPallets(Joined(rest)), PalletPack);
    }
  }

  lemma PartSays(input: Input, d: Descriptor, part: PartBlocks, partNumber: nat, multiple: bool)
    requires d.extension == Xml && input.document.Some? && AllCount(d, part.blocks)
    requires RenderPart(d, input, part, partNumber, multiple).Ok?
    requires d.boxMode == PalletBoxes ==> AllXmlBoxes(part.blocks) == []
    ensures Says(d, RenderPart(d, input, part, partNumber, multiple).value, part.blocks)
  {
    hide RenderXml, ReadDocument, DocumentFor, Trim, AllXmlBoxes, AllXmlPallets, SumCodes, SumBoxes, SumPallets, MapAll,
         CountsItsContent;
    var inn, document := Trim(input.organizationInn),
                         DocumentFor(input.document.value, Trim(input.organizationName), partNumber, multiple);
    RenderedReadsBack(inn, document, AllXmlBoxes(part.blocks), AllXmlPallets(part.blocks));
    RenderedLineCount(inn, document, AllXmlBoxes(part.blocks), AllXmlPallets(part.blocks));
  }

  lemma {:induction false} PieceWithout(split: seq<PartBlocks>, k: nat)
    requires k < |split| && AllXmlBoxes(Joined(split)) == []
    ensures AllXmlBoxes(split[k].blocks) == []
  {
    XmlConcat(split[0].blocks, Joined(split[1..]));
    if k == 0 {
    } else {
      PieceWithout(split[1..], k - 1);
    }
  }

  lemma {:induction false} GroupsXml(pallets: seq<Pallet>, blocks: seq<Block>)
    requires |blocks| == |pallets|
    requires forall k :: 0 <= k < |pallets| ==>
      blocks[k].xmlBoxes == pallets[k].boxes && blocks[k].xmlPallets == [PalletXml(pallets[k])]
    ensures AllXmlBoxes(blocks) == BoxesOfPallets(pallets) && AllXmlPallets(blocks) == PalletsXml(pallets)
  {
    if pallets == [] {
    } else {
      GroupsXml(pallets[1..], blocks[1..]);
    }
  }

  lemma {:induction false} LayersXml(pallets: seq<Pallet>, blocks: seq<Block>)
    requires |blocks| == |pallets|
    requires forall k :: 0 <= k < |pallets| ==>
      blocks[k].xmlBoxes == [] && blocks[k].xmlPallets == [PalletXml(pallets[k])]
    ensures AllXmlBoxes(blocks) == [] && AllXmlPallets(blocks) == PalletsXml(pallets)
  {
    if pallets == [] {
    } else {
      LayersXml(pallets[1..], blocks[1..]);
    }
  }

  /** The blocks of an XML export hold all boxes and pallets of the source, in order. */
  lemma BlocksHoldSource(d: Descriptor, source: Source)
    requires d in FORMATS && d.extension == Xml && Suits(d, source) && CreateBlocks(d, source).Ok?
    ensures AllXmlBoxes(CreateBlocks(d, source).value) == SourceXmlBoxes(d, source)
    ensures AllXmlPallets(CreateBlocks(d, source).value) == SourceXmlPallets(source)
  {
    hide MapAll, FORMATS, PalletGroupBlock, PalletModeBoxBlock, CountsItsContent, AllXmlBoxes, AllXmlPallets;
    FormatFacts(d);
    var blocks := CreateBlocks(d, source).value;
    match source
    case FlatSource(_) =>
    case BoxSource(boxes) =>
      var f := (box: Box) => BoxBlock(d, box);
      assert MapAll(boxes, f) == Ok(blocks);
      forall k | 0 <= k < |blocks| ensures blocks[k].xmlBoxes == [boxes[k]] && blocks[k].xmlPallets == [] {
        assert f(boxes[k]) == Ok(blocks[k]);
      }
      XmlBoxesOfBlocks(boxes, blocks);
    case PalletSource(pallets, looseBoxes) =>
      if d.boxMode == PalletBoxes {
        var f := (pallet: Pallet) => PalletBoxesBlock(d, pallet);
        assert MapAll(pallets, f) == Ok(blocks);
        forall k | 0 <= k < |blocks|
          ensures blocks[k].xmlBoxes == [] && blocks[k].xmlPallets == [PalletXml(pallets[k])]
        {
          assert f(pallets[k]) == Ok(blocks[k]);
        }
        LayersXml(pallets, blocks);
      } else {
        PalletBlocksHold(d, pallets, looseBoxes);
      }
  }

  lemma PalletBlocksHold(d: Descriptor, pallets: seq<Pallet>, looseBoxes: seq<Box>)
    requires d.extension == Xml && d.boxMode == Pallets && CreateBlocks(d, PalletSource(pallets, looseBoxes)).Ok?
    ensures var blocks := CreateBlocks(d, PalletSource(pallets, looseBoxes)).value;
      AllXmlBoxes(blocks) == BoxesOfPallets(pallets) + looseBoxes && AllXmlPallets(blocks) == PalletsXml(pallets)
  {
    hide MapAll, PalletGroupBlock, PalletModeBoxBlock, CountsItsContent, AllXmlBoxes, AllXmlPallets;
    var f := (pallet: Pallet) => PalletGroupBlock(d, pallet);
    var g := (box: Box) => PalletModeBoxBlock(d, box, "");
    var groups, loose := MapAll(pallets, f).value, MapAll(looseBoxes, g).value;
    forall k | 0 <= k < |groups|
      ensures groups[k].xmlBoxes == pallets[k].boxes && groups[k].xmlPallets == [PalletXml(pallets[k])]
    {
      assert f(pallets[k]) == Ok(groups[k]);
      PalletGroupCounts(d, pallets[k]);
    }
    forall k | 0 <= k < |loose| ensures loose[k].xmlBoxes == [looseBoxes[k]] && loose[k].xmlPallets == [] {
      assert g(looseBoxes[k]) == Ok(loose[k]);
      PalletModeBoxCounts(d, looseBoxes[k], "");
    }
    GroupsXml(pallets, groups);
    XmlBoxesOfBlocks(looseBoxes, loose);
    XmlConcat(groups, loose);
    assert PalletsXml(pallets) + [] == PalletsXml(pallets);
  }

  lemma XmlFilesHold(input: Input)
    requires RenderShiftExport(input).Ok? && FormatOf(input).extension == Xml
    ensures var d, parts := FormatOf(input), RenderShiftExport(input).value;
      && (forall p :: p in parts ==> ReadDocument(p.bytes).Some?)
      && BoxPacks(SourceXmlBoxes(d, input.source)) == Ok(AllBoxesRead(d, parts))
      && PalletPacks(SourceXmlPallets(input.source)) == Ok(AllPalletsRead(d, parts))
  {
    hide RenderShiftExport, FindFormat, CreateBlocks, FORMATS, RenderParts, RenderPart, Split, Joined, Breaks,
         OneLineTexts, CountsItsContent, ReadDocument, SumCodes, SumBoxes, SumPallets, AllXmlBoxes, AllXmlPallets,
         SourceXmlBoxes, SourceXmlPallets, AllBoxesRead, AllPalletsRead, PacksRead, BoxesIn, MapAll;
    var d, blocks, split, parts := ExportPieces(input);
    SplitNotEmpty(d, blocks, input.maxLines, split, input, parts);
    BlocksHoldSource(d, input.source);
    LayerHasNoBoxes(d, input.source);
    forall k | 0 <= k < |parts| ensures Says(d, parts[k], split[k].blocks) {
      ExportPartFacts(input, d, blocks, split, parts, k);
      if d.boxMode == PalletBoxes {
        PieceWithout(split, k);
      }
      PartSays(input, d, split[k], k + 1, |split| > 1);
    }
    PartsSay(d, split, parts);
    forall p | p in parts ensures ReadDocument(p.bytes).Some? {
      var k :| 0 <= k < |parts| && parts[k] == p;
      assert Says(d, parts[k], split[k].blocks);
    }
  }

  /** The pallets of a source. */
  function PalletsOf(source: Source): seq<Pallet> {
    match source case PalletSource(pallets, _) => pallets case _ => []
  }

  function Ssccs(boxes: seq<Box>): seq<string> { seq(|boxes|, k requires 0 <= k < |boxes| => boxes[k].sscc) }

  lemma {:induction false} SsccsAre(boxes: seq<Box>)
    ensures BoxSsccs(boxes) == Ssccs(boxes)
  {
    if boxes == [] {
    } else {
      SsccsAre(boxes[1..]);
    }
  }

  lemma {:induction false} PalletsXmlAre(pallets: seq<Pallet>)
    ensures |PalletsXml(pallets)| == |pallets|
    ensures forall k :: 0 <= k < |pallets| ==>
      PalletsXml(pallets)[k] == XmlPallet(pallets[k].sscc, Ssccs(pallets[k].boxes))
  {
    if pallets == [] {
    } else {
      hide Ssccs, BoxSsccs;
      SsccsAre(pallets[0].boxes);
      PalletsXmlAre(pallets[1..]);
    }
  }

  /** However an XML export is cut into files, reading them in order gives every box of the source, under 00 and its
      SSCC, with the identification of each of its codes, and every pallet, under 00 and its SSCC, with 00 and the SSCC
      of each of its boxes, once each and in order. */
  lemma XmlFilesReadBack(input: Input)
    requires RenderShiftExport(input).Ok? && FormatOf(input).extension == Xml
    ensures var d, parts := FormatOf(input), RenderShiftExport(input).value;
      var boxes, pallets := SourceXmlBoxes(d, input.source), PalletsOf(input.source);
      && (forall p :: p in parts ==> ReadDocument(p.bytes).Some?)
      && |AllBoxesRead(d, parts)| == |boxes|
      && (forall k :: 0 <= k < |boxes| ==> WritesBox(boxes[k], AllBoxesRead(d, parts)[k]))
      && |AllPalletsRead(d, parts)| == |pallets|
      && (forall k :: 0 <= k < |pallets| ==>
            WritesPallet(pallets[k].sscc, Ssccs(pallets[k].boxes), AllPalletsRead(d, parts)[k]))
  {
    hide RenderShiftExport, FormatOf, ReadDocument, SourceXmlBoxes, AllBoxesRead, AllPalletsRead, MapAll, BoxPack,
         PalletPack, WritesBox, WritesPallet, PalletsXml, Ssccs;
    var d, _, _, _ := ExportPieces(input);
    XmlFilesHold(input);
    BoxPacksSay(SourceXmlBoxes(d, input.source));
    PalletPacksSay(SourceXmlPallets(input.source));
    PalletsXmlAre(PalletsOf(input.source));
    assert SourceXmlPallets(input.source) == PalletsXml(PalletsOf(input.source)) by { NoPalletsXml(); }
  }

  lemma NoPalletsXml()
    ensures PalletsXml([]) == []
  {
  }

  lemma LayerHasNoBoxes(d: Descriptor, source: Source)
    requires Suits(d, source)
    ensures d.boxMode == PalletBoxes ==> SourceXmlBoxes(d, source) == []
  {
  }

  // CSV files.

  /** An SSCC as the files show it, behind its application identifier. */
  function Shown(sscc: string): string { "00" + sscc }

  lemma ShownIs(sscc: string)
    requires FormatBoxSscc(sscc).Ok?
    ensures FormatBoxSscc(sscc).value == Shown(sscc) && IsSscc(sscc)
  {
    hide IsSscc, FormatSscc;
    ShownSsccIff(sscc, FormatSscc(sscc).value);
  }

  /** The columns before each of the codes. */
  function Beside(columns: seq<string>, codes: seq<string>): seq<seq<string>> {
    seq(|codes|, k requires 0 <= k < |codes| => columns + [codes[k]])
  }

  lemma {:induction false} BoxRowsAre(columns: seq<string>, codes: seq<string>)
    ensures BoxRows(columns, codes) == Beside(columns, codes)
  {
    if codes == [] {
    } else {
      BoxRowsAre(columns, codes[1..]);
    }
  }

  /** One row for each code of each box, after the columns of what the box stands on and of the box itself. */
  function BoxesRows(columns: seq<string>, asWritten: bool, boxes: seq<Box>): seq<seq<string>> {
    if boxes == [] then []
    else Beside(columns + [if asWritten then boxes[0].sscc else Shown(boxes[0].sscc)], boxes[0].codes)
         + BoxesRows(columns, asWritten, boxes[1..])
  }

  function PalletsRows(pallets: seq<Pallet>): seq<seq<string>> {
    if pallets == [] then []
    else BoxesRows([Shown(pallets[0].sscc)], false, pallets[0].boxes) + PalletsRows(pallets[1..])
  }

  function CodeRows(codes: seq<string>): seq<seq<string>> {
    if codes == [] then [] else [[codes[0]]] + CodeRows(codes[1..])
  }

  /** The table that a source is. */
  function SourceRows(d: Descriptor, source: Source): seq<seq<string>> {
    match source
    case FlatSource(codes) => CodeRows(codes)
    case BoxSource(boxes) => BoxesRows([], IsLegacy(d), boxes)
    case PalletSource(pallets, looseBoxes) => PalletsRows(pallets) + BoxesRows([""], false, looseBoxes)
  }

  /** What a reader finds under the header of the file of a part. */
  function RowsRead(p: Part): seq<seq<string>> {
    match ReadBytes(p.bytes) case Some(rows) => if rows == [] then [] else rows[1..] case None => []
  }

  function AllRowsRead(parts: seq<Part>): seq<seq<string>> {
    if parts == [] then [] else RowsRead(parts[0]) + AllRowsRead(parts[1..])
  }

  lemma {:induction false} RowsConcat(a: seq<Block>, b: seq<Block>)
    ensures AllRows(a + b) == AllRows(a) + AllRows(b)
  {
    if a == [] {
      assert a + b == b;
    } else {
      assert (a + b)[1..] == a[1..] + b;
      RowsConcat(a[1..], b);
    }
  }

  lemma {:induction false} RowsOfCodes(d: Descriptor, codes: seq<string>)
    requires d.extension == CsvExtension
    ensures AllRows(CodeBlocks(d, codes)) == CodeRows(codes)
  {
    if codes == [] {
    } else {
      RowsOfCodes(d, codes[1..]);
      assert CodeBlocks(d, codes)[1..] == CodeBlocks(d, codes[1..]);
    }
  }

  lemma {:induction false} RowsOfBoxes(columns: seq<string>, asWritten: bool, boxes: seq<Box>, blocks: seq<Block>)
    requires |blocks| == |boxes|
    requires forall k :: 0 <= k < |boxes| ==>
      blocks[k].csvRows
        == Beside(columns + [if asWritten then boxes[k].sscc else Shown(boxes[k].sscc)], boxes[k].codes)
    ensures AllRows(blocks) == BoxesRows(columns, asWritten, boxes)
  {
    if boxes == [] {
    } else {
      hide Beside, Shown;
      RowsOfBoxes(columns, asWritten, boxes[1..], blocks[1..]);
    }
  }

  lemma {:induction false} RowsOfPallets(pallets: seq<Pallet>, blocks: seq<Block>)
    requires |blocks| == |pallets|
    requires forall k :: 0 <= k < |pallets| ==>
      blocks[k].csvRows == BoxesRows([Shown(pallets[k].sscc)], false, pallets[k].boxes)
    ensures AllRows(blocks) == PalletsRows(pallets)
  {
    if pallets == [] {
    } else {
      hide BoxesRows, Shown;
      RowsOfPallets(pallets[1..], blocks[1..]);
    }
  }

  lemma BoxBlockRows(d: Descriptor, box: Box)
    requires d.extension == CsvExtension && BoxBlock(d, box).Ok?
    ensures BoxBlock(d, box).value.csvRows
         == Beside([] + [if IsLegacy(d) then box.sscc else Shown(box.sscc)], box.codes)
  {
    hide FormatBoxSscc, BoxRows, BoxRowsLines, Beside, Shown;
    if !IsLegacy(d) {
      ShownIs(box.sscc);
    }
    BoxRowsAre([if IsLegacy(d) then box.sscc else Shown(box.sscc)], box.codes);
    assert [] + [box.sscc] == [box.sscc] && [] + [Shown(box.sscc)] == [Shown(box.sscc)];
  }

  lemma PalletModeRows(d: Descriptor, box: Box, column: string)
    requires d.extension == CsvExtension && PalletModeBoxBlock(d, box, column).Ok?
    ensures PalletModeBoxBlock(d, box, column).value.csvRows == Beside([column] + [Shown(box.sscc)], box.codes)
  {
    hide FormatBoxSscc, BoxRows, PalletRowsLines, Beside, Shown;
    ShownIs(box.sscc);
    BoxRowsAre([column, Shown(box.sscc)], box.codes);
    assert [column] + [Shown(box.sscc)] == [column, Shown(box.sscc)];
  }

  lemma GroupRows(d: Descriptor, pallet: Pallet)
    requires d.extension == CsvExtension && PalletGroupBlock(d, pallet).Ok?
    ensures PalletGroupBlock(d, pallet).value.csvRows == BoxesRows([Shown(pallet.sscc)], false, pallet.boxes)
  {
    hide FormatBoxSscc, MapAll, PalletModeBoxBlock, BoxesRows, AllRows, SumCodes, SumLines, Shown, Beside;
    ShownIs(pallet.sscc);
    var column := Shown(pallet.sscc);
    var f := (box: Box) => PalletModeBoxBlock(d, box, column);
    assert MapAll(pallet.boxes, f).Ok?;
    var blocks := MapAll(pallet.boxes, f).value;
    forall k | 0 <= k < |blocks|
      ensures blocks[k].csvRows == Beside([column] + [Shown(pallet.boxes[k].sscc)], pallet.boxes[k].codes)
    {
      assert f(pallet.boxes[k]) == Ok(blocks[k]);
      PalletModeRows(d, pallet.boxes[k], column);
    }
    RowsOfBoxes([column], false, pallet.boxes, blocks);
  }

  /** The blocks of a CSV export hold the table of the source. */
  lemma BlocksHoldRows(d: Descriptor, source: Source)
    requires d in FORMATS && d.extension == CsvExtension && Suits(d, source) && CreateBlocks(d, source).Ok?
    ensures AllRows(CreateBlocks(d, source).value) == SourceRows(d, source)
  {
    hide MapAll, FORMATS, PalletGroupBlock, PalletModeBoxBlock, BoxBlock, AllRows, BoxesRows, Beside, PalletsRows,
         CodeRows, Shown;
    FormatFacts(d);
    var blocks := CreateBlocks(d, source).value;
    match source
    case FlatSource(codes) => RowsOfCodes(d, codes);
    case BoxSource(boxes) =>
      var f := (box: Box) => BoxBlock(d, box);
      assert MapAll(boxes, f) == Ok(blocks);
      forall k | 0 <= k < |blocks|
        ensures blocks[k].csvRows
             == Beside([] + [if IsLegacy(d) then boxes[k].sscc else Shown(boxes[k].sscc)], boxes[k].codes)
      {
        assert f(boxes[k]) == Ok(blocks[k]);
        BoxBlockRows(d, boxes[k]);
      }
      RowsOfBoxes([], IsLegacy(d), boxes, blocks);
    case PalletSource(pallets, looseBoxes) =>
      PalletBlocksHoldRows(d, pallets, looseBoxes);
  }

  lemma PalletBlocksHoldRows(d: Descriptor, pallets: seq<Pallet>, looseBoxes: seq<Box>)
    requires d.extension == CsvExtension && d.boxMode == Pallets
    requires CreateBlocks(d, PalletSource(pallets, looseBoxes)).Ok?
    ensures AllRows(CreateBlocks(d, PalletSource(pallets, looseBoxes)).value)
         == PalletsRows(pallets) + BoxesRows([""], false, looseBoxes)
  {
    hide MapAll, PalletGroupBlock, PalletModeBoxBlock, AllRows, BoxesRows, Beside, PalletsRows, Shown;
    var f := (pallet: Pallet) => PalletGroupBlock(d, pallet);
    var g := (box: Box) => PalletModeBoxBlock(d, box, "");
    var groups, loose := MapAll(pallets, f).value, MapAll(looseBoxes, g).value;
    forall k | 0 <= k < |groups|
      ensures groups[k].csvRows == BoxesRows([Shown(pallets[k].sscc)], false, pallets[k].boxes)
    {
      assert f(pallets[k]) == Ok(groups[k]);
      GroupRows(d, pallets[k]);
    }
    forall k | 0 <= k < |loose|
      ensures loose[k].csvRows == Beside([""] + [Shown(looseBoxes[k].sscc)], looseBoxes[k].codes)
    {
      assert g(looseBoxes[k]) == Ok(loose[k]);
      PalletModeRows(d, looseBoxes[k], "");
    }
    RowsOfPallets(pallets, groups);
    RowsOfBoxes([""], false, looseBoxes, loose);
    RowsConcat(groups, loose);
  }

  predicate FullRows(rows: seq<seq<string>>) {
    forall row :: row in rows ==> row != []
  }

  lemma RowsBesideFull(columns: seq<string>, codes: seq<string>)
    ensures FullRows(Beside(columns, codes))
  {
  }

  lemma {:induction false} BoxesRowsFull(columns: seq<string>, asWritten: bool, boxes: seq<Box>)
    ensures FullRows(BoxesRows(columns, asWritten, boxes))
  {
    if boxes == [] {
    } else {
      hide Beside, Shown;
      RowsBesideFull(columns + [if asWritten then boxes[0].sscc else Shown(boxes[0].sscc)], boxes[0].codes);
      BoxesRowsFull(columns, asWritten, boxes[1..]);
    }
  }

  lemma {:induction false} PalletsRowsFull(pallets: seq<Pallet>)
    ensures FullRows(PalletsRows(pallets))
  {
    if pallets == [] {
    } else {
      hide BoxesRows, Shown;
      BoxesRowsFull([Shown(pallets[0].sscc)], false, pallets[0].boxes);
      PalletsRowsFull(pallets[1..]);
    }
  }

  lemma {:induction false} CodeRowsFull(codes: seq<string>)
    ensures FullRows(CodeRows(codes))
  {
    if codes == [] {
    } else {
      CodeRowsFull(codes[1..]);
    }
  }

  lemma SourceRowsFull(d: Descriptor, source: Source)
    ensures FullRows(SourceRows(d, source))
  {
    hide BoxesRows, PalletsRows, CodeRows;
    match source
    case FlatSource(codes) => CodeRowsFull(codes);
    case BoxSource(boxes) => BoxesRowsFull([], IsLegacy(d), boxes);
    case PalletSource(pallets, looseBoxes) =>
      PalletsRowsFull(pallets);
      BoxesRowsFull([""], false, looseBoxes);
  }

  lemma {:induction false} PieceFull(split: seq<PartBlocks>, k: nat)
    requires k < |split| && FullRows(AllRows(Joined(split)))
    ensures FullRows(AllRows(split[k].blocks))
  {
    hide AllRows;
    var first, rest := AllRows(split[0].blocks), AllRows(Joined(split[1..]));
    RowsConcat(split[0].blocks, Joined(split[1..]));
    assert AllRows(Joined(split)) == first + rest;
    assert forall row :: row in first || row in rest ==> row in first + rest;
    if k == 0 {
    } else {
      PieceFull(split[1..], k - 1);
    }
  }

  lemma HeaderIsFull(mode: BoxMode)
    ensures CsvHeaderFor(mode) != [] && CsvHeaderFor(mode)[0] != ""
  {
  }

  lemma PartRowsRead(d: Descriptor, input: Input, part: PartBlocks, partNumber: nat, multiple: bool)
    requires d.extension == CsvExtension && FullRows(AllRows(part.blocks))
    requires RenderPart(d, input, part, partNumber, multiple).Ok?
    ensures var p := RenderPart(d, input, part, partNumber, multiple).value;
      ReadBytes(p.bytes) == Some([CsvHeaderFor(d.boxMode)] + AllRows(part.blocks))
      && RowsRead(p) == AllRows(part.blocks)
  {
    hide AllRows, CsvHeaderFor, ReadBytes, CsvBytes, SumCodes, SumBoxes, SumPallets;
    var rows := [CsvHeaderFor(d.boxMode)] + AllRows(part.blocks);
    HeaderIsFull(d.boxMode);
    assert rows[0] != [""];
    CsvRoundTripIff(rows);
    assert rows[1..] == AllRows(part.blocks);
  }

  lemma {:induction false} PartsRowsRead(split: seq<PartBlocks>, parts: seq<Part>)
    requires |parts| == |split| && forall k :: 0 <= k < |parts| ==> RowsRead(parts[k]) == AllRows(split[k].blocks)
    ensures AllRowsRead(parts) == AllRows(Joined(split))
  {
    if parts != [] {
      hide RowsRead, AllRows;
      PartsRowsRead(split[1..], parts[1..]);
      RowsConcat(split[0].blocks, Joined(split[1..]));
    } else {
      assert Joined(split) == [];
    }
  }

  /** The columns of the table of a source. */
  function TableHeader(source: Source): seq<string> {
    match source
    case FlatSource(_) => ["code"]
    case BoxSource(_) => ["box_sscc", "code"]
    case PalletSource(_, _) => ["pallet_sscc", "box_sscc", "code"]
  }

  lemma HeaderOfSource(d: Descriptor, source: Source)
    requires Suits(d, source)
    ensures CsvHeaderFor(d.boxMode) == TableHeader(source)
  {
  }

  /** However a CSV export is cut into files, each file reads back as the header and rows, and the rows of all files in
      order are the table of the source: every code once, in order, beside its box and its pallet. */
  lemma CsvFilesReadBack(input: Input)
    requires RenderShiftExport(input).Ok? && FormatOf(input).extension == CsvExtension
    ensures var d, parts := FormatOf(input), RenderShiftExport(input).value;
      && (forall p :: p in parts ==> ReadBytes(p.bytes) == Some([TableHeader(input.source)] + RowsRead(p)))
      && AllRowsRead(parts) == SourceRows(d, input.source)
  {
    hide RenderShiftExport, FindFormat, CreateBlocks, FORMATS, RenderParts, RenderPart, Split, Joined, Breaks,
         OneLineTexts, CountsItsContent, ReadBytes, SumCodes, SumBoxes, SumPallets, AllRows, SourceRows, AllRowsRead,
         RowsRead, CsvHeaderFor, TableHeader, FullRows;
    var d, blocks, split, parts := ExportPieces(input);
    SplitNotEmpty(d, blocks, input.maxLines, split, input, parts);
    BlocksHoldRows(d, input.source);
    SourceRowsFull(d, input.source);
    HeaderOfSource(d, input.source);
    forall k | 0 <= k < |parts|
      ensures RowsRead(parts[k]) == AllRows(split[k].blocks)
      ensures ReadBytes(parts[k].bytes) == Some([CsvHeaderFor(d.boxMode)] + RowsRead(parts[k]))
    {
      ExportPartFacts(input, d, blocks, split, parts, k);
      PieceFull(split, k);
      PartRowsRead(d, input, split[k], k + 1, |split| > 1);
    }
    PartsRowsRead(split, parts);
  }

  /** With a limit set, every file stays within it: CSV and XML whatever the codes hold, TXT when they are single
      lines. */
  lemma FilesStayWithinLimit(input: Input, k: nat)
    requires RenderShiftExport(input).Ok? && k < |RenderShiftExport(input).value| && input.maxLines.Some?
    requires FormatOf(input).extension == Txt ==> TxtSafe(FormatOf(input), input.source)
    ensures var p := RenderShiftExport(input).value[k];
      Breaks(p.bytes) == p.physicalLineCount <= input.maxLines.value
  {
    hide RenderShiftExport, Breaks, FindFormat, TxtSafe;
    var d, blocks, split, parts := ExportPieces(input);
    ExportPartFacts(input, d, blocks, split, parts, k);
    if d.extension == Txt {
      TxtLinesExactIff(input);
      assert LinesAreExact(parts[k]);
    }
  }
}
