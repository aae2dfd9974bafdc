/** The formats of a shift export, and how a source becomes indivisible blocks. */
module ShiftBlocks {
  import opened Wrappers
  import opened TextEncoding
  import opened Csv
  import opened Gismt

  datatype Extension = Txt | CsvExtension | Xml

  datatype BoxMode = Flat | Boxes | Pallets | PalletBoxes

  datatype FormatId =
    | TxtFlat | TxtBoxes | TxtBoxesReversed | CsvFlat | CsvBoxes | XmlBoxes
    | TxtPallets | CsvPallets | XmlPallets | TxtPalletBoxes | XmlPalletBoxes

  datatype Descriptor = Descriptor(id: FormatId, version: int, extension: Extension, boxMode: BoxMode)

  /** The advertised formats, then the two frozen first versions. */
  const FORMATS: seq<Descriptor> := [
    Descriptor(TxtFlat, 1, Txt, Flat),
    Descriptor(TxtBoxes, 2, Txt, Boxes),
    Descriptor(TxtBoxesReversed, 1, Txt, Boxes),
    Descriptor(CsvFlat, 1, CsvExtension, Flat),
    Descriptor(CsvBoxes, 2, CsvExtension, Boxes),
    Descriptor(XmlBoxes, 1, Xml, Boxes),
    Descriptor(TxtPallets, 1, Txt, Pallets),
    Descriptor(CsvPallets, 1, CsvExtension, Pallets),
    Descriptor(XmlPallets, 1, Xml, Pallets),
    Descriptor(TxtPalletBoxes, 1, Txt, PalletBoxes),
    Descriptor(XmlPalletBoxes, 1, Xml, PalletBoxes),
    Descriptor(TxtBoxes, 1, Txt, Boxes),
    Descriptor(CsvBoxes, 1, CsvExtension, Boxes)]

  function FindFormat(formats: seq<Descriptor>, id: FormatId, version: int): (r: Option<Descriptor>)
    ensures r.Some? ==> r.value in formats && r.value.id == id && r.value.version == version
  {
    if formats == [] then None
    else if formats[0].id == id && formats[0].version == version then Some(formats[0])
    else FindFormat(formats[1..], id, version)
  }

  predicate IsLegacy(d: Descriptor) {
    (d.id == TxtBoxes || d.id == CsvBoxes) && d.version == 1
  }

  datatype Pallet = Pallet(sscc: string, boxes: seq<Box>)

  datatype Source =
    | FlatSource(codes: seq<string>)
    | BoxSource(boxes: seq<Box>)
    | PalletSource(pallets: seq<Pallet>, looseBoxes: seq<Box>)

  predicate Suits(d: Descriptor, source: Source) {
    match d.boxMode
    case Flat => source.FlatSource?
    case Boxes => source.BoxSource?
    case _ => source.PalletSource?
  }

  datatype ExportError =
    | FormatNotFound
    | FormatSourceMismatch
    | InvalidShiftDate
    | InvalidLineLimit
    | OrgNameMissing
    | DocumentMetadataMissing
    | InvalidBoxSscc
    | EmptySource
    | BoxExceedsLineLimit
    | PalletExceedsLineLimit
    | Aggregation(e: AggError)

  /** Fields that the source leaves undefined are empty here. */
  datatype Block = Block(
    lines: seq<string>,
    csvRows: seq<seq<string>>,
    xmlBoxes: seq<Box>,
    xmlPallets: seq<XmlPallet>,
    isPalletGroup: bool,
    physicalLineCount: nat,
    codeCount: nat,
    boxCount: nat,
    palletCount: nat)

  function FormatBoxSscc(sscc: string): Result<string, ExportError> {
    match FormatSscc(sscc) case Ok(s) => Ok(s) case Err(_) => Err(InvalidBoxSscc)
  }

  function CodeBlock(d: Descriptor, code: string): Block {
    if d.extension == CsvExtension
    then Block([], [[code]], [], [], false, FieldLines(code), 1, 0, 0)
    else Block([code], [], [], [], false, 1, 1, 0, 0)
  }

  function CodeBlocks(d: Descriptor, codes: seq<string>): seq<Block> {
    if codes == [] then [] else [CodeBlock(d, codes[0])] + CodeBlocks(d, codes[1..])
  }

  /** The rows of a box: its columns before each of its codes. */
  function BoxRows(columns: seq<string>, codes: seq<string>): seq<seq<string>> {
    if codes == [] then [] else [columns + [codes[0]]] + BoxRows(columns, codes[1..])
  }

  /** The two-column formula of the boxes mode. */
  function BoxRowsLines(sscc: string, codes: seq<string>): nat {
    if codes == [] then 0 else FieldLines(sscc) + FieldLines(codes[0]) - 1 + BoxRowsLines(sscc, codes[1..])
  }

  function PalletRowsLines(columns: seq<string>, codes: seq<string>): nat {
    if codes == [] then 0 else RowPhysicalLines(columns + [codes[0]]) + PalletRowsLines(columns, codes[1..])
  }

  function XmlBoxBlock(box: Box): Block {
    Block([], [], [box], [], false, BoxLineCount(box), |box.codes|, 1, 0)
  }

  function LinesBlock(lines: seq<string>, codes: seq<string>): Block {
    Block(lines, [], [], [], false, |lines|, |codes|, 1, 0)
  }

  function BoxBlock(d: Descriptor, box: Box): Result<Block, ExportError> {
    if d.extension == Xml then Ok(XmlBoxBlock(box))
    else
      match if IsLegacy(d) then Ok(box.sscc) else FormatBoxSscc(box.sscc)
      case Err(e) => Err(e)
      case Ok(sscc) =>
        if d.extension == Txt then
          Ok(LinesBlock(if d.id == TxtBoxesReversed then box.codes + [sscc, ""] else [sscc] + box.codes + [""],
                        box.codes))
        else
          Ok(Block([], BoxRows([sscc], box.codes), [], [], false, BoxRowsLines(sscc, box.codes), |box.codes|, 1, 0))
  }

  function PalletModeBoxBlock(d: Descriptor, box: Box, palletColumn: string): Result<Block, ExportError> {
    if d.extension == Xml then Ok(XmlBoxBlock(box))
    else
      match FormatBoxSscc(box.sscc)
      case Err(e) => Err(e)
      case Ok(sscc) =>
        if d.extension == Txt then Ok(LinesBlock([sscc] + box.codes + [""], box.codes))
        else
          var columns := [palletColumn, sscc];
          Ok(Block([], BoxRows(columns, box.codes), [], [], false, PalletRowsLines(columns, box.codes),
                   |box.codes|, 1, 0))
  }

  function BoxSsccs(boxes: seq<Box>): seq<string> {
    if boxes == [] then [] else [boxes[0].sscc] + BoxSsccs(boxes[1..])
  }

  function PalletXml(pallet: Pallet): XmlPallet { XmlPallet(pallet.sscc, BoxSsccs(pallet.boxes)) }

  /** Only the SSCCs of a pallet and of its boxes. */
  function PalletBoxesBlock(d: Descriptor, pallet: Pallet): Result<Block, ExportError> {
    var codeCount, boxCount := BoxesCodeCount(pallet.boxes), |pallet.boxes|;
    if d.extension == Xml then
      Ok(Block([], [], [], [PalletXml(pallet)], true, PalletLineCount(PalletXml(pallet)), codeCount, boxCount, 1))
    else
      match FormatBoxSscc(pallet.sscc)
      case Err(e) => Err(e)
      case Ok(sscc) =>
        match MapAll(BoxSsccs(pallet.boxes), FormatBoxSscc)
        case Err(e) => Err(e)
        case Ok(boxSsccs) =>
          var lines := [sscc] + boxSsccs + [""];
          Ok(Block(lines, [], [], [], true, |lines|, codeCount, boxCount, 1))
  }

  // What the blocks of a group add up to.

  function AllLines(blocks: seq<Block>): seq<string> {
    if blocks == [] then [] else blocks[0].lines + AllLines(blocks[1..])
  }

  function AllRows(blocks: seq<Block>): seq<seq<string>> {
    if blocks == [] then [] else blocks[0].csvRows + AllRows(blocks[1..])
  }

  function AllXmlBoxes(blocks: seq<Block>): seq<Box> {
    if blocks == [] then [] else blocks[0].xmlBoxes + AllXmlBoxes(blocks[1..])
  }

  function AllXmlPallets(blocks: seq<Block>): seq<XmlPallet> {
    if blocks == [] then [] else blocks[0].xmlPallets + AllXmlPallets(blocks[1..])
  }

  function SumLines(blocks: seq<Block>): nat {
    if blocks == [] then 0 else blocks[0].physicalLineCount + SumLines(blocks[1..])
  }

  function SumCodes(blocks: seq<Block>): nat {
    if blocks == [] then 0 else blocks[0].codeCount + SumCodes(blocks[1..])
  }

  function SumBoxes(blocks: seq<Block>): nat {
    if blocks == [] then 0 else blocks[0].boxCount + SumBoxes(blocks[1..])
  }

  function SumPallets(blocks: seq<Block>): nat {
    if blocks == [] then 0 else blocks[0].palletCount + SumPallets(blocks[1..])
  }

  /** A pallet and all its boxes as one block. */
  function PalletGroupBlock(d: Descriptor, pallet: Pallet): Result<Block, ExportError> {
    match if d.extension == CsvExtension then FormatBoxSscc(pallet.sscc) else Ok("")
    case Err(e) => Err(e)
    case Ok(palletColumn) =>
      match MapAll(pallet.boxes, (box: Box) => PalletModeBoxBlock(d, box, palletColumn))
      case Err(e) => Err(e)
      case Ok(boxBlocks) =>
        var codeCount, boxCount := SumCodes(boxBlocks), |boxBlocks|;
        if d.extension == Xml then
          Ok(Block([], [], AllXmlBoxes(boxBlocks), [PalletXml(pallet)], true,
                   SumLines(boxBlocks) + PalletLineCount(PalletXml(pallet)), codeCount, boxCount, 1))
        else if d.extension == Txt then
          match FormatBoxSscc(pallet.sscc)
          case Err(e) => Err(e)
          case Ok(sscc) =>
            Ok(Block([sscc] + AllLines(boxBlocks), [], [], [], true, 1 + SumLines(boxBlocks), codeCount, boxCount, 1))
        else
          Ok(Block([], AllRows(boxBlocks), [], [], true, SumLines(boxBlocks), codeCount, boxCount, 1))
  }

  function CreateBlocks(d: Descriptor, source: Source): Result<seq<Block>, ExportError> {
    match source
    case FlatSource(codes) => Ok(CodeBlocks(d, codes))
    case BoxSource(boxes) => MapAll(boxes, (box: Box) => BoxBlock(d, box))
    case PalletSource(pallets, looseBoxes) =>
      if d.boxMode == PalletBoxes then MapAll(pallets, (pallet: Pallet) => PalletBoxesBlock(d, pallet))
      else
        match MapAll(pallets, (pallet: Pallet) => PalletGroupBlock(d, pallet))
        case Err(e) => Err(e)
        case Ok(groups) =>
          match MapAll(looseBoxes, (box: Box) => PalletModeBoxBlock(d, box, ""))
          case Err(e) => Err(e)
          case Ok(loose) => Ok(groups + loose)
  }

  // What the counters of a block count.

  /** The counters of a block describe what the block writes; the pallet layer covers codes it does not write. */
  predicate CountsItsContent(d: Descriptor, b: Block) {
    match d.extension
    case Txt => b.physicalLineCount == |b.lines|
    case CsvExtension => b.physicalLineCount == TableBreaks(b.csvRows)
    case Xml =>
      && b.physicalLineCount == BoxesLineCount(b.xmlBoxes) + PalletsLineCount(b.xmlPallets)
      && (d.boxMode != PalletBoxes ==> b.codeCount == BoxesCodeCount(b.xmlBoxes) && b.boxCount == |b.xmlBoxes|)
  }

  predicate AllCount(d: Descriptor, blocks: seq<Block>) {
    forall k :: 0 <= k < |blocks| ==> CountsItsContent(d, blocks[k])
  }

  lemma {:induction false} BoxRowsCount(sscc: string, codes: seq<string>)
    ensures BoxRowsLines(sscc, codes) == TableBreaks(BoxRows([sscc], codes))
  {
    if codes == [] {
    } else {
      BoxRowsCount(sscc, codes[1..]);
      var row := [sscc] + [codes[0]];
      assert BoxRows([sscc], codes)[1..] == BoxRows([sscc], codes[1..]);
      assert row[1..] == [codes[0]] && row[1..][1..] == [];
      assert RowBreaks([codes[0]]) == TextBreaks(codes[0]) + RowBreaks([]);
      assert RowBreaks(row) == TextBreaks(sscc) + TextBreaks(codes[0]);
    }
  }

  lemma {:induction false} PalletRowsCount(columns: seq<string>, codes: seq<string>)
    ensures PalletRowsLines(columns, codes) == TableBreaks(BoxRows(columns, codes))
  {
    if codes == [] {
    } else {
      PalletRowsCount(columns, codes[1..]);
      assert BoxRows(columns, codes)[1..] == BoxRows(columns, codes[1..]);
      RowLinesAreBreaks(columns + [codes[0]]);
    }
  }

  lemma SingleRow(code: string)
    ensures TableBreaks([[code]]) == FieldLines(code)
  {
    assert [[code]][1..] == [];
    assert [code][1..] == [];
    assert RowBreaks([code]) == TextBreaks(code) + RowBreaks([]);
  }

  lemma SingleBox(box: Box)
    ensures BoxesLineCount([box]) == BoxLineCount(box) && BoxesCodeCount([box]) == |box.codes|
  {
    assert [box][1..] == [];
  }

  lemma SinglePallet(p: XmlPallet)
    ensures PalletsLineCount([p]) == PalletLineCount(p)
  {
    assert [p][1..] == [];
  }

  lemma {:induction false} CodeBlocksCount(d: Descriptor, codes: seq<string>)
    requires d.extension != Xml
    ensures AllCount(d, CodeBlocks(d, codes)) && SumCodes(CodeBlocks(d, codes)) == |codes|
    ensures SumBoxes(CodeBlocks(d, codes)) == SumPallets(CodeBlocks(d, codes)) == 0
  {
    if codes == [] {
    } else {
      SingleRow(codes[0]);
      CodeBlocksCount(d, codes[1..]);
      assert CodeBlocks(d, codes)[1..] == CodeBlocks(d, codes[1..]);
    }
  }

  lemma BoxBlockCounts(d: Descriptor, box: Box)
    requires BoxBlock(d, box).Ok?
    ensures var b := BoxBlock(d, box).value;
      CountsItsContent(d, b) && b.codeCount == |box.codes| && b.boxCount == 1 && b.palletCount == 0
  {
    SingleBox(box);
    if d.extension == CsvExtension {
      BoxRowsCount(if IsLegacy(d) then box.sscc else FormatBoxSscc(box.sscc).value, box.codes);
    }
  }

  lemma PalletModeBoxCounts(d: Descriptor, box: Box, palletColumn: string)
    requires PalletModeBoxBlock(d, box, palletColumn).Ok?
    ensures var b := PalletModeBoxBlock(d, box, palletColumn).value;
      && CountsItsContent(d, b) && b.codeCount == |box.codes| && b.boxCount == 1 && b.palletCount == 0
      && (d.extension == Xml ==> b.xmlBoxes == [box] && b.xmlPallets == [])
  {
    SingleBox(box);
    if d.extension == CsvExtension {
      PalletRowsCount([palletColumn, FormatBoxSscc(box.sscc).value], box.codes);
    }
  }

  lemma {:induction false} TableBreaksConcat(a: seq<seq<string>>, b: seq<seq<string>>)
    ensures TableBreaks(a + b) == TableBreaks(a) + TableBreaks(b)
  {
    if a == [] {
      assert a + b == b;
    } else {
      assert (a + b)[1..] == a[1..] + b;
      TableBreaksConcat(a[1..], b);
    }
  }

  lemma {:induction false} BoxesConcat(a: seq<Box>, b: seq<Box>)
    ensures BoxesLineCount(a + b) == BoxesLineCount(a) + BoxesLineCount(b)
    ensures BoxesCodeCount(a + b) == BoxesCodeCount(a) + BoxesCodeCount(b)
  {
    if a == [] {
      assert a + b == b;
    } else {
      assert (a + b)[1..] == a[1..] + b;
      BoxesConcat(a[1..], b);
    }
  }

  lemma {:induction false} PalletsConcat(a: seq<XmlPallet>, b: seq<XmlPallet>)
    ensures PalletsLineCount(a + b) == PalletsLineCount(a) + PalletsLineCount(b)
  {
    if a == [] {
      assert a + b == b;
    } else {
      assert (a + b)[1..] == a[1..] + b;
      PalletsConcat(a[1..], b);
    }
  }

  /** Blocks that count their own content count that of their sequence. */
  lemma {:induction false} SumsCount(d: Descriptor, blocks: seq<Block>)
    requires AllCount(d, blocks)
    ensures d.extension == Txt ==> SumLines(blocks) == |AllLines(blocks)|
    ensures d.extension == CsvExtension ==> SumLines(blocks) == TableBreaks(AllRows(blocks))
    ensures d.extension == Xml ==>
      SumLines(blocks) == BoxesLineCount(AllXmlBoxes(blocks)) + PalletsLineCount(AllXmlPallets(blocks))
    ensures d.extension == Xml && d.boxMode != PalletBoxes ==>
      SumCodes(blocks) == BoxesCodeCount(AllXmlBoxes(blocks)) && SumBoxes(blocks) == |AllXmlBoxes(blocks)|
  {
    if blocks == [] {
    } else {
      var rest := blocks[1..];
      assert CountsItsContent(d, blocks[0]);
      assert AllCount(d, rest) by {
        forall k | 0 <= k < |rest| ensures CountsItsContent(d, rest[k]) { assert rest[k] == blocks[k + 1]; }
      }
      SumsCount(d, rest);
      TableBreaksConcat(blocks[0].csvRows, AllRows(rest));
      BoxesConcat(blocks[0].xmlBoxes, AllXmlBoxes(rest));
      PalletsConcat(blocks[0].xmlPallets, AllXmlPallets(rest));
    }
  }

  /** The sums over the boxes' blocks of a pallet. */
  lemma {:induction false} BoxBlocksSum(boxes: seq<Box>, blocks: seq<Block>)
    requires |blocks| == |boxes|
    requires forall k :: 0 <= k < |boxes| ==>
      blocks[k].codeCount == |boxes[k].codes| && blocks[k].boxCount == 1 && blocks[k].palletCount == 0
    ensures SumCodes(blocks) == BoxesCodeCount(boxes) && SumBoxes(blocks) == |boxes| && SumPallets(blocks) == 0
  {
    if boxes == [] {
    } else {
      BoxBlocksSum(boxes[1..], blocks[1..]);
    }
  }

  lemma {:induction false} XmlBoxesOfBlocks(boxes: seq<Box>, blocks: seq<Block>)
    requires |blocks| == |boxes|
    requires forall k :: 0 <= k < |boxes| ==> blocks[k].xmlBoxes == [boxes[k]] && blocks[k].xmlPallets == []
    ensures AllXmlBoxes(blocks) == boxes && AllXmlPallets(blocks) == []
  {
    if boxes == [] {
    } else {
      XmlBoxesOfBlocks(boxes[1..], blocks[1..]);
      assert boxes == [boxes[0]] + boxes[1..];
    }
  }

  lemma PalletGroupCounts(d: Descriptor, pallet: Pallet)
    requires PalletGroupBlock(d, pallet).Ok? && d.boxMode != PalletBoxes
    ensures var b := PalletGroupBlock(d, pallet).value;
      && CountsItsContent(d, b)
      && b.codeCount == BoxesCodeCount(pallet.boxes) && b.boxCount == |pallet.boxes| && b.palletCount == 1
      && (d.extension == Xml ==> b.xmlBoxes == pallet.boxes && b.xmlPallets == [PalletXml(pallet)])
  {
    hide CountsItsContent, MapAll;
    var column := if d.extension == CsvExtension then FormatBoxSscc(pallet.sscc).value else "";
    var f := (box: Box) => PalletModeBoxBlock(d, box, column);
    var blocks := MapAll(pallet.boxes, f).value;
    forall k | 0 <= k < |blocks|
      ensures CountsItsContent(d, blocks[k]) && blocks[k].codeCount == |pallet.boxes[k].codes|
      ensures blocks[k].boxCount == 1 && blocks[k].palletCount == 0
      ensures d.extension == Xml ==> blocks[k].xmlBoxes == [pallet.boxes[k]] && blocks[k].xmlPallets == []
    {
      assert f(pallet.boxes[k]) == Ok(blocks[k]);
      PalletModeBoxCounts(d, pallet.boxes[k], column);
    }
    BoxBlocksSum(pallet.boxes, blocks);
    GroupCounts(d, pallet, blocks);
  }

  lemma GroupCounts(d: Descriptor, pallet: Pallet, blocks: seq<Block>)
    requires PalletGroupBlock(d, pallet).Ok? && d.boxMode != PalletBoxes && AllCount(d, blocks)
    requires var column := if d.extension == CsvExtension then FormatBoxSscc(pallet.sscc) else Ok("");
      column.Ok? && MapAll(pallet.boxes, (box: Box) => PalletModeBoxBlock(d, box, column.value)) == Ok(blocks)
    requires d.extension == Xml ==>
      forall k :: 0 <= k < |blocks| ==> blocks[k].xmlBoxes == [pallet.boxes[k]] && blocks[k].xmlPallets == []
    requires SumBoxes(blocks) == |pallet.boxes|
    ensures CountsItsContent(d, PalletGroupBlock(d, pallet).value)
    ensures d.extension == Xml ==> PalletGroupBlock(d, pallet).value.xmlBoxes == pallet.boxes
  {
    hide MapAll;
    SumsCount(d, blocks);
    SinglePallet(PalletXml(pallet));
    if d.extension == Xml {
      XmlBoxesOfBlocks(pallet.boxes, blocks);
    }
  }

  lemma PalletBoxesCounts(d: Descriptor, pallet: Pallet)
    requires PalletBoxesBlock(d, pallet).Ok? && d.boxMode == PalletBoxes && d.extension != CsvExtension
    ensures var b := PalletBoxesBlock(d, pallet).value;
      CountsItsContent(d, b)
      && b.codeCount == BoxesCodeCount(pallet.boxes) && b.boxCount == |pallet.boxes| && b.palletCount == 1
  {
    SinglePallet(PalletXml(pallet));
  }
}
