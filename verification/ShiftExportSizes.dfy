/** The formats of a shift export and the lines of its indivisible pieces, said of its input alone. */
module ShiftExportSizes {
  import opened Wrappers
  import opened TextEncoding
  import opened Csv
  import opened Gismt
  import opened GismtReader
  import opened ShiftBlocks
  import opened BlockSplit
  import opened ShiftExports
  import opened ShiftExportReadBack

  // The formats.

  /** Every format has a first version; the two boxes formats have a second one. */
  predicate IsKnown(id: FormatId, version: int) {
    version == 1 || (version == 2 && id in {TxtBoxes, CsvBoxes})
  }

  function ExtensionOf(id: FormatId): Extension {
    match id
    case TxtFlat | TxtBoxes | TxtBoxesReversed | TxtPallets | TxtPalletBoxes => Txt
    case CsvFlat | CsvBoxes | CsvPallets => CsvExtension
    case XmlBoxes | XmlPallets | XmlPalletBoxes => Xml
  }

  function ModeOf(id: FormatId): BoxMode {
    match id
    case TxtFlat | CsvFlat => Flat
    case TxtBoxes | TxtBoxesReversed | CsvBoxes | XmlBoxes => Boxes
    case TxtPallets | CsvPallets | XmlPallets => Pallets
    case TxtPalletBoxes | XmlPalletBoxes => PalletBoxes
  }

  lemma {:induction false} FindsIt(formats: seq<Descriptor>, d: Descriptor)
    requires d in formats
    ensures FindFormat(formats, d.id, d.version).Some?
  {
    if formats[0] == d {
    } else {
      FindsIt(formats[1..], d);
    }
  }

  lemma KnownIsListed(id: FormatId, version: int)
    requires IsKnown(id, version)
    ensures Descriptor(id, version, ExtensionOf(id), ModeOf(id)) in FORMATS
  {
    var d := Descriptor(id, version, ExtensionOf(id), ModeOf(id));
    match id
    case TxtFlat => assert FORMATS[0] == d;
    case TxtBoxes => assert FORMATS[if version == 2 then 1 else 11] == d;
    case TxtBoxesReversed => assert FORMATS[2] == d;
    case CsvFlat => assert FORMATS[3] == d;
    case CsvBoxes => assert FORMATS[if version == 2 then 4 else 12] == d;
    case XmlBoxes => assert FORMATS[5] == d;
    case TxtPallets => assert FORMATS[6] == d;
    case CsvPallets => assert FORMATS[7] == d;
    case XmlPallets => assert FORMATS[8] == d;
    case TxtPalletBoxes => assert FORMATS[9] == d;
    case XmlPalletBoxes => assert FORMATS[10] == d;
  }

  lemma ListedIsKnown(d: Descriptor)
    requires d in FORMATS
    ensures IsKnown(d.id, d.version) && d.extension == ExtensionOf(d.id) && d.boxMode == ModeOf(d.id)
  {
  }

  /** Which formats there are, and which of them are the frozen ones. */
  lemma KnownFormats(id: FormatId, version: int)
    ensures FindFormat(FORMATS, id, version)
         == if IsKnown(id, version) then Some(Descriptor(id, version, ExtensionOf(id), ModeOf(id))) else None
    ensures var d := Descriptor(id, version, ExtensionOf(id), ModeOf(id));
      IsLegacy(d) <==> version == 1 && IsKnown(id, 2)
  {
    hide FORMATS, FindFormat;
    var found := FindFormat(FORMATS, id, version);
    if found.Some? {
      ListedIsKnown(found.value);
    }
    if IsKnown(id, version) {
      KnownIsListed(id, version);
      FindsIt(FORMATS, Descriptor(id, version, ExtensionOf(id), ModeOf(id)));
    }
  }

  // The lines of each block.

  /** One line for each code, and one more for each line break in the code or in the columns before it. */
  function RowsSize(columnBreaks: nat, codes: seq<string>): nat {
    if codes == [] then 0 else 1 + columnBreaks + TextBreaks(codes[0]) + RowsSize(columnBreaks, codes[1..])
  }

  function BoxSize(d: Descriptor, box: Box): nat {
    match d.extension
    case Txt => |box.codes| + 2
    case CsvExtension => RowsSize(if IsLegacy(d) then TextBreaks(box.sscc) else 0, box.codes)
    case Xml => |box.codes| + 3
  }

  function BoxesSize(d: Descriptor, boxes: seq<Box>): nat {
    if boxes == [] then 0 else BoxSize(d, boxes[0]) + BoxesSize(d, boxes[1..])
  }

  /** A pallet is never cut: its boxes, and its own line, rows or element. */
  function PalletSize(d: Descriptor, pallet: Pallet): nat {
    if d.boxMode == PalletBoxes then |pallet.boxes| + if d.extension == Xml then 3 else 2
    else
      BoxesSize(d, pallet.boxes)
      + match d.extension case Txt => 1 case CsvExtension => 0 case Xml => |pallet.boxes| + 3
  }

  /** The lines of each indivisible piece of a source: a code, a box, or a pallet with its boxes. */
  function Sizes(d: Descriptor, source: Source): seq<nat> {
    match source
    case FlatSource(codes) =>
      seq(|codes|, k requires 0 <= k < |codes| => if d.extension == CsvExtension then 1 + TextBreaks(codes[k]) else 1)
    case BoxSource(boxes) => seq(|boxes|, k requires 0 <= k < |boxes| => BoxSize(d, boxes[k]))
    case PalletSource(pallets, looseBoxes) =>
      seq(|pallets|, k requires 0 <= k < |pallets| => PalletSize(d, pallets[k]))
      + if d.boxMode == PalletBoxes then []
        else seq(|looseBoxes|, k requires 0 <= k < |looseBoxes| => BoxSize(d, looseBoxes[k]))
  }

  /** The pieces that are pallets come first. */
  predicate Sized(d: Descriptor, source: Source, blocks: seq<Block>) {
    && |blocks| == |Sizes(d, source)|
    && forall k :: 0 <= k < |blocks| ==>
      blocks[k].physicalLineCount == Sizes(d, source)[k] && (blocks[k].isPalletGroup <==> k < |PalletsOf(source)|)
  }

  lemma {:induction false} BoxRowsSize(sscc: string, codes: seq<string>)
    ensures BoxRowsLines(sscc, codes) == RowsSize(TextBreaks(sscc), codes)
  {
    if codes == [] {
    } else {
      BoxRowsSize(sscc, codes[1..]);
    }
  }

  lemma ThreeFields(a: string, b: string, c: string)
    ensures RowBreaks([a, b, c]) == TextBreaks(a) + TextBreaks(b) + TextBreaks(c)
  {
    hide RowBreaks, TextBreaks;
    RowBreaksCons(a, [b, c]);
    RowBreaksCons(b, [c]);
    RowBreaksCons(c, []);
    NoFields();
    assert [a] + [b, c] == [a, b, c] && [b] + [c] == [b, c] && [c] + [] == [c];
  }

  lemma {:induction false} PalletRowsSize(column: string, sscc: string, codes: seq<string>)
    ensures PalletRowsLines([column, sscc], codes) == RowsSize(TextBreaks(column) + TextBreaks(sscc), codes)
  {
    if codes == [] {
    } else {
      hide RowPhysicalLines, TextBreaks;
      ThreeFields(column, sscc, codes[0]);
      RowLinesAreBreaks([column, sscc, codes[0]]);
      assert [column, sscc] + [codes[0]] == [column, sscc, codes[0]];
      PalletRowsSize(column, sscc, codes[1..]);
    }
  }

  lemma ShownHasNoBreaks(sscc: string)
    requires FormatBoxSscc(sscc).Ok?
    ensures TextBreaks(FormatBoxSscc(sscc).value) == 0
  {
    hide TextBreaks;
    SsccClean(sscc);
    NoBreaks(FormatBoxSscc(sscc).value);
  }

  lemma BoxBlockSize(d: Descriptor, box: Box)
    requires BoxBlock(d, box).Ok?
    ensures BoxBlock(d, box).value.physicalLineCount == BoxSize(d, box) && !BoxBlock(d, box).value.isPalletGroup
  {
    hide FormatBoxSscc, TextBreaks, BoxRowsLines, RowsSize;
    if d.extension == CsvExtension {
      if !IsLegacy(d) {
        ShownHasNoBreaks(box.sscc);
      }
      BoxRowsSize(if IsLegacy(d) then box.sscc else FormatBoxSscc(box.sscc).value, box.codes);
    }
  }

  lemma PalletModeBoxSize(d: Descriptor, box: Box, column: string)
    requires PalletModeBoxBlock(d, box, column).Ok? && TextBreaks(column) == 0 && !IsLegacy(d)
    ensures var b := PalletModeBoxBlock(d, box, column).value;
      b.physicalLineCount == BoxSize(d, box) && !b.isPalletGroup
  {
    hide FormatBoxSscc, TextBreaks, PalletRowsLines, RowsSize, IsLegacy;
    if d.extension == CsvExtension {
      ShownHasNoBreaks(box.sscc);
      PalletRowsSize(column, FormatBoxSscc(box.sscc).value, box.codes);
    }
  }

  /** Boxes whose blocks have their sizes. */
  lemma {:induction false} BoxSizesSum(d: Descriptor, boxes: seq<Box>, blocks: seq<Block>)
    requires |blocks| == |boxes|
    requires forall k :: 0 <= k < |boxes| ==> blocks[k].physicalLineCount == BoxSize(d, boxes[k])
    ensures SumLines(blocks) == BoxesSize(d, boxes)
  {
    if boxes == [] {
    } else {
      hide BoxSize;
      BoxSizesSum(d, boxes[1..], blocks[1..]);
    }
  }

  lemma GroupSize(d: Descriptor, pallet: Pallet)
    requires d in FORMATS && d.boxMode == Pallets && PalletGroupBlock(d, pallet).Ok?
    ensures PalletGroupBlock(d, pallet).value.physicalLineCount == PalletSize(d, pallet)
    ensures PalletGroupBlock(d, pallet).value.isPalletGroup
  {
    hide FormatBoxSscc, MapAll, PalletModeBoxBlock, SumLines, SumCodes, AllLines, AllRows, AllXmlBoxes, BoxesSize,
         BoxSize, TextBreaks, BoxSsccs, FORMATS, Ssccs;
    var column := if d.extension == CsvExtension then FormatBoxSscc(pallet.sscc).value else "";
    ColumnHasNoBreaks(d, pallet, column);
    var f := (box: Box) => PalletModeBoxBlock(d, box, column);
    var blocks := MapAll(pallet.boxes, f).value;
    ModeIsNotLegacy(d);
    forall k | 0 <= k < |blocks| ensures blocks[k].physicalLineCount == BoxSize(d, pallet.boxes[k]) {
      assert f(pallet.boxes[k]) == Ok(blocks[k]);
      PalletModeBoxSize(d, pallet.boxes[k], column);
    }
    BoxSizesSum(d, pallet.boxes, blocks);
    SsccsAre(pallet.boxes);
    assert |Ssccs(pallet.boxes)| == |pallet.boxes| by { SsccCount(pallet.boxes); }
  }

  lemma SsccCount(boxes: seq<Box>)
    ensures |Ssccs(boxes)| == |boxes|
  {
  }

  lemma ColumnHasNoBreaks(d: Descriptor, pallet: Pallet, column: string)
    requires d.extension == CsvExtension ==> FormatBoxSscc(pallet.sscc) == Ok(column)
    requires d.extension != CsvExtension ==> column == ""
    ensures TextBreaks(column) == 0
  {
    hide FormatBoxSscc;
    if d.extension == CsvExtension {
      ShownHasNoBreaks(pallet.sscc);
    }
  }

  lemma ModeIsNotLegacy(d: Descriptor)
    requires d in FORMATS && d.boxMode != Boxes
    ensures !IsLegacy(d)
  {
  }

  lemma LayerSize(d: Descriptor, pallet: Pallet)
    requires d.boxMode == PalletBoxes && d.extension != CsvExtension && PalletBoxesBlock(d, pallet).Ok?
    ensures PalletBoxesBlock(d, pallet).value.physicalLineCount == PalletSize(d, pallet)
    ensures PalletBoxesBlock(d, pallet).value.isPalletGroup
  {
    hide FormatBoxSscc, MapAll, BoxSsccs, BoxesCodeCount, Ssccs;
    SsccsAre(pallet.boxes);
    SsccCount(pallet.boxes);
  }

  lemma {:induction false} CodeBlocksSized(d: Descriptor, codes: seq<string>)
    ensures |CodeBlocks(d, codes)| == |codes|
    ensures forall k :: 0 <= k < |codes| ==>
      && CodeBlocks(d, codes)[k].physicalLineCount
           == (if d.extension == CsvExtension then 1 + TextBreaks(codes[k]) else 1)
      && !CodeBlocks(d, codes)[k].isPalletGroup
  {
    if codes == [] {
    } else {
      hide TextBreaks;
      CodeBlocksSized(d, codes[1..]);
    }
  }

  lemma BoxesSized(d: Descriptor, boxes: seq<Box>)
    requires CreateBlocks(d, BoxSource(boxes)).Ok?
    ensures Sized(d, BoxSource(boxes), CreateBlocks(d, BoxSource(boxes)).value)
  {
    hide MapAll, BoxBlock, BoxSize;
    var f := (box: Box) => BoxBlock(d, box);
    assert MapAll(boxes, f).Ok?;
    var blocks := MapAll(boxes, f).value;
    forall k | 0 <= k < |blocks|
      ensures blocks[k].physicalLineCount == BoxSize(d, boxes[k]) && !blocks[k].isPalletGroup
    {
      assert f(boxes[k]) == Ok(blocks[k]);
      BoxBlockSize(d, boxes[k]);
    }
  }

  lemma LayersSized(d: Descriptor, pallets: seq<Pallet>, looseBoxes: seq<Box>)
    requires d in FORMATS && d.boxMode == PalletBoxes && CreateBlocks(d, PalletSource(pallets, looseBoxes)).Ok?
    ensures Sized(d, PalletSource(pallets, looseBoxes), CreateBlocks(d, PalletSource(pallets, looseBoxes)).value)
  {
    hide MapAll, PalletBoxesBlock, PalletSize, FORMATS;
    FormatFacts(d);
    var f := (pallet: Pallet) => PalletBoxesBlock(d, pallet);
    assert MapAll(pallets, f).Ok?;
    var blocks := MapAll(pallets, f).value;
    forall k | 0 <= k < |blocks|
      ensures blocks[k].physicalLineCount == PalletSize(d, pallets[k]) && blocks[k].isPalletGroup
    {
      assert f(pallets[k]) == Ok(blocks[k]);
      LayerSize(d, pallets[k]);
    }
  }

  lemma GroupsSized(d: Descriptor, pallets: seq<Pallet>, looseBoxes: seq<Box>)
    requires d in FORMATS && d.boxMode == Pallets && CreateBlocks(d, PalletSource(pallets, looseBoxes)).Ok?
    ensures Sized(d, PalletSource(pallets, looseBoxes), CreateBlocks(d, PalletSource(pallets, looseBoxes)).value)
  {
    hide MapAll, PalletGroupBlock, PalletModeBoxBlock, PalletSize, BoxSize, TextBreaks, FORMATS;
    ModeIsNotLegacy(d);
    var f := (pallet: Pallet) => PalletGroupBlock(d, pallet);
    var g := (box: Box) => PalletModeBoxBlock(d, box, "");
    var groups, loose := MapAll(pallets, f).value, MapAll(looseBoxes, g).value;
    forall k | 0 <= k < |groups|
      ensures groups[k].physicalLineCount == PalletSize(d, pallets[k]) && groups[k].isPalletGroup
    {
      assert f(pallets[k]) == Ok(groups[k]);
      GroupSize(d, pallets[k]);
    }
    NothingHasNoBreaks();
    forall k | 0 <= k < |loose|
      ensures loose[k].physicalLineCount == BoxSize(d, looseBoxes[k]) && !loose[k].isPalletGroup
    {
      assert g(looseBoxes[k]) == Ok(loose[k]);
      PalletModeBoxSize(d, looseBoxes[k], "");
    }
  }

  lemma NothingHasNoBreaks()
    ensures TextBreaks("") == 0
  {
  }

  /** The indivisible pieces have the lines said of them, and are pallets or not. */
  lemma BlocksAreSized(d: Descriptor, source: Source)
    requires d in FORMATS && Suits(d, source) && CreateBlocks(d, source).Ok?
    ensures Sized(d, source, CreateBlocks(d, source).value)
  {
    hide FORMATS, MapAll, BoxSize, PalletSize, TextBreaks;
    match source
    case FlatSource(codes) => CodeBlocksSized(d, codes);
    case BoxSource(boxes) => BoxesSized(d, boxes);
    case PalletSource(pallets, looseBoxes) =>
      if d.boxMode == PalletBoxes {
        LayersSized(d, pallets, looseBoxes);
      } else {
        GroupsSized(d, pallets, looseBoxes);
      }
  }
}
