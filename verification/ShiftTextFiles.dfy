/** The text of a TXT export, for every format: all its files together, line by line from the source. */
module ShiftTextFiles {
  import opened Wrappers
  import opened Utf8
  import opened TextEncoding
  import opened Gismt
  import opened ShiftBlocks
  import opened BlockSplit
  import opened ShiftExports
  import opened ShiftExportLaws
  import opened ShiftExportReadBack
  import opened ShiftTextReadBack

  /** Each line followed by LF. */
  function Lined(lines: seq<string>): string {
    if lines == [] then "" else lines[0] + "\n" + Lined(lines[1..])
  }

  lemma {:induction false} LfTextIsLined(lines: seq<string>)
    ensures LfText(lines) == Lined(lines)
  {
    if lines == [] {
    } else {
      LfTextCons(lines);
      LfTextIsLined(lines[1..]);
    }
  }

  lemma {:induction false} LinedConcat(a: seq<string>, b: seq<string>)
    ensures Lined(a + b) == Lined(a) + Lined(b)
  {
    if a == [] {
      assert a + b == b;
    } else {
      assert (a + b)[1..] == a[1..] + b;
      LinedConcat(a[1..], b);
    }
  }

  // The lines of a source.

  function RecordsLines(records: seq<Box>, reversed: bool): seq<string> {
    if records == [] then [] else RecordLines(records[0], reversed) + RecordsLines(records[1..], reversed)
  }

  /** Each pallet's SSCC before the records of its boxes. */
  function PalletsLines(pallets: seq<Pallet>): seq<string> {
    if pallets == [] then []
    else [Shown(pallets[0].sscc)] + RecordsLines(BoxRecords(false, pallets[0].boxes), false)
         + PalletsLines(pallets[1..])
  }

  /** Codes one by one; boxes as records, in the order of the format; or pallets with their boxes and then the loose
      boxes. The pallet layer is one record for each pallet, of the SSCCs of its boxes. */
  function TextLines(d: Descriptor, source: Source): seq<string> {
    match source
    case FlatSource(codes) => codes
    case BoxSource(boxes) => RecordsLines(BoxRecords(IsLegacy(d), boxes), Reversed(d))
    case PalletSource(pallets, looseBoxes) =>
      if d.boxMode == PalletBoxes then RecordsLines(LayerRecords(pallets), false)
      else PalletsLines(pallets) + RecordsLines(BoxRecords(false, looseBoxes), false)
  }

  lemma {:induction false} LinesOfRecords(records: seq<Box>, reversed: bool, blocks: seq<Block>)
    requires |blocks| == |records|
    requires forall k :: 0 <= k < |records| ==> blocks[k].lines == RecordLines(records[k], reversed)
    ensures AllLines(blocks) == RecordsLines(records, reversed)
  {
    if records == [] {
    } else {
      hide RecordLines;
      LinesOfRecords(records[1..], reversed, blocks[1..]);
    }
  }

  lemma {:induction false} LinesOfPallets(pallets: seq<Pallet>, blocks: seq<Block>)
    requires |blocks| == |pallets|
    requires forall k :: 0 <= k < |pallets| ==>
      blocks[k].lines == [Shown(pallets[k].sscc)] + RecordsLines(BoxRecords(false, pallets[k].boxes), false)
    ensures AllLines(blocks) == PalletsLines(pallets)
  {
    if pallets == [] {
    } else {
      hide RecordsLines, BoxRecords, Shown;
      LinesOfPallets(pallets[1..], blocks[1..]);
    }
  }

  lemma PalletModeLines(d: Descriptor, box: Box)
    requires d.extension == Txt && PalletModeBoxBlock(d, box, "").Ok?
    ensures PalletModeBoxBlock(d, box, "").value.lines == RecordLines(Box(Shown(box.sscc), box.codes), false)
  {
    hide FormatBoxSscc, Shown;
    ShownIs(box.sscc);
  }

  /** The lines of boxes in the pallets mode. */
  lemma BoxesLines(d: Descriptor, boxes: seq<Box>, blocks: seq<Block>)
    requires d.extension == Txt && MapAll(boxes, (box: Box) => PalletModeBoxBlock(d, box, "")) == Ok(blocks)
    ensures AllLines(blocks) == RecordsLines(BoxRecords(false, boxes), false)
  {
    hide MapAll, PalletModeBoxBlock, RecordLines, RecordsLines, AllLines, Shown;
    var f := (box: Box) => PalletModeBoxBlock(d, box, "");
    var records := BoxRecords(false, boxes);
    forall k | 0 <= k < |records| ensures blocks[k].lines == RecordLines(records[k], false) {
      assert f(boxes[k]) == Ok(blocks[k]);
      PalletModeLines(d, boxes[k]);
    }
    LinesOfRecords(records, false, blocks);
  }

  lemma GroupLines(d: Descriptor, pallet: Pallet)
    requires d.extension == Txt && PalletGroupBlock(d, pallet).Ok?
    ensures PalletGroupBlock(d, pallet).value.lines
         == [Shown(pallet.sscc)] + RecordsLines(BoxRecords(false, pallet.boxes), false)
  {
    hide FormatBoxSscc, MapAll, PalletModeBoxBlock, RecordsLines, BoxRecords, AllLines, SumCodes, SumLines, Shown;
    var f := (box: Box) => PalletModeBoxBlock(d, box, "");
    assert MapAll(pallet.boxes, f).Ok?;
    BoxesLines(d, pallet.boxes, MapAll(pallet.boxes, f).value);
    ShownIs(pallet.sscc);
  }

  lemma PalletBlocksHoldLines(d: Descriptor, pallets: seq<Pallet>, looseBoxes: seq<Box>)
    requires d.extension == Txt && d.boxMode == Pallets
    requires CreateBlocks(d, PalletSource(pallets, looseBoxes)).Ok?
    ensures AllLines(CreateBlocks(d, PalletSource(pallets, looseBoxes)).value)
         == PalletsLines(pallets) + RecordsLines(BoxRecords(false, looseBoxes), false)
  {
    hide MapAll, PalletGroupBlock, PalletModeBoxBlock, AllLines, RecordsLines, BoxRecords, PalletsLines, Shown;
    var f := (pallet: Pallet) => PalletGroupBlock(d, pallet);
    var g := (box: Box) => PalletModeBoxBlock(d, box, "");
    var groups, loose := MapAll(pallets, f).value, MapAll(looseBoxes, g).value;
    forall k | 0 <= k < |groups|
      ensures groups[k].lines == [Shown(pallets[k].sscc)] + RecordsLines(BoxRecords(false, pallets[k].boxes), false)
    {
      assert f(pallets[k]) == Ok(groups[k]);
      GroupLines(d, pallets[k]);
    }
    LinesOfPallets(pallets, groups);
    BoxesLines(d, looseBoxes, loose);
    LinesConcat(groups, loose);
  }

  lemma BlocksHoldLines(d: Descriptor, source: Source)
    requires d in FORMATS && d.extension == Txt && Suits(d, source) && CreateBlocks(d, source).Ok?
    ensures AllLines(CreateBlocks(d, source).value) == TextLines(d, source)
  {
    hide CreateBlocks, FORMATS, AllLines, RecordsLines, RecordLines, BoxRecords, LayerRecords, PalletsLines, IsLegacy,
         Reversed, RecordsSafe, Readable, SafeRecord;
    match source
    case FlatSource(codes) => FlatBlocks(d, source);
    case BoxSource(boxes) =>
      RecordBlocks(d, source);
      LinesOfRecords(SourceRecords(d, source), Reversed(d), CreateBlocks(d, source).value);
    case PalletSource(pallets, looseBoxes) =>
      if d.boxMode == PalletBoxes {
        RecordBlocks(d, source);
        LayerOrder(d);
        LinesOfRecords(SourceRecords(d, source), Reversed(d), CreateBlocks(d, source).value);
      } else {
        PalletBlocksHoldLines(d, pallets, looseBoxes);
      }
  }

  /** The bytes of all files, one after the other. */
  function AllBytes(parts: seq<Part>): seq<Byte> {
    if parts == [] then [] else parts[0].bytes + AllBytes(parts[1..])
  }

  lemma {:induction false} BytesOfParts(parts: seq<Part>, split: seq<PartBlocks>)
    requires FilesOf(parts, split)
    ensures AllBytes(parts) == Encode(Lined(AllLines(Joined(split))))
  {
    if parts == [] {
      assert Joined(split) == [];
    } else {
      hide AllLines, Encode, LfText, EncodeLfText, Lined, Joined, FilesOf;
      FilesTail(parts, split);
      JoinedCons(split);
      var mine, rest := AllLines(split[0].blocks), AllLines(Joined(split[1..]));
      BytesOfParts(parts[1..], split[1..]);
      LinesConcat(split[0].blocks, Joined(split[1..]));
      EmptyText(mine);
      LfTextIsLined(mine);
      LinedConcat(mine, rest);
      EncodeConcat(Lined(mine), Lined(rest));
    }
  }

  /** However a TXT export is cut into files, their bytes one after the other are the lines of the source, each ended by
      LF: whatever the texts hold, and for pallets too. */
  lemma TxtFilesSpellSource(input: Input)
    requires RenderShiftExport(input).Ok? && FormatOf(input).extension == Txt
    ensures AllBytes(RenderShiftExport(input).value) == Encode(Lined(TextLines(FormatOf(input), input.source)))
  {
    hide RenderShiftExport, FindFormat, CreateBlocks, FORMATS, RenderParts, RenderPart, Split, Joined, Breaks,
         OneLineTexts, CountsItsContent, SumCodes, SumBoxes, SumPallets, AllLines, AllBytes, TextLines, Lined, Encode;
    var d, blocks, split, parts := ExportPieces(input);
    SplitNotEmpty(d, blocks, input.maxLines, split, input, parts);
    forall k | 0 <= k < |parts| ensures parts[k].bytes == EncodeLfText(AllLines(split[k].blocks)) {
      ExportPartFacts(input, d, blocks, split, parts, k);
      PartBytes(d, input, split[k], k + 1, |split| > 1);
    }
    BytesOfParts(parts, split);
    BlocksHoldLines(d, input.source);
  }

  lemma {:induction false} RecordsLinesConcat(a: seq<Box>, b: seq<Box>)
    ensures RecordsLines(BoxRecords(false, a + b), false)
         == RecordsLines(BoxRecords(false, a), false) + RecordsLines(BoxRecords(false, b), false)
  {
    if a == [] {
      assert a + b == b;
    } else {
      hide RecordLines, Shown;
      assert (a + b)[1..] == a[1..] + b && (a + b)[0] == a[0];
      RecordsLinesConcat(a[1..], b);
      assert BoxRecords(false, a)[1..] == BoxRecords(false, a[1..]);
      assert BoxRecords(false, a + b)[1..] == BoxRecords(false, a[1..] + b);
    }
  }

  lemma {:induction false} PalletsLinesSnoc(pallets: seq<Pallet>, p: Pallet)
    ensures PalletsLines(pallets + [p])
         == PalletsLines(pallets) + [Shown(p.sscc)] + RecordsLines(BoxRecords(false, p.boxes), false)
  {
    hide RecordsLines, BoxRecords, Shown;
    if pallets == [] {
      assert [] + [p] == [p] && [p][1..] == [];
    } else {
      assert (pallets + [p])[1..] == pallets[1..] + [p];
      PalletsLinesSnoc(pallets[1..], p);
    }
  }

  /** A pallets TXT file does not tell loose boxes from boxes of the last pallet: both sources have one text. */
  lemma LooseBoxesLookLikeMembers(d: Descriptor, pallets: seq<Pallet>, sscc: string, boxes: seq<Box>, loose: seq<Box>)
    requires d.boxMode == Pallets
    ensures TextLines(d, PalletSource(pallets + [Pallet(sscc, boxes)], loose))
         == TextLines(d, PalletSource(pallets + [Pallet(sscc, boxes + loose)], []))
  {
    hide RecordsLines, BoxRecords, Shown, PalletsLines;
    PalletsLinesSnoc(pallets, Pallet(sscc, boxes));
    PalletsLinesSnoc(pallets, Pallet(sscc, boxes + loose));
    RecordsLinesConcat(boxes, loose);
    NoRecordsLines();
  }

  lemma NoRecordsLines()
    ensures RecordsLines(BoxRecords(false, []), false) == []
  {
  }
}
