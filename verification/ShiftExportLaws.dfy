/** Laws of whole shift exports: line breaks of text files, conserved counters, boxes before their pallets. */
module ShiftExportLaws {
  import opened Wrappers
  import opened CivilText
  import opened Utf8
  import opened TextEncoding
  import opened Gismt
  import opened GismtReader
  import opened ShiftBlocks
  import opened BlockSplit
  import opened ShiftExports

  // Text files.

  lemma {:induction false} CodeBlocksSafe(d: Descriptor, codes: seq<string>)
    requires d.extension == Txt
    ensures SafeBlocks(CodeBlocks(d, codes)) <==> forall c :: c in codes ==> OneLine(c)
  {
    if codes == [] {
    } else {
      hide OneLine;
      var blocks, rest := CodeBlocks(d, codes), CodeBlocks(d, codes[1..]);
      CodeBlocksSafe(d, codes[1..]);
      assert blocks == [CodeBlock(d, codes[0])] + rest;
      SafeCons(CodeBlock(d, codes[0]), rest);
      assert forall c :: c in codes <==> c == codes[0] || c in codes[1..];
      assert SafeBlock(CodeBlock(d, codes[0])) <==> OneLine(codes[0]) by {
        assert CodeBlock(d, codes[0]).lines == [codes[0]];
        assert codes[0] in CodeBlock(d, codes[0]).lines;
      }
    }
  }

  lemma SafeCons(b: Block, rest: seq<Block>)
    ensures SafeBlocks([b] + rest) <==> SafeBlock(b) && SafeBlocks(rest)
  {
    var all := [b] + rest;
    if SafeBlocks(all) {
      assert SafeBlock(all[0]);
      forall k | 0 <= k < |rest| ensures SafeBlock(rest[k]) { assert rest[k] == all[k + 1]; }
    }
    if SafeBlock(b) && SafeBlocks(rest) {
      forall k | 0 <= k < |all| ensures SafeBlock(all[k]) { assert k > 0 ==> all[k] == rest[k - 1]; }
    }
  }

  lemma BoxLinesSafe(sscc: string, codes: seq<string>, lines: seq<string>)
    requires lines == [sscc] + codes + [""] || lines == codes + [sscc, ""]
    ensures (forall line :: line in lines ==> OneLine(line))
      <==> OneLine(sscc) && forall c :: c in codes ==> OneLine(c)
  {
    hide OneLine;
    EmptyIsOneLine();
    assert forall line :: line in lines <==> line == sscc || line in codes || line == "";
  }

  lemma BoxBlockSafe(d: Descriptor, box: Box)
    requires d.extension == Txt && BoxBlock(d, box).Ok?
    ensures SafeBlock(BoxBlock(d, box).value) <==> SafeBox(box) && (IsLegacy(d) ==> OneLine(box.sscc))
  {
    hide OneLine, FormatBoxSscc;
    var sscc := if IsLegacy(d) then box.sscc else FormatBoxSscc(box.sscc).value;
    if !IsLegacy(d) {
      FormattedIsOneLine(box.sscc);
    }
    BoxLinesSafe(sscc, box.codes, BoxBlock(d, box).value.lines);
  }

  lemma PalletModeBoxSafe(d: Descriptor, box: Box, column: string)
    requires d.extension == Txt && PalletModeBoxBlock(d, box, column).Ok?
    ensures SafeBlock(PalletModeBoxBlock(d, box, column).value) <==> SafeBox(box)
  {
    hide OneLine, FormatBoxSscc;
    FormattedIsOneLine(box.sscc);
    BoxLinesSafe(FormatBoxSscc(box.sscc).value, box.codes, PalletModeBoxBlock(d, box, column).value.lines);
  }

  /** Blocks made one by one from boxes are safe when the boxes are. */
  lemma MappedBoxesSafe(boxes: seq<Box>, blocks: seq<Block>)
    requires |blocks| == |boxes|
    requires forall k :: 0 <= k < |boxes| ==> (SafeBlock(blocks[k]) <==> SafeBox(boxes[k]))
    ensures SafeBlocks(blocks) <==> SafeBoxes(boxes)
  {
    hide SafeBlock, SafeBox;
    if SafeBoxes(boxes) {
      forall k | 0 <= k < |blocks| ensures SafeBlock(blocks[k]) { assert boxes[k] in boxes; }
    }
    if SafeBlocks(blocks) {
      forall b | b in boxes ensures SafeBox(b) {
        var k :| 0 <= k < |boxes| && boxes[k] == b;
        assert SafeBlock(blocks[k]);
      }
    }
  }

  lemma GroupSafe(d: Descriptor, pallet: Pallet)
    requires d.extension == Txt && PalletGroupBlock(d, pallet).Ok?
    ensures SafeBlock(PalletGroupBlock(d, pallet).value) <==> SafeBoxes(pallet.boxes)
  {
    hide OneLine, FormatBoxSscc, MapAll, SafeBox, SafeBlock, PalletModeBoxBlock;
    var f := (box: Box) => PalletModeBoxBlock(d, box, "");
    var blocks := MapAll(pallet.boxes, f).value;
    forall k | 0 <= k < |blocks| ensures SafeBlock(blocks[k]) <==> SafeBox(pallet.boxes[k]) {
      assert f(pallet.boxes[k]) == Ok(blocks[k]);
      PalletModeBoxSafe(d, pallet.boxes[k], "");
    }
    MappedBoxesSafe(pallet.boxes, blocks);
    SafeLines(blocks);
    FormattedIsOneLine(pallet.sscc);
    FirstLineSafe(FormatBoxSscc(pallet.sscc).value, blocks, PalletGroupBlock(d, pallet).value);
  }

  lemma FirstLineSafe(first: string, blocks: seq<Block>, b: Block)
    requires b.lines == [first] + AllLines(blocks) && OneLine(first)
    ensures SafeBlock(b) <==> OneLineTexts(blocks)
  {
    hide OneLine, AllLines;
    assert forall line :: line in b.lines <==> line == first || line in AllLines(blocks);
  }

  lemma PalletBoxesSafe(d: Descriptor, pallet: Pallet)
    requires d.extension == Txt && PalletBoxesBlock(d, pallet).Ok?
    ensures SafeBlock(PalletBoxesBlock(d, pallet).value)
  {
    hide OneLine, FormatBoxSscc, MapAll;
    FormattedIsOneLine(pallet.sscc);
    EmptyIsOneLine();
    var ssccs := BoxSsccs(pallet.boxes);
    var texts := MapAll(ssccs, FormatBoxSscc).value;
    forall t | t in texts ensures OneLine(t) {
      var k :| 0 <= k < |texts| && texts[k] == t;
      FormattedIsOneLine(ssccs[k]);
    }
  }

  /** Every line of the blocks is one physical line exactly when the texts written as they are, are. */
  lemma BlocksSafeIff(d: Descriptor, source: Source)
    requires d.extension == Txt && Suits(d, source) && CreateBlocks(d, source).Ok?
    ensures SafeBlocks(CreateBlocks(d, source).value) <==> TxtSafe(d, source)
  {
    hide MapAll, OneLine, SafeBlock, SafeBox, PalletGroupBlock, BoxBlock, PalletModeBoxBlock, PalletBoxesBlock;
    var blocks := CreateBlocks(d, source).value;
    match source
    case FlatSource(codes) => CodeBlocksSafe(d, codes);
    case BoxSource(boxes) => BoxSourceSafe(d, boxes, blocks);
    case PalletSource(pallets, looseBoxes) =>
      if d.boxMode == PalletBoxes {
        var f := (pallet: Pallet) => PalletBoxesBlock(d, pallet);
        assert MapAll(pallets, f) == Ok(blocks);
        forall k | 0 <= k < |blocks| ensures SafeBlock(blocks[k]) {
          assert f(pallets[k]) == Ok(blocks[k]);
          PalletBoxesSafe(d, pallets[k]);
        }
      } else {
        PalletSourceSafe(d, pallets, looseBoxes, blocks);
      }
  }

  lemma BoxSourceSafe(d: Descriptor, boxes: seq<Box>, blocks: seq<Block>)
    requires d.extension == Txt && MapAll(boxes, (box: Box) => BoxBlock(d, box)) == Ok(blocks)
    ensures SafeBlocks(blocks) <==> TxtSafe(d, BoxSource(boxes))
  {
    hide MapAll, OneLine, SafeBlock, SafeBox, BoxBlock;
    var f := (box: Box) => BoxBlock(d, box);
    forall k | 0 <= k < |blocks|
      ensures SafeBlock(blocks[k]) <==> SafeBox(boxes[k]) && (IsLegacy(d) ==> OneLine(boxes[k].sscc))
    {
      assert f(boxes[k]) == Ok(blocks[k]);
      BoxBlockSafe(d, boxes[k]);
    }
    if SafeBlocks(blocks) {
      forall b | b in boxes ensures SafeBox(b) && (IsLegacy(d) ==> OneLine(b.sscc)) {
        var k :| 0 <= k < |boxes| && boxes[k] == b;
        assert SafeBlock(blocks[k]);
      }
    }
    if TxtSafe(d, BoxSource(boxes)) {
      forall k | 0 <= k < |blocks| ensures SafeBlock(blocks[k]) { assert boxes[k] in boxes; }
    }
  }

  lemma PalletSourceSafe(d: Descriptor, pallets: seq<Pallet>, looseBoxes: seq<Box>, blocks: seq<Block>)
    requires d.extension == Txt && d.boxMode == Pallets
    requires CreateBlocks(d, PalletSource(pallets, looseBoxes)) == Ok(blocks)
    ensures SafeBlocks(blocks) <==> TxtSafe(d, PalletSource(pallets, looseBoxes))
  {
    hide MapAll, OneLine, SafeBlock, SafeBoxes, PalletGroupBlock, PalletModeBoxBlock;
    var f := (pallet: Pallet) => PalletGroupBlock(d, pallet);
    var g := (box: Box) => PalletModeBoxBlock(d, box, "");
    var groups, loose := MapAll(pallets, f).value, MapAll(looseBoxes, g).value;
    assert blocks == groups + loose;
    forall k | 0 <= k < |groups| ensures SafeBlock(groups[k]) <==> SafeBoxes(pallets[k].boxes) {
      assert f(pallets[k]) == Ok(groups[k]);
      GroupSafe(d, pallets[k]);
    }
    forall k | 0 <= k < |loose| ensures SafeBlock(loose[k]) <==> SafeBox(looseBoxes[k]) {
      assert g(looseBoxes[k]) == Ok(loose[k]);
      PalletModeBoxSafe(d, looseBoxes[k], "");
    }
    MappedBoxesSafe(looseBoxes, loose);
    SafeConcat(groups, loose);
    if SafeBlocks(groups) {
      forall p | p in pallets ensures SafeBoxes(p.boxes) {
        var k :| 0 <= k < |pallets| && pallets[k] == p;
        assert SafeBlock(groups[k]);
      }
    }
    if forall p :: p in pallets ==> SafeBoxes(p.boxes) {
      forall k | 0 <= k < |groups| ensures SafeBlock(groups[k]) { assert pallets[k] in pallets; }
    }
  }

  lemma SafeConcat(a: seq<Block>, b: seq<Block>)
    ensures SafeBlocks(a + b) <==> SafeBlocks(a) && SafeBlocks(b)
  {
    hide SafeBlock;
    if SafeBlocks(a + b) {
      forall k | 0 <= k < |a| ensures SafeBlock(a[k]) { assert a[k] == (a + b)[k]; }
      forall k | 0 <= k < |b| ensures SafeBlock(b[k]) { assert b[k] == (a + b)[|a| + k]; }
    }
    if SafeBlocks(a) && SafeBlocks(b) {
      forall k | 0 <= k < |a + b| ensures SafeBlock((a + b)[k]) {
        assert (a + b)[k] == if k < |a| then a[k] else b[k - |a|];
      }
    }
  }

  lemma {:induction false} JoinedSafe(split: seq<PartBlocks>)
    ensures SafeBlocks(Joined(split)) <==> forall k :: 0 <= k < |split| ==> SafeBlocks(split[k].blocks)
  {
    if split != [] {
      hide SafeBlocks;
      var rest := split[1..];
      JoinedSafe(rest);
      SafeConcat(split[0].blocks, Joined(rest));
      if forall k :: 0 <= k < |split| ==> SafeBlocks(split[k].blocks) {
        forall k | 0 <= k < |rest| ensures SafeBlocks(rest[k].blocks) { assert rest[k] == split[k + 1]; }
      }
      if SafeBlocks(split[0].blocks) && forall k :: 0 <= k < |rest| ==> SafeBlocks(rest[k].blocks) {
        forall k | 0 <= k < |split| ensures SafeBlocks(split[k].blocks) { assert k > 0 ==> split[k] == rest[k - 1]; }
      }
    } else {
      assert Joined(split) == [];
    }
  }

  predicate LinesAreExact(p: Part) { p.physicalLineCount == Breaks(p.bytes) }

  /** The files of a TXT export have the line breaks their parts announce exactly when the codes, and in the frozen
      version the SSCCs, are single lines. */
  lemma TxtLinesExactIff(input: Input)
    requires RenderShiftExport(input).Ok? && FormatOf(input).extension == Txt
    ensures (forall k :: 0 <= k < |RenderShiftExport(input).value| ==> LinesAreExact(RenderShiftExport(input).value[k]))
      <==> TxtSafe(FormatOf(input), input.source)
  {
    hide RenderShiftExport, Breaks, FindFormat, CreateBlocks, SafeBlocks, OneLineTexts, TxtSafe, FORMATS, RenderParts,
         Split, Joined;
    var d, blocks, split, parts := ExportPieces(input);
    if |parts| > 0 {
      ExportPartFacts(input, d, blocks, split, parts, 0);
    }
    SplitNotEmpty(d, blocks, input.maxLines, split, input, parts);
    forall k | 0 <= k < |parts| ensures LinesAreExact(parts[k]) <==> SafeBlocks(split[k].blocks) {
      ExportPartFacts(input, d, blocks, split, parts, k);
      SafeLines(split[k].blocks);
    }
    JoinedSafe(split);
    BlocksSafeIff(d, input.source);
  }

  /** An input that the code accepts and that breaks the announced count: one flat code with a line break. */
  lemma TxtCountFallsShort(document: Option<Metadata>)
    ensures var input := Input(TxtFlat, 1, "2026-10-30", None, FlatSource(["a\nb"]), "", "", document);
      && RenderShiftExport(input).Ok? && |RenderShiftExport(input).value| == 1
      && !LinesAreExact(RenderShiftExport(input).value[0])
  {
    hide RenderShiftExport, HasDateShape, OneLine, LinesAreExact, FindFormat, FORMATS;
    var d := Descriptor(TxtFlat, 1, Txt, Flat);
    var input := Input(TxtFlat, 1, "2026-10-30", None, FlatSource(["a\nb"]), "", "", document);
    SomeDay();
    FlatTextRenders(input, d, "a\nb");
    TwoLines();
    assert "a\nb" in ["a\nb"];
    TxtLinesExactIff(input);
  }

  lemma SomeDay()
    ensures HasDateShape("2026-10-30")
  {
  }

  lemma TwoLines()
    ensures !OneLine("a\nb")
  {
    assert "a\nb"[1] == '\n';
  }

  lemma FlatTextRenders(input: Input, d: Descriptor, code: string)
    requires d == Descriptor(TxtFlat, 1, Txt, Flat)
    requires input.formatId == TxtFlat && input.formatVersion == 1 && input.maxLines == None
    requires input.source == FlatSource([code]) && HasDateShape(input.shiftDate)
    ensures FormatOf(input) == d && RenderShiftExport(input).Ok? && |RenderShiftExport(input).value| == 1
  {
    hide EncodePart, HasDateShape;
    assert FORMATS[0] == d;
    assert FindFormat(FORMATS, TxtFlat, 1) == Some(d);
    var blocks := [CodeBlock(d, code)];
    assert [code][1..] == [] && blocks[1..] == [];
    assert CodeBlocks(d, [code]) == blocks;
    assert SumCodes(blocks[1..]) == 0 && SumCodes(blocks) == 1;
    assert CheckInput(d, input) == None && CheckWhole(d, input, blocks) == None;
    assert CreateBlocks(d, input.source) == Ok(blocks);
    var part := PartBlocks(blocks, HeaderLines(d) + SumLines(blocks));
    assert Split(d, blocks, None) == Ok([part]) && [part][1..] == [];
    assert RenderParts(d, input, [part][1..], 1, false) == Ok([]);
    assert RenderParts(d, input, [part], 0, false).Ok?;
  }

  lemma SplitNotEmpty(d: Descriptor, blocks: seq<Block>, maxLines: Option<int>, split: seq<PartBlocks>, input: Input,
                      parts: seq<Part>)
    requires Exported(input, d, blocks, split, parts) && maxLines == input.maxLines
    ensures |parts| == |split| > 0 && Joined(split) == blocks
  {
    hide CreateBlocks, Split, Joined, RenderPart, FORMATS, RenderShiftExport;
    HeaderFits(d, blocks, maxLines, split);
    SplitKeepsBlocks(d, blocks, maxLines);
    PartsRendered(d, input, split, 0, |split| > 1);
  }

  // Counters.

  function PartCodes(parts: seq<Part>): nat {
    if parts == [] then 0 else parts[0].codeCount + PartCodes(parts[1..])
  }

  function PartBoxes(parts: seq<Part>): nat {
    if parts == [] then 0 else parts[0].boxCount + PartBoxes(parts[1..])
  }

  function PartPallets(parts: seq<Part>): nat {
    if parts == [] then 0 else parts[0].palletCount + PartPallets(parts[1..])
  }

  function PalletsCodes(pallets: seq<Pallet>): nat {
    if pallets == [] then 0 else BoxesCodeCount(pallets[0].boxes) + PalletsCodes(pallets[1..])
  }

  function PalletsBoxes(pallets: seq<Pallet>): nat {
    if pallets == [] then 0 else |pallets[0].boxes| + PalletsBoxes(pallets[1..])
  }

  /** Codes of a source; the pallet layer covers only what stands on pallets. */
  function SourceCodes(d: Descriptor, source: Source): nat {
    match source
    case FlatSource(codes) => |codes|
    case BoxSource(boxes) => BoxesCodeCount(boxes)
    case PalletSource(pallets, looseBoxes) =>
      PalletsCodes(pallets) + if d.boxMode == PalletBoxes then 0 else BoxesCodeCount(looseBoxes)
  }

  function SourceBoxes(d: Descriptor, source: Source): nat {
    match source
    case FlatSource(_) => 0
    case BoxSource(boxes) => |boxes|
    case PalletSource(pallets, looseBoxes) =>
      PalletsBoxes(pallets) + if d.boxMode == PalletBoxes then 0 else |looseBoxes|
  }

  function SourcePallets(source: Source): nat {
    match source case PalletSource(pallets, _) => |pallets| case _ => 0
  }

  lemma {:induction false} SumsConcat(a: seq<Block>, b: seq<Block>)
    ensures SumCodes(a + b) == SumCodes(a) + SumCodes(b) && SumBoxes(a + b) == SumBoxes(a) + SumBoxes(b)
    ensures SumPallets(a + b) == SumPallets(a) + SumPallets(b)
  {
    if a == [] {
      assert a + b == b;
    } else {
      assert (a + b)[1..] == a[1..] + b;
      SumsConcat(a[1..], b);
    }
  }

  lemma {:induction false} PartSums(split: seq<PartBlocks>, parts: seq<Part>)
    requires |parts| == |split|
    requires forall k :: 0 <= k < |parts| ==>
      && parts[k].codeCount == SumCodes(split[k].blocks) && parts[k].boxCount == SumBoxes(split[k].blocks)
      && parts[k].palletCount == SumPallets(split[k].blocks)
    ensures PartCodes(parts) == SumCodes(Joined(split)) && PartBoxes(parts) == SumBoxes(Joined(split))
    ensures PartPallets(parts) == SumPallets(Joined(split))
  {
    if parts == [] {
    } else {
      PartSums(split[1..], parts[1..]);
      SumsConcat(split[0].blocks, Joined(split[1..]));
    }
  }

  lemma {:induction false} PalletBlocksSum(pallets: seq<Pallet>, blocks: seq<Block>)
    requires |blocks| == |pallets|
    requires forall k :: 0 <= k < |pallets| ==>
      && blocks[k].codeCount == BoxesCodeCount(pallets[k].boxes) && blocks[k].boxCount == |pallets[k].boxes|
      && blocks[k].palletCount == 1
    ensures SumCodes(blocks) == PalletsCodes(pallets) && SumBoxes(blocks) == PalletsBoxes(pallets)
    ensures SumPallets(blocks) == |pallets|
  {
    if pallets == [] {
    } else {
      PalletBlocksSum(pallets[1..], blocks[1..]);
    }
  }

  lemma SourceSums(d: Descriptor, source: Source)
    requires d in FORMATS && Suits(d, source) && CreateBlocks(d, source).Ok?
    ensures var blocks := CreateBlocks(d, source).value;
      && SumCodes(blocks) == SourceCodes(d, source) && SumBoxes(blocks) == SourceBoxes(d, source)
      && SumPallets(blocks) == SourcePallets(source)
  {
    hide MapAll, FORMATS, PalletGroupBlock, BoxBlock, PalletModeBoxBlock, PalletBoxesBlock, CountsItsContent;
    FormatFacts(d);
    var blocks := CreateBlocks(d, source).value;
    match source
    case FlatSource(codes) => CodeBlocksCount(d, codes);
    case BoxSource(boxes) =>
      var f := (box: Box) => BoxBlock(d, box);
      assert MapAll(boxes, f) == Ok(blocks);
      forall k | 0 <= k < |blocks|
        ensures blocks[k].codeCount == |boxes[k].codes| && blocks[k].boxCount == 1 && blocks[k].palletCount == 0
      {
        assert f(boxes[k]) == Ok(blocks[k]);
        BoxBlockCounts(d, boxes[k]);
      }
      BoxBlocksSum(boxes, blocks);
    case PalletSource(pallets, looseBoxes) =>
      if d.boxMode == PalletBoxes {
        var f := (pallet: Pallet) => PalletBoxesBlock(d, pallet);
        assert MapAll(pallets, f) == Ok(blocks);
        forall k | 0 <= k < |blocks|
          ensures blocks[k].codeCount == BoxesCodeCount(pallets[k].boxes)
          ensures blocks[k].boxCount == |pallets[k].boxes| && blocks[k].palletCount == 1
        {
          assert f(pallets[k]) == Ok(blocks[k]);
          PalletBoxesCounts(d, pallets[k]);
        }
        PalletBlocksSum(pallets, blocks);
      } else {
        PalletSourceSums(d, pallets, looseBoxes);
      }
  }

  lemma PalletSourceSums(d: Descriptor, pallets: seq<Pallet>, looseBoxes: seq<Box>)
    requires d.boxMode == Pallets && CreateBlocks(d, PalletSource(pallets, looseBoxes)).Ok?
    ensures var blocks := CreateBlocks(d, PalletSource(pallets, looseBoxes)).value;
      && SumCodes(blocks) == PalletsCodes(pallets) + BoxesCodeCount(looseBoxes)
      && SumBoxes(blocks) == PalletsBoxes(pallets) + |looseBoxes|
      && SumPallets(blocks) == |pallets|
  {
    hide MapAll, PalletGroupBlock, PalletModeBoxBlock, CountsItsContent;
    var f := (pallet: Pallet) => PalletGroupBlock(d, pallet);
    var g := (box: Box) => PalletModeBoxBlock(d, box, "");
    var groups, loose := MapAll(pallets, f).value, MapAll(looseBoxes, g).value;
    forall k | 0 <= k < |groups|
      ensures groups[k].codeCount == BoxesCodeCount(pallets[k].boxes)
      ensures groups[k].boxCount == |pallets[k].boxes| && groups[k].palletCount == 1
    {
      assert f(pallets[k]) == Ok(groups[k]);
      PalletGroupCounts(d, pallets[k]);
    }
    forall k | 0 <= k < |loose|
      ensures loose[k].codeCount == |looseBoxes[k].codes| && loose[k].boxCount == 1 && loose[k].palletCount == 0
    {
      assert g(looseBoxes[k]) == Ok(loose[k]);
      PalletModeBoxCounts(d, looseBoxes[k], "");
    }
    PalletBlocksSum(pallets, groups);
    BoxBlocksSum(looseBoxes, loose);
    SumsConcat(groups, loose);
  }

  /** However an export is cut, the counters of its parts add up to the codes, boxes and pallets of the source. */
  lemma CountersAreConserved(input: Input)
    requires RenderShiftExport(input).Ok?
    ensures var parts := RenderShiftExport(input).value;
      && PartCodes(parts) == SourceCodes(FormatOf(input), input.source)
      && PartBoxes(parts) == SourceBoxes(FormatOf(input), input.source)
      && PartPallets(parts) == SourcePallets(input.source)
  {
    hide RenderShiftExport, FindFormat, CreateBlocks, FORMATS, RenderParts, Split, Joined, SumCodes, SumBoxes,
         SumPallets, SourceCodes, SourceBoxes, SourcePallets, PartCodes, PartBoxes, PartPallets, Breaks, OneLineTexts,
         AllCount, RenderPart;
    var d, blocks, split, parts := ExportPieces(input);
    SplitNotEmpty(d, blocks, input.maxLines, split, input, parts);
    forall k | 0 <= k < |parts|
      ensures parts[k].codeCount == SumCodes(split[k].blocks) && parts[k].boxCount == SumBoxes(split[k].blocks)
      ensures parts[k].palletCount == SumPallets(split[k].blocks)
    {
      ExportPartFacts(input, d, blocks, split, parts, k);
    }
    PartSums(split, parts);
    SourceSums(d, input.source);
  }

  // Pallets in XML.

  /** Every box that a pallet of these blocks names is written by these blocks. */
  predicate PalletsCovered(boxes: seq<Box>, pallets: seq<XmlPallet>) {
    forall p, s :: p in pallets && s in p.boxSsccs ==> exists b :: b in boxes && b.sscc == s
  }

  predicate BlockCovered(b: Block) { PalletsCovered(b.xmlBoxes, b.xmlPallets) }

  lemma CoveredConcat(a: seq<Box>, p: seq<XmlPallet>, b: seq<Box>, q: seq<XmlPallet>)
    requires PalletsCovered(a, p) && PalletsCovered(b, q)
    ensures PalletsCovered(a + b, p + q)
  {
    forall x, s | x in p + q && s in x.boxSsccs ensures exists y :: y in a + b && y.sscc == s {
      if x in p {
        var y :| y in a && y.sscc == s;
        assert y in a + b;
      } else {
        var y :| y in b && y.sscc == s;
        assert y in a + b;
      }
    }
  }

  lemma {:induction false} BlocksCovered(blocks: seq<Block>)
    requires forall k :: 0 <= k < |blocks| ==> BlockCovered(blocks[k])
    ensures PalletsCovered(AllXmlBoxes(blocks), AllXmlPallets(blocks))
  {
    if blocks != [] {
      hide PalletsCovered;
      assert BlockCovered(blocks[0]);
      BlocksCovered(blocks[1..]);
      CoveredConcat(blocks[0].xmlBoxes, blocks[0].xmlPallets, AllXmlBoxes(blocks[1..]), AllXmlPallets(blocks[1..]));
    } else {
      assert AllXmlPallets(blocks) == [];
    }
  }

  lemma {:induction false} SsccsOfBoxes(boxes: seq<Box>, s: string)
    requires s in BoxSsccs(boxes)
    ensures exists b :: b in boxes && b.sscc == s
  {
    if boxes[0].sscc == s {
      assert boxes[0] in boxes;
    } else {
      SsccsOfBoxes(boxes[1..], s);
      var b :| b in boxes[1..] && b.sscc == s;
      assert b in boxes;
    }
  }

  lemma PalletBlocksCovered(d: Descriptor, pallets: seq<Pallet>, looseBoxes: seq<Box>, blocks: seq<Block>)
    requires d.extension == Xml && d.boxMode == Pallets
    requires CreateBlocks(d, PalletSource(pallets, looseBoxes)) == Ok(blocks)
    ensures forall b :: b in blocks ==> BlockCovered(b)
  {
    hide MapAll, PalletGroupBlock, PalletModeBoxBlock, CountsItsContent, PalletsCovered;
    var f := (pallet: Pallet) => PalletGroupBlock(d, pallet);
    var g := (box: Box) => PalletModeBoxBlock(d, box, "");
    var groups, loose := MapAll(pallets, f).value, MapAll(looseBoxes, g).value;
    forall b | b in blocks ensures BlockCovered(b) {
      if b in groups {
        var k :| 0 <= k < |groups| && groups[k] == b;
        assert f(pallets[k]) == Ok(groups[k]);
        PalletGroupCounts(d, pallets[k]);
        PalletCovered(pallets[k]);
      } else {
        var k :| 0 <= k < |loose| && loose[k] == b;
        assert g(looseBoxes[k]) == Ok(loose[k]);
        PalletModeBoxCounts(d, looseBoxes[k], "");
        NoPallets(b.xmlBoxes);
      }
    }
  }

  lemma PalletCovered(pallet: Pallet)
    ensures PalletsCovered(pallet.boxes, [PalletXml(pallet)])
  {
    forall p, s | p in [PalletXml(pallet)] && s in p.boxSsccs ensures exists b :: b in pallet.boxes && b.sscc == s {
      SsccsOfBoxes(pallet.boxes, s);
    }
  }

  lemma NoPallets(boxes: seq<Box>)
    ensures PalletsCovered(boxes, [])
  {
  }

  lemma {:induction false} BlocksOfParts(split: seq<PartBlocks>, k: nat, b: Block)
    requires k < |split| && b in split[k].blocks
    ensures b in Joined(split)
  {
    if k == 0 {
    } else {
      assert split[k] == split[1..][k - 1];
      BlocksOfParts(split[1..], k - 1, b);
    }
  }

  /** The first n packs are boxes, and whatever a later pack holds is the code of one of them. */
  predicate BoxesBeforePallets(packs: seq<Pack>, n: nat) {
    n <= |packs| &&
    forall i, c :: n <= i < |packs| && c in packs[i].cis ==> exists j :: 0 <= j < n && packs[j].code == c
  }

  lemma CoveredPacks(boxes: seq<Box>, pallets: seq<XmlPallet>)
    requires PalletsCovered(boxes, pallets) && BoxPacks(boxes).Ok? && PalletPacks(pallets).Ok?
    ensures BoxesBeforePallets(BoxPacks(boxes).value + PalletPacks(pallets).value, |boxes|)
  {
    hide MapAll, FormatSscc;
    var a, q := BoxPacks(boxes).value, PalletPacks(pallets).value;
    var packs := a + q;
    forall i, c | |boxes| <= i < |packs| && c in packs[i].cis
      ensures exists j :: 0 <= j < |boxes| && packs[j].code == c
    {
      var p := pallets[i - |a|];
      assert PalletPack(p) == Ok(q[i - |a|]);
      var m :| 0 <= m < |packs[i].cis| && packs[i].cis[m] == c;
      assert FormatSscc(p.boxSsccs[m]) == Ok(c);
      assert p in pallets && p.boxSsccs[m] in p.boxSsccs;
      var b :| b in boxes && b.sscc == p.boxSsccs[m];
      var j :| 0 <= j < |boxes| && boxes[j] == b;
      assert BoxPack(boxes[j]) == Ok(a[j]);
      assert packs[j].code == c;
    }
  }

  /** In every file of the pallets XML format a reader finds each box's own pack_content before, and in the same file
      as, that of the pallet that names it. */
  lemma MemberBoxesPrecedePallets(input: Input, k: nat)
    requires RenderShiftExport(input).Ok? && k < |RenderShiftExport(input).value|
    requires FormatOf(input).extension == Xml && FormatOf(input).boxMode == Pallets
    ensures var p := RenderShiftExport(input).value[k];
      && ReadDocument(p.bytes).Some?
      && BoxesBeforePallets(ReadDocument(p.bytes).value.2, p.boxCount)
      && |ReadDocument(p.bytes).value.2| == p.boxCount + p.palletCount
  {
    hide RenderShiftExport, FindFormat, CreateBlocks, FORMATS, RenderParts, Split, Joined, Breaks, OneLineTexts,
         CountsItsContent, ReadDocument, BoxesBeforePallets, PalletsCovered, RenderXml, DocumentFor, Trim, BlockCovered,
         SumCodes, SumBoxes, SumPallets, AllXmlBoxes, AllXmlPallets, BoxPacks, PalletPacks;
    var d, blocks, split, parts := ExportPieces(input);
    SplitNotEmpty(d, blocks, input.maxLines, split, input, parts);
    ExportPartFacts(input, d, blocks, split, parts, k);
    var mine := split[k].blocks;
    PalletBlocksCovered(d, input.source.pallets, input.source.looseBoxes, blocks);
    forall i | 0 <= i < |mine| ensures BlockCovered(mine[i]) && |mine[i].xmlPallets| == mine[i].palletCount {
      BlocksOfParts(split, k, mine[i]);
      PalletCountOfBlocks(d, input.source.pallets, input.source.looseBoxes, blocks, mine[i]);
    }
    BlocksCovered(mine);
    CoveredPartReads(input, d, split[k], k + 1, |split| > 1);
    PalletsOfBlocks(mine);
  }

  lemma {:induction false} PalletsOfBlocks(blocks: seq<Block>)
    requires forall i :: 0 <= i < |blocks| ==> |blocks[i].xmlPallets| == blocks[i].palletCount
    ensures |AllXmlPallets(blocks)| == SumPallets(blocks)
  {
    if blocks == [] {
    } else {
      PalletsOfBlocks(blocks[1..]);
    }
  }

  lemma PalletCountOfBlocks(d: Descriptor, pallets: seq<Pallet>, looseBoxes: seq<Box>, blocks: seq<Block>, b: Block)
    requires d.extension == Xml && d.boxMode == Pallets
    requires CreateBlocks(d, PalletSource(pallets, looseBoxes)) == Ok(blocks) && b in blocks
    ensures |b.xmlPallets| == b.palletCount
  {
    hide MapAll, PalletGroupBlock, PalletModeBoxBlock, CountsItsContent;
    var f := (pallet: Pallet) => PalletGroupBlock(d, pallet);
    var g := (box: Box) => PalletModeBoxBlock(d, box, "");
    var groups, loose := MapAll(pallets, f).value, MapAll(looseBoxes, g).value;
    if b in groups {
      var k :| 0 <= k < |groups| && groups[k] == b;
      assert f(pallets[k]) == Ok(groups[k]);
      PalletGroupCounts(d, pallets[k]);
    } else {
      var k :| 0 <= k < |loose| && loose[k] == b;
      assert g(looseBoxes[k]) == Ok(loose[k]);
      PalletModeBoxCounts(d, looseBoxes[k], "");
    }
  }

  lemma CoveredPartReads(input: Input, d: Descriptor, part: PartBlocks, partNumber: nat, multiple: bool)
    requires d.extension == Xml && input.document.Some? && d.boxMode != PalletBoxes
    requires RenderPart(d, input, part, partNumber, multiple).Ok?
    requires PalletsCovered(AllXmlBoxes(part.blocks), AllXmlPallets(part.blocks))
    ensures var p := RenderPart(d, input, part, partNumber, multiple).value;
      && ReadDocument(p.bytes).Some?
      && BoxesBeforePallets(ReadDocument(p.bytes).value.2, p.boxCount)
      && |ReadDocument(p.bytes).value.2| == p.boxCount + |AllXmlPallets(part.blocks)|
  {
    hide RenderXml, ReadDocument, BoxesBeforePallets, PalletsCovered, DocumentFor, Trim, AllXmlBoxes, AllXmlPallets,
         SumCodes, SumBoxes, SumPallets, MapAll;
    var inn, document := Trim(input.organizationInn),
                         DocumentFor(input.document.value, Trim(input.organizationName), partNumber, multiple);
    var boxes, pallets := AllXmlBoxes(part.blocks), AllXmlPallets(part.blocks);
    RenderedReadsBack(inn, document, boxes, pallets);
    RenderedLineCount(inn, document, boxes, pallets);
    CoveredPacks(boxes, pallets);
  }
}
