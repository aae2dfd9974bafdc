/** Reading TXT files back: the flat format, the boxes formats in both orders, and the pallet layer. */
module ShiftTextReadBack {
  import opened Wrappers
  import opened Utf8
  import opened TextEncoding
  import opened Gismt
  import opened GismtReader
  import opened ShiftBlocks
  import opened BlockSplit
  import opened ShiftExports
  import opened ShiftExportLaws
  import opened ShiftExportReadBack

  function FileLines(bytes: seq<Byte>): (r: Option<seq<string>>)
    ensures r.Some? ==> NoLf(r.value)
  {
    match Decode(bytes) case None => None case Some(text) => SplitLines(text)
  }

  /** The lines before the first empty one, and those after it. */
  function UntilEmpty(lines: seq<string>): (r: Option<(seq<string>, seq<string>)>)
    ensures r.Some? ==> |r.value.1| < |lines| && "" !in r.value.0
    ensures r.Some? ==> forall line :: line in r.value.0 || line in r.value.1 ==> line in lines
  {
    if lines == [] then None
    else if lines[0] == "" then Some(([], lines[1..]))
    else match UntilEmpty(lines[1..]) case None => None case Some((some, rest)) => Some(([lines[0]] + some, rest))
  }

  /** One record and the lines after it: an SSCC, then codes, then an empty line; or the codes first. */
  function ReadRecord(lines: seq<string>, reversed: bool): (r: Option<(Box, seq<string>)>)
    ensures r.Some? ==> |r.value.1| < |lines| && (NoLf(lines) ==> NoLf(r.value.1))
    ensures r.Some? ==> "" !in r.value.0.codes && (NoLf(lines) ==> SafeRecord(r.value.0))
  {
    if lines == [] then None
    else if reversed then
      match UntilEmpty(lines)
      case None => None
      case Some((some, rest)) =>
        if some == [] then None else Some((Box(some[|some| - 1], some[..|some| - 1]), rest))
    else
      match UntilEmpty(lines[1..])
      case None => None
      case Some((codes, rest)) => Some((Box(lines[0], codes), rest))
  }

  function ReadRecords(lines: seq<string>, reversed: bool): (r: Option<seq<Box>>)
    ensures r.Some? && NoLf(lines) ==> forall b :: b in r.value ==> SafeRecord(b)
    decreases |lines|
  {
    if lines == [] then Some([])
    else
      match ReadRecord(lines, reversed)
      case None => None
      case Some((box, rest)) =>
        match ReadRecords(rest, reversed) case None => None case Some(boxes) => Some([box] + boxes)
  }

  /** A record that its lines tell apart from the next: no text holds LF, no code is empty. */
  predicate SafeRecord(b: Box) {
    '\n' !in b.sscc && forall c :: c in b.codes ==> c != "" && '\n' !in c
  }

  /** The codes found in all files of a flat export. */
  function CodesRead(parts: seq<Part>): (r: Option<seq<string>>)
    ensures r.Some? ==> NoLf(r.value)
  {
    if parts == [] then Some([])
    else
      match FileLines(parts[0].bytes)
      case None => None
      case Some(lines) => match CodesRead(parts[1..]) case None => None case Some(rest) => Some(lines + rest)
  }

  /** The records found in all files of an export with records. */
  function RecordsRead(parts: seq<Part>, reversed: bool): (r: Option<seq<Box>>)
    ensures r.Some? ==> forall b :: b in r.value ==> SafeRecord(b)
  {
    if parts == [] then Some([])
    else
      match FileLines(parts[0].bytes)
      case None => None
      case Some(lines) =>
        match ReadRecords(lines, reversed)
        case None => None
        case Some(boxes) =>
          match RecordsRead(parts[1..], reversed) case None => None case Some(rest) => Some(boxes + rest)
  }

  /** The file of a part whose lines hold no LF. */
  lemma FileLinesFound(lines: seq<string>)
    requires NoLf(lines)
    ensures FileLines(EncodeLfText(lines)) == Some(lines)
  {
    hide Join, NoLf, SplitLines;
    assert EncodeLfText(lines) == Encode(LfText(lines)) by { EmptyText(lines); }
    DecodeEncode(LfText(lines));
    LinesFound(lines);
  }

  lemma EmptyText(lines: seq<string>)
    ensures EncodeLfText(lines) == Encode(LfText(lines))
  {
    assert Encode("") == [];
  }

  // The flat format.

  /** Each part is the text of its blocks. */
  predicate FilesOf(parts: seq<Part>, split: seq<PartBlocks>) {
    && |parts| == |split|
    && forall k :: 0 <= k < |parts| ==> parts[k].bytes == EncodeLfText(AllLines(split[k].blocks))
  }

  lemma FilesTail(parts: seq<Part>, split: seq<PartBlocks>)
    requires FilesOf(parts, split) && parts != []
    ensures split != [] && parts[0].bytes == EncodeLfText(AllLines(split[0].blocks))
    ensures FilesOf(parts[1..], split[1..])
  {
    hide EncodeLfText, AllLines;
  }

  lemma {:induction false} FlatPartsRead(split: seq<PartBlocks>, parts: seq<Part>)
    requires NoLf(AllLines(Joined(split)))
    requires FilesOf(parts, split)
    ensures CodesRead(parts) == Some(AllLines(Joined(split)))
  {
    if parts == [] {
      assert Joined(split) == [];
    } else {
      FilesTail(parts, split);
      hide AllLines, EncodeLfText, FilesOf;
      var mine, rest := AllLines(split[0].blocks), AllLines(Joined(split[1..]));
      LinesConcat(split[0].blocks, Joined(split[1..]));
      NoLfConcat(mine, rest);
      FileLinesFound(mine);
      FlatPartsRead(split[1..], parts[1..]);
    }
  }

  lemma NoLfConcat(a: seq<string>, b: seq<string>)
    ensures NoLf(a + b) <==> NoLf(a) && NoLf(b)
  {
    assert forall line :: line in a + b <==> line in a || line in b;
  }

  lemma {:induction false} LinesConcat(a: seq<Block>, b: seq<Block>)
    ensures AllLines(a + b) == AllLines(a) + AllLines(b)
  {
    if a == [] {
      assert a + b == b;
    } else {
      assert (a + b)[1..] == a[1..] + b;
      LinesConcat(a[1..], b);
    }
  }

  lemma {:induction false} LinesOfCodes(d: Descriptor, codes: seq<string>)
    requires d.extension == Txt
    ensures AllLines(CodeBlocks(d, codes)) == codes
  {
    if codes == [] {
    } else {
      LinesOfCodes(d, codes[1..]);
      assert CodeBlocks(d, codes)[1..] == CodeBlocks(d, codes[1..]);
      assert codes == [codes[0]] + codes[1..];
    }
  }

  lemma PartBytes(d: Descriptor, input: Input, part: PartBlocks, partNumber: nat, multiple: bool)
    requires d.extension == Txt && RenderPart(d, input, part, partNumber, multiple).Ok?
    ensures RenderPart(d, input, part, partNumber, multiple).value.bytes == EncodeLfText(AllLines(part.blocks))
  {
    hide EncodeLfText, AllLines, SumCodes, SumBoxes, SumPallets;
  }

  /** However a flat TXT export is cut into files, reading their lines in order gives the codes exactly when no code
      holds LF. */
  lemma FlatTxtReadsBackIff(input: Input)
    requires RenderShiftExport(input).Ok? && FormatOf(input).extension == Txt && FormatOf(input).boxMode == Flat
    ensures input.source.FlatSource?
    ensures CodesRead(RenderShiftExport(input).value) == Some(input.source.codes) <==> NoLf(input.source.codes)
  {
    hide RenderShiftExport, FindFormat, CreateBlocks, FORMATS, RenderParts, RenderPart, Split, Joined, Breaks,
         OneLineTexts, CountsItsContent, SumCodes, SumBoxes, SumPallets, AllLines, CodesRead, NoLf;
    var d, blocks, split, parts := ExportPieces(input);
    SplitNotEmpty(d, blocks, input.maxLines, split, input, parts);
    FlatBlocks(d, input.source);
    if NoLf(input.source.codes) {
      forall k | 0 <= k < |parts| ensures parts[k].bytes == EncodeLfText(AllLines(split[k].blocks)) {
        ExportPartFacts(input, d, blocks, split, parts, k);
        PartBytes(d, input, split[k], k + 1, |split| > 1);
      }
      FlatPartsRead(split, parts);
    }
  }

  lemma FlatBlocks(d: Descriptor, source: Source)
    requires d.extension == Txt && d.boxMode == Flat && Suits(d, source) && CreateBlocks(d, source).Ok?
    ensures source.FlatSource? && AllLines(CreateBlocks(d, source).value) == source.codes
  {
    LinesOfCodes(d, source.codes);
  }

  // The formats with records.

  function RecordLines(b: Box, reversed: bool): seq<string> {
    if reversed then b.codes + [b.sscc, ""] else [b.sscc] + b.codes + [""]
  }

  lemma {:induction false} EmptyFound(some: seq<string>, rest: seq<string>)
    requires "" !in some
    ensures UntilEmpty(some + ([""] + rest)) == Some((some, rest))
  {
    var all := some + ([""] + rest);
    if some == [] {
      assert all == [""] + rest && all[1..] == rest;
    } else {
      assert all[1..] == some[1..] + ([""] + rest) && all[0] == some[0];
      assert some[0] in some && forall x :: x in some[1..] ==> x in some;
      EmptyFound(some[1..], rest);
      assert some == [some[0]] + some[1..];
    }
  }

  lemma RecordFound(b: Box, reversed: bool, rest: seq<string>)
    requires "" !in b.codes && (reversed ==> b.sscc != "")
    ensures ReadRecord(RecordLines(b, reversed) + rest, reversed) == Some((b, rest))
  {
    hide UntilEmpty;
    var all := RecordLines(b, reversed) + rest;
    if reversed {
      var some := b.codes + [b.sscc];
      assert all == some + ([""] + rest);
      EmptyFound(some, rest);
      assert some[..|some| - 1] == b.codes;
    } else {
      assert all[1..] == b.codes + ([""] + rest) && all[0] == b.sscc;
      EmptyFound(b.codes, rest);
    }
  }

  /** What makes a list of records readable in the given order. */
  predicate Readable(boxes: seq<Box>, reversed: bool) {
    forall b :: b in boxes ==> SafeRecord(b) && (reversed ==> b.sscc != "")
  }

  /** Each block writes the record at its place. */
  predicate Written(blocks: seq<Block>, boxes: seq<Box>, reversed: bool) {
    && |blocks| == |boxes|
    && forall k :: 0 <= k < |boxes| ==> blocks[k].lines == RecordLines(boxes[k], reversed)
  }

  lemma WrittenApart(a: seq<Block>, b: seq<Block>, boxes: seq<Box>, reversed: bool)
    requires Written(a + b, boxes, reversed) && Readable(boxes, reversed)
    ensures |a| <= |boxes|
    ensures Written(a, boxes[..|a|], reversed) && Readable(boxes[..|a|], reversed)
    ensures Written(b, boxes[|a|..], reversed) && Readable(boxes[|a|..], reversed)
  {
    hide RecordLines, SafeRecord;
    forall k | 0 <= k < |a| ensures a[k].lines == RecordLines(boxes[..|a|][k], reversed) {
      assert (a + b)[k] == a[k];
    }
    forall k | 0 <= k < |b| ensures b[k].lines == RecordLines(boxes[|a|..][k], reversed) {
      assert (a + b)[|a| + k] == b[k];
    }
    assert forall x :: x in boxes[..|a|] || x in boxes[|a|..] ==> x in boxes;
  }

  lemma FirstRead(lines: seq<string>, b: Box, rest: seq<string>, reversed: bool)
    requires lines != [] && ReadRecord(lines, reversed) == Some((b, rest)) && ReadRecords(rest, reversed).Some?
    ensures ReadRecords(lines, reversed) == Some([b] + ReadRecords(rest, reversed).value)
  {
    hide ReadRecord;
  }

  lemma {:induction false} RecordsFound(boxes: seq<Box>, blocks: seq<Block>, reversed: bool)
    requires Written(blocks, boxes, reversed) && Readable(boxes, reversed)
    ensures ReadRecords(AllLines(blocks), reversed) == Some(boxes) && NoLf(AllLines(blocks))
  {
    if boxes == [] {
      assert AllLines(blocks) == [];
    } else {
      hide ReadRecord, ReadRecords, RecordLines, SafeRecord, NoLf;
      assert boxes[0] in boxes && forall b :: b in boxes[1..] ==> b in boxes;
      RecordsFound(boxes[1..], blocks[1..], reversed);
      NoEmptyCode(boxes[0]);
      RecordFound(boxes[0], reversed, AllLines(blocks[1..]));
      RecordHasNoLf(boxes[0], reversed);
      NoLfConcat(blocks[0].lines, AllLines(blocks[1..]));
      RecordIsNotEmpty(boxes[0], reversed);
      FirstRead(blocks[0].lines + AllLines(blocks[1..]), boxes[0], AllLines(blocks[1..]), reversed);
      assert boxes == [boxes[0]] + boxes[1..];
    }
  }

  lemma NoEmptyCode(b: Box)
    requires SafeRecord(b)
    ensures "" !in b.codes
  {
  }

  lemma RecordHasNoLf(b: Box, reversed: bool)
    requires SafeRecord(b)
    ensures NoLf(RecordLines(b, reversed))
  {
    assert forall line :: line in RecordLines(b, reversed) ==> line == b.sscc || line == "" || line in b.codes;
  }

  lemma RecordIsNotEmpty(b: Box, reversed: bool)
    ensures RecordLines(b, reversed) != []
  {
  }

  lemma FileRead(parts: seq<Part>, lines: seq<string>, boxes: seq<Box>, more: seq<Box>, reversed: bool)
    requires parts != [] && FileLines(parts[0].bytes) == Some(lines) && ReadRecords(lines, reversed) == Some(boxes)
    requires RecordsRead(parts[1..], reversed) == Some(more)
    ensures RecordsRead(parts, reversed) == Some(boxes + more)
  {
    hide FileLines, ReadRecords;
  }

  lemma {:induction false} RecordPartsRead(split: seq<PartBlocks>, parts: seq<Part>, boxes: seq<Box>, reversed: bool)
    requires Written(Joined(split), boxes, reversed) && Readable(boxes, reversed)
    requires FilesOf(parts, split)
    ensures RecordsRead(parts, reversed) == Some(boxes)
  {
    hide AllLines, EncodeLfText, ReadRecords, RecordsRead, FileLines, Written, Readable, NoLf, FilesOf, Joined;
    if parts == [] {
      NothingRead(split, parts, boxes, reversed);
    } else {
      FilesTail(parts, split);
      JoinedCons(split);
      var mine, n := split[0].blocks, |split[0].blocks|;
      WrittenApart(mine, Joined(split[1..]), boxes, reversed);
      RecordsFound(boxes[..n], mine, reversed);
      FileLinesFound(AllLines(mine));
      RecordPartsRead(split[1..], parts[1..], boxes[n..], reversed);
      FileRead(parts, AllLines(mine), boxes[..n], boxes[n..], reversed);
      assert boxes == boxes[..n] + boxes[n..];
    }
  }

  lemma JoinedCons(split: seq<PartBlocks>)
    requires split != []
    ensures Joined(split) == split[0].blocks + Joined(split[1..])
  {
  }

  lemma NothingRead(split: seq<PartBlocks>, parts: seq<Part>, boxes: seq<Box>, reversed: bool)
    requires parts == [] && FilesOf(parts, split) && Written(Joined(split), boxes, reversed)
    ensures boxes == [] && RecordsRead(parts, reversed) == Some(boxes)
  {
    assert split == [] && Joined(split) == [];
  }

  /** The records of a source: its boxes with their codes, or its pallets with the SSCCs of their boxes. */
  function SourceRecords(d: Descriptor, source: Source): seq<Box> {
    match source
    case FlatSource(_) => []
    case BoxSource(boxes) => BoxRecords(IsLegacy(d), boxes)
    case PalletSource(pallets, _) => LayerRecords(pallets)
  }

  function BoxRecords(asWritten: bool, boxes: seq<Box>): (r: seq<Box>)
    ensures |r| == |boxes|
    ensures forall k :: 0 <= k < |r| ==>
      r[k] == Box(if asWritten then boxes[k].sscc else Shown(boxes[k].sscc), boxes[k].codes)
  {
    if boxes == [] then []
    else [Box(if asWritten then boxes[0].sscc else Shown(boxes[0].sscc), boxes[0].codes)]
         + BoxRecords(asWritten, boxes[1..])
  }

  function LayerRecords(pallets: seq<Pallet>): (r: seq<Box>)
    ensures |r| == |pallets|
    ensures forall k :: 0 <= k < |r| ==> r[k] == Box(Shown(pallets[k].sscc), AllShown(Ssccs(pallets[k].boxes)))
  {
    if pallets == [] then []
    else [Box(Shown(pallets[0].sscc), AllShown(Ssccs(pallets[0].boxes)))] + LayerRecords(pallets[1..])
  }

  function AllShown(ssccs: seq<string>): (r: seq<string>)
    ensures |r| == |ssccs| && forall k :: 0 <= k < |r| ==> r[k] == Shown(ssccs[k])
  {
    if ssccs == [] then [] else [Shown(ssccs[0])] + AllShown(ssccs[1..])
  }

  predicate Reversed(d: Descriptor) { d.id == TxtBoxesReversed }

  /** The texts of a source that a TXT file with records writes as they are: the codes, and the SSCCs of the frozen
      version. */
  predicate RecordsSafe(d: Descriptor, source: Source) {
    source.BoxSource? ==> forall b :: b in source.boxes ==> SafeTexts(d, b)
  }

  predicate SafeTexts(d: Descriptor, b: Box) {
    (IsLegacy(d) ==> '\n' !in b.sscc) && forall c :: c in b.codes ==> c != "" && '\n' !in c
  }

  lemma ShownIsSafe(sscc: string)
    requires FormatBoxSscc(sscc).Ok?
    ensures FormatBoxSscc(sscc).value == Shown(sscc) && Shown(sscc) != "" && '\n' !in Shown(sscc)
  {
    ShownIs(sscc);
    SsccClean(sscc);
    CleanHasNoLf(Shown(sscc));
  }

  lemma BoxRecordBlock(d: Descriptor, box: Box)
    requires d.extension == Txt && BoxBlock(d, box).Ok?
    ensures var record := Box(if IsLegacy(d) then box.sscc else Shown(box.sscc), box.codes);
      && BoxBlock(d, box).value.lines == RecordLines(record, Reversed(d))
      && (!IsLegacy(d) ==> record.sscc != "" && '\n' !in record.sscc)
      && (Reversed(d) ==> !IsLegacy(d))
  {
    hide FormatBoxSscc;
    if !IsLegacy(d) {
      ShownIsSafe(box.sscc);
    }
  }

  lemma LayerRecordBlock(d: Descriptor, pallet: Pallet)
    requires d.extension == Txt && PalletBoxesBlock(d, pallet).Ok?
    ensures var record := Box(Shown(pallet.sscc), AllShown(Ssccs(pallet.boxes)));
      PalletBoxesBlock(d, pallet).value.lines == RecordLines(record, false) && SafeRecord(record)
  {
    hide FormatBoxSscc, MapAll, BoxesCodeCount;
    var ssccs := Ssccs(pallet.boxes);
    SsccsAre(pallet.boxes);
    ShownIsSafe(pallet.sscc);
    var shown := MapAll(ssccs, FormatBoxSscc).value;
    forall k | 0 <= k < |ssccs|
      ensures shown[k] == Shown(ssccs[k]) && Shown(ssccs[k]) != "" && '\n' !in Shown(ssccs[k])
    {
      assert FormatBoxSscc(ssccs[k]) == Ok(shown[k]);
      ShownIsSafe(ssccs[k]);
    }
    assert shown == AllShown(ssccs);
  }

  /** Every block of an export with records is one record of the source; when the source is safe, all are readable. */
  lemma RecordBlocks(d: Descriptor, source: Source)
    requires d in FORMATS && d.extension == Txt && d.boxMode in {Boxes, PalletBoxes}
    requires Suits(d, source) && CreateBlocks(d, source).Ok?
    ensures var blocks, records := CreateBlocks(d, source).value, SourceRecords(d, source);
      && |blocks| == |records|
      && (forall k :: 0 <= k < |records| ==> blocks[k].lines == RecordLines(records[k], Reversed(d)))
      && (RecordsSafe(d, source) <==> forall b :: b in records ==> SafeRecord(b))
      && (RecordsSafe(d, source) ==> Readable(records, Reversed(d)))
  {
    hide MapAll, BoxBlock, PalletBoxesBlock, RecordLines, Shown, AllShown, FORMATS;
    match source
    case FlatSource(_) =>
    case BoxSource(boxes) => BoxRecordBlocks(d, boxes);
    case PalletSource(pallets, looseBoxes) =>
      LayerOrder(d);
      var blocks, records := CreateBlocks(d, source).value, LayerRecords(pallets);
      var f := (pallet: Pallet) => PalletBoxesBlock(d, pallet);
      assert MapAll(pallets, f) == Ok(blocks);
      forall k | 0 <= k < |records|
        ensures blocks[k].lines == RecordLines(records[k], false) && SafeRecord(records[k])
      {
        assert f(pallets[k]) == Ok(blocks[k]);
        LayerRecordBlock(d, pallets[k]);
      }
  }

  lemma LayerOrder(d: Descriptor)
    requires d in FORMATS && d.boxMode == PalletBoxes
    ensures !Reversed(d)
  {
  }

  lemma BoxRecordBlocks(d: Descriptor, boxes: seq<Box>)
    requires d.extension == Txt && MapAll(boxes, (box: Box) => BoxBlock(d, box)).Ok?
    ensures var blocks, records := MapAll(boxes, (box: Box) => BoxBlock(d, box)).value, BoxRecords(IsLegacy(d), boxes);
      && |blocks| == |records|
      && (forall k :: 0 <= k < |records| ==> blocks[k].lines == RecordLines(records[k], Reversed(d)))
      && (RecordsSafe(d, BoxSource(boxes)) <==> forall b :: b in records ==> SafeRecord(b))
      && (RecordsSafe(d, BoxSource(boxes)) ==> Readable(records, Reversed(d)))
  {
    hide MapAll, BoxBlock, RecordLines, Shown, IsLegacy, Reversed, RecordsSafe, SafeRecord, Readable;
    var f := (box: Box) => BoxBlock(d, box);
    var blocks, records := MapAll(boxes, f).value, BoxRecords(IsLegacy(d), boxes);
    forall k | 0 <= k < |records|
      ensures blocks[k].lines == RecordLines(records[k], Reversed(d))
      ensures !IsLegacy(d) ==> records[k].sscc != "" && '\n' !in records[k].sscc
      ensures Reversed(d) ==> !IsLegacy(d)
    {
      assert f(boxes[k]) == Ok(blocks[k]);
      BoxRecordBlock(d, boxes[k]);
    }
    BoxRecordsSafe(d, boxes, records);
  }

  lemma BoxRecordsSafe(d: Descriptor, boxes: seq<Box>, records: seq<Box>)
    requires records == BoxRecords(IsLegacy(d), boxes)
    requires forall k :: 0 <= k < |records| ==>
      && (!IsLegacy(d) ==> records[k].sscc != "" && '\n' !in records[k].sscc)
      && (Reversed(d) ==> !IsLegacy(d))
    ensures RecordsSafe(d, BoxSource(boxes)) <==> forall b :: b in records ==> SafeRecord(b)
    ensures RecordsSafe(d, BoxSource(boxes)) ==> Readable(records, Reversed(d))
  {
    hide Shown, IsLegacy, Reversed;
    forall k | 0 <= k < |records| ensures SafeRecord(records[k]) <==> SafeTexts(d, boxes[k]) {
      assert records[k].codes == boxes[k].codes;
    }
    hide SafeRecord, SafeTexts;
    if RecordsSafe(d, BoxSource(boxes)) {
      forall b | b in records ensures SafeRecord(b) && (Reversed(d) ==> b.sscc != "") {
        var k :| 0 <= k < |records| && records[k] == b;
        assert boxes[k] in boxes;
      }
    }
    if forall b :: b in records ==> SafeRecord(b) {
      forall b | b in boxes ensures SafeTexts(d, b) {
        var k :| 0 <= k < |boxes| && boxes[k] == b;
        assert records[k] in records;
      }
    }
  }

  /** However a TXT export of boxes, in either order, or of the pallet layer is cut into files, reading their records in
      order gives those of the source exactly when no code is empty or holds LF and, in the frozen version, no SSCC
      holds LF. */
  lemma TxtRecordsReadBackIff(input: Input)
    requires RenderShiftExport(input).Ok? && FormatOf(input).extension == Txt
    requires FormatOf(input).boxMode in {Boxes, PalletBoxes}
    ensures var d := FormatOf(input);
      RecordsRead(RenderShiftExport(input).value, Reversed(d)) == Some(SourceRecords(d, input.source))
      <==> RecordsSafe(d, input.source)
  {
    hide RenderShiftExport, FindFormat, CreateBlocks, FORMATS, RenderParts, RenderPart, Split, Joined, Breaks,
         OneLineTexts, CountsItsContent, SumCodes, SumBoxes, SumPallets, AllLines, RecordsRead, SourceRecords,
         RecordsSafe, SafeRecord, RecordLines, Reversed;
    var d, blocks, split, parts := ExportPieces(input);
    SplitNotEmpty(d, blocks, input.maxLines, split, input, parts);
    RecordBlocks(d, input.source);
    if RecordsSafe(d, input.source) {
      forall k | 0 <= k < |parts| ensures parts[k].bytes == EncodeLfText(AllLines(split[k].blocks)) {
        ExportPartFacts(input, d, blocks, split, parts, k);
        PartBytes(d, input, split[k], k + 1, |split| > 1);
      }
      assert Written(Joined(split), SourceRecords(d, input.source), Reversed(d));
      RecordPartsRead(split, parts, SourceRecords(d, input.source), Reversed(d));
    }
  }
}
