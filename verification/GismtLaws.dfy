/** What the aggregation document says and when it is made, spelled out without the renderer's own functions. */
module GismtLaws {
  import opened Wrappers
  import opened CivilText
  import opened MarkingCodes
  import opened Gismt
  import opened GismtReader
  import opened GismtTimestamps

  /** The forms in which a code is scanned all carry the same identification. */
  lemma CodeForms(gtin: string, serial: string, groups: seq<string>)
    requires |gtin| == 14 && AllDigits(gtin) && serial != "" && GS !in serial && groups != [] && AllGroups(groups)
    ensures var cis := "01" + gtin + "21" + serial;
      && Carries(cis, cis) && Carries("]d2" + cis, cis)
      && Carries(cis + [GS] + JoinGroups(groups), cis) && Carries("]d2" + cis + [GS] + JoinGroups(groups), cis)
  {
    hide JoinGroups, AllGroups;
    var cis, tail := "01" + gtin + "21" + serial, JoinGroups(groups);
    assert cis[2..16] == gtin && cis[16..18] == "21" && cis[18..] == serial;
    assert IsTail(tail);
    Tailed(cis, tail);
    Tailed("]d2" + cis, tail);
  }

  lemma Tailed(start: string, tail: string)
    requires IsTail(tail)
    ensures Extends(start, start) && Extends(start + [GS] + tail, start)
  {
    hide IsTail;
    var code := start + [GS] + tail;
    assert code[..|start|] == start && code[|start| + 1..] == tail;
  }

  /** What is written for a code: the identification it carries, when XML can hold it; any other code is an error. */
  lemma WrittenCodeIff(code: string, cis: string)
    ensures StripKmCryptoTail(code) == Ok(cis) <==> Carries(code, cis) && Permitted(cis)
    ensures StripKmCryptoTail(code).Err? ==> StripKmCryptoTail(code) == Err(InvalidCis)
  {
    hide Permitted, Extends, ParseKmSegments;
    match ParseKmSegments(code) {
      case Some((g, serial)) => SegmentsIff(code, g, serial);
      case None =>
    }
    if Carries(code, cis) {
      var g, serial := cis[2..16], cis[18..];
      assert cis == "01" + g + "21" + serial;
      SegmentsIff(code, g, serial);
    }
  }

  /** A code and the identification to be written for it. */
  ghost predicate WritesCode(code: string, cis: string) { Carries(code, cis) && Permitted(cis) }

  /** The pack_content of a box: 00 and its SSCC, and the identification of each of its codes. */
  ghost predicate WritesBox(box: Box, pack: Pack) {
    && IsSscc(box.sscc) && pack.code == "00" + box.sscc
    && |pack.cis| == |box.codes| && forall k :: 0 <= k < |box.codes| ==> WritesCode(box.codes[k], pack.cis[k])
  }

  /** The pack_content of a pallet: 00 and its SSCC, and 00 and the SSCC of each of its boxes. */
  predicate WritesPallet(sscc: string, boxSsccs: seq<string>, pack: Pack) {
    && IsSscc(sscc) && pack.code == "00" + sscc
    && |pack.cis| == |boxSsccs|
    && forall k :: 0 <= k < |boxSsccs| ==> IsSscc(boxSsccs[k]) && pack.cis[k] == "00" + boxSsccs[k]
  }

  lemma ShownSsccIff(sscc: string, shown: string)
    ensures FormatSscc(sscc) == Ok(shown) <==> IsSscc(sscc) && shown == "00" + sscc
    ensures FormatSscc(sscc).Err? ==> FormatSscc(sscc) == Err(InvalidSscc)
  {
    SsccIff(sscc, shown);
  }

  lemma CodesWritten(codes: seq<string>, cis: seq<string>)
    ensures MapAll(codes, StripKmCryptoTail) == Ok(cis) <==>
      |cis| == |codes| && forall k :: 0 <= k < |codes| ==> WritesCode(codes[k], cis[k])
  {
    hide StripKmCryptoTail, WritesCode, MapAll;
    MapAllIs(codes, StripKmCryptoTail, cis);
    if |cis| == |codes| {
      forall k | 0 <= k < |codes| ensures StripKmCryptoTail(codes[k]) == Ok(cis[k]) <==> WritesCode(codes[k], cis[k]) {
        WrittenCode(codes[k], cis[k]);
      }
    }
  }

  lemma BoxPackIff(box: Box, pack: Pack)
    ensures BoxPack(box) == Ok(pack) <==> WritesBox(box, pack)
  {
    hide StripKmCryptoTail, WritesCode, FormatSscc, IsSscc, MapAll;
    ShownSsccIff(box.sscc, pack.code);
    CodesWritten(box.codes, pack.cis);
  }

  lemma WrittenCode(code: string, cis: string)
    ensures StripKmCryptoTail(code) == Ok(cis) <==> WritesCode(code, cis)
  {
    WrittenCodeIff(code, cis);
  }

  lemma SsccsWritten(ssccs: seq<string>, cis: seq<string>)
    ensures MapAll(ssccs, FormatSscc) == Ok(cis) <==>
      |cis| == |ssccs| && forall k :: 0 <= k < |ssccs| ==> IsSscc(ssccs[k]) && cis[k] == "00" + ssccs[k]
  {
    hide FormatSscc, IsSscc, MapAll;
    MapAllIs(ssccs, FormatSscc, cis);
    if |cis| == |ssccs| {
      forall k | 0 <= k < |ssccs|
        ensures FormatSscc(ssccs[k]) == Ok(cis[k]) <==> IsSscc(ssccs[k]) && cis[k] == "00" + ssccs[k]
      {
        ShownSsccIff(ssccs[k], cis[k]);
      }
    }
  }

  lemma PalletPackIff(pallet: XmlPallet, pack: Pack)
    ensures PalletPack(pallet) == Ok(pack) <==> WritesPallet(pallet.sscc, pallet.boxSsccs, pack)
  {
    hide FormatSscc, IsSscc, MapAll;
    ShownSsccIff(pallet.sscc, pack.code);
    SsccsWritten(pallet.boxSsccs, pack.cis);
  }

  lemma MapAllIs<A, B, E>(items: seq<A>, f: A -> Result<B, E>, values: seq<B>)
    ensures MapAll(items, f) == Ok(values) <==>
      |values| == |items| && forall k :: 0 <= k < |items| ==> f(items[k]) == Ok(values[k])
  {
    hide MapAll;
    if |values| == |items| && forall k :: 0 <= k < |items| ==> f(items[k]) == Ok(values[k]) {
      assert MapAll(items, f).Ok?;
      assert MapAll(items, f).value == values;
    }
  }

  /** Reading a rendered document gives the taxpayer number and the metadata, and then, in order, one pack for each box
      and one for each pallet, with the codes spelled out. */
  lemma DocumentSaysSource(inn: string, d: Document, boxes: seq<Box>, pallets: seq<XmlPallet>)
    requires RenderXml(inn, d, boxes, pallets).Ok?
    ensures ReadDocument(RenderXml(inn, d, boxes, pallets).value.bytes).Some?
    ensures var (i, doc, packs) := ReadDocument(RenderXml(inn, d, boxes, pallets).value.bytes).value;
      && i == Trim(inn)
      && doc == Document(Trim(d.documentId), Trim(d.documentNumber), d.fileDateTime, d.operationDateTime,
                         Trim(d.organizationName))
      && |packs| == |boxes| + |pallets|
      && (forall k :: 0 <= k < |boxes| ==> WritesBox(boxes[k], packs[k]))
      && (forall k :: 0 <= k < |pallets| ==>
            WritesPallet(pallets[k].sscc, pallets[k].boxSsccs, packs[|boxes| + k]))
  {
    hide RenderXml, ReadDocument, Trim, MapAll, BoxPack, PalletPack, WritesBox, WritesPallet;
    RenderedReadsBack(inn, d, boxes, pallets);
    BoxPacksSay(boxes);
    PalletPacksSay(pallets);
  }

  lemma BoxPacksSay(boxes: seq<Box>)
    requires BoxPacks(boxes).Ok?
    ensures |BoxPacks(boxes).value| == |boxes|
    ensures forall k :: 0 <= k < |boxes| ==> WritesBox(boxes[k], BoxPacks(boxes).value[k])
  {
    hide MapAll, BoxPack, WritesBox;
    forall k | 0 <= k < |boxes| ensures WritesBox(boxes[k], BoxPacks(boxes).value[k]) {
      BoxPackIff(boxes[k], BoxPacks(boxes).value[k]);
    }
  }

  lemma PalletPacksSay(pallets: seq<XmlPallet>)
    requires PalletPacks(pallets).Ok?
    ensures |PalletPacks(pallets).value| == |pallets|
    ensures forall k :: 0 <= k < |pallets| ==>
      WritesPallet(pallets[k].sscc, pallets[k].boxSsccs, PalletPacks(pallets).value[k])
  {
    hide MapAll, PalletPack, WritesPallet;
    forall k | 0 <= k < |pallets|
      ensures WritesPallet(pallets[k].sscc, pallets[k].boxSsccs, PalletPacks(pallets).value[k])
    {
      PalletPackIff(pallets[k], PalletPacks(pallets).value[k]);
    }
  }

  // The layout.

  /** The lines of a pack_content element. Its members are cis elements, for pallets too. */
  function PackLayout(pack: Pack): seq<string> {
    [ "        <pack_content>",
      "            <pack_code>" + EscapeText(pack.code) + "</pack_code>" ]
    + seq(|pack.cis|, k requires 0 <= k < |pack.cis| => "            <cis>" + EscapeText(pack.cis[k]) + "</cis>")
    + [ "        </pack_content>" ]
  }

  function PacksLayout(packs: seq<Pack>): seq<string> {
    if packs == [] then [] else PackLayout(packs[0]) + PacksLayout(packs[1..])
  }

  function DocumentLayout(d: Document, inn: string, packs: seq<Pack>): seq<string> {
    [ "<?xml version=\"1.0\" encoding=\"UTF-8\"?>",
      "<unit_pack document_id=\"" + EscapeAttribute(d.documentId) + "\" VerForm=\"1.03\" file_date_time=\""
        + EscapeAttribute(d.fileDateTime) + "\" action_id=\"30\" version=\"1\">",
      "    <Document operation_date_time=\"" + EscapeAttribute(d.operationDateTime) + "\" document_number=\""
        + EscapeAttribute(d.documentNumber) + "\">",
      "        <organisation>",
      "            <id_info>",
      "                <LP_info org_name=\"" + EscapeAttribute(d.organizationName) + "\" LP_TIN=\""
        + EscapeAttribute(inn) + "\" />",
      "            </id_info>",
      "        </organisation>" ]
    + PacksLayout(packs)
    + [ "    </Document>", "</unit_pack>" ]
  }

  lemma {:induction false} CisLayout(cis: seq<string>)
    ensures CisLines(cis)
         == seq(|cis|, k requires 0 <= k < |cis| => "            <cis>" + EscapeText(cis[k]) + "</cis>")
  {
    hide XmlText, EscapeText;
    if cis == [] {
    } else {
      EscapingIsOnePass(cis[0]);
      CisLayout(cis[1..]);
    }
  }

  lemma PackLaidOut(pack: Pack)
    ensures PackLines(pack) == PackLayout(pack)
  {
    hide XmlText, EscapeText, CisLines;
    EscapingIsOnePass(pack.code);
    CisLayout(pack.cis);
  }

  lemma {:induction false} PacksLaidOut(packs: seq<Pack>)
    ensures PacksLines(packs) == PacksLayout(packs)
  {
    hide PackLines, PackLayout;
    if packs == [] {
    } else {
      PackLaidOut(packs[0]);
      PacksLaidOut(packs[1..]);
    }
  }

  /** The document is laid out line by line as the portal takes it. */
  lemma DocumentIsLaidOut(d: Document, inn: string, packs: seq<Pack>)
    ensures DocumentLines(d, inn, packs) == DocumentLayout(d, inn, packs)
  {
    hide XmlAttribute, EscapeAttribute, PacksLines, PacksLayout;
    PacksLaidOut(packs);
    EscapingIsOnePass(d.documentId);
    EscapingIsOnePass(d.fileDateTime);
    EscapingIsOnePass(d.operationDateTime);
    EscapingIsOnePass(d.documentNumber);
    EscapingIsOnePass(d.organizationName);
    EscapingIsOnePass(inn);
  }

  // When a document is made.

  /** Ten digits that do not begin with two zeros: the number of a legal entity. */
  predicate IsLegalEntityInn(s: string) {
    |s| == 10 && AllDigits(s) && !(s[0] == '0' && s[1] == '0')
  }

  predicate GoodText(s: string, max: nat) {
    Utf16Length(s) > 0 && Utf16Length(s) <= max && Permitted(s)
  }

  ghost predicate GoodMetadata(d: Document) {
    && GoodText(Trim(d.documentId), 150) && GoodText(Trim(d.documentNumber), 150)
    && GoodText(Trim(d.organizationName), 1_000)
    && IsIsoText(d.fileDateTime) && IsIsoText(d.operationDateTime)
  }

  ghost predicate GoodCode(code: string) { exists cis :: WritesCode(code, cis) }

  ghost predicate GoodBox(box: Box) { IsSscc(box.sscc) && forall code :: code in box.codes ==> GoodCode(code) }

  predicate GoodPallet(pallet: XmlPallet) {
    IsSscc(pallet.sscc) && forall s :: s in pallet.boxSsccs ==> IsSscc(s)
  }

  lemma GoodCodeIff(code: string)
    ensures GoodCode(code) <==> StripKmCryptoTail(code).Ok?
  {
    hide StripKmCryptoTail, WritesCode;
    if StripKmCryptoTail(code).Ok? {
      WrittenCode(code, StripKmCryptoTail(code).value);
    }
    if cis :| WritesCode(code, cis) {
      WrittenCode(code, cis);
    }
  }

  lemma AllMapped<A, B, E>(items: seq<A>, f: A -> Result<B, E>)
    ensures MapAll(items, f).Ok? <==> forall x :: x in items ==> f(x).Ok?
    ensures MapAll(items, f).Err? ==> exists x :: x in items && f(x) == Err(MapAll(items, f).error)
  {
    hide MapAll;
    if MapAll(items, f).Ok? {
      forall x | x in items ensures f(x).Ok? {
        var k :| 0 <= k < |items| && items[k] == x;
        assert f(items[k]) == Ok(MapAll(items, f).value[k]);
      }
    } else {
      var k :| 0 <= k < |items| && f(items[k]) == Err(MapAll(items, f).error);
      assert items[k] in items;
    }
  }

  lemma {:induction false} FirstError<A, B, E>(items: seq<A>, f: A -> Result<B, E>, k: nat)
    requires k < |items| && f(items[k]).Err? && forall j :: 0 <= j < k ==> f(items[j]).Ok?
    ensures MapAll(items, f) == Err(f(items[k]).error)
  {
    if k == 0 {
    } else {
      assert f(items[0]).Ok? && items[1..][k - 1] == items[k];
      assert forall j :: 0 <= j < k - 1 ==> items[1..][j] == items[j + 1];
      FirstError(items[1..], f, k - 1);
    }
  }

  lemma GoodBoxIff(box: Box)
    ensures GoodBox(box) <==> BoxPack(box).Ok?
    ensures BoxPack(box) == Err(InvalidSscc) <==> !IsSscc(box.sscc)
    ensures BoxPack(box).Err? ==> BoxPack(box).error in {InvalidSscc, InvalidCis}
  {
    hide StripKmCryptoTail, GoodCode, MapAll, FormatSscc, IsSscc;
    ShownSsccIff(box.sscc, "00" + box.sscc);
    if FormatSscc(box.sscc).Ok? {
      ShownSsccIff(box.sscc, FormatSscc(box.sscc).value);
    }
    forall code ensures GoodCode(code) <==> StripKmCryptoTail(code).Ok? {
      GoodCodeIff(code);
    }
    AllMapped(box.codes, StripKmCryptoTail);
    forall code ensures StripKmCryptoTail(code).Err? ==> StripKmCryptoTail(code) == Err(InvalidCis) {
      WrittenCodeIff(code, "");
    }
  }

  lemma GoodPalletIff(pallet: XmlPallet)
    ensures GoodPallet(pallet) <==> PalletPack(pallet).Ok?
    ensures PalletPack(pallet).Err? ==> PalletPack(pallet) == Err(InvalidSscc)
  {
    hide MapAll, FormatSscc, IsSscc;
    forall sscc ensures (FormatSscc(sscc).Ok? <==> IsSscc(sscc))
                        && (FormatSscc(sscc).Err? ==> FormatSscc(sscc) == Err(InvalidSscc)) {
      ShownSsccIff(sscc, "00" + sscc);
      if FormatSscc(sscc).Ok? {
        ShownSsccIff(sscc, FormatSscc(sscc).value);
      }
    }
    AllMapped(pallet.boxSsccs, FormatSscc);
  }

  lemma MetadataWhen(d: Document)
    ensures ValidateDocument(d).Ok? <==> GoodMetadata(d)
    ensures ValidateDocument(d).Err? ==> ValidateDocument(d) == Err(InvalidDocumentMetadata)
  {
    hide Trim, Utf16Length, Permitted, IsIsoText, IsCanonicalTimestamp;
    TimestampIff(d.fileDateTime);
    TimestampIff(d.operationDateTime);
  }

  /** A document is made exactly when the taxpayer number is that of a legal entity, the metadata are within their
      limits, every SSCC has 18 digits and every code carries an identification that XML can hold. */
  lemma RenderedIff(inn: string, d: Document, boxes: seq<Box>, pallets: seq<XmlPallet>)
    ensures RenderXml(inn, d, boxes, pallets).Ok? <==>
      && IsLegalEntityInn(Trim(inn)) && GoodMetadata(d)
      && (forall b :: b in boxes ==> GoodBox(b)) && (forall p :: p in pallets ==> GoodPallet(p))
  {
    hide BoxPack, PalletPack, MapAll, GoodBox, GoodPallet, Trim, GoodMetadata, ValidateDocument;
    forall b ensures GoodBox(b) <==> BoxPack(b).Ok? {
      GoodBoxIff(b);
    }
    forall p ensures GoodPallet(p) <==> PalletPack(p).Ok? {
      GoodPalletIff(p);
    }
    AllMapped(boxes, BoxPack);
    AllMapped(pallets, PalletPack);
    MetadataWhen(d);
  }

  /** The first box that cannot be written. */
  ghost predicate FirstBad(boxes: seq<Box>, k: int) {
    0 <= k < |boxes| && !GoodBox(boxes[k]) && forall j :: 0 <= j < k ==> GoodBox(boxes[j])
  }

  lemma FirstBadNamed(boxes: seq<Box>, k: int)
    requires FirstBad(boxes, k)
    ensures BoxPacks(boxes) == Err(if IsSscc(boxes[k].sscc) then InvalidCis else InvalidSscc)
  {
    hide MapAll, BoxPack, GoodBox, IsSscc;
    forall b ensures (GoodBox(b) <==> BoxPack(b).Ok?) && (BoxPack(b) == Err(InvalidSscc) <==> !IsSscc(b.sscc))
                     && (BoxPack(b).Err? ==> BoxPack(b).error in {InvalidSscc, InvalidCis}) {
      GoodBoxIff(b);
    }
    FirstError(boxes, BoxPack, k);
  }

  /** A wrong taxpayer number comes first, then wrong metadata; with good boxes the fault is in a pallet. */
  lemma RenderErrors(inn: string, d: Document, boxes: seq<Box>, pallets: seq<XmlPallet>)
    requires RenderXml(inn, d, boxes, pallets).Err?
    ensures var e := RenderXml(inn, d, boxes, pallets).error;
      && (e == OrgInnMissing <==> Trim(inn) == "")
      && (e == InvalidOrgInn <==> Trim(inn) != "" && !IsLegalEntityInn(Trim(inn)))
      && (e == InvalidDocumentMetadata <==> IsLegalEntityInn(Trim(inn)) && !GoodMetadata(d))
    ensures IsLegalEntityInn(Trim(inn)) && GoodMetadata(d) && (forall b :: b in boxes ==> GoodBox(b)) ==>
      RenderXml(inn, d, boxes, pallets) == Err(InvalidSscc) && exists p :: p in pallets && !GoodPallet(p)
  {
    hide BoxPack, PalletPack, MapAll, GoodBox, GoodPallet, Trim, GoodMetadata, ValidateDocument, IsSscc, FirstBad;
    forall b ensures (GoodBox(b) <==> BoxPack(b).Ok?)
                     && (BoxPack(b).Err? ==> BoxPack(b).error in {InvalidSscc, InvalidCis}) {
      GoodBoxIff(b);
    }
    forall p ensures (GoodPallet(p) <==> PalletPack(p).Ok?)
                     && (PalletPack(p).Err? ==> PalletPack(p) == Err(InvalidSscc)) {
      GoodPalletIff(p);
    }
    AllMapped(boxes, BoxPack);
    AllMapped(pallets, PalletPack);
    MetadataWhen(d);
  }

  /** Otherwise the error is that of the first box that cannot be written: its SSCC, or else one of its codes. */
  lemma FirstBadBoxNamed(inn: string, d: Document, boxes: seq<Box>, pallets: seq<XmlPallet>, k: int)
    requires IsLegalEntityInn(Trim(inn)) && GoodMetadata(d) && FirstBad(boxes, k)
    ensures RenderXml(inn, d, boxes, pallets) == Err(if IsSscc(boxes[k].sscc) then InvalidCis else InvalidSscc)
  {
    hide BoxPack, PalletPack, MapAll, GoodBox, Trim, GoodMetadata, ValidateDocument, IsSscc;
    FirstBadNamed(boxes, k);
    MetadataWhen(d);
  }

  lemma {:induction false} SomeFirstBad(boxes: seq<Box>, b: Box) returns (k: int)
    requires b in boxes && !GoodBox(b)
    ensures FirstBad(boxes, k)
  {
    hide GoodBox;
    if !GoodBox(boxes[0]) {
      k := 0;
    } else {
      k := SomeFirstBad(boxes[1..], b);
      forall j | 0 <= j < k + 1 ensures GoodBox(boxes[j]) {
        assert j > 0 ==> boxes[j] == boxes[1..][j - 1];
      }
      k := k + 1;
    }
  }

  // The texts in it.

  /** WhiteSpace of section 12.2 of ECMA-262: tab, VT, FF, U+FEFF and the space separators of Unicode. */
  predicate IsWhiteSpace(c: char) {
    var n := c as int;
    || n == 0x9 || n == 0xB || n == 0xC || n == 0xFEFF
    || n == 0x20 || n == 0xA0 || n == 0x1680 || 0x2000 <= n <= 0x200A || n == 0x202F || n == 0x205F || n == 0x3000
  }

  /** LineTerminator of section 12.3. */
  predicate IsLineTerminator(c: char) {
    c as int in {0xA, 0xD, 0x2028, 0x2029}
  }

  /** What trimming removes. */
  lemma SpacesAre(c: char)
    ensures IsSpace(c) <==> IsWhiteSpace(c) || IsLineTerminator(c)
  {
  }

  predicate Blank(s: string) { forall c :: c in s ==> IsSpace(c) }

  /** Trimming takes white space, all of it at both ends, and nothing else. */
  lemma {:induction false} TrimIs(s: string) returns (before: string, after: string)
    ensures s == before + Trim(s) + after && Blank(before) && Blank(after)
    ensures Trim(s) != "" ==> !IsSpace(Trim(s)[0]) && !IsSpace(Trim(s)[|Trim(s)| - 1])
    decreases |s|
  {
    hide IsSpace, Blank;
    before, after := "", "";
    NothingIsBlank();
    if s == "" {
    } else if IsSpace(s[0]) {
      hide Trim;
      before, after := TrimIs(s[1..]);
      TrimFirst(s);
      BlankMore(s[0], before, after);
      before := [s[0]] + before;
    } else if IsSpace(s[|s| - 1]) {
      hide Trim;
      var last := s[|s| - 1];
      before, after := TrimIs(s[..|s| - 1]);
      TrimLast(s);
      BlankMore(last, before, after);
      after := after + [last];
    }
  }

  lemma NothingIsBlank()
    ensures Blank("")
  {
  }

  lemma BlankMore(c: char, before: string, after: string)
    requires IsSpace(c) && Blank(before) && Blank(after)
    ensures Blank([c] + before) && Blank(after + [c])
  {
    hide IsSpace;
  }

  lemma TrimFirst(s: string)
    requires s != "" && IsSpace(s[0])
    ensures Trim(s) == Trim(s[1..]) && s == [s[0]] + s[1..]
  {
    hide IsSpace;
  }

  lemma TrimLast(s: string)
    requires s != "" && !IsSpace(s[0]) && IsSpace(s[|s| - 1])
    ensures Trim(s) == Trim(s[..|s| - 1]) && s == s[..|s| - 1] + [s[|s| - 1]]
  {
    hide IsSpace;
  }

  /** Char of section 2.2 of XML 1.0. */
  predicate IsXmlChar(c: char) {
    var n := c as int;
    n == 0x9 || n == 0xA || n == 0xD || 0x20 <= n <= 0xD7FF || 0xE000 <= n <= 0xFFFD || 0x1_0000 <= n <= 0x10_FFFF
  }

  lemma NotProhibited(c: char)
    ensures !Prohibited(c) <==> IsXmlChar(c) && c as int !in {0x9, 0xA, 0xD, 0x7F}
  {
  }

  /** The characters let through are those of XML without tab, CR, LF and DEL. */
  lemma PermittedIff(s: string)
    ensures Permitted(s) <==> forall c :: c in s ==> IsXmlChar(c) && c as int !in {0x9, 0xA, 0xD, 0x7F}
  {
    hide Prohibited, IsXmlChar;
    forall c | c in s ensures !Prohibited(c) <==> IsXmlChar(c) && c as int !in {0x9, 0xA, 0xD, 0x7F} {
      NotProhibited(c);
    }
    if Permitted(s) {
      forall c | c in s ensures !Prohibited(c) {
        var k :| 0 <= k < |s| && s[k] == c;
      }
    }
  }

  function Astral(s: string): nat {
    if s == "" then 0 else (if s[0] as int > 0xFFFF then 1 else 0) + Astral(s[1..])
  }

  /** A text has one UTF-16 unit for each character and one more for each outside the basic plane. */
  lemma {:induction false} Utf16LengthIs(s: string)
    ensures Utf16Length(s) == |s| + Astral(s)
  {
    if s == "" {
    } else {
      Utf16LengthIs(s[1..]);
    }
  }
}
