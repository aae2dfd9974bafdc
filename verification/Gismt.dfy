/** The aggregation document: validation, XML escaping and rendering. */
module Gismt {
  import opened Wrappers
  import opened CivilCalendar
  import opened CivilText
  import opened Utf8
  import opened TextEncoding
  import opened Csv
  import opened MarkingCodes

  datatype Box = Box(sscc: string, codes: seq<string>)

  datatype XmlPallet = XmlPallet(sscc: string, boxSsccs: seq<string>)

  datatype Document = Document(
    documentId: string,
    documentNumber: string,
    fileDateTime: string,
    operationDateTime: string,
    organizationName: string)

  datatype AggError = OrgInnMissing | InvalidOrgInn | InvalidDocumentMetadata | InvalidSscc | InvalidCis

  /** One pack_content element: its code and the codes inside. */
  datatype Pack = Pack(code: string, cis: seq<string>)

  datatype Rendered = Rendered(bytes: seq<Byte>, physicalLineCount: nat, codeCount: nat, boxCount: nat)

  const OVERHEAD_LINES: nat := 10

  predicate IsSpace(c: char) {
    var n := c as int;
    || 9 <= n <= 13 || n == 32 || n == 0xA0 || n == 0x1680 || 0x2000 <= n <= 0x200A
    || n == 0x2028 || n == 0x2029 || n == 0x202F || n == 0x205F || n == 0x3000 || n == 0xFEFF
  }

  /** String.prototype.trim. */
  function Trim(s: string): string
    decreases |s|
  {
    if s == "" then ""
    else if IsSpace(s[0]) then Trim(s[1..])
    else if IsSpace(s[|s| - 1]) then Trim(s[..|s| - 1])
    else s
  }

  predicate Prohibited(c: char) {
    c as int < 0x20 || c as int == 0x7F || c as int == 0xFFFE || c as int == 0xFFFF
  }

  predicate Permitted(s: string) {
    forall k :: 0 <= k < |s| ==> !Prohibited(s[k])
  }

  predicate IsInn(s: string) {
    |s| == 10 && AllDigits(s) && (s[0] != '0' || s[1] != '0')
  }

  /** The length of a text in UTF-16 units, in which JavaScript counts. */
  function Utf16Length(s: string): nat {
    if s == "" then 0 else (if s[0] as int < 0x1_0000 then 1 else 2) + Utf16Length(s[1..])
  }

  predicate IsWithinLength(s: string, max: nat) {
    1 <= Utf16Length(s) <= max && Permitted(s)
  }

  /** What follows the year in a canonical timestamp: -MM-DDTHH:MM:SS.mmmZ. */
  predicate IsTimestampTail(year: int, s: string) {
    && |s| == 20
    && s[0] == '-' && s[3] == '-' && s[6] == 'T' && s[9] == ':' && s[12] == ':' && s[15] == '.' && s[19] == 'Z'
    && AllDigits(s[1..3]) && AllDigits(s[4..6]) && AllDigits(s[7..9]) && AllDigits(s[10..12])
    && AllDigits(s[13..15]) && AllDigits(s[16..19])
    && var p := DateTime(year, NumberOf(s[1..3]), NumberOf(s[4..6]), NumberOf(s[7..9]), NumberOf(s[10..12]),
                         NumberOf(s[13..15]), NumberOf(s[16..19]));
    ValidDateTime(p) && -MAX_TIME <= UtcMillis(p) <= MAX_TIME
  }

  /** The largest time value of a Date. */
  const MAX_TIME: int := 8_640_000_000_000_000

  /** A text that Date.toISOString can return: four-digit years, or signed six-digit years outside 0 to 9999. */
  predicate IsCanonicalTimestamp(s: string) {
    if |s| == 24 then AllDigits(s[..4]) && IsTimestampTail(NumberOf(s[..4]), s[4..])
    else
      && |s| == 27 && (s[0] == '+' || s[0] == '-') && AllDigits(s[1..7])
      && (if s[0] == '+' then NumberOf(s[1..7]) > 9_999 else NumberOf(s[1..7]) > 0)
      && IsTimestampTail(if s[0] == '+' then NumberOf(s[1..7]) else 0 - (NumberOf(s[1..7]) as int), s[7..])
  }

  function ValidateDocument(d: Document): Result<Document, AggError> {
    var documentId, documentNumber, organizationName :=
      Trim(d.documentId), Trim(d.documentNumber), Trim(d.organizationName);
    if !IsWithinLength(documentId, 150) || !IsWithinLength(documentNumber, 150)
       || !IsWithinLength(organizationName, 1000)
       || !IsCanonicalTimestamp(d.fileDateTime) || !IsCanonicalTimestamp(d.operationDateTime)
    then Err(InvalidDocumentMetadata)
    else Ok(Document(documentId, documentNumber, d.fileDateTime, d.operationDateTime, organizationName))
  }

  function XmlText(value: string): string {
    ReplaceAll(ReplaceAll(ReplaceAll(value, '&', "&amp;"), '<', "&lt;"), '>', "&gt;")
  }

  function XmlAttribute(value: string): string {
    ReplaceAll(XmlText(value), '"', "&quot;")
  }

  function FormatSscc(sscc: string): Result<string, AggError> {
    match FormatSsccWithAi(sscc) case None => Err(InvalidSscc) case Some(s) => Ok(s)
  }

  /** The identification part of a marking code. */
  function StripKmCryptoTail(code: string): Result<string, AggError> {
    match ParseKmSegments(code)
    case None => Err(InvalidCis)
    case Some((gtin, serial)) =>
      var cis := "01" + gtin + "21" + serial;
      if Permitted(cis) then Ok(cis) else Err(InvalidCis)
  }

  function BoxPack(box: Box): Result<Pack, AggError> {
    match FormatSscc(box.sscc)
    case Err(e) => Err(e)
    case Ok(code) =>
      match MapAll(box.codes, StripKmCryptoTail) case Err(e) => Err(e) case Ok(cis) => Ok(Pack(code, cis))
  }

  function PalletPack(pallet: XmlPallet): Result<Pack, AggError> {
    match FormatSscc(pallet.sscc)
    case Err(e) => Err(e)
    case Ok(code) =>
      match MapAll(pallet.boxSsccs, FormatSscc) case Err(e) => Err(e) case Ok(cis) => Ok(Pack(code, cis))
  }

  function BoxPacks(boxes: seq<Box>): Result<seq<Pack>, AggError> { MapAll(boxes, BoxPack) }

  function PalletPacks(pallets: seq<XmlPallet>): Result<seq<Pack>, AggError> { MapAll(pallets, PalletPack) }

  const PACK_OPEN: string := "        <pack_content>"
  const PACK_CLOSE: string := "        </pack_content>"
  const CODE_OPEN: string := "            <pack_code>"
  const CODE_CLOSE: string := "</pack_code>"
  const CIS_OPEN: string := "            <cis>"
  const CIS_CLOSE: string := "</cis>"

  function CisLines(cis: seq<string>): seq<string> {
    if cis == [] then [] else [CIS_OPEN + XmlText(cis[0]) + CIS_CLOSE] + CisLines(cis[1..])
  }

  function PackLines(pack: Pack): seq<string> {
    [PACK_OPEN, CODE_OPEN + XmlText(pack.code) + CODE_CLOSE] + CisLines(pack.cis) + [PACK_CLOSE]
  }

  function PacksLines(packs: seq<Pack>): seq<string> {
    if packs == [] then [] else PackLines(packs[0]) + PacksLines(packs[1..])
  }

  const DECLARATION: string := "<?xml version=\"1.0\" encoding=\"UTF-8\"?>"
  const UNIT_ID: string := "<unit_pack document_id=\""
  const UNIT_TIME: string := "\" VerForm=\"1.03\" file_date_time=\""
  const UNIT_END: string := "\" action_id=\"30\" version=\"1\">"
  const DOCUMENT_TIME: string := "    <Document operation_date_time=\""
  const DOCUMENT_NUMBER: string := "\" document_number=\""
  const DOCUMENT_END: string := "\">"
  const ORGANISATION_OPEN: string := "        <organisation>"
  const ID_OPEN: string := "            <id_info>"
  const LP_NAME: string := "                <LP_info org_name=\""
  const LP_TIN: string := "\" LP_TIN=\""
  const LP_END: string := "\" />"
  const ID_CLOSE: string := "            </id_info>"
  const ORGANISATION_CLOSE: string := "        </organisation>"
  const DOCUMENT_CLOSE: string := "    </Document>"
  const UNIT_CLOSE: string := "</unit_pack>"

  /** A line that holds two attribute values. */
  function TwoAttributes(open: string, first: string, between: string, second: string, end: string): string {
    open + XmlAttribute(first) + between + XmlAttribute(second) + end
  }

  function HeadLines(d: Document, inn: string): seq<string> {
    [ DECLARATION,
      TwoAttributes(UNIT_ID, d.documentId, UNIT_TIME, d.fileDateTime, UNIT_END),
      TwoAttributes(DOCUMENT_TIME, d.operationDateTime, DOCUMENT_NUMBER, d.documentNumber, DOCUMENT_END),
      ORGANISATION_OPEN,
      ID_OPEN,
      TwoAttributes(LP_NAME, d.organizationName, LP_TIN, inn, LP_END),
      ID_CLOSE,
      ORGANISATION_CLOSE ]
  }

  function DocumentLines(d: Document, inn: string, packs: seq<Pack>): seq<string> {
    HeadLines(d, inn) + PacksLines(packs) + [DOCUMENT_CLOSE, UNIT_CLOSE]
  }

  function BoxLineCount(box: Box): nat { 3 + |box.codes| }

  function PalletLineCount(pallet: XmlPallet): nat { 3 + |pallet.boxSsccs| }

  function BoxesLineCount(boxes: seq<Box>): nat {
    if boxes == [] then 0 else BoxLineCount(boxes[0]) + BoxesLineCount(boxes[1..])
  }

  function PalletsLineCount(pallets: seq<XmlPallet>): nat {
    if pallets == [] then 0 else PalletLineCount(pallets[0]) + PalletsLineCount(pallets[1..])
  }

  function BoxesCodeCount(boxes: seq<Box>): nat {
    if boxes == [] then 0 else |boxes[0].codes| + BoxesCodeCount(boxes[1..])
  }

  /** Everything a document is made of, once it has been checked: boxes first, pallets after them. */
  function Checked(organizationInn: string, document: Document, boxes: seq<Box>, pallets: seq<XmlPallet>)
    : Result<(string, Document, seq<Pack>), AggError>
  {
    var inn := Trim(organizationInn);
    if inn == "" then Err(OrgInnMissing)
    else if !IsInn(inn) then Err(InvalidOrgInn)
    else
      match ValidateDocument(document)
      case Err(e) => Err(e)
      case Ok(d) =>
        match BoxPacks(boxes)
        case Err(e) => Err(e)
        case Ok(boxPacks) =>
          match PalletPacks(pallets)
          case Err(e) => Err(e)
          case Ok(palletPacks) => Ok((inn, d, boxPacks + palletPacks))
  }

  function RenderXml(organizationInn: string, document: Document, boxes: seq<Box>, pallets: seq<XmlPallet>)
    : Result<Rendered, AggError>
  {
    match Checked(organizationInn, document, boxes, pallets)
    case Err(e) => Err(e)
    case Ok((inn, d, packs)) =>
      Ok(Rendered(
        Encode(Join(DocumentLines(d, inn, packs), "\n") + "\n"),
        OVERHEAD_LINES + BoxesLineCount(boxes) + PalletsLineCount(pallets),
        BoxesCodeCount(boxes),
        |boxes|))
  }
}
