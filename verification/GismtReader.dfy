/** Reading a rendered aggregation document back, line by line, with the rules of XML 1.0 for character data
    (section 2.4), attribute-value normalization (section 3.3.3) and the predefined entities (section 4.6). */
module GismtReader {
  import opened Wrappers
  import opened CivilCalendar
  import opened CivilText
  import opened Utf8
  import opened TextEncoding
  import opened Csv
  import opened MarkingCodes
  import opened Texts
  import opened Gismt

  // Escaping in one pass.

  function TextEntity(c: char): string {
    if c == '&' then "&amp;" else if c == '<' then "&lt;" else if c == '>' then "&gt;" else [c]
  }

  function AttributeEntity(c: char): string {
    if c == '"' then "&quot;" else TextEntity(c)
  }

  function EscapeText(s: string): string {
    if s == "" then "" else TextEntity(s[0]) + EscapeText(s[1..])
  }

  function EscapeAttribute(s: string): string {
    if s == "" then "" else AttributeEntity(s[0]) + EscapeAttribute(s[1..])
  }

  lemma {:induction false} ReplaceConcat(a: string, b: string, c: char, put: string)
    ensures ReplaceAll(a + b, c, put) == ReplaceAll(a, c, put) + ReplaceAll(b, c, put)
  {
    if a == "" {
      assert a + b == b;
    } else {
      assert (a + b)[1..] == a[1..] + b;
      ReplaceConcat(a[1..], b, c, put);
    }
  }

  lemma {:induction false} ReplaceNothing(s: string, c: char, put: string)
    requires c !in s
    ensures ReplaceAll(s, c, put) == s
  {
    if s == "" {
    } else {
      assert c !in s[1..];
      ReplaceNothing(s[1..], c, put);
    }
  }

  lemma ReplaceOne(c: char, d: char, put: string)
    ensures ReplaceAll([c], d, put) == if c == d then put else [c]
  {
    assert [c][1..] == "";
  }

  /** What the three text passes make of one character. */
  lemma PassesOnChar(c: char)
    ensures XmlText([c]) == TextEntity(c)
  {
    hide ReplaceAll;
    ReplaceOne(c, '&', "&amp;");
    ReplaceOne(c, '<', "&lt;");
    ReplaceOne(c, '>', "&gt;");
    ReplaceNothing("&amp;", '<', "&lt;");
    ReplaceNothing("&amp;", '>', "&gt;");
    ReplaceNothing("&lt;", '>', "&gt;");
  }

  lemma XmlTextConcat(a: string, b: string)
    ensures XmlText(a + b) == XmlText(a) + XmlText(b)
  {
    hide ReplaceAll;
    ReplaceConcat(a, b, '&', "&amp;");
    var (a1, b1) := (ReplaceAll(a, '&', "&amp;"), ReplaceAll(b, '&', "&amp;"));
    ReplaceConcat(a1, b1, '<', "&lt;");
    ReplaceConcat(ReplaceAll(a1, '<', "&lt;"), ReplaceAll(b1, '<', "&lt;"), '>', "&gt;");
  }

  /** The successive replacements of the renderer are one character map. */
  lemma {:induction false} EscapingIsOnePass(s: string)
    ensures XmlText(s) == EscapeText(s) && XmlAttribute(s) == EscapeAttribute(s)
  {
    if s != "" {
      hide XmlText, ReplaceAll;
      EscapingIsOnePass(s[1..]);
      assert s == [s[0]] + s[1..];
      PassesOnChar(s[0]);
      XmlTextConcat([s[0]], s[1..]);
      ReplaceConcat(TextEntity(s[0]), XmlText(s[1..]), '"', "&quot;");
      QuotePass(s[0]);
    } else {
      assert XmlText("") == "";
    }
  }

  lemma QuotePass(c: char)
    ensures ReplaceAll(TextEntity(c), '"', "&quot;") == AttributeEntity(c)
  {
    hide ReplaceAll;
    ReplaceOne(c, '"', "&quot;");
    ReplaceNothing("&amp;", '"', "&quot;");
    ReplaceNothing("&lt;", '"', "&quot;");
    ReplaceNothing("&gt;", '"', "&quot;");
  }

  // Decoding.

  /** Character data with its entities replaced; None for a stray < or an unknown entity. */
  function DecodeEntities(s: string): Option<string> {
    if s == "" then Some("")
    else if s[0] == '<' then None
    else if s[0] != '&' then Prepend(s[0], DecodeEntities(s[1..]))
    else if StartsWith(s, "&amp;") then Prepend('&', DecodeEntities(s[5..]))
    else if StartsWith(s, "&lt;") then Prepend('<', DecodeEntities(s[4..]))
    else if StartsWith(s, "&gt;") then Prepend('>', DecodeEntities(s[4..]))
    else if StartsWith(s, "&quot;") then Prepend('"', DecodeEntities(s[6..]))
    else None
  }

  function Prepend(c: char, rest: Option<string>): Option<string> {
    match rest case None => None case Some(s) => Some([c] + s)
  }

  lemma DecodeAmp(rest: string)
    ensures DecodeEntities("&amp;" + rest) == Prepend('&', DecodeEntities(rest))
  {
    EntityThen("&amp;", rest);
  }

  lemma DecodeLt(rest: string)
    ensures DecodeEntities("&lt;" + rest) == Prepend('<', DecodeEntities(rest))
  {
    EntityThen("&lt;", rest);
    assert ("&lt;" + rest)[1] == 'l';
  }

  lemma DecodeGt(rest: string)
    ensures DecodeEntities("&gt;" + rest) == Prepend('>', DecodeEntities(rest))
  {
    EntityThen("&gt;", rest);
    assert ("&gt;" + rest)[1] == 'g';
  }

  lemma DecodeQuot(rest: string)
    ensures DecodeEntities("&quot;" + rest) == Prepend('"', DecodeEntities(rest))
  {
    EntityThen("&quot;", rest);
    assert ("&quot;" + rest)[1] == 'q';
  }

  lemma DecodePlain(c: char, rest: string)
    requires c != '&' && c != '<'
    ensures DecodeEntities([c] + rest) == Prepend(c, DecodeEntities(rest))
  {
    assert ([c] + rest)[1..] == rest;
  }

  lemma DecodeOne(c: char, rest: string)
    ensures DecodeEntities(AttributeEntity(c) + rest) == Prepend(c, DecodeEntities(rest))
    ensures DecodeEntities(TextEntity(c) + rest) == Prepend(c, DecodeEntities(rest))
  {
    hide DecodeEntities;
    DecodeAmp(rest);
    DecodeLt(rest);
    DecodeGt(rest);
    DecodeQuot(rest);
    if c != '&' && c != '<' {
      DecodePlain(c, rest);
    }
  }

  lemma EntityThen(e: string, rest: string)
    ensures StartsWith(e + rest, e) && (e + rest)[|e|..] == rest
  {
  }

  /** Decoding inverts both escapings. */
  lemma {:induction false} DecodeInvertsEscape(s: string)
    ensures DecodeEntities(EscapeText(s)) == Some(s) && DecodeEntities(EscapeAttribute(s)) == Some(s)
  {
    if s == "" {
    } else {
      DecodeOne(s[0], EscapeText(s[1..]));
      DecodeOne(s[0], EscapeAttribute(s[1..]));
      DecodeInvertsEscape(s[1..]);
      assert s == [s[0]] + s[1..];
    }
  }

  /** Attribute-value normalization: white space becomes spaces. */
  function Normalize(s: string): string {
    if s == "" then ""
    else (if s[0] in {' ', '\t', '\r', '\n'} then " " else [s[0]]) + Normalize(s[1..])
  }

  lemma {:induction false} NormalizeKeeps(s: string)
    requires '\t' !in s && '\r' !in s && '\n' !in s
    ensures Normalize(s) == s
  {
    if s == "" {
    } else {
      assert forall c :: c in s[1..] ==> c in s;
      NormalizeKeeps(s[1..]);
    }
  }

  // Lines.

  function Prefixed(s: string, prefix: string): Option<string> {
    if StartsWith(s, prefix) then Some(s[|prefix|..]) else None
  }

  function UntilQuote(s: string): (string, string) {
    if s == "" || s[0] == '"' then ("", s) else ([s[0]] + UntilQuote(s[1..]).0, UntilQuote(s[1..]).1)
  }

  /** The value of an attribute that starts after `open`, and what follows it, from its closing quote on. */
  function ReadAttribute(s: string, open: string): Option<(string, string)> {
    match Prefixed(s, open)
    case None => None
    case Some(t) =>
      var (raw, rest) := UntilQuote(t);
      match DecodeEntities(Normalize(raw)) case None => None case Some(v) => Some((v, rest))
  }

  function ReadTwoAttributes(s: string, open: string, between: string, end: string): Option<(string, string)> {
    match ReadAttribute(s, open)
    case None => None
    case Some((first, rest)) =>
      match ReadAttribute(rest, between)
      case None => None
      case Some((second, tail)) => if tail == end then Some((first, second)) else None
  }

  /** The content of a line that is one element. */
  function ReadElement(s: string, open: string, close: string): Option<string> {
    if StartsWith(s, open) && |open| + |close| <= |s| && s[|s| - |close|..] == close
    then DecodeEntities(s[|open|..|s| - |close|])
    else None
  }

  function ReadCis(lines: seq<string>): (r: Option<(seq<string>, seq<string>)>)
    ensures r.Some? ==> |r.value.1| < |lines|
  {
    if lines == [] then None
    else if lines[0] == PACK_CLOSE then Some(([], lines[1..]))
    else
      match ReadElement(lines[0], CIS_OPEN, CIS_CLOSE)
      case None => None
      case Some(cis) =>
        match ReadCis(lines[1..]) case None => None case Some((more, rest)) => Some(([cis] + more, rest))
  }

  /** The pack_content elements at the start of the lines, and the lines after them. */
  function ReadPacks(lines: seq<string>): Option<(seq<Pack>, seq<string>)>
    decreases |lines|
  {
    if lines == [] || lines[0] != PACK_OPEN then Some(([], lines))
    else if |lines| < 2 then None
    else
      match ReadElement(lines[1], CODE_OPEN, CODE_CLOSE)
      case None => None
      case Some(code) =>
        match ReadCis(lines[2..])
        case None => None
        case Some((cis, rest)) =>
          match ReadPacks(rest)
          case None => None
          case Some((more, tail)) => Some(([Pack(code, cis)] + more, tail))
  }

  /** The taxpayer number, the metadata and the packs of a document. */
  function ReadDocument(bytes: seq<Byte>): Option<(string, Document, seq<Pack>)> {
    match Decode(bytes)
    case None => None
    case Some(text) =>
      match SplitLines(text)
      case None => None
      case Some(lines) => ReadLines(lines)
  }

  function ReadLines(lines: seq<string>): Option<(string, Document, seq<Pack>)> {
    if |lines| < 8 || lines[0] != DECLARATION || lines[3] != ORGANISATION_OPEN || lines[4] != ID_OPEN
       || lines[6] != ID_CLOSE || lines[7] != ORGANISATION_CLOSE then None
    else
      match ReadTwoAttributes(lines[1], UNIT_ID, UNIT_TIME, UNIT_END)
      case None => None
      case Some((documentId, fileDateTime)) =>
        match ReadTwoAttributes(lines[2], DOCUMENT_TIME, DOCUMENT_NUMBER, DOCUMENT_END)
        case None => None
        case Some((operationDateTime, documentNumber)) =>
          match ReadTwoAttributes(lines[5], LP_NAME, LP_TIN, LP_END)
          case None => None
          case Some((organizationName, inn)) =>
            match ReadPacks(lines[8..])
            case None => None
            case Some((packs, rest)) =>
              if rest == [DOCUMENT_CLOSE, UNIT_CLOSE]
              then Some((inn, Document(documentId, documentNumber, fileDateTime, operationDateTime, organizationName),
                         packs))
              else None
  }

  // The renderer's lines read back.

  /** No control characters: nothing that ends a line or that normalization would change. */
  predicate Clean(s: string) {
    '\t' !in s && '\r' !in s && '\n' !in s
  }

  lemma PermittedClean(s: string)
    requires Permitted(s)
    ensures Clean(s)
  {
  }

  lemma {:induction false} EscapeClean(s: string)
    requires Clean(s)
    ensures Clean(EscapeText(s)) && Clean(EscapeAttribute(s)) && '"' !in EscapeAttribute(s)
  {
    if s == "" {
    } else {
      assert forall c :: c in s[1..] ==> c in s;
      EscapeClean(s[1..]);
      assert s[0] in s;
      EntitiesClean(s[0]);
    }
  }

  lemma EntitiesClean(c: char)
    requires c != '\t' && c != '\r' && c != '\n'
    ensures Clean(TextEntity(c)) && Clean(AttributeEntity(c)) && '"' !in AttributeEntity(c)
  {
  }

  lemma {:induction false} UntilQuoteStops(v: string, rest: string)
    requires '"' !in v && rest != "" && rest[0] == '"'
    ensures UntilQuote(v + rest) == (v, rest)
  {
    if v == "" {
      assert v + rest == rest;
    } else {
      assert (v + rest)[1..] == v[1..] + rest && (v + rest)[0] == v[0];
      assert v[0] in v && forall c :: c in v[1..] ==> c in v;
      UntilQuoteStops(v[1..], rest);
      assert v == [v[0]] + v[1..];
    }
  }

  lemma AttributeRead(open: string, v: string, rest: string)
    requires Clean(v) && rest != "" && rest[0] == '"'
    ensures ReadAttribute(open + XmlAttribute(v) + rest, open) == Some((v, rest))
  {
    hide XmlAttribute, EscapeAttribute, UntilQuote, DecodeEntities, Normalize;
    EscapingIsOnePass(v);
    EscapeClean(v);
    var raw := EscapeAttribute(v);
    assert open + raw + rest == open + (raw + rest);
    EntityThen(open, raw + rest);
    UntilQuoteStops(raw, rest);
    NormalizeKeeps(raw);
    DecodeInvertsEscape(v);
  }

  lemma TwoAttributesRead(open: string, v: string, between: string, w: string, end: string)
    requires Clean(v) && Clean(w)
    requires between != "" && between[0] == '"' && end != "" && end[0] == '"'
    ensures ReadTwoAttributes(TwoAttributes(open, v, between, w, end), open, between, end) == Some((v, w))
  {
    hide XmlAttribute, ReadAttribute;
    var rest := between + XmlAttribute(w) + end;
    assert TwoAttributes(open, v, between, w, end) == open + XmlAttribute(v) + rest;
    AttributeRead(open, v, rest);
    AttributeRead(between, w, end);
  }

  lemma ElementRead(open: string, v: string, close: string)
    ensures ReadElement(open + XmlText(v) + close, open, close) == Some(v)
  {
    hide XmlText, EscapeText, DecodeEntities;
    EscapingIsOnePass(v);
    DecodeInvertsEscape(v);
    var s := open + XmlText(v) + close;
    assert s[|open|..|s| - |close|] == XmlText(v);
  }

  lemma {:induction false} CisRead(cis: seq<string>, rest: seq<string>)
    ensures ReadCis(CisLines(cis) + ([PACK_CLOSE] + rest)) == Some((cis, rest))
  {
    var lines := CisLines(cis) + ([PACK_CLOSE] + rest);
    if cis == [] {
      assert lines == [PACK_CLOSE] + rest;
      assert lines[1..] == rest;
    } else {
      assert lines[1..] == CisLines(cis[1..]) + ([PACK_CLOSE] + rest);
      CisRead(cis[1..], rest);
      hide XmlText;
      ElementRead(CIS_OPEN, cis[0], CIS_CLOSE);
      LineIsNotClose(CIS_OPEN + XmlText(cis[0]) + CIS_CLOSE);
      assert cis == [cis[0]] + cis[1..];
    }
  }

  /** A cis line starts deeper than the line that closes a pack_content. */
  lemma LineIsNotClose(s: string)
    requires StartsWith(s, CIS_OPEN)
    ensures s != PACK_CLOSE
  {
    assert s[8] == s[..|CIS_OPEN|][8];
    assert CIS_OPEN[8] == ' ' && PACK_CLOSE[8] == '<';
  }

  lemma PackRead(pack: Pack, after: seq<string>)
    requires ReadPacks(after).Some?
    ensures ReadPacks(PackLines(pack) + after)
         == Some(([pack] + ReadPacks(after).value.0, ReadPacks(after).value.1))
  {
    hide XmlText, CisLines, ReadCis, ReadElement;
    var lines := PackLines(pack) + after;
    assert lines[1] == CODE_OPEN + XmlText(pack.code) + CODE_CLOSE;
    assert lines[2..] == CisLines(pack.cis) + ([PACK_CLOSE] + after);
    ElementRead(CODE_OPEN, pack.code, CODE_CLOSE);
    CisRead(pack.cis, after);
  }

  lemma {:induction false} PacksRead(packs: seq<Pack>, rest: seq<string>)
    requires rest != [] && rest[0] != PACK_OPEN
    ensures ReadPacks(PacksLines(packs) + rest) == Some((packs, rest))
  {
    if packs == [] {
      assert PacksLines(packs) + rest == rest;
    } else {
      hide PackLines, ReadPacks;
      var after := PacksLines(packs[1..]) + rest;
      assert PacksLines(packs) + rest == PackLines(packs[0]) + after;
      PacksRead(packs[1..], rest);
      PackRead(packs[0], after);
      assert packs == [packs[0]] + packs[1..];
    }
  }

  predicate CleanDocument(d: Document, inn: string) {
    && Clean(d.documentId) && Clean(d.documentNumber) && Clean(d.fileDateTime) && Clean(d.operationDateTime)
    && Clean(d.organizationName) && Clean(inn)
  }

  /** The lines of a document read back as what they were made from. */
  lemma LinesRead(d: Document, inn: string, packs: seq<Pack>)
    requires CleanDocument(d, inn)
    ensures ReadLines(DocumentLines(d, inn, packs)) == Some((inn, d, packs))
  {
    hide TwoAttributes, ReadTwoAttributes, ReadPacks, PacksLines, Clean;
    var lines, rest := DocumentLines(d, inn, packs), [DOCUMENT_CLOSE, UNIT_CLOSE];
    assert lines[8..] == PacksLines(packs) + rest;
    assert rest[0] != PACK_OPEN by { assert DOCUMENT_CLOSE[4] == '<' && PACK_OPEN[4] == ' '; }
    PacksRead(packs, rest);
    TwoAttributesRead(UNIT_ID, d.documentId, UNIT_TIME, d.fileDateTime, UNIT_END);
    TwoAttributesRead(DOCUMENT_TIME, d.operationDateTime, DOCUMENT_NUMBER, d.documentNumber, DOCUMENT_END);
    TwoAttributesRead(LP_NAME, d.organizationName, LP_TIN, inn, LP_END);
    assert lines[1] == TwoAttributes(UNIT_ID, d.documentId, UNIT_TIME, d.fileDateTime, UNIT_END);
    assert lines[2]
        == TwoAttributes(DOCUMENT_TIME, d.operationDateTime, DOCUMENT_NUMBER, d.documentNumber, DOCUMENT_END);
    assert lines[5] == TwoAttributes(LP_NAME, d.organizationName, LP_TIN, inn, LP_END);
  }

  predicate AllClean(lines: seq<string>) {
    forall k :: 0 <= k < |lines| ==> Clean(lines[k])
  }

  lemma CleanLinesHaveNoLf(lines: seq<string>)
    requires AllClean(lines)
    ensures NoLf(lines)
  {
    hide Clean;
    forall line | line in lines ensures '\n' !in line {
      CleanHasNoLf(line);
    }
  }

  lemma CleanHasNoLf(s: string)
    requires Clean(s)
    ensures '\n' !in s
  {
  }

  lemma CleanConcat(a: string, b: string)
    ensures Clean(a + b) <==> Clean(a) && Clean(b)
  {
  }

  lemma LineClean(open: string, v: string, close: string)
    requires Clean(open) && Clean(v) && Clean(close)
    ensures Clean(open + v + close)
  {
  }

  lemma DigitsClean(s: string)
    requires AllDigits(s)
    ensures Permitted(s)
  {
    forall k | 0 <= k < |s| ensures !Prohibited(s[k]) {
      assert IsDigit(s[k]);
    }
  }

  /** Canonical timestamps consist of digits, signs and separators. */
  lemma TimestampClean(s: string)
    requires IsCanonicalTimestamp(s)
    ensures Clean(s)
  {
    if |s| == 24 {
      TailClean(NumberOf(s[..4]), s[4..]);
      DigitsClean(s[..4]);
      PermittedClean(s[..4]);
      assert s == s[..4] + s[4..];
    } else {
      var n: int := NumberOf(s[1..7]);
      TailClean(if s[0] == '+' then n else 0 - n, s[7..]);
      DigitsClean(s[1..7]);
      PermittedClean(s[1..7]);
      assert s == [s[0]] + s[1..7] + s[7..];
    }
  }

  lemma TailClean(year: int, s: string)
    requires IsTimestampTail(year, s)
    ensures Clean(s)
  {
    hide Clean, NumberOf, UtcMillis, ValidDateTime;
    DigitsClean(s[1..3]);
    DigitsClean(s[4..6]);
    DigitsClean(s[7..9]);
    DigitsClean(s[10..12]);
    DigitsClean(s[13..15]);
    DigitsClean(s[16..19]);
    assert s == ['-'] + s[1..3] + ['-'] + s[4..6] + ['T'] + s[7..9] + [':'] + s[10..12] + [':']
                + s[13..15] + ['.'] + s[16..19] + ['Z'];
    assert Permitted(s);
    PermittedClean(s);
  }

  predicate CleanPack(pack: Pack) {
    Clean(pack.code) && AllClean(pack.cis)
  }

  predicate CleanPacks(packs: seq<Pack>) {
    forall k :: 0 <= k < |packs| ==> CleanPack(packs[k])
  }

  lemma SsccClean(sscc: string)
    requires FormatSscc(sscc).Ok?
    ensures Clean(FormatSscc(sscc).value)
  {
    DigitsClean(sscc);
    PermittedClean(sscc);
    CleanConcat("00", sscc);
  }

  lemma BoxPackClean(box: Box)
    requires BoxPack(box).Ok?
    ensures CleanPack(BoxPack(box).value) && |BoxPack(box).value.cis| == |box.codes|
  {
    hide ParseKmSegments, Clean, Permitted;
    SsccClean(box.sscc);
    forall k | 0 <= k < |box.codes| ensures Clean(BoxPack(box).value.cis[k]) {
      assert StripKmCryptoTail(box.codes[k]) == Ok(BoxPack(box).value.cis[k]);
      PermittedClean(BoxPack(box).value.cis[k]);
    }
  }

  lemma PalletPackClean(pallet: XmlPallet)
    requires PalletPack(pallet).Ok?
    ensures CleanPack(PalletPack(pallet).value) && |PalletPack(pallet).value.cis| == |pallet.boxSsccs|
  {
    hide Clean;
    SsccClean(pallet.sscc);
    forall k | 0 <= k < |pallet.boxSsccs| ensures Clean(PalletPack(pallet).value.cis[k]) {
      SsccClean(pallet.boxSsccs[k]);
    }
  }

  lemma CheckedIsClean(inn: string, d: Document, boxes: seq<Box>, pallets: seq<XmlPallet>)
    requires Checked(inn, d, boxes, pallets).Ok?
    ensures var (i, doc, packs) := Checked(inn, d, boxes, pallets).value;
      CleanDocument(doc, i) && CleanPacks(packs)
  {
    hide Clean, Trim, IsTimestampTail, BoxPack, PalletPack, MapAll;
    var (i, doc, packs) := Checked(inn, d, boxes, pallets).value;
    DigitsClean(i);
    PermittedClean(i);
    PermittedClean(doc.documentId);
    PermittedClean(doc.documentNumber);
    PermittedClean(doc.organizationName);
    TimestampClean(doc.fileDateTime);
    TimestampClean(doc.operationDateTime);
    forall k | 0 <= k < |packs| ensures CleanPack(packs[k]) {
      if k < |boxes| {
        BoxPackClean(boxes[k]);
      } else {
        PalletPackClean(pallets[k - |boxes|]);
      }
    }
  }

  lemma TextClean(v: string)
    requires Clean(v)
    ensures Clean(XmlText(v)) && Clean(XmlAttribute(v))
  {
    hide XmlText, XmlAttribute;
    EscapingIsOnePass(v);
    EscapeClean(v);
  }

  lemma {:induction false} CisLinesClean(cis: seq<string>)
    requires AllClean(cis)
    ensures AllClean(CisLines(cis)) && |CisLines(cis)| == |cis|
  {
    if cis == [] {
    } else {
      hide XmlText, Clean;
      TextClean(cis[0]);
      CisTextsClean();
      LineClean(CIS_OPEN, XmlText(cis[0]), CIS_CLOSE);
      CisLinesClean(cis[1..]);
    }
  }

  lemma PackLinesClean(pack: Pack)
    requires CleanPack(pack)
    ensures AllClean(PackLines(pack)) && |PackLines(pack)| == 3 + |pack.cis|
  {
    hide XmlText, CisLines, Clean;
    TextClean(pack.code);
    PackTextsClean();
    LineClean(CODE_OPEN, XmlText(pack.code), CODE_CLOSE);
    CisLinesClean(pack.cis);
  }

  function CisCounts(packs: seq<Pack>): nat {
    if packs == [] then 0 else 3 + |packs[0].cis| + CisCounts(packs[1..])
  }

  lemma {:induction false} PacksLinesClean(packs: seq<Pack>)
    requires CleanPacks(packs)
    ensures AllClean(PacksLines(packs)) && |PacksLines(packs)| == CisCounts(packs)
  {
    if packs == [] {
    } else {
      hide PackLines, CleanPack;
      assert CleanPack(packs[0]);
      PackLinesClean(packs[0]);
      PacksLinesClean(packs[1..]);
    }
  }

  lemma AttributesClean(open: string, v: string, between: string, w: string, end: string)
    requires Clean(open) && Clean(v) && Clean(between) && Clean(w) && Clean(end)
    ensures Clean(TwoAttributes(open, v, between, w, end))
  {
    hide XmlAttribute;
    TextClean(v);
    TextClean(w);
  }

  lemma Printable(s: string)
    requires forall c :: c in s ==> ' ' <= c
    ensures Clean(s)
  {
  }

  lemma DeclarationClean()
    ensures Clean(DECLARATION)
  {
    hide Clean;
    Printable(DECLARATION);
  }

  lemma UnitTextsClean()
    ensures Clean(UNIT_ID) && Clean(UNIT_END)
  {
    hide Clean;
    Printable(UNIT_ID);
    Printable(UNIT_END);
  }

  lemma UnitTimeClean()
    ensures Clean(UNIT_TIME)
  {
    hide Clean;
    Printable(UNIT_TIME);
  }

  lemma DocumentTextsClean()
    ensures Clean(DOCUMENT_TIME) && Clean(DOCUMENT_NUMBER) && Clean(DOCUMENT_END)
  {
    hide Clean;
    Printable(DOCUMENT_TIME);
    Printable(DOCUMENT_NUMBER);
    Printable(DOCUMENT_END);
  }

  lemma OrganisationTextsClean()
    ensures Clean(ORGANISATION_OPEN) && Clean(ORGANISATION_CLOSE) && Clean(ID_OPEN) && Clean(ID_CLOSE)
  {
    hide Clean;
    Printable(ORGANISATION_OPEN);
    Printable(ORGANISATION_CLOSE);
    Printable(ID_OPEN);
    Printable(ID_CLOSE);
  }

  lemma LpTextsClean()
    ensures Clean(LP_NAME) && Clean(LP_TIN) && Clean(LP_END)
  {
    hide Clean;
    Printable(LP_NAME);
    Printable(LP_TIN);
    Printable(LP_END);
  }

  lemma PackTextsClean()
    ensures Clean(PACK_OPEN) && Clean(PACK_CLOSE) && Clean(CODE_OPEN) && Clean(CODE_CLOSE)
  {
    hide Clean;
    Printable(PACK_OPEN);
    Printable(PACK_CLOSE);
    Printable(CODE_OPEN);
    Printable(CODE_CLOSE);
  }

  lemma CisTextsClean()
    ensures Clean(CIS_OPEN) && Clean(CIS_CLOSE)
  {
    hide Clean;
    Printable(CIS_OPEN);
    Printable(CIS_CLOSE);
  }

  lemma FootClean()
    ensures Clean(DOCUMENT_CLOSE) && Clean(UNIT_CLOSE)
  {
    hide Clean;
    Printable(DOCUMENT_CLOSE);
    Printable(UNIT_CLOSE);
  }

  lemma HeadLinesClean(d: Document, inn: string)
    requires CleanDocument(d, inn)
    ensures AllClean(HeadLines(d, inn))
  {
    hide TwoAttributes, Clean;
    DeclarationClean();
    UnitTimeClean();
    UnitTextsClean();
    DocumentTextsClean();
    OrganisationTextsClean();
    LpTextsClean();
    AttributesClean(UNIT_ID, d.documentId, UNIT_TIME, d.fileDateTime, UNIT_END);
    AttributesClean(DOCUMENT_TIME, d.operationDateTime, DOCUMENT_NUMBER, d.documentNumber, DOCUMENT_END);
    AttributesClean(LP_NAME, d.organizationName, LP_TIN, inn, LP_END);
  }

  lemma DocumentLinesClean(d: Document, inn: string, packs: seq<Pack>)
    requires CleanDocument(d, inn) && CleanPacks(packs)
    ensures AllClean(DocumentLines(d, inn, packs))
    ensures |DocumentLines(d, inn, packs)| == OVERHEAD_LINES + CisCounts(packs)
  {
    hide HeadLines, Clean, PacksLines, CleanPacks;
    HeadLinesClean(d, inn);
    HeadCount(d, inn);
    PacksLinesClean(packs);
    FootClean();
  }

  lemma HeadCount(d: Document, inn: string)
    ensures |HeadLines(d, inn)| == 8
  {
  }

  lemma {:induction false} CisCountsConcat(a: seq<Pack>, b: seq<Pack>)
    ensures CisCounts(a + b) == CisCounts(a) + CisCounts(b)
  {
    if a == [] {
      assert a + b == b;
    } else {
      assert (a + b)[1..] == a[1..] + b;
      CisCountsConcat(a[1..], b);
    }
  }

  lemma {:induction false} BoxPacksCount(boxes: seq<Box>)
    requires BoxPacks(boxes).Ok?
    ensures CisCounts(BoxPacks(boxes).value) == BoxesLineCount(boxes)
  {
    if boxes == [] {
    } else {
      hide BoxPack;
      BoxPackClean(boxes[0]);
      BoxPacksCount(boxes[1..]);
      assert BoxPacks(boxes).value[1..] == BoxPacks(boxes[1..]).value;
    }
  }

  lemma {:induction false} PalletPacksCount(pallets: seq<XmlPallet>)
    requires PalletPacks(pallets).Ok?
    ensures CisCounts(PalletPacks(pallets).value) == PalletsLineCount(pallets)
  {
    if pallets == [] {
    } else {
      hide PalletPack;
      PalletPackClean(pallets[0]);
      PalletPacksCount(pallets[1..]);
      assert PalletPacks(pallets).value[1..] == PalletPacks(pallets[1..]).value;
    }
  }

  lemma CleanIsOneLine(s: string)
    requires Clean(s)
    ensures OneLine(s)
  {
  }

  /** A rendered document reads back as the trimmed taxpayer number, the trimmed metadata and the packs of its boxes
      and pallets, in order. */
  lemma RenderedReadsBack(inn: string, d: Document, boxes: seq<Box>, pallets: seq<XmlPallet>)
    requires RenderXml(inn, d, boxes, pallets).Ok?
    ensures BoxPacks(boxes).Ok? && PalletPacks(pallets).Ok?
    ensures ReadDocument(RenderXml(inn, d, boxes, pallets).value.bytes)
         == Some((Trim(inn),
                  Document(Trim(d.documentId), Trim(d.documentNumber), d.fileDateTime, d.operationDateTime,
                           Trim(d.organizationName)),
                  BoxPacks(boxes).value + PalletPacks(pallets).value))
  {
    hide ReadLines, SplitLines, Decode, DocumentLines, Encode, Join, Trim, CleanDocument, CleanPacks, AllClean,
         IsCanonicalTimestamp, IsWithinLength;
    var (i, doc, packs) := Checked(inn, d, boxes, pallets).value;
    CheckedIsClean(inn, d, boxes, pallets);
    DocumentLinesClean(doc, i, packs);
    var lines := DocumentLines(doc, i, packs);
    DecodeEncode(LfText(lines));
    CleanLinesHaveNoLf(lines);
    LinesFound(lines);
    LinesRead(doc, i, packs);
  }

  /** Clean lines have one line break each. */
  lemma CleanLinesBreaks(lines: seq<string>)
    requires AllClean(lines)
    ensures Breaks(Encode(LfText(lines))) == |lines|
  {
    hide Encode, Breaks, Join, Clean, OneLine;
    forall line | line in lines ensures OneLine(line) {
      var k :| 0 <= k < |lines| && lines[k] == line;
      CleanIsOneLine(line);
    }
    BytesHaveTextBreaks(LfText(lines));
    LfTextBreaksIff(lines);
  }

  /** The physical line count of a rendered document is the number of line breaks in its bytes. */
  lemma RenderedLineCount(inn: string, d: Document, boxes: seq<Box>, pallets: seq<XmlPallet>)
    requires RenderXml(inn, d, boxes, pallets).Ok?
    ensures var r := RenderXml(inn, d, boxes, pallets).value;
      && r.physicalLineCount == Breaks(r.bytes)
      && r.codeCount == BoxesCodeCount(boxes) && r.boxCount == |boxes|
  {
    hide DocumentLines, Encode, Join, Trim, CleanDocument, CleanPacks, Breaks, BoxPacks, PalletPacks, Clean,
         IsCanonicalTimestamp, IsWithinLength, AllClean, BoxesLineCount, PalletsLineCount, BoxesCodeCount, CisCounts;
    var (i, doc, packs) := Checked(inn, d, boxes, pallets).value;
    CheckedIsClean(inn, d, boxes, pallets);
    DocumentLinesClean(doc, i, packs);
    CleanLinesBreaks(DocumentLines(doc, i, packs));
    CisCountsConcat(BoxPacks(boxes).value, PalletPacks(pallets).value);
    BoxPacksCount(boxes);
    PalletPacksCount(pallets);
  }
}
