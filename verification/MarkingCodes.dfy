/** SSCC and marking-code texts, as far as the exports look into them. */
module MarkingCodes {
  import opened Wrappers
  import opened CivilText
  import opened Texts

  const GS: char := '\U{001d}'

  /** The 20-character form of a bare 18-digit SSCC. */
  function FormatSsccWithAi(sscc: string): Option<string> {
    if |sscc| == 18 && AllDigits(sscc) then Some("00" + sscc) else None
  }

  /** The application identifiers after the serial number are well-formed. */
  predicate TailOk(rest: string)
    decreases |rest|
  {
    if rest == "" then true
    else if rest[0] == GS || |rest| <= 2 || !AllDigits(rest[..2]) then false
    else
      var end := IndexOf(rest, GS);
      if end < 0 then true
      else if end <= 2 || end == |rest| - 1 then false
      else TailOk(rest[end + 1..])
  }

  /** GTIN and serial number of a marking code. */
  function ParseKmSegments(raw: string): Option<(string, string)> {
    ParseSegments(if StartsWith(raw, "]d2") then raw[3..] else raw)
  }

  function ParseSegments(s: string): Option<(string, string)> {
    if !StartsWith(s, "01") || |s| < 16 || !AllDigits(s[2..16]) then None
    else
      var t := s[16..];
      if !StartsWith(t, "21") then None
      else
        var gsAt := IndexOf(t, GS);
        var serial := if gsAt < 0 then t[2..] else if gsAt < 2 then "" else t[2..gsAt];
        if serial == "" then None
        else if gsAt >= 0 && (gsAt == |t| - 1 || !TailOk(t[gsAt + 1..])) then None
        else Some((s[2..16], serial))
  }

  // What these texts are, spelled out.

  predicate IsSscc(s: string) { |s| == 18 && AllDigits(s) }

  lemma SsccIff(s: string, shown: string)
    ensures FormatSsccWithAi(s) == Some(shown) <==> IsSscc(s) && shown == "00" + s
  {
  }

  /** The identification of a code: 01 and a GTIN, 21 and a serial number. */
  predicate IsCis(cis: string) {
    && |cis| > 18 && cis[..2] == "01" && AllDigits(cis[2..16]) && cis[16..18] == "21" && GS !in cis[18..]
  }

  /** An application identifier of two digits and its value. */
  predicate IsGroup(g: string) {
    |g| > 2 && AllDigits(g[..2]) && GS !in g
  }

  function JoinGroups(groups: seq<string>): string {
    if groups == [] then ""
    else if |groups| == 1 then groups[0]
    else groups[0] + [GS] + JoinGroups(groups[1..])
  }

  ghost predicate IsTail(tail: string) {
    exists groups :: groups != [] && AllGroups(groups) && tail == JoinGroups(groups)
  }

  predicate AllGroups(groups: seq<string>) {
    forall g :: g in groups ==> IsGroup(g)
  }

  /** The text, or the text with a tail of groups after a separator. */
  ghost predicate Extends(code: string, start: string) {
    start <= code && (code == start || (code[|start|] == GS && IsTail(code[|start| + 1..])))
  }

  /** A scanned code carries this identification: with or without the symbology prefix, with or without a tail. */
  ghost predicate Carries(code: string, cis: string) {
    IsCis(cis) && (Extends(code, cis) || Extends(code, "]d2" + cis))
  }

  lemma {:induction false} GroupsAreTail(groups: seq<string>)
    requires groups != [] && AllGroups(groups)
    ensures JoinGroups(groups) != "" && TailOk(JoinGroups(groups))
  {
    var t := JoinGroups(groups);
    assert groups[0] in groups;
    if |groups| == 1 {
      assert t == groups[0] && t[0] in t;
    } else {
      var rest := JoinGroups(groups[1..]);
      assert forall g :: g in groups[1..] ==> g in groups;
      GroupsAreTail(groups[1..]);
      FoundAfter(groups[0], GS, rest);
      assert t == groups[0] + [GS] + rest;
      assert t[..2] == groups[0][..2] && t[0] == groups[0][0] && groups[0][0] in groups[0];
      assert t[|groups[0]| + 1..] == rest;
    }
  }

  lemma {:induction false} TailHasGroups(t: string) returns (groups: seq<string>)
    requires t != "" && TailOk(t)
    ensures groups != [] && AllGroups(groups) && t == JoinGroups(groups)
    decreases |t|
  {
    var end := IndexOf(t, GS);
    if end < 0 {
      groups := [t];
    } else {
      var more := TailHasGroups(t[end + 1..]);
      var g := t[..end];
      assert g[..2] == t[..2];
      groups := [g] + more;
      assert groups[1..] == more && t == g + [GS] + t[end + 1..];
    }
  }

  lemma TailIff(t: string)
    ensures t != "" && TailOk(t) <==> IsTail(t)
  {
    if t != "" && TailOk(t) {
      var groups := TailHasGroups(t);
    }
    if groups :| groups != [] && AllGroups(groups) && t == JoinGroups(groups) {
      GroupsAreTail(groups);
    }
  }

  lemma SegmentsOf(s: string, g: string, serial: string)
    requires ParseSegments(s) == Some((g, serial))
    ensures |g| == 14 && AllDigits(g) && serial != "" && GS !in serial
    ensures IsCis("01" + g + "21" + serial) && Extends(s, "01" + g + "21" + serial)
  {
    hide TailOk, IndexOf, IsTail;
    var t := s[16..];
    var gsAt := IndexOf(t, GS);
    var cis := "01" + g + "21" + serial;
    assert t[0] == '2' && t[1] == '1';
    assert s == "01" + g + t && (if gsAt < 0 then t == "21" + serial else t[..gsAt] == "21" + serial);
    assert cis[2..16] == g && cis[16..18] == "21" && cis[18..] == serial;
    if gsAt < 0 {
      assert s == cis;
      assert forall c :: c in serial ==> c in t;
    } else {
      assert forall c :: c in serial ==> c in t[..gsAt];
      assert s[..16 + gsAt] == cis && s[|cis| + 1..] == t[gsAt + 1..];
      TailIff(t[gsAt + 1..]);
    }
  }

  lemma SegmentsFound(s: string, cis: string)
    requires IsCis(cis) && Extends(s, cis)
    ensures ParseSegments(s) == Some((cis[2..16], cis[18..]))
  {
    hide TailOk, IndexOf, IsTail;
    var t, serial := s[16..], cis[18..];
    assert s[..2] == cis[..2] && s[2..16] == cis[2..16] && t[..2] == cis[16..18];
    assert GS !in "21" + serial;
    if s == cis {
      assert t == "21" + serial;
      NotFound(t, GS);
    } else {
      var rest := s[|cis| + 1..];
      assert t == "21" + serial + [GS] + rest;
      FoundAfter("21" + serial, GS, rest);
      TailIff(rest);
      assert t[2..2 + |serial|] == serial && t[|serial| + 3..] == rest;
    }
  }

  lemma NotFound(s: string, c: char)
    requires c !in s
    ensures IndexOf(s, c) < 0
  {
  }

  /** Exactly which codes are read, and as what. */
  lemma SegmentsIff(code: string, g: string, serial: string)
    ensures ParseKmSegments(code) == Some((g, serial)) <==>
      |g| == 14 && AllDigits(g) && serial != "" && GS !in serial && Carries(code, "01" + g + "21" + serial)
  {
    hide ParseSegments, IsTail;
    var cis := "01" + g + "21" + serial;
    var s := if StartsWith(code, "]d2") then code[3..] else code;
    if ParseKmSegments(code) == Some((g, serial)) {
      SegmentsOf(s, g, serial);
      if StartsWith(code, "]d2") {
        PrefixedExtends(code, cis);
      }
    }
    if |g| == 14 && AllDigits(g) && serial != "" && GS !in serial && Carries(code, cis) {
      assert cis[2..16] == g && cis[18..] == serial;
      if StartsWith(code, "]d2") {
        assert code[0] == code[..3][0] == ']';
        assert !Extends(code, cis) by { assert cis[0] == '0'; }
        PrefixedExtends(code, cis);
      } else {
        if Extends(code, "]d2" + cis) {
          ExtendsStarts(code, cis);
        }
      }
      SegmentsFound(s, cis);
    }
  }

  lemma ExtendsStarts(code: string, cis: string)
    requires Extends(code, "]d2" + cis)
    ensures StartsWith(code, "]d2")
  {
    hide IsTail;
    var start := "]d2" + cis;
    assert code[..|start|] == start;
    assert code[..3] == start[..3];
  }

  lemma PrefixedExtends(code: string, cis: string)
    requires StartsWith(code, "]d2")
    ensures Extends(code, "]d2" + cis) <==> Extends(code[3..], cis)
  {
    hide IsTail;
    var s, start := code[3..], "]d2" + cis;
    assert code == "]d2" + s;
    if start <= code {
      assert start[3..] == cis && code[..|start|] == start;
      assert s[..|cis|] == code[..|start|][3..];
    }
    if cis <= s {
      assert code[..|start|] == "]d2" + s[..|cis|];
    }
    if |start| < |code| {
      assert code[|start|] == s[|cis|] && code[|start| + 1..] == s[|cis| + 1..];
    }
  }
}
