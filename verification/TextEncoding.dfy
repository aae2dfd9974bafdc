/** Text documents as bytes: the UTF-8 comparator with its cache, LF text, and semicolon-separated CSV. */
module TextEncoding {
  import opened Wrappers
  import opened Texts
  import opened Utf8

  /** The byte loop of the comparator. */
  method CompareBytes(left: seq<Byte>, right: seq<Byte>) returns (r: int)
    ensures r == Compare(left, right)
    ensures r == -1 <==> Precedes(left, right)
    ensures r == 1 <==> Precedes(right, left)
    ensures r == 0 <==> left == right
  {
    CompareIff(left, right);
    hide Precedes;
    var sharedLength := if |left| < |right| then |left| else |right|;
    for index := 0 to sharedLength
      invariant left[..index] == right[..index]
    {
      if left[index] != right[index] {
        if left[index] < right[index] {
          LessAtCompares(left, right, index);
          return -1;
        } else {
          LessAtCompares(right, left, index);
          return 1;
        }
      }
    }
    assert left == left[..sharedLength] + left[sharedLength..];
    assert right == right[..sharedLength] + right[sharedLength..];
    CompareStripped(left[..sharedLength], left[sharedLength..], right[sharedLength..]);
    return if |left| < |right| then -1 else if |left| > |right| then 1 else 0;
  }

  /** A comparator by UTF-8 bytes that encodes each text once. */
  class ByteComparator<T(!new)> {
    const textOf: T -> string
    var encoded: map<string, seq<Byte>>

    /** The cache holds true encodings only. */
    ghost predicate Valid()
      reads this
    {
      forall text :: text in encoded ==> encoded[text] == Encode(text)
    }

    constructor (textOf: T -> string)
      ensures Valid() && encoded == map[] && this.textOf == textOf
    {
      this.textOf := textOf;
      encoded := map[];
    }

    method BytesOf(value: T) returns (bytes: seq<Byte>)
      requires Valid()
      modifies this
      ensures Valid() && bytes == Encode(textOf(value))
      ensures encoded == old(encoded)[textOf(value) := bytes]
    {
      var text := textOf(value);
      if text in encoded {
        return encoded[text];
      }
      bytes := Encode(text);
      encoded := encoded[text := bytes];
    }

    /** Whatever was compared before, the answer is that of the encodings, hence of the code points. */
    method Compare(left: T, right: T) returns (r: int)
      requires Valid()
      modifies this
      ensures Valid()
      ensures encoded.Keys == old(encoded).Keys + {textOf(left), textOf(right)}
      ensures r == Utf8.Compare(Encode(textOf(left)), Encode(textOf(right)))
      ensures r == Utf8.Compare(CodePoints(textOf(left)), CodePoints(textOf(right)))
      ensures r == -1 <==> TextPrecedes(textOf(left), textOf(right))
      ensures r == 1 <==> TextPrecedes(textOf(right), textOf(left))
      ensures r == 0 <==> textOf(left) == textOf(right)
    {
      ComparesTexts(textOf(left), textOf(right));
      hide TextPrecedes, Precedes;
      var a := BytesOf(left);
      var b := BytesOf(right);
      r := CompareBytes(a, b);
      ByteOrderIsCodePointOrder(textOf(left), textOf(right));
    }
  }

  /** The dictionary order of texts by their characters. */
  ghost predicate TextPrecedes(s: string, t: string) {
    (|s| < |t| && s == t[..|s|]) || exists k: nat :: TextLessAt(s, t, k)
  }

  predicate TextLessAt(s: string, t: string, k: nat) {
    k < |s| && k < |t| && s[..k] == t[..k] && s[k] < t[k]
  }

  lemma {:induction false} PointsAt(s: string, k: nat)
    requires k <= |s|
    ensures CodePoints(s)[..k] == CodePoints(s[..k])
    ensures k < |s| ==> CodePoints(s)[k] == s[k] as int
  {
    if k == 0 {
    } else {
      PointsAt(s[1..], k - 1);
      assert s[..k][1..] == s[1..][..k - 1];
      assert CodePoints(s)[..k] == [s[0] as int] + CodePoints(s[1..])[..k - 1];
    }
  }

  lemma PrecedesAsTexts(s: string, t: string)
    ensures Precedes(CodePoints(s), CodePoints(t)) <==> TextPrecedes(s, t)
  {
    hide CodePoints;
    var a, b := CodePoints(s), CodePoints(t);
    if |s| <= |t| {
      PointsAt(t, |s|);
      SameCodePoints(s, t[..|s|]);
    }
    forall k: nat ensures LessAt(a, b, k) <==> TextLessAt(s, t, k) {
      if k < |s| && k < |t| {
        PointsAt(s, k);
        PointsAt(t, k);
        SameCodePoints(s[..k], t[..k]);
      }
    }
  }

  lemma ComparesTexts(s: string, t: string)
    ensures var r := Compare(Encode(s), Encode(t));
      (r == -1 <==> TextPrecedes(s, t)) && (r == 1 <==> TextPrecedes(t, s)) && (r == 0 <==> s == t)
  {
    hide Precedes, TextPrecedes, Compare, Encode;
    ByteOrderIsCodePointOrder(s, t);
    CompareIff(CodePoints(s), CodePoints(t));
    PrecedesAsTexts(s, t);
    PrecedesAsTexts(t, s);
    SameCodePoints(s, t);
  }

  lemma {:induction false} SameCodePoints(s: string, t: string)
    ensures CodePoints(s) == CodePoints(t) <==> s == t
  {
    if s == "" || t == "" {
    } else {
      SameCodePoints(s[1..], t[1..]);
      assert s == [s[0]] + s[1..] && t == [t[0]] + t[1..];
      assert CodePoints(s)[1..] == CodePoints(s[1..]) && CodePoints(t)[1..] == CodePoints(t[1..]);
    }
  }

  /** The order of the comparator is total: equal only for equal texts, antisymmetric and transitive. */
  lemma ComparatorIsTotalOrder(s: string, t: string, u: string)
    ensures Compare(Encode(s), Encode(t)) in {-1, 0, 1}
    ensures Compare(Encode(s), Encode(t)) == -Compare(Encode(t), Encode(s))
    ensures Compare(Encode(s), Encode(t)) == 0 <==> s == t
    ensures Compare(Encode(s), Encode(t)) <= 0 && Compare(Encode(t), Encode(u)) <= 0
            ==> Compare(Encode(s), Encode(u)) <= 0
  {
    ByteOrderIsCodePointOrder(s, t);
    SameCodePoints(s, t);
    CompareTotal(CodePoints(s), CodePoints(t));
    CompareTotal(Encode(s), Encode(t));
    if Compare(Encode(s), Encode(t)) <= 0 && Compare(Encode(t), Encode(u)) <= 0 {
      CompareTransitive(Encode(s), Encode(t), Encode(u));
    }
  }

  /** lines.join(separator). */
  function Join(lines: seq<string>, separator: string): string {
    if lines == [] then ""
    else if |lines| == 1 then lines[0]
    else lines[0] + separator + Join(lines[1..], separator)
  }

  /** Lines, each ended by LF. */
  function LfText(lines: seq<string>): string {
    if lines == [] then "" else Join(lines, "\n") + "\n"
  }

  function EncodeLfText(lines: seq<string>): seq<Byte> {
    if lines == [] then [] else Encode(Join(lines, "\n") + "\n")
  }

  lemma LfTextCons(lines: seq<string>)
    requires lines != []
    ensures LfText(lines) == lines[0] + "\n" + LfText(lines[1..])
  {
    if |lines| == 1 {
      assert lines[0] + "\n" + "" == lines[0] + "\n";
    }
  }

  /** Line breaks of a text. */
  function TextBreaks(s: string): nat { Breaks(CodePoints(s)) }

  lemma {:induction false} PointsConcat(s: string, t: string)
    ensures CodePoints(s + t) == CodePoints(s) + CodePoints(t)
  {
    if s == "" {
      assert s + t == t;
    } else {
      assert (s + t)[1..] == s[1..] + t;
      PointsConcat(s[1..], t);
    }
  }

  predicate StartsLf(s: string) { s != "" && s[0] == '\n' }

  predicate EndsCr(s: string) { s != "" && s[|s| - 1] == '\r' }

  /** Cutting a text adds up its line breaks unless it cuts a CR LF. */
  lemma {:induction false} BreaksConcat(s: string, t: string)
    requires !(EndsCr(s) && StartsLf(t))
    ensures TextBreaks(s + t) == TextBreaks(s) + TextBreaks(t)
    decreases |s|
  {
    if s == "" {
      assert s + t == t;
    } else {
      var rest := s[1..];
      assert (s + t)[1..] == rest + t;
      if s[0] == '\r' && StartsLf(rest) {
        assert (s + t)[2..] == s[2..] + t;
        assert CodePoints(s)[2..] == CodePoints(s[2..]);
        assert CodePoints(s + t)[2..] == CodePoints(s[2..] + t);
        BreaksConcat(s[2..], t);
      } else {
        BreaksConcat(rest, t);
        StepBreaks(s);
        StepBreaks(s + t);
      }
    }
  }

  /** The first character of a text and its share of the line breaks. */
  lemma StepBreaks(s: string)
    requires s != "" && !(s[0] == '\r' && StartsLf(s[1..]))
    ensures TextBreaks(s) == (if s[0] == '\r' || s[0] == '\n' then 1 else 0) + TextBreaks(s[1..])
  {
    assert CodePoints(s)[1..] == CodePoints(s[1..]);
    if s[1..] != "" {
      assert CodePoints(s)[1] == s[1] as int;
    }
  }

  /** A line that spans one physical line: no LF, and no CR unless it is the last character. */
  predicate OneLine(line: string) {
    forall k :: 0 <= k < |line| ==> line[k] != '\n' && (line[k] == '\r' ==> k == |line| - 1)
  }

  /** A line ended by LF has one line break exactly when it is one physical line, and otherwise more. */
  lemma {:induction false} OneLineIff(line: string)
    ensures TextBreaks(line + "\n") >= 1
    ensures TextBreaks(line + "\n") == 1 <==> OneLine(line)
    decreases |line|
  {
    var s := line + "\n";
    if line == "" {
      assert s == "\n";
      StepBreaks(s);
      assert TextBreaks("") == 0;
    } else {
      var rest := line[1..];
      assert s[1..] == rest + "\n";
      if s[0] == '\r' && StartsLf(s[1..]) {
        CrLfStep(s);
        if rest == "" {
          assert s[2..] == "";
        } else {
          assert s[2..] == line[2..] + "\n";
          OneLineIff(line[2..]);
          assert line[1] == '\n';
        }
      } else {
        StepBreaks(s);
        OneLineIff(rest);
        if s[0] != '\r' && s[0] != '\n' {
          OneLineTail(line);
        } else {
          assert rest != "" || line[0] == '\n';
        }
      }
    }
  }

  lemma OneLineTail(line: string)
    requires line != "" && line[0] != '\r' && line[0] != '\n'
    ensures OneLine(line) <==> OneLine(line[1..])
  {
    if OneLine(line[1..]) {
      forall k | 0 <= k < |line| ensures line[k] != '\n' && (line[k] == '\r' ==> k == |line| - 1) {
        if k > 0 { assert line[k] == line[1..][k - 1]; }
      }
    }
  }

  lemma CrLfStep(s: string)
    requires |s| > 1 && s[0] == '\r' && s[1] == '\n'
    ensures TextBreaks(s) == 1 + TextBreaks(s[2..])
  {
    assert s[1..][1..] == s[2..];
    assert CodePoints(s)[2..] == CodePoints(s[2..]);
    assert CodePoints(s)[1] == s[1] as int;
  }

  /** A text of LF-ended lines has as many line breaks as lines exactly when every line is one physical line. */
  lemma {:induction false} LfTextBreaksIff(lines: seq<string>)
    ensures TextBreaks(LfText(lines)) >= |lines|
    ensures TextBreaks(LfText(lines)) == |lines| <==> forall line :: line in lines ==> OneLine(line)
  {
    if lines == [] {
    } else {
      hide TextBreaks, OneLine, Join;
      var first, rest := lines[0] + "\n", LfText(lines[1..]);
      LfTextCons(lines);
      BreaksConcat(first, rest);
      OneLineIff(lines[0]);
      LfTextBreaksIff(lines[1..]);
      assert forall line :: line in lines <==> line == lines[0] || line in lines[1..];
    }
  }

  /** The bytes of an LF text have the line breaks of the text. */
  lemma LfBytesBreaks(lines: seq<string>)
    ensures Breaks(EncodeLfText(lines)) == TextBreaks(LfText(lines))
  {
    BytesHaveTextBreaks(LfText(lines));
  }

  predicate NoLf(lines: seq<string>) {
    forall line :: line in lines ==> '\n' !in line
  }

  /** The lines of a text in which every line is ended by LF. */
  function SplitLines(s: string): (r: Option<seq<string>>)
    ensures r.Some? ==> NoLf(r.value)
  {
    if s == "" then Some([])
    else
      var i := IndexOf(s, '\n');
      if i < 0 then None
      else match SplitLines(s[i + 1..]) case None => None case Some(rest) => Some([s[..i]] + rest)
  }

  lemma NoLfCons(line: string, rest: seq<string>)
    ensures NoLf([line] + rest) <==> '\n' !in line && NoLf(rest)
  {
    assert forall x :: x in [line] + rest <==> x == line || x in rest;
  }

  lemma FirstLineFound(line: string, rest: string)
    requires '\n' !in line && SplitLines(rest).Some?
    ensures SplitLines(line + "\n" + rest) == Some([line] + SplitLines(rest).value)
  {
    hide IndexOf;
    var s := line + "\n" + rest;
    assert "\n" == ['\n'];
    FoundAfter(line, '\n', rest);
    assert s[..|line|] == line && s[|line| + 1..] == rest;
  }

  /** Lines without LF are found again in their text. */
  lemma {:induction false} LinesFound(lines: seq<string>)
    requires NoLf(lines)
    ensures SplitLines(LfText(lines)) == Some(lines)
  {
    if lines == [] {
    } else {
      assert lines == [lines[0]] + lines[1..];
      NoLfCons(lines[0], lines[1..]);
      hide SplitLines, LfText, NoLf;
      LfTextCons(lines);
      LinesFound(lines[1..]);
      FirstLineFound(lines[0], LfText(lines[1..]));
    }
  }
}
