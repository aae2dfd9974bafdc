/** Cutting blocks into parts under a line cap. */
module BlockSplit {
  import opened Wrappers
  import opened Gismt
  import opened ShiftBlocks

  datatype PartBlocks = PartBlocks(blocks: seq<Block>, physicalLineCount: nat)

  function HeaderLines(d: Descriptor): nat {
    match d.extension case CsvExtension => 1 case Xml => OVERHEAD_LINES case Txt => 0
  }

  predicate TooBig(header: nat, max: int, b: Block) { header + b.physicalLineCount > max }

  function LimitError(b: Block): ExportError {
    if b.isPalletGroup then PalletExceedsLineLimit else BoxExceedsLineLimit
  }

  function Consed(p: PartBlocks, r: Result<seq<PartBlocks>, ExportError>): Result<seq<PartBlocks>, ExportError> {
    match r case Err(e) => Err(e) case Ok(ps) => Ok([p] + ps)
  }

  /** The parts still to come when `current` is open and `blocks` are left. */
  function Greedy(header: nat, max: int, blocks: seq<Block>, current: PartBlocks)
    : Result<seq<PartBlocks>, ExportError>
  {
    if blocks == [] then Ok([current])
    else
      var b := blocks[0];
      if TooBig(header, max, b) then Err(LimitError(b))
      else if current.blocks != [] && current.physicalLineCount + b.physicalLineCount > max then
        Consed(current, Greedy(header, max, blocks[1..], PartBlocks([b], header + b.physicalLineCount)))
      else
        Greedy(header, max, blocks[1..],
               PartBlocks(current.blocks + [b], current.physicalLineCount + b.physicalLineCount))
  }

  function Split(d: Descriptor, blocks: seq<Block>, maxLines: Option<int>): Result<seq<PartBlocks>, ExportError> {
    match maxLines
    case None => Ok([PartBlocks(blocks, HeaderLines(d) + SumLines(blocks))])
    case Some(max) => Greedy(HeaderLines(d), max, blocks, PartBlocks([], HeaderLines(d)))
  }

  function Prepended(ps: seq<PartBlocks>, r: Result<seq<PartBlocks>, ExportError>)
    : Result<seq<PartBlocks>, ExportError>
  {
    match r case Err(e) => Err(e) case Ok(qs) => Ok(ps + qs)
  }

  lemma NothingPrepended(r: Result<seq<PartBlocks>, ExportError>)
    ensures Prepended([], r) == r
  {
    if r.Ok? { assert [] + r.value == r.value; }
  }

  /** The loop over the blocks. */
  method SplitBlocks(d: Descriptor, blocks: seq<Block>, maxLines: Option<int>)
    returns (r: Result<seq<PartBlocks>, ExportError>)
    ensures r == Split(d, blocks, maxLines)
  {
    var headerLines := HeaderLines(d);
    if maxLines.None? {
      return Ok([PartBlocks(blocks, headerLines + SumLines(blocks))]);
    }
    var max := maxLines.value;
    var parts: seq<PartBlocks> := [];
    var currentBlocks: seq<Block> := [];
    var currentPhysicalLineCount: nat := headerLines;
    assert blocks[0..] == blocks;
    NothingPrepended(Split(d, blocks, maxLines));
    for i := 0 to |blocks|
      invariant Split(d, blocks, maxLines) == Prepended(
        parts, Greedy(headerLines, max, blocks[i..], PartBlocks(currentBlocks, currentPhysicalLineCount)))
    {
      var block := blocks[i];
      assert blocks[i..][1..] == blocks[i + 1..];
      if headerLines + block.physicalLineCount > max {
        return Err(if block.isPalletGroup then PalletExceedsLineLimit else BoxExceedsLineLimit);
      }
      if |currentBlocks| > 0 && currentPhysicalLineCount + block.physicalLineCount > max {
        ghost var open := PartBlocks(currentBlocks, currentPhysicalLineCount);
        ghost var later :=
          Greedy(headerLines, max, blocks[i + 1..], PartBlocks([block], headerLines + block.physicalLineCount));
        assert later.Ok? ==> parts + ([open] + later.value) == (parts + [open]) + later.value;
        parts := parts + [PartBlocks(currentBlocks, currentPhysicalLineCount)];
        currentBlocks := [];
        currentPhysicalLineCount := headerLines;
        assert [] + [block] == [block];
      }
      currentBlocks := currentBlocks + [block];
      currentPhysicalLineCount := currentPhysicalLineCount + block.physicalLineCount;
    }
    assert blocks[|blocks|..] == [];
    parts := parts + [PartBlocks(currentBlocks, currentPhysicalLineCount)];
    return Ok(parts);
  }

  function Joined(parts: seq<PartBlocks>): seq<Block> {
    if parts == [] then [] else parts[0].blocks + Joined(parts[1..])
  }

  /** A part that counts its lines and stays within the cap. */
  predicate PartOk(header: nat, max: int, p: PartBlocks) {
    p.physicalLineCount == header + SumLines(p.blocks) && p.physicalLineCount <= max
  }

  lemma {:induction false} SumLinesSnoc(blocks: seq<Block>, b: Block)
    ensures SumLines(blocks + [b]) == SumLines(blocks) + b.physicalLineCount
  {
    if blocks == [] {
      assert [] + [b] == [b] && [b][1..] == [];
    } else {
      assert (blocks + [b])[1..] == blocks[1..] + [b];
      SumLinesSnoc(blocks[1..], b);
    }
  }

  /** Parts that hold exactly these blocks, in order, each within the cap and none empty if there are blocks. */
  predicate Holds(header: nat, max: int, parts: seq<PartBlocks>, blocks: seq<Block>) {
    && parts != []
    && Joined(parts) == blocks
    && (forall p :: p in parts ==> PartOk(header, max, p))
    && (blocks != [] ==> forall p :: p in parts ==> p.blocks != [])
  }

  lemma HoldsCons(header: nat, max: int, p: PartBlocks, parts: seq<PartBlocks>, blocks: seq<Block>)
    requires PartOk(header, max, p) && p.blocks != [] && Holds(header, max, parts, blocks) && blocks != []
    ensures Holds(header, max, [p] + parts, p.blocks + blocks)
  {
    assert ([p] + parts)[1..] == parts;
  }

  lemma HoldsOne(header: nat, max: int, p: PartBlocks)
    requires PartOk(header, max, p)
    ensures Holds(header, max, [p], p.blocks)
  {
    assert [p][1..] == [];
    assert p.blocks + [] == p.blocks;
  }

  lemma {:induction false} GreedyKeeps(header: nat, max: int, blocks: seq<Block>, current: PartBlocks)
    requires PartOk(header, max, current) && Greedy(header, max, blocks, current).Ok?
    ensures Holds(header, max, Greedy(header, max, blocks, current).value, current.blocks + blocks)
  {
    hide Holds, SumLines;
    if blocks == [] {
      HoldsOne(header, max, current);
      assert current.blocks + [] == current.blocks;
    } else {
      var b, rest := blocks[0], blocks[1..];
      assert blocks == [b] + rest;
      if current.blocks != [] && current.physicalLineCount + b.physicalLineCount > max {
        SumLinesOne(b);
        GreedyKeeps(header, max, rest, PartBlocks([b], header + b.physicalLineCount));
        HoldsCons(header, max, current,
                  Greedy(header, max, rest, PartBlocks([b], header + b.physicalLineCount)).value, blocks);
      } else {
        SumLinesSnoc(current.blocks, b);
        if current.blocks == [] {
          SumLinesOne(b);
          assert current.blocks + [b] == [b];
        }
        GreedyKeeps(header, max, rest,
                    PartBlocks(current.blocks + [b], current.physicalLineCount + b.physicalLineCount));
        assert current.blocks + [b] + rest == current.blocks + blocks;
      }
    }
  }

  lemma SumLinesOne(b: Block)
    ensures SumLines([b]) == b.physicalLineCount && SumLines([]) == 0
  {
    assert [b][1..] == [];
  }

  /** Every block is kept once and in order; a part counts its header and its blocks, and stays within the cap when
      there is one; no part is empty unless there are no blocks at all. */
  lemma SplitKeepsBlocks(d: Descriptor, blocks: seq<Block>, maxLines: Option<int>)
    requires Split(d, blocks, maxLines).Ok? && (maxLines.Some? ==> HeaderLines(d) <= maxLines.value)
    ensures var parts := Split(d, blocks, maxLines).value;
      && parts != []
      && Joined(parts) == blocks
      && (forall p :: p in parts ==> p.physicalLineCount == HeaderLines(d) + SumLines(p.blocks))
      && (maxLines.Some? ==> forall p :: p in parts ==> p.physicalLineCount <= maxLines.value)
      && (blocks != [] ==> forall p :: p in parts ==> p.blocks != [])
  {
    if maxLines.Some? {
      GreedyKeeps(HeaderLines(d), maxLines.value, blocks, PartBlocks([], HeaderLines(d)));
      assert [] + blocks == blocks;
    } else {
      assert [PartBlocks(blocks, HeaderLines(d) + SumLines(blocks))][1..] == [];
    }
  }

  /** The first block that does not fit alone. */
  predicate FirstTooBig(header: nat, max: int, blocks: seq<Block>, k: nat) {
    k < |blocks| && TooBig(header, max, blocks[k]) && forall j :: 0 <= j < k ==> !TooBig(header, max, blocks[j])
  }

  lemma FirstInRest(header: nat, max: int, blocks: seq<Block>, k: nat)
    requires FirstTooBig(header, max, blocks, k) && !TooBig(header, max, blocks[0])
    ensures k > 0 && FirstTooBig(header, max, blocks[1..], k - 1) && blocks[k] == blocks[1..][k - 1]
  {
    forall j | 0 <= j < k - 1 ensures !TooBig(header, max, blocks[1..][j]) {
      assert !TooBig(header, max, blocks[j + 1]);
    }
  }

  predicate SomeTooBig(header: nat, max: int, blocks: seq<Block>) {
    exists b :: b in blocks && TooBig(header, max, b)
  }

  lemma SomeTooBigCons(header: nat, max: int, blocks: seq<Block>)
    requires blocks != []
    ensures SomeTooBig(header, max, blocks) <==> TooBig(header, max, blocks[0]) || SomeTooBig(header, max, blocks[1..])
  {
    assert blocks[0] in blocks;
    assert forall b :: b in blocks <==> b == blocks[0] || b in blocks[1..];
  }

  lemma {:induction false} GreedyFailsIff(header: nat, max: int, blocks: seq<Block>, current: PartBlocks)
    ensures Greedy(header, max, blocks, current).Err? <==> SomeTooBig(header, max, blocks)
  {
    if blocks == [] {
    } else {
      hide SomeTooBig, TooBig;
      SomeTooBigCons(header, max, blocks);
      var b := blocks[0];
      var next := if current.blocks != [] && current.physicalLineCount + b.physicalLineCount > max
                  then PartBlocks([b], header + b.physicalLineCount)
                  else PartBlocks(current.blocks + [b], current.physicalLineCount + b.physicalLineCount);
      GreedyFailsIff(header, max, blocks[1..], next);
    }
  }

  lemma {:induction false} GreedyNamesFirst(header: nat, max: int, blocks: seq<Block>, current: PartBlocks, k: nat)
    requires FirstTooBig(header, max, blocks, k)
    ensures Greedy(header, max, blocks, current) == Err(LimitError(blocks[k]))
  {
    if !TooBig(header, max, blocks[0]) {
      FirstInRest(header, max, blocks, k);
      hide FirstTooBig;
      var b := blocks[0];
      var next := if current.blocks != [] && current.physicalLineCount + b.physicalLineCount > max
                  then PartBlocks([b], header + b.physicalLineCount)
                  else PartBlocks(current.blocks + [b], current.physicalLineCount + b.physicalLineCount);
      GreedyNamesFirst(header, max, blocks[1..], next, k - 1);
    } else if k > 0 {
      assert false;
    }
  }

  /** Splitting fails exactly when some block does not fit into a part of its own, and the error names the first such
      block for what it is. */
  lemma SplitFailsIff(d: Descriptor, blocks: seq<Block>, max: int)
    ensures Split(d, blocks, Some(max)).Err? <==> exists b :: b in blocks && TooBig(HeaderLines(d), max, b)
    ensures forall k: nat :: FirstTooBig(HeaderLines(d), max, blocks, k) ==>
      Split(d, blocks, Some(max)) == Err(LimitError(blocks[k]))
  {
    var current := PartBlocks([], HeaderLines(d));
    GreedyFailsIff(HeaderLines(d), max, blocks, current);
    forall k: nat | FirstTooBig(HeaderLines(d), max, blocks, k)
      ensures Split(d, blocks, Some(max)) == Err(LimitError(blocks[k]))
    {
      GreedyNamesFirst(HeaderLines(d), max, blocks, current, k);
    }
  }

  // No cut uses fewer parts.

  function Flattened(cut: seq<seq<Block>>): seq<Block> {
    if cut == [] then [] else cut[0] + Flattened(cut[1..])
  }

  /** A cut of `blocks` whose first piece continues a part that already has `load` lines. */
  predicate IsCut(header: nat, max: int, load: int, blocks: seq<Block>, cut: seq<seq<Block>>) {
    && cut != []
    && Flattened(cut) == blocks
    && load + SumLines(cut[0]) <= max
    && forall k :: 1 <= k < |cut| ==> header + SumLines(cut[k]) <= max
  }

  /** The cut without its first, empty piece. */
  lemma DropEmptyPiece(header: nat, max: int, load: int, blocks: seq<Block>, cut: seq<seq<Block>>)
    requires IsCut(header, max, load, blocks, cut) && |cut| > 1 && cut[0] == []
    ensures IsCut(header, max, header, blocks, cut[1..])
  {
    assert cut[1..][0] == cut[1];
    assert [] + Flattened(cut[1..]) == Flattened(cut[1..]);
    forall k | 1 <= k < |cut[1..]| ensures header + SumLines(cut[1..][k]) <= max {
      assert cut[1..][k] == cut[k + 1];
    }
  }

  /** The cut after its first block has been consumed. */
  lemma ConsumeBlock(header: nat, max: int, load: int, blocks: seq<Block>, cut: seq<seq<Block>>)
    requires IsCut(header, max, load, blocks, cut) && cut[0] != []
    ensures blocks != [] && blocks[0] == cut[0][0]
    ensures load + blocks[0].physicalLineCount <= max
    ensures IsCut(header, max, load + blocks[0].physicalLineCount, blocks[1..], [cut[0][1..]] + cut[1..])
  {
    var next := [cut[0][1..]] + cut[1..];
    assert blocks == cut[0] + Flattened(cut[1..]);
    assert next[1..] == cut[1..];
    assert cut[0][1..] + Flattened(cut[1..]) == blocks[1..];
  }

  /** The greedy split, ahead by a part (`ahead`) or level with no more lines in its open part, stays ahead. */
  lemma {:induction false} GreedyStaysAhead(
      header: nat, max: int, blocks: seq<Block>, current: PartBlocks, load: int, cut: seq<seq<Block>>, ahead: bool)
    requires Greedy(header, max, blocks, current).Ok?
    requires IsCut(header, max, load, blocks, cut) && header <= load
    requires ahead || current.physicalLineCount <= load
    ensures |Greedy(header, max, blocks, current).value| <= |cut| + if ahead then 1 else 0
    decreases |blocks| + |cut|
  {
    if blocks == [] {
    } else {
      if cut[0] == [] {
        if |cut| == 1 {
          assert Flattened(cut[1..]) == [];
          assert false;
        }
        DropEmptyPiece(header, max, load, blocks, cut);
        GreedyStaysAhead(header, max, blocks, current, header, cut[1..], true);
      } else {
        ConsumeBlock(header, max, load, blocks, cut);
        var b, rest, next := blocks[0], blocks[1..], [cut[0][1..]] + cut[1..];
        if current.blocks != [] && current.physicalLineCount + b.physicalLineCount > max {
          GreedyStaysAhead(header, max, rest, PartBlocks([b], header + b.physicalLineCount),
                           load + b.physicalLineCount, next, false);
        } else {
          GreedyStaysAhead(header, max, rest,
                           PartBlocks(current.blocks + [b], current.physicalLineCount + b.physicalLineCount),
                           load + b.physicalLineCount, next, ahead);
        }
      }
    }
  }

  /** No way of cutting the blocks in order under the same cap uses fewer parts. */
  lemma SplitUsesFewestParts(d: Descriptor, blocks: seq<Block>, max: int, cut: seq<seq<Block>>)
    requires Split(d, blocks, Some(max)).Ok?
    requires Flattened(cut) == blocks && cut != []
    requires forall k :: 0 <= k < |cut| ==> HeaderLines(d) + SumLines(cut[k]) <= max
    ensures |Split(d, blocks, Some(max)).value| <= |cut|
  {
    GreedyStaysAhead(HeaderLines(d), max, blocks, PartBlocks([], HeaderLines(d)), HeaderLines(d), cut, false);
  }
}
