/** IPv4 ranges and CIDR blocks: merging ranges and covering them with the fewest aligned blocks. */
module Ranges {
  import opened Bits
  import opened Sorting
  import opened Types

  /** An inclusive address range. */
  datatype Range = Range(start: uint32, end: uint32) {
    predicate Has(a: int) { start <= a <= end }

    predicate Valid() { start <= end }
  }

  /** A CIDR block: its first address and its prefix length. */
  datatype Cidr = Cidr(start: uint32, bits: nat) {
    function ToBlock(): Block
      requires bits <= 32
    {
      Block(start, 32 - bits)
    }

    predicate Wf() { bits <= 32 && ToBlock().Wf() }
  }

  predicate AllWf(cs: seq<Cidr>) {
    forall i :: 0 <= i < |cs| ==> cs[i].Wf()
  }

  function Blocks(cs: seq<Cidr>): (bs: seq<Block>)
    requires forall i :: 0 <= i < |cs| ==> cs[i].bits <= 32
    ensures |bs| == |cs|
    ensures forall i :: 0 <= i < |cs| ==> bs[i] == cs[i].ToBlock()
  {
    seq(|cs|, i requires 0 <= i < |cs| => cs[i].ToBlock())
  }

  // ----- Sets of addresses

  ghost predicate Covered(bs: seq<Block>, a: int) {
    exists b :: b in bs && b.Has(a)
  }

  ghost predicate InRanges(rs: seq<Range>, a: int) {
    exists r :: r in rs && r.Has(a)
  }

  ghost function Addresses(rs: seq<Range>): iset<int> {
    iset a | InRanges(rs, a)
  }

  ghost function Span(bs: seq<Block>): iset<int> {
    iset a | Covered(bs, a)
  }

  ghost predicate Inside(b: Block, s: iset<int>) {
    forall a :: b.Has(a) ==> a in s
  }

  /** An aligned block of `s` that no larger aligned block of `s` contains. */
  ghost predicate Maximal(b: Block, s: iset<int>) {
    && b.Wf() && Inside(b, s)
    && forall c: Block :: c.Wf() && b.Within(c) && Inside(c, s) ==> c == b
  }

  ghost predicate AllMaximal(bs: seq<Block>, s: iset<int>) {
    forall i :: 0 <= i < |bs| ==> Maximal(bs[i], s)
  }

  /** Address order without overlap. */
  predicate Ordered(bs: seq<Block>) {
    forall i, j :: 0 <= i < j < |bs| ==> bs[i].start + bs[i].Size() <= bs[j].start
  }

  ghost predicate AlignedCover(bs: seq<Block>, s: iset<int>) {
    (forall i :: 0 <= i < |bs| ==> bs[i].Wf()) && Span(bs) == s
  }

  // ----- The lower bound

  lemma {:induction false} Pigeonhole(f: seq<nat>, n: nat)
    requires forall i :: 0 <= i < |f| ==> f[i] < n
    requires forall i, j :: 0 <= i < j < |f| ==> f[i] != f[j]
    ensures |f| <= n
  {
    if |f| > 0 {
      assert f[0] < n;
      if n - 1 in f {
        var k :| 0 <= k < |f| && f[k] == n - 1;
        Pigeonhole(f[..k] + f[k+1..], n - 1);
      } else {
        Pigeonhole(f, n - 1);
      }
    }
  }

  /** A block of `s` that meets a maximal block lies inside it. */
  lemma MaximalAbsorbs(b: Block, c: Block, a: int, s: iset<int>)
    requires Maximal(b, s) && c.Wf() && Inside(c, s) && b.Has(a) && c.Has(a)
    ensures c.Within(b)
  {
    if b.exp <= c.exp {
      NestedOrDisjoint(b, c, a);
    } else {
      NestedOrDisjoint(c, b, a);
    }
  }

  /** Disjoint maximal blocks are never more than any exact cover by aligned blocks. */
  lemma FewestBlocks(bs: seq<Block>, cover: seq<Block>, s: iset<int>)
    requires AllMaximal(bs, s) && Ordered(bs) && AlignedCover(cover, s)
    ensures |bs| <= |cover|
  {
    forall i | 0 <= i < |bs|
      ensures exists k :: 0 <= k < |cover| && cover[k].Within(bs[i])
    {
      assert bs[i].Has(bs[i].start) && bs[i].start in Span(cover);
      var c :| c in cover && c.Has(bs[i].start);
      var k :| 0 <= k < |cover| && cover[k] == c;
      assert Inside(c, s) by {
        forall a | c.Has(a) ensures a in s { assert Covered(cover, a); }
      }
      MaximalAbsorbs(bs[i], c, bs[i].start, s);
    }
    var f: seq<nat> := seq(|bs|, i requires 0 <= i < |bs| =>
      var k :| 0 <= k < |cover| && cover[k].Within(bs[i]); k);
    forall i, j | 0 <= i < j < |f| ensures f[i] != f[j] {
      assert cover[f[i]].Within(bs[i]) && cover[f[j]].Within(bs[j]);
    }
    Pigeonhole(f, |cover|);
  }

  // ----- The greedy cover

  /** The largest exponent at most `e` whose block fits in `room` addresses. */
  function Fit(e: nat, room: nat): (x: nat)
    requires room > 0
    ensures x <= e && Pow2(x) <= room
    ensures forall y :: x < y <= e ==> Pow2(y) > room
  {
    if Pow2(e) <= room then e else Fit(e - 1, room)
  }

  /** The largest aligned block starting at `start` with at most `room` addresses. */
  function GreedyExp(start: nat, room: nat): nat
    requires room > 0
  {
    Fit(if start == 0 then 32 else LowExp(start), room)
  }

  function NextBlock(start: nat, end: int): (b: Block)
    requires start <= end
    ensures b.start == start && b.start + b.Size() <= end + 1
  {
    Block(start, GreedyExp(start, end - start + 1))
  }

  function Greedy(start: nat, end: int): seq<Block>
    decreases end - start + 1
  {
    if start > end then [] else
      var b := NextBlock(start, end);
      [b] + Greedy(start + b.Size(), end)
  }

  lemma NextBlockIsLargest(start: nat, end: int, e: nat)
    requires start <= end < 0x1_0000_0000
    ensures NextBlock(start, end).Wf()
    ensures Aligned(start, e) && Pow2(e) <= end - start + 1 ==> e <= NextBlock(start, end).exp
  {
    if start > 0 {
      LowExpIsMaximal(start, NextBlock(start, end).exp);
      LowExpIsMaximal(start, e);
    }
    if Pow2(e) <= end - start + 1 { ExponentFits(e); }
  }

  lemma ExponentFits(e: nat)
    requires Pow2(e) <= 0x1_0000_0000
    ensures e <= 32
  {
    Pow2Values();
    Pow2Mono(e, 32);
  }

  lemma LowExpBound(n: nat, w: nat)
    requires 0 < n < Pow2(w)
    ensures LowExp(n) < w
  {
    LowExpIsMaximal(n, LowExp(n));
    MultipleOf(0, Pow2(LowExp(n)), 0);
    MultiplesApart(0, n, Pow2(LowExp(n)));
    Pow2Mono(LowExp(n), w);
  }

  predicate Between(lo: int, a: int, hi: int) {
    lo <= a <= hi
  }

  ghost function Interval(lo: int, hi: int): iset<int> {
    iset a | Between(lo, a, hi)
  }

  /** No aligned block inside `lo..end` straddles `start`. */
  ghost predicate Boundary(lo: int, start: int, end: int) {
    forall c: Block :: c.Wf() && Inside(c, Interval(lo, end)) && c.Has(start) ==> c.start >= start
  }

  lemma BlockInInterval(c: Block, lo: int, hi: int)
    ensures Inside(c, Interval(lo, hi)) <==> lo <= c.start && c.start + c.Size() <= hi + 1
  {
    if Inside(c, Interval(lo, hi)) {
      assert c.Has(c.start) && c.Has(c.start + c.Size() - 1);
    }
  }

  lemma NextBlockIsMaximal(lo: nat, start: nat, end: int)
    requires lo <= start <= end < 0x1_0000_0000 && Boundary(lo, start, end)
    ensures var b := NextBlock(start, end);
            Maximal(b, Interval(lo, end)) && Boundary(lo, start + b.Size(), end)
  {
    var b := NextBlock(start, end);
    NextBlockIsLargest(start, end, 0);
    BlockInInterval(b, lo, end);
    forall c: Block | c.Wf() && Inside(c, Interval(lo, end)) && c.Has(start)
      ensures c.start == start && c.exp <= b.exp
    {
      BlockInInterval(c, lo, end);
      NextBlockIsLargest(start, end, c.exp);
    }
    forall c: Block | c.Wf() && b.Within(c) && Inside(c, Interval(lo, end))
      ensures c == b
    {
      Pow2Mono(b.exp, c.exp);
    }
    forall c: Block | c.Wf() && Inside(c, Interval(lo, end)) && c.Has(start + b.Size())
      ensures c.start >= start + b.Size()
    {
      if c.start < start + b.Size() {
        assert c.Has(start + b.Size() - 1) && b.Has(start + b.Size() - 1);
        MaximalAbsorbs(b, c, start + b.Size() - 1, Interval(lo, end));
      }
    }
  }

  /** Consecutive blocks from `start` up to `end`. */
  predicate Tiles(bs: seq<Block>, start: nat, end: int) {
    if bs == [] then start > end
    else bs[0].start == start && start + bs[0].Size() <= end + 1 && Tiles(bs[1..], start + bs[0].Size(), end)
  }

  lemma {:induction false} GreedyTiles(start: nat, end: int)
    ensures Tiles(Greedy(start, end), start, end)
    decreases end - start + 1
  {
    if start <= end {
      var b := NextBlock(start, end);
      var rest := Greedy(start + b.Size(), end);
      GreedyTiles(start + b.Size(), end);
      assert ([b] + rest)[1..] == rest;
    }
  }

  lemma {:induction false} TilesOrdered(bs: seq<Block>, start: nat, end: int)
    requires Tiles(bs, start, end)
    ensures Ordered(bs)
    ensures forall b :: b in bs ==> start <= b.start && b.start + b.Size() <= end + 1
  {
    if bs != [] {
      var next := start + bs[0].Size();
      TilesOrdered(bs[1..], next, end);
      OrderedConcat([bs[0]], bs[1..], next);
      assert bs == [bs[0]] + bs[1..];
    }
  }

  lemma {:induction false} TilesCover(bs: seq<Block>, start: nat, end: int, a: int)
    requires Tiles(bs, start, end)
    ensures Covered(bs, a) <==> start <= a <= end
  {
    if bs != [] {
      TilesCover(bs[1..], start + bs[0].Size(), end, a);
      if Covered(bs, a) {
        var b :| b in bs && b.Has(a);
        assert b == bs[0] || b in bs[1..];
      }
      if bs[0].Has(a) { assert bs[0] in bs; }
      if Covered(bs[1..], a) {
        var b :| b in bs[1..] && b.Has(a);
        assert b in bs;
      }
    }
  }

  lemma {:induction false} GreedyMaximalAt(lo: nat, start: nat, end: int, i: nat)
    requires lo <= start && end < 0x1_0000_0000 && (start <= end ==> Boundary(lo, start, end))
    requires i < |Greedy(start, end)|
    ensures Maximal(Greedy(start, end)[i], Interval(lo, end))
    decreases i
  {
    NextBlockIsMaximal(lo, start, end);
    if i > 0 {
      GreedyMaximalAt(lo, start + NextBlock(start, end).Size(), end, i - 1);
    }
  }

  // ----- At most 62 blocks

  /** Where the start is aligned beyond the remaining room, what remains after the next block is
      smaller than that block. */
  lemma DescendingStep(start: nat, end: int, e: nat)
    requires Aligned(start, e) && start <= end < 0x1_0000_0000 && end - start + 1 < Pow2(e)
    ensures var b := NextBlock(start, end);
            b.exp < e && Aligned(start + b.Size(), b.exp) && end - (start + b.Size()) + 1 < b.Size()
  {
    var b := NextBlock(start, end);
    NextBlockIsLargest(start, end, b.exp + 1);
    Pow2Mono(b.exp, e);
    AlignedWeaken(start, e, b.exp + 1);
    AlignedSum(start, b.exp, b.exp);
  }

  lemma {:induction false} DescendingCount(start: nat, end: int, e: nat)
    requires Aligned(start, e) && end < 0x1_0000_0000 && end - start + 1 < Pow2(e)
    ensures |Greedy(start, end)| <= e
    decreases end - start + 1
  {
    if start <= end {
      DescendingStep(start, end, e);
      var b := NextBlock(start, end);
      DescendingCount(start + b.Size(), end, b.exp);
    }
  }

  /** Where the alignment of the start fits, taking it raises the alignment. */
  lemma AscendingStep(start: nat, end: int)
    requires 0 < start <= end < 0x1_0000_0000 && Pow2(LowExp(start)) <= end - start + 1
    ensures var b := NextBlock(start, end);
            b.exp == LowExp(start) && LowExp(start + b.Size()) > LowExp(start)
  {
    var e := LowExp(start);
    assert NextBlock(start, end).exp == e;
    DoublesAlignment(start);
    LowExpIsMaximal(start + Pow2(e), e + 1);
  }

  lemma {:induction false} AscendingCount(start: nat, end: int)
    requires 0 < start && end < 0x1_0000_0000
    ensures start <= end ==> |Greedy(start, end)| <= 62 - LowExp(start)
    decreases end - start + 1
  {
    if start <= end {
      assert LowExp(start) < 32 by { assert LowBit(start) > 0; }
      var e := LowExp(start);
      LowExpIsMaximal(start, e);
      if end - start + 1 < Pow2(e) {
        DescendingCount(start, end, e);
      } else {
        AscendingStep(start, end);
        AscendingCount(start + NextBlock(start, end).Size(), end);
      }
    }
  }

  /** Adding the lowest set bit clears it. */
  lemma {:induction false} DoublesAlignment(n: nat)
    requires n > 0
    ensures Aligned(n + Pow2(LowExp(n)), LowExp(n) + 1)
  {
    var next := n + Pow2(LowExp(n));
    AlignedHalf(next, LowExp(n) + 1);
    if n % 2 == 0 {
      DoublesAlignment(n / 2);
      assert next / 2 == n / 2 + Pow2(LowExp(n / 2));
    }
  }

  lemma GreedyCount(r: Range)
    ensures |Greedy(r.start, r.end)| <= 62
  {
    if r.start > 0 {
      AscendingCount(r.start, r.end);
    } else {
      Pow2Values();
      MultipleOf(0, Pow2(32), 0);
      if r.end + 1 < Pow2(32) {
        DescendingCount(0, r.end, 32);
      } else {
        assert NextBlock(0, r.end).exp == 32;
        assert Greedy(Pow2(32), r.end) == [];
      }
    }
  }

  /** The greedy cover of a range is an exact, ordered, aligned cover that no other aligned
      cover beats, with at most 62 blocks. */
  lemma GreedyIsOptimal(r: Range, cover: seq<Block>)
    ensures var bs := Greedy(r.start, r.end);
            && Ordered(bs) && AlignedCover(bs, Interval(r.start, r.end)) && |bs| <= 62
            && AllMaximal(bs, Interval(r.start, r.end))
            && (AlignedCover(cover, Interval(r.start, r.end)) ==> |bs| <= |cover|)
  {
    var bs, s := Greedy(r.start, r.end), Interval(r.start, r.end);
    GreedyTiles(r.start, r.end);
    TilesOrdered(bs, r.start, r.end);
    assert Span(bs) == s by {
      forall a ensures a in Span(bs) <==> a in s { TilesCover(bs, r.start, r.end, a); }
    }
    assert Boundary(r.start, r.start, r.end) by {
      forall c: Block | c.Wf() && Inside(c, s) ensures c.start >= r.start {
        BlockInInterval(c, r.start, r.end);
      }
    }
    forall i | 0 <= i < |bs| ensures Maximal(bs[i], s) {
      GreedyMaximalAt(r.start, r.start, r.end, i);
    }
    GreedyCount(r);
    if AlignedCover(cover, s) { FewestBlocks(bs, cover, s); }
  }

  /** `start & -start` in 64-bit arithmetic, for a nonzero 32-bit address. */
  function LowBit(start: nat): (size: nat)
    requires 0 < start < 0x1_0000_0000
    ensures LowExp(start) < 32 && size == Pow2(LowExp(start))
  {
    Pow2Values();
    AndNegate(64, start);
    LowExpBound(start, 32);
    And(start, Negate(64, start))
  }

  /** The next block: the alignment of `start`, halved until it fits. */
  /** Halving a block that does not fit looks for the same one. */
  lemma HalveFits(e: nat, room: nat)
    requires room > 0 && Pow2(e) > room
    ensures e > 0 && Pow2(e) / 2 == Pow2(e - 1) < Pow2(e) && Fit(e - 1, room) == Fit(e, room)
  {}

  lemma PrefixOf(start: nat, end: nat, e: nat, top: nat)
    requires start <= end && e <= 32 && Pow2(e) <= end - start + 1
    requires top == (if start == 0 then 32 else LowExp(start)) && Fit(e, end - start + 1) == Fit(top, end - start + 1)
    ensures 33 - Len(Pow2(e)) == 32 - e && NextBlock(start, end) == Block(start, e)
  {
    LenPow2(e);
  }

  method NextCidr(start: nat, end: nat) returns (c: Cidr, size: nat)
    requires start <= end < 0x1_0000_0000
    ensures c.bits <= 32 && c.ToBlock() == NextBlock(start, end) && size == c.ToBlock().Size()
  {
    ghost var e := 32;
    size := 0x1_0000_0000;
    if start != 0 {
      size, e := LowBit(start), LowExp(start);
    } else {
      Pow2Values();
    }
    ghost var top := e;
    while size > end - start + 1
      invariant e <= 32 && size == Pow2(e)
      invariant Fit(e, end - start + 1) == Fit(top, end - start + 1)
      decreases size
    {
      HalveFits(e, end - start + 1);
      size, e := size / 2, e - 1;
    }
    PrefixOf(start, end, e, top);
    var prefix := 33 - Len(size);
    c := Cidr(start, prefix);
  }

  lemma BlocksAppend(out: seq<Cidr>, c: Cidr)
    requires c.bits <= 32 && forall i :: 0 <= i < |out| ==> out[i].bits <= 32
    ensures Blocks(out + [c]) == Blocks(out) + [c.ToBlock()]
  {}

  lemma GreedyHead(start: nat, end: nat)
    requires start <= end
    ensures var b := NextBlock(start, end);
            Greedy(start, end) == [b] + Greedy(start + b.Size(), end)
  {}

  lemma Regroup(a: seq<Block>, b: seq<Block>, c: seq<Block>)
    ensures a + b + c == a + (b + c)
  {}

  predicate AllShort(cs: seq<Cidr>) {
    forall i :: 0 <= i < |cs| ==> cs[i].bits <= 32
  }

  /** `out` and the greedy cover of what is left from `start` make the greedy cover of `r`. */
  ghost predicate Covering(r: Range, out: seq<Cidr>, start: nat) {
    AllShort(out) && Blocks(out) + Greedy(start, r.end) == Greedy(r.start, r.end)
  }

  lemma ShortAppend(out: seq<Cidr>, c: Cidr)
    requires AllShort(out) && c.bits <= 32
    ensures AllShort(out + [c]) && Blocks(out + [c]) == Blocks(out) + [c.ToBlock()]
  {
    BlocksAppend(out, c);
  }

  lemma CoverNext(r: Range, out: seq<Cidr>, start: nat, c: Cidr, size: nat)
    requires Covering(r, out, start) && start <= r.end && c.bits <= 32
    requires c.ToBlock() == NextBlock(start, r.end) && size == NextBlock(start, r.end).Size()
    ensures Covering(r, out + [c], start + size)
  {
    ShortAppend(out, c);
    MoveHead(Blocks(out), c.ToBlock(), start, r.end, size);
  }

  lemma MoveHead(bs: seq<Block>, b: Block, start: nat, end: nat, size: nat)
    requires start <= end && b == NextBlock(start, end) && size == b.Size()
    ensures bs + [b] + Greedy(start + size, end) == bs + Greedy(start, end)
  {
    GreedyHead(start, end);
    Regroup(bs, [b], Greedy(start + size, end));
  }

  lemma CoveringDone(r: Range, out: seq<Cidr>, start: nat)
    requires Covering(r, out, start) && start > r.end
    ensures Blocks(out) == Greedy(r.start, r.end)
  {}

  method RangeToCIDRs(r: Range) returns (out: seq<Cidr>)
    ensures AllWf(out)
    ensures Blocks(out) == Greedy(r.start, r.end)
    ensures Ordered(Blocks(out)) && |out| <= 62
    ensures AlignedCover(Blocks(out), Interval(r.start, r.end))
    ensures forall cover :: AlignedCover(cover, Interval(r.start, r.end)) ==> |out| <= |cover|
  {
    var start: nat, end := r.start, r.end;
    out := [];
    assert Covering(r, [], start);
    while start <= end
      invariant Covering(r, out, start)
      decreases end - start + 1
    {
      var c, size := NextCidr(start, end);
      CoverNext(r, out, start, c, size);
      out := out + [c];
      start := start + size;
    }
    CoveringDone(r, out, start);
    RangeIsCovered(r, out);
  }

  lemma RangeIsCovered(r: Range, out: seq<Cidr>)
    requires forall i :: 0 <= i < |out| ==> out[i].bits <= 32
    requires Blocks(out) == Greedy(r.start, r.end)
    ensures AllWf(out) && Ordered(Blocks(out)) && |out| <= 62
    ensures AlignedCover(Blocks(out), Interval(r.start, r.end))
    ensures forall cover :: AlignedCover(cover, Interval(r.start, r.end)) ==> |out| <= |cover|
  {
    GreedyIsOptimal(r, []);
    forall i | 0 <= i < |out| ensures out[i].Wf() { assert Blocks(out)[i].Wf(); }
    forall cover | AlignedCover(cover, Interval(r.start, r.end)) ensures |out| <= |cover| {
      GreedyIsOptimal(r, cover);
    }
  }

  // ----- Merging ranges

  predicate StartsFirst(x: Range, y: Range) {
    x.start <= y.start
  }

  /** Sorted, with at least one missing address between neighbours. */
  predicate Canonical(rs: seq<Range>) {
    && (forall i :: 0 <= i < |rs| ==> rs[i].Valid())
    && (forall i, j :: 0 <= i < j < |rs| ==> rs[i].end + 1 < rs[j].start)
  }

  predicate AllValid(rs: seq<Range>) {
    forall i :: 0 <= i < |rs| ==> rs[i].Valid()
  }

  lemma InRangesAppend(rs: seq<Range>, r: Range, a: int)
    ensures InRanges(rs + [r], a) <==> InRanges(rs, a) || r.Has(a)
  {
    assert r in rs + [r] && forall x :: x in rs ==> x in rs + [r];
  }

  /** One round of the merge loop: extend the last range, or start a new one. */
  function MergeStep(out: seq<Range>, r: Range): seq<Range>
    requires out != []
  {
    var last := out[|out|-1];
    if r.start <= last.end + 1 then
      if r.end > last.end then out[..|out|-1] + [Range(last.start, r.end)] else out
    else out + [r]
  }

  /** `out` is what merging the sorted prefix `rs` has produced. */
  ghost predicate Merged(out: seq<Range>, rs: seq<Range>) {
    && |out| > 0 && |rs| > 0 && out[|out|-1].start <= rs[|rs|-1].start
    && (forall a :: InRanges(out, a) <==> InRanges(rs, a))
    && (AllValid(rs) ==> Canonical(out))
  }

  lemma MergeStepKeeps(out: seq<Range>, rs: seq<Range>, r: Range)
    requires Merged(out, rs) && rs[|rs|-1].start <= r.start
    ensures Merged(MergeStep(out, r), rs + [r])
  {
    var last, init := out[|out|-1], out[..|out|-1];
    assert out == init + [last];
    forall a ensures InRanges(MergeStep(out, r), a) <==> InRanges(rs + [r], a) {
      InRangesAppend(init, last, a);
      InRangesAppend(init, Range(last.start, r.end), a);
      InRangesAppend(out, r, a);
      InRangesAppend(rs, r, a);
    }
    if AllValid(rs + [r]) {
      assert r == (rs + [r])[|rs|] && forall i :: 0 <= i < |rs| ==> rs[i] == (rs + [r])[i];
    }
  }

  lemma MergedOne(sorted: seq<Range>)
    requires sorted != []
    ensures Merged([sorted[0]], sorted[..1])
  {
    assert sorted[..1] == [sorted[0]];
  }

  lemma MergeNext(out: seq<Range>, sorted: seq<Range>, i: nat)
    requires 0 < i < |sorted| && Merged(out, sorted[..i]) && SortedBy(StartsFirst, sorted)
    ensures Merged(MergeStep(out, sorted[i]), sorted[..i+1])
  {
    assert StartsFirst(sorted[i-1], sorted[i]) && sorted[..i+1] == sorted[..i] + [sorted[i]];
    MergeStepKeeps(out, sorted[..i], sorted[i]);
  }

  method MergeRanges(input: seq<Range>) returns (out: seq<Range>)
    ensures Addresses(out) == Addresses(input)
    ensures AllValid(input) ==> Canonical(out)
  {
    if |input| == 0 { return []; }
    var sorted := Sort(StartsFirst, input);
    SortSorts(StartsFirst, input);
    out := [sorted[0]];
    MergedOne(sorted);
    for i := 1 to |sorted|
      invariant Merged(out, sorted[..i])
    {
      var r, last := sorted[i], out[|out|-1];
      ghost var merged := MergeStep(out, r);
      MergeNext(out, sorted, i);
      if r.start <= last.end + 1 {
        if r.end > last.end {
          out := out[..|out|-1] + [Range(last.start, r.end)];
        }
      } else {
        out := out + [r];
      }
      assert out == merged;
    }
    assert sorted[..|sorted|] == sorted;
    MergedAll(out, sorted, input);
  }

  lemma MergedAll(out: seq<Range>, sorted: seq<Range>, input: seq<Range>)
    requires Merged(out, sorted) && forall r :: r in sorted <==> r in input
    ensures Addresses(out) == Addresses(input) && (AllValid(input) ==> Canonical(out))
  {
    if AllValid(input) {
      forall i | 0 <= i < |sorted| ensures sorted[i].Valid() { assert sorted[i] in input; }
    }
  }

  /** Canonical lists are determined by their addresses, so merging depends on nothing else. */
  lemma {:induction false} CanonicalIsUnique(xs: seq<Range>, ys: seq<Range>)
    requires Canonical(xs) && Canonical(ys) && Addresses(xs) == Addresses(ys)
    ensures xs == ys
    decreases |xs|
  {
    HeadIsFirstRun(xs);
    HeadIsFirstRun(ys);
    if xs != [] && ys != [] {
      var x, y := xs[0], ys[0];
      assert x.start in Addresses(xs) && y.start in Addresses(ys);
      assert x.end + 1 !in Addresses(xs) && y.end + 1 !in Addresses(ys);
      assert x == y;
      TailAddresses(xs);
      TailAddresses(ys);
      CanonicalIsUnique(xs[1..], ys[1..]);
    }
  }

  lemma HeadIsFirstRun(xs: seq<Range>)
    requires Canonical(xs)
    ensures xs == [] ==> Addresses(xs) == iset{}
    ensures xs != [] ==> xs[0].start in Addresses(xs) && xs[0].end + 1 !in Addresses(xs)
    ensures xs != [] ==> forall a :: xs[0].Has(a) ==> a in Addresses(xs)
    ensures xs != [] ==> forall a :: a in Addresses(xs) ==> a >= xs[0].start
  {
    if xs != [] { assert xs[0].Has(xs[0].start); }
  }

  lemma TailAddresses(xs: seq<Range>)
    requires Canonical(xs) && xs != []
    ensures forall a :: a in Addresses(xs[1..]) <==> a in Addresses(xs) && !xs[0].Has(a)
  {
    assert forall r :: r in xs[1..] ==> r in xs;
    assert forall r :: r in xs ==> r == xs[0] || r in xs[1..];
  }

  // ----- Merge, then cover

  lemma GapsAroundRange(rs: seq<Range>, k: nat)
    requires Canonical(rs) && k < |rs|
    ensures rs[k].end + 1 !in Addresses(rs) && rs[k].start - 1 !in Addresses(rs)
    ensures Interval(rs[k].start, rs[k].end) <= Addresses(rs)
  {
    forall a | Between(rs[k].start, a, rs[k].end) ensures a in Addresses(rs) {
      assert rs[k].Has(a);
    }
  }

  /** A block that is maximal in one range of a canonical list is maximal in the whole list. */
  lemma {:induction false} MaximalInUnion(rs: seq<Range>, k: nat, b: Block)
    requires Canonical(rs) && k < |rs| && Maximal(b, Interval(rs[k].start, rs[k].end))
    ensures Maximal(b, Addresses(rs))
  {
    GapsAroundRange(rs, k);
    var r := rs[k];
    BlockInInterval(b, r.start, r.end);
    forall c: Block | c.Wf() && b.Within(c) && Inside(c, Addresses(rs))
      ensures c == b
    {
      assert !c.Has(r.end + 1) && !c.Has(r.start - 1);
      BlockInInterval(c, r.start, r.end);
    }
  }

  lemma RangeBlocksMaximal(rs: seq<Range>, k: nat)
    requires Canonical(rs) && k < |rs|
    ensures AllMaximal(Greedy(rs[k].start, rs[k].end), Addresses(rs))
  {
    var bs := Greedy(rs[k].start, rs[k].end);
    GreedyIsOptimal(rs[k], []);
    forall i | 0 <= i < |bs| ensures Maximal(bs[i], Addresses(rs)) {
      MaximalInUnion(rs, k, bs[i]);
    }
  }

  /** What the list of blocks built from the first `k` merged ranges satisfies. */
  ghost predicate CoversFirst(bs: seq<Block>, merged: seq<Range>, k: nat)
    requires k <= |merged|
  {
    && Ordered(bs) && AllMaximal(bs, Addresses(merged))
    && (forall b :: b in bs ==> k > 0 && b.start + b.Size() <= merged[k-1].end + 1)
    && (forall a :: Covered(bs, a) <==> InRanges(merged[..k], a))
  }

  lemma BlocksConcat(cs: seq<Cidr>, ds: seq<Cidr>)
    requires AllWf(cs) && AllWf(ds)
    ensures AllWf(cs + ds) && Blocks(cs + ds) == Blocks(cs) + Blocks(ds)
  {}

  lemma {:induction false} CoverNextRange(bs: seq<Block>, more: seq<Block>, merged: seq<Range>, k: nat)
    requires Canonical(merged) && k < |merged| && CoversFirst(bs, merged, k)
    requires more == Greedy(merged[k].start, merged[k].end)
    ensures CoversFirst(bs + more, merged, k + 1)
  {
    var r := merged[k];
    GreedyTiles(r.start, r.end);
    TilesOrdered(more, r.start, r.end);
    forall a ensures Covered(more, a) <==> r.Has(a) { TilesCover(more, r.start, r.end, a); }
    assert AllMaximal(more, Addresses(merged)) by { RangeBlocksMaximal(merged, k); }
    ExtendCover(bs, more, merged[..k], r);
    assert merged[..k+1] == merged[..k] + [r];
    OrderedConcat(bs, more, r.start);
  }

  lemma OrderedConcat(bs: seq<Block>, cs: seq<Block>, cut: int)
    requires Ordered(bs) && Ordered(cs)
    requires forall b :: b in bs ==> b.start + b.Size() <= cut
    requires forall c :: c in cs ==> cut <= c.start
    ensures Ordered(bs + cs)
  {
    forall i, j | 0 <= i < j < |bs + cs| ensures (bs + cs)[i].start + (bs + cs)[i].Size() <= (bs + cs)[j].start {
      if i < |bs| { assert bs[i] in bs; }
      if j >= |bs| { assert cs[j - |bs|] in cs; }
    }
  }

  /** The block list of a whole record set: merge, then cover each merged range. */
  method GenerateBlocks(ranges: seq<Range>) returns (blocks: seq<Cidr>)
    requires AllValid(ranges)
    ensures AllWf(blocks)
    ensures Ordered(Blocks(blocks)) && AlignedCover(Blocks(blocks), Addresses(ranges))
    ensures forall cover :: AlignedCover(cover, Addresses(ranges)) ==> |blocks| <= |cover|
  {
    var merged := MergeRanges(ranges);
    blocks := [];
    for k := 0 to |merged|
      invariant AllWf(blocks) && CoversFirst(Blocks(blocks), merged, k)
    {
      var more := RangeToCIDRs(merged[k]);
      BlocksConcat(blocks, more);
      CoverNextRange(Blocks(blocks), Blocks(more), merged, k);
      blocks := blocks + more;
    }
    CoversAll(Blocks(blocks), merged);
  }

  lemma {:induction false} CoversAll(bs: seq<Block>, merged: seq<Range>)
    requires CoversFirst(bs, merged, |merged|)
    ensures AlignedCover(bs, Addresses(merged))
    ensures forall cover :: AlignedCover(cover, Addresses(merged)) ==> |bs| <= |cover|
  {
    assert merged[..|merged|] == merged;
    forall cover | AlignedCover(cover, Addresses(merged)) ensures |bs| <= |cover| {
      FewestBlocks(bs, cover, Addresses(merged));
    }
  }

  lemma {:induction false} ExtendCover(xs: seq<Block>, ys: seq<Block>, rs: seq<Range>, r: Range)
    requires forall a :: Covered(xs, a) <==> InRanges(rs, a)
    requires forall a :: Covered(ys, a) <==> r.Has(a)
    ensures forall a :: Covered(xs + ys, a) <==> InRanges(rs + [r], a)
  {
    forall a ensures Covered(xs + ys, a) <==> InRanges(rs + [r], a) {
      InRangesAppend(rs, r, a);
      assert forall b :: b in xs + ys <==> b in xs || b in ys;
    }
  }
}
