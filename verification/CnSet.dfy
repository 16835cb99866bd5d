/** The set of CN IPv4 blocks: admission, in-place removal of nested blocks, membership, and the
    choice of the routes worth keeping. */
module CnSet {
  import opened Bits
  import opened Sorting
  import opened Ranges
  import opened Types

  /** One line of the list: a block, or something the parser skips. */
  datatype Line = Skip | Entry(c: Cidr)

  /** An address handed to `Contains`: IPv4, or anything else. */
  datatype Ip = V4(v: uint32) | NotV4

  /** A set of blocks; the nil set is a valid empty set. */
  datatype Set = NilSet | Set(blocks: seq<Cidr>) {
    predicate Valid() {
      Set? ==> AllWf(blocks) && Ordered(Blocks(blocks))
    }

    ghost predicate Has(a: int) {
      Set? && Reaches(blocks, a)
    }
  }

  predicate InBlock(c: Cidr, a: int) {
    c.bits <= 32 && c.ToBlock().Has(a)
  }

  // ----- The last address of a block

  function End(c: Cidr): (e: uint32)
    requires c.Wf()
    ensures e == c.start + c.ToBlock().Size() - 1
  {
    LastAddress(c);
    if c.bits == 0 then 0xFFFF_FFFF else Or(c.start, Pow2(32 - c.bits) - 1)
  }

  lemma LastAddress(c: Cidr)
    requires c.Wf()
    ensures c.start + c.ToBlock().Size() <= 0x1_0000_0000
    ensures c.bits == 0 ==> c.start == 0 && c.ToBlock().Size() == 0x1_0000_0000
    ensures c.bits > 0 ==> Or(c.start, Pow2(32 - c.bits) - 1) == c.start + c.ToBlock().Size() - 1
  {
    BlockFits(c);
    if c.bits == 0 { Pow2Values(); } else { OrIsSum(c.start, Pow2(32 - c.bits) - 1, 32 - c.bits); }
  }

  lemma BlockFits(c: Cidr)
    requires c.Wf()
    ensures c.start + c.ToBlock().Size() <= 0x1_0000_0000
  {
    Pow2Values();
    MultipleOf(Pow2(32), Pow2(32), 1);
    AlignedWeaken(Pow2(32), 32, 32 - c.bits);
    MultiplesApart(c.start, Pow2(32), c.ToBlock().Size());
  }

  // ----- Reserved space

  const RESERVED: seq<Range> := [
    Range(0x0000_0000, 0x00FF_FFFF), Range(0x0A00_0000, 0x0AFF_FFFF),
    Range(0x6440_0000, 0x647F_FFFF), Range(0x7F00_0000, 0x7FFF_FFFF),
    Range(0xA9FE_0000, 0xA9FE_FFFF), Range(0xAC10_0000, 0xAC1F_FFFF),
    Range(0xC0A8_0000, 0xC0A8_FFFF), Range(0xE000_0000, 0xFFFF_FFFF)
  ]

  /** The address a.b.c.d. */
  function Address(a: byte, b: byte, c: byte, d: byte): nat {
    0x100_0000 * (a as int) + 0x1_0000 * (b as int) + 0x100 * (c as int) + d
  }

  /** In octets: this network, private use, shared and link-local space, loopback, multicast and above. */
  lemma ReservedByOctets(a: byte, b: byte, c: byte, d: byte)
    ensures InRanges(RESERVED, Address(a, b, c, d)) <==>
            || a == 0 || a == 10 || a == 127 || a >= 224
            || (a == 100 && 64 <= b < 128) || (a == 169 && b == 254) || (a == 172 && 16 <= b < 32) || (a == 192 && b == 168)
  {
    ReservedRanges(Address(a, b, c, d));
  }

  lemma ReservedRanges(n: int)
    ensures InRanges(RESERVED, n) <==>
            || 0 <= n <= 0x00FF_FFFF || 0x0A00_0000 <= n <= 0x0AFF_FFFF || 0x6440_0000 <= n <= 0x647F_FFFF
            || 0x7F00_0000 <= n <= 0x7FFF_FFFF || 0xA9FE_0000 <= n <= 0xA9FE_FFFF || 0xAC10_0000 <= n <= 0xAC1F_FFFF
            || 0xC0A8_0000 <= n <= 0xC0A8_FFFF || 0xE000_0000 <= n <= 0xFFFF_FFFF
  {
    if !InRanges(RESERVED, n) {
      forall k | 0 <= k < 8 ensures !RESERVED[k].Has(n) { assert RESERVED[k] in RESERVED; }
      assert !RESERVED[0].Has(n) && !RESERVED[1].Has(n) && !RESERVED[2].Has(n) && !RESERVED[3].Has(n);
      assert !RESERVED[4].Has(n) && !RESERVED[5].Has(n) && !RESERVED[6].Has(n) && !RESERVED[7].Has(n);
    }
  }

  ghost predicate Touches(c: Cidr, rs: seq<Range>) {
    exists a :: InBlock(c, a) && InRanges(rs, a)
  }

  method TouchesReserved(c: Cidr) returns (b: bool)
    requires c.Wf()
    ensures b <==> Touches(c, RESERVED)
  {
    for i := 0 to |RESERVED|
      invariant forall k, a :: 0 <= k < i && InBlock(c, a) ==> !RESERVED[k].Has(a)
    {
      var r := RESERVED[i];
      if c.start <= r.end && End(c) >= r.start {
        Overlap(c, r);
        return true;
      }
    }
    return false;
  }

  lemma Overlap(c: Cidr, r: Range)
    requires c.Wf() && r in RESERVED && c.start <= r.end && End(c) >= r.start
    ensures Touches(c, RESERVED)
  {
    var a := if c.start >= r.start then c.start else r.start;
    assert r.Valid();
    assert InBlock(c, a) && r.Has(a);
    assert InRanges(RESERVED, a);
  }

  // ----- Compaction

  predicate BlockFirst(x: Cidr, y: Cidr) {
    if x.start != y.start then x.start < y.start else x.bits <= y.bits
  }

  /** Scanning `rest` after `kept`: a block starting inside the last kept one is dropped. */
  function Compact(kept: seq<Cidr>, rest: seq<Cidr>): seq<Cidr>
    requires AllWf(kept) && AllWf(rest)
    decreases |rest|
  {
    if rest == [] then kept
    else if kept != [] && rest[0].start <= End(kept[|kept|-1]) then Compact(kept, rest[1..])
    else Compact(kept + [rest[0]], rest[1..])
  }

  method CompactInPlace(a: array<Cidr>) returns (n: nat)
    requires AllWf(a[..])
    modifies a
    ensures n <= a.Length && AllWf(a[..n]) && a[..n] == Compact([], old(a[..]))
  {
    ghost var all := a[..];
    n := 0;
    for i := 0 to a.Length
      invariant n <= i && a[i..] == all[i..]
      invariant AllWf(a[..n]) && Compact(a[..n], all[i..]) == Compact([], all)
    {
      var c := a[i];
      assert all[i..] == [c] + all[i+1..] by { assert c == a[i..][0]; }
      if n > 0 && c.start <= End(a[n-1]) {
        assert a[..n][n-1] == a[n-1];
      } else {
        ghost var kept := a[..n];
        a[n] := c;
        n := n + 1;
        assert a[..n] == kept + [c];
      }
      assert a[i+1..] == all[i+1..];
    }
    assert all[a.Length..] == [];
  }

  lemma StartsInside(last: Cidr, c: Cidr)
    requires last.Wf() && c.Wf() && BlockFirst(last, c) && c.start <= End(last)
    ensures c.ToBlock().Within(last.ToBlock())
  {
    if c.bits < last.bits {
      NestedOrDisjoint(last.ToBlock(), c.ToBlock(), c.start);
    } else {
      NestedOrDisjoint(c.ToBlock(), last.ToBlock(), c.start);
    }
  }

  ghost predicate Compacting(kept: seq<Cidr>, rest: seq<Cidr>) {
    && AllWf(kept) && AllWf(rest) && SortedBy(BlockFirst, rest)
    && Ordered(Blocks(kept))
    && (kept != [] ==> forall x :: x in rest ==> BlockFirst(kept[|kept|-1], x))
  }

  lemma KeepNext(kept: seq<Cidr>, rest: seq<Cidr>)
    requires Compacting(kept, rest) && rest != []
    requires kept != [] ==> rest[0].start > End(kept[|kept|-1])
    ensures Compacting(kept + [rest[0]], rest[1..])
  {
    var c := rest[0];
    BlocksConcat(kept, [c]);
    forall b | b in Blocks(kept) ensures b.start + b.Size() <= c.start {
      var i :| 0 <= i < |kept| && Blocks(kept)[i] == b;
      if i < |kept| - 1 { assert Blocks(kept)[i].start + Blocks(kept)[i].Size() <= Blocks(kept)[|kept|-1].start; }
    }
    OrderedConcat(Blocks(kept), Blocks([c]), c.start);
    assert forall x :: x in rest[1..] ==> exists j :: 1 <= j < |rest| && rest[j] == x;
  }

  lemma NextAfterLast(kept: seq<Cidr>, rest: seq<Cidr>)
    requires Compacting(kept, rest) && kept != [] && rest != []
    ensures kept[|kept|-1].Wf() && rest[0].Wf() && BlockFirst(kept[|kept|-1], rest[0])
  {
    assert rest[0] in rest;
  }

  lemma DropNext(kept: seq<Cidr>, rest: seq<Cidr>)
    requires Compacting(kept, rest) && rest != []
    ensures Compacting(kept, rest[1..])
  {
    assert forall x :: x in rest[1..] ==> x in rest;
  }

  lemma {:induction false} CompactOrdered(kept: seq<Cidr>, rest: seq<Cidr>)
    requires Compacting(kept, rest)
    ensures AllWf(Compact(kept, rest)) && Ordered(Blocks(Compact(kept, rest)))
    decreases |rest|
  {
    if rest != [] {
      if kept != [] && rest[0].start <= End(kept[|kept|-1]) {
        DropNext(kept, rest);
        CompactOrdered(kept, rest[1..]);
      } else {
        KeepNext(kept, rest);
        CompactOrdered(kept + [rest[0]], rest[1..]);
      }
    }
  }

  ghost predicate Reaches(cs: seq<Cidr>, a: int) {
    exists c :: c in cs && InBlock(c, a)
  }

  lemma ReachesConcat(cs: seq<Cidr>, ds: seq<Cidr>, a: int)
    ensures Reaches(cs + ds, a) <==> Reaches(cs, a) || Reaches(ds, a)
  {
    assert forall c :: c in cs + ds <==> c in cs || c in ds;
  }

  /** A block that starts inside the last kept one adds no address. */
  lemma NestedAddsNothing(last: Cidr, c: Cidr, a: int)
    requires last.Wf() && c.Wf() && BlockFirst(last, c) && c.start <= End(last) && InBlock(c, a)
    ensures InBlock(last, a)
  {
    StartsInside(last, c);
  }

  lemma DropKeepsReach(kept: seq<Cidr>, c: Cidr, tail: seq<Cidr>, a: int)
    requires kept != [] && (InBlock(c, a) ==> InBlock(kept[|kept|-1], a))
    ensures Reaches(kept + ([c] + tail), a) <==> Reaches(kept + tail, a)
  {
    ReachesConcat(kept, tail, a);
    ReachesConcat(kept, [c] + tail, a);
    ReachesConcat([c], tail, a);
    assert kept[|kept|-1] in kept;
  }

  lemma {:induction false} CompactReaches(kept: seq<Cidr>, rest: seq<Cidr>, a: int)
    requires Compacting(kept, rest)
    ensures Reaches(Compact(kept, rest), a) <==> Reaches(kept + rest, a)
    decreases |rest|
  {
    if rest == [] {
      assert kept + rest == kept;
    } else {
      var c, tail := rest[0], rest[1..];
      assert rest == [c] + tail;
      if kept != [] && c.start <= End(kept[|kept|-1]) {
        NextAfterLast(kept, rest);
        DropNext(kept, rest);
        CompactReaches(kept, tail, a);
        if InBlock(c, a) { NestedAddsNothing(kept[|kept|-1], c, a); }
        DropKeepsReach(kept, c, tail, a);
      } else {
        KeepNext(kept, rest);
        CompactReaches(kept + [c], tail, a);
        assert kept + [c] + tail == kept + rest;
      }
    }
  }

  /** Nothing is added. */
  lemma {:induction false} CompactSelects(kept: seq<Cidr>, rest: seq<Cidr>, c: Cidr)
    requires AllWf(kept) && AllWf(rest) && c in Compact(kept, rest)
    ensures c in kept || c in rest
    decreases |rest|
  {
    if rest == [] {
    } else if kept != [] && rest[0].start <= End(kept[|kept|-1]) {
      CompactSelects(kept, rest[1..], c);
    } else {
      CompactSelects(kept + [rest[0]], rest[1..], c);
    }
  }

  // ----- Building the set

  ghost predicate Admitted(lines: seq<Line>, c: Cidr) {
    Entry(c) in lines && !Touches(c, RESERVED)
  }

  ghost predicate AdmittedAddress(lines: seq<Line>, a: int) {
    exists c :: Admitted(lines, c) && InBlock(c, a)
  }

  method Admit(lines: seq<Line>) returns (blocks: seq<Cidr>)
    requires forall l :: l in lines && l.Entry? ==> l.c.Wf()
    ensures AllWf(blocks) && forall c :: c in blocks <==> Admitted(lines, c)
  {
    blocks := [];
    for i := 0 to |lines|
      invariant AllWf(blocks) && forall c :: c in blocks <==> Admitted(lines[..i], c)
    {
      assert lines[..i+1] == lines[..i] + [lines[i]];
      if lines[i].Skip? { continue; }
      var touches := TouchesReserved(lines[i].c);
      if touches { continue; }
      blocks := blocks + [lines[i].c];
    }
    assert lines[..|lines|] == lines;
  }

  /** The parsed set is sorted and disjoint, holds no block that was not on a line, has exactly the
      addresses of the admitted blocks, and never an address of the reserved space. */
  method ParseCNSet(lines: seq<Line>) returns (s: Set)
    requires forall l :: l in lines && l.Entry? ==> l.c.Wf()
    ensures s.Set? && s.Valid()
    ensures forall c :: c in s.blocks ==> Admitted(lines, c)
    ensures forall a :: s.Has(a) <==> AdmittedAddress(lines, a)
    ensures forall a :: s.Has(a) ==> !InRanges(RESERVED, a)
  {
    var blocks := Admit(lines);
    var sorted := Sort(BlockFirst, blocks);
    SortSorts(BlockFirst, blocks);
    var a := new Cidr[|sorted|](i requires 0 <= i < |sorted| => sorted[i]);
    assert a[..] == sorted;
    forall i | 0 <= i < |sorted| ensures sorted[i].Wf() { assert sorted[i] in blocks; }
    var n := CompactInPlace(a);
    s := Set(a[..n]);
    CompactOrdered([], sorted);
    ParsedAddresses(lines, sorted);
    forall c | c in s.blocks ensures Admitted(lines, c) { CompactSelects([], sorted, c); }
  }

  lemma ParsedAddresses(lines: seq<Line>, sorted: seq<Cidr>)
    requires AllWf(sorted) && SortedBy(BlockFirst, sorted)
    requires forall c :: c in sorted <==> Admitted(lines, c)
    ensures forall a :: Reaches(Compact([], sorted), a) <==> AdmittedAddress(lines, a)
    ensures forall a :: AdmittedAddress(lines, a) ==> !InRanges(RESERVED, a)
  {
    assert [] + sorted == sorted;
    forall a ensures Reaches(Compact([], sorted), a) <==> AdmittedAddress(lines, a) {
      CompactReaches([], sorted, a);
    }
    forall a | AdmittedAddress(lines, a) ensures !InRanges(RESERVED, a) {
      var c :| Admitted(lines, c) && InBlock(c, a);
    }
  }

  // ----- Membership

  /** Binary search for the only block that could hold `ip`. */
  method Contains(s: Set, ip: Ip) returns (b: bool)
    requires s.Valid()
    ensures b <==> ip.V4? && s.Has(ip.v)
  {
    if s.NilSet? || ip.NotV4? { return false; }
    var v, n := ip.v, |s.blocks|;
    var i, j := 0, n;
    while i < j
      invariant 0 <= i <= j <= n
      invariant forall k :: 0 <= k < i ==> s.blocks[k].start <= v
      invariant forall k :: j <= k < n ==> s.blocks[k].start > v
    {
      var h := (i + j) / 2;
      ghost var bs := Blocks(s.blocks);
      forall k | h < k < n ensures s.blocks[h].start < s.blocks[k].start { assert bs[h].start < bs[k].start; }
      forall k | 0 <= k < h ensures s.blocks[k].start < s.blocks[h].start { assert bs[k].start < bs[h].start; }
      if !(s.blocks[h].start > v) { i := h + 1; } else { j := h; }
    }
    i := i - 1;
    b := i >= 0 && v <= End(s.blocks[i]);
    OnlyCandidate(s.blocks, i, v);
  }

  lemma OnlyCandidate(cs: seq<Cidr>, i: int, v: uint32)
    requires AllWf(cs) && Ordered(Blocks(cs)) && -1 <= i < |cs|
    requires forall k :: 0 <= k <= i ==> cs[k].start <= v
    requires forall k :: i < k < |cs| ==> cs[k].start > v
    ensures Reaches(cs, v) <==> i >= 0 && v <= End(cs[i])
  {
    if i >= 0 { assert InBlock(cs[i], v) <==> v <= End(cs[i]); }
    forall k | 0 <= k < |cs| && k != i ensures !InBlock(cs[k], v) {
      if k < i { assert Blocks(cs)[k].start + Blocks(cs)[k].Size() <= Blocks(cs)[i].start; }
    }
  }

  // ----- Routes

  predicate LargerFirst(x: Cidr, y: Cidr) {
    x.bits <= y.bits
  }

  predicate LowerFirst(x: Cidr, y: Cidr) {
    x.start <= y.start
  }

  ghost function Elements(cs: seq<Cidr>): set<Cidr> {
    set c | c in cs
  }

  ghost predicate ReachedBy(cs: set<Cidr>, a: int) {
    exists c :: c in cs && InBlock(c, a)
  }

  /** The addresses that a choice of blocks covers. */
  ghost function Reach(cs: set<Cidr>): set<int> {
    set a: int | 0 <= a < 0x1_0000_0000 && ReachedBy(cs, a)
  }

  ghost predicate PairwiseDisjoint(cs: set<Cidr>) {
    forall x, y, a :: x in cs && y in cs && InBlock(x, a) && InBlock(y, a) ==> x == y
  }

  predicate Distinct(cs: seq<Cidr>) {
    forall i, j :: 0 <= i < j < |cs| ==> cs[i] != cs[j]
  }

  function Weight(cs: seq<Cidr>): nat
    requires AllWf(cs)
  {
    if cs == [] then 0 else cs[0].ToBlock().Size() + Weight(cs[1..])
  }

  /** The `n` addresses from `lo` on. */
  ghost function Stretch(lo: int, n: nat): (s: set<int>)
    ensures |s| == n && forall a :: a in s <==> lo <= a < lo + n
  {
    if n == 0 then {} else Stretch(lo, n - 1) + {lo + n - 1}
  }

  lemma ReachOfOneMore(c: Cidr, rest: set<Cidr>)
    requires c.Wf() && c !in rest && PairwiseDisjoint({c} + rest)
    ensures |Reach({c} + rest)| == c.ToBlock().Size() + |Reach(rest)|
  {
    var own := Stretch(c.start, c.ToBlock().Size());
    BlockFits(c);
    forall a ensures a in Reach({c} + rest) <==> a in own || a in Reach(rest) {
      assert a in own <==> InBlock(c, a);
      assert c in {c} + rest;
      assert forall x :: x in rest ==> x in {c} + rest;
    }
    assert Reach({c} + rest) == own + Reach(rest);
    forall a | a in own ensures a !in Reach(rest) {
      assert InBlock(c, a) && c in {c} + rest;
    }
  }

  lemma TailElements(cs: seq<Cidr>)
    requires cs != [] && Distinct(cs)
    ensures Elements(cs) == {cs[0]} + Elements(cs[1..]) && cs[0] !in Elements(cs[1..]) && Distinct(cs[1..])
  {}

  /** Disjoint blocks cover as many addresses as their sizes add up to. */
  lemma {:induction false} ReachIsWeight(cs: seq<Cidr>)
    requires AllWf(cs) && Distinct(cs) && PairwiseDisjoint(Elements(cs))
    ensures |Reach(Elements(cs))| == Weight(cs)
  {
    if cs == [] {
      assert Reach(Elements(cs)) == {};
    } else {
      TailElements(cs);
      ReachIsWeight(cs[1..]);
      ReachOfOneMore(cs[0], Elements(cs[1..]));
    }
  }

  lemma {:induction false} DistinctCount(cs: seq<Cidr>)
    requires Distinct(cs)
    ensures |Elements(cs)| == |cs|
  {
    if cs != [] {
      TailElements(cs);
      DistinctCount(cs[1..]);
    }
  }

  /** The members of `t`, in the order of `cs`. */
  function Pick(cs: seq<Cidr>, t: set<Cidr>): seq<Cidr> {
    if cs == [] then [] else (if cs[0] in t then [cs[0]] else []) + Pick(cs[1..], t)
  }

  lemma {:induction false} PickElements(cs: seq<Cidr>, t: set<Cidr>)
    ensures Elements(Pick(cs, t)) == Elements(cs) * t
  {
    if cs != [] {
      PickElements(cs[1..], t);
      forall c ensures c in Pick(cs, t) <==> c in cs && c in t {
        assert c in cs <==> c == cs[0] || c in cs[1..];
        assert c in cs[1..] && c in t <==> c in Elements(Pick(cs[1..], t));
      }
    }
  }

  lemma {:induction false} PickDistinct(cs: seq<Cidr>, t: set<Cidr>)
    requires Distinct(cs)
    ensures Distinct(Pick(cs, t))
  {
    if cs != [] {
      var rest := Pick(cs[1..], t);
      TailElements(cs);
      PickDistinct(cs[1..], t);
      PickElements(cs[1..], t);
      assert forall j :: 0 <= j < |rest| ==> rest[j] in Elements(rest);
    }
  }

  lemma PickIsChoice(cs: seq<Cidr>, t: set<Cidr>)
    requires AllWf(cs) && Distinct(cs) && t <= Elements(cs)
    ensures AllWf(Pick(cs, t)) && Distinct(Pick(cs, t))
    ensures Elements(Pick(cs, t)) == t && |Pick(cs, t)| == |t|
  {
    var p := Pick(cs, t);
    PickElements(cs, t);
    PickDistinct(cs, t);
    assert Elements(cs) * t == t;
    DistinctCount(p);
    forall i | 0 <= i < |p| ensures p[i].Wf() { assert p[i] in Elements(p); }
  }

  /** Among blocks in decreasing size, the first `k` weigh at least as much as the next `k`. */
  lemma {:induction false} ShiftWeighsLess(cs: seq<Cidr>, k: nat)
    requires AllWf(cs) && SortedBy(LargerFirst, cs) && 0 < |cs| && k < |cs|
    ensures Weight(cs[1..k+1]) <= Weight(cs[..k])
  {
    if k > 0 {
      assert cs[1..k+1] == [cs[1]] + cs[2..k+1] && cs[..k] == [cs[0]] + cs[1..k];
      assert cs[1..][1..(k-1)+1] == cs[2..k+1] && cs[1..][..k-1] == cs[1..k];
      ShiftWeighsLess(cs[1..], k - 1);
      assert LargerFirst(cs[0], cs[1]);
      Pow2Mono(32 - cs[1].bits, 32 - cs[0].bits);
    } else {
      assert cs[1..1] == [] == cs[..0];
    }
  }

  lemma WeightCons(c: Cidr, cs: seq<Cidr>)
    requires c.Wf() && AllWf(cs)
    ensures AllWf([c] + cs) && Weight([c] + cs) == c.ToBlock().Size() + Weight(cs)
  {
    assert ([c] + cs)[1..] == cs;
  }

  lemma TailSorted(cs: seq<Cidr>)
    requires AllWf(cs) && SortedBy(LargerFirst, cs) && cs != []
    ensures AllWf(cs[1..]) && SortedBy(LargerFirst, cs[1..])
  {}

  /** No choice of at most `k` blocks outweighs the first `k` in decreasing size. */
  lemma {:induction false} PrefixIsHeaviest(cs: seq<Cidr>, t: set<Cidr>, k: nat)
    requires AllWf(cs) && SortedBy(LargerFirst, cs) && k <= |cs| && |Pick(cs, t)| <= k
    requires AllWf(Pick(cs, t))
    ensures Weight(Pick(cs, t)) <= Weight(cs[..k])
    decreases |cs|
  {
    if k == 0 {
      assert Pick(cs, t) == [] && cs[..0] == [];
    } else if cs[0] in t {
      PickedHead(cs, t);
      TailSorted(cs);
      PrefixIsHeaviest(cs[1..], t, k - 1);
      PrefixHead(cs, k);
      WeightCons(cs[0], Pick(cs[1..], t));
    } else if k < |cs| {
      TailSorted(cs);
      assert Pick(cs, t) == Pick(cs[1..], t);
      PrefixIsHeaviest(cs[1..], t, k);
      assert cs[1..][..k] == cs[1..k+1];
      ShiftWeighsLess(cs, k);
    } else {
      TailSorted(cs);
      assert Pick(cs, t) == Pick(cs[1..], t);
      PickLength(cs[1..], t);
      PrefixIsHeaviest(cs[1..], t, k - 1);
      PrefixHead(cs, k);
    }
  }

  lemma PickedHead(cs: seq<Cidr>, t: set<Cidr>)
    requires cs != [] && cs[0] in t && AllWf(Pick(cs, t))
    ensures Pick(cs, t) == [cs[0]] + Pick(cs[1..], t) && AllWf(Pick(cs[1..], t))
  {
    assert Pick(cs, t)[1..] == Pick(cs[1..], t);
  }

  lemma PrefixHead(cs: seq<Cidr>, k: nat)
    requires AllWf(cs) && 0 < k <= |cs|
    ensures Weight(cs[..k]) == cs[0].ToBlock().Size() + Weight(cs[1..][..k-1])
  {
    assert cs[..k] == [cs[0]] + cs[1..][..k-1];
    WeightCons(cs[0], cs[1..][..k-1]);
  }

  lemma {:induction false} PickLength(cs: seq<Cidr>, t: set<Cidr>)
    ensures |Pick(cs, t)| <= |cs|
  {
    if cs != [] { PickLength(cs[1..], t); }
  }

  lemma OrderedIsDisjoint(cs: seq<Cidr>)
    requires AllWf(cs) && Ordered(Blocks(cs))
    ensures Distinct(cs) && PairwiseDisjoint(Elements(cs))
  {
    var bs := Blocks(cs);
    forall i, j | 0 <= i < j < |cs| ensures cs[i] != cs[j] {
      assert bs[i].start + bs[i].Size() <= bs[j].start;
    }
    forall i, j, a | 0 <= i < j < |cs| && InBlock(cs[i], a) ensures !InBlock(cs[j], a) {
      assert bs[i].start + bs[i].Size() <= bs[j].start;
    }
    forall x, y, a | x in cs && y in cs && InBlock(x, a) && InBlock(y, a) ensures x == y {
      var i :| 0 <= i < |cs| && cs[i] == x;
      var j :| 0 <= j < |cs| && cs[j] == y;
    }
  }

  lemma DisjointIsOrdered(cs: seq<Cidr>)
    requires AllWf(cs) && SortedBy(LowerFirst, cs) && Distinct(cs) && PairwiseDisjoint(Elements(cs))
    ensures Ordered(Blocks(cs))
  {
    forall i, j | 0 <= i < j < |cs| ensures cs[i].start + cs[i].ToBlock().Size() <= cs[j].start {
      assert LowerFirst(cs[i], cs[j]) && cs[i] in Elements(cs) && cs[j] in Elements(cs);
      assert InBlock(cs[j], cs[j].start);
      assert !InBlock(cs[i], cs[j].start);
    }
  }

  lemma PermutationIsDistinct(cs: seq<Cidr>, ds: seq<Cidr>)
    requires multiset(cs) == multiset(ds) && Distinct(cs)
    ensures Distinct(ds)
  {
    forall i, j | 0 <= i < j < |ds| ensures ds[i] != ds[j] {
      OnceInDistinct(cs, ds[i]);
      assert ds == ds[..i] + [ds[i]] + ds[i+1..j] + [ds[j]] + ds[j+1..];
    }
  }

  lemma {:induction false} OnceInDistinct(cs: seq<Cidr>, c: Cidr)
    requires Distinct(cs)
    ensures multiset(cs)[c] <= 1
  {
    if cs != [] {
      TailElements(cs);
      OnceInDistinct(cs[1..], c);
      assert cs == [cs[0]] + cs[1..];
      assert cs[0] !in cs[1..];
    }
  }

  /** Keeping the `max` largest blocks covers at least as much as any other choice. */
  lemma LargestCoverMost(cs: seq<Cidr>, max: nat, t: set<Cidr>)
    requires AllWf(cs) && Ordered(Blocks(cs)) && max <= |Sort(LargerFirst, cs)|
    requires t <= Elements(cs) && |t| <= max
    ensures |Reach(t)| <= |Reach(Elements(Sort(LargerFirst, cs)[..max]))|
  {
    var sorted := Sort(LargerFirst, cs);
    SortSorts(LargerFirst, cs);
    OrderedIsDisjoint(cs);
    PermutationIsDistinct(cs, sorted);
    assert Elements(sorted) == Elements(cs);
    assert AllWf(sorted) by {
      forall i | 0 <= i < |sorted| ensures sorted[i].Wf() { assert sorted[i] in cs; }
    }
    PickIsChoice(sorted, t);
    assert Elements(sorted[..max]) <= Elements(cs);
    PrefixIsHeaviest(sorted, t, max);
    ReachIsWeight(Pick(sorted, t));
    ReachIsWeight(sorted[..max]);
  }

  /** The blocks in address order; past `max`, the `max` largest, which cover the most addresses. */
  method Routes(s: Set, max: int) returns (out: seq<Cidr>)
    requires s.Valid()
    ensures AllWf(out) && Ordered(Blocks(out))
    ensures s.NilSet? ==> out == []
    ensures s.Set? && (max <= 0 || |s.blocks| <= max) ==> out == s.blocks
    ensures s.Set? && 0 < max < |s.blocks| ==> |out| == max && Elements(out) <= Elements(s.blocks)
    ensures s.Set? && 0 < max < |s.blocks| ==>
              forall t :: t <= Elements(s.blocks) && |t| <= max ==> |Reach(t)| <= |Reach(Elements(out))|
  {
    if s.NilSet? { return []; }
    out := s.blocks;
    if max > 0 && |out| > max {
      var sel := Sort(LargerFirst, s.blocks);
      SortSorts(LargerFirst, s.blocks);
      sel := sel[..max];
      out := Sort(LowerFirst, sel);
      RoutesAreOrdered(s.blocks, max);
      forall t | t <= Elements(s.blocks) && |t| <= max ensures |Reach(t)| <= |Reach(Elements(out))| {
        LargestCoverMost(s.blocks, max, t);
      }
    }
  }

  lemma RoutesAreOrdered(cs: seq<Cidr>, max: nat)
    requires AllWf(cs) && Ordered(Blocks(cs)) && max <= |Sort(LargerFirst, cs)|
    ensures var sel := Sort(LargerFirst, cs)[..max];
            var out := Sort(LowerFirst, sel);
            && AllWf(out) && Ordered(Blocks(out)) && |out| == max
            && Elements(out) == Elements(sel) <= Elements(cs)
  {
    var sorted := Sort(LargerFirst, cs);
    SortSorts(LargerFirst, cs);
    OrderedIsDisjoint(cs);
    PermutationIsDistinct(cs, sorted);
    assert Elements(sorted[..max]) <= Elements(cs);
    SortedChoiceIsOrdered(sorted[..max], Elements(cs));
  }

  lemma SortedChoiceIsOrdered(sel: seq<Cidr>, all: set<Cidr>)
    requires Distinct(sel) && Elements(sel) <= all && PairwiseDisjoint(all)
    requires forall c :: c in all ==> c.Wf()
    ensures var out := Sort(LowerFirst, sel);
            AllWf(out) && Ordered(Blocks(out)) && |out| == |sel| && Elements(out) == Elements(sel)
  {
    var out := Sort(LowerFirst, sel);
    SortSorts(LowerFirst, sel);
    PermutationIsDistinct(sel, out);
    assert Elements(out) == Elements(sel);
    forall i | 0 <= i < |out| ensures out[i].Wf() { assert out[i] in Elements(out); }
    DisjointIsOrdered(out);
  }

  // ----- Generating the embedded list

  /** Ordered blocks chosen from `cs` that reach as far as all of `cs` are all of `cs`. */
  lemma NothingDropped(cs: seq<Cidr>, ds: seq<Cidr>)
    requires AllWf(cs) && Ordered(Blocks(cs)) && AllWf(ds) && Ordered(Blocks(ds))
    requires Elements(ds) <= Elements(cs) && forall a :: Reaches(ds, a) <==> Reaches(cs, a)
    ensures ds == cs
  {
    OrderedIsDisjoint(cs);
    forall c | c in cs ensures c in ds {
      assert InBlock(c, c.start);
      assert Reaches(cs, c.start);
      var d :| d in ds && InBlock(d, c.start);
      assert d in Elements(ds) && c in Elements(cs);
    }
    assert Elements(ds) == Elements(cs);
    OrderedIsUnique(cs, ds);
  }

  lemma SameHead(cs: seq<Cidr>, ds: seq<Cidr>)
    requires AllWf(cs) && Ordered(Blocks(cs)) && AllWf(ds) && Ordered(Blocks(ds)) && Elements(cs) == Elements(ds)
    requires cs != [] && ds != []
    ensures cs[0] == ds[0]
  {
    assert cs[0] in Elements(cs) && ds[0] in Elements(ds);
    LowestFirst(cs, ds[0]);
    LowestFirst(ds, cs[0]);
    OrderedIsDisjoint(cs);
    assert InBlock(cs[0], cs[0].start) && InBlock(ds[0], cs[0].start);
  }

  lemma SameLength(cs: seq<Cidr>, ds: seq<Cidr>)
    requires AllWf(cs) && Ordered(Blocks(cs)) && AllWf(ds) && Ordered(Blocks(ds)) && Elements(cs) == Elements(ds)
    ensures |cs| == |ds| && Distinct(cs) && Distinct(ds)
  {
    OrderedIsDisjoint(cs);
    OrderedIsDisjoint(ds);
    DistinctCount(cs);
    DistinctCount(ds);
  }

  lemma {:induction false} OrderedIsUnique(cs: seq<Cidr>, ds: seq<Cidr>)
    requires AllWf(cs) && Ordered(Blocks(cs)) && AllWf(ds) && Ordered(Blocks(ds)) && Elements(cs) == Elements(ds)
    ensures cs == ds
    decreases |cs|
  {
    SameLength(cs, ds);
    if cs != [] {
      SameHead(cs, ds);
      TailElements(cs);
      TailElements(ds);
      TailOrdered(cs);
      TailOrdered(ds);
      assert Elements(cs[1..]) == Elements(cs) - {cs[0]} == Elements(ds[1..]);
      OrderedIsUnique(cs[1..], ds[1..]);
    }
  }

  lemma LowestFirst(cs: seq<Cidr>, c: Cidr)
    requires AllWf(cs) && Ordered(Blocks(cs)) && cs != [] && c in Elements(cs)
    ensures cs[0].start <= c.start
  {
    var k :| 0 <= k < |cs| && cs[k] == c;
    if k > 0 { assert Blocks(cs)[0].start <= Blocks(cs)[k].start; }
  }

  lemma TailOrdered(cs: seq<Cidr>)
    requires AllWf(cs) && Ordered(Blocks(cs)) && cs != []
    ensures AllWf(cs[1..]) && Ordered(Blocks(cs[1..]))
  {
    assert Blocks(cs[1..]) == Blocks(cs)[1..];
  }

  /** A list of blocks as the lines of a file. */
  function Lines(cs: seq<Cidr>): (lines: seq<Line>)
    ensures forall c :: Entry(c) in lines <==> c in cs
    ensures forall l :: l in lines ==> l.Entry?
  {
    if cs == [] then [] else [Entry(cs[0])] + Lines(cs[1..])
  }

  /** The lines of a parsed set are never dropped when they are parsed again. */
  lemma ParsedAgain(s: Set, lines: seq<Line>, t: Set)
    requires s.Set? && s.Valid() && (forall a :: s.Has(a) ==> !InRanges(RESERVED, a)) && lines == Lines(s.blocks)
    requires t.Set? && t.Valid() && (forall c :: c in t.blocks ==> Admitted(lines, c))
    requires forall a :: t.Has(a) <==> AdmittedAddress(lines, a)
    ensures t == s
  {
    forall c | c in s.blocks ensures Admitted(lines, c) {
      assert forall a :: InBlock(c, a) ==> s.Has(a);
    }
    forall a ensures Reaches(t.blocks, a) <==> Reaches(s.blocks, a) {
      assert Reaches(t.blocks, a) <==> t.Has(a);
      if Reaches(s.blocks, a) {
        var c :| c in s.blocks && InBlock(c, a);
        assert Admitted(lines, c);
      }
    }
    NothingDropped(s.blocks, t.blocks);
  }

  /** The generator, and the engine reading its file: the engine's set is the file line for line, and has
      the addresses of exactly those blocks of the smallest cover that stay clear of the reserved space. */
  method GenerateList(ranges: seq<Range>) returns (blocks: seq<Cidr>, file: seq<Cidr>, engine: Set)
    requires Ranges.AllValid(ranges)
    ensures AllWf(blocks) && AlignedCover(Blocks(blocks), Addresses(ranges))
    ensures forall cover :: AlignedCover(cover, Addresses(ranges)) ==> |blocks| <= |cover|
    ensures engine == Set(file) && engine.Valid()
    ensures forall a :: engine.Has(a) <==> exists c :: c in blocks && !Touches(c, RESERVED) && InBlock(c, a)
  {
    blocks := GenerateBlocks(ranges);
    var parsed := ParseCNSet(Lines(blocks));
    file := Routes(parsed, 0);
    engine := ParseCNSet(Lines(file));
    ParsedAgain(parsed, Lines(file), engine);
  }
}
