/**
 Block numbering: the stable sort by where a block starts, longest first, and when that
 order lists every container before what it holds.
 */
module Numbering {
  import opened Markdown
  import opened Text

  // ----- the sort -----

  /** The sort key's order: by start, then by end descending. */
  predicate Before(a: Span, b: Span) {
    a.start < b.start || (a.start == b.start && a.end > b.end)
  }

  ghost predicate InOrder(blocks: seq<SourceBlock>) {
    forall i, j :: 0 <= i < j < |blocks| ==> !Before(blocks[j].span, blocks[i].span)
  }

  function Insert(b: SourceBlock, sorted: seq<SourceBlock>): seq<SourceBlock> {
    if sorted == [] || !Before(sorted[0].span, b.span) then [b] + sorted
    else [sorted[0]] + Insert(b, sorted[1..])
  }

  function SortBlocks(blocks: seq<SourceBlock>): seq<SourceBlock> {
    if blocks == [] then [] else Insert(blocks[0], SortBlocks(blocks[1..]))
  }

  /** The blocks at one span, in order: what a stable sort may not rearrange. */
  function At(blocks: seq<SourceBlock>, span: Span): seq<SourceBlock> {
    if blocks == [] then []
    else (if blocks[0].span == span then [blocks[0]] else []) + At(blocks[1..], span)
  }

  lemma {:induction false} AtAppend(a: seq<SourceBlock>, b: seq<SourceBlock>, span: Span)
    ensures At(a + b, span) == At(a, span) + At(b, span)
  {
    if a == [] {
      assert a + b == b;
    } else {
      assert (a + b)[1..] == a[1..] + b;
      AtAppend(a[1..], b, span);
    }
  }

  lemma {:induction false} AtMember(blocks: seq<SourceBlock>, span: Span)
    ensures forall b :: b in At(blocks, span) <==> b in blocks && b.span == span
  {
    if blocks != [] {
      AtMember(blocks[1..], span);
      assert blocks == [blocks[0]] + blocks[1..];
    }
  }

  lemma {:induction false} InsertSorts(b: SourceBlock, sorted: seq<SourceBlock>)
    requires InOrder(sorted)
    ensures InOrder(Insert(b, sorted))
    ensures multiset(Insert(b, sorted)) == multiset{b} + multiset(sorted)
  {
    if sorted != [] && Before(sorted[0].span, b.span) {
      var rest := Insert(b, sorted[1..]);
      assert sorted == [sorted[0]] + sorted[1..];
      InsertSorts(b, sorted[1..]);
      forall x | x in rest ensures !Before(x.span, sorted[0].span) {
        assert x in multiset(rest);
        assert x == b || x in sorted[1..];
      }
      InOrderAppend([sorted[0]], rest);
    } else {
      InOrderAppend([b], sorted);
    }
  }

  lemma {:induction false} InsertIsStable(b: SourceBlock, sorted: seq<SourceBlock>, span: Span)
    ensures At(Insert(b, sorted), span) == At([b], span) + At(sorted, span)
  {
    if sorted == [] || !Before(sorted[0].span, b.span) {
      AtAppend([b], sorted, span);
    } else {
      var rest := Insert(b, sorted[1..]);
      InsertIsStable(b, sorted[1..], span);
      assert ([sorted[0]] + rest)[1..] == rest && [b][1..] == [];
    }
  }

  /** The sort rearranges the blocks into key order and keeps the order of equal keys. */
  lemma {:induction false} SortIsStable(blocks: seq<SourceBlock>)
    ensures InOrder(SortBlocks(blocks))
    ensures multiset(SortBlocks(blocks)) == multiset(blocks)
    ensures forall span :: At(SortBlocks(blocks), span) == At(blocks, span)
  {
    if blocks != [] {
      SortIsStable(blocks[1..]);
      assert blocks == [blocks[0]] + blocks[1..];
      var sorted := SortBlocks(blocks[1..]);
      InsertSorts(blocks[0], sorted);
      forall span ensures At(SortBlocks(blocks), span) == At(blocks, span) {
        InsertIsStable(blocks[0], sorted, span);
        AtAppend([blocks[0]], blocks[1..], span);
      }
    }
  }

  /** Any stable sort gives the same sequence. */
  lemma {:induction false} StableSortIsUnique(a: seq<SourceBlock>, b: seq<SourceBlock>)
    requires InOrder(a) && InOrder(b) && forall span :: At(a, span) == At(b, span)
    ensures a == b
  {
    if a != [] || b != [] {
      HeadsAgree(a, b);
      forall span ensures At(a[1..], span) == At(b[1..], span) {
        AtTail(a, b, span);
      }
      StableSortIsUnique(a[1..], b[1..]);
      assert a == [a[0]] + a[1..] && b == [b[0]] + b[1..];
    }
  }

  lemma HeadsAgree(a: seq<SourceBlock>, b: seq<SourceBlock>)
    requires InOrder(a) && InOrder(b) && (a != [] || b != []) && forall span :: At(a, span) == At(b, span)
    ensures a != [] && b != [] && a[0] == b[0]
  {
    if a != [] { SpanInBoth(a, b); }
    if b != [] { SpanInBoth(b, a); }
    assert !Before(a[0].span, b[0].span) && !Before(b[0].span, a[0].span);
    assert At(a, a[0].span)[0] == a[0] && At(b, b[0].span)[0] == b[0];
  }

  lemma SpanInBoth(a: seq<SourceBlock>, b: seq<SourceBlock>)
    requires a != [] && InOrder(b) && At(a, a[0].span) == At(b, a[0].span)
    ensures b != [] && !Before(a[0].span, b[0].span)
  {
    AtMember(b, a[0].span);
    assert At(a, a[0].span)[0] in b;
    var i :| 0 <= i < |b| && b[i] == a[0];
  }

  lemma AtTail(a: seq<SourceBlock>, b: seq<SourceBlock>, span: Span)
    requires a != [] && b != [] && a[0] == b[0] && At(a, span) == At(b, span)
    ensures At(a[1..], span) == At(b[1..], span)
  {
    var one := if a[0].span == span then [a[0]] else [];
    assert At(a, span) == one + At(a[1..], span) && At(b, span) == one + At(b[1..], span);
    assert (one + At(a[1..], span))[|one|..] == At(a[1..], span);
    assert (one + At(b[1..], span))[|one|..] == At(b[1..], span);
  }

  // ----- blocks inside blocks -----

  /** A block and the blocks inside it. */
  datatype Nest = Nest(block: SourceBlock, inside: seq<Nest>)

  /** Document order: each block, then what it holds. */
  function PreOrder(forest: seq<Nest>): seq<SourceBlock> {
    if forest == [] then []
    else [forest[0].block] + PreOrder(forest[0].inside) + PreOrder(forest[1..])
  }

  /** The order end tags arrive in: what a block holds, then the block. */
  function PostOrder(forest: seq<Nest>): seq<SourceBlock> {
    if forest == [] then []
    else PostOrder(forest[0].inside) + [forest[0].block] + PostOrder(forest[1..])
  }

  /** Spans are not empty, lie in what holds them, and follow one another. */
  ghost predicate Nested(forest: seq<Nest>, low: nat, high: nat) {
    forest != [] ==>
      var span := forest[0].block.span;
      && low <= span.start < span.end <= high
      && Nested(forest[0].inside, span.start, span.end)
      && Nested(forest[1..], span.end, high)
  }

  /** Containers hold links and code; links hold code. */
  function Rank(kind: SourceBlockKind): nat {
    if kind.InlineCode? then 0 else if kind.Link? then 1 else 2
  }

  ghost predicate RanksBelow(forest: seq<Nest>, rank: nat) {
    forest != [] ==>
      && Rank(forest[0].block.kind) < rank
      && RanksBelow(forest[0].inside, Rank(forest[0].block.kind))
      && RanksBelow(forest[1..], rank)
  }

  /** No block has the span of a block it holds. */
  ghost predicate SpansDiffer(forest: seq<Nest>) {
    forest != [] ==>
      && (forall b :: b in PostOrder(forest[0].inside) ==> b.span != forest[0].block.span)
      && SpansDiffer(forest[0].inside) && SpansDiffer(forest[1..])
  }

  ghost predicate Within(b: SourceBlock, low: nat, high: nat) {
    low <= b.span.start < b.span.end <= high
  }

  lemma {:induction false} OrdersAgree(forest: seq<Nest>)
    ensures multiset(PreOrder(forest)) == multiset(PostOrder(forest))
    ensures forall b :: b in PreOrder(forest) <==> b in PostOrder(forest)
  {
    if forest != [] {
      OrdersAgree(forest[0].inside);
      OrdersAgree(forest[1..]);
    }
  }

  lemma {:induction false} NestedWithin(forest: seq<Nest>, low: nat, high: nat)
    requires Nested(forest, low, high)
    ensures forall b :: b in PreOrder(forest) ==> Within(b, low, high)
    ensures forall b :: b in PostOrder(forest) ==> Within(b, low, high)
  {
    if forest != [] {
      var span := forest[0].block.span;
      NestedWithin(forest[0].inside, span.start, span.end);
      NestedWithin(forest[1..], span.end, high);
    }
  }

  lemma {:induction false} RanksBelowAll(forest: seq<Nest>, rank: nat)
    requires RanksBelow(forest, rank)
    ensures forall b :: b in PostOrder(forest) ==> Rank(b.kind) < rank
  {
    if forest != [] {
      RanksBelowAll(forest[0].inside, Rank(forest[0].block.kind));
      RanksBelowAll(forest[1..], rank);
    }
  }

  /** Nested spans put document order in key order, equal spans or not. */
  lemma {:induction false} PreOrderInOrder(forest: seq<Nest>, low: nat, high: nat)
    requires Nested(forest, low, high)
    ensures InOrder(PreOrder(forest))
  {
    if forest != [] {
      var n := forest[0];
      PreOrderInOrder(n.inside, n.block.span.start, n.block.span.end);
      PreOrderInOrder(forest[1..], n.block.span.end, high);
      NestedWithin(n.inside, n.block.span.start, n.block.span.end);
      NestedWithin(forest[1..], n.block.span.end, high);
      InOrderAppend([n.block], PreOrder(n.inside));
      InOrderAppend([n.block] + PreOrder(n.inside), PreOrder(forest[1..]));
    }
  }

  lemma InOrderAppend(a: seq<SourceBlock>, b: seq<SourceBlock>)
    requires InOrder(a) && InOrder(b) && forall x, y :: x in a && y in b ==> !Before(y.span, x.span)
    ensures InOrder(a + b)
  {}

  /** Two orders of the blocks agree at every span. */
  ghost predicate SameAt(a: seq<SourceBlock>, b: seq<SourceBlock>) {
    forall span :: At(a, span) == At(b, span)
  }

  lemma AtSplits(forest: seq<Nest>, span: Span)
    requires forest != []
    ensures At(PreOrder(forest), span) ==
              At([forest[0].block], span) + At(PreOrder(forest[0].inside), span) + At(PreOrder(forest[1..]), span)
    ensures At(PostOrder(forest), span) ==
              At(PostOrder(forest[0].inside), span) + At([forest[0].block], span) + At(PostOrder(forest[1..]), span)
  {
    var n := forest[0];
    AtAppend([n.block], PreOrder(n.inside), span);
    AtAppend([n.block] + PreOrder(n.inside), PreOrder(forest[1..]), span);
    AtAppend(PostOrder(n.inside), [n.block], span);
    AtAppend(PostOrder(n.inside) + [n.block], PostOrder(forest[1..]), span);
  }

  lemma {:induction false} DifferentSpansAgree(forest: seq<Nest>, span: Span)
    requires SpansDiffer(forest)
    ensures At(PreOrder(forest), span) == At(PostOrder(forest), span)
  {
    if forest != [] {
      var n := forest[0];
      DifferentSpansAgree(n.inside, span);
      DifferentSpansAgree(forest[1..], span);
      if span == n.block.span {
        NothingAt(PostOrder(n.inside), span);
      }
      AtSplits(forest, span);
      OneAt(n.block, span);
      Swap(At([n.block], span), At(PostOrder(n.inside), span));
    }
  }

  lemma Swap<T>(a: seq<T>, b: seq<T>)
    requires a == [] || b == []
    ensures a + b == b + a
  {}

  /** Where one side of each sum is empty, equal sums have equal parts. */
  lemma Cancel<T>(a: seq<T>, b: seq<T>, c: seq<T>, d: seq<T>)
    requires a + b == c + d && ((a == [] && c == []) || (b == [] && d == []))
    ensures a == c && b == d
  {
    assert a == [] ==> a + b == b;
    assert c == [] ==> c + d == d;
    assert b == [] ==> a + b == a;
    assert d == [] ==> c + d == c;
  }

  lemma OneAt(b: SourceBlock, span: Span)
    ensures At([b], span) == if b.span == span then [b] else []
  {
    assert [b][1..] == [];
  }

  lemma {:induction false} NothingAt(blocks: seq<SourceBlock>, span: Span)
    requires forall b :: b in blocks ==> b.span != span
    ensures At(blocks, span) == []
  {
    if blocks != [] {
      NothingAt(blocks[1..], span);
    }
  }

  lemma {:induction false} AgreeingSpansDiffer(forest: seq<Nest>, low: nat, high: nat, rank: nat)
    requires Nested(forest, low, high) && RanksBelow(forest, rank)
    requires SameAt(PreOrder(forest), PostOrder(forest))
    ensures SpansDiffer(forest)
  {
    if forest != [] {
      var n := forest[0];
      forall at ensures At(PreOrder(forest[1..]), at) == At(PostOrder(forest[1..]), at)
                && At(PreOrder(n.inside), at) == At(PostOrder(n.inside), at)
                && (at == n.block.span ==> At(PostOrder(n.inside), at) == [])
      {
        assert At(PreOrder(forest), at) == At(PostOrder(forest), at);
        HeadAndRestAgree(forest, low, high, at);
        ContainerFirst(n, at);
      }
      AtMember(PostOrder(n.inside), n.block.span);
      AgreeingSpansDiffer(n.inside, n.block.span.start, n.block.span.end, Rank(n.block.kind));
      AgreeingSpansDiffer(forest[1..], n.block.span.end, high, rank);
    }
  }

  /** Blocks of the first tree and of the rest never share a span, so agreement splits between them. */
  lemma HeadAndRestAgree(forest: seq<Nest>, low: nat, high: nat, at: Span)
    requires forest != [] && Nested(forest, low, high)
    requires At(PreOrder(forest), at) == At(PostOrder(forest), at)
    ensures At(PreOrder(forest[1..]), at) == At(PostOrder(forest[1..]), at)
    ensures var n := forest[0];
            At([n.block], at) + At(PreOrder(n.inside), at) == At(PostOrder(n.inside), at) + At([n.block], at)
  {
    var n := forest[0];
    AtSplits(forest, at);
    OneAt(n.block, at);
    if at.start >= n.block.span.end {
      NestedWithin(n.inside, n.block.span.start, n.block.span.end);
      NothingAt(PreOrder(n.inside), at);
      NothingAt(PostOrder(n.inside), at);
    } else {
      NestedWithin(forest[1..], n.block.span.end, high);
      NothingAt(PreOrder(forest[1..]), at);
      NothingAt(PostOrder(forest[1..]), at);
    }
    Cancel(At([n.block], at) + At(PreOrder(n.inside), at), At(PreOrder(forest[1..]), at),
           At(PostOrder(n.inside), at) + At([n.block], at), At(PostOrder(forest[1..]), at));
  }

  /** A container that shares its span with a block inside is emitted last there, and belongs first. */
  lemma ContainerFirst(n: Nest, at: Span)
    requires RanksBelow(n.inside, Rank(n.block.kind))
    requires At([n.block], at) + At(PreOrder(n.inside), at) == At(PostOrder(n.inside), at) + At([n.block], at)
    ensures At(PreOrder(n.inside), at) == At(PostOrder(n.inside), at)
    ensures at == n.block.span ==> At(PostOrder(n.inside), at) == []
  {
    OneAt(n.block, at);
    var before, held := At(PreOrder(n.inside), at), At(PostOrder(n.inside), at);
    if at == n.block.span {
      AtMember(PostOrder(n.inside), at);
      RanksBelowAll(n.inside, Rank(n.block.kind));
      assert n.block !in held;
      assert ([n.block] + before)[0] == n.block;
      assert held == [] && |[n.block] + before| == 1;
    } else {
      assert [] + before == before && held + [] == held;
    }
  }

  /**
   For blocks whose spans nest, sorting what the fold emits gives document order, every
   container before what it holds, exactly when no block has the span of a block it holds.
   */
  lemma SortedIsPreOrder(forest: seq<Nest>, low: nat, high: nat, rank: nat)
    requires Nested(forest, low, high) && RanksBelow(forest, rank)
    ensures SortBlocks(PostOrder(forest)) == PreOrder(forest) <==> SpansDiffer(forest)
  {
    SortIsStable(PostOrder(forest));
    if SpansDiffer(forest) {
      forall span ensures At(PreOrder(forest), span) == At(PostOrder(forest), span) {
        DifferentSpansAgree(forest, span);
      }
      PreOrderInOrder(forest, low, high);
      StableSortIsUnique(SortBlocks(PostOrder(forest)), PreOrder(forest));
    }
    if SortBlocks(PostOrder(forest)) == PreOrder(forest) {
      AgreeingSpansDiffer(forest, low, high, rank);
    }
  }

  // ----- references -----

  /** `{:0width$}`. */
  function ZeroPadded(n: nat, width: nat): string {
    var digits := Decimal(n);
    if |digits| >= width then digits else Zeros(width - |digits|) + digits
  }

  function Zeros(n: nat): (s: string)
    ensures |s| == n
  {
    if n == 0 then "" else "0" + Zeros(n - 1)
  }

  lemma {:induction false} ReadZeros(n: nat, rest: string)
    ensures ReadDigits(0, Zeros(n) + rest) == ReadDigits(0, rest)
  {
    if n == 0 {
      assert Zeros(n) + rest == rest;
    } else {
      assert (Zeros(n) + rest)[1..] == Zeros(n - 1) + rest;
      ReadZeros(n - 1, rest);
    }
  }

  lemma PaddedValue(n: nat, width: nat)
    ensures ReadDigits(0, ZeroPadded(n, width)) == n
  {
    var digits := Decimal(n);
    ReadDecimal(n, "");
    assert digits + "" == digits;
    if |digits| < width {
      ReadZeros(width - |digits|, digits);
    }
  }

  /** `prefix` and the position counted from one, padded to `width` digits. */
  function Reference(prefix: string, width: nat, index: nat): string {
    prefix + ZeroPadded(index + 1, width)
  }

  /** A reference is its prefix and the position counted from one, with at least `width` digits and no more than needed. */
  lemma ReferenceReads(prefix: string, width: nat, index: nat)
    ensures var id := Reference(prefix, width, index);
            && prefix <= id
            && ReadDigits(0, id[|prefix|..]) == index + 1
            && |id| == |prefix| + (if |Decimal(index + 1)| > width then |Decimal(index + 1)| else width)
  {
    PaddedValue(index + 1, width);
    assert Reference(prefix, width, index)[|prefix|..] == ZeroPadded(index + 1, width);
  }

  lemma ReferencesDiffer(prefix: string, width: nat, i: nat, j: nat)
    ensures Reference(prefix, width, i) == Reference(prefix, width, j) <==> i == j
  {
    PaddedValue(i + 1, width);
    PaddedValue(j + 1, width);
    assert Reference(prefix, width, i)[|prefix|..] == ZeroPadded(i + 1, width);
    assert Reference(prefix, width, j)[|prefix|..] == ZeroPadded(j + 1, width);
  }
}
