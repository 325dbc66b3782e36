/**
 Choosing some of the blocks, those a voice reads or the headings: sorting and choosing go
 together, and document order and emission order choose alike.
 */
module Selection {
  import opened Markdown
  import opened Numbering
  import opened Wrappers

  datatype Choice = Voiced | Headings {
    predicate Takes(kind: SourceBlockKind) {
      match this
      case Voiced => kind.IsSpoken()
      case Headings => kind.Heading?
    }
  }

  ghost predicate Increasing(positions: seq<nat>, bound: nat) {
    && (forall i :: 0 <= i < |positions| ==> positions[i] < bound)
    && (forall i, j :: 0 <= i < j < |positions| ==> positions[i] < positions[j])
  }

  /** The positions of the chosen blocks. */
  function Positions(blocks: seq<SourceBlock>, which: Choice): (r: seq<nat>) {
    if blocks == [] then []
    else
      var last := |blocks| - 1;
      Positions(blocks[..last], which) + if which.Takes(blocks[last].kind) then [last] else []
  }

  /** The chosen blocks, in order: `filter`. */
  function Chosen(blocks: seq<SourceBlock>, which: Choice): seq<SourceBlock> {
    if blocks == [] then []
    else (if which.Takes(blocks[0].kind) then [blocks[0]] else []) + Chosen(blocks[1..], which)
  }

  lemma {:induction false} ChosenSnoc(blocks: seq<SourceBlock>, b: SourceBlock, which: Choice)
    ensures Chosen(blocks + [b], which) == Chosen(blocks, which) + if which.Takes(b.kind) then [b] else []
  {
    if blocks == [] {
      assert [b][1..] == [] && blocks + [b] == [b];
    } else {
      TailOfAppend(blocks, [b]);
      ChosenSnoc(blocks[1..], b, which);
      Associate(if which.Takes(blocks[0].kind) then [blocks[0]] else [], Chosen(blocks[1..], which), if which.Takes(b.kind) then [b] else []);
    }
  }

  /** `chosen` are the blocks at `positions`, which are those of the chosen blocks, strictly increasing. */
  ghost predicate ChosenAt(blocks: seq<SourceBlock>, positions: seq<nat>, chosen: seq<SourceBlock>, which: Choice) {
    && Increasing(positions, |blocks|)
    && (forall i :: 0 <= i < |blocks| ==> (which.Takes(blocks[i].kind) <==> i in positions))
    && |chosen| == |positions|
    && (forall j :: 0 <= j < |positions| ==> chosen[j] == blocks[positions[j]])
  }

  lemma ChosenAtNext(blocks: seq<SourceBlock>, b: SourceBlock, positions: seq<nat>, chosen: seq<SourceBlock>, which: Choice)
    requires ChosenAt(blocks, positions, chosen, which)
    ensures which.Takes(b.kind) ==> ChosenAt(blocks + [b], positions + [|blocks|], chosen + [b], which)
    ensures !which.Takes(b.kind) ==> ChosenAt(blocks + [b], positions, chosen, which)
  {
    var all := blocks + [b];
    forall i | 0 <= i < |blocks| ensures all[i] == blocks[i] && (which.Takes(all[i].kind) <==> i in positions + [|blocks|]) {}
  }

  /** The chosen blocks are those at strictly increasing positions, and no others are chosen. */
  lemma {:induction false} ChosenInOrder(blocks: seq<SourceBlock>, which: Choice)
    ensures ChosenAt(blocks, Positions(blocks, which), Chosen(blocks, which), which)
  {
    if blocks != [] {
      var last := |blocks| - 1;
      var before, b := blocks[..last], blocks[last];
      ChosenInOrder(before, which);
      ChosenSnoc(before, b, which);
      var positions, chosen := Positions(before, which), Chosen(before, which);
      ChosenAtNext(before, b, positions, chosen, which);
      assert blocks == before + [b];
      if which.Takes(b.kind) {
        assert Positions(blocks, which) == positions + [last] && Chosen(blocks, which) == chosen + [b];
      } else {
        assert Positions(blocks, which) == positions && Chosen(blocks, which) == chosen;
      }
    }
  }

  lemma {:induction false} ChosenAppend(a: seq<SourceBlock>, b: seq<SourceBlock>, which: Choice)
    ensures Chosen(a + b, which) == Chosen(a, which) + Chosen(b, which)
  {
    if a == [] {
      assert a + b == b;
    } else {
      TailOfAppend(a, b);
      ChosenAppend(a[1..], b, which);
      Associate(if which.Takes(a[0].kind) then [a[0]] else [], Chosen(a[1..], which), Chosen(b, which));
    }
  }

  lemma {:induction false} NothingChosen(blocks: seq<SourceBlock>, which: Choice)
    requires forall b :: b in blocks ==> !which.Takes(b.kind)
    ensures Chosen(blocks, which) == []
  {
    if blocks != [] {
      NothingChosen(blocks[1..], which);
    }
  }

  /** Links and code are never chosen, so emission order and document order choose alike. */
  lemma {:induction false} OrdersChooseAlike(forest: seq<Nest>, which: Choice)
    requires RanksBelow(forest, 3)
    ensures Chosen(PreOrder(forest), which) == Chosen(PostOrder(forest), which)
  {
    if forest != [] {
      OrdersChooseAlike(forest[1..], which);
      RanksBelowAll(forest[0].inside, Rank(forest[0].block.kind));
      OrdersAgree(forest[0].inside);
      NothingChosen(PreOrder(forest[0].inside), which);
      NothingChosen(PostOrder(forest[0].inside), which);
      ChosenSplits(forest, which);
      Swap([], Chosen([forest[0].block], which));
    }
  }

  lemma ChosenSplits(forest: seq<Nest>, which: Choice)
    requires forest != []
    ensures var n, rest := forest[0], forest[1..];
            && Chosen(PreOrder(forest), which) == Chosen([n.block], which) + Chosen(PreOrder(n.inside), which) + Chosen(PreOrder(rest), which)
            && Chosen(PostOrder(forest), which) == Chosen(PostOrder(n.inside), which) + Chosen([n.block], which) + Chosen(PostOrder(rest), which)
  {
    var n, rest := forest[0], forest[1..];
    ChosenAppend([n.block], PreOrder(n.inside), which);
    ChosenAppend([n.block] + PreOrder(n.inside), PreOrder(rest), which);
    ChosenAppend(PostOrder(n.inside), [n.block], which);
    ChosenAppend(PostOrder(n.inside) + [n.block], PostOrder(rest), which);
  }

  lemma {:induction false} ChosenStayInOrder(blocks: seq<SourceBlock>, which: Choice)
    requires InOrder(blocks)
    ensures InOrder(Chosen(blocks, which))
  {
    ChosenInOrder(blocks, which);
  }

  lemma {:induction false} InsertChosen(b: SourceBlock, sorted: seq<SourceBlock>, which: Choice)
    requires InOrder(sorted)
    ensures Chosen(Insert(b, sorted), which) == if which.Takes(b.kind) then Insert(b, Chosen(sorted, which)) else Chosen(sorted, which)
  {
    if sorted == [] || !Before(sorted[0].span, b.span) {
      ChosenAppend([b], sorted, which);
      OneChosen(b, which);
      ChosenInOrder(sorted, which);
      var chosen := Chosen(sorted, which);
      assert chosen == [] || !Before(chosen[0].span, b.span);
    } else {
      var first, rest := sorted[0], sorted[1..];
      InsertChosen(b, rest, which);
      ChosenAppend([first], Insert(b, rest), which);
      ChosenAppend([first], rest, which);
      OneChosen(first, which);
      assert sorted == [first] + rest && Insert(b, sorted) == [first] + Insert(b, rest);
      InsertAfter(first, b, Chosen(rest, which));
      assert !which.Takes(first.kind) ==> [] + Chosen(rest, which) == Chosen(rest, which);
      assert !which.Takes(first.kind) ==> [] + Chosen(Insert(b, rest), which) == Chosen(Insert(b, rest), which);
    }
  }

  lemma InsertAfter(first: SourceBlock, b: SourceBlock, rest: seq<SourceBlock>)
    requires Before(first.span, b.span)
    ensures Insert(b, [first] + rest) == [first] + Insert(b, rest)
  {
    TailOfAppend([first], rest);
  }

  lemma OneChosen(b: SourceBlock, which: Choice)
    ensures Chosen([b], which) == if which.Takes(b.kind) then [b] else []
  {
    assert [b][1..] == [];
  }

  /** Sorting and choosing can be done in either order. */
  lemma {:induction false} SortChosen(blocks: seq<SourceBlock>, which: Choice)
    ensures Chosen(SortBlocks(blocks), which) == SortBlocks(Chosen(blocks, which))
  {
    if blocks != [] {
      SortChosen(blocks[1..], which);
      SortIsStable(blocks[1..]);
      InsertChosen(blocks[0], SortBlocks(blocks[1..]), which);
      ChosenTail(blocks, which);
    }
  }

  lemma ChosenTail(blocks: seq<SourceBlock>, which: Choice)
    requires blocks != []
    ensures which.Takes(blocks[0].kind) ==>
              (Chosen(blocks, which) != [] && Chosen(blocks, which)[0] == blocks[0] && Chosen(blocks, which)[1..] == Chosen(blocks[1..], which))
    ensures !which.Takes(blocks[0].kind) ==> Chosen(blocks, which) == Chosen(blocks[1..], which)
  {
    assert ([blocks[0]] + Chosen(blocks[1..], which))[1..] == Chosen(blocks[1..], which);
  }

  lemma SortedChoice(forest: seq<Nest>, length: nat, which: Choice)
    requires Nested(forest, 0, length) && RanksBelow(forest, 3)
    ensures Chosen(SortBlocks(PostOrder(forest)), which) == Chosen(PreOrder(forest), which)
  {
    var chosen := Chosen(PreOrder(forest), which);
    SortChosen(PostOrder(forest), which);
    OrdersChooseAlike(forest, which);
    PreOrderInOrder(forest, 0, length);
    ChosenStayInOrder(PreOrder(forest), which);
    SortIsStable(chosen);
    StableSortIsUnique(SortBlocks(chosen), chosen);
  }
}
