/**
 What a linearized table says: its sentences built up pair by pair and row by row, and a
 reader that recovers names and values from one.
 */
module Linearization {
  import opened Markdown
  import opened Outline
  import opened Text
  import opened Wrappers

  // ----- pair by pair -----

  lemma {:induction false} JoinSnocWith(pieces: seq<string>, piece: string, separator: string)
    requires pieces != []
    ensures JoinWith(pieces + [piece], separator) == JoinWith(pieces, separator) + separator + piece
  {
    TailOfAppend(pieces, [piece]);
    if |pieces| > 1 {
      JoinSnocWith(pieces[1..], piece, separator);
      var head, tail := pieces[0] + separator, JoinWith(pieces[1..], separator);
      assert head + (tail + separator + piece) == head + tail + separator + piece;
    }
  }

  function Pairs(header: seq<string>, cells: seq<string>): (pairs: seq<string>)
    ensures |pairs| == Paired(header, cells)
    ensures forall i :: 0 <= i < |pairs| ==> pairs[i] == header[i] + ": " + cells[i]
  {
    seq(Paired(header, cells), i requires 0 <= i < Paired(header, cells) => header[i] + ": " + cells[i])
  }

  lemma SentenceJoinsPairs(header: seq<string>, cells: seq<string>)
    ensures Sentence(header, cells) == JoinWith(Pairs(header, cells), ", ") + "."
  {
    assert Pairs(header, cells) == seq(Paired(header, cells), i requires 0 <= i < Paired(header, cells) => header[i] + ": " + cells[i]);
  }

  /** One column: its name, a colon, its value and a stop. */
  lemma SentenceOfOne(name: string, value: string)
    ensures Sentence([name], [value]) == name + ": " + value + "."
  {
    SentenceJoinsPairs([name], [value]);
    assert Pairs([name], [value]) == [name + ": " + value];
  }

  /** One more column: a comma, its name, a colon and its value, before the stop. */
  lemma SentenceGrows(header: seq<string>, cells: seq<string>, name: string, value: string)
    requires |header| == |cells| > 0
    ensures var said := Sentence(header, cells);
            && said != "" && said[|said| - 1] == '.'
            && Sentence(header + [name], cells + [value]) == said[..|said| - 1] + ", " + name + ": " + value + "."
  {
    SentenceJoinsPairs(header, cells);
    SentenceJoinsPairs(header + [name], cells + [value]);
    var pairs := Pairs(header, cells);
    assert Pairs(header + [name], cells + [value]) == pairs + [name + ": " + value];
    JoinSnocWith(pairs, name + ": " + value, ", ");
    var before := JoinWith(pairs, ", ");
    assert (before + ".")[..|before|] == before;
    assert before + ", " + (name + ": " + value) + "." == before + ", " + name + ": " + value + ".";
  }

  /** A cell without a name and a name without a cell say nothing. */
  lemma SentenceStops(header: seq<string>, cells: seq<string>)
    ensures var n := Paired(header, cells); Sentence(header, cells) == Sentence(header[..n], cells[..n])
    ensures Paired(header, cells) == 0 ==> Sentence(header, cells) == "."
  {
    var n := Paired(header, cells);
    SentenceJoinsPairs(header, cells);
    SentenceJoinsPairs(header[..n], cells[..n]);
    assert Pairs(header[..n], cells[..n]) == Pairs(header, cells);
  }

  // ----- row by row -----

  lemma {:induction false} SentencesSnoc(header: seq<string>, rows: seq<Row>, row: Row)
    ensures Sentences(header, rows + [row]) == Sentences(header, rows) + [Sentence(header, Texts(row.cells))]
  {
    var all := Sentences(header, rows + [row]);
    assert forall i :: 0 <= i < |rows| ==> all[i] == Sentences(header, rows)[i];
  }

  /** A table with one more row says what it said, a space, and that row. */
  lemma GridGrows(head: Row, rows: seq<Row>, row: Row)
    ensures GridText(head, []) == "" && GridText(head, [row]) == Sentence(Texts(head.cells), Texts(row.cells))
    ensures rows != [] ==> GridText(head, rows + [row]) == GridText(head, rows) + " " + Sentence(Texts(head.cells), Texts(row.cells))
  {
    var header := Texts(head.cells);
    SentencesSnoc(header, [], row);
    assert [] + [row] == [row];
    if rows != [] {
      SentencesSnoc(header, rows, row);
      JoinSnocWith(Sentences(header, rows), Sentence(header, Texts(row.cells)), " ");
    }
  }

  // ----- a reader -----

  /** The two characters stand next to each other. */
  predicate PairAt(text: string, i: int, first: char, second: char) {
    0 <= i < |text| - 1 && text[i] == first && text[i + 1] == second
  }

  ghost predicate Holds(text: string, first: char, second: char) {
    exists i :: PairAt(text, i, first, second)
  }

  /** Where the two characters first stand together, or the length. */
  function Find(text: string, first: char, second: char): (n: nat)
    ensures n <= |text| && (n < |text| ==> n + 2 <= |text|)
  {
    if |text| < 2 then |text|
    else if text[0] == first && text[1] == second then 0
    else Find(text[1..], first, second) + 1
  }

  lemma {:induction false} FindsFirst(before: string, first: char, second: char, after: string)
    requires first != second && !Holds(before, first, second)
    ensures Find(before + [first, second] + after, first, second) == |before|
  {
    var text := before + [first, second] + after;
    if before != "" {
      assert text[1..] == before[1..] + [first, second] + after;
      assert !PairAt(before, 0, first, second);
      forall i ensures !PairAt(before[1..], i, first, second) {
        assert !PairAt(before, i + 1, first, second);
      }
      FindsFirst(before[1..], first, second, after);
    }
  }

  lemma {:induction false} FindsNothing(text: string, first: char, second: char)
    requires !Holds(text, first, second)
    ensures Find(text, first, second) == |text|
  {
    if |text| >= 2 {
      assert !PairAt(text, 0, first, second);
      forall i ensures !PairAt(text[1..], i, first, second) {
        assert !PairAt(text, i + 1, first, second);
      }
      FindsNothing(text[1..], first, second);
    }
  }

  /** Reads names and values back: a name ends at a colon and space, a value at a comma and space or the last stop. */
  function ReadSentence(text: string): seq<(string, string)>
    decreases |text|
  {
    var colon := Find(text, ':', ' ');
    if colon == |text| then []
    else
      var rest := text[colon + 2..];
      var comma := Find(rest, ',', ' ');
      if comma == |rest| then [(text[..colon], if rest == "" then "" else rest[..|rest| - 1])]
      else [(text[..colon], rest[..comma])] + ReadSentence(rest[comma + 2..])
  }

  /** No name can be mistaken to end early, and no value. */
  ghost predicate Unambiguous(header: seq<string>, cells: seq<string>) {
    && (forall i :: 0 <= i < |header| ==> !Holds(header[i], ':', ' '))
    && (forall i :: 0 <= i < |cells| ==> !Holds(cells[i], ',', ' '))
  }

  /** The names and the values of a row can be read back from what is said, in order. */
  lemma {:induction false} SentenceIsReadBack(header: seq<string>, cells: seq<string>)
    requires |header| == |cells| > 0 && Unambiguous(header, cells)
    ensures |ReadSentence(Sentence(header, cells))| == |header|
    ensures forall i :: 0 <= i < |header| ==> ReadSentence(Sentence(header, cells))[i] == (header[i], cells[i])
  {
    if |header| == 1 {
      SentenceOfOne(header[0], cells[0]);
      assert header == [header[0]] && cells == [cells[0]];
      LastIsRead(header[0], cells[0]);
    } else {
      SentenceSplits(header, cells);
      TailUnambiguous(header, cells);
      SentenceIsReadBack(header[1..], cells[1..]);
      FirstIsRead(header[0], cells[0], Sentence(header[1..], cells[1..]));
      var more := ReadSentence(Sentence(header[1..], cells[1..]));
      assert forall i :: 1 <= i < |header| ==> ([(header[0], cells[0])] + more)[i] == more[i - 1];
    }
  }

  lemma TailUnambiguous(header: seq<string>, cells: seq<string>)
    requires |header| == |cells| > 0 && Unambiguous(header, cells)
    ensures Unambiguous(header[1..], cells[1..])
  {
    assert forall i :: 0 <= i < |header| - 1 ==> header[1..][i] == header[i + 1] && cells[1..][i] == cells[i + 1];
  }

  lemma LastIsRead(name: string, value: string)
    requires !Holds(name, ':', ' ') && !Holds(value, ',', ' ')
    ensures ReadSentence(name + ": " + value + ".") == [(name, value)]
  {
    var rest := value + ".";
    assert name + ": " + value + "." == name + ": " + rest;
    NamesAreRead(name + ": " + rest, name, rest);
    forall i ensures !PairAt(rest, i, ',', ' ') {
      assert !PairAt(value, i, ',', ' ');
    }
    FindsNothing(rest, ',', ' ');
    assert rest[..|rest| - 1] == value;
  }

  lemma FirstIsRead(name: string, value: string, more: string)
    requires !Holds(name, ':', ' ') && !Holds(value, ',', ' ')
    ensures ReadSentence(name + ": " + (value + ", " + more)) == [(name, value)] + ReadSentence(more)
  {
    var rest := value + ", " + more;
    NamesAreRead(name + ": " + rest, name, rest);
    FindsFirst(value, ',', ' ', more);
    assert rest[..|value|] == value && rest[|value| + 2..] == more;
  }

  lemma NamesAreRead(text: string, name: string, rest: string)
    requires !Holds(name, ':', ' ') && text == name + ": " + rest
    ensures Find(text, ':', ' ') == |name| && text[..|name|] == name && text[|name| + 2..] == rest
  {
    FindsFirst(name, ':', ' ', rest);
  }

  lemma SentenceSplits(header: seq<string>, cells: seq<string>)
    requires |header| == |cells| > 1
    ensures Sentence(header, cells) == header[0] + ": " + (cells[0] + ", " + Sentence(header[1..], cells[1..]))
  {
    SentenceJoinsPairs(header, cells);
    SentenceJoinsPairs(header[1..], cells[1..]);
    assert Pairs(header, cells)[1..] == Pairs(header[1..], cells[1..]);
    var rest := JoinWith(Pairs(header[1..], cells[1..]), ", ");
    var name, value := header[0], cells[0];
    assert name + ": " + value + ", " + rest + "." == name + ": " + (value + ", " + (rest + "."));
  }
}
