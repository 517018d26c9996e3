/**
 * `build_context`: renders the retrieved `(passage, score)` pairs as numbered
 * blocks joined by a dashed delimiter. The `{score:.4f}` rendering is the
 * parameter `formatScore`.
 */
module Context {
  import opened Text
  import opened Retrieval

  const Delimiter := "\n\n---\n\n"

  /** `f"[PASSAGE {i} | score={score:.4f}]\n{passage}"` */
  function Block(number: nat, passage: string, scoreText: string): (b: string)
    ensures "[PASSAGE " <= b
    ensures |b| > |passage| && b[|b| - |passage| - 1] == '\n'
    ensures b[|b| - |passage|..] == passage
  {
    "[PASSAGE " + Decimal(number) + " | score=" + scoreText + "]\n" + passage
  }

  /** The `parts` list after the loop, numbering from 1 in input order. */
  function Blocks(retrieved: seq<Scored>, formatScore: real -> string): seq<string>
    decreases |retrieved|
  {
    if retrieved == [] then []
    else
      var last := retrieved[|retrieved| - 1];
      Blocks(retrieved[..|retrieved| - 1], formatScore) + [Block(|retrieved|, last.0, formatScore(last.1))]
  }

  /** The string `build_context` returns. */
  function ContextOf(retrieved: seq<Scored>, formatScore: real -> string): string {
    if retrieved == [] then "" else Join(Blocks(retrieved, formatScore), Delimiter)
  }

  /** `build_context(retrieved)` */
  method BuildContext(retrieved: seq<Scored>, formatScore: real -> string) returns (context: string)
    ensures context == ContextOf(retrieved, formatScore)
  {
    if retrieved == [] {
      return "";
    }
    var parts: seq<string> := [];
    var i := 0;
    while i < |retrieved|
      invariant 0 <= i <= |retrieved|
      invariant parts == Blocks(retrieved[..i], formatScore)
    {
      var (passage, score) := retrieved[i];
      assert retrieved[..i + 1][..i] == retrieved[..i];
      parts := parts + [Block(i + 1, passage, formatScore(score))];
      i := i + 1;
    }
    assert retrieved[..i] == retrieved;
    context := Join(parts, Delimiter);
  }

  /** Block k (from 0) renders result k with the number k + 1: input order, no re-sorting. */
  lemma {:induction false} BlocksAt(retrieved: seq<Scored>, formatScore: real -> string, k: nat)
    requires k < |retrieved|
    ensures |Blocks(retrieved, formatScore)| == |retrieved|
    ensures Blocks(retrieved, formatScore)[k] == Block(k + 1, retrieved[k].0, formatScore(retrieved[k].1))
    decreases |retrieved|
  {
    if k < |retrieved| - 1 {
      BlocksAt(retrieved[..|retrieved| - 1], formatScore, k);
    } else if |retrieved| > 1 {
      BlocksAt(retrieved[..|retrieved| - 1], formatScore, 0);
    } else {
      assert retrieved[..0] == [];
    }
  }

  /** The context is empty exactly when nothing was retrieved. */
  lemma ContextEmptyIff(retrieved: seq<Scored>, formatScore: real -> string)
    ensures ContextOf(retrieved, formatScore) == "" <==> retrieved == []
  {
    if retrieved != [] {
      BlocksAt(retrieved, formatScore, 0);
      var blocks := Blocks(retrieved, formatScore);
      assert blocks[0][0] == '[';
      if |blocks| > 1 {
        assert Join(blocks, Delimiter)[0] == '[';
      }
    }
  }

  /** A non-empty context opens with the block of the first result, numbered 1. */
  lemma ContextStartsWithFirstBlock(retrieved: seq<Scored>, formatScore: real -> string)
    requires retrieved != []
    ensures Block(1, retrieved[0].0, formatScore(retrieved[0].1)) <= ContextOf(retrieved, formatScore)
    ensures ContextOf(retrieved, formatScore)[0] == '['
  {
    BlocksAt(retrieved, formatScore, 0);
    var blocks := Blocks(retrieved, formatScore);
    var first := Block(1, retrieved[0].0, formatScore(retrieved[0].1));
    if |blocks| > 1 {
      assert Join(blocks, Delimiter) == first + (Delimiter + Join(blocks[1..], Delimiter));
    }
    assert first[0] == '[';
  }

  /** A single result becomes the single block numbered 1, with no delimiter. */
  lemma ContextOfOne(r: Scored, formatScore: real -> string)
    ensures ContextOf([r], formatScore) == Block(1, r.0, formatScore(r.1))
  {
    assert [r][..0] == [];
    assert Blocks([r], formatScore) == [Block(1, r.0, formatScore(r.1))];
  }

  /** One more result adds one delimiter followed by the next-numbered block. */
  lemma ContextOfSnoc(retrieved: seq<Scored>, r: Scored, formatScore: real -> string)
    requires retrieved != []
    ensures ContextOf(retrieved + [r], formatScore) ==
      ContextOf(retrieved, formatScore) + Delimiter + Block(|retrieved| + 1, r.0, formatScore(r.1))
  {
    assert (retrieved + [r])[..|retrieved|] == retrieved;
    JoinSnoc(Blocks(retrieved, formatScore), Block(|retrieved| + 1, r.0, formatScore(r.1)), Delimiter);
  }

  /** n results give n blocks and exactly n - 1 delimiters. */
  lemma ContextLength(retrieved: seq<Scored>, formatScore: real -> string)
    requires retrieved != []
    ensures |Blocks(retrieved, formatScore)| == |retrieved|
    ensures |ContextOf(retrieved, formatScore)| ==
      TotalLength(Blocks(retrieved, formatScore)) + (|retrieved| - 1) * |Delimiter|
  {
    BlocksAt(retrieved, formatScore, 0);
    JoinLength(Blocks(retrieved, formatScore), Delimiter);
  }
}
