/**
  Paragraph selection: the body of an article, as the sequence of its
  top-level nodes, is reduced to the stripped, non-empty texts of its `p`
  elements. In intro mode the first `h2` heading ends the article and the
  sentinel "Article truncated." takes the place of the rest. The selected
  texts, joined with newlines, are what the entry's content becomes and
  what is rendered as morse code.

  Parsing the HTML is outside the model: the top-level nodes arrive as
  blocks carrying an element's tag name and its text.
 */
module Article {
  import opened Text

  /** A top-level node of the article body: an element with its tag name
      and its text, or a bare text node (which has no tag name). */
  datatype Block = Element(tag: string, text: string) | TextNode(text: string)

  const Sentinel := "Article truncated."

  predicate IsParagraph(b: Block) {
    b.Element? && b.tag == "p"
  }

  predicate IsHeading(b: Block) {
    b.Element? && b.tag == "h2"
  }

  lemma ParagraphIsNoHeading(b: Block)
    requires IsParagraph(b)
    ensures !IsHeading(b)
  {
    assert |b.tag| == 1;
  }

  /** What one block contributes when paragraphs are collected. */
  function Kept(b: Block): seq<string> {
    if IsParagraph(b) && Strip(b.text) != "" then [Strip(b.text)] else []
  }

  /** The stripped, non-empty texts of the `p` blocks, in order. */
  function Paragraphs(blocks: seq<Block>): seq<string> {
    if blocks == [] then [] else Kept(blocks[0]) + Paragraphs(blocks[1..])
  }

  /** No block is an `h2` heading. */
  predicate NoHeading(blocks: seq<Block>) {
    forall k :: 0 <= k < |blocks| ==> !IsHeading(blocks[k])
  }

  /** Index of the first `h2` block, if there is one. */
  function FirstHeading(blocks: seq<Block>): (r: Option<nat>)
    ensures r.None? <==> NoHeading(blocks)
    ensures r.Some? ==>
      (r.value < |blocks| && IsHeading(blocks[r.value]) && forall k :: 0 <= k < r.value ==> !IsHeading(blocks[k]))
  {
    if blocks == [] then None
    else if IsHeading(blocks[0]) then Some(0)
    else
      match FirstHeading(blocks[1..])
      case None => None
      case Some(i) => Some(i + 1)
  }

  /** The paragraphs the article is reduced to: everything before the
      first `h2` followed by the sentinel in intro mode, all paragraphs
      otherwise. */
  function Selected(blocks: seq<Block>, onlyIntro: bool): seq<string> {
    if onlyIntro && FirstHeading(blocks).Some? then
      Paragraphs(blocks[..FirstHeading(blocks).value]) + [Sentinel]
    else Paragraphs(blocks)
  }

  /** The article text: the selected paragraphs joined by newlines. */
  function ArticleText(blocks: seq<Block>, onlyIntro: bool): string {
    Join(Selected(blocks, onlyIntro), "\n")
  }

  /** The selection loop: walks the blocks in order, keeps paragraph
      texts, and in intro mode appends the sentinel and stops at the
      first `h2`. */
  lemma NoHeadingStep(blocks: seq<Block>, i: nat)
    requires i < |blocks| && NoHeading(blocks[..i]) && !IsHeading(blocks[i])
    ensures NoHeading(blocks[..i + 1])
  {
  }

  method SelectParagraphs(blocks: seq<Block>, onlyIntro: bool) returns (paras: seq<string>)
    ensures paras == Selected(blocks, onlyIntro)
  {
    paras := [];
    var i := 0;
    while i < |blocks|
      invariant 0 <= i <= |blocks|
      invariant paras == Paragraphs(blocks[..i])
      invariant onlyIntro ==> NoHeading(blocks[..i])
    {
      var section := blocks[i];
      ParagraphsStep(blocks, i);
      if IsParagraph(section) {
        var text := Strip(section.text);
        if text != "" {
          paras := paras + [text];
        }
        ParagraphIsNoHeading(section);
      } else if onlyIntro && IsHeading(section) {
        paras := paras + [Sentinel];
        SelectedAtHeading(blocks, i);
        return;
      }
      if onlyIntro {
        NoHeadingStep(blocks, i);
      }
      i := i + 1;
    }
    assert blocks[..i] == blocks;
    SelectedWithoutHeading(blocks, onlyIntro);
  }

  lemma SelectedAtHeading(blocks: seq<Block>, i: nat)
    requires i < |blocks| && IsHeading(blocks[i])
    requires NoHeading(blocks[..i])
    ensures Selected(blocks, true) == Paragraphs(blocks[..i]) + [Sentinel]
  {
    assert forall k :: 0 <= k < i ==> blocks[..i][k] == blocks[k];
    FirstHeadingUnique(blocks, i);
  }

  lemma SelectedWithoutHeading(blocks: seq<Block>, onlyIntro: bool)
    requires onlyIntro ==> NoHeading(blocks)
    ensures Selected(blocks, onlyIntro) == Paragraphs(blocks)
  {
  }

  // ---------------------------------------------------------------------
  // Properties

  /** Collecting paragraphs distributes over concatenation: the result
      keeps the blocks' order. */
  lemma {:induction false} ParagraphsConcat(a: seq<Block>, b: seq<Block>)
    ensures Paragraphs(a + b) == Paragraphs(a) + Paragraphs(b)
  {
    if a == [] {
      assert a + b == b;
    } else {
      assert (a + b)[0] == a[0] && (a + b)[1..] == a[1..] + b;
      ParagraphsConcat(a[1..], b);
    }
  }

  lemma ParagraphsStep(blocks: seq<Block>, i: nat)
    requires i < |blocks|
    ensures Paragraphs(blocks[..i + 1]) == Paragraphs(blocks[..i]) + Kept(blocks[i])
  {
    assert blocks[..i + 1] == blocks[..i] + [blocks[i]];
    ParagraphsSnoc(blocks[..i], blocks[i]);
  }

  lemma ParagraphsSnoc(a: seq<Block>, b: Block)
    ensures Paragraphs(a + [b]) == Paragraphs(a) + Kept(b)
  {
    ParagraphsConcat(a, [b]);
  }

  /** A paragraph text as it is kept: non-empty, without whitespace at
      either end, and therefore its own `strip()` (`CleanIsStripped`). */
  predicate Clean(t: string) {
    t != "" && !IsSpace(t[0]) && !IsSpace(t[|t| - 1])
  }

  lemma CleanIsStripped(t: string)
    requires Clean(t)
    ensures Strip(t) == t
  {
    StripUnspacedEnds(t);
  }

  lemma KeptClean(b: Block)
    ensures forall k :: 0 <= k < |Kept(b)| ==> Clean(Kept(b)[k])
  {
  }

  /** Every selected paragraph is non-empty and already stripped. */
  lemma {:induction false} ParagraphsClean(blocks: seq<Block>)
    ensures forall k :: 0 <= k < |Paragraphs(blocks)| ==> Clean(Paragraphs(blocks)[k])
  {
    if blocks != [] {
      ParagraphsClean(blocks[1..]);
      KeptClean(blocks[0]);
      var a, b := Kept(blocks[0]), Paragraphs(blocks[1..]);
      assert forall k :: 0 <= k < |a + b| ==> (a + b)[k] == if k < |a| then a[k] else b[k - |a|];
    }
  }

  /** Without intro mode, headings are skipped like any other block and no
      sentinel is added. */
  lemma WholeArticle(blocks: seq<Block>)
    ensures Selected(blocks, false) == Paragraphs(blocks)
  {
  }

  /** In intro mode, nothing after the first heading is selected. */
  lemma TruncatedIgnoresTail(a: seq<Block>, rest: seq<Block>)
    requires FirstHeading(a).Some?
    ensures Selected(a + rest, true) == Selected(a, true)
  {
    var i := FirstHeading(a).value;
    assert (a + rest)[i] == a[i];
    assert forall k :: 0 <= k < i ==> (a + rest)[k] == a[k];
    FirstHeadingUnique(a + rest, i);
    assert (a + rest)[..i] == a[..i];
  }

  /** The first heading is the earliest `h2`. */
  lemma FirstHeadingUnique(blocks: seq<Block>, i: nat)
    requires i < |blocks| && IsHeading(blocks[i])
    requires forall k :: 0 <= k < i ==> !IsHeading(blocks[k])
    ensures FirstHeading(blocks) == Some(i)
  {
  }

  /** A truncated article ends with the sentinel, which comes right after
      the paragraphs preceding the first heading. */
  lemma TruncatedEndsWithSentinel(blocks: seq<Block>)
    requires FirstHeading(blocks).Some?
    ensures var s := Selected(blocks, true);
      |s| > 0 && s[|s| - 1] == Sentinel && s[..|s| - 1] == Paragraphs(blocks[..FirstHeading(blocks).value])
  {
  }

  /** An article without a heading is selected whole in either mode. */
  lemma NoHeadingNoSentinel(blocks: seq<Block>)
    requires NoHeading(blocks)
    ensures Selected(blocks, true) == Paragraphs(blocks)
  {
  }

  lemma KeptText(t: string)
    requires t != [] && !IsSpace(t[0]) && !IsSpace(t[|t| - 1])
    ensures Kept(Element("p", t)) == [t]
  {
    StripUnspacedEnds(t);
  }

  /** `p1, p2, h2, p3` in intro mode selects `p1`, `p2` and the sentinel. */
  lemma TruncationSelected()
    ensures Selected([Element("p", "p1"), Element("p", "p2"), Element("h2", "h"), Element("p", "p3")], true)
      == ["p1", "p2", Sentinel]
  {
    var blocks := [Element("p", "p1"), Element("p", "p2"), Element("h2", "h"), Element("p", "p3")];
    FirstHeadingUnique(blocks, 2);
    KeptText("p1");
    KeptText("p2");
    assert blocks[..2] == [blocks[0]] + [blocks[1]];
    ParagraphsConcat([blocks[0]], [blocks[1]]);
    assert Paragraphs([blocks[1]]) == Kept(blocks[1]) + Paragraphs([]);
  }

  lemma JoinExample()
    ensures Join(["p1", "p2", Sentinel], "\n") == "p1" + "\n" + ("p2" + "\n" + Sentinel)
  {
    var parts := ["p1", "p2", Sentinel];
    assert parts[1..][1..] == [Sentinel];
    assert Join(parts[1..], "\n") == "p2" + "\n" + Sentinel;
  }

  /** `p1, p2, h2, p3` in intro mode gives `p1`, `p2` and the sentinel on
      three lines. */
  lemma TruncationExample()
    ensures ArticleText([Element("p", "p1"), Element("p", "p2"), Element("h2", "h"), Element("p", "p3")], true)
      == "p1" + "\n" + ("p2" + "\n" + Sentinel)
  {
    TruncationSelected();
    JoinExample();
  }
}
