/**
  What may stand between the things of a text: blanks, commas and comments.
*/
module Gaps {
  import opened Common

  datatype GapItem =
    | Blank(c: char)
    | LineComment(body: string, eol: char)
    | BlockComment(body: string)

  type Gap = seq<GapItem>

  predicate IsBlank(c: char) {
    c == ' ' || c == '\t' || c == '\r' || c == '\n' || c == ','
  }

  // No "*/" inside.
  predicate NoClosing(body: string) {
    forall i :: 0 <= i < |body| - 1 && body[i] == '*' ==> body[i + 1] != '/'
  }

  predicate NoNewline(body: string) {
    forall i :: 0 <= i < |body| ==> body[i] != '\r' && body[i] != '\n'
  }

  predicate GoodItem(g: GapItem, blocks: bool) {
    match g
    case Blank(c) => IsBlank(c)
    case LineComment(body, eol) => (eol == '\r' || eol == '\n') && NoNewline(body)
    case BlockComment(body) => blocks && NoClosing(body)
  }

  predicate GoodGap(g: Gap, blocks: bool) {
    forall i :: 0 <= i < |g| ==> GoodItem(g[i], blocks)
  }

  function ItemText(g: GapItem): string {
    match g
    case Blank(c) => [c]
    case LineComment(body, eol) => "//" + body + [eol]
    case BlockComment(body) => "/*" + body + "*/"
  }

  function GapText(g: Gap): string {
    if g == [] then "" else GapText(g[..|g| - 1]) + ItemText(g[|g| - 1])
  }

  predicate HasBlock(g: Gap) {
    exists i :: 0 <= i < |g| && g[i].BlockComment?
  }

  // A byte that ends a whole number or a word.
  predicate Ends(c: char) {
    !Digit(c) && !Lower(c) && c != '.'
  }

  lemma {:induction false} GapBegins(g: Gap, blocks: bool)
    requires g != [] && GoodGap(g, blocks)
    ensures GapText(g) != "" && Ends(GapText(g)[0])
    decreases g
  {
    var front, last := g[..|g| - 1], g[|g| - 1];
    assert ItemText(last) != "" && Ends(ItemText(last)[0]);
    if front != [] {
      GapBegins(front, blocks);
    }
  }

  lemma GapMore(g: Gap, item: GapItem, blocks: bool)
    requires GoodGap(g, blocks) && GoodItem(item, blocks)
    ensures GoodGap(g + [item], blocks) && GapText(g + [item]) == GapText(g) + ItemText(item)
  {
    hide GoodItem, ItemText;
    assert (g + [item])[..|g|] == g;
  }

  lemma OneGap(item: GapItem, blocks: bool)
    requires GoodItem(item, blocks)
    ensures GoodGap([item], blocks) && GapText([item]) == ItemText(item)
    ensures GapText([]) == "" && GoodGap([], true) && GoodGap([], false)
  {
    GapMore([], item, blocks);
    assert [] + [item] == [item];
  }

  lemma EmptyGap()
    ensures GapText([]) == ""
  {
  }
}
