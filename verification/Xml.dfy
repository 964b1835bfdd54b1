/** Document trees as the DOM gives them: elements with their attributes, text nodes, comments. */
module Xml {
  import opened TaskModel

  const W := "http://schemas.openxmlformats.org/wordprocessingml/2006/main"

  datatype Tag = Tag(ns: string, local: string)

  /** `w` is the w:author attribute; `fallback` is the first attribute whose local name is author.
      All other attributes of an element are in `attrs`. */
  datatype Author = Author(w: Option<string>, fallback: Option<string>)

  datatype Node =
    | Elem(tag: Tag, author: Author, attrs: seq<(string, string)>, children: seq<Node>)
    | Text(data: string)
    | Comment(data: string)

  /** What Python strips from a string. */
  predicate IsSpace(c: char) {
    var k := c as int;
    || 9 <= k <= 13 || 28 <= k <= 32 || k == 0x85 || k == 0xA0 || k == 0x1680
    || 0x2000 <= k <= 0x200A || k == 0x2028 || k == 0x2029 || k == 0x202F || k == 0x205F || k == 0x3000
  }

  lemma SpacesAndLetters(c: char)
    ensures c in " \t\n\r" ==> IsSpace(c)
    ensures 'a' <= c <= 'z' || 'A' <= c <= 'Z' || '0' <= c <= '9' || c in ".,-_" ==> !IsSpace(c)
    ensures c as int == 0xA0 || c as int == 0x3000 ==> IsSpace(c)
    ensures c as int == 0x200B || c as int == 0xFEFF ==> !IsSpace(c)
  {
  }

  /** Nodes that do not keep elements apart: comments and blank text. */
  predicate Blank(n: Node) {
    match n
    case Elem(_, _, _, _) => false
    case Text(data) => forall i :: 0 <= i < |data| ==> IsSpace(data[i])
    case Comment(_) => true
  }

  predicate IsElement(n: Node, local: string) {
    n.Elem? && n.tag.local == local
  }

  predicate BlankBetween(cs: seq<Node>, i: int, j: int) {
    forall k :: i < k < j && 0 <= k < |cs| ==> Blank(cs[k])
  }

  predicate IsW(n: Node, local: string) {
    n.Elem? && n.tag == Tag(W, local)
  }

  /** Which nodes are elements with this local name. */
  function Flags(cs: seq<Node>, local: string): seq<bool> {
    seq(|cs|, k requires 0 <= k < |cs| => IsElement(cs[k], local))
  }

  /** `places` lists the places of the true flags, in order. */
  ghost predicate IsPlaceList(flags: seq<bool>, places: seq<nat>) {
    && (forall p {:trigger places[p]} :: 0 <= p < |places| ==> places[p] < |flags| && flags[places[p]])
    && (forall p, q :: 0 <= p < q < |places| ==> places[p] < places[q])
    && (forall k {:trigger flags[k]} :: 0 <= k < |flags| && flags[k] ==> k in places)
  }

  /** The places of the child elements with one local name. */
  method FindElements(cs: seq<Node>, local: string) returns (places: seq<nat>)
    ensures IsPlaceList(Flags(cs, local), places)
  {
    places := [];
    for k := 0 to |cs|
      invariant IsPlaceList(Flags(cs, local)[..k], places)
    {
      if IsElement(cs[k], local) {
        places := places + [k];
      }
      assert Flags(cs, local)[k] == IsElement(cs[k], local);
    }
    assert Flags(cs, local)[..|cs|] == Flags(cs, local);
  }
}
