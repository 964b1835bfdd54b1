/** Merging adjacent tracked changes (w:ins, w:del; ISO/IEC 29500-1, section 17.13.5), and the meaning
    it must keep: the text that is left when one author's changes are taken back. */
module Redlines {
  import opened TaskModel
  import opened Xml

  // ---------- The merge ----------

  function GetAuthor(n: Node): string
    requires n.Elem?
  {
    if n.author.w.Some? && n.author.w.value != "" then n.author.w.value
    else if n.author.fallback.Some? then n.author.fallback.value
    else ""
  }

  /** Whose change an element is, told from its attributes: the w:author counts if it is there and not
      empty, otherwise the first attribute of that name in any namespace. */
  lemma AuthorFromAttributes(n: Node)
    requires n.Elem?
    ensures n.author.w.Some? && n.author.w.value != "" ==> GetAuthor(n) == n.author.w.value
    ensures (n.author.w.None? || n.author.w.value == "") && n.author.fallback.Some? ==> GetAuthor(n) == n.author.fallback.value
    ensures (n.author.w.None? || n.author.w.value == "") && n.author.fallback.None? ==> GetAuthor(n) == ""
  {
  }

  /** Two tracked changes the loop would merge. */
  predicate Mergeable(cs: seq<Node>, local: string, i: int, j: int) {
    && 0 <= i < j < |cs| && IsElement(cs[i], local) && IsElement(cs[j], local)
    && GetAuthor(cs[i]) == GetAuthor(cs[j]) && BlankBetween(cs, i, j)
  }

  ghost predicate Merged(cs: seq<Node>, local: string) {
    forall i, j :: !Mergeable(cs, local, i, j)
  }

  function Append(target: Node, source: Node): Node
    requires target.Elem? && source.Elem?
  {
    target.(children := target.children + source.children)
  }

  /** The child list after element `j` went into element `i`. */
  function MergeAt(cs: seq<Node>, i: int, j: int): seq<Node>
    requires 0 <= i < j < |cs| && cs[i].Elem? && cs[j].Elem?
  {
    cs[..i] + [Append(cs[i], cs[j])] + cs[i + 1..j] + cs[j + 1..]
  }

  // ---------- The meaning ----------

  /** The text of a w:t element: what comes before its first child element. */
  function Leading(cs: seq<Node>): string {
    if cs == [] || cs[0].Elem? then ""
    else (if cs[0].Text? then cs[0].data else "") + Leading(cs[1..])
  }

  lemma {:induction false} LeadingStops(before: seq<Node>, e: Node, after: seq<Node>)
    requires e.Elem? && forall k :: 0 <= k < |before| ==> before[k].Text?
    ensures Leading(before + [e] + after) == Leading(before)
    ensures before != [] ==> Leading(before) == before[0].data + Leading(before[1..])
  {
    if before != [] {
      LeadingStops(before[1..], e, after);
      assert (before + [e] + after)[1..] == before[1..] + [e] + after;
    }
  }

  /** Whose changes, taken back, take this element back. */
  function Remover(n: Node): Option<string>
    requires n.Elem?
  {
    if n.tag.ns == W then n.author.w else None
  }

  predicate InsBy(n: Node, a: string) {
    IsW(n, "ins") && n.author.w == Some(a)
  }

  predicate DelBy(n: Node, a: string) {
    IsW(n, "del") && n.author.w == Some(a)
  }

  predicate ShowsText(n: Node, inDel: bool) {
    IsW(n, "t") || (inDel && IsW(n, "delText"))
  }

  /** The text of some nodes once the changes of `a` are taken back; `inDel` says that they stand
      inside a deletion by `a`. */
  function TextWithout(cs: seq<Node>, a: string, inDel: bool): string {
    if cs == [] then "" else NodeText(cs[0], a, inDel) + TextWithout(cs[1..], a, inDel)
  }

  function NodeText(n: Node, a: string, inDel: bool): string {
    if !n.Elem? || InsBy(n, a) then ""
    else if DelBy(n, a) then TextWithout(n.children, a, true)
    else (if ShowsText(n, inDel) then Leading(n.children) else "") + TextWithout(n.children, a, inDel)
  }

  /** The texts of the paragraphs among some nodes, outermost first. */
  function ParagraphsWithout(cs: seq<Node>, a: string, inDel: bool): seq<string> {
    if cs == [] then [] else NodeParagraphs(cs[0], a, inDel) + ParagraphsWithout(cs[1..], a, inDel)
  }

  function NodeParagraphs(n: Node, a: string, inDel: bool): seq<string> {
    if !n.Elem? || InsBy(n, a) then []
    else if DelBy(n, a) then ParagraphsWithout(n.children, a, true)
    else
      (if IsW(n, "p") then [TextWithout(n.children, a, inDel)] else []) + ParagraphsWithout(n.children, a, inDel)
  }

  /** Two lists of nodes mean the same, whoever's changes are taken back. */
  ghost predicate SameMeaning(cs: seq<Node>, ds: seq<Node>) {
    forall a, inDel ::
      TextWithout(cs, a, inDel) == TextWithout(ds, a, inDel) &&
      ParagraphsWithout(cs, a, inDel) == ParagraphsWithout(ds, a, inDel)
  }

  lemma {:induction false} MeaningConcat(cs: seq<Node>, ds: seq<Node>, a: string, inDel: bool)
    ensures TextWithout(cs + ds, a, inDel) == TextWithout(cs, a, inDel) + TextWithout(ds, a, inDel)
    ensures ParagraphsWithout(cs + ds, a, inDel) == ParagraphsWithout(cs, a, inDel) + ParagraphsWithout(ds, a, inDel)
  {
    if cs == [] {
      assert cs + ds == ds;
    } else {
      assert (cs + ds)[1..] == cs[1..] + ds;
      MeaningConcat(cs[1..], ds, a, inDel);
    }
  }

  lemma {:induction false} BlankMeansNothing(cs: seq<Node>, a: string, inDel: bool)
    requires forall k :: 0 <= k < |cs| ==> Blank(cs[k])
    ensures TextWithout(cs, a, inDel) == "" && ParagraphsWithout(cs, a, inDel) == []
  {
    if cs != [] {
      BlankMeansNothing(cs[1..], a, inDel);
    }
  }

  predicate Tracked(n: Node) {
    IsElement(n, "ins") || IsElement(n, "del")
  }

  /** A tracked change shows nothing itself: its meaning is that of its content, or nothing. */
  lemma TrackedMeaning(n: Node, a: string, inDel: bool)
    requires Tracked(n)
    ensures InsBy(n, a) <==> n.tag.local == "ins" && Remover(n) == Some(a)
    ensures DelBy(n, a) <==> n.tag.local == "del" && Remover(n) == Some(a)
    ensures NodeText(n, a, inDel) == if InsBy(n, a) then "" else TextWithout(n.children, a, inDel || DelBy(n, a))
    ensures NodeParagraphs(n, a, inDel) == if InsBy(n, a) then [] else ParagraphsWithout(n.children, a, inDel || DelBy(n, a))
  {
  }

  /** Two tracked changes of one kind that the same author takes back can be joined. */
  lemma JoinKeepsMeaning(x: Node, y: Node, a: string, inDel: bool)
    requires Tracked(x) && Tracked(y) && x.tag.local == y.tag.local && Remover(x) == Remover(y)
    ensures NodeText(Append(x, y), a, inDel) == NodeText(x, a, inDel) + NodeText(y, a, inDel)
    ensures NodeParagraphs(Append(x, y), a, inDel) == NodeParagraphs(x, a, inDel) + NodeParagraphs(y, a, inDel)
  {
    MeaningConcat(x.children, y.children, a, inDel || DelBy(x, a));
    TrackedMeaning(x, a, inDel);
    TrackedMeaning(y, a, inDel);
    TrackedMeaning(Append(x, y), a, inDel);
    hide NodeText, NodeParagraphs, TextWithout, ParagraphsWithout;
  }

  /** And only those: otherwise some content changes its meaning when it is joined. */
  lemma JoinIsSoundIff(x: Node, y: Node)
    requires Tracked(x) && Tracked(y) && x.tag.local == y.tag.local
    ensures Remover(x) == Remover(y) <==>
            forall cs: seq<Node>, ds: seq<Node>, a: string, inDel: bool ::
              NodeText(Append(x.(children := cs), y.(children := ds)), a, inDel) ==
              NodeText(x.(children := cs), a, inDel) + NodeText(y.(children := ds), a, inDel)
  {
    if Remover(x) == Remover(y) {
      forall cs: seq<Node>, ds: seq<Node>, a: string, inDel: bool
        ensures NodeText(Append(x.(children := cs), y.(children := ds)), a, inDel) ==
                NodeText(x.(children := cs), a, inDel) + NodeText(y.(children := ds), a, inDel) {
        JoinKeepsMeaning(x.(children := cs), y.(children := ds), a, inDel);
      }
    } else {
      var leaf, a := JoinBreaks(x, y);
      var x', y' := x.(children := []), y.(children := [leaf]);
      assert NodeText(Append(x', y'), a, false) != NodeText(x', a, false) + NodeText(y', a, false);
    }
  }

  /** One leaf is enough: in the second element it stands under the wrong author once they are joined. */
  lemma JoinBreaks(x: Node, y: Node) returns (leaf: Node, a: string)
    requires Tracked(x) && Tracked(y) && x.tag.local == y.tag.local && Remover(x) != Remover(y)
    ensures var x', y' := x.(children := []), y.(children := [leaf]);
            |NodeText(Append(x', y'), a, false)| != |NodeText(x', a, false)| + |NodeText(y', a, false)|
  {
    var kind := if x.tag.local == "ins" then "t" else "delText";
    leaf := Elem(Tag(W, kind), Author(None, None), [], [Text("x")]);
    a := if Remover(x).Some? then Remover(x).value else Remover(y).value;
    LeafText(leaf, a, false);
    LeafText(leaf, a, true);
    var x', y' := x.(children := []), y.(children := [leaf]);
    assert [] + [leaf] == [leaf];
    assert Append(x', y').children == [leaf];
    TrackedMeaning(x', a, false);
    TrackedMeaning(y', a, false);
    TrackedMeaning(Append(x', y'), a, false);
    assert TextWithout([], a, false) == "";
    hide NodeText, TextWithout, ParagraphsWithout, Append;
  }

  lemma LeafText(leaf: Node, a: string, inDel: bool)
    requires leaf.Elem? && leaf.tag.ns == W && (leaf.tag.local == "t" || leaf.tag.local == "delText")
    requires leaf.children == [Text("x")]
    ensures TextWithout([leaf], a, inDel) == if leaf.tag.local == "t" || inDel then "x" else ""
  {
    assert leaf.children[1..] == [];
    assert Leading(leaf.children) == "x";
    assert TextWithout(leaf.children, a, inDel) == "";
    assert [leaf][1..] == [];
  }

  /** A document in which the loop merges what it should not: the first author is not in w:author. */
  lemma FallbackAuthorChangesMeaning()
    ensures var t := (x: string) => Elem(Tag(W, "t"), Author(None, None), [], [Text(x)]);
            var cs := [Elem(Tag(W, "ins"), Author(None, Some("A")), [], [t("x")]),
                       Elem(Tag(W, "ins"), Author(Some("A"), None), [], [t("x")])];
            Mergeable(cs, "ins", 0, 1) && TextWithout(cs, "A", false) == "x" && TextWithout(MergeAt(cs, 0, 1), "A", false) == "xx"
  {
    var t := Elem(Tag(W, "t"), Author(None, None), [], [Text("x")]);
    var i1 := Elem(Tag(W, "ins"), Author(None, Some("A")), [], [t]);
    var i2 := Elem(Tag(W, "ins"), Author(Some("A"), None), [], [t]);
    var cs := [i1, i2];
    LeafText(t, "A", false);
    assert cs == [i1] + [i2] && [i2] == [i2] + [];
    HeadMeaning(i1, [i2], "A", false);
    HeadMeaning(i2, [], "A", false);
    var m := Append(i1, i2);
    assert MergeAt(cs, 0, 1) == [m] + [];
    HeadMeaning(m, [], "A", false);
    assert m.children == [t] + [t];
    MeaningConcat([t], [t], "A", false);
  }

  /** One merge step keeps the meaning of the child list if the two elements have the same remover. */
  lemma MergeAtKeepsMeaning(cs: seq<Node>, local: string, i: int, j: int)
    requires Mergeable(cs, local, i, j) && (local == "ins" || local == "del") && Remover(cs[i]) == Remover(cs[j])
    ensures SameMeaning(MergeAt(cs, i, j), cs)
  {
    forall a, inDel
      ensures TextWithout(cs, a, inDel) == TextWithout(MergeAt(cs, i, j), a, inDel)
      ensures ParagraphsWithout(cs, a, inDel) == ParagraphsWithout(MergeAt(cs, i, j), a, inDel)
    {
      MergeAtKeepsMeaningFor(cs, local, i, j, a, inDel);
    }
  }

  lemma MergeAtKeepsMeaningFor(cs: seq<Node>, local: string, i: int, j: int, a: string, inDel: bool)
    requires Mergeable(cs, local, i, j) && (local == "ins" || local == "del") && Remover(cs[i]) == Remover(cs[j])
    ensures TextWithout(cs, a, inDel) == TextWithout(MergeAt(cs, i, j), a, inDel)
    ensures ParagraphsWithout(cs, a, inDel) == ParagraphsWithout(MergeAt(cs, i, j), a, inDel)
  {
    hide TextWithout, ParagraphsWithout, NodeText, NodeParagraphs;
    var before, mid, after, x, y := cs[..i], cs[i + 1..j], cs[j + 1..], cs[i], cs[j];
    assert cs == before + ([x] + (mid + ([y] + after)));
    assert MergeAt(cs, i, j) == before + ([Append(x, y)] + (mid + after));
    BlankMeansNothing(mid, a, inDel);
    JoinKeepsMeaning(x, y, a, inDel);
    hide Append, MergeAt, Mergeable, Remover;
    MeaningConcat(before, [x] + (mid + ([y] + after)), a, inDel);
    MeaningConcat(before, [Append(x, y)] + (mid + after), a, inDel);
    MeaningConcat(mid, [y] + after, a, inDel);
    MeaningConcat(mid, after, a, inDel);
    HeadMeaning(x, mid + ([y] + after), a, inDel);
    HeadMeaning(y, after, a, inDel);
    HeadMeaning(Append(x, y), mid + after, a, inDel);
    Regroup(TextWithout(before, a, inDel), NodeText(x, a, inDel), NodeText(y, a, inDel), TextWithout(after, a, inDel));
    Regroup(ParagraphsWithout(before, a, inDel), NodeParagraphs(x, a, inDel), NodeParagraphs(y, a, inDel), ParagraphsWithout(after, a, inDel));
  }

  lemma Regroup<T>(a: seq<T>, b: seq<T>, c: seq<T>, d: seq<T>)
    ensures a + (b + ([] + (c + d))) == a + ((b + c) + ([] + d))
  {
  }

  lemma HeadMeaning(x: Node, rest: seq<Node>, a: string, inDel: bool)
    ensures TextWithout([x] + rest, a, inDel) == NodeText(x, a, inDel) + TextWithout(rest, a, inDel)
    ensures ParagraphsWithout([x] + rest, a, inDel) == NodeParagraphs(x, a, inDel) + ParagraphsWithout(rest, a, inDel)
  {
    assert ([x] + rest)[1..] == rest;
  }

  // ---------- The content ----------

  /** A child list without the borders of the tracked changes of one kind. */
  datatype Piece = Inside(author: string, node: Node) | Beside(node: Node)

  function Wrap(author: string, cs: seq<Node>): seq<Piece> {
    seq(|cs|, i requires 0 <= i < |cs| => Inside(author, cs[i]))
  }

  function Pieces(n: Node, local: string): seq<Piece> {
    if IsElement(n, local) then Wrap(GetAuthor(n), n.children)
    else if Blank(n) then []
    else [Beside(n)]
  }

  function Flatten(cs: seq<Node>, local: string): seq<Piece> {
    if cs == [] then [] else Pieces(cs[0], local) + Flatten(cs[1..], local)
  }

  function Blanks(cs: seq<Node>): seq<Node> {
    if cs == [] then [] else (if Blank(cs[0]) then [cs[0]] else []) + Blanks(cs[1..])
  }

  function CountOf(cs: seq<Node>, local: string): nat {
    if cs == [] then 0 else (if IsElement(cs[0], local) then 1 else 0) + CountOf(cs[1..], local)
  }

  lemma {:induction false} FlattenConcat(cs: seq<Node>, ds: seq<Node>, local: string)
    ensures Flatten(cs + ds, local) == Flatten(cs, local) + Flatten(ds, local)
  {
    hide Pieces;
    if cs == [] {
      assert cs + ds == ds;
    } else {
      assert (cs + ds)[1..] == cs[1..] + ds;
      FlattenConcat(cs[1..], ds, local);
    }
  }

  lemma BlanksHead(n: Node, rest: seq<Node>)
    ensures Blanks([n] + rest) == (if Blank(n) then [n] else []) + Blanks(rest)
  {
    assert ([n] + rest)[1..] == rest;
    hide Blank;
  }

  lemma {:induction false} BlanksConcat(cs: seq<Node>, ds: seq<Node>)
    ensures Blanks(cs + ds) == Blanks(cs) + Blanks(ds)
  {
    hide Blank;
    if cs == [] {
      assert cs + ds == ds;
    } else {
      hide Blanks;
      assert cs == [cs[0]] + cs[1..] && cs + ds == [cs[0]] + (cs[1..] + ds);
      BlanksHead(cs[0], cs[1..]);
      BlanksHead(cs[0], cs[1..] + ds);
      BlanksConcat(cs[1..], ds);
    }
  }

  lemma {:induction false} CountConcat(cs: seq<Node>, ds: seq<Node>, local: string)
    ensures CountOf(cs + ds, local) == CountOf(cs, local) + CountOf(ds, local)
  {
    hide Blank, IsElement;
    if cs == [] {
      assert cs + ds == ds;
    } else {
      assert (cs + ds)[1..] == cs[1..] + ds;
      CountConcat(cs[1..], ds, local);
    }
  }

  lemma ContentConcat(cs: seq<Node>, ds: seq<Node>, local: string)
    ensures Flatten(cs + ds, local) == Flatten(cs, local) + Flatten(ds, local)
    ensures Blanks(cs + ds) == Blanks(cs) + Blanks(ds)
    ensures CountOf(cs + ds, local) == CountOf(cs, local) + CountOf(ds, local)
  {
    FlattenConcat(cs, ds, local);
    BlanksConcat(cs, ds);
    CountConcat(cs, ds, local);
  }

  lemma HeadContent(x: Node, rest: seq<Node>, local: string)
    ensures Flatten([x] + rest, local) == Pieces(x, local) + Flatten(rest, local)
    ensures Blanks([x] + rest) == (if Blank(x) then [x] else []) + Blanks(rest)
    ensures CountOf([x] + rest, local) == (if IsElement(x, local) then 1 else 0) + CountOf(rest, local)
  {
    assert ([x] + rest)[1..] == rest;
  }

  lemma {:induction false} BlankContent(cs: seq<Node>, local: string)
    requires forall k :: 0 <= k < |cs| ==> Blank(cs[k])
    ensures Flatten(cs, local) == [] && CountOf(cs, local) == 0
  {
    if cs != [] {
      BlankContent(cs[1..], local);
    }
  }

  lemma AppendPieces(x: Node, y: Node, local: string)
    requires IsElement(x, local) && IsElement(y, local) && GetAuthor(x) == GetAuthor(y)
    ensures Pieces(Append(x, y), local) == Pieces(x, local) + Pieces(y, local)
    ensures IsElement(Append(x, y), local) && !Blank(Append(x, y)) && !Blank(x) && !Blank(y)
  {
  }

  /** One merge step moves borders only. */
  lemma MergeAtKeepsContent(cs: seq<Node>, local: string, i: int, j: int)
    requires Mergeable(cs, local, i, j)
    ensures Flatten(MergeAt(cs, i, j), local) == Flatten(cs, local)
    ensures Blanks(MergeAt(cs, i, j)) == Blanks(cs)
    ensures CountOf(MergeAt(cs, i, j), local) == CountOf(cs, local) - 1
  {
    hide Flatten, Blanks, CountOf, Pieces;
    var before, mid, after, x, y := cs[..i], cs[i + 1..j], cs[j + 1..], cs[i], cs[j];
    assert cs == before + ([x] + (mid + ([y] + after)));
    assert MergeAt(cs, i, j) == before + ([Append(x, y)] + (mid + after));
    BlankContent(mid, local);
    AppendPieces(x, y, local);
    hide MergeAt, Mergeable, Append, IsElement, Blank;
    ContentConcat(before, [x] + (mid + ([y] + after)), local);
    ContentConcat(before, [Append(x, y)] + (mid + after), local);
    ContentConcat(mid, [y] + after, local);
    ContentConcat(mid, after, local);
    HeadContent(x, mid + ([y] + after), local);
    HeadContent(y, after, local);
    HeadContent(Append(x, y), mid + after, local);
    Regroup(Flatten(before, local), Pieces(x, local), Pieces(y, local), Flatten(after, local));
  }

  // ---------- What the loop makes of the meaning ----------

  /** The text of the content of a tracked change that the author `r` takes back. */
  function ContentText(local: string, r: Option<string>, cs: seq<Node>, a: string, inDel: bool): string {
    if local == "ins" then if r == Some(a) then "" else TextWithout(cs, a, inDel)
    else TextWithout(cs, a, inDel || r == Some(a))
  }

  lemma ContentOfNode(n: Node, a: string, inDel: bool)
    requires Tracked(n)
    ensures NodeText(n, a, inDel) == ContentText(n.tag.local, Remover(n), n.children, a, inDel)
  {
    TrackedMeaning(n, a, inDel);
  }

  /** The tracked changes that the loop has joined so far: their author, and who takes back their head. */
  datatype Group = Nobody | Group(author: string, remover: Option<string>)

  function Joined(g: Group, n: Node): (h: Group)
    requires n.Elem?
    ensures h.Group? && h.author == GetAuthor(n)
  {
    if g.Group? && g.author == GetAuthor(n) then g else Group(GetAuthor(n), Remover(n))
  }

  function NextGroup(g: Group, n: Node, local: string): Group {
    if IsElement(n, local) then Joined(g, n) else if Blank(n) then g else Nobody
  }

  function LastGroup(cs: seq<Node>, local: string, g: Group): Group {
    if cs == [] then g else LastGroup(cs[1..], local, NextGroup(g, cs[0], local))
  }

  /** The text of some nodes if each tracked change belongs to the author of the head of its group. */
  function HeadText(cs: seq<Node>, local: string, g: Group, a: string, inDel: bool): string {
    if cs == [] then ""
    else
      (if IsElement(cs[0], local) then ContentText(local, Joined(g, cs[0]).remover, cs[0].children, a, inDel)
       else NodeText(cs[0], a, inDel))
      + HeadText(cs[1..], local, NextGroup(g, cs[0], local), a, inDel)
  }

  lemma {:induction false} HeadTextConcat(cs: seq<Node>, ds: seq<Node>, local: string, g: Group, a: string, inDel: bool)
    ensures HeadText(cs + ds, local, g, a, inDel) == HeadText(cs, local, g, a, inDel) + HeadText(ds, local, LastGroup(cs, local, g), a, inDel)
    ensures LastGroup(cs + ds, local, g) == LastGroup(ds, local, LastGroup(cs, local, g))
  {
    hide ContentText, NodeText, Joined, NextGroup;
    if cs == [] {
      assert cs + ds == ds;
    } else {
      assert (cs + ds)[1..] == cs[1..] + ds;
      HeadTextConcat(cs[1..], ds, local, NextGroup(g, cs[0], local), a, inDel);
    }
  }

  lemma HeadTextHead(n: Node, rest: seq<Node>, local: string, g: Group, a: string, inDel: bool)
    requires IsElement(n, local)
    ensures HeadText([n] + rest, local, g, a, inDel) ==
              ContentText(local, Joined(g, n).remover, n.children, a, inDel) + HeadText(rest, local, Joined(g, n), a, inDel)
    ensures LastGroup([n] + rest, local, g) == LastGroup(rest, local, Joined(g, n))
  {
    assert ([n] + rest)[1..] == rest;
  }

  lemma {:induction false} BlankHeadText(cs: seq<Node>, local: string, g: Group, a: string, inDel: bool)
    requires forall k :: 0 <= k < |cs| ==> Blank(cs[k])
    ensures HeadText(cs, local, g, a, inDel) == "" && LastGroup(cs, local, g) == g
  {
    if cs != [] {
      BlankHeadText(cs[1..], local, g, a, inDel);
    }
  }

  lemma ContentTextConcat(local: string, r: Option<string>, cs: seq<Node>, ds: seq<Node>, a: string, inDel: bool)
    ensures ContentText(local, r, cs + ds, a, inDel) == ContentText(local, r, cs, a, inDel) + ContentText(local, r, ds, a, inDel)
  {
    MeaningConcat(cs, ds, a, inDel);
    MeaningConcat(cs, ds, a, inDel || r == Some(a));
    hide TextWithout;
  }

  lemma AppendJoins(g: Group, x: Node, y: Node)
    requires x.Elem? && y.Elem? && GetAuthor(x) == GetAuthor(y)
    ensures Joined(g, Append(x, y)) == Joined(g, x) && Joined(Joined(g, x), y) == Joined(g, x)
    ensures forall local :: IsElement(Append(x, y), local) == IsElement(x, local)
  {
  }

  /** A merge step leaves the text by heads as it is. */
  lemma MergeAtKeepsHeadText(cs: seq<Node>, local: string, i: int, j: int, a: string, inDel: bool)
    requires Mergeable(cs, local, i, j)
    ensures HeadText(MergeAt(cs, i, j), local, Nobody, a, inDel) == HeadText(cs, local, Nobody, a, inDel)
  {
    hide HeadText, LastGroup, ContentText, Joined;
    var before, mid, after, x, y := cs[..i], cs[i + 1..j], cs[j + 1..], cs[i], cs[j];
    var m := Append(x, y);
    var g := LastGroup(before, local, Nobody);
    var h := Joined(g, x);
    assert cs == before + ([x] + (mid + ([y] + after)));
    assert MergeAt(cs, i, j) == before + ([m] + (mid + after));
    AppendJoins(g, x, y);
    BlankHeadText(mid, local, h, a, inDel);
    ContentTextConcat(local, h.remover, x.children, y.children, a, inDel);
    assert m.children == x.children + y.children;
    hide MergeAt, Mergeable, Append, IsElement, Blank;
    HeadTextConcat(before, [x] + (mid + ([y] + after)), local, Nobody, a, inDel);
    HeadTextConcat(before, [m] + (mid + after), local, Nobody, a, inDel);
    HeadTextHead(x, mid + ([y] + after), local, g, a, inDel);
    HeadTextHead(m, mid + after, local, g, a, inDel);
    HeadTextConcat(mid, [y] + after, local, h, a, inDel);
    HeadTextConcat(mid, after, local, h, a, inDel);
    HeadTextHead(y, after, local, h, a, inDel);
  }

  /** The next tracked change that would join the group is taken back by the same author. */
  ghost predicate Right(g: Group, cs: seq<Node>, local: string) {
    forall k :: 0 <= k < |cs| && IsElement(cs[k], local) && BlankBetween(cs, -1, k) && g.Group? && g.author == GetAuthor(cs[k]) ==>
      Remover(cs[k]) == g.remover
  }

  lemma RightStep(g: Group, cs: seq<Node>, local: string)
    requires cs != [] && Right(g, cs, local) && Sound(cs, local)
    ensures Right(NextGroup(g, cs[0], local), cs[1..], local) && Sound(cs[1..], local)
    ensures IsElement(cs[0], local) ==> Joined(g, cs[0]).remover == Remover(cs[0])
  {
    var h, ds := NextGroup(g, cs[0], local), cs[1..];
    assert BlankBetween(cs, -1, 0);
    hide GetAuthor, Remover, Blank;
    forall k | 0 <= k < |ds| && IsElement(ds[k], local) && BlankBetween(ds, -1, k) && h.Group? && h.author == GetAuthor(ds[k])
      ensures Remover(ds[k]) == h.remover
    {
      assert forall m :: 0 < m < k + 1 ==> cs[m] == ds[m - 1];
      assert cs[k + 1] == ds[k];
      if IsElement(cs[0], local) {
        assert Mergeable(cs, local, 0, k + 1);
      } else {
        assert BlankBetween(cs, -1, k + 1);
      }
    }
    forall i, j | Mergeable(ds, local, i, j) ensures Remover(ds[i]) == Remover(ds[j]) {
      assert forall m :: i + 1 < m < j + 1 ==> cs[m] == ds[m - 1];
      assert Mergeable(cs, local, i + 1, j + 1);
    }
  }

  /** Where all members of each group have the remover of its head, nothing differs. */
  lemma {:induction false} SoundHeadText(cs: seq<Node>, local: string, g: Group, a: string, inDel: bool)
    requires (local == "ins" || local == "del") && Sound(cs, local) && Right(g, cs, local)
    ensures HeadText(cs, local, g, a, inDel) == TextWithout(cs, a, inDel)
  {
    if cs != [] {
      RightStep(g, cs, local);
      SoundHeadText(cs[1..], local, NextGroup(g, cs[0], local), a, inDel);
      if IsElement(cs[0], local) {
        ContentOfNode(cs[0], a, inDel);
      }
      hide ContentText, NodeText, Sound, Right, NextGroup;
    }
  }

  lemma MergedHeadText(cs: seq<Node>, local: string, a: string, inDel: bool)
    requires (local == "ins" || local == "del") && Merged(cs, local)
    ensures HeadText(cs, local, Nobody, a, inDel) == TextWithout(cs, a, inDel)
  {
    SoundHeadText(cs, local, Nobody, a, inDel);
  }

  // ---------- The loop ----------

  /** The sibling scan of _can_merge_tracked. */
  method CanMergeTracked(cs: seq<Node>, local: string, i: nat, j: nat) returns (r: bool)
    requires i < j < |cs| && IsElement(cs[i], local) && IsElement(cs[j], local)
    ensures r == Mergeable(cs, local, i, j)
  {
    if GetAuthor(cs[i]) != GetAuthor(cs[j]) {
      return false;
    }
    var k := i + 1;
    while k != j
      invariant i < k <= j && forall m :: i < m < k ==> Blank(cs[m])
      decreases j - k
    {
      if !Blank(cs[k]) {
        return false;
      }
      k := k + 1;
    }
    return true;
  }

  /** `tracked` lists the places of the tracked elements, in order. */
  ghost predicate IsTrackedList(cs: seq<Node>, local: string, tracked: seq<nat>) {
    IsPlaceList(Flags(cs, local), tracked)
  }

  /** `tracked` once its element p + 1 is gone: the later places move up by one. */
  function Pop(tracked: seq<nat>, p: nat): seq<nat>
    requires p + 1 < |tracked| && forall q :: p + 1 < q < |tracked| ==> tracked[q] > 0
  {
    tracked[..p + 1] + seq(|tracked| - p - 2, q requires 0 <= q < |tracked| - p - 2 => (tracked[p + 2 + q] - 1) as nat)
  }

  lemma PopIsPlaceList(flags: seq<bool>, places: seq<nat>, p: nat)
    requires IsPlaceList(flags, places) && p + 1 < |places|
    ensures forall q :: p + 1 < q < |places| ==> places[q] > 0
    ensures IsPlaceList(flags[..places[p + 1]] + flags[places[p + 1] + 1..], Pop(places, p))
  {
    var j := places[p + 1];
    var fs, t := flags[..j] + flags[j + 1..], Pop(places, p);
    forall q {:trigger t[q]} | 0 <= q < |t| ensures t[q] < |fs| && fs[t[q]] {
      assert t[q] == if q > p then places[q + 1] - 1 else places[q];
    }
    PopCovers(flags, places, p);
  }

  /** No flag is forgotten. */
  lemma PopCovers(flags: seq<bool>, places: seq<nat>, p: nat)
    requires IsPlaceList(flags, places) && p + 1 < |places|
    ensures forall q :: p + 1 < q < |places| ==> places[q] > 0
    ensures var fs := flags[..places[p + 1]] + flags[places[p + 1] + 1..];
            forall k {:trigger fs[k]} :: 0 <= k < |fs| && fs[k] ==> k in Pop(places, p)
  {
    var j := places[p + 1];
    var fs := flags[..j] + flags[j + 1..];
    forall k {:trigger fs[k]} | 0 <= k < |fs| && fs[k] ensures k in Pop(places, p) {
      assert flags[if k < j then k else k + 1];
      PlaceAfterPop(places, p, if k < j then k else k + 1);
    }
  }

  lemma MergeAtFlags(cs: seq<Node>, local: string, i: int, j: int)
    requires 0 <= i < j < |cs| && cs[i].Elem? && cs[j].Elem?
    ensures Flags(MergeAt(cs, i, j), local) == Flags(cs, local)[..j] + Flags(cs, local)[j + 1..]
  {
    MergeAtPlaces(cs, i, j);
    hide MergeAt;
  }

  lemma PopTracks(cs: seq<Node>, local: string, tracked: seq<nat>, p: nat)
    requires IsTrackedList(cs, local, tracked) && p + 1 < |tracked|
    ensures tracked[p] < tracked[p + 1] < |cs| && IsElement(cs[tracked[p]], local) && IsElement(cs[tracked[p + 1]], local)
    ensures forall q :: p + 1 < q < |tracked| ==> tracked[q] > 0
    ensures IsTrackedList(MergeAt(cs, tracked[p], tracked[p + 1]), local, Pop(tracked, p))
  {
    assert Flags(cs, local)[tracked[p]] && Flags(cs, local)[tracked[p + 1]];
    MergeAtFlags(cs, local, tracked[p], tracked[p + 1]);
    PopIsPlaceList(Flags(cs, local), tracked, p);
  }

  /** The nodes after a merge, by place. */
  lemma MergeAtPlaces(cs: seq<Node>, i: int, j: int)
    requires 0 <= i < j < |cs| && cs[i].Elem? && cs[j].Elem?
    ensures var ds := MergeAt(cs, i, j);
            && |ds| == |cs| - 1
            && ds[i] == Append(cs[i], cs[j]) && ds[i].tag == cs[i].tag && ds[i].author == cs[i].author
            && forall k {:trigger ds[k]} :: 0 <= k < |ds| && k != i ==> ds[k] == if k < j then cs[k] else cs[k + 1]
  {
  }

  lemma PlaceAfterPop(tracked: seq<nat>, p: nat, k: nat)
    requires p + 1 < |tracked| && k in tracked && k != tracked[p + 1]
    requires forall q, r :: 0 <= q < r < |tracked| ==> tracked[q] < tracked[r]
    ensures (if k < tracked[p + 1] then k else k - 1) in Pop(tracked, p)
  {
    var t := Pop(tracked, p);
    var q :| 0 <= q < |tracked| && tracked[q] == k;
    if q <= p {
      assert t[q] == k;
    } else {
      assert q > p + 1 && t[q - 1] == k - 1;
    }
  }

  /** Nothing before place p of the list can be merged with its successor. */
  ghost predicate MergedUpTo(cs: seq<Node>, local: string, tracked: seq<nat>, p: nat) {
    forall q :: 0 <= q < p && q + 1 < |tracked| ==> !Mergeable(cs, local, tracked[q], tracked[q + 1])
  }

  lemma PopKeepsMerged(cs: seq<Node>, local: string, tracked: seq<nat>, p: nat)
    requires IsTrackedList(cs, local, tracked) && p + 1 < |tracked| && MergedUpTo(cs, local, tracked, p)
    requires Mergeable(cs, local, tracked[p], tracked[p + 1])
    ensures forall q :: p + 1 < q < |tracked| ==> tracked[q] > 0
    ensures MergedUpTo(MergeAt(cs, tracked[p], tracked[p + 1]), local, Pop(tracked, p), p)
  {
    var i, j := tracked[p], tracked[p + 1];
    var ds, t := MergeAt(cs, i, j), Pop(tracked, p);
    forall q | 0 <= q < p && q + 1 < |t| ensures !Mergeable(ds, local, t[q], t[q + 1]) {
      assert t[q] == tracked[q] && t[q + 1] == tracked[q + 1];
      assert forall k :: 0 <= k < i ==> ds[k] == cs[k];
      assert GetAuthor(ds[i]) == GetAuthor(cs[i]) && IsElement(ds[i], local);
      assert !Mergeable(cs, local, tracked[q], tracked[q + 1]);
    }
  }

  /** Mergeable elements are neighbours in the list. */
  lemma MergeableAreNeighbours(cs: seq<Node>, local: string, tracked: seq<nat>, i: int, j: int) returns (p: nat)
    requires IsTrackedList(cs, local, tracked) && Mergeable(cs, local, i, j)
    ensures p + 1 < |tracked| && tracked[p] == i && tracked[p + 1] == j
  {
    assert Flags(cs, local)[i] && Flags(cs, local)[j];
    assert i in tracked && j in tracked;
    p :| 0 <= p < |tracked| && tracked[p] == i;
    var q :| 0 <= q < |tracked| && tracked[q] == j;
    assert p < q;
    var m := tracked[p + 1];
    assert Flags(cs, local)[m];
    assert i < m <= j && !Blank(cs[m]);
  }

  lemma AllPairsMerged(cs: seq<Node>, local: string, tracked: seq<nat>)
    requires IsTrackedList(cs, local, tracked) && MergedUpTo(cs, local, tracked, |tracked|)
    ensures Merged(cs, local)
  {
    forall i, j ensures !Mergeable(cs, local, i, j) {
      if Mergeable(cs, local, i, j) {
        var p := MergeableAreNeighbours(cs, local, tracked, i, j);
      }
    }
  }

  function OtherKind(local: string): string {
    if local == "ins" then "del" else "ins"
  }

  ghost predicate MergedElsewhere(cs: seq<Node>, local: string) {
    Merged(cs, OtherKind(local))
  }

  /** A pair of any kind that is mergeable after a merge was mergeable before it, with the source in
      place of the target. */
  lemma PairBefore(cs: seq<Node>, local: string, i: int, j: int, kind: string, u: int, v: int) returns (u': int, v': int)
    requires Mergeable(cs, local, i, j) && Mergeable(MergeAt(cs, i, j), kind, u, v)
    ensures Mergeable(cs, kind, u', v')
    ensures var ds := MergeAt(cs, i, j);
            && Remover(ds[v]) == Remover(cs[v'])
            && (if u == i then u' == j && Remover(ds[u]) == Remover(cs[i]) && kind == cs[i].tag.local else Remover(ds[u]) == Remover(cs[u']))
  {
    var ds := MergeAt(cs, i, j);
    MergeAtPlaces(cs, i, j);
    hide MergeAt;
    assert !Blank(ds[i]);
    assert v <= i || i <= u;
    if v <= i {
      u', v' := u, v;
      assert forall k :: u < k < v ==> cs[k] == ds[k];
    } else {
      assert forall k {:trigger cs[k]} :: i < k < j ==> !cs[k].Elem?;
      assert (u == i || u >= j) && v >= j;
      u', v' := if u == i then j else u + 1, v + 1;
      assert forall k :: u' < k < v' ==> cs[k] == ds[k - 1];
    }
  }

  /** Merging one kind does not make elements of the other kind mergeable. */
  lemma MergeAtKeepsOther(cs: seq<Node>, local: string, i: int, j: int)
    requires Mergeable(cs, local, i, j) && (local == "ins" || local == "del")
    ensures MergedElsewhere(cs, local) ==> MergedElsewhere(MergeAt(cs, i, j), local)
  {
    if !MergedElsewhere(MergeAt(cs, i, j), local) {
      var u, v :| Mergeable(MergeAt(cs, i, j), OtherKind(local), u, v);
      u, v := PairBefore(cs, local, i, j, OtherKind(local), u, v);
    }
  }

  // ---------- When merging is sound ----------

  /** Tracked changes that the merge takes for changes of one author are so for the validator. */
  ghost predicate Sound(cs: seq<Node>, local: string) {
    forall i, j :: Mergeable(cs, local, i, j) ==> Remover(cs[i]) == Remover(cs[j])
  }

  lemma MergeAtKeepsSound(cs: seq<Node>, local: string, i: int, j: int, kind: string)
    requires Mergeable(cs, local, i, j) && Sound(cs, local) && Sound(cs, kind)
    ensures Sound(MergeAt(cs, i, j), kind)
  {
    var ds := MergeAt(cs, i, j);
    forall u, v | Mergeable(ds, kind, u, v) ensures Remover(ds[u]) == Remover(ds[v]) {
      var u', v' := PairBefore(cs, local, i, j, kind, u, v);
      hide MergeAt, Mergeable, Remover;
    }
  }

  // ---------- Documents that name their authors ----------

  predicate HasAuthor(n: Node) {
    n.Elem? && n.author.w.Some? && n.author.w.value != ""
  }

  /** A w: element with a w:author. */
  predicate Named(n: Node) {
    HasAuthor(n) && n.tag.ns == W
  }

  /** Between elements with a w:author the merge looks at the local name, that author and what lies between,
      and nothing else. */
  lemma NamedMergeIff(cs: seq<Node>, local: string, i: int, j: int)
    requires 0 <= i < j < |cs| && HasAuthor(cs[i]) && HasAuthor(cs[j])
    ensures Mergeable(cs, local, i, j) <==>
              && cs[i].tag.local == local && cs[j].tag.local == local && cs[i].author.w == cs[j].author.w
              && forall k :: i < k < j ==> cs[k].Comment? || (cs[k].Text? && forall c <- cs[k].data :: IsSpace(c))
  {
    assert (forall k :: i < k < j ==> cs[k].Comment? || (cs[k].Text? && forall c <- cs[k].data :: IsSpace(c))) <==> BlankBetween(cs, i, j) by {
      hide IsSpace;
      forall k | i < k < j ensures Blank(cs[k]) <==> cs[k].Comment? || (cs[k].Text? && forall c <- cs[k].data :: IsSpace(c)) {
      }
    }
    hide IsSpace, BlankBetween;
  }

  /** Every tracked change names its author. */
  predicate NamedAll(cs: seq<Node>) {
    cs == [] || (NamedNode(cs[0]) && NamedAll(cs[1..]))
  }

  predicate NamedNode(n: Node) {
    n.Elem? ==> (Tracked(n) ==> Named(n)) && NamedAll(n.children)
  }

  lemma {:induction false} NamedEach(cs: seq<Node>)
    requires NamedAll(cs)
    ensures forall k :: 0 <= k < |cs| ==> NamedNode(cs[k])
  {
    if cs != [] {
      NamedEach(cs[1..]);
      assert forall k :: 0 < k < |cs| ==> cs[k] == cs[1..][k - 1];
    }
  }

  lemma NamedListIsSound(cs: seq<Node>, local: string)
    requires (local == "ins" || local == "del") && NamedAll(cs)
    ensures Sound(cs, local)
  {
    NamedEach(cs);
    forall i, j | Mergeable(cs, local, i, j) ensures Remover(cs[i]) == Remover(cs[j]) {
      assert NamedNode(cs[i]) && NamedNode(cs[j]);
      NamedMergeIff(cs, local, i, j);
    }
  }

  /** There merging is sound everywhere. */
  lemma {:induction false} NamedIsSound(cs: seq<Node>)
    requires NamedAll(cs)
    ensures SoundAll(cs)
  {
    if cs != [] {
      NamedIsSound(cs[1..]);
      if cs[0].Elem? {
        NamedIsSound(cs[0].children);
        NamedListIsSound(cs[0].children, "ins");
        NamedListIsSound(cs[0].children, "del");
      }
      hide Sound, Named, Tracked;
    }
  }

  /** No two changes of one kind with the same w:author have only comments and white space between them. */
  ghost predicate NoNeighbours(cs: seq<Node>) {
    forall i, j :: 0 <= i < j < |cs| && SameKind(cs[i], cs[j]) ==>
      exists k :: i < k < j && !cs[k].Comment? && (cs[k].Text? ==> exists c <- cs[k].data :: !IsSpace(c))
  }

  predicate SameKind(x: Node, y: Node) {
    && Tracked(x) && Tracked(y) && x.tag.local == y.tag.local
    && x.author.w.Some? && x.author.w.value != "" && x.author.w == y.author.w
  }

  /** In no paragraph and no table cell. */
  ghost predicate ApartAll(cs: seq<Node>) {
    cs == [] || (ApartNode(cs[0]) && ApartAll(cs[1..]))
  }

  ghost predicate ApartNode(n: Node) {
    n.Elem? ==> (n.tag.local == "p" || n.tag.local == "tc" ==> NoNeighbours(n.children)) && ApartAll(n.children)
  }

  lemma MergedHasNoNeighbours(cs: seq<Node>)
    requires Merged(cs, "ins") && Merged(cs, "del")
    ensures NoNeighbours(cs)
  {
    hide IsSpace;
    forall i, j | 0 <= i < j < |cs| && SameKind(cs[i], cs[j])
      ensures exists k :: i < k < j && !cs[k].Comment? && (cs[k].Text? ==> exists c <- cs[k].data :: !IsSpace(c))
    {
      AuthorFromAttributes(cs[i]);
      AuthorFromAttributes(cs[j]);
      assert !Mergeable(cs, cs[i].tag.local, i, j);
      var k :| i < k < j && !Blank(cs[k]);
      assert !cs[k].Comment? && (cs[k].Text? ==> exists c <- cs[k].data :: !IsSpace(c));
    }
  }

  lemma {:induction false} MergedIsApart(cs: seq<Node>)
    requires MergedAll(cs, "p") && MergedAll(cs, "tc")
    ensures ApartAll(cs)
  {
    if cs != [] {
      MergedIsApart(cs[1..]);
      if cs[0].Elem? {
        MergedIsApart(cs[0].children);
        if cs[0].tag.local == "p" || cs[0].tag.local == "tc" {
          MergedHasNoNeighbours(cs[0].children);
        }
      }
      hide Merged, NoNeighbours;
    }
  }

  // ---------- Whole trees ----------

  predicate IsContainer(c: string) {
    c == "p" || c == "tc"
  }

  /** In every container merging is sound. */
  ghost predicate SoundAll(cs: seq<Node>) {
    cs == [] || (SoundNode(cs[0]) && SoundAll(cs[1..]))
  }

  ghost predicate SoundNode(n: Node) {
    n.Elem? ==>
      (IsContainer(n.tag.local) ==> Sound(n.children, "ins") && Sound(n.children, "del")) && SoundAll(n.children)
  }

  /** A standard document: its tracked changes are w: elements that name their author in w:author, or
      name none. */
  predicate PlainAll(cs: seq<Node>) {
    cs == [] || (PlainNode(cs[0]) && PlainAll(cs[1..]))
  }

  predicate PlainNode(n: Node) {
    n.Elem? ==> (Tracked(n) ==> Remover(n) == if GetAuthor(n) == "" then None else Some(GetAuthor(n))) && PlainAll(n.children)
  }

  /** Merging is sound in every standard document. */
  lemma {:induction false} PlainIsSound(cs: seq<Node>)
    requires PlainAll(cs)
    ensures SoundAll(cs) && Sound(cs, "ins") && Sound(cs, "del")
  {
    if cs != [] {
      PlainIsSound(cs[1..]);
      if cs[0].Elem? {
        PlainIsSound(cs[0].children);
      }
    }
    PlainHeads(cs);
    hide PlainAll, GetAuthor;
  }

  lemma {:induction false} PlainHeads(cs: seq<Node>)
    requires PlainAll(cs)
    ensures forall k :: 0 <= k < |cs| ==> PlainNode(cs[k])
  {
    if cs != [] {
      PlainHeads(cs[1..]);
      assert forall k :: 0 < k < |cs| ==> cs[k] == cs[1..][k - 1];
    }
  }

  /** In every container with this local name nothing is left to merge. */
  ghost predicate MergedAll(cs: seq<Node>, container: string) {
    cs == [] || (MergedNode(cs[0], container) && MergedAll(cs[1..], container))
  }

  ghost predicate MergedNode(n: Node, container: string) {
    n.Elem? ==>
      (n.tag.local == container ==> Merged(n.children, "ins") && Merged(n.children, "del")) && MergedAll(n.children, container)
  }

  /** The number of tracked changes in some trees. */
  function Total(cs: seq<Node>): nat {
    if cs == [] then 0 else TotalNode(cs[0]) + Total(cs[1..])
  }

  function TotalNode(n: Node): nat {
    if n.Elem? then (if Tracked(n) then 1 else 0) + Total(n.children) else 0
  }

  lemma {:induction false} TreeConcat(cs: seq<Node>, ds: seq<Node>, container: string)
    ensures SoundAll(cs + ds) <==> SoundAll(cs) && SoundAll(ds)
    ensures MergedAll(cs + ds, container) <==> MergedAll(cs, container) && MergedAll(ds, container)
    ensures Total(cs + ds) == Total(cs) + Total(ds)
  {
    if cs == [] {
      assert cs + ds == ds;
    } else {
      assert (cs + ds)[1..] == cs[1..] + ds;
      TreeConcat(cs[1..], ds, container);
    }
  }

  lemma HeadTree(x: Node, rest: seq<Node>, container: string)
    ensures SoundAll([x] + rest) <==> SoundNode(x) && SoundAll(rest)
    ensures MergedAll([x] + rest, container) <==> MergedNode(x, container) && MergedAll(rest, container)
    ensures Total([x] + rest) == TotalNode(x) + Total(rest)
  {
    assert ([x] + rest)[1..] == rest;
  }

  lemma AppendTree(x: Node, y: Node, container: string)
    requires Tracked(x) && Tracked(y) && container != "ins" && container != "del"
    ensures SoundNode(x) && SoundNode(y) ==> SoundNode(Append(x, y))
    ensures MergedNode(x, container) && MergedNode(y, container) ==> MergedNode(Append(x, y), container)
    ensures TotalNode(Append(x, y)) == TotalNode(x) + TotalNode(y) - 1
  {
    TreeConcat(x.children, y.children, container);
  }

  lemma MergeAtKeepsTree(cs: seq<Node>, local: string, i: int, j: int, container: string)
    requires Mergeable(cs, local, i, j) && (local == "ins" || local == "del") && container != "ins" && container != "del"
    ensures SoundAll(cs) ==> SoundAll(MergeAt(cs, i, j))
    ensures MergedAll(cs, container) ==> MergedAll(MergeAt(cs, i, j), container)
    ensures Total(MergeAt(cs, i, j)) == Total(cs) - 1
  {
    hide SoundAll, MergedAll, Total, SoundNode, MergedNode, TotalNode;
    var before, mid, after, x, y := cs[..i], cs[i + 1..j], cs[j + 1..], cs[i], cs[j];
    assert cs == before + ([x] + (mid + ([y] + after)));
    assert MergeAt(cs, i, j) == before + ([Append(x, y)] + (mid + after));
    AppendTree(x, y, container);
    hide MergeAt, Mergeable, Append;
    TreeConcat(before, [x] + (mid + ([y] + after)), container);
    TreeConcat(before, [Append(x, y)] + (mid + after), container);
    TreeConcat(mid, [y] + after, container);
    TreeConcat(mid, after, container);
    HeadTree(x, mid + ([y] + after), container);
    HeadTree(y, after, container);
    HeadTree(Append(x, y), mid + after, container);
  }

  /** Merges the tracked changes of one kind in one container. */
  method MergeTrackedChangesIn(container: seq<Node>, local: string) returns (cs: seq<Node>, mergeCount: nat)
    requires local == "ins" || local == "del"
    ensures Merged(cs, local)
    ensures Flatten(cs, local) == Flatten(container, local) && Blanks(cs) == Blanks(container)
    ensures mergeCount == CountOf(container, local) - CountOf(cs, local)
    ensures MergedElsewhere(container, local) ==> MergedElsewhere(cs, local)
    ensures Sound(container, local) ==> Sound(cs, local) && SameMeaning(cs, container)
    ensures Sound(container, local) && Sound(container, OtherKind(local)) ==> Sound(cs, OtherKind(local))
    ensures SoundAll(container) ==> SoundAll(cs)
    ensures forall c :: c != "ins" && c != "del" && MergedAll(container, c) ==> MergedAll(cs, c)
    ensures Total(cs) + mergeCount == Total(container)
    ensures forall a, inDel :: TextWithout(cs, a, inDel) == HeadText(container, local, Nobody, a, inDel)
  {
    hide HeadText, TextWithout, Flatten, Blanks, CountOf, Sound, SoundAll, MergedAll, Total, Merged, Mergeable, MergeAt;
    cs, mergeCount := container, 0;
    var tracked := FindElements(cs, local);
    var p := 0;
    while p + 1 < |tracked|
      invariant IsTrackedList(cs, local, tracked) && MergedUpTo(cs, local, tracked, p)
      invariant Flatten(cs, local) == Flatten(container, local) && Blanks(cs) == Blanks(container)
      invariant mergeCount == CountOf(container, local) - CountOf(cs, local)
      invariant MergedElsewhere(container, local) ==> MergedElsewhere(cs, local)
      invariant Sound(container, local) ==> Sound(cs, local) && SameMeaning(cs, container)
      invariant Sound(container, local) && Sound(container, OtherKind(local)) ==> Sound(cs, OtherKind(local))
      invariant SoundAll(container) ==> SoundAll(cs)
      invariant forall c :: c != "ins" && c != "del" && MergedAll(container, c) ==> MergedAll(cs, c)
      invariant Total(cs) + mergeCount == Total(container)
      invariant forall a, inDel :: HeadText(cs, local, Nobody, a, inDel) == HeadText(container, local, Nobody, a, inDel)
      decreases |tracked| - p
    {
      PopTracks(cs, local, tracked, p);
      var can := CanMergeTracked(cs, local, tracked[p], tracked[p + 1]);
      if can {
        PopKeepsMerged(cs, local, tracked, p);
        MergeAtKeepsContent(cs, local, tracked[p], tracked[p + 1]);
        MergeAtKeepsAll(cs, local, tracked[p], tracked[p + 1]);
        MergeAtKeepsOther(cs, local, tracked[p], tracked[p + 1]);
        forall c | c != "ins" && c != "del"
          ensures MergedAll(cs, c) ==> MergedAll(MergeAt(cs, tracked[p], tracked[p + 1]), c) {
          MergeAtKeepsTree(cs, local, tracked[p], tracked[p + 1], c);
        }
        MergeAtKeepsTree(cs, local, tracked[p], tracked[p + 1], "p");
        forall a, inDel
          ensures HeadText(MergeAt(cs, tracked[p], tracked[p + 1]), local, Nobody, a, inDel) == HeadText(cs, local, Nobody, a, inDel) {
          MergeAtKeepsHeadText(cs, local, tracked[p], tracked[p + 1], a, inDel);
        }
        cs := MergeAt(cs, tracked[p], tracked[p + 1]);
        tracked := Pop(tracked, p);
        mergeCount := mergeCount + 1;
      } else {
        p := p + 1;
      }
    }
    AllPairsMerged(cs, local, tracked);
    forall a, inDel ensures TextWithout(cs, a, inDel) == HeadText(cs, local, Nobody, a, inDel) {
      MergedHeadText(cs, local, a, inDel);
    }
  }

  lemma MergeAtKeepsAll(cs: seq<Node>, local: string, i: int, j: int)
    requires Mergeable(cs, local, i, j) && (local == "ins" || local == "del")
    ensures Sound(cs, local) ==> Sound(MergeAt(cs, i, j), local) && SameMeaning(MergeAt(cs, i, j), cs)
    ensures Sound(cs, local) && Sound(cs, OtherKind(local)) ==> Sound(MergeAt(cs, i, j), OtherKind(local))
  {
    hide MergeAt, Mergeable, Remover;
    if Sound(cs, local) {
      MergeAtKeepsMeaning(cs, local, i, j);
      MergeAtKeepsSound(cs, local, i, j, local);
      if Sound(cs, OtherKind(local)) {
        MergeAtKeepsSound(cs, local, i, j, OtherKind(local));
      }
    }
  }
}
