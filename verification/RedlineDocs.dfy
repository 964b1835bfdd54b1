/** Whole documents: the pass over every container, and the validator that takes back one author's
    changes and extracts the text. */
module RedlineDocs {
  import opened TaskModel
  import opened Xml
  import opened Redlines
  import opened RedlineItems

  // ---------- The validator ----------

  /** An element as the validator's parser sees it: text before the first child, child elements. */
  datatype Et = Et(tag: Tag, author: Option<string>, text: string, kids: seq<Et>)

  function Parse(n: Node): Et
    requires n.Elem?
    decreases n
  {
    Et(n.tag, n.author.w, Leading(n.children), ParseAll(n.children))
  }

  function ParseAll(cs: seq<Node>): seq<Et>
    decreases cs
  {
    if cs == [] then [] else (if cs[0].Elem? then [Parse(cs[0])] else []) + ParseAll(cs[1..])
  }

  predicate Is(e: Et, local: string) {
    e.tag == Tag(W, local)
  }

  /** First loop: the insertions of `a` go. */
  function RemoveIns(es: seq<Et>, a: string): seq<Et> {
    if es == [] then []
    else (if Is(es[0], "ins") && es[0].author == Some(a) then [] else [es[0].(kids := RemoveIns(es[0].kids, a))])
         + RemoveIns(es[1..], a)
  }

  /** Second loop: a deletion of `a` is replaced by its children, and every w:delText below it becomes
      w:t. The children that move up are visited, but not unwrapped themselves. */
  function Unwrap(es: seq<Et>, a: string, inDel: bool): seq<Et>
    decreases es, 0
  {
    if es == [] then []
    else (if Is(es[0], "del") && es[0].author == Some(a) then VisitAll(es[0].kids, a, true) else [Visit(es[0], a, inDel)])
         + Unwrap(es[1..], a, inDel)
  }

  function Visit(e: Et, a: string, inDel: bool): Et
    decreases e, 1
  {
    Et(if inDel && Is(e, "delText") then Tag(W, "t") else e.tag, e.author, e.text, Unwrap(e.kids, a, inDel))
  }

  function VisitAll(es: seq<Et>, a: string, inDel: bool): seq<Et>
    decreases es, 0
  {
    if es == [] then [] else [Visit(es[0], a, inDel)] + VisitAll(es[1..], a, inDel)
  }

  function EtText(es: seq<Et>): string {
    if es == [] then "" else (if Is(es[0], "t") then es[0].text else "") + EtText(es[0].kids) + EtText(es[1..])
  }

  function EtParagraphs(es: seq<Et>): seq<string> {
    if es == [] then []
    else (if Is(es[0], "p") then [EtText(es[0].kids)] else []) + EtParagraphs(es[0].kids) + EtParagraphs(es[1..])
  }

  /** Joins the paragraphs that are not empty with line feeds. */
  function Lines(ps: seq<string>): string {
    if ps == [] then ""
    else
      var rest := Lines(ps[1..]);
      if ps[0] == "" then rest else if rest == "" then ps[0] else ps[0] + "\n" + rest
  }

  function NonEmpty(ps: seq<string>): seq<string> {
    if ps == [] then [] else (if ps[0] == "" then [] else [ps[0]]) + NonEmpty(ps[1..])
  }

  /** A text cut at its line feeds, without empty lines. */
  function Cut(s: string): seq<string> {
    if s == "" then []
    else
      var i := FirstLF(s);
      if i == |s| then [s] else (if i == 0 then [] else [s[..i]]) + Cut(s[i + 1..])
  }

  function FirstLF(s: string): (i: nat)
    ensures i <= |s| && '\n' !in s[..i] && (i < |s| ==> s[i] == '\n')
  {
    if s == "" || s[0] == '\n' then 0 else
      var i := 1 + FirstLF(s[1..]);
      assert s[..i] == [s[0]] + s[1..][..i - 1];
      i
  }

  /** The compared text tells the paragraphs that are not empty, in order. */
  lemma {:induction false} LinesTellParagraphs(ps: seq<string>)
    requires forall p <- ps :: '\n' !in p
    ensures Cut(Lines(ps)) == NonEmpty(ps)
    ensures Lines(ps) == "" <==> NonEmpty(ps) == []
  {
    if ps != [] {
      var p, rest := ps[0], Lines(ps[1..]);
      LinesTellParagraphs(ps[1..]);
      if p != "" {
        if rest == "" {
          FirstLFOfLine(p, "");
        } else {
          FirstLFOfLine(p, "\n" + rest);
          assert (p + "\n" + rest)[..|p|] == p && (p + "\n" + rest)[|p| + 1..] == rest;
          assert p + ("\n" + rest) == p + "\n" + rest;
        }
      }
    }
  }

  lemma {:induction false} FirstLFOfLine(p: string, rest: string)
    requires '\n' !in p && (rest == "" || rest[0] == '\n')
    ensures FirstLF(p + rest) == |p|
  {
    if p != "" {
      assert p[0] in p && (p + rest)[1..] == p[1..] + rest;
      FirstLFOfLine(p[1..], rest);
    }
  }

  /** What the validator compares: the text left without the changes of `a`. */
  function TextLeft(root: Node, a: string): string
    requires root.Elem?
  {
    Lines(EtParagraphs(Unwrap(RemoveIns(Parse(root).kids, a), a, false)))
  }

  lemma EtConcat(es: seq<Et>, fs: seq<Et>)
    ensures EtText(es + fs) == EtText(es) + EtText(fs)
    ensures EtParagraphs(es + fs) == EtParagraphs(es) + EtParagraphs(fs)
  {
    EtTextConcat(es, fs);
    EtParagraphsConcat(es, fs);
  }

  lemma {:induction false} EtTextConcat(es: seq<Et>, fs: seq<Et>)
    ensures EtText(es + fs) == EtText(es) + EtText(fs)
  {
    if es == [] {
      assert es + fs == fs;
    } else {
      assert (es + fs)[1..] == es[1..] + fs;
      EtTextConcat(es[1..], fs);
      hide Is;
    }
  }

  lemma {:induction false} EtParagraphsConcat(es: seq<Et>, fs: seq<Et>)
    ensures EtParagraphs(es + fs) == EtParagraphs(es) + EtParagraphs(fs)
  {
    if es == [] {
      assert es + fs == fs;
    } else {
      assert (es + fs)[1..] == es[1..] + fs;
      EtParagraphsConcat(es[1..], fs);
      hide Is, EtText;
    }
  }

  function Kept(cs: seq<Node>, a: string): seq<Et> {
    RemoveIns(ParseAll(cs), a)
  }

  /** A kept element with what is kept below it. */
  function KeptNode(n: Node, a: string): Et
    requires n.Elem?
  {
    Parse(n).(kids := Kept(n.children, a))
  }

  lemma KeptStep(cs: seq<Node>, a: string)
    requires cs != []
    ensures Kept(cs, a) == (if !cs[0].Elem? || InsBy(cs[0], a) then [] else [KeptNode(cs[0], a)]) + Kept(cs[1..], a)
  {
    var rest := ParseAll(cs[1..]);
    if cs[0].Elem? {
      var e := Parse(cs[0]);
      var es := [e] + rest;
      assert ParseAll(cs) == es && es[0] == e && es[1..] == rest;
      assert RemoveIns(es, a) == (if InsBy(cs[0], a) then [] else [e.(kids := RemoveIns(e.kids, a))]) + RemoveIns(rest, a);
    } else {
      assert ParseAll(cs) == rest;
    }
  }

  lemma EtSingle(v: Et)
    ensures EtText([v]) == (if Is(v, "t") then v.text else "") + EtText(v.kids)
    ensures EtParagraphs([v]) == (if Is(v, "p") then [EtText(v.kids)] else []) + EtParagraphs(v.kids)
  {
    assert [v][1..] == [];
  }

  /** What a kept element contributes where it is visited and not unwrapped. */
  lemma {:induction false} VisitMeaning(n: Node, a: string, inDel: bool)
    requires n.Elem? && !InsBy(n, a)
    ensures var v := Visit(KeptNode(n, a), a, inDel);
            && EtText([v]) == (if DelBy(n, a) then TextWithout(n.children, a, inDel) else NodeText(n, a, inDel))
            && EtParagraphs([v]) == (if DelBy(n, a) then ParagraphsWithout(n.children, a, inDel) else NodeParagraphs(n, a, inDel))
    decreases n
  {
    UnwrapMeaning(n.children, a, inDel);
    EtSingle(Visit(KeptNode(n, a), a, inDel));
    hide Unwrap, Leading, EtText, EtParagraphs, TextWithout, ParagraphsWithout, Kept, ParseAll;
  }

  /** One step of the second loop, and of a visit of moved children. */
  lemma UnwrapStep(e: Et, rest: seq<Et>, a: string, inDel: bool)
    ensures var head := if Is(e, "del") && e.author == Some(a) then VisitAll(e.kids, a, true) else [Visit(e, a, inDel)];
            && EtText(Unwrap([e] + rest, a, inDel)) == EtText(head) + EtText(Unwrap(rest, a, inDel))
            && EtParagraphs(Unwrap([e] + rest, a, inDel)) == EtParagraphs(head) + EtParagraphs(Unwrap(rest, a, inDel))
    ensures EtText(VisitAll([e] + rest, a, true)) == EtText([Visit(e, a, true)]) + EtText(VisitAll(rest, a, true))
    ensures EtParagraphs(VisitAll([e] + rest, a, true)) == EtParagraphs([Visit(e, a, true)]) + EtParagraphs(VisitAll(rest, a, true))
  {
    assert ([e] + rest)[1..] == rest;
    var head := if Is(e, "del") && e.author == Some(a) then VisitAll(e.kids, a, true) else [Visit(e, a, inDel)];
    EtConcat(head, Unwrap(rest, a, inDel));
    EtConcat([Visit(e, a, true)], VisitAll(rest, a, true));
    hide EtText, EtParagraphs, Visit;
  }

  /** The validator's two loops leave exactly the text of the meaning. */
  lemma {:induction false} UnwrapMeaning(cs: seq<Node>, a: string, inDel: bool)
    ensures EtText(Unwrap(Kept(cs, a), a, inDel)) == TextWithout(cs, a, inDel)
    ensures EtParagraphs(Unwrap(Kept(cs, a), a, inDel)) == ParagraphsWithout(cs, a, inDel)
    ensures EtText(VisitAll(Kept(cs, a), a, true)) == TextWithout(cs, a, true)
    ensures EtParagraphs(VisitAll(Kept(cs, a), a, true)) == ParagraphsWithout(cs, a, true)
    decreases cs
  {
    if cs != [] {
      var n, rest := cs[0], Kept(cs[1..], a);
      KeptStep(cs, a);
      UnwrapMeaning(cs[1..], a, inDel);
      assert cs == [n] + cs[1..];
      HeadMeaning(n, cs[1..], a, inDel);
      HeadMeaning(n, cs[1..], a, true);
      hide Unwrap, VisitAll, Visit, EtText, EtParagraphs, Kept, TextWithout, ParagraphsWithout, Leading;
      if n.Elem? && !InsBy(n, a) {
        VisitMeaning(n, a, inDel);
        VisitMeaning(n, a, true);
        UnwrapMeaning(n.children, a, true);
        UnwrapStep(KeptNode(n, a), rest, a, inDel);
      } else {
        assert Kept(cs, a) == rest;
      }
    }
  }

  /** A standard document meets the condition of SimplifyRedlines. */
  lemma StandardIsSound(root: Node)
    requires PlainNode(root)
    ensures SoundNode(root)
  {
    if root.Elem? {
      PlainIsSound(root.children);
    }
  }

  lemma SameMeaningLeavesSameText(doc: Node, root: Node, a: string)
    requires doc.Elem? && root.Elem? && SameMeaning(doc.children, root.children)
    ensures TextLeft(doc, a) == TextLeft(root, a)
  {
    UnwrapMeaning(doc.children, a, false);
    UnwrapMeaning(root.children, a, false);
    assert ParagraphsWithout(doc.children, a, false) == ParagraphsWithout(root.children, a, false);
  }

  // ---------- Simplification ----------

  /** The same node up to what is below it. */
  predicate SameHead(n: Node, m: Node) {
    if n.Elem? then m.Elem? && m.tag == n.tag && m.author == n.author && m.attrs == n.attrs else m == n
  }

  predicate SameHeads(cs: seq<Node>, ds: seq<Node>) {
    |cs| == |ds| && forall k :: 0 <= k < |cs| ==> SameHead(cs[k], ds[k])
  }

  lemma HeadsDecideMerges(cs: seq<Node>, ds: seq<Node>, local: string)
    requires SameHeads(cs, ds) && Merged(cs, local)
    ensures Merged(ds, local)
  {
    forall i, j ensures !Mergeable(ds, local, i, j) {
      if Mergeable(ds, local, i, j) {
        HeadsDecideMergeable(cs, ds, local, i, j);
      }
    }
  }

  lemma HeadsDecideSound(cs: seq<Node>, ds: seq<Node>, local: string)
    requires SameHeads(cs, ds) && Sound(cs, local)
    ensures Sound(ds, local)
  {
    forall i, j | Mergeable(ds, local, i, j) ensures Remover(ds[i]) == Remover(ds[j]) {
      HeadsDecideMergeable(cs, ds, local, i, j);
    }
  }

  lemma HeadsDecideMergeable(cs: seq<Node>, ds: seq<Node>, local: string, i: int, j: int)
    requires SameHeads(cs, ds) && Mergeable(ds, local, i, j)
    ensures Mergeable(cs, local, i, j) && Remover(cs[i]) == Remover(ds[i]) && Remover(cs[j]) == Remover(ds[j])
  {
    assert SameHead(cs[i], ds[i]) && SameHead(cs[j], ds[j]);
    forall k | i < k < j ensures Blank(cs[k]) {
      assert SameHead(cs[k], ds[k]) && Blank(ds[k]);
    }
  }

  /** Merging keeps the meaning of a child list, whatever stands inside its nodes, exactly if each pair
      it would merge has one author for the validator too. */
  lemma MergingIsSoundIff(cs: seq<Node>, local: string)
    requires local == "ins" || local == "del"
    ensures Sound(cs, local) <==>
              forall ds, i, j :: SameHeads(cs, ds) && Mergeable(ds, local, i, j) ==> SameMeaning(MergeAt(ds, i, j), ds)
  {
    if Sound(cs, local) {
      forall ds, i, j | SameHeads(cs, ds) && Mergeable(ds, local, i, j) ensures SameMeaning(MergeAt(ds, i, j), ds) {
        HeadsDecideSound(cs, ds, local);
        MergeAtKeepsMeaning(ds, local, i, j);
      }
    } else {
      var i, j :| Mergeable(cs, local, i, j) && Remover(cs[i]) != Remover(cs[j]);
      var ds := UnsoundMerge(cs, local, i, j);
    }
  }

  /** Contents for which the merge of two elements of different authors shows. */
  lemma UnsoundMerge(cs: seq<Node>, local: string, i: int, j: int) returns (ds: seq<Node>)
    requires (local == "ins" || local == "del") && Mergeable(cs, local, i, j) && Remover(cs[i]) != Remover(cs[j])
    ensures SameHeads(cs, ds) && Mergeable(ds, local, i, j) && !SameMeaning(MergeAt(ds, i, j), ds)
  {
    var leaf, a := JoinBreaks(cs[i], cs[j]);
    var x, y := cs[i].(children := []), cs[j].(children := [leaf]);
    ds := cs[i := x][j := y];
    assert SameHeads(cs, ds);
    hide NodeText, TextWithout, ParagraphsWithout, Leading;
    assert ds[i + 1..j] == cs[i + 1..j];
    MergeLength(ds, i, j, a);
  }

  /** How much text a merge adds or takes. */
  lemma MergeLength(cs: seq<Node>, i: int, j: int, a: string)
    requires 0 <= i < j < |cs| && cs[i].Elem? && cs[j].Elem?
    ensures |TextWithout(MergeAt(cs, i, j), a, false)| - |TextWithout(cs, a, false)|
            == |NodeText(Append(cs[i], cs[j]), a, false)| - |NodeText(cs[i], a, false)| - |NodeText(cs[j], a, false)|
  {
    hide NodeText, TextWithout, ParagraphsWithout, Append;
    var before, mid, after, x, y := cs[..i], cs[i + 1..j], cs[j + 1..], cs[i], cs[j];
    assert cs == before + ([x] + (mid + ([y] + after)));
    assert MergeAt(cs, i, j) == before + ([Append(x, y)] + (mid + after));
    hide MergeAt;
    MeaningConcat(before, [x] + (mid + ([y] + after)), a, false);
    MeaningConcat(before, [Append(x, y)] + (mid + after), a, false);
    MeaningConcat(mid, [y] + after, a, false);
    MeaningConcat(mid, after, a, false);
    HeadMeaning(x, mid + ([y] + after), a, false);
    HeadMeaning(y, after, a, false);
    HeadMeaning(Append(x, y), mid + after, a, false);
  }

  // ---------- The loop is sound under exactly that condition ----------

  lemma {:induction false} HeadsDecideGroup(cs: seq<Node>, ds: seq<Node>, local: string, g: Group)
    requires SameHeads(cs, ds)
    ensures LastGroup(cs, local, g) == LastGroup(ds, local, g)
  {
    if cs != [] {
      assert SameHead(cs[0], ds[0]);
      assert NextGroup(g, cs[0], local) == NextGroup(g, ds[0], local);
      assert forall k :: 0 <= k < |cs| - 1 ==> SameHead(cs[1..][k], ds[1..][k]);
      HeadsDecideGroup(cs[1..], ds[1..], local, NextGroup(g, cs[0], local));
    }
  }

  lemma {:induction false} EmptyHeadText(cs: seq<Node>, local: string, g: Group, a: string)
    requires local == "ins" || local == "del"
    requires forall k :: 0 <= k < |cs| && IsElement(cs[k], local) ==> cs[k].children == []
    ensures HeadText(cs, local, g, a, false) == TextWithout(cs, a, false)
  {
    if cs != [] {
      EmptyHeadText(cs[1..], local, NextGroup(g, cs[0], local), a);
      if IsElement(cs[0], local) {
        ContentOfNode(cs[0], a, false);
      }
      hide NodeText, NextGroup;
    }
  }

  /** The group that place `k` joins or opens. */
  function GroupAt(cs: seq<Node>, local: string, k: int): Group
    requires 0 <= k < |cs| && cs[k].Elem?
  {
    Joined(LastGroup(cs[..k], local, Nobody), cs[k])
  }

  lemma MergeableShareGroup(cs: seq<Node>, local: string, i: int, j: int)
    requires Mergeable(cs, local, i, j)
    ensures GroupAt(cs, local, i) == GroupAt(cs, local, j)
  {
    var g := LastGroup(cs[..i], local, Nobody);
    var mid := cs[i + 1..j];
    assert cs[..j] == cs[..i] + ([cs[i]] + mid);
    HeadTextConcat(cs[..i], [cs[i]] + mid, local, Nobody, "", false);
    HeadTextHead(cs[i], mid, local, g, "", false);
    BlankHeadText(mid, local, Joined(g, cs[i]), "", false);
    hide HeadText, LastGroup, ContentText;
  }

  /** `cs` without the content of its tracked changes, but for one leaf at place `k`. */
  function OneLeaf(cs: seq<Node>, local: string, k: int, leaf: Node): seq<Node> {
    seq(|cs|, m requires 0 <= m < |cs| =>
          if IsElement(cs[m], local) then cs[m].(children := if m == k then [leaf] else []) else cs[m])
  }

  /** If all other tracked changes are empty, what becomes of one of them makes the difference. */
  lemma OnlyContent(before: seq<Node>, x: Node, after: seq<Node>, local: string, a: string)
    requires (local == "ins" || local == "del") && IsElement(x, local)
    requires forall k :: 0 <= k < |before| && IsElement(before[k], local) ==> before[k].children == []
    requires forall k :: 0 <= k < |after| && IsElement(after[k], local) ==> after[k].children == []
    ensures var ds := before + ([x] + after);
            |HeadText(ds, local, Nobody, a, false)| - |TextWithout(ds, a, false)|
            == |ContentText(local, Joined(LastGroup(before, local, Nobody), x).remover, x.children, a, false)|
               - |ContentText(local, Remover(x), x.children, a, false)|
  {
    hide HeadText, TextWithout, ParagraphsWithout, ContentText, NodeText, LastGroup, Joined, Remover;
    var g := LastGroup(before, local, Nobody);
    EmptyHeadText(before, local, Nobody, a);
    EmptyHeadText(after, local, Joined(g, x), a);
    ContentOfNode(x, a, false);
    HeadTextConcat(before, [x] + after, local, Nobody, a, false);
    HeadTextHead(x, after, local, g, a, false);
    MeaningConcat(before, [x] + after, a, false);
    HeadMeaning(x, after, a, false);
  }

  lemma OneLeafText(cs: seq<Node>, local: string, k: int, leaf: Node, a: string)
    requires (local == "ins" || local == "del") && 0 <= k < |cs| && IsElement(cs[k], local)
    ensures var ds := OneLeaf(cs, local, k, leaf);
            && SameHeads(cs, ds)
            && |HeadText(ds, local, Nobody, a, false)| - |TextWithout(ds, a, false)|
               == |ContentText(local, GroupAt(cs, local, k).remover, [leaf], a, false)| - |ContentText(local, Remover(cs[k]), [leaf], a, false)|
  {
    hide HeadText, TextWithout, ContentText, LastGroup;
    var ds := OneLeaf(cs, local, k, leaf);
    var before, x, after := ds[..k], ds[k], ds[k + 1..];
    assert ds == before + ([x] + after);
    assert SameHeads(cs[..k], before);
    HeadsDecideGroup(cs[..k], before, local, Nobody);
    OnlyContent(before, x, after, local, a);
  }

  /** A leaf that tells two authors apart. */
  lemma LeafTells(local: string, r: Option<string>, q: Option<string>) returns (leaf: Node, a: string)
    requires (local == "ins" || local == "del") && r != q
    ensures |ContentText(local, r, [leaf], a, false)| != |ContentText(local, q, [leaf], a, false)|
  {
    leaf := Elem(Tag(W, if local == "ins" then "t" else "delText"), Author(None, None), [], [Text("x")]);
    a := if r.Some? then r.value else q.value;
    LeafText(leaf, a, false);
    LeafText(leaf, a, true);
    assert |"delText"| == 7;
    hide TextWithout;
  }

  /** What MergeTrackedChangesIn makes of the text is the text before, whatever stands inside the nodes,
      exactly if each pair it would merge has one author for the validator too. */
  lemma LoopIsSoundIff(cs: seq<Node>, local: string)
    requires local == "ins" || local == "del"
    ensures Sound(cs, local) <==>
              forall ds, a, inDel :: SameHeads(cs, ds) ==> HeadText(ds, local, Nobody, a, inDel) == TextWithout(ds, a, inDel)
  {
    if Sound(cs, local) {
      forall ds, a, inDel | SameHeads(cs, ds) ensures HeadText(ds, local, Nobody, a, inDel) == TextWithout(ds, a, inDel) {
        HeadsDecideSound(cs, ds, local);
        SoundHeadText(ds, local, Nobody, a, inDel);
      }
    } else {
      var i, j :| Mergeable(cs, local, i, j) && Remover(cs[i]) != Remover(cs[j]);
      MergeableShareGroup(cs, local, i, j);
      var k := if GroupAt(cs, local, i).remover != Remover(cs[i]) then i else j;
      var leaf, a := LeafTells(local, GroupAt(cs, local, k).remover, Remover(cs[k]));
      OneLeafText(cs, local, k, leaf, a);
      hide HeadText, TextWithout, GroupAt, ContentText, OneLeaf, Sound;
    }
  }

  lemma {:induction false} HeadsDecideLeading(cs: seq<Node>, ds: seq<Node>)
    requires SameHeads(cs, ds)
    ensures Leading(cs) == Leading(ds)
  {
    if cs != [] {
      assert SameHead(cs[0], ds[0]);
      HeadsDecideLeading(cs[1..], ds[1..]);
    }
  }

  /** A node keeps its meaning if its children keep theirs and a text element keeps its own text. */
  lemma ChildrenDecideMeaning(n: Node, cs: seq<Node>)
    requires n.Elem? && SameMeaning(cs, n.children)
    requires IsW(n, "t") || IsW(n, "delText") ==> Leading(cs) == Leading(n.children)
    ensures SameMeaning([n.(children := cs)], [n])
  {
    forall a, inDel
      ensures TextWithout([n.(children := cs)], a, inDel) == TextWithout([n], a, inDel)
      ensures ParagraphsWithout([n.(children := cs)], a, inDel) == ParagraphsWithout([n], a, inDel)
    {
      ChildrenDecideMeaningFor(n, cs, a, inDel);
    }
  }

  lemma ChildrenDecideMeaningFor(n: Node, cs: seq<Node>, a: string, inDel: bool)
    requires n.Elem? && SameMeaning(cs, n.children)
    requires IsW(n, "t") || IsW(n, "delText") ==> Leading(cs) == Leading(n.children)
    ensures TextWithout([n.(children := cs)], a, inDel) == TextWithout([n], a, inDel)
    ensures ParagraphsWithout([n.(children := cs)], a, inDel) == ParagraphsWithout([n], a, inDel)
  {
    hide TextWithout, ParagraphsWithout, Leading;
    var m := n.(children := cs);
    OnlyHead(m, a, inDel);
    OnlyHead(n, a, inDel);
    assert TextWithout(cs, a, true) == TextWithout(n.children, a, true);
    assert TextWithout(cs, a, inDel) == TextWithout(n.children, a, inDel);
  }

  lemma OnlyHead(n: Node, a: string, inDel: bool)
    ensures TextWithout([n], a, inDel) == NodeText(n, a, inDel)
    ensures ParagraphsWithout([n], a, inDel) == NodeParagraphs(n, a, inDel)
  {
    assert [n] + [] == [n];
    HeadMeaning(n, [], a, inDel);
    hide NodeText, NodeParagraphs;
  }

  lemma {:induction false} HeadsDecideBlanks(cs: seq<Node>, ds: seq<Node>)
    requires SameHeads(cs, ds)
    ensures Blanks(cs) == Blanks(ds)
  {
    if cs != [] {
      assert SameHead(cs[0], ds[0]);
      assert forall k :: 0 <= k < |cs| - 1 ==> SameHead(cs[1..][k], ds[1..][k]);
      HeadsDecideBlanks(cs[1..], ds[1..]);
    }
  }

  /** What a node holds is decided by what its children hold. */
  lemma ItemsOfNode(n: Node, ds: seq<Node>, cs: seq<Node>, c: string)
    requires n.Elem? && IsContainer(c) && Blanks(ds) == Blanks(n.children)
    requires forall marks, k :: Items(ds, marks, k) == Items(n.children, marks, k)
    requires if n.tag.local == c then Blanks(cs) == Blanks(ds) && forall marks :: Items(cs, marks, true) == Items(ds, marks, true)
             else cs == ds
    ensures forall marks, k :: NodeItems(n.(children := cs), marks, k) == NodeItems(n, marks, k)
  {
    hide Items, Blanks;
  }

  /** One pass over the containers with local name `c`, inner ones first. */
  method SimplifyNode(n: Node, c: string) returns (m: Node, count: nat)
    requires IsContainer(c)
    ensures SameHead(n, m) && MergedNode(m, c) && TotalNode(m) + count == TotalNode(n)
    ensures forall marks, k :: NodeItems(m, marks, k) == NodeItems(n, marks, k)
    ensures forall d :: IsContainer(d) && MergedNode(n, d) ==> MergedNode(m, d)
    ensures SoundNode(n) ==> SoundNode(m) && SameMeaning([m], [n]) && (n.Elem? ==> SameMeaning(m.children, n.children))
    decreases n
  {
    m, count := n, 0;
    if n.Elem? {
      var cs;
      cs, count := SimplifyList(n.children, c);
      ghost var ds := cs;
      HeadsDecideBlanks(n.children, cs);
      if SoundNode(n) && IsContainer(n.tag.local) {
        HeadsDecideSound(n.children, cs, "ins");
        HeadsDecideSound(n.children, cs, "del");
      }
      if n.tag.local == c {
        var k;
        cs, k := MergeBoth(cs);
        count := count + k;
      } else {
        HeadsDecideLeading(n.children, cs);
        forall d | IsContainer(d) && n.tag.local == d && Merged(n.children, "ins") && Merged(n.children, "del")
          ensures Merged(cs, "ins") && Merged(cs, "del") {
          HeadsDecideMerges(n.children, cs, "ins");
          HeadsDecideMerges(n.children, cs, "del");
        }
      }
      m := n.(children := cs);
      ItemsOfNode(n, ds, cs, c);
      if SoundNode(n) {
        ChildrenDecideMeaning(n, cs);
      }
    }
  }

  method SimplifyList(cs: seq<Node>, c: string) returns (ds: seq<Node>, count: nat)
    requires IsContainer(c)
    ensures SameHeads(cs, ds) && MergedAll(ds, c) && Total(ds) + count == Total(cs)
    ensures forall marks, k :: Items(ds, marks, k) == Items(cs, marks, k)
    ensures forall d :: IsContainer(d) && MergedAll(cs, d) ==> MergedAll(ds, d)
    ensures SoundAll(cs) ==> SoundAll(ds) && SameMeaning(ds, cs)
    decreases cs
  {
    if cs == [] {
      return [], 0;
    }
    var m, k := SimplifyNode(cs[0], c);
    var rest, k' := SimplifyList(cs[1..], c);
    ds, count := [m] + rest, k + k';
    assert cs == [cs[0]] + cs[1..];
    if SoundAll(cs) {
      ConsKeepsMeaning(m, cs[0], rest, cs[1..]);
    }
    forall marks, k ensures Items(ds, marks, k) == Items(cs, marks, k) {
      assert ds[1..] == rest;
      hide NodeItems;
    }
    HeadTree(m, rest, c);
    forall d | IsContainer(d) && MergedAll(cs, d) ensures MergedAll(ds, d) {
      HeadTree(m, rest, d);
    }
    hide SameMeaning;
  }

  lemma ConsKeepsMeaning(m: Node, n: Node, ms: seq<Node>, ns: seq<Node>)
    requires SameMeaning([m], [n]) && SameMeaning(ms, ns)
    ensures SameMeaning([m] + ms, [n] + ns)
  {
    forall a, inDel
      ensures TextWithout([m] + ms, a, inDel) == TextWithout([n] + ns, a, inDel)
      ensures ParagraphsWithout([m] + ms, a, inDel) == ParagraphsWithout([n] + ns, a, inDel)
    {
      MeaningConcat([m], ms, a, inDel);
      MeaningConcat([n], ns, a, inDel);
      assert TextWithout(ms, a, inDel) == TextWithout(ns, a, inDel);
      assert TextWithout([m], a, inDel) == TextWithout([n], a, inDel);
    }
  }

  /** What is done to one container: first the insertions, then the deletions. */
  method MergeBoth(container: seq<Node>) returns (cs: seq<Node>, count: nat)
    ensures Merged(cs, "ins") && Merged(cs, "del") && Total(cs) + count == Total(container)
    ensures Blanks(cs) == Blanks(container) && forall marks :: Items(cs, marks, true) == Items(container, marks, true)
    ensures forall d :: IsContainer(d) && MergedAll(container, d) ==> MergedAll(cs, d)
    ensures SoundAll(container) ==> SoundAll(cs)
    ensures Sound(container, "ins") && Sound(container, "del") ==>
              Sound(cs, "ins") && Sound(cs, "del") && SameMeaning(cs, container)
  {
    var k;
    cs, k := MergeTrackedChangesIn(container, "ins");
    ContainerKeeps(cs, container, "ins");
    ghost var mid := cs;
    cs, count := MergeTrackedChangesIn(cs, "del");
    ContainerKeeps(cs, mid, "del");
    count := k + count;
    if Sound(container, "ins") && Sound(container, "del") {
      MeaningIsTransitive(cs, mid, container);
    }
    hide SameMeaning, Merged, Sound, SoundAll;
  }

  lemma MeaningIsTransitive(cs: seq<Node>, ds: seq<Node>, es: seq<Node>)
    requires SameMeaning(cs, ds) && SameMeaning(ds, es)
    ensures SameMeaning(cs, es)
  {
    forall a, inDel
      ensures TextWithout(cs, a, inDel) == TextWithout(es, a, inDel)
      ensures ParagraphsWithout(cs, a, inDel) == ParagraphsWithout(es, a, inDel)
    {
      assert TextWithout(cs, a, inDel) == TextWithout(ds, a, inDel);
    }
  }

  lemma NodeIsApart(n: Node)
    requires MergedNode(n, "p") && MergedNode(n, "tc")
    ensures ApartNode(n)
  {
    MergedIsApart([n]);
    assert [n][1..] == [];
    hide Merged, NoNeighbours;
  }

  lemma NamedNodeIsSound(n: Node)
    ensures NamedNode(n) ==> SoundNode(n)
  {
    if NamedNode(n) && n.Elem? {
      NamedIsSound(n.children);
      NamedListIsSound(n.children, "ins");
      NamedListIsSound(n.children, "del");
    }
    hide Sound, SoundAll;
  }

  /** simplify_redlines: the paragraphs, then the table cells. The count is the number of tracked
      changes that disappeared. */
  method SimplifyRedlines(root: Node) returns (doc: Node, mergeCount: nat)
    ensures MergedNode(doc, "p") && MergedNode(doc, "tc") && SameHead(root, doc)
    ensures mergeCount == TotalNode(root) - TotalNode(doc)
    ensures NodeItems(doc, [], false) == NodeItems(root, [], false) && ApartNode(doc)
    ensures NamedNode(root) && root.Elem? ==> forall a :: TextLeft(doc, a) == TextLeft(root, a)
    ensures SoundNode(root) && root.Elem? ==> forall a :: TextLeft(doc, a) == TextLeft(root, a)
  {
    var k;
    doc, k := SimplifyNode(root, "p");
    ghost var mid := doc;
    doc, mergeCount := SimplifyNode(doc, "tc");
    mergeCount := k + mergeCount;
    NodeIsApart(doc);
    NamedNodeIsSound(root);
    if SoundNode(root) && root.Elem? {
      MeaningIsTransitive(doc.children, mid.children, root.children);
      forall a ensures TextLeft(doc, a) == TextLeft(root, a) {
        SameMeaningLeavesSameText(doc, root, a);
      }
    }
    hide SameMeaning, TextLeft;
  }
}
