/** Merging runs in a whole document: every parent of runs is a container, and containers are nested. */
module MergeDocs {
  import opened TaskModel
  import opened Xml
  import opened MergeRuns

  // ---------- Where runs stand ----------

  /** No run below. */
  predicate NoRuns(n: Node) {
    n.Elem? ==> !IsRun(n) && NoRunsIn(n.children)
  }

  predicate NoRunsIn(cs: seq<Node>) {
    cs == [] || (NoRuns(cs[0]) && NoRunsIn(cs[1..]))
  }

  /** Run properties or text. */
  predicate IsLeaf(n: Node) {
    IsElement(n, "rPr") || IsElement(n, "t")
  }

  /** The children of a run as the schema has them: no runs, none inside properties and texts, plain texts. */
  predicate RunOk(cs: seq<Node>) {
    cs == [] || (KidOk(cs[0]) && RunOk(cs[1..]))
  }

  predicate KidOk(n: Node) {
    n.Elem? ==> !IsRun(n) && (IsLeaf(n) ==> NoRuns(n)) && (IsText(n) ==> Plain(n))
  }

  predicate Standard(n: Node) {
    n.Elem? ==> (IsRun(n) ==> RunOk(n.children)) && StandardAll(n.children)
  }

  predicate StandardAll(cs: seq<Node>) {
    cs == [] || (Standard(cs[0]) && StandardAll(cs[1..]))
  }

  // ---------- What a document shows ----------

  /** The text nodes and comments among some nodes. */
  function Asides(cs: seq<Node>): seq<Node> {
    if cs == [] then [] else (if cs[0].Elem? then [] else [cs[0]]) + Asides(cs[1..])
  }

  /** The document in reading order: letters with their formatting, other elements in whole if no run
      stands in them, and where elements with runs begin and end, with the text and comments that stand
      directly in them. `within` is the formatting of the run an element stands in. The borders of runs
      are not seen. */
  datatype Item =
    | Letter(format: Option<Node>, c: char)
    | Content(within: Option<Option<Node>>, node: Node)
    | Open(within: Option<Option<Node>>, tag: Tag, author: Author, attrs: seq<(string, string)>, asides: seq<Node>)
    | Close

  function Items(cs: seq<Node>): seq<Item>
    decreases cs, 0
  {
    if cs == [] then [] else NodeItems(cs[0]) + Items(cs[1..])
  }

  function NodeItems(n: Node): seq<Item>
    decreases n, 1
  {
    if !n.Elem? then [] else if IsRun(n) then InRun(Format(n), n.children) else ElemItems(None, n)
  }

  function ElemItems(within: Option<Option<Node>>, n: Node): seq<Item>
    requires n.Elem?
    decreases n, 0
  {
    if NoRunsIn(n.children) then [Content(within, n)]
    else [Open(within, n.tag, n.author, n.attrs, Asides(n.children))] + Items(n.children) + [Close]
  }

  function InRun(format: Option<Node>, cs: seq<Node>): seq<Item>
    decreases cs, 0
  {
    if cs == [] then [] else KidItems(format, cs[0]) + InRun(format, cs[1..])
  }

  function KidItems(format: Option<Node>, n: Node): seq<Item>
    decreases n, 1
  {
    if !n.Elem? || IsElement(n, "rPr") then []
    else if IsElement(n, "t") then Letters(format, TextOf(n))
    else ElemItems(Some(format), n)
  }

  function Letters(format: Option<Node>, s: string): seq<Item> {
    seq(|s|, i requires 0 <= i < |s| => Letter(format, s[i]))
  }

  /** Text is seen wherever it stands, in w:t or not: documents with different deleted texts differ. */
  lemma DeletedTextIsSeen(s: string, t: string)
    ensures var del := (x: string) =>
              Elem(Tag(W, "del"), Author(None, None), [], [Elem(Tag(W, "r"), Author(None, None), [],
                [Elem(Tag(W, "delText"), Author(None, None), [], [Text(x)])])]);
            Standard(del(s)) && (NodeItems(del(s)) == NodeItems(del(t)) ==> s == t)
  {
    DeletedItems(s);
    DeletedItems(t);
  }

  lemma DeletedItems(x: string)
    ensures var text := Elem(Tag(W, "delText"), Author(None, None), [], [Text(x)]);
            var del := Elem(Tag(W, "del"), Author(None, None), [], [Elem(Tag(W, "r"), Author(None, None), [], [text])]);
            && Standard(del)
            && NodeItems(del) == [Open(None, del.tag, del.author, [], []), Content(Some(None), text), Close]
  {
    var text := Elem(Tag(W, "delText"), Author(None, None), [], [Text(x)]);
    var run := Elem(Tag(W, "r"), Author(None, None), [], [text]);
    Single(Text(x), None);
    Single(text, None);
    Single(run, None);
    assert |text.tag.local| == 7;
    assert !IsElement(text, "rPr") && !IsElement(text, "t") && !IsRun(text) && IsRun(run);
    assert ElemItems(Some(None), text) == [Content(Some(None), text)];
    assert NodeItems(run) == InRun(None, [text]);
    assert !NoRuns(run) && NoRuns(text) && KidOk(text);
    assert Standard(text) && Standard(run);
    hide InRun, Items, NodeItems, Asides, Properties, NoRunsIn, RunOk, StandardAll;
  }

  lemma Single(n: Node, f: Option<Node>)
    ensures Items([n]) == NodeItems(n) && InRun(f, [n]) == KidItems(f, n) && Asides([n]) == if n.Elem? then [] else [n]
    ensures Properties([n]) == if IsElement(n, "rPr") then Some(n) else None
    ensures (NoRunsIn([n]) <==> NoRuns(n)) && (RunOk([n]) <==> KidOk(n)) && (StandardAll([n]) <==> Standard(n))
  {
    assert [n][1..] == [];
    assert Items([]) == [] && InRun(f, []) == [] && Asides([]) == [] && Properties([]) == None;
    assert NoRunsIn([]) && RunOk([]) && StandardAll([]);
    hide NodeItems, KidItems, NoRuns, KidOk, Standard;
  }

  // ---------- The number of runs, and nothing left to merge ----------

  function Total(cs: seq<Node>): nat {
    if cs == [] then 0 else TotalNode(cs[0]) + Total(cs[1..])
  }

  function TotalNode(n: Node): nat {
    if !n.Elem? then 0 else if IsRun(n) then 1 + TotalInRun(n.children) else Total(n.children)
  }

  function TotalInRun(cs: seq<Node>): nat {
    if cs == [] then 0
    else (if cs[0].Elem? && !IsLeaf(cs[0]) then Total(cs[0].children) else 0) + TotalInRun(cs[1..])
  }

  /** In no list of children is anything left to merge. */
  ghost predicate DoneAll(cs: seq<Node>) {
    cs == [] || (DoneNode(cs[0]) && DoneAll(cs[1..]))
  }

  ghost predicate DoneNode(n: Node) {
    n.Elem? ==> if IsRun(n) then DoneInRun(n.children) else Stable(n.children) && DoneAll(n.children)
  }

  ghost predicate DoneInRun(cs: seq<Node>) {
    cs == [] ||
    ((cs[0].Elem? && !IsLeaf(cs[0]) ==> Stable(cs[0].children) && DoneAll(cs[0].children)) && DoneInRun(cs[1..]))
  }

  // ---------- All of it can be told from the pieces ----------

  function PieceItems(p: Piece): seq<Item> {
    match p
    case Char(f, c) => [Letter(f, c)]
    case Object(f, n) => if n.Elem? then ElemItems(Some(f), n) else []
    case Barrier(n) => if n.Elem? then ElemItems(None, n) else []
  }

  function Expand(ps: seq<Piece>): seq<Item> {
    if ps == [] then [] else PieceItems(ps[0]) + Expand(ps[1..])
  }

  function Below(p: Piece): nat {
    match p
    case Char(_, _) => 0
    case Object(_, n) => if n.Elem? then Total(n.children) else 0
    case Barrier(n) => if n.Elem? then Total(n.children) else 0
  }

  function AllBelow(ps: seq<Piece>): nat {
    if ps == [] then 0 else Below(ps[0]) + AllBelow(ps[1..])
  }

  ghost predicate DonePiece(p: Piece) {
    match p
    case Char(_, _) => true
    case Object(_, n) => n.Elem? ==> Stable(n.children) && DoneAll(n.children)
    case Barrier(n) => n.Elem? ==> Stable(n.children) && DoneAll(n.children)
  }

  ghost predicate DonePieces(ps: seq<Piece>) {
    ps == [] || (DonePiece(ps[0]) && DonePieces(ps[1..]))
  }

  lemma {:induction false} PiecesConcat(ps: seq<Piece>, qs: seq<Piece>)
    ensures Expand(ps + qs) == Expand(ps) + Expand(qs)
    ensures AllBelow(ps + qs) == AllBelow(ps) + AllBelow(qs)
    ensures DonePieces(ps + qs) <==> DonePieces(ps) && DonePieces(qs)
  {
    hide PieceItems, Below, DonePiece;
    if ps == [] {
      assert ps + qs == qs;
    } else {
      assert (ps + qs)[1..] == ps[1..] + qs;
      PiecesConcat(ps[1..], qs);
    }
  }

  lemma OnePiece(p: Piece)
    ensures Expand([p]) == PieceItems(p) && AllBelow([p]) == Below(p) && (DonePieces([p]) <==> DonePiece(p))
  {
    assert [p][1..] == [];
    hide PieceItems, Below, DonePiece;
  }

  lemma {:induction false} CharPieces(f: Option<Node>, s: string)
    ensures Expand(Chars(f, s)) == Letters(f, s) && AllBelow(Chars(f, s)) == 0 && DonePieces(Chars(f, s))
  {
    if s != "" {
      var c, rest := s[0], s[1..];
      CharPieces(f, rest);
      assert Chars(f, s) == [Char(f, c)] + Chars(f, rest);
      assert Letters(f, s) == [Letter(f, c)] + Letters(f, rest);
      hide Chars, Letters, Expand, AllBelow, DonePieces;
      PiecesConcat([Char(f, c)], Chars(f, rest));
      OnePiece(Char(f, c));
    }
  }

  lemma KidPieces(f: Option<Node>, n: Node)
    ensures Expand(ChildPieces(f, n)) == KidItems(f, n)
    ensures AllBelow(ChildPieces(f, n)) == if n.Elem? && !IsLeaf(n) then Total(n.children) else 0
    ensures DonePieces(ChildPieces(f, n)) <==> (n.Elem? && !IsLeaf(n) ==> Stable(n.children) && DoneAll(n.children))
  {
    hide Expand, AllBelow, DonePieces, ElemItems, Total, DoneAll, Stable, Chars, Letters, TextOf;
    NoPieces();
    if n.Elem? {
      if IsElement(n, "t") {
        LeafTags(n);
        CharPieces(f, TextOf(n));
      }
      OnePiece(Object(f, n));
    }
  }

  lemma NoPieces()
    ensures Expand([]) == [] && AllBelow([]) == 0 && DonePieces([])
  {
  }

  lemma LeafTags(n: Node)
    requires IsElement(n, "t")
    ensures !IsElement(n, "rPr") && IsLeaf(n)
  {
  }

  lemma {:induction false} InRunIsExpanded(f: Option<Node>, cs: seq<Node>)
    ensures Expand(RunPieces(f, cs)) == InRun(f, cs)
    ensures AllBelow(RunPieces(f, cs)) == TotalInRun(cs)
    ensures DonePieces(RunPieces(f, cs)) <==> DoneInRun(cs)
  {
    if cs != [] {
      hide Expand, AllBelow, DonePieces, ChildPieces, KidItems, Total, DoneAll, Stable, IsLeaf;
      InRunIsExpanded(f, cs[1..]);
      KidPieces(f, cs[0]);
      PiecesConcat(ChildPieces(f, cs[0]), RunPieces(f, cs[1..]));
    }
  }

  lemma NodeIsExpanded(n: Node)
    ensures Expand(NodePieces(n)) == NodeItems(n)
    ensures TotalNode(n) == (if IsRun(n) then 1 else 0) + AllBelow(NodePieces(n))
    ensures DonePieces(NodePieces(n)) <==> DoneNode(n)
  {
    hide Expand, AllBelow, DonePieces, ElemItems, Total, DoneAll, Stable;
    NoPieces();
    if n.Elem? {
      InRunIsExpanded(Format(n), n.children);
      OnePiece(Barrier(n));
      hide RunPieces, InRun, TotalInRun, DoneInRun, Format;
    }
  }

  lemma {:induction false} ListIsExpanded(cs: seq<Node>)
    ensures Expand(Flatten(cs)) == Items(cs)
    ensures Total(cs) == RunCount(cs) + AllBelow(Flatten(cs))
    ensures DonePieces(Flatten(cs)) <==> DoneAll(cs)
  {
    if cs != [] {
      hide Expand, AllBelow, DonePieces, NodePieces, NodeItems, TotalNode, DoneNode, IsRun;
      ListIsExpanded(cs[1..]);
      NodeIsExpanded(cs[0]);
      PiecesConcat(NodePieces(cs[0]), Flatten(cs[1..]));
    }
  }

  lemma {:induction false} AsidesAreOthers(cs: seq<Node>)
    ensures Asides(cs) == Asides(Others(cs))
  {
    if cs != [] {
      AsidesAreOthers(cs[1..]);
      var rest := Others(cs[1..]);
      if IsRun(cs[0]) {
        assert Others(cs) == rest;
      } else {
        assert Others(cs) == [cs[0]] + rest && ([cs[0]] + rest)[1..] == rest;
      }
    }
  }

  /** So merging the runs of one container changes nothing of it but the number of runs. */
  lemma ContainerKeeps(cs: seq<Node>, was: seq<Node>, merged: nat)
    requires MergedBy(cs, was, merged) && Flatten(cs) == Flatten(was)
    ensures Items(cs) == Items(was) && Asides(cs) == Asides(was)
    ensures Total(cs) + merged == Total(was) && (DoneAll(cs) <==> DoneAll(was))
  {
    AsidesAreOthers(cs);
    AsidesAreOthers(was);
    hide Asides, Items, Total, DoneAll, Expand, AllBelow, DonePieces, Flatten, RunCount, Others;
    ListIsExpanded(cs);
    ListIsExpanded(was);
  }

  // ---------- The pass ----------

  /** The same element up to its children. */
  predicate SameHead(n: Node, m: Node) {
    if n.Elem? then m.Elem? && m.tag == n.tag && m.author == n.author && m.attrs == n.attrs else m == n
  }

  /** A child of a run after the pass: properties and texts as they were, other elements showing the same. */
  ghost predicate SameKids(cs: seq<Node>, ds: seq<Node>) {
    if cs == [] then ds == []
    else ds != [] && SameKid(cs[0], ds[0]) && SameKids(cs[1..], ds[1..])
  }

  ghost predicate SameKid(n: Node, m: Node) {
    && SameHead(n, m)
    && (n.Elem? ==> if IsLeaf(n) then m == n else SameItems(n, m))
  }

  ghost predicate SameItems(n: Node, m: Node) {
    n.Elem? && m.Elem? && forall within :: ElemItems(within, m) == ElemItems(within, n)
  }

  /** A node after the pass, inside a standard document: it shows the same, `count` runs fewer stand
      below it, and nothing there is left to merge. */
  ghost predicate Passed(n: Node, m: Node, count: nat) {
    && SameHead(n, m) && (NoRuns(n) ==> m == n) && (NoRuns(m) <==> NoRuns(n))
    && (n.Elem? ==> if IsRun(n) then SameKids(n.children, m.children) else SameItems(n, m))
    && TotalNode(m) + count == TotalNode(n) && DoneNode(m)
  }

  ghost predicate AllPassed(cs: seq<Node>, ds: seq<Node>, count: nat) {
    if cs == [] then ds == [] && count == 0
    else ds != [] && exists k: nat :: k <= count && Passed(cs[0], ds[0], k) && AllPassed(cs[1..], ds[1..], count - k)
  }

  lemma {:induction false} SameKidsShowTheSame(f: Option<Node>, cs: seq<Node>, ds: seq<Node>)
    requires SameKids(cs, ds)
    ensures InRun(f, cs) == InRun(f, ds) && Properties(cs) == Properties(ds)
  {
    if cs != [] {
      SameKidsShowTheSame(f, cs[1..], ds[1..]);
      assert cs[0].Elem? && !IsLeaf(cs[0]) ==> ElemItems(Some(f), ds[0]) == ElemItems(Some(f), cs[0]);
      hide ElemItems, Letters, TextOf;
    }
  }

  lemma PassedShowsTheSame(n: Node, m: Node, count: nat)
    requires Passed(n, m, count)
    ensures NodeItems(m) == NodeItems(n) && IsRun(m) == IsRun(n)
  {
    if n.Elem? && IsRun(n) {
      SameKidsShowTheSame(Format(n), n.children, m.children);
    } else if n.Elem? {
      assert ElemItems(None, m) == ElemItems(None, n);
    }
    hide ElemItems, NoRuns, InRun, SameKids, TotalNode, DoneNode, Properties;
  }

  /** Where every node passed, the list shows the same. */
  lemma {:induction false} ListPassed(cs: seq<Node>, ds: seq<Node>, count: nat)
    requires AllPassed(cs, ds, count)
    ensures Items(ds) == Items(cs) && Total(ds) + count == Total(cs) && DoneAll(ds) && |cs| == |ds|
    ensures forall k :: 0 <= k < |cs| ==> IsRun(cs[k]) == IsRun(ds[k])
    ensures Asides(ds) == Asides(cs) && (NoRunsIn(ds) <==> NoRunsIn(cs))
  {
    if cs != [] {
      var k: nat :| k <= count && Passed(cs[0], ds[0], k) && AllPassed(cs[1..], ds[1..], count - k);
      ListPassed(cs[1..], ds[1..], count - k);
      PassedShowsTheSame(cs[0], ds[0], k);
      hide NodeItems, TotalNode, DoneNode, IsRun, SameKids, SameItems, NoRuns;
      forall i | 0 <= i < |cs| ensures IsRun(cs[i]) == IsRun(ds[i]) {
        if i > 0 {
          assert cs[i] == cs[1..][i - 1] && ds[i] == ds[1..][i - 1];
        }
      }
    }
  }

  lemma KidPassed(n: Node, m: Node, count: nat)
    requires KidOk(n) && Passed(n, m, count)
    ensures SameKid(n, m)
    ensures n.Elem? && IsLeaf(n) ==> m == n && count == 0
    ensures n.Elem? && !IsLeaf(n) ==>
              m.Elem? && !IsLeaf(m) && Total(m.children) + count == Total(n.children) && Stable(m.children) && DoneAll(m.children)
    ensures !n.Elem? ==> !m.Elem? && count == 0
  {
    hide SameItems, Total, Stable, DoneAll, NoRuns, Plain;
  }

  /** Where every child of a run passed, the run did. */
  lemma {:induction false} RunPassed(cs: seq<Node>, ds: seq<Node>, count: nat)
    requires RunOk(cs) && AllPassed(cs, ds, count)
    ensures SameKids(cs, ds) && TotalInRun(ds) + count == TotalInRun(cs) && DoneInRun(ds)
  {
    if cs != [] {
      var k: nat :| k <= count && Passed(cs[0], ds[0], k) && AllPassed(cs[1..], ds[1..], count - k);
      RunPassed(cs[1..], ds[1..], count - k);
      KidPassed(cs[0], ds[0], k);
      hide Passed, KidOk, SameKid, Total, Stable, DoneAll, IsLeaf;
    }
  }

  lemma {:induction false} KidsArePlain(cs: seq<Node>, ds: seq<Node>)
    requires RunOk(cs) && SameKids(cs, ds)
    ensures |cs| == |ds| && PlainTexts(ds) && forall k :: 0 <= k < |ds| ==> !IsRun(ds[k])
  {
    if cs != [] {
      KidsArePlain(cs[1..], ds[1..]);
      assert forall k :: 0 < k < |ds| ==> ds[k] == ds[1..][k - 1];
      assert IsText(ds[0]) ==> Plain(ds[0]);
      hide Plain, SameItems, NoRuns;
    }
  }

  lemma {:induction false} RunsArePlain(cs: seq<Node>, ds: seq<Node>, count: nat)
    requires StandardAll(cs) && AllPassed(cs, ds, count)
    ensures PlainRuns(ds)
  {
    if cs != [] {
      var k: nat :| k <= count && Passed(cs[0], ds[0], k) && AllPassed(cs[1..], ds[1..], count - k);
      RunsArePlain(cs[1..], ds[1..], count - k);
      if cs[0].Elem? && IsRun(cs[0]) {
        KidsArePlain(cs[0].children, ds[0].children);
      }
      hide PlainTexts, SameItems, SameKids, RunOk, TotalNode, DoneNode, NoRuns;
      assert forall i :: 0 < i < |ds| ==> ds[i] == ds[1..][i - 1];
    }
  }

  lemma {:induction false} NoRunBelow(cs: seq<Node>)
    ensures NoRunsIn(cs) || RunOk(cs) ==> !HasRun(cs)
  {
    if cs != [] {
      NoRunBelow(cs[1..]);
      hide Plain, IsLeaf;
      assert NoRunsIn(cs) ==> NoRuns(cs[0]);
      assert RunOk(cs) ==> KidOk(cs[0]);
      forall k | 0 <= k < |cs| && (NoRunsIn(cs) || RunOk(cs)) ensures !IsRun(cs[k]) {
        assert k > 0 ==> cs[k] == cs[1..][k - 1];
      }
    }
  }

  lemma WithoutRunsIsStable(cs: seq<Node>)
    requires !HasRun(cs)
    ensures Stable(cs)
  {
  }

  lemma ChildrenDecideItems(n: Node, cs: seq<Node>)
    requires n.Elem? && (NoRunsIn(cs) <==> NoRunsIn(n.children)) && (NoRunsIn(n.children) ==> cs == n.children)
    requires Items(cs) == Items(n.children) && Asides(cs) == Asides(n.children)
    ensures SameItems(n, n.(children := cs))
  {
    hide NoRunsIn, Items, Asides;
  }

  lemma NoRunsOf(n: Node)
    ensures n.Elem? ==> (NoRuns(n) <==> !IsRun(n) && NoRunsIn(n.children))
  {
    hide NoRunsIn;
  }

  /** A run passes with its children; it is no container. */
  lemma RunNodePassed(n: Node, ds: seq<Node>, below: nat)
    requires n.Elem? && IsRun(n) && RunOk(n.children) && AllPassed(n.children, ds, below)
    ensures !HasRun(ds) && Passed(n, n.(children := ds), below)
  {
    hide RunOk, AllPassed, SameKids, TotalInRun, DoneInRun, NoRuns;
    ListPassed(n.children, ds, below);
    NoRunBelow(n.children);
    RunPassed(n.children, ds, below);
    NoRunsOf(n);
    NoRunsOf(n.(children := ds));
  }

  /** Any other element passes if what became of its children shows the same, and is done. */
  lemma ElemNodePassed(n: Node, cs: seq<Node>, count: nat)
    requires n.Elem? && !IsRun(n) && (NoRunsIn(cs) <==> NoRunsIn(n.children)) && (NoRunsIn(n.children) ==> cs == n.children)
    requires Items(cs) == Items(n.children) && Asides(cs) == Asides(n.children)
    requires Total(cs) + count == Total(n.children) && Stable(cs) && DoneAll(cs)
    ensures Passed(n, n.(children := cs), count)
  {
    ChildrenDecideItems(n, cs);
    NoRunsOf(n);
    NoRunsOf(n.(children := cs));
    hide SameItems, NoRuns, NoRunsIn, Items, Asides, Total, Stable, DoneAll, SameKids;
  }

  /** What is to be shown of one node: its children `ds` passed, and `cs` is what became of them. */
  lemma NodePassed(n: Node, ds: seq<Node>, below: nat, cs: seq<Node>, merged: nat)
    requires n.Elem? && Standard(n) && AllPassed(n.children, ds, below) && (NoRuns(n) ==> ds == n.children)
    requires if HasRun(ds) then MergedBy(cs, ds, merged) && SameShown(cs, ds) && Stable(cs) && HasRun(cs) else cs == ds && merged == 0
    ensures Passed(n, n.(children := cs), below + merged)
  {
    if IsRun(n) {
      RunNodePassed(n, ds, below);
    } else {
      ListPassed(n.children, ds, below);
      NoRunBelow(n.children);
      NoRunBelow(ds);
      NoRunBelow(cs);
      NoRunsOf(n);
      hide Passed, AllPassed, NoRunsIn, Items, Asides, Total, Stable, DoneAll, StandardAll, MergedBy, Flatten, PlainRuns, NoRuns;
      if HasRun(ds) {
        RunsArePlain(n.children, ds, below);
        ContainerKeeps(cs, ds, merged);
      } else {
        WithoutRunsIsStable(ds);
      }
      ElemNodePassed(n, cs, below + merged);
    }
    hide RunOk, Passed, AllPassed;
  }

  /** Merges the runs below a node, inner containers first; the parents of runs are the containers. */
  method MergeNode(n: Node) returns (m: Node, count: nat, raised: bool)
    ensures !raised ==> SameHead(n, m)
    ensures NoRuns(n) ==> m == n && count == 0 && !raised
    ensures Standard(n) ==> !raised && Passed(n, m, count)
    decreases n
  {
    m, count, raised := n, 0, false;
    if n.Elem? {
      var ds, below;
      ds, below, raised := MergeList(n.children);
      if raised {
        return;
      }
      NoRunBelow(n.children);
      var cs, merged := ds, 0;
      if HasRun(ds) {
        if Standard(n) {
          RunsArePlain(n.children, ds, below);
        }
        cs, merged, raised := MergeRunsIn(ds);
        if raised {
          return;
        }
      }
      m, count := n.(children := cs), below + merged;
      if Standard(n) {
        NodePassed(n, ds, below, cs, merged);
      }
      hide Passed, Standard, AllPassed, NoRunsIn, RunOk;
    }
  }

  lemma AddPassed(cs: seq<Node>, ds: seq<Node>, k: nat, rest: nat)
    requires cs != [] && ds != [] && Passed(cs[0], ds[0], k) && AllPassed(cs[1..], ds[1..], rest)
    ensures AllPassed(cs, ds, k + rest)
  {
    hide Passed;
    assert k + rest - k == rest;
  }

  method MergeList(cs: seq<Node>) returns (ds: seq<Node>, count: nat, raised: bool)
    ensures NoRunsIn(cs) ==> ds == cs && count == 0 && !raised
    ensures StandardAll(cs) ==> !raised && AllPassed(cs, ds, count)
    decreases cs
  {
    if cs == [] {
      return [], 0, false;
    }
    var m, k, rest, k';
    m, k, raised := MergeNode(cs[0]);
    if raised {
      return [], 0, true;
    }
    rest, k', raised := MergeList(cs[1..]);
    ds, count := [m] + rest, k + k';
    assert ds[1..] == rest && cs == [cs[0]] + cs[1..];
    if StandardAll(cs) {
      AddPassed(cs, ds, k, k');
    }
    hide Passed, Standard, NoRuns, AllPassed;
  }

  /** The whole pass over a standard document raises nothing and changes nothing that is shown; the count
      is the number of runs that disappeared, and nothing is left to merge. */
  method MergeDocument(root: Node) returns (doc: Node, count: nat, raised: bool)
    ensures Standard(root) ==>
              && !raised && SameHead(root, doc) && NodeItems(doc) == NodeItems(root)
              && count == TotalNode(root) - TotalNode(doc) && DoneNode(doc)
  {
    doc, count, raised := MergeNode(root);
    if Standard(root) {
      PassedShowsTheSame(root, doc, count);
    }
  }
}
