/** What a document with tracked changes holds, apart from the borders of the changes. */
module RedlineItems {
  import opened TaskModel
  import opened Xml
  import opened Redlines

  /** One tracked change around some content. */
  datatype Mark = Mark(kind: string, author: string)

  /** The document in reading order. Each item says in which tracked changes of its parent element it
      stands; `blanks` are the blank nodes of a container, whose place among the others can change. */
  datatype Item =
    | Plain(marks: seq<Mark>, node: Node)
    | Open(marks: seq<Mark>, tag: Tag, author: Author, attrs: seq<(string, string)>, blanks: seq<Node>)
    | Close

  /** The author a change is credited to: its w:author, or for want of one another author attribute. */
  function Credited(a: Author): string {
    match (a.w, a.fallback)
    case (Some(w), Some(f)) => if |w| > 0 then w else f
    case (Some(w), None) => w
    case (None, Some(f)) => f
    case (None, None) => ""
  }

  lemma AuthorIsCredited(n: Node)
    requires n.Elem?
    ensures GetAuthor(n) == Credited(n.author)
  {
    AuthorFromAttributes(n);
  }

  /** In a document that names its authors every mark carries the w:author. */
  lemma NamedMark(n: Node)
    requires Named(n)
    ensures Some(Credited(n.author)) == n.author.w
  {
  }

  function Items(cs: seq<Node>, marks: seq<Mark>, container: bool): seq<Item>
    decreases cs
  {
    if cs == [] then [] else NodeItems(cs[0], marks, container) + Items(cs[1..], marks, container)
  }

  function NodeItems(n: Node, marks: seq<Mark>, container: bool): seq<Item>
    decreases n
  {
    if !n.Elem? then if container && Blank(n) then [] else [Plain(marks, n)]
    else if Tracked(n) then Items(n.children, marks + [Mark(n.tag.local, Credited(n.author))], false)
    else
      var inner := IsContainer(n.tag.local);
      [Open(marks, n.tag, n.author, n.attrs, if inner then Blanks(n.children) else [])] + Items(n.children, [], inner) + [Close]
  }

  // ---------- All of it can be told from the pieces of a container ----------

  function PieceItems(p: Piece, local: string, marks: seq<Mark>): seq<Item> {
    match p
    case Inside(author, n) => NodeItems(n, marks + [Mark(local, author)], false)
    case Beside(n) => NodeItems(n, marks, true)
  }

  function Expand(ps: seq<Piece>, local: string, marks: seq<Mark>): seq<Item> {
    if ps == [] then [] else PieceItems(ps[0], local, marks) + Expand(ps[1..], local, marks)
  }

  lemma {:induction false} ExpandConcat(ps: seq<Piece>, qs: seq<Piece>, local: string, marks: seq<Mark>)
    ensures Expand(ps + qs, local, marks) == Expand(ps, local, marks) + Expand(qs, local, marks)
  {
    hide PieceItems;
    if ps == [] {
      assert ps + qs == qs;
    } else {
      assert (ps + qs)[1..] == ps[1..] + qs;
      ExpandConcat(ps[1..], qs, local, marks);
    }
  }

  lemma {:induction false} WrapIsExpanded(author: string, cs: seq<Node>, local: string, marks: seq<Mark>)
    ensures Expand(Wrap(author, cs), local, marks) == Items(cs, marks + [Mark(local, author)], false)
  {
    if cs != [] {
      WrapIsExpanded(author, cs[1..], local, marks);
      assert Wrap(author, cs)[1..] == Wrap(author, cs[1..]);
      hide NodeItems;
    }
  }

  lemma NodeIsExpanded(n: Node, local: string, marks: seq<Mark>)
    requires local == "ins" || local == "del"
    ensures Expand(Pieces(n, local), local, marks) == NodeItems(n, marks, true)
  {
    if IsElement(n, local) {
      AuthorIsCredited(n);
      WrapIsExpanded(GetAuthor(n), n.children, local, marks);
      hide Items, Expand, GetAuthor, Wrap;
    } else if !Blank(n) {
      assert [Beside(n)][1..] == [];
      hide NodeItems;
    }
  }

  lemma {:induction false} ListIsExpanded(cs: seq<Node>, local: string, marks: seq<Mark>)
    requires local == "ins" || local == "del"
    ensures Expand(Flatten(cs, local), local, marks) == Items(cs, marks, true)
  {
    if cs != [] {
      ListIsExpanded(cs[1..], local, marks);
      NodeIsExpanded(cs[0], local, marks);
      hide NodeItems, Pieces;
      ExpandConcat(Pieces(cs[0], local), Flatten(cs[1..], local), local, marks);
      hide Expand;
    }
  }

  /** So merging the changes of one container changes nothing of it but their borders. */
  lemma ContainerKeeps(cs: seq<Node>, was: seq<Node>, local: string)
    requires local == "ins" || local == "del"
    requires Flatten(cs, local) == Flatten(was, local)
    ensures forall marks :: Items(cs, marks, true) == Items(was, marks, true)
  {
    forall marks ensures Items(cs, marks, true) == Items(was, marks, true) {
      ListIsExpanded(cs, local, marks);
      ListIsExpanded(was, local, marks);
    }
  }
}
