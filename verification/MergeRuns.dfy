/** Merging adjacent runs of equal formatting inside one container, and joining their texts. */
module MergeRuns {
  import opened TaskModel
  import opened Xml

  predicate IsRun(n: Node) {
    IsElement(n, "r")
  }

  predicate HasRun(cs: seq<Node>) {
    exists k :: 0 <= k < |cs| && IsRun(cs[k])
  }

  /** The first run-properties child, if there is one. */
  function Properties(cs: seq<Node>): Option<Node> {
    if cs == [] then None
    else if IsElement(cs[0], "rPr") then Some(cs[0])
    else Properties(cs[1..])
  }

  /** The formatting of a run. */
  function Format(n: Node): Option<Node>
    requires n.Elem?
  {
    Properties(n.children)
  }

  /** Runs are merged when their properties serialise alike. */
  predicate CanMerge(x: Node, y: Node)
    requires x.Elem? && y.Elem?
  {
    Format(x) == Format(y)
  }

  /** The place of the first run-properties child. */
  predicate FirstProperties(cs: seq<Node>, k: int) {
    0 <= k < |cs| && IsProperties(cs[k]) && forall i :: 0 <= i < k ==> !IsProperties(cs[i])
  }

  predicate IsProperties(n: Node) {
    n.Elem? && n.tag.local == "rPr"
  }

  /** Runs that look alike: neither has a run-properties child, or their first ones are equal. */
  ghost predicate Alike(x: Node, y: Node) {
    && x.Elem? && y.Elem?
    && (|| (forall n <- x.children + y.children :: !IsProperties(n))
        || exists i, j :: FirstProperties(x.children, i) && FirstProperties(y.children, j) && x.children[i] == y.children[j])
  }

  lemma {:induction false} PropertiesAreFirst(cs: seq<Node>)
    ensures Properties(cs).None? <==> forall k :: 0 <= k < |cs| ==> !IsProperties(cs[k])
    ensures forall k :: FirstProperties(cs, k) ==> Properties(cs) == Some(cs[k])
    ensures Properties(cs).Some? ==> exists k :: FirstProperties(cs, k)
  {
    if cs != [] {
      PropertiesAreFirst(cs[1..]);
      assert forall k :: 0 < k < |cs| ==> cs[k] == cs[1..][k - 1];
      if IsProperties(cs[0]) {
        assert FirstProperties(cs, 0);
      } else {
        assert forall k :: FirstProperties(cs, k) ==> FirstProperties(cs[1..], k - 1);
        assert forall k :: FirstProperties(cs[1..], k) ==> FirstProperties(cs, k + 1);
      }
    }
  }

  /** Exactly the runs that look alike are merged. */
  lemma CanMergeIff(x: Node, y: Node)
    requires x.Elem? && y.Elem?
    ensures CanMerge(x, y) <==> Alike(x, y)
  {
    PropertiesAreFirst(x.children);
    PropertiesAreFirst(y.children);
    assert (forall n <- x.children + y.children :: !IsProperties(n)) <==>
             (forall k :: 0 <= k < |x.children| ==> !IsProperties(x.children[k])) &&
             (forall k :: 0 <= k < |y.children| ==> !IsProperties(y.children[k]));
    hide Properties, FirstProperties, IsProperties;
    if CanMerge(x, y) && Properties(x.children).Some? {
      var i :| FirstProperties(x.children, i);
      var j :| FirstProperties(y.children, j);
    }
  }

  // ---------- Content ----------

  /** The text of a w:t element: its text nodes one after the other. */
  function TextOf(t: Node): string
    requires t.Elem?
  {
    Texts(t.children)
  }

  function Texts(cs: seq<Node>): string {
    if cs == [] then "" else (if cs[0].Text? then cs[0].data else "") + Texts(cs[1..])
  }

  /** What a reader of the container sees: characters and other objects with their formatting, and
      between them the elements that are no runs. */
  datatype Piece =
    | Char(format: Option<Node>, c: char)
    | Object(format: Option<Node>, node: Node)
    | Barrier(node: Node)

  function Chars(format: Option<Node>, s: string): seq<Piece> {
    seq(|s|, i requires 0 <= i < |s| => Char(format, s[i]))
  }

  function ChildPieces(format: Option<Node>, n: Node): seq<Piece> {
    if !n.Elem? || IsElement(n, "rPr") then []
    else if IsElement(n, "t") then Chars(format, TextOf(n))
    else [Object(format, n)]
  }

  function RunPieces(format: Option<Node>, cs: seq<Node>): seq<Piece> {
    if cs == [] then [] else ChildPieces(format, cs[0]) + RunPieces(format, cs[1..])
  }

  function NodePieces(n: Node): seq<Piece> {
    if !n.Elem? then []
    else if IsRun(n) then RunPieces(Format(n), n.children)
    else [Barrier(n)]
  }

  function Flatten(cs: seq<Node>): seq<Piece> {
    if cs == [] then [] else NodePieces(cs[0]) + Flatten(cs[1..])
  }

  /** The nodes that are no runs, blanks and comments included. */
  function Others(cs: seq<Node>): seq<Node> {
    if cs == [] then [] else (if IsRun(cs[0]) then [] else [cs[0]]) + Others(cs[1..])
  }

  function RunCount(cs: seq<Node>): nat {
    if cs == [] then 0 else (if IsRun(cs[0]) then 1 else 0) + RunCount(cs[1..])
  }

  lemma {:induction false} RunPiecesConcat(format: Option<Node>, cs: seq<Node>, ds: seq<Node>)
    ensures RunPieces(format, cs + ds) == RunPieces(format, cs) + RunPieces(format, ds)
  {
    if cs == [] {
      assert cs + ds == ds;
    } else {
      assert (cs + ds)[1..] == cs[1..] + ds;
      RunPiecesConcat(format, cs[1..], ds);
      hide ChildPieces;
    }
  }

  lemma FlattenConcat(cs: seq<Node>, ds: seq<Node>)
    ensures Flatten(cs + ds) == Flatten(cs) + Flatten(ds)
    ensures RunCount(cs + ds) == RunCount(cs) + RunCount(ds)
    ensures Others(cs + ds) == Others(cs) + Others(ds)
  {
    PiecesConcat(cs, ds);
    CountsConcat(cs, ds);
  }

  lemma {:induction false} PiecesConcat(cs: seq<Node>, ds: seq<Node>)
    ensures Flatten(cs + ds) == Flatten(cs) + Flatten(ds)
  {
    if cs == [] {
      assert cs + ds == ds;
    } else {
      hide NodePieces;
      assert (cs + ds)[1..] == cs[1..] + ds;
      PiecesConcat(cs[1..], ds);
    }
  }

  lemma {:induction false} CountsConcat(cs: seq<Node>, ds: seq<Node>)
    ensures RunCount(cs + ds) == RunCount(cs) + RunCount(ds)
    ensures Others(cs + ds) == Others(cs) + Others(ds)
  {
    if cs == [] {
      assert cs + ds == ds;
    } else {
      hide IsRun;
      assert (cs + ds)[1..] == cs[1..] + ds;
      CountsConcat(cs[1..], ds);
    }
  }

  lemma FlattenHead(n: Node, rest: seq<Node>)
    ensures Flatten([n] + rest) == NodePieces(n) + Flatten(rest)
    ensures RunCount([n] + rest) == (if IsRun(n) then 1 else 0) + RunCount(rest)
    ensures Others([n] + rest) == (if IsRun(n) then [] else [n]) + Others(rest)
  {
    assert ([n] + rest)[1..] == rest;
  }

  lemma {:induction false} PropertiesConcat(cs: seq<Node>, ds: seq<Node>)
    ensures Properties(cs + ds) == if Properties(cs).Some? then Properties(cs) else Properties(ds)
  {
    if cs == [] {
      assert cs + ds == ds;
    } else {
      assert (cs + ds)[1..] == cs[1..] + ds;
      PropertiesConcat(cs[1..], ds);
    }
  }

  // ---------- Moving content ----------

  /** The children that move: elements other than run properties. */
  function Movable(cs: seq<Node>): seq<Node> {
    if cs == [] then [] else (if cs[0].Elem? && !IsElement(cs[0], "rPr") then [cs[0]] else []) + Movable(cs[1..])
  }

  lemma {:induction false} MovableFacts(format: Option<Node>, cs: seq<Node>)
    ensures Properties(Movable(cs)) == None
    ensures RunPieces(format, Movable(cs)) == RunPieces(format, cs)
    ensures forall n <- Movable(cs) :: n in cs
  {
    if cs != [] {
      MovableFacts(format, cs[1..]);
      var head := if cs[0].Elem? && !IsElement(cs[0], "rPr") then [cs[0]] else [];
      PropertiesConcat(head, Movable(cs[1..]));
      RunPiecesConcat(format, head, Movable(cs[1..]));
      assert RunPieces(format, head) == ChildPieces(format, cs[0]) by {
        if head != [] {
          assert head[1..] == [];
        }
      }
      hide ChildPieces;
    }
  }

  method MergeRunContent(target: Node, source: Node) returns (m: Node)
    requires IsRun(target) && IsRun(source)
    ensures m == target.(children := target.children + Movable(source.children))
  {
    m := target;
    var k := 0;
    while k < |source.children|
      invariant 0 <= k <= |source.children|
      invariant m.Elem? && m == target.(children := m.children)
      invariant m.children + Movable(source.children[k..]) == target.children + Movable(source.children)
    {
      var child := source.children[k];
      assert source.children[k..][1..] == source.children[k + 1..];
      if child.Elem? && !IsElement(child, "rPr") {
        m := m.(children := m.children + [child]);
      }
      k := k + 1;
    }
  }

  /** The merged run shows the content of both, in the formatting they share. */
  lemma MergedRunShowsBoth(x: Node, y: Node)
    requires IsRun(x) && IsRun(y) && CanMerge(x, y)
    ensures var m := x.(children := x.children + Movable(y.children));
            IsRun(m) && Format(m) == Format(x) && NodePieces(m) == NodePieces(x) + NodePieces(y)
  {
    MovableFacts(Format(x), y.children);
    PropertiesConcat(x.children, Movable(y.children));
    RunPiecesConcat(Format(x), x.children, Movable(y.children));
    hide RunPieces, Properties;
  }

  // ---------- Joining texts ----------

  predicate IsText(n: Node) {
    IsElement(n, "t")
  }

  /** The first child has data to read: an element has none, and asking for it raises an error. */
  predicate Readable(t: Node) {
    t.Elem? && (t.children == [] || !t.children[0].Elem?)
  }

  /** The data of the first child. */
  function FirstData(t: Node): string
    requires Readable(t)
  {
    if t.children == [] then "" else t.children[0].data
  }

  /** A text element as the schema has it: nothing, or one text node, perhaps followed by comments. */
  predicate Plain(t: Node) {
    t.Elem? && (t.children == [] || (t.children[0].Text? && forall k :: 1 <= k < |t.children| ==> t.children[k].Comment?))
  }

  predicate PlainTexts(cs: seq<Node>) {
    forall k :: 0 <= k < |cs| && IsText(cs[k]) ==> Plain(cs[k])
  }

  /** No two text elements with only blanks between them, at or after place `from`. */
  ghost predicate JoinedFrom(cs: seq<Node>, from: int) {
    forall u, v :: from <= u < v < |cs| && 0 <= u && IsText(cs[u]) && IsText(cs[v]) ==> !BlankBetween(cs, u, v)
  }

  /** The data of the first child of `y` goes behind that of the first child of `x`. */
  function JoinTexts(x: Node, y: Node): Node
    requires Readable(x) && Readable(y)
  {
    var joined := FirstData(x) + FirstData(y);
    x.(children := if x.children == [] then [Text(joined)] else [x.children[0].(data := joined)] + x.children[1..])
  }

  lemma {:induction false} NoTexts(cs: seq<Node>)
    requires forall k :: 0 <= k < |cs| ==> !cs[k].Text?
    ensures Texts(cs) == ""
  {
    if cs != [] {
      NoTexts(cs[1..]);
    }
  }

  lemma PlainText(t: Node)
    requires Plain(t)
    ensures Readable(t) && TextOf(t) == FirstData(t)
  {
    if t.children != [] {
      NoTexts(t.children[1..]);
    }
  }

  lemma JoinedText(x: Node, y: Node)
    requires Plain(x) && Plain(y)
    ensures Readable(x) && Readable(y) && Plain(JoinTexts(x, y)) && TextOf(JoinTexts(x, y)) == TextOf(x) + TextOf(y)
  {
    PlainText(x);
    PlainText(y);
    PlainText(JoinTexts(x, y));
    hide Texts;
  }

  // ---------- When a join keeps the text ----------

  /** The same element with other data in its text nodes and comments. */
  function Filled(t: Node, data: nat -> string): Node
    requires t.Elem?
  {
    t.(children := seq(|t.children|, k requires 0 <= k < |t.children| =>
                         if t.children[k].Elem? then t.children[k] else t.children[k].(data := data(k))))
  }

  /** No text node behind the first child. */
  predicate NoMoreText(t: Node) {
    t.Elem? && forall k :: 1 <= k < |t.children| ==> !t.children[k].Text?
  }

  predicate StartsWithText(t: Node) {
    t.Elem? && t.children != [] && t.children[0].Text?
  }

  /** The source brings nothing, or its only text node meets nothing or an only text node, or comments
      meet that hide no text. */
  predicate JoinsWell(x: Node, y: Node) {
    && x.Elem? && y.Elem?
    && (|| y.children == []
        || (StartsWithText(y) && NoMoreText(y) && (x.children == [] || (StartsWithText(x) && NoMoreText(x))))
        || (x.children != [] && !StartsWithText(x) && !StartsWithText(y) && NoMoreText(y)))
  }

  function Only(m: nat, w: string): nat -> string {
    (k: nat) => if k == m then w else ""
  }

  lemma {:induction false} OnlyText(cs: seq<Node>, m: nat, w: string)
    requires forall k :: 0 <= k < |cs| && cs[k].Text? ==> cs[k].data == if k == m then w else ""
    ensures Texts(cs) == if m < |cs| && cs[m].Text? then w else ""
  {
    if cs != [] {
      if m == 0 {
        OnlyText(cs[1..], |cs|, w);
      } else {
        OnlyText(cs[1..], m - 1, w);
      }
    }
  }

  /** The text behind the first child. */
  function Rest(t: Node): string
    requires t.Elem?
  {
    if t.children == [] then "" else Texts(t.children[1..])
  }

  lemma TextSplit(t: Node)
    requires Readable(t)
    ensures TextOf(t) == (if StartsWithText(t) then FirstData(t) else "") + Rest(t)
    ensures NoMoreText(t) ==> Rest(t) == ""
    ensures t.children == [] ==> Rest(t) == "" && FirstData(t) == "" && !StartsWithText(t)
  {
    if NoMoreText(t) && t.children != [] {
      NoTexts(t.children[1..]);
    }
  }

  lemma JoinedShape(x: Node, y: Node)
    requires Readable(x) && Readable(y)
    ensures TextOf(JoinTexts(x, y)) ==
              if x.children == [] then FirstData(y)
              else (if StartsWithText(x) then FirstData(x) + FirstData(y) else "") + Rest(x)
  {
    var j := JoinTexts(x, y);
    TextSplit(j);
    if x.children == [] {
      assert Rest(j) == "";
    } else {
      assert j.children[1..] == x.children[1..];
    }
    hide Texts, TextOf;
  }

  lemma WellJoined(x: Node, y: Node)
    requires Readable(x) && Readable(y) && JoinsWell(x, y)
    ensures TextOf(JoinTexts(x, y)) == TextOf(x) + TextOf(y)
  {
    hide Texts, TextOf, Rest, NoMoreText, JoinTexts, FirstData, StartsWithText;
    JoinedShape(x, y);
    TextSplit(x);
    TextSplit(y);
  }

  lemma FilledShape(t: Node, m: nat, w: string)
    requires Readable(t)
    ensures var f := Filled(t, Only(m, w));
            && Readable(f) && (f.children == [] <==> t.children == []) && (StartsWithText(f) <==> StartsWithText(t))
            && FirstData(f) == (if t.children != [] && m == 0 then w else "")
            && Rest(f) == (if 1 <= m < |t.children| && t.children[m].Text? then w else "")
  {
    var f := Filled(t, Only(m, w));
    if t.children != [] {
      OnlyText(f.children[1..], if m == 0 then |t.children| else m - 1, w);
    }
    hide Texts;
  }

  /** Otherwise there are data for which text is lost, moved, or made from a comment. */
  lemma BadlyJoined(x: Node, y: Node) returns (p: nat -> string, q: nat -> string)
    requires Readable(x) && Readable(y) && !JoinsWell(x, y)
    ensures Readable(Filled(x, p)) && Readable(Filled(y, q))
    ensures TextOf(JoinTexts(Filled(x, p), Filled(y, q))) != TextOf(Filled(x, p)) + TextOf(Filled(y, q))
  {
    var m, n := 0, 0;
    if !NoMoreText(y) {
      n :| 1 <= n < |y.children| && y.children[n].Text?;
    } else if StartsWithText(x) && StartsWithText(y) {
      m :| 1 <= m < |x.children| && x.children[m].Text?;
    }
    p, q := Only(m, if m == 0 then "" else "a"), Only(n, "b");
    FilledShape(x, m, if m == 0 then "" else "a");
    FilledShape(y, n, "b");
    var x', y' := Filled(x, p), Filled(y, q);
    hide Filled, Texts, TextOf, Rest, JoinTexts, FirstData, Readable;
    JoinedShape(x', y');
    TextSplit(x');
    TextSplit(y');
  }

  /** Joining two text elements keeps their text, whatever their nodes say, exactly if they join well.
      Of several text nodes the code reads and keeps the first one only. */
  lemma JoinKeepsTextIff(x: Node, y: Node)
    requires Readable(x) && Readable(y)
    ensures JoinsWell(x, y) <==> forall p, q :: TextOf(JoinTexts(Filled(x, p), Filled(y, q))) == TextOf(Filled(x, p)) + TextOf(Filled(y, q))
  {
    if JoinsWell(x, y) {
      forall p, q ensures TextOf(JoinTexts(Filled(x, p), Filled(y, q))) == TextOf(Filled(x, p)) + TextOf(Filled(y, q)) {
        WellJoined(Filled(x, p), Filled(y, q));
      }
    } else {
      var p, q := BadlyJoined(x, y);
    }
  }

  // ---------- Joining in place ----------

  /** The children after text `b` went into text `a`. */
  function JoinAt(cs: seq<Node>, a: int, b: int): seq<Node>
    requires 0 <= a < b < |cs| && Readable(cs[a]) && Readable(cs[b])
  {
    cs[..a] + [JoinTexts(cs[a], cs[b])] + cs[a + 1..b] + cs[b + 1..]
  }

  lemma CharsConcat(format: Option<Node>, s: string, t: string)
    ensures Chars(format, s + t) == Chars(format, s) + Chars(format, t)
  {
  }

  lemma {:induction false} BlankPieces(format: Option<Node>, cs: seq<Node>)
    requires forall k :: 0 <= k < |cs| ==> Blank(cs[k])
    ensures RunPieces(format, cs) == [] && Properties(cs) == None
  {
    if cs != [] {
      BlankPieces(format, cs[1..]);
    }
  }

  lemma RunPiecesHead(format: Option<Node>, n: Node, rest: seq<Node>)
    ensures RunPieces(format, [n] + rest) == ChildPieces(format, n) + RunPieces(format, rest)
    ensures Properties([n] + rest) == if IsElement(n, "rPr") then Some(n) else Properties(rest)
  {
    assert ([n] + rest)[1..] == rest;
  }

  lemma JoinSplit(cs: seq<Node>, a: int, b: int)
    requires 0 <= a < b < |cs| && Readable(cs[a]) && Readable(cs[b])
    ensures cs == cs[..a] + ([cs[a]] + (cs[a + 1..b] + ([cs[b]] + cs[b + 1..])))
    ensures JoinAt(cs, a, b) == cs[..a] + ([JoinTexts(cs[a], cs[b])] + (cs[a + 1..b] + cs[b + 1..]))
  {
  }

  /** Joining two adjacent texts changes no character and no formatting. */
  lemma JoinKeepsPieces(format: Option<Node>, cs: seq<Node>, a: int, b: int)
    requires 0 <= a < b < |cs| && IsText(cs[a]) && IsText(cs[b]) && BlankBetween(cs, a, b)
    requires Readable(cs[a]) && Readable(cs[b])
    ensures Properties(JoinAt(cs, a, b)) == Properties(cs)
    ensures Plain(cs[a]) && Plain(cs[b]) ==> RunPieces(format, JoinAt(cs, a, b)) == RunPieces(format, cs)
  {
    var before, mid, after, x, y := cs[..a], cs[a + 1..b], cs[b + 1..], cs[a], cs[b];
    BlankPieces(format, mid);
    hide RunPieces, Properties;
    JoinSplit(cs, a, b);
    hide JoinAt;
    JoinTail(format, x, y, mid, after);
    var j := JoinTexts(x, y);
    hide JoinTexts, BlankBetween, IsElement, Plain;
    RunPiecesConcat(format, before, [x] + (mid + ([y] + after)));
    RunPiecesConcat(format, before, [j] + (mid + after));
    PropertiesConcat(before, [x] + (mid + ([y] + after)));
    PropertiesConcat(before, [j] + (mid + after));
  }

  lemma JoinedTextPieces(format: Option<Node>, x: Node, y: Node)
    requires IsText(x) && IsText(y) && Readable(x) && Readable(y)
    ensures Plain(x) && Plain(y) ==> ChildPieces(format, JoinTexts(x, y)) == ChildPieces(format, x) + ChildPieces(format, y)
    ensures !IsElement(x, "rPr") && !IsElement(y, "rPr") && !IsElement(JoinTexts(x, y), "rPr")
  {
    if Plain(x) && Plain(y) {
      JoinedText(x, y);
      CharsConcat(format, TextOf(x), TextOf(y));
      hide TextOf, Chars, Plain, Readable;
    }
  }

  lemma JoinTail(format: Option<Node>, x: Node, y: Node, mid: seq<Node>, after: seq<Node>)
    requires IsText(x) && IsText(y) && RunPieces(format, mid) == [] && Properties(mid) == None
    requires Readable(x) && Readable(y)
    ensures Plain(x) && Plain(y) ==>
              RunPieces(format, [JoinTexts(x, y)] + (mid + after)) == RunPieces(format, [x] + (mid + ([y] + after)))
    ensures Properties([JoinTexts(x, y)] + (mid + after)) == Properties([x] + (mid + ([y] + after)))
  {
    var j := JoinTexts(x, y);
    JoinedTextPieces(format, x, y);
    hide IsText, RunPieces, Properties, ChildPieces, Chars, JoinTexts, IsElement, Plain, Readable;
    SkipEmpty(format, mid, [y] + after);
    SkipEmpty(format, mid, after);
    RunPiecesHead(format, x, mid + ([y] + after));
    RunPiecesHead(format, y, after);
    RunPiecesHead(format, j, mid + after);
    Regroup(ChildPieces(format, x), ChildPieces(format, y), RunPieces(format, after));
  }

  lemma Regroup(a: seq<Piece>, b: seq<Piece>, c: seq<Piece>)
    ensures a + (b + c) == (a + b) + c
  {
  }

  lemma SkipEmpty(format: Option<Node>, mid: seq<Node>, after: seq<Node>)
    requires RunPieces(format, mid) == [] && Properties(mid) == None
    ensures RunPieces(format, mid + after) == RunPieces(format, after)
    ensures Properties(mid + after) == Properties(after)
  {
    hide RunPieces, Properties;
    RunPiecesConcat(format, mid, after);
    PropertiesConcat(mid, after);
  }

  /** Text `a` is the last one before text `b`. */
  predicate NoTextBetween(cs: seq<Node>, a: int, b: int) {
    forall k :: a < k < b && 0 <= k < |cs| ==> !IsText(cs[k])
  }

  lemma KeepApart(cs: seq<Node>, a: int, b: int)
    requires 0 <= a < b < |cs| && IsText(cs[a]) && IsText(cs[b]) && NoTextBetween(cs, a, b)
    requires JoinedFrom(cs, b) && !BlankBetween(cs, a, b)
    ensures JoinedFrom(cs, a)
  {
    forall u, v | a <= u < v < |cs| && IsText(cs[u]) && IsText(cs[v]) ensures !BlankBetween(cs, u, v) {
      if u == a {
        var k :| a < k < b && !Blank(cs[k]);
        assert v >= b;
      } else {
        assert u >= b;
      }
    }
  }

  lemma JoinFrom(cs: seq<Node>, a: int, b: int)
    requires 0 <= a < b < |cs| && IsText(cs[a]) && IsText(cs[b]) && NoTextBetween(cs, a, b)
    requires JoinedFrom(cs, b) && Readable(cs[a]) && Readable(cs[b])
    ensures JoinedFrom(JoinAt(cs, a, b), a)
    ensures PlainTexts(cs) ==> PlainTexts(JoinAt(cs, a, b))
  {
    var ds := JoinAt(cs, a, b);
    JoinPlaces(cs, a, b);
    hide JoinAt;
    if PlainTexts(cs) {
      JoinedText(cs[a], cs[b]);
      forall k | 0 <= k < |ds| && IsText(ds[k]) ensures Plain(ds[k]) {
        assert ds[k] == if k == a then JoinTexts(cs[a], cs[b]) else if k < b then cs[k] else cs[k + 1];
        hide JoinTexts, Plain;
      }
    }
    hide Plain;
    forall u, v | a <= u < v < |ds| && IsText(ds[u]) && IsText(ds[v]) ensures !BlankBetween(ds, u, v) {
      assert v >= b;
      assert u == a || u >= b;
      var u' := if u == a then b else u + 1;
      assert !BlankBetween(cs, u', v + 1);
      var k :| u' < k < v + 1 && !Blank(cs[k]);
      assert ds[k - 1] == cs[k];
    }
  }

  lemma JoinPlaces(cs: seq<Node>, a: int, b: int)
    requires 0 <= a < b < |cs| && Readable(cs[a]) && Readable(cs[b])
    ensures var ds := JoinAt(cs, a, b);
            && |ds| == |cs| - 1 && ds[a] == JoinTexts(cs[a], cs[b]) && ds[..a] == cs[..a]
            && forall k {:trigger ds[k]} :: 0 <= k < |ds| && k != a ==> ds[k] == if k < b then cs[k] else cs[k + 1]
  {
  }

  /** The sibling scan of _is_adjacent. */
  method IsAdjacent(cs: seq<Node>, a: nat, b: nat) returns (r: bool)
    requires a < b < |cs|
    ensures r == BlankBetween(cs, a, b)
  {
    var k := a + 1;
    while k != b
      invariant a < k <= b && forall m :: a < m < k ==> Blank(cs[m])
      decreases b - k
    {
      if !Blank(cs[k]) {
        return false;
      }
      k := k + 1;
    }
    return true;
  }

  /** The texts of `cs` after place `p` are joined, and nothing before it has changed. */
  ghost predicate JoinedAfter(cs: seq<Node>, run: seq<Node>, p: nat) {
    && p < |cs| && p < |run| && cs[..p] == run[..p]
    && IsText(cs[p]) && JoinedFrom(cs, p) && (Readable(cs[p]) <==> Readable(run[p]))
  }

  /** Equal formatting, and equal content in every formatting if the texts are plain. */
  ghost predicate SameContent(cs: seq<Node>, run: seq<Node>) {
    && Properties(cs) == Properties(run)
    && (PlainTexts(run) ==> PlainTexts(cs) && forall format :: RunPieces(format, cs) == RunPieces(format, run))
  }

  /** Adjacent texts one of which cannot be read. */
  ghost predicate RaisesFrom(run: seq<Node>, p: int) {
    exists u, v :: p <= u < v < |run| && 0 <= u && IsText(run[u]) && IsText(run[v]) && BlankBetween(run, u, v)
                   && (StartsWithElement(run[u]) || StartsWithElement(run[v]))
  }

  predicate StartsWithElement(t: Node) {
    t.Elem? && t.children != [] && t.children[0].Elem?
  }

  lemma RaisesAt(cs: seq<Node>, run: seq<Node>, a: int, b: nat)
    requires 0 <= a < b && JoinedAfter(cs, run, b) && IsText(run[a]) && IsText(run[b]) && NoTextBetween(run, a, b) && !RaisesFrom(run, b)
    ensures cs[a] == run[a] && (BlankBetween(cs, a, b) <==> BlankBetween(run, a, b))
    ensures RaisesFrom(run, a) <==> BlankBetween(cs, a, b) && !(Readable(cs[a]) && Readable(cs[b]))
  {
    assert forall n: Node :: n.Elem? ==> (StartsWithElement(n) <==> !Readable(n));
    hide JoinedFrom, Readable, StartsWithElement, Blank;
    assert forall k :: 0 <= k < b ==> cs[k] == cs[..b][k] == run[..b][k] == run[k];
    if RaisesFrom(run, a) {
      var u, v :| a <= u < v < |run| && IsText(run[u]) && IsText(run[v]) && BlankBetween(run, u, v) && (StartsWithElement(run[u]) || StartsWithElement(run[v]));
      assert u == a || u >= b;
      NotBlank(run[b]);
      assert u == a ==> v <= b;
    }
  }

  lemma NotBlank(n: Node)
    ensures IsText(n) ==> !Blank(n)
  {
  }

  lemma TextPlaces(run: seq<Node>, places: seq<nat>)
    requires IsPlaceList(Flags(run, "t"), places)
    ensures forall p :: 0 <= p < |places| ==> places[p] < |run| && IsText(run[places[p]])
    ensures forall k :: 0 <= k < |run| && IsText(run[k]) ==> k in places
  {
    assert |Flags(run, "t")| == |run|;
    forall k | 0 <= k < |run| && IsText(run[k]) ensures k in places {
      assert Flags(run, "t")[k];
    }
    forall p | 0 <= p < |places| ensures places[p] < |run| && IsText(run[places[p]]) {
      assert Flags(run, "t")[places[p]];
    }
  }

  lemma PlacesInOrder(run: seq<Node>, places: seq<nat>)
    requires IsPlaceList(Flags(run, "t"), places)
    ensures forall p :: 1 <= p < |places| ==> places[p - 1] < places[p] && NoTextBetween(run, places[p - 1], places[p])
    ensures if places == [] then JoinedFrom(run, 0)
            else JoinedAfter(run, run, places[|places| - 1]) && NoTextBetween(run, -1, places[0])
  {
    TextPlaces(run, places);
    forall p | 1 <= p < |places| ensures NoTextBetween(run, places[p - 1], places[p]) {
      forall k | places[p - 1] < k < places[p] && 0 <= k < |run| ensures !IsText(run[k]) {
        assert forall q :: 0 <= q < |places| ==> if q < p then places[q] <= places[p - 1] else places[q] >= places[p];
        assert k !in places;
      }
    }
  }

  lemma JoinStep(run: seq<Node>, cs: seq<Node>, ds: seq<Node>, a: nat, b: nat)
    requires a < b && JoinedAfter(cs, run, b) && IsText(run[a]) && NoTextBetween(run, a, b)
    requires BlankBetween(cs, a, b) ==> Readable(cs[a]) && Readable(cs[b])
    requires ds == if BlankBetween(cs, a, b) then JoinAt(cs, a, b) else cs
    ensures JoinedAfter(ds, run, a) && SameContent(ds, cs)
    ensures cs == run && JoinedFrom(run, 0) ==> ds == cs
  {
    hide RunPieces, Properties, JoinedFrom, PlainTexts;
    assert cs[a] == cs[..b][a];
    assert NoTextBetween(cs, a, b) by {
      forall k | a < k < b && 0 <= k < |cs| ensures !IsText(cs[k]) {
        assert cs[k] == cs[..b][k] == run[k];
      }
    }
    assert cs[..a] == cs[..b][..a] == run[..a];
    if BlankBetween(cs, a, b) {
      JoinFrom(cs, a, b);
      JoinPlaces(cs, a, b);
      PlainAt(cs, a, b);
      forall format ensures PlainTexts(cs) ==> RunPieces(format, ds) == RunPieces(format, cs) {
        JoinKeepsPieces(format, cs, a, b);
      }
      JoinKeepsPieces(None, cs, a, b);
      NotJoined(cs, a, b);
    } else {
      KeepApart(cs, a, b);
    }
  }

  lemma PlainAt(cs: seq<Node>, a: int, b: int)
    requires 0 <= a < b < |cs| && IsText(cs[a]) && IsText(cs[b])
    ensures PlainTexts(cs) ==> Plain(cs[a]) && Plain(cs[b])
  {
  }

  lemma NotJoined(cs: seq<Node>, a: int, b: int)
    requires 0 <= a < b < |cs| && IsText(cs[a]) && IsText(cs[b]) && BlankBetween(cs, a, b)
    ensures !JoinedFrom(cs, 0)
  {
  }

  lemma NoTextBefore(cs: seq<Node>, run: seq<Node>, p: nat)
    requires JoinedAfter(cs, run, p) && NoTextBetween(run, -1, p)
    requires !RaisesFrom(run, p)
    ensures JoinedFrom(cs, 0) && !RaisesFrom(run, 0)
  {
    assert forall k :: 0 <= k < p ==> cs[k] == cs[..p][k] == run[..p][k] == run[k];
    hide Readable, BlankBetween;
  }

  /** Joins the adjacent texts of a run, from the last one backwards; fails exactly if two adjacent texts
      cannot both be read. */
  method ConsolidateText(run: seq<Node>) returns (cs: seq<Node>, raised: bool)
    ensures raised <==> RaisesFrom(run, 0)
    ensures !raised ==> JoinedFrom(cs, 0) && SameContent(cs, run)
    ensures JoinedFrom(run, 0) ==> !raised && cs == run
  {
    hide RunPieces, Properties, JoinedFrom, PlainTexts, IsPlaceList, RaisesFrom;
    cs, raised := run, false;
    var places := FindElements(run, "t");
    TextPlaces(run, places);
    PlacesInOrder(run, places);
    RaisesNowhere(run, places);
    var i := |places| - 1;
    while i > 0
      invariant i < |places|
      invariant if i >= 0 then JoinedAfter(cs, run, places[i]) && !RaisesFrom(run, places[i])
                else i == -1 && JoinedFrom(cs, 0) && !RaisesFrom(run, 0)
      invariant SameContent(cs, run)
      invariant JoinedFrom(run, 0) ==> cs == run
    {
      var a, b := places[i - 1], places[i];
      RaisesAt(cs, run, a, b);
      var adjacent := IsAdjacent(cs, a, b);
      ghost var was := cs;
      if adjacent {
        if !Readable(cs[a]) || !Readable(cs[b]) {
          raised := true;
          RaisesEarlier(run, a);
          return;
        }
        cs := JoinAt(cs, a, b);
      }
      JoinStep(run, was, cs, a, b);
      i := i - 1;
    }
    if i == 0 {
      NoTextBefore(cs, run, places[0]);
    }
  }

  lemma RaisesEarlier(run: seq<Node>, p: nat)
    requires RaisesFrom(run, p)
    ensures RaisesFrom(run, 0) && !JoinedFrom(run, 0)
  {
  }

  lemma RaisesNowhere(run: seq<Node>, places: seq<nat>)
    requires IsPlaceList(Flags(run, "t"), places)
    ensures if places == [] then !RaisesFrom(run, 0) else !RaisesFrom(run, places[|places| - 1])
  {
    TextPlaces(run, places);
  }

  // ---------- One container ----------

  /** Only text and comments lie between the two places. */
  predicate NoElementBetween(cs: seq<Node>, i: int, j: int) {
    forall k :: i < k < j && 0 <= k < |cs| ==> !cs[k].Elem?
  }

  /** The element after run `r` is no run of the same formatting. */
  ghost predicate Apart(cs: seq<Node>, r: nat)
    requires r < |cs| && cs[r].Elem?
  {
    forall v :: r < v < |cs| && IsRun(cs[v]) && NoElementBetween(cs, r, v) ==> !Alike(cs[r], cs[v])
  }

  /** Every run before place `r` is joined inside and apart from its successor. */
  ghost predicate DoneBefore(cs: seq<Node>, r: nat) {
    forall u :: 0 <= u < r && u < |cs| && IsRun(cs[u]) ==> Apart(cs, u) && JoinedFrom(cs[u].children, 0)
  }

  /** Nothing is left to merge. */
  ghost predicate Stable(cs: seq<Node>) {
    DoneBefore(cs, |cs|)
  }

  ghost predicate PlainRuns(cs: seq<Node>) {
    forall k :: 0 <= k < |cs| && IsRun(cs[k]) ==> PlainTexts(cs[k].children)
  }

  /** The same other nodes, and `merged` runs fewer. */
  ghost predicate MergedBy(cs: seq<Node>, was: seq<Node>, merged: nat) {
    Others(cs) == Others(was) && RunCount(cs) + merged == RunCount(was)
  }

  /** The same content with the same formatting, if all texts are plain. */
  ghost predicate SameShown(cs: seq<Node>, was: seq<Node>) {
    PlainRuns(was) ==> PlainRuns(cs) && Flatten(cs) == Flatten(was)
  }

  function Absorbed(x: Node, y: Node): Node
    requires x.Elem? && y.Elem?
  {
    x.(children := x.children + Movable(y.children))
  }

  /** The children after run `w` went into run `r`. */
  function AbsorbAt(cs: seq<Node>, r: int, w: int): seq<Node>
    requires 0 <= r < w < |cs| && cs[r].Elem? && cs[w].Elem?
  {
    cs[..r] + [Absorbed(cs[r], cs[w])] + cs[r + 1..w] + cs[w + 1..]
  }

  lemma {:induction false} NoElements(cs: seq<Node>)
    requires forall k :: 0 <= k < |cs| ==> !cs[k].Elem?
    ensures Flatten(cs) == [] && RunCount(cs) == 0
  {
    if cs != [] {
      NoElements(cs[1..]);
    }
  }

  /** Absorbing the next run moves no piece and drops nothing but the run's own tag. */
  lemma AbsorbKeeps(cs: seq<Node>, r: int, w: int)
    requires 0 <= r < w < |cs| && IsRun(cs[r]) && IsRun(cs[w]) && CanMerge(cs[r], cs[w]) && NoElementBetween(cs, r, w)
    ensures MergedBy(AbsorbAt(cs, r, w), cs, 1) && Flatten(AbsorbAt(cs, r, w)) == Flatten(cs)
  {
    var before, mid, after, x, y := cs[..r], cs[r + 1..w], cs[w + 1..], cs[r], cs[w];
    var m := Absorbed(x, y);
    NoElements(mid);
    MergedRunShowsBoth(x, y);
    hide Absorbed, NodePieces, Flatten, Others, RunCount, IsRun, NoElementBetween, CanMerge, AbsorbAt;
    AbsorbTail(m, x, y, mid, after);
    AbsorbSplit(cs, r, w);
    FlattenConcat(before, [x] + mid + ([y] + after));
    FlattenConcat(before, [m] + mid + after);
  }

  lemma AbsorbSplit(cs: seq<Node>, r: int, w: int)
    requires 0 <= r < w < |cs| && cs[r].Elem? && cs[w].Elem?
    ensures cs == cs[..r] + ([cs[r]] + cs[r + 1..w] + ([cs[w]] + cs[w + 1..]))
    ensures AbsorbAt(cs, r, w) == cs[..r] + ([Absorbed(cs[r], cs[w])] + cs[r + 1..w] + cs[w + 1..])
  {
  }

  lemma AbsorbTail(m: Node, x: Node, y: Node, mid: seq<Node>, after: seq<Node>)
    requires Flatten(mid) == [] && RunCount(mid) == 0 && IsRun(m) && IsRun(x) && IsRun(y)
    requires NodePieces(m) == NodePieces(x) + NodePieces(y)
    ensures MergedBy([m] + mid + after, [x] + mid + ([y] + after), 1)
    ensures Flatten([m] + mid + after) == Flatten([x] + mid + ([y] + after))
  {
    hide NodePieces, Flatten, Others, RunCount, IsRun;
    FlattenConcat([m] + mid, after);
    FlattenConcat([x] + mid, [y] + after);
    FlattenHead(m, mid);
    FlattenHead(x, mid);
    FlattenHead(y, after);
  }

  lemma AbsorbedIsPlain(x: Node, y: Node)
    requires x.Elem? && y.Elem? && PlainTexts(x.children) && PlainTexts(y.children)
    ensures PlainTexts(Absorbed(x, y).children)
  {
    MovableFacts(None, y.children);
    var ms := Movable(y.children);
    hide Plain, Movable;
    forall k | 0 <= k < |ms| && IsText(ms[k]) ensures Plain(ms[k]) {
      assert ms[k] in y.children;
    }
  }

  lemma AbsorbPlaces(cs: seq<Node>, r: int, w: int)
    requires 0 <= r < w < |cs| && IsRun(cs[r]) && IsRun(cs[w]) && CanMerge(cs[r], cs[w])
    ensures var ds := AbsorbAt(cs, r, w);
            |ds| == |cs| - 1 && ds[..r] == cs[..r] && IsRun(ds[r]) && Format(ds[r]) == Format(cs[r]) && (PlainRuns(cs) ==> PlainRuns(ds))
  {
    var ds := AbsorbAt(cs, r, w);
    MergedRunShowsBoth(cs[r], cs[w]);
    if PlainRuns(cs) {
      AbsorbedIsPlain(cs[r], cs[w]);
    }
    hide PlainTexts, Format, Absorbed;
    forall k | 0 <= k < |ds| && IsRun(ds[k]) && PlainRuns(cs) ensures PlainTexts(ds[k].children) {
      assert ds[k] == if k == r then Absorbed(cs[r], cs[w]) else if k < w then cs[k] else cs[k + 1];
    }
  }

  /** What was done before run `r` stays done while `r` keeps its formatting. */
  lemma DoneStays(cs: seq<Node>, ds: seq<Node>, r: nat)
    requires r < |cs| && r < |ds| && cs[..r] == ds[..r] && IsRun(cs[r]) && IsRun(ds[r]) && Format(cs[r]) == Format(ds[r])
    requires DoneBefore(cs, r)
    ensures DoneBefore(ds, r)
  {
    hide Format, JoinedFrom;
    assert forall k :: 0 <= k < r ==> cs[k] == cs[..r][k] == ds[..r][k] == ds[k];
    forall u | 0 <= u < r && IsRun(ds[u]) ensures Apart(ds, u) && JoinedFrom(ds[u].children, 0) {
      assert Apart(cs, u);
      forall v | u < v < |ds| && IsRun(ds[v]) && NoElementBetween(ds, u, v) ensures !Alike(ds[u], ds[v]) {
        assert v <= r;
        assert NoElementBetween(cs, u, v);
        CanMergeIff(cs[u], cs[v]);
        CanMergeIff(ds[u], ds[v]);
      }
    }
  }

  method NextElementSibling(cs: seq<Node>, r: nat) returns (w: nat)
    requires r < |cs|
    ensures r < w <= |cs| && NoElementBetween(cs, r, w)
    ensures w < |cs| ==> cs[w].Elem?
  {
    w := r + 1;
    while w < |cs|
      invariant r < w <= |cs| && NoElementBetween(cs, r, w)
    {
      if cs[w].Elem? {
        return;
      }
      w := w + 1;
    }
  }

  /** The first run at or after place `from`. */
  method NextRun(cs: seq<Node>, from: nat) returns (r: nat)
    requires from <= |cs|
    ensures from <= r <= |cs| && forall k :: from <= k < r ==> !IsRun(cs[k])
    ensures r < |cs| ==> IsRun(cs[r])
  {
    r := from;
    while r < |cs|
      invariant from <= r <= |cs| && forall k :: from <= k < r ==> !IsRun(cs[k])
    {
      if cs[r].Elem? && IsRun(cs[r]) {
        return;
      }
      r := r + 1;
    }
  }

  /** Takes the following runs of the same formatting into run `r`. */
  method AbsorbFollowing(was: seq<Node>, r: nat) returns (cs: seq<Node>, merged: nat)
    requires r < |was| && IsRun(was[r]) && DoneBefore(was, r)
    ensures r < |cs| && IsRun(cs[r]) && Apart(cs, r) && DoneBefore(cs, r)
    ensures MergedBy(cs, was, merged) && Flatten(cs) == Flatten(was) && (PlainRuns(was) ==> PlainRuns(cs)) && |cs| <= |was|
    ensures Apart(was, r) ==> cs == was && merged == 0
  {
    hide PlainRuns, DoneBefore, Flatten, Others, RunCount, AbsorbAt, Movable;
    cs, merged := was, 0;
    while true
      invariant r < |cs| && IsRun(cs[r]) && DoneBefore(cs, r)
      invariant MergedBy(cs, was, merged) && Flatten(cs) == Flatten(was) && (PlainRuns(was) ==> PlainRuns(cs)) && |cs| <= |was|
      invariant Apart(was, r) ==> cs == was && merged == 0
      decreases |cs|
    {
      var w := NextElementSibling(cs, r);
      if w < |cs| {
        CanMergeIff(cs[r], cs[w]);
      }
      if w == |cs| || !IsRun(cs[w]) || !CanMerge(cs[r], cs[w]) {
        return;
      }
      AbsorbKeeps(cs, r, w);
      AbsorbPlaces(cs, r, w);
      DoneStays(cs, AbsorbAt(cs, r, w), r);
      var m := MergeRunContent(cs[r], cs[w]);
      AbsorbIs(cs, r, w, m);
      cs, merged := cs[..r] + [m] + cs[r + 1..w] + cs[w + 1..], merged + 1;
    }
  }

  lemma AbsorbIs(cs: seq<Node>, r: int, w: int, m: Node)
    requires 0 <= r < w < |cs| && cs[r].Elem? && cs[w].Elem? && m == Absorbed(cs[r], cs[w])
    ensures cs[..r] + [m] + cs[r + 1..w] + cs[w + 1..] == AbsorbAt(cs, r, w)
  {
  }

  lemma ReplaceCounts(cs: seq<Node>, r: nat, x: Node)
    requires r < |cs| && IsRun(cs[r]) && IsRun(x)
    ensures MergedBy(cs[r := x], cs, 0)
    ensures NodePieces(x) == NodePieces(cs[r]) ==> Flatten(cs[r := x]) == Flatten(cs)
  {
    hide NodePieces, Flatten, Others, RunCount, IsRun;
    assert cs == cs[..r] + ([cs[r]] + cs[r + 1..]);
    assert cs[r := x] == cs[..r] + ([x] + cs[r + 1..]);
    FlattenConcat(cs[..r], [cs[r]] + cs[r + 1..]);
    FlattenConcat(cs[..r], [x] + cs[r + 1..]);
    FlattenHead(cs[r], cs[r + 1..]);
    FlattenHead(x, cs[r + 1..]);
  }

  lemma ReplaceIsDone(cs: seq<Node>, r: nat, x: Node)
    requires r < |cs| && IsRun(cs[r]) && DoneBefore(cs, r) && Apart(cs, r)
    requires IsRun(x) && Format(x) == Format(cs[r]) && JoinedFrom(x.children, 0)
    ensures DoneBefore(cs[r := x], r + 1)
    ensures PlainRuns(cs) && PlainTexts(x.children) ==> PlainRuns(cs[r := x])
  {
    var ds := cs[r := x];
    hide Format, PlainTexts, JoinedFrom;
    DoneStays(cs, ds, r);
    assert Apart(ds, r) by {
      forall v | r < v < |ds| && IsRun(ds[v]) && NoElementBetween(ds, r, v) ensures !Alike(ds[r], ds[v]) {
        CanMergeIff(cs[r], cs[v]);
        CanMergeIff(ds[r], ds[v]);
        assert forall k :: r < k < |ds| ==> ds[k] == cs[k];
        assert NoElementBetween(cs, r, v) by {
          forall k | r < k < v && 0 <= k < |cs| ensures !cs[k].Elem? {
            assert !ds[k].Elem?;
          }
        }
      }
    }
    hide Apart;
  }

  /** Joining the texts of run `r` keeps all that the container shows. */
  lemma ConsolidationKeeps(cs: seq<Node>, r: nat, texts: seq<Node>)
    requires r < |cs| && IsRun(cs[r]) && DoneBefore(cs, r) && Apart(cs, r)
    requires JoinedFrom(texts, 0) && SameContent(texts, cs[r].children)
    ensures var ds := cs[r := cs[r].(children := texts)];
            MergedBy(ds, cs, 0) && SameShown(ds, cs) && DoneBefore(ds, r + 1)
  {
    var x := cs[r].(children := texts);
    hide RunPieces, Properties, JoinedFrom, PlainTexts, MergedBy, DoneBefore, Apart;
    assert PlainRuns(cs) ==> PlainTexts(cs[r].children);
    hide PlainRuns;
    assert IsRun(x) && Format(x) == Format(cs[r]) && (PlainRuns(cs) ==> NodePieces(x) == NodePieces(cs[r]));
    hide NodePieces, Format, IsRun, Flatten;
    ReplaceCounts(cs, r, x);
    ReplaceIsDone(cs, r, x);
  }

  /** What a container looks like when nothing is left to merge: elements named r with no element between
      them do not look alike, and between two elements named t of one of them there is an element or text
      that is not white space. */
  ghost predicate Settled(cs: seq<Node>) {
    && (forall u, v :: 0 <= u < v < |cs| && Neighbours(cs, u, v) ==> !Alike(cs[u], cs[v]))
    && (forall r :: 0 <= r < |cs| && cs[r].Elem? && cs[r].tag.local == "r" ==> TextsApart(cs[r].children))
  }

  predicate Neighbours(cs: seq<Node>, u: int, v: int)
    requires 0 <= u < v < |cs|
  {
    && cs[u].Elem? && cs[u].tag.local == "r" && cs[v].Elem? && cs[v].tag.local == "r"
    && forall k :: u < k < v ==> !cs[k].Elem?
  }

  ghost predicate TextsApart(cs: seq<Node>) {
    forall a, b :: 0 <= a < b < |cs| && cs[a].Elem? && cs[a].tag.local == "t" && cs[b].Elem? && cs[b].tag.local == "t" ==>
      exists k :: a < k < b && !cs[k].Comment? && (cs[k].Text? ==> exists c <- cs[k].data :: !IsSpace(c))
  }

  lemma JoinedIsApart(cs: seq<Node>)
    ensures JoinedFrom(cs, 0) <==> TextsApart(cs)
  {
    hide IsSpace;
    forall n: Node ensures Blank(n) <==> !n.Elem? && (n.Comment? || forall c <- n.data :: IsSpace(c)) {
    }
    if JoinedFrom(cs, 0) {
      forall a, b | 0 <= a < b < |cs| && cs[a].Elem? && cs[a].tag.local == "t" && cs[b].Elem? && cs[b].tag.local == "t"
        ensures exists k :: a < k < b && !cs[k].Comment? && (cs[k].Text? ==> exists c <- cs[k].data :: !IsSpace(c))
      {
        assert IsText(cs[a]) && IsText(cs[b]) && !BlankBetween(cs, a, b);
        var k :| a < k < b && !Blank(cs[k]);
        assert !cs[k].Comment? && (cs[k].Text? ==> exists c <- cs[k].data :: !IsSpace(c));
      }
    }
  }

  lemma StableIffSettled(cs: seq<Node>)
    ensures Stable(cs) <==> Settled(cs)
  {
    hide Alike, JoinedFrom, TextsApart;
    forall r | 0 <= r < |cs| && cs[r].Elem? ensures JoinedFrom(cs[r].children, 0) <==> TextsApart(cs[r].children) {
      JoinedIsApart(cs[r].children);
    }
    assert forall u, v :: 0 <= u < v < |cs| ==> (Neighbours(cs, u, v) <==> IsRun(cs[u]) && IsRun(cs[v]) && NoElementBetween(cs, u, v));
    hide Neighbours, NoElementBetween;
  }

  /** Merges the runs of one container. The other nodes stay, and nothing stays mergeable; if all texts
      are plain, what a reader sees is unchanged, and nothing is raised. A container that was merged
      before comes back as it is. */
  method MergeRunsIn(container: seq<Node>) returns (cs: seq<Node>, count: nat, raised: bool)
    ensures !raised ==> MergedBy(cs, container, count) && SameShown(cs, container) && Stable(cs)
    ensures PlainRuns(container) || Stable(container) ==> !raised
    ensures Stable(container) ==> cs == container && count == 0
    ensures HasRun(container) ==> raised || HasRun(cs)
    ensures !raised ==> Settled(cs)
    ensures Settled(container) ==> !raised && cs == container && count == 0
  {
    StableIffSettled(container);
    hide Flatten, Others, RunCount, JoinedFrom, Apart, PlainRuns, Settled;
    cs, count, raised := container, 0, false;
    var r := NextRun(cs, 0);
    while r < |cs|
      invariant r <= |cs| && (r < |cs| ==> IsRun(cs[r])) && DoneBefore(cs, r)
      invariant MergedBy(cs, container, count) && SameShown(cs, container)
      invariant Stable(container) ==> cs == container && count == 0
      invariant HasRun(container) ==> HasRun(cs)
      decreases |cs| - r
    {
      var merged, texts;
      cs, merged := AbsorbFollowing(cs, r);
      texts, raised := ConsolidateText(cs[r].children);
      if raised {
        RaisesUnlessPlain(cs, r);
        return;
      }
      ConsolidationKeeps(cs, r, texts);
      cs, count := cs[r := cs[r].(children := texts)], count + merged;
      assert IsRun(cs[r]);
      r := NextRun(cs, r + 1);
    }
    StableIffSettled(cs);
  }

  lemma RaisesUnlessPlain(cs: seq<Node>, r: nat)
    requires r < |cs| && IsRun(cs[r]) && RaisesFrom(cs[r].children, 0)
    ensures !PlainRuns(cs)
  {
    NotPlain(cs[r].children);
    hide PlainTexts, RaisesFrom;
  }

  lemma NotPlain(run: seq<Node>)
    requires RaisesFrom(run, 0)
    ensures !PlainTexts(run)
  {
    hide IsText, BlankBetween;
  }

  /** A second pass finds nothing. */
  method MergeTwice(container: seq<Node>) returns (cs: seq<Node>, count: nat, again: nat, raised: bool)
    ensures !raised ==> MergedBy(cs, container, count) && SameShown(cs, container) && Stable(cs) && again == 0
  {
    again := 0;
    cs, count, raised := MergeRunsIn(container);
    if !raised {
      cs, again, raised := MergeRunsIn(cs);
    }
  }
}
