/** What cleaning does to each file of a presentation, told by its path and by what the other files
    refer to. */
module CleanMeaning {
  import opened TaskModel
  import opened Clean

  // ---------- The greatest stable set, file by file ----------

  /** The support that a file needs, within `kept`. */
  ghost predicate Supported(p: Path, kept: set<Path>, start: set<Path>, links: Links) {
    && (IsResource(p) || IsTheme(p) || IsNotes(p) ==> p in Referenced(kept, links))
    && (IsResourceRels(p) ==> HasOwner(kept, p) && Owner(p) in SlideReferenced(kept, links))
    && (IsNotesRels(p) ==> HasOwner(kept, p))
    && (forall t <- start :: IsTheme(t) && RelsOf(t) == p ==> t in kept)
  }

  /** A file stays exactly when it has its support among the files that stay. */
  lemma StaysIffSupported(kept: set<Path>, start: set<Path>, links: Links, p: Path)
    requires IsGreatestStable(kept, start, links) && p in start
    ensures p in kept <==> Supported(p, kept, start, links)
  {
    hide Referenced, SlideReferenced, IsResource, IsResourceRels, IsTheme, IsNotes, IsNotesRels, Owner, RelsOf;
    if Supported(p, kept, start, links) {
      MoreIsReferenced(kept, kept + {p}, links);
      assert Stable(kept + {p}, start, links);
    }
  }

  // ---------- The same by path ----------

  /** The .rels file `q` has an entry for `p`. */
  predicate LinksTo(links: Links, q: Path, p: Path) {
    q in links && exists k :: 0 <= k < |links[q]| && links[q][k].file == Some(p)
  }

  predicate EndsIn(s: string, end: string) {
    |end| <= |s| && s[|s| - |end|..] == end
  }

  /** Some .rels file that stays has an entry for `p`. */
  ghost predicate RefersTo(kept: set<Path>, links: Links, p: Path) {
    exists q <- kept :: q != [] && EndsIn(q[|q| - 1], ".rels") && LinksTo(links, q, p)
  }

  /** A .rels file of a slide that stays has an entry for `p`. */
  ghost predicate SlideRefersTo(kept: set<Path>, links: Links, p: Path) {
    exists n: string :: ["ppt", "slides", "_rels", n] in kept && EndsIn(n, ".rels") && LinksTo(links, ["ppt", "slides", "_rels", n], p)
  }

  lemma ReferencedMeans(kept: set<Path>, links: Links, p: Path)
    ensures p in Referenced(kept, links) <==> RefersTo(kept, links, p)
    ensures p in SlideReferenced(kept, links) <==> SlideRefersTo(kept, links, p)
  {
    assert forall q :: p in Targets(links, q) <==> LinksTo(links, q, p);
    hide LinksTo, Targets;
    assert forall q: Path :: IsSlideRels(q) ==> q == ["ppt", "slides", "_rels", q[3]];
  }

  /** A file that is no .rels file needs at most a reference. */
  lemma FileSupport(p: Path, kept: set<Path>, start: set<Path>, links: Links)
    requires |p| == 3
    ensures Supported(p, kept, start, links) <==> (IsResource(p) || IsTheme(p) || IsNotes(p) ==> RefersTo(kept, links, p))
  {
    ReferencedMeans(kept, links, p);
    hide Referenced, RefersTo, SlideReferenced, HasOwner, Owner, IsResource, HasPrefix, HasSuffix;
    assert forall t: Path :: IsTheme(t) ==> RelsOf(t) != p;
  }

  /** Pictures, embedded files, charts, diagrams, tags, drawings and ink stay exactly while referred to. */
  lemma ResourceStaysIff(kept: set<Path>, start: set<Path>, links: Links, dir: string, name: string)
    requires IsGreatestStable(kept, start, links) && ["ppt", dir, name] in start
    requires dir in {"media", "embeddings", "charts", "diagrams", "tags", "drawings", "ink"}
    ensures ["ppt", dir, name] in kept <==> RefersTo(kept, links, ["ppt", dir, name])
  {
    var p := ["ppt", dir, name];
    StaysIffSupported(kept, start, links, p);
    FileSupport(p, kept, start, links);
    hide IsGreatestStable, Supported, RefersTo;
  }

  /** So do themes and notes. */
  lemma ThemeStaysIff(kept: set<Path>, start: set<Path>, links: Links, name: string)
    requires IsGreatestStable(kept, start, links)
    ensures var p := ["ppt", "theme", "theme" + name + ".xml"]; p in start ==> (p in kept <==> RefersTo(kept, links, p))
    ensures var p := ["ppt", "notesSlides", name + ".xml"]; p in start ==> (p in kept <==> RefersTo(kept, links, p))
  {
    hide IsGreatestStable, RefersTo, Supported;
    var t, n := ["ppt", "theme", "theme" + name + ".xml"], ["ppt", "notesSlides", name + ".xml"];
    if t in start {
      StaysIffSupported(kept, start, links, t);
      FileSupport(t, kept, start, links);
      assert IsTheme(t);
    }
    if n in start {
      StaysIffSupported(kept, start, links, n);
      FileSupport(n, kept, start, links);
    }
  }

  lemma InfixOfTail(s: string, part: string)
    requires s != "" && !HasInfix(s, part)
    ensures !HasPrefix(s, part) && !HasInfix(s[1..], part)
  {
    assert s[0..] == s;
    forall i | 0 <= i <= |s| - 1 ensures !HasPrefix(s[1..][i..], part) {
      assert s[1..][i..] == s[i + 1..];
    }
  }

  lemma {:induction false} WithoutNothing(s: string, part: string)
    requires part != "" && !HasInfix(s, part)
    ensures Without(s, part) == s
  {
    hide HasInfix, HasPrefix;
    if s != "" {
      InfixOfTail(s, part);
      WithoutNothing(s[1..], part);
    }
  }

  /** An ending that begins within the name does not reach over its end. */
  lemma NotAtStart(stem: string, rest: string)
    requires stem != "" && !HasPrefix(stem, ".rels")
    ensures !HasPrefix(stem + ".rels" + rest, ".rels")
  {
    var s := stem + ".rels" + rest;
    assert s[|stem|] == '.';
    assert |stem| >= 5 ==> s[..5] == stem[..5];
    assert |stem| < 5 ==> s[..5][|stem|] == '.' && ".rels"[|stem|] != '.';
  }

  /** The first ending goes, and then all that follow. */
  lemma {:induction false} WithoutFirst(stem: string, rest: string)
    requires !HasInfix(stem, ".rels")
    ensures Without(stem + ".rels" + rest, ".rels") == stem + Without(rest, ".rels")
  {
    var s := stem + ".rels" + rest;
    if stem == "" {
      assert s[..5] == ".rels" && s[5..] == rest;
    } else {
      InfixOfTail(stem, ".rels");
      NotAtStart(stem, rest);
      hide HasInfix, HasPrefix;
      WithoutFirst(stem[1..], rest);
      assert s[1..] == stem[1..] + ".rels" + rest;
    }
  }

  /** A .rels file belongs to the file of its name without the ending; a bare ".rels" to the directory. */
  lemma OwnerOf(dir: string, name: string)
    requires !HasInfix(name, ".rels")
    ensures Owner(["ppt", dir, "_rels", name + ".rels"]) == if name == "" then ["ppt", dir] else ["ppt", dir, name]
  {
    WithoutFirst(name, "");
    assert Without("", ".rels") == "";
    assert name + ".rels" + "" == name + ".rels" && name + "" == name;
    hide HasInfix, Without;
  }

  /** The .rels file of a chart, diagram or drawing stays exactly while that stays and a slide refers to it. */
  lemma ResourceRelsStayIff(kept: set<Path>, start: set<Path>, links: Links, dir: string, name: string)
    requires IsGreatestStable(kept, start, links) && ["ppt", dir, "_rels", name + ".rels"] in start
    requires dir in {"charts", "diagrams", "drawings"} && !HasInfix(name, ".rels")
    ensures ["ppt", dir, "_rels", name + ".rels"] in kept <==>
              if name == "" then SlideRefersTo(kept, links, ["ppt", dir])
              else ["ppt", dir, name] in kept && SlideRefersTo(kept, links, ["ppt", dir, name])
  {
    var p := ["ppt", dir, "_rels", name + ".rels"];
    StaysIffSupported(kept, start, links, p);
    OwnerOf(dir, name);
    ReferencedMeans(kept, links, Owner(p));
    hide IsGreatestStable, Referenced, RefersTo, SlideReferenced, SlideRefersTo, HasInfix, Owner;
    assert !IsRelsIn(p, "notesSlides") by {
      assert "notesSlides"[0] == 'n';
    }
    assert IsRelsIn(p, dir);
    assert forall t: Path :: IsTheme(t) ==> RelsOf(t)[1] == "theme";
    assert "theme"[0] == 't';
  }

  /** The .rels file of a notes page stays exactly while that page does. */
  lemma NotesRelsStayIff(kept: set<Path>, start: set<Path>, links: Links, name: string)
    requires IsGreatestStable(kept, start, links) && ["ppt", "notesSlides", "_rels", name + ".rels"] in start
    requires !HasInfix(name, ".rels")
    ensures ["ppt", "notesSlides", "_rels", name + ".rels"] in kept <==> name == "" || ["ppt", "notesSlides", name] in kept
  {
    var p := ["ppt", "notesSlides", "_rels", name + ".rels"];
    StaysIffSupported(kept, start, links, p);
    OwnerOf("notesSlides", name);
    hide IsGreatestStable, Referenced, SlideReferenced, HasInfix, Owner;
    assert "notesSlides"[0] == 'n' && "theme"[0] == 't';
    assert IsNotesRels(p) && !IsResourceRels(p);
    assert forall t: Path :: IsTheme(t) ==> RelsOf(t)[1] == "theme";
  }

  /** The .rels file beside a theme goes with it; without a theme beside it, it stays. */
  lemma ThemeRelsStayIff(kept: set<Path>, start: set<Path>, links: Links, name: string)
    requires IsGreatestStable(kept, start, links) && ["ppt", "theme", "_rels", name + ".rels"] in start
    ensures ["ppt", "theme", "_rels", name + ".rels"] in kept <==>
              var t := ["ppt", "theme", name];
              t in start && |name| >= 5 && name[..5] == "theme" && EndsIn(name, ".xml") ==> t in kept
  {
    var p, t := ["ppt", "theme", "_rels", name + ".rels"], ["ppt", "theme", name];
    StaysIffSupported(kept, start, links, p);
    hide IsGreatestStable, Referenced, SlideReferenced, Owner;
    assert "notesSlides"[0] == 'n' && "theme"[0] == 't';
    assert !IsNotesRels(p) && !IsResourceRels(p);
    assert RelsOf(t) == p;
    forall u: Path | IsTheme(u) && RelsOf(u) == p ensures u == t {
      assert (u[2] + ".rels")[..|u[2]|] == u[2] && (name + ".rels")[..|name|] == name;
      assert u == ["ppt", "theme", u[2]];
    }
  }

  /** The paths that cleaning may remove once slides and trash are gone. */
  predicate MayGo(p: Path) {
    && |p| in {3, 4} && p[0] == "ppt"
    && if |p| == 3
       then
         || p[1] in {"media", "embeddings", "charts", "diagrams", "tags", "drawings", "ink"}
         || (p[1] in {"theme", "notesSlides"} && EndsIn(p[2], ".xml"))
       else p[2] == "_rels" && p[1] in {"charts", "diagrams", "drawings", "notesSlides", "theme"} && EndsIn(p[3], ".rels")
  }

  /** Everything else stays. */
  lemma OthersStay(kept: set<Path>, start: set<Path>, links: Links, p: Path)
    requires IsGreatestStable(kept, start, links) && p in start && !MayGo(p)
    ensures p in kept
  {
    StaysIffSupported(kept, start, links, p);
    hide IsGreatestStable, Referenced, SlideReferenced, Owner;
    assert ".rels" == ".rels";
    forall t: Path | IsTheme(t) ensures RelsOf(t) == ["ppt", "theme", "_rels", t[2] + ".rels"] && EndsIn(t[2] + ".rels", ".rels") {
    }
  }

  // ---------- Slides, trash and what remembers the removed files ----------

  /** The last slide entry of the relationship id `id` names the file `name`. */
  ghost predicate Names(rs: seq<Relationship>, id: string, name: string) {
    exists k :: 0 <= k < |rs| && NamesAt(rs, k, id, name)
  }

  ghost predicate NamesAt(rs: seq<Relationship>, k: nat, id: string, name: string)
    requires k < |rs|
  {
    && rs[k].id == id && IsSlideLink(rs[k]) && SlideName(rs[k].target) == name
    && forall j :: k < j < |rs| && rs[j].id == id ==> !IsSlideLink(rs[j])
  }

  lemma {:induction false} SlideNamesMean(rs: seq<Relationship>, id: string, name: string)
    ensures id in SlideNames(rs) && SlideNames(rs)[id] == name <==> Names(rs, id, name)
  {
    hide IsSlideLink, SlideName;
    if rs != [] {
      var n := |rs| - 1;
      var prev := rs[..n];
      SlideNamesMean(prev, id, name);
      if rs[n].id == id && IsSlideLink(rs[n]) {
        assert SlideName(rs[n].target) == name ==> NamesAt(rs, n, id, name);
      } else {
        forall k | 0 <= k < n ensures NamesAt(rs, k, id, name) <==> NamesAt(prev, k, id, name) {
          assert prev[k] == rs[k];
          assert forall j :: k < j < n ==> prev[j] == rs[j];
        }
        assert !NamesAt(rs, n, id, name);
      }
    }
  }

  /** An entry links to a slide when its type mentions slides and its target lies in the slide folder. */
  lemma SlideLinkMeans(r: Relationship, name: string)
    requires !HasInfix(name, "slides/")
    ensures r.target == "slides/" + name && HasInfix(r.kind, "slide") ==> IsSlideLink(r) && SlideName(r.target) == name
    ensures IsSlideLink(r) ==> |r.target| >= 7 && r.target[..7] == "slides/" && HasInfix(r.kind, "slide")
  {
    hide HasInfix;
    var s := "slides/" + name;
    assert s[..7] == "slides/" && s[7..] == name;
    WithoutNothing(name, "slides/");
    assert Without(s, "slides/") == Without(s[7..], "slides/");
  }

  lemma InfixMeans(s: string, part: string)
    ensures HasInfix(s, part) <==> exists before: string, after: string :: s == before + part + after
  {
    if HasInfix(s, part) {
      var i :| 0 <= i <= |s| && HasPrefix(s[i..], part);
      assert s == s[..i] + part + s[i + |part|..];
    }
    forall before: string, after: string | s == before + part + after ensures HasInfix(s, part) {
      assert s[|before|..] == part + after;
    }
  }

  /** What is listed, in terms of the presentation's own entries. */
  ghost predicate IsListed(files: set<Path>, links: Links, ids: set<string>, name: string) {
    && ["ppt", "presentation.xml"] in files
    && ["ppt", "_rels", "presentation.xml.rels"] in files
    && ["ppt", "_rels", "presentation.xml.rels"] in links
    && exists id <- ids :: Names(links[["ppt", "_rels", "presentation.xml.rels"]], id, name)
  }

  lemma ListedMeans(files: set<Path>, links: Links, ids: set<string>, name: string)
    ensures name in Listed(files, links, ids) <==> IsListed(files, links, ids, name)
  {
    hide SlideNames, Names;
    if PRESENTATION_RELS in links {
      var rs := links[PRESENTATION_RELS];
      forall id | id in ids ensures id in SlideNames(rs) && SlideNames(rs)[id] == name <==> Names(rs, id, name) {
        SlideNamesMean(rs, id, name);
      }
    }
  }

  /** A slide file stands in the slide folder and is not listed. */
  ghost predicate IsUnlisted(files: set<Path>, links: Links, ids: set<string>, name: string) {
    && ["ppt", "slides", name] in files
    && |name| >= 5 && name[..5] == "slide" && EndsIn(name, ".xml")
    && !IsListed(files, links, ids, name)
  }

  /** The first two steps remove exactly the unlisted slides, the .rels files beside them and the trash. */
  lemma FirstStepsRemove(files: set<Path>, links: Links, ids: set<string>, p: Path)
    requires p in files
    ensures p in WithoutSlidesAndTrash(files, Listed(files, links, ids)) <==>
              && !(|p| == 2 && p[0] == "[trash]")
              && !(exists name: string :: IsUnlisted(files, links, ids, name) && (p == ["ppt", "slides", name] || p == ["ppt", "slides", "_rels", name + ".rels"]))
  {
    var shown := Listed(files, links, ids);
    hide Listed, IsListed, HasInfix;
    forall name: string ensures IsUnlisted(files, links, ids, name) <==> ["ppt", "slides", name] in OrphanSlides(files, shown) {
      ListedMeans(files, links, ids, name);
    }
    assert forall q <- OrphanSlides(files, shown) :: q == ["ppt", "slides", q[2]];
    hide IsUnlisted, OrphanSlides;
    assert p in WithoutSlideFiles(files, shown) <==>
        !(exists name: string :: ["ppt", "slides", name] in OrphanSlides(files, shown) && (p == ["ppt", "slides", name] || p == ["ppt", "slides", "_rels", name + ".rels"]));
  }

  /** `t` is `s` without the elements in `gone`, in the same order; `at` tells the places. */
  predicate IsThinned<T(==)>(t: seq<T>, s: seq<T>, gone: set<T>, at: seq<nat>) {
    && |at| == |t|
    && (forall k :: 0 <= k < |at| ==> at[k] < |s| && t[k] == s[at[k]])
    && (forall j, k :: 0 <= j < k < |at| ==> at[j] < at[k])
    && (forall i :: 0 <= i < |s| ==> (s[i] !in gone <==> i in at))
  }

  lemma {:induction false} DropLast<T>(s: seq<T>, x: T, gone: set<T>)
    ensures Drop(s + [x], gone) == Drop(s, gone) + if x in gone then [] else [x]
  {
    if s == [] {
      assert [x][1..] == [];
    } else {
      assert (s + [x])[1..] == s[1..] + [x];
      DropLast(s[1..], x, gone);
    }
  }

  lemma {:induction false} DropThins<T>(s: seq<T>, gone: set<T>) returns (at: seq<nat>)
    ensures IsThinned(Drop(s, gone), s, gone, at)
    decreases |s|
  {
    if s == [] {
      at := [];
    } else {
      var n := |s| - 1;
      at := DropThins(s[..n], gone);
      DropLast(s[..n], s[n], gone);
      assert s[..n] + [s[n]] == s;
      hide Drop;
      if s[n] !in gone {
        forall i | 0 <= i < |s| ensures i in at + [n] <==> i in at || i == n {
        }
        at := at + [n];
      }
    }
  }

  function UnlistedEntries(rs: seq<Relationship>, shown: set<string>): set<Relationship> {
    set r | r in rs && |r.target| >= 7 && r.target[..7] == "slides/" && SlideName(r.target) !in shown
  }

  /** Once a slide was removed, the presentation keeps its other entries in order; nothing else forgets. */
  lemma PresentationForgets(files: set<Path>, links: Links, shown: set<string>) returns (at: seq<nat>)
    ensures var rels := ["ppt", "_rels", "presentation.xml.rels"];
            var after := LinksAfter(files, links, shown);
            && (forall q :: q in after <==> q in links)
            && (forall q <- links :: q != rels ==> after[q] == links[q])
            && (rels !in files || OrphanSlides(files, shown) == {} ==> after == links)
            && (rels in files && rels in links && OrphanSlides(files, shown) != {} ==>
                  IsThinned(after[rels], links[rels], UnlistedEntries(links[rels], shown), at))
  {
    at := [];
    if PRESENTATION_RELS in links {
      var rs := links[PRESENTATION_RELS];
      hide SlideName;
      at := DropThins(rs, StaleEntries(rs, shown));
      assert StaleEntries(rs, shown) == UnlistedEntries(rs, shown);
    }
    hide IsThinned, Drop, OrphanSlides, StaleEntries, UnlistedEntries;
  }
}
