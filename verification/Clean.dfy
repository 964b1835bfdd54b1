/** Removing the files of an unpacked presentation that nothing refers to. */
module Clean {
  import opened TaskModel

  /** A path below the unpacked folder, part by part. */
  type Path = seq<string>

  /** One entry of a .rels file. `file` is the place inside the folder that the target resolves to;
      there is none when the target is empty or leads outside. */
  datatype Relationship = Relationship(id: string, kind: string, target: string, file: Option<Path>)

  /** The contents of the .rels files. */
  type Links = map<Path, seq<Relationship>>

  // ---------- Names ----------

  predicate HasPrefix(s: string, prefix: string) {
    |prefix| <= |s| && s[..|prefix|] == prefix
  }

  predicate HasSuffix(s: string, suffix: string) {
    |suffix| <= |s| && s[|s| - |suffix|..] == suffix
  }

  predicate HasInfix(s: string, infix: string) {
    exists i :: 0 <= i <= |s| && HasPrefix(s[i..], infix)
  }

  /** `s` without any occurrence of `part`, as str.replace finds them. */
  function Without(s: string, part: string): string
    requires part != ""
  {
    if s == "" then ""
    else if HasPrefix(s, part) then Without(s[|part|..], part)
    else [s[0]] + Without(s[1..], part)
  }

  // ---------- Kinds of files ----------

  predicate IsRels(p: Path) {
    p != [] && HasSuffix(p[|p| - 1], ".rels")
  }

  predicate InDir(p: Path, dir: string) {
    |p| == 3 && p[0] == "ppt" && p[1] == dir
  }

  predicate IsRelsIn(p: Path, dir: string) {
    |p| == 4 && p[0] == "ppt" && p[1] == dir && p[2] == "_rels" && IsRels(p)
  }

  predicate IsResource(p: Path) {
    |p| == 3 && p[0] == "ppt" && p[1] in ["media", "embeddings", "charts", "diagrams", "tags", "drawings", "ink"]
  }

  predicate IsResourceRels(p: Path) {
    IsRelsIn(p, "charts") || IsRelsIn(p, "diagrams") || IsRelsIn(p, "drawings")
  }

  predicate IsSlideRels(p: Path) {
    IsRelsIn(p, "slides")
  }

  predicate IsTheme(p: Path) {
    InDir(p, "theme") && HasPrefix(p[2], "theme") && HasSuffix(p[2], ".xml")
  }

  predicate IsNotes(p: Path) {
    InDir(p, "notesSlides") && HasSuffix(p[2], ".xml")
  }

  predicate IsNotesRels(p: Path) {
    IsRelsIn(p, "notesSlides")
  }

  predicate IsSlide(p: Path) {
    InDir(p, "slides") && HasPrefix(p[2], "slide") && HasSuffix(p[2], ".xml")
  }

  predicate IsBelowTrash(p: Path) {
    |p| > 2 && p[0] == "[trash]"
  }

  predicate IsTrash(p: Path) {
    |p| == 2 && p[0] == "[trash]"
  }

  /** The .rels file beside a file. */
  function RelsOf(p: Path): (r: Path)
    requires |p| == 3
    ensures |r| == 4
  {
    [p[0], p[1], "_rels", p[2] + ".rels"]
  }

  /** The file beside which a .rels file lies; without a name it is the directory itself. */
  function Owner(p: Path): (o: Path)
    requires |p| == 4
    ensures |o| == 2 || |o| == 3
  {
    var name := Without(p[3], ".rels");
    if name == "" then [p[0], p[1]] else [p[0], p[1], name]
  }

  /** The owner exists: as a file, or as the directory above the .rels file. */
  predicate HasOwner(files: set<Path>, p: Path)
    requires |p| == 4
  {
    |Owner(p)| == 2 || Owner(p) in files
  }

  lemma KindsAreDisjoint(p: Path)
    ensures IsTheme(p) ==> !IsResource(p) && !IsNotes(p)
  {
    assert "theme"[0] == 't' && "notesSlides"[0] == 'n' && "tags"[1] == 'a' && "theme"[1] == 'h';
    assert |"theme"| == 5 && |"media"| == 5 && "media"[0] == 'm';
  }

  // ---------- References ----------

  function FilesIn(rs: seq<Relationship>): set<Path> {
    set r | r in rs && r.file.Some? :: r.file.value
  }

  function Targets(links: Links, p: Path): set<Path> {
    if p in links then FilesIn(links[p]) else {}
  }

  /** What the .rels files among `sources` refer to. */
  function TargetsOf(links: Links, sources: set<Path>): set<Path> {
    set p, q | p in sources && q in Targets(links, p) :: q
  }

  function Referenced(files: set<Path>, links: Links): set<Path> {
    TargetsOf(links, set p | p in files && IsRels(p))
  }

  function SlideReferenced(files: set<Path>, links: Links): set<Path> {
    TargetsOf(links, set p | p in files && IsSlideRels(p))
  }

  // ---------- What should stay ----------

  /** Every file that needs support has it within `kept`: a resource, theme or notes file is the target
      of a .rels file, the .rels file of a chart, diagram or drawing has its owner and a slide refers
      to that owner, and the .rels file of a notes or theme file has its owner. A theme .rels file that
      never had an owner needs none. */
  ghost predicate Stable(kept: set<Path>, start: set<Path>, links: Links) {
    && (forall p <- kept :: IsResource(p) || IsTheme(p) || IsNotes(p) ==> p in Referenced(kept, links))
    && (forall p <- kept :: IsResourceRels(p) ==> HasOwner(kept, p) && Owner(p) in SlideReferenced(kept, links))
    && (forall p <- kept :: IsNotesRels(p) ==> HasOwner(kept, p))
    && ThemesKept(kept, start)
  }

  ghost predicate ThemesKept(kept: set<Path>, start: set<Path>) {
    forall t <- start :: IsTheme(t) && RelsOf(t) in kept ==> t in kept
  }

  /** There is a greatest stable set: stable sets are closed under union. */
  lemma UnionIsStable(s: set<Path>, t: set<Path>, start: set<Path>, links: Links)
    requires Stable(s, start, links) && Stable(t, start, links)
    ensures Stable(s + t, start, links)
  {
    MoreIsReferenced(s, s + t, links);
    MoreIsReferenced(t, s + t, links);
    hide Referenced, SlideReferenced, IsResource, IsResourceRels, IsTheme, IsNotes, IsNotesRels, Owner, RelsOf;
  }

  lemma MoreIsReferenced(s: set<Path>, t: set<Path>, links: Links)
    requires s <= t
    ensures Referenced(s, links) <= Referenced(t, links)
    ensures SlideReferenced(s, links) <= SlideReferenced(t, links)
  {
  }

  /** All that can stay of `start` stays. */
  ghost predicate IsGreatestStable(kept: set<Path>, start: set<Path>, links: Links) {
    && kept <= start && Stable(kept, start, links)
    && forall other :: other <= start && Stable(other, start, links) ==> other <= kept
  }

  // ---------- One pass ----------

  function OrphanRels(files: set<Path>, links: Links): set<Path> {
    set p | p in files && IsResourceRels(p) && (!HasOwner(files, p) || Owner(p) !in SlideReferenced(files, links))
  }

  function OrphanThemes(files: set<Path>, referenced: set<Path>): set<Path> {
    set p | p in files && IsTheme(p) && p !in referenced
  }

  function RelsOfThemes(themes: set<Path>): set<Path> {
    set p | p in themes && IsTheme(p) :: RelsOf(p)
  }

  /** The three steps that remove what is not in `referenced`. */
  function WithoutResources(files: set<Path>, referenced: set<Path>): set<Path> {
    files - (set p | p in files && IsResource(p) && p !in referenced)
  }

  function WithoutThemes(files: set<Path>, referenced: set<Path>): set<Path> {
    var themes := OrphanThemes(files, referenced);
    files - themes - RelsOfThemes(themes)
  }

  function WithoutNotes(files: set<Path>, referenced: set<Path>): set<Path> {
    var fs := files - (set p | p in files && IsNotes(p) && p !in referenced);
    fs - (set p | p in fs && IsNotesRels(p) && !HasOwner(fs, p))
  }

  /** The files that stay when only those in `referenced` count as used. */
  function WithoutOrphans(files: set<Path>, referenced: set<Path>): set<Path> {
    WithoutNotes(WithoutThemes(WithoutResources(files, referenced), referenced), referenced)
  }

  function Pass(files: set<Path>, links: Links): set<Path> {
    var fs := files - OrphanRels(files, links);
    WithoutOrphans(fs, Referenced(fs, links))
  }

  function Cleaned(files: set<Path>, links: Links): set<Path>
    decreases |files|
  {
    PassShrinks(files, links);
    if Pass(files, links) == files then files else Cleaned(Pass(files, links), links)
  }

  lemma PassIs(files: set<Path>, links: Links)
    ensures var fs := files - OrphanRels(files, links);
            Pass(files, links) == WithoutOrphans(fs, Referenced(fs, links))
  {
  }

  lemma PassShrinks(files: set<Path>, links: Links)
    ensures Pass(files, links) <= files
    ensures Pass(files, links) != files ==> |Pass(files, links)| < |files|
  {
    hide OrphanRels, Referenced, OrphanThemes, RelsOfThemes, IsResource, IsNotes, IsNotesRels, Owner;
    SmallerSet(Pass(files, links), files);
  }

  lemma SmallerSet(s: set<Path>, t: set<Path>)
    requires s <= t
    ensures s != t ==> |s| < |t|
  {
    assert t == s + (t - s);
  }

  lemma OrphansAreUnsupported(kept: set<Path>, files: set<Path>, referenced: set<Path>, start: set<Path>, links: Links)
    requires Stable(kept, start, links) && kept <= files <= start && Referenced(kept, links) <= referenced
    ensures kept <= WithoutOrphans(files, referenced)
  {
    hide Referenced, SlideReferenced, IsResource, IsResourceRels, IsTheme, IsNotes, IsNotesRels, Owner, RelsOf;
    var fs := WithoutResources(files, referenced);
    assert kept <= fs;
    assert kept <= WithoutThemes(fs, referenced);
  }

  /** No pass removes a file that some stable set holds. */
  lemma PassKeepsStable(kept: set<Path>, files: set<Path>, start: set<Path>, links: Links)
    requires Stable(kept, start, links) && kept <= files <= start
    ensures kept <= Pass(files, links)
  {
    var fs := files - OrphanRels(files, links);
    MoreIsReferenced(kept, files, links);
    assert kept <= fs by {
      hide Referenced, SlideReferenced, IsResource, IsResourceRels, IsTheme, IsNotes, IsNotesRels, Owner, RelsOf;
    }
    MoreIsReferenced(kept, fs, links);
    OrphansAreUnsupported(kept, fs, Referenced(fs, links), start, links);
  }

  lemma PassKeepsThemes(files: set<Path>, start: set<Path>, links: Links)
    requires ThemesKept(files, start)
    ensures ThemesKept(Pass(files, links), start)
  {
    var fs := files - OrphanRels(files, links);
    var referenced := Referenced(fs, links);
    hide Referenced;
    ghost var gs := WithoutResources(fs, referenced);
    assert forall t <- OrphanThemes(gs, referenced) :: RelsOf(t) in RelsOfThemes(OrphanThemes(gs, referenced));
    forall t <- start | IsTheme(t) && RelsOf(t) in Pass(files, links) ensures t in Pass(files, links) {
      KindsAreDisjoint(t);
      assert |t| == 3;
      hide IsTheme, IsResource, IsNotes, Owner, IsRels;
    }
  }

  lemma FixpointIsStable(files: set<Path>, start: set<Path>, links: Links)
    requires Pass(files, links) == files && ThemesKept(files, start)
    ensures Stable(files, start, links)
  {
    var fs := files - OrphanRels(files, links);
    hide Referenced, SlideReferenced, IsResource, IsResourceRels, IsTheme, IsNotes, IsNotesRels, Owner, RelsOf;
    assert fs == files;
    var referenced := Referenced(fs, links);
    var gs := WithoutResources(fs, referenced);
    var hs := WithoutThemes(gs, referenced);
    assert gs == files && hs == files;
    assert files !! OrphanRels(files, links) && files !! OrphanThemes(gs, referenced);
  }

  /** The cleaned files are the greatest stable set among the given ones. */
  lemma {:induction false} CleanedIsGreatestStable(files: set<Path>, start: set<Path>, links: Links)
    requires files <= start && ThemesKept(files, start)
    ensures Cleaned(files, links) <= files && Stable(Cleaned(files, links), start, links)
    ensures forall kept :: Stable(kept, start, links) && kept <= files ==> kept <= Cleaned(files, links)
    decreases |files|
  {
    var next := Pass(files, links);
    PassShrinks(files, links);
    PassKeepsThemes(files, start, links);
    if next == files {
      FixpointIsStable(files, start, links);
    } else {
      hide Pass;
      CleanedIsGreatestStable(next, start, links);
      forall kept | Stable(kept, start, links) && kept <= files ensures kept <= Cleaned(files, links) {
        PassKeepsStable(kept, files, start, links);
      }
    }
  }

  /** A cleaned folder has nothing more to remove. */
  lemma {:induction false} CleaningIsIdempotent(files: set<Path>, links: Links)
    ensures Cleaned(Cleaned(files, links), links) == Cleaned(files, links)
    decreases |files|
  {
    PassShrinks(files, links);
    if Pass(files, links) != files {
      CleaningIsIdempotent(Pass(files, links), links);
    }
  }

  // ---------- Slides ----------

  predicate IsSlideLink(r: Relationship) {
    HasInfix(r.kind, "slide") && HasPrefix(r.target, "slides/")
  }

  function SlideName(target: string): string {
    Without(target, "slides/")
  }

  /** The slide that each relationship id names; a later entry of the same id wins. */
  function SlideNames(rs: seq<Relationship>): map<string, string> {
    if rs == [] then map[]
    else
      var names := SlideNames(rs[..|rs| - 1]);
      var r := rs[|rs| - 1];
      if IsSlideLink(r) then names[r.id := SlideName(r.target)] else names
  }

  /** The slides in the slide list: `ids` are its relationship ids. */
  function ShownSlides(ids: set<string>, rs: seq<Relationship>): set<string> {
    set id | id in ids && id in SlideNames(rs) :: SlideNames(rs)[id]
  }

  const PRESENTATION: Path := ["ppt", "presentation.xml"]
  const PRESENTATION_RELS: Path := ["ppt", "_rels", "presentation.xml.rels"]
  const CONTENT_TYPES: Path := ["[Content_Types].xml"]

  /** The slides listed in the presentation; without one, no slide is. */
  function Listed(files: set<Path>, links: Links, ids: set<string>): set<string> {
    if PRESENTATION in files && PRESENTATION_RELS in files && PRESENTATION_RELS in links
    then ShownSlides(ids, links[PRESENTATION_RELS]) else {}
  }

  function OrphanSlides(files: set<Path>, shown: set<string>): set<Path> {
    set p | p in files && IsSlide(p) && p[2] !in shown
  }

  function RelsOfSlides(slides: set<Path>): set<Path> {
    set p | p in slides && |p| == 3 :: RelsOf(p)
  }

  /** The entries for slides that are not listed. */
  function StaleEntries(rs: seq<Relationship>, shown: set<string>): set<Relationship> {
    set r | r in rs && HasPrefix(r.target, "slides/") && SlideName(r.target) !in shown
  }

  /** The links after the orphan slides went: only a removal makes the presentation forget them. */
  function LinksAfter(files: set<Path>, links: Links, shown: set<string>): Links {
    if OrphanSlides(files, shown) != {} && PRESENTATION_RELS in files && PRESENTATION_RELS in links
    then links[PRESENTATION_RELS := Drop(links[PRESENTATION_RELS], StaleEntries(links[PRESENTATION_RELS], shown))]
    else links
  }

  function WithoutSlideFiles(files: set<Path>, shown: set<string>): set<Path> {
    var slides := OrphanSlides(files, shown);
    files - slides - RelsOfSlides(slides)
  }

  /** The files that the search for unused ones starts from. */
  function WithoutSlidesAndTrash(files: set<Path>, shown: set<string>): set<Path> {
    var fs := WithoutSlideFiles(files, shown);
    fs - (set p | p in fs && IsTrash(p))
  }

  function Drop<T>(s: seq<T>, gone: set<T>): seq<T> {
    if s == [] then [] else (if s[0] in gone then [] else [s[0]]) + Drop(s[1..], gone)
  }

  // ---------- The folder ----------

  /** `removed` lists each deleted file once. */
  ghost predicate Lists(removed: seq<Path>, was: set<Path>, now: set<Path>) {
    now <= was && multiset(removed) == multiset(was - now)
  }

  lemma SlidePaths(files: set<Path>)
    ensures forall p :: IsSlide(p) ==> |p| == 3 && p[0] == "ppt"
  {
  }

  /** Slides and their .rels files are neither the presentation's nor below the trash. */
  lemma SlidesGo(files: set<Path>, shown: set<string>)
    ensures var rest := WithoutSlideFiles(files, shown);
            && (rest == files <==> OrphanSlides(files, shown) == {})
            && (PRESENTATION_RELS in rest <==> PRESENTATION_RELS in files)
            && (forall p :: IsBelowTrash(p) ==> (p in rest <==> p in files))
  {
    assert "slides"[0] == 's' && "_rels"[0] == '_' && "ppt"[0] == 'p' && "[trash]"[0] == '[';
    hide HasPrefix, HasSuffix;
  }

  lemma ListsNothing(removed: seq<Path>, was: set<Path>, now: set<Path>)
    requires Lists(removed, was, now)
    ensures removed == [] <==> was == now
    ensures forall p :: p in removed <==> p in was && p !in now
  {
    assert forall p :: p in removed <==> p in multiset(removed);
    assert forall p :: p in multiset(was - now) <==> p in was - now;
    if removed == [] {
      assert forall p <- was :: p in now;
    } else {
      assert removed[0] in removed;
    }
  }

  lemma ListsMore(r: seq<Path>, more: seq<Path>, s: set<Path>, t: set<Path>, u: set<Path>)
    requires Lists(r, s, t) && Lists(more, t, u)
    ensures Lists(r + more, s, u)
  {
    assert s - u == (s - t) + (t - u);
  }

  lemma ListsNone(s: set<Path>)
    ensures Lists([], s, s)
  {
    assert s - s == {};
  }

  lemma ListsOne(r: seq<Path>, p: Path, s: set<Path>, t: set<Path>)
    requires Lists(r, s, t) && p in t
    ensures Lists(r + [p], s, t - {p})
  {
    assert s - (t - {p}) == (s - t) + {p};
  }

  class Folder {
    var files: set<Path>
    var links: Links
    /** The parts with an override entry in the content types. */
    var overrides: seq<Path>

    constructor (files: set<Path>, links: Links, overrides: seq<Path>)
      ensures this.files == files && this.links == links && this.overrides == overrides
    {
      this.files := files;
      this.links := links;
      this.overrides := overrides;
    }

    /** Gathers what the given .rels files refer to. */
    method CollectTargets(sources: set<Path>) returns (targets: set<Path>)
      ensures targets == TargetsOf(links, sources)
    {
      targets := {};
      var left := sources;
      while left != {}
        invariant left <= sources && targets == TargetsOf(links, sources - left)
      {
        var p :| p in left;
        assert sources - (left - {p}) == (sources - left) + {p};
        targets := targets + Targets(links, p);
        left := left - {p};
      }
      assert sources - left == sources;
    }

    /** Deletes the candidates that nothing refers to, in any order. */
    method RemoveUnreferenced(candidates: set<Path>, referenced: set<Path>) returns (removed: seq<Path>)
      requires candidates <= files
      modifies this`files
      ensures files == old(files) - (candidates - referenced)
      ensures Lists(removed, old(files), files)
    {
      removed := [];
      ListsNone(files);
      hide Lists;
      var left := candidates;
      while left != {}
        invariant left <= candidates && files == old(files) - ((candidates - left) - referenced)
        invariant Lists(removed, old(files), files)
      {
        var p :| p in left;
        if p !in referenced {
          ListsOne(removed, p, old(files), files);
          files := files - {p};
          removed := removed + [p];
        }
        left := left - {p};
      }
    }

    /** Deletes the .rels files whose owner is gone or not in `used`, if that is given, in any order. */
    method RemoveOwnerless(candidates: set<Path>, used: Option<set<Path>>) returns (removed: seq<Path>)
      requires candidates <= files && forall p <- candidates :: |p| == 4
      modifies this`files
      ensures files == old(files) - (set p | p in candidates && (!HasOwner(old(files), p) || (used.Some? && Owner(p) !in used.value)))
      ensures Lists(removed, old(files), files)
    {
      hide Without;
      removed := [];
      ListsNone(files);
      hide Lists;
      var left := candidates;
      while left != {}
        invariant left <= candidates
        invariant files == old(files) - (set p | p in candidates - left && (!HasOwner(old(files), p) || (used.Some? && Owner(p) !in used.value)))
        invariant Lists(removed, old(files), files)
      {
        var p :| p in left;
        if !HasOwner(files, p) || (used.Some? && Owner(p) !in used.value) {
          ListsOne(removed, p, old(files), files);
          files := files - {p};
          removed := removed + [p];
        }
        left := left - {p};
      }
    }

    /** Deletes files together with the .rels files beside them, in any order. */
    method RemoveWithRels(doomed: set<Path>) returns (removed: seq<Path>)
      requires doomed <= files && forall p <- doomed :: |p| == 3
      modifies this`files
      ensures files == old(files) - doomed - (set p | p in doomed :: RelsOf(p))
      ensures Lists(removed, old(files), files)
    {
      removed := [];
      ListsNone(files);
      hide Lists, RelsOf;
      var left := doomed;
      while left != {}
        invariant left <= doomed <= old(files)
        invariant files == old(files) - (doomed - left) - (set p | p in doomed - left :: RelsOf(p))
        invariant Lists(removed, old(files), files)
      {
        var p :| p in left;
        ListsOne(removed, p, old(files), files);
        files := files - {p};
        removed := removed + [p];
        if RelsOf(p) in files {
          ListsOne(removed, RelsOf(p), old(files), files);
          files := files - {RelsOf(p)};
          removed := removed + [RelsOf(p)];
        }
        assert doomed - (left - {p}) == (doomed - left) + {p};
        left := left - {p};
      }
    }

    method RemoveOrphanedRelsFiles() returns (removed: seq<Path>)
      modifies this`files
      ensures files == old(files) - OrphanRels(old(files), links)
      ensures Lists(removed, old(files), files)
    {
      var used := CollectTargets(set p | p in files && IsSlideRels(p));
      removed := RemoveOwnerless((set p | p in files && IsResourceRels(p)), Some(used));
    }

    method GetReferencedFiles() returns (referenced: set<Path>)
      ensures referenced == Referenced(files, links)
    {
      referenced := CollectTargets(set p | p in files && IsRels(p));
    }

    method RemoveOrphanedThemes(referenced: set<Path>) returns (removed: seq<Path>)
      modifies this`files
      ensures files == WithoutThemes(old(files), referenced)
      ensures Lists(removed, old(files), files)
    {
      hide Lists, RelsOf, HasPrefix, HasSuffix;
      removed := RemoveWithRels(set p | p in files && IsTheme(p) && p !in referenced);
    }

    method RemoveOrphanedNotes(referenced: set<Path>) returns (removed: seq<Path>)
      modifies this`files
      ensures files == WithoutNotes(old(files), referenced)
      ensures Lists(removed, old(files), files)
    {
      hide Lists, Owner, HasSuffix;
      removed := RemoveUnreferenced((set p | p in files && IsNotes(p)), referenced);
      ghost var mid := files;
      var more := RemoveOwnerless((set p | p in files && IsNotesRels(p)), None);
      ListsMore(removed, more, old(files), mid, files);
      removed := removed + more;
    }

    method RemoveOrphanedFiles(referenced: set<Path>) returns (removed: seq<Path>)
      modifies this`files
      ensures files == WithoutOrphans(old(files), referenced)
      ensures Lists(removed, old(files), files)
    {
      hide Lists, IsResource, WithoutThemes, WithoutNotes;
      removed := RemoveUnreferenced((set p | p in files && IsResource(p)), referenced);
      ghost var fs1 := files;
      assert fs1 == WithoutResources(old(files), referenced);
      var themes := RemoveOrphanedThemes(referenced);
      ghost var fs2 := files;
      ListsMore(removed, themes, old(files), fs1, fs2);
      var notes := RemoveOrphanedNotes(referenced);
      ListsMore(removed + themes, notes, old(files), fs2, files);
      removed := removed + themes + notes;
    }

    /** Removes until a pass removes nothing. */
    method RemoveUnused() returns (removed: seq<Path>)
      modifies this`files
      ensures files == Cleaned(old(files), links)
      ensures Lists(removed, old(files), files)
    {
      hide Lists, Pass, WithoutOrphans, Referenced, OrphanRels, WithoutResources, WithoutThemes, WithoutNotes;
      removed := [];
      ListsNone(files);
      while true
        invariant Cleaned(files, links) == Cleaned(old(files), links)
        invariant Lists(removed, old(files), files)
        decreases |files|
      {
        ghost var before := files;
        var rels := RemoveOrphanedRelsFiles();
        ghost var mid := files;
        var referenced := GetReferencedFiles();
        var rest := RemoveOrphanedFiles(referenced);
        ListsMore(rels, rest, before, mid, files);
        PassIs(before, links);
        PassShrinks(before, links);
        ListsNothing(rels + rest, before, files);
        if rels + rest == [] {
          return;
        }
        ListsMore(removed, rels + rest, old(files), before, files);
        removed := removed + (rels + rest);
      }
    }
  
    method GetSlidesInSldidlst(ids: set<string>) returns (shown: set<string>)
      ensures shown == Listed(files, links, ids)
    {
      if PRESENTATION !in files || PRESENTATION_RELS !in files || PRESENTATION_RELS !in links {
        return {};
      }
      var names := map[];
      var rs := links[PRESENTATION_RELS];
      for k := 0 to |rs|
        invariant names == SlideNames(rs[..k])
      {
        assert rs[..k + 1][..k] == rs[..k];
        if IsSlideLink(rs[k]) {
          names := names[rs[k].id := SlideName(rs[k].target)];
        }
      }
      assert rs[..|rs|] == rs;
      shown := set id | id in ids && id in names :: names[id];
    }

    /** Removes the slides outside the slide list, whose relationship ids are `ids`. */
    method RemoveOrphanedSlides(ids: set<string>) returns (removed: seq<Path>)
      modifies this`files, this`links
      ensures var shown := Listed(old(files), old(links), ids);
              && files == WithoutSlideFiles(old(files), shown)
              && links == LinksAfter(old(files), old(links), shown)
      ensures Lists(removed, old(files), files)
    {
      hide Lists, RelsOf, Listed, IsSlide;
      var shown := GetSlidesInSldidlst(ids);
      SlidePaths(files);
      removed := RemoveWithRels(set p | p in files && IsSlide(p) && p[2] !in shown);
      SlidesGo(old(files), shown);
      ListsNothing(removed, old(files), files);
      if removed != [] && PRESENTATION_RELS in files && PRESENTATION_RELS in links {
        links := links[PRESENTATION_RELS := Drop(links[PRESENTATION_RELS], StaleEntries(links[PRESENTATION_RELS], shown))];
      }
    }

    /** Deletes what lies in the trash folder, then the folder; that fails when it has subfolders. */
    method RemoveTrashDirectory() returns (removed: seq<Path>, failed: bool)
      modifies this`files
      ensures files == old(files) - (set p | p in old(files) && IsTrash(p))
      ensures Lists(removed, old(files), files)
      ensures failed <==> exists p <- old(files) :: IsBelowTrash(p)
    {
      removed := RemoveUnreferenced((set p | p in files && IsTrash(p)), {});
      failed := exists p <- files :: IsBelowTrash(p);
    }

    /** Drops the overrides of removed files. */
    method UpdateContentTypes(removed: seq<Path>)
      modifies this`overrides
      ensures overrides == if CONTENT_TYPES in files then Drop(old(overrides), set p | p in removed) else old(overrides)
    {
      if CONTENT_TYPES in files {
        var k, kept := 0, [];
        while k < |overrides|
          invariant 0 <= k <= |overrides| && overrides == old(overrides)
          invariant kept + Drop(overrides[k..], set p | p in removed) == Drop(overrides, set p | p in removed)
        {
          assert overrides[k..][1..] == overrides[k + 1..];
          if overrides[k] !in removed {
            kept := kept + [overrides[k]];
          }
          k := k + 1;
        }
        overrides := kept;
      }
    }

    /** The whole cleaning. What is left is the greatest set of files that support one another, the list
        names each deleted file once, and no override of a deleted file is left. */
    method CleanUnusedFiles(ids: set<string>) returns (removed: Option<seq<Path>>)
      modifies this
      ensures removed.None? <==> exists p <- old(files) :: |p| > 2 && p[0] == "[trash]"
      ensures removed.Some? ==>
                var shown := Listed(old(files), old(links), ids);
                var start := WithoutSlidesAndTrash(old(files), shown);
                && links == LinksAfter(old(files), old(links), shown)
                && IsGreatestStable(files, start, links)
                && Lists(removed.value, old(files), files)
                && overrides == if ["[Content_Types].xml"] in files && files != old(files) then Drop(old(overrides), old(files) - files) else old(overrides)
      ensures removed.None? ==> overrides == old(overrides)
    {
      hide Lists, Drop, WithoutSlideFiles, LinksAfter, Cleaned, Stable, Listed;
      var list := RemoveOrphanedSlides(ids);
      SlidesGo(old(files), Listed(old(files), old(links), ids));
      ghost var fs1 := files;
      var trash, failed := RemoveTrashDirectory();
      if failed {
        return None;
      }
      ListsMore(list, trash, old(files), fs1, files);
      ghost var start := WithoutSlidesAndTrash(old(files), Listed(old(files), old(links), ids));
      assert files == start;
      var rest := RemoveUnused();
      ListsMore(list + trash, rest, old(files), start, files);
      CleanedIsGreatestStable(start, start, links);
      list := list + trash + rest;
      ListsNothing(list, old(files), files);
      if list != [] {
        UpdateContentTypes(list);
        assert (set p | p in list) == old(files) - files;
      }
      return Some(list);
    }
  }
}
