/** photoburn.py's reorganisation of the target directory: gather_images
    stages every grouped file into a directory named after its group, and
    clear_similars keeps the best file of one such directory, moves it back
    and deletes the rest. The file system is a map from a directory's path to
    its files, each file a name with the attributes clear_similars reads. */
module Reorganize {
  import opened BestSelection

  /** st_size and the pixel size of an image file. */
  datatype Attrs = Attrs(size: nat, width: nat, height: nat)

  /** A file path, as its parent directory and its name (pathlib's `parent`
      and `name`). */
  datatype FilePath = FilePath(dir: string, name: string)

  /** The directories that exist and the files in them, with attributes. */
  datatype Tree = Tree(dirs: set<string>, files: map<FilePath, Attrs>)

  /** `base / child` for a single path component: base, a separator, then
      the component itself. */
  function Join(base: string, child: string): (path: string)
    ensures |path| == |base| + 1 + |child|
    ensures path[..|base|] == base && path[|base|] == '/' && path[|base| + 1..] == child
  {
    base + "/" + child
  }

  lemma JoinInjective(base: string, a: string, b: string)
    ensures Join(base, a) == Join(base, b) <==> a == b
  {
    if Join(base, a) == Join(base, b) {
      assert a == Join(base, a)[|base| + 1..];
      assert b == Join(base, b)[|base| + 1..];
    }
  }

  /** A naming of group labels that never gives two labels one name (the
      hex md5 digest of the label). */
  ghost predicate Injective(name: string -> string)
  {
    forall a, b :: name(a) == name(b) ==> a == b
  }

  /** `base_path / md5(label).hexdigest()`: a directory directly inside
      base_path, named after the label. */
  function GroupDir(base: string, name: string -> string, lab: string): (d: string)
    ensures |d| > |base| && d[..|base| + 1] == base + "/" && d[|base| + 1..] == name(lab)
  {
    Join(base, name(lab))
  }

  /** Distinct labels get distinct group directories. */
  lemma GroupDirInjective(base: string, name: string -> string, a: string, b: string)
    requires Injective(name)
    ensures GroupDir(base, name, a) == GroupDir(base, name, b) <==> a == b
  {
    JoinInjective(base, name(a), name(b));
  }

  /** mkdir(exist_ok=True): the directory exists afterwards, and an existing
      one keeps its files. */
  function WithDir(t: Tree, d: string): (r: Tree)
    ensures r.dirs == t.dirs + {d} && r.files == t.files
  {
    t.(dirs := t.dirs + {d})
  }

  lemma WithDirIdempotent(t: Tree, d: string)
    ensures WithDir(WithDir(t, d), d) == WithDir(t, d)
    ensures d in t.dirs ==> WithDir(t, d) == t
  {
  }

  /** rename(src, dst / src.name): the file leaves its place and replaces
      whatever file of that name the destination held. */
  function Moved(t: Tree, src: FilePath, dst: string): (r: Tree)
    requires src in t.files
    ensures r.dirs == t.dirs
    ensures FilePath(dst, src.name) in r.files && r.files[FilePath(dst, src.name)] == t.files[src]
    ensures dst != src.dir ==> src !in r.files
    ensures forall f | f in t.files && f != src && f != FilePath(dst, src.name) :: f in r.files && r.files[f] == t.files[f]
    ensures forall f | f in r.files && f != FilePath(dst, src.name) :: f in t.files
  {
    t.(files := (t.files - {src})[FilePath(dst, src.name) := t.files[src]])
  }

  /** unlink(): the file is gone and nothing else changes. */
  function Unlinked(t: Tree, f: FilePath): (r: Tree)
    ensures r.dirs == t.dirs && r.files.Keys == t.files.Keys - {f}
    ensures forall g | g in r.files :: r.files[g] == t.files[g]
  {
    t.(files := t.files - {f})
  }

  /** The source files of the groups. */
  function Sources(groups: seq<(FilePath, string)>): set<FilePath>
  {
    set i | 0 <= i < |groups| :: groups[i].0
  }

  /** The group directories, one per label that occurs. */
  function GroupDirs(base: string, name: string -> string, groups: seq<(FilePath, string)>): (ds: set<string>)
    ensures forall i | 0 <= i < |groups| :: GroupDir(base, name, groups[i].1) in ds
    ensures forall d | d in ds :: |d| > |base| && d[..|base| + 1] == base + "/"
  {
    set i | 0 <= i < |groups| :: GroupDir(base, name, groups[i].1)
  }

  /** Where gather_images puts a grouped file: its name, in its group's
      directory. */
  function Staged(base: string, name: string -> string, g: (FilePath, string)): (f: FilePath)
    ensures f.dir == GroupDir(base, name, g.1) && f.name == g.0.name
    ensures f.dir != g.0.dir ==> f != g.0
  {
    FilePath(GroupDir(base, name, g.1), g.0.name)
  }

  /** What gather_images relies on, and what the grouping step gives it: each
      grouped file listed once, existing, and outside every group directory. */
  ghost predicate Stageable(t: Tree, base: string, name: string -> string, groups: seq<(FilePath, string)>)
  {
    (forall i, j | 0 <= i < j < |groups| :: groups[i].0 != groups[j].0) &&
    (forall i | 0 <= i < |groups| :: groups[i].0 in t.files) &&
    (forall i, j | 0 <= i < |groups| && 0 <= j < |groups| ::
       groups[i].0.dir != GroupDir(base, name, groups[j].1))
  }

  lemma StageablePrefix(t: Tree, base: string, name: string -> string, groups: seq<(FilePath, string)>, n: nat)
    requires Stageable(t, base, name, groups) && n <= |groups|
    ensures Stageable(t, base, name, groups[..n])
  {
  }

  /** The tree after gather_images: for each group in turn, its directory is
      made and its file moved into it. The directories are the old ones and
      the group directories, and every file that is neither grouped nor in a
      group directory keeps its place and attributes. */
  function Gathered(t: Tree, base: string, name: string -> string, groups: seq<(FilePath, string)>): (r: Tree)
    requires Stageable(t, base, name, groups)
    ensures r.dirs == t.dirs + GroupDirs(base, name, groups)
    ensures forall f {:trigger f in t.files} | f in t.files && f.dir !in GroupDirs(base, name, groups) && f !in Sources(groups) ::
              f in r.files && r.files[f] == t.files[f]
  {
    if groups == [] then t
    else
      var init, last := groups[..|groups| - 1], groups[|groups| - 1];
      StageablePrefix(t, base, name, groups, |groups| - 1);
      var prev := Gathered(t, base, name, init);
      var d := GroupDir(base, name, last.1);
      GatherLastPresent(t, base, name, groups, prev);
      GatherLastKeeps(t, base, name, groups, prev);
      Moved(WithDir(prev, d), last.0, d)
  }

  /** If the first groups have been gathered into prev, the last grouped
      file is still where it was. */
  lemma GatherLastPresent(t: Tree, base: string, name: string -> string, groups: seq<(FilePath, string)>, prev: Tree)
    requires Stageable(t, base, name, groups) && groups != []
    requires var init := groups[..|groups| - 1];
             forall f {:trigger f in t.files} | f in t.files && f.dir !in GroupDirs(base, name, init) && f !in Sources(init) ::
               f in prev.files && prev.files[f] == t.files[f]
    ensures groups[|groups| - 1].0 in prev.files
  {
    LastOutside(t, base, name, groups);
    assert groups[|groups| - 1].0 in t.files;
  }

  /** If the first groups have been gathered into prev, gathering the last
      one as well keeps what Gathered promises. */
  lemma GatherLastKeeps(t: Tree, base: string, name: string -> string, groups: seq<(FilePath, string)>, prev: Tree)
    requires groups != [] && groups[|groups| - 1].0 in prev.files
    requires var init := groups[..|groups| - 1];
             && prev.dirs == t.dirs + GroupDirs(base, name, init)
             && forall f {:trigger f in t.files} | f in t.files && f.dir !in GroupDirs(base, name, init) && f !in Sources(init) ::
                  f in prev.files && prev.files[f] == t.files[f]
    ensures var last := groups[|groups| - 1];
            var r := Moved(WithDir(prev, GroupDir(base, name, last.1)), last.0, GroupDir(base, name, last.1));
            && r.dirs == t.dirs + GroupDirs(base, name, groups)
            && forall f {:trigger f in t.files} | f in t.files && f.dir !in GroupDirs(base, name, groups) && f !in Sources(groups) ::
                 f in r.files && r.files[f] == t.files[f]
  {
    var init, last := groups[..|groups| - 1], groups[|groups| - 1];
    var d := GroupDir(base, name, last.1);
    GroupDirsSnoc(base, name, groups);
    SourcesSnoc(groups);
    MovedKeepsUntouched(t, prev, d, last.0, GroupDirs(base, name, init), Sources(init));
  }

  /** A mkdir and a rename leave alone every file that is outside the new
      directory and is not the one moved. */
  lemma MovedKeepsUntouched(t: Tree, prev: Tree, d: string, src: FilePath, dirs: set<string>, srcs: set<FilePath>)
    requires src in prev.files
    requires forall f {:trigger f in t.files} | f in t.files && f.dir !in dirs && f !in srcs ::
               f in prev.files && prev.files[f] == t.files[f]
    ensures var r := Moved(WithDir(prev, d), src, d);
            forall f {:trigger f in t.files} | f in t.files && f.dir !in dirs + {d} && f !in srcs + {src} ::
              f in r.files && r.files[f] == t.files[f]
  {
    var r := Moved(WithDir(prev, d), src, d);
    forall f | f in t.files && f.dir !in dirs + {d} && f !in srcs + {src}
      ensures f in r.files && r.files[f] == t.files[f]
    {
      assert f in prev.files && f != src && f != FilePath(d, src.name);
    }
  }

  /** The tree after gather_images has handled the first n groups. */
  function GatheredPrefix(t: Tree, base: string, name: string -> string, groups: seq<(FilePath, string)>, n: nat): Tree
    requires Stageable(t, base, name, groups) && n <= |groups|
  {
    StageablePrefix(t, base, name, groups, n);
    Gathered(t, base, name, groups[..n])
  }

  /** One turn of gather_images' loop, on a prefix of the groups. */
  lemma GatheredStep(t: Tree, base: string, name: string -> string, groups: seq<(FilePath, string)>, i: nat)
    requires Stageable(t, base, name, groups) && i < |groups|
    ensures groups[i].0 in GatheredPrefix(t, base, name, groups, i).files
    ensures var d := GroupDir(base, name, groups[i].1);
            GatheredPrefix(t, base, name, groups, i + 1) ==
              Moved(WithDir(GatheredPrefix(t, base, name, groups, i), d), groups[i].0, d) &&
            GroupDirs(base, name, groups[..i + 1]) == GroupDirs(base, name, groups[..i]) + {d}
  {
    StageablePrefix(t, base, name, groups, i + 1);
    var prefix := groups[..i + 1];
    assert prefix[..i] == groups[..i] && prefix[i] == groups[i];
    GatheredSnoc(t, base, name, prefix);
    GroupDirsSnoc(base, name, prefix);
  }

  lemma SourcesSnoc(groups: seq<(FilePath, string)>)
    requires groups != []
    ensures Sources(groups) == Sources(groups[..|groups| - 1]) + {groups[|groups| - 1].0}
  {
  }

  /** The last grouped file is none of the earlier ones and lies outside
      their group directories. */
  lemma LastOutside(t: Tree, base: string, name: string -> string, groups: seq<(FilePath, string)>)
    requires Stageable(t, base, name, groups) && groups != []
    ensures var init, last := groups[..|groups| - 1], groups[|groups| - 1];
            last.0 !in Sources(init) && last.0.dir !in GroupDirs(base, name, init)
  {
  }

  lemma GroupDirsSnoc(base: string, name: string -> string, groups: seq<(FilePath, string)>)
    requires groups != []
    ensures GroupDirs(base, name, groups) ==
            GroupDirs(base, name, groups[..|groups| - 1]) + {GroupDir(base, name, groups[|groups| - 1].1)}
  {
  }

  /** Gathering one more group is one more mkdir and rename. */
  lemma GatheredSnoc(t: Tree, base: string, name: string -> string, groups: seq<(FilePath, string)>)
    requires Stageable(t, base, name, groups) && groups != []
    ensures var init, last := groups[..|groups| - 1], groups[|groups| - 1];
            var d := GroupDir(base, name, last.1);
            Stageable(t, base, name, init) && last.0 in Gathered(t, base, name, init).files &&
            Gathered(t, base, name, groups) == Moved(WithDir(Gathered(t, base, name, init), d), last.0, d)
  {
    var init, last := groups[..|groups| - 1], groups[|groups| - 1];
    StageablePrefix(t, base, name, groups, |groups| - 1);
    LastOutside(t, base, name, groups);
    var prev := Gathered(t, base, name, init);
    assert last.0 in t.files;
    assert last.0 in prev.files;
  }

  /** A rename leaves a file alone that is neither the one moved nor the one
      it replaces, and does not bring back a file it did not create. */
  lemma MovedKeeps(t: Tree, src: FilePath, d: string, kept: FilePath, gone: FilePath)
    requires src in t.files && kept in t.files && gone !in t.files
    requires kept != src && kept != FilePath(d, src.name) && gone != FilePath(d, src.name)
    ensures var r := Moved(WithDir(t, d), src, d);
            kept in r.files && r.files[kept] == t.files[kept] && gone !in r.files
  {
  }

  /** A grouped file sits, with its attributes, in its group's directory of
      r and no longer where it was in t. */
  ghost predicate Placed(t: Tree, r: Tree, base: string, name: string -> string, g: (FilePath, string))
  {
    g.0 in t.files && Staged(base, name, g) in r.files &&
    r.files[Staged(base, name, g)] == t.files[g.0] && g.0 !in r.files
  }

  /** The last rename of gather_images keeps every earlier file placed. */
  lemma PlacedKept(t: Tree, base: string, name: string -> string, groups: seq<(FilePath, string)>, i: nat)
    requires Stageable(t, base, name, groups) && i < |groups| - 1
    requires groups[i].0.name != groups[|groups| - 1].0.name
    requires Placed(t, Gathered(t, base, name, groups[..|groups| - 1]), base, name, groups[i])
    ensures Placed(t, Gathered(t, base, name, groups), base, name, groups[i])
  {
    var init, last := groups[..|groups| - 1], groups[|groups| - 1];
    var d := GroupDir(base, name, last.1);
    GatheredSnoc(t, base, name, groups);
    assert groups[i].0.dir != d && last.0.dir != GroupDir(base, name, groups[i].1);
    MovedKeeps(Gathered(t, base, name, init), last.0, d, Staged(base, name, groups[i]), groups[i].0);
  }

  /** The last rename of gather_images places its file. */
  lemma PlacedLast(t: Tree, base: string, name: string -> string, groups: seq<(FilePath, string)>)
    requires Stageable(t, base, name, groups) && groups != []
    ensures Placed(t, Gathered(t, base, name, groups), base, name, groups[|groups| - 1])
  {
    var last := groups[|groups| - 1];
    GatheredSnoc(t, base, name, groups);
    assert last.0.dir != GroupDir(base, name, last.1);
  }

  /** One grouped file, placed by gather_images. */
  lemma {:induction false} PlacedAt(t: Tree, base: string, name: string -> string, groups: seq<(FilePath, string)>, i: nat)
    requires Stageable(t, base, name, groups) && i < |groups|
    requires forall j | i < j < |groups| :: groups[i].0.name != groups[j].0.name
    ensures Placed(t, Gathered(t, base, name, groups), base, name, groups[i])
  {
    if i == |groups| - 1 {
      PlacedLast(t, base, name, groups);
    } else {
      var init := groups[..|groups| - 1];
      StageablePrefix(t, base, name, groups, |groups| - 1);
      assert init[i] == groups[i];
      PlacedAt(t, base, name, init, i);
      PlacedKept(t, base, name, groups, i);
    }
  }

  /** After gather_images every grouped file sits, with its attributes, in its
      group's directory and no longer in its own, when no two grouped files
      share a name (they all come from one directory listing). */
  lemma GatheredPlaces(t: Tree, base: string, name: string -> string, groups: seq<(FilePath, string)>)
    requires Stageable(t, base, name, groups)
    requires forall i, j | 0 <= i < j < |groups| :: groups[i].0.name != groups[j].0.name
    ensures forall i | 0 <= i < |groups| :: Placed(t, Gathered(t, base, name, groups), base, name, groups[i])
  {
    forall i | 0 <= i < |groups|
      ensures Placed(t, Gathered(t, base, name, groups), base, name, groups[i])
    {
      PlacedAt(t, base, name, groups, i);
    }
  }

  /** The set gather_images returns names one directory per distinct label. */
  lemma GroupDirsPerLabel(base: string, name: string -> string, groups: seq<(FilePath, string)>, i: nat, j: nat)
    requires Injective(name) && i < |groups| && j < |groups|
    ensures GroupDir(base, name, groups[i].1) == GroupDir(base, name, groups[j].1) <==> groups[i].1 == groups[j].1
  {
    GroupDirInjective(base, name, groups[i].1, groups[j].1);
  }

  /** `glob('*')` on a directory: every file in it, once each, in some order. */
  ghost function Listing(t: Tree, target: string, order: seq<string>): (listed: bool)
    ensures listed ==> forall n :: FilePath(target, n) in t.files <==> n in order
  {
    (forall i, j | 0 <= i < j < |order| :: order[i] != order[j]) &&
    (forall i | 0 <= i < |order| :: FilePath(target, order[i]) in t.files) &&
    (forall f {:trigger f in t.files} | f in t.files && f.dir == target :: f.name in order)
  }

  /** The best dict that holds the named file of the directory. */
  function EntryAt(t: Tree, target: string, n: string): (e: Entry)
    requires FilePath(target, n) in t.files
    ensures e.file == Some(n)
    ensures var a := t.files[FilePath(target, n)]; e.size == a.size && e.width == a.width && e.height == a.height
  {
    var a := t.files[FilePath(target, n)];
    Entry(Some(n), a.size, a.width, a.height)
  }

  /** The images of a directory in listing order, as update_best sees them. */
  function Images(t: Tree, target: string, order: seq<string>): (images: seq<Image>)
    requires forall i | 0 <= i < |order| :: FilePath(target, order[i]) in t.files
    ensures |images| == |order|
    ensures forall i | 0 <= i < |order| :: EntryOf(images[i]) == EntryAt(t, target, order[i])
  {
    seq(|order|, i requires 0 <= i < |order| =>
      var a := t.files[FilePath(target, order[i])];
      Image(order[i], a.size, a.width, a.height))
  }

  /** The file the scan of a listing settles on, when it completes: a file of
      the directory that dominates every file of it. */
  function Winner(t: Tree, target: string, order: seq<string>, p: Policy): (w: string)
    requires Listing(t, target, order) && order != []
    requires Scan(p, Start(), Images(t, target, order)).Some?
    ensures Scan(p, Start(), Images(t, target, order)).value.file == Some(w)
    ensures FilePath(target, w) in t.files
    ensures forall f {:trigger f in t.files} | f in t.files && f.dir == target :: Dominates(p, EntryAt(t, target, w), EntryAt(t, target, f.name))
  {
    var images := Images(t, target, order);
    ScanPicksImage(p, images);
    ScanDominates(p, Start(), images);
    var b := Scan(p, Start(), images).value;
    var i :| 0 <= i < |order| && b == EntryOf(images[i]);
    assert b == EntryAt(t, target, order[i]);
    forall f | f in t.files && f.dir == target
      ensures Dominates(p, b, EntryAt(t, target, f.name))
    {
      var j :| 0 <= j < |order| && order[j] == f.name;
      assert EntryOf(images[j]) == EntryAt(t, target, f.name);
    }
    b.file.value
  }

  /** The tree after clear_similars' last loop and rmdir: the directory and
      every file in it gone, the rest as it was. */
  function Removed(t: Tree, target: string): (r: Tree)
    ensures r.dirs == t.dirs - {target}
    ensures forall f {:trigger f in r.files} | f in r.files :: f.dir != target && f in t.files && r.files[f] == t.files[f]
    ensures forall f {:trigger f in t.files} | f in t.files && f.dir != target :: f in r.files
  {
    Tree(t.dirs - {target}, map f | f in t.files && f.dir != target :: t.files[f])
  }

  /** The tree after a completed clear_similars: the winner moved into the
      original directory, the group directory and its other files gone. */
  function Promoted(t: Tree, original: string, target: string, w: string): (r: Tree)
    requires FilePath(target, w) in t.files && original != target
    ensures r.dirs == t.dirs - {target}
    ensures forall f {:trigger f in r.files} | f in r.files :: f.dir != target
    ensures FilePath(original, w) in r.files && r.files[FilePath(original, w)] == t.files[FilePath(target, w)]
    ensures forall f {:trigger f in t.files} | f in t.files && f.dir != target && f != FilePath(original, w) ::
              f in r.files && r.files[f] == t.files[f]
    ensures forall f | f in r.files && f != FilePath(original, w) :: f in t.files
  {
    Removed(Moved(t, FilePath(target, w), original), target)
  }

  /** The listing order decides whether a group is cleared: a directory whose
      first two images are incomparable is left as it is, although the third
      dominates both, and listed the other way round it is cleared down to the
      dominant one. */
  lemma OrderDecidesClearing(t: Tree)
    requires t.files == map[FilePath("g", "a") := Attrs(10, 1, 1), FilePath("g", "b") := Attrs(5, 2, 2),
                            FilePath("g", "x") := Attrs(20, 3, 3)]
    ensures Listing(t, "g", ["a", "b", "x"]) && Listing(t, "g", ["x", "a", "b"])
    ensures Scan(All, Start(), Images(t, "g", ["a", "b", "x"])).None?
    ensures Scan(All, Start(), Images(t, "g", ["x", "a", "b"])).Some?
    ensures Winner(t, "g", ["x", "a", "b"], All) == "x"
  {
    IncomparableFirstAborts(t);
    DominantFirstClears(t);
  }

  /** Listed as a, b, x: b cannot be ranked against a, so the scan gives up. */
  lemma IncomparableFirstAborts(t: Tree)
    requires t.files == map[FilePath("g", "a") := Attrs(10, 1, 1), FilePath("g", "b") := Attrs(5, 2, 2),
                            FilePath("g", "x") := Attrs(20, 3, 3)]
    ensures Listing(t, "g", ["a", "b", "x"])
    ensures Scan(All, Start(), Images(t, "g", ["a", "b", "x"])).None?
  {
    var first := Images(t, "g", ["a", "b", "x"]);
    assert first == [Image("a", 10, 1, 1), Image("b", 5, 2, 2), Image("x", 20, 3, 3)];
    assert first[..2][..1] == [first[0]] && first[..2] == [first[0], first[1]];
    assert [first[0]][..0] == [];
    assert Scan(All, Start(), [first[0]]) == Some(EntryOf(first[0]));
    assert Scan(All, Start(), first[..2]).None?;
  }

  /** Listed as x, a, b: x dominates both others, so the scan keeps x. */
  lemma DominantFirstClears(t: Tree)
    requires t.files == map[FilePath("g", "a") := Attrs(10, 1, 1), FilePath("g", "b") := Attrs(5, 2, 2),
                            FilePath("g", "x") := Attrs(20, 3, 3)]
    ensures Listing(t, "g", ["x", "a", "b"])
    ensures Scan(All, Start(), Images(t, "g", ["x", "a", "b"])) == Some(EntryAt(t, "g", "x"))
  {
    var second := Images(t, "g", ["x", "a", "b"]);
    assert second == [Image("x", 20, 3, 3), Image("a", 10, 1, 1), Image("b", 5, 2, 2)];
    assert second[..2][..1] == [second[0]] && second[..2] == [second[0], second[1]];
    assert [second[0]][..0] == [];
    assert Scan(All, Start(), [second[0]]) == Some(EntryOf(second[0]));
    assert Scan(All, Start(), second[..2]) == Some(EntryOf(second[0]));
    assert Scan(All, Start(), second) == Some(EntryOf(second[0]));
  }

  /** The directories and files that gather_images and clear_similars change. */
  class Disk {
    var dirs: set<string>
    var files: map<FilePath, Attrs>

    function State(): Tree
      reads this
    {
      Tree(dirs, files)
    }

    constructor (t: Tree)
      ensures State() == t
    {
      dirs := t.dirs;
      files := t.files;
    }

    /** Path.mkdir(exist_ok=True). */
    method MkDir(d: string)
      modifies this
      ensures State() == WithDir(old(State()), d)
    {
      dirs := dirs + {d};
    }

    /** Path.rename(dst / src.name); the destination directory must exist. */
    method Rename(src: FilePath, dst: string)
      requires src in files && dst in dirs
      modifies this
      ensures State() == Moved(old(State()), src, dst)
    {
      var f := files[src];
      files := (files - {src})[FilePath(dst, src.name) := f];
    }

    /** Path.unlink(). */
    method Unlink(f: FilePath)
      requires f in files
      modifies this
      ensures State() == Unlinked(old(State()), f)
    {
      files := files - {f};
    }

    /** Path.rmdir(), which needs the directory empty. */
    method RmDir(d: string)
      requires d in dirs && forall f {:trigger f in files} | f in files :: f.dir != d
      modifies this
      ensures State() == old(State()).(dirs := old(dirs) - {d})
    {
      dirs := dirs - {d};
    }

    /** One turn of gather_images' loop: make the group's directory and move
        its file into it. */
    method GatherOne(base: string, name: string -> string, g: (FilePath, string))
      requires g.0 in files
      modifies this
      ensures var d := GroupDir(base, name, g.1);
              State() == Moved(WithDir(old(State()), d), g.0, d)
    {
      var d := GroupDir(base, name, g.1);
      MkDir(d);
      Rename(g.0, d);
    }

    /** The end of clear_similars: unlink every file left in the directory,
        in whatever order the listing gives, then remove it. */
    method ClearGroup(target: string)
      requires target in dirs
      modifies this
      ensures State() == Removed(old(State()), target)
    {
      ghost var start := State();
      while exists f {:trigger f in files} | f in files :: f.dir == target
        invariant dirs == start.dirs
        invariant forall f | f in files :: f in start.files && files[f] == start.files[f]
        invariant forall f {:trigger f in start.files} | f in start.files && f.dir != target :: f in files
        decreases |files|
      {
        var f :| f in files && f.dir == target;
        Unlink(f);
      }
      RmDir(target);
      assert files == Removed(start, target).files;
    }

    /** gather_images(base_path, groups): returns the group directories. */
    method GatherImages(base: string, name: string -> string, groups: seq<(FilePath, string)>)
      returns (paths: set<string>)
      requires Stageable(State(), base, name, groups)
      modifies this
      ensures paths == GroupDirs(base, name, groups)
      ensures State() == Gathered(old(State()), base, name, groups)
    {
      paths := {};
      var i := 0;
      while i < |groups|
        invariant 0 <= i <= |groups|
        invariant paths == GroupDirs(base, name, groups[..i])
        invariant State() == GatheredPrefix(old(State()), base, name, groups, i)
      {
        GatheredStep(old(State()), base, name, groups, i);
        GatherOne(base, name, groups[i]);
        paths := paths + {GroupDir(base, name, groups[i].1)};
        i := i + 1;
      }
      assert groups[..|groups|] == groups;
    }

    /** clear_similars(original_path, target_path, best_algorithm) on a
        directory listed as `order`: false when some image cannot be ranked,
        and then nothing is moved or deleted. */
    method ClearSimilars(original: string, target: string, order: seq<string>, algorithm: string)
      returns (cleared: bool)
      requires target in dirs && original in dirs && original != target
      requires Listing(State(), target, order) && order != []
      modifies this
      ensures cleared <==> Scan(PolicyOf(algorithm), Start(), Images(old(State()), target, order)).Some?
      ensures !cleared ==> State() == old(State())
      ensures cleared ==> State() == Promoted(old(State()), original, target,
                                              Winner(old(State()), target, order, PolicyOf(algorithm)))
    {
      var images := Images(State(), target, order);
      var best, ok := FindBest(images, algorithm);
      if !ok {
        return false;
      }
      ghost var w := Winner(State(), target, order, PolicyOf(algorithm));
      var winner := best.file.value;
      Rename(FilePath(target, winner), original);
      ClearGroup(target);
      return true;
    }
  }
}
