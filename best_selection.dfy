/** photoburn.py's choice of the best image of a group directory: update_best
    compares one image with the best so far under a selection policy, and
    clear_similars runs it over the directory, giving up on the first image
    it cannot rank. */
module BestSelection {

  datatype Option<T> = None | Some(value: T)

  /** The three selection mechanisms of the --best option. */
  datatype Policy = All | FileSize | Resolution

  /** str.upper() on one character, for ASCII letters. */
  function UpperChar(c: char): (u: char)
    ensures 'a' <= c <= 'z' ==> 'A' <= u <= 'Z'
    ensures !('a' <= c <= 'z') ==> u == c
  {
    if 'a' <= c <= 'z' then (c as int - 32) as char else c
  }

  /** str.upper(), for ASCII letters. */
  function Upper(s: string): (u: string)
    ensures |u| == |s|
    ensures forall i | 0 <= i < |s| :: u[i] == UpperChar(s[i])
  {
    seq(|s|, i requires 0 <= i < |s| => UpperChar(s[i]))
  }

  /** update_best's reading of best_algorithm: upper-cased, and ALL when it
      names none of the three mechanisms. */
  function PolicyOf(name: string): (p: Policy)
    ensures p == FileSize <==> Upper(name) == "FILESIZE"
    ensures p == Resolution <==> Upper(name) == "RESOLUTION"
  {
    var n := Upper(name);
    if n == "FILESIZE" then FileSize
    else if n == "RESOLUTION" then Resolution
    else All
  }

  lemma UpperIdempotent(s: string)
    ensures Upper(Upper(s)) == Upper(s)
  {
    assert forall i | 0 <= i < |s| :: UpperChar(UpperChar(s[i])) == UpperChar(s[i]);
  }

  /** The mechanism does not depend on the case of its name. */
  lemma PolicyIgnoresCase(name: string)
    ensures PolicyOf(Upper(name)) == PolicyOf(name)
  {
    UpperIdempotent(name);
  }

  /** The fallback: a name that is neither FILESIZE nor RESOLUTION in any
      case selects ALL. */
  lemma UnknownNameMeansAll(name: string)
    requires Upper(name) != "FILESIZE" && Upper(name) != "RESOLUTION"
    ensures PolicyOf(name) == All
  {
  }

  /** The `best` dict: the chosen file (None before the first image) and its
      file size, width and height. */
  datatype Entry = Entry(file: Option<string>, size: nat, width: nat, height: nat)

  /** One image of a group directory: its path, st_size and pixel size. */
  datatype Image = Image(path: string, size: nat, width: nat, height: nat)

  /** dict(file=None, file_size=0, width=0, height=0): no file yet, and every
      image dominates it, so the first image always replaces it. */
  function Start(): (e: Entry)
    ensures e.file.None?
    ensures forall p: Policy, c: Image {:trigger Judge(p, e, c)} :: Judge(p, e, c) == Better
  {
    Entry(None, 0, 0, 0)
  }

  /** The best dict after `best.update` with an image: all four fields come
      from the image, so the best then names that image's file. */
  function EntryOf(img: Image): (e: Entry)
    ensures e.file == Some(img.path)
    ensures e.size == img.size && e.width == img.width && e.height == img.height
  {
    Entry(Some(img.path), img.size, img.width, img.height)
  }

  /** update_best's three outcomes: the image replaces the best, is worse
      than it, or cannot be ranked against it. */
  datatype Verdict = Better | Worse | Undetermined

  /** update_best's comparison of image c with the best so far. The verdict
      is sound: Better exactly when the image dominates the best, Worse only
      when the best dominates the image and the image is below it somewhere. */
  function Judge(p: Policy, b: Entry, c: Image): (v: Verdict)
    ensures v == Better <==> Dominates(p, EntryOf(c), b)
    ensures v == Worse ==> Dominates(p, b, EntryOf(c)) && !Dominates(p, EntryOf(c), b)
  {
    match p
    case All =>
      if c.size >= b.size && c.width >= b.width && c.height >= b.height then Better
      else if c.size < b.size && c.width <= b.width && c.height <= b.height then Worse
      else Undetermined
    case FileSize =>
      if c.size >= b.size then Better
      else if c.size < b.size then Worse
      else Undetermined
    case Resolution =>
      if c.width >= b.width && c.height >= b.height then Better
      else if c.width <= b.width && c.height <= b.height then Worse
      else Undetermined
  }

  /** x is at least as good as y in every measure the policy looks at. */
  predicate Dominates(p: Policy, x: Entry, y: Entry)
  {
    match p
    case All => x.size >= y.size && x.width >= y.width && x.height >= y.height
    case FileSize => x.size >= y.size
    case Resolution => x.width >= y.width && x.height >= y.height
  }

  lemma DominatesTransitive(p: Policy, x: Entry, y: Entry, z: Entry)
    requires Dominates(p, x, y) && Dominates(p, y, z)
    ensures Dominates(p, x, z)
  {
  }

  /** FILESIZE always ranks; RESOLUTION fails exactly on incomparable sizes. */
  lemma JudgeUndeterminedWhen(p: Policy, b: Entry, c: Image)
    ensures p == FileSize ==> Judge(p, b, c) != Undetermined
    ensures p == Resolution ==>
              (Judge(p, b, c) == Undetermined <==>
                 (c.width > b.width && c.height < b.height) || (c.width < b.width && c.height > b.height))
    ensures p == All ==>
              (Judge(p, b, c) == Undetermined <==>
                 !Dominates(All, EntryOf(c), b) && !(c.size < b.size && Dominates(All, b, EntryOf(c))))
  {
  }

  /** Under ALL, an image of the same file size but smaller in pixels is not
      ranked: the "worse" test asks for a strictly smaller file. */
  lemma AllEqualSizeSmallerUndetermined(b: Entry, c: Image)
    requires c.size == b.size && c.width <= b.width && c.height <= b.height
    requires c.width < b.width || c.height < b.height
    ensures Judge(All, b, c) == Undetermined
    ensures Dominates(All, b, EntryOf(c))
  {
  }

  /** The best after one call of update_best, or None when it returns False.
      A new best is one of the two compared and at least as good as both; on
      an exact tie the later image replaces the best. */
  function Step(p: Policy, b: Entry, c: Image): (r: Option<Entry>)
    ensures r.None? <==> Judge(p, b, c) == Undetermined
    ensures r.Some? ==> (r.value == b || r.value == EntryOf(c))
    ensures r.Some? ==> Dominates(p, r.value, b) && Dominates(p, r.value, EntryOf(c))
    ensures Judge(p, b, c) == Better ==> r == Some(EntryOf(c))
    ensures Judge(p, b, c) == Worse ==> r == Some(b)
  {
    match Judge(p, b, c)
    case Better => Some(EntryOf(c))
    case Worse => Some(b)
    case Undetermined => None
  }

  /** The loop of clear_similars over a listing: the best after every image,
      or None once an image cannot be ranked. */
  function Scan(p: Policy, start: Entry, images: seq<Image>): (r: Option<Entry>)
    ensures r.Some? ==> Dominates(p, r.value, start)
  {
    if images == [] then Some(start)
    else
      match Scan(p, start, images[..|images| - 1])
      case None => None
      case Some(b) => Step(p, b, images[|images| - 1])
  }

  /** When the scan completes, its best dominates the start and every image. */
  lemma {:induction false} ScanDominates(p: Policy, start: Entry, images: seq<Image>)
    requires Scan(p, start, images).Some?
    ensures var b := Scan(p, start, images).value;
            Dominates(p, b, start) && forall i | 0 <= i < |images| :: Dominates(p, b, EntryOf(images[i]))
  {
    if images != [] {
      var init, last := images[..|images| - 1], images[|images| - 1];
      ScanDominates(p, start, init);
      var prev := Scan(p, start, init).value;
      var b := Scan(p, start, images).value;
      assert Dominates(p, b, prev) && Dominates(p, b, EntryOf(last));
      DominatesTransitive(p, b, prev, start);
      forall i | 0 <= i < |images| ensures Dominates(p, b, EntryOf(images[i])) {
        if i < |init| {
          assert images[i] == init[i];
          DominatesTransitive(p, b, prev, EntryOf(init[i]));
        }
      }
    }
  }

  /** Started from the empty best, a scan that completes over at least one
      image ends on one of the images. */
  lemma {:induction false} ScanPicksImage(p: Policy, images: seq<Image>)
    requires Scan(p, Start(), images).Some? && images != []
    ensures exists i | 0 <= i < |images| :: Scan(p, Start(), images).value == EntryOf(images[i])
    ensures Scan(p, Start(), images).value.file.Some?
  {
    var init, last := images[..|images| - 1], images[|images| - 1];
    var prev := Scan(p, Start(), init).value;
    var b := Scan(p, Start(), images).value;
    if init == [] {
      assert b == EntryOf(images[0]);
    } else if Judge(p, prev, last) == Better {
      assert b == EntryOf(images[|images| - 1]);
    } else {
      ScanPicksImage(p, init);
      var i :| 0 <= i < |init| && prev == EntryOf(init[i]);
      assert b == EntryOf(images[i]);
    }
  }

  /** Under FILESIZE the scan never gives up. */
  lemma {:induction false} ScanFileSizeCompletes(start: Entry, images: seq<Image>)
    ensures Scan(FileSize, start, images).Some?
  {
    if images != [] {
      ScanFileSizeCompletes(start, images[..|images| - 1]);
    }
  }

  /** The `best` dict that update_best updates in place. */
  class Best {
    var file: Option<string>
    var fileSize: nat
    var width: nat
    var height: nat

    function Current(): Entry
      reads this
    {
      Entry(file, fileSize, width, height)
    }

    constructor ()
      ensures Current() == Start()
    {
      file := None;
      fileSize := 0;
      width := 0;
      height := 0;
    }

    /** update_best(best, img, file_size, width, height, best_algorithm):
        False when the image cannot be ranked, and the dict is left as it was. */
    method Update(img: string, size: nat, w: nat, h: nat, algorithm: string) returns (success: bool)
      modifies this
      ensures Step(PolicyOf(algorithm), old(Current()), Image(img, size, w, h)) ==
              if success then Some(Current()) else None
      ensures !success ==> Current() == old(Current())
    {
      var policy := PolicyOf(algorithm);
      if policy == All {
        if size >= fileSize && w >= width && h >= height {
          file, fileSize, width, height := Some(img), size, w, h;
        } else if size < fileSize && w <= width && h <= height {
          return true;
        } else {
          return false;
        }
      } else if policy == FileSize {
        if size >= fileSize {
          file, fileSize, width, height := Some(img), size, w, h;
        } else if size < fileSize {
          return true;
        } else {
          return false;
        }
      } else if policy == Resolution {
        if w >= width && h >= height {
          file, fileSize, width, height := Some(img), size, w, h;
        } else if w <= width && h <= height {
          return true;
        } else {
          return false;
        }
      }
      return true;
    }
  }

  /** The first loop of clear_similars: update the best with every image of
      the listing, and stop at the first one update_best cannot rank. */
  method FindBest(images: seq<Image>, algorithm: string) returns (best: Best, ok: bool)
    ensures fresh(best)
    ensures Scan(PolicyOf(algorithm), Start(), images) == if ok then Some(best.Current()) else None
  {
    best := new Best();
    var i := 0;
    while i < |images|
      invariant 0 <= i <= |images|
      invariant Scan(PolicyOf(algorithm), Start(), images[..i]) == Some(best.Current())
    {
      assert images[..i + 1][..i] == images[..i];
      var img := images[i];
      var success := best.Update(img.path, img.size, img.width, img.height, algorithm);
      if !success {
        ScanStaysNone(PolicyOf(algorithm), Start(), images, i + 1);
        ok := false;
        return;
      }
      i := i + 1;
    }
    assert images[..|images|] == images;
    ok := true;
  }

  /** Once the scan has given up, it stays given up. */
  lemma {:induction false} ScanStaysNone(p: Policy, start: Entry, images: seq<Image>, n: nat)
    requires n <= |images| && Scan(p, start, images[..n]).None?
    ensures Scan(p, start, images).None?
    decreases |images| - n
  {
    if n < |images| {
      assert images[..n + 1][..n] == images[..n];
      ScanStaysNone(p, start, images, n + 1);
    } else {
      assert images[..n] == images;
    }
  }
}
