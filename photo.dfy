/** The photo index of `photo_utils.py`: image files found under a directory are
    preprocessed, the ones that load are encoded into a vector index, and the
    list `valid_paths` maps each vector position to its file. The encoder, the
    index's search and the disk are oracles; the index is its vector count. */
module Photo {
  import opened Common

  // ---------------------------------------------------------------------------
  // get_image_paths

  /** `os.path.splitext(file)[1].lower() in {".jpg", ".jpeg", ".png", ".bmp", ".gif"}` */
  predicate IsImageName(file: string) {
    Lower(Extension(file)) in {".jpg", ".jpeg", ".png", ".bmp", ".gif"}
  }

  /** One directory visited by `os.walk`: its path and the names of its files. */
  datatype WalkDir = WalkDir(root: string, files: seq<string>)

  function JoinAll(root: string, names: seq<string>): (r: seq<string>)
    ensures |r| == |names|
  {
    seq(|names|, i requires 0 <= i < |names| => Join(root, names[i]))
  }

  /** The image paths of one directory, in listing order. */
  function ImagesIn(d: WalkDir): seq<string> {
    JoinAll(d.root, Filter(d.files, IsImageName))
  }

  /** The image paths of a whole walk, directory after directory. */
  function ImagePaths(walk: seq<WalkDir>): seq<string> {
    FlatMap(walk, ImagesIn)
  }

  /** A directory contributes exactly its files with an image extension. */
  lemma ImagesInExactly(d: WalkDir, p: string)
    ensures p in ImagesIn(d) <==> exists f :: f in d.files && IsImageName(f) && p == Join(d.root, f)
  {
    var kept := Filter(d.files, IsImageName);
    FilterMembers(d.files, IsImageName);
    if p in ImagesIn(d) {
      var i :| 0 <= i < |kept| && p == ImagesIn(d)[i];
      assert kept[i] in d.files && IsImageName(kept[i]) && p == Join(d.root, kept[i]);
    }
    if exists f :: f in d.files && IsImageName(f) && p == Join(d.root, f) {
      var f :| f in d.files && IsImageName(f) && p == Join(d.root, f);
      var j :| 0 <= j < |d.files| && d.files[j] == f;
      var i :| 0 <= i < |kept| && kept[i] == f;
      assert ImagesIn(d)[i] == p;
    }
  }

  /** A walk yields exactly the paths of the image files of the directories it
      visits. */
  lemma ImagePathsExactly(walk: seq<WalkDir>, p: string)
    ensures p in ImagePaths(walk) <==>
      exists k, f :: 0 <= k < |walk| && f in walk[k].files && IsImageName(f) && p == Join(walk[k].root, f)
  {
    FlatMapMembers(walk, ImagesIn, p);
    if p in ImagePaths(walk) {
      var k :| 0 <= k < |walk| && p in ImagesIn(walk[k]);
      ImagesInExactly(walk[k], p);
    }
    if exists k, f :: 0 <= k < |walk| && f in walk[k].files && IsImageName(f) && p == Join(walk[k].root, f) {
      var k, f :| 0 <= k < |walk| && f in walk[k].files && IsImageName(f) && p == Join(walk[k].root, f);
      ImagesInExactly(walk[k], p);
    }
  }

  lemma JoinAllSnoc(root: string, names: seq<string>, name: string)
    ensures JoinAll(root, names + [name]) == JoinAll(root, names) + [Join(root, name)]
  {
  }

  /** One file of the inner loop: the paths so far extend by that file's path
      exactly when it has an image extension. */
  lemma ImagesInNext(d: WalkDir, j: nat)
    requires j < |d.files|
    ensures JoinAll(d.root, Filter(d.files[..j + 1], IsImageName))
         == JoinAll(d.root, Filter(d.files[..j], IsImageName))
            + (if IsImageName(d.files[j]) then [Join(d.root, d.files[j])] else [])
  {
    assert d.files[..j + 1] == d.files[..j] + [d.files[j]];
    FilterSnoc(d.files[..j], d.files[j], IsImageName);
    if IsImageName(d.files[j]) {
      JoinAllSnoc(d.root, Filter(d.files[..j], IsImageName), d.files[j]);
    }
  }

  /** The inner loop of `get_image_paths`: the image files of one directory are
      appended to the paths found so far. */
  method AppendImagesOf(paths: seq<string>, d: WalkDir) returns (r: seq<string>)
    ensures r == paths + ImagesIn(d)
  {
    r := paths;
    ghost var found := [];
    for j := 0 to |d.files|
      invariant found == JoinAll(d.root, Filter(d.files[..j], IsImageName))
      invariant r == paths + found
    {
      ImagesInNext(d, j);
      if IsImageName(d.files[j]) {
        r := r + [Join(d.root, d.files[j])];
        found := found + [Join(d.root, d.files[j])];
      }
    }
    assert d.files[..|d.files|] == d.files;
  }

  /** `get_image_paths(directory)`, given what `os.walk` visits. */
  method GetImagePaths(walk: seq<WalkDir>) returns (paths: seq<string>)
    ensures paths == ImagePaths(walk)
  {
    paths := [];
    for k := 0 to |walk|
      invariant paths == FlatMap(walk[..k], ImagesIn)
    {
      paths := AppendImagesOf(paths, walk[k]);
      FlatMapNext(walk, k, ImagesIn);
    }
    assert walk[..|walk|] == walk;
  }

  // ---------------------------------------------------------------------------
  // The store

  /** A preprocessed image tensor, known by the file it came from. */
  datatype Image = Image(source: string)

  /** `photo_faiss.index` (its vector count) and `photo_image_map.npy`. */
  datatype PhotoDisk = PhotoDisk(indexFile: File<nat>, mapFile: File<seq<string>>)

  /** Replies of `index_images_from_directory`. */
  datatype IndexReply = IndexError(error: string) | Indexed(count: nat) {
    function Message(): string {
      match this
      case IndexError(e) => e
      case Indexed(n) => "Successfully indexed " + NatToString(n) + " images!"
    }
  }

  const INVALID_DIRECTORY: string := "Invalid directory"
  const NO_IMAGES: string := "No images found in the directory."
  const NO_VALID_IMAGES: string := "No valid images could be processed."
  const NOT_INDEXED: string := "Index not found. Please index images first."

  /** One result of `search_images_by_text`: the file and its distance. */
  datatype PhotoHit = PhotoHit(path: string, score: real)

  /** Replies of `search_images_by_text`. */
  datatype SearchReply = NotIndexed | Results(hits: seq<PhotoHit>) {
    function Message(): string
      requires NotIndexed?
    {
      NOT_INDEXED
    }
  }

  /** One entry of the search's answer: a vector position (`-1` for none) and its
      distance. */
  datatype Candidate = Candidate(id: int, distance: real)

  function Candidates(ids: seq<int>, distances: seq<real>): (r: seq<Candidate>)
    requires |ids| == |distances|
    ensures |r| == |ids|
  {
    seq(|ids|, j requires 0 <= j < |ids| => Candidate(ids[j], distances[j]))
  }

  /** `i != -1 and i < len(valid_paths)` */
  function Resolvable(count: nat): Candidate -> bool {
    (c: Candidate) => c.id != -1 && c.id < count
  }

  /** Every kept candidate names a position of a list of `count` paths. */
  predicate AllResolve(kept: seq<Candidate>, count: nat) {
    forall t :: 0 <= t < |kept| ==> 0 <= kept[t].id < count
  }

  function HitsOf(paths: seq<string>, kept: seq<Candidate>): (r: seq<PhotoHit>)
    requires AllResolve(kept, |paths|)
    ensures |r| == |kept|
  {
    seq(|kept|, t requires 0 <= t < |kept| => PhotoHit(paths[kept[t].id], kept[t].distance))
  }

  /** The result loop of `search_images_by_text`: the candidates whose id is a
      position of `valid_paths`, in the backend's order, each resolved to its path. */
  function Resolve(paths: seq<string>, ids: seq<int>, distances: seq<real>): seq<PhotoHit>
    requires |ids| == |distances|
    requires forall j :: 0 <= j < |ids| ==> ids[j] >= -1
  {
    var all := Candidates(ids, distances);
    FilterMembers(all, Resolvable(|paths|));
    var kept := Filter(all, Resolvable(|paths|));
    assert AllResolve(kept, |paths|);
    HitsOf(paths, kept)
  }

  /** The results are never more than the candidates, keep their order, resolve
      only positions of `valid_paths`, and leave out none of them. */
  lemma ResolveProperties(paths: seq<string>, ids: seq<int>, distances: seq<real>)
    requires |ids| == |distances|
    requires forall j :: 0 <= j < |ids| ==> ids[j] >= -1
    ensures var all, r := Candidates(ids, distances), Resolve(paths, ids, distances);
      var kept := Filter(all, Resolvable(|paths|));
      && |r| == |kept| <= |ids|
      && SubsequenceOf(kept, all)
      && (forall t :: 0 <= t < |r| ==> 0 <= kept[t].id < |paths| && r[t] == PhotoHit(paths[kept[t].id], kept[t].distance))
      && (forall j :: 0 <= j < |ids| && 0 <= ids[j] < |paths| ==> all[j] in kept)
  {
    var all := Candidates(ids, distances);
    FilterMembers(all, Resolvable(|paths|));
    FilterIsSubsequence(all, Resolvable(|paths|));
  }

  /** With `valid_paths` empty every search answers no result, whatever the index
      still holds. */
  lemma ResolveWithNoPaths(ids: seq<int>, distances: seq<real>)
    requires |ids| == |distances|
    requires forall j :: 0 <= j < |ids| ==> ids[j] >= -1
    ensures Resolve([], ids, distances) == []
  {
    var all := Candidates(ids, distances);
    assert forall j :: 0 <= j < |all| ==> !Resolvable(0)(all[j]);
    FilterKeepsNone(all, Resolvable(0));
  }

  /** One candidate of the result loop: it is kept, and its hit added, exactly
      when it resolves. */
  lemma ResolveNext(paths: seq<string>, all: seq<Candidate>, j: nat, kept: seq<Candidate>)
    requires j < |all| && all[j].id >= -1
    requires kept == Filter(all[..j], Resolvable(|paths|))
    requires AllResolve(kept, |paths|)
    ensures Filter(all[..j + 1], Resolvable(|paths|))
         == kept + (if Resolvable(|paths|)(all[j]) then [all[j]] else [])
    ensures Resolvable(|paths|)(all[j]) ==>
      AllResolve(kept + [all[j]], |paths|)
      && HitsOf(paths, kept + [all[j]]) == HitsOf(paths, kept) + [PhotoHit(paths[all[j].id], all[j].distance)]
  {
    assert all[..j + 1] == all[..j] + [all[j]];
    FilterSnoc(all[..j], all[j], Resolvable(|paths|));
  }

  /** The result loop of `search_images_by_text`. */
  method ResolveCandidates(paths: seq<string>, ids: seq<int>, distances: seq<real>) returns (hits: seq<PhotoHit>)
    requires |ids| == |distances|
    requires forall j :: 0 <= j < |ids| ==> ids[j] >= -1
    ensures hits == Resolve(paths, ids, distances)
  {
    var all := Candidates(ids, distances);
    hits := [];
    ghost var kept: seq<Candidate> := [];
    for j := 0 to |ids|
      invariant kept == Filter(all[..j], Resolvable(|paths|))
      invariant AllResolve(kept, |paths|)
      invariant hits == HitsOf(paths, kept)
    {
      ResolveNext(paths, all, j, kept);
      var i := ids[j];
      if i != -1 && i < |paths| {
        hits := hits + [PhotoHit(paths[i], distances[j])];
        kept := kept + [all[j]];
      }
    }
    assert all[..|ids|] == all;
  }

  /** The module globals `index` and `valid_paths`, and the two files. */
  class PhotoStore {
    var index: Option<nat>
    var validPaths: seq<string>
    var disk: PhotoDisk

    /** Module import: no index, no paths; the files are whatever an earlier run saved. */
    constructor(disk0: PhotoDisk)
      ensures index == None && validPaths == [] && disk == disk0
    {
      index, validPaths, disk := None, [], disk0;
    }

    /** `save_index`: writes nothing while there is no index. */
    method SaveIndex()
      modifies this`disk
      ensures disk == if index.None? then old(disk) else PhotoDisk(Holds(index.value), Holds(validPaths))
    {
      if index.Some? {
        disk := PhotoDisk(Holds(index.value), Holds(validPaths));
      }
    }

    /** `load_existing_index`: False unless both files exist and load. The index is
        read first, so an unreadable map leaves the new index beside the old
        `valid_paths`. */
    method LoadExistingIndex() returns (loaded: bool)
      modifies this`index, this`validPaths
      ensures loaded == (disk.indexFile.Holds? && disk.mapFile.Holds?)
      ensures index == if disk.indexFile.Holds? && disk.mapFile.Exists() then Some(disk.indexFile.content) else old(index)
      ensures validPaths == if loaded then disk.mapFile.content else old(validPaths)
    {
      if disk.indexFile.Exists() && disk.mapFile.Exists() {
        match disk.indexFile
        case Unreadable =>
          return false;
        case Holds(n) =>
          index := Some(n);
          match disk.mapFile
          case Unreadable =>
            return false;
          case Holds(paths) =>
            validPaths := paths;
            return true;
      }
      return false;
    }

    /** `preprocess_images(image_paths)`, where `loads` says which files open as
        images: `valid_paths` is emptied, then gets each path that loads, in order,
        beside its image. */
    method PreprocessImages(paths: seq<string>, loads: string -> bool) returns (images: seq<Image>)
      modifies this`validPaths
      ensures validPaths == Filter(paths, loads)
      ensures |images| == |validPaths|
      ensures forall i :: 0 <= i < |images| ==> images[i] == Image(validPaths[i])
    {
      images := [];
      validPaths := [];
      for i := 0 to |paths|
        invariant validPaths == Filter(paths[..i], loads)
        invariant |images| == |validPaths|
        invariant forall k :: 0 <= k < |images| ==> images[k] == Image(validPaths[k])
      {
        assert paths[..i + 1] == paths[..i] + [paths[i]];
        FilterSnoc(paths[..i], paths[i], loads);
        if loads(paths[i]) {
          images := images + [Image(paths[i])];
          validPaths := validPaths + [paths[i]];
        }
      }
      assert paths[..|paths|] == paths;
    }

    /** `index_images_from_directory(directory)`, given whether the directory
        exists, what `os.walk` visits and which files load. The checks come in
        order; on success the index is rebuilt from the surviving images only and
        saved at once. When no image loads, `valid_paths` is already empty while
        the old index stays. */
    method IndexImagesFromDirectory(exists_: bool, walk: seq<WalkDir>, loads: string -> bool)
      returns (reply: IndexReply)
      modifies this
      ensures var paths := ImagePaths(walk);
        var survivors := Filter(paths, loads);
        && (!exists_ ==> reply == IndexError(INVALID_DIRECTORY) && unchanged(this))
        && (exists_ && paths == [] ==> reply == IndexError(NO_IMAGES) && unchanged(this))
        && (exists_ && paths != [] && survivors == [] ==>
              && reply == IndexError(NO_VALID_IMAGES)
              && validPaths == [] && index == old(index) && disk == old(disk))
        && (exists_ && survivors != [] ==>
              && reply == Indexed(|survivors|)
              && validPaths == survivors && index == Some(|survivors|)
              && disk == PhotoDisk(Holds(|survivors|), Holds(survivors)))
    {
      if !exists_ {
        return IndexError(INVALID_DIRECTORY);
      }
      var paths := GetImagePaths(walk);
      if paths == [] {
        return IndexError(NO_IMAGES);
      }
      var images := PreprocessImages(paths, loads);
      if images == [] {
        return IndexError(NO_VALID_IMAGES);
      }
      index := Some(|images|);
      SaveIndex();
      return Indexed(|images|);
    }

    /** `search_images_by_text(query, top_k)`, given the `top_k` ids and distances
        the index answers for the query: loads the files when there is no index,
        then keeps the ids that are positions of `valid_paths`. */
    method SearchImagesByText(topK: int, ids: seq<int>, distances: seq<real>) returns (reply: SearchReply)
      requires topK >= 1 && |ids| == topK && |distances| == topK
      requires forall j :: 0 <= j < |ids| ==> ids[j] >= -1
      modifies this`index, this`validPaths
      ensures old(index).Some? ==> index == old(index) && validPaths == old(validPaths)
      ensures old(index).None? ==>
        && index == (if disk.indexFile.Holds? && disk.mapFile.Exists() then Some(disk.indexFile.content) else None)
        && validPaths == (if disk.indexFile.Holds? && disk.mapFile.Holds? then disk.mapFile.content else old(validPaths))
      ensures reply.NotIndexed? <==> old(index).None? && !(disk.indexFile.Holds? && disk.mapFile.Holds?)
      ensures reply.Results? ==> reply.hits == Resolve(validPaths, ids, distances) && |reply.hits| <= topK
    {
      if index.None? {
        var loaded := LoadExistingIndex();
        if !loaded {
          return NotIndexed;
        }
      }
      var hits := ResolveCandidates(validPaths, ids, distances);
      ResolveProperties(validPaths, ids, distances);
      return Results(hits);
    }
  }
}
