/** The video frame index of `video_utils.py`: frames are sampled from each video
    every `frame_interval` seconds, written as `frame_<second>.jpg`, and appended to
    a vector index together with two position-keyed maps (`video_map` from a
    vector position to the video and the time of the frame, `frame_store` from a
    position to the frame file). The vector index is a vector count plus a search
    oracle returning ids; decoding, encoding and the files are oracles too. */
module Video {
  import opened Common

  const FRAME_INTERVAL: nat := 3
  const FRAME_PREFIX: string := "frame_"
  const FRAME_FOLDER: string := "extracted_frames"

  type pos = n: nat | n > 0 witness 1

  /** The time of a frame, `frame_count / fps` seconds, kept as an exact ratio. */
  datatype Timestamp = Timestamp(frame: nat, fps: pos) {
    /** `int(timestamp)` */
    function Second(): nat { frame / fps }
  }

  /** An extracted frame: the image file written and the time it shows. */
  datatype Frame = Frame(path: string, time: Timestamp)

  /** A value of `video_map`: the video a vector came from and the frame's time. */
  datatype VideoEntry = VideoEntry(videoPath: string, time: Timestamp)

  /** What `cv2.VideoCapture` reports: how many reads succeed, and the frame rate. */
  datatype VideoProbe = VideoProbe(decoded: nat, fps: nat)

  // ---------------------------------------------------------------------------
  // Frame file names

  /** The name a frame of second `n` is written under. */
  function FrameFileName(n: nat): string {
    FRAME_PREFIX + NatToString(n) + ".jpg"
  }

  /** `float(f.split('_')[1].split('.')[0])` for a name starting with `frame_`;
      only decimal digits are read as a number. */
  function ParseFrameSecond(name: string): (r: Outcome<nat>)
    requires StartsWith(name, FRAME_PREFIX)
    ensures r.Raised? ==> r.error == "ValueError"
  {
    var field := TakeUntil(TakeUntil(name[|FRAME_PREFIX|..], '_'), '.');
    if |field| > 0 && AllDigits(field) then Done(DigitsValue(field)) else Raised("ValueError")
  }

  /** Reading back the name of a frame gives the second it was written with. */
  lemma FrameNameRoundTrip(n: nat)
    ensures StartsWith(FrameFileName(n), FRAME_PREFIX)
    ensures ParseFrameSecond(FrameFileName(n)) == Done(n)
  {
    var digits := NatToString(n);
    var name := FrameFileName(n);
    assert name[..|FRAME_PREFIX|] == FRAME_PREFIX;
    assert name[|FRAME_PREFIX|..] == digits + ".jpg";
    assert '_' !in digits + ".jpg" by {
      forall i | 0 <= i < |digits| ensures digits[i] != '_' {
        assert IsDigit(digits[i]);
      }
    }
    TakeUntilAppend(digits + ".jpg", [], '_');
    assert digits + ".jpg" + [] == digits + ".jpg";
    assert '.' !in digits by {
      forall i | 0 <= i < |digits| ensures digits[i] != '.' {
        assert IsDigit(digits[i]);
      }
    }
    TakeUntilAppend(digits, ".jpg", '.');
    NatToStringRoundTrip(n);
  }

  // ---------------------------------------------------------------------------
  // extract_frames

  /** The skip path: one frame per `frame_` file of an existing folder, timed at
      the whole second its name gives; any other name in the folder is ignored. */
  function SkipFrames(folder: string, listing: seq<string>): (r: Outcome<seq<Frame>>)
    ensures r.Raised? ==> r.error == "ValueError"
    ensures r.Done? ==> |r.value| <= |listing|
  {
    if listing == [] then Done([])
    else
      var init := SkipFrames(folder, listing[..|listing| - 1]);
      var f := listing[|listing| - 1];
      if init.Raised? || !StartsWith(f, FRAME_PREFIX) then init
      else match ParseFrameSecond(f)
        case Raised(e) => Raised(e)
        case Done(s) => Done(init.value + [Frame(Join(folder, f), Timestamp(s, 1))])
  }

  /** `f.startswith('frame_')` */
  predicate IsFrameName(f: string) {
    StartsWith(f, FRAME_PREFIX)
  }

  /** Every name starts with `frame_` and its second parses. */
  predicate AllParse(names: seq<string>) {
    forall i :: 0 <= i < |names| ==> IsFrameName(names[i]) && ParseFrameSecond(names[i]).Done?
  }

  /** `frames` holds, position by position, the frame each name stands for: the
      joined path, timed at the parsed second. */
  predicate FramesOf(folder: string, names: seq<string>, frames: seq<Frame>) {
    && |frames| == |names|
    && forall i :: 0 <= i < |names| ==>
         && IsFrameName(names[i])
         && ParseFrameSecond(names[i]) == Done(frames[i].time.frame)
         && frames[i] == Frame(Join(folder, names[i]), Timestamp(frames[i].time.frame, 1))
  }

  lemma AllParseSnoc(names: seq<string>, f: string)
    ensures AllParse(names + [f]) <==> AllParse(names) && IsFrameName(f) && ParseFrameSecond(f).Done?
  {
    if AllParse(names + [f]) {
      assert (names + [f])[|names|] == f;
      forall i | 0 <= i < |names|
        ensures IsFrameName(names[i]) && ParseFrameSecond(names[i]).Done?
      {
        assert (names + [f])[i] == names[i];
      }
    }
  }

  lemma FramesOfSnoc(folder: string, names: seq<string>, frames: seq<Frame>, f: string, sec: nat)
    requires FramesOf(folder, names, frames)
    requires IsFrameName(f) && ParseFrameSecond(f) == Done(sec)
    ensures FramesOf(folder, names + [f], frames + [Frame(Join(folder, f), Timestamp(sec, 1))])
  {
  }

  /** On any listing, the skip path succeeds exactly when every `frame_` name
      parses, and then answers one frame per `frame_` name, in listing order, at
      the joined path and the parsed second; all other names are ignored. */
  lemma {:induction false} SkipFramesExactly(folder: string, listing: seq<string>)
    ensures var r, names := SkipFrames(folder, listing), Filter(listing, IsFrameName);
      && (r.Done? <==> AllParse(names))
      && (r.Done? ==> FramesOf(folder, names, r.value))
  {
    if listing != [] {
      var n := |listing| - 1;
      var f := listing[n];
      var names0 := Filter(listing[..n], IsFrameName);
      SkipFramesExactly(folder, listing[..n]);
      assert listing == listing[..n] + [f];
      FilterSnoc(listing[..n], f, IsFrameName);
      if IsFrameName(f) {
        AllParseSnoc(names0, f);
        var init := SkipFrames(folder, listing[..n]);
        if init.Done? && ParseFrameSecond(f).Done? {
          FramesOfSnoc(folder, names0, init.value, f, ParseFrameSecond(f).value);
        }
      }
    }
  }

  /** Frame number `c` of a video decoded at `fps` frames a second. */
  function FrameAt(folder: string, c: nat, fps: pos): Frame {
    Frame(Join(folder, FrameFileName(c / fps)), Timestamp(c, fps))
  }

  /** The first `n` decoded frames, sampled or not. */
  function AllFrames(folder: string, fps: pos, n: nat): seq<Frame> {
    seq(n, c requires 0 <= c => FrameAt(folder, c, fps))
  }

  /** The sampling rule: keep a frame whose whole second is a multiple of `interval`. */
  function OnInterval(interval: pos): Frame -> bool {
    (f: Frame) => f.time.Second() % interval == 0
  }

  /** The frames a fresh extraction of `n` decoded frames keeps. */
  function Sampled(folder: string, fps: pos, interval: pos, n: nat): seq<Frame> {
    Filter(AllFrames(folder, fps, n), OnInterval(interval))
  }

  /** What `extract_frames(video_path, output_folder, interval)` returns, given the
      listing of the video's frame folder (empty when it is missing) and what the
      decoder reports. A zero frame rate or interval raises on the first frame. */
  function Extracted(videoPath: string, outputFolder: string, interval: nat,
                     listing: seq<string>, probe: VideoProbe): Outcome<seq<Frame>>
  {
    var folder := Join(outputFolder, Basename(videoPath));
    if |listing| > 0 then SkipFrames(folder, listing)
    else if probe.decoded == 0 then Done([])
    else if probe.fps == 0 || interval == 0 then Raised("ZeroDivisionError")
    else Done(Sampled(folder, probe.fps, interval, probe.decoded))
  }

  /** `extract_frames`: skips a non-empty frame folder, otherwise reads frames until
      the decoder fails and keeps those on the interval. */
  method ExtractFrames(videoPath: string, outputFolder: string, interval: nat,
                       listing: seq<string>, probe: VideoProbe)
    returns (out: Outcome<seq<Frame>>)
    ensures out == Extracted(videoPath, outputFolder, interval, listing, probe)
  {
    var folder := Join(outputFolder, Basename(videoPath));
    if |listing| > 0 {
      return SkipFrames(folder, listing);
    }
    var frameCount := 0;
    var frames: seq<Frame> := [];
    var success := frameCount < probe.decoded;
    while success
      invariant frameCount <= probe.decoded
      invariant success == (frameCount < probe.decoded)
      invariant frameCount > 0 ==> probe.fps > 0 && interval > 0
      invariant frameCount > 0 ==> frames == Sampled(folder, probe.fps, interval, frameCount)
      invariant frameCount == 0 ==> frames == []
      decreases probe.decoded - frameCount
    {
      if probe.fps == 0 || interval == 0 {
        return Raised("ZeroDivisionError");
      }
      var second := frameCount / probe.fps;
      var all := AllFrames(folder, probe.fps, frameCount + 1);
      assert all == AllFrames(folder, probe.fps, frameCount) + [FrameAt(folder, frameCount, probe.fps)];
      FilterSnoc(AllFrames(folder, probe.fps, frameCount), FrameAt(folder, frameCount, probe.fps), OnInterval(interval));
      if second % interval == 0 {
        frames := frames + [Frame(Join(folder, FrameFileName(second)), Timestamp(frameCount, probe.fps))];
      }
      frameCount := frameCount + 1;
      success := frameCount < probe.decoded;
    }
    return Done(frames);
  }

  /** A fresh extraction keeps exactly the decoded frames on the interval, in decode
      order, each written as `frame_<its second>.jpg` in the video's folder. */
  lemma SampledFrames(folder: string, fps: pos, interval: pos, n: nat)
    ensures var r := Sampled(folder, fps, interval, n);
      && (forall i :: 0 <= i < |r| ==>
            r[i].time.Second() % interval == 0 && r[i].path == Join(folder, FrameFileName(r[i].time.Second())))
      && (forall c: nat :: c < n && (c / fps) % interval == 0 ==> FrameAt(folder, c, fps) in r)
      && SubsequenceOf(r, AllFrames(folder, fps, n))
  {
    var all := AllFrames(folder, fps, n);
    FilterIsSubsequence(all, OnInterval(interval));
    FilterMembers(all, OnInterval(interval));
    forall c: nat | c < n && (c / fps) % interval == 0
      ensures FrameAt(folder, c, fps) in Sampled(folder, fps, interval, n)
    {
      assert all[c] == FrameAt(folder, c, fps);
    }
  }

  /** The file names of frames of the given seconds. */
  function FrameNames(seconds: seq<nat>): (r: seq<string>)
    ensures |r| == |seconds|
  {
    seq(|seconds|, i requires 0 <= i < |seconds| => FrameFileName(seconds[i]))
  }

  /** Frames of the given whole seconds, in the given folder. */
  function SecondFrames(folder: string, seconds: seq<nat>): (r: seq<Frame>)
    ensures |r| == |seconds|
  {
    seq(|seconds|, i requires 0 <= i < |seconds| => Frame(Join(folder, FrameFileName(seconds[i])), Timestamp(seconds[i], 1)))
  }

  /** Names written by a fresh extraction read back, on the skip path, as frames of
      the same seconds in the same order, timed at the whole second. */
  lemma SkipReadsBack(folder: string, seconds: seq<nat>)
    ensures SkipFrames(folder, FrameNames(seconds)) == Done(SecondFrames(folder, seconds))
  {
    var names := FrameNames(seconds);
    forall i | 0 <= i < |names|
      ensures IsFrameName(names[i]) && ParseFrameSecond(names[i]) == Done(seconds[i])
    {
      FrameNameRoundTrip(seconds[i]);
    }
    FilterKeepsAll(names, IsFrameName);
    SkipFramesExactly(folder, names);
    var r := SkipFrames(folder, names);
    assert r.Done?;
    forall i | 0 <= i < |seconds|
      ensures r.value[i] == SecondFrames(folder, seconds)[i]
    {
      assert ParseFrameSecond(names[i]) == Done(r.value[i].time.frame);
    }
    assert r.value == SecondFrames(folder, seconds);
  }

  /** The skip path can report fewer frames than the extraction that filled the
      folder: at 2 frames a second, frames 0 and 1 are both kept and both written
      to `frame_0.jpg`, so the folder then holds one file. */
  lemma SkipCanLoseFrames()
    ensures var probe := VideoProbe(2, 2);
      var first := Extracted("clip.mp4", "out", FRAME_INTERVAL, [], probe);
      var again := Extracted("clip.mp4", "out", FRAME_INTERVAL, [FrameFileName(0)], probe);
      && first.Done? && |first.value| == 2
      && first.value[0].path == first.value[1].path
      && again.Done? && |again.value| == 1
  {
    var folder := Join("out", Basename("clip.mp4"));
    var f0, f1 := FrameAt(folder, 0, 2), FrameAt(folder, 1, 2);
    assert Sampled(folder, 2, FRAME_INTERVAL, 2) == [f0, f1] by {
      assert AllFrames(folder, 2, 2) == [f0, f1];
      FilterKeepsAll([f0, f1], OnInterval(FRAME_INTERVAL));
    }
    assert SkipFrames(folder, [FrameFileName(0)]) == Done(SecondFrames(folder, [0])) by {
      assert FrameNames([0]) == [FrameFileName(0)];
      SkipReadsBack(folder, [0]);
    }
  }

  // ---------------------------------------------------------------------------
  // Position-keyed maps

  /** The keys are exactly the positions `0 .. len - 1`. */
  ghost predicate Dense<V>(m: map<int, V>) {
    forall k :: k in m <==> 0 <= k < |m|
  }

  /** `m[len(m)] = v` for each `v` of `vs` in turn. */
  function Extend<V>(m: map<int, V>, vs: seq<V>): map<int, V> {
    if vs == [] then m
    else var m' := Extend(m, vs[..|vs| - 1]); m'[|m'| := vs[|vs| - 1]]
  }

  /** Appending keeps a dense map dense, leaves its entries as they were and puts
      the new values at the next positions in order. */
  lemma {:induction false} ExtendDense<V>(m: map<int, V>, vs: seq<V>)
    requires Dense(m)
    ensures Dense(Extend(m, vs))
    ensures |Extend(m, vs)| == |m| + |vs|
  {
    if vs != [] {
      var n := |vs| - 1;
      ExtendDense(m, vs[..n]);
      var m' := Extend(m, vs[..n]);
      assert |m'| !in m';
      assert |m'[|m'| := vs[n]]| == |m'| + 1;
    }
  }

  lemma {:induction false} ExtendAppends<V>(m: map<int, V>, vs: seq<V>)
    requires Dense(m)
    ensures Dense(Extend(m, vs))
    ensures |Extend(m, vs)| == |m| + |vs|
    ensures forall k :: k in m ==> Extend(m, vs)[k] == m[k]
    ensures forall j :: 0 <= j < |vs| ==> Extend(m, vs)[|m| + j] == vs[j]
  {
    ExtendDense(m, vs);
    if vs != [] {
      var n := |vs| - 1;
      ExtendAppends(m, vs[..n]);
      var m' := Extend(m, vs[..n]);
      assert Extend(m, vs) == m'[|m'| := vs[n]];
      forall j | 0 <= j < n ensures Extend(m, vs)[|m| + j] == vs[j] {
        assert vs[..n][j] == vs[j];
      }
    }
  }

  // ---------------------------------------------------------------------------
  // The in-memory index and the files

  /** The module globals: the index's vector count and the two maps. */
  datatype VideoMemory = VideoMemory(ntotal: nat, videoMap: map<int, VideoEntry>, frameStore: map<int, string>)

  const EMPTY: VideoMemory := VideoMemory(0, map[], map[])

  /** The two maps are dense and of one size, so they share their keys. */
  ghost predicate Aligned(mem: VideoMemory) {
    Dense(mem.videoMap) && Dense(mem.frameStore) && |mem.videoMap| == |mem.frameStore|
  }

  /** `video_faiss.index` (its vector count), `video_map.npy`,
      `video_frame_store.npy` and `video_embeddings.npy` (its row count). */
  datatype VideoDisk = VideoDisk(indexFile: File<nat>, mapFile: File<map<int, VideoEntry>>,
                                 frameStoreFile: File<map<int, string>>, embeddingsFile: File<nat>)

  /** The map files as this program writes them: both together, aligned. */
  ghost predicate DiskAligned(disk: VideoDisk) {
    && (disk.mapFile.Holds? ==> Dense(disk.mapFile.content))
    && (disk.frameStoreFile.Holds? ==> Dense(disk.frameStoreFile.content))
    && (disk.mapFile.Holds? && disk.frameStoreFile.Holds? ==>
          |disk.mapFile.content| == |disk.frameStoreFile.content|)
  }

  /** `load_existing_data`: nothing when both the index and the map are non-empty;
      from the index file when it and the embeddings file exist (all three
      structures reset on a failed read); from the embeddings when only they exist
      (only the maps reset on a failed read). */
  function Loaded(mem: VideoMemory, disk: VideoDisk): VideoMemory {
    if mem.ntotal > 0 && |mem.videoMap| > 0 then mem
    else if disk.indexFile.Exists() && disk.embeddingsFile.Exists() then
      if disk.indexFile.Holds? && disk.mapFile.Holds? && disk.frameStoreFile.Holds?
      then VideoMemory(disk.indexFile.content, disk.mapFile.content, disk.frameStoreFile.content)
      else EMPTY
    else if disk.embeddingsFile.Exists() then
      if disk.mapFile.Holds? && disk.frameStoreFile.Holds? && disk.embeddingsFile.Holds?
      then VideoMemory(disk.embeddingsFile.content, disk.mapFile.content, disk.frameStoreFile.content)
      else mem.(videoMap := map[], frameStore := map[])
    else mem
  }

  /** `save_index`: the index and both maps are written; the embeddings only when
      the index exposes its vectors (`hasattr(index, 'xb')`). */
  function Saved(disk: VideoDisk, mem: VideoMemory, hasXb: bool): VideoDisk {
    VideoDisk(Holds(mem.ntotal), Holds(mem.videoMap), Holds(mem.frameStore),
              if hasXb then Holds(mem.ntotal) else disk.embeddingsFile)
  }

  /** Loading keeps the maps aligned when the files are. */
  lemma LoadedAligned(mem: VideoMemory, disk: VideoDisk)
    requires Aligned(mem) && DiskAligned(disk)
    ensures Aligned(Loaded(mem, disk))
  {
    assert Aligned(EMPTY);
    assert Aligned(mem.(videoMap := map[], frameStore := map[]));
  }

  /** A load either leaves memory alone, takes everything it holds from the files,
      or resets the maps; a read that fails never leaves a map half loaded. */
  lemma LoadAllOrNothing(mem: VideoMemory, disk: VideoDisk)
    ensures var m := Loaded(mem, disk);
      || m == mem
      || (disk.mapFile.Holds? && disk.frameStoreFile.Holds?
          && m.videoMap == disk.mapFile.content && m.frameStore == disk.frameStoreFile.content)
      || (m.videoMap == map[] && m.frameStore == map[])
  {
  }

  /** What was saved with the embeddings is what a fresh process loads back. */
  lemma ReloadAfterSave(disk: VideoDisk, mem: VideoMemory)
    ensures Loaded(EMPTY, Saved(disk, mem, true)) == mem
  {
  }

  /** Without the embeddings file, a saved index is never loaded: the guard needs
      both files, and the second branch needs the embeddings. */
  lemma SavedWithoutEmbeddingsIsIgnored(disk: VideoDisk, mem: VideoMemory)
    requires disk.embeddingsFile == Absent
    ensures Loaded(EMPTY, Saved(disk, mem, false)) == EMPTY
  {
  }

  // ---------------------------------------------------------------------------
  // search_video

  /** The answer of `search_video` for the ids the index returned for the query
      (three of them, `-1` where there is no vector): only the first id is used. */
  function Top1(videoMap: map<int, VideoEntry>, ids: seq<int>): Option<VideoEntry>
    requires |ids| > 0
  {
    if ids[0] == -1 then None
    else if ids[0] in videoMap then Some(videoMap[ids[0]])
    else None
  }

  /** On a dense map the answer is the entry at the first id exactly when that id
      is a position of the map; the `-1` check then decides nothing, and the
      second and third ids never matter. */
  lemma Top1OnDenseMap(videoMap: map<int, VideoEntry>, ids: seq<int>, other: seq<int>)
    requires Dense(videoMap) && |ids| > 0 && |other| > 0 && other[0] == ids[0]
    ensures Top1(videoMap, ids).Some? <==> 0 <= ids[0] < |videoMap|
    ensures Top1(videoMap, ids).Some? ==> Top1(videoMap, ids).value == videoMap[ids[0]]
    ensures Top1(videoMap, ids) == if ids[0] in videoMap then Some(videoMap[ids[0]]) else None
    ensures Top1(videoMap, other) == Top1(videoMap, ids)
  {
  }

  // ---------------------------------------------------------------------------
  // process_videos

  /** `f.lower().endswith(('.mp4', '.avi', '.mov', '.mkv'))` */
  predicate IsVideoName(f: string) {
    var l := Lower(f);
    EndsWith(l, ".mp4") || EndsWith(l, ".avi") || EndsWith(l, ".mov") || EndsWith(l, ".mkv")
  }

  /** What `process_videos` cannot compute itself: the listing of each frame
      folder, what the decoder reports for each video, and whether each frame file
      encodes (`encode_image` raises "EncodeError" otherwise). */
  datatype World = World(frameListing: string -> seq<string>, probe: string -> VideoProbe,
                         encodes: string -> bool)

  /** One frame to append: its `video_map` value and its `frame_store` value. */
  datatype Item = Item(entry: VideoEntry, framePath: string)

  /** What the frame loop appended, and the exception that ended it, if any. */
  datatype Run = Run(added: seq<Item>, error: Option<string>)

  function ItemsOf(videoPath: string, frames: seq<Frame>): (r: seq<Item>)
    ensures |r| == |frames|
  {
    seq(|frames|, i requires 0 <= i < |frames| => Item(VideoEntry(videoPath, frames[i].time), frames[i].path))
  }

  function Entries(items: seq<Item>): (r: seq<VideoEntry>)
    ensures |r| == |items|
  {
    if items == [] then [] else Entries(items[..|items| - 1]) + [items[|items| - 1].entry]
  }

  function FramePaths(items: seq<Item>): (r: seq<string>)
    ensures |r| == |items|
  {
    if items == [] then [] else FramePaths(items[..|items| - 1]) + [items[|items| - 1].framePath]
  }

  /** How many leading items encode before the first that does not. */
  function EncodedPrefix(items: seq<Item>, encodes: string -> bool): (k: nat)
    ensures k <= |items|
  {
    if items == [] || !encodes(items[0].framePath) then 0
    else 1 + EncodedPrefix(items[1..], encodes)
  }

  /** The first `j` items all encode. */
  ghost predicate AllEncode(items: seq<Item>, encodes: string -> bool, j: nat) {
    forall i :: 0 <= i < j && i < |items| ==> encodes(items[i].framePath)
  }

  lemma AllEncodeNext(items: seq<Item>, encodes: string -> bool, j: nat)
    requires AllEncode(items, encodes, j) && j < |items| && encodes(items[j].framePath)
    ensures AllEncode(items, encodes, j + 1)
  {
  }

  lemma {:induction false} EncodedPrefixAt(items: seq<Item>, encodes: string -> bool, j: nat)
    requires j <= |items|
    requires AllEncode(items, encodes, j)
    requires j == |items| || !encodes(items[j].framePath)
    ensures EncodedPrefix(items, encodes) == j
  {
    if j > 0 {
      assert encodes(items[0].framePath);
      EncodedPrefixAt(items[1..], encodes, j - 1);
    }
  }

  /** The videos of the folder listing, in listing order. */
  function VideoFiles(listing: seq<string>): seq<string> {
    Filter(listing, IsVideoName)
  }

  /** One pass of the video loop of `process_videos` for `video`, followed by
      `rest` (the passes for the videos after it): its frames are extracted into
      `<folder>/extracted_frames/<video>` and appended one by one; an exception
      ends the loop there. */
  function Step(folder: string, video: string, world: World, rest: Run): Run {
    var path := Join(folder, video);
    var frameFolder := Join(folder, FRAME_FOLDER);
    var listing := world.frameListing(Join(frameFolder, Basename(path)));
    match Extracted(path, frameFolder, FRAME_INTERVAL, listing, world.probe(path))
    case Raised(e) => Run([], Some(e))
    case Done(frames) =>
      var items := ItemsOf(path, frames);
      var k := EncodedPrefix(items, world.encodes);
      if k < |items| then Run(items[..k], Some("EncodeError"))
      else Run(items + rest.added, rest.error)
  }

  /** The video loop of `process_videos` over `videos`. */
  function Collect(folder: string, videos: seq<string>, world: World): Run {
    if videos == [] then Run([], None)
    else Step(folder, videos[0], world, Collect(folder, videos[1..], world))
  }

  /** The loop from video `v` on is the pass for `v`, continued by the loop from
      `v + 1` when that pass ends without an exception. */
  lemma CollectNext(folder: string, files: seq<string>, v: nat, world: World)
    requires v < |files|
    ensures var pass, next := Step(folder, files[v], world, Run([], None)), Collect(folder, files[v + 1..], world);
      Collect(folder, files[v..], world) ==
        if pass.error.Some? then pass else Run(pass.added + next.added, next.error)
  {
    assert files[v..][0] == files[v] && files[v..][1..] == files[v + 1..];
    StepThen(folder, files[v], world, Collect(folder, files[v + 1..], world));
  }

  /** The loop invariant of `VideoStore.VideoLoop` carried over video `v`. */
  lemma CollectAdvance(folder: string, files: seq<string>, v: nat, world: World, added: seq<Item>)
    requires v < |files|
    requires Collect(folder, files, world).added == added + Collect(folder, files[v..], world).added
    requires Collect(folder, files, world).error == Collect(folder, files[v..], world).error
    ensures var pass, whole := Step(folder, files[v], world, Run([], None)), Collect(folder, files, world);
      && (pass.error.Some? ==> whole.added == added + pass.added && whole.error == pass.error)
      && (pass.error.None? ==>
            && whole.added == (added + pass.added) + Collect(folder, files[v + 1..], world).added
            && whole.error == Collect(folder, files[v + 1..], world).error)
  {
    CollectNext(folder, files, v, world);
    var pass := Step(folder, files[v], world, Run([], None));
    if pass.error.None? {
      var next := Collect(folder, files[v + 1..], world);
      assert added + (pass.added + next.added) == (added + pass.added) + next.added;
    }
  }

  /** A pass either ends the loop or lets the passes after it continue it. */
  lemma StepThen(folder: string, video: string, world: World, rest: Run)
    ensures var alone := Step(folder, video, world, Run([], None));
      Step(folder, video, world, rest) ==
        if alone.error.Some? then alone else Run(alone.added + rest.added, rest.error)
  {
  }

  /** Every appended entry names a video of the folder. */
  lemma {:induction false} CollectFromVideos(folder: string, videos: seq<string>, world: World)
    ensures forall e :: e in Collect(folder, videos, world).added ==>
      exists v :: v in videos && e.entry.videoPath == Join(folder, v)
  {
    if videos != [] {
      CollectFromVideos(folder, videos[1..], world);
      var r := Collect(folder, videos, world);
      var rest := Collect(folder, videos[1..], world);
      var path := Join(folder, videos[0]);
      var frameFolder := Join(folder, FRAME_FOLDER);
      var listing := world.frameListing(Join(frameFolder, Basename(path)));
      var out := Extracted(path, frameFolder, FRAME_INTERVAL, listing, world.probe(path));
      if out.Done? {
        var items := ItemsOf(path, out.value);
        var k := EncodedPrefix(items, world.encodes);
        assert r.added == (if k < |items| then items[..k] else items + rest.added);
        forall e | e in r.added
          ensures exists v :: v in videos && e.entry.videoPath == Join(folder, v)
        {
          if e in items {
            assert e.entry.videoPath == Join(folder, videos[0]);
            assert videos[0] in videos;
          } else {
            assert e in rest.added;
            var v :| v in videos[1..] && e.entry.videoPath == Join(folder, v);
            assert v in videos;
          }
        }
      }
    }
  }

  lemma ExtendSnoc<V>(m: map<int, V>, vs: seq<V>, x: V)
    ensures Extend(m, vs + [x]) == Extend(m, vs)[|Extend(m, vs)| := x]
  {
    assert (vs + [x])[..|vs|] == vs;
  }

  /** Appending item `j` after items `0 .. j - 1` is appending items `0 .. j`. */
  lemma ExtendByNextItem(m0: map<int, VideoEntry>, f0: map<int, string>, items: seq<Item>, j: nat)
    requires j < |items|
    ensures var vm := Extend(m0, Entries(items[..j]));
      Extend(m0, Entries(items[..j + 1])) == vm[|vm| := items[j].entry]
    ensures var fs := Extend(f0, FramePaths(items[..j]));
      Extend(f0, FramePaths(items[..j + 1])) == fs[|fs| := items[j].framePath]
  {
    assert items[..j + 1][..j] == items[..j];
    ExtendSnoc(m0, Entries(items[..j]), items[j].entry);
    ExtendSnoc(f0, FramePaths(items[..j]), items[j].framePath);
  }

  lemma ExtendStep<V>(m: map<int, V>, vs: seq<V>, x: V)
    requires Dense(m)
    ensures Dense(Extend(m, vs)) && |Extend(m, vs)| == |m| + |vs|
    ensures Extend(m, vs + [x]) == Extend(m, vs)[|Extend(m, vs)| := x]
    ensures Dense(Extend(m, vs + [x]))
  {
    ExtendAppends(m, vs);
    ExtendAppends(m, vs + [x]);
    assert (vs + [x])[..|vs|] == vs;
  }

  /** Appending two runs one after the other is appending their concatenation. */
  lemma {:induction false} ExtendTwice<V>(m: map<int, V>, a: seq<V>, b: seq<V>)
    ensures Extend(Extend(m, a), b) == Extend(m, a + b)
  {
    if b != [] {
      var n := |b| - 1;
      ExtendTwice(m, a, b[..n]);
      assert (a + b)[..|a + b| - 1] == a + b[..n];
    } else {
      assert a + b == a;
    }
  }

  /** Both maps after a pass: the earlier appends, then the pass's. */
  lemma ExtendRun(m0: VideoMemory, added: seq<Item>, more: seq<Item>)
    ensures Extend(Extend(m0.videoMap, Entries(added)), Entries(more)) == Extend(m0.videoMap, Entries(added + more))
    ensures Extend(Extend(m0.frameStore, FramePaths(added)), FramePaths(more)) == Extend(m0.frameStore, FramePaths(added + more))
  {
    ExtendTwice(m0.videoMap, Entries(added), Entries(more));
    ExtendTwice(m0.frameStore, FramePaths(added), FramePaths(more));
    EntriesAppend(added, more);
  }

  lemma {:induction false} EntriesAppend(a: seq<Item>, b: seq<Item>)
    ensures Entries(a + b) == Entries(a) + Entries(b)
    ensures FramePaths(a + b) == FramePaths(a) + FramePaths(b)
  {
    if b != [] {
      var n := |b| - 1;
      assert (a + b)[..|a + b| - 1] == a + b[..n];
      EntriesAppend(a, b[..n]);
    } else {
      assert a + b == a;
    }
  }

  /** The module globals `index`, `video_map` and `frame_store`, and the four files. */
  class VideoStore {
    var ntotal: nat
    var videoMap: map<int, VideoEntry>
    var frameStore: map<int, string>
    var disk: VideoDisk

    function Memory(): VideoMemory
      reads this
    {
      VideoMemory(ntotal, videoMap, frameStore)
    }

    ghost predicate Valid()
      reads this
    {
      Aligned(Memory()) && DiskAligned(disk)
    }

    /** Module import: an empty index and empty maps; the files are whatever an
        earlier run of this program saved. */
    constructor(disk0: VideoDisk)
      requires DiskAligned(disk0)
      ensures Valid()
      ensures Memory() == EMPTY && disk == disk0
    {
      ntotal, videoMap, frameStore, disk := 0, map[], map[], disk0;
    }

    /** `load_existing_data` */
    method LoadExistingData()
      requires Valid()
      modifies this`ntotal, this`videoMap, this`frameStore
      ensures Valid()
      ensures Memory() == Loaded(old(Memory()), disk)
    {
      LoadedAligned(Memory(), disk);
      if ntotal > 0 && |videoMap| > 0 {
        return;
      }
      if disk.indexFile.Exists() && disk.embeddingsFile.Exists() {
        if disk.indexFile.Holds? && disk.mapFile.Holds? && disk.frameStoreFile.Holds? {
          ntotal := disk.indexFile.content;
          videoMap := disk.mapFile.content;
          frameStore := disk.frameStoreFile.content;
        } else {
          ntotal, videoMap, frameStore := 0, map[], map[];
        }
      } else if disk.embeddingsFile.Exists() {
        if disk.mapFile.Holds? && disk.frameStoreFile.Holds? && disk.embeddingsFile.Holds? {
          videoMap := disk.mapFile.content;
          frameStore := disk.frameStoreFile.content;
          ntotal := disk.embeddingsFile.content;
        } else {
          videoMap, frameStore := map[], map[];
        }
      }
    }

    /** `save_index` */
    method SaveIndex(hasXb: bool)
      requires Valid()
      modifies this`disk
      ensures Valid()
      ensures disk == Saved(old(disk), Memory(), hasXb)
    {
      disk := VideoDisk(Holds(ntotal), Holds(videoMap), Holds(frameStore),
                        if hasXb then Holds(ntotal) else disk.embeddingsFile);
    }

    /** `process_videos(video_folder)`, given the folder listing. False when no file
        is a video. Otherwise every frame of every video is appended at the next
        position of both maps; after the loop the vectors are added when there are
        any, the files are saved, and the answer is True, even with no frames. An
        exception stops the loop with the maps already grown, before the vectors
        are added and before anything is saved. */
    method ProcessVideos(folder: string, listing: seq<string>, world: World, hasXb: bool)
      returns (result: Outcome<bool>)
      requires Valid()
      modifies this
      ensures Valid()
      ensures var m0 := Loaded(old(Memory()), old(disk));
        var files := VideoFiles(listing);
        && (files == [] ==> result == Done(false) && Memory() == m0 && disk == old(disk))
        && (files != [] ==>
              var run := Collect(folder, files, world);
              && videoMap == Extend(m0.videoMap, Entries(run.added))
              && frameStore == Extend(m0.frameStore, FramePaths(run.added))
              && (run.error.Some? ==>
                    result == Raised(run.error.value) && ntotal == m0.ntotal && disk == old(disk))
              && (run.error.None? ==>
                    && result == Done(true) && ntotal == m0.ntotal + |run.added|
                    && disk == Saved(old(disk), Memory(), hasXb)))
    {
      LoadExistingData();
      ghost var m0 := Memory();
      var files := VideoFiles(listing);
      if files == [] {
        return Done(false);
      }
      var count, error := VideoLoop(folder, files, world);
      if error.Some? {
        return Raised(error.value);
      }
      if count > 0 {
        ntotal := ntotal + count;
      }
      SaveIndex(hasXb);
      return Done(true);
    }

    /** `video_map[len(video_map)] = ...` and `frame_store[len(frame_store)] = ...`:
        the item goes to the next position of both maps. */
    method AppendFrame(item: Item)
      requires Valid()
      modifies this`videoMap, this`frameStore
      ensures Valid()
      ensures videoMap == old(videoMap)[|old(videoMap)| := item.entry]
      ensures frameStore == old(frameStore)[|old(frameStore)| := item.framePath]
      ensures |videoMap| == |old(videoMap)| + 1
    {
      ExtendStep(videoMap, [], item.entry);
      ExtendStep(frameStore, [], item.framePath);
      videoMap := videoMap[|videoMap| := item.entry];
      frameStore := frameStore[|frameStore| := item.framePath];
    }

    /** The video loop of `process_videos` over `files`: answers how many frames
        were appended and the exception that ended the loop, if any. */
    method VideoLoop(folder: string, files: seq<string>, world: World)
      returns (count: nat, error: Option<string>)
      requires Valid()
      modifies this`videoMap, this`frameStore
      ensures Valid()
      ensures var run := Collect(folder, files, world);
        && error == run.error && count == |run.added|
        && videoMap == Extend(old(videoMap), Entries(run.added))
        && frameStore == Extend(old(frameStore), FramePaths(run.added))
    {
      ghost var m0 := Memory();
      ghost var added: seq<Item> := [];
      count := 0;
      var v := 0;
      while v < |files|
        invariant 0 <= v <= |files|
        invariant Valid()
        invariant count == |added|
        invariant Collect(folder, files, world).added == added + Collect(folder, files[v..], world).added
        invariant Collect(folder, files, world).error == Collect(folder, files[v..], world).error
        invariant videoMap == Extend(m0.videoMap, Entries(added))
        invariant frameStore == Extend(m0.frameStore, FramePaths(added))
      {
        CollectAdvance(folder, files, v, world, added);
        var appended, stop := ProcessVideo(folder, files[v], world);
        ghost var pass := Step(folder, files[v], world, Run([], None));
        ExtendRun(m0, added, pass.added);
        added := added + pass.added;
        count := count + appended;
        if stop.Some? {
          return count, stop;
        }
        v := v + 1;
      }
      assert files[|files|..] == [];
      assert Collect(folder, files[|files|..], world) == Run([], None);
      assert added + [] == added;
      return count, None;
    }

    /** One pass of the video loop: extract the frames of `video`, then append
        each that encodes. Answers the exception that ends the loop, if any. */
    method ProcessVideo(folder: string, video: string, world: World)
      returns (appended: nat, error: Option<string>)
      requires Valid()
      modifies this`videoMap, this`frameStore
      ensures Valid()
      ensures var pass := Step(folder, video, world, Run([], None));
        && error == pass.error && appended == |pass.added|
        && videoMap == Extend(old(videoMap), Entries(pass.added))
        && frameStore == Extend(old(frameStore), FramePaths(pass.added))
    {
      var frameFolder := Join(folder, FRAME_FOLDER);
      var videoPath := Join(folder, video);
      var frames := ExtractFrames(videoPath, frameFolder, FRAME_INTERVAL,
                                  world.frameListing(Join(frameFolder, Basename(videoPath))),
                                  world.probe(videoPath));
      if frames.Raised? {
        return 0, Some(frames.error);
      }
      var items := ItemsOf(videoPath, frames.value);
      appended := AppendFrames(items, world.encodes);
      EncodedPrefixAt(items, world.encodes, appended);
      if appended < |items| {
        return appended, Some("EncodeError");
      }
      assert items[..appended] == items && items + [] == items;
      return appended, None;
    }

    /** The frame loop of `process_videos` for one video: each frame is encoded,
        then appended at the next position of both maps; a frame that does not
        encode raises and ends the loop. Answers how many were appended. */
    method AppendFrames(items: seq<Item>, encodes: string -> bool) returns (appended: nat)
      requires Valid()
      modifies this`videoMap, this`frameStore
      ensures Valid()
      ensures appended <= |items|
      ensures AllEncode(items, encodes, appended)
      ensures appended < |items| ==> !encodes(items[appended].framePath)
      ensures videoMap == Extend(old(videoMap), Entries(items[..appended]))
      ensures frameStore == Extend(old(frameStore), FramePaths(items[..appended]))
    {
      ghost var m0, f0 := videoMap, frameStore;
      appended := 0;
      while appended < |items| && encodes(items[appended].framePath)
        invariant appended <= |items|
        invariant AllEncode(items, encodes, appended)
        invariant videoMap == Extend(m0, Entries(items[..appended]))
        invariant frameStore == Extend(f0, FramePaths(items[..appended]))
        invariant Valid()
      {
        AppendItem(items, appended, m0, f0);
        AllEncodeNext(items, encodes, appended);
        appended := appended + 1;
      }
    }

    /** Item `j` after items `0 .. j - 1`: both maps now hold items `0 .. j`. */
    method AppendItem(items: seq<Item>, j: nat, ghost m0: map<int, VideoEntry>, ghost f0: map<int, string>)
      requires Valid() && j < |items|
      requires videoMap == Extend(m0, Entries(items[..j]))
      requires frameStore == Extend(f0, FramePaths(items[..j]))
      modifies this`videoMap, this`frameStore
      ensures Valid()
      ensures videoMap == Extend(m0, Entries(items[..j + 1]))
      ensures frameStore == Extend(f0, FramePaths(items[..j + 1]))
    {
      ExtendByNextItem(m0, f0, items, j);
      AppendFrame(items[j]);
    }

    /** `search_video(query)`, given the ids the index returns for the query: loads
        the files when needed, then resolves the first id. */
    method SearchVideo(ids: seq<int>) returns (answer: Option<VideoEntry>)
      requires Valid()
      requires |ids| == 3
      modifies this`ntotal, this`videoMap, this`frameStore
      ensures Valid()
      ensures Memory() == Loaded(old(Memory()), disk)
      ensures answer == Top1(videoMap, ids)
      ensures answer.Some? ==> 0 <= ids[0] < |videoMap| && answer.value == videoMap[ids[0]]
    {
      LoadExistingData();
      Top1OnDenseMap(videoMap, ids, ids);
      if ids[0] == -1 {
        return None;
      }
      if ids[0] in videoMap {
        return Some(videoMap[ids[0]]);
      }
      return None;
    }
  }
}
