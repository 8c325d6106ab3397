/** The audio helpers of `audio_utils.py`: file-name sanitising, where a
    transcript is saved, which uploaded file a transcript belongs to, and the
    ranking of transcripts against a query. Transcription, audio conversion and
    the fuzzy score are oracles. */
module Audio {
  import opened Common
  import opened Ranking

  const SUPPORTED_FORMATS: seq<string> := [".mp3", ".wav", ".m4a", ".flac"]
  const TXT: string := ".txt"
  const PLAY_ROUTE: string := "/play/"

  /** `TRANSCRIPTIONS_FOLDER`, inside the upload folder. */
  function TranscriptionsFolder(uploads: string): string {
    Join(uploads, "transcriptions")
  }

  // ---------------------------------------------------------------------------
  // sanitize_filename

  /** The characters the pattern `[^\w\-_. ]` does not match. */
  predicate Allowed(c: char) {
    IsWordChar(c) || c == '-' || c == '_' || c == '.' || c == ' '
  }

  /** `sanitize_filename(filename)`: every character outside the allowed set is
      deleted. */
  function Sanitize(name: string): string {
    Filter(name, Allowed)
  }

  /** The sanitised name keeps exactly the allowed characters, in their order,
      and is never longer. */
  lemma SanitizeKeepsExactly(name: string)
    ensures |Sanitize(name)| <= |name|
    ensures forall i :: 0 <= i < |Sanitize(name)| ==> Allowed(Sanitize(name)[i]) && Sanitize(name)[i] in name
    ensures forall i :: 0 <= i < |name| && Allowed(name[i]) ==> name[i] in Sanitize(name)
    ensures SubsequenceOf(Sanitize(name), name)
  {
    FilterMembers(name, Allowed);
    FilterIsSubsequence(name, Allowed);
  }

  lemma SanitizeIdempotent(name: string)
    ensures Sanitize(Sanitize(name)) == Sanitize(name)
  {
    FilterIdempotent(name, Allowed);
  }

  /** A name made only of allowed characters comes back unchanged. */
  lemma SanitizeKeepsCleanName(name: string)
    requires forall i :: 0 <= i < |name| ==> Allowed(name[i])
    ensures Sanitize(name) == name
  {
    FilterKeepsAll(name, Allowed);
  }

  /** No separator survives, so a sanitised name stays inside its folder. */
  lemma SanitizeHasNoSeparator(name: string)
    ensures '/' !in Sanitize(name)
  {
    FilterMembers(name, Allowed);
  }

  // ---------------------------------------------------------------------------
  // save_transcription

  /** Where `save_transcription(filename, text)` writes. */
  function TranscriptPath(uploads: string, filename: string): string {
    Join(TranscriptionsFolder(uploads), Sanitize(Stem(filename)) + TXT)
  }

  /** The transcript is the sanitised stem plus ".txt", directly inside the
      transcriptions folder. */
  lemma TranscriptPathShape(uploads: string, filename: string)
    ensures Basename(TranscriptPath(uploads, filename)) == Sanitize(Stem(filename)) + TXT
    ensures EndsWith(Basename(TranscriptPath(uploads, filename)), TXT)
    ensures TranscriptPath(uploads, filename)
         == Join(TranscriptionsFolder(uploads), Basename(TranscriptPath(uploads, filename)))
  {
    var name := Sanitize(Stem(filename)) + TXT;
    assert '/' !in name by {
      SanitizeHasNoSeparator(Stem(filename));
    }
    BasenameOfJoin(TranscriptionsFolder(uploads), name);
  }

  /** The transcripts folder on disk, as a map from path to text. */
  class TranscriptFolder {
    var files: map<string, string>

    constructor(files0: map<string, string>)
      ensures files == files0
    {
      files := files0;
    }

    /** `save_transcription(filename, text)`: writes (or overwrites) one file
        and returns its path. */
    method SaveTranscription(uploads: string, filename: string, text: string) returns (path: string)
      modifies this
      ensures path == TranscriptPath(uploads, filename)
      ensures files == old(files)[path := text]
    {
      var baseName := Sanitize(Stem(filename));
      path := Join(TranscriptionsFolder(uploads), baseName + TXT);
      files := files[path := text];
    }
  }

  // ---------------------------------------------------------------------------
  // str.replace(".txt", "")

  /** `pat` occurs in `s` starting at `i`. */
  predicate OccursAt(s: string, pat: string, i: nat) {
    i + |pat| <= |s| && s[i..i + |pat|] == pat
  }

  ghost predicate Occurs(s: string, pat: string) {
    exists i: nat :: OccursAt(s, pat, i)
  }

  /** `s.replace(pat, "")`: scanning left to right, every non-overlapping
      occurrence of `pat` is deleted. */
  function RemoveAll(s: string, pat: string): (r: string)
    requires pat != []
    ensures |r| <= |s|
    decreases |s|
  {
    if |s| < |pat| then s
    else if s[..|pat|] == pat then RemoveAll(s[|pat|..], pat)
    else [s[0]] + RemoveAll(s[1..], pat)
  }

  /** A name without the pattern is left alone. */
  lemma {:induction false} RemoveAllAbsent(s: string, pat: string)
    requires pat != [] && !Occurs(s, pat)
    ensures RemoveAll(s, pat) == s
    decreases |s|
  {
    if |pat| <= |s| {
      assert !OccursAt(s, pat, 0);
      if !Occurs(s[1..], pat) {
        RemoveAllAbsent(s[1..], pat);
      } else {
        var i: nat :| OccursAt(s[1..], pat, i);
        OccursAfterFirst(s, pat, i);
      }
    }
  }

  /** An occurrence in the tail is an occurrence one position further on. */
  lemma OccursAfterFirst(s: string, pat: string, i: nat)
    requires s != [] && OccursAt(s[1..], pat, i)
    ensures OccursAt(s, pat, i + 1)
  {
    forall j | 0 <= j < |pat|
      ensures s[i + 1..i + 1 + |pat|][j] == pat[j]
    {
      assert s[i + 1..i + 1 + |pat|][j] == s[1..][i..i + |pat|][j];
    }
  }

  /** ".txt" overlaps no shifted copy of itself, so removing it from a
      transcript name whose stem does not contain it gives back the stem. */
  lemma {:induction false} RemoveTxtSuffix(stem: string)
    requires !Occurs(stem, TXT)
    ensures RemoveAll(stem + TXT, TXT) == stem
    decreases |stem|
  {
    var s := stem + TXT;
    if stem == [] {
      assert s == TXT && s[4..] == [];
    } else if |stem| >= 4 {
      assert !OccursAt(stem, TXT, 0);
      assert s[..4] == stem[..4];
      assert s[1..] == stem[1..] + TXT;
      if Occurs(stem[1..], TXT) {
        var i: nat :| OccursAt(stem[1..], TXT, i);
        assert stem[1..][i..i + 4] == stem[i + 1..i + 5];
        assert OccursAt(stem, TXT, i + 1);
      }
      RemoveTxtSuffix(stem[1..]);
    } else {
      assert s[|stem|] == '.';
      assert s[..4] != TXT;
      assert s[1..] == stem[1..] + TXT;
      RemoveTxtSuffix(stem[1..]);
    }
  }

  /** A transcript saved for `filename` is listed back under its sanitised stem,
      provided that stem does not itself contain ".txt". */
  lemma TranscriptNameRoundTrip(uploads: string, filename: string)
    requires !Occurs(Sanitize(Stem(filename)), TXT)
    ensures RemoveAll(Basename(TranscriptPath(uploads, filename)), TXT) == Sanitize(Stem(filename))
  {
    TranscriptPathShape(uploads, filename);
    RemoveTxtSuffix(Sanitize(Stem(filename)));
  }

  /** When the stem does contain ".txt", the listed name loses it as well: the
      transcript of "a.txt.mp3" is listed as "a", not "a.txt". */
  lemma InnerTxtIsLost()
    ensures Sanitize(Stem("a.txt.mp3")) == "a.txt"
    ensures RemoveAll("a.txt" + TXT, TXT) == "a"
  {
    StemOfInnerTxt();
    SanitizeKeepsCleanName("a.txt");
    RemoveAllOfInnerTxt();
  }

  lemma StemOfInnerTxt()
    ensures Stem("a.txt.mp3") == "a.txt"
  {
    assert LastDot("a.txt.mp3") == 5 by {
      assert "a.txt.mp3"[5] == '.';
      assert '.' !in "a.txt.mp3"[6..] by {
        assert "a.txt.mp3"[6..] == "mp3";
      }
    }
    assert ComponentStart("a.txt.mp3") == 0 by {
      assert '/' !in "a.txt.mp3";
      BasenameAfterSeparator([], "a.txt.mp3");
      assert [] + "a.txt.mp3" == "a.txt.mp3";
    }
    assert "a.txt.mp3"[0] != '.';
  }

  lemma RemoveAllOfInnerTxt()
    ensures RemoveAll("a.txt" + TXT, TXT) == "a"
  {
    var s := "a.txt" + TXT;
    assert s[0] == 'a' && s[..4] != TXT;
    assert s[1..] == ".txt.txt" && ".txt.txt"[..4] == TXT && ".txt.txt"[4..] == TXT;
    assert TXT[..4] == TXT && TXT[4..] == [];
  }

  // ---------------------------------------------------------------------------
  // find_original_audio_file

  /** The paths `find_original_audio_file(base_name)` tries, in order. */
  function AudioCandidates(uploads: string, baseName: string): (r: seq<string>)
    ensures |r| == |SUPPORTED_FORMATS|
  {
    seq(|SUPPORTED_FORMATS|, k requires 0 <= k < |SUPPORTED_FORMATS| => Join(uploads, baseName + SUPPORTED_FORMATS[k]))
  }

  /** The first of `paths` for which `present` holds. */
  function FirstPresent(paths: seq<string>, present: string -> bool): Option<string> {
    if paths == [] then None
    else if present(paths[0]) then Some(paths[0])
    else FirstPresent(paths[1..], present)
  }

  /** `FirstPresent` finds a path exactly when one is present, and the one it
      finds is present while none before it is. */
  lemma {:induction false} FirstPresentIsFirst(paths: seq<string>, present: string -> bool)
    ensures FirstPresent(paths, present).None? <==> forall k :: 0 <= k < |paths| ==> !present(paths[k])
    ensures FirstPresent(paths, present).Some? ==>
      exists k :: 0 <= k < |paths| && paths[k] == FirstPresent(paths, present).value && present(paths[k])
        && forall j :: 0 <= j < k ==> !present(paths[j])
  {
    if paths != [] && !present(paths[0]) {
      FirstPresentIsFirst(paths[1..], present);
      if FirstPresent(paths[1..], present).Some? {
        var k :| 0 <= k < |paths[1..]| && paths[1..][k] == FirstPresent(paths[1..], present).value
          && present(paths[1..][k]) && forall j :: 0 <= j < k ==> !present(paths[1..][j]);
        assert paths[k + 1] == paths[1..][k];
        forall j | 0 <= j < k + 1
          ensures !present(paths[j])
        {
          if j > 0 {
            assert paths[j] == paths[1..][j - 1];
          }
        }
      } else {
        forall k | 0 <= k < |paths|
          ensures !present(paths[k])
        {
          if k > 0 {
            assert paths[k] == paths[1..][k - 1];
          }
        }
      }
    } else if paths != [] {
      assert paths[0] == FirstPresent(paths, present).value;
    }
  }

  /** `find_original_audio_file(base_name)`, given which paths exist. */
  method FindOriginalAudioFile(uploads: string, baseName: string, present: string -> bool)
    returns (path: Option<string>)
    ensures path == FirstPresent(AudioCandidates(uploads, baseName), present)
  {
    var candidates := AudioCandidates(uploads, baseName);
    for k := 0 to |SUPPORTED_FORMATS|
      invariant FirstPresent(candidates, present) == FirstPresent(candidates[k..], present)
    {
      var p := Join(uploads, baseName + SUPPORTED_FORMATS[k]);
      assert candidates[k..][0] == p && candidates[k..][1..] == candidates[k + 1..];
      if present(p) {
        return Some(p);
      }
    }
    return None;
  }

  // ---------------------------------------------------------------------------
  // search_audio_files

  /** One result: the name derived from the transcript, its score and the
      playback url of the original file, if one was found. */
  datatype AudioHit = AudioHit(file: string, score: int, url: Option<string>)

  /** The match a listed transcript contributes: ".txt" files that can be read,
      named with every ".txt" removed and scored by `ratio` on the lower-cased
      query and transcript. */
  function MatchOf(f: string, read: string -> File<string>, ratio: (string, string) -> int, query: string)
    : seq<Scored<string>>
  {
    if EndsWith(f, TXT) && read(f).Holds? then
      [Scored(RemoveAll(f, TXT), ratio(Lower(query), Lower(read(f).content)))]
    else []
  }

  /** `MatchOf` as the function the listing loop applies to each name. */
  function Matcher(read: string -> File<string>, ratio: (string, string) -> int, query: string)
    : string -> seq<Scored<string>>
  {
    (f: string) => MatchOf(f, read, ratio, query)
  }

  /** The `matches` list, in listing order. */
  function Matches(listing: seq<string>, read: string -> File<string>, ratio: (string, string) -> int, query: string)
    : seq<Scored<string>>
  {
    FlatMap(listing, Matcher(read, ratio, query))
  }

  /** Every match comes from a readable ".txt" file of the listing, named with
      ".txt" removed and scored on its lower-cased text, and every such file
      gives one. */
  lemma MatchesExactly(listing: seq<string>, read: string -> File<string>,
                       ratio: (string, string) -> int, query: string, e: Scored<string>)
    ensures e in Matches(listing, read, ratio, query) <==>
      exists k :: 0 <= k < |listing| && EndsWith(listing[k], TXT) && read(listing[k]).Holds?
        && e == Scored(RemoveAll(listing[k], TXT), ratio(Lower(query), Lower(read(listing[k]).content)))
  {
    FlatMapMembers(listing, Matcher(read, ratio, query), e);
  }

  /** `"/play/" + basename(path)` for a found original, None otherwise. */
  function UrlFor(original: Option<string>): Option<string> {
    if original.Some? then Some(PLAY_ROUTE + Basename(original.value)) else None
  }

  function HitFor(e: Scored<string>, uploads: string, present: string -> bool): AudioHit {
    AudioHit(e.item, e.score, UrlFor(FirstPresent(AudioCandidates(uploads, e.item), present)))
  }

  function Hits(top: seq<Scored<string>>, uploads: string, present: string -> bool): (r: seq<AudioHit>)
    ensures |r| == |top|
  {
    if top == [] then []
    else Hits(top[..|top| - 1], uploads, present) + [HitFor(top[|top| - 1], uploads, present)]
  }

  lemma {:induction false} HitsAt(top: seq<Scored<string>>, uploads: string, present: string -> bool, i: nat)
    requires i < |top|
    ensures Hits(top, uploads, present)[i] == HitFor(top[i], uploads, present)
  {
    var n := |top| - 1;
    if i < n {
      HitsAt(top[..n], uploads, present, i);
    }
  }

  /** What `search_audio_files(query, top_k)` answers, given whether the
      transcripts folder exists, its listing, which files read, the fuzzy ratio
      and which upload paths exist. */
  function SearchResult(folderExists: bool, listing: seq<string>, read: string -> File<string>,
                        ratio: (string, string) -> int, query: string, topK: int,
                        uploads: string, present: string -> bool): seq<AudioHit>
  {
    if !folderExists then [] else Ranked(Matches(listing, read, ratio, query), topK, uploads, present)
  }

  /** The first `top_k` matches by descending score, with their urls. */
  function Ranked(m: seq<Scored<string>>, topK: int, uploads: string, present: string -> bool): seq<AudioHit> {
    Hits(PyTake(SortByScore(m), topK), uploads, present)
  }

  /** The results are the first `top_k` of the ranked matches, with urls. */
  lemma SearchTop(top: seq<Scored<string>>, uploads: string, present: string -> bool)
    ensures forall i :: 0 <= i < |top| ==>
      Hits(top, uploads, present)[i].file == top[i].item && Hits(top, uploads, present)[i].score == top[i].score
  {
    forall i | 0 <= i < |top|
      ensures Hits(top, uploads, present)[i].file == top[i].item && Hits(top, uploads, present)[i].score == top[i].score
    {
      HitsAt(top, uploads, present, i);
    }
  }

  /** The answer is ranked by score, no longer than `top_k` or than the
      matches, and made of matches. */
  lemma RankedOrder(m: seq<Scored<string>>, topK: int, uploads: string, present: string -> bool)
    ensures var r := Ranked(m, topK, uploads, present);
      && |r| <= |m|
      && (0 <= topK ==> |r| <= topK)
      && (forall i, j :: 0 <= i < j < |r| ==> r[i].score >= r[j].score)
      && (forall i :: 0 <= i < |r| ==> Scored(r[i].file, r[i].score) in m)
  {
    var sorted := SortByScore(m);
    var top := PyTake(sorted, topK);
    assert Descending(sorted) by {
      SortDescending(m);
    }
    SearchTop(top, uploads, present);
    forall i | 0 <= i < |top|
      ensures top[i] in m
    {
      assert top[i] == sorted[i];
      assert sorted[i] in multiset(m);
    }
  }

  /** A match missing from the answer means the cut is full and every result
      scores at least as much as it. */
  lemma RankedOmitsOnlyWhenFull(m: seq<Scored<string>>, topK: nat, uploads: string, present: string -> bool,
                                e: Scored<string>)
    requires e in m
    requires !Listed(Ranked(m, topK, uploads, present), e)
    ensures |Ranked(m, topK, uploads, present)| == topK
    ensures forall i :: 0 <= i < |Ranked(m, topK, uploads, present)| ==> Ranked(m, topK, uploads, present)[i].score >= e.score
  {
    var top := PyTake(SortByScore(m), topK);
    var r := Ranked(m, topK, uploads, present);
    assert r == Hits(top, uploads, present);
    SearchTop(top, uploads, present);
    assert e !in top;
    OmittedRanksLower(m, topK, e);
    forall i | 0 <= i < |r|
      ensures r[i].score >= e.score
    {
      assert r[i].score == top[i].score;
    }
  }

  /** Some result carries the file and score of `e`. */
  predicate Listed(r: seq<AudioHit>, e: Scored<string>) {
    exists i :: 0 <= i < |r| && Scored(r[i].file, r[i].score) == e
  }

  /** Equal scores keep the order of the listing. */
  lemma SearchTiesInListingOrder(listing: seq<string>, read: string -> File<string>,
                                 ratio: (string, string) -> int, query: string, v: int)
    ensures Filter(SortByScore(Matches(listing, read, ratio, query)), WithScore(v))
         == Filter(Matches(listing, read, ratio, query), WithScore(v))
  {
    SortStable(Matches(listing, read, ratio, query), v);
  }

  /** A result has a url exactly when one of its supported originals exists, and
      the url plays the first of them that does. */
  lemma ResultUrl(e: Scored<string>, uploads: string, present: string -> bool)
    ensures var c := AudioCandidates(uploads, e.item);
      && (HitFor(e, uploads, present).url.None? <==> forall k :: 0 <= k < |c| ==> !present(c[k]))
      && (HitFor(e, uploads, present).url.Some? ==>
            exists k :: 0 <= k < |c| && present(c[k]) && (forall j :: 0 <= j < k ==> !present(c[j]))
              && HitFor(e, uploads, present).url.value == PLAY_ROUTE + Basename(c[k]))
  {
    FirstPresentIsFirst(AudioCandidates(uploads, e.item), present);
  }

  method ResolveUrls(top: seq<Scored<string>>, uploads: string, present: string -> bool)
    returns (results: seq<AudioHit>)
    ensures results == Hits(top, uploads, present)
  {
    results := [];
    for i := 0 to |top|
      invariant results == Hits(top[..i], uploads, present)
    {
      assert top[..i + 1][..i] == top[..i];
      var file, score := top[i].item, top[i].score;
      var audioPath := FindOriginalAudioFile(uploads, file, present);
      var url: Option<string>;
      if audioPath.Some? {
        url := Some(PLAY_ROUTE + Basename(audioPath.value));
      } else {
        url := None;
      }
      results := results + [AudioHit(file, score, url)];
    }
    assert top[..|top|] == top;
  }

  /** `search_audio_files(query, top_k)`. */
  method SearchAudioFiles(folderExists: bool, listing: seq<string>, read: string -> File<string>,
                          ratio: (string, string) -> int, query: string, topK: int,
                          uploads: string, present: string -> bool)
    returns (results: seq<AudioHit>)
    ensures results == SearchResult(folderExists, listing, read, ratio, query, topK, uploads, present)
  {
    if !folderExists {
      return [];
    }
    var matches: seq<Scored<string>> := [];
    for i := 0 to |listing|
      invariant matches == Matches(listing[..i], read, ratio, query)
    {
      assert listing[..i + 1] == listing[..i] + [listing[i]];
      FlatMapSnoc(listing[..i], listing[i], Matcher(read, ratio, query));
      var textFile := listing[i];
      if EndsWith(textFile, TXT) {
        var file := read(textFile);
        if file.Holds? {
          var score := ratio(Lower(query), Lower(file.content));
          var audioFile := RemoveAll(textFile, TXT);
          matches := matches + [Scored(audioFile, score)];
        }
      }
    }
    assert listing[..|listing|] == listing;
    var sorted := SortByScore(matches);
    results := ResolveUrls(PyTake(sorted, topK), uploads, present);
  }
}
