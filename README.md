# Local media search: a verified model of its indexing and search core

The system is a desktop search tool over four kinds of local media. It has four
Python back-end modules:

- **Video** (`video_utils.py`): samples frames from each video every few
  seconds and writes them as `frame_<second>.jpg`. It encodes each frame into a
  vector index and keeps two position-keyed maps, `video_map` (vector position
  to video and timestamp) and `frame_store` (vector position to frame file). A
  text query is answered with the top-1 video and its timestamp.
- **Photo** (`photo_utils.py`): walks a directory for image files and keeps the
  ones that load. It encodes them into a fresh vector index, and `valid_paths`
  maps each vector position back to its file. A text query is answered with the
  files of the returned ids.
- **Documents** (`document_utils.py`): cuts extracted text into overlapping
  500-character chunks, stored in two parallel lists. A query is answered by
  counting query words in each chunk, then a stable descending sort, a `top_k`
  cut and a positive-score filter.
- **Audio** (`audio_utils.py`): sanitises file names and decides where
  transcripts are saved. It ranks transcripts against a query with a fuzzy
  score and finds the uploaded file each transcript belongs to.

The Dafny project has one module per back-end module (`Video`, `Photo`,
`Documents`, `Audio`). Two shared modules hold Python's semantics:

- `Common`: `os.path.join`/`basename`/`splitext`, `str(n)`/`int(s)` on naturals,
  list slicing with negative bounds, list comprehension filters.
- `Ranking`: `list.sort(key=..., reverse=True)`, which is stable.

The module globals that the source reassigns and appends to are the fields of a
class per module:

- `Video.VideoStore`
- `Photo.PhotoStore`
- `Documents.DocumentStore`
- `Audio.TranscriptFolder`

Their methods are proved against specification functions
(`Video.Loaded`, `Video.Collect`, `Documents.Answer`, `Photo.Resolve`,
`Audio.SearchResult`, …), and the properties the source promises are lemmas
about those functions.

Everything the program cannot compute itself is a parameter:

- the neural encoder, as "does this file encode";
- the vector index's search, as the ids and distances it returns;
- video decoding, as the number of frames read and the integer frame rate;
- directory listings and `os.walk`;
- file existence;
- the fuzzy ratio;
- the extracted text of a document.

Files on disk are snapshots: `Absent`, `Unreadable` (a read raises) or
`Holds(content)`.

## Model

| member | source | states |
|---|---|---|
| Common.NatToStringRoundTrip | video_utils.py:95 | `int(str(n)) == n`: the second written into a frame name is a decimal numeral that reads back as itself |
| Common.BasenameOfJoin | video_utils.py:77-78 | the basename of `join(dir, name)` is `name` for a name without '/' |
| Common.PyTake | document_utils.py:234 | `s[:k]` is a prefix of `s`, of length `min(k, len)` for `k >= 0` and `len + k` (floored at 0) for negative `k` |
| Common.ExtensionInLastComponent | audio_utils.py:151 | for every path, `splitext` cuts only inside the last path component: the stem keeps every directory (so a '.' in a directory name is no extension) and the extension holds no '/' |
| Common.FilterIsSubsequence | photo_utils.py:62-67 | what a comprehension filter keeps stays in input order |
| Common.FilterMembers | photo_utils.py:62-67 | a filter keeps exactly the elements that pass the test |
| Common.FlatMapMembers | photo_utils.py:50-53 | a nested loop that appends each element's contributions collects exactly what some element contributes |
| Ranking.SortDescending | document_utils.py:230 | after `sort(key=score, reverse=True)` scores never increase down the list |
| Ranking.SortStable | audio_utils.py:209 | the sort is stable: the elements of any one score keep their input order |
| Ranking.SortScoreThenItem | document_utils.py:230 | sorting `(i, score)` pairs listed in index order ranks by score, then by index |
| Ranking.OmittedRanksLower | document_utils.py:234 | an element missing from the first `k` of the ranking means the cut is full and every kept element scores at least as much |
| Documents.ChunkText | document_utils.py:107-115 | the `while start < len(text)` loop returns the chunk list `Chunks(text, size, overlap)`, for `overlap < size` |
| Documents.OffsetIsProduct | document_utils.py:114 | after `i` rounds `start` is `i * (size - overlap)` |
| Documents.ChunkLayout | document_utils.py:107-115 | no chunks exactly for empty text; chunk count `n` is the least with `n * step >= len(text)`; chunk `i` is the non-empty slice `text[i*step : i*step + size]` of at most `size` characters |
| Documents.ChunksCoverText | document_utils.py:111-114 | every character position lies inside some chunk |
| Documents.Words | document_utils.py:155 | `split()` yields non-empty runs free of whitespace |
| Documents.BlankHasNoWords | document_utils.py:155 | a whitespace-only string splits into no words |
| Documents.OccurrencesFit | document_utils.py:161 | `count` counts non-overlapping matches: count times word length fits in the text |
| Documents.OccurrencesPositive | document_utils.py:161 | a word is counted at least once exactly when it occurs in the text |
| Documents.SimpleKeywordScore | document_utils.py:150-163 | the accumulation loop computes the sum over lower-cased query words of their counts in the lower-cased text |
| Documents.TotalPositive | document_utils.py:158-161 | the sum is positive exactly when some query word occurs |
| Documents.ScorePositiveIffSomeWordOccurs | document_utils.py:155-163 | a chunk scores above zero exactly when one of the lower-cased query words occurs in the lower-cased chunk |
| Documents.BlankQueryScoresZero | document_utils.py:155-163 | an empty or whitespace-only query scores 0 against every text |
| Documents.ScoreBound | document_utils.py:158-163 | the score is at most the number of query words times the text length |
| Documents.ScoreAllChunks | document_utils.py:224-227 | the scoring loop yields `(i, score of chunk i)` for every chunk in chunk order |
| Documents.CollectHits | document_utils.py:233-240 | the result loop keeps the cut entries with positive score, each as filename, 200-character snippet plus "..." and score |
| Documents.SurvivorsInRange | document_utils.py:234-235 | every surviving entry names a real chunk, scores positive, and its score is that chunk's score |
| Documents.SurvivorsRanked | document_utils.py:230-240 | survivors rank by score then chunk order, all score above 0, and number at most `top_k` |
| Documents.MatchingChunkOmittedOnlyWhenFull | document_utils.py:234-235 | a matching chunk left out means `top_k` survivors all scoring at least as much |
| Documents.AnswerHits | document_utils.py:216-245 | "No documents indexed yet!" exactly for an empty store, "No matches found" exactly when nothing survives, otherwise one hit per survivor with its file name, snippet and score |
| Documents.DocumentStore.constructor | document_utils.py:14-16 | the store starts with two empty lists |
| Documents.DocumentStore.SaveIndex | document_utils.py:118-131 | writes both lists only when there is a chunk |
| Documents.DocumentStore.LoadExistingIndex | document_utils.py:133-147 | True and both lists replaced exactly when the file exists and parses; otherwise nothing changes |
| Documents.DocumentStore.AddDocumentToStore | document_utils.py:166-186 | a path already present is refused with the store unchanged; empty text changes nothing; otherwise its chunks and one copy of the path per chunk are appended, the lists stay parallel and the store is saved |
| Documents.DocumentStore.SearchDocuments | document_utils.py:210-245 | loads only when the store is empty and answers `Answer(query, top_k, chunks, filenames)` on the lists then held |
| Video.ParseFrameSecond | video_utils.py:82 | the only failure of the name parse is a ValueError |
| Video.FrameNameRoundTrip | video_utils.py:82 | parsing `frame_<n>.jpg` gives back `n` |
| Video.SkipFramesExactly | video_utils.py:80-83 | on any listing, the skip path fails with ValueError exactly when some `frame_` name does not parse; otherwise it reports one frame per `frame_` name, in listing order, at the joined path and the parsed second, and ignores every other name |
| Video.SkipReadsBack | video_utils.py:80-83 | a folder holding the names of frames of given seconds reads back as exactly those frames, timed at their seconds |
| Video.SkipCanLoseFrames | video_utils.py:80-83 | at 2 frames a second the first run returns 2 frames written to one file, and the skip path then returns 1 |
| Video.ExtractFrames | video_utils.py:75-102 | the skip path for a non-empty folder; otherwise the `while success` loop returns the decoded frames whose whole second is a multiple of the interval; a zero frame rate raises ZeroDivisionError once a frame is read |
| Video.SampledFrames | video_utils.py:91-99 | a fresh extraction keeps exactly the frames on the interval, in decode order, each named `frame_<its second>.jpg` in the video's folder |
| Video.ExtendDense | video_utils.py:134-135 | keying each new value by `len(map)` keeps the keys exactly `0 .. len-1` |
| Video.ExtendAppends | video_utils.py:134-135 | appending leaves existing entries unchanged and puts value `j` at key `old len + j` |
| Video.CollectFromVideos | video_utils.py:128-135 | every appended `video_map` entry names `join(video_folder, v)` for a listed video `v` |
| Video.LoadedAligned | video_utils.py:33-65 | loading keeps `video_map` and `frame_store` dense and of one size when the files are |
| Video.LoadAllOrNothing | video_utils.py:41-65 | a load leaves memory alone, takes both maps from the files, or resets both maps |
| Video.ReloadAfterSave | video_utils.py:67-73 | what was saved with the embeddings is what a fresh process loads back |
| Video.SavedWithoutEmbeddingsIsIgnored | video_utils.py:41 | without an embeddings file a saved index is never loaded |
| Video.Top1OnDenseMap | video_utils.py:154-163 | the answer is the entry of the first id exactly when that id is a key; the other two ids never matter |
| Video.VideoStore.constructor | video_utils.py:29-31 | an empty index and empty maps |
| Video.VideoStore.LoadExistingData | video_utils.py:33-65 | memory becomes `Loaded(memory, files)`: unchanged when index and map are non-empty, and otherwise the guarded loads with their resets |
| Video.VideoStore.SaveIndex | video_utils.py:67-73 | writes index and both maps, the embeddings only when the index exposes them |
| Video.VideoStore.ProcessVideos | video_utils.py:113-141 | False with nothing changed when no file is a video; otherwise both maps grow by the appended frames at positions `len .. len + k - 1`, the vector count grows by `k`, and the files are saved; True even for zero frames; an exception leaves the grown maps, the old count and the old files |
| Video.VideoStore.VideoLoop | video_utils.py:128-135 | the video loop appends exactly the items of `Collect`, in order, and stops at the first exception |
| Video.VideoStore.ProcessVideo | video_utils.py:129-135 | one video: extraction, then its frames appended until one fails to encode |
| Video.VideoStore.AppendFrames | video_utils.py:131-135 | appends the longest prefix of frames that encode, to both maps at the next positions |
| Video.VideoStore.AppendFrame | video_utils.py:134-135 | one frame at key `len(video_map)` in both maps |
| Video.VideoStore.SearchVideo | video_utils.py:143-163 | loads, then answers the entry of the top-1 id when it is a key of `video_map`, and None otherwise |
| Photo.ImagesInExactly | photo_utils.py:51-53 | a directory contributes `join(root, f)` exactly for its files with a lower-cased extension in {.jpg, .jpeg, .png, .bmp, .gif} |
| Photo.ImagePathsExactly | photo_utils.py:50-53 | a path is returned exactly when it is `join(root, f)` for an image file `f` of some directory the walk visits |
| Photo.AppendImagesOf | photo_utils.py:51-53 | the inner loop appends one directory's image paths, in listing order, after those already found |
| Photo.GetImagePaths | photo_utils.py:47-54 | the nested loop returns the image paths of the walk, directory by directory in listing order |
| Photo.ResolveProperties | photo_utils.py:153-159 | one result per kept candidate (so at most the ids returned), in the backend's order; include exactly the ids with `i != -1 and i < len(valid_paths)`, each as `valid_paths[i]` with its distance |
| Photo.ResolveWithNoPaths | photo_utils.py:156 | with `valid_paths` empty every search yields no result |
| Photo.ResolveCandidates | photo_utils.py:154-157 | the result loop computes `Resolve` |
| Photo.PhotoStore.constructor | photo_utils.py:44-45 | no index and no paths |
| Photo.PhotoStore.SaveIndex | photo_utils.py:93-99 | writes index and paths only when there is an index |
| Photo.PhotoStore.LoadExistingIndex | photo_utils.py:101-113 | True exactly when both files exist and read; the index is taken first, so an unreadable map leaves the new index beside the old paths |
| Photo.PhotoStore.PreprocessImages | photo_utils.py:56-71 | `valid_paths` is emptied and then holds the paths that load, in order, parallel to the returned images |
| Photo.PhotoStore.IndexImagesFromDirectory | photo_utils.py:115-135 | the errors in order "Invalid directory", "No images found", "No valid images" (by then `valid_paths` is empty and the old index kept); on success the index is rebuilt from the survivors alone, saved, and their number reported |
| Photo.PhotoStore.SearchImagesByText | photo_utils.py:137-159 | the "Index not found" error exactly when there is no index and the load fails; otherwise the resolved results, at most `top_k` |
| Audio.SanitizeKeepsExactly | audio_utils.py:92-93 | keeps exactly the word characters, '-', '_', '.' and space, in order, never longer |
| Audio.SanitizeIdempotent | audio_utils.py:93 | sanitising twice is sanitising once |
| Audio.SanitizeKeepsCleanName | audio_utils.py:93 | a name of allowed characters only is unchanged |
| Audio.SanitizeHasNoSeparator | audio_utils.py:93 | no '/' survives |
| Audio.TranscriptPathShape | audio_utils.py:150-152 | a transcript's file name is `<sanitised stem>.txt`, which ends in ".txt", and it sits directly inside the transcriptions folder |
| Audio.TranscriptFolder.SaveTranscription | audio_utils.py:150-155 | writes the text at that path and returns it |
| Audio.RemoveAllAbsent | audio_utils.py:204 | `replace(".txt", "")` leaves a name without ".txt" alone |
| Audio.RemoveTxtSuffix | audio_utils.py:204 | removing ".txt" from `stem + ".txt"` gives `stem` when the stem has no ".txt" |
| Audio.TranscriptNameRoundTrip | audio_utils.py:204 | the name listed for a saved transcript is the sanitised stem it was saved under, when that stem has no ".txt" |
| Audio.InnerTxtIsLost | audio_utils.py:204 | every occurrence is removed: the transcript of "a.txt.mp3" is listed as "a" |
| Audio.FirstPresentIsFirst | audio_utils.py:157-162 | a path is found exactly when one exists; the one found exists and none before it does |
| Audio.FindOriginalAudioFile | audio_utils.py:157-162 | the loop with early return answers the first existing of `<base>.mp3`, `.wav`, `.m4a`, `.flac` |
| Audio.MatchesExactly | audio_utils.py:197-207 | the matches are exactly the readable ".txt" files of the listing, each named with ".txt" removed and scored on the lower-cased query and transcript |
| Audio.RankedOrder | audio_utils.py:209-211 | results are matches, ranked by descending score, at most `top_k` |
| Audio.RankedOmitsOnlyWhenFull | audio_utils.py:209-211 | a match left out means `top_k` results all scoring at least as much |
| Audio.SearchTiesInListingOrder | audio_utils.py:209 | matches of equal score keep listing order |
| Audio.ResultUrl | audio_utils.py:212-217 | the url is None exactly when no supported original exists, and otherwise `/play/` plus the basename of the first one |
| Audio.ResolveUrls | audio_utils.py:211-223 | one result per ranked match, with its url |
| Audio.SearchAudioFiles | audio_utils.py:191-225 | [] when the transcripts folder is missing; otherwise the matches loop, the sort, the `top_k` cut and the url loop |

## Left out

- Neural encoders are not modelled: CLIP loading, image and text encoding, and
  `_ensure_model_loaded`. Whether a file encodes or loads is a parameter.
- Vector index internals are not modelled: `IndexFlatL2`, L2 distances,
  `index.add`. The index is its vector count. A search is the ids and distances
  it returns, and distances are opaque reals.
- Persistence formats are not modelled (`write_index`/`read_index`,
  `np.save`/`np.load`, JSON). Each file is a snapshot of the value it holds, and
  a write always succeeds.
- Documents.DocumentStore.SaveIndex: a failing write is not modelled; the model
  always writes. In the source the error is caught, but opening with "w" has
  already emptied the file, so a failure during `json.dump` leaves an empty or
  partial file that `load_existing_index` then fails to parse. Only a failing
  `open` leaves the old file.
- Documents.DocumentStore.LoadExistingIndex: the file holds both keys, with lists
  of equal length. `data.get` defaults for a missing key are not modelled.
- Documents.DocumentStore.constructor: requires that a saved file holds lists of
  one length, which is how this program writes it.
- Documents.ChunkText: requires `overlap < chunk_size`. Otherwise, on a
  non-empty text, the source's `while start < len(text)` loop never ends,
  because `start` never grows. The only caller passes the defaults 500 and 50.
- Text extraction is not modelled: `process_document` and its PDF, DOCX, OCR and
  spreadsheet readers give the text as a parameter.
- `process_documents_from_folder` is not modelled. It is a folder loop over
  `add_document_to_store`.
- Video decoding is not modelled (cv2). The frame rate is a natural number and a
  timestamp is the exact ratio `frame / fps`. Fractional frame rates are
  approximated.
- `os.makedirs` and `cv2.imwrite` are not modelled. The frame files a fresh
  extraction writes are not added to a disk state: the folder listing on the skip
  path is a parameter.
- Video.ParseFrameSecond: only digit strings parse. `float()` would also accept
  signs, exponents, underscores, surrounding whitespace, "inf" and "nan".
- Video.VideoStore.constructor: requires saved map files that are dense and of
  one size, as every complete `save_index` leaves them. A crash between the two
  `np.save` calls can leave maps of different sizes, which `load_existing_data`
  loads unchecked and `process_videos` then keys by each map's own length; the
  model does not cover that state.
- Video.VideoStore.ProcessVideos: the folder listing is given. `os.listdir`
  raising for a missing folder is not modelled.
- Video.VideoStore.SearchVideo: requires the three ids a `k=3` search returns.
- Photo.PhotoStore.SearchImagesByText: requires `top_k >= 1` and ids of at least
  -1, as the index returns them. A non-positive `top_k` makes the index raise.
  Python's negative indexing for other negative ids is not modelled.
- Paths follow POSIX `os.path`: '/' is the only separator and there are no drive
  letters (Common.Join, Common.Basename, Common.ExtensionStart). On Windows,
  where the program is meant to run, `os.path` also splits at `\` and knows
  drive letters; that is not modelled.
- The whole model uses ASCII only. Unicode `\w` in `sanitize_filename` and
  Unicode `str.lower()` are not modelled.
- Audio.TranscriptionsFolder: the upload folder is a parameter, because
  `BASE_DIR` depends on how the program was started.
- Audio transcription and conversion are not modelled: `transcribe_audio`,
  `convert_to_wav` (Vosk, pydub, ffmpeg) and `process_audio_folder`.
- The fuzzy `partial_ratio` is an abstract integer function of the lower-cased
  query and transcript.
- Directory listing order is whatever the listing parameter says.
- Console output is not modelled.
- The unreachable lines after `return` in `build_faiss_index` are not modelled.
- `app.py` (Flask routing), `main.js`, `preload.js` and `create_icon.py` are not
  modelled.
