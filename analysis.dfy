/**
 * The analysis run: the walk that picks the files (and CUE sub-tracks) to
 * analyse, the per-track choice between cached results and the extractor,
 * the batched writes to the store, and the run's mode switches. The
 * filesystem is a tree of directories and files plus an existence predicate;
 * the extractor and the decoders are represented by what they leave behind.
 */
module Analysis {
  import opened Wrappers
  import opened PyStr
  import opened Store
  import opened Cue
  import opened Tags

  /** Lower-cased extensions of the files that are analysed. */
  const AudioExtensions: seq<string> := ["m4a", "mp3", "ogg", "flac"]

  // ---------------------------------------------------------------- sorted listings

  /** Python's string order: code point by code point, a proper prefix first. */
  predicate LexLe(a: string, b: string)
    decreases |a|
  {
    a == [] || (b != [] && (a[0] < b[0] || (a[0] == b[0] && LexLe(a[1..], b[1..]))))
  }

  lemma {:induction false} LexTotal(a: string, b: string)
    ensures LexLe(a, b) || LexLe(b, a)
    decreases |a|
  {
    if a != [] && b != [] && a[0] == b[0] {
      LexTotal(a[1..], b[1..]);
    }
  }

  predicate Sorted(xs: seq<string>) {
    forall i :: 0 <= i < |xs| - 1 ==> LexLe(xs[i], xs[i + 1])
  }

  function Insert(x: string, xs: seq<string>): (r: seq<string>)
    requires Sorted(xs)
    ensures Sorted(r) && multiset(r) == multiset(xs) + multiset{x}
    ensures |r| == |xs| + 1 && (r[0] == x || (|xs| > 0 && r[0] == xs[0]))
  {
    if xs == [] then [x]
    else if LexLe(x, xs[0]) then [x] + xs
    else
      LexTotal(x, xs[0]);
      var rest := Insert(x, xs[1..]);
      assert xs == [xs[0]] + xs[1..];
      [xs[0]] + rest
  }

  /** `sorted(names)`. */
  function SortNames(xs: seq<string>): (r: seq<string>)
    ensures Sorted(r) && multiset(r) == multiset(xs)
  {
    if xs == [] then []
    else
      assert xs == [xs[0]] + xs[1..];
      Insert(xs[0], SortNames(xs[1..]))
  }

  // ---------------------------------------------------------------- the tree and the jobs

  /** A directory tree: a file, or a directory listing its entries by name (in no particular order). */
  datatype FsNode = File | Dir(entries: seq<Entry>)

  /** A named directory entry. */
  datatype Entry = Entry(name: string, node: FsNode)

  function Names(entries: seq<Entry>): (names: seq<string>)
    ensures |names| == |entries| && forall i :: 0 <= i < |entries| ==> names[i] == entries[i].name
  {
    seq(|entries|, i requires 0 <= i < |entries| => entries[i].name)
  }

  /** The position of the entry called `name`, or -1. */
  function IndexOf(entries: seq<Entry>, name: string): (i: int)
    ensures -1 <= i < |entries|
    ensures i >= 0 ==> entries[i].name == name
    ensures i < 0 ==> forall j :: 0 <= j < |entries| ==> entries[j].name != name
  {
    if entries == [] then -1
    else if entries[|entries| - 1].name == name then |entries| - 1
    else IndexOf(entries[..|entries| - 1], name)
  }

  /** The lower-cased text after the last `.` of a path, if it has a `.`. */
  function Extension(path: string): (e: Option<string>)
    ensures e.Some? <==> '.' in path
    ensures e.Some? ==> '.' !in e.value && IsLowerCase(e.value)
    ensures e.Some? ==> exists i :: 0 <= i < |path| && path[i] == '.' && '.' !in path[i + 1..] && e.value == Lower(path[i + 1..])
  {
    var i := RFind(path, '.');
    if i < 0 then None
    else
      var ext := path[i + 1..];
      LowerIsLowerCase(ext);
      forall k | 0 <= k < |ext| ensures Lower(ext)[k] != '.' {
        assert ext[k] in ext;
      }
      Some(Lower(ext))
  }

  /** The path without its last `.` and what follows it. */
  function Stem(path: string): (r: string)
    ensures StartsWith(path, r)
    ensures r == path <==> '.' !in path
    ensures r != path ==> path[|r|] == '.' && '.' !in path[|r| + 1..]
  {
    var i := RFind(path, '.');
    if i < 0 then path else path[..i]
  }

  /** The extension is the lower-cased text after the last `.`. */
  lemma {:induction false} ExtensionAfterLastDot(x: string, y: string)
    requires '.' !in y
    ensures Extension(x + "." + y) == Some(Lower(y))
  {
    var path := x + "." + y;
    assert path[|x|] == '.';
    assert path[|x| + 1..] == y;
  }

  /** A file is analysed when its extension is one of the audio extensions; a path without `.` is not. */
  predicate IsAudioFile(path: string) {
    Extension(path).Some? && Extension(path).value in AudioExtensions
  }

  /** `x.y`, for a dot-free `y`, is analysed exactly when `y`, lower-cased, is an audio extension. */
  lemma {:induction false} AudioFileByExtension(x: string, y: string)
    requires '.' !in y
    ensures IsAudioFile(x + "." + y) <==> Lower(y) in AudioExtensions
    ensures Stem(x + "." + y) == x
  {
    ExtensionAfterLastDot(x, y);
    var path := x + "." + y;
    assert path[|x|] == '.';
    assert path[|x| + 1..] == y;
  }

  /** The extension test as shipped: a path without any `.` raises `IndexError`. */
  function ExtensionAsWritten(path: string): (r: Result<string, string>)
    ensures r.Err? <==> '.' !in path
    ensures r.Ok? ==> Some(r.value) == Extension(path)
  {
    var i := RFind(path, '.');
    if i < 0 then Err("IndexError") else Ok(Lower(path[i + 1..]))
  }

  /** A path ending in the marker's stem has extension `cue_track`, so it is never an audio file. */
  lemma {:induction false} AudioFileNotMarkerEnd(path: string, rootLen: nat)
    ensures EndsWith(Drop(path, rootLen), ".CUE_TRACK") ==> !IsAudioFile(path)
  {
    var rel := Drop(path, rootLen);
    if EndsWith(rel, ".CUE_TRACK") {
      var n := |path|;
      assert path[n - 10..] == rel[|rel| - 10..];
      MarkerEndExtension(path);
    }
  }

  /** The extension of a path ending in `.CUE_TRACK` starts with `c`, unlike every audio extension. */
  lemma {:induction false} MarkerEndExtension(path: string)
    requires |path| >= 10 && path[|path| - 10..] == ".CUE_TRACK"
    ensures Extension(path).Some? && Extension(path).value !in AudioExtensions
  {
    var n := |path|;
    assert path[n - 10] == '.';
    assert path[n - 9..] == "CUE_TRACK";
    assert '.' in path;
    var i := RFind(path, '.');
    assert i == n - 10;
    var ext := Extension(path).value;
    assert ext == Lower(path[n - 9..]);
    assert ext[0] == LowerChar(path[n - 9]) == 'c';
  }

  /** Where a CUE sub-track comes from: its record and the album file it is cut from. */
  datatype CueSource = CueSource(track: CueTrack, src: string)

  /** One file to analyse: its absolute path, its store key, and for a sub-track where to cut it from. */
  datatype Job = Job(abs: string, key: string, split: Option<CueSource>)

  /** The walk's settings: the external index, the music and scratch roots, and the mode. */
  datatype WalkEnv = WalkEnv(
    lms: Option<LmsDb>, lmsPath: string, rootLen: nat, tmp: string, tmpLen: nat, metaOnly: bool,
    fileExists: string -> bool)

  /** A job may be queued: in meta-only mode always, otherwise only when the store has no row for its key. */
  predicate Wanted(key: string, analysed: set<string>, env: WalkEnv) {
    env.metaOnly || key !in analysed
  }

  /** What every queued job satisfies. */
  predicate ValidJob(j: Job, analysed: set<string>, env: WalkEnv) {
    Wanted(j.key, analysed, env)
    && (j.split.None? ==> IsAudioFile(j.abs) && j.key == Drop(j.abs, env.rootLen))
    && (j.split.Some? ==> IsAudioFile(j.split.value.src) && j.abs == j.split.value.track.file
                          && j.key == Drop(j.abs, env.tmpLen))
  }

  function CueJob(t: CueTrack, src: string, env: WalkEnv): Job {
    Job(t.file, Drop(t.file, env.tmpLen), Some(CueSource(t, src)))
  }

  /** The wanted sub-tracks of one album file, in order. */
  function CueJobs(tracks: seq<CueTrack>, src: string, analysed: set<string>, env: WalkEnv): (jobs: seq<Job>)
    ensures forall j :: j in jobs <==> exists t :: t in tracks && j == CueJob(t, src, env)
                                                   && Wanted(j.key, analysed, env)
  {
    if tracks == [] then []
    else
      var init := tracks[..|tracks| - 1];
      var t := tracks[|tracks| - 1];
      assert tracks == init + [t];
      var jobs := CueJobs(init, src, analysed, env);
      if Wanted(Drop(t.file, env.tmpLen), analysed, env) then jobs + [CueJob(t, src, env)] else jobs
  }

  /** The jobs for one file: none unless it is audio; its sub-tracks when a `.cue` sits beside it; else itself. */
  function FileJobs(path: string, analysed: set<string>, env: WalkEnv): (jobs: seq<Job>)
    ensures forall j :: j in jobs ==> ValidJob(j, analysed, env)
  {
    if !IsAudioFile(path) then []
    else if env.fileExists(Stem(path) + ".cue") then
      CueJobs(CueTracks(env.lms, env.lmsPath, path, env.rootLen, env.tmp), path, analysed, env)
    else
      var key := Drop(path, env.rootLen);
      if Wanted(key, analysed, env) then [Job(path, key, None)] else []
  }

  /** `get_files_to_analyse` on an existing node: directories are entered in sorted name order. */
  function Discover(node: FsNode, path: string, analysed: set<string>, env: WalkEnv): (jobs: seq<Job>)
    decreases node, 1
  {
    match node
    case File => FileJobs(path, analysed, env)
    case Dir(entries) => DiscoverNames(node, SortNames(Names(entries)), path, analysed, env)
  }

  /** The jobs of the named entries of a directory, in the order of `names`. */
  function DiscoverNames(dir: FsNode, names: seq<string>, path: string, analysed: set<string>, env: WalkEnv)
    : (jobs: seq<Job>)
    requires dir.Dir?
    decreases dir, 0, |names|
  {
    if names == [] then []
    else
      var name := names[|names| - 1];
      var jobs := DiscoverNames(dir, names[..|names| - 1], path, analysed, env);
      var i := IndexOf(dir.entries, name);
      if i < 0 then jobs
      else jobs + Discover(dir.entries[i].node, PathJoin(path, name), analysed, env)
  }

  /** Every job the walk queues is an audio file or a sub-track of one, under its proper key, and wanted. */
  lemma {:induction false} DiscoverValid(node: FsNode, path: string, analysed: set<string>, env: WalkEnv)
    ensures forall j :: j in Discover(node, path, analysed, env) ==> ValidJob(j, analysed, env)
    decreases node, 1
  {
    if node.Dir? {
      var names := SortNames(Names(node.entries));
      DiscoverNamesValid(node, names, path, analysed, env);
    }
  }

  lemma {:induction false} DiscoverNamesValid(dir: FsNode, names: seq<string>, path: string, analysed: set<string>,
                                              env: WalkEnv)
    requires dir.Dir?
    ensures forall j :: j in DiscoverNames(dir, names, path, analysed, env) ==> ValidJob(j, analysed, env)
    decreases dir, 0, |names|
  {
    if names != [] {
      var name := names[|names| - 1];
      DiscoverNamesValid(dir, names[..|names| - 1], path, analysed, env);
      var i := IndexOf(dir.entries, name);
      if i >= 0 {
        DiscoverValid(dir.entries[i].node, PathJoin(path, name), analysed, env);
      }
    }
  }

  /** A sub-track's store key names its album file, so the stale-row sweep keeps it exactly while the album exists. */
  lemma {:induction false} CueJobKeyNamesItsAlbum(t: CueTrack, src: string, env: WalkEnv)
    requires env.lms.Some? && t in CueTracks(env.lms, env.lmsPath, src, env.rootLen, env.tmp)
    requires env.tmpLen == |env.tmp| && IsAudioFile(src)
    requires |Drop(src, env.rootLen)| > 0 && !Contains(Drop(src, env.rootLen), CueMarker)
    ensures ConvertToSource(CueJob(t, src, env).key) == Drop(src, env.rootLen)
  {
    var rel := Drop(src, env.rootLen);
    CueTracksFiles(env.lms, env.lmsPath, src, env.rootLen, env.tmp);
    var s, e :| t.file == env.tmp + VirtualPath(rel, s + "-" + e) && '-' !in s + e;
    assert Drop(t.file, env.tmpLen) == VirtualPath(rel, s + "-" + e);
    AudioFileNotMarkerEnd(src, env.rootLen);
    SourceOfVirtualPath(rel, s + "-" + e);
  }

  /** The list the walk appends to. */
  class JobList {
    var jobs: seq<Job>

    constructor ()
      ensures jobs == []
    {
      jobs := [];
    }
  }

  /** `get_files_to_analyse`: a path that does not exist adds nothing; otherwise the jobs of its walk are appended. */
  method GetFilesToAnalyse(db: TracksDb, tree: Option<FsNode>, path: string, env: WalkEnv, files: JobList)
    modifies files
    ensures files.jobs == old(files.jobs) + (if tree.Some? then Discover(tree.value, path, db.rows.Keys, env) else [])
  {
    if tree.Some? {
      Walk(db, tree.value, path, env, files);
    }
  }

  method Walk(db: TracksDb, node: FsNode, path: string, env: WalkEnv, files: JobList)
    modifies files
    ensures files.jobs == old(files.jobs) + Discover(node, path, db.rows.Keys, env)
    decreases node, 2
  {
    if node.Dir? {
      WalkDir(db, node, path, env, files);
    } else {
      WalkFile(db, path, env, files);
    }
  }

  /** The walk at a directory: its entries in sorted name order. */
  method WalkDir(db: TracksDb, dir: FsNode, path: string, env: WalkEnv, files: JobList)
    requires dir.Dir?
    modifies files
    ensures files.jobs == old(files.jobs) + DiscoverNames(dir, SortNames(Names(dir.entries)), path, db.rows.Keys, env)
    decreases dir, 1
  {
    WalkNames(db, dir, SortNames(Names(dir.entries)), path, env, files);
  }

  /** The loop over a directory's entry names, walking each named entry in turn. */
  method WalkNames(db: TracksDb, dir: FsNode, names: seq<string>, path: string, env: WalkEnv, files: JobList)
    requires dir.Dir?
    modifies files
    ensures files.jobs == old(files.jobs) + DiscoverNames(dir, names, path, db.rows.Keys, env)
    decreases dir, 0
  {
    ghost var analysed := db.rows.Keys;
    for k := 0 to |names|
      invariant files.jobs == old(files.jobs) + DiscoverNames(dir, names[..k], path, analysed, env)
    {
      var i := IndexOf(dir.entries, names[k]);
      ghost var done := DiscoverNames(dir, names[..k], path, analysed, env);
      ghost var added: seq<Job> := [];
      if i >= 0 {
        var child := dir.entries[i].node;
        Walk(db, child, PathJoin(path, names[k]), env, files);
        added := Discover(child, PathJoin(path, names[k]), analysed, env);
      }
      DiscoverNamesStep(dir, names, k, path, analysed, env);
      AppendAssoc(old(files.jobs), done, added);
    }
    assert names[..|names|] == names;
  }

  lemma {:induction false} AppendAssoc<T>(a: seq<T>, b: seq<T>, c: seq<T>)
    ensures a + b + c == a + (b + c)
  {
  }

  lemma {:induction false} DiscoverNamesStep(dir: FsNode, names: seq<string>, k: nat, path: string, analysed: set<string>, env: WalkEnv)
    requires dir.Dir? && k < |names|
    ensures var i := IndexOf(dir.entries, names[k]);
      DiscoverNames(dir, names[..k + 1], path, analysed, env)
      == DiscoverNames(dir, names[..k], path, analysed, env)
         + (if i >= 0 then Discover(dir.entries[i].node, PathJoin(path, names[k]), analysed, env) else [])
  {
    assert names[..k + 1][..k] == names[..k];
  }

  /** The walk at a file: nothing unless audio; the wanted sub-tracks when a `.cue` sits beside it; else the file. */
  method WalkFile(db: TracksDb, path: string, env: WalkEnv, files: JobList)
    modifies files
    ensures files.jobs == old(files.jobs) + FileJobs(path, db.rows.Keys, env)
  {
    if IsAudioFile(path) {
      if env.fileExists(Stem(path) + ".cue") {
        var tracks := GetCueTracks(env.lms, env.lmsPath, path, env.rootLen, env.tmp);
        WalkCueTracks(db, tracks, path, env, files);
      } else {
        var key := Drop(path, env.rootLen);
        var done := db.FileAlreadyAnalysed(key);
        if env.metaOnly || !done {
          files.jobs := files.jobs + [Job(path, key, None)];
        }
      }
    }
  }

  /** The loop over an album file's sub-tracks, keeping those the resume filter lets through. */
  method WalkCueTracks(db: TracksDb, tracks: seq<CueTrack>, src: string, env: WalkEnv, files: JobList)
    modifies files
    ensures files.jobs == old(files.jobs) + CueJobs(tracks, src, db.rows.Keys, env)
  {
    for k := 0 to |tracks|
      invariant files.jobs == old(files.jobs) + CueJobs(tracks[..k], src, db.rows.Keys, env)
    {
      assert tracks[..k + 1][..k] == tracks[..k];
      var key := Drop(tracks[k].file, env.tmpLen);
      var done := db.FileAlreadyAnalysed(key);
      if env.metaOnly || !done {
        files.jobs := files.jobs + [CueJob(tracks[k], src, env)];
      }
    }
    assert tracks[..|tracks|] == tracks;
  }

  // ---------------------------------------------------------------- one track

  /** The body of a results file that parses as JSON: all scores, a non-numeric score, or a missing key. */
  datatype JsonBody = Scores(features: Features) | BadNumber | MissingKey

  /** A results file: not JSON at all, or JSON with some body. */
  datatype Doc = NotJson | Json(body: JsonBody)

  /** `read_json_file` and what `analyze_track` does with it: a result, `None`, or an exception that escapes. */
  datatype JsonRead = Read(result: Analysed) | NoResult | Raised

  /**
   * `read_json_file`: unparsable JSON or a non-numeric score is `None`; a tag
   * reader or key lookup that raises anything else escapes.
   */
  function ReadJsonFile(doc: Doc, tags: ReadOutcome, key: string): (r: JsonRead)
    ensures doc.NotJson? ==> r == NoResult
    ensures r.Read? <==> doc.Json? && doc.body.Scores? && !tags.Raises?
    ensures r.Read? ==> r.result == Analysed(key, if tags.Tagged? then Some(tags.tags) else None, doc.body.features)
    ensures doc.Json? && tags.Raises? ==> r == Raised
    ensures doc == Json(MissingKey) ==> r == Raised
    ensures doc == Json(BadNumber) && !tags.Raises? ==> r == NoResult
  {
    if doc.NotJson? then NoResult
    else if tags.Raises? then Raised
    else
      match doc.body
      case MissingKey => Raised
      case BadNumber => NoResult
      case Scores(f) => Read(Analysed(key, if tags.Tagged? then Some(tags.tags) else None, f))
  }

  /** The persistent cache of one track: the plain and the gzip-compressed results file, each maybe absent. */
  datatype CacheFiles = CacheFiles(plain: Option<Doc>, gz: Option<Doc>)

  /**
   * What `analyze_track` sees: whether the stop file exists, the cache (`None`
   * when no cache directory is configured), a results file already in the
   * scratch directory, what the extractor would write, and the tag reading.
   */
  datatype TrackEnv = TrackEnv(stop: bool, cache: Option<CacheFiles>, scratch: Option<Doc>,
                               extractorOutput: Option<Doc>, tags: ReadOutcome)

  /** The outcome of `analyze_track` and the side effects it chose. */
  datatype TrackRun = TrackRun(outcome: JsonRead, extractorRun: bool, gzRead: bool, compressed: bool, removed: bool)

  /** The tail of `analyze_track`: run the extractor if no results file exists, then read it and compress or delete it. */
  function ExtractAndRead(existing: Option<Doc>, env: TrackEnv, key: string, gzRead: bool): (r: TrackRun)
    ensures r.extractorRun <==> existing.None?
    ensures r.gzRead == gzRead
    ensures r.compressed ==> env.cache.Some?
    ensures r.removed ==> env.cache.None?
    ensures existing.None? && env.extractorOutput.None? ==> r.outcome.NoResult? && !r.compressed && !r.removed
    ensures existing.Some? ==> r.outcome == ReadJsonFile(existing.value, env.tags, key)
    ensures existing.None? && env.extractorOutput.Some? ==>
              r.outcome == ReadJsonFile(env.extractorOutput.value, env.tags, key)
    ensures r.compressed || r.removed <==> (existing.Some? || env.extractorOutput.Some?) && !r.outcome.Raised?
  {
    var doc := if existing.Some? then existing else env.extractorOutput;
    if doc.None? then TrackRun(NoResult, existing.None?, gzRead, false, false)
    else
      var outcome := ReadJsonFile(doc.value, env.tags, key);
      if outcome.Raised? then TrackRun(Raised, existing.None?, gzRead, false, false)
      else TrackRun(outcome, existing.None?, gzRead, env.cache.Some?, env.cache.None?)
  }

  /** `analyze_track`: stop file, then the plain cache, then the compressed cache, then the extractor. */
  function AnalyzeTrack(env: TrackEnv, key: string): (r: TrackRun)
    ensures env.stop ==> r == TrackRun(NoResult, false, false, false, false)
    ensures r.extractorRun ==> !env.stop && (if env.cache.Some? then env.cache.value.plain.None? else env.scratch.None?)
    ensures r.gzRead ==> env.cache.Some? && env.cache.value.plain.None? && env.cache.value.gz.Some?
    ensures !env.stop && r.outcome.NoResult? && r.extractorRun ==>
              env.extractorOutput.None? || ReadJsonFile(env.extractorOutput.value, env.tags, key).NoResult?
    ensures r.extractorRun && env.extractorOutput.None? ==> r.outcome.NoResult?
    ensures r.extractorRun && env.extractorOutput.Some? ==>
              r.outcome == ReadJsonFile(env.extractorOutput.value, env.tags, key)
    ensures r.outcome.Read? ==> r.outcome.result.path == key
  {
    if env.stop then TrackRun(NoResult, false, false, false, false)
    else
      match env.cache
      case None => ExtractAndRead(env.scratch, env, key, false)
      case Some(cache) =>
        if cache.plain.Some? then
          var cached := ReadJsonFile(cache.plain.value, env.tags, key);
          if cached.NoResult? then ExtractAndRead(cache.plain, env, key, false)
          else TrackRun(cached, false, false, false, false)
        else if cache.gz.Some? then
          var cached := ReadJsonFile(cache.gz.value, env.tags, key);
          if cached.NoResult? then ExtractAndRead(None, env, key, true)
          else TrackRun(cached, false, true, false, false)
        else ExtractAndRead(None, env, key, false)
  }

  /** A usable plain cache file is the result: the extractor is not run and the compressed file is not read. */
  lemma {:induction false} PlainCacheWins(env: TrackEnv, key: string, f: Features)
    requires !env.stop && env.cache.Some? && env.cache.value.plain == Some(Json(Scores(f))) && !env.tags.Raises?
    ensures AnalyzeTrack(env, key).outcome.Read? && AnalyzeTrack(env, key).outcome.result.features == f
    ensures !AnalyzeTrack(env, key).extractorRun && !AnalyzeTrack(env, key).gzRead
  {
  }

  /** An unreadable plain cache file is read again instead of being re-analysed: the extractor is not run. */
  lemma {:induction false} UnreadablePlainCacheIsNotReanalysed(env: TrackEnv, key: string)
    requires !env.stop && env.cache.Some? && env.cache.value.plain == Some(NotJson)
    ensures AnalyzeTrack(env, key) == TrackRun(NoResult, false, false, true, false)
  {
  }

  // ---------------------------------------------------------------- batching

  /** The state `analyze_tracks` threads through the results: the table, the counter, and the commits. */
  datatype Batch = Batch(rows: map<string, Row>, counter: nat, commits: nat, committed: map<string, Row>)

  /** Adds made between commits. */
  const CommitEvery: nat := 750

  /** One result: a truthy one bumps the counter and is added; a successful add that reaches 750 commits. */
  function Step(b: Batch, r: JsonRead): (b': Batch)
    ensures !r.Read? ==> b' == b
    ensures r.Read? && Inserted(b.rows, r.result).Err? ==> b' == b.(counter := b.counter + 1)
    ensures r.Read? && Inserted(b.rows, r.result).Ok? ==> b'.rows == Inserted(b.rows, r.result).value
    ensures b'.commits == b.commits || (b'.commits == b.commits + 1 && b'.counter == 0 && b'.committed == b'.rows)
  {
    match r
    case Read(a) =>
      var count := b.counter + 1;
      (match Inserted(b.rows, a)
       case Err(_) => b.(counter := count)
       case Ok(rows) =>
         if count >= CommitEvery then Batch(rows, 0, b.commits + 1, rows) else b.(rows := rows, counter := count))
    case _ => b
  }

  /** The results taken in submission order. */
  function Run(b: Batch, results: seq<JsonRead>): (b': Batch)
    ensures b'.commits >= b.commits
    ensures forall k :: k in b.rows ==> k in b'.rows && b'.rows[k] == b.rows[k]
  {
    if results == [] then b
    else Step(Run(b, results[..|results| - 1]), results[|results| - 1])
  }

  /** The number of truthy results. */
  function ReadCount(results: seq<JsonRead>): nat {
    if results == [] then 0
    else ReadCount(results[..|results| - 1]) + (if results[|results| - 1].Read? then 1 else 0)
  }

  /** The keys the truthy results are stored under. */
  function ReadKeys(results: seq<JsonRead>): set<string> {
    set i | 0 <= i < |results| && results[i].Read? :: results[i].result.path
  }

  /** Every truthy result can be added: valid tags, a key not in the table, and no key used twice. */
  predicate AllInsertable(rows: map<string, Row>, results: seq<JsonRead>) {
    forall i :: 0 <= i < |results| && results[i].Read? ==>
      TagColumnsOf(results[i].result.tags).Ok? && results[i].result.path !in rows
      && forall j :: 0 <= j < i && results[j].Read? ==> results[j].result.path != results[i].result.path
  }

  /** Dropping the last result keeps every add possible, and the last truthy one is new and valid. */
  lemma {:induction false} AllInsertableInit(rows: map<string, Row>, results: seq<JsonRead>)
    requires |results| > 0 && AllInsertable(rows, results)
    ensures AllInsertable(rows, results[..|results| - 1])
    ensures var last := results[|results| - 1];
      last.Read? ==> TagColumnsOf(last.result.tags).Ok? && last.result.path !in rows
                     && last.result.path !in ReadKeys(results[..|results| - 1])
  {
    var init := results[..|results| - 1];
    forall i | 0 <= i < |init| && init[i].Read?
      ensures TagColumnsOf(init[i].result.tags).Ok? && init[i].result.path !in rows
              && forall j :: 0 <= j < i && init[j].Read? ==> init[j].result.path != init[i].result.path
    {
      assert init[i] == results[i];
      assert forall j :: 0 <= j < i ==> init[j] == results[j];
    }
    var last := results[|results| - 1];
    if last.Read? {
      forall i | 0 <= i < |init| && init[i].Read? ensures init[i].result.path != last.result.path {
        assert init[i] == results[i];
      }
    }
  }

  /** The keys of the truthy results grow by the last one's key, if it is truthy. */
  lemma {:induction false} ReadKeysInit(results: seq<JsonRead>)
    requires |results| > 0
    ensures var last := results[|results| - 1];
      ReadKeys(results) == ReadKeys(results[..|results| - 1]) + (if last.Read? then {last.result.path} else {})
  {
    var init := results[..|results| - 1];
    var last := results[|results| - 1];
    forall k | k in ReadKeys(results) ensures k in ReadKeys(init) + (if last.Read? then {last.result.path} else {}) {
      var i :| 0 <= i < |results| && results[i].Read? && results[i].result.path == k;
      if i < |init| { assert init[i] == results[i]; }
    }
    forall k | k in ReadKeys(init) ensures k in ReadKeys(results) {
      var i :| 0 <= i < |init| && init[i].Read? && init[i].result.path == k;
      assert results[i] == init[i];
    }
  }

  /** One more add: the counter wraps at 750 exactly when one more commit is due. */
  lemma {:induction false} CounterStep(c: nat)
    ensures (c + 1) % CommitEvery == (if c % CommitEvery + 1 == CommitEvery then 0 else c % CommitEvery + 1)
    ensures (c + 1) / CommitEvery == c / CommitEvery + (if c % CommitEvery + 1 == CommitEvery then 1 else 0)
  {
  }

  /**
   * When every add succeeds, each truthy result is stored once, one commit is
   * made per 750 adds, and the counter stays below 750.
   */
  lemma {:induction false} RunWhenAllInsertable(b: Batch, results: seq<JsonRead>)
    requires b.counter < CommitEvery && AllInsertable(b.rows, results)
    ensures Run(b, results).rows.Keys == b.rows.Keys + ReadKeys(results)
    ensures Run(b, results).counter == (b.counter + ReadCount(results)) % CommitEvery
    ensures Run(b, results).commits == b.commits + (b.counter + ReadCount(results)) / CommitEvery
  {
    if results != [] {
      var init := results[..|results| - 1];
      AllInsertableInit(b.rows, results);
      ReadKeysInit(results);
      RunWhenAllInsertable(b, init);
      CounterStep(b.counter + ReadCount(init));
    }
  }

  /** The rows a run stores depend only on the rows it starts from and on the results. */
  lemma {:induction false} RunRowsOnly(b: Batch, c: Batch, results: seq<JsonRead>)
    requires b.rows == c.rows
    ensures Run(b, results).rows == Run(c, results).rows
  {
    if results != [] {
      RunRowsOnly(b, c, results[..|results| - 1]);
    }
  }

  /** A truthy result whose tags can be stored. */
  predicate Storable(r: JsonRead) {
    r.Read? && TagColumnsOf(r.result.tags).Ok?
  }

  /** The keys of the storable results. */
  function StorableKeys(results: seq<JsonRead>): set<string> {
    set i | 0 <= i < |results| && Storable(results[i]) :: results[i].result.path
  }

  /** The row `add` stores for a storable result. */
  function StoredRow(a: Analysed): Row
    requires TagColumnsOf(a.tags).Ok?
  {
    Row(TagColumnsOf(a.tags).value, 0, Some(a.features))
  }

  /** Result `i` is the first storable one under key `k`. */
  predicate FirstStorable(results: seq<JsonRead>, k: string, i: int) {
    0 <= i < |results| && Storable(results[i]) && results[i].result.path == k
    && forall j :: 0 <= j < i && Storable(results[j]) ==> results[j].result.path != k
  }

  /** The storable keys grow by the last result's key, if it is storable. */
  lemma {:induction false} StorableKeysInit(results: seq<JsonRead>)
    requires |results| > 0
    ensures var last := results[|results| - 1];
      StorableKeys(results) == StorableKeys(results[..|results| - 1]) + (if Storable(last) then {last.result.path} else {})
  {
    var init := results[..|results| - 1];
    var last := results[|results| - 1];
    forall k | k in StorableKeys(results) ensures k in StorableKeys(init) + (if Storable(last) then {last.result.path} else {}) {
      var i :| 0 <= i < |results| && Storable(results[i]) && results[i].result.path == k;
      if i < |init| { assert init[i] == results[i]; }
    }
    forall k | k in StorableKeys(init) ensures k in StorableKeys(results) {
      var i :| 0 <= i < |init| && Storable(init[i]) && init[i].result.path == k;
      assert results[i] == init[i];
    }
  }

  /**
   * Whatever the results, a run gains exactly the keys of the storable ones:
   * a failing add (tags that cannot be stored, a key already present) is skipped.
   */
  lemma {:induction false} RunKeys(b: Batch, results: seq<JsonRead>)
    ensures Run(b, results).rows.Keys == b.rows.Keys + StorableKeys(results)
  {
    if results != [] {
      RunKeys(b, results[..|results| - 1]);
      StorableKeysInit(results);
    }
  }

  /** Each key a run adds holds the row of the first storable result under that key. */
  lemma {:induction false} RunNewRows(b: Batch, results: seq<JsonRead>)
    ensures forall k :: k in Run(b, results).rows && k !in b.rows ==>
              exists i :: FirstStorable(results, k, i) && Run(b, results).rows[k] == StoredRow(results[i].result)
  {
    if results != [] {
      var init := results[..|results| - 1];
      var last := results[|results| - 1];
      var before := Run(b, init);
      RunNewRows(b, init);
      RunKeys(b, init);
      forall k | k in Run(b, results).rows && k !in b.rows
        ensures exists i :: FirstStorable(results, k, i) && Run(b, results).rows[k] == StoredRow(results[i].result)
      {
        if k in before.rows {
          var i :| FirstStorable(init, k, i) && before.rows[k] == StoredRow(init[i].result);
          assert forall j :: 0 <= j <= i ==> results[j] == init[j];
          assert FirstStorable(results, k, i);
        } else {
          assert Storable(last) && last.result.path == k;
          forall j | 0 <= j < |init| && Storable(results[j]) ensures results[j].result.path != k {
            assert results[j] == init[j];
            assert init[j].result.path in StorableKeys(init);
          }
          assert FirstStorable(results, k, |init|);
        }
      }
    }
  }

  /** `analyze_tracks`: adds the results in submission order, committing after every 750th successful count. */
  method AnalyzeTracks(db: TracksDb, results: seq<JsonRead>)
    modifies db
    ensures var b := Run(Batch(old(db.rows), 0, old(db.commits), old(db.committed)), results);
            db.rows == b.rows && db.commits == b.commits && db.committed == b.committed
  {
    ghost var start := Batch(db.rows, 0, db.commits, db.committed);
    var countSinceSave := 0;
    for i := 0 to |results|
      invariant Batch(db.rows, countSinceSave, db.commits, db.committed) == Run(start, results[..i])
    {
      assert results[..i + 1][..i] == results[..i];
      match results[i]
      case Read(a) =>
        countSinceSave := countSinceSave + 1;
        var added := db.Add(a);
        if added.Ok? && countSinceSave >= CommitEvery {
          db.Commit();
          countSinceSave := 0;
        }
      case _ =>
    }
    assert results[..|results|] == results;
  }

  // ---------------------------------------------------------------- the run

  /** The table the walk sees: swept of stale rows when asked to and not in meta-only mode. */
  function Swept(rows: map<string, Row>, path: string, env: WalkEnv, removeTracks: bool): (r: map<string, Row>)
    ensures removeTracks && !env.metaOnly ==>
              forall k :: k in r <==> k in rows && !IsStale(path, env.fileExists, k)
    ensures forall k :: k in r ==> k in rows && r[k] == rows[k]
    ensures !SweepRemoves(rows, path, env, removeTracks) ==> r == rows
  {
    if removeTracks && !env.metaOnly then Survivors(rows, path, env.fileExists) else rows
  }

  /** Each job's result, in submission order. */
  function Outcomes(jobs: seq<Job>, outcome: Job -> JsonRead): seq<JsonRead> {
    seq(|jobs|, i requires 0 <= i < |jobs| => outcome(jobs[i]))
  }

  /** The sweep runs and finds a stale row. */
  predicate SweepRemoves(rows: map<string, Row>, path: string, env: WalkEnv, removeTracks: bool) {
    removeTracks && !env.metaOnly && exists k :: k in rows && IsStale(path, env.fileExists, k)
  }

  /**
   * `analyse_files`: the stale-row sweep (only when asked and not in meta-only
   * mode), the walk over the swept table, the analysis of the jobs' results in
   * submission order (not in meta-only mode) and a final commit exactly when
   * anything was found or removed. `outcome` gives each job's result.
   */
  method AnalyseFiles(db: TracksDb, tree: Option<FsNode>, path: string, env: WalkEnv,
                      removeTracks: bool, outcome: Job -> JsonRead)
    returns (jobs: seq<Job>)
    modifies db
    ensures jobs == (if tree.Some? then Discover(tree.value, path, Swept(old(db.rows), path, env, removeTracks).Keys, env)
                     else [])
    ensures env.metaOnly ==> db.rows == old(db.rows)
    ensures !env.metaOnly ==>
              db.rows == Run(Batch(Swept(old(db.rows), path, env, removeTracks), 0, 0, map[]), Outcomes(jobs, outcome)).rows
    ensures forall k :: k in Swept(old(db.rows), path, env, removeTracks) ==>
              k in db.rows && db.rows[k] == Swept(old(db.rows), path, env, removeTracks)[k]
    ensures db.commits > old(db.commits) <==> |jobs| > 0 || SweepRemoves(old(db.rows), path, env, removeTracks)
    ensures db.commits > old(db.commits) ==> db.committed == db.rows
    ensures db.commits == old(db.commits) ==> db.rows == old(db.rows) && db.committed == old(db.committed)
  {
    var removed := false;
    if removeTracks && !env.metaOnly {
      removed := db.RemoveOldTracks(path, env.fileExists);
    }
    assert db.rows == Swept(old(db.rows), path, env, removeTracks);
    assert !removed ==> db.rows == old(db.rows);
    var files := new JobList();
    GetFilesToAnalyse(db, tree, path, env, files);
    jobs := files.jobs;
    if |jobs| > 0 || removed {
      if |jobs| > 0 && !env.metaOnly {
        var results := Outcomes(jobs, outcome);
        RunRowsOnly(Batch(db.rows, 0, db.commits, db.committed), Batch(db.rows, 0, 0, map[]), results);
        AnalyzeTracks(db, results);
      }
      db.Commit();
    }
  }
}
