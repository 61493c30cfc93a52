/**
 * The analysis store: one `tracks` table keyed by the store key (`file`), held
 * by a `TracksDb` object whose methods insert, update, sweep and probe rows.
 */
module Store {
  import opened Wrappers
  import opened PyStr
  import Cue

  /** Separator of the genres joined into the single `genre` column. */
  const GenreSeparator: char := ';'

  /** A dictionary entry: the key is absent, present with `None`, or present with a value. */
  datatype Field<T> = Missing | Null | Val(value: T)

  /** The tag dictionary an analysed track carries. */
  datatype TagDict = TagDict(
    title: Field<string>,
    artist: Field<string>,
    album: Field<string>,
    albumartist: Field<string>,
    genres: Field<seq<string>>,
    duration: Field<int>)

  /** The eleven high-level scores (left uninterpreted as reals) and the tempo. */
  datatype Features = Features(
    danceable: real, aggressive: real, electronic: real, acoustic: real, happy: real, party: real,
    relaxed: real, sad: real, dark: real, tonal: real, voice: real, bpm: int)

  /** One analysis result: the store key, the tags (`None` when no tag reader succeeded) and the scores. */
  datatype Analysed = Analysed(path: string, tags: Option<TagDict>, features: Features)

  /** The six tag columns of a row. */
  datatype TagColumns = TagColumns(
    title: Option<string>, artist: Option<string>, album: Option<string>,
    albumartist: Option<string>, genre: Option<string>, duration: Option<int>)

  /** A row of `tracks` without its key; `features` is `None` for a row whose score columns are NULL. */
  datatype Row = Row(tags: TagColumns, ignore: int, features: Option<Features>)

  /** Why a write stopped: `None` tags (`TypeError`), a missing dictionary key (`KeyError`), or a taken key. */
  datatype StoreError = TagsMissing | KeyMissing(key: string) | DuplicateKey

  /** The `genre` column: the genres joined with `;`, NULL when the entry is absent or `None`. */
  function GenreColumn(genres: Field<seq<string>>): (g: Option<string>)
    ensures g.Some? <==> genres.Val?
    ensures g.Some? ==> CountChar(g.value, GenreSeparator) + 1 >= |genres.value|
  {
    if genres.Val? then
      JoinCount(genres.value);
      Some(Join(genres.value, GenreSeparator))
    else None
  }

  lemma {:induction false} JoinCount(parts: seq<string>)
    ensures CountChar(Join(parts, GenreSeparator), GenreSeparator) + 1 >= |parts|
  {
    if |parts| > 1 {
      JoinCount(parts[1..]);
      CountCharAppend(parts[0] + [GenreSeparator], Join(parts[1..], GenreSeparator), GenreSeparator);
      CountCharAppend(parts[0], [GenreSeparator], GenreSeparator);
    }
  }

  /** Splitting the `genre` column at `;` gives back the genres when none of them holds a `;`. */
  lemma {:induction false} GenreColumnSplits(genres: seq<string>)
    requires |genres| >= 1
    requires forall i :: 0 <= i < |genres| ==> GenreSeparator !in genres[i]
    ensures Split(GenreColumn(Val(genres)).value, GenreSeparator) == genres
  {
    SplitJoin(genres, GenreSeparator);
  }

  /** An optional column: absent and `None` both store NULL. */
  function OptionalColumn(f: Field<string>): (c: Option<string>)
    ensures c.Some? <==> f.Val?
    ensures c.Some? ==> c.value == f.value
  {
    if f.Val? then Some(f.value) else None
  }

  /** A required column: an absent key raises, `None` stores NULL. */
  function RequiredColumn<T>(f: Field<T>, name: string): (c: Result<Option<T>, StoreError>)
    ensures c.Err? <==> f.Missing?
    ensures c.Err? ==> c.error == KeyMissing(name)
    ensures c.Ok? ==> (c.value.Some? <==> f.Val?) && (f.Val? ==> c.value == Some(f.value))
  {
    match f
    case Missing => Err(KeyMissing(name))
    case Null => Ok(None)
    case Val(v) => Ok(Some(v))
  }

  /**
   * The tag columns written by `add` and `update`, as shipped: the optional
   * entries are read first, then title, artist, album and duration are indexed
   * in that order, so the first absent one raises.
   */
  function TagColumnsAsWritten(tags: Option<TagDict>): (r: Result<TagColumns, StoreError>)
    ensures tags.None? ==> r == Err(TagsMissing)
    ensures tags.Some? && tags.value.title.Missing? ==> r == Err(KeyMissing("title"))
  {
    if tags.None? then Err(TagsMissing)
    else
      var t := tags.value;
      match RequiredColumn(t.title, "title")
      case Err(e) => Err(e)
      case Ok(title) => TagColumnsFrom(t, title)
  }

  /** The tag columns with an absent title stored as NULL (the column's declared default). */
  function TagColumnsOf(tags: Option<TagDict>): (r: Result<TagColumns, StoreError>)
    ensures r.Err? <==> tags.None? || tags.value.artist.Missing? || tags.value.album.Missing?
                        || tags.value.duration.Missing?
    ensures tags.None? ==> r == Err(TagsMissing)
    ensures r.Ok? ==>
      var t := tags.value;
      r.value.title == OptionalColumn(t.title)
      && (r.value.artist.Some? <==> t.artist.Val?) && (t.artist.Val? ==> r.value.artist.value == t.artist.value)
      && (r.value.album.Some? <==> t.album.Val?) && (t.album.Val? ==> r.value.album.value == t.album.value)
      && r.value.albumartist == OptionalColumn(t.albumartist)
      && r.value.genre == GenreColumn(t.genres)
      && (r.value.duration.Some? <==> t.duration.Val?) && (t.duration.Val? ==> r.value.duration.value == t.duration.value)
  {
    if tags.None? then Err(TagsMissing)
    else TagColumnsFrom(tags.value, OptionalColumn(tags.value.title))
  }

  function TagColumnsFrom(t: TagDict, title: Option<string>): (r: Result<TagColumns, StoreError>)
    ensures r.Err? <==> t.artist.Missing? || t.album.Missing? || t.duration.Missing?
    ensures r.Ok? ==> r.value.title == title && r.value.albumartist == OptionalColumn(t.albumartist)
                      && r.value.genre == GenreColumn(t.genres)
  {
    match RequiredColumn(t.artist, "artist")
    case Err(e) => Err(e)
    case Ok(artist) =>
      match RequiredColumn(t.album, "album")
      case Err(e) => Err(e)
      case Ok(album) =>
        match RequiredColumn(t.duration, "duration")
        case Err(e) => Err(e)
        case Ok(duration) =>
          Ok(TagColumns(title, artist, album, OptionalColumn(t.albumartist), GenreColumn(t.genres), duration))
  }

  /** Tag dictionaries that carry no title, as every tag reader produces them. */
  lemma {:induction false} AsWrittenRejectsUntitled(tags: TagDict)
    requires tags.title.Missing? && tags.artist.Val? && tags.album.Val? && tags.duration.Val?
    ensures TagColumnsAsWritten(Some(tags)) == Err(KeyMissing("title"))
    ensures TagColumnsOf(Some(tags)).Ok? && TagColumnsOf(Some(tags)).value.title == None
  {
  }

  /** The table after `add`: a new row under a free key, with `ignore` 0 and the given scores. */
  function Inserted(rows: map<string, Row>, track: Analysed): (r: Result<map<string, Row>, StoreError>)
    ensures r.Ok? <==> TagColumnsOf(track.tags).Ok? && track.path !in rows
    ensures track.path in rows && TagColumnsOf(track.tags).Ok? ==> r == Err(DuplicateKey)
    ensures r.Ok? ==> r.value.Keys == rows.Keys + {track.path}
                      && r.value[track.path] == Row(TagColumnsOf(track.tags).value, 0, Some(track.features))
                      && forall k :: k in rows ==> r.value[k] == rows[k]
  {
    match TagColumnsOf(track.tags)
    case Err(e) => Err(e)
    case Ok(cols) =>
      if track.path in rows then Err(DuplicateKey)
      else Ok(rows[track.path := Row(cols, 0, Some(track.features))])
  }

  /** The table after `update`: the tag columns of the row under the key, if there is one. */
  function Updated(rows: map<string, Row>, track: Analysed): (r: Result<map<string, Row>, StoreError>)
    ensures r.Ok? <==> TagColumnsOf(track.tags).Ok?
    ensures r.Ok? ==> r.value.Keys == rows.Keys
    ensures r.Ok? ==> forall k :: k in rows && k != track.path ==> r.value[k] == rows[k]
    ensures r.Ok? && track.path in rows ==>
      r.value[track.path] == rows[track.path].(tags := TagColumnsOf(track.tags).value)
  {
    match TagColumnsOf(track.tags)
    case Err(e) => Err(e)
    case Ok(cols) =>
      if track.path in rows then Ok(rows[track.path := rows[track.path].(tags := cols)]) else Ok(rows)
  }

  /** A row is stale when the album or audio file its key names no longer exists under the music root. */
  predicate IsStale(sourcePath: string, fileExists: string -> bool, key: string) {
    !fileExists(PathJoin(sourcePath, Cue.ConvertToSource(key)))
  }

  /** A key without the CUE marker is stale exactly when its own file is gone. */
  lemma {:induction false} PlainKeyStale(sourcePath: string, fileExists: string -> bool, key: string)
    requires !Contains(key, Cue.CueMarker)
    ensures IsStale(sourcePath, fileExists, key) <==> !fileExists(PathJoin(sourcePath, key))
  {
  }

  /** The rows the stale-row sweep keeps. */
  function Survivors(rows: map<string, Row>, sourcePath: string, fileExists: string -> bool): (r: map<string, Row>)
    ensures forall k :: k in r <==> k in rows && !IsStale(sourcePath, fileExists, k)
    ensures forall k :: k in r ==> r[k] == rows[k]
  {
    map k | k in rows && !IsStale(sourcePath, fileExists, k) :: rows[k]
  }

  /** A table that keeps exactly the fresh rows, unchanged, is the sweep's result. */
  lemma {:induction false} SurvivorsAre(before: map<string, Row>, after: map<string, Row>, sourcePath: string, fileExists: string -> bool)
    requires forall k :: k in after <==> k in before && !IsStale(sourcePath, fileExists, k)
    requires forall k :: k in after ==> after[k] == before[k]
    ensures after == Survivors(before, sourcePath, fileExists)
  {
    var s := Survivors(before, sourcePath, fileExists);
    assert after.Keys == s.Keys;
  }

  /** A second sweep with the same filesystem finds nothing more to remove. */
  lemma {:induction false} SweepIdempotent(rows: map<string, Row>, sourcePath: string, fileExists: string -> bool)
    ensures Survivors(Survivors(rows, sourcePath, fileExists), sourcePath, fileExists)
            == Survivors(rows, sourcePath, fileExists)
    ensures forall k :: k in Survivors(rows, sourcePath, fileExists) ==> !IsStale(sourcePath, fileExists, k)
  {
  }

  /** Every sub-track row of an album file lives or dies with that album file. */
  lemma {:induction false} SweepKeepsCueTracksWithTheirAlbum(rows: map<string, Row>, sourcePath: string, fileExists: string -> bool,
                                          rel: string, frag: string)
    requires Cue.PlainRel(rel) && Cue.VirtualPath(rel, frag) in rows
    ensures Cue.VirtualPath(rel, frag) in Survivors(rows, sourcePath, fileExists)
            <==> fileExists(PathJoin(sourcePath, rel))
  {
    Cue.SourceOfVirtualPath(rel, frag);
  }

  /** The scan of `remove_old_tracks`: the keys of the stale rows, each once, in no particular order. */
  method StaleKeys(table: map<string, Row>, sourcePath: string, fileExists: string -> bool)
    returns (nonExistent: seq<string>)
    ensures forall k :: k in nonExistent <==> k in table && IsStale(sourcePath, fileExists, k)
  {
    nonExistent := [];
    var unscanned := table.Keys;
    while unscanned != {}
      invariant unscanned <= table.Keys
      invariant forall k :: k in nonExistent <==> k in table && k !in unscanned && IsStale(sourcePath, fileExists, k)
      decreases unscanned
    {
      var key :| key in unscanned;
      if IsStale(sourcePath, fileExists, key) {
        nonExistent := nonExistent + [key];
      }
      unscanned := unscanned - {key};
    }
  }

  /** The table held by an open store connection, with what the last commit made durable. */
  class TracksDb {
    /** The table as this connection sees it. */
    var rows: map<string, Row>
    /** The table as last committed. */
    var committed: map<string, Row>
    /** How many commits were issued. */
    var commits: nat

    /** Opens the store over the rows already on disk. */
    constructor Open(existing: map<string, Row>)
      ensures rows == existing && committed == existing && commits == 0
    {
      rows := existing;
      committed := existing;
      commits := 0;
    }

    /** `commit`: makes the current table durable. */
    method Commit()
      modifies this
      ensures rows == old(rows) && committed == rows && commits == old(commits) + 1
    {
      committed := rows;
      commits := commits + 1;
    }

    /** `add`: inserts one analysed track, or stops with the error the insert raises and changes nothing. */
    method Add(track: Analysed) returns (r: Result<(), StoreError>)
      modifies this
      ensures committed == old(committed) && commits == old(commits)
      ensures r.Ok? <==> Inserted(old(rows), track).Ok?
      ensures rows == (if r.Ok? then Inserted(old(rows), track).value else old(rows))
    {
      var cols := TagColumnsOf(track.tags);
      if cols.Err? {
        return Err(cols.error);
      }
      if track.path in rows {
        return Err(DuplicateKey);
      }
      rows := rows[track.path := Row(cols.value, 0, Some(track.features))];
      return Ok(());
    }

    /** `update`: rewrites the tag columns of an existing row; never creates a row. */
    method Update(track: Analysed) returns (r: Result<(), StoreError>)
      modifies this
      ensures committed == old(committed) && commits == old(commits)
      ensures r.Ok? <==> Updated(old(rows), track).Ok?
      ensures rows == (if r.Ok? then Updated(old(rows), track).value else old(rows))
    {
      var cols := TagColumnsOf(track.tags);
      if cols.Err? {
        return Err(cols.error);
      }
      if track.path in rows {
        rows := rows[track.path := rows[track.path].(tags := cols.value)];
      }
      return Ok(());
    }

    /**
     * `remove_old_tracks`: collects the keys of stale rows in one scan, then
     * deletes them; reports whether any row was deleted.
     */
    method RemoveOldTracks(sourcePath: string, fileExists: string -> bool) returns (removed: bool)
      modifies this
      ensures committed == old(committed) && commits == old(commits)
      ensures rows == Survivors(old(rows), sourcePath, fileExists)
      ensures removed <==> exists k :: k in old(rows) && IsStale(sourcePath, fileExists, k)
    {
      var nonExistent := StaleKeys(rows, sourcePath, fileExists);
      if |nonExistent| > 0 {
        DeleteKeys(nonExistent);
        SurvivorsAre(old(rows), rows, sourcePath, fileExists);
        assert nonExistent[0] in nonExistent;
        return true;
      }
      SurvivorsAre(rows, rows, sourcePath, fileExists);
      return false;
    }

    /** The delete loop: removes the rows under the given keys, one statement per key. */
    method DeleteKeys(keys: seq<string>)
      modifies this
      ensures committed == old(committed) && commits == old(commits)
      ensures forall k :: k in rows <==> k in old(rows) && k !in keys
      ensures forall k :: k in rows ==> rows[k] == old(rows)[k]
    {
      for i := 0 to |keys|
        invariant committed == old(committed) && commits == old(commits)
        invariant forall k :: k in rows <==> k in old(rows) && k !in keys[..i]
        invariant forall k :: k in rows ==> rows[k] == old(rows)[k]
      {
        assert forall k :: k in keys[..i + 1] <==> k in keys[..i] || k == keys[i];
        rows := rows - {keys[i]};
      }
      assert keys[..|keys|] == keys;
    }
    /** `file_already_analysed`: whether a row exists under the key, whatever its score columns hold. */
    method FileAlreadyAnalysed(path: string) returns (b: bool)
      ensures b <==> path in rows
    {
      return path in rows;
    }
  }
}
