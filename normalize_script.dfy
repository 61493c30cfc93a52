/**
 * The one-off script `normalize.py`: every row's artist, album artist and
 * album are replaced by their normal forms, with empty names becoming NULL.
 */
module NormalizeScript {
  import opened Wrappers
  import opened PyStr
  import opened TextNorm
  import opened Store
  import UpdateDb

  /** `normalize`: NULL and the empty string become NULL; any other name goes through the common chain. */
  function Normalize(s: Option<string>): (r: Option<string>)
    ensures r.None? <==> s.None? || s.value == ""
    ensures r.Some? ==> IsLowerCase(r.value) && NoneOf(r.value, Deleted)
    ensures r.Some? ==> r.value == Replace(LowerDropped(s.value), " & ", " and ")
  {
    if s.None? || s.value == "" then None
    else
      CleanSpec(s.value);
      Some(Clean(s.value))
  }

  /** `normalize_artist`: as `normalize`, then the featuring markers replaced by one space. */
  function NormalizeArtist(s: Option<string>): (r: Option<string>)
    ensures r.None? <==> s.None? || s.value == ""
    ensures r.Some? ==> IsLowerCase(r.value) && NoneOf(r.value, Deleted)
    ensures r.Some? ==> |r.value| <= |Normalize(s).value|
    ensures r.Some? ==> r.value == DropFeaturing(Normalize(s).value)
  {
    if s.None? || s.value == "" then None
    else
      var n := Clean(s.value);
      DropFeaturingKeepsClean(n);
      Some(DropFeaturing(n))
  }

  /** A featuring marker between two single-word names becomes one space. */
  lemma {:induction false} NormalizeArtistDropsFeaturing(x: string, m: string, y: string)
    requires ' ' !in x && ' ' !in y && '&' !in x && '&' !in y
    requires m == " feat " || m == " ft " || m == " featuring "
    ensures NormalizeArtist(Some(x + m + y)) == Some(LowerDropped(x) + " " + LowerDropped(y))
  {
    CleanThenDropFeaturing(x, m, y);
  }

  /** A name that is already in normal form is kept. */
  lemma {:induction false} NormalizeFixesNormalNames(s: string)
    requires s != "" && IsLowerCase(s) && NoneOf(s, Deleted) && !Contains(s, " & ")
    ensures Normalize(Some(s)) == Some(s)
  {
    CleanFixesCleanStrings(s);
  }

  /** An artist name in normal form and without featuring markers is kept. */
  lemma {:induction false} NormalizeArtistFixesNormalNames(s: string)
    requires s != "" && IsLowerCase(s) && NoneOf(s, Deleted) && !Contains(s, " & ")
    requires !Contains(s, " feat ") && !Contains(s, " ft ") && !Contains(s, " featuring ")
    ensures NormalizeArtist(Some(s)) == Some(s)
  {
    CleanFixesCleanStrings(s);
    ReplaceAbsent(s, " feat ", " ");
    ReplaceAbsent(s, " ft ", " ");
    ReplaceAbsent(s, " featuring ", " ");
  }

  /**
   * This script and the maintenance script agree on a name whose cleaned form
   * has no double space; the maintenance script only collapses spaces besides.
   */
  lemma {:induction false} AgreesWithMaintenanceScript(s: string)
    requires s != "" && NoDoubleSpace(Clean(s))
    ensures Normalize(Some(s)) == Some(UpdateDb.NormalizedStr(s))
    ensures NormalizeArtist(Some(s)) == Some(UpdateDb.NormalizedArtist(s))
  {
  }

  /** A row with its three name columns normalised. */
  function NormalizedRow(row: Row): (r: Row)
    ensures r.ignore == row.ignore && r.features == row.features
    ensures r.tags.title == row.tags.title && r.tags.genre == row.tags.genre && r.tags.duration == row.tags.duration
    ensures r.tags.artist.None? <==> row.tags.artist.None? || row.tags.artist.value == ""
    ensures r.tags.albumartist.None? <==> row.tags.albumartist.None? || row.tags.albumartist.value == ""
    ensures r.tags.album.Some? ==> row.tags.album.Some? && r.tags.album.value == Replace(LowerDropped(row.tags.album.value), " & ", " and ")
    ensures r.tags.artist == NormalizeArtist(row.tags.artist) && r.tags.albumartist == NormalizeArtist(row.tags.albumartist)
    ensures r.tags.album == Normalize(row.tags.album)
  {
    row.(tags := row.tags.(artist := NormalizeArtist(row.tags.artist),
                           albumartist := NormalizeArtist(row.tags.albumartist),
                           album := Normalize(row.tags.album)))
  }

  /** The table after the script: every key kept, only the three name columns changed, empty names now NULL. */
  function NormalizedTable(rows: map<string, Row>): (r: map<string, Row>)
    ensures r.Keys == rows.Keys && |r| == |rows|
    ensures forall k :: k in r ==>
              r[k].ignore == rows[k].ignore && r[k].features == rows[k].features
              && r[k].tags.title == rows[k].tags.title && r[k].tags.genre == rows[k].tags.genre
              && r[k].tags.duration == rows[k].tags.duration
    ensures forall k :: k in r ==>
              (r[k].tags.artist.None? <==> rows[k].tags.artist.None? || rows[k].tags.artist.value == "")
              && (r[k].tags.albumartist.None? <==> rows[k].tags.albumartist.None? || rows[k].tags.albumartist.value == "")
              && (r[k].tags.album.None? <==> rows[k].tags.album.None? || rows[k].tags.album.value == "")
    ensures forall k :: k in r ==> r[k] == NormalizedRow(rows[k])
  {
    var r := map k | k in rows :: NormalizedRow(rows[k]);
    assert r.Keys == rows.Keys;
    r
  }

  /** The update of one row by key, from the values read before the loop. */
  method NormalizeRow(db: TracksDb, file: string, row: Row)
    modifies db
    ensures db.rows == old(db.rows)[file := NormalizedRow(row)]
    ensures db.committed == old(db.committed) && db.commits == old(db.commits)
  {
    var artist := NormalizeArtist(row.tags.artist);
    var albumartist := NormalizeArtist(row.tags.albumartist);
    var album := Normalize(row.tags.album);
    db.rows := db.rows[file := row.(tags := row.tags.(artist := artist, albumartist := albumartist, album := album))];
  }

  /**
   * The script: all rows are read first, then each is updated by key from
   * what was read, then one commit.
   */
  method NormalizeAll(db: TracksDb)
    modifies db
    ensures db.rows == NormalizedTable(old(db.rows))
    ensures db.committed == db.rows
  {
    var rows := db.rows;
    var pending := rows.Keys;
    while pending != {}
      invariant pending <= rows.Keys && db.rows.Keys == rows.Keys
      invariant forall k :: k in rows ==> db.rows[k] == if k in pending then rows[k] else NormalizedRow(rows[k])
      decreases pending
    {
      var file :| file in pending;
      NormalizeRow(db, file, rows[file]);
      pending := pending - {file};
    }
    TableOfRows(rows, db.rows);
    db.Commit();
  }

  /** A table holding each row's normalised form under the same key is the normalised table. */
  lemma {:induction false} TableOfRows(rows: map<string, Row>, after: map<string, Row>)
    requires after.Keys == rows.Keys
    requires forall k :: k in rows ==> after[k] == NormalizedRow(rows[k])
    ensures after == NormalizedTable(rows)
  {
    var t := NormalizedTable(rows);
    forall k | k in after ensures after[k] == t[k] {
    }
  }
}
