/**
 * The maintenance script `update-db.py`: the ignore pass, which flags tracks
 * whose store key starts with a line of an ignore file, and the normalise
 * pass, which rewrites the artist, album-artist and album columns in place.
 */
module UpdateDb {
  import opened Wrappers
  import opened PyStr
  import opened SqlLike
  import opened TextNorm
  import opened Store

  // ---------------------------------------------------------------- strings

  /**
   * `normalize_str`: an empty string is returned as it is; otherwise the common
   * chain, then two spaces collapsed into one until none are left.
   */
  function NormalizedStr(s: string): (r: string)
    ensures s == "" ==> r == ""
    ensures IsLowerCase(r) && NoneOf(r, Deleted) && NoDoubleSpace(r)
    ensures s != "" ==> r == Squeeze(Replace(LowerDropped(s), " & ", " and "))
  {
    if s == "" then s
    else
      CleanSpec(s);
      CollapseSqueezes(Clean(s));
      Collapse(Clean(s))
  }

  /** Two spaces between single words without ampersands become one, each word cleaned. */
  lemma {:induction false} NormalizedStrGap(x: string, y: string)
    requires ' ' !in x && ' ' !in y && '&' !in x && '&' !in y
    ensures NormalizedStr(x + "  " + y) == LowerDropped(x) + " " + LowerDropped(y)
  {
    assert IsLowerCase("  ") && NoneOf("  ", Deleted);
    CleanAround(x, "  ", y);
    LowerDroppedAddsNothing(x);
    LowerDroppedAddsNothing(y);
    var a := LowerDropped(x);
    var b := LowerDropped(y);
    assert NoDoubleSpace(a) && NoDoubleSpace(b) by {
      assert forall i :: 0 <= i < |a| ==> a[i] in a;
      assert forall i :: 0 <= i < |b| ==> b[i] in b;
    }
    assert a == [] || a[|a| - 1] in a;
    assert b == [] || b[0] in b;
    CollapseOneGap(a, b);
  }

  /** A string the normaliser would not touch is its own normal form. */
  lemma {:induction false} NormalizedStrFixesNormalStrings(s: string)
    requires IsLowerCase(s) && NoneOf(s, Deleted) && !Contains(s, " & ") && NoDoubleSpace(s)
    ensures NormalizedStr(s) == s
  {
    if s != "" {
      CleanFixesCleanStrings(s);
    }
  }

  /** `normalize_str` with its loop: each pass replaces `'  '` by `' '` and so shortens the string. */
  method NormalizeStr(s: string) returns (r: string)
    ensures r == NormalizedStr(s)
  {
    if s == "" {
      return s;
    }
    r := Clean(s);
    while Contains(r, "  ")
      invariant Collapse(r) == Collapse(Clean(s))
      decreases |r|
    {
      ReplaceShrinks(r, "  ", " ");
      r := Replace(r, "  ", " ");
    }
    NoDoubleSpaceContains(r);
  }

  /** The edition suffixes `normalize_album` deletes, in the order it deletes them. */
  function EditionSuffixes(): seq<string> {
    [
    " (Anniversary Edition)", " (Deluxe Edition)", " (Expanded Edition)", " (Extended Edition)",
    " (Special Edition)", " (Deluxe)", " (Deluxe Version)", " (Extended Deluxe)", " (Super Deluxe)",
    " (Re-Issue)", " (Remastered)", " (Remixed)", " (Remixed And  Remastered)"]
  }

  /** `s.replace(x, '')`: every occurrence of `x` deleted; deleting the empty string changes nothing. */
  function DeleteAll(s: string, x: string): (r: string)
    ensures |r| <= |s|
  {
    if x == "" then s else Replace(s, x, "")
  }

  /** Each suffix deleted in turn, in list order. */
  function RemoveEditions(s: string, suffixes: seq<string>): (r: string)
    ensures |r| <= |s|
    decreases |suffixes|
  {
    if suffixes == [] then s else RemoveEditions(DeleteAll(s, suffixes[0]), suffixes[1..])
  }

  /** `normalize_album`: an empty album is returned as it is; else the edition suffixes go, then `normalize_str`. */
  function NormalizedAlbum(album: string): (r: string)
    ensures album == "" ==> r == ""
    ensures IsLowerCase(r) && NoneOf(r, Deleted) && NoDoubleSpace(r)
    ensures album != "" ==> r == NormalizedStr(RemoveEditions(album, EditionSuffixes()))
  {
    if album == "" then album else NormalizedStr(RemoveEditions(album, EditionSuffixes()))
  }

  /** `normalize_artist`: an empty artist is returned as it is; else `normalize_str`, then the featuring markers go. */
  function NormalizedArtist(artist: string): (r: string)
    ensures artist == "" ==> r == ""
    ensures IsLowerCase(r) && NoneOf(r, Deleted) && NoDoubleSpace(r)
    ensures artist != "" ==> r == DropFeaturing(NormalizedStr(artist))
  {
    if artist == "" then artist
    else
      var n := NormalizedStr(artist);
      DropFeaturingKeepsClean(n);
      DropFeaturingKeepsSingleSpaces(n);
      DropFeaturing(n)
  }

  method NormalizeAlbum(album: string) returns (r: string)
    ensures r == NormalizedAlbum(album)
  {
    if album == "" {
      return album;
    }
    r := NormalizeStr(RemoveEditions(album, EditionSuffixes()));
  }

  method NormalizeArtist(artist: string) returns (r: string)
    ensures r == NormalizedArtist(artist)
  {
    if artist == "" {
      return artist;
    }
    var n := NormalizeStr(artist);
    r := DropFeaturing(n);
  }

  /** A name the artist normaliser would not touch is its own normal form. */
  lemma {:induction false} NormalizedArtistFixesNormalNames(s: string)
    requires IsLowerCase(s) && NoneOf(s, Deleted) && !Contains(s, " & ") && NoDoubleSpace(s)
    requires !Contains(s, " feat ") && !Contains(s, " ft ") && !Contains(s, " featuring ")
    ensures NormalizedArtist(s) == s
  {
    if s != "" {
      NormalizedStrFixesNormalStrings(s);
      ReplaceAbsent(s, " feat ", " ");
      ReplaceAbsent(s, " ft ", " ");
      ReplaceAbsent(s, " featuring ", " ");
    }
  }

  /** A featuring marker between two single-word names becomes one space. */
  lemma {:induction false} NormalizedArtistDropsFeaturing(x: string, m: string, y: string)
    requires ' ' !in x && ' ' !in y && '&' !in x && '&' !in y
    requires m == " feat " || m == " ft " || m == " featuring "
    ensures NormalizedArtist(x + m + y) == LowerDropped(x) + " " + LowerDropped(y)
  {
    CleanThenDropFeaturing(x, m, y);
  }

  // ---------------------------------------------------------------- edition suffixes

  /** ` (…)`: a space, an opening parenthesis, and a closing one at the end, with no other parenthesis. */
  predicate Bracketed(x: string) {
    |x| >= 3 && x[0] == ' ' && x[1] == '(' && x[|x| - 1] == ')'
    && (forall j :: 2 <= j < |x| ==> x[j] != '(')
    && (forall j :: 0 <= j < |x| - 1 ==> x[j] != ')')
  }

  lemma {:induction false} BracketedSuffixes()
    ensures forall x :: x in EditionSuffixes() ==> Bracketed(x) && |x| > 0
  {
    BracketedSuffixesA();
    BracketedSuffixesB();
    BracketedSuffixesC();
    forall x | x in EditionSuffixes() ensures Bracketed(x) {
      var i :| 0 <= i < |EditionSuffixes()| && EditionSuffixes()[i] == x;
    }
  }

  // The literal check is split over three lemmas so that each stays small for the solver.

  lemma {:induction false} BracketedSuffixesA()
    ensures Bracketed(EditionSuffixes()[0]) && Bracketed(EditionSuffixes()[1]) && Bracketed(EditionSuffixes()[2])
            && Bracketed(EditionSuffixes()[3])
  {
  }

  lemma {:induction false} BracketedSuffixesB()
    ensures Bracketed(EditionSuffixes()[4]) && Bracketed(EditionSuffixes()[5]) && Bracketed(EditionSuffixes()[6])
            && Bracketed(EditionSuffixes()[7])
  {
  }

  lemma {:induction false} BracketedSuffixesC()
    ensures Bracketed(EditionSuffixes()[8]) && Bracketed(EditionSuffixes()[9]) && Bracketed(EditionSuffixes()[10])
            && Bracketed(EditionSuffixes()[11]) && Bracketed(EditionSuffixes()[12])
  {
  }

  /** A bracketed suffix occurs in `b + suf`, where `b` has no `(`, only as `suf` itself at its end. */
  lemma {:induction false} OnlyOccurrence(b: string, suf: string, x: string, i: int)
    requires '(' !in b && Bracketed(suf) && Bracketed(x)
    ensures OccursAt(b + suf, x, i) ==> i == |b| && x == suf
  {
    if OccursAt(b + suf, x, i) {
      OccurrenceAtEnd(b, suf, x, i);
    }
  }

  lemma {:induction false} OccurrenceAtEnd(b: string, suf: string, x: string, i: int)
    requires '(' !in b && Bracketed(suf) && Bracketed(x) && OccursAt(b + suf, x, i)
    ensures i == |b| && x == suf
  {
    var s := b + suf;
    forall j | 0 <= j < |s| && j != |b| + 1 ensures s[j] != '(' {
      if j < |b| { assert s[j] == b[j]; } else { assert s[j] == suf[j - |b|]; }
    }
    assert s[i + 1] == x[1];
    forall j | |b| <= j < |s| - 1 ensures s[j] != ')' {
      assert s[j] == suf[j - |b|];
    }
    assert s[i + |x| - 1] == x[|x| - 1];
    assert x == s[|b|..|b| + |x|] == suf;
  }

  /** A string without `(` holds no bracketed suffix, so deleting them leaves it as it is. */
  lemma {:induction false} RemoveEditionsUnbracketed(b: string, suffixes: seq<string>)
    requires '(' !in b && forall x :: x in suffixes ==> Bracketed(x) && |x| > 0
    ensures RemoveEditions(b, suffixes) == b
    decreases |suffixes|
  {
    if suffixes != [] {
      var x := suffixes[0];
      forall j | 0 <= j && j + |x| <= |b| ensures !OccursAt(b, x, j) {
        assert b[j + 1] in b;
        assert b[j + 1] == b[j..j + |x|][1];
      }
      ReplaceAbsent(b, x, "");
      RemoveEditionsUnbracketed(b, suffixes[1..]);
    }
  }

  /** An album name without `(` followed by one listed suffix loses exactly that suffix. */
  lemma {:induction false} RemoveEditionsSuffix(b: string, suf: string, suffixes: seq<string>)
    requires '(' !in b && suf in suffixes && forall x :: x in suffixes ==> Bracketed(x) && |x| > 0
    ensures RemoveEditions(b + suf, suffixes) == b
    decreases |suffixes|
  {
    var x := suffixes[0];
    if x == suf {
      DeleteSuffix(b, suf);
      RemoveEditionsUnbracketed(b, suffixes[1..]);
    } else {
      DeleteOtherSuffix(b, suf, x);
      RemoveEditionsSuffix(b, suf, suffixes[1..]);
    }
  }

  lemma {:induction false} DeleteSuffix(b: string, suf: string)
    requires '(' !in b && Bracketed(suf)
    ensures Replace(b + suf, suf, "") == b
  {
    assert OccursAt(b + suf, suf, |b|);
    var i := Find(b + suf, suf);
    OnlyOccurrence(b, suf, suf, i);
    ReplacePrefix(b, suf, "", []);
    assert b + suf + [] == b + suf;
  }

  lemma {:induction false} DeleteOtherSuffix(b: string, suf: string, x: string)
    requires '(' !in b && Bracketed(suf) && Bracketed(x) && x != suf
    ensures Replace(b + suf, x, "") == b + suf
  {
    forall j | 0 <= j && j + |x| <= |b + suf| ensures !OccursAt(b + suf, x, j) {
      OnlyOccurrence(b, suf, x, j);
    }
    ReplaceAbsent(b + suf, x, "");
  }

  /** An edition suffix after an unbracketed album name does not change its normal form. */
  lemma {:induction false} NormalizedAlbumDropsEdition(b: string, suf: string)
    requires '(' !in b && suf in EditionSuffixes()
    ensures NormalizedAlbum(b + suf) == NormalizedAlbum(b)
  {
    BracketedSuffixes();
    RemoveEditionsSuffix(b, suf, EditionSuffixes());
    if b != "" {
      RemoveEditionsUnbracketed(b, EditionSuffixes());
    }
  }

  /** An album name without `(` holds no edition suffix: its normal form is `normalize_str`'s. */
  lemma {:induction false} NormalizedAlbumUnbracketed(b: string)
    requires '(' !in b
    ensures NormalizedAlbum(b) == NormalizedStr(b)
  {
    if b != "" {
      BracketedSuffixes();
      RemoveEditionsUnbracketed(b, EditionSuffixes());
    }
  }

  // ---------------------------------------------------------------- ignore pass

  /** A key the ignore file names: it is `LIKE` some stripped line followed by `%`. */
  predicate Ignored(key: string, lines: seq<string>) {
    exists l :: l in lines && Like(key, Strip(l) + "%")
  }

  /** `UPDATE tracks SET ignore=0`. */
  function Unflagged(rows: map<string, Row>): map<string, Row> {
    map k | k in rows :: rows[k].(ignore := 0)
  }

  /** `UPDATE tracks SET ignore=1 WHERE file LIKE val%`. */
  function Flagged(rows: map<string, Row>, val: string): map<string, Row> {
    map k | k in rows :: if Like(k, val + "%") then rows[k].(ignore := 1) else rows[k]
  }

  /**
   * The table after the ignore statements for `lines`: every row keeps all its
   * columns but `ignore`, which is 1 exactly for the keys the file names.
   */
  function IgnoreFlags(rows: map<string, Row>, lines: seq<string>): (r: map<string, Row>)
    ensures r.Keys == rows.Keys
    decreases |lines|
  {
    if lines == [] then Unflagged(rows)
    else Flagged(IgnoreFlags(rows, lines[..|lines| - 1]), Strip(lines[|lines| - 1]))
  }

  /** Every row keeps all its columns but `ignore`, which is 1 exactly for the keys the file names. */
  lemma {:induction false} IgnoreFlagsAre(rows: map<string, Row>, lines: seq<string>)
    ensures IgnoreFlags(rows, lines).Keys == rows.Keys
    ensures forall k :: k in rows ==>
              IgnoreFlags(rows, lines)[k] == rows[k].(ignore := if Ignored(k, lines) then 1 else 0)
    decreases |lines|
  {
    if lines != [] {
      var init := lines[..|lines| - 1];
      var last := lines[|lines| - 1];
      assert forall l :: l in lines <==> l in init || l == last;
      IgnoreFlagsAre(rows, init);
    }
  }

  /** For lines without wildcards the flag is a case-insensitive prefix test on the key. */
  lemma {:induction false} IgnoreLiteralLines(rows: map<string, Row>, lines: seq<string>, k: string)
    requires k in rows && forall l :: l in lines ==> IsLiteral(Strip(l))
    ensures IgnoreFlags(rows, lines)[k].ignore == 1 <==> exists l :: l in lines && PrefixIgnoringCase(Strip(l), k)
  {
    IgnoreFlagsAre(rows, lines);
    forall l | l in lines ensures Like(k, Strip(l) + "%") <==> PrefixIgnoringCase(Strip(l), k) {
      LikePrefix(k, Strip(l));
    }
  }

  /** A blank line in the ignore file becomes `LIKE '%'` and so flags every track. */
  lemma {:induction false} BlankLineIgnoresEverything(rows: map<string, Row>, lines: seq<string>, blank: string)
    requires blank in lines && Strip(blank) == ""
    ensures forall k :: k in rows ==> IgnoreFlags(rows, lines)[k].ignore == 1
  {
    IgnoreFlagsAre(rows, lines);
    forall k | k in rows ensures Ignored(k, lines) {
      LikeAnything(k);
      assert Strip(blank) + "%" == "%";
    }
  }

  lemma {:induction false} IgnoreFlagsStep(rows: map<string, Row>, lines: seq<string>, i: nat)
    requires i < |lines|
    ensures IgnoreFlags(rows, lines[..i + 1]) == Flagged(IgnoreFlags(rows, lines[..i]), Strip(lines[i]))
  {
    assert lines[..i + 1][..i] == lines[..i];
  }

  /**
   * `ignore`: a missing ignore file stops the script before the table is
   * touched; otherwise every flag is cleared, set for each stripped line and
   * committed.
   */
  method IgnorePass(db: TracksDb, lines: Option<seq<string>>) returns (ok: bool)
    modifies db
    ensures ok <==> lines.Some?
    ensures !ok ==> db.rows == old(db.rows) && db.committed == old(db.committed) && db.commits == old(db.commits)
    ensures ok ==> db.rows == IgnoreFlags(old(db.rows), lines.value) && db.committed == db.rows
  {
    if lines.None? {
      return false;
    }
    var ls := lines.value;
    ghost var start := db.rows;
    db.rows := Unflagged(db.rows);
    assert db.rows == IgnoreFlags(start, ls[..0]);
    for i := 0 to |ls|
      invariant db.rows == IgnoreFlags(start, ls[..i])
    {
      IgnoreFlagsStep(start, ls, i);
      db.rows := Flagged(db.rows, Strip(ls[i]));
    }
    assert ls[..|ls|] == ls;
    db.Commit();
    ok := true;
  }

  // ---------------------------------------------------------------- normalise pass

  /** The three columns the normalise pass rewrites. */
  datatype Column = Artist | AlbumArtist | Album

  function Get(c: Column, t: TagColumns): Option<string> {
    match c
    case Artist => t.artist
    case AlbumArtist => t.albumartist
    case Album => t.album
  }

  /** The tag columns with column `c` set to `v` and every other column kept. */
  function Set(c: Column, t: TagColumns, v: Option<string>): (r: TagColumns)
    ensures Get(c, r) == v
    ensures forall d :: d != c ==> Get(d, r) == Get(d, t)
    ensures r.title == t.title && r.genre == t.genre && r.duration == t.duration
  {
    match c
    case Artist => t.(artist := v)
    case AlbumArtist => t.(albumartist := v)
    case Album => t.(album := v)
  }

  /** The normaliser of a column: `normalize_album` for `album`, `normalize_artist` for the other two. */
  function Normal(c: Column, v: string): string {
    if c.Album? then NormalizedAlbum(v) else NormalizedArtist(v)
  }

  function NormalOpt(c: Column, v: Option<string>): Option<string> {
    if v.Some? then Some(Normal(c, v.value)) else None
  }

  /** The normaliser leaves the normal form of `v` as it is (always so for NULL). */
  predicate Stable(c: Column, v: Option<string>) {
    v.Some? ==> Normal(c, Normal(c, v.value)) == Normal(c, v.value)
  }

  /** `UPDATE tracks SET c=u WHERE c=v`; `c = NULL` holds for no row, so a NULL `v` changes nothing. */
  function UpdateWhere(rows: map<string, Row>, c: Column, v: Option<string>, u: Option<string>): map<string, Row> {
    map k | k in rows :: if v.Some? && Get(c, rows[k].tags) == v then rows[k].(tags := Set(c, rows[k].tags, u)) else rows[k]
  }

  /**
   * The pass over one column's distinct values, NULL values skipped: each
   * value that is not its own normal form is replaced by it in every row
   * holding it. Only column `c` changes.
   */
  function ColumnPass(rows: map<string, Row>, c: Column, distinct: seq<Option<string>>): (r: map<string, Row>)
    ensures r.Keys == rows.Keys
    decreases |distinct|
  {
    if distinct == [] then rows
    else
      var v := distinct[|distinct| - 1];
      PassValue(ColumnPass(rows, c, distinct[..|distinct| - 1]), c, v, NormalOpt(c, v))
  }

  /** One value `v` of the pass, `n` its normal form: a non-NULL value other than `n` is replaced by it. */
  function PassValue(rows: map<string, Row>, c: Column, v: Option<string>, n: Option<string>): (r: map<string, Row>)
    ensures r.Keys == rows.Keys
  {
    if v.Some? && v != n then UpdateWhere(rows, c, v, n) else rows
  }

  /** Setting a column twice keeps the second value. */
  lemma {:induction false} SetSet(c: Column, t: TagColumns, a: Option<string>, b: Option<string>)
    ensures Set(c, Set(c, t, a), b) == Set(c, t, b)
  {
  }

  /** One row after `UpdateWhere`: only column `c` may change, to `u` exactly when it held the non-NULL `v`. */
  lemma {:induction false} UpdateWhereRow(rows: map<string, Row>, c: Column, v: Option<string>, u: Option<string>, k: string)
    requires k in rows
    ensures k in UpdateWhere(rows, c, v, u)
    ensures var w := Get(c, rows[k].tags);
      UpdateWhere(rows, c, v, u)[k] == rows[k].(tags := Set(c, rows[k].tags, if v.Some? && w == v then u else w))
  {
    var w := Get(c, rows[k].tags);
    if !(v.Some? && w == v) {
      var t := rows[k].tags;
      match c
      case Artist => assert Set(c, t, w) == t;
      case AlbumArtist => assert Set(c, t, w) == t;
      case Album => assert Set(c, t, w) == t;
    }
  }

  /** The pass keeps every key, and in every row every column but `c`. */
  lemma {:induction false} ColumnPassKeepsOthers(rows: map<string, Row>, c: Column, distinct: seq<Option<string>>)
    ensures ColumnPass(rows, c, distinct).Keys == rows.Keys
    ensures forall k :: k in rows ==>
              ColumnPass(rows, c, distinct)[k] == rows[k].(tags := Set(c, rows[k].tags, Get(c, ColumnPass(rows, c, distinct)[k].tags)))
    decreases |distinct|
  {
    if distinct == [] {
      forall k | k in rows
        ensures rows[k] == rows[k].(tags := Set(c, rows[k].tags, Get(c, rows[k].tags)))
      {
        var t := rows[k].tags;
        match c
        case Artist => assert Set(c, t, Get(c, t)) == t;
        case AlbumArtist => assert Set(c, t, Get(c, t)) == t;
        case Album => assert Set(c, t, Get(c, t)) == t;
      }
    } else {
      var init := distinct[..|distinct| - 1];
      var v := distinct[|distinct| - 1];
      var prev := ColumnPass(rows, c, init);
      ColumnPassKeepsOthers(rows, c, init);
      var after := ColumnPass(rows, c, distinct);
      if v.Some? && v.value != Normal(c, v.value) {
        var u := Some(Normal(c, v.value));
        assert after == UpdateWhere(prev, c, v, u);
        forall k | k in rows
          ensures after[k] == rows[k].(tags := Set(c, rows[k].tags, Get(c, after[k].tags)))
        {
          UpdateWhereRow(prev, c, v, u, k);
          var w := Get(c, prev[k].tags);
          var x := if w == v then u else w;
          assert after[k] == prev[k].(tags := Set(c, prev[k].tags, x));
          SetSet(c, rows[k].tags, w, x);
        }
      } else {
        assert after == prev;
      }
    }
  }

  /**
   * After the pass a row holds the normal form of its old value when that value
   * was listed, and its old value otherwise, provided the normaliser leaves the
   * normal forms of the listed values as they are (otherwise a later value
   * equal to an earlier one's normal form would move rows twice).
   */
  lemma {:induction false} ColumnPassValues(rows: map<string, Row>, c: Column, distinct: seq<Option<string>>)
    requires forall v :: v in distinct ==> Stable(c, v)
    ensures forall k :: k in rows ==>
              Get(c, ColumnPass(rows, c, distinct)[k].tags)
              == if Get(c, rows[k].tags) in distinct then NormalOpt(c, Get(c, rows[k].tags)) else Get(c, rows[k].tags)
    decreases |distinct|
  {
    if distinct != [] {
      var init := distinct[..|distinct| - 1];
      var v := distinct[|distinct| - 1];
      assert forall w :: w in distinct <==> w in init || w == v;
      ColumnPassValues(rows, c, init);
      var prev := ColumnPass(rows, c, init);
      var after := ColumnPass(rows, c, distinct);
      if v.Some? && v.value != Normal(c, v.value) {
        var u := Some(Normal(c, v.value));
        assert after == UpdateWhere(prev, c, v, u);
        forall k | k in rows
          ensures Get(c, after[k].tags)
                  == if Get(c, rows[k].tags) in distinct then NormalOpt(c, Get(c, rows[k].tags)) else Get(c, rows[k].tags)
        {
          UpdateWhereRow(prev, c, v, u, k);
        }
      } else {
        assert after == prev;
      }
    }
  }

  /** Listing every value of the column normalises every row's value. */
  lemma {:induction false} ColumnPassNormalises(rows: map<string, Row>, c: Column, distinct: seq<Option<string>>)
    requires forall k :: k in rows ==> Get(c, rows[k].tags) in distinct
    requires forall v :: v in distinct ==> Stable(c, v)
    ensures forall k :: k in rows ==> Get(c, ColumnPass(rows, c, distinct)[k].tags) == NormalOpt(c, Get(c, rows[k].tags))
  {
    ColumnPassValues(rows, c, distinct);
  }

  /** Why the pass as written stops: `updated` read before any assignment (`UnboundLocalError`). */
  datatype PassError = UpdatedUnbound

  /**
   * One column of the loop as written: `updated` is only assigned for a
   * non-NULL value, so a NULL value compares against the `updated` left by the
   * value before it (its update matches no row), and reads it unbound when no
   * value has bound it yet. The state is the table and `updated` (`None` while
   * unbound); `start` is the `updated` the column starts with.
   */
  function AsWrittenState(rows: map<string, Row>, c: Column, distinct: seq<Option<string>>, start: Option<string>)
    : (r: Result<(map<string, Row>, Option<string>), PassError>)
    ensures r.Ok? ==> r.value.0.Keys == rows.Keys
    decreases |distinct|
  {
    if distinct == [] then Ok((rows, start))
    else
      var prev := AsWrittenState(rows, c, distinct[..|distinct| - 1], start);
      if prev.Err? then prev
      else
        var v := distinct[|distinct| - 1];
        AsWrittenValue(prev.value.0, prev.value.1, c, v, NormalOpt(c, v))
  }

  /** One value `v` of the pass as written, `n` its normal form, given the table and `updated` so far. */
  function AsWrittenValue(rows: map<string, Row>, updated: Option<string>, c: Column, v: Option<string>, n: Option<string>)
    : (r: Result<(map<string, Row>, Option<string>), PassError>)
    ensures r.Ok? ==> r.value.0.Keys == rows.Keys
  {
    var updated' := if v.Some? then n else updated;
    if updated'.None? then Err(UpdatedUnbound)
    else if v != updated' then Ok((UpdateWhere(rows, c, v, updated'), updated'))
    else Ok((rows, updated'))
  }

  /**
   * `normalize` as written: the artist, album-artist and album columns in turn,
   * `updated` starting unbound and carried from one column to the next.
   */
  function NormalizeAsWritten(rows: map<string, Row>, artists: seq<Option<string>>,
                              albumArtists: seq<Option<string>>, albums: seq<Option<string>>)
    : (r: Result<map<string, Row>, PassError>)
    ensures r.Ok? ==> r.value.Keys == rows.Keys
  {
    var a := AsWrittenState(rows, Artist, artists, None);
    if a.Err? then Err(a.error)
    else
      var b := AsWrittenState(a.value.0, AlbumArtist, albumArtists, a.value.1);
      if b.Err? then Err(b.error)
      else
        var c := AsWrittenState(b.value.0, Album, albums, b.value.1);
        if c.Err? then Err(c.error) else Ok(c.value.0)
  }

  /** A NULL first distinct artist stops the script as written. */
  lemma {:induction false} AsWrittenFailsOnLeadingNull(rows: map<string, Row>, artists: seq<Option<string>>,
                                                      albumArtists: seq<Option<string>>, albums: seq<Option<string>>)
    requires artists != [] && artists[0].None?
    ensures NormalizeAsWritten(rows, artists, albumArtists, albums) == Err(UpdatedUnbound)
  {
    AsWrittenErrStays(rows, Artist, artists, |artists|);
    assert artists[..|artists|] == artists;
  }

  /** From an unbound `updated`, a NULL first value fails and the failure stays. */
  lemma {:induction false} AsWrittenErrStays(rows: map<string, Row>, c: Column, distinct: seq<Option<string>>, n: nat)
    requires 1 <= n <= |distinct| && distinct[0].None?
    ensures AsWrittenState(rows, c, distinct[..n], None) == Err(UpdatedUnbound)
    decreases n
  {
    if n == 1 {
      assert distinct[..1][..0] == [];
    } else {
      AsWrittenErrStays(rows, c, distinct, n - 1);
      assert distinct[..n][..n - 1] == distinct[..n - 1];
    }
  }

  /**
   * Otherwise the script as written has the effect of the three corrected
   * passes: a NULL album artist or album compares against a bound `updated`,
   * and its update matches no row.
   */
  lemma {:induction false} AsWrittenAgreesOtherwise(rows: map<string, Row>, artists: seq<Option<string>>,
                                                   albumArtists: seq<Option<string>>, albums: seq<Option<string>>)
    requires artists != [] ==> artists[0].Some?
    requires artists == [] ==> albumArtists == [] && albums == []
    ensures NormalizeAsWritten(rows, artists, albumArtists, albums)
            == Ok(ColumnPass(ColumnPass(ColumnPass(rows, Artist, artists), AlbumArtist, albumArtists), Album, albums))
  {
    if artists != [] {
      AsWrittenTracksPass(rows, Artist, artists, None);
      var a := AsWrittenState(rows, Artist, artists, None).value;
      AsWrittenTracksPass(a.0, AlbumArtist, albumArtists, a.1);
      var b := AsWrittenState(a.0, AlbumArtist, albumArtists, a.1).value;
      AsWrittenTracksPass(b.0, Album, albums, b.1);
    }
  }

  /** With `updated` bound or a non-NULL first value, the loop as written tracks the corrected pass. */
  lemma {:induction false} AsWrittenTracksPass(rows: map<string, Row>, c: Column, distinct: seq<Option<string>>, start: Option<string>)
    requires start.Some? || (distinct != [] && distinct[0].Some?)
    ensures AsWrittenState(rows, c, distinct, start).Ok?
    ensures AsWrittenState(rows, c, distinct, start).value.0 == ColumnPass(rows, c, distinct)
    ensures AsWrittenState(rows, c, distinct, start).value.1.Some?
    decreases |distinct|
  {
    if distinct != [] {
      var init := distinct[..|distinct| - 1];
      if init == [] {
        AsWrittenFirst(rows, c, distinct, start);
      } else {
        assert init[0] == distinct[0];
        AsWrittenTracksPass(rows, c, init, start);
        AsWrittenStep(rows, c, distinct, start);
      }
    }
  }

  lemma {:induction false} AsWrittenFirst(rows: map<string, Row>, c: Column, distinct: seq<Option<string>>, start: Option<string>)
    requires |distinct| == 1 && (start.Some? || distinct[0].Some?)
    ensures AsWrittenState(rows, c, distinct, start).Ok?
    ensures AsWrittenState(rows, c, distinct, start).value.0 == ColumnPass(rows, c, distinct)
    ensures AsWrittenState(rows, c, distinct, start).value.1.Some?
  {
    assert distinct[..0] == [];
    var v := distinct[0];
    var n := NormalOpt(c, v);
    assert AsWrittenState(rows, c, distinct, start) == AsWrittenValue(rows, start, c, v, n);
    assert ColumnPass(rows, c, distinct) == PassValue(rows, c, v, n);
    AsWrittenValueMatches(rows, start, c, v, n);
  }

  /** Once `updated` is bound, one more value moves the pass as written as it moves the corrected pass. */
  lemma {:induction false} AsWrittenStep(rows: map<string, Row>, c: Column, distinct: seq<Option<string>>, start: Option<string>)
    requires |distinct| > 1
    requires var prev := AsWrittenState(rows, c, distinct[..|distinct| - 1], start);
      prev.Ok? && prev.value.1.Some? && prev.value.0 == ColumnPass(rows, c, distinct[..|distinct| - 1])
    ensures AsWrittenState(rows, c, distinct, start).Ok?
    ensures AsWrittenState(rows, c, distinct, start).value.0 == ColumnPass(rows, c, distinct)
    ensures AsWrittenState(rows, c, distinct, start).value.1.Some?
  {
    var init := distinct[..|distinct| - 1];
    var prev := AsWrittenState(rows, c, init, start).value;
    var v := distinct[|distinct| - 1];
    var n := NormalOpt(c, v);
    assert AsWrittenState(rows, c, distinct, start) == AsWrittenValue(prev.0, prev.1, c, v, n);
    assert ColumnPass(rows, c, distinct) == PassValue(prev.0, c, v, n);
    AsWrittenValueMatches(prev.0, prev.1, c, v, n);
  }

  /** With `updated` bound or the value non-NULL, one value of the pass as written is one value of the corrected pass. */
  lemma {:induction false} AsWrittenValueMatches(rows: map<string, Row>, updated: Option<string>, c: Column, v: Option<string>, n: Option<string>)
    requires updated.Some? || v.Some?
    requires v.Some? ==> n.Some?
    ensures AsWrittenValue(rows, updated, c, v, n).Ok?
    ensures AsWrittenValue(rows, updated, c, v, n).value.0 == PassValue(rows, c, v, n)
    ensures AsWrittenValue(rows, updated, c, v, n).value.1.Some?
  {
    if v.None? {
      UpdateWhereNull(rows, c, updated);
    }
  }

  lemma {:induction false} UpdateWhereNull(rows: map<string, Row>, c: Column, u: Option<string>)
    ensures UpdateWhere(rows, c, None, u) == rows
  {
  }

  /** `SELECT DISTINCT c FROM tracks`, in no particular order. */
  method DistinctValues(db: TracksDb, c: Column) returns (vs: seq<Option<string>>)
    ensures forall v :: v in vs <==> exists k :: k in db.rows && Get(c, db.rows[k].tags) == v
    ensures forall i, j :: 0 <= i < j < |vs| ==> vs[i] != vs[j]
  {
    vs := [];
    var unscanned := db.rows.Keys;
    while unscanned != {}
      invariant unscanned <= db.rows.Keys
      invariant forall v :: v in vs <==> exists k :: k in db.rows && k !in unscanned && Get(c, db.rows[k].tags) == v
      invariant forall i, j :: 0 <= i < j < |vs| ==> vs[i] != vs[j]
      decreases unscanned
    {
      var key :| key in unscanned;
      var v := Get(c, db.rows[key].tags);
      if v !in vs {
        vs := vs + [v];
      }
      unscanned := unscanned - {key};
    }
  }

  /** The normaliser of column `c`, computed. */
  method NormalizeValue(c: Column, v: string) returns (u: string)
    ensures u == Normal(c, v)
  {
    if c.Album? {
      u := NormalizeAlbum(v);
    } else {
      u := NormalizeArtist(v);
    }
  }

  lemma {:induction false} ColumnPassStep(rows: map<string, Row>, c: Column, distinct: seq<Option<string>>, i: nat)
    requires i < |distinct|
    ensures ColumnPass(rows, c, distinct[..i + 1])
            == PassValue(ColumnPass(rows, c, distinct[..i]), c, distinct[i], NormalOpt(c, distinct[i]))
  {
    assert distinct[..i + 1][..i] == distinct[..i];
  }

  /** The loop of `normalize` over one column's distinct values, NULL values skipped. */
  method NormalizeColumn(db: TracksDb, c: Column, distinct: seq<Option<string>>)
    modifies db
    ensures db.rows == ColumnPass(old(db.rows), c, distinct)
    ensures db.committed == old(db.committed) && db.commits == old(db.commits)
  {
    for i := 0 to |distinct|
      invariant db.rows == ColumnPass(old(db.rows), c, distinct[..i])
      invariant db.committed == old(db.committed) && db.commits == old(db.commits)
    {
      ColumnPassStep(old(db.rows), c, distinct, i);
      NormalizeOne(db, c, distinct[i]);
    }
    assert distinct[..|distinct|] == distinct;
  }

  /** The body of the loop of `normalize`: one distinct value of column `c`. */
  method NormalizeOne(db: TracksDb, c: Column, v: Option<string>)
    modifies db
    ensures db.rows == PassValue(old(db.rows), c, v, NormalOpt(c, v))
    ensures db.committed == old(db.committed) && db.commits == old(db.commits)
  {
    if v.Some? {
      var updated := NormalizeValue(c, v.value);
      PassValueComputed(db.rows, c, v, NormalOpt(c, v), updated);
      if v.value != updated {
        db.rows := UpdateWhere(db.rows, c, v, Some(updated));
      }
    }
  }

  /** With the normal form `u` of a non-NULL value computed, the pass updates exactly when it differs. */
  lemma {:induction false} PassValueComputed(rows: map<string, Row>, c: Column, v: Option<string>, n: Option<string>, u: string)
    requires v.Some? && n == Some(u)
    ensures PassValue(rows, c, v, n) == if v.value != u then UpdateWhere(rows, c, v, n) else rows
  {
  }

  /** Every column value of every row is one the normaliser of its column leaves settled. */
  predicate AllStable(rows: map<string, Row>) {
    forall k :: k in rows ==>
      Stable(Artist, rows[k].tags.artist) && Stable(AlbumArtist, rows[k].tags.albumartist) && Stable(Album, rows[k].tags.album)
  }

  /** Only the three columns differ between two tables with the same keys. */
  predicate OnlyNamesDiffer(before: map<string, Row>, after: map<string, Row>) {
    after.Keys == before.Keys
    && forall k :: k in before ==>
         after[k].ignore == before[k].ignore && after[k].features == before[k].features
         && after[k].tags.title == before[k].tags.title && after[k].tags.genre == before[k].tags.genre
         && after[k].tags.duration == before[k].tags.duration
  }

  /** Each row holds the normal forms of its old artist, album artist and album. */
  predicate NamesNormalized(before: map<string, Row>, after: map<string, Row>)
    requires after.Keys == before.Keys
  {
    forall k :: k in before ==>
      after[k].tags.artist == NormalOpt(Artist, before[k].tags.artist)
      && after[k].tags.albumartist == NormalOpt(AlbumArtist, before[k].tags.albumartist)
      && after[k].tags.album == NormalOpt(Album, before[k].tags.album)
  }

  /**
   * `normalize`: for `artist`, `albumartist` and `album` in turn, the distinct
   * values are read and the column pass run over them; then one commit.
   */
  method Normalize(db: TracksDb)
    modifies db
    ensures OnlyNamesDiffer(old(db.rows), db.rows)
    ensures AllStable(old(db.rows)) ==> NamesNormalized(old(db.rows), db.rows)
    ensures db.committed == db.rows
  {
    ghost var r0 := db.rows;
    var artists := DistinctValues(db, Artist);
    NormalizeColumn(db, Artist, artists);
    ghost var r1 := db.rows;
    var albumArtists := DistinctValues(db, AlbumArtist);
    NormalizeColumn(db, AlbumArtist, albumArtists);
    ghost var r2 := db.rows;
    var albums := DistinctValues(db, Album);
    NormalizeColumn(db, Album, albums);
    ThreePasses(r0, r1, r2, db.rows, artists, albumArtists, albums);
    db.Commit();
  }

  lemma {:induction false} ThreePasses(r0: map<string, Row>, r1: map<string, Row>, r2: map<string, Row>, r3: map<string, Row>,
                    artists: seq<Option<string>>, albumArtists: seq<Option<string>>, albums: seq<Option<string>>)
    requires r1 == ColumnPass(r0, Artist, artists) && r2 == ColumnPass(r1, AlbumArtist, albumArtists)
    requires r3 == ColumnPass(r2, Album, albums)
    requires forall v :: v in artists <==> exists k :: k in r0 && Get(Artist, r0[k].tags) == v
    requires forall v :: v in albumArtists <==> exists k :: k in r1 && Get(AlbumArtist, r1[k].tags) == v
    requires forall v :: v in albums <==> exists k :: k in r2 && Get(Album, r2[k].tags) == v
    ensures OnlyNamesDiffer(r0, r3)
    ensures AllStable(r0) ==> NamesNormalized(r0, r3)
  {
    ColumnPassKeepsOthers(r0, Artist, artists);
    ColumnPassKeepsOthers(r1, AlbumArtist, albumArtists);
    ColumnPassKeepsOthers(r2, Album, albums);
    if AllStable(r0) {
      PassNormalises(r0, r1, Artist, artists);
      assert forall k :: k in r1 ==> Stable(AlbumArtist, Get(AlbumArtist, r1[k].tags)) by {
        forall k | k in r1 ensures Stable(AlbumArtist, Get(AlbumArtist, r1[k].tags)) {
          assert r1[k].tags.albumartist == r0[k].tags.albumartist;
        }
      }
      PassNormalises(r1, r2, AlbumArtist, albumArtists);
      assert forall k :: k in r2 ==> Stable(Album, Get(Album, r2[k].tags)) by {
        forall k | k in r2 ensures Stable(Album, Get(Album, r2[k].tags)) {
          assert r2[k].tags.album == r1[k].tags.album == r0[k].tags.album;
        }
      }
      PassNormalises(r2, r3, Album, albums);
    }
  }

  /** A pass over exactly the values of its column, each settled, normalises the whole column. */
  lemma {:induction false} PassNormalises(before: map<string, Row>, after: map<string, Row>, c: Column, distinct: seq<Option<string>>)
    requires after == ColumnPass(before, c, distinct)
    requires forall v :: v in distinct <==> exists k :: k in before && Get(c, before[k].tags) == v
    requires forall k :: k in before ==> Stable(c, Get(c, before[k].tags))
    ensures forall k :: k in before ==> Get(c, after[k].tags) == NormalOpt(c, Get(c, before[k].tags))
  {
    forall v | v in distinct ensures Stable(c, v) {
      var k :| k in before && Get(c, before[k].tags) == v;
    }
    ColumnPassNormalises(before, c, distinct);
  }
}
