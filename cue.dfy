/**
 * CUE sheets. A track inside a CUE-described album file gets a virtual path
 * `rel + ".CUE_TRACK." + start + "-" + end + ".mp3"`; the external media
 * server's index names the same track `file://<quoted rel>#start-end`. This
 * module holds the codec between those forms and the resolution of the
 * sub-tracks of one album file from the index's tables.
 */
module Cue {
  import opened Wrappers
  import opened PyStr
  import opened Seqs
  import opened SqlLike
  import opened UrlQuote

  /** The reserved marker between an album file's path and a sub-track's time range. */
  const CueMarker: string := ".CUE_TRACK."

  /** The virtual path (and store key) of the sub-track `frag` of the album file `rel`. */
  function VirtualPath(rel: string, frag: string): (r: string)
    ensures |r| == |rel| + |CueMarker| + |frag| + 4
    ensures StartsWith(r, rel) && EndsWith(r, ".mp3")
    ensures r[|rel|..|rel| + |CueMarker|] == CueMarker
  {
    rel + CueMarker + frag + ".mp3"
  }

  /** A path usable as the album part of a virtual path: the marker cannot be found in or across it. */
  predicate PlainRel(rel: string) {
    |rel| > 0 && !Contains(rel, CueMarker) && !EndsWith(rel, ".CUE_TRACK")
  }

  // ---------------------------------------------------------------- codec

  /** `convert_to_source`: the album file a store key refers to. */
  function ConvertToSource(path: string): (r: string)
    ensures StartsWith(path, r)
    ensures r == path <==> Find(path, CueMarker) <= 0
    ensures r != path ==> |r| > 0 && !Contains(r, CueMarker) && StartsWith(path[|r|..], CueMarker)
    ensures r != path ==> |r| == Find(path, CueMarker)
  {
    var cue := Find(path, CueMarker);
    if cue > 0 then
      var r := path[..cue];
      BeforeFirstAbsent(path, CueMarker);
      assert path[cue..][..|CueMarker|] == path[cue..cue + |CueMarker|];
      r
    else path
  }

  /** `convert_from_cue_path`: an index-style `rel#start-end` becomes a virtual path. */
  function ConvertFromCuePath(path: string): (r: string)
    ensures Find(path, "#") <= 0 ==> r == path
    ensures Find(path, "#") > 0 ==>
      '#' !in r && EndsWith(r, ".mp3") && StartsWith(r, path[..Find(path, "#")] + CueMarker)
  {
    var hsh := Find(path, "#");
    if hsh > 0 then
      var t := Replace(path, "#", CueMarker);
      ReplaceRemovesChar(path, '#', CueMarker);
      ReplaceAtFirst(path, "#", CueMarker, hsh);
      var r := t + ".mp3";
      PrefixThrough(path[..hsh], CueMarker, Replace(path[hsh + 1..], "#", CueMarker), ".mp3");
      assert r[|r| - 4..] == ".mp3";
      r
    else path
  }

  /** A string built as `a + (b + c) + d` starts with `a + b`. */
  lemma {:induction false} PrefixThrough(a: string, b: string, c: string, d: string)
    ensures StartsWith(a + (b + c) + d, a + b)
  {
    assert a + (b + c) + d == (a + b) + (c + d);
  }

  /** `convert_to_cue_url`: a virtual path becomes the index's `file://` URL of the sub-track. */
  function ConvertToCueUrl(path: string): (r: string)
    ensures Find(path, CueMarker) <= 0 ==> r == path
    ensures Find(path, CueMarker) > 0 ==> StartsWith(r, "file")
  {
    var cue := Find(path, CueMarker);
    if cue > 0 then
      var t := Replace(path, CueMarker, "#");
      ReplaceAtFirst(path, CueMarker, "#", cue);
      var rest := Replace(path[cue + |CueMarker|..], CueMarker, "#");
      CountCharAppend(path[..cue], "#" + rest, '#');
      CountCharAppend("#", rest, '#');
      var parts := Split(t, '#');
      var url := "file://" + Quote(parts[0]) + "#" + parts[1];
      assert url[..4] == "file";
      DropLast(url, 4)
    else path
  }

  // ---------------------------------------------------------------- codec facts

  /** The marker is never found across the end of a plain album path. */
  lemma {:induction false} MarkerFirstAt(rel: string, tail: string)
    requires PlainRel(rel)
    ensures Find(rel + CueMarker + tail, CueMarker) == |rel|
  {
    var s := rel + CueMarker + tail;
    forall j | 0 <= j < |rel| ensures !OccursAt(s, CueMarker, j) {
      if j + |CueMarker| <= |rel| {
        NoMarkerInside(rel, tail, j);
      } else if j == |rel| - 10 {
        NoMarkerAtSuffix(rel, tail);
      } else {
        NoMarkerStraddling(rel, tail, j);
      }
    }
    assert s[|rel|..|rel| + |CueMarker|] == CueMarker;
    FindAt(s, CueMarker, |rel|);
  }

  /** An occurrence wholly inside `rel` would be one in `rel` itself. */
  lemma {:induction false} NoMarkerInside(rel: string, tail: string, j: int)
    requires 0 <= j && j + |CueMarker| <= |rel| && !Contains(rel, CueMarker)
    ensures !OccursAt(rel + CueMarker + tail, CueMarker, j)
  {
    var s := rel + CueMarker + tail;
    assert s[j..j + |CueMarker|] == rel[j..j + |CueMarker|];
    assert !OccursAt(rel, CueMarker, j);
  }

  /** An occurrence starting ten characters before the marker needs `rel` to end in `.CUE_TRACK`. */
  lemma {:induction false} NoMarkerAtSuffix(rel: string, tail: string)
    requires |rel| >= 10 && !EndsWith(rel, ".CUE_TRACK")
    ensures !OccursAt(rel + CueMarker + tail, CueMarker, |rel| - 10)
  {
    var s := rel + CueMarker + tail;
    var j := |rel| - 10;
    assert s[j..j + 10] == rel[j..];
    assert CueMarker[..10] == ".CUE_TRACK";
    assert s[j..j + |CueMarker|][..10] == s[j..j + 10];
  }

  /**
   * An occurrence starting fewer than ten characters before the marker would
   * put the marker's leading `.` at a position where the marker has a letter.
   */
  lemma {:induction false} NoMarkerStraddling(rel: string, tail: string, j: int)
    requires |rel| - 10 < j < |rel| && 0 <= j
    ensures !OccursAt(rel + CueMarker + tail, CueMarker, j)
  {
    var s := rel + CueMarker + tail;
    var l := |rel| - j;
    assert s[|rel|] == '.';
    assert 1 <= l <= 9;
    assert CueMarker[l] != '.' by {
      assert CueMarker[1..10] == "CUE_TRACK";
    }
    if j + |CueMarker| <= |s| {
      assert s[j..j + |CueMarker|][l] == s[|rel|];
    }
  }

  /** Without an underscore a string cannot hold the marker. */
  lemma {:induction false} NoMarkerWithoutUnderscore(s: string)
    requires '_' !in s
    ensures !Contains(s, CueMarker)
  {
    forall i | 0 <= i && i + |CueMarker| <= |s| ensures !OccursAt(s, CueMarker, i) {
      assert s[i + 4] in s;
      assert s[i..i + |CueMarker|][4] == s[i + 4] != CueMarker[4];
    }
  }

  /** The album file of a virtual path is its `rel` part: what the stale-row sweep checks for existence. */
  lemma {:induction false} SourceOfVirtualPath(rel: string, frag: string)
    requires PlainRel(rel)
    ensures ConvertToSource(VirtualPath(rel, frag)) == rel
  {
    MarkerFirstAt(rel, frag + ".mp3");
    assert VirtualPath(rel, frag) == rel + CueMarker + (frag + ".mp3");
  }

  /** `rel#frag` from the index becomes the virtual path of that sub-track. */
  lemma {:induction false} FromCuePathGivesVirtualPath(rel: string, frag: string)
    requires |rel| > 0 && '#' !in rel && '#' !in frag
    ensures ConvertFromCuePath(rel + "#" + frag) == VirtualPath(rel, frag)
  {
    var s := rel + "#" + frag;
    assert OccursAt(s, "#", |rel|) by { assert s[|rel|..|rel| + 1] == "#"; }
    forall j | 0 <= j < |rel| ensures !OccursAt(s, "#", j) && !OccursAt(rel + "#", "#", j) {
      assert s[j..j + 1] == [rel[j]] && (rel + "#")[j..j + 1] == [rel[j]];
      assert rel[j] in rel;
    }
    FindAt(s, "#", |rel|);
    assert (rel + "#")[|rel|..|rel| + 1] == "#";
    FindAt(rel + "#", "#", |rel|);
    ReplacePrefix(rel, "#", CueMarker, frag);
    forall j | 0 <= j && j + 1 <= |frag| ensures !OccursAt(frag, "#", j) {
      assert frag[j..j + 1] == [frag[j]];
      assert frag[j] in frag;
    }
    ReplaceAbsent(frag, "#", CueMarker);
  }

  /** Replacing the markers of a virtual path's text by `#` leaves `rel#tail`. */
  lemma {:induction false} MarkerToHash(rel: string, tail: string)
    requires PlainRel(rel) && '_' !in tail
    ensures Replace(rel + CueMarker + tail, CueMarker, "#") == rel + "#" + tail
  {
    var path := rel + CueMarker + tail;
    MarkerFirstAt(rel, tail);
    ReplaceAtFirst(path, CueMarker, "#", |rel|);
    assert path[..|rel|] == rel && path[|rel| + |CueMarker|..] == tail;
    NoMarkerWithoutUnderscore(tail);
    ReplaceAbsent(tail, CueMarker, "#");
  }

  /** A virtual path becomes the index URL of its sub-track. */
  lemma {:induction false} ToCueUrlOfVirtualPath(rel: string, frag: string)
    requires PlainRel(rel) && '#' !in rel && '#' !in frag && '_' !in frag
    ensures ConvertToCueUrl(VirtualPath(rel, frag)) == "file://" + Quote(rel) + "#" + frag
  {
    var tail := frag + ".mp3";
    assert VirtualPath(rel, frag) == rel + CueMarker + tail;
    ToCueUrlOfMarked(rel, tail);
    var want := "file://" + Quote(rel) + "#" + frag;
    var url := "file://" + Quote(rel) + "#" + tail;
    assert url == want + ".mp3";
    assert url[..|url| - 4] == want;
  }

  /** `rel` + marker + `tail` becomes the quoted `rel` and `tail` around a `#`, less four trailing characters. */
  lemma {:induction false} ToCueUrlOfMarked(rel: string, tail: string)
    requires PlainRel(rel) && '#' !in rel && '#' !in tail && '_' !in tail
    ensures ConvertToCueUrl(rel + CueMarker + tail) == DropLast("file://" + Quote(rel) + "#" + tail, 4)
  {
    var path := rel + CueMarker + tail;
    MarkerFirstAt(rel, tail);
    MarkerToHash(rel, tail);
    SplitPair(rel, tail, '#');
    ConvertToCueUrlAt(path);
  }

  /** `convert_to_cue_url` on a path whose marker lies past index 0, in terms of its split. */
  lemma {:induction false} ConvertToCueUrlAt(path: string)
    requires Find(path, CueMarker) > 0
    ensures var parts := Split(Replace(path, CueMarker, "#"), '#');
      |parts| >= 2 && ConvertToCueUrl(path) == DropLast("file://" + Quote(parts[0]) + "#" + parts[1], 4)
  {
    var cue := Find(path, CueMarker);
    ReplaceAtFirst(path, CueMarker, "#", cue);
    CountCharAppend(path[..cue] + "#", Replace(path[cue + |CueMarker|..], CueMarker, "#"), '#');
    CountCharAppend(path[..cue], "#", '#');
  }

  /** The two conversions compose: the index's `rel#frag` round-trips to the index URL. */
  lemma {:induction false} CuePathToUrl(rel: string, frag: string)
    requires PlainRel(rel) && '#' !in rel && '#' !in frag && '_' !in frag
    ensures ConvertToCueUrl(ConvertFromCuePath(rel + "#" + frag)) == "file://" + Quote(rel) + "#" + frag
  {
    FromCuePathGivesVirtualPath(rel, frag);
    ToCueUrlOfVirtualPath(rel, frag);
  }

  /** Distinct time ranges give distinct virtual paths. */
  lemma {:induction false} VirtualPathInjective(rel: string, s1: string, e1: string, s2: string, e2: string)
    requires '-' !in s1 && '-' !in e1 && '-' !in s2 && '-' !in e2
    requires VirtualPath(rel, s1 + "-" + e1) == VirtualPath(rel, s2 + "-" + e2)
    ensures s1 == s2 && e1 == e2
  {
    var f1 := s1 + "-" + e1;
    var f2 := s2 + "-" + e2;
    FragmentOf(rel, f1);
    FragmentOf(rel, f2);
    SplitPair(s1, e1, '-');
    SplitPair(s2, e2, '-');
  }

  /** The fragment sits between the marker and the `.mp3` suffix of a virtual path. */
  lemma {:induction false} FragmentOf(rel: string, frag: string)
    ensures |VirtualPath(rel, frag)| == |rel| + |CueMarker| + |frag| + 4
    ensures VirtualPath(rel, frag)[|rel| + |CueMarker|..|rel| + |CueMarker| + |frag|] == frag
  {
  }

  // ---------------------------------------------------------------- the index's tables

  /** A row of the index's `tracks` table (url, title, id, album, secs). */
  datatype LmsTrack = LmsTrack(url: string, title: Option<string>, id: int, album: Option<int>, secs: real)

  /** A row of `contributor_track`: a contributor of a track in a role. */
  datatype Contribution = Contribution(track: int, contributor: int, role: int)

  /** A row of `genre_track`. */
  datatype GenreLink = GenreLink(track: int, genre: int)

  /**
   * The tables of the index, each keyed table as a map from id to its (nullable)
   * name column; table scans return rows in sequence order.
   */
  datatype LmsDb = LmsDb(
    tracks: seq<LmsTrack>,
    contributorTracks: seq<Contribution>,
    genreTracks: seq<GenreLink>,
    albums: map<int, Option<string>>,
    genres: map<int, Option<string>>,
    contributors: map<int, Option<string>>)

  /** Metadata of a sub-track. */
  datatype CueMeta = CueMeta(title: Option<string>, artist: string, albumartist: string, album: string,
                             genres: seq<Option<string>>, duration: int)

  /** A sub-track to split out and analyse: its virtual file under the scratch directory and its time range. */
  datatype CueTrack = CueTrack(file: string, start: string, end: string, meta: CueMeta)

  /** Role codes naming a track artist, and the one naming an album artist. */
  const TrackArtistRoles: set<int> := {1, 6}
  const AlbumArtistRoles: set<int> := {5}

  /** The pattern of the `tracks` query: any url holding the quoted album path followed by `#`. */
  function UrlPattern(lmsFullPath: string): (pat: string)
    ensures '\'' !in pat
  {
    QuoteHasNoDelimiters(lmsFullPath);
    "%" + Quote(lmsFullPath) + "#%"
  }

  /** `select ... from tracks where url like '%<quoted path>#%'`. */
  function UrlQuery(db: LmsDb, lmsFullPath: string): (rows: seq<LmsTrack>)
    ensures forall t :: t in rows <==> t in db.tracks && Like(t.url, UrlPattern(lmsFullPath))
  {
    Filter(db.tracks, (t: LmsTrack) => Like(t.url, UrlPattern(lmsFullPath)))
  }

  /** `select contributor, role from contributor_track where track=?`. */
  function ContributionsOf(db: LmsDb, id: int): (cs: seq<Contribution>)
    ensures forall c :: c in cs <==> c in db.contributorTracks && c.track == id
  {
    Filter(db.contributorTracks, (c: Contribution) => c.track == id)
  }

  /** `select genre from genre_track where track=?`. */
  function GenreLinksOf(db: LmsDb, id: int): (gs: seq<GenreLink>)
    ensures forall g :: g in gs <==> g in db.genreTracks && g.track == id
  {
    Filter(db.genreTracks, (g: GenreLink) => g.track == id)
  }

  /** The album title of a track: absent when the album id is NULL, unknown, or its title is NULL. */
  function AlbumName(db: LmsDb, t: LmsTrack): (name: Option<string>)
    ensures name.Some? <==> t.album.Some? && t.album.value in db.albums && db.albums[t.album.value].Some?
    ensures name.Some? ==> name == db.albums[t.album.value]
  {
    if t.album.Some? && t.album.value in db.albums then db.albums[t.album.value] else None
  }

  /** A contribution in one of `roles` whose contributor exists and has a name. */
  predicate NamedIn(db: LmsDb, c: Contribution, roles: set<int>) {
    c.role in roles && c.contributor in db.contributors && db.contributors[c.contributor].Some?
  }

  /** One more contribution can only settle a name that is still unsettled. */
  lemma {:induction false} FirstNamedSnoc(db: LmsDb, cs: seq<Contribution>, i: int, roles: set<int>)
    requires 0 <= i < |cs|
    ensures FirstNamed(db, cs[..i + 1], roles)
            == if FirstNamed(db, cs[..i], roles).Some? then FirstNamed(db, cs[..i], roles)
               else if NamedIn(db, cs[i], roles) then db.contributors[cs[i].contributor]
               else None
  {
    assert cs[..i + 1][..i] == cs[..i];
  }

  /** The name of the first contribution in `roles` that has a named contributor. */
  function FirstNamed(db: LmsDb, cs: seq<Contribution>, roles: set<int>): (r: Option<string>)
  {
    if cs == [] then None
    else
      var r := FirstNamed(db, cs[..|cs| - 1], roles);
      var last := cs[|cs| - 1];
      if r.Some? then r
      else if NamedIn(db, last, roles) then db.contributors[last.contributor]
      else None
  }

  /**
   * `FirstNamed` finds nothing exactly when no contribution in `roles` has a named
   * contributor, and otherwise the name of the first one that has.
   */
  lemma {:induction false} FirstNamedSpec(db: LmsDb, cs: seq<Contribution>, roles: set<int>)
    ensures var r := FirstNamed(db, cs, roles);
      (r.None? <==> forall i :: 0 <= i < |cs| ==> !NamedIn(db, cs[i], roles))
      && (r.Some? ==> exists i :: 0 <= i < |cs| && NamedIn(db, cs[i], roles)
                                 && r == db.contributors[cs[i].contributor]
                                 && forall j :: 0 <= j < i ==> !NamedIn(db, cs[j], roles))
    decreases |cs|
  {
    if cs != [] {
      var init := cs[..|cs| - 1];
      FirstNamedSpec(db, init, roles);
      assert forall i :: 0 <= i < |init| ==> init[i] == cs[i];
    }
  }

  /** Each artist that is missing is copied from the other one. */
  function Mirror(trackArtist: Option<string>, albumArtist: Option<string>): (r: (Option<string>, Option<string>))
    ensures r.0.Some? <==> trackArtist.Some? || albumArtist.Some?
    ensures r.1.Some? <==> trackArtist.Some? || albumArtist.Some?
    ensures trackArtist.Some? ==> r.0 == trackArtist
    ensures albumArtist.Some? ==> r.1 == albumArtist
    ensures trackArtist.None? ==> r.0 == albumArtist
    ensures albumArtist.None? ==> r.1 == trackArtist
  {
    if albumArtist.None? then (trackArtist, trackArtist)
    else if trackArtist.None? then (albumArtist, albumArtist)
    else (trackArtist, albumArtist)
  }

  /** The names of the genres linked to a track, in link order; links to unknown genres are skipped. */
  function GenreNames(db: LmsDb, links: seq<GenreLink>): (names: seq<Option<string>>)
    ensures |names| <= |links|
    ensures (forall g :: g in links ==> g.genre in db.genres) ==> |names| == |links|
  {
    if links == [] then []
    else
      var init := links[..|links| - 1];
      var last := links[|links| - 1];
      assert forall g :: g in init ==> g in links;
      var names := GenreNames(db, init);
      if last.genre in db.genres then names + [db.genres[last.genre]] else names
  }

  /** One more link adds the name of its genre, if the genre row exists. */
  lemma {:induction false} GenreNamesSnoc(db: LmsDb, links: seq<GenreLink>, i: int)
    requires 0 <= i < |links|
    ensures links[i].genre !in db.genres ==> GenreNames(db, links[..i + 1]) == GenreNames(db, links[..i])
    ensures links[i].genre in db.genres ==>
              GenreNames(db, links[..i + 1]) == GenreNames(db, links[..i]) + [db.genres[links[i].genre]]
  {
    assert links[..i + 1][..i] == links[..i];
  }

  /** Every genre name comes from a link whose genre row exists. */
  lemma {:induction false} GenreNamesFromLinks(db: LmsDb, links: seq<GenreLink>)
    ensures forall n :: n in GenreNames(db, links) ==>
              exists g :: g in links && g.genre in db.genres && db.genres[g.genre] == n
    decreases |links|
  {
    if links != [] {
      var init := links[..|links| - 1];
      GenreNamesFromLinks(db, init);
      assert forall g :: g in init ==> g in links;
    }
  }

  /** The sub-track a `tracks` row describes, if any. */
  function CueTrackOf(db: LmsDb, row: LmsTrack, rel: string, tmp: string): (r: Option<CueTrack>)
    ensures r.Some? ==> r.value.file == tmp + VirtualPath(rel, r.value.start + "-" + r.value.end)
                        && '-' !in r.value.start + r.value.end
  {
    var parts := Split(row.url, '#');
    if |parts| != 2 then None
    else
      var times := Split(parts[1], '-');
      if |times| != 2 then None
      else
        var conts := ContributionsOf(db, row.id);
        var artists := Mirror(FirstNamed(db, conts, TrackArtistRoles), FirstNamed(db, conts, AlbumArtistRoles));
        var album := AlbumName(db, row);
        if artists.0.Some? && album.Some? then
          Some(CueTrack(tmp + VirtualPath(rel, times[0] + "-" + times[1]), times[0], times[1],
                        CueMeta(row.title, artists.0.value, artists.1.value, album.value,
                                GenreNames(db, GenreLinksOf(db, row.id)), Truncate(row.secs))))
        else None
  }

  /**
   * A row yields a sub-track exactly when its url has one `#`, the fragment one `-`,
   * some artist resolves and the album title is known.
   */
  lemma {:induction false} CueTrackOfAccepts(db: LmsDb, row: LmsTrack, rel: string, tmp: string)
    ensures CueTrackOf(db, row, rel, tmp).Some? <==>
      CountChar(row.url, '#') == 1 && CountChar(Split(row.url, '#')[1], '-') == 1
      && (FirstNamed(db, ContributionsOf(db, row.id), TrackArtistRoles).Some?
          || FirstNamed(db, ContributionsOf(db, row.id), AlbumArtistRoles).Some?)
      && AlbumName(db, row).Some?
  {
  }

  /** The sub-track's range is the url's fragment split at its `-`, and its metadata comes from the row. */
  lemma {:induction false} CueTrackOfFields(db: LmsDb, row: LmsTrack, rel: string, tmp: string)
    requires CueTrackOf(db, row, rel, tmp).Some?
    ensures var t := CueTrackOf(db, row, rel, tmp).value;
      row.url == Split(row.url, '#')[0] + "#" + t.start + "-" + t.end
      && '#' !in t.start + t.end
      && Some(t.meta.album) == AlbumName(db, row)
      && t.meta.title == row.title
      && t.meta.duration == Truncate(row.secs)
      && t.meta.genres == GenreNames(db, GenreLinksOf(db, row.id))
  {
    var parts := Split(row.url, '#');
    var times := Split(parts[1], '-');
    SplitInTwo(row.url, '#');
    SplitInTwo(parts[1], '-');
    assert forall c :: c in times[0] + times[1] ==> c in parts[1];
  }

  /** The artists of a sub-track: the first named track and album artists, each standing in for the other. */
  lemma {:induction false} CueTrackOfArtists(db: LmsDb, row: LmsTrack, rel: string, tmp: string)
    requires CueTrackOf(db, row, rel, tmp).Some?
    ensures var t := CueTrackOf(db, row, rel, tmp).value;
      var ta := FirstNamed(db, ContributionsOf(db, row.id), TrackArtistRoles);
      var aa := FirstNamed(db, ContributionsOf(db, row.id), AlbumArtistRoles);
      (ta.Some? ==> t.meta.artist == ta.value) && (ta.None? ==> t.meta.artist == aa.value)
      && (aa.Some? ==> t.meta.albumartist == aa.value) && (aa.None? ==> t.meta.albumartist == ta.value)
  {
  }

  /** The sub-tracks the rows describe, in row order. */
  function CueTracksOf(db: LmsDb, rows: seq<LmsTrack>, rel: string, tmp: string): (ts: seq<CueTrack>)
    ensures |ts| <= |rows|
  {
    if rows == [] then []
    else
      var ts := CueTracksOf(db, rows[..|rows| - 1], rel, tmp);
      match CueTrackOf(db, rows[|rows| - 1], rel, tmp)
      case Some(t) => ts + [t]
      case None => ts
  }

  /** Every sub-track comes from a matched row. */
  lemma {:induction false} CueTracksFromRows(db: LmsDb, rows: seq<LmsTrack>, rel: string, tmp: string)
    ensures forall t :: t in CueTracksOf(db, rows, rel, tmp) ==>
              exists row :: row in rows && CueTrackOf(db, row, rel, tmp) == Some(t)
    decreases |rows|
  {
    if rows != [] {
      var init := rows[..|rows| - 1];
      CueTracksFromRows(db, init, rel, tmp);
      assert forall row :: row in init ==> row in rows;
    }
  }

  /** `get_cue_tracks`: the sub-tracks of the album file `path`, none without an index. */
  function CueTracks(lms: Option<LmsDb>, lmsPath: string, path: string, rootLen: nat, tmp: string): (ts: seq<CueTrack>)
    ensures lms.None? ==> ts == []
  {
    if lms.None? then []
    else
      var rel := Drop(path, rootLen);
      CueTracksOf(lms.value, UrlQuery(lms.value, lmsPath + rel), rel, tmp)
  }

  /** Every sub-track's file is a virtual path of the album file with a `start-end` fragment. */
  lemma {:induction false} CueTracksFiles(lms: Option<LmsDb>, lmsPath: string, path: string, rootLen: nat, tmp: string)
    ensures forall t :: t in CueTracks(lms, lmsPath, path, rootLen, tmp) ==>
      exists s, e :: t.file == tmp + VirtualPath(Drop(path, rootLen), s + "-" + e) && '-' !in s + e
  {
    if lms.Some? {
      var rel := Drop(path, rootLen);
      var rows := UrlQuery(lms.value, lmsPath + rel);
      CueTracksFromRows(lms.value, rows, rel, tmp);
      forall t | t in CueTracks(lms, lmsPath, path, rootLen, tmp)
        ensures exists s, e :: t.file == tmp + VirtualPath(rel, s + "-" + e) && '-' !in s + e
      {
        var row :| row in rows && CueTrackOf(lms.value, row, rel, tmp) == Some(t);
        assert t.file == tmp + VirtualPath(rel, t.start + "-" + t.end) && '-' !in t.start + t.end;
      }
    }
  }

  // ---------------------------------------------------------------- the resolution loops

  /** The contributor scan: the first named track artist (role 1 or 6) and album artist (role 5), then mirrored. */
  method ResolveArtists(db: LmsDb, contributors: seq<Contribution>) returns (trackArtist: Option<string>, albumArtist: Option<string>)
    ensures (trackArtist, albumArtist) == Mirror(FirstNamed(db, contributors, TrackArtistRoles),
                                                 FirstNamed(db, contributors, AlbumArtistRoles))
  {
    trackArtist := None;
    albumArtist := None;
    for i := 0 to |contributors|
      invariant trackArtist == FirstNamed(db, contributors[..i], TrackArtistRoles)
      invariant albumArtist == FirstNamed(db, contributors[..i], AlbumArtistRoles)
    {
      var cont := contributors[i];
      FirstNamedSnoc(db, contributors, i, TrackArtistRoles);
      FirstNamedSnoc(db, contributors, i, AlbumArtistRoles);
      if trackArtist.None? && (cont.role == 1 || cont.role == 6) {
        if cont.contributor in db.contributors {
          trackArtist := db.contributors[cont.contributor];
        }
      } else if albumArtist.None? && cont.role == 5 {
        if cont.contributor in db.contributors {
          albumArtist := db.contributors[cont.contributor];
        }
      }
    }
    assert contributors[..|contributors|] == contributors;
    if albumArtist.None? {
      albumArtist := trackArtist;
    } else if trackArtist.None? {
      trackArtist := albumArtist;
    }
  }

  /** The genre scan: the name of each linked genre that exists, in link order. */
  method CollectGenres(db: LmsDb, genres: seq<GenreLink>) returns (genreList: seq<Option<string>>)
    ensures genreList == GenreNames(db, genres)
  {
    genreList := [];
    for i := 0 to |genres|
      invariant genreList == GenreNames(db, genres[..i])
    {
      GenreNamesSnoc(db, genres, i);
      var g := genres[i];
      if g.genre in db.genres {
        genreList := genreList + [db.genres[g.genre]];
      }
    }
    assert genres[..|genres|] == genres;
  }

  /** `get_cue_tracks` as a loop over the url query's rows. */
  method GetCueTracks(lms: Option<LmsDb>, lmsPath: string, path: string, rootLen: nat, tmp: string)
    returns (tracks: seq<CueTrack>)
    ensures tracks == CueTracks(lms, lmsPath, path, rootLen, tmp)
  {
    tracks := [];
    if lms.Some? {
      var db := lms.value;
      var rel := Drop(path, rootLen);
      var rows := UrlQuery(db, lmsPath + rel);
      for i := 0 to |rows|
        invariant tracks == CueTracksOf(db, rows[..i], rel, tmp)
      {
        CueTracksOfSnoc(db, rows, i, rel, tmp);
        var track := ScanRow(db, rows[i], rel, tmp);
        if track.Some? {
          tracks := tracks + [track.value];
        }
      }
      assert rows[..|rows|] == rows;
    }
  }

  /** The body of the row loop of `get_cue_tracks`: the sub-track one row describes, if any. */
  method ScanRow(db: LmsDb, row: LmsTrack, rel: string, tmp: string) returns (track: Option<CueTrack>)
    ensures track == CueTrackOf(db, row, rel, tmp)
  {
    track := None;
    var parts := Split(row.url, '#');
    if |parts| == 2 {
      var times := Split(parts[1], '-');
      if |times| == 2 {
        var trackArtist, albumArtist := ResolveArtists(db, ContributionsOf(db, row.id));
        var albumName := AlbumName(db, row);
        var genreList := CollectGenres(db, GenreLinksOf(db, row.id));
        if trackArtist.Some? && albumName.Some? {
          track := Some(CueTrack(tmp + VirtualPath(rel, times[0] + "-" + times[1]), times[0], times[1],
                                 CueMeta(row.title, trackArtist.value, albumArtist.value, albumName.value,
                                         genreList, Truncate(row.secs))));
        }
      }
    }
  }

  /** One more row adds its sub-track, if it describes one. */
  lemma {:induction false} CueTracksOfSnoc(db: LmsDb, rows: seq<LmsTrack>, i: int, rel: string, tmp: string)
    requires 0 <= i < |rows|
    ensures CueTrackOf(db, rows[i], rel, tmp).None? ==>
              CueTracksOf(db, rows[..i + 1], rel, tmp) == CueTracksOf(db, rows[..i], rel, tmp)
    ensures CueTrackOf(db, rows[i], rel, tmp).Some? ==>
              CueTracksOf(db, rows[..i + 1], rel, tmp) == CueTracksOf(db, rows[..i], rel, tmp) + [CueTrackOf(db, rows[i], rel, tmp).value]
  {
    assert rows[..i + 1][..i] == rows[..i];
  }

  // ---------------------------------------------------------------- the shipped scan

  /**
   * The row scan as shipped: the album check reads an undefined name, so every row
   * that gets past the two fragment checks raises `NameError`, which ends the scan.
   */
  function CueTracksAsWritten(db: LmsDb, rows: seq<LmsTrack>): (r: Result<seq<CueTrack>, string>)
    ensures r.Ok? ==> r.value == []
    ensures r.Err? <==> exists row :: row in rows && CountChar(row.url, '#') == 1
                                      && CountChar(Split(row.url, '#')[1], '-') == 1
  {
    if rows == [] then Ok([])
    else
      var row := rows[0];
      var parts := Split(row.url, '#');
      if |parts| == 2 && |Split(parts[1], '-')| == 2 then Err("NameError: albums")
      else
        var r := CueTracksAsWritten(db, rows[1..]);
        assert forall x :: x in rows ==> x == row || x in rows[1..];
        r
  }

  /** Whenever the corrected scan finds a sub-track, the shipped scan raises instead. */
  lemma {:induction false} AsWrittenLosesEveryTrack(db: LmsDb, rows: seq<LmsTrack>, rel: string, tmp: string)
    requires CueTracksOf(db, rows, rel, tmp) != []
    ensures CueTracksAsWritten(db, rows).Err?
  {
    var t := CueTracksOf(db, rows, rel, tmp)[0];
    assert t in CueTracksOf(db, rows, rel, tmp);
    CueTracksFromRows(db, rows, rel, tmp);
    var row :| row in rows && CueTrackOf(db, row, rel, tmp) == Some(t);
    CueTrackOfAccepts(db, row, rel, tmp);
  }
}
