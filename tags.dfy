/**
 * Tag reading: the normalisers applied to tag text when normalisation is
 * switched on, and the order in which the container readers are tried.
 * Each reader is represented by what it found in the file; a reader that
 * could not open the file as its container is `None`.
 */
module Tags {
  import opened Wrappers
  import opened PyStr
  import opened Seqs
  import opened TextNorm
  import opened Store

  /** `normalize`: the common chain when normalisation is on and the text is non-empty, else the text itself. */
  function Normalize(enabled: bool, s: string): (r: string)
    ensures !enabled || s == [] ==> r == s
    ensures enabled ==> IsLowerCase(r) && NoneOf(r, Deleted)
    ensures enabled ==> r == Replace(LowerDropped(s), " & ", " and ")
  {
    if !enabled || s == [] then s
    else
      CleanSpec(s);
      Clean(s)
  }

  /** `normalize_artist`: `normalize`, then the featuring markers become single spaces. */
  function NormalizeArtist(enabled: bool, s: string): (r: string)
    ensures !enabled || s == [] ==> r == s
    ensures enabled ==> IsLowerCase(r) && NoneOf(r, Deleted)
    ensures |r| <= |Normalize(enabled, s)|
    ensures enabled ==> r == DropFeaturing(Normalize(enabled, s))
  {
    if !enabled || s == [] then s
    else
      var n := Normalize(enabled, s);
      DropFeaturingKeepsClean(n);
      DropFeaturing(n)
  }

  /** An artist name already in normal form, without featuring markers, is left as it is. */
  lemma {:induction false} NormalizeArtistFixesNormalNames(s: string)
    requires IsLowerCase(s) && NoneOf(s, Deleted) && !Contains(s, " & ")
    requires !Contains(s, " feat ") && !Contains(s, " ft ") && !Contains(s, " featuring ")
    ensures NormalizeArtist(true, s) == s
  {
    if s != [] {
      CleanFixesCleanStrings(s);
      ReplaceAbsent(s, " feat ", " ");
      ReplaceAbsent(s, " ft ", " ");
      ReplaceAbsent(s, " featuring ", " ");
    }
  }

  /** ` & ` between two names without ampersands is spelt ` and `, each name lower-cased and without `.()`. */
  lemma {:induction false} NormalizeSpellsAnd(x: string, y: string)
    requires '&' !in x && '&' !in y
    ensures Normalize(true, x + " & " + y) == LowerDropped(x) + " and " + LowerDropped(y)
  {
    CleanSpellsAnd(x, y);
  }

  /** A featuring marker between two single-word names becomes one space. */
  lemma {:induction false} NormalizeArtistDropsFeaturing(x: string, m: string, y: string)
    requires ' ' !in x && ' ' !in y && '&' !in x && '&' !in y
    requires m == " feat " || m == " ft " || m == " featuring "
    ensures NormalizeArtist(true, x + m + y) == LowerDropped(x) + " " + LowerDropped(y)
  {
    CleanThenDropFeaturing(x, m, y);
  }

  /** What an MP4 or Ogg/FLAC reader found: the tags present (`None` when absent) and the stream length. */
  datatype ListTags = ListTags(artist: Option<string>, album: Option<string>, albumartist: Option<string>,
                               genres: Option<seq<string>>, length: real)

  /** What an MP3 or bare ID3 reader found: the TPE1, TALB, TPE2 and TCON frames as text. */
  datatype FrameTags = FrameTags(tpe1: Option<string>, talb: Option<string>, tpe2: Option<string>, tcon: Option<string>)

  /** An Ogg or FLAC file as opened: its tags, and whether the file object is truthy (it holds any tag at all). */
  datatype OggFile = OggFile(tags: ListTags, truthy: bool)

  /** The outcome of each reader on one file, in the order they are tried. */
  datatype Probes = Probes(
    mp4: Option<ListTags>,
    mp3: Option<(FrameTags, real)>,
    id3: Option<FrameTags>,
    vorbis: Option<OggFile>, flac: Option<OggFile>, oggFlac: Option<OggFile>, opus: Option<OggFile>)

  /** `read_tags` yields tags, finds none (`None`), or raises. */
  datatype ReadOutcome = Tagged(tags: TagDict) | NoTags | Raises

  /** The tag dictionary built from list-valued tags; `None` when artist or album is absent (the lookup raises). */
  function FromListTags(enabled: bool, t: ListTags): (r: Option<TagDict>)
    ensures r.Some? <==> t.artist.Some? && t.album.Some?
    ensures r.Some? ==> r.value.title.Missing? && r.value.duration == Val(Truncate(t.length))
                        && r.value.artist == Val(NormalizeArtist(enabled, t.artist.value))
                        && r.value.album == Val(Normalize(enabled, t.album.value))
                        && (r.value.genres.Val? <==> t.genres.Some?)
                        && (r.value.albumartist.Val? <==> t.albumartist.Some?)
                        && (t.albumartist.Some? ==> r.value.albumartist == Val(NormalizeArtist(enabled, t.albumartist.value)))
                        && (t.genres.Some? ==> r.value.genres == Val(t.genres.value))
  {
    if t.artist.None? || t.album.None? then None
    else
      Some(TagDict(
        Missing,
        Val(NormalizeArtist(enabled, t.artist.value)),
        Val(Normalize(enabled, t.album.value)),
        if t.albumartist.Some? then Val(NormalizeArtist(enabled, t.albumartist.value)) else Null,
        if t.genres.Some? then Val(t.genres.value) else Null,
        Val(Truncate(t.length))))
  }

  /** The tag dictionary built from ID3 frames; the genres are the TCON text split at the separator. */
  function FromFrames(enabled: bool, f: FrameTags, separator: char, duration: int): (r: Option<TagDict>)
    ensures r.Some? <==> f.tpe1.Some? && f.talb.Some?
    ensures r.Some? ==> r.value.title.Missing? && r.value.duration == Val(duration)
                        && r.value.artist == Val(NormalizeArtist(enabled, f.tpe1.value))
                        && r.value.album == Val(Normalize(enabled, f.talb.value))
                        && (r.value.albumartist.Val? <==> f.tpe2.Some?)
                        && (f.tpe2.Some? ==> r.value.albumartist == Val(NormalizeArtist(enabled, f.tpe2.value)))
                        && (r.value.genres.Val? <==> f.tcon.Some?)
                        && (f.tcon.Some? ==> Join(r.value.genres.value, separator) == f.tcon.value)
  {
    if f.tpe1.None? || f.talb.None? then None
    else
      Some(TagDict(
        Missing,
        Val(NormalizeArtist(enabled, f.tpe1.value)),
        Val(Normalize(enabled, f.talb.value)),
        if f.tpe2.Some? then Val(NormalizeArtist(enabled, f.tpe2.value)) else Null,
        if f.tcon.Some? then Val(Split(f.tcon.value, separator)) else Null,
        Val(duration)))
  }

  /** `get_ogg_or_flac`: the first of the Vorbis, FLAC, Ogg FLAC and Opus readers that opens the file. */
  function GetOggOrFlac(p: Probes): (r: Option<OggFile>)
    ensures r.None? <==> p.vorbis.None? && p.flac.None? && p.oggFlac.None? && p.opus.None?
    ensures p.vorbis.Some? ==> r == p.vorbis
    ensures p.vorbis.None? && p.flac.Some? ==> r == p.flac
    ensures p.vorbis.None? && p.flac.None? && p.oggFlac.Some? ==> r == p.oggFlac
    ensures p.vorbis.None? && p.flac.None? && p.oggFlac.None? ==> r == p.opus
  {
    var attempts := [p.vorbis, p.flac, p.oggFlac, p.opus];
    assert attempts[1] == p.flac && attempts[2] == p.oggFlac && attempts[3] == p.opus;
    FirstSome(attempts)
  }

  /** The three guarded readers, each giving tags or nothing. */
  function GuardedAttempts(enabled: bool, p: Probes, separator: char): seq<Option<TagDict>> {
    [ if p.mp4.Some? then FromListTags(enabled, p.mp4.value) else None,
      if p.mp3.Some? then FromFrames(enabled, p.mp3.value.0, separator, Truncate(p.mp3.value.1)) else None,
      if p.id3.Some? then FromFrames(enabled, p.id3.value, separator, 0) else None ]
  }

  /**
   * `read_tags` with its final tag filter taken as the identity: MP4, then MP3,
   * then bare ID3 (duration 0), each failure caught; then Ogg/FLAC, whose
   * missing artist or album is not caught.
   */
  function ReadTags(enabled: bool, p: Probes, separator: char): (r: ReadOutcome)
    ensures r.Tagged? ==> r.tags.title.Missing?
    ensures FirstSome(GuardedAttempts(enabled, p, separator)).Some? ==>
              r == Tagged(FirstSome(GuardedAttempts(enabled, p, separator)).value)
    ensures r == NoTags <==>
              FirstSome(GuardedAttempts(enabled, p, separator)).None?
              && (GetOggOrFlac(p).None? || !GetOggOrFlac(p).value.truthy)
    ensures r == Raises ==> GetOggOrFlac(p).Some? && GetOggOrFlac(p).value.truthy
    ensures FirstSome(GuardedAttempts(enabled, p, separator)).None? && GetOggOrFlac(p).Some?
            && GetOggOrFlac(p).value.truthy ==>
              r == (if FromListTags(enabled, GetOggOrFlac(p).value.tags).Some?
                    then Tagged(FromListTags(enabled, GetOggOrFlac(p).value.tags).value) else Raises)
  {
    var first := FirstSome(GuardedAttempts(enabled, p, separator));
    if first.Some? then Tagged(first.value)
    else
      match GetOggOrFlac(p)
      case None => NoTags
      case Some(audio) =>
        if !audio.truthy then NoTags
        else
          match FromListTags(enabled, audio.tags)
          case None => Raises
          case Some(t) => Tagged(t)
  }

  /** The MP4 reader wins whenever it finds artist and album, whatever the other readers would find. */
  lemma {:induction false} Mp4First(enabled: bool, p: Probes, separator: char, t: ListTags)
    requires p.mp4 == Some(t) && t.artist.Some? && t.album.Some?
    ensures ReadTags(enabled, p, separator) == Tagged(FromListTags(enabled, t).value)
  {
    assert GuardedAttempts(enabled, p, separator)[0].Some?;
  }

  /** Without any reader opening the file there are no tags. */
  lemma {:induction false} NothingOpens(enabled: bool, p: Probes, separator: char)
    requires p.mp4.None? && p.mp3.None? && p.id3.None?
    requires p.vorbis.None? && p.flac.None? && p.oggFlac.None? && p.opus.None?
    ensures ReadTags(enabled, p, separator) == NoTags
  {
    assert forall i :: 0 <= i < 3 ==> GuardedAttempts(enabled, p, separator)[i].None?;
  }

  /**
   * `read_tags` as shipped: its final filter is an undefined name, so each guarded
   * reader's success raises inside its own handler and is swallowed, and an
   * Ogg/FLAC success raises out of the call.
   */
  function ReadTagsAsWritten(enabled: bool, p: Probes, separator: char): (r: ReadOutcome)
    ensures !r.Tagged?
    ensures r == Raises <==> GetOggOrFlac(p).Some? && GetOggOrFlac(p).value.truthy
  {
    match GetOggOrFlac(p)
    case None => NoTags
    case Some(audio) => if audio.truthy then Raises else NoTags
  }

  /** Every file the corrected reader tags is untagged or fatal for the shipped one. */
  lemma {:induction false} AsWrittenNeverTags(enabled: bool, p: Probes, separator: char)
    requires ReadTags(enabled, p, separator).Tagged?
    ensures ReadTagsAsWritten(enabled, p, separator) != ReadTags(enabled, p, separator)
  {
  }
}
