/** Backup-format selection: the 3-character tag read from the forced
    override or the persisted format file, the default backup handler it
    selects, and the format reported back for that handler. */
module Formats {
  import opened Paths
  import opened Model

  /** The persisted tag of each format. */
  function FormatTag(f: BackupFormat): string {
    match f
    case Tar => "tar"
    case Tgz => "tgz"
    case Dup => "dup"
  }

  /** The buffer begins with the 3-character `tag`. */
  predicate StartsWithTag(raw: string, tag: string) {
    |raw| >= 3 && raw[..3] == tag
  }

  /** The string the format buffer holds once its fourth byte is cleared:
      at most three characters, and no more than the C string it holds. */
  function EffectiveTag(raw: string): (t: string)
    ensures |t| <= 3 && t <= raw && '\0' !in t
  {
    var c := CStr(raw);
    if |c| <= 3 then c else c[..3]
  }

  /** Only the first three characters decide a tag of three NUL-free characters. */
  lemma EffectiveTagMatches(raw: string, tag: string)
    requires |tag| == 3 && '\0' !in tag
    ensures EffectiveTag(raw) == tag <==> StartsWithTag(raw, tag)
  {
    var c := CStr(raw);
    if StartsWithTag(raw, tag) {
      assert forall k :: 0 <= k < 3 ==> raw[k] == tag[k] && raw[k] != '\0';
      assert |c| >= 3;
      assert c[..3] == raw[..3];
    }
    if EffectiveTag(raw) == tag {
      assert raw[..3] == EffectiveTag(raw);
    }
  }

  /** Parses a format buffer: "dup" selects dedupe, "tgz" tar.gz, anything
      else (including "tar") plain tar. */
  function ParseFormatTag(raw: string): (f: BackupFormat)
    ensures f == Dup <==> StartsWithTag(raw, "dup")
    ensures f == Tgz <==> StartsWithTag(raw, "tgz")
    ensures f == Tar <==> !StartsWithTag(raw, "dup") && !StartsWithTag(raw, "tgz")
  {
    EffectiveTagMatches(raw, "dup");
    EffectiveTagMatches(raw, "tgz");
    var t := EffectiveTag(raw);
    if t == "dup" then Dup
    else if t == "tgz" then Tgz
    else Tar
  }

  /** The persisted tag of a format parses back to it. */
  lemma FormatTagRoundTrip(f: BackupFormat)
    ensures ParseFormatTag(FormatTag(f)) == f
  {
    assert StartsWithTag(FormatTag(f), FormatTag(f));
  }

  /** Characters after the third never change the parsed format. */
  lemma {:induction false} OnlyFirstThreeMatter(raw: string, extra: string)
    requires |raw| >= 3
    ensures ParseFormatTag(raw + extra) == ParseFormatTag(raw)
  {
    assert (raw + extra)[..3] == raw[..3];
  }

  /** A forced format is set when its C string is non-empty. */
  predicate IsForced(forced: string) {
    |CStr(forced)| > 0
  }

  /** The format in force: the forced override when set, otherwise the
      format file, and plain tar when that file cannot be opened. */
  function ConfiguredFormat(forced: string, file: Option<string>): BackupFormat {
    if IsForced(forced) then ParseFormatTag(forced)
    else match file
      case None => Tar
      case Some(contents) => ParseFormatTag(contents)
  }

  /** A forced format wins over whatever the format file holds. */
  lemma ForcedFormatWins(forced: string, file1: Option<string>, file2: Option<string>)
    requires IsForced(forced)
    ensures ConfiguredFormat(forced, file1) == ConfiguredFormat(forced, file2)
    ensures ConfiguredFormat(forced, file1) == ParseFormatTag(forced)
  {
  }

  /** Without a forced format and without a format file, the format is tar. */
  lemma MissingFileMeansTar(forced: string)
    requires !IsForced(forced)
    ensures ConfiguredFormat(forced, None) == Tar
  {
  }

  /** A format file too short to hold a tag selects plain tar, like any
      tag other than "dup" and "tgz". */
  lemma ShortFormatFileMeansTar(forced: string, contents: string)
    requires !IsForced(forced) && |CStr(contents)| < 3
    ensures ConfiguredFormat(forced, Some(contents)) == Tar
  {
    ParseStopsAtNul(contents);
  }

  /** The default backup handler a format selects. */
  function HandlerForFormat(f: BackupFormat): (h: BackupHandler)
    ensures h == TarArchive || h == TarGzArchive || h == DedupeArchive
  {
    match f
    case Tar => TarArchive
    case Tgz => TarGzArchive
    case Dup => DedupeArchive
  }

  /** The format reported for a default handler (dedupe, tar.gz, else tar). */
  function FormatOfHandler(h: BackupHandler): BackupFormat {
    if h == DedupeArchive then Dup
    else if h == TarGzArchive then Tgz
    else Tar
  }

  /** Reporting the format of the handler a format selects gives the format
      back, so different formats select different handlers. */
  lemma FormatHandlerRoundTrip(f: BackupFormat)
    ensures FormatOfHandler(HandlerForFormat(f)) == f
  {
  }

  /** Stores a forced format, as `strcpy` into its 5-byte buffer does. */
  function ForceBackupFormat(s: Session, fmt: string): (r: Session)
    requires |CStr(fmt)| <= 4
    ensures IsForced(r.forced) <==> |CStr(fmt)| > 0
    ensures IsForced(r.forced) ==> ParseFormatTag(r.forced) == ParseFormatTag(fmt)
    ensures r.defaultHandler == s.defaultHandler && r.gcDone == s.gcDone
    ensures r.filesCount == s.filesCount && r.filesTotal == s.filesTotal
  {
    var stored := CStr(fmt);
    CStrOfCStr(fmt);
    ParseStopsAtNul(fmt);
    s.(forced := stored)
  }

  /** Parsing a buffer and parsing the C string it holds agree. */
  lemma ParseStopsAtNul(raw: string)
    ensures ParseFormatTag(CStr(raw)) == ParseFormatTag(raw)
  {
    var c := CStr(raw);
    if |c| >= 3 {
      assert c[..3] == raw[..3];
    } else if |c| < |raw| {
      assert raw[|c|] == '\0';
      assert !StartsWithTag(raw, "dup") && !StartsWithTag(raw, "tgz");
    }
  }

  lemma {:induction false} CStrOfCStr(s: string)
    ensures CStr(CStr(s)) == CStr(s)
  {
    if |s| > 0 && s[0] != '\0' {
      CStrOfCStr(s[1..]);
    }
  }

  /** Re-reads the default handler from the forced format or the format file. */
  function RefreshDefaultBackupHandler(s: Session, file: Option<string>): (r: Session)
    ensures FormatOfHandler(r.defaultHandler) == ConfiguredFormat(s.forced, file)
    ensures r.defaultHandler == TarArchive || r.defaultHandler == TarGzArchive || r.defaultHandler == DedupeArchive
    ensures r.forced == s.forced && r.gcDone == s.gcDone
    ensures r.filesCount == s.filesCount && r.filesTotal == s.filesTotal
  {
    s.(defaultHandler := HandlerForFormat(ConfiguredFormat(s.forced, file)))
  }

  /** The format the user interface shows: refresh, then report. */
  function GetDefaultBackupFormat(s: Session, file: Option<string>): (f: BackupFormat)
    ensures IsForced(s.forced) ==> f == ParseFormatTag(s.forced)
    ensures !IsForced(s.forced) && file.None? ==> f == Tar
    ensures !IsForced(s.forced) && file.Some? ==> f == ParseFormatTag(file.value)
  {
    FormatOfHandler(RefreshDefaultBackupHandler(s, file).defaultHandler)
  }
}
