/** The format buffer as the code fills it. Without a forced format, `fread`
    copies at most five bytes of the format file into a five-byte buffer
    that was never initialised, and the first three bytes are compared
    whatever the file's length. A file shorter than three bytes therefore
    leaves part of the tag to the bytes the buffer held before; `junk`
    stands for those bytes. */
module FormatBuffer {
  import opened Paths
  import opened Model
  import opened Formats

  /** The five bytes the buffer holds after `fread`: the file's first bytes,
      then the stale bytes it did not overwrite. */
  function ReadBuffer(contents: string, junk: string): (b: string)
    requires |junk| == 5
    ensures |b| == 5
    ensures forall k :: 0 <= k < |contents| && k < 5 ==> b[k] == contents[k]
    ensures forall k :: |contents| <= k < 5 ==> b[k] == junk[k]
  {
    if |contents| >= 5 then contents[..5] else contents + junk[|contents|..]
  }

  /** The configured format as the code computes it: the forced override,
      otherwise tar without a format file, otherwise the buffer's tag. */
  function ConfiguredFormatAsWritten(forced: string, file: Option<string>, junk: string): (f: BackupFormat)
    requires |junk| == 5
    ensures IsForced(forced) ==> f == ConfiguredFormat(forced, file)
    ensures file.None? ==> f == ConfiguredFormat(forced, file)
  {
    if IsForced(forced) then ParseFormatTag(forced)
    else match file
      case None => Tar
      case Some(contents) => ParseFormatTag(ReadBuffer(contents, junk))
  }

  /** A file holding at least the three tag bytes is read the same whatever
      the stale bytes were, and agrees with the corrected reading. */
  lemma FullTagIgnoresStaleBytes(forced: string, file: Option<string>, junk: string)
    requires |junk| == 5
    ensures file.Some? && |file.value| >= 3 ==>
      ConfiguredFormatAsWritten(forced, file, junk) == ConfiguredFormat(forced, file)
  {
    if file.Some? && |file.value| >= 3 && !IsForced(forced) {
      var b := ReadBuffer(file.value, junk);
      assert b[..3] == file.value[..3];
      assert StartsWithTag(b, "dup") <==> StartsWithTag(file.value, "dup");
      assert StartsWithTag(b, "tgz") <==> StartsWithTag(file.value, "tgz");
    }
  }

  /** With a zeroed buffer the code would read exactly the corrected format. */
  lemma ZeroedBufferIsConfigured(forced: string, file: Option<string>)
    ensures ConfiguredFormatAsWritten(forced, file, "\0\0\0\0\0") == ConfiguredFormat(forced, file)
  {
    FullTagIgnoresStaleBytes(forced, file, "\0\0\0\0\0");
    if file.Some? && |file.value| < 3 && !IsForced(forced) {
      var b := ReadBuffer(file.value, "\0\0\0\0\0");
      assert b[|file.value|] == '\0';
      assert !StartsWithTag(b, "dup") && !StartsWithTag(b, "tgz");
    }
  }

  /** An empty format file read into a buffer that last held "dup" selects
      dedupe, while the corrected reading selects plain tar. */
  lemma EmptyFileReadsStaleTag()
    ensures ConfiguredFormatAsWritten("", Some(""), "dup\0\0") == Dup
    ensures ConfiguredFormat("", Some("")) == Tar
  {
    var b := ReadBuffer("", "dup\0\0");
    assert b == "dup\0\0";
    assert StartsWithTag(b, "dup");
  }
}
