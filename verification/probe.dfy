/** The restore format prober: when `<dir>/<name>.img` is missing, the first
    existing `<dir>/<name>.<fs><suffix>` over a fixed grid of filesystems and
    suffixes decides both the filesystem to format with and the restore
    strategy. */
module Probe {
  import opened Model
  import opened Handlers

  /** The filesystems tried, in order. */
  const Filesystems: seq<string> := ["yaffs2", "ext2", "ext3", "ext4", "vfat", "rfs", "f2fs", "exfat"]

  /** The suffixes tried for each filesystem, in order, and the restore
      strategy each one selects. */
  const Suffixes: seq<string> := [".img", ".tar", ".tar.gz", ".dup"]
  const SuffixHandlers: seq<RestoreHandler> := [UnyaffsImage, TarExtract, TarGzExtract, DedupeExtract]

  /** One point of the grid: the filesystem label, the strategy, the file. */
  datatype Candidate = Candidate(fs: string, handler: RestoreHandler, path: string)

  function CandidatePath(dir: string, name: string, fs: string, suffix: string): string {
    dir + "/" + name + "." + fs + suffix
  }

  /** The grid in probing order: filesystem-major, suffix-minor. */
  function Candidates(dir: string, name: string): (cs: seq<Candidate>)
    ensures |cs| == |Filesystems| * |Suffixes|
  {
    seq(32, i requires 0 <= i < 32 =>
      Candidate(Filesystems[i / 4], SuffixHandlers[i % 4], CandidatePath(dir, name, Filesystems[i / 4], Suffixes[i % 4])))
  }

  /** Grid point `(f, s)` sits at index `4 * f + s`. */
  lemma CandidateAt(dir: string, name: string, f: nat, s: nat)
    requires f < 8 && s < 4
    ensures Candidates(dir, name)[4 * f + s]
      == Candidate(Filesystems[f], SuffixHandlers[s], CandidatePath(dir, name, Filesystems[f], Suffixes[s]))
  {
    assert (4 * f + s) / 4 == f && (4 * f + s) % 4 == s;
  }

  /** Index of the first candidate whose file exists, or `|cs|` for none. */
  function FirstHitIndex(cs: seq<Candidate>, present: string -> bool): (k: nat)
    ensures k <= |cs|
    ensures k < |cs| ==> present(cs[k].path)
    ensures forall j :: 0 <= j < k ==> !present(cs[j].path)
    decreases |cs|
  {
    if |cs| == 0 then 0
    else if present(cs[0].path) then 0
    else 1 + FirstHitIndex(cs[1..], present)
  }

  /** The probe result: the first existing candidate, or `None`. */
  function ProbeArtifact(present: string -> bool, dir: string, name: string): (r: Option<Candidate>)
    ensures r.None? <==> forall j :: 0 <= j < 32 ==> !present(Candidates(dir, name)[j].path)
    ensures r.Some? ==>
      exists k :: 0 <= k < 32 && r.value == Candidates(dir, name)[k] && present(r.value.path)
        && forall j :: 0 <= j < k ==> !present(Candidates(dir, name)[j].path)
  {
    var cs := Candidates(dir, name);
    var k := FirstHitIndex(cs, present);
    if k < |cs| then Some(cs[k]) else None
  }

  /** The probe's answer is any candidate that exists with no existing
      candidate before it. */
  lemma FirstHitIsProbe(present: string -> bool, dir: string, name: string, k: nat)
    requires k < 32 && present(Candidates(dir, name)[k].path)
    requires forall j :: 0 <= j < k ==> !present(Candidates(dir, name)[j].path)
    ensures ProbeArtifact(present, dir, name) == Some(Candidates(dir, name)[k])
  {
    var cs := Candidates(dir, name);
    var f := FirstHitIndex(cs, present);
    assert f == k;
  }

  /** The probing loop as written: for each filesystem in turn, the four
      suffixes in turn, stopping at the first file that exists. */
  method ProbeLoop(present: string -> bool, dir: string, name: string) returns (found: Option<Candidate>)
    ensures found == ProbeArtifact(present, dir, name)
  {
    ghost var cs := Candidates(dir, name);
    var i := 0;
    while i < |Filesystems|
      invariant 0 <= i <= |Filesystems|
      invariant forall j :: 0 <= j < 4 * i ==> !present(cs[j].path)
    {
      var fs := Filesystems[i];
      var k := 0;
      while k < |Suffixes|
        invariant 0 <= k <= |Suffixes|
        invariant forall j :: 0 <= j < 4 * i + k ==> !present(cs[j].path)
      {
        var path := CandidatePath(dir, name, fs, Suffixes[k]);
        CandidateAt(dir, name, i, k);
        assert cs[4 * i + k].path == path;
        if present(path) {
          FirstHitIsProbe(present, dir, name, 4 * i + k);
          found := Some(Candidate(fs, SuffixHandlers[k], path));
          return;
        }
        NoHitExtends(present, cs, 4 * i + k);
        k := k + 1;
      }
      assert 4 * i + k == 4 * (i + 1);
      i := i + 1;
    }
    found := None;
  }

  /** A miss at index `n` extends a run of misses before it by one. */
  lemma NoHitExtends(present: string -> bool, cs: seq<Candidate>, n: nat)
    requires n < |cs| && !present(cs[n].path)
    requires forall j :: 0 <= j < n ==> !present(cs[j].path)
    ensures forall j :: 0 <= j < n + 1 ==> !present(cs[j].path)
  {
  }

  /** The last character of a suffix tells the suffixes apart. */
  lemma SuffixLastCharsDistinct()
    ensures forall a, b :: 0 <= a < 4 && 0 <= b < 4 && Suffixes[a][|Suffixes[a]| - 1] == Suffixes[b][|Suffixes[b]| - 1] ==> a == b
  {
  }

  lemma FilesystemsDistinct()
    ensures forall a, b :: 0 <= a < 8 && 0 <= b < 8 && Filesystems[a] == Filesystems[b] ==> a == b
  {
  }

  /** Different grid points name different files. */
  lemma {:induction false} CandidatePathsDistinct(dir: string, name: string, f1: nat, s1: nat, f2: nat, s2: nat)
    requires f1 < 8 && f2 < 8 && s1 < 4 && s2 < 4
    requires CandidatePath(dir, name, Filesystems[f1], Suffixes[s1]) == CandidatePath(dir, name, Filesystems[f2], Suffixes[s2])
    ensures f1 == f2 && s1 == s2
  {
    var pre := dir + "/" + name + ".";
    var x1 := Filesystems[f1] + Suffixes[s1];
    var x2 := Filesystems[f2] + Suffixes[s2];
    assert CandidatePath(dir, name, Filesystems[f1], Suffixes[s1]) == pre + x1;
    assert CandidatePath(dir, name, Filesystems[f2], Suffixes[s2]) == pre + x2;
    assert x1 == (pre + x1)[|pre|..];
    assert x2 == (pre + x2)[|pre|..];
    assert x1 == x2;
    assert x1[|x1| - 1] == Suffixes[s1][|Suffixes[s1]| - 1];
    assert x2[|x2| - 1] == Suffixes[s2][|Suffixes[s2]| - 1];
    SuffixLastCharsDistinct();
    assert s1 == s2;
    assert Filesystems[f1] == x1[..|x1| - |Suffixes[s1]|];
    assert Filesystems[f2] == x2[..|x2| - |Suffixes[s2]|];
    FilesystemsDistinct();
  }

  /** A backup directory holding only `<name>.<fs><suffix>` is probed to that
      file, with that filesystem and that suffix's strategy. */
  lemma {:induction false} ProbeFindsOnlyArtifact(present: string -> bool, dir: string, name: string, f: nat, s: nat)
    requires f < 8 && s < 4
    requires forall p :: present(p) <==> p == CandidatePath(dir, name, Filesystems[f], Suffixes[s])
    ensures ProbeArtifact(present, dir, name)
      == Some(Candidate(Filesystems[f], SuffixHandlers[s], CandidatePath(dir, name, Filesystems[f], Suffixes[s])))
  {
    var cs := Candidates(dir, name);
    var k := 4 * f + s;
    assert cs[k].path == CandidatePath(dir, name, Filesystems[f], Suffixes[s]);
    forall j | 0 <= j < k
      ensures !present(cs[j].path)
    {
      if present(cs[j].path) {
        CandidatePathsDistinct(dir, name, j / 4, j % 4, f, s);
        assert false;
      }
    }
    FirstHitIsProbe(present, dir, name, k);
  }

  /** Each backup strategy that leaves an artifact leaves the suffix the
      prober maps back to its inverse strategy. */
  lemma SuffixOfBackupHandler(h: BackupHandler)
    requires h != TarDump
    ensures exists s :: 0 <= s < 4 && Suffixes[s] == ArtifactSuffix(h) && SuffixHandlers[s] == RestoreInverse(h)
  {
    match h
    case Yaffs2Image => assert Suffixes[0] == ArtifactSuffix(h) && SuffixHandlers[0] == RestoreInverse(h);
    case TarArchive => assert Suffixes[1] == ArtifactSuffix(h) && SuffixHandlers[1] == RestoreInverse(h);
    case TarGzArchive => assert Suffixes[2] == ArtifactSuffix(h) && SuffixHandlers[2] == RestoreInverse(h);
    case DedupeArchive => assert Suffixes[3] == ArtifactSuffix(h) && SuffixHandlers[3] == RestoreInverse(h);
  }

  /** Round trip: backing up with strategy `h` to `<dir>/<name>.<fs>` and
      then probing a directory holding only that artifact selects `fs` and
      the inverse of `h`. */
  lemma {:induction false} BackupArtifactProbesToInverse(present: string -> bool, dir: string, name: string, fs: string, h: BackupHandler)
    requires fs in Filesystems && h != TarDump
    requires forall p :: present(p) <==> p == dir + "/" + name + "." + fs + ArtifactSuffix(h)
    ensures ProbeArtifact(present, dir, name)
      == Some(Candidate(fs, RestoreInverse(h), dir + "/" + name + "." + fs + ArtifactSuffix(h)))
  {
    var f :| 0 <= f < 8 && Filesystems[f] == fs;
    SuffixOfBackupHandler(h);
    var s :| 0 <= s < 4 && Suffixes[s] == ArtifactSuffix(h) && SuffixHandlers[s] == RestoreInverse(h);
    ProbeFindsOnlyArtifact(present, dir, name, f, s);
  }

  /** A grid file never coincides with a file tagged with an unlisted filesystem. */
  lemma {:induction false} UnlistedPathDistinct(dir: string, name: string, f: nat, s: nat, fs: string, suffix: string)
    requires f < 8 && s < 4 && fs !in Filesystems && suffix in Suffixes
    ensures CandidatePath(dir, name, Filesystems[f], Suffixes[s]) != CandidatePath(dir, name, fs, suffix)
  {
    var t :| 0 <= t < 4 && Suffixes[t] == suffix;
    var pre := dir + "/" + name + ".";
    var p1 := CandidatePath(dir, name, Filesystems[f], Suffixes[s]);
    var p2 := CandidatePath(dir, name, fs, suffix);
    assert p1 == pre + Filesystems[f] + Suffixes[s];
    assert p2 == pre + fs + Suffixes[t];
    if s != t {
      assert p1[|p1| - 1] != p2[|p2| - 1] by {
        assert p1[|p1| - 1] == Suffixes[s][|Suffixes[s]| - 1];
        assert p2[|p2| - 1] == Suffixes[t][|Suffixes[t]| - 1];
        SuffixLastCharsDistinct();
      }
    } else if |Filesystems[f]| != |fs| {
      assert |p1| != |p2|;
    } else {
      var n := |pre|;
      var m := |fs|;
      assert p1[n..n + m] == Filesystems[f];
      assert p2[n..n + m] == fs;
    }
  }

  /** An artifact tagged with a filesystem outside the list (such as the
      `.auto` stem) is never found by the prober. */
  lemma {:induction false} UnlistedFilesystemNotProbed(present: string -> bool, dir: string, name: string, fs: string, suffix: string)
    requires fs !in Filesystems && suffix in Suffixes
    requires forall p :: present(p) <==> p == CandidatePath(dir, name, fs, suffix)
    ensures ProbeArtifact(present, dir, name).None?
  {
    var cs := Candidates(dir, name);
    forall j | 0 <= j < 32
      ensures !present(cs[j].path)
    {
      CandidateAt(dir, name, j / 4, j % 4);
      UnlistedPathDistinct(dir, name, j / 4, j % 4, fs, suffix);
    }
  }
}
