/**
 * build of build.py: the .ipk is an ar archive holding debian-binary, a
 * gzip'd tar with the control file, and a gzip'd tar with the
 * application's files under usr/palm/applications/{id}/ followed by
 * usr/palm/packages/{id}/packageinfo.json.
 */
module Package {
  import opened Base
  import opened Text
  import opened Metadata
  import opened SizeEstimate
  import opened Archive

  /** Where the application's files are installed. */
  function ApplicationDir(id: string): string
  {
    "usr/palm/applications/" + id
  }

  /** Where the package-info document is installed. */
  function PackageInfoPath(id: string): string
  {
    "usr/palm/packages/" + id + "/packageinfo.json"
  }

  /**
   * The Installed-Size build writes: calc_size, four directories for
   * usr/palm/applications/{id}/, two more for packages/{id}/, and the
   * package-info document.
   */
  function InstalledSize(root: seq<Entry>, packageInfo: seq<byte>): (n: nat)
    ensures n >= 6 * DirectorySize + |packageInfo|
  {
    EstimatedSize(root) + 4 * DirectorySize + 2 * DirectorySize + |packageInfo|
  }

  /** A file of the source tree and the path it is archived under. */
  datatype Source = Source(path: string, content: seq<byte>)

  /** The files of one walk step, each under os.path.join(outBase, relpath). */
  function FileSources(outBase: string, dir: string, files: seq<FileRef>): seq<Source>
  {
    if files == [] then []
    else
      var f := files[|files| - 1];
      FileSources(outBase, dir, files[..|files| - 1]) + [Source(PosixJoin(outBase, PosixJoin(dir, f.name)), f.content)]
  }

  /** The files of a whole walk, in the order the walk lists them. */
  function WalkSources(steps: seq<WalkStep>, outBase: string): seq<Source>
  {
    if steps == [] then []
    else
      var step := steps[|steps| - 1];
      WalkSources(steps[..|steps| - 1], outBase) + FileSources(outBase, step.base, step.files)
  }

  /** The archive after tar_addfile of each source, in order, read from its open file. */
  function AddSources(ms: seq<TarMember>, srcs: seq<Source>, mtime: int): seq<TarMember>
  {
    if srcs == [] then ms
    else
      var s := srcs[|srcs| - 1];
      TarAppend(AddSources(ms, srcs[..|srcs| - 1], mtime), s.path, |s.content|, mtime, Raw(s.content))
  }

  /** The members of control.tar.gz. */
  function ControlTar(control: seq<byte>, mtime: int): seq<TarMember>
  {
    TarAppend([], "control", |control|, mtime, Raw(control))
  }

  /** The members of data.tar.gz. */
  function DataTar(id: string, root: seq<Entry>, packageInfo: seq<byte>, mtime: int): seq<TarMember>
  {
    var files := AddSources([], WalkSources(Walk("", root), ApplicationDir(id)), mtime);
    TarAppend(files, PackageInfoPath(id), |packageInfo|, mtime, Raw(packageInfo))
  }

  function DebianBinary(mtime: int): ArMember
  {
    ArEntry("debian-binary", |DebVersion|, mtime, Raw(DebVersion))
  }

  /**
   * build(base_path, output): `root` is the listing of base_path, `appinfo`
   * its parsed manifest, `now` the clock, and `compressedSize` the length
   * gzip gives an in-memory tar. `written` is what reaches the output file.
   */
  method Build(root: seq<Entry>, appinfo: AppInfo, now: int, compressedSize: seq<TarMember> -> nat)
    returns (r: Outcome, written: seq<ArMember>)
    ensures GenPackageInfo(appinfo).Err? ==> r == Fail(GenPackageInfo(appinfo).error) && written == []
    ensures GenPackageInfo(appinfo).Ok? && "size" in appinfo ==>
      r == Fail(DuplicateSize) && written == [DebianBinary(now)]
    ensures GenPackageInfo(appinfo).Ok? && "size" !in appinfo ==>
      var packageInfo := GenPackageInfo(appinfo).value;
      var size := InstalledSize(root, packageInfo);
      && r == Pass
      && "id" in appinfo
      && GenControl(appinfo, size).Ok?
      && (var control := ControlTar(GenControl(appinfo, size).value, now);
          var data := DataTar(appinfo["id"], root, packageInfo, now);
          written == [DebianBinary(now),
                      ArEntry("control.tar.gz", compressedSize(control), now, GzipTar(control)),
                      ArEntry("data.tar.gz", compressedSize(data), now, GzipTar(data))])
  {
    PackageInfoNeedsKeys(appinfo);
    var size := CalcSize(root);
    size := size + 4 * DirectorySize;
    var packageInfo := GenPackageInfo(appinfo);
    if packageInfo.Err? {
      return Fail(packageInfo.error), [];
    }
    size := size + 2 * DirectorySize;
    size := size + |packageInfo.value|;
    assert size == InstalledSize(root, packageInfo.value);
    r, written := WriteArchive(root, appinfo, size, packageInfo.value, now, compressedSize);
  }

  /**
   * The second half of build, from opening the output: debian-binary, then
   * the control tar (whose generation may fail), then the data tar.
   */
  method WriteArchive(root: seq<Entry>, appinfo: AppInfo, size: nat, packageInfo: seq<byte>, now: int,
                      compressedSize: seq<TarMember> -> nat)
    returns (r: Outcome, written: seq<ArMember>)
    ensures GenControl(appinfo, size).Err? ==>
      r == Fail(GenControl(appinfo, size).error) && written == [DebianBinary(now)]
    ensures GenControl(appinfo, size).Ok? ==>
      && r == Pass
      && "id" in appinfo
      && (var control := ControlTar(GenControl(appinfo, size).value, now);
          var data := DataTar(appinfo["id"], root, packageInfo, now);
          written == [DebianBinary(now),
                      ArEntry("control.tar.gz", compressedSize(control), now, GzipTar(control)),
                      ArEntry("data.tar.gz", compressedSize(data), now, GzipTar(data))])
  {
    var ar := new ArFile();
    ArAddBytes(ar, "debian-binary", DebVersion, now);
    assert ar.members == [DebianBinary(now)];

    var control := GenControl(appinfo, size);
    if control.Err? {
      return Fail(control.error), ar.members;
    }
    AddTars(ar, control.value, root, appinfo["id"], packageInfo, now, compressedSize);
    r := Pass;
    written := ar.members;
  }

  /** The two `with BytesIO()` blocks of build: control.tar.gz, then data.tar.gz. */
  method AddTars(ar: ArFile, control: seq<byte>, root: seq<Entry>, id: string, packageInfo: seq<byte>, now: int,
                 compressedSize: seq<TarMember> -> nat)
    modifies ar
    ensures var c, d := ControlTar(control, now), DataTar(id, root, packageInfo, now);
      ar.members == old(ar.members) + [ArEntry("control.tar.gz", compressedSize(c), now, GzipTar(c)),
                                       ArEntry("data.tar.gz", compressedSize(d), now, GzipTar(d))]
  {
    var before := ar.members;
    var controlMembers := WriteControlTar(control, now);
    var controlEntry := ArEntry("control.tar.gz", compressedSize(controlMembers), now, GzipTar(controlMembers));
    ArAddTar(ar, "control.tar.gz", controlMembers, compressedSize(controlMembers), now);
    var dataMembers := WriteDataTar(root, id, packageInfo, now);
    var middle := ar.members;
    assert middle == before + [controlEntry];
    var dataEntry := ArEntry("data.tar.gz", compressedSize(dataMembers), now, GzipTar(dataMembers));
    ArAddTar(ar, "data.tar.gz", dataMembers, compressedSize(dataMembers), now);
    assert ar.members == middle + [dataEntry];
    AppendTwo(before, controlEntry, dataEntry);
  }

  lemma AppendTwo<T>(s: seq<T>, x: T, y: T)
    ensures s + [x] + [y] == s + [x, y]
  {
  }

  /** The control.tar.gz block of build: a fresh tar holding the control file. */
  method WriteControlTar(control: seq<byte>, now: int) returns (members: seq<TarMember>)
    ensures members == ControlTar(control, now)
  {
    var controlTar := new TarFile();
    TarAddBytes(controlTar, "control", control, now);
    members := controlTar.members;
  }

  /**
   * The data.tar.gz block of build: a fresh tar holding every file of the
   * tree under usr/palm/applications/{id}/, then the package-info document.
   */
  method WriteDataTar(root: seq<Entry>, id: string, packageInfo: seq<byte>, now: int) returns (members: seq<TarMember>)
    ensures members == DataTar(id, root, packageInfo, now)
  {
    var dataTar := new TarFile();
    var outputBase := "usr/palm/applications/" + id;
    AddTree(dataTar, root, outputBase, now);
    var packageInfoName := "usr/palm/packages/" + id + "/packageinfo.json";
    TarAddBytes(dataTar, packageInfoName, packageInfo, now);
    members := dataTar.members;
  }

  /**
   * The os.walk loop of build: tar_addfile of every file of the tree, opened
   * for reading, under os.path.join(outBase, its path relative to the root).
   */
  method AddTree(tar: TarFile, root: seq<Entry>, outBase: string, now: int)
    modifies tar
    ensures tar.members == AddSources(old(tar.members), WalkSources(Walk("", root), outBase), now)
  {
    var steps := Walk("", root);
    var k := 0;
    while k < |steps|
      invariant 0 <= k <= |steps|
      invariant tar.members == AddSources(old(tar.members), WalkSources(steps[..k], outBase), now)
    {
      ghost var before := tar.members;
      AddStepFiles(tar, steps[k], outBase, now);
      AddSourcesConcat(old(tar.members), WalkSources(steps[..k], outBase),
                       FileSources(outBase, steps[k].base, steps[k].files), now);
      WalkSourcesStep(steps, k, outBase);
      k := k + 1;
    }
    assert steps[..k] == steps;
  }

  /** The files of one walk step, each read from its open file. */
  method AddStepFiles(tar: TarFile, step: WalkStep, outBase: string, now: int)
    modifies tar
    ensures tar.members == AddSources(old(tar.members), FileSources(outBase, step.base, step.files), now)
  {
    var j := 0;
    assert step.files[..0] == [];
    while j < |step.files|
      invariant 0 <= j <= |step.files|
      invariant tar.members == AddSources(old(tar.members), FileSources(outBase, step.base, step.files[..j]), now)
    {
      var f := step.files[j];
      var archivePath := PosixJoin(outBase, PosixJoin(step.base, f.name));
      AddOpenFile(tar, archivePath, f.content, now);
      FileSourcesStep(outBase, step.base, step.files, j);
      AddSourcesSnoc(old(tar.members), FileSources(outBase, step.base, step.files[..j]), Source(archivePath, f.content), now);
      j := j + 1;
    }
    assert step.files[..j] == step.files;
  }

  /** ar_addfile(ar, name, data) for a bytes value. */
  method ArAddBytes(ar: ArFile, name: string, data: seq<byte>, now: int)
    modifies ar
    ensures ar.members == old(ar.members) + [ArEntry(name, |data|, now, Raw(data))]
  {
    var added := ArAddFile(ar, name, Bytes(data), None, now);
  }

  /** ar_addfile(ar, name, fh) for an in-memory gzip'd tar, read from its start. */
  method ArAddTar(ar: ArFile, name: string, members: seq<TarMember>, length: nat, now: int)
    modifies ar
    ensures ar.members == old(ar.members) + [ArEntry(name, length, now, GzipTar(members))]
  {
    var added := ArAddFile(ar, name, Stream(GzipTar(members), length, true), None, now);
  }

  /** tar_addfile(tar, name, data) for a bytes value and a '/'-separated name. */
  method TarAddBytes(tar: TarFile, name: string, data: seq<byte>, now: int)
    modifies tar
    ensures tar.members == TarAppend(old(tar.members), name, |data|, now, Raw(data))
  {
    var added := TarAddFile(tar, name, Bytes(data), None, '/', now);
    ReplaceCharSame(name, '/');
  }

  /** with open(input_file, "rb") as fh: tar_addfile(tar, archive_path, fh) */
  method AddOpenFile(tar: TarFile, path: string, content: seq<byte>, now: int)
    modifies tar
    ensures tar.members == TarAppend(old(tar.members), path, |content|, now, Raw(content))
  {
    var added := TarAddFile(tar, path, Stream(Raw(content), |content|, true), None, '/', now);
    ReplaceCharSame(path, '/');
  }

  lemma WalkSourcesStep(steps: seq<WalkStep>, k: nat, outBase: string)
    requires k < |steps|
    ensures WalkSources(steps[..k + 1], outBase) ==
      WalkSources(steps[..k], outBase) + FileSources(outBase, steps[k].base, steps[k].files)
  {
    assert steps[..k + 1][..k] == steps[..k];
  }

  lemma FileSourcesStep(outBase: string, dir: string, files: seq<FileRef>, j: nat)
    requires j < |files|
    ensures FileSources(outBase, dir, files[..j + 1]) ==
      FileSources(outBase, dir, files[..j]) + [Source(PosixJoin(outBase, PosixJoin(dir, files[j].name)), files[j].content)]
  {
    assert files[..j + 1][..j] == files[..j];
  }

  lemma {:induction false} AddSourcesConcat(ms: seq<TarMember>, a: seq<Source>, b: seq<Source>, mtime: int)
    ensures AddSources(AddSources(ms, a, mtime), b, mtime) == AddSources(ms, a + b, mtime)
  {
    if b == [] {
      assert a + b == a;
    } else {
      var init, last := b[..|b| - 1], b[|b| - 1];
      assert b == init + [last];
      assert a + b == (a + init) + [last];
      AddSourcesConcat(ms, a, init, mtime);
      AddSourcesSnoc(AddSources(ms, a, mtime), init, last, mtime);
      AddSourcesSnoc(ms, a + init, last, mtime);
    }
  }

  lemma AddSourcesSnoc(ms: seq<TarMember>, srcs: seq<Source>, s: Source, mtime: int)
    ensures AddSources(ms, srcs + [s], mtime) == TarAppend(AddSources(ms, srcs, mtime), s.path, |s.content|, mtime, Raw(s.content))
  {
    assert (srcs + [s])[..|srcs|] == srcs;
  }

  /* ---------------- what the package holds ---------------- */

  /** The file members tar_addfile makes for the sources, in order. */
  function SourceMembers(srcs: seq<Source>, mtime: int): (ms: seq<TarMember>)
    ensures |ms| == |srcs|
    ensures forall i :: 0 <= i < |srcs| ==>
      ms[i] == FileMember(srcs[i].path, |srcs[i].content|, mtime, Raw(srcs[i].content))
  {
    if srcs == [] then []
    else
      var s := srcs[|srcs| - 1];
      SourceMembers(srcs[..|srcs| - 1], mtime) + [FileMember(s.path, |s.content|, mtime, Raw(s.content))]
  }

  /** control.tar.gz holds one member, the control file. */
  lemma ControlTarHoldsControl(control: seq<byte>, mtime: int)
    ensures ControlTar(control, mtime) == [FileMember("control", |control|, mtime, Raw(control))]
  {
    NoSlashAppendsOne([], "control", |control|, mtime, Raw(control));
  }

  /** Adding files keeps what the archive held as a prefix and adds at least one member per file. */
  lemma {:induction false} AddSourcesExtends(ms: seq<TarMember>, srcs: seq<Source>, mtime: int)
    ensures var r := AddSources(ms, srcs, mtime);
      |r| >= |ms| + |srcs| && r[..|ms|] == ms
  {
    if srcs != [] {
      var s := srcs[|srcs| - 1];
      var prev := AddSources(ms, srcs[..|srcs| - 1], mtime);
      AddSourcesExtends(ms, srcs[..|srcs| - 1], mtime);
      var r := TarAppend(prev, s.path, |s.content|, mtime, Raw(s.content));
      assert r[..|ms|] == prev[..|ms|];
    }
  }

  lemma {:induction false} AddSourcesRegulars(ms: seq<TarMember>, srcs: seq<Source>, mtime: int)
    ensures Regulars(AddSources(ms, srcs, mtime)) == Regulars(ms) + SourceMembers(srcs, mtime)
  {
    if srcs != [] {
      var init, s := srcs[..|srcs| - 1], srcs[|srcs| - 1];
      AddSourcesRegulars(ms, init, mtime);
      TarAppendRegulars(AddSources(ms, init, mtime), s.path, |s.content|, mtime, Raw(s.content));
    }
  }

  lemma {:induction false} AddSourcesInvariants(ms: seq<TarMember>, srcs: seq<Source>, mtime: int)
    requires AncestorsFirst(ms) && DirsFresh(ms)
    ensures AncestorsFirst(AddSources(ms, srcs, mtime)) && DirsFresh(AddSources(ms, srcs, mtime))
  {
    if srcs != [] {
      var init, s := srcs[..|srcs| - 1], srcs[|srcs| - 1];
      AddSourcesInvariants(ms, init, mtime);
      TarAppendAncestorsFirst(AddSources(ms, init, mtime), s.path, |s.content|, mtime, Raw(s.content));
      TarAppendDirsFresh(AddSources(ms, init, mtime), s.path, |s.content|, mtime, Raw(s.content));
    }
  }

  /**
   * data.tar.gz: its regular members are the tree's files, in walk order,
   * each under os.path.join(usr/palm/applications/{id}, relpath), followed
   * by packageinfo.json, which is the archive's very last member.
   */
  lemma DataTarFiles(id: string, root: seq<Entry>, packageInfo: seq<byte>, mtime: int)
    ensures var data := DataTar(id, root, packageInfo, mtime);
      var pkg := FileMember(PackageInfoPath(id), |packageInfo|, mtime, Raw(packageInfo));
      && Regulars(data) == SourceMembers(WalkSources(Walk("", root), ApplicationDir(id)), mtime) + [pkg]
      && data[|data| - 1] == pkg
  {
    var srcs := WalkSources(Walk("", root), ApplicationDir(id));
    var files := AddSources([], srcs, mtime);
    var pkg := FileMember(PackageInfoPath(id), |packageInfo|, mtime, Raw(packageInfo));
    AddSourcesRegulars([], srcs, mtime);
    assert Regulars([]) == [];
    assert Regulars(files) == SourceMembers(srcs, mtime);
    TarAppendRegulars(files, PackageInfoPath(id), |packageInfo|, mtime, Raw(packageInfo));
    assert DataTar(id, root, packageInfo, mtime) == TarAppend(files, PackageInfoPath(id), |packageInfo|, mtime, Raw(packageInfo));
  }

  /**
   * data.tar.gz: the names of the ancestors of every member come before it,
   * and no directory member repeats a name already in the archive.
   */
  lemma DataTarWellFormed(id: string, root: seq<Entry>, packageInfo: seq<byte>, mtime: int)
    ensures AncestorsFirst(DataTar(id, root, packageInfo, mtime))
    ensures DirsFresh(DataTar(id, root, packageInfo, mtime))
  {
    var files := AddSources([], WalkSources(Walk("", root), ApplicationDir(id)), mtime);
    AddSourcesInvariants([], WalkSources(Walk("", root), ApplicationDir(id)), mtime);
    TarAppendAncestorsFirst(files, PackageInfoPath(id), |packageInfo|, mtime, Raw(packageInfo));
    TarAppendDirsFresh(files, PackageInfoPath(id), |packageInfo|, mtime, Raw(packageInfo));
  }

  /* ---------------- the installed size against the data archive ---------------- */

  /** The sizes recorded for a list of members, added up. */
  function MemberBytes(ms: seq<TarMember>): nat
  {
    if ms == [] then 0 else MemberBytes(ms[..|ms| - 1]) + ms[|ms| - 1].size
  }

  function SourceBytes(srcs: seq<Source>): nat
  {
    if srcs == [] then 0 else SourceBytes(srcs[..|srcs| - 1]) + |srcs[|srcs| - 1].content|
  }

  lemma {:induction false} MemberBytesConcat(a: seq<TarMember>, b: seq<TarMember>)
    ensures MemberBytes(a + b) == MemberBytes(a) + MemberBytes(b)
  {
    if b == [] {
      assert a + b == a;
    } else {
      MemberBytesConcat(a, b[..|b| - 1]);
      assert (a + b)[..|a + b| - 1] == a + b[..|b| - 1];
    }
  }

  lemma {:induction false} SourceBytesConcat(a: seq<Source>, b: seq<Source>)
    ensures SourceBytes(a + b) == SourceBytes(a) + SourceBytes(b)
  {
    if b == [] {
      assert a + b == a;
    } else {
      SourceBytesConcat(a, b[..|b| - 1]);
      assert (a + b)[..|a + b| - 1] == a + b[..|b| - 1];
    }
  }

  lemma {:induction false} SourceMembersBytes(srcs: seq<Source>, mtime: int)
    ensures MemberBytes(SourceMembers(srcs, mtime)) == SourceBytes(srcs)
  {
    if srcs != [] {
      var s := srcs[|srcs| - 1];
      SourceMembersBytes(srcs[..|srcs| - 1], mtime);
      MemberBytesConcat(SourceMembers(srcs[..|srcs| - 1], mtime), [FileMember(s.path, |s.content|, mtime, Raw(s.content))]);
      assert [FileMember(s.path, |s.content|, mtime, Raw(s.content))][..0] == [];
    }
  }

  lemma {:induction false} FileSourcesBytes(outBase: string, dir: string, files: seq<FileRef>)
    ensures SourceBytes(FileSources(outBase, dir, files)) == SumSizes(files)
  {
    if files != [] {
      FileSourcesBytes(outBase, dir, files[..|files| - 1]);
    }
  }

  /** The sources of a walk carry exactly the bytes the walk lists. */
  lemma {:induction false} WalkSourcesBytes(steps: seq<WalkStep>, outBase: string)
    ensures SourceBytes(WalkSources(steps, outBase)) == WalkFileBytes(steps)
  {
    if steps != [] {
      var step := steps[|steps| - 1];
      WalkSourcesBytes(steps[..|steps| - 1], outBase);
      SourceBytesConcat(WalkSources(steps[..|steps| - 1], outBase), FileSources(outBase, step.base, step.files));
      FileSourcesBytes(outBase, step.base, step.files);
    }
  }

  /**
   * The Installed-Size written into the control file is DIRECTORY_SIZE for
   * every directory of the tree below its root plus the six directories of
   * the install prefixes, plus exactly the bytes of the regular files that
   * data.tar.gz carries.
   */
  lemma InstalledSizeAccounts(id: string, root: seq<Entry>, packageInfo: seq<byte>, mtime: int)
    ensures InstalledSize(root, packageInfo) ==
      DirectorySize * (SubdirCount(root) + 6) + MemberBytes(Regulars(DataTar(id, root, packageInfo, mtime)))
  {
    var srcs := WalkSources(Walk("", root), ApplicationDir(id));
    var pkg := FileMember(PackageInfoPath(id), |packageInfo|, mtime, Raw(packageInfo));
    DataTarFiles(id, root, packageInfo, mtime);
    MemberBytesConcat(SourceMembers(srcs, mtime), [pkg]);
    assert [pkg][..0] == [];
    SourceMembersBytes(srcs, mtime);
    WalkSourcesBytes(Walk("", root), ApplicationDir(id));
    WalkCounts("", root);
  }

  /**
   * The Installed-Size field of the control file build writes reads back as
   * the decimal of: DIRECTORY_SIZE for each directory of the tree and for
   * each of the six install-prefix directories, plus the bytes of every
   * regular file in data.tar.gz.
   */
  lemma ControlStatesInstalledSize(root: seq<Entry>, appinfo: AppInfo, now: int)
    requires "id" in appinfo && "title" in appinfo && "vendor" in appinfo && "version" in appinfo
    requires "size" !in appinfo
    requires SingleLine(appinfo["id"]) && SingleLine(appinfo["version"])
    ensures GenPackageInfo(appinfo).Ok?
    ensures var packageInfo := GenPackageInfo(appinfo).value;
      var size := InstalledSize(root, packageInfo);
      var text := ControlText(appinfo["id"], appinfo["version"], size);
      && GenControl(appinfo, size).Ok?
      && Utf8Decode(GenControl(appinfo, size).value) == Some(text)
      && ControlField(Split(text, '\n'), "Installed-Size") == Some(Decimal(size))
      && size == DirectorySize * (SubdirCount(root) + 6) + MemberBytes(Regulars(DataTar(appinfo["id"], root, packageInfo, now)))
  {
    var packageInfo := GenPackageInfo(appinfo).value;
    PackageInfoNeedsKeys(appinfo);
    ControlReadBack(appinfo, InstalledSize(root, packageInfo));
    InstalledSizeAccounts(appinfo["id"], root, packageInfo, now);
  }

  /* ---------------- where the files land ---------------- */

  /** `p` is `dir` + "/" + a non-empty path. */
  predicate Below(p: string, dir: string)
  {
    |p| > |dir| + 1 && p[..|dir| + 1] == dir + "/"
  }

  lemma {:induction false} FileSourcesBelow(outBase: string, step: WalkStep)
    requires outBase != "" && outBase[|outBase| - 1] != '/'
    requires RelativeStep(step)
    ensures forall i :: 0 <= i < |FileSources(outBase, step.base, step.files)| ==>
      Below(FileSources(outBase, step.base, step.files)[i].path, outBase)
    decreases |step.files|
  {
    if step.files != [] {
      var f := step.files[|step.files| - 1];
      var init := WalkStep(step.base, step.dirs, step.files[..|step.files| - 1]);
      FileSourcesBelow(outBase, init);
      var rel := PosixJoin(step.base, f.name);
      assert PlainName(f.name);
      JoinRelative(step.base, f.name);
      JoinBelow(outBase, rel);
      assert step.files[..|step.files| - 1] == init.files;
      BelowSnoc(FileSources(outBase, step.base, init.files), Source(PosixJoin(outBase, rel), f.content), outBase);
    }
  }

  lemma BelowSnoc(srcs: seq<Source>, s: Source, dir: string)
    requires forall i :: 0 <= i < |srcs| ==> Below(srcs[i].path, dir)
    requires Below(s.path, dir)
    ensures forall i :: 0 <= i < |srcs + [s]| ==> Below((srcs + [s])[i].path, dir)
  {
  }

  /** Joining a non-empty relative path below a directory without a trailing "/" lands below it. */
  lemma JoinBelow(dir: string, rel: string)
    requires dir != "" && dir[|dir| - 1] != '/'
    requires rel != "" && rel[0] != '/'
    ensures Below(PosixJoin(dir, rel), dir)
  {
    var p := PosixJoin(dir, rel);
    assert p == dir + "/" + rel;
    assert p[..|dir| + 1] == dir + "/";
  }

  lemma {:induction false} WalkSourcesBelow(steps: seq<WalkStep>, outBase: string)
    requires outBase != "" && outBase[|outBase| - 1] != '/'
    requires forall k :: 0 <= k < |steps| ==> RelativeStep(steps[k])
    ensures forall i :: 0 <= i < |WalkSources(steps, outBase)| ==> Below(WalkSources(steps, outBase)[i].path, outBase)
  {
    if steps != [] {
      var step := steps[|steps| - 1];
      WalkSourcesBelow(steps[..|steps| - 1], outBase);
      FileSourcesBelow(outBase, step);
    }
  }

  /**
   * For a tree whose entries have plain names and an id that does not end in
   * '/', every file of the tree is archived strictly below
   * usr/palm/applications/{id}/: os.path.join never meets an absolute
   * component, so no file escapes the application directory.
   */
  lemma DataTarPlacement(id: string, root: seq<Entry>, packageInfo: seq<byte>, mtime: int)
    requires WellNamed(root) && id != "" && id[|id| - 1] != '/'
    ensures var files := Regulars(DataTar(id, root, packageInfo, mtime));
      && |files| >= 1
      && (forall i :: 0 <= i < |files| - 1 ==> Below(files[i].name, ApplicationDir(id)))
      && files[|files| - 1].name == PackageInfoPath(id)
  {
    var srcs := WalkSources(Walk("", root), ApplicationDir(id));
    DataTarFiles(id, root, packageInfo, mtime);
    WalkRelative("", root);
    WalkSourcesBelow(Walk("", root), ApplicationDir(id));
    var files := Regulars(DataTar(id, root, packageInfo, mtime));
    assert files == SourceMembers(srcs, mtime) + [FileMember(PackageInfoPath(id), |packageInfo|, mtime, Raw(packageInfo))];
    forall i | 0 <= i < |files| - 1
      ensures Below(files[i].name, ApplicationDir(id))
    {
      assert files[i] == SourceMembers(srcs, mtime)[i];
      assert files[i].name == srcs[i].path;
    }
  }
}
