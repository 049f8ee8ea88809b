/**
 * ar_addfile and tar_addfile of build.py. Archives are kept as the list of
 * member records the libraries are handed (header encoding, padding and
 * gzip compression are not modelled); both writers resolve the member's
 * size the same way, and tar_addfile also synthesises a directory member
 * for each missing ancestor directory of the name.
 */
module Archive {
  import opened Base
  import opened Text

  /** 0o666: read and write for owner, group and others. */
  const FileMode: nat := 6 * 64 + 6 * 8 + 6
  /** 0o777: the mode of synthesised directory members. */
  const DirMode: nat := 7 * 64 + 7 * 8 + 7
  /** uid and gid of ar members. */
  const ArOwner: nat := 0
  /** uid and gid of tar members. */
  const TarOwner: nat := 1000

  datatype Kind = Regular | Directory

  /** The bytes a member carries: plain bytes, or an in-memory gzip'd tar holding these members. */
  datatype Blob =
    | Raw(bytes: seq<byte>)
    | GzipTar(members: seq<TarMember>)

  /** A TarInfo as tar_addfile fills it, with the data the library copies after it. */
  datatype TarMember = TarMember(name: string, kind: Kind, mode: nat, uid: nat, gid: nat,
                                 mtime: int, size: nat, content: Blob)

  /** An ArInfo as ar_addfile fills it, with the data the library copies after it. */
  datatype ArMember = ArMember(name: string, perms: nat, uid: nat, gid: nat,
                               mtime: int, size: nat, content: Blob)

  /**
   * FileData: a str, a bytes value, or a binary stream. A stream holds
   * `source`; `endOffset` is where seek(0, SEEK_END) lands, and `seekable`
   * is what its seekable() answers.
   */
  datatype Payload =
    | Text(text: string)
    | Bytes(bytes: seq<byte>)
    | Stream(source: Blob, endOffset: nat, seekable: bool)

  /** The data an archive member receives from a payload: a str is stored UTF-8 encoded. */
  function Contents(data: Payload): (b: Blob)
    ensures data.Text? ==> b.Raw? && Utf8Decode(b.bytes) == Some(data.text)
  {
    match data
    case Text(t) => Utf8RoundTrip(t); Raw(Utf8(t))
    case Bytes(bs) => Raw(bs)
    case Stream(source, _, _) => source
  }

  /** A stream of plain bytes ends where its bytes end. */
  predicate Measured(data: Payload)
  {
    data.Stream? && data.source.Raw? ==> data.endOffset == |data.source.bytes|
  }

  /**
   * The size both writers record: an explicit size wins; otherwise the
   * length of the (encoded) str or bytes; otherwise the end offset of a
   * seekable stream; otherwise the size cannot be determined.
   */
  function ResolveSize(data: Payload, size: Option<nat>): (r: Result<nat>)
    ensures r.Err? <==> size.None? && data.Stream? && !data.seekable
    ensures r.Err? ==> r.error == SizeIndeterminate
    ensures size.Some? ==> r == Ok(size.value)
    ensures size.None? && Measured(data) && Contents(data).Raw? && r.Ok? ==> r.value == |Contents(data).bytes|
    ensures size.None? && data.Stream? && data.seekable ==> r == Ok(data.endOffset)
  {
    if size.Some? then Ok(size.value)
    else match data
      case Text(t) => Ok(|Utf8(t)|)
      case Bytes(bs) => Ok(|bs|)
      case Stream(_, end, seekable) => if seekable then Ok(end) else Err(SizeIndeterminate)
  }

  /* ---------------- the ar archive ---------------- */

  function ArEntry(name: string, size: nat, mtime: int, content: Blob): ArMember
  {
    ArMember(name, FileMode, ArOwner, ArOwner, mtime, size, content)
  }

  /** An ar archive open for writing: the members written so far, in order. */
  class ArFile {
    var members: seq<ArMember>

    constructor ()
      ensures members == []
    {
      members := [];
    }

    /** ArFile.addfile: writes one member after the others. */
    method AddFile(m: ArMember)
      modifies this
      ensures members == old(members) + [m]
    {
      members := members + [m];
    }
  }

  /** ar_addfile(ar, name, data, size), with `now` the value of int(time.time()). */
  method ArAddFile(ar: ArFile, name: string, data: Payload, size: Option<nat>, now: int) returns (r: Outcome)
    modifies ar
    ensures r == (if ResolveSize(data, size).Ok? then Pass else Fail(SizeIndeterminate))
    ensures r.Pass? ==> ar.members == old(ar.members) + [ArEntry(name, ResolveSize(data, size).value, now, Contents(data))]
    ensures r.Fail? ==> ar.members == old(ar.members)
  {
    var resolved := ResolveSize(data, size);
    if resolved.Err? {
      return Fail(resolved.error);
    }
    ar.AddFile(ArEntry(name, resolved.value, now, Contents(data)));
    r := Pass;
  }

  /* ---------------- the tar archive ---------------- */

  function DirMember(path: string, mtime: int): TarMember
  {
    TarMember(path, Directory, DirMode, TarOwner, TarOwner, mtime, 0, Raw([]))
  }

  function FileMember(name: string, size: nat, mtime: int, content: Blob): TarMember
  {
    TarMember(name, Regular, FileMode, TarOwner, TarOwner, mtime, size, content)
  }

  /** TarFile.getnames(). */
  function NamesOf(ms: seq<TarMember>): seq<string>
  {
    seq(|ms|, i requires 0 <= i < |ms| => ms[i].name)
  }

  /** A tar archive open for writing: the members added so far, in order. */
  class TarFile {
    var members: seq<TarMember>

    constructor ()
      ensures members == []
    {
      members := [];
    }

    function Names(): seq<string>
      reads this
    {
      NamesOf(members)
    }

    /** TarFile.addfile: appends one member. */
    method AddFile(m: TarMember)
      modifies this
      ensures members == old(members) + [m]
    {
      members := members + [m];
    }
  }

  /**
   * The proper ancestor directories of a '/'-separated name, shallowest
   * first: "/".join(name.split("/")[:n]) for n = 1 .. (number of parts - 1).
   */
  function Ancestors(name: string): (ps: seq<string>)
    ensures |ps| == |Split(name, '/')| - 1
  {
    var parts := Split(name, '/');
    seq(|parts| - 1, i requires 0 <= i < |parts| - 1 => Join(parts[..i + 1], '/'))
  }

  /** The paths of `ps` that are not among `names`, in the order of `ps`. */
  function Missing(ps: seq<string>, names: seq<string>): (r: seq<string>)
    ensures forall p :: p in r <==> p in ps && p !in names
  {
    if ps == [] then []
    else
      assert ps == ps[..|ps| - 1] + [ps[|ps| - 1]];
      Missing(ps[..|ps| - 1], names) + (if ps[|ps| - 1] in names then [] else [ps[|ps| - 1]])
  }

  function DirMembers(ps: seq<string>, mtime: int): seq<TarMember>
  {
    seq(|ps|, i requires 0 <= i < |ps| => DirMember(ps[i], mtime))
  }

  /**
   * What tar_addfile appends to `ms` for a file member `name`: a directory
   * member for each ancestor not among the names present before the call,
   * shallowest first, then the file member itself.
   */
  function TarAppend(ms: seq<TarMember>, name: string, size: nat, mtime: int, content: Blob): (r: seq<TarMember>)
    ensures |r| > |ms| && r[..|ms|] == ms
    ensures r[|r| - 1] == FileMember(name, size, mtime, content)
  {
    ms + DirMembers(Missing(Ancestors(name), NamesOf(ms)), mtime) + [FileMember(name, size, mtime, content)]
  }

  /** The archive after the directory members for the first k ancestors in `ps`. */
  function DirStage(ms: seq<TarMember>, ps: seq<string>, k: nat, mtime: int): seq<TarMember>
    requires k <= |ps|
  {
    ms + DirMembers(Missing(ps[..k], NamesOf(ms)), mtime)
  }

  /**
   * tar_addfile(tar, name, data, size), with `sep` standing for os.path.sep
   * and `now` for int(time.time()).
   */
  method TarAddFile(tar: TarFile, name: string, data: Payload, size: Option<nat>, sep: char, now: int)
    returns (r: Outcome)
    modifies tar
    ensures r == (if ResolveSize(data, size).Ok? then Pass else Fail(SizeIndeterminate))
    ensures r.Pass? ==> tar.members == TarAppend(old(tar.members), ReplaceChar(name, sep, '/'),
                                                 ResolveSize(data, size).value, now, Contents(data))
    ensures r.Fail? ==> tar.members == old(tar.members)
  {
    var resolved := ResolveSize(data, size);
    if resolved.Err? {
      return Fail(resolved.error);
    }
    var path := ReplaceChar(name, sep, '/');
    var members := tar.Names();
    var parts := Split(path, '/');
    var dirElements := parts[..|parts| - 1];
    ghost var ps := Ancestors(path);
    var k := 0;
    while k < |dirElements|
      invariant 0 <= k <= |dirElements|
      invariant members == NamesOf(old(tar.members))
      invariant tar.members == DirStage(old(tar.members), ps, k, now)
    {
      var dirpath := Join(dirElements[..k + 1], '/');
      assert dirElements[..k + 1] == parts[..k + 1];
      StageStep(old(tar.members), ps, k, now);
      if dirpath !in members {
        tar.AddFile(DirMember(dirpath, now));
      }
      k := k + 1;
    }
    assert ps[..|ps|] == ps;
    tar.AddFile(FileMember(path, resolved.value, now, Contents(data)));
    r := Pass;
  }

  /* ---------------- properties of the ancestors ---------------- */

  /** Each ancestor, followed by '/', is a prefix of the name. */
  lemma AncestorPrefix(name: string, i: nat)
    requires i < |Ancestors(name)|
    ensures var a := Ancestors(name)[i]; |a| < |name| && name[..|a| + 1] == a + "/"
  {
    var parts := Split(name, '/');
    var a := Ancestors(name)[i];
    JoinSplitAt(parts, i + 1, '/');
    JoinSplit(name, '/');
    assert name == a + ['/'] + Join(parts[i + 1..], '/');
  }

  /** The ancestors of the k-th ancestor are the k ancestors before it. */
  lemma AncestorsOfAncestor(name: string, k: nat)
    requires k < |Ancestors(name)|
    ensures Ancestors(Ancestors(name)[k]) == Ancestors(name)[..k]
  {
    var parts := Split(name, '/');
    var sub := parts[..k + 1];
    assert forall i :: 0 <= i < |sub| ==> sub[i] == parts[i];
    SplitJoin(sub, '/');
    var a := Ancestors(name)[k];
    assert Split(a, '/') == sub;
    forall i | 0 <= i < k
      ensures Ancestors(a)[i] == Ancestors(name)[i]
    {
      assert sub[..i + 1] == parts[..i + 1];
    }
  }

  /** Every path is strictly longer than the ones before it. */
  predicate Deepening(ps: seq<string>)
  {
    forall i, j :: 0 <= i < j < |ps| ==> |ps[i]| < |ps[j]|
  }

  /** The ancestors come shallowest first, so none occurs twice. */
  lemma AncestorsDeepen(name: string)
    ensures Deepening(Ancestors(name))
  {
    var ps := Ancestors(name);
    forall i, j | 0 <= i < j < |ps|
      ensures |ps[i]| < |ps[j]|
    {
      AncestorsOfAncestor(name, j);
      AncestorPrefix(ps[j], i);
    }
  }

  lemma {:induction false} MissingDeepening(ps: seq<string>, names: seq<string>)
    requires Deepening(ps)
    ensures Deepening(Missing(ps, names))
  {
    if ps != [] {
      var init, last := ps[..|ps| - 1], ps[|ps| - 1];
      MissingDeepening(init, names);
      forall p | p in init
        ensures |p| < |last|
      {
        var i :| 0 <= i < |init| && init[i] == p;
      }
    }
  }

  /** A name without '/' adds exactly one member: the file. */
  lemma NoSlashAppendsOne(ms: seq<TarMember>, name: string, size: nat, mtime: int, content: Blob)
    requires '/' !in name
    ensures TarAppend(ms, name, size, mtime, content) == ms + [FileMember(name, size, mtime, content)]
  {
    SplitNoSeparator(name, '/');
    assert DirMembers(Missing(Ancestors(name), NamesOf(ms)), mtime) == [];
  }

  /**
   * The members tar_addfile inserts before the file are directories for
   * exactly the ancestors not already present, shallowest first.
   */
  lemma AppendedDirectories(ms: seq<TarMember>, name: string, size: nat, mtime: int, content: Blob)
    ensures var r := TarAppend(ms, name, size, mtime, content);
      var added := NamesOf(r[|ms|..|r| - 1]);
      && (forall i :: |ms| <= i < |r| - 1 ==> r[i].kind == Directory && r[i].mode == DirMode && r[i].uid == TarOwner)
      && (forall p :: p in added <==> p in Ancestors(name) && p !in NamesOf(ms))
      && Deepening(added)
  {
    var r := TarAppend(ms, name, size, mtime, content);
    var missing := Missing(Ancestors(name), NamesOf(ms));
    assert r[|ms|..|r| - 1] == DirMembers(missing, mtime);
    assert NamesOf(DirMembers(missing, mtime)) == missing;
    AncestorsDeepen(name);
    MissingDeepening(Ancestors(name), NamesOf(ms));
  }

  /* ---------------- the stages of the directory loop ---------------- */

  lemma StageStep(ms: seq<TarMember>, ps: seq<string>, k: nat, mtime: int)
    requires k < |ps|
    ensures DirStage(ms, ps, k + 1, mtime) ==
      if ps[k] in NamesOf(ms) then DirStage(ms, ps, k, mtime)
      else DirStage(ms, ps, k, mtime) + [DirMember(ps[k], mtime)]
  {
    assert ps[..k + 1][..k] == ps[..k];
    var m := Missing(ps[..k], NamesOf(ms));
    assert DirMembers(m + [ps[k]], mtime) == DirMembers(m, mtime) + [DirMember(ps[k], mtime)];
  }

  /** `a` is an initial part of `b`. */
  predicate IsPrefix(a: seq<TarMember>, b: seq<TarMember>)
  {
    |a| <= |b| && b[..|a|] == a
  }

  lemma PrefixReflexive(a: seq<TarMember>)
    ensures IsPrefix(a, a)
  {
    assert a[..|a|] == a;
  }

  lemma PrefixTransitive(a: seq<TarMember>, b: seq<TarMember>, c: seq<TarMember>)
    requires IsPrefix(a, b) && IsPrefix(b, c)
    ensures IsPrefix(a, c)
  {
    assert c[..|a|] == c[..|b|][..|a|];
  }

  /** A later stage extends an earlier one. */
  lemma {:induction false} StageGrows(ms: seq<TarMember>, ps: seq<string>, j: nat, k: nat, mtime: int)
    requires j <= k <= |ps|
    ensures IsPrefix(DirStage(ms, ps, j, mtime), DirStage(ms, ps, k, mtime))
    decreases k - j
  {
    if j == k {
      PrefixReflexive(DirStage(ms, ps, j, mtime));
    } else {
      StageGrows(ms, ps, j, k - 1, mtime);
      StageExtends(ms, ps, k - 1, mtime);
      PrefixTransitive(DirStage(ms, ps, j, mtime), DirStage(ms, ps, k - 1, mtime), DirStage(ms, ps, k, mtime));
    }
  }

  lemma StageExtends(ms: seq<TarMember>, ps: seq<string>, k: nat, mtime: int)
    requires k < |ps|
    ensures IsPrefix(DirStage(ms, ps, k, mtime), DirStage(ms, ps, k + 1, mtime))
  {
    StageStep(ms, ps, k, mtime);
    var b0 := DirStage(ms, ps, k, mtime);
    assert DirStage(ms, ps, k + 1, mtime)[..|b0|] == b0;
  }

  lemma NamesInExtension(a: seq<TarMember>, b: seq<TarMember>, p: string)
    requires IsPrefix(a, b) && p in NamesOf(a)
    ensures p in NamesOf(b)
  {
    var i :| 0 <= i < |a| && NamesOf(a)[i] == p;
    assert NamesOf(b)[i] == p;
  }

  /** After stage k + 1 the k-th path is a member name. */
  lemma StageLists(ms: seq<TarMember>, ps: seq<string>, k: nat, mtime: int)
    requires k < |ps|
    ensures ps[k] in NamesOf(DirStage(ms, ps, k + 1, mtime))
  {
    StageStep(ms, ps, k, mtime);
    var s := DirStage(ms, ps, k + 1, mtime);
    if ps[k] in NamesOf(ms) {
      NamesInExtension(ms, s, ps[k]);
    } else {
      assert NamesOf(s)[|s| - 1] == ps[k];
    }
  }

  /** Every path of `ps` is among the names of `ms`. */
  predicate Listed(ms: seq<TarMember>, ps: seq<string>)
  {
    forall p :: p in ps ==> p in NamesOf(ms)
  }

  /** After stage k every one of the first k paths is a member name. */
  lemma StageListsAll(ms: seq<TarMember>, ps: seq<string>, k: nat, mtime: int)
    requires k <= |ps|
    ensures Listed(DirStage(ms, ps, k, mtime), ps[..k])
  {
    forall p | p in ps[..k]
      ensures p in NamesOf(DirStage(ms, ps, k, mtime))
    {
      var j :| 0 <= j < k && ps[j] == p;
      StageLists(ms, ps, j, mtime);
      StageGrows(ms, ps, j + 1, k, mtime);
      NamesInExtension(DirStage(ms, ps, j + 1, mtime), DirStage(ms, ps, k, mtime), p);
    }
  }

  /** After tar_addfile every ancestor of the name is a member name. */
  lemma TarAppendListsAncestors(ms: seq<TarMember>, name: string, size: nat, mtime: int, content: Blob)
    ensures Listed(TarAppend(ms, name, size, mtime, content), Ancestors(name))
  {
    var ps := Ancestors(name);
    var s := DirStage(ms, ps, |ps|, mtime);
    assert ps[..|ps|] == ps;
    StageListsAll(ms, ps, |ps|, mtime);
    forall p | p in ps
      ensures p in NamesOf(TarAppend(ms, name, size, mtime, content))
    {
      NamesInExtension(s, TarAppend(ms, name, size, mtime, content), p);
    }
  }

  /* ---------------- invariants of a tar archive built by tar_addfile ---------------- */

  /** The name of every proper ancestor of each member is the name of a member before it. */
  predicate AncestorsFirst(ms: seq<TarMember>)
  {
    forall i :: 0 <= i < |ms| ==> Listed(ms[..i], Ancestors(ms[i].name))
  }

  lemma AncestorsFirstSnoc(ms: seq<TarMember>, m: TarMember)
    requires AncestorsFirst(ms) && Listed(ms, Ancestors(m.name))
    ensures AncestorsFirst(ms + [m])
  {
    forall i | 0 <= i < |ms| + 1
      ensures Listed((ms + [m])[..i], Ancestors((ms + [m])[i].name))
    {
      if i < |ms| {
        assert (ms + [m])[..i] == ms[..i];
      } else {
        assert (ms + [m])[..i] == ms;
      }
    }
  }

  lemma {:induction false} StageAncestorsFirst(ms: seq<TarMember>, name: string, k: nat, mtime: int)
    requires AncestorsFirst(ms) && k <= |Ancestors(name)|
    ensures AncestorsFirst(DirStage(ms, Ancestors(name), k, mtime))
  {
    if k == 0 {
      assert DirStage(ms, Ancestors(name), k, mtime) == ms;
    } else {
      StageAncestorsFirst(ms, name, k - 1, mtime);
      StageAncestorsFirstStep(ms, name, k - 1, mtime);
    }
  }

  lemma StageAncestorsFirstStep(ms: seq<TarMember>, name: string, k: nat, mtime: int)
    requires k < |Ancestors(name)| && AncestorsFirst(DirStage(ms, Ancestors(name), k, mtime))
    ensures AncestorsFirst(DirStage(ms, Ancestors(name), k + 1, mtime))
  {
    var ps := Ancestors(name);
    StageStep(ms, ps, k, mtime);
    if ps[k] !in NamesOf(ms) {
      AncestorsOfAncestor(name, k);
      StageListsAll(ms, ps, k, mtime);
      AncestorsFirstSnoc(DirStage(ms, ps, k, mtime), DirMember(ps[k], mtime));
    }
  }

  /** tar_addfile keeps every member's ancestors ahead of it. */
  lemma TarAppendAncestorsFirst(ms: seq<TarMember>, name: string, size: nat, mtime: int, content: Blob)
    requires AncestorsFirst(ms)
    ensures AncestorsFirst(TarAppend(ms, name, size, mtime, content))
  {
    var ps := Ancestors(name);
    assert ps[..|ps|] == ps;
    StageAncestorsFirst(ms, name, |ps|, mtime);
    StageListsAll(ms, ps, |ps|, mtime);
    AncestorsFirstSnoc(DirStage(ms, ps, |ps|, mtime), FileMember(name, size, mtime, content));
  }

  /** No directory member repeats the name of a member before it. */
  predicate DirsFresh(ms: seq<TarMember>)
  {
    forall i :: 0 <= i < |ms| && ms[i].kind == Directory ==> ms[i].name !in NamesOf(ms[..i])
  }

  lemma DirsFreshSnoc(ms: seq<TarMember>, m: TarMember)
    requires DirsFresh(ms) && (m.kind == Directory ==> m.name !in NamesOf(ms))
    ensures DirsFresh(ms + [m])
  {
    forall i | 0 <= i < |ms| + 1 && (ms + [m])[i].kind == Directory
      ensures (ms + [m])[i].name !in NamesOf((ms + [m])[..i])
    {
      if i < |ms| {
        assert (ms + [m])[..i] == ms[..i];
      } else {
        assert (ms + [m])[..i] == ms;
      }
    }
  }

  lemma {:induction false} StageDirsFresh(ms: seq<TarMember>, name: string, k: nat, mtime: int)
    requires DirsFresh(ms) && k <= |Ancestors(name)|
    ensures DirsFresh(DirStage(ms, Ancestors(name), k, mtime))
  {
    if k == 0 {
      assert DirStage(ms, Ancestors(name), k, mtime) == ms;
    } else {
      StageDirsFresh(ms, name, k - 1, mtime);
      StageDirsFreshStep(ms, name, k - 1, mtime);
    }
  }

  lemma StageDirsFreshStep(ms: seq<TarMember>, name: string, k: nat, mtime: int)
    requires k < |Ancestors(name)| && DirsFresh(DirStage(ms, Ancestors(name), k, mtime))
    ensures DirsFresh(DirStage(ms, Ancestors(name), k + 1, mtime))
  {
    var ps := Ancestors(name);
    StageStep(ms, ps, k, mtime);
    if ps[k] !in NamesOf(ms) {
      NewAncestorAbsent(ms, name, k, mtime);
      DirsFreshSnoc(DirStage(ms, ps, k, mtime), DirMember(ps[k], mtime));
    }
  }

  /** An ancestor not present before the call is not added by an earlier stage either. */
  lemma NewAncestorAbsent(ms: seq<TarMember>, name: string, k: nat, mtime: int)
    requires k < |Ancestors(name)| && Ancestors(name)[k] !in NamesOf(ms)
    ensures Ancestors(name)[k] !in NamesOf(DirStage(ms, Ancestors(name), k, mtime))
  {
    var ps := Ancestors(name);
    var missing := Missing(ps[..k], NamesOf(ms));
    var dirs := DirMembers(missing, mtime);
    assert NamesOf(ms + dirs) == NamesOf(ms) + NamesOf(dirs);
    assert NamesOf(dirs) == missing;
    AncestorsDeepen(name);
    assert ps[k] !in ps[..k];
  }

  /** tar_addfile never adds a directory member under a name already present. */
  lemma TarAppendDirsFresh(ms: seq<TarMember>, name: string, size: nat, mtime: int, content: Blob)
    requires DirsFresh(ms)
    ensures DirsFresh(TarAppend(ms, name, size, mtime, content))
  {
    var ps := Ancestors(name);
    assert ps[..|ps|] == ps;
    StageDirsFresh(ms, name, |ps|, mtime);
    DirsFreshSnoc(DirStage(ms, ps, |ps|, mtime), FileMember(name, size, mtime, content));
  }

  /* ---------------- the regular files of an archive ---------------- */

  function Regulars(ms: seq<TarMember>): seq<TarMember>
  {
    if ms == [] then []
    else Regulars(ms[..|ms| - 1]) + (if ms[|ms| - 1].kind == Regular then [ms[|ms| - 1]] else [])
  }

  lemma {:induction false} RegularsConcat(a: seq<TarMember>, b: seq<TarMember>)
    ensures Regulars(a + b) == Regulars(a) + Regulars(b)
  {
    if b == [] {
      assert a + b == a;
    } else {
      RegularsConcat(a, b[..|b| - 1]);
      assert (a + b)[..|a + b| - 1] == a + b[..|b| - 1];
    }
  }

  lemma {:induction false} RegularsOfDirs(ps: seq<string>, mtime: int)
    ensures Regulars(DirMembers(ps, mtime)) == []
  {
    if ps != [] {
      RegularsOfDirs(ps[..|ps| - 1], mtime);
      assert DirMembers(ps, mtime)[..|ps| - 1] == DirMembers(ps[..|ps| - 1], mtime);
    }
  }

  /** Of what tar_addfile appends, only the file member itself is a regular file. */
  lemma TarAppendRegulars(ms: seq<TarMember>, name: string, size: nat, mtime: int, content: Blob)
    ensures Regulars(TarAppend(ms, name, size, mtime, content)) == Regulars(ms) + [FileMember(name, size, mtime, content)]
  {
    var dirs := DirMembers(Missing(Ancestors(name), NamesOf(ms)), mtime);
    var file := FileMember(name, size, mtime, content);
    RegularsOfDirs(Missing(Ancestors(name), NamesOf(ms)), mtime);
    RegularsConcat(ms, dirs);
    RegularsConcat(ms + dirs, [file]);
    assert [file][..0] == [];
  }

  /* ---------------- two files in one nested directory ---------------- */

  /** The ancestors of x/y/z, for single path segments x, y and z. */
  lemma AncestorsTwoDeep(x: string, y: string, z: string)
    requires '/' !in x && '/' !in y && '/' !in z
    ensures Ancestors(x + "/" + y + "/" + z) == [x, x + "/" + y]
  {
    var parts := [x, y, z];
    assert Join(parts[1..], '/') == y + "/" + z;
    assert Join(parts, '/') == x + "/" + y + "/" + z;
    SplitJoin(parts, '/');
    assert Join(parts[..1], '/') == x;
    assert Join(parts[..2], '/') == x + "/" + y;
  }

  /** Both ancestors are missing from an empty archive and present once they are named. */
  lemma MissingTwo(x: string, xy: string, names: seq<string>)
    ensures names == [] ==> Missing([x, xy], names) == [x, xy]
    ensures x in names && xy in names ==> Missing([x, xy], names) == []
  {
    assert [x, xy][..1] == [x] && [x][..0] == [];
    assert Missing([x, xy], names) == Missing([x], names) + (if xy in names then [] else [xy]);
    assert Missing([x], names) == (if x in names then [] else [x]);
  }

  /** Adding x/y/f to an empty archive writes the directories x and x/y, then the file. */
  lemma NestedFirst(x: string, y: string, f: string, m: nat, mtime: int, c: Blob)
    requires '/' !in x && '/' !in y && '/' !in f
    ensures TarAppend([], x + "/" + y + "/" + f, m, mtime, c) ==
      [DirMember(x, mtime), DirMember(x + "/" + y, mtime), FileMember(x + "/" + y + "/" + f, m, mtime, c)]
  {
    AncestorsTwoDeep(x, y, f);
    assert NamesOf([]) == [];
    MissingTwo(x, x + "/" + y, []);
  }

  /** Adding x/y/g after x/y/f writes the file alone: its directories are already there. */
  lemma NestedSecond(x: string, y: string, f: string, g: string, m: nat, n: nat, mtime: int, c: Blob, d: Blob)
    requires '/' !in x && '/' !in y && '/' !in f && '/' !in g
    ensures var first := TarAppend([], x + "/" + y + "/" + f, m, mtime, c);
      TarAppend(first, x + "/" + y + "/" + g, n, mtime, d) == first + [FileMember(x + "/" + y + "/" + g, n, mtime, d)]
  {
    var xy := x + "/" + y;
    NestedFirst(x, y, f, m, mtime, c);
    var first := TarAppend([], xy + "/" + f, m, mtime, c);
    AncestorsTwoDeep(x, y, g);
    assert NamesOf(first)[0] == x && NamesOf(first)[1] == xy;
    MissingTwo(x, xy, NamesOf(first));
  }
}
