/**
 * calc_size of build.py: the installed-size estimate. The source tree is a
 * value (the file system is not modelled); os.walk is a function listing
 * it top-down, and calc_size is the loop over that listing.
 */
module SizeEstimate {
  import opened Base
  import opened Text

  /** DIRECTORY_SIZE: what each directory adds to the estimate. */
  const DirectorySize: nat := 4096

  /** A directory entry of the application's source tree, in listing order. */
  datatype Entry =
    | File(name: string, content: seq<byte>)
    | Dir(name: string, entries: seq<Entry>)

  /** A regular file as a walk step lists it: its name and its bytes (os.stat's st_size is their count). */
  datatype FileRef = FileRef(name: string, content: seq<byte>)

  /** One triple (base, dirs, files) of os.walk; `base` is relative to the walked root ("" for the root). */
  datatype WalkStep = WalkStep(base: string, dirs: seq<string>, files: seq<FileRef>)

  /** The names of the subdirectories of a listing. */
  function DirNames(es: seq<Entry>): (names: seq<string>)
    ensures |names| <= |es|
  {
    if es == [] then []
    else (if es[0].Dir? then [es[0].name] else []) + DirNames(es[1..])
  }

  /** The regular files of a listing. */
  function FilesOf(es: seq<Entry>): (files: seq<FileRef>)
    ensures |files| <= |es|
  {
    if es == [] then []
    else (if es[0].File? then [FileRef(es[0].name, es[0].content)] else []) + FilesOf(es[1..])
  }

  /** os.walk(top) (top-down, not following links): this directory's step, then each subdirectory's walk. */
  function Walk(base: string, es: seq<Entry>): (steps: seq<WalkStep>)
    ensures |steps| >= 1 && steps[0] == WalkStep(base, DirNames(es), FilesOf(es))
    decreases es, 1
  {
    [WalkStep(base, DirNames(es), FilesOf(es))] + WalkChildren(base, es)
  }

  /** The walks of the subdirectories in a listing, one after another. */
  function WalkChildren(base: string, es: seq<Entry>): seq<WalkStep>
    decreases es, 0
  {
    if es == [] then []
    else
      (if es[0].Dir? then Walk(PosixJoin(base, es[0].name), es[0].entries) else [])
      + WalkChildren(base, es[1..])
  }

  /* ---------------- the specification of the estimate ---------------- */

  /** The number of directories strictly below the listing's directory. */
  function SubdirCount(es: seq<Entry>): nat
  {
    if es == [] then 0
    else (if es[0].Dir? then 1 + SubdirCount(es[0].entries) else 0) + SubdirCount(es[1..])
  }

  /** The total size of every regular file below the listing's directory. */
  function FileBytes(es: seq<Entry>): nat
  {
    if es == [] then 0
    else (if es[0].File? then |es[0].content| else FileBytes(es[0].entries)) + FileBytes(es[1..])
  }

  /** What calc_size promises: DIRECTORY_SIZE per directory below the root, plus all file bytes. */
  function EstimatedSize(es: seq<Entry>): nat
  {
    DirectorySize * SubdirCount(es) + FileBytes(es)
  }

  /* ---------------- what the loop adds up ---------------- */

  function SumSizes(files: seq<FileRef>): nat
  {
    if files == [] then 0 else SumSizes(files[..|files| - 1]) + |files[|files| - 1].content|
  }

  /** What calc_size adds for one walk step. */
  function StepSize(step: WalkStep): nat
  {
    DirectorySize * |step.dirs| + SumSizes(step.files)
  }

  function WalkSize(steps: seq<WalkStep>): nat
  {
    if steps == [] then 0 else WalkSize(steps[..|steps| - 1]) + StepSize(steps[|steps| - 1])
  }

  /** The subdirectories a walk lists, over all its steps. */
  function WalkDirs(steps: seq<WalkStep>): nat
  {
    if steps == [] then 0 else WalkDirs(steps[..|steps| - 1]) + |steps[|steps| - 1].dirs|
  }

  /** The bytes of the files a walk lists, over all its steps. */
  function WalkFileBytes(steps: seq<WalkStep>): nat
  {
    if steps == [] then 0 else WalkFileBytes(steps[..|steps| - 1]) + SumSizes(steps[|steps| - 1].files)
  }

  lemma {:induction false} WalkSizeSplit(steps: seq<WalkStep>)
    ensures WalkSize(steps) == DirectorySize * WalkDirs(steps) + WalkFileBytes(steps)
  {
    if steps != [] {
      WalkSizeSplit(steps[..|steps| - 1]);
    }
  }

  lemma {:induction false} WalkConcat(a: seq<WalkStep>, b: seq<WalkStep>)
    ensures WalkDirs(a + b) == WalkDirs(a) + WalkDirs(b)
    ensures WalkFileBytes(a + b) == WalkFileBytes(a) + WalkFileBytes(b)
  {
    if b == [] {
      assert a + b == a;
    } else {
      WalkConcat(a, b[..|b| - 1]);
      assert (a + b)[..|a + b| - 1] == a + b[..|b| - 1];
    }
  }

  lemma {:induction false} SumSizesConcat(a: seq<FileRef>, b: seq<FileRef>)
    ensures SumSizes(a + b) == SumSizes(a) + SumSizes(b)
  {
    if b == [] {
      assert a + b == a;
    } else {
      SumSizesConcat(a, b[..|b| - 1]);
      assert (a + b)[..|a + b| - 1] == a + b[..|b| - 1];
    }
  }

  /** The directories below the subdirectories of a listing. */
  function ChildrenDirs(es: seq<Entry>): nat
  {
    if es == [] then 0
    else (if es[0].Dir? then SubdirCount(es[0].entries) else 0) + ChildrenDirs(es[1..])
  }

  /** The file bytes below the subdirectories of a listing. */
  function ChildrenBytes(es: seq<Entry>): nat
  {
    if es == [] then 0
    else (if es[0].Dir? then FileBytes(es[0].entries) else 0) + ChildrenBytes(es[1..])
  }

  /** The counts split into this level's entries and what lies below its subdirectories. */
  lemma {:induction false} CountsByLevel(es: seq<Entry>)
    ensures SubdirCount(es) == |DirNames(es)| + ChildrenDirs(es)
    ensures FileBytes(es) == SumSizes(FilesOf(es)) + ChildrenBytes(es)
  {
    if es != [] {
      CountsByLevel(es[1..]);
      var head := if es[0].File? then [FileRef(es[0].name, es[0].content)] else [];
      SumSizesConcat(head, FilesOf(es[1..]));
      if es[0].File? {
        assert head[..0] == [];
      }
    }
  }

  /** A walk lists every directory below its top, and every file's bytes. */
  lemma {:induction false} WalkCounts(base: string, es: seq<Entry>)
    ensures WalkDirs(Walk(base, es)) == SubdirCount(es)
    ensures WalkFileBytes(Walk(base, es)) == FileBytes(es)
    decreases es, 1
  {
    var first := WalkStep(base, DirNames(es), FilesOf(es));
    WalkConcat([first], WalkChildren(base, es));
    assert [first][..0] == [];
    WalkChildrenCounts(base, es);
    CountsByLevel(es);
  }

  lemma {:induction false} WalkChildrenCounts(base: string, es: seq<Entry>)
    ensures WalkDirs(WalkChildren(base, es)) == ChildrenDirs(es)
    ensures WalkFileBytes(WalkChildren(base, es)) == ChildrenBytes(es)
    decreases es, 0
  {
    if es != [] {
      var own := if es[0].Dir? then Walk(PosixJoin(base, es[0].name), es[0].entries) else [];
      WalkConcat(own, WalkChildren(base, es[1..]));
      if es[0].Dir? {
        WalkCounts(PosixJoin(base, es[0].name), es[0].entries);
      }
      WalkChildrenCounts(base, es[1..]);
    }
  }

  /** What a walk adds up is the estimate of the walked listing. */
  lemma WalkSizeIsEstimate(base: string, es: seq<Entry>)
    ensures WalkSize(Walk(base, es)) == EstimatedSize(es)
  {
    WalkSizeSplit(Walk(base, es));
    WalkCounts(base, es);
  }

  /**
   * calc_size(base_path): for each walk step, DIRECTORY_SIZE per listed
   * subdirectory and each file's size. The root itself is never a member of
   * any step's `dirs`, so it is not counted.
   */
  method CalcSize(root: seq<Entry>) returns (size: nat)
    ensures size == DirectorySize * SubdirCount(root) + FileBytes(root)
  {
    var steps := Walk("", root);
    size := 0;
    var k := 0;
    while k < |steps|
      invariant 0 <= k <= |steps|
      invariant size == WalkSize(steps[..k])
    {
      var step := steps[k];
      var i := 0;
      while i < |step.dirs|
        invariant 0 <= i <= |step.dirs|
        invariant size == WalkSize(steps[..k]) + DirectorySize * i
      {
        size := size + DirectorySize;
        i := i + 1;
      }
      var j := 0;
      while j < |step.files|
        invariant 0 <= j <= |step.files|
        invariant size == WalkSize(steps[..k]) + DirectorySize * |step.dirs| + SumSizes(step.files[..j])
      {
        assert step.files[..j + 1][..j] == step.files[..j];
        size := size + |step.files[j].content|;
        j := j + 1;
      }
      assert step.files[..j] == step.files;
      assert steps[..k + 1][..k] == steps[..k];
      k := k + 1;
    }
    assert steps[..k] == steps;
    WalkSizeIsEstimate("", root);
  }

  /* ---------------- properties of the estimate ---------------- */

  /** The estimate of a listing is the sum of the estimates of its parts. */
  lemma {:induction false} EstimateConcat(a: seq<Entry>, b: seq<Entry>)
    ensures SubdirCount(a + b) == SubdirCount(a) + SubdirCount(b)
    ensures FileBytes(a + b) == FileBytes(a) + FileBytes(b)
    ensures EstimatedSize(a + b) == EstimatedSize(a) + EstimatedSize(b)
  {
    if a == [] {
      assert a + b == b;
    } else {
      EstimateConcat(a[1..], b);
      assert (a + b)[1..] == a[1..] + b;
    }
  }

  /** The order in which a directory lists its entries does not change the estimate. */
  lemma {:induction false} ListingOrderIrrelevant(a: seq<Entry>, b: seq<Entry>)
    requires multiset(a) == multiset(b)
    ensures EstimatedSize(a) == EstimatedSize(b)
    decreases |a|
  {
    if a == [] {
      assert |multiset(b)| == 0;
    } else {
      var x := a[0];
      assert x in multiset(a);
      var i :| 0 <= i < |b| && b[i] == x;
      var before, after := b[..i], b[i + 1..];
      assert b == before + [x] + after;
      assert a == [x] + a[1..];
      assert multiset(a[1..]) == multiset(before + after) by {
        assert multiset(b) == multiset{x} + multiset(before + after);
        assert multiset(a) == multiset{x} + multiset(a[1..]);
        assert multiset(a[1..]) == multiset(a) - multiset{x};
        assert multiset(before + after) == multiset(b) - multiset{x};
      }
      ListingOrderIrrelevant(a[1..], before + after);
      EstimateConcat([x], a[1..]);
      EstimateConcat(before + [x], after);
      EstimateConcat(before, [x]);
      EstimateConcat(before, after);
    }
  }

  /** An empty file. */
  predicate IsEmptyFile(e: Entry)
  {
    e.File? && e.content == []
  }

  /** The estimate is zero exactly when the root holds nothing but empty files. */
  lemma {:induction false} EstimateZero(es: seq<Entry>)
    ensures EstimatedSize(es) == 0 <==> forall i :: 0 <= i < |es| ==> IsEmptyFile(es[i])
  {
    if es != [] {
      EstimateZero(es[1..]);
      assert forall i :: 1 <= i < |es| ==> es[1..][i - 1] == es[i];
    }
  }

  /* ---------------- the paths a walk lists ---------------- */

  /** A name the file system can list: not empty and without '/'. */
  predicate PlainName(name: string)
  {
    name != "" && '/' !in name
  }

  /** Every entry of the tree has a plain name. */
  predicate WellNamed(es: seq<Entry>)
  {
    forall i :: 0 <= i < |es| ==> PlainName(es[i].name) && (es[i].Dir? ==> WellNamed(es[i].entries))
  }

  /** A path that os.path.join does not treat as absolute. */
  predicate Relative(p: string)
  {
    p == "" || p[0] != '/'
  }

  /** A walk step whose base is relative and whose files have plain names. */
  predicate RelativeStep(step: WalkStep)
  {
    Relative(step.base) && forall j :: 0 <= j < |step.files| ==> PlainName(step.files[j].name)
  }

  lemma {:induction false} FilesOfPlain(es: seq<Entry>)
    requires forall i :: 0 <= i < |es| ==> PlainName(es[i].name)
    ensures forall j :: 0 <= j < |FilesOf(es)| ==> PlainName(FilesOf(es)[j].name)
  {
    if es != [] {
      FilesOfPlain(es[1..]);
      var head := if es[0].File? then [FileRef(es[0].name, es[0].content)] else [];
      assert FilesOf(es) == head + FilesOf(es[1..]);
    }
  }

  lemma JoinRelative(base: string, name: string)
    requires Relative(base) && PlainName(name)
    ensures Relative(PosixJoin(base, name))
  {
  }

  /** Walking a well-named tree from a relative base lists relative bases and plain file names only. */
  lemma {:induction false} WalkRelative(base: string, es: seq<Entry>)
    requires Relative(base) && WellNamed(es)
    ensures forall k :: 0 <= k < |Walk(base, es)| ==> RelativeStep(Walk(base, es)[k])
    decreases es, 1
  {
    FilesOfPlain(es);
    WalkChildrenRelative(base, es);
  }

  lemma {:induction false} WalkChildrenRelative(base: string, es: seq<Entry>)
    requires Relative(base) && WellNamed(es)
    ensures forall k :: 0 <= k < |WalkChildren(base, es)| ==> RelativeStep(WalkChildren(base, es)[k])
    decreases es, 0
  {
    if es != [] {
      var own := if es[0].Dir? then Walk(PosixJoin(base, es[0].name), es[0].entries) else [];
      if es[0].Dir? {
        JoinRelative(base, es[0].name);
        WalkRelative(PosixJoin(base, es[0].name), es[0].entries);
      }
      assert WellNamed(es[1..]) by {
        assert forall i :: 1 <= i < |es| ==> es[1..][i - 1] == es[i];
      }
      WalkChildrenRelative(base, es[1..]);
      assert WalkChildren(base, es) == own + WalkChildren(base, es[1..]);
    }
  }
}
