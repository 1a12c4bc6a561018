/** The build packaging script: collect every file below the first-level
    directories of `./dist` into one zip archive, named after the version and
    the platform, under a single top directory. */
module Package {
  import opened Results
  import opened Strings
  import opened Paths

  /** The short platform name: win32 and darwin are renamed, anything else
      is kept. */
  function PlatformName(platform: string): (r: string)
    ensures platform == "win32" ==> r == "windows"
    ensures platform == "darwin" ==> r == "macos"
    ensures platform != "win32" && platform != "darwin" ==> r == platform
  {
    if platform == "win32" then "windows" else if platform == "darwin" then "macos" else platform
  }

  function PackageName(version: string, platform: string): string {
    "quake-cli-tools-" + version + "-" + PlatformName(platform)
  }

  /** One step of the directory walk: a directory, as the walk names it
      (starting with "./dist"), and the names of the files in it. */
  datatype WalkEntry = WalkEntry(root: string, files: seq<string>)

  /** `os.path.normpath` on the walk's roots: the leading "./" goes. */
  function NormRoot(root: string): string {
    if StartsWith(root, "./") then root[2..] else root
  }

  /** `os.path.join(a, *parts)`. */
  function JoinAll(a: string, parts: seq<string>): string
    decreases |parts|
  {
    if |parts| == 0 then a else JoinAll(Join(a, parts[0]), parts[1..])
  }

  /** The (arcname, filename) pairs one walk entry contributes: none for a
      root with fewer than two parts, else each file under the package
      name with the first two parts of the root dropped. */
  function Mapped(packageName: string, e: WalkEntry): (r: seq<(string, string)>)
    ensures |Split(NormRoot(e.root), '/')| < 2 ==> r == []
    ensures |Split(NormRoot(e.root), '/')| >= 2 ==> |r| == |e.files|
  {
    var root := NormRoot(e.root);
    var parts := Split(root, '/');
    if |parts| < 2 then []
    else
      FilePairs(JoinAll(packageName, parts[2..]), root, e.files)
  }

  /** The (arcname, filename) pair of each file of a directory. */
  function FilePairs(subPath: string, root: string, files: seq<string>): (r: seq<(string, string)>)
    ensures |r| == |files|
  {
    seq(|files|, i requires 0 <= i < |files| => (Join(subPath, files[i]), Join(root, files[i])))
  }

  /** All pairs of the walk, in walk order. */
  function AllMapped(packageName: string, walk: seq<WalkEntry>): seq<(string, string)> {
    if |walk| == 0 then []
    else AllMapped(packageName, walk[..|walk| - 1]) + Mapped(packageName, walk[|walk| - 1])
  }

  // ---------------------------------------------------------------------
  // An insertion-ordered dictionary, as Python's dict is

  type Dict = seq<(string, string)>

  predicate UniqueKeys(d: Dict) {
    forall i, j :: 0 <= i < j < |d| ==> d[i].0 != d[j].0
  }

  function Lookup(d: Dict, k: string): (r: Option<string>)
    ensures r.None? <==> forall i :: 0 <= i < |d| ==> d[i].0 != k
    ensures r.Some? ==> exists i :: 0 <= i < |d| && d[i] == (k, r.value)
  {
    if |d| == 0 then None
    else if d[|d| - 1].0 == k then Some(d[|d| - 1].1)
    else
      var r := Lookup(d[..|d| - 1], k);
      assert forall i :: 0 <= i < |d| - 1 ==> d[..|d| - 1][i] == d[i];
      r
  }

  function KeyIndex(d: Dict, k: string): (i: nat)
    ensures i <= |d|
    ensures i < |d| ==> d[i].0 == k
    ensures forall j :: 0 <= j < i ==> d[j].0 != k
  {
    if |d| == 0 then 0 else if d[0].0 == k then 0 else 1 + KeyIndex(d[1..], k)
  }

  /** `d[k] = v`: a present key keeps its place and takes the new value,
      a new key goes last. */
  function Put(d: Dict, k: string, v: string): Dict {
    var i := KeyIndex(d, k);
    if i < |d| then d[i := (k, v)] else d + [(k, v)]
  }

  /** After `d[k] = v` the keys stay unique, k maps to v and every other
      key maps to what it did. */
  lemma PutSpec(d: Dict, k: string, v: string)
    requires UniqueKeys(d)
    ensures UniqueKeys(Put(d, k, v))
    ensures Lookup(Put(d, k, v), k) == Some(v)
    ensures forall k' :: k' != k ==> Lookup(Put(d, k, v), k') == Lookup(d, k')
    ensures |Put(d, k, v)| > 0
  {
    var r := Put(d, k, v);
    var i := KeyIndex(d, k);
    assert forall j :: 0 <= j < |d| && j != i ==> r[j] == d[j];
    assert i < |r| && r[i] == (k, v);
    assert forall j :: 0 <= j < |r| ==> (j < |d| && j != i && r[j] == d[j]) || r[j] == (k, v);
    forall k' | k' != k
      ensures Lookup(r, k') == Lookup(d, k')
    {
      LookupUnique(d, k');
      LookupUnique(r, k');
      if Lookup(d, k').Some? {
        var j :| 0 <= j < |d| && d[j] == (k', Lookup(d, k').value);
        assert r[j] == d[j];
      } else {
        assert forall j :: 0 <= j < |r| ==> r[j].0 != k';
      }
    }
    LookupUnique(r, k);
  }

  /** With unique keys, the lookup finds the one pair of the key. */
  lemma LookupUnique(d: Dict, k: string)
    requires UniqueKeys(d)
    ensures forall i :: 0 <= i < |d| && d[i].0 == k ==> Lookup(d, k) == Some(d[i].1)
  {
    forall i | 0 <= i < |d| && d[i].0 == k
      ensures Lookup(d, k) == Some(d[i].1)
    {
      var j :| 0 <= j < |d| && d[j] == (k, Lookup(d, k).value);
      assert i == j;
    }
  }

  /** The dictionary built by assigning the pairs in order. */
  function PutAll(d: Dict, kvs: seq<(string, string)>): Dict {
    if |kvs| == 0 then d
    else Put(PutAll(d, kvs[..|kvs| - 1]), kvs[|kvs| - 1].0, kvs[|kvs| - 1].1)
  }

  lemma PutAllSnoc(d: Dict, kvs: seq<(string, string)>, p: (string, string))
    ensures PutAll(d, kvs + [p]) == Put(PutAll(d, kvs), p.0, p.1)
  {
    assert (kvs + [p])[..|kvs|] == kvs;
  }

  lemma {:induction false} PutAllAppend(d: Dict, a: seq<(string, string)>, b: seq<(string, string)>)
    ensures PutAll(d, a + b) == PutAll(PutAll(d, a), b)
    decreases |b|
  {
    if |b| == 0 {
      assert a + b == a;
    } else {
      var c := b[..|b| - 1];
      var p := b[|b| - 1];
      assert b == c + [p];
      assert a + b == (a + c) + [p];
      PutAllSnoc(d, a + c, p);
      PutAllSnoc(PutAll(d, a), c, p);
      PutAllAppend(d, a, c);
    }
  }

  /** The value the last pair with key k carries, if any. */
  function LastValue(kvs: seq<(string, string)>, k: string): Option<string> {
    if |kvs| == 0 then None
    else if kvs[|kvs| - 1].0 == k then Some(kvs[|kvs| - 1].1)
    else LastValue(kvs[..|kvs| - 1], k)
  }

  /** The later assignment wins: each key maps to the value of its last
      pair, and the keys are exactly the keys of the pairs. */
  lemma {:induction false} PutAllSpec(kvs: seq<(string, string)>)
    ensures UniqueKeys(PutAll([], kvs))
    ensures forall k :: Lookup(PutAll([], kvs), k) == LastValue(kvs, k)
    ensures |PutAll([], kvs)| == 0 <==> |kvs| == 0
    decreases |kvs|
  {
    if |kvs| > 0 {
      var front := kvs[..|kvs| - 1];
      PutAllSpec(front);
      PutSpec(PutAll([], front), kvs[|kvs| - 1].0, kvs[|kvs| - 1].1);
    }
  }

  /** `archive_files` after the walk. */
  function ArchiveFiles(packageName: string, walk: seq<WalkEntry>): Dict {
    PutAll([], AllMapped(packageName, walk))
  }

  /** Each arcname maps to the filename of the last walk entry that gave it. */
  lemma ArchiveFilesSpec(packageName: string, walk: seq<WalkEntry>)
    ensures UniqueKeys(ArchiveFiles(packageName, walk))
    ensures forall k :: Lookup(ArchiveFiles(packageName, walk), k) == LastValue(AllMapped(packageName, walk), k)
    ensures |ArchiveFiles(packageName, walk)| == 0 <==> |AllMapped(packageName, walk)| == 0
  {
    PutAllSpec(AllMapped(packageName, walk));
  }

  /** Files directly in `./dist` are never archived. */
  lemma DistRootSkipped(packageName: string, files: seq<string>)
    ensures Mapped(packageName, WalkEntry("./dist", files)) == []
  {
    assert StartsWith("./dist", "./");
    assert NormRoot("./dist") == "dist";
    IndexOfAbsent("dist", '/');
    assert Split("dist", '/') == ["dist"];
  }

  lemma SplitOne(s: string)
    requires '/' !in s
    ensures Split(s, '/') == [s]
  {
    IndexOfAbsent(s, '/');
  }

  lemma JoinPlain(a: string, b: string)
    requires a != [] && a[|a| - 1] != '/' && b != [] && b[0] != '/'
    ensures Join(a, b) == a + "/" + b
  {
    assert b[..1][0] == b[0];
  }

  lemma JoinKeepsPrefix(a: string, b: string)
    requires !StartsWith(b, "/")
    ensures StartsWith(Join(a, b), a)
  {
    assert (a + b)[..|a|] == a;
    assert (a + "/" + b)[..|a|] == a;
  }

  lemma {:induction false} JoinAllKeepsPrefix(a: string, parts: seq<string>)
    requires forall i :: 0 <= i < |parts| ==> '/' !in parts[i]
    ensures StartsWith(JoinAll(a, parts), a)
    decreases |parts|
  {
    if |parts| > 0 {
      if parts[0] != [] { assert parts[0][0] != '/'; }
      JoinKeepsPrefix(a, parts[0]);
      JoinAllKeepsPrefix(Join(a, parts[0]), parts[1..]);
      var b := Join(a, parts[0]);
      assert JoinAll(a, parts)[..|b|] == b;
      assert b[..|a|] == a;
    }
  }

  predicate PlainNames(walk: seq<WalkEntry>) {
    forall i, j :: 0 <= i < |walk| && 0 <= j < |walk[i].files| ==> '/' !in walk[i].files[j]
  }

  /** Every arcname of a walk entry starts with the package name. */
  lemma MappedPrefixed(packageName: string, e: WalkEntry)
    requires forall j :: 0 <= j < |e.files| ==> '/' !in e.files[j]
    ensures forall i :: 0 <= i < |Mapped(packageName, e)| ==> StartsWith(Mapped(packageName, e)[i].0, packageName)
  {
    var parts := Split(NormRoot(e.root), '/');
    if |parts| >= 2 {
      var subPath := JoinAll(packageName, parts[2..]);
      JoinAllKeepsPrefix(packageName, parts[2..]);
      forall i | 0 <= i < |e.files|
        ensures StartsWith(Join(subPath, e.files[i]), packageName)
      {
        if e.files[i] != [] { assert e.files[i][0] != '/'; }
        JoinKeepsPrefix(subPath, e.files[i]);
        assert Join(subPath, e.files[i])[..|subPath|] == subPath;
      }
    }
  }

  lemma {:induction false} AllMappedPrefixed(packageName: string, walk: seq<WalkEntry>)
    requires PlainNames(walk)
    ensures forall i :: 0 <= i < |AllMapped(packageName, walk)| ==> StartsWith(AllMapped(packageName, walk)[i].0, packageName)
    decreases |walk|
  {
    if |walk| > 0 {
      var front := walk[..|walk| - 1];
      assert PlainNames(front) by {
        assert forall i :: 0 <= i < |front| ==> front[i] == walk[i];
      }
      AllMappedPrefixed(packageName, front);
      MappedPrefixed(packageName, walk[|walk| - 1]);
    }
  }

  /** Every arcname in the archive starts with the package name. */
  lemma ArchivePrefixed(packageName: string, walk: seq<WalkEntry>)
    requires PlainNames(walk)
    ensures forall i :: 0 <= i < |ArchiveFiles(packageName, walk)| ==>
              StartsWith(ArchiveFiles(packageName, walk)[i].0, packageName)
  {
    var all := AllMapped(packageName, walk);
    var d := ArchiveFiles(packageName, walk);
    AllMappedPrefixed(packageName, walk);
    ArchiveFilesSpec(packageName, walk);
    forall i | 0 <= i < |d|
      ensures StartsWith(d[i].0, packageName)
    {
      LookupUnique(d, d[i].0);
      LastValueFrom(all, d[i].0);
    }
  }

  lemma {:induction false} LastValueFrom(kvs: seq<(string, string)>, k: string)
    ensures LastValue(kvs, k).Some? ==> exists i :: 0 <= i < |kvs| && kvs[i].0 == k
    decreases |kvs|
  {
    if |kvs| > 0 && kvs[|kvs| - 1].0 != k {
      LastValueFrom(kvs[..|kvs| - 1], k);
      if LastValue(kvs, k).Some? {
        var i :| 0 <= i < |kvs| - 1 && kvs[..|kvs| - 1][i].0 == k;
        assert kvs[i].0 == k;
      }
    }
  }

  /** Of two entries giving the same arcname, the second one's filename is kept. */
  lemma LaterWins(packageName: string, ea: WalkEntry, eb: WalkEntry, k: string, va: string, vb: string)
    requires Mapped(packageName, ea) == [(k, va)] && Mapped(packageName, eb) == [(k, vb)]
    ensures Lookup(ArchiveFiles(packageName, [ea, eb]), k) == Some(vb)
  {
    AllMappedTwo(packageName, ea, eb);
    ArchiveFilesSpec(packageName, [ea, eb]);
    assert LastValue([(k, va), (k, vb)], k) == Some(vb);
  }

  /** A walk entry with one file below a first-level directory gives one pair. */
  lemma MappedSingle(packageName: string, e: WalkEntry, f: string)
    requires e.files == [f] && |Split(NormRoot(e.root), '/')| >= 2
    ensures var root := NormRoot(e.root);
            Mapped(packageName, e) == [(Join(JoinAll(packageName, Split(root, '/')[2..]), f), Join(root, f))]
  {
  }

  lemma AllMappedTwo(packageName: string, a: WalkEntry, b: WalkEntry)
    ensures AllMapped(packageName, [a, b]) == Mapped(packageName, a) + Mapped(packageName, b)
  {
    var walk := [a, b];
    assert walk[..1] == [a] && [a][..0] == [];
    assert AllMapped(packageName, [a]) == AllMapped(packageName, []) + Mapped(packageName, a);
  }

  /** `./dist/x` normalises to `dist/x`, which splits into "dist" and x. */
  lemma DistChild(x: string)
    requires '/' !in x
    ensures NormRoot("./dist/" + x) == "dist/" + x
    ensures Split("dist/" + x, '/') == ["dist", x]
  {
    assert ("./dist/" + x)[..2] == "./";
    assert ("./dist/" + x)[2..] == "dist/" + x;
    assert "dist/" + x == "dist" + ['/'] + x;
    SplitOne("dist");
    SplitSnoc("dist", x, '/');
  }

  /** `./dist/x/y` normalises to `dist/x/y`, which splits into "dist", x and y. */
  lemma DistGrandchild(x: string, y: string)
    requires '/' !in x && '/' !in y
    ensures NormRoot("./dist/" + x + "/" + y) == "dist/" + x + "/" + y
    ensures Split("dist/" + x + "/" + y, '/') == ["dist", x, y]
  {
    DistChild(x);
    assert ("./dist/" + x + "/" + y)[..2] == "./";
    assert ("./dist/" + x + "/" + y)[2..] == "dist/" + x + "/" + y;
    assert "dist/" + x + "/" + y == ("dist/" + x) + ['/'] + y;
    SplitSnoc("dist/" + x, y, '/');
  }

  /** The first level is dropped: `dist/A/B/f` is archived as `package/B/f`. */
  lemma FirstLevelDropped(packageName: string, a: string, b: string, f: string)
    requires packageName != [] && packageName[|packageName| - 1] != '/'
    requires '/' !in a && '/' !in b && b != [] && f != [] && f[0] != '/'
    ensures Mapped(packageName, WalkEntry("./dist/" + a + "/" + b, [f]))
            == [(packageName + "/" + b + "/" + f, "dist/" + a + "/" + b + "/" + f)]
  {
    var root := "dist/" + a + "/" + b;
    DistGrandchild(a, b);
    MappedSingle(packageName, WalkEntry("./dist/" + a + "/" + b, [f]), f);
    var parts := Split(root, '/');
    assert parts[2..] == [b];
    JoinPlain(packageName, b);
    assert JoinAll(packageName, [b]) == JoinAll(Join(packageName, b), []);
    JoinPlain(packageName + "/" + b, f);
    JoinPlain(root, f);
  }

  /** Files in two first-level directories under the same relative path
      collide; the later walk entry wins. */
  lemma LaterEntryWins(packageName: string, a: string, b: string, f: string)
    requires '/' !in a && '/' !in b && a != [] && b != [] && f != [] && f[0] != '/'
    ensures var walk := [WalkEntry("./dist/" + a, [f]), WalkEntry("./dist/" + b, [f])];
            Lookup(ArchiveFiles(packageName, walk), Join(packageName, f)) == Some("dist/" + b + "/" + f)
  {
    MappedChild(packageName, a, f);
    MappedChild(packageName, b, f);
    LaterWins(packageName, WalkEntry("./dist/" + a, [f]), WalkEntry("./dist/" + b, [f]),
              Join(packageName, f), "dist/" + a + "/" + f, "dist/" + b + "/" + f);
  }

  /** A file in a first-level directory goes to the top of the package. */
  lemma MappedChild(packageName: string, x: string, f: string)
    requires '/' !in x && x != [] && f != [] && f[0] != '/'
    ensures Mapped(packageName, WalkEntry("./dist/" + x, [f])) == [(Join(packageName, f), "dist/" + x + "/" + f)]
  {
    DistChild(x);
    MappedSingle(packageName, WalkEntry("./dist/" + x, [f]), f);
    var parts := Split("dist/" + x, '/');
    assert parts[2..] == [];
    assert JoinAll(packageName, parts[2..]) == packageName;
    JoinPlain("dist/" + x, f);
  }

  /** The inner loop over one walk entry's files. */
  method AddEntry(archive: Dict, ghost done: seq<(string, string)>, packageName: string, e: WalkEntry)
    returns (updated: Dict)
    requires archive == PutAll([], done)
    ensures updated == PutAll([], done + Mapped(packageName, e))
  {
    var root := NormRoot(e.root);
    var parts := Split(root, '/');
    if |parts| < 2 {
      assert done + Mapped(packageName, e) == done;
      return archive;
    }
    var subPath := JoinAll(packageName, parts[2..]);
    updated := AddFilesUnder(archive, done, subPath, root, e.files);
  }

  method AddFilesUnder(archive: Dict, ghost done: seq<(string, string)>, subPath: string, root: string, files: seq<string>)
    returns (updated: Dict)
    requires archive == PutAll([], done)
    ensures updated == PutAll([], done + FilePairs(subPath, root, files))
  {
    updated := archive;
    ghost var pairs := FilePairs(subPath, root, files);
    for j := 0 to |files|
      invariant updated == PutAll(archive, pairs[..j])
    {
      var file := files[j];
      var arcname := Join(subPath, file);
      var filename := Join(root, file);
      assert pairs[..j + 1] == pairs[..j] + [pairs[j]];
      PutAllSnoc(archive, pairs[..j], pairs[j]);
      updated := Put(updated, arcname, filename);
    }
    assert pairs[..|files|] == pairs;
    PutAllAppend([], done, pairs);
  }

  /** The write loop: the members in dictionary order. */
  method WriteZip(archive: Dict) returns (members: Dict)
    ensures members == archive
  {
    members := [];
    for i := 0 to |archive|
      invariant members == archive[..i]
    {
      members := members + [archive[i]];
    }
    assert archive[..|archive|] == archive;
  }

  datatype PackageOutcome = PackageOutcome(messages: seq<string>, zip: Option<(string, Dict)>, exitCode: int)

  /** The script: `distExists` is the existence test of `./dist`, `walk` the
      walk of it; the zip is its name and its (arcname, filename) members in
      dictionary order. */
  method Run(distExists: bool, platform: string, version: string, walk: seq<WalkEntry>) returns (outcome: PackageOutcome)
    ensures !distExists ==> outcome == PackageOutcome(["No dist directory to package."], None, 1)
    ensures distExists && |AllMapped(PackageName(version, platform), walk)| == 0 ==>
              outcome == PackageOutcome(["Nothing in dist directory to package."], None, 1)
    ensures distExists && |AllMapped(PackageName(version, platform), walk)| > 0 ==>
              var name := PackageName(version, platform);
              outcome == PackageOutcome([], Some((name + ".zip", ArchiveFiles(name, walk))), 0)
  {
    if !distExists {
      return PackageOutcome(["No dist directory to package."], None, 1);
    }
    var packageName := PackageName(version, platform);
    var archive: Dict := [];
    ghost var done: seq<(string, string)> := [];
    for k := 0 to |walk|
      invariant done == AllMapped(packageName, walk[..k])
      invariant archive == PutAll([], done)
    {
      assert walk[..k + 1][..k] == walk[..k];
      archive := AddEntry(archive, done, packageName, walk[k]);
      done := done + Mapped(packageName, walk[k]);
    }
    assert walk[..|walk|] == walk;
    ArchiveFilesSpec(packageName, walk);
    if |archive| == 0 {
      return PackageOutcome(["Nothing in dist directory to package."], None, 1);
    }
    var members := WriteZip(archive);
    outcome := PackageOutcome([], Some((packageName + ".zip", members)), 0);
  }
}
