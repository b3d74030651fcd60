/**
  The dataset-splitting utility: every class folder of a raw dataset is
  shuffled and cut into a training, a validation and a test part, and each
  image is copied to `<split>/<class>/<name>`.

  The destination side of the file system is a value (`Disk`): the set of
  directories that exist and, for every file copied there, the source it was
  copied from. The random shuffle is a parameter that may return any
  rearrangement of the list it is given.
 */
module PrepareData {
  import opened FileSystem

  /** The three destination trees, `train_dir`, `val_dir` and `test_dir`. */
  datatype Split = Train | Val | Test

  const AllSplits: set<Split> := {Train, Val, Test}

  /** The tree a path lies in: the raw dataset or one of the three splits. */
  datatype Location = Source | Dest(split: Split)

  /** `os.path.join(root, cls, name)` for a file inside a class folder. */
  datatype FilePath = FilePath(root: Location, cls: string, name: string)

  /** A directory created by the utility: a split root or a class folder in it. */
  datatype DirPath = SplitDir(split: Split) | ClassDir(split: Split, cls: string)

  /** The destination side of the file system: the directories that exist,
      and for every copied file (keyed by its destination) the path it was
      copied from. */
  datatype Disk = Disk(dirs: set<DirPath>, files: map<FilePath, FilePath>)

  /** The default proportions of `split_dataset`; the test part gets the rest. */
  const DefaultTrainRatio: real := 0.7
  const DefaultValRatio: real := 0.15

  /** A random shuffle: given the class being processed and its image list,
      some order of that list. */
  type Shuffler = (string, seq<string>) -> seq<string>

  /** What `random.shuffle` guarantees, for the lists it is applied to: the
      image list of every class folder of `src` comes back rearranged, so in
      particular with its length unchanged. */
  ghost predicate IsShuffle(src: Folder, shuffle: Shuffler): (b: bool)
    ensures b ==> forall cls :: cls in src.subdirs ==> |shuffle(cls, ClassImages(src, cls))| == |ClassImages(src, cls)|
  {
    var b := forall cls :: cls in src.subdirs ==> multiset(shuffle(cls, ClassImages(src, cls))) == multiset(ClassImages(src, cls));
    assert b ==> forall cls :: cls in src.subdirs ==>
      |multiset(shuffle(cls, ClassImages(src, cls)))| == |multiset(ClassImages(src, cls))|;
    b
  }

  // ---------------------------------------------------------------------------
  // Directory creation
  // ---------------------------------------------------------------------------

  /** `create_directory`: make sure `d` exists. With `exist_ok=True` an
      existing directory is not an error and nothing else changes. */
  function EnsureDir(disk: Disk, d: DirPath): (r: Disk)
    ensures d in r.dirs && r.files == disk.files
    ensures forall e :: e != d ==> (e in r.dirs <==> e in disk.dirs)
  {
    disk.(dirs := disk.dirs + {d})
  }

  /** Creating a directory that already exists changes nothing. */
  lemma EnsureDirIdempotent(disk: Disk, d: DirPath)
    ensures d in disk.dirs ==> EnsureDir(disk, d) == disk
    ensures EnsureDir(EnsureDir(disk, d), d) == EnsureDir(disk, d)
  {
  }

  function SplitRoots(): set<DirPath> {
    set s | s in AllSplits :: SplitDir(s)
  }

  /** The class folders created in the three splits for `classes`. */
  function ClassDirSet(classes: seq<string>): set<DirPath> {
    set s, c | s in AllSplits && c in classes :: ClassDir(s, c)
  }

  /** Every directory the utility creates for the raw dataset `src`. */
  function DirsMade(src: Folder): set<DirPath> {
    SplitRoots() + ClassDirSet(ClassDirs(src))
  }

  // ---------------------------------------------------------------------------
  // Choosing what to split
  // ---------------------------------------------------------------------------

  /** The entries of the raw dataset that are directories, in listing order. */
  function ClassDirs(src: Folder): (r: seq<string>)
    ensures forall c :: c in r <==> c in src.entries && c in src.subdirs
  {
    FilterContents(src.entries, d => d in src.subdirs);
    Filter(src.entries, d => d in src.subdirs)
  }

  /** The image files of one class folder, in listing order. */
  function ClassImages(src: Folder, cls: string): (r: seq<string>)
    requires cls in src.subdirs
    ensures forall f :: f in r <==> f in src.subdirs[cls] && IsImageName(f)
  {
    FilterContents(src.subdirs[cls], IsImageName);
    Filter(src.subdirs[cls], IsImageName)
  }

  // ---------------------------------------------------------------------------
  // Counting and slicing
  // ---------------------------------------------------------------------------

  /** Python's `int` on a float: truncation toward zero. */
  function Trunc(x: real): (r: int)
    ensures 0.0 <= x ==> 0 <= r && r as real <= x < r as real + 1.0
    ensures x < 0.0 ==> r <= 0 && r as real - 1.0 < x <= r as real
  {
    if 0.0 <= x then x.Floor else -((-x).Floor)
  }

  /** `n * ratio` for a whole number `n`, by recursion on `n` (see
      `ScaleIsProduct`): it has the sign of `ratio`, and a ratio of at most 1
      scales `n` to at most `n`. */
  function Scale(n: nat, ratio: real): (r: real)
    ensures 0.0 <= ratio ==> 0.0 <= r
    ensures ratio <= 0.0 ==> r <= 0.0
    ensures ratio <= 1.0 ==> r <= n as real
  {
    if n == 0 then 0.0 else Scale(n - 1, ratio) + ratio
  }

  lemma {:induction false} ScaleIsProduct(n: nat, ratio: real)
    ensures Scale(n, ratio) == n as real * ratio
  {
    if n > 0 {
      ScaleIsProduct(n - 1, ratio);
    }
  }

  datatype Counts = Counts(train: int, val: int)

  /** `n_train = int(n_files * train_ratio)` and `n_val = int(n_files * val_ratio)`:
      a ratio in `[0, 1]` gives a count in `0..n`, and a ratio of at most 0
      a count of at most 0. */
  function SplitCounts(n: nat, trainRatio: real, valRatio: real): (c: Counts)
    ensures 0.0 <= trainRatio ==> 0 <= c.train
    ensures 0.0 <= valRatio ==> 0 <= c.val
    ensures trainRatio <= 1.0 ==> c.train <= n
    ensures valRatio <= 1.0 ==> c.val <= n
    ensures trainRatio <= 0.0 ==> c.train <= 0
    ensures valRatio <= 0.0 ==> c.val <= 0
  {
    Counts(Trunc(Scale(n, trainRatio)), Trunc(Scale(n, valRatio)))
  }

  /** Where a Python slice bound `i` lands in a list of length `n`: a
      negative bound counts from the end, and the result is clipped to
      `0..n`. */
  function SliceBound(i: int, n: nat): (k: nat)
    ensures k <= n
    ensures 0 <= i ==> k == if i < n then i else n
  {
    if i < 0 then (if n + i < 0 then 0 else n + i)
    else if i < n then i
    else n
  }

  /** Python's `s[lo:hi]`: within bounds it is the run `s[lo..hi]`, an
      empty range gives nothing, and whatever the bounds the result is a
      run of `s`, never longer than `s`. */
  function Slice<T>(s: seq<T>, lo: int, hi: int): (r: seq<T>)
    ensures 0 <= lo <= hi <= |s| ==> r == s[lo..hi]
    ensures 0 <= hi <= lo ==> r == []
    ensures |r| <= |s|
    ensures forall i :: 0 <= i < |r| ==> r[i] in s
  {
    var a, b := SliceBound(lo, |s|), SliceBound(hi, |s|);
    if a <= b then s[a..b] else []
  }

  datatype Parts = Parts(train: seq<string>, val: seq<string>, test: seq<string>)

  function Part(p: Parts, s: Split): seq<string> {
    if s == Train then p.train else if s == Val then p.val else p.test
  }

  /** `files[:n_train]`, `files[n_train:n_train + n_val]` and
      `files[n_train + n_val:]`: for non-negative counts the three parts, in
      order, are the list again. */
  function ThreeWay(files: seq<string>, nTrain: int, nVal: int): (p: Parts)
    ensures 0 <= nTrain && 0 <= nVal ==> p.train + p.val + p.test == files
  {
    var a, b := SliceBound(nTrain, |files|), SliceBound(nTrain + nVal, |files|);
    assert a <= b ==> files[..a] + files[a..b] + files[b..] == files;
    Parts(Slice(files, 0, nTrain), Slice(files, nTrain, nTrain + nVal), Slice(files, nTrain + nVal, |files|))
  }

  /** The sizes of the three parts; they are exactly the requested counts
      when the counts fit in the list. */
  lemma ThreeWaySizes(files: seq<string>, nTrain: int, nVal: int)
    requires 0 <= nTrain && 0 <= nVal
    ensures var p := ThreeWay(files, nTrain, nVal);
      && |p.train| + |p.val| + |p.test| == |files|
      && |p.train| == (if nTrain <= |files| then nTrain else |files|)
      && (nTrain + nVal <= |files| ==>
            |p.train| == nTrain && |p.val| == nVal && |p.test| == |files| - nTrain - nVal)
  {
  }

  /** Every part is drawn from the list, whatever the counts. */
  lemma PartsWithin(files: seq<string>, nTrain: int, nVal: int, s: Split, f: string)
    requires f in Part(ThreeWay(files, nTrain, nVal), s)
    ensures f in files
  {
  }

  /** When the list has no repetitions and the counts are non-negative,
      each element of the list lies in exactly one part. */
  lemma {:induction false} ThreeWayPartition(files: seq<string>, nTrain: int, nVal: int, f: string)
    requires Distinct(files) && 0 <= nTrain && 0 <= nVal
    ensures var p := ThreeWay(files, nTrain, nVal);
      && (f in files <==> f in p.train || f in p.val || f in p.test)
      && !(f in p.train && f in p.val)
      && !(f in p.train && f in p.test)
      && !(f in p.val && f in p.test)
  {
    var n := |files|;
    var a, b := SliceBound(nTrain, n), SliceBound(nTrain + nVal, n);
    InRange(files, 0, a, f);
    InRange(files, a, b, f);
    InRange(files, b, n, f);
  }

  /** In a list without repetitions an element found in `s[lo..hi]` occurs
      at an index in `lo..hi` and nowhere else. */
  lemma InRange(s: seq<string>, lo: nat, hi: nat, f: string)
    requires Distinct(s) && lo <= hi <= |s|
    ensures f in s[lo..hi] ==> forall k :: 0 <= k < |s| && s[k] == f ==> lo <= k < hi
  {
    if f in s[lo..hi] {
      var i :| lo <= i < hi && s[i] == f;
      assert s[lo..hi][i - lo] == f;
    }
  }

  /** A negative count, which a negative ratio can produce, is read by Python
      as an index from the end, and then the parts can overlap: with the
      counts -1 and 1 the first name of a two-name list lands in both the
      training and the test part. This is why the partition properties above
      are stated for non-negative counts. */
  lemma NegativeCountOverlaps()
    ensures var p := ThreeWay(["a", "b"], -1, 1); p.train == ["a"] && p.test == ["a", "b"]
  {
    var s := ["a", "b"];
    assert SliceBound(-1, 2) == 1 && SliceBound(0, 2) == 0;
    assert s[..1] == ["a"] && s[0..2] == s;
  }

  /** Negative inputs do not always break the partition: the counts -1 and 0
      still cut a two-name list into disjoint parts, and a negative ratio
      can truncate to a count of 0. */
  lemma NegativeCountMayPartition()
    ensures ThreeWay(["a", "b"], -1, 0) == Parts(["a"], [], ["b"])
    ensures SplitCounts(2, -0.3, 0.5) == Counts(0, 1)
  {
    var s := ["a", "b"];
    assert SliceBound(-1, 2) == 1 && SliceBound(0, 2) == 0 && SliceBound(2, 2) == 2;
    assert s[..1] == ["a"] && s[1..2] == ["b"];
    ScaleIsProduct(2, -0.3);
    ScaleIsProduct(2, 0.5);
  }

  /** With the default ratios, 70% and 15% rounded down never exceed the
      class size, so the test part gets the remainder, and that remainder is
      non-empty as soon as the class holds one image. */
  lemma DefaultRatiosLeaveTest(n: nat)
    ensures var c := SplitCounts(n, DefaultTrainRatio, DefaultValRatio);
      && 0 <= c.train && 0 <= c.val
      && c.train + c.val <= n
      && (0 < n ==> c.train + c.val < n)
  {
    var c := SplitCounts(n, DefaultTrainRatio, DefaultValRatio);
    ScaleIsProduct(n, DefaultTrainRatio);
    ScaleIsProduct(n, DefaultValRatio);
    var x := n as real;
    assert c.train as real <= x * 0.7;
    assert c.val as real <= x * 0.15;
    assert (c.train + c.val) as real <= x * 0.85;
  }

  // ---------------------------------------------------------------------------
  // One class folder, and the whole dataset
  // ---------------------------------------------------------------------------

  /** The three parts of class `cls`: nothing when it holds no image,
      otherwise its shuffled images cut at the truncated proportions. */
  function ClassParts(src: Folder, cls: string, shuffle: Shuffler, trainRatio: real, valRatio: real): (p: Parts)
    requires cls in src.subdirs
    ensures ClassImages(src, cls) == [] ==> p.train == p.val == p.test == []
    ensures ClassImages(src, cls) != [] && 0.0 <= trainRatio && 0.0 <= valRatio
      ==> p.train + p.val + p.test == shuffle(cls, ClassImages(src, cls))
  {
    var images := ClassImages(src, cls);
    if images == [] then Parts([], [], [])
    else
      var shuffled := shuffle(cls, images);
      var c := SplitCounts(|shuffled|, trainRatio, valRatio);
      ThreeWay(shuffled, c.train, c.val)
  }

  /** The copies of the files `files` of class `cls` into `split`, keyed by
      destination: every file of the list reaches `split/cls`, and each copy
      comes from the file of the same name in `source/cls`. */
  function CopyMap(cls: string, files: seq<string>, split: Split): (m: map<FilePath, FilePath>)
    ensures forall f :: f in files ==> FilePath(Dest(split), cls, f) in m
    ensures forall dst :: dst in m ==>
      dst.root == Dest(split) && dst.cls == cls && dst.name in files && m[dst] == FilePath(Source, cls, dst.name)
  {
    map f | f in files :: FilePath(Dest(split), cls, f) := FilePath(Source, cls, f)
  }

  /** The copies made for one class: each part into its own split, every
      copy inside a folder of that class. */
  function ClassCopies(cls: string, p: Parts): (m: map<FilePath, FilePath>)
    ensures forall dst :: dst in m ==>
      dst.root.Dest? && dst.cls == cls && dst.name in Part(p, dst.root.split) && m[dst] == FilePath(Source, cls, dst.name)
  {
    CopyMap(cls, p.train, Train) + CopyMap(cls, p.val, Val) + CopyMap(cls, p.test, Test)
  }

  lemma CopyMapAt(cls: string, files: seq<string>, split: Split, dst: FilePath)
    ensures dst in CopyMap(cls, files, split) <==> dst.root == Dest(split) && dst.cls == cls && dst.name in files
    ensures dst in CopyMap(cls, files, split) ==> CopyMap(cls, files, split)[dst] == FilePath(Source, cls, dst.name)
  {
    if dst.root == Dest(split) && dst.cls == cls && dst.name in files {
      assert dst == FilePath(Dest(split), cls, dst.name);
    }
  }

  /** Copying one more file adds exactly its destination. */
  lemma CopyMapSnoc(cls: string, files: seq<string>, f: string, split: Split)
    ensures CopyMap(cls, files + [f], split)
         == CopyMap(cls, files, split)[FilePath(Dest(split), cls, f) := FilePath(Source, cls, f)]
  {
    var a, b := CopyMap(cls, files + [f], split), CopyMap(cls, files, split)[FilePath(Dest(split), cls, f) := FilePath(Source, cls, f)];
    forall dst ensures (dst in a <==> dst in b) && (dst in a ==> a[dst] == b[dst]) {
      CopyMapAt(cls, files + [f], split, dst);
      CopyMapAt(cls, files, split, dst);
    }
  }

  lemma UnionUpdate<K, V>(a: map<K, V>, b: map<K, V>, k: K, v: V)
    ensures (a + b)[k := v] == a + b[k := v]
  {
  }

  lemma ClassCopiesAt(cls: string, p: Parts, dst: FilePath)
    ensures dst in ClassCopies(cls, p) <==> dst.root.Dest? && dst.cls == cls && dst.name in Part(p, dst.root.split)
    ensures dst in ClassCopies(cls, p) ==> ClassCopies(cls, p)[dst] == FilePath(Source, cls, dst.name)
  {
    CopyMapAt(cls, p.train, Train, dst);
    CopyMapAt(cls, p.val, Val, dst);
    CopyMapAt(cls, p.test, Test, dst);
  }

  /** All copies made for the class folders `classes`, processed in order:
      every copy lies in a folder of one of those classes and comes from the
      file of the same class and name in the source. */
  function SplitAll(src: Folder, classes: seq<string>, shuffle: Shuffler, trainRatio: real, valRatio: real): (m: map<FilePath, FilePath>)
    requires forall c :: c in classes ==> c in src.subdirs
    ensures forall dst :: dst in m ==>
      dst.root.Dest? && dst.cls in classes && m[dst] == FilePath(Source, dst.cls, dst.name)
  {
    if classes == [] then map[]
    else
      var init, cls := classes[..|classes| - 1], classes[|classes| - 1];
      SplitAll(src, init, shuffle, trainRatio, valRatio)
        + ClassCopies(cls, ClassParts(src, cls, shuffle, trainRatio, valRatio))
  }

  /** What the split copies: a file reaches `split/cls/name` exactly when
      `cls` is one of the processed classes and `name` fell in that split's
      part of the class, and it is always a copy of `source/cls/name`. */
  lemma {:induction false} SplitAllCopies(src: Folder, classes: seq<string>, shuffle: Shuffler,
                                          trainRatio: real, valRatio: real, dst: FilePath)
    requires forall c :: c in classes ==> c in src.subdirs
    ensures var m := SplitAll(src, classes, shuffle, trainRatio, valRatio);
      && (dst in m <==>
            dst.root.Dest? && dst.cls in classes
            && dst.name in Part(ClassParts(src, dst.cls, shuffle, trainRatio, valRatio), dst.root.split))
      && (dst in m ==> m[dst] == FilePath(Source, dst.cls, dst.name))
  {
    if classes != [] {
      var init, cls := classes[..|classes| - 1], classes[|classes| - 1];
      assert forall c :: c in init ==> c in classes;
      SplitAllCopies(src, init, shuffle, trainRatio, valRatio, dst);
      ClassCopiesAt(cls, ClassParts(src, cls, shuffle, trainRatio, valRatio), dst);
    }
  }

  /** Only images inside class folders are copied, each into a folder of
      the same class under the same file name. */
  lemma OnlyImagesCopied(src: Folder, shuffle: Shuffler, trainRatio: real, valRatio: real, dst: FilePath)
    requires IsShuffle(src, shuffle)
    ensures var m := SplitAll(src, ClassDirs(src), shuffle, trainRatio, valRatio);
      dst in m ==>
        && dst.root.Dest?
        && dst.cls in src.entries && dst.cls in src.subdirs
        && dst.name in src.subdirs[dst.cls] && IsImageName(dst.name)
        && m[dst] == FilePath(Source, dst.cls, dst.name)
  {
    var m := SplitAll(src, ClassDirs(src), shuffle, trainRatio, valRatio);
    SplitAllCopies(src, ClassDirs(src), shuffle, trainRatio, valRatio, dst);
    if dst in m {
      PartHoldsImages(src, shuffle, trainRatio, valRatio, dst.cls, dst.root.split, dst.name);
    }
  }

  /** Whatever the ratios, a part of a class holds only images of that class. */
  lemma PartHoldsImages(src: Folder, shuffle: Shuffler, trainRatio: real, valRatio: real, cls: string, s: Split, f: string)
    requires IsShuffle(src, shuffle) && cls in src.subdirs
    requires f in Part(ClassParts(src, cls, shuffle, trainRatio, valRatio), s)
    ensures f in src.subdirs[cls] && IsImageName(f)
  {
    var images := ClassImages(src, cls);
    assert images != [];
    var shuffled := shuffle(cls, images);
    var c := SplitCounts(|shuffled|, trainRatio, valRatio);
    PartsWithin(shuffled, c.train, c.val, s, f);
    assert f in multiset(shuffled);
  }

  /** With non-negative ratios the parts of a class folder partition its
      images: each image lies in exactly one part, and nothing else does. */
  lemma ClassPartition(src: Folder, shuffle: Shuffler, trainRatio: real, valRatio: real, cls: string, f: string)
    requires WellFormed(src) && IsShuffle(src, shuffle)
    requires 0.0 <= trainRatio && 0.0 <= valRatio
    requires cls in src.subdirs
    ensures var p := ClassParts(src, cls, shuffle, trainRatio, valRatio);
      && (f in p.train || f in p.val || f in p.test <==> f in src.subdirs[cls] && IsImageName(f))
      && !(f in p.train && f in p.val)
      && !(f in p.train && f in p.test)
      && !(f in p.val && f in p.test)
  {
    var images := ClassImages(src, cls);
    if images != [] {
      var shuffled := shuffle(cls, images);
      var c := SplitCounts(|shuffled|, trainRatio, valRatio);
      FilterContents(src.subdirs[cls], IsImageName);
      DistinctSubMultiset(src.subdirs[cls], images);
      DistinctSubMultiset(images, shuffled);
      assert f in shuffled <==> f in images by {
        assert f in shuffled <==> f in multiset(shuffled);
      }
      ThreeWayPartition(shuffled, c.train, c.val, f);
    }
  }

  /** With non-negative ratios, every image of every class folder is copied
      into exactly one split, and nothing else of the folder is copied. */
  lemma EachImageCopiedOnce(src: Folder, shuffle: Shuffler, trainRatio: real, valRatio: real, cls: string, f: string)
    requires WellFormed(src) && IsShuffle(src, shuffle)
    requires 0.0 <= trainRatio && 0.0 <= valRatio
    requires cls in src.subdirs
    ensures var m := SplitAll(src, ClassDirs(src), shuffle, trainRatio, valRatio);
      && ((exists s :: FilePath(Dest(s), cls, f) in m) <==> f in src.subdirs[cls] && IsImageName(f))
      && (forall s, s' :: FilePath(Dest(s), cls, f) in m && FilePath(Dest(s'), cls, f) in m ==> s == s')
  {
    var m := SplitAll(src, ClassDirs(src), shuffle, trainRatio, valRatio);
    var p := ClassParts(src, cls, shuffle, trainRatio, valRatio);
    assert cls in ClassDirs(src);
    forall s ensures FilePath(Dest(s), cls, f) in m <==> f in Part(p, s) {
      SplitAllCopies(src, ClassDirs(src), shuffle, trainRatio, valRatio, FilePath(Dest(s), cls, f));
    }
    ClassPartition(src, shuffle, trainRatio, valRatio, cls, f);
    OneSplitEach(m, cls, f, p, f in src.subdirs[cls] && IsImageName(f));
  }

  /** When the parts of a class hold `f` in at most one place, and exactly
      when `isImage`, its copies into the splits are as many. */
  lemma OneSplitEach(m: map<FilePath, FilePath>, cls: string, f: string, p: Parts, isImage: bool)
    requires forall s :: FilePath(Dest(s), cls, f) in m <==> f in Part(p, s)
    requires f in p.train || f in p.val || f in p.test <==> isImage
    requires !(f in p.train && f in p.val) && !(f in p.train && f in p.test) && !(f in p.val && f in p.test)
    ensures (exists s :: FilePath(Dest(s), cls, f) in m) <==> isImage
    ensures forall s, s' :: FilePath(Dest(s), cls, f) in m && FilePath(Dest(s'), cls, f) in m ==> s == s'
  {
    assert Part(p, Train) == p.train && Part(p, Val) == p.val && Part(p, Test) == p.test;
    if isImage {
      assert FilePath(Dest(Train), cls, f) in m || FilePath(Dest(Val), cls, f) in m || FilePath(Dest(Test), cls, f) in m;
    }
  }

  /** A class folder without images still gets its folder in each split,
      and nothing is copied for it. */
  lemma EmptyClassGetsOnlyFolders(src: Folder, shuffle: Shuffler, trainRatio: real, valRatio: real, cls: string, dst: FilePath)
    requires cls in src.entries && cls in src.subdirs && ClassImages(src, cls) == []
    ensures forall s :: ClassDir(s, cls) in DirsMade(src)
    ensures dst in SplitAll(src, ClassDirs(src), shuffle, trainRatio, valRatio) ==> dst.cls != cls
  {
    ClassFoldersMade(src, cls);
    SplitAllCopies(src, ClassDirs(src), shuffle, trainRatio, valRatio, dst);
    var p := ClassParts(src, cls, shuffle, trainRatio, valRatio);
    assert p.train == p.val == p.test == [];
    assert forall s :: Part(p, s) == [];
  }

  /** Every class folder of the raw dataset gets a folder in each split. */
  lemma ClassFoldersMade(src: Folder, cls: string)
    requires cls in src.entries && cls in src.subdirs
    ensures forall s :: ClassDir(s, cls) in DirsMade(src)
  {
    assert cls in ClassDirs(src);
    forall s ensures ClassDir(s, cls) in DirsMade(src) {
      assert s in AllSplits by { match s { case Train => case Val => case Test => } }
    }
  }

  /** A plain file at the top of the raw dataset is not a class: no folder
      is made for it and nothing is copied under its name. */
  lemma PlainFilesIgnored(src: Folder, shuffle: Shuffler, trainRatio: real, valRatio: real, name: string, dst: FilePath)
    requires name !in src.subdirs
    ensures forall s :: ClassDir(s, name) !in DirsMade(src)
    ensures dst in SplitAll(src, ClassDirs(src), shuffle, trainRatio, valRatio) ==> dst.cls != name
  {
    SplitAllCopies(src, ClassDirs(src), shuffle, trainRatio, valRatio, dst);
  }

  /** The sizes of the parts of a class with `n` images: they add up to `n`,
      and are exactly the truncated proportions and the remainder whenever
      those proportions fit. */
  lemma ClassPartSizes(src: Folder, shuffle: Shuffler, trainRatio: real, valRatio: real, cls: string)
    requires IsShuffle(src, shuffle) && 0.0 <= trainRatio && 0.0 <= valRatio
    requires cls in src.subdirs
    ensures var n := |ClassImages(src, cls)|;
      var p := ClassParts(src, cls, shuffle, trainRatio, valRatio);
      var c := SplitCounts(n, trainRatio, valRatio);
      && |p.train| + |p.val| + |p.test| == n
      && (c.train + c.val <= n ==>
            |p.train| == c.train && |p.val| == c.val && |p.test| == n - c.train - c.val)
  {
    var images := ClassImages(src, cls);
    if images != [] {
      var shuffled := shuffle(cls, images);
      assert |shuffled| == |multiset(shuffled)| == |images|;
      var c := SplitCounts(|shuffled|, trainRatio, valRatio);
      ThreeWaySizes(shuffled, c.train, c.val);
    }
  }

  /** With the default ratios a class of `n` images gives `int(0.7·n)`
      training and `int(0.15·n)` validation images, and the test part is
      non-empty whenever the class is. */
  lemma DefaultClassPartSizes(src: Folder, shuffle: Shuffler, cls: string)
    requires IsShuffle(src, shuffle) && cls in src.subdirs
    ensures var n := |ClassImages(src, cls)|;
      var p := ClassParts(src, cls, shuffle, DefaultTrainRatio, DefaultValRatio);
      && |p.train| == Trunc(n as real * 0.7)
      && |p.val| == Trunc(n as real * 0.15)
      && |p.test| == n - |p.train| - |p.val|
      && (0 < n ==> 0 < |p.test|)
  {
    var n := |ClassImages(src, cls)|;
    DefaultRatiosLeaveTest(n);
    ScaleIsProduct(n, DefaultTrainRatio);
    ScaleIsProduct(n, DefaultValRatio);
    ClassPartSizes(src, shuffle, DefaultTrainRatio, DefaultValRatio, cls);
  }

  // ---------------------------------------------------------------------------
  // The utility itself
  // ---------------------------------------------------------------------------

  /** The inner copy loop: copy `src/cls/f` to `split/cls/f` for each `f`. */
  method CopyFiles(disk: Disk, cls: string, files: seq<string>, split: Split) returns (out: Disk)
    ensures out.dirs == disk.dirs
    ensures out.files == disk.files + CopyMap(cls, files, split)
  {
    out := disk;
    for k := 0 to |files|
      invariant out.dirs == disk.dirs
      invariant out.files == disk.files + CopyMap(cls, files[..k], split)
    {
      var f := files[k];
      out := out.(files := out.files[FilePath(Dest(split), cls, f) := FilePath(Source, cls, f)]);
      assert files[..k + 1] == files[..k] + [f];
      CopyMapSnoc(cls, files[..k], f, split);
      UnionUpdate(disk.files, CopyMap(cls, files[..k], split), FilePath(Dest(split), cls, f), FilePath(Source, cls, f));
    }
    assert files[..|files|] == files;
  }

  /** One turn of the class loop: create the class folder in each split,
      then copy the shuffled images of the class into their parts. */
  method SplitClass(src: Folder, disk: Disk, className: string, shuffle: Shuffler, trainRatio: real, valRatio: real)
    returns (out: Disk)
    requires className in src.subdirs
    ensures out.dirs == disk.dirs + {ClassDir(Train, className), ClassDir(Val, className), ClassDir(Test, className)}
    ensures out.files == disk.files + ClassCopies(className, ClassParts(src, className, shuffle, trainRatio, valRatio))
  {
    out := EnsureDir(disk, ClassDir(Train, className));
    out := EnsureDir(out, ClassDir(Val, className));
    out := EnsureDir(out, ClassDir(Test, className));

    var imageFiles := ClassImages(src, className);
    if imageFiles == [] {
      assert ClassCopies(className, Parts([], [], [])) == map[] by {
        forall dst ensures dst !in ClassCopies(className, Parts([], [], [])) {
          ClassCopiesAt(className, Parts([], [], []), dst);
        }
      }
    } else {
      imageFiles := shuffle(className, imageFiles);
      var nFiles := |imageFiles|;
      var counts := SplitCounts(nFiles, trainRatio, valRatio);
      var parts := ThreeWay(imageFiles, counts.train, counts.val);
      ghost var before := out.files;
      out := CopyFiles(out, className, parts.train, Train);
      out := CopyFiles(out, className, parts.val, Val);
      out := CopyFiles(out, className, parts.test, Test);
      UnionAssoc(before, CopyMap(className, parts.train, Train), CopyMap(className, parts.val, Val));
      UnionAssoc(before, CopyMap(className, parts.train, Train) + CopyMap(className, parts.val, Val), CopyMap(className, parts.test, Test));
    }
  }

  lemma UnionAssoc<K, V>(a: map<K, V>, b: map<K, V>, c: map<K, V>)
    ensures a + b + c == a + (b + c)
  {
  }

  /** `split_dataset`: create the three split roots, then for every class
      folder of `src` create its folder in each split and copy its shuffled
      images into the three parts. */
  method SplitDataset(src: Folder, disk: Disk, shuffle: Shuffler, trainRatio: real, valRatio: real)
    returns (out: Disk)
    ensures out.dirs == disk.dirs + DirsMade(src)
    ensures out.files == disk.files + SplitAll(src, ClassDirs(src), shuffle, trainRatio, valRatio)
  {
    out := EnsureDir(disk, SplitDir(Train));
    out := EnsureDir(out, SplitDir(Val));
    out := EnsureDir(out, SplitDir(Test));
    RootsMade(disk);

    ghost var roots := out;
    var classDirs := ClassDirs(src);
    ClassDirSetEmpty();
    assert classDirs[..0] == [];
    for i := 0 to |classDirs|
      invariant out.dirs == roots.dirs + ClassDirSet(classDirs[..i])
      invariant out.files == roots.files + SplitAll(src, classDirs[..i], shuffle, trainRatio, valRatio)
    {
      var className := classDirs[i];
      out := SplitClass(src, out, className, shuffle, trainRatio, valRatio);
      SplitStep(src, classDirs, i, shuffle, trainRatio, valRatio);
      UnionAssoc(roots.files, SplitAll(src, classDirs[..i], shuffle, trainRatio, valRatio),
                 ClassCopies(className, ClassParts(src, className, shuffle, trainRatio, valRatio)));
    }
    assert classDirs[..|classDirs|] == classDirs;
  }

  lemma ClassDirSetEmpty()
    ensures ClassDirSet([]) == {}
  {
  }

  lemma RootsMade(disk: Disk)
    ensures EnsureDir(EnsureDir(EnsureDir(disk, SplitDir(Train)), SplitDir(Val)), SplitDir(Test)).dirs
         == disk.dirs + SplitRoots()
  {
    forall d | d in SplitRoots() ensures d == SplitDir(Train) || d == SplitDir(Val) || d == SplitDir(Test) {
      var s :| s in AllSplits && d == SplitDir(s);
    }
  }

  /** One more turn of the class loop adds that class's folders and copies. */
  lemma SplitStep(src: Folder, classes: seq<string>, i: nat, shuffle: Shuffler, trainRatio: real, valRatio: real)
    requires forall c :: c in classes ==> c in src.subdirs
    requires i < |classes|
    ensures ClassDirSet(classes[..i + 1])
         == ClassDirSet(classes[..i]) + {ClassDir(Train, classes[i]), ClassDir(Val, classes[i]), ClassDir(Test, classes[i])}
    ensures SplitAll(src, classes[..i + 1], shuffle, trainRatio, valRatio)
         == SplitAll(src, classes[..i], shuffle, trainRatio, valRatio)
            + ClassCopies(classes[i], ClassParts(src, classes[i], shuffle, trainRatio, valRatio))
  {
    assert classes[..i + 1] == classes[..i] + [classes[i]];
    assert classes[..i + 1][..i] == classes[..i];
    ClassDirSetSnoc(classes[..i], classes[i]);
  }

  lemma ClassDirSetSnoc(classes: seq<string>, c: string)
    ensures ClassDirSet(classes + [c]) == ClassDirSet(classes) + {ClassDir(Train, c), ClassDir(Val, c), ClassDir(Test, c)}
  {
    forall d | d in ClassDirSet(classes + [c]) ensures d in ClassDirSet(classes) + {ClassDir(Train, c), ClassDir(Val, c), ClassDir(Test, c)} {
      var s, e :| s in AllSplits && e in classes + [c] && d == ClassDir(s, e);
    }
  }
}
