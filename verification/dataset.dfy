/**
  The image index of the training script: the dataset object lists the
  entries of its root in sorted order as the classes, numbers them, and
  records every image found in a class folder together with the number of
  that class.
 */
module Dataset {
  import opened FileSystem

  /** `os.path.join(root_dir, class_name, img_name)` for an indexed image. */
  datatype ImagePath = ImagePath(cls: string, name: string)

  // ---------------------------------------------------------------------------
  // The class numbering
  // ---------------------------------------------------------------------------

  /** `{cls_name: i for i, cls_name in enumerate(classes)}`: later positions
      overwrite earlier ones, as in the dict comprehension. */
  function IndexMap(classes: seq<string>): (m: map<string, nat>)
    ensures forall c :: c in m <==> c in classes
    ensures forall c :: c in m ==> m[c] < |classes| && classes[m[c]] == c
  {
    if classes == [] then map[]
    else
      var init, last := classes[..|classes| - 1], classes[|classes| - 1];
      IndexMap(init)[last := |classes| - 1]
  }

  /** For a repetition-free class list the numbering is the position: class
      `classes[i]` gets `i`, so the map is a bijection from the classes onto
      `0..|classes|-1`. */
  lemma {:induction false} IndexMapIsPosition(classes: seq<string>)
    requires Distinct(classes)
    ensures forall i :: 0 <= i < |classes| ==> IndexMap(classes)[classes[i]] == i
    ensures forall c, d :: c in IndexMap(classes) && d in IndexMap(classes) && IndexMap(classes)[c] == IndexMap(classes)[d] ==> c == d
  {
    forall i | 0 <= i < |classes| ensures IndexMap(classes)[classes[i]] == i {
      var j := IndexMap(classes)[classes[i]];
      assert classes[j] == classes[i];
    }
  }

  // ---------------------------------------------------------------------------
  // The two parallel lists
  // ---------------------------------------------------------------------------

  /** The image names of one root entry, in listing order: none when the
      entry is not a directory. */
  function ImageNames(root: Folder, cls: string): (r: seq<string>)
    ensures forall f :: f in r <==> cls in root.subdirs && f in root.subdirs[cls] && IsImageName(f)
  {
    if cls in root.subdirs then
      FilterContents(root.subdirs[cls], IsImageName);
      Filter(root.subdirs[cls], IsImageName)
    else []
  }

  function Paths(cls: string, names: seq<string>): (r: seq<ImagePath>)
    ensures |r| == |names|
    ensures forall k :: 0 <= k < |r| ==> r[k] == ImagePath(cls, names[k])
  {
    seq(|names|, k requires 0 <= k < |names| => ImagePath(cls, names[k]))
  }

  /** `images` after the class loop has run over `classes`: every entry
      lies in one of those classes and names an image in it. */
  function ImagesOf(root: Folder, classes: seq<string>): (r: seq<ImagePath>)
    ensures forall k :: 0 <= k < |r| ==> r[k].cls in classes && IsImageName(r[k].name)
  {
    if classes == [] then []
    else
      var init, last := classes[..|classes| - 1], classes[|classes| - 1];
      var front, tail := ImagesOf(root, init), Paths(last, ImageNames(root, last));
      assert forall k :: 0 <= k < |tail| ==> tail[k].name in ImageNames(root, last);
      front + tail
  }

  /** `labels` after the class loop has run over `classes`, numbering the
      classes by `toIdx`: it is as long as `images` is. */
  function LabelsOf(root: Folder, classes: seq<string>, toIdx: map<string, nat>): (r: seq<nat>)
    requires forall c :: c in classes ==> c in toIdx
    ensures |r| == |ImagesOf(root, classes)|
  {
    if classes == [] then []
    else
      var init, last := classes[..|classes| - 1], classes[|classes| - 1];
      LabelsOf(root, init, toIdx) + seq(|ImageNames(root, last)|, _ => toIdx[last])
  }

  /** Every label is the number `toIdx` gives to the class folder its image
      was found in. */
  lemma {:induction false} LabelOfImage(root: Folder, classes: seq<string>, toIdx: map<string, nat>, k: nat)
    requires forall c :: c in classes ==> c in toIdx
    requires k < |ImagesOf(root, classes)|
    ensures ImagesOf(root, classes)[k].cls in classes
    ensures LabelsOf(root, classes, toIdx)[k] == toIdx[ImagesOf(root, classes)[k].cls]
  {
    var init, last := classes[..|classes| - 1], classes[|classes| - 1];
    assert forall c :: c in init ==> c in classes;
    if k < |ImagesOf(root, init)| {
      LabelOfImage(root, init, toIdx, k);
    }
  }

  /** An image is indexed exactly when its class is one of `classes`, that
      class is a directory, and the name is an image name listed in it. */
  lemma {:induction false} ImagesOfMembers(root: Folder, classes: seq<string>, p: ImagePath)
    ensures p in ImagesOf(root, classes)
        <==> p.cls in classes && p.cls in root.subdirs && p.name in root.subdirs[p.cls] && IsImageName(p.name)
  {
    if classes != [] {
      var init, last := classes[..|classes| - 1], classes[|classes| - 1];
      assert classes == init + [last];
      ImagesOfMembers(root, init, p);
      var tail := Paths(last, ImageNames(root, last));
      if p in tail {
        var k :| 0 <= k < |tail| && tail[k] == p;
        assert ImageNames(root, last)[k] in ImageNames(root, last);
      }
      if p.cls == last && last in root.subdirs && p.name in root.subdirs[last] && IsImageName(p.name) {
        var names := ImageNames(root, last);
        var k :| 0 <= k < |names| && names[k] == p.name;
        assert tail[k] == p;
      }
    }
  }

  /** When the classes are numbered by position, the labels never decrease
      (images are grouped by class in class order), and every label of the
      first `|classes|` classes is below `|classes|`. */
  lemma {:induction false} LabelsNonDecreasing(root: Folder, classes: seq<string>, toIdx: map<string, nat>)
    requires forall i :: 0 <= i < |classes| ==> classes[i] in toIdx && toIdx[classes[i]] == i
    ensures forall c :: c in classes ==> c in toIdx
    ensures forall k :: 0 <= k < |LabelsOf(root, classes, toIdx)| ==> LabelsOf(root, classes, toIdx)[k] < |classes|
    ensures forall a, b :: 0 <= a <= b < |LabelsOf(root, classes, toIdx)| ==> LabelsOf(root, classes, toIdx)[a] <= LabelsOf(root, classes, toIdx)[b]
  {
    if classes != [] {
      var init, last := classes[..|classes| - 1], classes[|classes| - 1];
      assert forall i :: 0 <= i < |init| ==> init[i] == classes[i];
      LabelsNonDecreasing(root, init, toIdx);
      var front := LabelsOf(root, init, toIdx);
      var labels := LabelsOf(root, classes, toIdx);
      var block := seq(|ImageNames(root, last)|, _ => toIdx[last]);
      assert labels == front + block;
      assert toIdx[last] == |init|;
      forall k | 0 <= k < |labels| ensures labels[k] <= |init| && (k < |front| ==> labels[k] < |init|) {
        if k < |front| {
          assert labels[k] == front[k];
        } else {
          assert labels[k] == block[k - |front|];
        }
      }
    }
  }

  /** In a well-formed root no image is indexed twice. */
  lemma {:induction false} ImagesDistinct(root: Folder, classes: seq<string>)
    requires WellFormed(root) && Distinct(classes)
    ensures Distinct(ImagesOf(root, classes))
  {
    if classes != [] {
      var init, last := classes[..|classes| - 1], classes[|classes| - 1];
      assert forall i :: 0 <= i < |init| ==> init[i] == classes[i];
      ImagesDistinct(root, init);
      var front, tail := ImagesOf(root, init), Paths(last, ImageNames(root, last));
      var names := ImageNames(root, last);
      assert Distinct(names) by {
        if last in root.subdirs {
          FilterContents(root.subdirs[last], IsImageName);
          DistinctSubMultiset(root.subdirs[last], names);
        }
      }
      forall a, b | 0 <= a < b < |front + tail| ensures (front + tail)[a] != (front + tail)[b] {
        if b >= |front| && a < |front| {
          ImagesOfMembers(root, init, front[a]);
          forall i | 0 <= i < |init| ensures init[i] != last {
            assert init[i] == classes[i];
          }
        } else if a >= |front| {
          assert tail[a - |front|] == ImagePath(last, names[a - |front|]);
        }
      }
    }
  }

  // ---------------------------------------------------------------------------
  // The dataset object
  // ---------------------------------------------------------------------------

  /** `NaturalImagesDataset` without its image transform. `root` stands for
      the directory tree under `root_dir`. */
  class NaturalImagesDataset {
    var root: Folder
    var classes: seq<string>
    var classToIdx: map<string, nat>
    var images: seq<ImagePath>
    var labels: seq<nat>

    /** The state `__init__` leaves behind, in terms of the root listing. */
    ghost predicate Valid()
      reads this
    {
      && classes == SortNames(root.entries)
      && classToIdx == IndexMap(classes)
      && images == ImagesOf(root, classes)
      && labels == LabelsOf(root, classes, classToIdx)
    }

    /** `__init__`: sort the root entries into the class list, number them,
        then walk every class that is a directory and append each image in
        it, with its class number, to `images` and `labels`. */
    constructor (rootDir: Folder)
      ensures root == rootDir
      ensures classes == SortNames(rootDir.entries)
      ensures classToIdx == IndexMap(classes)
      ensures images == ImagesOf(rootDir, classes)
      ensures labels == LabelsOf(rootDir, classes, classToIdx)
      ensures Valid()
    {
      var sortedEntries := SortNames(rootDir.entries);
      var toIdx := IndexMap(sortedEntries);
      var imageList: seq<ImagePath> := [];
      var labelList: seq<nat> := [];
      for i := 0 to |sortedEntries|
        invariant imageList == ImagesOf(rootDir, sortedEntries[..i])
        invariant labelList == LabelsOf(rootDir, sortedEntries[..i], toIdx)
      {
        var className := sortedEntries[i];
        ClassTurn(rootDir, sortedEntries, toIdx, i);
        if className in rootDir.subdirs {
          imageList, labelList := AppendImages(imageList, labelList, className, rootDir.subdirs[className], toIdx[className]);
        }
      }
      assert sortedEntries[..|sortedEntries|] == sortedEntries;
      root := rootDir;
      classes := sortedEntries;
      classToIdx := toIdx;
      images := imageList;
      labels := labelList;
    }

    /** `__len__`: the number of indexed images, which is also the number of
        labels. */
    function Length(): (n: nat)
      reads this
      requires Valid()
      ensures n == |images| && n == |labels|
    {
      |images|
    }
  }

  /** The inner loop of `__init__`: append every image name of the class
      folder listing `listing`, as a path, to `images`, and the class number
      to `labels` as often. */
  method AppendImages(images: seq<ImagePath>, labels: seq<nat>, cls: string, listing: seq<string>, number: nat)
    returns (images': seq<ImagePath>, labels': seq<nat>)
    ensures images' == images + Paths(cls, Filter(listing, IsImageName))
    ensures labels' == labels + seq(|Filter(listing, IsImageName)|, _ => number)
  {
    images', labels' := images, labels;
    ghost var kept: seq<string> := [];
    for j := 0 to |listing|
      invariant kept == Filter(listing[..j], IsImageName)
      invariant images' == images + Paths(cls, kept)
      invariant labels' == labels + seq(|kept|, _ => number)
    {
      var imgName := listing[j];
      FilterPrefixStep(listing, j, IsImageName);
      PathsSnoc(cls, kept, imgName);
      RepeatSnoc(|kept|, number);
      if IsImageName(imgName) {
        images' := images' + [ImagePath(cls, imgName)];
        labels' := labels' + [number];
        kept := kept + [imgName];
      }
    }
    assert listing[..|listing|] == listing;
  }

  /** One turn of the class loop appends the images of one class and as
      many copies of its number. */
  lemma ClassTurn(root: Folder, classes: seq<string>, toIdx: map<string, nat>, i: nat)
    requires i < |classes| && forall c :: c in classes ==> c in toIdx
    ensures forall c :: c in classes[..i + 1] ==> c in toIdx
    ensures ImagesOf(root, classes[..i + 1]) == ImagesOf(root, classes[..i]) + Paths(classes[i], ImageNames(root, classes[i]))
    ensures LabelsOf(root, classes[..i + 1], toIdx)
         == LabelsOf(root, classes[..i], toIdx) + seq(|ImageNames(root, classes[i])|, _ => toIdx[classes[i]])
    ensures classes[i] !in root.subdirs ==> ImageNames(root, classes[i]) == []
    ensures classes[i] in root.subdirs ==> ImageNames(root, classes[i]) == Filter(root.subdirs[classes[i]], IsImageName)
  {
    assert classes[..i + 1][..i] == classes[..i];
  }

  lemma PathsSnoc(cls: string, names: seq<string>, f: string)
    ensures Paths(cls, names + [f]) == Paths(cls, names) + [ImagePath(cls, f)]
  {
  }

  lemma RepeatSnoc(n: nat, number: nat)
    ensures seq(n + 1, _ => number) == seq(n, _ => number) + [number]
  {
  }

  /** The class list of a well-formed root is its entries, sorted and each
      once, and every class is numbered by its position; an entry that is a
      plain file is numbered too. */
  lemma ClassesOfRoot(root: Folder)
    requires WellFormed(root)
    ensures Sorted(SortNames(root.entries)) && Distinct(SortNames(root.entries))
    ensures forall c :: c in SortNames(root.entries) <==> c in root.entries
    ensures forall i :: 0 <= i < |SortNames(root.entries)| ==> IndexMap(SortNames(root.entries))[SortNames(root.entries)[i]] == i
    ensures forall c :: c in root.entries ==> c in IndexMap(SortNames(root.entries))
  {
    var classes := SortNames(root.entries);
    SortedListingDistinct(root.entries);
    assert forall c :: c in classes <==> c in root.entries by {
      assert forall c :: c in classes <==> c in multiset(classes);
    }
    IndexMapIsPosition(classes);
  }

  /** What the index promises for a well-formed root: every image carries
      the number of the class folder it was found in; the labels never
      decrease; exactly the image names inside directory entries are indexed,
      each once; and an entry that is a plain file has no image. */
  lemma ImagesOfRoot(root: Folder)
    requires WellFormed(root)
    ensures var classes := SortNames(root.entries);
      var images := ImagesOf(root, classes);
      var labels := LabelsOf(root, classes, IndexMap(classes));
      && |images| == |labels|
      && (forall k :: 0 <= k < |labels| ==> labels[k] < |classes| && classes[labels[k]] == images[k].cls)
      && (forall a, b :: 0 <= a <= b < |labels| ==> labels[a] <= labels[b])
      && (forall p :: p in images <==> p.cls in root.subdirs && p.name in root.subdirs[p.cls] && IsImageName(p.name))
      && Distinct(images)
  {
    var classes := SortNames(root.entries);
    var toIdx := IndexMap(classes);
    var images := ImagesOf(root, classes);
    var labels := LabelsOf(root, classes, toIdx);
    ClassesOfRoot(root);
    LabelsNonDecreasing(root, classes, toIdx);
    forall k | 0 <= k < |labels| ensures labels[k] < |classes| && classes[labels[k]] == images[k].cls {
      LabelOfImage(root, classes, toIdx, k);
    }
    forall p ensures p in images <==> p.cls in root.subdirs && p.name in root.subdirs[p.cls] && IsImageName(p.name) {
      ImagesOfMembers(root, classes, p);
    }
    ImagesDistinct(root, classes);
  }
}
