# Natural-images dataset bookkeeping, in Dafny

The repository trains an image classifier on the "natural images" dataset. It
has two scripts:

- `prepare_data.py` splits a raw dataset into three trees: training, validation and test. The raw dataset holds one folder per class.
- `main.py` indexes each tree and trains a network on it, keeping the checkpoint with the best validation accuracy.

Almost all of the work is done by library code: the network, the optimiser,
image decoding and plotting. This project models the bookkeeping around
those libraries and proves what it guarantees:

- **`FileSystem`** (`fs_listing.dfy`): a directory listing is a `Folder`. It holds the root entries in listing order and, for each entry that is a directory, that directory's listing. The module also has:
  - the list-comprehension filter;
  - the case-insensitive image-name test (`.jpg`, `.jpeg`, `.png`);
  - Python's code-point order on names, and `sorted`, written as an insertion sort and proved to produce the one sorted rearrangement.
- **`PrepareData`** (`prepare_data.dfy`): `split_dataset` and `create_directory`.
  - The destination side is a value `Disk`. It holds the directories that exist and, for each copied file, the path it was copied from.
  - `random.shuffle` is a parameter. It may return any rearrangement of the list it is given.
  - The ratios are exact reals, and `int()` truncates toward zero.
  - Slicing follows Python: negative bounds count from the end, and out-of-range bounds are clipped.
  - The loops are methods: `SplitDataset` runs over the class folders, `SplitClass` handles one class, and `CopyFiles` is the copy loop. Each method is proved against a specification function (`SplitAll`, `ClassParts`, `ThreeWay`).
  - Lemmas prove the partition facts about those functions.
- **`Dataset`** (`dataset.dfy`): `NaturalImagesDataset`, modelled as a class.
  - Its constructor sorts the root entries into `classes` and numbers them into `classToIdx`.
  - It then walks every class that is a directory, appending image paths to `images` and class numbers to `labels`.
  - `Length` is `__len__`.
  - Lemmas about `ImagesOf`, `LabelsOf` and `IndexMap` state what the index means.
- **`Training`** (`training.dfy`): the `correct`/`total` counters of `train_epoch` and `validate`, and the accuracy computed from them.
  - An empty loader ends in `ZeroDivisionError`, as in Python.
  - The `best_val_acc` tracker of the epoch loop records the epochs at which a checkpoint is written. The script runs `num_epochs = 10` epochs; the model takes any number.
  - Predictions are inputs: each batch is a list of (predicted class, true label) pairs.

## Model

| member | source | states |
|---|---|---|
| `FileSystem.Filter` | prepare_data.py:57-58 | a filtered list is never longer than the list it filters |
| `FileSystem.FilterContents` | prepare_data.py:44-45 | the comprehension keeps every occurrence of each element that passes the test, and drops all the others |
| `FileSystem.LowerChar` | main.py:46 | `str.lower` on one character: each ASCII capital becomes its own small letter (32 code points on), every other character is unchanged |
| `FileSystem.Lower` | prepare_data.py:58 | `str.lower` keeps the length, leaves no ASCII capital, replaces each capital by its own small letter, and leaves every other character alone |
| `FileSystem.IsImageName` | prepare_data.py:58 | a name that passes the image test has at least four characters and a dot four or five characters from its end, and ends in `g` or `G` |
| `FileSystem.ImageNameIgnoresCase` | prepare_data.py:58 | lowering is idempotent, and the image test gives the same answer for a name and its lower-cased form |
| `FileSystem.ImageExtensionsAccepted` | prepare_data.py:58 | for every stem, `.jpg`/`.JPG`/`.jpeg`/`.JPEG`/`.png`/`.Png` names are images |
| `FileSystem.OtherExtensionsRejected` | prepare_data.py:58 | for every stem, `.jpg.txt`, `.gif` and `.JPG_` names are not images |
| `FileSystem.NameLe` | main.py:34 | Python's string order: a prefix comes first, and a string never precedes its proper prefix |
| `FileSystem.NameLeFirstDifference` | main.py:34 | two names that agree up to a position and differ there are ordered by the code points at that position |
| `FileSystem.SortedByCodePoint` | main.py:34 | `sorted(["airplane", "Cat"])` is `["Cat", "airplane"]`: capitals come before small letters |
| `FileSystem.Insert` | main.py:34 | inserting a name into a sorted list keeps it sorted and adds exactly that name |
| `FileSystem.SortNames` | main.py:34 | the sorted class list is in code-point order and is a rearrangement of the entries |
| `FileSystem.SortedUnique` | main.py:34 | two sorted rearrangements of the same names are equal, so any correct sort gives the same class list |
| `FileSystem.SortedListingDistinct` | main.py:34 | sorting a listing without repetitions gives a list without repetitions |
| `FileSystem.DistinctSubMultiset` | prepare_data.py:57-66 | filtering or shuffling a listing without repetitions never introduces a repeated name |
| `PrepareData.EnsureDir` | prepare_data.py:7-14 | afterwards the directory exists, no other directory changes, and no file changes |
| `PrepareData.EnsureDirIdempotent` | prepare_data.py:14 | creating an existing directory (`exist_ok=True`) changes nothing, and doing it twice is the same as once |
| `PrepareData.ClassDirs` | prepare_data.py:44-45 | the classes are exactly the root entries that are directories |
| `PrepareData.ClassImages` | prepare_data.py:57-58 | a class's image list is exactly the listed names that pass the image test |
| `PrepareData.Trunc` | prepare_data.py:70-71 | `int()` on a real: the integer part, rounded toward zero on both signs |
| `PrepareData.ScaleIsProduct` | prepare_data.py:70-71 | the recursive product used for the counts equals `n_files * ratio` |
| `PrepareData.Scale` | prepare_data.py:70-71 | `n_files * ratio` has the sign of the ratio, and is at most `n_files` for a ratio of at most 1 |
| `PrepareData.SplitCounts` | prepare_data.py:69-71 | a ratio in [0, 1] gives `n_train` (`n_val`) in `0..n_files`, and a ratio of at most 0 a count of at most 0 |
| `PrepareData.SliceBound` | prepare_data.py:74-76 | a slice bound lands in `0..len`; a non-negative bound is clipped to the length |
| `PrepareData.Slice` | prepare_data.py:74-76 | Python's `s[lo:hi]`: within bounds it is `s[lo..hi]`, an empty range gives nothing, and any result is no longer than `s` and drawn from it |
| `PrepareData.ThreeWay` | prepare_data.py:74-76 | for non-negative counts, train + val + test is exactly the shuffled list |
| `PrepareData.ThreeWaySizes` | prepare_data.py:74-76 | the part sizes add up to `n_files`; when `n_train + n_val <= n_files` they are `n_train`, `n_val` and the remainder |
| `PrepareData.PartsWithin` | prepare_data.py:74-76 | every part is drawn from the list, whatever the counts |
| `PrepareData.ThreeWayPartition` | prepare_data.py:74-76 | for a list without repetitions and non-negative counts, each element lies in exactly one part, and only elements of the list do |
| `PrepareData.NegativeCountOverlaps` | prepare_data.py:74-76 | a negative count, read as an index from the end, can make the train and test parts overlap: the counts -1 and 1 put the first of two names in both |
| `PrepareData.NegativeCountMayPartition` | prepare_data.py:69-76 | a negative count does not always break the partition (the counts -1 and 0 still split two names), and a negative ratio can truncate to 0 |
| `PrepareData.DefaultRatiosLeaveTest` | prepare_data.py:69-76 | with 0.7 and 0.15, `n_train + n_val <= n`, and it is strictly less when `n > 0` |
| `PrepareData.IsShuffle` | prepare_data.py:66 | `random.shuffle` rearranges each class's image list, so in particular keeps its length |
| `PrepareData.ClassParts` | prepare_data.py:57-76 | a class without images gets three empty parts; otherwise, for non-negative ratios, the parts in order are its shuffled image list |
| `PrepareData.CopyMap` | prepare_data.py:84-87 | every file of a part is copied into `dest_dir/class_name`, and every copy there comes from the same name in `class_dir` |
| `PrepareData.ClassCopies` | prepare_data.py:78-87 | every copy made for a class lies in a folder of that class, in the split whose part holds the name, and comes from the same name in the class folder |
| `PrepareData.SplitAll` | prepare_data.py:48-87 | every copy made for the processed classes lies in a folder of one of them and comes from the same class and name in the source |
| `PrepareData.CopyMapAt` | prepare_data.py:84-87 | a file is copied to `dest_dir/class_name/f` exactly for the listed `f`, and always from `class_dir/f` |
| `PrepareData.SplitAllCopies` | prepare_data.py:48-87 | a destination file exists exactly when its class was processed and its name fell in that split's part; its source has the same class and name |
| `PrepareData.OnlyImagesCopied` | prepare_data.py:57-87 | every copied file is an image listed in a class folder, copied into a folder of the same class under the same name |
| `PrepareData.PartHoldsImages` | prepare_data.py:57-76 | whatever the ratios, a part of a class holds only images listed in that class folder |
| `PrepareData.ClassFoldersMade` | prepare_data.py:48-53 | every class folder of the raw dataset gets a folder in each of the three splits |
| `PrepareData.ClassPartition` | prepare_data.py:57-76 | with non-negative ratios, a class's three parts hold each of its images exactly once, and nothing else |
| `PrepareData.EachImageCopiedOnce` | prepare_data.py:74-87 | with non-negative ratios, an entry of a class folder reaches some split exactly when it is an image, and it reaches only one split |
| `PrepareData.EmptyClassGetsOnlyFolders` | prepare_data.py:52-63 | a class with no images still gets its folder in all three splits, and nothing is copied for it |
| `PrepareData.PlainFilesIgnored` | prepare_data.py:44-53 | a plain file at the top of the raw dataset gets no folder, and nothing is copied under its name |
| `PrepareData.ClassPartSizes` | prepare_data.py:69-76 | with non-negative ratios, the part sizes sum to the class's image count, and equal the truncated proportions and the rest when those fit |
| `PrepareData.DefaultClassPartSizes` | prepare_data.py:16-76 | with the default ratios, train gets `int(0.7n)`, val gets `int(0.15n)`, and test gets the non-empty remainder of a non-empty class |
| `PrepareData.CopyFiles` | prepare_data.py:84-87 | the copy loop adds exactly the copies of its files to the disk and creates no directory |
| `PrepareData.SplitClass` | prepare_data.py:48-87 | one class turn creates the class folder in each split and adds exactly the copies of its three parts |
| `PrepareData.SplitDataset` | prepare_data.py:16-90 | `split_dataset` creates exactly the split roots and one folder per class in each split, and adds exactly the copies `SplitAll` describes |
| `Dataset.IndexMap` | main.py:36 | the map's keys are the classes, and each class maps to a position that holds it |
| `Dataset.IndexMapIsPosition` | main.py:34-36 | for distinct classes, `class_to_idx[classes[i]] == i`, and the map is one-to-one |
| `Dataset.ImageNames` | main.py:42-46 | a class yields exactly the image names listed in it when it is a directory, and nothing otherwise |
| `Dataset.ImagesOf` | main.py:41-47 | every indexed path lies in one of the walked classes and names an image |
| `Dataset.LabelsOf` | main.py:37-48 | `labels` is exactly as long as `images` |
| `Dataset.LabelOfImage` | main.py:41-48 | the k-th label is the number of the class folder the k-th image was found in |
| `Dataset.ImagesOfMembers` | main.py:41-47 | an image is indexed exactly when its class is listed, is a directory, and lists the name as an image |
| `Dataset.LabelsNonDecreasing` | main.py:41-48 | when classes are numbered by position, every label is in range and the labels never decrease |
| `Dataset.ImagesDistinct` | main.py:41-47 | in a well-formed tree no image is indexed twice |
| `Dataset.AppendImages` | main.py:45-48 | the inner loop appends the class's image paths and as many copies of its number |
| `Dataset.NaturalImagesDataset.constructor` | main.py:24-48 | `__init__` leaves the sorted entries, their numbering, and the image and label lists the specification functions give |
| `Dataset.NaturalImagesDataset.Length` | main.py:50-52 | `__len__` is the number of images, which is also the number of labels |
| `Dataset.ClassesOfRoot` | main.py:34-36 | the classes are the root entries, sorted and each listed once, each numbered by its position; plain files are numbered too |
| `Dataset.ImagesOfRoot` | main.py:34-48 | equal lengths, labels in range and matching the image's folder, non-decreasing labels, exactly the images of directory entries, each once |
| `Training.Hits` | main.py:136 | a batch's hits never exceed its size |
| `Training.HitsAll` | main.py:136 | a batch's hits equal its size exactly when every prediction in it equals its label |
| `Training.CorrectAll` | main.py:134-136 | `correct == total` exactly when every prediction of every batch equals its label |
| `Training.Total` | main.py:135 | `total` counts every batch: no batch is larger than it |
| `Training.Correct` | main.py:136 | `correct` never exceeds `total` |
| `Training.TotalZero` | main.py:135 | `total` is 0 exactly when every batch is empty, including when there is no batch |
| `Training.CountsAdd` | main.py:134-136 | the counters are additive over consecutive batch sequences |
| `Training.Tally` | main.py:113-136 | the counter loop ends with the sum of the hits and the sum of the batch sizes, with `correct <= total` |
| `Training.Percent` | main.py:144 | division by a zero `total` raises; otherwise the accuracy is in [0, 100] when `correct <= total`, and is 100 exactly when all are correct |
| `Training.PercentOfWhole` | main.py:176 | `100 * correct / total` is non-negative, at most 100 when `correct <= total`, and 100 only when `correct == total` |
| `Training.PassOutcome` | main.py:143-144 | a pass fails with a division by zero exactly when it saw no sample |
| `Training.PassAccuracyInRange` | main.py:175-176 | a reported accuracy lies in [0, 100], and is 100 exactly when `correct == total`, that is, exactly when every prediction equals its label |
| `Training.Pass` | main.py:134-144 | the counting loop and the division shared by both passes: an error exactly when no sample was seen, otherwise a percentage in [0, 100] |
| `Training.TrainEpoch` | main.py:113-145 | `train_epoch`'s accuracy is the pass outcome: an error for an empty loader, otherwise a percentage in [0, 100] |
| `Training.Validate` | main.py:160-177 | `validate`'s accuracy is the pass outcome: an error for an empty loader, otherwise a percentage in [0, 100] |
| `Training.BestAfter` | main.py:329-330 | `best_val_acc` is never negative and is at least every validation accuracy seen so far |
| `Training.SavedEpochs` | main.py:329-333 | at most one checkpoint per epoch, at increasing epochs, each an epoch that was run |
| `Training.TrackBest` | main.py:302-333 | the epoch loop ends with `best_val_acc` as `BestAfter` gives it and with a checkpoint at exactly the epochs `SavedEpochs` gives |
| `Training.BestIsMaximum` | main.py:329-330 | `best_val_acc` is the maximum of 0 and every validation accuracy so far |
| `Training.BestMonotone` | main.py:302-330 | `best_val_acc` never decreases from one epoch to a later one |
| `Training.SavedIff` | main.py:329-333 | a checkpoint is written at epoch `e` exactly when its accuracy strictly exceeds the best of the earlier epochs |
| `Training.CheckpointIsBest` | main.py:329-333 | checkpoint epochs increase, the last one has the final best accuracy, and with no checkpoint no accuracy exceeded 0 |

## Left out

- Directory listing order is an input: the `entries` of a `Folder` and each class listing are taken as the operating system returns them.
- Names are sequences of Dafny `char`, which cannot hold a lone surrogate. On Linux `os.listdir` returns an undecodable file name as a string with lone surrogates (the `surrogateescape` error handler); such names, and their place in `sorted` order, are not modelled.
- `random.shuffle` and the seed `random.seed(42)`: the shuffle is any function that rearranges each class's image list. The exact order a seed produces is not modelled.
- Floating point: `n_files * ratio` and `100. * correct / total` are exact reals. A Python float product can land just below or just above a whole number, so `int()` may differ by one from the exact truncation the model computes.
- `str.lower` is modelled for ASCII letters only. Non-ASCII characters pass through unchanged, which cannot change whether a name ends in one of the three ASCII extensions.
- `PrepareData.ClassPartition`, `PrepareData.EachImageCopiedOnce`, `Dataset.ImagesDistinct`, `Dataset.ClassesOfRoot` and `Dataset.ImagesOfRoot` require a well-formed listing, with no name twice in a directory. A real file system guarantees this; the code itself does not check it.
- `PrepareData.ClassPartition`, `PrepareData.EachImageCopiedOnce` and `PrepareData.ClassPartSizes` require non-negative ratios. The code accepts any ratio. A negative one can give overlapping parts (`PrepareData.NegativeCountOverlaps`), though not always (`PrepareData.NegativeCountMayPartition`).
- `PrepareData.ThreeWay`, `PrepareData.ThreeWaySizes` and `PrepareData.ThreeWayPartition` are stated for non-negative counts for the same reason.
- A failing `os.listdir` is not modelled. A missing or unreadable root raises `FileNotFoundError` in `NaturalImagesDataset.__init__` (main.py:34). In `split_dataset` it raises at prepare_data.py:44, after the split roots were already created at lines 40-41. In the model every `Folder` exists, so `SplitDataset` and the constructor always complete.
- `Split` and `Location` make the three destinations three distinct trees, disjoint from the raw dataset. `split_dataset` itself accepts any four paths: a `train_dir` inside `source_dir`, for example, would be listed as one more class. The only caller passes three distinct sibling directories of the raw dataset (prepare_data.py:102-105, 116).
- The `main` of `prepare_data.py` is not modelled: the fixed paths, the check that the source directory exists, and the messages. Neither are the progress and summary `print` calls.
- File-system effects beyond the abstract `Disk` are not modelled:
  - `mkdir` with `parents=True` is a set insertion, and its failures are not modelled;
  - `shutil.copy2` is a map entry from destination to source, without metadata or failures;
  - `os.path.isdir` is membership in `subdirs`, so symbolic links and an entry that vanishes between calls are not modelled.
- `torch.save` is recorded as the epoch index in `saved`. The saved weights and the timestamped output directory are not modelled.
- `NaturalImagesDataset.__getitem__`, PIL image loading and the transforms are not modelled. `root_dir` and `transform` are not stored; the class keeps the modelled `Folder` instead.
- The network, the forward and backward passes, `CrossEntropyLoss`, the Adam optimiser and `outputs.max(1)` are not modelled: predictions are given as integers. The averaged losses are not modelled either, except that an empty loader already fails when the loss is divided by `len(loader)`.
- Plotting, the confusion matrix, the classification report and the test-set evaluation loop are not modelled.
