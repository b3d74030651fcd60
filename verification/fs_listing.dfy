/**
  The part of the file system both scripts look at: a root directory listed by
  `os.listdir`, whose entries are either class folders (themselves listed) or
  plain files; the case-insensitive image-extension test; and the ordering
  Python uses when it sorts a list of names.
 */
module FileSystem {

  /** A directory as `os.listdir` shows it. `entries` is the listing of the
      root in the order the operating system returns it; `subdirs` maps every
      entry that is a directory to the listing of that directory. An entry
      that is not a key of `subdirs` is a plain file. */
  datatype Folder = Folder(entries: seq<string>, subdirs: map<string, seq<string>>)

  /** No element occurs twice. */
  predicate Distinct<T(==)>(s: seq<T>) {
    forall i, j :: 0 <= i < j < |s| ==> s[i] != s[j]
  }

  /** What a real directory listing guarantees: a name occurs at most once
      in a directory, and every sub-directory is an entry of the root. */
  predicate WellFormed(root: Folder) {
    && Distinct(root.entries)
    && forall d :: d in root.subdirs ==> d in root.entries && Distinct(root.subdirs[d])
  }

  /** The elements of `s` that satisfy `keep`: the shape of a Python list
      comprehension with an `if` clause. The definition appends the elements
      in the order of `s` (`FilterSnoc`); the contracts below speak only of
      how many of each element are kept. */
  function Filter<T(==,!new)>(s: seq<T>, keep: T -> bool): (r: seq<T>)
    ensures |r| <= |s|
  {
    if s == [] then []
    else
      var init, last := s[..|s| - 1], s[|s| - 1];
      Filter(init, keep) + (if keep(last) then [last] else [])
  }

  /** `Filter` keeps every occurrence of the elements it keeps and nothing
      else. */
  lemma {:induction false} FilterContents<T(!new)>(s: seq<T>, keep: T -> bool)
    ensures forall x :: multiset(Filter(s, keep))[x] == if keep(x) then multiset(s)[x] else 0
    ensures forall x :: x in Filter(s, keep) <==> x in s && keep(x)
  {
    if s != [] {
      var init, last := s[..|s| - 1], s[|s| - 1];
      assert s == init + [last];
      FilterContents(init, keep);
      forall x ensures x in Filter(s, keep) <==> x in multiset(Filter(s, keep)) {
      }
      forall x ensures x in s <==> x in multiset(s) {
      }
    }
  }

  /** Filtering a list with one more element at the end. */
  lemma FilterSnoc<T(!new)>(s: seq<T>, x: T, keep: T -> bool)
    ensures Filter(s + [x], keep) == Filter(s, keep) + (if keep(x) then [x] else [])
  {
    assert (s + [x])[..|s|] == s;
  }

  /** Filtering one element more of a list. */
  lemma FilterPrefixStep<T(!new)>(s: seq<T>, j: nat, keep: T -> bool)
    requires j < |s|
    ensures Filter(s[..j + 1], keep) == Filter(s[..j], keep) + (if keep(s[j]) then [s[j]] else [])
  {
    assert s[..j + 1] == s[..j] + [s[j]];
    FilterSnoc(s[..j], s[j], keep);
  }

  /** A sequence is free of repetitions exactly when no element occurs in it
      more than once as a multiset. */
  lemma {:induction false} DistinctIffSingle<T>(s: seq<T>)
    ensures Distinct(s) <==> forall x :: multiset(s)[x] <= 1
  {
    if s != [] {
      var p, y := s[..|s| - 1], s[|s| - 1];
      assert s == p + [y];
      DistinctIffSingle(p);
      if Distinct(s) {
        assert Distinct(p) by {
          forall i, j | 0 <= i < j < |p| ensures p[i] != p[j] {
            assert p[i] == s[i] && p[j] == s[j];
          }
        }
        forall i | 0 <= i < |p| ensures p[i] != y {
          assert p[i] == s[i] && y == s[|p|];
        }
      }
      if forall x :: multiset(s)[x] <= 1 {
        assert forall x :: multiset(p)[x] <= multiset(s)[x];
        assert multiset(p)[y] == 0;
        forall i, j | 0 <= i < j < |s| ensures s[i] != s[j] {
          if j < |p| {
            assert s[i] == p[i] && s[j] == p[j];
          } else {
            assert s[i] == p[i] && p[i] in p;
          }
        }
      }
    }
  }

  /** A sequence holding each element at most as often as a repetition-free
      one is itself repetition-free: so filtering, shuffling and sorting a
      directory listing never introduce a duplicate name. */
  lemma DistinctSubMultiset<T>(s: seq<T>, r: seq<T>)
    requires Distinct(s)
    requires forall x :: multiset(r)[x] <= multiset(s)[x]
    ensures Distinct(r)
  {
    DistinctIffSingle(s);
    DistinctIffSingle(r);
  }

  // ---------------------------------------------------------------------------
  // Python's `str.lower` and `str.endswith`, and the image-name test
  // ---------------------------------------------------------------------------

  /** `str.lower` on one character, for the ASCII letters: each capital
      becomes its own small letter (32 code points further on), and every
      other character is left alone. */
  function LowerChar(c: char): (r: char)
    ensures !('A' <= r <= 'Z')
    ensures ('a' <= r <= 'z') <==> ('a' <= c <= 'z' || 'A' <= c <= 'Z')
    ensures 'A' <= c <= 'Z' ==> r as int == c as int + 32
    ensures !('A' <= c <= 'Z') ==> r == c
  {
    if 'A' <= c <= 'Z' then (c as int - 'A' as int + 'a' as int) as char else c
  }

  /** `str.lower`: same length, no capital left, every capital replaced by
      its own small letter, and every other character unchanged. */
  function Lower(s: string): (r: string)
    ensures |r| == |s|
    ensures forall i :: 0 <= i < |r| ==> !('A' <= r[i] <= 'Z')
    ensures forall i :: 0 <= i < |s| && !('A' <= s[i] <= 'Z') ==> r[i] == s[i]
    ensures forall i :: 0 <= i < |s| && 'A' <= s[i] <= 'Z' ==> r[i] as int == s[i] as int + 32
  {
    seq(|s|, i requires 0 <= i < |s| => LowerChar(s[i]))
  }

  /** `s.endswith(suffix)`. */
  predicate EndsWith(s: string, suffix: string) {
    |suffix| <= |s| && s[|s| - |suffix|..] == suffix
  }

  /** `name.lower().endswith(('.jpg', '.jpeg', '.png'))`: the test both
      scripts use to decide whether a directory entry is an image. */
  predicate IsImageName(name: string): (b: bool)
    ensures b ==> 4 <= |name| && (name[|name| - 4] == '.' || (5 <= |name| && name[|name| - 5] == '.'))
    ensures b ==> name[|name| - 1] == 'g' || name[|name| - 1] == 'G'
  {
    var l := Lower(name);
    DotKept(name, 4);
    DotKept(name, 5);
    LastKept(name);
    EndsWith(l, ".jpg") || EndsWith(l, ".jpeg") || EndsWith(l, ".png")
  }

  /** A dot `k` characters from the end of the lower-cased name is a dot in
      the name itself. */
  lemma DotKept(name: string, k: nat)
    ensures 0 < k <= |name| && Lower(name)[|name| - k] == '.' ==> name[|name| - k] == '.'
  {
  }

  /** All three extensions end in `g`, which only `g` and `G` lower to. */
  lemma LastKept(name: string)
    ensures 0 < |name| && Lower(name)[|name| - 1] == 'g' ==> name[|name| - 1] == 'g' || name[|name| - 1] == 'G'
  {
  }

  lemma LowerAppend(a: string, b: string)
    ensures Lower(a + b) == Lower(a) + Lower(b)
  {
    assert forall i :: 0 <= i < |a + b| ==> Lower(a + b)[i] == (Lower(a) + Lower(b))[i];
  }

  /** Lowering is idempotent, so the image test gives the same answer for a
      name and for its lower-cased form: the test ignores case. */
  lemma ImageNameIgnoresCase(name: string)
    ensures Lower(Lower(name)) == Lower(name)
    ensures IsImageName(Lower(name)) == IsImageName(name)
  {
    assert forall i :: 0 <= i < |name| ==> Lower(Lower(name))[i] == Lower(name)[i];
  }

  /** Whatever the stem, a name whose extension is one of the three image
      extensions, in any mix of upper and lower case, is an image. */
  lemma {:induction false} ImageExtensionsAccepted(stem: string)
    ensures IsImageName(stem + ".jpg") && IsImageName(stem + ".JPG")
    ensures IsImageName(stem + ".jpeg") && IsImageName(stem + ".JPEG")
    ensures IsImageName(stem + ".png") && IsImageName(stem + ".Png")
  {
    BothCasesAccepted(stem, ".jpg", ".JPG");
    BothCasesAccepted(stem, ".jpeg", ".JPEG");
    BothCasesAccepted(stem, ".png", ".Png");
  }

  lemma BothCasesAccepted(stem: string, lower: string, mixed: string)
    requires (lower, mixed) in {(".jpg", ".JPG"), (".jpeg", ".JPEG"), (".png", ".Png")}
    ensures IsImageName(stem + lower) && IsImageName(stem + mixed)
  {
    if lower == ".jpg" {
      assert Lower(lower) == Lower(mixed) == lower;
    } else if lower == ".jpeg" {
      assert Lower(lower) == Lower(mixed) == lower;
    } else {
      assert Lower(lower) == Lower(mixed) == lower;
    }
    ExtensionAccepted(stem, lower);
    ExtensionAccepted(stem, mixed);
  }

  lemma ExtensionAccepted(stem: string, ext: string)
    requires Lower(ext) == ".jpg" || Lower(ext) == ".jpeg" || Lower(ext) == ".png"
    ensures IsImageName(stem + ext)
  {
    LowerEndsWith(stem, ext);
  }

  lemma LowerEndsWith(stem: string, ext: string)
    ensures EndsWith(Lower(stem + ext), Lower(ext))
  {
    LowerAppend(stem, ext);
    var l := Lower(stem) + Lower(ext);
    assert l[|l| - |ext|..] == Lower(ext);
  }

  /** Whatever the stem, a name that merely contains an image extension
      before another extension, or has some other extension, is not an
      image. */
  lemma OtherExtensionsRejected(stem: string)
    ensures !IsImageName(stem + ".jpg.txt")
    ensures !IsImageName(stem + ".gif")
    ensures !IsImageName(stem + ".JPG_")
  {
    var a, b, c := stem + ".jpg.txt", stem + ".gif", stem + ".JPG_";
    assert a[|a| - 1] == 't' && b[|b| - 1] == 'f' && c[|c| - 1] == '_';
  }

  // ---------------------------------------------------------------------------
  // Python's `sorted` on a list of names
  // ---------------------------------------------------------------------------

  /** Python's order on strings: lexicographic on code points, with a proper
      prefix before any longer string. */
  predicate NameLe(a: string, b: string): (r: bool)
    ensures a <= b ==> r
    ensures b < a ==> !r
  {
    a == [] || (b != [] && (a[0] < b[0] || (a[0] == b[0] && NameLe(a[1..], b[1..]))))
  }

  lemma {:induction false} NameLeReflexive(a: string)
    ensures NameLe(a, a)
  {
    if a != [] {
      NameLeReflexive(a[1..]);
    }
  }

  lemma {:induction false} NameLeTotal(a: string, b: string)
    ensures NameLe(a, b) || NameLe(b, a)
  {
    if a != [] && b != [] && a[0] == b[0] {
      NameLeTotal(a[1..], b[1..]);
    }
  }

  lemma {:induction false} NameLeAntisymmetric(a: string, b: string)
    requires NameLe(a, b) && NameLe(b, a)
    ensures a == b
  {
    if a != [] {
      NameLeAntisymmetric(a[1..], b[1..]);
      assert a == [a[0]] + a[1..] && b == [b[0]] + b[1..];
    }
  }

  lemma {:induction false} NameLeTransitive(a: string, b: string, c: string)
    requires NameLe(a, b) && NameLe(b, c)
    ensures NameLe(a, c)
  {
    if a != [] && a[0] == b[0] && b[0] == c[0] {
      NameLeTransitive(a[1..], b[1..], c[1..]);
    }
  }

  /** Two names that agree up to position `k` and differ there are ordered
      by the code points at `k`, whatever follows. */
  lemma {:induction false} NameLeFirstDifference(a: string, b: string, k: nat)
    requires k < |a| && k < |b| && a[..k] == b[..k] && a[k] != b[k]
    ensures NameLe(a, b) <==> a[k] < b[k]
  {
    if k > 0 {
      assert a[0] == a[..k][0] == b[..k][0] == b[0];
      assert a[1..][..k - 1] == a[..k][1..] == b[..k][1..] == b[1..][..k - 1];
      NameLeFirstDifference(a[1..], b[1..], k - 1);
    }
  }

  /** The class list of a two-class dataset is ordered as Python orders it:
      capitals (code points 65-90) before small letters. */
  lemma SortedByCodePoint()
    ensures SortNames(["airplane", "Cat"]) == ["Cat", "airplane"]
  {
    NameLeFirstDifference("airplane", "Cat", 0);
    NameLeFirstDifference("Cat", "airplane", 0);
    NameLeReflexive("airplane");
  }

  predicate Sorted(s: seq<string>) {
    forall i, j :: 0 <= i < j < |s| ==> NameLe(s[i], s[j])
  }

  /** Inserts `x` into a sorted list in front of the first element it does
      not exceed. */
  function Insert(x: string, s: seq<string>): (r: seq<string>)
    requires Sorted(s)
    ensures Sorted(r)
    ensures multiset(r) == multiset(s) + multiset{x}
  {
    if s == [] then [x]
    else if NameLe(x, s[0]) then
      InsertFrontSorted(x, s);
      [x] + s
    else
      NameLeTotal(x, s[0]);
      var rest := Insert(x, s[1..]);
      assert s == [s[0]] + s[1..];
      InsertBehindSorted(s[0], rest, s[1..], x);
      [s[0]] + rest
  }

  lemma InsertFrontSorted(x: string, s: seq<string>)
    requires Sorted(s) && s != [] && NameLe(x, s[0])
    ensures Sorted([x] + s)
  {
    forall j | 0 < j < |s| + 1 ensures NameLe(([x] + s)[0], ([x] + s)[j]) {
      if j > 1 { NameLeTransitive(x, s[0], s[j - 1]); }
    }
  }

  lemma InsertBehindSorted(h: string, rest: seq<string>, tail: seq<string>, x: string)
    requires Sorted(rest) && multiset(rest) == multiset(tail) + multiset{x}
    requires NameLe(h, x) && forall y :: y in tail ==> NameLe(h, y)
    ensures Sorted([h] + rest)
  {
    forall j | 0 <= j < |rest| ensures NameLe(h, rest[j]) {
      assert rest[j] in multiset(rest);
    }
  }

  /** Python's `sorted` on a list of names: a sorted rearrangement. */
  function SortNames(s: seq<string>): (r: seq<string>)
    ensures Sorted(r)
    ensures multiset(r) == multiset(s)
  {
    if s == [] then []
    else
      assert s == [s[0]] + s[1..];
      Insert(s[0], SortNames(s[1..]))
  }

  /** The sorted rearrangement of a list is unique, so any correct sorting
      algorithm, Python's included, yields the list `SortNames` yields. */
  lemma {:induction false} SortedUnique(a: seq<string>, b: seq<string>)
    requires Sorted(a) && Sorted(b) && multiset(a) == multiset(b)
    ensures a == b
  {
    if a == [] {
      assert |b| == |multiset(b)| == 0;
    } else {
      assert b != [] by { assert a[0] in multiset(b); }
      SortedHeadLeast(a, b[0]);
      SortedHeadLeast(b, a[0]);
      NameLeAntisymmetric(a[0], b[0]);
      TailMultiset(a);
      TailMultiset(b);
      SortedUnique(a[1..], b[1..]);
      assert a == [a[0]] + a[1..] && b == [b[0]] + b[1..];
    }
  }

  lemma SortedHeadLeast(s: seq<string>, x: string)
    requires Sorted(s) && x in multiset(s)
    ensures NameLe(s[0], x)
  {
    var i :| 0 <= i < |s| && s[i] == x;
    if i == 0 { NameLeReflexive(x); }
  }

  lemma TailMultiset(s: seq<string>)
    requires s != []
    ensures multiset(s[1..]) == multiset(s) - multiset{s[0]}
  {
    assert s == [s[0]] + s[1..];
  }

  /** The names of a well-formed listing, sorted, are strictly increasing:
      no name occurs twice. */
  lemma SortedListingDistinct(s: seq<string>)
    requires Distinct(s)
    ensures Distinct(SortNames(s))
  {
    DistinctSubMultiset(s, SortNames(s));
  }
}
