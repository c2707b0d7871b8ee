/** `get_img_files`: the frame names of a directory listing, sorted by name. */
module Frames {
  import opened Strings

  /** The names of the listing that end in `ext`, in listing order. */
  function Filter(names: seq<string>, ext: string): seq<string>
  {
    if names == [] then []
    else
      var init, last := names[..|names| - 1], names[|names| - 1];
      Filter(init, ext) + (if EndsWith(last, ext) then [last] else [])
  }

  /** Filtering keeps every name that ends in `ext` as often as the listing
      has it, and no other name. */
  lemma {:induction false} FilterCount(names: seq<string>, ext: string)
    ensures forall f :: multiset(Filter(names, ext))[f] == if EndsWith(f, ext) then multiset(names)[f] else 0
  {
    if names != [] {
      var init, last := names[..|names| - 1], names[|names| - 1];
      assert names == init + [last];
      FilterCount(init, ext);
    }
  }

  /** Taking one more name of the listing extends the filtered names by at
      most that name. */
  lemma FilterStep(names: seq<string>, i: nat, ext: string)
    requires i < |names|
    ensures Filter(names[..i + 1], ext)
         == Filter(names[..i], ext) + (if EndsWith(names[i], ext) then [names[i]] else [])
  {
    assert names[..i + 1][..i] == names[..i];
  }

  /** Ascending by name, as Python's `list.sort` leaves a list of names. */
  predicate Sorted(s: seq<string>)
  {
    forall i, j :: 0 <= i < j < |s| ==> NameLe(s[i], s[j])
  }

  lemma SortedTail(s: seq<string>)
    requires Sorted(s) && s != []
    ensures Sorted(s[1..])
  {
  }

  /** If `b` is below `x` and below every element of `s`, it is below every
      element of a sequence holding exactly those. */
  lemma LowerBound(b: string, x: string, s: seq<string>, r: seq<string>)
    requires multiset(r) == multiset(s) + multiset{x}
    requires NameLe(b, x)
    requires forall k :: 0 <= k < |s| ==> NameLe(b, s[k])
    ensures forall k :: 0 <= k < |r| ==> NameLe(b, r[k])
  {
    forall k | 0 <= k < |r| ensures NameLe(b, r[k]) {
      assert r[k] in multiset(r);
      if r[k] != x {
        assert r[k] in multiset(s);
        assert r[k] in s;
      }
    }
  }

  /** Puts `x` before the first name of `s` that is not below it. */
  function Insert(x: string, s: seq<string>): seq<string>
  {
    if s == [] then [x]
    else if NameLe(x, s[0]) then [x] + s
    else [s[0]] + Insert(x, s[1..])
  }

  /** Inserting into a sorted sequence adds exactly `x` and keeps it sorted. */
  lemma {:induction false} InsertSorted(x: string, s: seq<string>)
    requires Sorted(s)
    ensures Sorted(Insert(x, s))
    ensures multiset(Insert(x, s)) == multiset(s) + multiset{x}
  {
    if s == [] {
    } else if NameLe(x, s[0]) {
      forall k | 0 <= k < |s| ensures NameLe(x, s[k]) {
        if k > 0 { NameLeTransitive(x, s[0], s[k]); }
      }
    } else {
      var tail := Insert(x, s[1..]);
      SortedTail(s);
      InsertSorted(x, s[1..]);
      NameLeTotal(x, s[0]);
      LowerBound(s[0], x, s[1..], tail);
      assert s == [s[0]] + s[1..];
    }
  }

  /** The reference for `list.sort(key=lambda x: x["name"])` on names:
      an insertion sort. */
  function SortByName(s: seq<string>): seq<string>
  {
    if s == [] then [] else Insert(s[|s| - 1], SortByName(s[..|s| - 1]))
  }

  /** Sorting yields an ascending permutation of its input. */
  lemma {:induction false} SortByNameSorted(s: seq<string>)
    ensures Sorted(SortByName(s))
    ensures multiset(SortByName(s)) == multiset(s)
  {
    if s != [] {
      SortByNameSorted(s[..|s| - 1]);
      InsertSorted(s[|s| - 1], SortByName(s[..|s| - 1]));
      assert s == s[..|s| - 1] + [s[|s| - 1]];
    }
  }

  /** Two sorted sequences with the same names are the same sequence: sorting
      has only one possible outcome. */
  lemma {:induction false} SortedUnique(a: seq<string>, b: seq<string>)
    requires Sorted(a) && Sorted(b)
    requires multiset(a) == multiset(b)
    ensures a == b
  {
    if a == [] {
      assert |multiset(b)| == 0;
    } else {
      assert a[0] in multiset(b);
      assert b != [];
      assert b[0] in multiset(a);
      var i :| 0 <= i < |a| && a[i] == b[0];
      var j :| 0 <= j < |b| && b[j] == a[0];
      if i == 0 { NameLeReflexive(a[0]); }
      if j == 0 { NameLeReflexive(b[0]); }
      NameLeAntisymmetric(a[0], b[0]);
      assert a == [a[0]] + a[1..];
      assert b == [b[0]] + b[1..];
      assert multiset(a[1..]) == multiset(a) - multiset{a[0]};
      assert multiset(b[1..]) == multiset(b) - multiset{b[0]};
      SortedTail(a);
      SortedTail(b);
      SortedUnique(a[1..], b[1..]);
    }
  }

  /** Sorting a list whose leading part was already sorted gives the same
      result as sorting it outright. */
  lemma SortPrefixSorted(s: seq<string>, t: seq<string>)
    ensures SortByName(SortByName(s) + t) == SortByName(s + t)
  {
    SortByNameSorted(s);
    SortByNameSorted(SortByName(s) + t);
    SortByNameSorted(s + t);
    SortedUnique(SortByName(SortByName(s) + t), SortByName(s + t));
  }

  /** Lines 25-31: walks the listing, appends every name that ends in the
      extension and sorts the list after every step; the listing itself
      (`os.listdir`) is the parameter `names`. */
  method GetImgFiles(names: seq<string>, imgExtension: string := ".png") returns (imgFiles: seq<string>)
    ensures imgFiles == SortByName(Filter(names, imgExtension))
  {
    imgFiles := [];
    for i := 0 to |names|
      invariant imgFiles == SortByName(Filter(names[..i], imgExtension))
    {
      var file := names[i];
      ghost var seen := Filter(names[..i], imgExtension);
      ghost var added: seq<string> := if EndsWith(file, imgExtension) then [file] else [];
      if EndsWith(file, imgExtension) {
        imgFiles := imgFiles + [file];
      }
      assert imgFiles == SortByName(seen) + added;
      FilterStep(names, i, imgExtension);
      SortPrefixSorted(seen, added);
      imgFiles := SortByName(imgFiles);
    }
    assert names[..|names|] == names;
  }

  /** What `get_img_files` returns: the names ending in the extension, each
      as often as the listing has it, nothing else, in ascending order. */
  lemma FramesOfListing(names: seq<string>, ext: string)
    ensures Sorted(SortByName(Filter(names, ext)))
    ensures forall f :: multiset(SortByName(Filter(names, ext)))[f]
                     == if EndsWith(f, ext) then multiset(names)[f] else 0
  {
    SortByNameSorted(Filter(names, ext));
    FilterCount(names, ext);
  }
}
