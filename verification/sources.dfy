/**
 * Which names a sprite is built from: the `files` entries of the spec,
 * with a leading "*" standing for the matching entries of the source
 * directory. `Builder.Sprites.GetSourceFiles` computes this list with a loop;
 * the functions here say what it is.
 */
module Sources {
  import opened Paths
  import opened Patterns
  import opened Ordering

  /** An explicit entry is kept, as its basename, when that ends in ".png" and is not the destination path. */
  predicate Keeps(entry: string, destPath: string) {
    EndsWithPng(Basename(entry)) && Basename(entry) != destPath
  }

  /** A "*" entry (after `path.basename`) asks for the whole source directory. */
  predicate IsWildcard(entry: string) {
    Basename(entry) == "*"
  }

  /** The basenames of the kept explicit entries, in input order. */
  function Explicit(entries: seq<string>, destPath: string): (r: seq<string>)
    ensures |r| <= |entries|
    decreases |entries|
  {
    if entries == [] then []
    else
      var last := entries[|entries| - 1];
      Explicit(entries[..|entries| - 1], destPath) + (if Keeps(last, destPath) then [Basename(last)] else [])
  }

  /** The directory entries the wildcard expands to, in listing order. */
  function Wildcard(listing: seq<string>): (r: seq<string>)
    ensures |r| <= |listing|
    decreases |listing|
  {
    if listing == [] then []
    else
      var last := listing[|listing| - 1];
      Wildcard(listing[..|listing| - 1]) + (if ContainsPng(last) then [last] else [])
  }

  /**
   * The list `getSourceFiles` returns: a wildcard in first position is replaced by
   * the matching directory entries; later entries are treated one by one.
   */
  function SourceFiles(entries: seq<string>, listing: seq<string>, destPath: string): seq<string> {
    if |entries| > 0 && IsWildcard(entries[0]) then Wildcard(listing) + Explicit(entries[1..], destPath)
    else Explicit(entries, destPath)
  }

  /** What `getSourceFiles` has collected after the first `i` entries. */
  function Collected(entries: seq<string>, listing: seq<string>, destPath: string, i: nat): seq<string>
    requires i <= |entries|
  {
    if i > 0 && IsWildcard(entries[0]) then Wildcard(listing) + Explicit(entries[1..i], destPath)
    else Explicit(entries[..i], destPath)
  }

  /**
   * One more entry: a wildcard in first position yields the directory's matching
   * entries; any other entry adds its basename when it is kept.
   */
  lemma CollectedStep(entries: seq<string>, listing: seq<string>, destPath: string, i: nat)
    requires i < |entries|
    ensures i == 0 && IsWildcard(entries[0]) ==> Collected(entries, listing, destPath, 1) == Wildcard(listing)
    ensures !(i == 0 && IsWildcard(entries[0])) ==>
              Collected(entries, listing, destPath, i + 1) ==
              Collected(entries, listing, destPath, i) +
              (if Keeps(entries[i], destPath) then [Basename(entries[i])] else [])
  {
    if i == 0 && IsWildcard(entries[0]) {
      assert entries[1..1] == [];
      assert Wildcard(listing) + [] == Wildcard(listing);
    } else if i > 0 && IsWildcard(entries[0]) {
      ExplicitSliceStep(entries, 1, i, destPath);
    } else {
      ExplicitSliceStep(entries, 0, i, destPath);
      assert entries[..i] == entries[0..i] && entries[..i + 1] == entries[0..i + 1];
    }
  }

  /** After the last entry, the collected list is the resolved source list. */
  lemma CollectedAll(entries: seq<string>, listing: seq<string>, destPath: string)
    ensures Collected(entries, listing, destPath, |entries|) == SourceFiles(entries, listing, destPath)
  {
    assert entries[..|entries|] == entries;
  }

  /** Extending a slice of the entries by one entry extends the explicit list by that entry's contribution. */
  lemma ExplicitSliceStep(entries: seq<string>, lo: nat, hi: nat, destPath: string)
    requires lo <= hi < |entries|
    ensures Explicit(entries[lo..hi + 1], destPath) ==
            Explicit(entries[lo..hi], destPath) +
            (if Keeps(entries[hi], destPath) then [Basename(entries[hi])] else [])
  {
    assert entries[lo..hi + 1][..hi - lo] == entries[lo..hi];
  }

  /** Extending the listing by one entry extends the wildcard expansion by that entry if it matches. */
  lemma WildcardStep(listing: seq<string>, j: nat)
    requires j < |listing|
    ensures Wildcard(listing[..j + 1]) == Wildcard(listing[..j]) + (if ContainsPng(listing[j]) then [listing[j]] else [])
  {
    assert listing[..j + 1][..j] == listing[..j];
  }

  /** Keeping entries works entry by entry, so it distributes over concatenation. */
  lemma {:induction false} ExplicitAppend(a: seq<string>, b: seq<string>, destPath: string)
    ensures Explicit(a + b, destPath) == Explicit(a, destPath) + Explicit(b, destPath)
    decreases |b|
  {
    if b == [] {
      assert a + b == a;
    } else {
      var b' := b[..|b| - 1];
      assert (a + b)[..|a + b| - 1] == a + b';
      assert (a + b)[|a + b| - 1] == b[|b| - 1];
      ExplicitAppend(a, b', destPath);
    }
  }

  /** Entry `entry` contributes `name` to the explicit list. */
  predicate Selects(entry: string, destPath: string, name: string) {
    Keeps(entry, destPath) && Basename(entry) == name
  }

  /** A name is in the explicit list exactly when some entry has it as its kept basename. */
  lemma ExplicitMembership(entries: seq<string>, destPath: string, name: string)
    ensures name in Explicit(entries, destPath) <==>
            exists i :: 0 <= i < |entries| && Selects(entries[i], destPath, name)
  {
    KeptNameHasEntry(entries, destPath, name);
    if exists i :: 0 <= i < |entries| && Selects(entries[i], destPath, name) {
      var i :| 0 <= i < |entries| && Selects(entries[i], destPath, name);
      EntryNameIsKept(entries, destPath, name, i);
    }
  }

  lemma {:induction false} KeptNameHasEntry(entries: seq<string>, destPath: string, name: string)
    ensures name in Explicit(entries, destPath) ==>
            exists i :: 0 <= i < |entries| && Selects(entries[i], destPath, name)
    decreases |entries|
  {
    if entries != [] {
      var init := entries[..|entries| - 1];
      var last := entries[|entries| - 1];
      var tail := if Keeps(last, destPath) then [Basename(last)] else [];
      assert Explicit(entries, destPath) == Explicit(init, destPath) + tail;
      KeptNameHasEntry(init, destPath, name);
      if name in Explicit(init, destPath) {
        var i :| 0 <= i < |init| && Selects(init[i], destPath, name);
        assert entries[i] == init[i];
      } else if name in tail {
        assert Selects(entries[|entries| - 1], destPath, name);
      }
    }
  }

  lemma {:induction false} EntryNameIsKept(entries: seq<string>, destPath: string, name: string, i: int)
    requires 0 <= i < |entries| && Selects(entries[i], destPath, name)
    ensures name in Explicit(entries, destPath)
    decreases |entries|
  {
    var init := entries[..|entries| - 1];
    var last := entries[|entries| - 1];
    var tail := if Keeps(last, destPath) then [Basename(last)] else [];
    assert Explicit(entries, destPath) == Explicit(init, destPath) + tail;
    if i < |init| {
      assert init[i] == entries[i];
      EntryNameIsKept(init, destPath, name, i);
    }
  }

  /** A name is in the wildcard expansion exactly when the directory lists it and it matches the loose pattern. */
  lemma {:induction false} WildcardMembership(listing: seq<string>, name: string)
    ensures name in Wildcard(listing) <==> name in listing && ContainsPng(name)
    decreases |listing|
  {
    if listing != [] {
      var init := listing[..|listing| - 1];
      WildcardMembership(init, name);
      assert listing == init + [listing[|listing| - 1]];
    }
  }

  /**
   * What the resolved list holds: the directory's matching entries when the first
   * entry is a wildcard, and the kept basenames of the explicit entries.
   */
  lemma SourceFilesMembership(entries: seq<string>, listing: seq<string>, destPath: string, name: string)
    ensures name in SourceFiles(entries, listing, destPath) <==>
            (|entries| > 0 && IsWildcard(entries[0]) && name in listing && ContainsPng(name)) ||
            (exists i :: 0 <= i < |entries| && Selects(entries[i], destPath, name))
  {
    WildcardMembership(listing, name);
    if |entries| > 0 && IsWildcard(entries[0]) {
      var rest := entries[1..];
      ExplicitMembership(rest, destPath, name);
      if exists i :: 0 <= i < |entries| && Selects(entries[i], destPath, name) {
        var i :| 0 <= i < |entries| && Selects(entries[i], destPath, name);
        assert i != 0;
        assert rest[i - 1] == entries[i];
      }
      if exists i :: 0 <= i < |rest| && Selects(rest[i], destPath, name) {
        var i :| 0 <= i < |rest| && Selects(rest[i], destPath, name);
        assert entries[i + 1] == rest[i];
      }
    } else {
      ExplicitMembership(entries, destPath, name);
    }
  }

  /** Every resolved name matches `/.png/i`, whichever way it was selected. */
  lemma ResolvedNamesMatch(entries: seq<string>, listing: seq<string>, destPath: string)
    ensures forall name :: name in SourceFiles(entries, listing, destPath) ==> ContainsPng(name)
  {
    forall name | name in SourceFiles(entries, listing, destPath) ensures ContainsPng(name) {
      SourceFilesMembership(entries, listing, destPath, name);
      if !(|entries| > 0 && IsWildcard(entries[0]) && name in listing && ContainsPng(name)) {
        var i :| 0 <= i < |entries| && Selects(entries[i], destPath, name);
        EndsWithPngContainsPng(name);
      }
    }
  }

  /** A wildcard among the explicit entries contributes nothing. */
  lemma ExplicitSkipsWildcard(a: seq<string>, w: string, b: seq<string>, destPath: string)
    requires IsWildcard(w)
    ensures Explicit(a + [w] + b, destPath) == Explicit(a + b, destPath)
  {
    assert (a + [w])[..|a + [w]| - 1] == a;
    assert !Keeps(w, destPath);
    assert Explicit(a + [w], destPath) == Explicit(a, destPath) + [];
    assert Explicit(a, destPath) + [] == Explicit(a, destPath);
    ExplicitAppend(a + [w], b, destPath);
    ExplicitAppend(a, b, destPath);
  }

  /** A wildcard anywhere but first is dropped without effect. */
  lemma LateWildcardIgnored(a: seq<string>, w: string, b: seq<string>, listing: seq<string>, destPath: string)
    requires |a| > 0 && IsWildcard(w)
    ensures SourceFiles(a + [w] + b, listing, destPath) == SourceFiles(a + b, listing, destPath)
  {
    var a' := a[1..];
    assert (a + [w] + b)[0] == a[0] == (a + b)[0];
    if IsWildcard(a[0]) {
      assert (a + [w] + b)[1..] == a' + [w] + b;
      assert (a + b)[1..] == a' + b;
      ExplicitSkipsWildcard(a', w, b, destPath);
    } else {
      ExplicitSkipsWildcard(a, w, b, destPath);
    }
  }

  /**
   * Comparing a basename with an absolute destination path never rejects:
   * the explicit list is the same as with a destination no PNG name can equal.
   */
  lemma {:induction false} AbsoluteDestinationNeverExcludes(entries: seq<string>, destPath: string)
    requires IsAbsolute(destPath)
    ensures Explicit(entries, destPath) == Explicit(entries, "")
    decreases |entries|
  {
    if entries != [] {
      var last := entries[|entries| - 1];
      assert destPath[0] in destPath;
      assert Keeps(last, destPath) == Keeps(last, "");
      AbsoluteDestinationNeverExcludes(entries[..|entries| - 1], destPath);
    }
  }

  /** The resolved list, wildcard included, does not depend on an absolute destination path. */
  lemma AbsoluteDestinationIgnored(entries: seq<string>, listing: seq<string>, destPath: string)
    requires IsAbsolute(destPath)
    ensures SourceFiles(entries, listing, destPath) == SourceFiles(entries, listing, "")
  {
    AbsoluteDestinationNeverExcludes(entries, destPath);
    if |entries| > 0 {
      AbsoluteDestinationNeverExcludes(entries[1..], destPath);
    }
  }

  /** Reordering the explicit entries reorders the kept names the same way. */
  lemma {:induction false} ExplicitPermutation(a: seq<string>, b: seq<string>, destPath: string)
    requires multiset(a) == multiset(b)
    ensures multiset(Explicit(a, destPath)) == multiset(Explicit(b, destPath))
    decreases |a|
  {
    assert |a| == |multiset(a)| == |multiset(b)| == |b|;
    if a != [] {
      var x := a[0];
      assert x in multiset(b);
      var k :| 0 <= k < |b| && b[k] == x;
      var b' := b[..k] + b[k + 1..];
      WithoutAt(b, k);
      HeadSplit(a);
      ExplicitPermutation(a[1..], b', destPath);
      ExplicitAppend([x], a[1..], destPath);
      ExplicitDropAt(b, k, destPath);
    }
  }

  /** Dropping the element at `k` removes one occurrence of it. */
  lemma WithoutAt<T>(s: seq<T>, k: nat)
    requires k < |s|
    ensures multiset(s[..k] + s[k + 1..]) == multiset(s) - multiset{s[k]}
  {
    assert s == s[..k] + [s[k]] + s[k + 1..];
  }

  /** Dropping the head removes one occurrence of it. */
  lemma HeadSplit<T>(s: seq<T>)
    requires s != []
    ensures s == [s[0]] + s[1..]
    ensures multiset(s[1..]) == multiset(s) - multiset{s[0]}
  {
    assert s == [s[0]] + s[1..];
  }

  /** The kept names of `s` are those of `s` without entry `k`, plus what entry `k` contributes. */
  lemma ExplicitDropAt(s: seq<string>, k: nat, destPath: string)
    requires k < |s|
    ensures multiset(Explicit(s, destPath)) ==
            multiset(Explicit([s[k]], destPath)) + multiset(Explicit(s[..k] + s[k + 1..], destPath))
  {
    var p, q := s[..k], s[k + 1..];
    assert s == p + [s[k]] + q;
    ExplicitAppend(p + [s[k]], q, destPath);
    ExplicitAppend(p, [s[k]], destPath);
    ExplicitAppend(p, q, destPath);
  }

  /**
   * Without a wildcard, the sorted source list does not depend on the order
   * the entries are written in the spec.
   */
  lemma EntryOrderIrrelevant(a: seq<string>, b: seq<string>, listing: seq<string>, destPath: string)
    requires multiset(a) == multiset(b)
    requires forall i :: 0 <= i < |a| ==> !IsWildcard(a[i])
    ensures SortNames(SourceFiles(a, listing, destPath)) == SortNames(SourceFiles(b, listing, destPath))
  {
    if |b| > 0 {
      assert b[0] in multiset(a);
    }
    ExplicitPermutation(a, b, destPath);
    SortIgnoresOrder(Explicit(a, destPath), Explicit(b, destPath));
  }

  /**
   * The wildcard keeps the destination sheet's own name when the directory lists it:
   * nothing excludes the sprite written by an earlier run.
   */
  lemma WildcardKeepsDestination(listing: seq<string>, destPath: string)
    requires Basename(destPath) in listing && ContainsPng(Basename(destPath))
    ensures Basename(destPath) in SourceFiles(["*"], listing, destPath)
  {
    assert IsWildcard("*");
    WildcardMembership(listing, Basename(destPath));
  }
}
