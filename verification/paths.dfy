/**
 * The part of Node's POSIX `path` module the sprite builder relies on:
 * `basename` (with and without an extension to strip) and `dirname`.
 */
module Paths {

  /** A path that starts at the root, as `path.resolve` always returns. */
  predicate IsAbsolute(p: string) {
    |p| > 0 && p[0] == '/'
  }

  /** `p` without the slashes at its end. */
  function TrimTrailingSlashes(p: string): (r: string)
    ensures |r| <= |p| && r == p[..|r|]
    ensures r == [] || r[|r| - 1] != '/'
    ensures '/' !in p ==> r == p
    decreases |p|
  {
    if |p| > 0 && p[|p| - 1] == '/' then TrimTrailingSlashes(p[..|p| - 1]) else p
  }

  /** What follows the last slash of `p` (all of `p` when it has none). */
  function AfterLastSlash(p: string): (r: string)
    ensures '/' !in r
    ensures '/' !in p ==> r == p
    decreases |p|
  {
    if p == [] then []
    else if p[|p| - 1] == '/' then []
    else AfterLastSlash(p[..|p| - 1]) + [p[|p| - 1]]
  }

  /** `path.basename(p)`: the last component, trailing slashes ignored. */
  function Basename(p: string): (r: string)
    ensures '/' !in r
    ensures '/' !in p ==> r == p
  {
    AfterLastSlash(TrimTrailingSlashes(p))
  }

  /** `path.basename(p, ext)`: the last component with `ext` cut off its end, unless it is all of it. */
  function BasenameWithoutExt(p: string, ext: string): (r: string)
    ensures '/' !in r
    ensures r + ext == Basename(p) || r == Basename(p)
  {
    var b := Basename(p);
    if |b| > |ext| && b[|b| - |ext|..] == ext then b[..|b| - |ext|] else b
  }

  /** Index of the last slash of `p`, or -1. */
  function LastSlash(p: string): (k: int)
    ensures -1 <= k < |p|
    ensures k >= 0 ==> p[k] == '/'
    ensures forall j :: k < j < |p| ==> p[j] != '/'
    decreases |p|
  {
    if p == [] then -1
    else if p[|p| - 1] == '/' then |p| - 1
    else LastSlash(p[..|p| - 1])
  }

  /**
   * `path.dirname(p)` for an absolute `p`: everything before the last component,
   * trailing slashes ignored; the root when nothing else is left.
   */
  function Dirname(p: string): (r: string)
    requires IsAbsolute(p)
    ensures IsAbsolute(r)
  {
    var t := TrimTrailingSlashes(p);
    var k := LastSlash(t);
    if k <= 0 then "/"
    else if k == 1 then "//"
    else t[..k]
  }

  /** Joining a directory and a plain name gives back that name as the basename. */
  lemma {:induction false} BasenameOfJoin(dir: string, name: string)
    requires name != [] && '/' !in name
    ensures Basename(dir + "/" + name) == name
  {
    var p := dir + "/" + name;
    assert p[|p| - 1] == name[|name| - 1] && name[|name| - 1] in name;
    assert TrimTrailingSlashes(p) == p;
    AfterLastSlashOfJoin(dir, name);
  }

  lemma {:induction false} AfterLastSlashOfJoin(dir: string, name: string)
    requires '/' !in name
    ensures AfterLastSlash(dir + "/" + name) == name
    decreases |name|
  {
    var p := dir + "/" + name;
    if name == [] {
      assert p[|p| - 1] == '/';
    } else {
      var last := name[|name| - 1];
      assert last in name;
      assert p[..|p| - 1] == dir + "/" + name[..|name| - 1];
      assert '/' !in name[..|name| - 1] by {
        forall c | c in name[..|name| - 1] ensures c in name { }
      }
      AfterLastSlashOfJoin(dir, name[..|name| - 1]);
      assert name == name[..|name| - 1] + [last];
    }
  }

  /** The last slash of a directory joined with a plain name is the joining slash. */
  lemma {:induction false} LastSlashOfJoin(dir: string, name: string)
    requires '/' !in name
    ensures LastSlash(dir + "/" + name) == |dir|
    decreases |name|
  {
    var p := dir + "/" + name;
    if name == [] {
      assert p[|p| - 1] == '/';
    } else {
      assert p[|p| - 1] == name[|name| - 1] && name[|name| - 1] in name;
      assert p[..|p| - 1] == dir + "/" + name[..|name| - 1];
      assert '/' !in name[..|name| - 1] by {
        forall c | c in name[..|name| - 1] ensures c in name { }
      }
      LastSlashOfJoin(dir, name[..|name| - 1]);
    }
  }

  /**
   * The directory of a directory joined with a plain name is that directory,
   * when it is absolute, not the root, and without a trailing slash.
   */
  lemma DirnameOfJoin(dir: string, name: string)
    requires IsAbsolute(dir) && dir != "/" && dir[|dir| - 1] != '/'
    requires name != [] && '/' !in name
    ensures Dirname(dir + "/" + name) == dir
  {
    var p := dir + "/" + name;
    assert p[|p| - 1] == name[|name| - 1] && name[|name| - 1] in name;
    assert TrimTrailingSlashes(p) == p;
    LastSlashOfJoin(dir, name);
    assert p[..|dir|] == dir;
  }

  /** The spec file `dir/stem.json` has `stem` as its name without the extension. */
  lemma StemOf(dir: string, stem: string)
    requires stem != [] && '/' !in stem
    ensures BasenameWithoutExt(dir + "/" + stem + ".json", ".json") == stem
  {
    assert '/' !in stem + ".json" by {
      forall c | c in stem + ".json" ensures c != '/' {
        var k :| 0 <= k < |stem + ".json"| && (stem + ".json")[k] == c;
        if k < |stem| { assert c == stem[k]; } else { assert c == ".json"[k - |stem|]; }
      }
    }
    assert dir + "/" + stem + ".json" == dir + "/" + (stem + ".json");
    BasenameOfJoin(dir, stem + ".json");
    var b := stem + ".json";
    assert b[|b| - 5..] == ".json" && b[..|b| - 5] == stem;
  }
}
