/**
 * The slash-separated path functions of Go's `path/filepath` (on a Unix host)
 * that the thumbnail cache uses to derive a file name: `Ext` and `Base`, and the
 * directory part that `Dir` starts from.
 */
module GoPaths {

  /** `filepath.Ext`: the suffix from the last '.' of the final path element, or "". */
  function Ext(path: string): (e: string)
    ensures |e| <= |path| && path[|path| - |e|..] == e
    ensures e == [] || (e[0] == '.' && '/' !in e && '.' !in e[1..])
  {
    if path == [] || path[|path| - 1] == '/' then ""
    else if path[|path| - 1] == '.' then "."
    else
      var init := path[..|path| - 1];
      var e := Ext(init);
      if e == [] then ""
      else
        assert path[|path| - |e| - 1..] == init[|init| - |e|..] + [path[|path| - 1]];
        e + [path[|path| - 1]]
  }

  /** Appending an extension-shaped string to any path makes it the extension. */
  lemma {:induction false} ExtOfAppended(stem: string, ext: string)
    requires ext != [] && ext[0] == '.' && '/' !in ext && '.' !in ext[1..]
    ensures Ext(stem + ext) == ext
  {
    var p := stem + ext;
    if |ext| > 1 {
      var shorter := ext[..|ext| - 1];
      assert p[..|p| - 1] == stem + shorter;
      ExtOfAppended(stem, shorter);
    }
  }

  function StripTrailingSlashes(path: string): (r: string)
    ensures |r| <= |path| && r == path[..|r|]
    ensures r == [] || r[|r| - 1] != '/'
  {
    if path != [] && path[|path| - 1] == '/' then StripTrailingSlashes(path[..|path| - 1]) else path
  }

  /** What follows the last '/' of `path`. */
  function LastElement(path: string): (r: string)
    ensures |r| <= |path| && path[|path| - |r|..] == r
    ensures '/' !in r
    ensures path != [] && path[|path| - 1] != '/' ==> r != []
  {
    if path == [] || path[|path| - 1] == '/' then ""
    else
      var init := path[..|path| - 1];
      var r := LastElement(init) + [path[|path| - 1]];
      assert path[|path| - |r|..] == init[|init| - (|r| - 1)..] + [path[|path| - 1]];
      r
  }

  /**
   * `filepath.Base`: the last element after trailing slashes are removed; "."
   * for the empty path and "/" for a path of slashes only.
   */
  function Base(path: string): (r: string)
    ensures r != []
    ensures path != [] && path[|path| - 1] != '/' ==> |r| <= |path| && path[|path| - |r|..] == r
  {
    if path == [] then "."
    else
      var stripped := StripTrailingSlashes(path);
      var last := LastElement(stripped);
      if last == [] then "/" else last
  }

  /** The directory part of `path` before `filepath.Dir` cleans it: everything up to the last '/'. */
  function DirPrefix(path: string): (r: string)
    ensures |r| <= |path| && r == path[..|r|]
    ensures r == [] || r[|r| - 1] == '/'
  {
    if path == [] then ""
    else if path[|path| - 1] == '/' then path
    else DirPrefix(path[..|path| - 1])
  }

  lemma {:induction false} ExtSuffixOfLastElement(path: string)
    ensures |Ext(path)| <= |LastElement(path)|
  {
    if path != [] && path[|path| - 1] != '/' && path[|path| - 1] != '.' {
      ExtSuffixOfLastElement(path[..|path| - 1]);
    }
  }

  /**
   * The extension of a path is a suffix of its base name, so cutting the
   * extension off the base name (as the thumbnail cache does) never slices
   * out of range.
   */
  lemma ExtSuffixOfBase(path: string)
    ensures |Ext(path)| <= |Base(path)|
    ensures Base(path)[|Base(path)| - |Ext(path)|..] == Ext(path)
  {
    if path != [] && path[|path| - 1] != '/' {
      assert StripTrailingSlashes(path) == path;
      ExtSuffixOfLastElement(path);
    }
  }
  /** A directory part: empty, or ending in '/'. */
  predicate IsDirPrefix(dir: string) {
    dir == [] || dir[|dir| - 1] == '/'
  }

  /** After a directory part, a slash-free name is the last element. */
  lemma {:induction false} LastElementAppended(dir: string, name: string)
    requires IsDirPrefix(dir) && '/' !in name
    ensures LastElement(dir + name) == name
  {
    if name != [] {
      var shorter := name[..|name| - 1];
      assert (dir + name)[..|dir + name| - 1] == dir + shorter;
      LastElementAppended(dir, shorter);
    } else {
      assert dir + name == dir;
    }
  }

  /** After a directory part, a slash-free name leaves that directory part. */
  lemma {:induction false} DirPrefixAppended(dir: string, name: string)
    requires IsDirPrefix(dir) && '/' !in name
    ensures DirPrefix(dir + name) == dir
  {
    if name != [] {
      var shorter := name[..|name| - 1];
      assert (dir + name)[..|dir + name| - 1] == dir + shorter;
      DirPrefixAppended(dir, shorter);
    } else {
      assert dir + name == dir;
    }
  }

  /** The base name of a directory part followed by a non-empty slash-free name is that name. */
  lemma BaseAppended(dir: string, name: string)
    requires IsDirPrefix(dir) && '/' !in name && name != []
    ensures Base(dir + name) == name
  {
    var path := dir + name;
    assert path[|path| - 1] == name[|name| - 1];
    assert StripTrailingSlashes(path) == path;
    LastElementAppended(dir, name);
  }
}
