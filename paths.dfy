/**
  The parts of Node's POSIX `path` module that the layout registry and the
  renderer options depend on: `path.parse(p).name`, `path.parse(p).dir` and
  `path.dirname(p)`, for paths without a trailing separator (the keys of a
  Metalsmith file map never end in '/').
*/
module Paths {

  /** Index of the last occurrence of `c` in `s`, or -1 when `c` does not occur. */
  function LastIndexOf(s: string, c: char): (k: int)
    ensures -1 <= k < |s|
    ensures k == -1 <==> c !in s
    ensures k >= 0 ==> s[k] == c && c !in s[k + 1..]
  {
    if s == [] then -1
    else if s[|s| - 1] == c then |s| - 1
    else
      var k := LastIndexOf(s[..|s| - 1], c);
      assert s == s[..|s| - 1] + [s[|s| - 1]];
      k
  }

  /** `path.basename(p)`: everything after the last '/'. */
  function BaseName(p: string): (b: string)
    ensures '/' !in b
    ensures |b| <= |p| && b == p[|p| - |b|..]
  {
    p[LastIndexOf(p, '/') + 1..]
  }

  /**
    `path.parse(p).name`: the base name without its extension. The extension
    starts at the last '.' of the base name, unless that '.' is the base name's
    first character; the base name ".." has no extension.
  */
  function ParseName(p: string): (n: string)
  {
    var base := BaseName(p);
    if base == ".." then base
    else
      var d := LastIndexOf(base, '.');
      if d > 0 then base[..d] else base
  }

  /** `path.parse(p).dir`: the text before the last '/', "/" for a top-level absolute path, "" without a '/'. */
  function ParseDir(p: string): (d: string)
  {
    var k := LastIndexOf(p, '/');
    if k < 0 then "" else if k == 0 then "/" else p[..k]
  }

  /** `path.dirname(p)`: as `ParseDir`, but "." without a '/' and "//" for a path "//x". */
  function DirName(p: string): (d: string)
  {
    var k := LastIndexOf(p, '/');
    if k < 0 then "."
    else if k == 0 then "/"
    else if k == 1 && p[0] == '/' then "//"
    else p[..k]
  }

  /** The registry name of a path never contains a '/' and is a prefix of its base name. */
  lemma ParseNameIsBasePrefix(p: string)
    ensures ParseName(p) <= BaseName(p)
    ensures '/' !in ParseName(p)
  {
    var base := BaseName(p);
    if base != ".." {
      var d := LastIndexOf(base, '.');
      if d > 0 {
        assert base[..d] <= base;
        forall i | 0 <= i < d ensures base[..d][i] != '/' {
          assert base[..d][i] == base[i];
        }
      }
    }
  }

  /** A path with a non-leading '/' is its directory, a '/', and its base name. */
  lemma DirAndBase(p: string)
    requires '/' in p && LastIndexOf(p, '/') > 0
    ensures ParseDir(p) + "/" + BaseName(p) == p
  {
    var k := LastIndexOf(p, '/');
    assert p == p[..k] + [p[k]] + p[k + 1..];
  }

  /** The extension dropped by `ParseName` starts with '.' and holds no other '.'. */
  lemma ParseNameDropsExtension(p: string)
    ensures var ext := BaseName(p)[|ParseName(p)|..];
      BaseName(p) == ParseName(p) + ext &&
      (ext == [] || (ext[0] == '.' && '.' !in ext[1..] && |ParseName(p)| > 0))
  {
    var base := BaseName(p);
    var d := LastIndexOf(base, '.');
    if base != ".." && d > 0 {
      assert base == base[..d] + base[d..];
      assert base[d..][1..] == base[d + 1..];
    } else {
      assert base[|base|..] == [];
    }
  }

  /** An extension is dropped exactly when the base name is not ".." and has a '.' after its first character. */
  lemma ParseNameDropsWhenDotted(p: string)
    ensures var base := BaseName(p);
      ParseName(p) == base <==> (base == ".." || forall k :: 0 < k < |base| ==> base[k] != '.')
  {
    var base := BaseName(p);
    var d := LastIndexOf(base, '.');
    if base != ".." && d > 0 {
      assert |base[..d]| < |base|;
    } else if base != ".." {
      forall k | 0 < k < |base| ensures base[k] != '.' {
        if d == 0 {
          assert base[d + 1..][k - 1] == base[k];
        } else {
          assert base[k] in base;
        }
      }
    }
  }

  /** `ParseDir` without a '/' is "", and for a top-level absolute path "/". */
  lemma ParseDirEdges(p: string)
    ensures '/' !in p ==> ParseDir(p) == ""
    ensures |p| > 0 && p[0] == '/' && '/' !in p[1..] ==> ParseDir(p) == "/"
  {
  }
}
