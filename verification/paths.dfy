/** The final component of a POSIX path, as `os.path.basename` computes it:
    everything after the last '/'. */
module Paths {

  /** Drops characters from the end of `path` back to the last '/'. */
  function Basename(path: string): (name: string)
    ensures |name| <= |path|
    ensures '/' !in name
    decreases |path|
  {
    if path == [] || path[|path| - 1] == '/' then []
    else Basename(path[..|path| - 1]) + [path[|path| - 1]]
  }

  /** The basename is the longest suffix of the path without a '/': it holds
      no '/', it ends the path, and it is either the whole path or preceded
      by a '/'. */
  lemma {:induction false} BasenameIsLastComponent(path: string)
    ensures '/' !in Basename(path)
    ensures path[|path| - |Basename(path)|..] == Basename(path)
    ensures |Basename(path)| < |path| ==> path[|path| - |Basename(path)| - 1] == '/'
    decreases |path|
  {
    if path != [] && path[|path| - 1] != '/' {
      var init := path[..|path| - 1];
      BasenameIsLastComponent(init);
      assert path == init + [path[|path| - 1]];
    }
  }

  /** A name with no '/' is its own basename. */
  lemma {:induction false} BasenameOfPlainName(name: string)
    requires '/' !in name
    ensures Basename(name) == name
    decreases |name|
  {
    if name != [] {
      var init := name[..|name| - 1];
      assert name == init + [name[|name| - 1]];
      BasenameOfPlainName(init);
    }
  }

  /** Joining a directory and a file name with '/' and taking the basename
      gives the file name back. */
  lemma {:induction false} BasenameOfJoin(dir: string, name: string)
    requires '/' !in name
    ensures Basename(dir + "/" + name) == name
    decreases |name|
  {
    var p := dir + "/" + name;
    if name == [] {
      assert p[|p| - 1] == '/';
    } else {
      var init := name[..|name| - 1];
      var last := name[|name| - 1];
      assert p[..|p| - 1] == dir + "/" + init;
      assert p[|p| - 1] == last;
      assert name == init + [last];
      BasenameOfJoin(dir, init);
    }
  }
}
