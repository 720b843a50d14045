/** File names derived from URLs, as posixpath.basename derives them. */
module Paths {

  /**
   * The last '/'-separated segment of a path or URL: the text after its
   * last '/', or the whole text when it holds none.
   */
  function Basename(path: string): (name: string)
    ensures '/' !in name
    ensures |name| <= |path| && name == path[|path| - |name|..]
    ensures |name| < |path| ==> path[|path| - |name| - 1] == '/'
  {
    if path == [] || path[|path| - 1] == '/' then []
    else
      var rest := Basename(path[..|path| - 1]);
      assert path[..|path| - 1][|path| - 1 - |rest|..] == path[|path| - 1 - |rest|..|path| - 1];
      rest + [path[|path| - 1]]
  }

  /** Joining a directory part and a slash-free name, then taking the basename, gives the name back. */
  lemma {:induction false} BasenameOfJoin(dir: string, name: string)
    requires '/' !in name
    ensures Basename(dir + "/" + name) == name
  {
    var path := dir + "/" + name;
    if name != [] {
      var init := name[..|name| - 1];
      assert path[..|path| - 1] == dir + "/" + init;
      BasenameOfJoin(dir, init);
      assert name == init + [name[|name| - 1]];
    }
  }
}
