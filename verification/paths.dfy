/** The clients' local-name policy: a requested file is always written
    into the current directory, under the last component of its
    Unix-style path. */
module Paths {
  import opened Wire

  /** The '/' separator. */
  const Slash: byte := 47

  /** The text after the last '/' of `path`, or `path` itself when it has
      no '/'. A trailing '/' leaves the empty name. */
  function BaseName(path: seq<byte>): (r: seq<byte>)
    ensures |r| <= |path| && r == path[|path| - |r|..]
    ensures forall i :: 0 <= i < |r| ==> r[i] != Slash
    ensures |r| < |path| ==> path[|path| - |r| - 1] == Slash
    ensures (forall i :: 0 <= i < |path| ==> path[i] != Slash) ==> r == path
  {
    if |path| == 0 || path[|path| - 1] == Slash then []
    else
      var init := path[..|path| - 1];
      var r := BaseName(init) + [path[|path| - 1]];
      assert path == init + [path[|path| - 1]];
      r
  }

  /** The base name of a C string is a C string. */
  lemma BaseNameNoNul(path: seq<byte>)
    requires NoNul(path)
    ensures NoNul(BaseName(path))
  {
    var r := BaseName(path);
    forall i | 0 <= i < |r| ensures r[i] != 0 {
      assert r[i] == path[|path| - |r| + i];
    }
  }
}
