/** The `os.path` functions the scripts call, with the meaning of Python 2's
    posixpath: `basename`, `dirname` and the root half of `splitext`. */
module Paths {
  import opened Text

  /** What the file system holds at a path, as `os.path.exists` and
      `os.path.isdir` report it. */
  datatype DirState = Missing | Directory | NotDirectory

  /** `os.path.basename(p)`: everything after the last `/`. */
  function Basename(p: string): (r: string)
    ensures '/' !in r
    ensures |r| <= |p| && p[|p| - |r|..] == r
    ensures |r| == |p| || p[|p| - |r| - 1] == '/'
  {
    p[LastIndex(p, '/') + 1..]
  }

  predicate AllSlashes(s: string) {
    forall i :: 0 <= i < |s| ==> s[i] == '/'
  }

  /** `s.rstrip('/')`. */
  function StripSlashes(s: string): (r: string)
    ensures |r| <= |s| && r == s[..|r|]
    ensures AllSlashes(s[|r|..])
    ensures r == [] || r[|r| - 1] != '/'
  {
    if s == [] || s[|s| - 1] != '/' then s
    else
      var r := StripSlashes(s[..|s| - 1]);
      assert s[..|s| - 1][..|r|] == s[..|r|];
      r
  }

  /** `os.path.dirname(p)`: everything up to the last `/`, with the trailing
      slashes removed unless the head is made of slashes only. */
  function Dirname(p: string): (r: string)
    ensures |r| <= |p| && r == p[..|r|]
    ensures '/' !in p ==> r == ""
    ensures '/' in p ==> r != []
    ensures |r| + |Basename(p)| <= |p| && AllSlashes(p[|r|..|p| - |Basename(p)|])
    ensures AllSlashes(r) ==> r == p[..|p| - |Basename(p)|]
    ensures !AllSlashes(r) ==> r[|r| - 1] != '/'
  {
    var head := p[..LastIndex(p, '/') + 1];
    if head != [] && !AllSlashes(head) then StripSlashes(head) else head
  }

  /** `os.path.splitext(p)[0]`: `p` without its last extension. A dot that
      only leads the file name (as in `.profile`) does not start one. */
  function SplitExtRoot(p: string): (r: string)
    ensures |r| <= |p| && r == p[..|r|]
  {
    var sep := LastIndex(p, '/');
    var dot := LastIndex(p, '.');
    if dot > sep && exists k :: sep + 1 <= k < dot && p[k] != '.' then p[..dot] else p
  }

  /** The directory, a slash and the base name give the path back, whenever
      the path has a directory that does not end in a slash. */
  lemma {:induction false} DirnameBasename(dir: string, name: string)
    requires dir != [] && dir[|dir| - 1] != '/' && '/' !in name
    ensures Dirname(dir + "/" + name) == dir
    ensures Basename(dir + "/" + name) == name
  {
    var p := dir + "/" + name;
    var k := LastIndex(p, '/');
    assert p[|dir|] == '/';
    assert k == |dir|;
    var head := p[..k + 1];
    assert head == dir + "/";
    assert !AllSlashes(head) by {
      assert head[|dir| - 1] != '/';
    }
    assert head[..|head| - 1] == dir;
    assert p[k + 1..] == name;
  }

  /** Removing the extension of `name + ext` gives `name` back, for a
      one-dot extension whose stem is not only dots. */
  lemma {:induction false} SplitExtAppended(name: string, ext: string)
    requires '/' !in name && '.' !in ext && '/' !in ext
    requires exists k :: 0 <= k < |name| && name[k] != '.'
    ensures SplitExtRoot(name + "." + ext) == name
  {
    var p := name + "." + ext;
    var dot := LastIndex(p, '.');
    assert p[|name|] == '.';
    assert dot == |name|;
    assert LastIndex(p, '/') == -1 by {
      assert forall i :: 0 <= i < |p| ==> p[i] != '/' by {
        forall i | 0 <= i < |p| ensures p[i] != '/' {
          if i < |name| { assert p[i] == name[i]; }
          else if i > |name| { assert p[i] == ext[i - |name| - 1]; }
        }
      }
    }
    var k :| 0 <= k < |name| && name[k] != '.';
    assert p[k] == name[k];
    assert p[..dot] == name;
  }
}
