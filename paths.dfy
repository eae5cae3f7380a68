/** Paths as plain strings with `/` as the separator. `path.join` is taken
    as concatenation with one separator and no normalisation. */
module Paths {

  /** `path.join(dir, name)` and the template `${dir}/${name}`. */
  function Join(dir: string, name: string): string {
    dir + "/" + name
  }

  /** `path.basename(p)`: the text after the last separator. */
  function Basename(p: string): string
    decreases |p|
  {
    if p == [] || p[|p| - 1] == '/' then [] else Basename(p[..|p| - 1]) + [p[|p| - 1]]
  }

  /** The basename is the longest suffix of `p` without a separator. */
  lemma {:induction false} BasenameIsLastSegment(p: string)
    ensures '/' !in Basename(p)
    ensures |Basename(p)| <= |p| && p[|p| - |Basename(p)|..] == Basename(p)
    ensures |Basename(p)| < |p| ==> p[|p| - |Basename(p)| - 1] == '/'
    decreases |p|
  {
    if p != [] && p[|p| - 1] != '/' {
      var prefix, c := p[..|p| - 1], p[|p| - 1];
      BasenameIsLastSegment(prefix);
      var b := Basename(prefix);
      assert p == prefix + [c];
      assert Basename(p) == b + [c];
      assert p[|p| - |b| - 1..] == prefix[|prefix| - |b|..] + [c];
      if |b| + 1 < |p| {
        assert p[|p| - |b| - 2] == prefix[|prefix| - |b| - 1];
      }
    }
  }

  /** `p` lies somewhere inside directory `dir`. */
  predicate Under(p: string, dir: string) {
    |dir| + 1 <= |p| && p[..|dir| + 1] == dir + "/"
  }

  lemma {:induction false} BasenameOfJoin(dir: string, name: string)
    requires '/' !in name
    ensures Basename(Join(dir, name)) == name
  {
    var p := Join(dir, name);
    BasenameIsLastSegment(p);
    var b := Basename(p);
    assert p[|dir|] == '/';
    assert p[|p| - |name|..] == name;
  }

  /** A direct child of `root` is never inside the sub-directory `root/sub`. */
  lemma {:induction false} ChildNotInSubdir(root: string, child: string, sub: string, p: string)
    requires '/' !in child
    requires Under(p, Join(root, sub))
    ensures p != Join(root, child)
  {
    var i := |root| + 1 + |sub|;
    assert p[i] == '/' by {
      assert p[..|Join(root, sub)| + 1][i] == '/';
    }
    if |Join(root, child)| == |p| {
      assert Join(root, child)[i] == child[|sub|];
    }
  }
}
