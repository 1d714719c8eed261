/** The two POSIX path operations the search uses: `os.path.basename` and
    `os.path.join` with two arguments. */
module Paths {

  /** `s` contains no '/'. */
  predicate NoSlash(s: string) {
    forall k :: 0 <= k < |s| ==> s[k] != '/'
  }

  /** `os.path.basename(p)`: what follows the last '/', all of `p` if it has
      none. */
  function Basename(p: string): (r: string)
    ensures NoSlash(r)
    ensures |r| <= |p| && r == p[|p| - |r|..]
    ensures |r| < |p| ==> p[|p| - |r| - 1] == '/'
  {
    if p == [] || p[|p| - 1] == '/' then []
    else
      var b := Basename(p[..|p| - 1]);
      BasenameStep(p, b);
      b + [p[|p| - 1]]
  }

  /** A last component that ends with the last character of `p`. */
  lemma BasenameStep(p: string, b: string)
    requires p != [] && p[|p| - 1] != '/'
    requires NoSlash(b) && |b| < |p| && b == p[..|p| - 1][|p| - 1 - |b|..]
    ensures NoSlash(b + [p[|p| - 1]])
    ensures b + [p[|p| - 1]] == p[|p| - |b| - 1..]
  {
    var r := b + [p[|p| - 1]];
    assert forall k :: 0 <= k < |b| ==> r[k] == b[k];
  }

  /** `os.path.join(a, b)`: an absolute `b` replaces `a`; otherwise `b` is
      appended, after a '/' unless `a` is empty or already ends with one. */
  function Join(a: string, b: string): (r: string)
    ensures |r| >= |b| && r[|r| - |b|..] == b
    ensures |b| > 0 && b[0] == '/' ==> r == b
    ensures !(|b| > 0 && b[0] == '/') ==> |a| + |b| <= |r| <= |a| + |b| + 1 && r[..|a|] == a
    ensures !(|b| > 0 && b[0] == '/') && a != [] ==> r[|r| - |b| - 1] == '/'
    ensures !(|b| > 0 && b[0] == '/') && (a == [] || a[|a| - 1] == '/') ==> r == a + b
  {
    if |b| > 0 && b[0] == '/' then b
    else if a == [] || a[|a| - 1] == '/' then a + b
    else a + "/" + b
  }

  /** A name without '/' (a file name as a directory listing gives it) is the
      basename of any path joined to it. */
  lemma BasenameOfJoin(root: string, name: string)
    requires NoSlash(name)
    ensures Basename(Join(root, name)) == name
  {
    var joined := Join(root, name);
    var dir := if root == [] || root[|root| - 1] == '/' then root else root + "/";
    assert joined == dir + name;
    BasenameAfterSlash(dir, name);
  }

  lemma BasenameAfterSlash(dir: string, name: string)
    requires dir == [] || dir[|dir| - 1] == '/'
    requires NoSlash(name)
    ensures Basename(dir + name) == name
  {
    var p := dir + name;
    var r := Basename(p);
    NotShorter(p, |dir|);
    NotLonger(p, |dir|);
    assert p[|dir|..] == name;
  }

  /** The basename reaches back to the last '/' at least: past the end of the
      part of `p` that has none. */
  lemma NotShorter(p: string, d: nat)
    requires d <= |p| && NoSlash(p[d..])
    ensures |Basename(p)| >= |p| - d
  {
    var r := Basename(p);
    assert forall k :: d <= k < |p| ==> p[k] != '/' by {
      assert forall k :: d <= k < |p| ==> p[k] == p[d..][k - d];
    }
  }

  /** The basename does not reach back past a '/'. */
  lemma NotLonger(p: string, d: nat)
    requires 0 < d <= |p| ==> p[d - 1] == '/'
    requires d <= |p|
    ensures |Basename(p)| <= |p| - d
  {
    var r := Basename(p);
    assert forall j :: |p| - |r| <= j < |p| ==> p[j] != '/' by {
      assert forall j :: |p| - |r| <= j < |p| ==> p[j] == r[j - (|p| - |r|)];
    }
  }
}
