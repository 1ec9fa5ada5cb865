/**
 * The three `os.path` operations the upload route uses to name its files,
 * with POSIX separators: `splitext`, `join` and `basename`.
 */
module Paths {

  /** The index of the last `c` in `s`, or -1 when there is none (`str.rfind`). */
  function LastIndex(s: string, c: char): (k: int)
    ensures -1 <= k < |s|
    ensures k >= 0 ==> s[k] == c
    ensures forall i :: k < i < |s| ==> s[i] != c
  {
    if s == [] then -1
    else if s[|s| - 1] == c then |s| - 1
    else LastIndex(s[..|s| - 1], c)
  }

  /** Whether some character of `s[from..to]` is not a dot. */
  predicate HasNonDot(s: string, from: int, to: int)
    requires 0 <= from && to <= |s|
  {
    exists i :: from <= i < to && s[i] != '.'
  }

  /**
   * `os.path.splitext`: the extension starts at the last dot of the last
   * path component, unless everything before that dot in the component is
   * dots too (a hidden file has no extension).
   */
  function Splitext(p: string): (r: (string, string))
    ensures r.0 + r.1 == p
    ensures r.1 == [] || (r.1[0] == '.' && '.' !in r.1[1..] && '/' !in r.1)
    ensures r.1 != [] ==> HasNonDot(p, LastIndex(p, '/') + 1, |r.0|)
    ensures LastIndex(p, '.') > LastIndex(p, '/') && HasNonDot(p, LastIndex(p, '/') + 1, LastIndex(p, '.'))
            ==> r.1 != []
  {
    var sep := LastIndex(p, '/');
    var dot := LastIndex(p, '.');
    if dot > sep && HasNonDot(p, sep + 1, dot) then
      assert p[..dot] + p[dot..] == p;
      (p[..dot], p[dot..])
    else (p, [])
  }

  /** The upload names the route sees split as expected: `video.mp4` has stem `video`. */
  lemma SplitextExample()
    ensures Splitext("video.mp4") == ("video", ".mp4")
    ensures Splitext(".bashrc") == (".bashrc", "")
    ensures Splitext("dir.d/clip") == ("dir.d/clip", "")
  {
    assert LastIndex("video.mp4", '/') == -1;
    LastIndexIsLast("video.mp4", '.', 5);
    assert HasNonDot("video.mp4", 0, 5) by { assert "video.mp4"[0] != '.'; }
    assert "video.mp4"[..5] == "video" && "video.mp4"[5..] == ".mp4";
    LastIndexIsLast(".bashrc", '.', 0);
    LastIndexIsLast("dir.d/clip", '/', 5);
  }

  /** `os.path.join(a, b)` for a directory `a` without a trailing slash. */
  function PathJoin(a: string, b: string): string {
    if |b| > 0 && b[0] == '/' then b else a + "/" + b
  }

  /** `os.path.basename`: what follows the last slash. */
  function Basename(p: string): (r: string)
    ensures '/' !in r
    ensures |r| <= |p| && r == p[|p| - |r|..]
    ensures |r| < |p| ==> p[|p| - |r| - 1] == '/'
  {
    p[LastIndex(p, '/') + 1..]
  }

  /** A name without slashes is its own base name. */
  lemma BasenameOfName(p: string)
    requires '/' !in p
    ensures Basename(p) == p
  {
  }

  /** A path with a non-empty last component keeps its base name when it is put in a directory. */
  lemma BasenameOfJoin(a: string, b: string)
    requires b != [] && b[|b| - 1] != '/'
    ensures Basename(PathJoin(a, b)) == Basename(b)
  {
    if !(|b| > 0 && b[0] == '/') {
      var j := a + "/" + b;
      var k := LastIndex(b, '/');
      assert j[|a| + 1..] == b;
      assert LastIndex(j, '/') == |a| + 1 + k by {
        forall i | |a| + 1 + k < i < |j| ensures j[i] != '/' {
          assert j[i] == b[i - |a| - 1];
        }
        if k >= 0 {
          assert j[|a| + 1 + k] == b[k];
        } else {
          assert j[|a|] == '/';
        }
        LastIndexIsLast(j, '/', |a| + 1 + k);
      }
      assert j[|a| + 1 + k + 1..] == b[k + 1..];
    }
  }

  /** A `c` with no `c` after it is the last one. */
  lemma {:induction false} LastIndexIsLast(s: string, c: char, k: int)
    requires 0 <= k < |s| && s[k] == c
    requires forall i :: k < i < |s| ==> s[i] != c
    ensures LastIndex(s, c) == k
    decreases |s|
  {
    if k < |s| - 1 {
      var init := s[..|s| - 1];
      forall i | k < i < |init| ensures init[i] != c {
        assert init[i] == s[i];
      }
      LastIndexIsLast(init, c, k);
    }
  }
}
