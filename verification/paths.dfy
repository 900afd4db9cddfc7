/** Path and C-string helpers with the semantics of Android's bionic libc:
    `basename` and `dirname` from <libgen.h>, and NUL-terminated buffers. */
module Paths {

  /** The C string held by a buffer: everything before the first NUL. */
  function CStr(s: string): (r: string)
    ensures r <= s
    ensures '\0' !in r
    ensures |r| < |s| ==> s[|r|] == '\0'
  {
    if |s| == 0 || s[0] == '\0' then [] else [s[0]] + CStr(s[1..])
  }

  /** Walks left from index `e` while the character under the cursor is a '/'
      (when `slash`) or is not one (when `!slash`), never past index 0. */
  function Back(p: string, e: nat, slash: bool): (r: nat)
    requires e < |p|
    ensures r <= e
    ensures r == 0 || (p[r] == '/') != slash
    ensures forall k :: r < k <= e ==> (p[k] == '/') == slash
    decreases e
  {
    if e > 0 && (p[e] == '/') == slash then Back(p, e - 1, slash) else e
  }

  /** The three properties above pin `Back` down: any index with them is it. */
  lemma BackUnique(p: string, e: nat, slash: bool, r: nat)
    requires e < |p| && r <= e
    requires r == 0 || (p[r] == '/') != slash
    requires forall k :: r < k <= e ==> (p[k] == '/') == slash
    ensures Back(p, e, slash) == r
  {
  }

  /** bionic `dirname`: drop trailing slashes, the last component and the
      slashes before it; "." when no slash is left, "/" for the root. */
  function Dirname(p: string): (r: string)
    ensures |r| > 0
  {
    if |p| == 0 then "."
    else
      var last := Back(p, |p| - 1, true);
      var sep := Back(p, last, false);
      if sep == 0 then (if p[0] == '/' then "/" else ".")
      else p[..Back(p, sep - 1, true) + 1]
  }

  /** bionic `basename`: the last component, trailing slashes ignored. */
  function Basename(p: string): (r: string)
    ensures |r| > 0
    ensures r != "/" ==> '/' !in r
  {
    if |p| == 0 then "."
    else
      var last := Back(p, |p| - 1, true);
      if last == 0 && p[0] == '/' then "/"
      else
        var sep := Back(p, last, false);
        var start := if p[sep] == '/' then sep + 1 else sep;
        p[start..last + 1]
  }

  /** A directory string as `Dirname` produces it: non-empty, and ending in a
      slash only when it is the root. */
  predicate WellFormedDir(d: string) {
    |d| > 0 && (d[|d| - 1] == '/' ==> d == "/")
  }

  /** A single path component: non-empty and slash-free. */
  predicate Component(c: string) {
    |c| > 0 && '/' !in c
  }

  lemma {:induction false} DirnameWellFormed(p: string)
    ensures WellFormedDir(Dirname(p))
  {
    if |p| > 0 {
      var last := Back(p, |p| - 1, true);
      var sep := Back(p, last, false);
      if sep != 0 {
        var e := Back(p, sep - 1, true);
        assert Dirname(p) == p[..e + 1];
        assert Dirname(p)[e] == p[e];
      }
    }
  }

  /** Going up from `d/c` lands on `d`. */
  lemma {:induction false} DirnameOfChild(d: string, c: string)
    requires WellFormedDir(d) && Component(c)
    ensures Dirname(d + "/" + c) == d
  {
    var p := d + "/" + c;
    var n := |d|;
    assert p[n] == '/';
    assert forall k :: n < k < |p| ==> p[k] == c[k - n - 1];
    assert p[|p| - 1] != '/';
    BackUnique(p, |p| - 1, true, |p| - 1);
    BackUnique(p, |p| - 1, false, n);
    if d == "/" {
      BackUnique(p, 0, true, 0);
      assert p[..1] == "/";
    } else {
      assert p[n - 1] == d[n - 1] != '/';
      BackUnique(p, n - 1, true, n - 1);
      assert p[..n] == d;
    }
  }

  /** The last component of `d/c` is `c`. */
  lemma {:induction false} BasenameOfChild(d: string, c: string)
    requires Component(c)
    ensures Basename(d + "/" + c) == c
  {
    var p := d + "/" + c;
    var n := |d|;
    assert p[n] == '/';
    forall k | n < k < |p|
      ensures p[k] != '/'
    {
      assert p[k] == c[k - n - 1];
    }
    BackUnique(p, |p| - 1, true, |p| - 1);
    BackUnique(p, |p| - 1, false, n);
    assert p[n + 1..] == c;
  }

  /** `Dirname` once the separator before the last component is known. */
  lemma DirnameAt(p: string, sep: nat)
    requires |p| > 0 && sep == Back(p, Back(p, |p| - 1, true), false)
    ensures sep == 0 ==> Dirname(p) == if p[0] == '/' then "/" else "."
    ensures sep != 0 ==> Dirname(p) == p[..Back(p, sep - 1, true) + 1]
  {
  }

  /** `Back` reads nothing right of where it starts. */
  lemma BackPrefix(p: string, q: string, e: nat, slash: bool)
    requires e < |p| <= |q| && q[..|p|] == p
    ensures Back(q, e, slash) == Back(p, e, slash)
  {
    var r := Back(p, e, slash);
    assert forall k :: 0 <= k <= e ==> q[k] == q[..|p|][k];
    BackUnique(q, e, slash, r);
  }

  /** Past the end of `p`, the extension `x` adds no separator. */
  lemma BackOverExtension(p: string, x: string, sep: nat)
    requires |p| > 0 && p[|p| - 1] != '/' && '/' !in x
    requires sep == Back(p, |p| - 1, false)
    ensures Back(p + x, |p + x| - 1, true) == |p + x| - 1
    ensures Back(p + x, |p + x| - 1, false) == sep
  {
    var q := p + x;
    forall k | sep < k < |q|
      ensures q[k] != '/'
    {
      if k < |p| { assert q[k] == p[k]; } else { assert q[k] == x[k - |p|]; }
    }
    BackUnique(q, |q| - 1, true, |q| - 1);
    BackUnique(q, |q| - 1, false, sep);
  }

  /** Lengthening the last component of a path leaves its directory alone. */
  lemma {:induction false} DirnameOfExtended(p: string, x: string)
    requires |p| > 0 && p[|p| - 1] != '/' && '/' !in x
    ensures Dirname(p + x) == Dirname(p)
  {
    var q := p + x;
    BackUnique(p, |p| - 1, true, |p| - 1);
    var sep := Back(p, |p| - 1, false);
    BackOverExtension(p, x, sep);
    DirnameAt(p, sep);
    DirnameAt(q, sep);
    if sep != 0 {
      assert q[..|p|] == p;
      BackPrefix(p, q, sep - 1, true);
      var e := Back(p, sep - 1, true);
      assert q[..e + 1] == p[..e + 1] by {
        assert q[..e + 1] == q[..|p|][..e + 1];
      }
      assert Dirname(q) == q[..e + 1];
      assert Dirname(p) == p[..e + 1];
    } else {
      assert q[0] == p[0];
      assert Dirname(q) == Dirname(p);
    }
  }
}
