/** Python 2's `posixpath.join`, the path arithmetic behind every file name of the training tool. */
module PosixPath {
  predicate IsAbsolute(p: string)
  {
    p != [] && p[0] == '/'
  }

  /** `join(a, b)`: an absolute `b` discards `a`; otherwise a slash is put between them unless `a` is empty or already ends in one. */
  function Join(a: string, b: string): string
  {
    if IsAbsolute(b) then b
    else if a == [] || a[|a| - 1] == '/' then a + b
    else a + "/" + b
  }

  /** `join(a, b, c)` folds left: `join(join(a, b), c)`. */
  function Join3(a: string, b: string, c: string): string
  {
    Join(Join(a, b), c)
  }

  /**
    The joined path always ends with the last part. Unless the last part is
    absolute, it starts with the first part and holds at most one character
    between them: a slash, present exactly when the first part is non-empty
    and does not already end in one.
   */
  lemma JoinParts(a: string, b: string)
    ensures var r := Join(a, b);
            && |b| <= |r| && r[|r| - |b|..] == b
            && (IsAbsolute(b) ==> r == b)
            && (!IsAbsolute(b) ==>
                  && |a| <= |r| && r[..|a|] == a
                  && (|r| == |a| + |b| || |r| == |a| + |b| + 1)
                  && (|r| == |a| + |b| + 1 <==> a != [] && a[|a| - 1] != '/')
                  && (|r| == |a| + |b| + 1 ==> r[|a|] == '/'))
  {
    var r := Join(a, b);
    if !IsAbsolute(b) {
      assert r[..|a|] == a;
    }
  }

  /** Joining a relative name to a directory that neither ends in a slash nor is empty inserts exactly one slash. */
  lemma JoinRelative(a: string, b: string)
    requires a != [] && a[|a| - 1] != '/' && !IsAbsolute(b)
    ensures Join(a, b) == a + "/" + b
    ensures IsAbsolute(a) ==> IsAbsolute(Join(a, b))
    ensures !IsAbsolute(a) ==> !IsAbsolute(Join(a, b))
    ensures |Join(a, b)| > 0 && Join(a, b)[|Join(a, b)| - 1] == (if b == [] then '/' else b[|b| - 1])
  {
  }
}
