/**
  The Python 2 `str` operations the training tool uses, on byte strings read as
  `seq<char>`: `split(sep, 1)`, `split("/")[-1]`, `strip(c)`, `lower()`,
  `replace(old, new)`, the `in` test, and a regular-expression search for a digit.
 */
module PyStr {
  import opened Wrappers

  predicate StartsWith(s: string, p: string)
  {
    |p| <= |s| && s[..|p|] == p
  }

  /** `p in s` for strings: `p` occurs somewhere in `s` (the empty string occurs everywhere). */
  predicate Occurs(s: string, p: string)
    decreases |s|
  {
    StartsWith(s, p) || (|p| <= |s| && s != [] && Occurs(s[1..], p))
  }

  /** `fst, snd = s.split(sep, 1)`: the text before and after the first `sep`;
      `None` when `sep` does not occur, where the two-name unpacking raises. */
  function SplitOnce(s: string, sep: char): Option<(string, string)>
  {
    if s == [] then None
    else if s[0] == sep then Some(([], s[1..]))
    else match SplitOnce(s[1..], sep)
      case None => None
      case Some((head, tail)) => Some(([s[0]] + head, tail))
  }

  /** The split fails exactly when `sep` is absent, and otherwise cuts `s` at its first `sep`. */
  lemma {:induction false} SplitOnceSpec(s: string, sep: char)
    ensures SplitOnce(s, sep).None? <==> sep !in s
    ensures SplitOnce(s, sep).Some? ==>
      var (head, tail) := SplitOnce(s, sep).value;
      s == head + [sep] + tail && sep !in head
  {
    if s != [] {
      SplitOnceSpec(s[1..], sep);
      assert s == [s[0]] + s[1..];
    }
  }

  /** `s.split("/")[-1]`: what follows the last slash, or all of `s` when it has none. */
  function LastSegment(s: string): string
  {
    s[LastSlash(s) + 1..]
  }

  /** Index of the last `/` of `s`, or -1 when there is none. */
  function LastSlash(s: string): (k: int)
    ensures -1 <= k < |s|
  {
    if s == [] then -1
    else if s[|s| - 1] == '/' then |s| - 1
    else LastSlash(s[..|s| - 1])
  }

  lemma {:induction false} LastSlashSpec(s: string)
    ensures LastSlash(s) >= 0 ==> s[LastSlash(s)] == '/'
    ensures forall i :: LastSlash(s) < i < |s| ==> s[i] != '/'
  {
    if s != [] && s[|s| - 1] != '/' {
      LastSlashSpec(s[..|s| - 1]);
    }
  }

  /** The last segment has no slash; it is a suffix of `s`, and either all of it or preceded by a slash. */
  lemma LastSegmentSpec(s: string)
    ensures var r := LastSegment(s);
            && '/' !in r
            && |r| <= |s| && s == s[..|s| - |r|] + r
            && (|r| == |s| || s[|s| - |r| - 1] == '/')
  {
    var k := LastSlash(s);
    LastSlashSpec(s);
    assert s == s[..k + 1] + s[k + 1..];
  }

  /** A path without a slash is its own last segment. */
  lemma LastSegmentOfPlain(s: string)
    requires '/' !in s
    ensures LastSegment(s) == s
  {
    LastSlashSpec(s);
    assert forall i :: 0 <= i < |s| ==> s[i] in s;
    assert s[0..] == s;
  }

  predicate IsDigit(c: char)
  {
    '0' <= c <= '9'
  }

  /** `re.compile(r"[0-9]").search(s)` succeeds. */
  predicate HasDigit(s: string)
  {
    s != [] && (IsDigit(s[0]) || HasDigit(s[1..]))
  }

  /** The search succeeds exactly when some character of `s` is an ASCII digit. */
  lemma {:induction false} HasDigitIff(s: string)
    ensures HasDigit(s) <==> exists i :: 0 <= i < |s| && IsDigit(s[i])
  {
    if s != [] {
      HasDigitIff(s[1..]);
      assert forall i :: 0 < i < |s| ==> s[i] == s[1..][i - 1];
    }
  }

  /** `s.lstrip(c)` for a single character. */
  function LStrip(s: string, c: char): (r: string)
    ensures |r| <= |s|
  {
    if s != [] && s[0] == c then LStrip(s[1..], c) else s
  }

  /** What `lstrip` removes is a run of `c`, and what it keeps does not start with `c`. */
  lemma {:induction false} LStripSpec(s: string, c: char)
    ensures var r := LStrip(s, c);
            && r == s[|s| - |r|..]
            && (forall i :: 0 <= i < |s| - |r| ==> s[i] == c)
            && (r == [] || r[0] != c)
  {
    if s != [] && s[0] == c {
      LStripSpec(s[1..], c);
    }
  }

  /** `s.rstrip(c)` for a single character. */
  function RStrip(s: string, c: char): (r: string)
    ensures |r| <= |s|
  {
    if s != [] && s[|s| - 1] == c then RStrip(s[..|s| - 1], c) else s
  }

  /** What `rstrip` removes is a run of `c`, and what it keeps does not end with `c`. */
  lemma {:induction false} RStripSpec(s: string, c: char)
    ensures var r := RStrip(s, c);
            && r == s[..|r|]
            && (forall i :: |r| <= i < |s| ==> s[i] == c)
            && (r == [] || r[|r| - 1] != c)
  {
    if s != [] && s[|s| - 1] == c {
      RStripSpec(s[..|s| - 1], c);
    }
  }

  /** `s.strip(c)`: `c` removed from both ends. */
  function Strip(s: string, c: char): string
  {
    RStrip(LStrip(s, c), c)
  }

  /** `strip` keeps a middle slice of `s`, drops only copies of `c` around it, and leaves no `c` at either end. */
  lemma StripSpec(s: string, c: char)
    ensures var r := Strip(s, c);
            && (exists i :: 0 <= i <= |s| - |r| && s[i..][..|r|] == r
                         && (forall k :: 0 <= k < i ==> s[k] == c)
                         && (forall k :: i + |r| <= k < |s| ==> s[k] == c))
            && (r == [] || (r[0] != c && r[|r| - 1] != c))
  {
    var l := LStrip(s, c);
    var r := RStrip(l, c);
    LStripSpec(s, c);
    RStripSpec(l, c);
    var i := |s| - |l|;
    assert s[i..][..|r|] == r;
    assert forall k :: i + |r| <= k < |s| ==> s[k] == l[k - i];
  }

  lemma StripUntouched(s: string, c: char)
    requires s == [] || (s[0] != c && s[|s| - 1] != c)
    ensures Strip(s, c) == s
  {
  }

  lemma StripTrailing(s: string, c: char)
    requires s == [] || (s[0] != c && s[|s| - 1] != c)
    ensures Strip(s + [c], c) == s
  {
    if s == [] {
      assert LStrip([c], c) == LStrip([c][1..], c);
      assert [c][1..] == [];
    } else {
      assert LStrip(s + [c], c) == s + [c];
      assert (s + [c])[..|s|] == s;
      assert RStrip(s + [c], c) == RStrip(s, c);
      assert RStrip(s, c) == s;
    }
  }

  predicate IsUpper(c: char)
  {
    'A' <= c <= 'Z'
  }

  function LowerChar(c: char): (r: char)
    ensures !IsUpper(r)
    ensures IsUpper(c) ==> r as int == c as int + 32
    ensures !IsUpper(c) ==> r == c
  {
    if IsUpper(c) then (c as int + 32) as char else c
  }

  /** `s.lower()` in the C locale: only the ASCII capitals change. */
  function Lower(s: string): (r: string)
    ensures |r| == |s|
  {
    if s == [] then [] else Lower(s[..|s| - 1]) + [LowerChar(s[|s| - 1])]
  }

  lemma {:induction false} LowerSpec(s: string)
    ensures forall i :: 0 <= i < |s| ==> Lower(s)[i] == LowerChar(s[i])
  {
    if s != [] {
      LowerSpec(s[..|s| - 1]);
    }
  }

  lemma LowerHasNoUpper(s: string)
    ensures forall i :: 0 <= i < |s| ==> !IsUpper(Lower(s)[i])
  {
    LowerSpec(s);
  }

  lemma LowerUntouched(s: string)
    requires forall i :: 0 <= i < |s| ==> !IsUpper(s[i])
    ensures Lower(s) == s
  {
    LowerSpec(s);
  }

  /** `s.replace("", rep)`: `rep` before every character and at the end. */
  function Interleave(s: string, rep: string): (r: string)
    ensures |r| == |s| * (|rep| + 1) + |rep|
  {
    if s == [] then rep else rep + [s[0]] + Interleave(s[1..], rep)
  }

  /** `s.replace(pat, rep)`: every leftmost, non-overlapping occurrence of `pat` replaced by `rep`. */
  function ReplaceAll(s: string, pat: string, rep: string): string
    decreases |s|
  {
    if pat == [] then Interleave(s, rep)
    else if |s| < |pat| then s
    else if s[..|pat|] == pat then rep + ReplaceAll(s[|pat|..], pat, rep)
    else [s[0]] + ReplaceAll(s[1..], pat, rep)
  }

  /** A string that does not contain `pat` is returned unchanged. */
  lemma {:induction false} ReplaceAllAbsent(s: string, pat: string, rep: string)
    requires !Occurs(s, pat)
    ensures ReplaceAll(s, pat, rep) == s
    decreases |s|
  {
    if |s| >= |pat| && s != [] {
      ReplaceAllAbsent(s[1..], pat, rep);
    }
  }

  /** A string that lacks some character of `pat` does not contain `pat`. */
  lemma {:induction false} AbsentByChar(s: string, pat: string, c: char)
    requires c in pat && c !in s
    ensures !Occurs(s, pat)
    decreases |s|
  {
    var k :| 0 <= k < |pat| && pat[k] == c;
    if |pat| <= |s| {
      assert s[..|pat|][k] == s[k];
    }
    if |pat| <= |s| && s != [] {
      AbsentByChar(s[1..], pat, c);
    }
  }

  /** The whole string equal to the pattern becomes the replacement. */
  lemma ReplaceAllExact(pat: string, rep: string)
    requires pat != []
    ensures ReplaceAll(pat, pat, rep) == rep
  {
    assert pat[..|pat|] == pat;
    assert pat[|pat|..] == [];
  }

  /** A one-character pattern with a one-character replacement rewrites character by character. */
  lemma {:induction false} ReplaceCharPointwise(s: string, a: char, b: char)
    ensures |ReplaceAll(s, [a], [b])| == |s|
    ensures forall i :: 0 <= i < |s| ==> ReplaceAll(s, [a], [b])[i] == if s[i] == a then b else s[i]
    decreases |s|
  {
    if s != [] {
      ReplaceCharPointwise(s[1..], a, b);
      assert s[..1] == [s[0]];
    }
  }

  /**
    Conditions under which `rep` can take part in no new occurrence of `pat`:
    the first character of `pat` appears in `rep` at most at its start, and is
    not followed there by the rest of `pat`; and `rep` starts with a character
    that `pat` has nowhere after its start.
   */
  predicate NoNewOccurrence(pat: string, rep: string)
  {
    && |pat| > 0 && |rep| > 0
    && pat[0] !in rep[1..]
    && (rep[0] == pat[0] ==> |pat| <= |rep| && rep[..|pat|] != pat)
    && rep[0] !in pat[1..]
  }

  lemma ReplaceAllCons(c: char, v: string, pat: string, rep: string)
    requires pat != [] && !StartsWith([c] + v, pat)
    ensures ReplaceAll([c] + v, pat, rep) == [c] + ReplaceAll(v, pat, rep)
  {
    var t := [c] + v;
    assert t[1..] == v;
  }

  /** No suffix of the replacement text starts a match, whatever follows it. */
  lemma RepSuffixNoMatch(rep: string, k: nat, u: string, pat: string)
    requires NoNewOccurrence(pat, rep) && k < |rep|
    ensures !StartsWith(rep[k..] + u, pat)
  {
    var t := rep[k..] + u;
    assert t[0] == rep[k];
    if k == 0 {
      if rep[0] == pat[0] && |pat| <= |t| {
        assert t[..|pat|] == rep[..|pat|];
      }
    } else {
      assert rep[1..][k - 1] == rep[k];
    }
    if |pat| <= |t| {
      assert t[..|pat|][0] == t[0];
    }
  }

  /** The replacement text is passed over without matching. */
  lemma {:induction false} ReplaceAllSkipsRep(rep: string, k: nat, u: string, pat: string)
    requires NoNewOccurrence(pat, rep) && k <= |rep|
    ensures ReplaceAll(rep[k..] + u, pat, rep) == rep[k..] + ReplaceAll(u, pat, rep)
    decreases |rep| - k
  {
    if k < |rep| {
      RepSuffixNoMatch(rep, k, u, pat);
      ReplaceAllSkipsRep(rep, k + 1, u, pat);
      assert rep[k..] == [rep[k]] + rep[k + 1..];
      assert rep[k..] + u == [rep[k]] + (rep[k + 1..] + u);
      ReplaceAllCons(rep[k], rep[k + 1..] + u, pat, rep);
    } else {
      assert rep[k..] + u == u;
    }
  }

  /** Text that does not start with a proper suffix `q` of `pat` keeps not starting with it. */
  lemma {:induction false} ReplaceAllKeepsNonPrefix(w: string, q: string, pat: string, rep: string)
    requires NoNewOccurrence(pat, rep) && q != [] && rep[0] !in q
    requires !StartsWith(w, q)
    ensures !StartsWith(ReplaceAll(w, pat, rep), q)
    decreases |w|
  {
    if |w| < |pat| {
    } else if w[..|pat|] == pat {
      var r := ReplaceAll(w, pat, rep);
      assert r[0] == rep[0];
    } else {
      var v := ReplaceAll(w[1..], pat, rep);
      assert ReplaceAll(w, pat, rep) == [w[0]] + v;
      assert q == [q[0]] + q[1..];
      if |q| <= |[w[0]] + v| {
        assert ([w[0]] + v)[..|q|] == [w[0]] + v[..|q| - 1];
      }
      if w[0] == q[0] {
        assert w[..1] == [w[0]];
        assert |q| <= |w| ==> w[..|q|] == [w[0]] + w[1..][..|q| - 1];
        ReplaceAllKeepsNonPrefix(w[1..], q[1..], pat, rep);
      }
    }
  }

  /**
    Under `NoNewOccurrence`, replacing a second time changes nothing: the
    output of `ReplaceAll` contains no occurrence that a second pass would find.
   */
  lemma {:induction false} ReplaceAllIdempotent(s: string, pat: string, rep: string)
    requires NoNewOccurrence(pat, rep)
    ensures ReplaceAll(ReplaceAll(s, pat, rep), pat, rep) == ReplaceAll(s, pat, rep)
    decreases |s|
  {
    if |s| < |pat| {
    } else if s[..|pat|] == pat {
      var v := ReplaceAll(s[|pat|..], pat, rep);
      ReplaceAllIdempotent(s[|pat|..], pat, rep);
      ReplaceAllSkipsRep(rep, 0, v, pat);
      assert rep[0..] == rep;
    } else {
      var v := ReplaceAll(s[1..], pat, rep);
      assert ReplaceAll(s, pat, rep) == [s[0]] + v;
      assert !StartsWith([s[0]] + v, pat) by {
        var q := pat[1..];
        assert pat == [pat[0]] + q;
        assert s[..|pat|] == [s[0]] + s[1..][..|q|];
        if |pat| <= |[s[0]] + v| {
          assert ([s[0]] + v)[..|pat|] == [s[0]] + v[..|q|];
        }
        if s[0] == pat[0] {
          ReplaceAllKeepsNonPrefix(s[1..], q, pat, rep);
        }
      }
      ReplaceAllCons(s[0], v, pat, rep);
      ReplaceAllIdempotent(s[1..], pat, rep);
    }
  }

  /** The replacement of a whole leading match. */
  lemma ReplaceAllLeading(pat: string, v: string, rep: string)
    requires pat != []
    ensures ReplaceAll(pat + v, pat, rep) == rep + ReplaceAll(v, pat, rep)
  {
    var s := pat + v;
    assert s[..|pat|] == pat && s[|pat|..] == v;
  }

  /** A text whose first character is not the pattern's first does not start a match. */
  lemma PlainHead(u: string, w: string, pat: string)
    requires pat != [] && pat[0] !in u && u != []
    ensures u + w == [u[0]] + (u[1..] + w) && !StartsWith([u[0]] + (u[1..] + w), pat)
    ensures pat[0] !in u[1..]
  {
    var t := [u[0]] + (u[1..] + w);
    assert u == [u[0]] + u[1..];
    assert |pat| <= |t| ==> t[..|pat|][0] == u[0];
  }

  /** Text that cannot start a match passes through the replacement unchanged. */
  lemma {:induction false} ReplaceAllPlainPrefix(u: string, w: string, pat: string, rep: string)
    requires pat != [] && pat[0] !in u
    ensures ReplaceAll(u + w, pat, rep) == u + ReplaceAll(w, pat, rep)
    decreases |u|
  {
    if u != [] {
      PlainHead(u, w, pat);
      ReplaceAllCons(u[0], u[1..] + w, pat, rep);
      ReplaceAllPlainPrefix(u[1..], w, pat, rep);
    } else {
      assert u + w == w;
    }
  }

  /** Text free of `pat` stays free of it behind a prefix that cannot start a match. */
  lemma {:induction false} AbsentBehindPlainPrefix(u: string, x: string, pat: string)
    requires pat != [] && pat[0] !in u && !Occurs(x, pat)
    ensures !Occurs(u + x, pat)
    decreases |u|
  {
    if u != [] {
      var t := u + x;
      assert u[0] in u && t[0] == u[0];
      assert |pat| <= |t| ==> t[..|pat|][0] == t[0];
      assert t[1..] == u[1..] + x;
      assert u == [u[0]] + u[1..] && pat[0] !in u[1..];
      AbsentBehindPlainPrefix(u[1..], x, pat);
    } else {
      assert u + x == x;
    }
  }

  /** Only a text at least as long as the pattern can contain it. */
  lemma {:induction false} OccursFits(s: string, pat: string)
    requires Occurs(s, pat)
    ensures |pat| <= |s|
    decreases |s|
  {
    if !StartsWith(s, pat) {
      OccursFits(s[1..], pat);
    }
  }

  /**
    Two texts free of `pat` are still free of it side by side when the second
    starts with a character `pat` lacks: no match can straddle the seam.
   */
  lemma {:induction false} AbsentJoin(x: string, v: string, pat: string)
    requires pat != [] && !Occurs(x, pat) && !Occurs(v, pat)
    requires v != [] ==> v[0] !in pat
    ensures !Occurs(x + v, pat)
    decreases |x|
  {
    if x == [] {
      assert x + v == v;
    } else {
      var t := x + v;
      if |pat| <= |x| {
        assert t[..|pat|] == x[..|pat|];
      } else if |pat| <= |t| {
        assert t[..|pat|][|x|] == v[0];
      }
      if Occurs(x[1..], pat) {
        OccursFits(x[1..], pat);
      }
      assert t[1..] == x[1..] + v;
      AbsentJoin(x[1..], v, pat);
    }
  }

  /** A text free of `pat` and followed by a match of a `pat` that does not repeat its first character starts no match. */
  lemma FreeHead(u: string, w: string, pat: string)
    requires pat != [] && pat[0] !in pat[1..] && StartsWith(w, pat) && !Occurs(u, pat) && u != []
    ensures u + w == [u[0]] + (u[1..] + w) && !StartsWith([u[0]] + (u[1..] + w), pat)
  {
    var t := [u[0]] + (u[1..] + w);
    assert u + w == t;
    if |pat| <= |u| {
      assert t[..|pat|] == u[..|pat|];
    } else if |pat| <= |t| {
      assert t[..|pat|][|u|] == w[0] == w[..|pat|][0];
      assert pat[1..][|u| - 1] == pat[|u|];
    }
  }

  /**
    Text free of `pat` passes through the replacement unchanged when a match
    follows it, provided `pat` does not repeat its first character: a match
    beginning in `u` would have to end inside `u`.
   */
  lemma {:induction false} ReplaceAllFreePrefix(u: string, w: string, pat: string, rep: string)
    requires pat != [] && pat[0] !in pat[1..] && StartsWith(w, pat) && !Occurs(u, pat)
    ensures ReplaceAll(u + w, pat, rep) == u + ReplaceAll(w, pat, rep)
    decreases |u|
  {
    if u == [] {
      assert u + w == w;
    } else {
      var v := u[1..] + w;
      FreeHead(u, w, pat);
      AbsentTail(u, pat);
      ReplaceAllCons(u[0], v, pat, rep);
      ReplaceAllFreePrefix(u[1..], w, pat, rep);
      ConsRegroup(u, ReplaceAll(w, pat, rep));
    }
  }

  /** Dropping the first character of a text free of `pat` leaves it free of `pat`. */
  lemma AbsentTail(u: string, pat: string)
    requires !Occurs(u, pat) && u != []
    ensures !Occurs(u[1..], pat)
  {
    if Occurs(u[1..], pat) {
      OccursFits(u[1..], pat);
    }
  }

  lemma ConsRegroup(u: string, x: string)
    requires u != []
    ensures [u[0]] + (u[1..] + x) == u + x
  {
    assert u == [u[0]] + u[1..];
  }
}
