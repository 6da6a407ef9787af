/**
  `Train._collect_transcriptions` (voxforgesphinxtrain/train.py): every
  line of every speaker directory's PROMPTS file is parsed, the lines that
  fail are reported and skipped, and the records are sorted by their
  rendered form with Python's stable `list.sort`.
 */
module Collector {
  import opened Wrappers
  import opened StrOrder
  import opened Transcriptions
  import opened Multisets

  /** One entry of the wav directory: its name and, when `etc/PROMPTS` is a file, that file's lines. */
  datatype SpeakerDir = SpeakerDir(name: string, prompts: Option<seq<string>>)

  /** What the collector prints instead of a record. */
  datatype Notice =
    | BadLine(error: ParseError)   // the exception raised by `Transcription(line, dirname)`
    | NoPrompts(dirname: string)   // "Directory [...] had no PROMPTS file, skipping"

  // ---------------------------------------------------------------------------
  // What one directory and one listing contribute
  // ---------------------------------------------------------------------------

  type Outcome = Result<Transcription, ParseError>

  /** What `Transcription(line, dirname)` gives for each line of a PROMPTS file: a record or the exception it raises. */
  function Outcomes(lines: seq<string>, dirname: string): seq<Outcome>
  {
    seq(|lines|, j requires 0 <= j < |lines| => Parse(lines[j], dirname))
  }

  /** The records among the outcomes, in order: the lines that are appended. */
  function Records(rs: seq<Outcome>): seq<Transcription>
  {
    if rs == [] then []
    else Records(rs[..|rs| - 1]) + (if rs[|rs| - 1].Success? then [rs[|rs| - 1].value] else [])
  }

  /** The exceptions among the outcomes, in order: the lines that are printed and skipped. */
  function Errors(rs: seq<Outcome>): seq<Notice>
  {
    if rs == [] then []
    else Errors(rs[..|rs| - 1]) + (if rs[|rs| - 1].Failure? then [BadLine(rs[|rs| - 1].error)] else [])
  }

  function Accepted(lines: seq<string>, dirname: string): seq<Transcription>
  {
    Records(Outcomes(lines, dirname))
  }

  /** The records a listing yields before sorting, in listing order. */
  function Collected(listing: seq<SpeakerDir>): seq<Transcription>
  {
    if listing == [] then []
    else
      var d := listing[|listing| - 1];
      Collected(listing[..|listing| - 1]) +
      match d.prompts
      case None => []
      case Some(lines) => Accepted(lines, d.name)
  }

  function Notices(listing: seq<SpeakerDir>): seq<Notice>
  {
    if listing == [] then []
    else
      var d := listing[|listing| - 1];
      Notices(listing[..|listing| - 1]) +
      match d.prompts
      case None => [NoPrompts(d.name)]
      case Some(lines) => Errors(Outcomes(lines, d.name))
  }

  /** Every line is either appended or reported, never both and never neither. */
  lemma {:induction false} RecordsOrErrors(rs: seq<Outcome>)
    ensures |Records(rs)| + |Errors(rs)| == |rs|
  {
    if rs != [] {
      RecordsOrErrors(rs[..|rs| - 1]);
    }
  }

  lemma {:induction false} RecordsAppend(a: seq<Outcome>, b: seq<Outcome>)
    ensures Records(a + b) == Records(a) + Records(b)
    decreases |b|
  {
    if b != [] {
      var b' := b[..|b| - 1];
      assert (a + b)[..|a + b| - 1] == a + b';
      assert (a + b)[|a + b| - 1] == b[|b| - 1];
      RecordsAppend(a, b');
    } else {
      assert a + b == a;
    }
  }

  lemma OutcomesAppend(a: seq<string>, b: seq<string>, dirname: string)
    ensures Outcomes(a + b, dirname) == Outcomes(a, dirname) + Outcomes(b, dirname)
  {
    var x, y := Outcomes(a + b, dirname), Outcomes(a, dirname) + Outcomes(b, dirname);
    assert |x| == |y|;
    forall j | 0 <= j < |x| ensures x[j] == y[j] {
      if j < |a| {
        assert (a + b)[j] == a[j];
      } else {
        assert (a + b)[j] == b[j - |a|];
      }
    }
  }

  /** A rejected line contributes no record, and the lines after it are still collected. */
  lemma RejectedLineSkipped(a: seq<string>, line: string, b: seq<string>, dirname: string)
    requires Parse(line, dirname).Failure?
    ensures Accepted(a + [line] + b, dirname) == Accepted(a, dirname) + Accepted(b, dirname)
  {
    var oa, ol, ob := Outcomes(a, dirname), Outcomes([line], dirname), Outcomes(b, dirname);
    OutcomesAppend(a + [line], b, dirname);
    OutcomesAppend(a, [line], dirname);
    assert ol == [Parse(line, dirname)];
    assert Records(ol) == [] by {
      assert ol[..0] == [];
    }
    RecordsAppend(oa + ol, ob);
    RecordsAppend(oa, ol);
  }

  lemma {:induction false} RecordsMembers(rs: seq<Outcome>, t: Transcription)
    ensures t in Records(rs) <==> exists j :: 0 <= j < |rs| && rs[j] == Success(t)
  {
    if rs != [] {
      var init := rs[..|rs| - 1];
      RecordsMembers(init, t);
      assert forall j :: 0 <= j < |init| ==> init[j] == rs[j];
      assert rs == init + [rs[|rs| - 1]];
    }
  }

  /** A record comes from a PROMPTS file exactly when some line of it parses to that record. */
  lemma AcceptedMembers(lines: seq<string>, dirname: string, t: Transcription)
    ensures t in Accepted(lines, dirname) <==> exists j :: 0 <= j < |lines| && Parse(lines[j], dirname) == Success(t)
  {
    var rs := Outcomes(lines, dirname);
    RecordsMembers(rs, t);
    if t in Accepted(lines, dirname) {
      var j :| 0 <= j < |rs| && rs[j] == Success(t);
      assert Parse(lines[j], dirname) == Success(t);
    }
    if exists j :: 0 <= j < |lines| && Parse(lines[j], dirname) == Success(t) {
      var j :| 0 <= j < |lines| && Parse(lines[j], dirname) == Success(t);
      assert rs[j] == Success(t);
    }
  }

  /** Independent count of the outcomes that are records, from the front. */
  function Successes(rs: seq<Outcome>): nat
  {
    if rs == [] then 0 else (if rs[0].Success? then 1 else 0) + Successes(rs[1..])
  }

  lemma {:induction false} SuccessesAppend(a: seq<Outcome>, b: seq<Outcome>)
    ensures Successes(a + b) == Successes(a) + Successes(b)
  {
    if a != [] {
      SuccessesAppend(a[1..], b);
      assert (a + b)[1..] == a[1..] + b;
    } else {
      assert a + b == b;
    }
  }

  lemma {:induction false} RecordsCount(rs: seq<Outcome>)
    ensures |Records(rs)| == Successes(rs)
  {
    if rs != [] {
      var init := rs[..|rs| - 1];
      RecordsCount(init);
      assert rs == init + [rs[|rs| - 1]];
      SuccessesAppend(init, [rs[|rs| - 1]]);
      assert [rs[|rs| - 1]][1..] == [];
    }
  }

  lemma {:induction false} CollectedAppend(a: seq<SpeakerDir>, b: seq<SpeakerDir>)
    ensures Collected(a + b) == Collected(a) + Collected(b)
    decreases |b|
  {
    if b != [] {
      var b' := b[..|b| - 1];
      assert (a + b)[..|a + b| - 1] == a + b';
      assert (a + b)[|a + b| - 1] == b[|b| - 1];
      CollectedAppend(a, b');
    } else {
      assert a + b == a;
    }
  }

  /** A directory without a PROMPTS file contributes nothing. */
  lemma NoPromptsContributesNothing(a: seq<SpeakerDir>, name: string, b: seq<SpeakerDir>)
    ensures Collected(a + [SpeakerDir(name, None)] + b) == Collected(a + b)
  {
    var d := [SpeakerDir(name, None)];
    CollectedAppend(a + d, b);
    CollectedAppend(a, d);
    CollectedAppend(a, b);
    assert d[..0] == [];
    assert Collected(d) == [];
  }

  /** The number of lines that parse, summed over the directories that have a PROMPTS file. */
  function AcceptedCount(listing: seq<SpeakerDir>): nat
  {
    if listing == [] then 0
    else
      var d := listing[|listing| - 1];
      AcceptedCount(listing[..|listing| - 1]) +
      match d.prompts
      case None => 0
      case Some(lines) => Successes(Outcomes(lines, d.name))
  }

  /** There are as many records as accepted lines. */
  lemma {:induction false} CollectedCount(listing: seq<SpeakerDir>)
    ensures |Collected(listing)| == AcceptedCount(listing)
  {
    if listing != [] {
      CollectedCount(listing[..|listing| - 1]);
      var d := listing[|listing| - 1];
      if d.prompts.Some? {
        RecordsCount(Outcomes(d.prompts.value, d.name));
      }
    }
  }

  /** Line `j` of the PROMPTS file of entry `i` parses to `t`. */
  predicate FromLine(listing: seq<SpeakerDir>, i: int, j: int, t: Transcription)
  {
    && 0 <= i < |listing| && listing[i].prompts.Some? && 0 <= j < |listing[i].prompts.value|
    && Parse(listing[i].prompts.value[j], listing[i].name) == Success(t)
  }

  /** A record is collected exactly when some line of some PROMPTS file parses to it. */
  lemma {:induction false} CollectedMembers(listing: seq<SpeakerDir>, t: Transcription)
    ensures t in Collected(listing) <==> exists i, j :: FromLine(listing, i, j, t)
  {
    if listing != [] {
      var n := |listing| - 1;
      var init, d := listing[..n], listing[n];
      CollectedMembers(init, t);
      var own := if d.prompts.Some? then Accepted(d.prompts.value, d.name) else [];
      assert Collected(listing) == Collected(init) + own;
      if d.prompts.Some? {
        AcceptedMembers(d.prompts.value, d.name, t);
      }
      if t in Collected(init) {
        var i, j :| FromLine(init, i, j, t);
        assert init[i] == listing[i];
        assert FromLine(listing, i, j, t);
      } else if t in own {
        var j :| 0 <= j < |d.prompts.value| && Parse(d.prompts.value[j], d.name) == Success(t);
        assert FromLine(listing, n, j, t);
      }
      if exists i, j :: FromLine(listing, i, j, t) {
        var i, j :| FromLine(listing, i, j, t);
        if i < n {
          assert init[i] == listing[i];
          assert FromLine(init, i, j, t);
        } else {
          assert i == n && listing[i] == d;
          assert t in own;
        }
      }
    }
  }

  /** Reordering the directory listing leaves the same records, possibly in another order. */
  lemma {:induction false} CollectedPermutation(l1: seq<SpeakerDir>, l2: seq<SpeakerDir>)
    requires multiset(l1) == multiset(l2)
    ensures multiset(Collected(l1)) == multiset(Collected(l2))
    decreases |l1|
  {
    if l1 != [] {
      var p := l1[..|l1| - 1];
      var d := l1[|l1| - 1];
      assert l1 == p + [d];
      assert d in multiset(l2);
      var j :| 0 <= j < |l2| && l2[j] == d;
      var u, v := l2[..j], l2[j + 1..];
      assert l2 == u + [d] + v;
      MultisetInit(l1);
      MultisetRemove(l2, j);
      CollectedPermutation(p, u + v);
      CollectedAppend(p, [d]);
      CollectedAppend(u + [d], v);
      CollectedAppend(u, [d]);
      CollectedAppend(u, v);
    } else {
      assert |l2| == |multiset(l2)|;
    }
  }

  // ---------------------------------------------------------------------------
  // `transcriptions.sort()`: stable, ascending by rendered form
  // ---------------------------------------------------------------------------

  predicate SortedByText(s: seq<Transcription>)
  {
    forall i, j :: 0 <= i < j < |s| ==> LessEq(s[i].text, s[j].text)
  }

  /** The records with rendered form `k`, in their order in `s`. */
  function WithText(s: seq<Transcription>, k: string): seq<Transcription>
  {
    if s == [] then []
    else (if s[0].text == k then [s[0]] else []) + WithText(s[1..], k)
  }

  function Texts(s: seq<Transcription>): (r: seq<string>)
    ensures |r| == |s| && forall i :: 0 <= i < |s| ==> r[i] == s[i].text
  {
    seq(|s|, i requires 0 <= i < |s| => s[i].text)
  }

  function FileIds(s: seq<Transcription>): (r: seq<string>)
    ensures |r| == |s| && forall i :: 0 <= i < |s| ==> r[i] == s[i].fileid
  {
    seq(|s|, i requires 0 <= i < |s| => s[i].fileid)
  }

  /** `x` placed before the first record whose rendered form is not less than its own. */
  function Insert(x: Transcription, s: seq<Transcription>): seq<Transcription>
  {
    if s == [] then [x]
    else if Less(s[0].text, x.text) then [s[0]] + Insert(x, s[1..])
    else [x] + s
  }

  /** Stable sort by rendered form; the earlier of two equal records is inserted last and lands first. */
  function SortByText(s: seq<Transcription>): seq<Transcription>
  {
    if s == [] then [] else Insert(s[0], SortByText(s[1..]))
  }

  lemma SortedCons(h: Transcription, t: seq<Transcription>)
    requires SortedByText(t)
    requires forall y :: y in t ==> LessEq(h.text, y.text)
    ensures SortedByText([h] + t)
  {
    var s := [h] + t;
    forall i, j | 0 <= i < j < |s| ensures LessEq(s[i].text, s[j].text) {
      if i == 0 {
        assert s[j] == t[j - 1];
      } else {
        assert s[i] == t[i - 1] && s[j] == t[j - 1];
      }
    }
  }

  lemma {:induction false} InsertPermutation(x: Transcription, s: seq<Transcription>)
    ensures multiset(Insert(x, s)) == multiset(s) + multiset{x}
  {
    if s != [] && Less(s[0].text, x.text) {
      InsertPermutation(x, s[1..]);
      assert s == [s[0]] + s[1..];
    }
  }

  lemma {:induction false} InsertSorted(x: Transcription, s: seq<Transcription>)
    requires SortedByText(s)
    ensures SortedByText(Insert(x, s))
  {
    if s == [] {
    } else if Less(s[0].text, x.text) {
      var t := s[1..];
      assert SortedByText(t) by {
        assert forall i :: 0 <= i < |t| ==> t[i] == s[i + 1];
      }
      InsertSorted(x, t);
      InsertPermutation(x, t);
      forall y | y in Insert(x, t) ensures LessEq(s[0].text, y.text) {
        assert y in multiset(Insert(x, t));
        if y != x {
          assert y in t;
          var j :| 0 <= j < |t| && t[j] == y;
          assert s[j + 1] == y;
        }
      }
      SortedCons(s[0], Insert(x, t));
    } else {
      NotLessIsLessEq(s[0].text, x.text);
      forall y | y in s ensures LessEq(x.text, y.text) {
        var j :| 0 <= j < |s| && s[j] == y;
        if j > 0 {
          LessEqTransitive(x.text, s[0].text, y.text);
        }
      }
      SortedCons(x, s);
    }
  }

  lemma {:induction false} SortByTextSorted(s: seq<Transcription>)
    ensures SortedByText(SortByText(s))
  {
    if s != [] {
      SortByTextSorted(s[1..]);
      InsertSorted(s[0], SortByText(s[1..]));
    }
  }

  lemma {:induction false} SortByTextPermutation(s: seq<Transcription>)
    ensures multiset(SortByText(s)) == multiset(s)
  {
    if s != [] {
      SortByTextPermutation(s[1..]);
      InsertPermutation(s[0], SortByText(s[1..]));
      assert s == [s[0]] + s[1..];
    }
  }

  lemma {:induction false} WithTextAppend(a: seq<Transcription>, b: seq<Transcription>, k: string)
    ensures WithText(a + b, k) == WithText(a, k) + WithText(b, k)
  {
    if a != [] {
      WithTextAppend(a[1..], b, k);
      assert (a + b)[1..] == a[1..] + b;
    } else {
      assert a + b == b;
    }
  }

  lemma {:induction false} InsertStable(x: Transcription, s: seq<Transcription>, k: string)
    ensures WithText(Insert(x, s), k) == WithText([x], k) + WithText(s, k)
  {
    if s != [] && Less(s[0].text, x.text) {
      InsertStable(x, s[1..], k);
      LessIrreflexive(x.text);
      WithTextAppend([s[0]], Insert(x, s[1..]), k);
      assert s == [s[0]] + s[1..];
      WithTextAppend([s[0]], s[1..], k);
    } else {
      WithTextAppend([x], s, k);
    }
  }

  /** Stability: the records sharing a rendered form keep their relative order. */
  lemma {:induction false} SortByTextStable(s: seq<Transcription>, k: string)
    ensures WithText(SortByText(s), k) == WithText(s, k)
  {
    if s != [] {
      SortByTextStable(s[1..], k);
      InsertStable(s[0], SortByText(s[1..]), k);
      assert WithText([s[0]], k) == (if s[0].text == k then [s[0]] else []) by {
        assert [s[0]][1..] == [];
      }
    }
  }

  lemma {:induction false} WithTextMembers(s: seq<Transcription>, k: string, y: Transcription)
    ensures y in WithText(s, k) <==> y in s && y.text == k
  {
    if s != [] {
      WithTextMembers(s[1..], k, y);
      assert s == [s[0]] + s[1..];
    }
  }

  /**
    Any sorted sequence whose groups of equal rendered forms agree with those
    of another sorted sequence is that sequence: a stable ascending sort has
    exactly one possible result, whatever its algorithm.
   */
  lemma {:induction false} SortedUnique(a: seq<Transcription>, b: seq<Transcription>)
    requires SortedByText(a) && SortedByText(b)
    requires forall k :: WithText(a, k) == WithText(b, k)
    ensures a == b
    decreases |a|
  {
    if a != [] && b != [] {
      var ka, kb := a[0].text, b[0].text;
      WithTextMembers(a, ka, a[0]);
      WithTextMembers(b, ka, a[0]);
      WithTextMembers(b, kb, b[0]);
      WithTextMembers(a, kb, b[0]);
      assert LessEq(kb, ka) by {
        var j :| 0 <= j < |b| && b[j] == a[0];
        assert j > 0 ==> LessEq(b[0].text, b[j].text);
      }
      assert LessEq(ka, kb) by {
        var j :| 0 <= j < |a| && a[j] == b[0];
        assert j > 0 ==> LessEq(a[0].text, a[j].text);
      }
      LessEqAntisymmetric(ka, kb);
      assert WithText(a, ka)[0] == a[0] && WithText(b, ka)[0] == b[0];
      assert a[0] == b[0];
      forall k ensures WithText(a[1..], k) == WithText(b[1..], k) {
        var pre := if a[0].text == k then [a[0]] else [];
        assert WithText(a, k) == pre + WithText(a[1..], k);
        assert WithText(b, k) == pre + WithText(b[1..], k);
        assert WithText(a[1..], k) == WithText(a, k)[|pre|..];
        assert WithText(b[1..], k) == WithText(b, k)[|pre|..];
      }
      assert SortedByText(a[1..]) by {
        assert forall i :: 0 <= i < |a| - 1 ==> a[1..][i] == a[i + 1];
      }
      assert SortedByText(b[1..]) by {
        assert forall i :: 0 <= i < |b| - 1 ==> b[1..][i] == b[i + 1];
      }
      SortedUnique(a[1..], b[1..]);
      assert a == [a[0]] + a[1..] && b == [b[0]] + b[1..];
    } else {
      assert a != [] ==> WithText(a, a[0].text) != [];
      assert b != [] ==> WithText(b, b[0].text) != [];
    }
  }

  /** `SortByText` is the one stable ascending sort. */
  lemma SortByTextIsTheStableSort(s: seq<Transcription>, r: seq<Transcription>)
    requires SortedByText(r) && forall k :: WithText(r, k) == WithText(s, k)
    ensures r == SortByText(s)
  {
    SortByTextSorted(s);
    forall k ensures WithText(r, k) == WithText(SortByText(s), k) {
      SortByTextStable(s, k);
    }
    SortedUnique(r, SortByText(s));
  }

  // ---------------------------------------------------------------------------
  // Determinism on rendered forms
  // ---------------------------------------------------------------------------

  predicate SortedStrings(s: seq<string>)
  {
    forall i, j :: 0 <= i < j < |s| ==> LessEq(s[i], s[j])
  }

  lemma {:induction false} SortedStringsUnique(a: seq<string>, b: seq<string>)
    requires SortedStrings(a) && SortedStrings(b) && multiset(a) == multiset(b)
    ensures a == b
    decreases |a|
  {
    assert |a| == |multiset(a)| && |b| == |multiset(b)|;
    if a != [] {
      SortedHeads(a, b);
      MultisetTail(a);
      MultisetTail(b);
      SortedTail(a);
      SortedTail(b);
      SortedStringsUnique(a[1..], b[1..]);
      SplitAt(a, 0);
      SplitAt(b, 0);
    }
  }

  /** Two sorted sequences with the same elements start alike. */
  lemma SortedHeads(a: seq<string>, b: seq<string>)
    requires SortedStrings(a) && SortedStrings(b) && multiset(a) == multiset(b) && a != []
    ensures b != [] && a[0] == b[0]
  {
    assert a[0] in multiset(b);
    assert b[0] in multiset(a);
    var i :| 0 <= i < |a| && a[i] == b[0];
    var j :| 0 <= j < |b| && b[j] == a[0];
    assert i > 0 ==> LessEq(a[0], a[i]);
    assert j > 0 ==> LessEq(b[0], b[j]);
    LessEqAntisymmetric(a[0], b[0]);
  }

  lemma SortedTail(a: seq<string>)
    requires SortedStrings(a) && a != []
    ensures SortedStrings(a[1..])
  {
    assert forall i :: 0 <= i < |a| - 1 ==> a[1..][i] == a[i + 1];
  }

  lemma TextsAppend(a: seq<Transcription>, b: seq<Transcription>)
    ensures Texts(a + b) == Texts(a) + Texts(b)
  {
  }

  lemma {:induction false} TextsPermutation(x: seq<Transcription>, y: seq<Transcription>)
    requires multiset(x) == multiset(y)
    ensures multiset(Texts(x)) == multiset(Texts(y))
    decreases |x|
  {
    if x != [] {
      assert x[0] in multiset(y);
      var j :| 0 <= j < |y| && y[j] == x[0];
      var u, v := y[..j], y[j + 1..];
      MultisetTail(x);
      MultisetRemove(y, j);
      TextsPermutation(x[1..], u + v);
      SplitAt(x, 0);
      SplitAt(y, j);
      TextsAppend([x[0]], x[1..]);
      TextsAppend(u, [x[0]]);
      TextsAppend(u + [x[0]], v);
      TextsAppend(u, v);
    } else {
      EmptyMultiset(y);
    }
  }

  /**
    Whatever order `os.listdir` returns the speaker directories in, the
    sorted records have the same rendered forms in the same order (records
    that share a rendered form may swap).
   */
  lemma ListingOrderIrrelevant(l1: seq<SpeakerDir>, l2: seq<SpeakerDir>)
    requires multiset(l1) == multiset(l2)
    ensures Texts(SortByText(Collected(l1))) == Texts(SortByText(Collected(l2)))
  {
    var r1, r2 := SortByText(Collected(l1)), SortByText(Collected(l2));
    CollectedPermutation(l1, l2);
    SortByTextPermutation(Collected(l1));
    SortByTextPermutation(Collected(l2));
    TextsPermutation(r1, r2);
    SortByTextSorted(Collected(l1));
    SortByTextSorted(Collected(l2));
    SortedStringsUnique(Texts(r1), Texts(r2));
  }

  // ---------------------------------------------------------------------------
  // The collecting loop
  // ---------------------------------------------------------------------------

  lemma OutcomesStep(lines: seq<string>, j: nat, dirname: string)
    requires j < |lines|
    ensures Outcomes(lines[..j + 1], dirname) == Outcomes(lines[..j], dirname) + [Parse(lines[j], dirname)]
  {
    assert lines[..j + 1] == lines[..j] + [lines[j]];
    OutcomesAppend(lines[..j], [lines[j]], dirname);
  }

  /** One more line of a PROMPTS file: its record is appended, or its exception reported. */
  lemma LineStep(lines: seq<string>, j: nat, dirname: string)
    requires j < |lines|
    ensures var rs, o := Outcomes(lines[..j], dirname), Parse(lines[j], dirname);
      && Records(Outcomes(lines[..j + 1], dirname)) == Records(rs) + (if o.Success? then [o.value] else [])
      && Errors(Outcomes(lines[..j + 1], dirname)) == Errors(rs) + (if o.Failure? then [BadLine(o.error)] else [])
  {
    OutcomesStep(lines, j, dirname);
    var rs := Outcomes(lines[..j], dirname);
    assert (rs + [Parse(lines[j], dirname)])[..|rs|] == rs;
  }

  /** One more directory of the listing. */
  lemma DirStep(listing: seq<SpeakerDir>, i: nat)
    requires i < |listing|
    ensures var d := listing[i];
      && Collected(listing[..i + 1]) == Collected(listing[..i]) + (if d.prompts.Some? then Accepted(d.prompts.value, d.name) else [])
      && Notices(listing[..i + 1]) == Notices(listing[..i]) + (if d.prompts.Some? then Errors(Outcomes(d.prompts.value, d.name)) else [NoPrompts(d.name)])
  {
    assert listing[..i + 1][..i] == listing[..i];
  }

  /** The inner loop of `_collect_transcriptions`: each line of one PROMPTS file is parsed, appended or reported. */
  method ParsePrompts(lines: seq<string>, dirname: string) returns (accepted: seq<Transcription>, reported: seq<Notice>)
    ensures accepted == Accepted(lines, dirname) && reported == Errors(Outcomes(lines, dirname))
  {
    accepted, reported := [], [];
    for j := 0 to |lines|
      invariant accepted == Records(Outcomes(lines[..j], dirname))
      invariant reported == Errors(Outcomes(lines[..j], dirname))
    {
      LineStep(lines, j, dirname);
      match Parse(lines[j], dirname) {
        case Success(t) =>
          accepted := accepted + [t];
        case Failure(e) =>
          reported := reported + [BadLine(e)];
      }
    }
    assert lines[..|lines|] == lines;
  }

  /** `_collect_transcriptions`: `listing` holds the wav directory's entries in `os.listdir` order. */
  method CollectTranscriptions(listing: seq<SpeakerDir>) returns (records: seq<Transcription>, notices: seq<Notice>)
    ensures records == SortByText(Collected(listing)) && notices == Notices(listing)
    ensures SortedByText(records) && multiset(records) == multiset(Collected(listing))
  {
    var transcriptions: seq<Transcription> := [];
    notices := [];
    for i := 0 to |listing|
      invariant transcriptions == Collected(listing[..i]) && notices == Notices(listing[..i])
    {
      var d := listing[i];
      DirStep(listing, i);
      match d.prompts {
        case None =>
          notices := notices + [NoPrompts(d.name)];
        case Some(lines) =>
          var accepted, reported := ParsePrompts(lines, d.name);
          transcriptions := transcriptions + accepted;
          notices := notices + reported;
      }
    }
    assert listing[..|listing|] == listing;
    records := SortByText(transcriptions);
    SortByTextSorted(transcriptions);
    SortByTextPermutation(transcriptions);
  }
}
