/**
  `Train.transcript` (voxforgesphinxtrain/train.py): the sorted records are
  written to five freshly truncated files.  Every record goes to the full
  transcription file; record `idx` goes to the test pair when
  `idx % 10 == 0` and to the train pair otherwise.  Each `print >>` writes
  one line, so a file is modelled as its sequence of lines.
 */
module TranscriptFiles {
  import opened StrOrder
  import opened Transcriptions
  import opened Collector
  import opened Multisets
  import opened TrainLayout

  /** The contents of the five files `transcript` opens with mode `'w'`. */
  datatype Outputs = Outputs(
    transcription: seq<string>,
    trainFileids: seq<string>,
    trainTranscription: seq<string>,
    testFileids: seq<string>,
    testTranscription: seq<string>)

  /** Every tenth record, starting with the first, is held out for testing. */
  predicate IsTest(idx: int)
  {
    idx % 10 == 0
  }

  /** The records whose index is (`test`) or is not (`!test`) a test index, in order. */
  function Pick(rs: seq<Transcription>, test: bool): seq<Transcription>
  {
    if rs == [] then []
    else Pick(rs[..|rs| - 1], test) + (if IsTest(|rs| - 1) == test then [rs[|rs| - 1]] else [])
  }

  /** What the five files hold once `transcript` has written `rs`. */
  function Written(rs: seq<Transcription>): Outputs
  {
    var train, test := Pick(rs, false), Pick(rs, true);
    Outputs(Texts(rs), FileIds(train), Texts(train), FileIds(test), Texts(test))
  }

  // ---------------------------------------------------------------------------
  // Counting and locating the records of each split
  // ---------------------------------------------------------------------------

  /** The number of test indexes below `n`. */
  function TestCount(n: nat): nat
  {
    (n + 9) / 10
  }

  lemma TestCountStep(n: nat)
    ensures TestCount(n + 1) == TestCount(n) + (if IsTest(n) then 1 else 0)
  {
  }

  /** Of `N` records, `(N + 9) / 10` are tested and the rest trained. */
  lemma {:induction false} PickCount(rs: seq<Transcription>)
    ensures |Pick(rs, true)| == TestCount(|rs|)
    ensures |Pick(rs, false)| == |rs| - TestCount(|rs|)
  {
    if rs != [] {
      PickCount(rs[..|rs| - 1]);
      TestCountStep(|rs| - 1);
    }
  }

  /** The position among the train records of the record with index `n`. */
  lemma TrainSlot(n: nat)
    requires !IsTest(n)
    ensures var m := n - TestCount(n); m + m / 9 + 1 == n
  {
    var q, r := n / 10, n % 10;
    assert n == 10 * q + r && 1 <= r <= 9;
    assert TestCount(n) == q + 1;
    var m := n - TestCount(n);
    assert m == 9 * q + (r - 1);
    assert m / 9 == q;
  }

  lemma TestSlot(n: nat)
    requires IsTest(n)
    ensures 10 * TestCount(n) == n
  {
  }

  /** Test record `m` is record `10 * m`; train record `m` is record `m + m / 9 + 1`. */
  lemma {:induction false} PickAt(rs: seq<Transcription>)
    ensures forall m :: 0 <= m < |Pick(rs, true)| ==> 10 * m < |rs| && Pick(rs, true)[m] == rs[10 * m]
    ensures forall m :: 0 <= m < |Pick(rs, false)| ==> m + m / 9 + 1 < |rs| && Pick(rs, false)[m] == rs[m + m / 9 + 1]
  {
    if rs != [] {
      var n := |rs| - 1;
      var init := rs[..n];
      PickAt(init);
      PickCount(init);
      assert forall k :: 0 <= k < n ==> init[k] == rs[k];
      if IsTest(n) {
        TestSlot(n);
        assert Pick(rs, false) == Pick(init, false);
      } else {
        TrainSlot(n);
        assert Pick(rs, true) == Pick(init, true);
      }
    }
  }

  /**
    The two splits are disjoint and cover the records: record `idx` is test
    record `idx / 10` when `idx % 10 == 0` and train record `idx - idx / 10 - 1`
    otherwise, and the split sizes add up to the number of records.
   */
  lemma SplitCovers(rs: seq<Transcription>, idx: int)
    requires 0 <= idx < |rs|
    ensures |Pick(rs, true)| + |Pick(rs, false)| == |rs|
    ensures IsTest(idx) ==> idx / 10 < |Pick(rs, true)| && Pick(rs, true)[idx / 10] == rs[idx]
    ensures !IsTest(idx) ==> 0 <= idx - idx / 10 - 1 < |Pick(rs, false)| && Pick(rs, false)[idx - idx / 10 - 1] == rs[idx]
  {
    PickCount(rs);
    PickAt(rs);
    if IsTest(idx) {
      TestSlot(idx);
    } else {
      TrainSlot(idx);
    }
  }

  /** Each record lands in exactly one split. */
  lemma {:induction false} PickPermutation(rs: seq<Transcription>)
    ensures multiset(Pick(rs, true)) + multiset(Pick(rs, false)) == multiset(rs)
  {
    if rs != [] {
      var init := rs[..|rs| - 1];
      PickPermutation(init);
      MultisetInit(rs);
    }
  }

  /** Ten records give one test record, the first, and nine train records. */
  lemma TenRecords(rs: seq<Transcription>)
    requires |rs| == 10
    ensures Pick(rs, true) == [rs[0]]
    ensures Pick(rs, false) == rs[1..]
  {
    PickCount(rs);
    PickAt(rs);
    var train := Pick(rs, false);
    assert forall m :: 0 <= m < 9 ==> m / 9 == 0;
    assert forall m :: 0 <= m < 9 ==> train[m] == rs[1..][m];
  }

  /** A split of a sorted sequence is sorted. */
  lemma {:induction false} PickSorted(rs: seq<Transcription>, test: bool)
    requires SortedByText(rs)
    ensures SortedByText(Pick(rs, test))
  {
    if rs != [] {
      var init := rs[..|rs| - 1];
      assert SortedByText(init) by {
        assert forall k :: 0 <= k < |init| ==> init[k] == rs[k];
      }
      PickSorted(init, test);
      PickMembers(init, test);
      var p := Pick(init, test);
      forall i, j | 0 <= i < j < |Pick(rs, test)| ensures LessEq(Pick(rs, test)[i].text, Pick(rs, test)[j].text) {
        if j >= |p| {
          assert p[i] in p;
          var k :| 0 <= k < |init| && init[k] == p[i];
          assert Pick(rs, test)[j] == rs[|rs| - 1];
          assert rs[k] == p[i];
        } else {
          assert Pick(rs, test)[i] == p[i] && Pick(rs, test)[j] == p[j];
        }
      }
    }
  }

  lemma {:induction false} PickMembers(rs: seq<Transcription>, test: bool)
    ensures forall t :: t in Pick(rs, test) ==> t in rs
  {
    PickPermutation(rs);
    forall t | t in Pick(rs, test) ensures t in rs {
      assert t in multiset(Pick(rs, test));
      assert t in multiset(rs);
    }
  }

  /**
    What the five files hold: the full transcription lists every rendered
    form in order; in each split, line `m` of the fileids file and line `m`
    of the transcription file come from the same record, the one with index
    `10 * m` (test) or `m + m / 9 + 1` (train); all five keep the sorted order.
   */
  lemma WrittenLines(rs: seq<Transcription>)
    requires SortedByText(rs)
    ensures var out := Written(rs);
      && out.transcription == Texts(rs)
      && |out.testFileids| == |out.testTranscription| == TestCount(|rs|)
      && |out.trainFileids| == |out.trainTranscription| == |rs| - TestCount(|rs|)
      && (forall m :: 0 <= m < |out.testFileids| ==>
            out.testFileids[m] == rs[10 * m].fileid && out.testTranscription[m] == rs[10 * m].text)
      && (forall m :: 0 <= m < |out.trainFileids| ==>
            out.trainFileids[m] == rs[m + m / 9 + 1].fileid && out.trainTranscription[m] == rs[m + m / 9 + 1].text)
      && SortedStrings(out.transcription) && SortedStrings(out.testTranscription) && SortedStrings(out.trainTranscription)
  {
    PickCount(rs);
    PickAt(rs);
    PickSorted(rs, true);
    PickSorted(rs, false);
  }

  // ---------------------------------------------------------------------------
  // The writing loop
  // ---------------------------------------------------------------------------

  lemma PickStep(rs: seq<Transcription>, idx: nat, test: bool)
    requires idx < |rs|
    ensures Pick(rs[..idx + 1], test) == Pick(rs[..idx], test) + (if IsTest(idx) == test then [rs[idx]] else [])
  {
    assert rs[..idx + 1][..idx] == rs[..idx];
  }

  lemma TextsStep(rs: seq<Transcription>, idx: nat)
    requires idx < |rs|
    ensures Texts(rs[..idx + 1]) == Texts(rs[..idx]) + [rs[idx].text]
    ensures FileIds(rs[..idx + 1]) == FileIds(rs[..idx]) + [rs[idx].fileid]
  {
  }

  /** The `enumerate` loop of `transcript`: each record is written to the full file and to one split. */
  method WriteTranscripts(transcriptions: seq<Transcription>) returns (out: Outputs)
    ensures out == Written(transcriptions)
  {
    var all, trainIds, trainText, testIds, testText := [], [], [], [], [];
    for idx := 0 to |transcriptions|
      invariant all == Texts(transcriptions[..idx])
      invariant trainIds == FileIds(Pick(transcriptions[..idx], false))
      invariant trainText == Texts(Pick(transcriptions[..idx], false))
      invariant testIds == FileIds(Pick(transcriptions[..idx], true))
      invariant testText == Texts(Pick(transcriptions[..idx], true))
    {
      var t := transcriptions[idx];
      TextsStep(transcriptions, idx);
      PickStep(transcriptions, idx, true);
      PickStep(transcriptions, idx, false);
      all := all + [t.text];
      if idx % 10 == 0 {
        TextsAppend(Pick(transcriptions[..idx], true), [t]);
        FileIdsAppend(Pick(transcriptions[..idx], true), [t]);
        testIds := testIds + [t.fileid];
        testText := testText + [t.text];
      } else {
        TextsAppend(Pick(transcriptions[..idx], false), [t]);
        FileIdsAppend(Pick(transcriptions[..idx], false), [t]);
        trainIds := trainIds + [t.fileid];
        trainText := trainText + [t.text];
      }
    }
    assert transcriptions[..|transcriptions|] == transcriptions;
    out := Outputs(all, trainIds, trainText, testIds, testText);
  }

  lemma FileIdsAppend(a: seq<Transcription>, b: seq<Transcription>)
    ensures FileIds(a + b) == FileIds(a) + FileIds(b)
  {
  }

  /** `transcript`: collect and sort the records, then write the five files. */
  method Transcript(listing: seq<SpeakerDir>) returns (out: Outputs, notices: seq<Notice>)
    ensures out == Written(SortByText(Collected(listing))) && notices == Notices(listing)
    ensures out.transcription == Texts(SortByText(Collected(listing)))
    ensures |out.testTranscription| == TestCount(|Collected(listing)|)
  {
    var records;
    records, notices := CollectTranscriptions(listing);
    out := WriteTranscripts(records);
    WrittenLines(records);
    assert |records| == |multiset(records)| == |Collected(listing)|;
  }

  // ---------------------------------------------------------------------------
  // Opening the files with mode 'w'
  // ---------------------------------------------------------------------------

  /** The files as lists of lines, by path. */
  type Files = map<string, seq<string>>

  /** The five lists of lines, in the order `transcript` opens their files. */
  function Contents(out: Outputs): seq<seq<string>>
  {
    [out.transcription, out.trainFileids, out.trainTranscription, out.testFileids, out.testTranscription]
  }

  /** Each of the first `k` paths is truncated and then holds its list of lines. */
  function Store(fs: Files, paths: seq<string>, contents: seq<seq<string>>, k: nat): Files
    requires k <= |paths| && k <= |contents|
  {
    if k == 0 then fs else Store(fs, paths, contents, k - 1)[paths[k - 1] := contents[k - 1]]
  }

  /**
    With pairwise different paths, every path ends up holding its own list of
    lines whatever it held before, and every other file is left alone.
   */
  lemma {:induction false} StoreHolds(fs: Files, paths: seq<string>, contents: seq<seq<string>>, k: nat)
    requires k <= |paths| && k <= |contents|
    requires forall i, j :: 0 <= i < j < k ==> paths[i] != paths[j]
    ensures var r := Store(fs, paths, contents, k);
      && (forall i :: 0 <= i < k ==> paths[i] in r && r[paths[i]] == contents[i])
      && (forall p :: p !in paths[..k] ==> (p in r <==> p in fs) && (p in fs ==> r[p] == fs[p]))
  {
    if k > 0 {
      StoreHolds(fs, paths, contents, k - 1);
      assert forall p :: p !in paths[..k] ==> p !in paths[..k - 1] && p != paths[k - 1];
    }
  }

  /**
    After `transcript`, the five files under the etc directory hold exactly
    the five lists of lines: what they held before does not matter, and no
    other file changes.
   */
  lemma TranscriptOverwrites(fs: Files, basedir: string, name: string, dict: string, out: Outputs)
    ensures var paths := TranscriptPaths(Derive(basedir, name, dict));
      var r := Store(fs, paths, Contents(out), 5);
      && (forall i :: 0 <= i < 5 ==> paths[i] in r && r[paths[i]] == Contents(out)[i])
      && (forall p :: p !in paths ==> (p in r <==> p in fs) && (p in fs ==> r[p] == fs[p]))
  {
    var paths := TranscriptPaths(Derive(basedir, name, dict));
    TranscriptPathsDistinct(basedir, name, dict);
    StoreHolds(fs, paths, Contents(out), 5);
    assert paths[..5] == paths;
  }
}
