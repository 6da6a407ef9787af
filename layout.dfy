/**
  The file names `Train.__init__` (voxforgesphinxtrain/train.py) derives
  from the base directory with `os.path.join`, and the directories it
  creates before any command runs.
 */
module TrainLayout {
  import opened PyStr
  import opened PosixPath

  const DefaultName := "voxforge_en_sphinx"
  const DefaultDictionary := "/usr/share/pocketsphinx/model/lm/en_US/cmu07a.dic"

  datatype Layout = Layout(
    name: string,
    basedir: string,
    wavdir: string,
    etcdir: string,
    transcription: string,
    trainFileids: string,
    trainTranscription: string,
    testFileids: string,
    testTranscription: string,
    lm: string,
    lmDmp: string,
    dictionary: string,
    filler: string,
    treeQuestions: string,
    phone: string,
    tgzdir: string,
    trainConfig: string,
    installedDictionary: string)

  /** The fields of `Train(basedir, name, installed_dictionary)`, with `lm_dmp` joined onto the already joined `lm`. */
  function Derive(basedir: string, name: string, installedDictionary: string): Layout
  {
    var etcdir := Join(basedir, "etc");
    var lm := Join(etcdir, name + ".lm");
    Layout(
      name, basedir, Join(basedir, "wav"), etcdir,
      Join(etcdir, name + ".transcription"),
      Join(etcdir, name + "_train.fileids"),
      Join(etcdir, name + "_train.transcription"),
      Join(etcdir, name + "_test.fileids"),
      Join(etcdir, name + "_test.transcription"),
      lm,
      Join(etcdir, lm + ".DMP"),
      Join(etcdir, name + ".dic"),
      Join(etcdir, name + ".filler"),
      Join(etcdir, name + ".tree_questions"),
      Join(etcdir, name + ".phone"),
      Join(basedir, "www.repository.voxforge1.org"),
      Join(etcdir, "sphinx_train.cfg"),
      installedDictionary)
  }

  /** `mkdir_p` of the base, wav and etc directories, in that order. */
  function EnsuredDirs(l: Layout): seq<string>
  {
    [l.basedir, l.wavdir, l.etcdir]
  }

  /** The directories the constructor ensures, computed from the base directory alone. */
  function BaseDirs(basedir: string): seq<string>
  {
    [basedir, Join(basedir, "wav"), Join(basedir, "etc")]
  }

  /** The ensured directories depend on the base directory only, and the etc and wav directories lie under it. */
  lemma EnsuredDirsOfBase(basedir: string, name: string, dict: string)
    ensures EnsuredDirs(Derive(basedir, name, dict)) == BaseDirs(basedir)
    ensures var d := BaseDirs(basedir);
      && |d| == 3 && d[0] == basedir
      && d[1] == (if basedir == [] || basedir[|basedir| - 1] == '/' then basedir + "wav" else basedir + "/wav")
      && d[2] == (if basedir == [] || basedir[|basedir| - 1] == '/' then basedir + "etc" else basedir + "/etc")
  {
  }

  /** The etc directory is the base directory's `etc` child: never empty, never ending in a slash. */
  lemma EtcDir(basedir: string, name: string, dict: string)
    ensures var l := Derive(basedir, name, dict);
      && l.etcdir == (if basedir == [] || basedir[|basedir| - 1] == '/' then basedir + "etc" else basedir + "/etc")
      && l.etcdir != [] && l.etcdir[|l.etcdir| - 1] == 'c'
      && (IsAbsolute(l.etcdir) <==> IsAbsolute(basedir))
  {
  }

  /**
    With an absolute base directory the absolute `lm` path discards the etc
    directory again, so `lm_dmp` is `lm` with `.DMP` appended.
   */
  lemma LmDmpOfAbsoluteBase(basedir: string, name: string, dict: string)
    requires IsAbsolute(basedir)
    ensures var l := Derive(basedir, name, dict); l.lmDmp == l.lm + ".DMP"
  {
    var l := Derive(basedir, name, dict);
    EtcDir(basedir, name, dict);
    JoinParts(l.etcdir, name + ".lm");
    assert IsAbsolute(l.lm) by {
      if !IsAbsolute(name + ".lm") {
        assert l.lm[..|l.etcdir|] == l.etcdir;
        assert l.lm[0] == l.etcdir[0];
      }
    }
    assert IsAbsolute(l.lm + ".DMP") by {
      assert (l.lm + ".DMP")[0] == l.lm[0];
    }
  }

  /**
    With a relative base directory (and a relative name) the etc directory
    appears twice: `lm_dmp` is `etcdir/etcdir/name.lm.DMP`.
   */
  lemma LmDmpOfRelativeBase(basedir: string, name: string, dict: string)
    requires !IsAbsolute(basedir) && !IsAbsolute(name)
    ensures var l := Derive(basedir, name, dict);
      && l.lm == l.etcdir + "/" + name + ".lm"
      && l.lmDmp == l.etcdir + "/" + l.etcdir + "/" + name + ".lm.DMP"
  {
    var l := Derive(basedir, name, dict);
    EtcDir(basedir, name, dict);
    assert !IsAbsolute(name + ".lm") by {
      if name == [] {
        assert (name + ".lm")[0] == '.';
      } else {
        assert (name + ".lm")[0] == name[0];
      }
    }
    JoinRelative(l.etcdir, name + ".lm");
    assert !IsAbsolute(l.lm + ".DMP") by {
      assert (l.lm + ".DMP")[0] == l.lm[0];
    }
    JoinRelative(l.etcdir, l.lm + ".DMP");
  }

  /**
    `lm_dmp` as evidently intended: the `.DMP` conversion of the language
    model, next to it in the etc directory.
   */
  function IntendedLmDmp(basedir: string, name: string): string
  {
    Join(Join(basedir, "etc"), name + ".lm.DMP")
  }

  /** The intended path is always `lm` with `.DMP` appended, and the code as written agrees with it for an absolute base directory. */
  lemma IntendedLmDmpBesideLm(basedir: string, name: string, dict: string)
    ensures var l := Derive(basedir, name, dict);
      && IntendedLmDmp(basedir, name) == l.lm + ".DMP"
      && (IsAbsolute(basedir) ==> l.lmDmp == IntendedLmDmp(basedir, name))
  {
    var l := Derive(basedir, name, dict);
    EtcDir(basedir, name, dict);
    assert name + ".lm.DMP" == (name + ".lm") + ".DMP";
    JoinWithSuffix(l.etcdir, name + ".lm", ".DMP");
    if IsAbsolute(basedir) {
      LmDmpOfAbsoluteBase(basedir, name, dict);
    }
  }

  /** With a relative base directory and name, the code as written puts `lm_dmp` one etc directory deeper than intended. */
  lemma LmDmpMisplaced(basedir: string, name: string, dict: string)
    requires !IsAbsolute(basedir) && !IsAbsolute(name)
    ensures var l := Derive(basedir, name, dict);
      && l.lmDmp == l.etcdir + "/" + IntendedLmDmp(basedir, name)
      && l.lmDmp != IntendedLmDmp(basedir, name)
  {
    var l := Derive(basedir, name, dict);
    LmDmpOfRelativeBase(basedir, name, dict);
    IntendedLmDmpBesideLm(basedir, name, dict);
    assert |l.lmDmp| > |IntendedLmDmp(basedir, name)|;
  }

  /** Appending a suffix to a name under the etc directory appends it to the joined path. */
  lemma JoinWithSuffix(etcdir: string, leaf: string, suffix: string)
    requires etcdir != [] && etcdir[|etcdir| - 1] != '/' && leaf != []
    ensures Join(etcdir, leaf + suffix) == Join(etcdir, leaf) + suffix
  {
    JoinUnderEtc(etcdir, leaf);
    JoinUnderEtc(etcdir, leaf + suffix);
    assert (leaf + suffix)[0] == leaf[0];
  }

  /** A name under the etc directory: `etcdir/leaf`, or `leaf` itself when it is absolute. */
  lemma JoinUnderEtc(etcdir: string, leaf: string)
    requires etcdir != [] && etcdir[|etcdir| - 1] != '/'
    ensures Join(etcdir, leaf) == (if IsAbsolute(leaf) then leaf else etcdir + "/" + leaf)
  {
  }

  lemma AppendCancel(a: string, s1: string, s2: string)
    requires a + s1 == a + s2
    ensures s1 == s2
  {
    assert s1 == (a + s1)[|a|..];
    assert s2 == (a + s2)[|a|..];
  }

  /** Two names under the etc directory that differ give two different files. */
  lemma JoinUnderEtcInjective(etcdir: string, x: string, y: string)
    requires etcdir != [] && etcdir[|etcdir| - 1] != '/'
    requires x != y && IsAbsolute(x) == IsAbsolute(y)
    ensures Join(etcdir, x) != Join(etcdir, y)
  {
    JoinUnderEtc(etcdir, x);
    JoinUnderEtc(etcdir, y);
    if !IsAbsolute(x) && Join(etcdir, x) == Join(etcdir, y) {
      assert (etcdir + "/") + x == (etcdir + "/") + y;
      AppendCancel(etcdir + "/", x, y);
    }
  }

  /** Two different relative suffixes of one name give two different files under the etc directory. */
  lemma SuffixedDistinct(etcdir: string, name: string, s1: string, s2: string)
    requires etcdir != [] && etcdir[|etcdir| - 1] != '/'
    requires s1 != [] && s2 != [] && s1[0] != '/' && s2[0] != '/'
    requires |s1| != |s2| || s1[0] != s2[0]
    ensures Join(etcdir, name + s1) != Join(etcdir, name + s2)
  {
    var x, y := name + s1, name + s2;
    assert x[|name|] == s1[0] && y[|name|] == s2[0];
    if name == [] {
      assert x[0] == s1[0] && y[0] == s2[0];
    } else {
      assert x[0] == name[0] == y[0];
    }
    JoinUnderEtcInjective(etcdir, x, y);
  }

  /** The five files `transcript` opens, in the order it opens them. */
  function TranscriptPaths(l: Layout): seq<string>
  {
    [l.transcription, l.trainFileids, l.trainTranscription, l.testFileids, l.testTranscription]
  }

  /** The five files `transcript` writes are five different files, whatever the base directory and name. */
  lemma TranscriptPathsDistinct(basedir: string, name: string, dict: string)
    ensures var paths := TranscriptPaths(Derive(basedir, name, dict));
      |paths| == 5 && forall i, j :: 0 <= i < j < 5 ==> paths[i] != paths[j]
  {
    var l := Derive(basedir, name, dict);
    EtcDir(basedir, name, dict);
    var e := l.etcdir;
    var a, b, c, d, f := ".transcription", "_train.fileids", "_train.transcription", "_test.fileids", "_test.transcription";
    assert |a| == 14 && |b| == 14 && |c| == 20 && |d| == 13 && |f| == 19;
    assert a[0] == '.' && b[0] == '_' && c[0] == '_' && d[0] == '_' && f[0] == '_';
    SuffixedDistinct(e, name, a, b);
    SuffixedDistinct(e, name, a, c);
    SuffixedDistinct(e, name, a, d);
    SuffixedDistinct(e, name, a, f);
    SuffixedDistinct(e, name, b, c);
    SuffixedDistinct(e, name, b, d);
    SuffixedDistinct(e, name, b, f);
    SuffixedDistinct(e, name, c, d);
    SuffixedDistinct(e, name, c, f);
    SuffixedDistinct(e, name, d, f);
  }
}
