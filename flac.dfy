/**
  The output name `convert_flac` (voxforgesphinxtrain/train.py) gives each
  `.flac` file it decodes: the input path with every `flac` replaced by `wav`.
 */
module FlacConversion {
  import opened PyStr
  import opened PosixPath
  import opened SeqConcat

  /** `infile.replace("flac", "wav")` in `convert_flac`. */
  function ConvertedPath(infile: string): string
  {
    ReplaceAll(infile, "flac", "wav")
  }

  /** A path with no `flac` in it is left as it is. */
  lemma ConvertedPathUnchanged(infile: string)
    requires !Occurs(infile, "flac")
    ensures ConvertedPath(infile) == infile
  {
    ReplaceAllAbsent(infile, "flac", "wav");
  }

  /** The converted name contains `flac` nowhere, wherever it stood in the input path. */
  lemma {:induction false} ConvertedPathHasNoFlac(s: string)
    ensures !Occurs(ConvertedPath(s), "flac")
    decreases |s|
  {
    var pat, rep := "flac", "wav";
    if |s| < |pat| {
    } else if s[..|pat|] == pat {
      ConvertedPathHasNoFlac(s[|pat|..]);
      AbsentBehindPlainPrefix(rep, ConvertedPath(s[|pat|..]), pat);
    } else {
      var x := ConvertedPath(s[1..]);
      ConvertedPathHasNoFlac(s[1..]);
      assert ConvertedPath(s) == [s[0]] + x;
      var t := [s[0]] + x;
      assert t[1..] == x;
      if s[0] == 'f' {
        var q := "lac";
        assert s[..|pat|] == [s[0]] + s[1..][..|q|];
        assert !StartsWith(s[1..], q);
        assert NoNewOccurrence(pat, rep);
        ReplaceAllKeepsNonPrefix(s[1..], q, pat, rep);
        if |pat| <= |t| {
          assert t[..|pat|] == [s[0]] + x[..|q|];
        }
      } else if |pat| <= |t| {
        assert t[..|pat|][0] == s[0];
      }
    }
  }

  /** Converting a second time changes nothing. */
  lemma ConvertedPathIdempotent(infile: string)
    ensures ConvertedPath(ConvertedPath(infile)) == ConvertedPath(infile)
  {
    ConvertedPathHasNoFlac(infile);
    ConvertedPathUnchanged(ConvertedPath(infile));
  }

  /** Each `flac` of a path whose pieces hold no `flac` becomes `wav`: `a/flac/b.flac` turns into `a/wav/b.wav`. */
  lemma ConvertedPathPieces(a: string, b: string, c: string)
    requires !Occurs(a, "flac") && !Occurs(b, "flac") && !Occurs(c, "flac")
    ensures ConvertedPath(a + "flac" + b + "flac" + c) == a + "wav" + b + "wav" + c
  {
    GroupAfter(a, "flac", b, c);
    GroupAfter(a, "wav", b, c);
    ConvertedPathStep(a, b + "flac" + c);
    ConvertedPathStep(b, c);
    ConvertedPathUnchanged(c);
  }

  /** The replacement of a leading piece without `flac` and the `flac` after it. */
  lemma ConvertedPathStep(a: string, rest: string)
    requires !Occurs(a, "flac")
    ensures ConvertedPath(a + "flac" + rest) == a + "wav" + ConvertedPath(rest)
  {
    Assoc(a, "flac", rest);
    assert StartsWith("flac" + rest, "flac") by {
      assert ("flac" + rest)[..4] == "flac";
    }
    ReplaceAllFreePrefix(a, "flac" + rest, "flac", "wav");
    ReplaceAllLeading("flac", rest, "wav");
  }

  /**
    The name each decoded file is evidently meant to get: the `.wav` file of
    the same stem in the `wav` directory the first walk of `convert_flac`
    creates beside the speaker's `flac` directory.
   */
  function IntendedOutfile(speakerDir: string, stem: string): string
  {
    Join(Join(speakerDir, "wav"), stem + ".wav")
  }

  /** The input path `join(root, name)` of `speakerDir/flac/stem.flac`. */
  function FlacInfile(speakerDir: string, stem: string): string
  {
    Join(Join(speakerDir, "flac"), stem + ".flac")
  }

  lemma Extensions()
    ensures ".flac" == "." + "flac" && ".wav" == "." + "wav"
  {
  }

  lemma InfileShape(speakerDir: string, stem: string)
    requires speakerDir != [] && speakerDir[|speakerDir| - 1] != '/'
    requires stem == [] || stem[0] != '/'
    ensures FlacInfile(speakerDir, stem) == speakerDir + "/" + "flac" + "/" + (stem + ("." + "flac"))
    ensures IntendedOutfile(speakerDir, stem) == speakerDir + "/" + "wav" + "/" + (stem + ("." + "wav"))
  {
    Extensions();
    JoinRelative(speakerDir, "flac");
    JoinRelative(speakerDir, "wav");
    assert !IsAbsolute(stem + ".flac") && !IsAbsolute(stem + ".wav") by {
      if stem != [] {
        assert (stem + ".flac")[0] == stem[0] && (stem + ".wav")[0] == stem[0];
      }
    }
    JoinRelative(speakerDir + "/" + "flac", stem + ".flac");
    JoinRelative(speakerDir + "/" + "wav", stem + ".wav");
  }

  /** The pieces `x/` and `/stem.` around the two `flac`s of an input path hold no `flac` when `x` and `stem` hold none. */
  lemma PiecesFree(x: string, stem: string)
    requires !Occurs(x, "flac") && !Occurs(stem, "flac")
    ensures !Occurs(x + "/", "flac") && !Occurs("/" + stem + ".", "flac")
  {
    AbsentByChar("/", "flac", 'f');
    AbsentByChar(".", "flac", 'f');
    AbsentJoin(x, "/", "flac");
    AbsentBehindPlainPrefix("/", stem, "flac");
    AbsentJoin("/" + stem, ".", "flac");
  }

  /** When neither the speaker directory nor the stem contains `flac`, the code as written gives the intended name. */
  lemma OutfileAsIntended(speakerDir: string, stem: string)
    requires speakerDir != [] && speakerDir[|speakerDir| - 1] != '/'
    requires !Occurs(speakerDir, "flac") && !Occurs(stem, "flac") && (stem == [] || stem[0] != '/')
    ensures ConvertedPath(FlacInfile(speakerDir, stem)) == IntendedOutfile(speakerDir, stem)
  {
    InfileShape(speakerDir, stem);
    var a, b := speakerDir + "/", "/" + stem + ".";
    PiecesFree(speakerDir, stem);
    AroundTwo(speakerDir, "/", "flac", stem, ".");
    AroundTwo(speakerDir, "/", "wav", stem, ".");
    ConvertedPathPieces(a, b, "");
  }

  /**
    A `flac` inside the speaker directory's own path is rewritten too: the
    decoded file is sent to a directory that neither walk creates.
   */
  lemma OutfileMisplaced(p: string, q: string, stem: string)
    requires q != [] && q[|q| - 1] != '/'
    requires !Occurs(p, "flac") && !Occurs(q, "flac") && !Occurs(stem, "flac") && (stem == [] || stem[0] != '/')
    ensures var speakerDir := p + "flac" + q;
      && ConvertedPath(FlacInfile(speakerDir, stem)) == IntendedOutfile(p + "wav" + q, stem)
      && ConvertedPath(FlacInfile(speakerDir, stem)) != IntendedOutfile(speakerDir, stem)
  {
    var speakerDir := p + "flac" + q;
    var wavDir := p + "wav" + q;
    MisplacedConversion(p, q, stem);
    assert speakerDir[|speakerDir| - 1] == q[|q| - 1] == wavDir[|wavDir| - 1];
    IntendedOutfileLength(speakerDir, stem);
    IntendedOutfileLength(wavDir, stem);
  }

  lemma IntendedOutfileLength(speakerDir: string, stem: string)
    requires speakerDir != [] && speakerDir[|speakerDir| - 1] != '/'
    requires stem == [] || stem[0] != '/'
    ensures |IntendedOutfile(speakerDir, stem)| == |speakerDir| + |stem| + 9
  {
    InfileShape(speakerDir, stem);
  }

  /** The input path of a speaker directory `p flac q`, converted: both that `flac` and the two of the layout become `wav`. */
  lemma MisplacedConversion(p: string, q: string, stem: string)
    requires q != [] && q[|q| - 1] != '/'
    requires !Occurs(p, "flac") && !Occurs(q, "flac") && !Occurs(stem, "flac") && (stem == [] || stem[0] != '/')
    ensures ConvertedPath(FlacInfile(p + "flac" + q, stem)) == IntendedOutfile(p + "wav" + q, stem)
  {
    var a, b := q + "/", "/" + stem + ".";
    MisplacedShape(p, q, stem);
    PiecesFree(q, stem);
    ConvertedPathStep(p, a + "flac" + b + "flac" + "");
    ConvertedPathPieces(a, b, "");
  }

  /** The input and the intended output path for a speaker directory `p x q`, cut at every `x`. */
  lemma MisplacedShape(p: string, q: string, stem: string)
    requires q != [] && q[|q| - 1] != '/'
    requires stem == [] || stem[0] != '/'
    ensures FlacInfile(p + "flac" + q, stem) == p + "flac" + ((q + "/") + "flac" + ("/" + stem + ".") + "flac" + "")
    ensures IntendedOutfile(p + "wav" + q, stem) == p + "wav" + ((q + "/") + "wav" + ("/" + stem + ".") + "wav" + "")
  {
    var speakerDir := p + "flac" + q;
    var wavDir := p + "wav" + q;
    InfileShape(speakerDir, stem);
    InfileShape(wavDir, stem);
    var b := "/" + stem + ".";
    AroundTwo(speakerDir, "/", "flac", stem, ".");
    AroundTwo(wavDir, "/", "wav", stem, ".");
    ShiftFront(p, "flac", q, "/", b);
    ShiftFront(p, "wav", q, "/", b);
  }
}
