/**
  One line of a speaker's PROMPTS file parsed into a transcription record
  (class `Transcription` of voxforgesphinxtrain/train.py), with the rendered
  `<s> quote </s> (filename)` form that orders records and fills the
  transcription files.
 */
module Transcriptions {
  import opened Wrappers
  import opened PyStr
  import opened PosixPath

  /** An accepted prompt line: `text` is the rendered form returned by `__str__` and compared by `__lt__`. */
  datatype Transcription = Transcription(quote: string, filename: string, fileid: string, text: string)

  datatype ParseError =
    | MissingSpace(line: string)                        // the two-name unpacking of `split(' ', 1)` raises
    | InvalidPromptsLine(line: string, dirname: string) // the file name has no digit

  /** `quote.strip("\n").replace("-", " ").lower()` */
  function NormalizeQuote(raw: string): string
  {
    Lower(ReplaceAll(Strip(raw, '\n'), "-", " "))
  }

  /** What every normalised quote satisfies: no hyphen, no capital, no newline at either end. */
  predicate IsNormalQuote(q: string)
  {
    && '-' !in q
    && (forall i :: 0 <= i < |q| ==> !IsUpper(q[i]))
    && (q == [] || (q[0] != '\n' && q[|q| - 1] != '\n'))
  }

  function Render(quote: string, filename: string): string
  {
    "<s> " + quote + " </s> (" + filename + ")"
  }

  lemma {:induction false} NormalizeQuoteIsNormal(raw: string)
    ensures IsNormalQuote(NormalizeQuote(raw))
  {
    var stripped := Strip(raw, '\n');
    var dashless := ReplaceAll(stripped, "-", " ");
    ReplaceCharPointwise(stripped, '-', ' ');
    assert "-" == ['-'] && " " == [' '];
    var q := Lower(dashless);
    StripSpec(raw, '\n');
    LowerSpec(dashless);
    LowerHasNoUpper(dashless);
    assert forall i :: 0 <= i < |q| ==> q[i] != '-' && q[i] != '\n' ==> true;
    assert forall i :: 0 <= i < |q| ==> q[i] != '-' by {
      forall i | 0 <= i < |q| ensures q[i] != '-' {
        assert q[i] == LowerChar(dashless[i]);
      }
    }
    if q != [] {
      assert q[0] == LowerChar(dashless[0]) && dashless[0] == (if stripped[0] == '-' then ' ' else stripped[0]);
      assert q[|q| - 1] == LowerChar(dashless[|q| - 1]);
    }
  }

  /** A quote that is already normal is left as it is. */
  lemma NormalizeQuoteFixes(q: string)
    requires IsNormalQuote(q)
    ensures NormalizeQuote(q) == q
  {
    StripUntouched(q, '\n');
    AbsentByChar(q, "-", '-');
    ReplaceAllAbsent(q, "-", " ");
    LowerUntouched(q);
  }

  /** `Transcription(line, dirname)`: split at the first space, normalise the quote, keep the last path segment of the id. */
  function Parse(line: string, dirname: string): Result<Transcription, ParseError>
  {
    match SplitOnce(line, ' ')
    case None => Failure(MissingSpace(line))
    case Some((id, rawQuote)) =>
      var quote := NormalizeQuote(rawQuote);
      var filename := LastSegment(id);
      if !HasDigit(filename) then Failure(InvalidPromptsLine(line, dirname))
      else Success(Transcription(quote, filename, Join3(dirname, "mfc", filename), Render(quote, filename)))
  }

  /** A line without a space fails to unpack; a line with one is rejected only for want of a digit in the file name. */
  lemma ParseRejections(line: string, dirname: string)
    ensures var r := Parse(line, dirname);
            && (r == Failure(MissingSpace(line)) <==> ' ' !in line)
            && (r.Failure? && ' ' in line ==> r.error == InvalidPromptsLine(line, dirname))
  {
    SplitOnceSpec(line, ' ');
  }

  /** The last segment of a space-free id holds neither a slash nor a space. */
  lemma SegmentOfId(id: string)
    requires ' ' !in id
    ensures '/' !in LastSegment(id) && ' ' !in LastSegment(id)
  {
    LastSegmentSpec(id);
    var k := LastSlash(id) + 1;
    assert ' ' !in id[k..];
  }

  /**
    An accepted line yields a normal quote, a file name without slash or
    space that contains a digit, the id under `mfc`, and the rendered form.
   */
  lemma ParseResult(line: string, dirname: string)
    ensures var r := Parse(line, dirname);
            r.Success? ==>
                && IsNormalQuote(r.value.quote)
                && '/' !in r.value.filename && ' ' !in r.value.filename && HasDigit(r.value.filename)
                && r.value.fileid == Join3(dirname, "mfc", r.value.filename)
                && r.value.text == Render(r.value.quote, r.value.filename)
  {
    if Parse(line, dirname).Success? {
      SplitOnceSpec(line, ' ');
      var (id, rawQuote) := SplitOnce(line, ' ').value;
      NormalizeQuoteIsNormal(rawQuote);
      SegmentOfId(id);
    }
  }

  lemma ParseAccepted(line: string, dirname: string, id: string, rest: string)
    requires SplitOnce(line, ' ') == Some((id, rest)) && HasDigit(LastSegment(id))
    ensures Parse(line, dirname) == Success(Transcription(NormalizeQuote(rest), LastSegment(id),
      Join3(dirname, "mfc", LastSegment(id)), Render(NormalizeQuote(rest), LastSegment(id))))
  {
  }

  /** The raw file id is the text before the first space of the line. */
  function IdField(line: string): string
  {
    match SplitOnce(line, ' ')
    case None => line
    case Some((id, _)) => id
  }

  /** A line with a space is accepted exactly when the last `/` segment of its id contains a digit. */
  lemma ParseAcceptsIffDigit(line: string, dirname: string)
    requires ' ' in line
    ensures Parse(line, dirname).Success? <==> HasDigit(LastSegment(IdField(line)))
  {
    SplitOnceSpec(line, ' ');
  }

  /** An accepted line was split at a space; its record holds the last segment of the id and the normalised rest. */
  lemma ParseSplit(line: string, dirname: string)
    requires Parse(line, dirname).Success?
    ensures SplitOnce(line, ' ').Some?
    ensures Parse(line, dirname).value.filename == LastSegment(SplitOnce(line, ' ').value.0)
    ensures Parse(line, dirname).value.quote == NormalizeQuote(SplitOnce(line, ' ').value.1)
  {
  }

  /** An accepted line's record holds the normalised text after the first space and the last segment of the id before it. */
  lemma ParseFields(line: string, dirname: string)
    requires Parse(line, dirname).Success?
    ensures var t := Parse(line, dirname).value;
            exists i :: (0 <= i < |line| && line[i] == ' ' && ' ' !in line[..i]
                         && t.filename == LastSegment(line[..i]) && t.quote == NormalizeQuote(line[i + 1..]))
  {
    ParseSplit(line, dirname);
    SplitOnceSpec(line, ' ');
    var (id, rest) := SplitOnce(line, ' ').value;
    var i := |id|;
    assert line[..i] == id && line[i] == ' ' && line[i + 1..] == rest;
  }

  /** For a speaker directory as `os.listdir` names it (no slash, not empty) the id is `dirname/mfc/filename`. */
  lemma FileIdInMfc(line: string, dirname: string)
    requires Parse(line, dirname).Success?
    requires dirname != [] && '/' !in dirname
    ensures Parse(line, dirname).value.fileid == dirname + "/mfc/" + Parse(line, dirname).value.filename
  {
    ParseResult(line, dirname);
    var t := Parse(line, dirname).value;
    assert t.filename != [] ==> t.filename[0] in t.filename;
    MfcPath(dirname, t.filename);
  }

  lemma MfcPath(dirname: string, filename: string)
    requires dirname != [] && '/' !in dirname && !IsAbsolute(filename)
    ensures Join3(dirname, "mfc", filename) == dirname + "/mfc/" + filename
  {
    assert dirname[|dirname| - 1] in dirname;
    var d := Join(dirname, "mfc");
    assert d == dirname + "/mfc";
    assert d[|d| - 1] == 'c';
    assert Join(d, filename) == d + "/" + filename;
    assert dirname + "/mfc" + "/" + filename == dirname + "/mfc/" + filename;
  }

  /** A prompt line built from an id and a normal quote parses back to that quote and that id's last segment. */
  lemma {:induction false} ParsePromptLine(id: string, quote: string, dirname: string)
    requires ' ' !in id && HasDigit(LastSegment(id)) && IsNormalQuote(quote)
    ensures Parse(id + " " + quote + "\n", dirname)
         == Success(Transcription(quote, LastSegment(id), Join3(dirname, "mfc", LastSegment(id)),
                                  Render(quote, LastSegment(id))))
  {
    var line := id + " " + quote + "\n";
    SplitAtFirstSpace(id, quote + "\n");
    assert line == id + [' '] + (quote + "\n");
    StripTrailing(quote, '\n');
    NormalizeQuoteFixesAfterStrip(quote);
  }

  lemma NormalizeQuoteFixesAfterStrip(quote: string)
    requires IsNormalQuote(quote)
    ensures NormalizeQuote(quote + "\n") == quote
  {
    StripTrailing(quote, '\n');
    AbsentByChar(quote, "-", '-');
    ReplaceAllAbsent(quote, "-", " ");
    LowerUntouched(quote);
  }

  lemma {:induction false} SplitAtFirstSpace(id: string, rest: string)
    requires ' ' !in id
    ensures SplitOnce(id + " " + rest, ' ') == Some((id, rest))
    decreases |id|
  {
    if id == [] {
      assert [] + " " + rest == [' '] + rest;
    } else {
      SplitAtFirstSpace(id[1..], rest);
      var s := id + " " + rest;
      assert s[0] == id[0] && id[0] in id;
      assert s[1..] == id[1..] + " " + rest;
      assert [id[0]] + id[1..] == id;
    }
  }

  /** Re-parsing a record's own file name and quote gives the same record back. */
  lemma Reparse(line: string, dirname: string)
    requires Parse(line, dirname).Success?
    ensures var t := Parse(line, dirname).value;
            Parse(t.filename + " " + t.quote, dirname) == Success(t)
  {
    ParseResult(line, dirname);
    var t := Parse(line, dirname).value;
    SplitAtFirstSpace(t.filename, t.quote);
    assert t.filename + " " + t.quote == t.filename + " " + t.quote;
    LastSegmentOfPlain(t.filename);
    NormalizeQuoteFixes(t.quote);
  }

  lemma ExampleQuote()
    ensures NormalizeQuote("Hello-World\n") == "hello world"
  {
    ExampleStrip();
    ExampleDashes();
    ExampleLower();
  }

  lemma ExampleStrip()
    ensures Strip("Hello-World\n", '\n') == "Hello-World"
  {
    StripTrailing("Hello-World", '\n');
    assert "Hello-World" + "\n" == "Hello-World\n";
  }

  lemma ExampleDashes()
    ensures ReplaceAll("Hello-World", "-", " ") == "Hello World"
  {
    var s, r := "Hello-World", "Hello World";
    ReplaceCharPointwise(s, '-', ' ');
    assert "-" == ['-'] && " " == [' '];
    assert forall i :: 0 <= i < |s| ==> ReplaceAll(s, "-", " ")[i] == r[i];
  }

  lemma ExampleLower()
    ensures Lower("Hello World") == "hello world"
  {
    var s, r := "Hello World", "hello world";
    LowerSpec(s);
    assert forall i :: 0 <= i < |s| ==> Lower(s)[i] == r[i];

  }

  lemma ExampleSegment()
    ensures LastSegment("spk1/a1") == "a1"
  {
    var s := "spk1/a1";
    assert s[..6] == "spk1/a" && s[..5] == "spk1/";
    assert LastSlash(s) == 4;
  }

  /** The example of a speaker directory `spk1` with the line `spk1/a1 Hello-World`. */
  lemma ParseExample(id: string, raw: string, dirname: string)
    requires id == "spk1/a1" && raw == "Hello-World\n" && dirname == "spk1"
    ensures Parse(id + " " + raw, dirname)
         == Success(Transcription("hello world", "a1", "spk1/mfc/a1", "<s> hello world </s> (a1)"))
  {
    ExampleSplit(id, raw);
    ExampleDigit(id);
    ParseAccepted(id + " " + raw, dirname, id, raw);
    ExampleSegment();
    ExampleFileId();
    ExampleQuote();
    ExampleRender();
  }

  lemma ExampleFileId()
    ensures Join3("spk1", "mfc", "a1") == "spk1/mfc/a1"
  {
    MfcPath("spk1", "a1");
  }

  lemma ExampleSplit(id: string, raw: string)
    requires id == "spk1/a1"
    ensures SplitOnce(id + " " + raw, ' ') == Some((id, raw))
  {
    assert ' ' !in id by {
      assert forall i :: 0 <= i < |id| ==> id[i] != ' ';
    }
    SplitAtFirstSpace(id, raw);
  }

  lemma ExampleDigit(id: string)
    requires id == "spk1/a1"
    ensures HasDigit(LastSegment(id))
  {
    ExampleSegment();
    assert IsDigit("a1"[1]);
  }

  lemma ExampleRender()
    ensures Render("hello world", "a1") == "<s> hello world </s> (a1)"
  {
  }
}
