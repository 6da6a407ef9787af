/**
  The configuration patch of `Train.setup` (voxforgesphinxtrain/train.py):
  every line of `etc/sphinx_train.cfg` goes through the same ordered chain
  of `str.replace` calls, each seeing the previous one's output, and the
  result is written back, one write per line.
 */
module ConfigPatch {
  import opened PyStr

  /** One `line = line.replace(pat, rep)` statement. */
  datatype Rule = Rule(pat: string, rep: string)

  const VectorLength := Rule("$CFG_VECTOR_LENGTH = 13;",
         "$CFG_VECTOR_LENGTH = 13;\n$CFG_FEAT_WINDOW = 0;\n")
  const VarNorm := Rule("$CFG_VARNORM = 'no';",
         "$CFG_VARNORM = 'no';\n# (yes/no) Use letter-to-sound rules to guess pronunciations of\n"
         + "# unknown words (English, 40-phone specific)\n$CFG_LTSOOV = 'no';\n")
  const DensitiesKey := "$CFG_FINAL_NUM_DENSITIES = "
  const FinalNumDensities := Rule(DensitiesKey + "8", DensitiesKey + "32")
  const TiedStates := Rule("$CFG_N_TIED_STATES = 200", "$CFG_N_TIED_STATES = 3000")
  const Npart := Rule("$CFG_NPART = 1", "$CFG_NPART = 20")
  const LdaMllt := Rule("$CFG_LDA_MLLT = 'no'", "$CFG_LDA_MLLT = 'yes'")
  const ConvergenceRatio := Rule("$CFG_CONVERGENCE_RATIO = 0.1", "$CFG_CONVERGENCE_RATIO = 0.01")
  const QueueType := Rule("$CFG_QUEUE_TYPE = \"Queue\"", "$CFG_QUEUE_TYPE = \"Queue::POSIX\"")
  const MakeQuests := Rule("$CFG_MAKE_QUESTS = \"yes\"", "$CFG_MAKE_QUESTS = \"no\"")
  const QuestionSet := Rule("$CFG_QUESTION_SET = \"${CFG_BASE_DIR}/model_architecture/${CFG_EXPTNAME}.tree_questions\";",
         "if ($CFG_MAKE_QUESTS eq  'yes') {\n"
         + "  $CFG_QUESTION_SET = \"${CFG_BASE_DIR}/model_architecture/${CFG_EXPTNAME}.tree_questions\";\n"
         + "}\nelse {\n"
         + "  $CFG_QUESTION_SET = \"${CFG_BASE_DIR}/etc/${CFG_EXPTNAME}.tree_questions\";\n"
         + "}")
  const ForcedAlign := Rule("$CFG_FORCEDALIGN = 'no'", "$CFG_FORCEDALIGN = 'yes'")
  const ForceAlignModelDir := Rule("$CFG_FORCE_ALIGN_MODELDIR = \"$CFG_MODEL_DIR/$CFG_EXPTNAME.falign_ci_$CFG_DIRLABEL\";",
         "\nif ($CFG_FALIGN_CI_MGAU eq  'yes') {\n"
         + "  $CFG_FORCE_ALIGN_MODELDIR = \"$CFG_MODEL_DIR/$CFG_EXPTNAME.falign_ci_${CFG_DIRLABEL}_$CFG_FINAL_NUM_DENSITIES\";\n"
         + "}\nelse {\n"
         + "  $CFG_FORCE_ALIGN_MODELDIR = \"$CFG_MODEL_DIR/$CFG_EXPTNAME.falign_ci_$CFG_DIRLABEL\";\n"
         + "}\n")

  /** The thirteen replacements of `setup`, in the order they are applied; the NPART one is written twice. */
  const Rules: seq<Rule> := [
    VectorLength, VarNorm, FinalNumDensities, TiedStates, Npart, Npart, LdaMllt,
    ConvergenceRatio, QueueType, MakeQuests, QuestionSet, ForcedAlign, ForceAlignModelDir
  ]

  /** `line` after the statements `rules`, the first applied first. */
  function ApplyRules(line: string, rules: seq<Rule>): string
  {
    if rules == [] then line
    else
      var last := rules[|rules| - 1];
      ReplaceAll(ApplyRules(line, rules[..|rules| - 1]), last.pat, last.rep)
  }

  /** The chunk `setup` writes for one configuration line. */
  function PatchLine(line: string): string
  {
    ApplyRules(line, Rules)
  }

  /** Running two blocks of statements one after the other is running their concatenation. */
  lemma {:induction false} ApplyRulesAppend(line: string, a: seq<Rule>, b: seq<Rule>)
    ensures ApplyRules(line, a + b) == ApplyRules(ApplyRules(line, a), b)
    decreases |b|
  {
    if b != [] {
      var b' := b[..|b| - 1];
      assert (a + b)[..|a + b| - 1] == a + b';
      assert (a + b)[|a + b| - 1] == b[|b| - 1];
      ApplyRulesAppend(line, a, b');
    } else {
      assert a + b == a;
    }
  }

  /** Rules whose match texts do not occur leave the line as it is. */
  lemma {:induction false} ApplyRulesAbsent(line: string, rules: seq<Rule>)
    requires forall k :: 0 <= k < |rules| ==> !Occurs(line, rules[k].pat)
    ensures ApplyRules(line, rules) == line
    decreases |rules|
  {
    if rules != [] {
      var init := rules[..|rules| - 1];
      assert forall k :: 0 <= k < |init| ==> init[k] == rules[k];
      ApplyRulesAbsent(line, init);
      ReplaceAllAbsent(line, rules[|rules| - 1].pat, rules[|rules| - 1].rep);
    }
  }

  /** A configuration line in which none of the thirteen replacements finds its match text (twelve distinct texts, NPART twice) is written unchanged. */
  lemma PatchLineUntouched(line: string)
    requires forall k :: 0 <= k < |Rules| ==> !Occurs(line, Rules[k].pat)
    ensures PatchLine(line) == line
  {
    ApplyRulesAbsent(line, Rules);
  }

  function LastChar(s: string): char
    requires s != []
  {
    s[|s| - 1]
  }

  /** Rules each absent from `line` because `line` lacks a character (`marks[k]` for rule `k`) of its match text. */
  lemma SkipRules(line: string, rules: seq<Rule>, marks: seq<char>)
    requires |marks| == |rules|
    requires forall k :: 0 <= k < |rules| ==> marks[k] in rules[k].pat && marks[k] !in line
    ensures ApplyRules(line, rules) == line
  {
    forall k | 0 <= k < |rules| ensures !Occurs(line, rules[k].pat) {
      AbsentByChar(line, rules[k].pat, marks[k]);
    }
    ApplyRulesAbsent(line, rules);
  }

  /** The rules before and after the densities rule. */
  const BeforeDensities: seq<Rule> := [VectorLength, VarNorm]
  const AfterDensities: seq<Rule> := [TiedStates, Npart, Npart, LdaMllt, ConvergenceRatio, QueueType,
                                      MakeQuests, QuestionSet, ForcedAlign, ForceAlignModelDir]

  lemma RulesAroundDensities()
    ensures Rules == BeforeDensities + [FinalNumDensities] + AfterDensities
  {
  }

  /** None of the rules after the densities rule matches the rewritten densities line. */
  lemma SkipAfterDensities(line: string)
    requires '0' !in line && '1' !in line && '\'' !in line && '"' !in line
    ensures ApplyRules(line, AfterDensities) == line
  {
    assert LastChar(TiedStates.pat) == '0' && LastChar(Npart.pat) == '1' && LastChar(LdaMllt.pat) == '\'';
    assert LastChar(ConvergenceRatio.pat) == '1' && LastChar(QueueType.pat) == '"' && LastChar(MakeQuests.pat) == '"';
    assert LastChar(ForcedAlign.pat) == '\'';
    assert QuestionSet.pat[|QuestionSet.pat| - 2] == '"' && ForceAlignModelDir.pat[|ForceAlignModelDir.pat| - 2] == '"';
    SkipRules(line, AfterDensities, "011'1\"\"\"'\"");
  }

  lemma SkipBeforeDensities(line: string)
    requires '3' !in line && '\'' !in line
    ensures ApplyRules(line, BeforeDensities) == line
  {
    assert VectorLength.pat[|VectorLength.pat| - 2] == '3' && VarNorm.pat[|VarNorm.pat| - 2] == '\'';
    SkipRules(line, BeforeDensities, "3'");
  }

  /**
    A densities statement `= 8` becomes `= 32`, and no other rule touches the
    line, whatever follows the statement so long as it holds none of `$`, `3`,
    `0`, `1`, a quote or an apostrophe (the stock line ends in `;` and a newline).
   */
  lemma DensitiesEightBecomeThirtyTwo(tail: string)
    requires '$' !in tail && '3' !in tail && '0' !in tail && '1' !in tail && '"' !in tail && '\'' !in tail
    ensures PatchLine(FinalNumDensities.pat + tail) == FinalNumDensities.rep + tail
  {
    var r := FinalNumDensities;
    DensitiesKeyLacksDigits();
    DensitiesKeyLacksQuotes();
    assert r.pat[0] == DensitiesKey[0] == '$';
    SkipBeforeDensities(r.pat + tail);
    SkipAfterDensities(r.rep + tail);
    OneRuleMatches(BeforeDensities, r, AfterDensities, tail);
    RulesAroundDensities();
  }

  lemma DensitiesKeyLacksDigits()
    ensures '0' !in DensitiesKey && '1' !in DensitiesKey && '3' !in DensitiesKey
  {
  }

  lemma DensitiesKeyLacksQuotes()
    ensures '"' !in DensitiesKey && '\'' !in DensitiesKey
  {
  }

  /** A chain in which only rule `r` matches, once, at the start of the line. */
  lemma OneRuleMatches(a: seq<Rule>, r: Rule, b: seq<Rule>, tail: string)
    requires r.pat != [] && r.pat[0] !in tail
    requires ApplyRules(r.pat + tail, a) == r.pat + tail
    requires ApplyRules(r.rep + tail, b) == r.rep + tail
    ensures ApplyRules(r.pat + tail, a + [r] + b) == r.rep + tail
  {
    var before := r.pat + tail;
    ApplyRulesAppend(before, a + [r], b);
    ApplyRulesAppend(before, a, [r]);
    assert [r][..0] == [];
    ReplaceAllLeading(r.pat, tail, r.rep);
    ReplaceAllAbsent(tail, r.pat, r.rep) by {
      AbsentByChar(tail, r.pat, r.pat[0]);
    }
  }

  /** The stock line `$CFG_FINAL_NUM_DENSITIES = 8;` is written as `$CFG_FINAL_NUM_DENSITIES = 32;`. */
  lemma StockDensitiesLine()
    ensures PatchLine("$CFG_FINAL_NUM_DENSITIES = 8;\n") == "$CFG_FINAL_NUM_DENSITIES = 32;\n"
  {
    var tail := ";\n";
    DensitiesEightBecomeThirtyTwo(tail);
    assert FinalNumDensities.pat + tail == "$CFG_FINAL_NUM_DENSITIES = 8;\n";
    assert FinalNumDensities.rep + tail == "$CFG_FINAL_NUM_DENSITIES = 32;\n";
  }

  /** A rule that only changes the tail of a `$`-led statement creates no new match. */
  lemma NoNewOccurrenceOfTail(d: char, body: string, x: string, y: string)
    requires d !in body && d !in x && d !in y && x != [] && |x| <= |y| && x[0] != y[0]
    ensures NoNewOccurrence([d] + body + x, [d] + body + y)
  {
    var pat, rep := [d] + body + x, [d] + body + y;
    assert pat[1..] == body + x && rep[1..] == body + y;
    assert rep[..|pat|][1 + |body|] == y[0] && pat[1 + |body|] == x[0];
  }

  /** Applying the NPART replacement twice is applying it once: its output holds no new match. */
  lemma NpartTwiceIsOnce(line: string)
    ensures ReplaceAll(ReplaceAll(line, Npart.pat, Npart.rep), Npart.pat, Npart.rep)
         == ReplaceAll(line, Npart.pat, Npart.rep)
  {
    var body, x, y := "CFG_NPART = ", "1", "20";
    assert Npart.pat == "$" + body + x && Npart.rep == "$" + body + y;
    NoNewOccurrenceOfTail('$', body, x, y);
    ReplaceAllIdempotent(line, Npart.pat, Npart.rep);
  }

  lemma RulesAroundNpart()
    ensures Rules[..6] == Rules[..5] + [Npart] && Rules[..5] == Rules[..4] + [Npart]
  {
  }

  /**
    The NPART statement appears twice in `setup`; the second changes nothing,
    so the chain up to it gives what the chain with the first one alone gives.
   */
  lemma RepeatedNpartRuleIsNoOp(line: string)
    ensures ApplyRules(line, Rules[..6]) == ApplyRules(line, Rules[..5])
  {
    RulesAroundNpart();
    ApplyRulesAppend(line, Rules[..5], [Npart]);
    ApplyRulesAppend(line, Rules[..4], [Npart]);
    assert [Npart][..0] == [];
    NpartTwiceIsOnce(ApplyRules(line, Rules[..4]));
  }

  /** `setup`'s write loop: one write per configuration line, in order. */
  method Setup(config: seq<string>) returns (written: seq<string>)
    ensures |written| == |config|
    ensures forall i :: 0 <= i < |config| ==> written[i] == PatchLine(config[i])
  {
    written := [];
    for i := 0 to |config|
      invariant |written| == i
      invariant forall j :: 0 <= j < i ==> written[j] == PatchLine(config[j])
    {
      var line := config[i];
      for r := 0 to |Rules|
        invariant line == ApplyRules(config[i], Rules[..r])
      {
        assert Rules[..r + 1][..r] == Rules[..r];
        line := ReplaceAll(line, Rules[r].pat, Rules[r].rep);
      }
      assert Rules[..|Rules|] == Rules;
      written := written + [line];
    }
  }
}
