/** The front end's unit tests, restated as facts about the model: each
    lemma gives the tokens a test feeds to `parse_spar_stages` and what the
    test expects back. */
module SparExamples {
  import opened Results
  import opened SparTokens
  import opened SparModel
  import opened SparArgsParser
  import opened SparStages

  /** `while true { a += 1; }`, the dummy body several tests use. */
  function LoopBody(): seq<Token>
  {
    [Ident("while"), Ident("true"), Group(Brace, [Ident("a"), Punct('+'), Punct('='), Literal("1"), Punct(';')])]
  }

  /** The driver code of test `top_level_code`:
      `let mut a = 10; while true { a += 1; STAGE({ let b = 10; }); }`
      leaves `let mut a = 10; while true { a += 1; __SPAR_MARKER__ }`,
      and the stage inside the loop is read from the loop's own level. */
  lemma TopLevelCode()
    ensures var inc := [Ident("a"), Punct('+'), Punct('='), Literal("1"), Punct(';')];
            var stage := [STAGE_KW, Group(Parenthesis, [Group(Brace, [Ident("let"), Ident("b"), Punct('='), Literal("10"), Punct(';')])]), Punct(';')];
            var head := [Ident("let"), Ident("mut"), Ident("a"), Punct('='), Literal("10"), Punct(';'), Ident("while"), Ident("true")];
            SplitCode(head + [Group(Brace, inc + stage)]) ==
              (head + [Group(Brace, inc + [Ident(MARKER)])], stage)
  {
    var inc := [Ident("a"), Punct('+'), Punct('='), Literal("1"), Punct(';')];
    var stage := [STAGE_KW, Group(Parenthesis, [Group(Brace, [Ident("let"), Ident("b"), Punct('='), Literal("10"), Punct(';')])]), Punct(';')];
    var head := [Ident("let"), Ident("mut"), Ident("a"), Punct('='), Literal("10"), Punct(';'), Ident("while"), Ident("true")];
    NoStageTokens(inc);
    NoStageTokens(head);
    SplitCodeInGroup(head, inc, stage);
  }

  /** A keyword one brace group deep, after keyword-free code on both
      levels: the marker goes at the end of the inner level, the group is
      closed right after it, and the stages are read from the inner level. */
  lemma SplitCodeInGroup(head: seq<Token>, inc: seq<Token>, stage: seq<Token>)
    requires !HasStage(head) && !HasStage(inc) && head != []
    requires stage != [] && stage[0] == STAGE_KW
    ensures SplitCode(head + [Group(Brace, inc + stage)]) == (head + [Group(Brace, inc + [Ident(MARKER)])], stage)
  {
    LocateAppend(inc, stage);
    assert Locate(stage) == Found([[]], stage, []);
    assert inc + [] == inc;
    assert Locate(inc + stage) == Found([inc], stage, []);
    LocateBraceFront(inc + stage, []);
    LocateAppend(head, [Group(Brace, inc + stage)]);
    assert head + [] == head;
    var levels := [head, inc];
    assert [Group(Brace, inc + stage)] + [] == [Group(Brace, inc + stage)];
    assert PrependLevel(head, Found([[]] + [inc], stage, [[]] + [])) == Found(levels, stage, [[]]);
    assert Locate(head + [Group(Brace, inc + stage)]) == Found(levels, stage, [[]]);
    assert !AllEmpty(levels) by {
      assert levels[0] != [];
    }
    var marked := [head, inc + [Ident(MARKER)]];
    assert WithMarker(levels) == marked;
    assert marked[1..] == [inc + [Ident(MARKER)]];
    assert Collapse(marked) == head + [Group(Brace, inc + [Ident(MARKER)])];
  }

  /** A stream of trees none of which is the keyword or a brace group holds
      no keyword. */
  lemma {:induction false} NoStageTokens(ts: seq<Token>)
    requires forall i :: 0 <= i < |ts| ==> ts[i] != STAGE_KW && !(ts[i].Group? && ts[i].delim == Brace)
    ensures !HasStage(ts)
  {
    if ts != [] {
      NoStageTokens(ts[1..]);
    }
  }

  /** Test `stage_with_multiple_inputs`: `STAGE(INPUT(a: u32, b: u32, c: u32), { .. });`
      declares one stage whose inputs are `a`, `b` and `c`, in that order and
      each of type `u32`, with no outputs, the default replication and the
      body verbatim. */
  lemma StageWithMultipleInputs()
    ensures var decl := [Ident("a"), Punct(':'), Ident("u32"), Punct(','),
                         Ident("b"), Punct(':'), Ident("u32"), Punct(','),
                         Ident("c"), Punct(':'), Ident("u32")];
            StageList([STAGE_KW, Group(Parenthesis, [Ident("INPUT"), Group(Parenthesis, decl), Punct(','), Group(Brace, LoopBody())]), Punct(';')], 0) ==
              Ok([SparStage(SparAttrs([SparVar("a", "u32"), SparVar("b", "u32"), SparVar("c", "u32")], [], SeqUnordered), [], LoopBody(), 1)])
  {
    var d := StageDecl([InputItem(ThreeInputs())], LoopBody());
    ThreeInputsTokens();
    ThreeInputsVars();
    SingleStage(d);
  }

  function ThreeInputs(): seq<VarDecl>
  {
    [VarDecl("a", [Ident("u32")]), VarDecl("b", [Ident("u32")]), VarDecl("c", [Ident("u32")])]
  }

  lemma ThreeInputsTokens()
    ensures AllWellFormed(ThreeInputs())
    ensures StageTokens(StageDecl([InputItem(ThreeInputs())], LoopBody())) ==
            [STAGE_KW, Group(Parenthesis, [Ident("INPUT"), Group(Parenthesis, [Ident("a"), Punct(':'), Ident("u32"), Punct(','),
                                                                               Ident("b"), Punct(':'), Ident("u32"), Punct(','),
                                                                               Ident("c"), Punct(':'), Ident("u32")]),
                                           Punct(','), Group(Brace, LoopBody())]), Punct(';')]
  {
    var ds := ThreeInputs();
    assert PrintVars(ds[2..], false) == DeclTokens(ds[2]);
    assert PrintVars(ds[1..], false) == DeclTokens(ds[1]) + [Punct(',')] + PrintVars(ds[2..], false);
    var a := [InputItem(ds)];
    assert PrintAttrs(a[1..]) == [];
    assert PrintVars(ds, false) == [Ident("a"), Punct(':'), Ident("u32"), Punct(','),
                                    Ident("b"), Punct(':'), Ident("u32"), Punct(','),
                                    Ident("c"), Punct(':'), Ident("u32")];
    assert PrintAttrs(a) == [Ident("INPUT"), Group(Parenthesis, PrintVars(ds, false)), Punct(',')];
    var h := PrintAttrs(a) + [Group(Brace, LoopBody())];
    assert h == [Ident("INPUT"), Group(Parenthesis, PrintVars(ds, false)), Punct(','), Group(Brace, LoopBody())];
    assert StageTokens(StageDecl(a, LoopBody())) == [STAGE_KW, Group(Parenthesis, h), Punct(';')];
  }

  lemma ThreeInputsVars()
    ensures DeclaredAttrs([InputItem(ThreeInputs())]) ==
            SparAttrs([SparVar("a", "u32"), SparVar("b", "u32"), SparVar("c", "u32")], [], SeqUnordered)
  {
    assert Render([Ident("u32")]) == "u32";
  }

  /** One printed stage is read as one stage, numbered 1, with its declared
      attributes, no state and its body. */
  lemma SingleStage(d: StageDecl)
    requires AttrWellFormed(d.attrs)
    ensures StageList(StageTokens(d), 0) == Ok([SparStage(DeclaredAttrs(d.attrs), [], d.body, 1)])
  {
    assert StagesWellFormed([d]);
    StageListRoundTrip([d], 0);
    assert [d][1..] == [];
    assert PrintStages([d]) == StageTokens(d);
    var ss := DeclaredStages([d], 0);
    assert |ss| == 1 && ss[0] == NewStage(DeclaredAttrs(d.attrs), d.body, 1);
    assert ss == [SparStage(DeclaredAttrs(d.attrs), [], d.body, 1)];
  }

  /** Test `input_cannot_be_a_literal`: `STAGE(INPUT(10), {});` is rejected
      at the literal. */
  lemma InputCannotBeALiteral()
    ensures StageList([STAGE_KW, Group(Parenthesis, [Ident("INPUT"), Group(Parenthesis, [Literal("10")]), Punct(','), Group(Brace, [])]), Punct(';')], 0)
            == Err(UnexpectedToken)
  {
  }

  /** Test `input_cannot_be_empty`: `STAGE(INPUT(), {});` is rejected. */
  lemma InputCannotBeEmpty()
    ensures StageList([STAGE_KW, Group(Parenthesis, [Ident("INPUT"), Group(Parenthesis, []), Punct(','), Group(Brace, [])]), Punct(';')], 0)
            == Err(EmptyInput)
  {
  }

  /** Test `output_cannot_be_empty`: `STAGE(OUTPUT(), {});` is rejected. */
  lemma OutputCannotBeEmpty()
    ensures StageList([STAGE_KW, Group(Parenthesis, [Ident("OUTPUT"), Group(Parenthesis, []), Punct(','), Group(Brace, [])]), Punct(';')], 0)
            == Err(EmptyOutput)
  {
  }

  /** Test `forgot_comma`: `STAGE(REPLICATE = 4 {});` is rejected for the
      missing comma after the count. */
  lemma ForgotComma()
    ensures StageList([STAGE_KW, Group(Parenthesis, [Ident("REPLICATE"), Punct('='), Literal("4"), Group(Brace, [])]), Punct(';')], 0)
            == Err(ExpectedPunct(','))
  {
    assert AllDigits("4") && DigitsValue("4") == 4;
    assert ParseU32("4") == Some(4);
  }

  /** A stage not followed by ';': `STAGE(INPUT(a: u32), {}) let` is
      rejected at the `let`. */
  lemma MissingSemicolon()
    ensures StageList([STAGE_KW, Group(Parenthesis, [Ident("INPUT"), Group(Parenthesis, [Ident("a"), Punct(':'), Ident("u32")]),
                                                     Punct(','), Group(Brace, [])]), Ident("let")], 0)
            == Err(ExpectedSemicolon)
  {
    var ds := [VarDecl("a", [Ident("u32")])];
    var h := [Ident("INPUT"), Group(Parenthesis, PrintVars(ds, false)), Punct(','), Group(Brace, [])];
    assert PrintVars(ds, false) == [Ident("a"), Punct(':'), Ident("u32")];
    assert PrintAttrs([InputItem(ds)]) + [Group(Brace, [])] + [] == h;
    SparArgsAccepts([InputItem(ds)], [], [], [Ident("let")]);
  }

  /** Test `should_not_have_code_after_stages`, with the comma in place:
      `STAGE(REPLICATE = 4, {}); let a = 5;` is rejected at the `let`. */
  lemma CodeAfterStages()
    ensures StageList([STAGE_KW, Group(Parenthesis, [Ident("REPLICATE"), Punct('='), Literal("4"), Punct(','), Group(Brace, [])]), Punct(';'),
                       Ident("let"), Ident("a"), Punct('='), Literal("5"), Punct(';')], 0)
            == Err(ExpectedStage)
  {
    assert AllDigits("4") && DigitsValue("4") == 4;
    assert ParseU32("4") == Some(4);
  }
}
