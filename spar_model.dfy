/** The values the stage-description compiler builds: variables, replication
    policies, stage attributes, stages and the resolved stream. */
module SparModel {
  import opened SparTokens

  /** A declared variable: its identifier and the text of its type. The
      source keeps the type as tokens and compares it by its printed text,
      so the model keeps the text. */
  datatype SparVar = SparVar(identifier: string, varType: string)

  /** The variable declared as `identifier: <typeTokens>`. */
  function MakeVar(identifier: string, typeTokens: seq<Token>): SparVar
  {
    SparVar(identifier, Render(typeTokens))
  }

  /** `PartialEq for SparVar`: same identifier and same type text. Two declared
      variables are the same exactly when they are equal values. */
  predicate SameVar(a: SparVar, b: SparVar)
    ensures SameVar(a, b) <==> a == b
  {
    a.identifier == b.identifier && a.varType == b.varType
  }

  /** Two types compare equal exactly when their printed texts agree. */
  lemma SameTypeText(name: string, t1: seq<Token>, t2: seq<Token>)
    ensures MakeVar(name, t1) == MakeVar(name, t2) <==> Render(t1) == Render(t2)
  {
  }

  /** `is_vec`: the type text starts with "Vec". */
  predicate IsVec(v: SparVar)
  {
    |v.varType| >= 3 && v.varType[..3] == "Vec"
  }

  /** A type whose first token is an identifier is a collection exactly when
      that identifier starts with "Vec" (so `Vector<u8>` counts as one and
      `std::vec::Vec<u8>` does not). */
  lemma IsVecByFirstIdent(name: string, ts: seq<Token>)
    requires ts != [] && ts[0].Ident?
    ensures IsVec(MakeVar(name, ts)) <==> |ts[0].name| >= 3 && ts[0].name[..3] == "Vec"
  {
    RenderStartsWithFirst(ts);
    var r, f := Render(ts), ts[0].name;
    assert RenderTree(ts[0]) == f;
    if |f| >= 3 {
      assert r[..3] == f[..3];
    } else if |r| >= 3 {
      assert r[|f|] == ' ';
      assert "Vec"[|f|] != ' ';
    }
  }

  type NonZeroU32 = n: nat | 0 < n <= U32_MAX witness 1

  /** How many workers run a stage: a fixed positive count, a count held by a
      variable, or one worker (ordered or not). */
  datatype Replicate =
    | Lit(count: NonZeroU32)
    | Var(ident: string)
    | SeqOrdered
    | SeqUnordered

  predicate IsSequential(r: Replicate)
  {
    r.SeqOrdered? || r.SeqUnordered?
  }

  predicate IsReplicate(r: Replicate)
    ensures IsReplicate(r) <==> !IsSequential(r)
  {
    r.Lit? || r.Var?
  }

  datatype SparAttrs = SparAttrs(input: seq<SparVar>, output: seq<SparVar>, replicate: Replicate)

  /** A stage: its attributes, the inputs it keeps as per-worker state (filled
      in by the dependency resolver), its body and its number. */
  datatype SparStage = SparStage(attrs: SparAttrs, state: seq<SparVar>, code: seq<Token>, id: nat)

  /** `SparStage::new`: a stage whose state is still empty. */
  function NewStage(attrs: SparAttrs, code: seq<Token>, id: nat): (s: SparStage)
    ensures s.state == [] && s.attrs == attrs && s.code == code && s.id == id
  {
    SparStage(attrs, [], code, id)
  }

  /** `PartialEq for SparStage`: equal attributes and equal body text; the
      state and the number are not compared. */
  predicate SameStage(a: SparStage, b: SparStage)
    ensures a.attrs == b.attrs && a.code == b.code ==> SameStage(a, b)
  {
    a.attrs == b.attrs && Render(a.code) == Render(b.code)
  }

  datatype SparStream = SparStream(attrs: SparAttrs, stages: seq<SparStage>, externalVars: seq<SparVar>)

  predicate IsExternal(s: SparStream, v: SparVar)
  {
    v in s.externalVars
  }
}
