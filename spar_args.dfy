/** The attribute parser of a stream or stage header:
    `(INPUT(a: T, ...), OUTPUT(...), REPLICATE = N | ORDERED, { body })`.

    Each loop of the source is a method proved equal to a recursive function
    that reads one attribute at a time; the functions carry the declarative
    facts, and printers of well-formed headers give the round trips. */
module SparArgsParser {
  import opened Results
  import opened SparTokens
  import opened SparModel

  // ---------------------------------------------------------------------
  // get_type

  /** Position of the first top-level ',' of `ts`, or `|ts|` if there is none
      (commas inside groups are not seen: a group is one tree). */
  function CommaIndex(ts: seq<Token>): (k: nat)
    ensures k <= |ts|
    ensures forall i :: 0 <= i < k ==> ts[i] != Punct(',')
    ensures k < |ts| ==> ts[k] == Punct(',')
  {
    if ts == [] || ts[0] == Punct(',') then 0 else 1 + CommaIndex(ts[1..])
  }

  /** A type is the longest run of trees before the next top-level ',' or
      the end of input, and it must not be empty. */
  function TypeSpan(c: seq<Token>): (r: Result<(seq<Token>, seq<Token>), ParseError>)
    ensures r.Ok? <==> c != [] && c[0] != Punct(',')
    ensures r.Err? ==> r.error == ExpectedType
    ensures r.Ok? ==> r.value.0 != [] && c == r.value.0 + r.value.1
    ensures r.Ok? ==> Punct(',') !in r.value.0
    ensures r.Ok? ==> r.value.1 == [] || r.value.1[0] == Punct(',')
  {
    var k := CommaIndex(c);
    if k == 0 then Err(ExpectedType) else Ok((c[..k], c[k..]))
  }

  /** get_type as written: the empty-type check is made only at the end of
      input, so a ',' right after the ':' yields an empty type. */
  function TypeSpanAsWritten(c: seq<Token>): (r: Result<(seq<Token>, seq<Token>), ParseError>)
    ensures r.Ok? <==> c != []
  {
    var k := CommaIndex(c);
    if k == 0 && k == |c| then Err(ExpectedType) else Ok((c[..k], c[k..]))
  }

  /** The two readings differ exactly on a cursor that starts with ','. */
  lemma TypeSpanAsWrittenDiffers(c: seq<Token>)
    ensures c != [] && c[0] == Punct(',') ==> TypeSpanAsWritten(c) == Ok(([], c)) && TypeSpan(c).Err?
    ensures (c == [] || c[0] != Punct(',')) ==> TypeSpanAsWritten(c) == TypeSpan(c)
  {
  }

  /** A non-empty comma-free type followed by a ',' or by nothing is read
      back whole. */
  lemma TypeSpanOf(ty: seq<Token>, rest: seq<Token>)
    requires ty != [] && Punct(',') !in ty
    requires rest == [] || rest[0] == Punct(',')
    ensures TypeSpan(ty + rest) == Ok((ty, rest))
  {
    CommaIndexAt(ty, rest);
    assert (ty + rest)[..|ty|] == ty && (ty + rest)[|ty|..] == rest;
  }

  /** get_type, with the empty-type check made at the ',' as well. */
  method GetType(cursor: seq<Token>) returns (r: Result<(seq<Token>, seq<Token>), ParseError>)
    ensures r == TypeSpan(cursor)
  {
    var next := cursor;
    var code: seq<Token> := [];
    while next != []
      invariant cursor == code + next
      invariant forall i :: 0 <= i < |code| ==> code[i] != Punct(',')
      decreases |next|
    {
      if next[0] == Punct(',') {
        assert CommaIndex(cursor) == |code| by { CommaIndexAt(code, next); }
        if code == [] {
          return Err(ExpectedType);
        }
        return Ok((code, next));
      }
      code := code + [next[0]];
      next := next[1..];
    }
    assert CommaIndex(cursor) == |code| by { CommaIndexAt(code, next); }
    if code == [] {
      return Err(ExpectedType);
    }
    return Ok((code, next));
  }

  lemma {:induction false} CommaIndexAt(code: seq<Token>, next: seq<Token>)
    requires forall i :: 0 <= i < |code| ==> code[i] != Punct(',')
    requires next == [] || next[0] == Punct(',')
    ensures CommaIndex(code + next) == |code|
  {
    if code != [] {
      assert (code + next)[1..] == code[1..] + next;
      CommaIndexAt(code[1..], next);
    }
  }

  // ---------------------------------------------------------------------
  // get_variables

  function PrependOk(p: seq<SparVar>, r: Result<seq<SparVar>, ParseError>): Result<seq<SparVar>, ParseError>
  {
    match r
    case Ok(vs) => Ok(p + vs)
    case Err(e) => Err(e)
  }

  lemma PrependOkAssoc(p: seq<SparVar>, q: seq<SparVar>, r: Result<seq<SparVar>, ParseError>)
    ensures PrependOk(p, PrependOk(q, r)) == PrependOk(p + q, r)
    ensures PrependOk([], r) == r
  {
    if r.Ok? {
      assert p + (q + r.value) == (p + q) + r.value;
      assert [] + r.value == r.value;
    }
  }

  /** The declarations inside the parentheses of INPUT or OUTPUT:
      `name : type` items separated by ',', a trailing ',' allowed. */
  function VarItems(rest: seq<Token>): (r: Result<seq<SparVar>, ParseError>)
    ensures rest != [] && !rest[0].Ident? ==> r == Err(UnexpectedToken)
    ensures rest != [] && rest[0].Ident? && (|rest| < 2 || rest[1] != Punct(':')) ==> r == Err(ExpectedPunct(':'))
    ensures r.Ok? ==> (r.value == [] <==> rest == [])
    ensures r.Ok? && rest != [] ==> r.value[0].identifier == rest[0].name
    decreases |rest|
  {
    if rest == [] then Ok([])
    else if !rest[0].Ident? then Err(UnexpectedToken)
    else
      var afterColon :- SkipPunct(rest[1..], ':');
      var span :- TypeSpan(afterColon);
      var v := MakeVar(rest[0].name, span.0);
      var next := span.1;
      match SkipPunct(next, ',')
      case Ok(more) => PrependOk([v], VarItems(more))
      case Err(e) => if next == [] then Ok([v]) else Err(e)
  }

  /** get_variables: a parenthesised declaration list, and the cursor after it. */
  function VarList(c: seq<Token>): (r: Result<(seq<SparVar>, seq<Token>), ParseError>)
    ensures r.Ok? <==> SkipParenthesis(c).Ok? && VarItems(c[0].inner).Ok?
    ensures r.Ok? ==> r.value == (VarItems(c[0].inner).value, c[1..])
    ensures SkipParenthesis(c).Err? ==> r == Err(ExpectedParenthesis)
  {
    var p :- SkipParenthesis(c);
    var vars :- VarItems(p.0);
    Ok((vars, p.1))
  }

  method GetVariables(cursor: seq<Token>) returns (r: Result<(seq<SparVar>, seq<Token>), ParseError>)
    ensures r == VarList(cursor)
  {
    var args :- SkipParenthesis(cursor);
    var rest := args.0;
    var vars: seq<SparVar> := [];
    PrependOkAssoc([], [], VarItems(rest));
    while rest != []
      invariant PrependOk(vars, VarItems(rest)) == VarItems(args.0)
      decreases |rest|
    {
      if !rest[0].Ident? {
        return Err(UnexpectedToken);
      }
      var afterColon :- SkipPunct(rest[1..], ':');
      var span :- GetType(afterColon);
      var v := MakeVar(rest[0].name, span.0);
      var next := span.1;
      var sep := SkipPunct(next, ',');
      if sep.Ok? {
        PrependOkAssoc(vars, [v], VarItems(sep.value));
        vars := vars + [v];
        rest := sep.value;
      } else {
        // A type ends only at a ',' or at the end, so `next` is empty here.
        assert next == [];
        PrependOkAssoc(vars, [v], Ok([]));
        assert [v] + [] == [v];
        vars := vars + [v];
        assert vars + [] == vars;
        break;
      }
    }
    assert vars + [] == vars;
    return Ok((vars, args.1));
  }

  // ---------------------------------------------------------------------
  // parse_replicate

  /** `= <identifier>` or `= <positive 32-bit decimal>`; a literal zero has an
      error of its own, anything else is a syntax error. */
  function ParseReplicate(c: seq<Token>): (r: Result<(Replicate, seq<Token>), ParseError>)
    ensures r.Ok? <==> |c| >= 2 && c[0] == Punct('=') &&
                       (c[1].Ident? || (c[1].Literal? && ParseU32(c[1].text).Some? && ParseU32(c[1].text).value > 0))
    ensures r.Ok? ==> r.value.1 == c[2..] && IsReplicate(r.value.0)
    ensures r.Ok? && c[1].Ident? ==> r.value.0 == Var(c[1].name)
    ensures r.Ok? && c[1].Literal? ==> r.value.0 == Lit(ParseU32(c[1].text).value)
    ensures r.Err? ==> (r.error == ReplicateZero <==>
                        |c| >= 2 && c[0] == Punct('=') && c[1].Literal? && ParseU32(c[1].text) == Some(0))
    ensures r.Err? ==> r.error == ReplicateZero || r.error == ReplicateSyntax
  {
    if |c| >= 2 && c[0] == Punct('=') then
      match c[1]
      case Ident(i) => Ok((Var(i), c[2..]))
      case Literal(text) =>
        (match ParseU32(text)
         case Some(n) => if n > 0 then Ok((Lit(n), c[2..])) else Err(ReplicateZero)
         case None => Err(ReplicateSyntax))
      case _ => Err(ReplicateSyntax)
    else Err(ReplicateSyntax)
  }

  // ---------------------------------------------------------------------
  // parse_spar_args

  /** The attribute list after `rest`, given what was read so far; on
      success, the attributes and the inner trees of the body. */
  function AttrItems(rest: seq<Token>, input: seq<SparVar>, output: seq<SparVar>, rep: Replicate)
    : (r: Result<(SparAttrs, seq<Token>), ParseError>)
    ensures r.Ok? && input != [] ==> r.value.0.input == input
    ensures r.Ok? && output != [] ==> r.value.0.output == output
    ensures r.Ok? && rep != SeqUnordered ==> r.value.0.replicate == rep
    ensures r.Ok? && r.value.0.input == [] ==> input == []
    ensures rest == [] ==> r == Err(MissingBody)
    decreases |rest|, 1
  {
    if rest == [] then Err(MissingBody)
    else
      match rest[0]
      case Ident(name) => Keyword(name, rest[1..], input, output, rep)
      case Group(d, inner) =>
        if d != Brace then Err(UnknownAttribute)
        else if |rest| > 1 && rest[1] != Punct(',') then Err(TokenAfterBody)
        else Ok((SparAttrs(input, output, rep), inner))
      case _ => Err(UnknownAttribute)
  }

  /** One keyword attribute; `next` is the cursor after the keyword. */
  function Keyword(name: string, next: seq<Token>, input: seq<SparVar>, output: seq<SparVar>, rep: Replicate)
    : (r: Result<(SparAttrs, seq<Token>), ParseError>)
    ensures r.Ok? && input != [] ==> r.value.0.input == input
    ensures r.Ok? && output != [] ==> r.value.0.output == output
    ensures r.Ok? && rep != SeqUnordered ==> r.value.0.replicate == rep
    ensures r.Ok? && r.value.0.input == [] ==> input == []
    decreases |next|, 0
  {
    if name == "INPUT" then
      if input != [] then Err(DuplicateInput)
      else
        var p :- VarList(next);
        if p.0 == [] then Err(EmptyInput)
        else
          var more :- SkipPunct(p.1, ',');
          AttrItems(more, p.0, output, rep)
    else if name == "OUTPUT" then
      if output != [] then Err(DuplicateOutput)
      else
        var p :- VarList(next);
        if p.0 == [] then Err(EmptyOutput)
        else
          var more :- SkipPunct(p.1, ',');
          AttrItems(more, input, p.0, rep)
    else if name == "REPLICATE" then
      if rep != SeqUnordered then Err(DuplicateReplicate)
      else
        var p :- ParseReplicate(next);
        var more :- SkipPunct(p.1, ',');
        AttrItems(more, input, output, p.0)
    else if name == "ORDERED" then
      if rep != SeqUnordered then Err(ReplicateAndOrdered)
      else
        var more :- SkipPunct(next, ',');
        AttrItems(more, input, output, SeqOrdered)
    else Err(UnknownAttribute)
  }

  /** parse_spar_args: the attributes, the cursor after the parenthesised
      list, and the inner trees of the body. */
  function SparArgs(c: seq<Token>): (r: Result<(SparAttrs, seq<Token>, seq<Token>), ParseError>)
    ensures SkipParenthesis(c).Err? ==> r == Err(ExpectedParenthesis)
    ensures r.Ok? ==> c != [] && r.value.1 == c[1..]
  {
    var p :- SkipParenthesis(c);
    var q :- AttrItems(p.0, [], [], SeqUnordered);
    Ok((q.0, p.1, q.1))
  }

  method ParseSparArgs(cursor: seq<Token>) returns (r: Result<(SparAttrs, seq<Token>, seq<Token>), ParseError>)
    ensures r == SparArgs(cursor)
  {
    var p :- SkipParenthesis(cursor);
    var input: seq<SparVar> := [];
    var output: seq<SparVar> := [];
    var replicate := SeqUnordered;
    var rest := p.0;
    while rest != []
      invariant AttrItems(rest, input, output, replicate) == AttrItems(p.0, [], [], SeqUnordered)
      decreases |rest|
    {
      var t := rest[0];
      if t.Ident? && t.name == "INPUT" {
        if input != [] {
          return Err(DuplicateInput);
        }
        var vs :- GetVariables(rest[1..]);
        if vs.0 == [] {
          return Err(EmptyInput);
        }
        input := vs.0;
        rest :- SkipPunct(vs.1, ',');
      } else if t.Ident? && t.name == "OUTPUT" {
        if output != [] {
          return Err(DuplicateOutput);
        }
        var vs :- GetVariables(rest[1..]);
        if vs.0 == [] {
          return Err(EmptyOutput);
        }
        output := vs.0;
        rest :- SkipPunct(vs.1, ',');
      } else if t.Ident? && t.name == "REPLICATE" {
        if replicate != SeqUnordered {
          return Err(DuplicateReplicate);
        }
        var rp :- ParseReplicate(rest[1..]);
        replicate := rp.0;
        rest :- SkipPunct(rp.1, ',');
      } else if t.Ident? && t.name == "ORDERED" {
        if replicate != SeqUnordered {
          return Err(ReplicateAndOrdered);
        }
        replicate := SeqOrdered;
        rest :- SkipPunct(rest[1..], ',');
      } else if t.Group? && t.delim == Brace {
        var next := rest[1..];
        if next != [] && SkipPunct(next, ',').Err? {
          return Err(TokenAfterBody);
        }
        return Ok((SparAttrs(input, output, replicate), p.1, t.inner));
      } else {
        return Err(UnknownAttribute);
      }
    }
    return Err(MissingBody);
  }

  // ---------------------------------------------------------------------
  // Printers of well-formed headers, and what the parser makes of them.

  /** A declaration `name : ty` as a user writes it. */
  datatype VarDecl = VarDecl(name: string, ty: seq<Token>)

  /** The type is not empty and has no top-level ','. */
  predicate WellFormed(d: VarDecl)
  {
    d.ty != [] && Punct(',') !in d.ty
  }

  predicate AllWellFormed(ds: seq<VarDecl>)
  {
    forall i :: 0 <= i < |ds| ==> WellFormed(ds[i])
  }

  function DeclTokens(d: VarDecl): seq<Token>
  {
    [Ident(d.name), Punct(':')] + d.ty
  }

  /** The declarations separated by ',', with or without a trailing ','. */
  function PrintVars(ds: seq<VarDecl>, trailing: bool): seq<Token>
  {
    if ds == [] then []
    else if |ds| == 1 then DeclTokens(ds[0]) + (if trailing then [Punct(',')] else [])
    else DeclTokens(ds[0]) + [Punct(',')] + PrintVars(ds[1..], trailing)
  }

  function DeclaredVars(ds: seq<VarDecl>): (vs: seq<SparVar>)
    ensures |vs| == |ds|
    ensures forall i :: 0 <= i < |ds| ==> vs[i] == MakeVar(ds[i].name, ds[i].ty)
  {
    if ds == [] then [] else [MakeVar(ds[0].name, ds[0].ty)] + DeclaredVars(ds[1..])
  }

  /** Reading one printed declaration followed by the end or by a ',' . */
  lemma VarItemsStep(d: VarDecl, tail: seq<Token>)
    requires WellFormed(d) && (tail == [] || tail[0] == Punct(','))
    ensures VarItems(DeclTokens(d) + tail) ==
            if tail == [] then Ok([MakeVar(d.name, d.ty)]) else PrependOk([MakeVar(d.name, d.ty)], VarItems(tail[1..]))
  {
    var c := DeclTokens(d) + tail;
    assert c == [Ident(d.name), Punct(':')] + (d.ty + tail);
    assert c[1..] == [Punct(':')] + (d.ty + tail);
    TypeSpanOf(d.ty, tail);
  }

  /** Reading a printed declaration list gives back its variables, in order. */
  lemma {:induction false} VarItemsRoundTrip(ds: seq<VarDecl>, trailing: bool)
    requires AllWellFormed(ds)
    ensures VarItems(PrintVars(ds, trailing)) == Ok(DeclaredVars(ds))
  {
    if ds != [] {
      var d := ds[0];
      var v := MakeVar(d.name, d.ty);
      assert WellFormed(d);
      if |ds| == 1 {
        var tail: seq<Token> := if trailing then [Punct(',')] else [];
        assert PrintVars(ds, trailing) == DeclTokens(d) + tail;
        VarItemsStep(d, tail);
        assert DeclaredVars(ds) == [v];
        if trailing {
          assert tail[1..] == [];
          assert VarItems(tail[1..]) == Ok([]);
          assert [v] + [] == [v];
        }
      } else {
        var tail := [Punct(',')] + PrintVars(ds[1..], trailing);
        assert PrintVars(ds, trailing) == DeclTokens(d) + tail;
        VarItemsStep(d, tail);
        assert tail[1..] == PrintVars(ds[1..], trailing);
        assert AllWellFormed(ds[1..]) by {
          forall i | 0 <= i < |ds| - 1
            ensures WellFormed(ds[1..][i])
          {
            assert ds[1..][i] == ds[i + 1];
          }
        }
        VarItemsRoundTrip(ds[1..], trailing);
        assert DeclaredVars(ds) == [v] + DeclaredVars(ds[1..]);
      }
    }
  }

  /** A printed declaration list in parentheses, read by get_variables. */
  lemma VarListOf(ds: seq<VarDecl>, tail: seq<Token>)
    requires AllWellFormed(ds)
    ensures VarList([Group(Parenthesis, PrintVars(ds, false))] + tail) == Ok((DeclaredVars(ds), tail))
  {
    VarItemsRoundTrip(ds, false);
    assert ([Group(Parenthesis, PrintVars(ds, false))] + tail)[1..] == tail;
  }


  // ---------------------------------------------------------------------
  // The attribute loop in any state it can reach.

  /** The state the attribute loop starts in: nothing read yet. */
  const NoAttrs := SparAttrs([], [], SeqUnordered)

  /** The attribute loop on `rest`, in state `s`. */
  function AttrsFrom(rest: seq<Token>, s: SparAttrs): Result<(SparAttrs, seq<Token>), ParseError>
  {
    AttrItems(rest, s.input, s.output, s.replicate)
  }

  /** Whatever has been read: the end of the list is the missing-body error,
      a body followed by nothing or by ',' ends the loop with the state read
      so far, and a body followed by anything else is an error. */
  lemma AttrItemsBody(s: SparAttrs, body: seq<Token>, x: Token, t: seq<Token>)
    ensures AttrsFrom([], s) == Err(MissingBody)
    ensures AttrsFrom([Group(Brace, body)], s) == Ok((s, body))
    ensures AttrsFrom([Group(Brace, body), Punct(',')] + t, s) == Ok((s, body))
    ensures x != Punct(',') ==> AttrsFrom([Group(Brace, body), x] + t, s) == Err(TokenAfterBody)
  {
  }

  /** Whatever has been read: a keyword already set is refused, and so is
      ORDERED once a replication is set. */
  lemma AttrItemsDuplicates(s: SparAttrs, name: string, t: seq<Token>)
    ensures name == "INPUT" && s.input != [] ==> AttrsFrom([Ident(name)] + t, s) == Err(DuplicateInput)
    ensures name == "OUTPUT" && s.output != [] ==> AttrsFrom([Ident(name)] + t, s) == Err(DuplicateOutput)
    ensures name == "REPLICATE" && s.replicate != SeqUnordered ==>
              AttrsFrom([Ident(name)] + t, s) == Err(DuplicateReplicate)
    ensures name == "ORDERED" && s.replicate != SeqUnordered ==>
              AttrsFrom([Ident(name)] + t, s) == Err(ReplicateAndOrdered)
  {
    assert ([Ident(name)] + t)[1..] == t;
    assert AttrsFrom([Ident(name)] + t, s) == Keyword(name, t, s.input, s.output, s.replicate);
  }

  /** Whatever has been read: a first INPUT or OUTPUT with an empty list. */
  lemma AttrItemsEmptyList(s: SparAttrs, name: string, t: seq<Token>)
    ensures name == "INPUT" && s.input == [] ==>
              AttrsFrom([Ident(name), Group(Parenthesis, [])] + t, s) == Err(EmptyInput)
    ensures name == "OUTPUT" && s.output == [] ==>
              AttrsFrom([Ident(name), Group(Parenthesis, [])] + t, s) == Err(EmptyOutput)
  {
    var u := [Ident(name), Group(Parenthesis, [])] + t;
    assert u[1..] == [Group(Parenthesis, [])] + t;
    assert VarList(u[1..]) == Ok(([], t));
    assert AttrsFrom(u, s) == Keyword(name, u[1..], s.input, s.output, s.replicate);
  }

  /** Whatever has been read: a token that is neither a keyword nor a
      brace-delimited body. */
  lemma AttrItemsUnknown(s: SparAttrs, x: Token, t: seq<Token>)
    requires x.Literal? || x.Punct? || (x.Group? && x.delim != Brace) ||
             (x.Ident? && x.name != "INPUT" && x.name != "OUTPUT" && x.name != "REPLICATE" && x.name != "ORDERED")
    ensures AttrsFrom([x] + t, s) == Err(UnknownAttribute)
  {
    assert ([x] + t)[0] == x && ([x] + t)[1..] == t;
    if x.Ident? {
      assert AttrsFrom([x] + t, s) == Keyword(x.name, t, s.input, s.output, s.replicate);
    }
  }

  // ---------------------------------------------------------------------
  // Printers of well-formed headers, with the attributes in any order.

  /** One attribute as a user writes it, without the ',' that follows it. */
  datatype AttrItem = InputItem(decls: seq<VarDecl>) | OutputItem(decls: seq<VarDecl>) | RepItem(rep: Replicate)

  function AttrWords(a: AttrItem): seq<Token>
  {
    match a
    case InputItem(ds) => [Ident("INPUT"), Group(Parenthesis, PrintVars(ds, false))]
    case OutputItem(ds) => [Ident("OUTPUT"), Group(Parenthesis, PrintVars(ds, false))]
    case RepItem(r) =>
      match r
      case SeqOrdered => [Ident("ORDERED")]
      case Lit(n) => [Ident("REPLICATE"), Punct('='), Literal(Decimal(n))]
      case Var(x) => [Ident("REPLICATE"), Punct('='), Ident(x)]
      case SeqUnordered => []
  }

  /** `a` is well formed and its keyword is not yet set in state `s`. */
  predicate CanRead(s: SparAttrs, a: AttrItem)
  {
    match a
    case InputItem(ds) => s.input == [] && ds != [] && AllWellFormed(ds)
    case OutputItem(ds) => s.output == [] && ds != [] && AllWellFormed(ds)
    case RepItem(r) => s.replicate == SeqUnordered && r != SeqUnordered
  }

  /** The state after reading `a` in state `s`. */
  function Read(s: SparAttrs, a: AttrItem): SparAttrs
  {
    match a
    case InputItem(ds) => s.(input := DeclaredVars(ds))
    case OutputItem(ds) => s.(output := DeclaredVars(ds))
    case RepItem(r) => s.(replicate := r)
  }

  /** Reading one attribute sets its keyword, and the attribute must be
      followed by ','. */
  lemma AttrItemsStep(s: SparAttrs, a: AttrItem, u: seq<Token>)
    requires CanRead(s, a)
    ensures u != [] && u[0] == Punct(',') ==> AttrsFrom(AttrWords(a) + u, s) == AttrsFrom(u[1..], Read(s, a))
    ensures (u == [] || u[0] != Punct(',')) ==> AttrsFrom(AttrWords(a) + u, s) == Err(ExpectedPunct(','))
  {
    match a
    case InputItem(ds) => InputStep(s, ds, u);
    case OutputItem(ds) => OutputStep(s, ds, u);
    case RepItem(r) => RepStep(s, r, u);
  }

  lemma InputStep(s: SparAttrs, ds: seq<VarDecl>, u: seq<Token>)
    requires CanRead(s, InputItem(ds))
    ensures AttrsFrom(AttrWords(InputItem(ds)) + u, s) ==
            if u != [] && u[0] == Punct(',') then AttrsFrom(u[1..], s.(input := DeclaredVars(ds))) else Err(ExpectedPunct(','))
  {
    var c := AttrWords(InputItem(ds)) + u;
    VarListOf(ds, u);
    assert c[0] == Ident("INPUT") && c[1..] == [Group(Parenthesis, PrintVars(ds, false))] + u;
    assert AttrsFrom(c, s) == Keyword("INPUT", c[1..], s.input, s.output, s.replicate);
  }

  lemma OutputStep(s: SparAttrs, ds: seq<VarDecl>, u: seq<Token>)
    requires CanRead(s, OutputItem(ds))
    ensures AttrsFrom(AttrWords(OutputItem(ds)) + u, s) ==
            if u != [] && u[0] == Punct(',') then AttrsFrom(u[1..], s.(output := DeclaredVars(ds))) else Err(ExpectedPunct(','))
  {
    var c := AttrWords(OutputItem(ds)) + u;
    VarListOf(ds, u);
    assert c[0] == Ident("OUTPUT") && c[1..] == [Group(Parenthesis, PrintVars(ds, false))] + u;
    assert AttrsFrom(c, s) == Keyword("OUTPUT", c[1..], s.input, s.output, s.replicate);
  }

  lemma RepStep(s: SparAttrs, r: Replicate, u: seq<Token>)
    requires CanRead(s, RepItem(r))
    ensures AttrsFrom(AttrWords(RepItem(r)) + u, s) ==
            if u != [] && u[0] == Punct(',') then AttrsFrom(u[1..], s.(replicate := r)) else Err(ExpectedPunct(','))
  {
    var c := AttrWords(RepItem(r)) + u;
    match r
    case SeqOrdered =>
      assert c[0] == Ident("ORDERED") && c[1..] == u;
      assert AttrsFrom(c, s) == Keyword("ORDERED", u, s.input, s.output, s.replicate);
    case Lit(n) =>
      DecimalRoundTrip(n);
      assert c[0] == Ident("REPLICATE") && c[1..] == [Punct('='), Literal(Decimal(n))] + u;
      assert c[1..][2..] == u;
      assert ParseReplicate(c[1..]) == Ok((Lit(n), u));
      assert AttrsFrom(c, s) == Keyword("REPLICATE", c[1..], s.input, s.output, s.replicate);
    case Var(x) =>
      assert c[0] == Ident("REPLICATE") && c[1..] == [Punct('='), Ident(x)] + u;
      assert c[1..][2..] == u;
      assert ParseReplicate(c[1..]) == Ok((Var(x), u));
      assert AttrsFrom(c, s) == Keyword("REPLICATE", c[1..], s.input, s.output, s.replicate);
  }

  /** The attributes, each followed by ','. */
  function PrintAttrs(items: seq<AttrItem>): seq<Token>
  {
    if items == [] then [] else AttrWords(items[0]) + [Punct(',')] + PrintAttrs(items[1..])
  }

  /** Each attribute can be read in the state the ones before it leave. */
  predicate Readable(s: SparAttrs, items: seq<AttrItem>)
    decreases |items|
  {
    items == [] || (CanRead(s, items[0]) && Readable(Read(s, items[0]), items[1..]))
  }

  function ReadAll(s: SparAttrs, items: seq<AttrItem>): SparAttrs
    decreases |items|
  {
    if items == [] then s else ReadAll(Read(s, items[0]), items[1..])
  }

  /** A header's attribute list is well formed when it can be read from the
      start: no keyword twice, no empty list, no REPLICATE with ORDERED. */
  predicate AttrWellFormed(items: seq<AttrItem>)
  {
    Readable(NoAttrs, items)
  }

  function DeclaredAttrs(items: seq<AttrItem>): SparAttrs
  {
    ReadAll(NoAttrs, items)
  }

  /** Reading printed attributes, in whatever order, leaves the state they
      declare. */
  lemma {:induction false} AttrItemsPrefix(s: SparAttrs, items: seq<AttrItem>, u: seq<Token>)
    requires Readable(s, items)
    ensures AttrsFrom(PrintAttrs(items) + u, s) == AttrsFrom(u, ReadAll(s, items))
    decreases |items|
  {
    if items == [] {
      assert PrintAttrs(items) + u == u;
    } else {
      var a := items[0];
      var v := PrintAttrs(items[1..]) + u;
      assert PrintAttrs(items) + u == AttrWords(a) + ([Punct(',')] + v);
      AttrItemsStep(s, a, [Punct(',')] + v);
      assert ([Punct(',')] + v)[1..] == v;
      AttrItemsPrefix(Read(s, a), items[1..], u);
    }
  }

  /** The declared attributes do not depend on the order: each keyword
      occurs at most once, and the state holds what its occurrence declares,
      or what it held before when the keyword does not occur. */
  lemma {:induction false} ReadAllInput(s: SparAttrs, items: seq<AttrItem>)
    requires Readable(s, items)
    ensures s.input != [] ==> forall i :: 0 <= i < |items| ==> !items[i].InputItem?
    ensures forall i :: 0 <= i < |items| && items[i].InputItem? ==>
              ReadAll(s, items).input == DeclaredVars(items[i].decls) != []
    ensures (forall i :: 0 <= i < |items| ==> !items[i].InputItem?) ==> ReadAll(s, items).input == s.input
    decreases |items|
  {
    if items != [] {
      var a, tail := items[0], items[1..];
      ReadAllInput(Read(s, a), tail);
      assert forall i :: 1 <= i < |items| ==> items[i] == tail[i - 1];
      if a.InputItem? {
        assert |DeclaredVars(a.decls)| == |a.decls|;
      }
    }
  }

  lemma {:induction false} ReadAllOutput(s: SparAttrs, items: seq<AttrItem>)
    requires Readable(s, items)
    ensures s.output != [] ==> forall i :: 0 <= i < |items| ==> !items[i].OutputItem?
    ensures forall i :: 0 <= i < |items| && items[i].OutputItem? ==>
              ReadAll(s, items).output == DeclaredVars(items[i].decls) != []
    ensures (forall i :: 0 <= i < |items| ==> !items[i].OutputItem?) ==> ReadAll(s, items).output == s.output
    decreases |items|
  {
    if items != [] {
      var a, tail := items[0], items[1..];
      ReadAllOutput(Read(s, a), tail);
      assert forall i :: 1 <= i < |items| ==> items[i] == tail[i - 1];
      if a.OutputItem? {
        assert |DeclaredVars(a.decls)| == |a.decls|;
      }
    }
  }

  lemma {:induction false} ReadAllReplicate(s: SparAttrs, items: seq<AttrItem>)
    requires Readable(s, items)
    ensures s.replicate != SeqUnordered ==> forall i :: 0 <= i < |items| ==> !items[i].RepItem?
    ensures forall i :: 0 <= i < |items| && items[i].RepItem? ==>
              ReadAll(s, items).replicate == items[i].rep != SeqUnordered
    ensures (forall i :: 0 <= i < |items| ==> !items[i].RepItem?) ==> ReadAll(s, items).replicate == s.replicate
    decreases |items|
  {
    if items != [] {
      var a, tail := items[0], items[1..];
      ReadAllReplicate(Read(s, a), tail);
      assert forall i :: 1 <= i < |items| ==> items[i] == tail[i - 1];
    }
  }

  function WithAfter(q: Result<(SparAttrs, seq<Token>), ParseError>, after: seq<Token>)
    : Result<(SparAttrs, seq<Token>, seq<Token>), ParseError>
  {
    match q
    case Ok(v) => Ok((v.0, after, v.1))
    case Err(e) => Err(e)
  }

  /** The header as the macro receives it: the attribute list and the body,
      in parentheses, followed by `after`. */
  function Header(ts: seq<Token>, after: seq<Token>): seq<Token>
  {
    [Group(Parenthesis, ts)] + after
  }

  /** After well-formed attributes in any order, the header is read as the
      rest of the list in the state they declare. */
  lemma HeaderAfterPrefix(items: seq<AttrItem>, u: seq<Token>, after: seq<Token>)
    requires AttrWellFormed(items)
    ensures SparArgs(Header(PrintAttrs(items) + u, after)) == WithAfter(AttrsFrom(u, DeclaredAttrs(items)), after)
  {
    AttrItemsPrefix(NoAttrs, items, u);
  }

  /** Well-formed attributes in any order, then a body followed by nothing or
      by ',' and anything, are read back as the declared attributes and that
      body. */
  lemma SparArgsAccepts(items: seq<AttrItem>, body: seq<Token>, t: seq<Token>, after: seq<Token>)
    requires AttrWellFormed(items)
    requires t == [] || t[0] == Punct(',')
    ensures SparArgs(Header(PrintAttrs(items) + [Group(Brace, body)] + t, after)) == Ok((DeclaredAttrs(items), after, body))
  {
    var u := [Group(Brace, body)] + t;
    assert PrintAttrs(items) + [Group(Brace, body)] + t == PrintAttrs(items) + u;
    HeaderAfterPrefix(items, u, after);
    AttrItemsBody(DeclaredAttrs(items), body, Punct(','), if t == [] then [] else t[1..]);
    assert t != [] ==> t == [Punct(',')] + t[1..];
  }

  /** After attributes in any order: a header without a body, or with a token
      other than ',' after it. */
  lemma SparArgsBodyErrors(items: seq<AttrItem>, body: seq<Token>, x: Token, t: seq<Token>, after: seq<Token>)
    requires AttrWellFormed(items)
    ensures SparArgs(Header(PrintAttrs(items), after)) == Err(MissingBody)
    ensures x != Punct(',') ==>
      SparArgs(Header(PrintAttrs(items) + [Group(Brace, body), x] + t, after)) == Err(TokenAfterBody)
  {
    HeaderAfterPrefix(items, [], after);
    assert PrintAttrs(items) + [] == PrintAttrs(items);
    var u := [Group(Brace, body), x] + t;
    HeaderAfterPrefix(items, u, after);
    assert PrintAttrs(items) + [Group(Brace, body), x] + t == PrintAttrs(items) + u;
    AttrItemsBody(DeclaredAttrs(items), body, x, t);
  }

  /** After attributes in any order: a keyword that occurred already, or
      ORDERED after a REPLICATE or an ORDERED. */
  lemma SparArgsDuplicates(items: seq<AttrItem>, name: string, t: seq<Token>, after: seq<Token>)
    requires AttrWellFormed(items)
    ensures name == "INPUT" && (exists i :: 0 <= i < |items| && items[i].InputItem?) ==>
      SparArgs(Header(PrintAttrs(items) + [Ident(name)] + t, after)) == Err(DuplicateInput)
    ensures name == "OUTPUT" && (exists i :: 0 <= i < |items| && items[i].OutputItem?) ==>
      SparArgs(Header(PrintAttrs(items) + [Ident(name)] + t, after)) == Err(DuplicateOutput)
    ensures name == "REPLICATE" && (exists i :: 0 <= i < |items| && items[i].RepItem?) ==>
      SparArgs(Header(PrintAttrs(items) + [Ident(name)] + t, after)) == Err(DuplicateReplicate)
    ensures name == "ORDERED" && (exists i :: 0 <= i < |items| && items[i].RepItem?) ==>
      SparArgs(Header(PrintAttrs(items) + [Ident(name)] + t, after)) == Err(ReplicateAndOrdered)
  {
    var u := [Ident(name)] + t;
    HeaderAfterPrefix(items, u, after);
    assert PrintAttrs(items) + [Ident(name)] + t == PrintAttrs(items) + u;
    ReadAllInput(NoAttrs, items);
    ReadAllOutput(NoAttrs, items);
    ReadAllReplicate(NoAttrs, items);
    AttrItemsDuplicates(DeclaredAttrs(items), name, t);
  }

  /** After attributes in any order: a first INPUT or OUTPUT with an empty
      list. */
  lemma SparArgsEmptyList(items: seq<AttrItem>, name: string, t: seq<Token>, after: seq<Token>)
    requires AttrWellFormed(items)
    ensures name == "INPUT" && (forall i :: 0 <= i < |items| ==> !items[i].InputItem?) ==>
      SparArgs(Header(PrintAttrs(items) + [Ident(name), Group(Parenthesis, [])] + t, after)) == Err(EmptyInput)
    ensures name == "OUTPUT" && (forall i :: 0 <= i < |items| ==> !items[i].OutputItem?) ==>
      SparArgs(Header(PrintAttrs(items) + [Ident(name), Group(Parenthesis, [])] + t, after)) == Err(EmptyOutput)
  {
    var u := [Ident(name), Group(Parenthesis, [])] + t;
    HeaderAfterPrefix(items, u, after);
    assert PrintAttrs(items) + [Ident(name), Group(Parenthesis, [])] + t == PrintAttrs(items) + u;
    ReadAllInput(NoAttrs, items);
    ReadAllOutput(NoAttrs, items);
    AttrItemsEmptyList(DeclaredAttrs(items), name, t);
  }

  /** After attributes in any order: anything that is neither a keyword nor a
      brace-delimited body. */
  lemma SparArgsUnknown(items: seq<AttrItem>, x: Token, t: seq<Token>, after: seq<Token>)
    requires AttrWellFormed(items)
    requires x.Literal? || x.Punct? || (x.Group? && x.delim != Brace) ||
             (x.Ident? && x.name != "INPUT" && x.name != "OUTPUT" && x.name != "REPLICATE" && x.name != "ORDERED")
    ensures SparArgs(Header(PrintAttrs(items) + [x] + t, after)) == Err(UnknownAttribute)
  {
    var u := [x] + t;
    HeaderAfterPrefix(items, u, after);
    assert PrintAttrs(items) + [x] + t == PrintAttrs(items) + u;
    AttrItemsUnknown(DeclaredAttrs(items), x, t);
  }

  /** After attributes in any order: one more attribute that reads correctly
      but is not followed by ','. */
  lemma SparArgsMissingComma(items: seq<AttrItem>, a: AttrItem, u: seq<Token>, after: seq<Token>)
    requires AttrWellFormed(items) && CanRead(DeclaredAttrs(items), a)
    requires u == [] || u[0] != Punct(',')
    ensures SparArgs(Header(PrintAttrs(items) + AttrWords(a) + u, after)) == Err(ExpectedPunct(','))
  {
    HeaderAfterPrefix(items, AttrWords(a) + u, after);
    assert PrintAttrs(items) + AttrWords(a) + u == PrintAttrs(items) + (AttrWords(a) + u);
    AttrItemsStep(DeclaredAttrs(items), a, u);
  }
}
