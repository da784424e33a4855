/** The code generator behind `to_stream!`: from a resolved stream it builds
    the dispatcher (the driver code with the marker replaced by the call that
    posts into the pipeline), one worker struct per remaining stage, and the
    list of pipeline nodes. The output is described abstractly: which items
    are generated, in which order, with which shape and replica count, not
    their Rust text. */
module SparCodegen {
  import opened Results
  import opened SparTokens
  import opened SparModel
  import opened SparResolve

  // ---------------------------------------------------------------------
  // Dispatcher::copy_code

  /** The marker occurs in `ts`, inside groups of any kind and depth. */
  predicate HasMarker(ts: seq<Token>)
  {
    ts != [] && (TreeHasMarker(ts[0]) || HasMarker(ts[1..]))
  }

  predicate TreeHasMarker(t: Token)
  {
    match t
    case Ident(n) => n == MARKER
    case Group(_, inner) => HasMarker(inner)
    case _ => false
  }

  lemma {:induction false} HasMarkerAppend(a: seq<Token>, b: seq<Token>)
    ensures HasMarker(a + b) <==> HasMarker(a) || HasMarker(b)
  {
    if a != [] {
      assert (a + b)[0] == a[0] && (a + b)[1..] == a[1..] + b;
      HasMarkerAppend(a[1..], b);
    } else {
      assert a + b == b;
    }
  }

  /** copy_code on one tree: a marker becomes the replacement, a group is
      rebuilt with the same delimiter around its copied contents, anything
      else is kept. The flag says whether a marker was replaced. */
  function CopyTree(t: Token, repl: seq<Token>): (seq<Token>, bool)
  {
    match t
    case Group(d, inner) =>
      var c := CopyAll(inner, repl);
      ([Group(d, c.0)], c.1)
    case Ident(n) => if n == MARKER then (repl, true) else ([t], false)
    case _ => ([t], false)
  }

  /** copy_code over a stream, one tree after the other, sharing one flag. */
  function CopyAll(ts: seq<Token>, repl: seq<Token>): (seq<Token>, bool)
  {
    if ts == [] then ([], false)
    else
      var a := CopyTree(ts[0], repl);
      var b := CopyAll(ts[1..], repl);
      (a.0 + b.0, a.1 || b.1)
  }

  /** The flag is set exactly when the stream holds a marker. */
  lemma {:induction false} CopyFound(ts: seq<Token>, repl: seq<Token>)
    ensures CopyAll(ts, repl).1 <==> HasMarker(ts)
  {
    if ts != [] {
      CopyFound(ts[1..], repl);
      if ts[0].Group? {
        CopyFound(ts[0].inner, repl);
      }
    }
  }

  /** A stream without a marker is copied unchanged. */
  lemma {:induction false} CopyUnchanged(ts: seq<Token>, repl: seq<Token>)
    requires !HasMarker(ts)
    ensures CopyAll(ts, repl).0 == ts
  {
    if ts != [] {
      CopyUnchanged(ts[1..], repl);
      if ts[0].Group? {
        CopyUnchanged(ts[0].inner, repl);
      }
      assert ts == [ts[0]] + ts[1..];
    }
  }

  /** Replacing the marker by itself changes nothing: every other tree and
      every delimiter is kept as it was. */
  lemma {:induction false} CopyIdentity(ts: seq<Token>)
    ensures CopyAll(ts, [Ident(MARKER)]).0 == ts
  {
    if ts != [] {
      CopyIdentity(ts[1..]);
      if ts[0].Group? {
        CopyIdentity(ts[0].inner);
      }
      assert ts == [ts[0]] + ts[1..];
    }
  }

  /** With a replacement free of markers, no marker is left anywhere. */
  lemma {:induction false} CopyMarkerFree(ts: seq<Token>, repl: seq<Token>)
    requires !HasMarker(repl)
    ensures !HasMarker(CopyAll(ts, repl).0)
  {
    if ts != [] {
      var a, b := CopyTree(ts[0], repl), CopyAll(ts[1..], repl);
      CopyMarkerFree(ts[1..], repl);
      HasMarkerAppend(a.0, b.0);
      if ts[0].Group? {
        CopyMarkerFree(ts[0].inner, repl);
        assert !TreeHasMarker(a.0[0]);
        assert a.0[1..] == [];
      } else if !(ts[0].Ident? && ts[0].name == MARKER) {
        assert a.0[1..] == [];
      }
    }
  }

  // ---------------------------------------------------------------------
  // The call that posts into the pipeline.

  /** The elements of `xs` with `sep` between each two, as `#(...),*`
      writes them. */
  function Join<T>(xs: seq<T>, sep: T): (r: seq<T>)
  {
    if |xs| <= 1 then xs else [xs[0], sep] + Join(xs[1..], sep)
  }

  lemma {:induction false} JoinLength<T>(xs: seq<T>, sep: T)
    ensures |Join(xs, sep)| == if xs == [] then 0 else 2 * |xs| - 1
  {
    if |xs| > 1 {
      JoinLength(xs[1..], sep);
    }
  }

  lemma {:induction false} JoinEven<T>(xs: seq<T>, sep: T, i: nat)
    requires i < |xs|
    ensures 2 * i < |Join(xs, sep)| && Join(xs, sep)[2 * i] == xs[i]
  {
    JoinLength(xs, sep);
    if i > 0 {
      JoinEven(xs[1..], sep, i - 1);
      var j := Join(xs[1..], sep);
      assert Join(xs, sep) == [xs[0], sep] + j;
      assert Join(xs, sep)[2 * i] == j[2 * (i - 1)];
    }
  }

  lemma {:induction false} JoinOdd<T>(xs: seq<T>, sep: T, i: nat)
    requires i + 1 < |xs|
    ensures 2 * i + 1 < |Join(xs, sep)| && Join(xs, sep)[2 * i + 1] == sep
  {
    JoinLength(xs, sep);
    if i > 0 {
      JoinOdd(xs[1..], sep, i - 1);
      var j := Join(xs[1..], sep);
      assert Join(xs, sep) == [xs[0], sep] + j;
      assert Join(xs, sep)[2 * i + 1] == j[2 * (i - 1) + 1];
    }
  }

  /** The joined sequence alternates: the elements at even positions, the
      separator at odd ones, nothing before, after or doubled. */
  lemma JoinShape<T>(xs: seq<T>, sep: T)
    ensures |Join(xs, sep)| == if xs == [] then 0 else 2 * |xs| - 1
    ensures forall i :: 0 <= i < |xs| ==> Join(xs, sep)[2 * i] == xs[i]
    ensures forall i :: 0 <= i < |xs| - 1 ==> Join(xs, sep)[2 * i + 1] == sep
  {
    JoinLength(xs, sep);
    forall i | 0 <= i < |xs|
      ensures Join(xs, sep)[2 * i] == xs[i]
    {
      JoinEven(xs, sep, i);
    }
    forall i | 0 <= i < |xs| - 1
      ensures Join(xs, sep)[2 * i + 1] == sep
    {
      JoinOdd(xs, sep, i);
    }
  }

  function IdentTokens(names: seq<string>): (r: seq<Token>)
    ensures |r| == |names| && forall i :: 0 <= i < |r| ==> r[i] == Ident(names[i])
  {
    if names == [] then [] else [Ident(names[0])] + IdentTokens(names[1..])
  }

  /** make_tuple: the names, comma-separated, in parentheses. */
  function MakeTuple(names: seq<string>): Token
  {
    Group(Parenthesis, Join(IdentTokens(names), Punct(',')))
  }

  /** `spar_pipeline.post(<tuple>).unwrap();` */
  function PostCall(names: seq<string>): seq<Token>
  {
    [Ident("spar_pipeline"), Punct('.'), Ident("post"), Group(Parenthesis, [MakeTuple(names)]),
     Punct('.'), Ident("unwrap"), Group(Parenthesis, []), Punct(';')]
  }

  /** The post call holds a marker only if a posted name is the marker. */
  lemma PostCallMarkerFree(names: seq<string>)
    requires MARKER !in names
    ensures !HasMarker(PostCall(names))
  {
    var ids := IdentTokens(names);
    var tuple := Join(ids, Punct(','));
    JoinShape(ids, Punct(','));
    assert !HasMarker(tuple) by {
      forall k | 0 <= k < |tuple|
        ensures !TreeHasMarker(tuple[k])
      {
        if k % 2 == 0 {
          assert tuple[2 * (k / 2)] == Ident(names[k / 2]);
        } else {
          assert tuple[2 * (k / 2) + 1] == Punct(',');
        }
      }
      NoTreeMarker(tuple);
    }
    var p := PostCall(names);
    assert !TreeHasMarker(p[3]) by {
      var m := MakeTuple(names);
      assert !TreeHasMarker(m) by {
        assert m.inner == tuple;
      }
      assert p[3] == Group(Parenthesis, [m]);
      assert !HasMarker([m]) by {
        assert [m][0] == m && [m][1..] == [];
      }
    }
    NoTreeMarker(p);
  }

  lemma {:induction false} NoTreeMarker(ts: seq<Token>)
    requires forall k :: 0 <= k < |ts| ==> !TreeHasMarker(ts[k])
    ensures !HasMarker(ts)
  {
    if ts != [] {
      NoTreeMarker(ts[1..]);
    }
  }

  // ---------------------------------------------------------------------
  // Dispatcher::new

  datatype Dispatcher = Dispatcher(code: seq<Token>)

  function Identifiers(vs: seq<SparVar>): (r: seq<string>)
    ensures |r| == |vs| && forall i :: 0 <= i < |r| ==> r[i] == vs[i].identifier
  {
    if vs == [] then [] else [vs[0].identifier] + Identifiers(vs[1..])
  }

  /** The names posted into the pipeline: the next stage's inputs when
      there is a next stage, otherwise the stage's own inputs. */
  function PostedNames(stage: SparStage, next: Option<SparStage>): seq<string>
  {
    match next
    case Some(n) => Identifiers(n.attrs.input)
    case None => Identifiers(stage.attrs.input)
  }

  /** The dispatcher of stage 0: its code with every marker replaced by the
      post call when it holds a marker, otherwise the post call alone; the
      flag says which. */
  function DispatcherOf(stage: SparStage, next: Option<SparStage>): (r: (Dispatcher, bool))
  {
    var post := PostCall(PostedNames(stage, next));
    var c := CopyAll(stage.code, post);
    if c.1 then (Dispatcher(c.0), true) else (Dispatcher(post), false)
  }

  /** The dispatcher is the substituted code exactly when the stage's code
      holds a marker; then no marker is left (unless a posted name is the
      marker itself). */
  lemma DispatcherFacts(stage: SparStage, next: Option<SparStage>)
    ensures var (d, found) := DispatcherOf(stage, next);
            var post := PostCall(PostedNames(stage, next));
            (found <==> HasMarker(stage.code)) &&
            (found ==> d.code == CopyAll(stage.code, post).0) &&
            (!found ==> d.code == post) &&
            (MARKER !in PostedNames(stage, next) ==> !HasMarker(d.code))
  {
    var post := PostCall(PostedNames(stage, next));
    CopyFound(stage.code, post);
    if MARKER !in PostedNames(stage, next) {
      PostCallMarkerFree(PostedNames(stage, next));
      CopyMarkerFree(stage.code, post);
    }
  }

  /** The first loop of Dispatcher::new: the identifiers, in order. */
  method CollectNames(vars: seq<SparVar>) returns (idents: seq<string>)
    ensures idents == Identifiers(vars)
  {
    idents := [];
    for i := 0 to |vars|
      invariant idents == Identifiers(vars[..i])
    {
      assert vars[..i + 1][..i] == vars[..i];
      IdentifiersSnoc(vars[..i + 1]);
      idents := idents + [vars[i].identifier];
    }
    assert vars[..|vars|] == vars;
  }

  /** The second loop of Dispatcher::new: copy_code on each tree of the
      stage's code, the outputs concatenated, one flag for all. */
  method CopyCode(code: seq<Token>, post: seq<Token>) returns (gen: seq<Token>, found: bool)
    ensures (gen, found) == CopyAll(code, post)
  {
    gen, found := [], false;
    for k := 0 to |code|
      invariant gen + CopyAll(code[k..], post).0 == CopyAll(code, post).0
      invariant (found || CopyAll(code[k..], post).1) == CopyAll(code, post).1
    {
      var c := CopyTree(code[k], post);
      assert code[k..][1..] == code[k + 1..];
      gen := gen + c.0;
      found := found || c.1;
    }
    assert gen + [] == gen;
  }

  /** Dispatcher::new. */
  method NewDispatcher(stage: SparStage, next: Option<SparStage>) returns (d: Dispatcher, found: bool)
    ensures (d, found) == DispatcherOf(stage, next)
  {
    var vars := if next.Some? then next.value.attrs.input else stage.attrs.input;
    var idents := CollectNames(vars);
    var post := PostCall(idents);
    var gen;
    gen, found := CopyCode(stage.code, post);
    if found {
      d := Dispatcher(gen);
    } else {
      d := Dispatcher(post);
    }
  }

  lemma IdentifiersSnoc(vs: seq<SparVar>)
    requires vs != []
    ensures Identifiers(vs) == Identifiers(vs[..|vs| - 1]) + [vs[|vs| - 1].identifier]
  {
    var a, b := Identifiers(vs), Identifiers(vs[..|vs| - 1]) + [vs[|vs| - 1].identifier];
    assert |a| == |b|;
    forall i | 0 <= i < |a|
      ensures a[i] == b[i]
    {
      if i < |vs| - 1 {
        assert b[i] == Identifiers(vs[..|vs| - 1])[i] == vs[..|vs| - 1][i].identifier;
      }
    }
  }

  // ---------------------------------------------------------------------
  // Worker structs.

  /** The impl a worker gets: one that passes values on (with the types of
      its outputs), or one that only consumes them. */
  datatype Shape = InOut(outTypes: seq<string>) | In

  datatype StageStruct = StageStruct(name: string, inIdents: seq<string>, inTypes: seq<string>,
                                     shape: Shape, code: seq<Token>)

  /** The generator's own failure: a stage must have some input. */
  datatype CodegenError = StageWithoutInput

  /** `SparStage{id}`. */
  function StructName(id: nat): string
  {
    "SparStage" + Decimal(id)
  }

  /** Different stage numbers give different struct names. */
  lemma StructNameInjective(a: nat, b: nat)
    requires StructName(a) == StructName(b)
    ensures a == b
  {
    assert Decimal(a) == StructName(a)[9..];
    assert Decimal(b) == StructName(b)[9..];
    DecimalDigits(a);
    DecimalDigits(b);
  }

  function Types(vs: seq<SparVar>): (r: seq<string>)
    ensures |r| == |vs| && forall i :: 0 <= i < |r| ==> r[i] == vs[i].varType
  {
    if vs == [] then [] else [vs[0].varType] + Types(vs[1..])
  }

  /** get_idents_and_types_from_spar_vars. */
  method IdentsAndTypes(vars: seq<SparVar>) returns (idents: seq<string>, types: seq<string>)
    ensures idents == Identifiers(vars) && types == Types(vars)
  {
    idents, types := [], [];
    for i := 0 to |vars|
      invariant |idents| == |types| == i
      invariant forall j :: 0 <= j < i ==> idents[j] == vars[j].identifier && types[j] == vars[j].varType
    {
      idents := idents + [vars[i].identifier];
      types := types + [vars[i].varType];
    }
  }

  /** rust_spp_stage_struct_gen: a stage with inputs and outputs passes
      values on, one with inputs only consumes them, one without inputs is
      rejected. */
  function StructOf(stage: SparStage): (r: Result<StageStruct, CodegenError>)
    ensures r.Err? <==> stage.attrs.input == []
    ensures r.Ok? ==>
              r.value.name == StructName(stage.id) && r.value.code == stage.code &&
              |r.value.inIdents| == |r.value.inTypes| == |stage.attrs.input| &&
              (forall i :: 0 <= i < |r.value.inIdents| ==>
                 SparVar(r.value.inIdents[i], r.value.inTypes[i]) == stage.attrs.input[i]) &&
              (r.value.shape.InOut? <==> stage.attrs.output != []) &&
              (r.value.shape.InOut? ==> r.value.shape.outTypes == Types(stage.attrs.output))
  {
    var input := stage.attrs.input;
    if input == [] then Err(StageWithoutInput)
    else
      var shape := if stage.attrs.output != [] then InOut(Types(stage.attrs.output)) else In;
      Ok(StageStruct(StructName(stage.id), Identifiers(input), Types(input), shape, stage.code))
  }

  /** The structs of all stages, in order; the first stage without input
      stops generation. */
  function StructsOf(stages: seq<SparStage>): (r: Result<seq<StageStruct>, CodegenError>)
  {
    if stages == [] then Ok([])
    else
      var s :- StructOf(stages[0]);
      var more :- StructsOf(stages[1..]);
      Ok([s] + more)
  }

  predicate NoInputAt(stages: seq<SparStage>)
  {
    exists i :: 0 <= i < |stages| && stages[i].attrs.input == []
  }

  /** Generation fails exactly when some stage has no input; otherwise
      there is one struct per stage, in stage order. */
  lemma {:induction false} StructsOfFacts(stages: seq<SparStage>)
    ensures StructsOf(stages).Err? <==> NoInputAt(stages)
    ensures StructsOf(stages).Ok? ==>
              |StructsOf(stages).value| == |stages| &&
              forall i :: 0 <= i < |stages| ==> Ok(StructsOf(stages).value[i]) == StructOf(stages[i])
  {
    if stages != [] {
      StructsOfFacts(stages[1..]);
      NoInputAtCons(stages);
      var r := StructsOf(stages);
      if r.Ok? {
        var more := StructsOf(stages[1..]).value;
        assert r.value == [StructOf(stages[0]).value] + more;
        forall i | 0 < i < |stages|
          ensures Ok(r.value[i]) == StructOf(stages[i])
        {
          assert r.value[i] == more[i - 1] && stages[1..][i - 1] == stages[i];
        }
      }
    }
  }

  lemma NoInputAtCons(stages: seq<SparStage>)
    requires stages != []
    ensures NoInputAt(stages) <==> stages[0].attrs.input == [] || NoInputAt(stages[1..])
  {
    if NoInputAt(stages[1..]) {
      var i :| 0 <= i < |stages[1..]| && stages[1..][i].attrs.input == [];
      assert stages[i + 1].attrs.input == [];
    }
    if NoInputAt(stages) && stages[0].attrs.input != [] {
      var i :| 0 <= i < |stages| && stages[i].attrs.input == [];
      assert i > 0 && stages[1..][i - 1].attrs.input == [];
    }
  }

  // ---------------------------------------------------------------------
  // rust_spp_gen_top_level_code

  function NextStage(stages: seq<SparStage>): Option<SparStage>
  {
    if |stages| > 1 then Some(stages[1]) else None
  }

  /** The stages left once the dispatcher is built: stage 0 goes when its
      marker was spliced into the dispatcher. */
  function Remaining(stages: seq<SparStage>): (rest: seq<SparStage>)
    requires stages != []
    ensures rest == if HasMarker(stages[0].code) then stages[1..] else stages
  {
    CopyFound(stages[0].code, PostCall(PostedNames(stages[0], NextStage(stages))));
    if DispatcherOf(stages[0], NextStage(stages)).1 then stages[1..] else stages
  }

  /** rust_spp_gen_top_level_code: the dispatcher, then stage 0 removed if
      it was spliced, then one struct per remaining stage. The stages are
      updated in place in the source; here the updated list is returned. */
  method TopLevel(stages: seq<SparStage>)
    returns (rest: seq<SparStage>, structs: Result<seq<StageStruct>, CodegenError>, d: Dispatcher)
    requires stages != []
    ensures rest == Remaining(stages)
    ensures structs == StructsOf(rest)
    ensures d == DispatcherOf(stages[0], NextStage(stages)).0
  {
    var found;
    d, found := NewDispatcher(stages[0], if |stages| > 1 then Some(stages[1]) else None);
    rest := stages;
    if found {
      rest := rest[1..];
    }
    var built: seq<StageStruct> := [];
    assert rest[0..] == rest;
    AfterNothing(StructsOf(rest));
    for i := 0 to |rest|
      invariant After(built, StructsOf(rest[i..])) == StructsOf(rest)
    {
      var s := StructOf(rest[i]);
      assert rest[i..][1..] == rest[i + 1..];
      if s.Err? {
        structs := Err(StageWithoutInput);
        return;
      }
      AfterStep(built, s.value, StructsOf(rest[i + 1..]));
      built := built + [s.value];
    }
    assert rest[|rest|..] == [] && built + [] == built;
    structs := Ok(built);
  }

  /** The structs already built, followed by those still to build. */
  function After(built: seq<StageStruct>, more: Result<seq<StageStruct>, CodegenError>): Result<seq<StageStruct>, CodegenError>
  {
    match more
    case Ok(m) => Ok(built + m)
    case Err(e) => Err(e)
  }

  lemma AfterNothing(more: Result<seq<StageStruct>, CodegenError>)
    ensures After([], more) == more
  {
    if more.Ok? {
      assert [] + more.value == more.value;
    }
  }

  lemma AfterStep(built: seq<StageStruct>, s: StageStruct, more: Result<seq<StageStruct>, CodegenError>)
    ensures After(built, match more case Ok(m) => Ok([s] + m) case Err(e) => Err(e)) == After(built + [s], more)
  {
    if more.Ok? {
      assert built + ([s] + more.value) == (built + [s]) + more.value;
    }
  }

  // ---------------------------------------------------------------------
  // Replica counts and SPAR_NUM_WORKERS.

  /** The replica count a parallel node is given: the value of a program
      variable, the literal count unless SPAR_NUM_WORKERS overrides it, or
      one. */
  datatype ReplicaExpr = FromVariable(ident: string) | LiteralOrOverride(count: NonZeroU32) | Single

  /** gen_replicate. */
  function GenReplicate(r: Replicate): ReplicaExpr
  {
    match r
    case Var(v) => FromVariable(v)
    case Lit(n) => LiteralOrOverride(n)
    case _ => Single
  }

  /** Rust's `as i32` on a `u32`: values from 2^31 up wrap to negatives. */
  function AsI32(n: nat): (r: int)
    requires n <= U32_MAX
    ensures -0x8000_0000 <= r < 0x8000_0000
    ensures r % 0x1_0000_0000 == n
    ensures r == n <==> n < 0x8000_0000
  {
    if n < 0x8000_0000 then n else n - 0x1_0000_0000
  }

  /** The value SPAR_NUM_WORKERS gives at run time, read from the
      environment value `env` (None when the variable is not set), and
      whether a warning is printed: a value that does not parse as `u32` is
      ignored with a warning, 0 becomes 1 with a warning. */
  function SparNumWorkers(env: Option<string>): (r: (Option<nat>, bool))
    ensures r.0.Some? ==> 1 <= r.0.value <= U32_MAX
    ensures r.0.None? <==> env.None? || ParseU32(env.value).None?
    ensures r.1 <==> env.Some? && ParseU32(env.value) in {None, Some(0)}
    ensures env.Some? && ParseU32(env.value).Some? && ParseU32(env.value).value >= 1 ==> r.0 == ParseU32(env.value)
  {
    match env
    case None => (None, false)
    case Some(s) =>
      match ParseU32(s)
      case None => (None, true)
      case Some(v) => if v < 1 then (Some(1), true) else (Some(v), false)
  }

  /** A positive count written in decimal is taken as it is. */
  lemma SparNumWorkersDecimal(n: nat)
    requires 1 <= n <= U32_MAX
    ensures SparNumWorkers(Some(Decimal(n))) == (Some(n), false)
  {
    DecimalRoundTrip(n);
  }

  /** What a replica expression evaluates to at run time. */
  datatype Count = VariableCount(ident: string) | Fixed(n: int)

  function Replicas(e: ReplicaExpr, workers: Option<nat>): Count
    requires workers.Some? ==> workers.value <= U32_MAX
  {
    match e
    case FromVariable(v) => VariableCount(v)
    case LiteralOrOverride(n) => Fixed(AsI32(if workers.Some? then workers.value else n))
    case Single => Fixed(1)
  }

  /** The override rule: a variable count is never overridden; a literal
      count is replaced by SPAR_NUM_WORKERS when that yields a value (then
      at least 1), and kept otherwise; a sequential stage runs once. */
  lemma OverrideRule(r: Replicate, env: Option<string>)
    ensures var w := SparNumWorkers(env).0;
            var c := Replicas(GenReplicate(r), w);
            (r.Var? ==> c == VariableCount(r.ident)) &&
            (r.Lit? && w.None? ==> c == Fixed(AsI32(r.count))) &&
            (r.Lit? && w.Some? ==> w.value >= 1 && c == Fixed(AsI32(w.value))) &&
            (IsSequential(r) ==> c == Fixed(1))
  {
  }

  // ---------------------------------------------------------------------
  // Pipeline nodes and the generated program.

  /** One argument of `pipeline![...]`. */
  datatype PipelineArg =
    | Sequential(name: string)
    | Parallel(name: string, replicas: ReplicaExpr)
    | CollectOrdered

  /** rust_spp_pipeline_arg. */
  function PipelineArgOf(stage: SparStage): PipelineArg
  {
    var name := StructName(stage.id);
    if IsSequential(stage.attrs.replicate) then Sequential(name)
    else Parallel(name, GenReplicate(stage.attrs.replicate))
  }

  function PipelineArgs(stages: seq<SparStage>): (r: seq<PipelineArg>)
    ensures |r| == |stages| && forall i :: 0 <= i < |r| ==> r[i] == PipelineArgOf(stages[i])
  {
    if stages == [] then [] else [PipelineArgOf(stages[0])] + PipelineArgs(stages[1..])
  }

  /** The generated block: it reads SPAR_NUM_WORKERS, declares the worker
      structs, builds the pipeline from its arguments, runs the dispatcher
      and then collects the pipeline. */
  datatype Program = Program(structs: seq<StageStruct>, pipeline: seq<PipelineArg>, dispatcher: Dispatcher)

  /** codegen, as a function of the stream's stages. */
  function CodegenOf(stages: seq<SparStage>): Result<Program, CodegenError>
    requires stages != []
  {
    var rest := Remaining(stages);
    var structs :- StructsOf(rest);
    Ok(Program(structs, PipelineArgs(rest) + [CollectOrdered], DispatcherOf(stages[0], NextStage(stages)).0))
  }

  /** The generated program: one struct and one node per remaining stage,
      in stage order and under the same name, those nodes first and
      `collect_ordered!()` last; the generator fails exactly when a
      remaining stage has no input. */
  lemma CodegenFacts(stages: seq<SparStage>)
    requires stages != []
    ensures var rest := Remaining(stages);
            (CodegenOf(stages).Err? <==> NoInputAt(rest)) &&
            (CodegenOf(stages).Ok? ==>
               var p := CodegenOf(stages).value;
               |p.structs| == |rest| && |p.pipeline| == |rest| + 1 &&
               p.pipeline[|rest|] == CollectOrdered &&
               p.dispatcher == DispatcherOf(stages[0], NextStage(stages)).0 &&
               forall i :: 0 <= i < |rest| ==>
                 p.structs[i].name == p.pipeline[i].name == StructName(rest[i].id) &&
                 (p.pipeline[i].Sequential? <==> IsSequential(rest[i].attrs.replicate)) &&
                 Ok(p.structs[i]) == StructOf(rest[i]))
  {
    var rest := Remaining(stages);
    StructsOfFacts(rest);
  }

  /** rust_spp_gen: the structs are emitted and the nodes joined in stage
      order, then `collect_ordered!()` closes the pipeline. */
  method RustSppGen(stages: seq<SparStage>) returns (r: Result<Program, CodegenError>)
    requires stages != []
    ensures r == CodegenOf(stages)
  {
    var rest, structs, d := TopLevel(stages);
    if structs.Err? {
      return Err(structs.error);
    }
    var all := structs.value;
    StructsOfFacts(rest);
    var code: seq<StageStruct> := [];
    var gen: seq<PipelineArg> := [];
    for i := 0 to |rest|
      invariant code == all[..i]
      invariant |gen| == i && forall j :: 0 <= j < i ==> gen[j] == PipelineArgOf(rest[j])
    {
      assert all[..i + 1] == all[..i] + [all[i]];
      code := code + [all[i]];
      gen := gen + [PipelineArgOf(rest[i])];
    }
    assert code == all;
    assert gen == PipelineArgs(rest);
    return Ok(Program(code, gen + [CollectOrdered], d));
  }

  // ---------------------------------------------------------------------
  // to_stream!

  datatype MacroError = CompileError(error: ParseError) | GeneratorPanic(panic: CodegenError)

  /** to_stream: the program generated for the parsed stream, a generator
      panic when the generator fails, or the parse error reported as a
      compile error. */
  function ToStreamOf(item: seq<Token>): (r: Result<Program, MacroError>)
    ensures r.Err? && r.error.CompileError? <==> StreamOf(item).Err?
    ensures StreamOf(item).Err? ==> r == Err(CompileError(StreamOf(item).error))
    ensures StreamOf(item).Ok? ==>
              var stages := StreamOf(item).value.stages;
              stages != [] &&
              (CodegenOf(stages).Ok? ==> r == Ok(CodegenOf(stages).value)) &&
              (CodegenOf(stages).Err? ==> r == Err(GeneratorPanic(CodegenOf(stages).error)))
  {
    match StreamOf(item)
    case Err(e) => Err(CompileError(e))
    case Ok(s) =>
      StreamOfNonEmpty(item);
      match CodegenOf(s.stages)
      case Err(c) => Err(GeneratorPanic(c))
      case Ok(p) => Ok(p)
  }

  method ToStream(item: seq<Token>) returns (r: Result<Program, MacroError>)
    ensures r == ToStreamOf(item)
  {
    var parsed := TryFrom(item);
    if parsed.Err? {
      return Err(CompileError(parsed.error));
    }
    StreamOfNonEmpty(item);
    var g := RustSppGen(parsed.value.stages);
    if g.Err? {
      return Err(GeneratorPanic(g.error));
    }
    return Ok(g.value);
  }
}
