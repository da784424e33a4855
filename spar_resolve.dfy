/** The dependency resolver (`SparStream::try_from`): the driver code before
    the first stage becomes stage 0, each stage's inputs are split into those
    the previous stage sends and per-worker state, state must come from the
    stream's inputs, and collection-typed state of the last stage is handed
    back as stream output. */
module SparResolve {
  import opened Results
  import opened SparTokens
  import opened SparModel
  import opened SparArgsParser
  import opened SparStages

  const LET_KW: Token := Ident("let")
  const MUT_KW: Token := Ident("mut")

  // ---------------------------------------------------------------------
  // find_variables_in_code

  /** The first variable to find with this identifier, as `iter().find` gives it. */
  function FirstNamed(toFind: seq<SparVar>, name: string): (r: Option<SparVar>)
    ensures r.Some? <==> exists i :: 0 <= i < |toFind| && toFind[i].identifier == name
    ensures r.Some? ==> r.value in toFind && r.value.identifier == name
  {
    if toFind == [] then None
    else if toFind[0].identifier == name then Some(toFind[0])
    else FirstNamed(toFind[1..], name)
  }

  /** Any number of `mut` after a `let`. */
  function SkipMut(ts: seq<Token>): (r: seq<Token>)
    ensures |r| <= |ts| && r == ts[|ts| - |r|..]
    ensures r == [] || r[0] != MUT_KW
  {
    if ts != [] && ts[0] == MUT_KW then SkipMut(ts[1..]) else ts
  }

  /** The variable a `let` binds: the first one named like the identifier
      after the `let` and its `mut`s. */
  function LetBinding(next: seq<Token>, toFind: seq<SparVar>): Option<SparVar>
  {
    var n := SkipMut(next);
    if n != [] && n[0].Ident? then FirstNamed(toFind, n[0].name) else None
  }

  /** The cursor after a `let`: past its `mut`s and the tree after them (a
      tuple pattern is skipped without looking inside). */
  function AfterLet(next: seq<Token>): (r: seq<Token>)
    ensures |r| <= |next|
  {
    var n := SkipMut(next);
    if n == [] then [] else n[1..]
  }

  function AddNew(vars: seq<SparVar>, v: SparVar): seq<SparVar>
  {
    if v in vars then vars else vars + [v]
  }

  /** `vars` extended by those of `more` it does not hold yet. */
  function AddAll(vars: seq<SparVar>, more: seq<SparVar>): (r: seq<SparVar>)
    ensures forall x :: x in r <==> x in vars || x in more
    ensures NoDup(vars) ==> NoDup(r)
    decreases |more|
  {
    if more == [] then vars else AddAll(AddNew(vars, more[0]), more[1..])
  }

  predicate NoDup(s: seq<SparVar>)
  {
    forall i, j :: 0 <= i < j < |s| ==> s[i] != s[j]
  }

  /** Every variable a `let` binds at any depth: the reference the scan is
      measured against. */
  function Bound(ts: seq<Token>, toFind: seq<SparVar>): set<SparVar>
  {
    if ts == [] then {}
    else if ts[0].Group? then BoundIn(ts[0], toFind) + Bound(ts[1..], toFind)
    else if ts[0] == LET_KW then
      (match LetBinding(ts[1..], toFind) case Some(v) => {v} case None => {}) + Bound(AfterLet(ts[1..]), toFind)
    else Bound(ts[1..], toFind)
  }

  function BoundIn(t: Token, toFind: seq<SparVar>): set<SparVar>
  {
    match t
    case Group(_, inner) => Bound(inner, toFind)
    case _ => {}
  }

  /** The scan, with the variables found so far in `acc`; each group's
      variables are merged without repeating one already found. */
  function Scan(ts: seq<Token>, toFind: seq<SparVar>, acc: seq<SparVar>): seq<SparVar>
  {
    if ts == [] then acc
    else if ts[0].Group? then Scan(ts[1..], toFind, AddAll(acc, ScanIn(ts[0], toFind)))
    else if ts[0] == LET_KW then
      var acc' := match LetBinding(ts[1..], toFind) case Some(v) => AddNew(acc, v) case None => acc;
      Scan(AfterLet(ts[1..]), toFind, acc')
    else Scan(ts[1..], toFind, acc)
  }

  function ScanIn(t: Token, toFind: seq<SparVar>): seq<SparVar>
  {
    match t
    case Group(_, inner) => Scan(inner, toFind, [])
    case _ => []
  }

  /** The variables of `toFind` that the code binds with `let`, in the order
      they are first bound. */
  function FindVars(ts: seq<Token>, toFind: seq<SparVar>): seq<SparVar>
  {
    Scan(ts, toFind, [])
  }

  /** The scan as the source writes it: a group's variables are appended
      whether or not they were found already. */
  function ScanAsWritten(ts: seq<Token>, toFind: seq<SparVar>, acc: seq<SparVar>): seq<SparVar>
  {
    if ts == [] then acc
    else if ts[0].Group? then ScanAsWritten(ts[1..], toFind, acc + ScanInAsWritten(ts[0], toFind))
    else if ts[0] == LET_KW then
      var acc' := match LetBinding(ts[1..], toFind) case Some(v) => AddNew(acc, v) case None => acc;
      ScanAsWritten(AfterLet(ts[1..]), toFind, acc')
    else ScanAsWritten(ts[1..], toFind, acc)
  }

  function ScanInAsWritten(t: Token, toFind: seq<SparVar>): seq<SparVar>
  {
    match t
    case Group(_, inner) => ScanAsWritten(inner, toFind, [])
    case _ => []
  }

  lemma AddNewFacts(vars: seq<SparVar>, v: SparVar)
    ensures forall x :: x in AddNew(vars, v) <==> x in vars || x == v
    ensures NoDup(vars) ==> NoDup(AddNew(vars, v))
  {
  }

  /** The scan finds exactly the bound variables, each once. */
  lemma {:induction false} ScanFacts(ts: seq<Token>, toFind: seq<SparVar>, acc: seq<SparVar>)
    ensures forall x :: x in Scan(ts, toFind, acc) <==> x in acc || x in Bound(ts, toFind)
    ensures NoDup(acc) ==> NoDup(Scan(ts, toFind, acc))
  {
    if ts == [] {
    } else if ts[0].Group? {
      ScanFacts(ts[0].inner, toFind, []);
      assert NoDup([]);
      ScanFacts(ts[1..], toFind, AddAll(acc, ScanIn(ts[0], toFind)));
    } else if ts[0] == LET_KW {
      var acc' := match LetBinding(ts[1..], toFind) case Some(v) => AddNew(acc, v) case None => acc;
      if LetBinding(ts[1..], toFind).Some? {
        AddNewFacts(acc, LetBinding(ts[1..], toFind).value);
      }
      ScanFacts(AfterLet(ts[1..]), toFind, acc');
    } else {
      ScanFacts(ts[1..], toFind, acc);
    }
  }

  /** Every bound variable is one to find. */
  lemma {:induction false} BoundInToFind(ts: seq<Token>, toFind: seq<SparVar>)
    ensures forall x :: x in Bound(ts, toFind) ==> x in toFind
  {
    if ts == [] {
    } else if ts[0].Group? {
      BoundInToFind(ts[0].inner, toFind);
      BoundInToFind(ts[1..], toFind);
    } else if ts[0] == LET_KW {
      BoundInToFind(AfterLet(ts[1..]), toFind);
    } else {
      BoundInToFind(ts[1..], toFind);
    }
  }

  /** The variables found are the bound ones, none twice, all from `toFind`. */
  lemma FindVarsFacts(ts: seq<Token>, toFind: seq<SparVar>)
    ensures forall x :: x in FindVars(ts, toFind) <==> x in Bound(ts, toFind)
    ensures NoDup(FindVars(ts, toFind))
    ensures forall x :: x in FindVars(ts, toFind) ==> x in toFind
  {
    assert NoDup([]);
    ScanFacts(ts, toFind, []);
    BoundInToFind(ts, toFind);
  }

  /** The source's scan finds the same variables... */
  lemma {:induction false} ScanAsWrittenMembers(ts: seq<Token>, toFind: seq<SparVar>, acc: seq<SparVar>)
    ensures forall x :: x in ScanAsWritten(ts, toFind, acc) <==> x in acc || x in Bound(ts, toFind)
  {
    if ts == [] {
    } else if ts[0].Group? {
      ScanAsWrittenMembers(ts[0].inner, toFind, []);
      assert ScanInAsWritten(ts[0], toFind) == ScanAsWritten(ts[0].inner, toFind, []);
      assert BoundIn(ts[0], toFind) == Bound(ts[0].inner, toFind);
      ScanAsWrittenMembers(ts[1..], toFind, acc + ScanInAsWritten(ts[0], toFind));
    } else if ts[0] == LET_KW {
      var acc' := match LetBinding(ts[1..], toFind) case Some(v) => AddNew(acc, v) case None => acc;
      if LetBinding(ts[1..], toFind).Some? {
        AddNewFacts(acc, LetBinding(ts[1..], toFind).value);
      }
      ScanAsWrittenMembers(AfterLet(ts[1..]), toFind, acc');
    } else {
      ScanAsWrittenMembers(ts[1..], toFind, acc);
    }
  }

  /** ...but may find one twice: `let a = ..; { let a = ..; }` reports `a`
      twice as an output of the driver stage. */
  lemma ScanAsWrittenRepeats()
    ensures var a := SparVar("a", "u32");
            var code := [LET_KW, Ident("a"), Group(Brace, [LET_KW, Ident("a")])];
            ScanAsWritten(code, [a], []) == [a, a] && FindVars(code, [a]) == [a]
  {
    var a := SparVar("a", "u32");
    var inner := [LET_KW, Ident("a")];
    var g := Group(Brace, inner);
    var ts := [LET_KW, Ident("a"), g];
    assert inner[1..] == [Ident("a")];
    assert SkipMut(inner[1..]) == inner[1..];
    assert AfterLet(inner[1..]) == [];
    assert LetBinding(inner[1..], [a]) == Some(a);
    assert ScanAsWritten(inner, [a], []) == [a];
    assert Scan(inner, [a], []) == [a];
    assert ts[1..] == [Ident("a"), g];
    assert SkipMut(ts[1..]) == ts[1..];
    assert AfterLet(ts[1..]) == [g];
    assert LetBinding(ts[1..], [a]) == Some(a);
    assert [g][1..] == [];
    assert ScanAsWritten([g], [a], [a]) == [a] + [a];
    assert Scan([g], [a], [a]) == AddAll([a], [a]);
  }

  lemma SizeAfterLet(ts: seq<Token>)
    requires ts != []
    ensures Size(AfterLet(ts[1..])) < Size(ts)
  {
    SizeSplit(ts);
    var n := SkipMut(ts[1..]);
    SizeSuffix(ts[1..], |ts[1..]| - |n|);
    if n != [] {
      SizeSplit(n);
    }
  }

  lemma {:induction false} SizeSuffix(ts: seq<Token>, k: nat)
    requires k <= |ts|
    ensures Size(ts[k..]) <= Size(ts)
  {
    if k > 0 {
      SizeSplit(ts);
      SizeSuffix(ts[1..], k - 1);
      assert ts[1..][k - 1..] == ts[k..];
    }
  }

  /** find_variables_in_code, with each group's variables merged without
      repeats. */
  method FindVariablesInCode(tokens: seq<Token>, toFind: seq<SparVar>) returns (vars: seq<SparVar>)
    ensures vars == FindVars(tokens, toFind)
    decreases Size(tokens)
  {
    vars := [];
    var cursor := tokens;
    while cursor != []
      invariant Size(cursor) <= Size(tokens)
      invariant Scan(cursor, toFind, vars) == FindVars(tokens, toFind)
      decreases Size(cursor)
    {
      var t := cursor[0];
      var next := cursor[1..];
      SizeSplit(cursor);
      if t.Group? {
        var inner := FindVariablesInCode(t.inner, toFind);
        vars := AddAll(vars, inner);
      } else if t == LET_KW {
        SizeAfterLet(cursor);
        while next != [] && next[0] == MUT_KW
          invariant SkipMut(next) == SkipMut(cursor[1..])
          decreases |next|
        {
          next := next[1..];
        }
        if next != [] {
          if next[0].Ident? {
            var found := FirstNamed(toFind, next[0].name);
            if found.Some? && found.value !in vars {
              vars := vars + [found.value];
            }
          }
          next := next[1..];
        }
      }
      cursor := next;
    }
  }

  // ---------------------------------------------------------------------
  // Stage 0: the driver code before the first stage.

  /** The stages with the driver code, if any, in front as stage 0: it has
      the stream's attributes, and outputs the first stage's inputs that the
      driver binds. */
  function WithDriver(attrs: SparAttrs, stages: seq<SparStage>, code: seq<Token>): (all: seq<SparStage>)
    ensures code == [] ==> all == stages
    ensures code != [] ==> |all| == |stages| + 1 && all[1..] == stages && all[0].code == code
    ensures code != [] ==> all[0].id == 0 && all[0].state == [] && all[0].attrs.input == attrs.input
    ensures code != [] ==> all[0].attrs.replicate == attrs.replicate
    ensures code != [] ==>
              all[0].attrs.output == if stages == [] then attrs.output else FindVars(code, stages[0].attrs.input)
  {
    if code == [] then stages
    else
      var stage := NewStage(attrs, code, 0);
      var stage' := if stages == [] then stage
                    else stage.(attrs := stage.attrs.(output := FindVars(code, stages[0].attrs.input)));
      [stage'] + stages
  }

  // ---------------------------------------------------------------------
  // State: the inputs a stage is not sent by the stage before it.

  /** The elements of `s` that are in `o`, in order. */
  function Keep(s: seq<SparVar>, o: seq<SparVar>): (r: seq<SparVar>)
    ensures |r| <= |s|
  {
    if s == [] then [] else (if s[0] in o then [s[0]] else []) + Keep(s[1..], o)
  }

  /** The elements of `s` that are not in `o`, in order. */
  function Drop(s: seq<SparVar>, o: seq<SparVar>): (r: seq<SparVar>)
    ensures |r| <= |s|
  {
    if s == [] then [] else (if s[0] in o then [] else [s[0]]) + Drop(s[1..], o)
  }

  /** `Keep` holds exactly the elements of `s` that are in `o`. */
  lemma {:induction false} KeepMembers(s: seq<SparVar>, o: seq<SparVar>)
    ensures forall x :: x in Keep(s, o) <==> x in s && x in o
  {
    if s != [] {
      KeepMembers(s[1..], o);
      assert s == [s[0]] + s[1..];
    }
  }

  /** `Drop` holds exactly the elements of `s` that are not in `o`. */
  lemma {:induction false} DropMembers(s: seq<SparVar>, o: seq<SparVar>)
    ensures forall x :: x in Drop(s, o) <==> x in s && x !in o
  {
    if s != [] {
      DropMembers(s[1..], o);
      assert s == [s[0]] + s[1..];
    }
  }

  /** Kept and dropped elements together are the original ones. */
  lemma {:induction false} KeepDropPartition(s: seq<SparVar>, o: seq<SparVar>)
    ensures multiset(Drop(s, o)) + multiset(Keep(s, o)) == multiset(s)
  {
    if s != [] {
      KeepDropPartition(s[1..], o);
      MultisetCons(s[0], s[1..]);
      assert s == [s[0]] + s[1..];
      if s[0] in o {
        assert Keep(s, o) == [s[0]] + Keep(s[1..], o);
        MultisetCons(s[0], Keep(s[1..], o));
      } else {
        assert Drop(s, o) == [s[0]] + Drop(s[1..], o);
        MultisetCons(s[0], Drop(s[1..], o));
      }
    }
  }

  lemma MultisetCons(x: SparVar, a: seq<SparVar>)
    ensures multiset([x] + a) == multiset{x} + multiset(a)
  {
  }

  /** Dropping from `s` what `a` and `b` hold alike gives the same result. */
  lemma {:induction false} DropSameMembers(s: seq<SparVar>, a: seq<SparVar>, b: seq<SparVar>)
    requires forall x :: x in s ==> (x in a <==> x in b)
    ensures Drop(s, a) == Drop(s, b)
  {
    if s != [] {
      assert s[0] in s;
      DropSameMembers(s[1..], a, b);
    }
  }

  /** `retain(|v| !state.contains(v))` keeps exactly the inputs sent by the
      stage before. */
  lemma DropDrop(s: seq<SparVar>, o: seq<SparVar>)
    ensures Drop(s, Drop(s, o)) == Keep(s, o)
  {
    DropMembers(s, o);
    DropKeepDual(s, o, Drop(s, o));
  }

  lemma {:induction false} DropKeepDual(s: seq<SparVar>, o: seq<SparVar>, d: seq<SparVar>)
    requires forall x :: x in s ==> (x in d <==> x !in o)
    ensures Drop(s, d) == Keep(s, o)
  {
    if s != [] {
      assert s[0] in s;
      DropKeepDual(s[1..], o, d);
    }
  }

  /** The state of a stage after `prev`: its inputs `prev` does not output;
      the rest stay inputs. */
  function SplitState(prevOut: seq<SparVar>, cur: SparStage): (r: SparStage)
    ensures r.state == Drop(cur.attrs.input, prevOut)
    ensures r.attrs.input == Keep(cur.attrs.input, prevOut)
    ensures r.attrs.output == cur.attrs.output && r.attrs.replicate == cur.attrs.replicate
    ensures r.code == cur.code && r.id == cur.id
  {
    var state := Drop(cur.attrs.input, prevOut);
    DropDrop(cur.attrs.input, prevOut);
    cur.(state := state, attrs := cur.attrs.(input := Drop(cur.attrs.input, state)))
  }

  /** `cur.state = ...` followed by `retain` is the split. */
  lemma SplitStateSteps(prevOut: seq<SparVar>, cur: SparStage, c1: SparStage, c2: SparStage)
    requires c1 == cur.(state := Drop(cur.attrs.input, prevOut))
    requires c2 == c1.(attrs := c1.attrs.(input := Drop(c1.attrs.input, c1.state)))
    ensures c2 == SplitState(prevOut, cur)
  {
  }

  /** Every stage after the first gets its state from the stage before it. */
  function DerivedStages(stages: seq<SparStage>): (d: seq<SparStage>)
    ensures |d| == |stages|
  {
    if |stages| <= 1 then stages
    else
      var n := |stages|;
      DerivedStages(stages[..n - 1]) + [SplitState(stages[n - 2].attrs.output, stages[n - 1])]
  }

  lemma {:induction false} DerivedAt(stages: seq<SparStage>, j: nat)
    requires j < |stages|
    ensures DerivedStages(stages)[j] == if j == 0 then stages[0] else SplitState(stages[j - 1].attrs.output, stages[j])
  {
    var n := |stages|;
    if n > 1 && j < n - 1 {
      DerivedAt(stages[..n - 1], j);
    }
  }

  /** State and remaining inputs partition the declared inputs: state is
      what the previous stage does not send, the inputs are what it sends.
      Stage 0 is unchanged. Outputs, bodies and numbers do not change. */
  lemma DerivedStagesFacts(stages: seq<SparStage>, i: nat)
    requires 0 < i < |stages|
    ensures var d := DerivedStages(stages);
            multiset(d[i].state) + multiset(d[i].attrs.input) == multiset(stages[i].attrs.input) &&
            (forall x :: x in d[i].state <==> x in stages[i].attrs.input && x !in stages[i - 1].attrs.output) &&
            (forall x :: x in d[i].attrs.input <==> x in stages[i].attrs.input && x in stages[i - 1].attrs.output) &&
            d[i].attrs.output == stages[i].attrs.output && d[i].code == stages[i].code && d[i].id == stages[i].id
    ensures stages != [] ==> DerivedStages(stages)[0] == stages[0]
  {
    DerivedAt(stages, i);
    DerivedAt(stages, 0);
    KeepDropPartition(stages[i].attrs.input, stages[i - 1].attrs.output);
    KeepMembers(stages[i].attrs.input, stages[i - 1].attrs.output);
    DropMembers(stages[i].attrs.input, stages[i - 1].attrs.output);
  }

  /** The first `k` stages of `out` are derived, the rest are untouched. */
  predicate DerivedUpTo(stages: seq<SparStage>, out: seq<SparStage>, k: nat)
  {
    0 < k <= |stages| == |out| && out[..k] == DerivedStages(stages[..k]) && out[k..] == stages[k..]
  }

  /** One turn of the state loop: splitting stage `k` against the outputs
      of the already derived stage `k - 1` extends the derived prefix. */
  lemma DeriveStep(stages: seq<SparStage>, out: seq<SparStage>, k: nat)
    requires DerivedUpTo(stages, out, k) && k < |stages|
    ensures DerivedUpTo(stages, out[k := SplitState(out[k - 1].attrs.output, out[k])], k + 1)
  {
    var pre := stages[..k + 1];
    var y := SplitState(stages[k - 1].attrs.output, stages[k]);
    assert out[k - 1].attrs.output == stages[k - 1].attrs.output by {
      DerivedAt(stages[..k], k - 1);
      assert out[k - 1] == out[..k][k - 1];
    }
    assert out[k] == stages[k] by {
      assert out[k] == out[k..][0];
    }
    assert DerivedStages(pre) == DerivedStages(stages[..k]) + [y] by {
      assert pre[..k] == stages[..k] && pre[k - 1] == stages[k - 1] && pre[k] == stages[k];
    }
    var out' := out[k := y];
    assert out'[..k + 1] == out[..k] + [y];
    assert out'[k + 1..] == out[k + 1..] == out[k..][1..];
  }

  /** One step of the loop: `cur.state = ...`, then `cur.attrs.input.retain(...)`. */
  method SplitStage(prevOut: seq<SparVar>, stage: SparStage) returns (cur: SparStage)
    ensures cur == SplitState(prevOut, stage)
  {
    cur := stage;
    var state := Drop(cur.attrs.input, prevOut);
    cur := cur.(state := state);
    ghost var c1 := cur;
    cur := cur.(attrs := cur.attrs.(input := Drop(cur.attrs.input, cur.state)));
    SplitStateSteps(prevOut, stage, c1, cur);
  }

  /** The state derivation loop of try_from. */
  method DeriveStates(stages: seq<SparStage>) returns (out: seq<SparStage>)
    requires stages != []
    ensures out == DerivedStages(stages)
  {
    out := stages;
    for k := 1 to |stages|
      invariant DerivedUpTo(stages, out, k)
    {
      DeriveStep(stages, out, k);
      var cur := SplitStage(out[k - 1].attrs.output, out[k]);
      out := out[k := cur];
    }
    assert out == out[..|stages|] && stages == stages[..|stages|];
  }

  // ---------------------------------------------------------------------
  // External variables and the variables handed back.

  /** Some stage keeps as state a variable that is not a stream input. */
  predicate Untraced(streamInput: seq<SparVar>, stages: seq<SparStage>)
  {
    exists i, v :: 0 <= i < |stages| && v in stages[i].state && v !in streamInput
  }

  /** The check that every state variable is a stream input, and the
      external variables it collects. */
  method CheckExternal(streamInput: seq<SparVar>, stages: seq<SparStage>) returns (r: Result<seq<SparVar>, ParseError>)
    ensures r.Err? <==> Untraced(streamInput, stages)
    ensures r.Err? ==> r.error == Untraceable
    ensures r.Ok? ==> r.value == streamInput
  {
    var external := streamInput;
    for k := 0 to |stages|
      invariant external == streamInput
      invariant forall i, v :: 0 <= i < k && v in stages[i].state ==> v in streamInput
    {
      var state := stages[k].state;
      for j := 0 to |state|
        invariant external == streamInput
        invariant forall v :: v in state[..j] ==> v in streamInput
      {
        var input := state[j];
        if input !in streamInput {
          return Err(Untraceable);
        }
        if input !in external {
          external := external + [input];
        }
        assert state[..j + 1] == state[..j] + [input];
      }
      assert state[..|state|] == state;
    }
    return Ok(external);
  }

  /** The last stage's state variables that are external and collections,
      in order: written back to the caller as outputs. */
  function Restored(state: seq<SparVar>, external: seq<SparVar>): (r: seq<SparVar>)
    ensures forall x :: x in r <==> x in state && x in external && IsVec(x)
    ensures |r| <= |state|
  {
    if state == [] then []
    else (if state[0] in external && IsVec(state[0]) then [state[0]] else []) + Restored(state[1..], external)
  }

  /** The promotion loop: each restored variable is appended to the last
      stage's outputs and to the stream's; nothing else changes. */
  method PromoteLast(stages: seq<SparStage>, attrs: SparAttrs, external: seq<SparVar>)
    returns (stages': seq<SparStage>, attrs': SparAttrs)
    requires stages != []
    ensures var last := stages[|stages| - 1];
            var more := Restored(last.state, external);
            stages' == stages[..|stages| - 1] + [last.(attrs := last.attrs.(output := last.attrs.output + more))] &&
            attrs' == attrs.(output := attrs.output + more)
  {
    var n := |stages|;
    var last := stages[n - 1];
    var state, stageOut, streamOut := last.state, last.attrs.output, attrs.output;
    ghost var stage0, stream0 := stageOut, streamOut;
    for j := 0 to |state|
      invariant stageOut == stage0 + Restored(state[..j], external)
      invariant streamOut == stream0 + Restored(state[..j], external)
    {
      var v := state[j];
      RestoredStep(stage0, state, j, external);
      RestoredStep(stream0, state, j, external);
      if v in external && IsVec(v) {
        stageOut := stageOut + [v];
        streamOut := streamOut + [v];
      }
    }
    assert state[..|state|] == state;
    stages' := stages[..n - 1] + [last.(attrs := last.attrs.(output := stageOut))];
    attrs' := attrs.(output := streamOut);
  }

  /** One more state variable extends the restored list by it exactly when
      it is external and a collection. */
  lemma RestoredStep(base: seq<SparVar>, s: seq<SparVar>, j: nat, external: seq<SparVar>)
    requires j < |s|
    ensures base + Restored(s[..j + 1], external) ==
            if s[j] in external && IsVec(s[j]) then base + Restored(s[..j], external) + [s[j]]
            else base + Restored(s[..j], external)
  {
    RestoredSnoc(s, j, external);
    var r0 := Restored(s[..j], external);
    if s[j] in external && IsVec(s[j]) {
      assert base + (r0 + [s[j]]) == base + r0 + [s[j]];
    } else {
      assert r0 + [] == r0;
    }
  }

  lemma {:induction false} RestoredAppend(a: seq<SparVar>, b: seq<SparVar>, external: seq<SparVar>)
    ensures Restored(a + b, external) == Restored(a, external) + Restored(b, external)
  {
    if a == [] {
      assert a + b == b;
    } else {
      assert (a + b)[0] == a[0] && (a + b)[1..] == a[1..] + b;
      RestoredAppend(a[1..], b, external);
    }
  }

  lemma RestoredSnoc(s: seq<SparVar>, j: nat, external: seq<SparVar>)
    requires j < |s|
    ensures Restored(s[..j + 1], external) ==
            Restored(s[..j], external) + (if s[j] in external && IsVec(s[j]) then [s[j]] else [])
  {
    assert s[..j + 1] == s[..j] + [s[j]];
    RestoredAppend(s[..j], [s[j]], external);
  }

  // ---------------------------------------------------------------------
  // SparStream::try_from

  /** The resolved stream of stages `all` (driver stage included). */
  function Resolve(attrs: SparAttrs, all: seq<SparStage>): (r: Result<SparStream, ParseError>)
    requires all != []
  {
    var d := DerivedStages(all);
    if Untraced(attrs.input, d) then Err(Untraceable)
    else
      var last := d[|d| - 1];
      var more := Restored(last.state, attrs.input);
      Ok(SparStream(attrs.(output := attrs.output + more),
                    d[..|d| - 1] + [last.(attrs := last.attrs.(output := last.attrs.output + more))],
                    attrs.input))
  }

  /** A resolved stream keeps every stage, in order, with its number and
      body; every variable a stage keeps as state is an external variable,
      and the external variables are the stream's inputs. */
  lemma ResolveTraced(attrs: SparAttrs, all: seq<SparStage>)
    requires all != [] && Resolve(attrs, all).Ok?
    ensures var s := Resolve(attrs, all).value;
            |s.stages| == |all| && s.externalVars == attrs.input &&
            (forall i :: 0 <= i < |all| ==> s.stages[i].id == all[i].id && s.stages[i].code == all[i].code) &&
            (forall i, v :: 0 <= i < |s.stages| && v in s.stages[i].state ==> IsExternal(s, v))
  {
    var d := DerivedStages(all);
    var s := Resolve(attrs, all).value;
    var n := |all|;
    assert s.stages == d[..n - 1] + [d[n - 1].(attrs := s.stages[n - 1].attrs)];
    forall i | 0 <= i < n
      ensures s.stages[i].id == all[i].id && s.stages[i].code == all[i].code && s.stages[i].state == d[i].state
    {
      DerivedAt(all, i);
    }
  }

  /** A stream built from a macro argument has at least one stage. */
  lemma StreamOfNonEmpty(value: seq<Token>)
    requires StreamOf(value).Ok?
    ensures StreamOf(value).value.stages != []
  {
    var args := SparArgs([Group(Parenthesis, value)]).value;
    var split := SparStagesOf(args.2).value;
    var all := WithDriver(args.0, split.0, split.1);
    ResolveTraced(args.0, all);
  }

  /** try_from: the stream macro's argument, `<attributes>, { <body> }`. */
  function StreamOf(value: seq<Token>): Result<SparStream, ParseError>
  {
    var args :- SparArgs([Group(Parenthesis, value)]);
    var split :- SparStagesOf(args.2);
    var all := WithDriver(args.0, split.0, split.1);
    if all == [] then Err(NoStages) else Resolve(args.0, all)
  }

  method TryFrom(value: seq<Token>) returns (r: Result<SparStream, ParseError>)
    ensures r == StreamOf(value)
  {
    var args :- ParseSparArgs([Group(Parenthesis, value)]);
    var attrs := args.0;
    var split :- ParseSparStages(args.2);
    var stages, code := split.0, split.1;
    if code != [] {
      var stage := NewStage(attrs, code, 0);
      if stages != [] {
        var outs := FindVariablesInCode(code, stages[0].attrs.input);
        stage := stage.(attrs := stage.attrs.(output := outs));
      }
      stages := [stage] + stages;
    }
    if stages == [] {
      return Err(NoStages);
    }
    stages := DeriveStates(stages);
    var external :- CheckExternal(attrs.input, stages);
    stages, attrs := PromoteLast(stages, attrs, external);
    return Ok(SparStream(attrs, stages, external));
  }
}
