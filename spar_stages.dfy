/** The stage splitter (`parse_spar_stages`).

    Phase one walks the body, descending into brace groups, until the first
    `STAGE` keyword; the trees passed so far, with the groups that enclose
    the keyword closed right there, are the driver code, and a marker is
    left where the keyword was unless that code is empty. Phase two reads
    `STAGE(...);` items from the keyword's own level to the end of that
    level. */
module SparStages {
  import opened Results
  import opened SparTokens
  import opened SparModel
  import opened SparArgsParser

  const STAGE_KW: Token := Ident("STAGE")

  /** Some `STAGE` keyword occurs in `ts`, at its top level or inside brace
      groups (other groups are not searched). */
  predicate HasStage(ts: seq<Token>)
  {
    ts != [] &&
    (ts[0] == STAGE_KW ||
     (ts[0].Group? && ts[0].delim == Brace && HasStage(ts[0].inner)) ||
     HasStage(ts[1..]))
  }

  /** Where the first `STAGE` is: the trees before it at each brace level
      from the outside in, the cursor at the keyword, and the trees after
      each enclosing group. */
  datatype Location =
    | NotFound
    | Found(prefixes: seq<seq<Token>>, rest: seq<Token>, tails: seq<seq<Token>>)

  function Prepend(t: Token, l: Location): Location
  {
    match l
    case NotFound => NotFound
    case Found(ps, r, tails) => if ps == [] then l else Found([[t] + ps[0]] + ps[1..], r, tails)
  }

  function Locate(ts: seq<Token>): (l: Location)
    ensures l.Found? ==> |l.prefixes| >= 1 && |l.tails| == |l.prefixes| - 1
    ensures l.Found? ==> l.rest != [] && l.rest[0] == STAGE_KW
  {
    if ts == [] then NotFound
    else if ts[0] == STAGE_KW then Found([[]], ts, [])
    else if ts[0].Group? && ts[0].delim == Brace && Locate(ts[0].inner).Found? then
      var l := Locate(ts[0].inner);
      Found([[]] + l.prefixes, l.rest, [ts[1..]] + l.tails)
    else Prepend(ts[0], Locate(ts[1..]))
  }

  /** The trees a location was found in. */
  function Rebuild(ps: seq<seq<Token>>, r: seq<Token>, tails: seq<seq<Token>>): seq<Token>
    requires |ps| >= 1 && |tails| == |ps| - 1
  {
    if |ps| == 1 then ps[0] + r
    else ps[0] + [Group(Brace, Rebuild(ps[1..], r, tails[1..]))] + tails[0]
  }

  /** No keyword is found exactly when there is none. */
  lemma {:induction false} LocateNotFound(ts: seq<Token>)
    ensures Locate(ts).NotFound? <==> !HasStage(ts)
  {
    if ts != [] && ts[0] != STAGE_KW {
      LocateNotFound(ts[1..]);
      if ts[0].Group? && ts[0].delim == Brace {
        LocateNotFound(ts[0].inner);
      }
    }
  }

  /** A location splits its input without losing or adding a tree. */
  lemma {:induction false} LocateRebuild(ts: seq<Token>)
    requires Locate(ts).Found?
    ensures Rebuild(Locate(ts).prefixes, Locate(ts).rest, Locate(ts).tails) == ts
    decreases ts, 1
  {
    if ts[0] == STAGE_KW {
      assert [] + ts == ts;
    } else if ts[0].Group? && ts[0].delim == Brace && Locate(ts[0].inner).Found? {
      LocateRebuildDeeper(ts);
    } else {
      LocateRebuildAlong(ts);
    }
  }

  /** The keyword is inside the first tree, a brace group. */
  lemma {:induction false} LocateRebuildDeeper(ts: seq<Token>)
    requires ts != [] && ts[0] != STAGE_KW && ts[0].Group? && ts[0].delim == Brace
    requires Locate(ts[0].inner).Found?
    ensures Locate(ts).Found?
    ensures Rebuild(Locate(ts).prefixes, Locate(ts).rest, Locate(ts).tails) == ts
    decreases ts, 0
  {
    var l := Locate(ts);
    var m := Locate(ts[0].inner);
    LocateRebuild(ts[0].inner);
    assert l == Found([[]] + m.prefixes, m.rest, [ts[1..]] + m.tails);
    assert l.prefixes[1..] == m.prefixes && l.tails[1..] == m.tails;
    assert Rebuild(l.prefixes, l.rest, l.tails) == [] + [ts[0]] + ts[1..];
    assert ts == [ts[0]] + ts[1..];
  }

  /** The keyword is after the first tree. */
  lemma {:induction false} LocateRebuildAlong(ts: seq<Token>)
    requires ts != [] && ts[0] != STAGE_KW
    requires !(ts[0].Group? && ts[0].delim == Brace && Locate(ts[0].inner).Found?)
    requires Locate(ts).Found?
    ensures Rebuild(Locate(ts).prefixes, Locate(ts).rest, Locate(ts).tails) == ts
    decreases ts, 0
  {
    var l := Locate(ts);
    var m := Locate(ts[1..]);
    assert l == Prepend(ts[0], m);
    LocateRebuild(ts[1..]);
    assert l.prefixes == [[ts[0]] + m.prefixes[0]] + m.prefixes[1..];
    if |m.prefixes| == 1 {
      assert Rebuild(l.prefixes, l.rest, l.tails) == [ts[0]] + (m.prefixes[0] + m.rest);
    } else {
      assert l.prefixes[1..] == m.prefixes[1..];
      assert Rebuild(l.prefixes, l.rest, l.tails) ==
             [ts[0]] + (m.prefixes[0] + [Group(Brace, Rebuild(m.prefixes[1..], m.rest, m.tails[1..]))] + m.tails[0]);
    }
    assert ts == [ts[0]] + ts[1..];
  }

  /** The trees before the first keyword, at every level, hold no keyword. */
  lemma {:induction false} LocatePrefixesFree(ts: seq<Token>)
    requires Locate(ts).Found?
    ensures forall i :: 0 <= i < |Locate(ts).prefixes| ==> !HasStage(Locate(ts).prefixes[i])
    decreases ts, 1
  {
    if ts[0] == STAGE_KW {
    } else if ts[0].Group? && ts[0].delim == Brace && Locate(ts[0].inner).Found? {
      PrefixesFreeDeeper(ts);
    } else {
      PrefixesFreeAlong(ts);
    }
  }

  lemma {:induction false} PrefixesFreeDeeper(ts: seq<Token>)
    requires ts != [] && ts[0] != STAGE_KW && ts[0].Group? && ts[0].delim == Brace
    requires Locate(ts[0].inner).Found?
    ensures Locate(ts).Found?
    ensures forall i :: 0 <= i < |Locate(ts).prefixes| ==> !HasStage(Locate(ts).prefixes[i])
    decreases ts, 0
  {
    var l, m := Locate(ts), Locate(ts[0].inner);
    LocatePrefixesFree(ts[0].inner);
    assert l.prefixes == [[]] + m.prefixes;
    forall i | 0 <= i < |l.prefixes|
      ensures !HasStage(l.prefixes[i])
    {
      if i > 0 {
        assert l.prefixes[i] == m.prefixes[i - 1];
      }
    }
  }

  lemma {:induction false} PrefixesFreeAlong(ts: seq<Token>)
    requires ts != [] && ts[0] != STAGE_KW
    requires !(ts[0].Group? && ts[0].delim == Brace && Locate(ts[0].inner).Found?)
    requires Locate(ts).Found?
    ensures forall i :: 0 <= i < |Locate(ts).prefixes| ==> !HasStage(Locate(ts).prefixes[i])
    decreases ts, 0
  {
    var l, m := Locate(ts), Locate(ts[1..]);
    LocatePrefixesFree(ts[1..]);
    var p0 := [ts[0]] + m.prefixes[0];
    assert !HasStage(p0) by {
      if ts[0].Group? && ts[0].delim == Brace {
        LocateNotFound(ts[0].inner);
      }
      assert p0[0] == ts[0] && p0[1..] == m.prefixes[0];
    }
    assert l.prefixes == [p0] + m.prefixes[1..];
    forall i | 0 <= i < |l.prefixes|
      ensures !HasStage(l.prefixes[i])
    {
      if i > 0 {
        assert l.prefixes[i] == m.prefixes[i];
      }
    }
  }

  // ---------------------------------------------------------------------
  // Phase one as a function.

  predicate AllEmpty(s: seq<seq<Token>>)
  {
    forall i :: 0 <= i < |s| ==> s[i] == []
  }

  /** The marker goes at the end of the innermost level, unless every level
      is empty. */
  function WithMarker(s: seq<seq<Token>>): (m: seq<seq<Token>>)
    requires s != []
    ensures |m| == |s|
  {
    if AllEmpty(s) then s else s[..|s| - 1] + [s[|s| - 1] + [Ident(MARKER)]]
  }

  /** Close the levels from the inside out: each becomes a brace group at the
      end of the level around it. */
  function Collapse(s: seq<seq<Token>>): seq<Token>
    requires s != []
  {
    if |s| == 1 then s[0] else s[0] + [Group(Brace, Collapse(s[1..]))]
  }

  /** The driver code and the cursor at the first keyword (empty if none). */
  function SplitCode(ts: seq<Token>): (seq<Token>, seq<Token>)
  {
    match Locate(ts)
    case Found(ps, r, _) => (Collapse(WithMarker(ps)), r)
    case NotFound => (ts, [])
  }

  /** Without a keyword, the whole body is driver code. */
  lemma SplitCodeNoStage(ts: seq<Token>)
    requires !HasStage(ts)
    ensures SplitCode(ts) == (ts, [])
  {
    LocateNotFound(ts);
  }

  /** A keyword-free driver followed by stages: the driver, followed by the
      marker when it is not empty, and the stages. */
  lemma SplitCodeDriver(a: seq<Token>, b: seq<Token>)
    requires !HasStage(a)
    requires b != [] && b[0] == STAGE_KW
    ensures SplitCode(a + b) == (if a == [] then [] else a + [Ident(MARKER)], b)
  {
    LocateAppend(a, b);
    assert Locate(b) == Found([[]], b, []);
    assert a + [] == a;
    if a != [] {
      assert [a][0] == a;
      assert !AllEmpty([a]);
      assert [a][..0] + [a + [Ident(MARKER)]] == [a + [Ident(MARKER)]];
    }
  }

  // ---------------------------------------------------------------------
  // Phase one as the source runs it: a stack of code levels, one per brace
  // group entered, and a stack of the cursors to resume after each group.

  /** Append one tree to the innermost level. */
  function AppendTop(stack: seq<seq<Token>>, t: Token): (m: seq<seq<Token>>)
    requires stack != []
    ensures |m| == |stack| && m[..|m| - 1] == stack[..|stack| - 1]
    ensures m[|m| - 1] == stack[|stack| - 1] + [t]
  {
    stack[..|stack| - 1] + [stack[|stack| - 1] + [t]]
  }

  /** Pop the innermost level and append it, as a brace group, to the level
      around it. */
  function CloseLevel(stack: seq<seq<Token>>): (m: seq<seq<Token>>)
    requires |stack| >= 2
    ensures |m| == |stack| - 1 && m[..|m| - 1] == stack[..|stack| - 2]
    ensures m[|m| - 1] == stack[|stack| - 2] + [Group(Brace, stack[|stack| - 1])]
  {
    var d := |stack| - 1;
    stack[..d - 1] + [stack[d - 1] + [Group(Brace, stack[d])]]
  }

  /** Closing the innermost level first gives the same code. */
  lemma {:induction false} CollapseStep(s: seq<seq<Token>>)
    requires |s| >= 2
    ensures Collapse(s) == Collapse(CloseLevel(s))
  {
    var t := CloseLevel(s);
    if |s| > 2 {
      CollapseStep(s[1..]);
      assert t[0] == s[0];
      assert t[1..] == CloseLevel(s[1..]);
    }
  }

  predicate NoStageLevels(s: seq<seq<Token>>)
  {
    forall i :: 0 <= i < |s| ==> !HasStage(s[i])
  }

  /** A keyword is in a concatenation exactly when it is in one of the parts. */
  lemma {:induction false} HasStageAppend(a: seq<Token>, b: seq<Token>)
    ensures HasStage(a + b) <==> HasStage(a) || HasStage(b)
  {
    if a == [] {
      assert a + b == b;
    } else {
      HasStageAppend(a[1..], b);
      assert (a + b)[0] == a[0];
      assert (a + b)[1..] == a[1..] + b;
    }
  }

  /** Copying a tree that is neither the keyword nor a brace group keeps every
      level keyword-free. */
  lemma NoStageCopy(stack: seq<seq<Token>>, t: Token)
    requires stack != [] && NoStageLevels(stack)
    requires t != STAGE_KW && !(t.Group? && t.delim == Brace)
    ensures NoStageLevels(AppendTop(stack, t))
  {
    var d := |stack| - 1;
    HasStageAppend(stack[d], [t]);
    assert !HasStage([t][1..]);
    var m := AppendTop(stack, t);
    forall i | 0 <= i < |m|
      ensures !HasStage(m[i])
    {
      if i < d {
        assert m[i] == m[..d][i];
      }
    }
  }

  /** A new empty level is keyword-free. */
  lemma NoStageEnter(stack: seq<seq<Token>>)
    requires NoStageLevels(stack)
    ensures NoStageLevels(stack + [[]])
  {
    forall i | 0 <= i < |stack| + 1
      ensures !HasStage((stack + [[]])[i])
    {
      if i < |stack| {
        assert (stack + [[]])[i] == stack[i];
      }
    }
  }

  /** Closing a keyword-free level keeps every level keyword-free. */
  lemma NoStageClose(stack: seq<seq<Token>>)
    requires |stack| >= 2 && NoStageLevels(stack)
    ensures NoStageLevels(CloseLevel(stack))
  {
    var d := |stack| - 1;
    var g := Group(Brace, stack[d]);
    HasStageAppend(stack[d - 1], [g]);
    assert !HasStage([g][1..]);
    var m := CloseLevel(stack);
    forall i | 0 <= i < |m|
      ensures !HasStage(m[i])
    {
      if i < d - 1 {
        assert m[i] == m[..d - 1][i];
      }
    }
  }

  /** Copying a tree of the cursor to the innermost level rebuilds the same
      trees. */
  lemma {:induction false} RebuildCopy(stack: seq<seq<Token>>, rest: seq<Token>, groups: seq<seq<Token>>)
    requires |stack| == |groups| + 1 && rest != []
    ensures Rebuild(AppendTop(stack, rest[0]), rest[1..], groups) == Rebuild(stack, rest, groups)
  {
    var m := AppendTop(stack, rest[0]);
    if |stack| == 1 {
      assert m[0] + rest[1..] == stack[0] + rest by {
        assert rest == [rest[0]] + rest[1..];
      }
    } else {
      assert m[0] == stack[0];
      assert m[1..] == AppendTop(stack[1..], rest[0]);
      RebuildCopy(stack[1..], rest, groups[1..]);
    }
  }

  /** Entering a brace group: a new empty level, the group's trees as the
      cursor and the trees after the group saved. */
  lemma {:induction false} RebuildEnter(stack: seq<seq<Token>>, rest: seq<Token>, groups: seq<seq<Token>>)
    requires |stack| == |groups| + 1 && rest != [] && rest[0].Group?
    requires rest[0].delim == Brace
    ensures Rebuild(stack + [[]], rest[0].inner, groups + [rest[1..]]) == Rebuild(stack, rest, groups)
  {
    var s2, g2 := stack + [[]], groups + [rest[1..]];
    if |stack| == 1 {
      assert s2[1..] == [[]] && g2[1..] == [];
      assert [] + rest[0].inner == rest[0].inner;
      assert rest == [rest[0]] + rest[1..];
    } else {
      assert s2[0] == stack[0] && g2[0] == groups[0];
      assert s2[1..] == stack[1..] + [[]];
      assert g2[1..] == groups[1..] + [rest[1..]];
      RebuildEnter(stack[1..], rest, groups[1..]);
    }
  }

  /** Leaving a finished group: its level becomes a brace group of the level
      around it and the saved cursor is resumed. */
  lemma {:induction false} RebuildLeave(stack: seq<seq<Token>>, groups: seq<seq<Token>>)
    requires |stack| == |groups| + 1 && groups != []
    ensures Rebuild(CloseLevel(stack), groups[|groups| - 1], groups[..|groups| - 1]) == Rebuild(stack, [], groups)
  {
    var k := |groups| - 1;
    var m := CloseLevel(stack);
    if k == 0 {
      assert stack[1] + [] == stack[1];
    } else {
      assert m[0] == stack[0];
      assert m[1..] == CloseLevel(stack[1..]);
      assert groups[..k][0] == groups[0];
      assert groups[..k][1..] == groups[1..][..k - 1];
      RebuildLeave(stack[1..], groups[1..]);
    }
  }

  /** The location of the first keyword in front of it: a keyword-free prefix
      joins the outermost level. */
  function PrependLevel(a: seq<Token>, l: Location): Location
  {
    match l
    case NotFound => NotFound
    case Found(ps, r, t) => if ps == [] then l else Found([a + ps[0]] + ps[1..], r, t)
  }

  lemma {:induction false} LocateAppend(a: seq<Token>, b: seq<Token>)
    requires !HasStage(a)
    ensures Locate(a + b) == PrependLevel(a, Locate(b))
  {
    if a == [] {
      assert a + b == b;
      var l := Locate(b);
      if l.Found? {
        assert [] + l.prefixes[0] == l.prefixes[0];
        assert [l.prefixes[0]] + l.prefixes[1..] == l.prefixes;
      }
    } else {
      assert (a + b)[0] == a[0];
      assert (a + b)[1..] == a[1..] + b;
      LocateAppend(a[1..], b);
      if a[0].Group? && a[0].delim == Brace {
        LocateNotFound(a[0].inner);
      }
      var l := Locate(b);
      if l.Found? {
        var ps := l.prefixes;
        var q := [a[1..] + ps[0]] + ps[1..];
        assert q[0] == a[1..] + ps[0] && q[1..] == ps[1..];
        assert [a[0]] + (a[1..] + ps[0]) == a + ps[0];
      }
    }
  }

  /** A brace group holding the keyword: the keyword's location inside it,
      one level deeper. */
  lemma LocateBraceFront(inner: seq<Token>, after: seq<Token>)
    requires Locate(inner).Found?
    ensures Locate([Group(Brace, inner)] + after) ==
            Found([[]] + Locate(inner).prefixes, Locate(inner).rest, [after] + Locate(inner).tails)
  {
    assert ([Group(Brace, inner)] + after)[1..] == after;
  }

  lemma NoStageInner(stack: seq<seq<Token>>)
    requires stack != [] && NoStageLevels(stack)
    ensures !HasStage(stack[0]) && NoStageLevels(stack[1..])
  {
    forall i | 0 <= i < |stack| - 1
      ensures !HasStage(stack[1..][i])
    {
      assert stack[1..][i] == stack[i + 1];
    }
  }

  /** At the keyword, the walk's state is the keyword's location. */
  lemma {:induction false} LocateInRebuild(stack: seq<seq<Token>>, rest: seq<Token>, groups: seq<seq<Token>>)
    requires |stack| == |groups| + 1 && NoStageLevels(stack)
    requires rest != [] && rest[0] == STAGE_KW
    ensures Locate(Rebuild(stack, rest, groups)) == Found(stack, rest, groups)
  {
    NoStageInner(stack);
    if |stack| == 1 {
      LocateAppend(stack[0], rest);
      assert stack[0] + [] == stack[0];
      assert [stack[0]] == stack;
    } else {
      LocateInRebuild(stack[1..], rest, groups[1..]);
      LocateInRebuildLevel(stack, rest, groups);
    }
  }

  /** One enclosing level: the location found inside a group, seen from
      the code around it. */
  lemma LocateInRebuildLevel(stack: seq<seq<Token>>, rest: seq<Token>, groups: seq<seq<Token>>)
    requires |stack| == |groups| + 1 && |stack| > 1 && !HasStage(stack[0])
    requires Locate(Rebuild(stack[1..], rest, groups[1..])) == Found(stack[1..], rest, groups[1..])
    ensures Locate(Rebuild(stack, rest, groups)) == Found(stack, rest, groups)
  {
    var inner := Rebuild(stack[1..], rest, groups[1..]);
    var b := [Group(Brace, inner)] + groups[0];
    var l := Found([[]] + stack[1..], rest, [groups[0]] + groups[1..]);
    assert Locate(b) == l by {
      LocateBraceFront(inner, groups[0]);
    }
    assert Locate(Rebuild(stack, rest, groups)) == PrependLevel(stack[0], l) by {
      LocateAppend(stack[0], b);
      assert stack[0] + b == Rebuild(stack, rest, groups);
    }
    FoundPrepend(stack, rest, groups, l);
  }

  lemma FoundPrepend(stack: seq<seq<Token>>, rest: seq<Token>, groups: seq<seq<Token>>, l: Location)
    requires |stack| == |groups| + 1 && |stack| > 1
    requires l == Found([[]] + stack[1..], rest, [groups[0]] + groups[1..])
    ensures PrependLevel(stack[0], l) == Found(stack, rest, groups)
  {
    assert l.prefixes[0] == [] && l.prefixes[1..] == stack[1..];
    assert stack[0] + [] == stack[0];
    assert [stack[0]] + stack[1..] == stack;
    assert [groups[0]] + groups[1..] == groups;
  }

  function SumSize(groups: seq<seq<Token>>): nat
  {
    if groups == [] then 0 else SumSize(groups[..|groups| - 1]) + Size(groups[|groups| - 1])
  }

  lemma SizeSplit(ts: seq<Token>)
    requires ts != []
    ensures Size(ts) == TreeSize(ts[0]) + Size(ts[1..])
  {
  }

  // ---------------------------------------------------------------------
  // Phase two.

  function PrependStage(s: SparStage, r: Result<seq<SparStage>, ParseError>): Result<seq<SparStage>, ParseError>
  {
    match r
    case Ok(ss) => Ok([s] + ss)
    case Err(e) => Err(e)
  }

  /** `STAGE(...);` items up to the end of the level; the stages are numbered
      from `count + 1` on and have no state yet. */
  function StageList(rest: seq<Token>, count: nat): (r: Result<seq<SparStage>, ParseError>)
    ensures r.Ok? ==> forall i :: 0 <= i < |r.value| ==> r.value[i].id == count + 1 + i && r.value[i].state == []
    ensures rest != [] && rest[0] != STAGE_KW ==> r == Err(ExpectedStage)
    ensures r.Ok? ==> (r.value == [] <==> rest == [])
    ensures rest != [] && rest[0] == STAGE_KW && SparArgs(rest[1..]).Err? ==> r == Err(SparArgs(rest[1..]).error)
    ensures rest != [] && rest[0] == STAGE_KW && SparArgs(rest[1..]).Ok? ==>
              var a := SparArgs(rest[1..]).value;
              (a.1 == [] || a.1[0] != Punct(';') ==> r == Err(ExpectedSemicolon)) &&
              (r.Ok? ==> r.value[0] == NewStage(a.0, a.2, count + 1))
    decreases |rest|
  {
    if rest == [] then Ok([])
    else if rest[0] != STAGE_KW then Err(ExpectedStage)
    else
      var a :- SparArgs(rest[1..]);
      var st := NewStage(a.0, a.2, count + 1);
      var semi := a.1;
      if semi != [] && semi[0] == Punct(';') then PrependStage(st, StageList(semi[1..], count + 1))
      else Err(ExpectedSemicolon)
  }

  /** A stage as a user writes it: `STAGE(<attributes>, { <body> });`. */
  datatype StageDecl = StageDecl(attrs: seq<AttrItem>, body: seq<Token>)

  function StageTokens(d: StageDecl): seq<Token>
  {
    [STAGE_KW] + Header(PrintAttrs(d.attrs) + [Group(Brace, d.body)], [Punct(';')])
  }

  function PrintStages(ds: seq<StageDecl>): seq<Token>
  {
    if ds == [] then [] else StageTokens(ds[0]) + PrintStages(ds[1..])
  }

  /** The stages the declarations describe, numbered from `count + 1`. */
  function DeclaredStages(ds: seq<StageDecl>, count: nat): (ss: seq<SparStage>)
    ensures |ss| == |ds|
    ensures forall i :: 0 <= i < |ds| ==>
              ss[i] == NewStage(DeclaredAttrs(ds[i].attrs), ds[i].body, count + 1 + i)
  {
    if ds == [] then [] else [NewStage(DeclaredAttrs(ds[0].attrs), ds[0].body, count + 1)] + DeclaredStages(ds[1..], count + 1)
  }

  predicate StagesWellFormed(ds: seq<StageDecl>)
  {
    forall i :: 0 <= i < |ds| ==> AttrWellFormed(ds[i].attrs)
  }

  /** Reading one printed stage. */
  lemma StageListStep(d: StageDecl, more: seq<Token>, count: nat)
    requires AttrWellFormed(d.attrs)
    ensures StageList(StageTokens(d) + more, count) ==
            PrependStage(NewStage(DeclaredAttrs(d.attrs), d.body, count + 1), StageList(more, count + 1))
  {
    var h := PrintAttrs(d.attrs) + [Group(Brace, d.body)];
    var c := StageTokens(d) + more;
    SparArgsAccepts(d.attrs, d.body, [], [Punct(';')] + more);
    assert h + [] == h;
    assert c[0] == STAGE_KW;
    assert c[1..] == Header(h, [Punct(';')] + more);
    assert ([Punct(';')] + more)[1..] == more;
  }

  /** Reading printed `STAGE(...);` items gives back their stages, numbered in
      order and with no state yet. */
  lemma {:induction false} StageListRoundTrip(ds: seq<StageDecl>, count: nat)
    requires StagesWellFormed(ds)
    ensures StageList(PrintStages(ds), count) == Ok(DeclaredStages(ds, count))
  {
    if ds != [] {
      assert StagesWellFormed(ds[1..]) by {
        forall i | 0 <= i < |ds| - 1
          ensures AttrWellFormed(ds[1..][i].attrs)
        {
          assert ds[1..][i] == ds[i + 1];
        }
      }
      assert AttrWellFormed(ds[0].attrs);
      StageListStep(ds[0], PrintStages(ds[1..]), count);
      StageListRoundTrip(ds[1..], count + 1);
    }
  }

  /** parse_spar_stages: the stages and the driver code. */
  function SparStagesOf(c: seq<Token>): Result<(seq<SparStage>, seq<Token>), ParseError>
  {
    var (code, rest) := SplitCode(c);
    var stages :- StageList(rest, 0);
    Ok((stages, code))
  }

  // ---------------------------------------------------------------------
  // The walk's invariant: the code levels are keyword-free and, completed by
  // the cursor and the saved cursors, give back the whole body.

  predicate WalkState(cursor: seq<Token>, stack: seq<seq<Token>>, rest: seq<Token>, groups: seq<seq<Token>>)
  {
    |stack| == |groups| + 1 && NoStageLevels(stack) && Rebuild(stack, rest, groups) == cursor
  }

  lemma WalkStart(cursor: seq<Token>)
    ensures WalkState(cursor, [[]], cursor, [])
  {
    assert [] + cursor == cursor;
  }

  lemma WalkCopy(cursor: seq<Token>, stack: seq<seq<Token>>, rest: seq<Token>, groups: seq<seq<Token>>)
    requires WalkState(cursor, stack, rest, groups) && rest != []
    requires rest[0] != STAGE_KW && !(rest[0].Group? && rest[0].delim == Brace)
    ensures WalkState(cursor, AppendTop(stack, rest[0]), rest[1..], groups)
  {
    RebuildCopy(stack, rest, groups);
    NoStageCopy(stack, rest[0]);
  }

  lemma WalkEnter(cursor: seq<Token>, stack: seq<seq<Token>>, rest: seq<Token>, groups: seq<seq<Token>>)
    requires WalkState(cursor, stack, rest, groups) && rest != []
    requires rest[0].Group? && rest[0].delim == Brace
    ensures WalkState(cursor, stack + [[]], rest[0].inner, groups + [rest[1..]])
    ensures Size(rest[0].inner) + SumSize(groups + [rest[1..]]) < Size(rest) + SumSize(groups)
  {
    RebuildEnter(stack, rest, groups);
    NoStageEnter(stack);
    SizeSplit(rest);
    assert (groups + [rest[1..]])[..|groups|] == groups;
  }

  lemma WalkLeave(cursor: seq<Token>, stack: seq<seq<Token>>, groups: seq<seq<Token>>)
    requires WalkState(cursor, stack, [], groups) && groups != []
    ensures WalkState(cursor, CloseLevel(stack), groups[|groups| - 1], groups[..|groups| - 1])
    ensures Size(groups[|groups| - 1]) + SumSize(groups[..|groups| - 1]) == SumSize(groups)
  {
    RebuildLeave(stack, groups);
    NoStageClose(stack);
  }

  /** At the keyword, the driver code is the marked and collapsed stack. */
  lemma WalkStage(cursor: seq<Token>, stack: seq<seq<Token>>, rest: seq<Token>, groups: seq<seq<Token>>)
    requires WalkState(cursor, stack, rest, groups) && rest != [] && rest[0] == STAGE_KW
    ensures SplitCode(cursor) == (Collapse(WithMarker(stack)), rest)
  {
    LocateInRebuild(stack, rest, groups);
  }

  /** The walk ended without a keyword: the whole body is driver code. */
  lemma WalkEnd(cursor: seq<Token>, stack: seq<seq<Token>>)
    requires WalkState(cursor, stack, [], [])
    ensures SplitCode(cursor) == (stack[0], [])
  {
    assert stack[0] + [] == stack[0];
    SplitCodeNoStage(stack[0]);
  }

  /** At the first keyword: the marker goes at the end of the innermost level
      unless every level is empty, then the levels are closed from the inside
      out. */
  method MarkAndCollapse(stack: seq<seq<Token>>) returns (code: seq<Token>)
    requires stack != []
    ensures code == Collapse(WithMarker(stack))
  {
    var codeStack := stack;
    if !AllEmpty(codeStack) {
      codeStack := codeStack[..|codeStack| - 1] + [codeStack[|codeStack| - 1] + [Ident(MARKER)]];
    }
    while |codeStack| > 1
      invariant codeStack != [] && Collapse(codeStack) == Collapse(WithMarker(stack))
      decreases |codeStack|
    {
      CollapseStep(codeStack);
      codeStack := CloseLevel(codeStack);
    }
    code := codeStack[0];
  }

  /** Phase one of parse_spar_stages: the driver code and the cursor at the
      first keyword. */
  method SplitStages(cursor: seq<Token>) returns (code: seq<Token>, rest: seq<Token>)
    ensures (code, rest) == SplitCode(cursor)
  {
    var codeStack: seq<seq<Token>> := [[]];
    var groups: seq<seq<Token>> := [];
    rest := cursor;
    var found := false;
    WalkStart(cursor);
    while true
      invariant !found && WalkState(cursor, codeStack, rest, groups)
      decreases Size(rest) + SumSize(groups), |groups|
    {
      ghost var m0, g0 := Size(rest) + SumSize(groups), |groups|;
      while rest != []
        invariant !found && WalkState(cursor, codeStack, rest, groups)
        invariant Size(rest) + SumSize(groups) <= m0
        invariant Size(rest) + SumSize(groups) == m0 ==> |groups| <= g0
        decreases Size(rest) + SumSize(groups)
      {
        var t := rest[0];
        SizeSplit(rest);
        if t == STAGE_KW {
          WalkStage(cursor, codeStack, rest, groups);
          groups := [];
          var code0 := MarkAndCollapse(codeStack);
          codeStack := [code0];
          found := true;
          break;
        } else if t.Group? && t.delim == Brace {
          WalkEnter(cursor, codeStack, rest, groups);
          codeStack := codeStack + [[]];
          groups := groups + [rest[1..]];
          rest := t.inner;
        } else {
          WalkCopy(cursor, codeStack, rest, groups);
          codeStack := AppendTop(codeStack, t);
          rest := rest[1..];
        }
      }
      if groups != [] {
        var k := |groups| - 1;
        WalkLeave(cursor, codeStack, groups);
        rest := groups[k];
        groups := groups[..k];
        codeStack := CloseLevel(codeStack);
      } else {
        break;
      }
    }
    if !found {
      WalkEnd(cursor, codeStack);
    }
    code := codeStack[|codeStack| - 1];
  }

  /** Phase two of parse_spar_stages: the `STAGE(...);` items. */
  method ParseStageList(cursor: seq<Token>) returns (r: Result<seq<SparStage>, ParseError>)
    ensures r == StageList(cursor, 0)
  {
    var rest := cursor;
    var stages: seq<SparStage> := [];
    PrependAllEmpty(StageList(rest, 0));
    while rest != []
      invariant PrependAll(stages, StageList(rest, |stages|)) == StageList(cursor, 0)
      decreases |rest|
    {
      if rest[0] != STAGE_KW {
        return Err(ExpectedStage);
      }
      var a :- ParseSparArgs(rest[1..]);
      var st := NewStage(a.0, a.2, |stages| + 1);
      var semi := a.1;
      if semi != [] && semi[0] == Punct(';') {
        PrependAllStep(stages, st, StageList(semi[1..], |stages| + 1));
        stages := stages + [st];
        rest := semi[1..];
      } else {
        return Err(ExpectedSemicolon);
      }
    }
    assert stages + [] == stages;
    return Ok(stages);
  }

  method ParseSparStages(cursor: seq<Token>) returns (r: Result<(seq<SparStage>, seq<Token>), ParseError>)
    ensures r == SparStagesOf(cursor)
  {
    var code, rest := SplitStages(cursor);
    var stages :- ParseStageList(rest);
    return Ok((stages, code));
  }
  /** A keyword-free driver followed by printed stages: the driver, marked
      unless it is empty, and the stages in order. */
  lemma SparStagesRoundTrip(driver: seq<Token>, ds: seq<StageDecl>)
    requires !HasStage(driver) && ds != [] && StagesWellFormed(ds)
    ensures SparStagesOf(driver + PrintStages(ds)) ==
            Ok((DeclaredStages(ds, 0), if driver == [] then [] else driver + [Ident(MARKER)]))
  {
    var b := PrintStages(ds);
    assert b[0] == STAGE_KW;
    SplitCodeDriver(driver, b);
    StageListRoundTrip(ds, 0);
  }

  /** A body without a keyword is all driver code and has no stages. */
  lemma SparStagesNone(body: seq<Token>)
    requires !HasStage(body)
    ensures SparStagesOf(body) == Ok(([], body))
  {
    SplitCodeNoStage(body);
  }


  function PrependAll(p: seq<SparStage>, r: Result<seq<SparStage>, ParseError>): Result<seq<SparStage>, ParseError>
  {
    match r
    case Ok(ss) => Ok(p + ss)
    case Err(e) => Err(e)
  }

  lemma PrependAllStep(p: seq<SparStage>, s: SparStage, r: Result<seq<SparStage>, ParseError>)
    ensures PrependAll(p, PrependStage(s, r)) == PrependAll(p + [s], r)
  {
    if r.Ok? {
      assert p + ([s] + r.value) == (p + [s]) + r.value;
    }
  }

  lemma PrependAllEmpty(r: Result<seq<SparStage>, ParseError>)
    ensures PrependAll([], r) == r
  {
    if r.Ok? {
      assert [] + r.value == r.value;
    }
  }
}
