/** Token trees as the stage-description compiler sees them, and the read-only
    cursor helpers it uses to walk them.

    A cursor is modelled as the sequence of the trees it has not yet passed:
    advancing a cursor drops the first tree, entering a group yields the
    group's own inner sequence, and end-of-input is the empty sequence. */
module SparTokens {
  import opened Results

  datatype Delim = Parenthesis | Brace | Bracket

  /** One token tree: an identifier, one punctuation character, a literal
      (kept as its source text) or a delimited group of trees. */
  datatype Token =
    | Ident(name: string)
    | Punct(ch: char)
    | Literal(text: string)
    | Group(delim: Delim, inner: seq<Token>)

  /** The identifier the splitter leaves where the first stage used to be. */
  const MARKER: string := "__SPAR_MARKER__"

  /** Error kinds of the front end; the source reports each with a message. */
  datatype ParseError =
    | ExpectedParenthesis
    | ExpectedPunct(expected: char)
    | ExpectedType
    | UnexpectedToken
    | DuplicateInput
    | DuplicateOutput
    | EmptyInput
    | EmptyOutput
    | DuplicateReplicate
    | ReplicateAndOrdered
    | ReplicateZero
    | ReplicateSyntax
    | UnknownAttribute
    | TokenAfterBody
    | MissingBody
    | ExpectedSemicolon
    | ExpectedStage
    | Untraceable
    | NoStages

  /** Number of trees, counting every nested one. */
  function Size(ts: seq<Token>): nat
  {
    if ts == [] then 0 else TreeSize(ts[0]) + Size(ts[1..])
  }

  function TreeSize(t: Token): nat
  {
    match t
    case Group(_, inner) => 1 + Size(inner)
    case _ => 1
  }

  /** The text of a token stream: trees separated by one space, groups
      printed between their delimiters (a non-empty brace group also gets a
      space before its closing brace). Types are compared on this text. */
  function Render(ts: seq<Token>): string
  {
    if ts == [] then ""
    else if |ts| == 1 then RenderTree(ts[0])
    else RenderTree(ts[0]) + " " + Render(ts[1..])
  }

  function RenderTree(t: Token): string
  {
    match t
    case Ident(n) => n
    case Punct(c) => [c]
    case Literal(s) => s
    case Group(d, inner) =>
      match d
      case Parenthesis => "(" + Render(inner) + ")"
      case Bracket => "[" + Render(inner) + "]"
      case Brace => "{ " + Render(inner) + (if inner == [] then "" else " ") + "}"
  }

  /** The rendering of a non-empty stream starts with the rendering of its
      first tree, followed by a space or by nothing. */
  lemma RenderStartsWithFirst(ts: seq<Token>)
    requires ts != []
    ensures |RenderTree(ts[0])| <= |Render(ts)|
    ensures Render(ts)[..|RenderTree(ts[0])|] == RenderTree(ts[0])
    ensures |Render(ts)| > |RenderTree(ts[0])| ==> Render(ts)[|RenderTree(ts[0])|] == ' '
  {
    if |ts| > 1 {
      var a, b := RenderTree(ts[0]), Render(ts[1..]);
      assert Render(ts) == a + " " + b;
      assert (a + " " + b)[..|a|] == a;
    }
  }

  /** `a` is what remains of cursor `b` after advancing it zero or more trees. */
  predicate IsSuffix(a: seq<Token>, b: seq<Token>)
  {
    |a| <= |b| && b[|b| - |a|..] == a
  }

  lemma SuffixTransitive(a: seq<Token>, b: seq<Token>, c: seq<Token>)
    requires IsSuffix(a, b) && IsSuffix(b, c)
    ensures IsSuffix(a, c)
  {
    assert c[|c| - |a|..] == c[|c| - |b|..][|b| - |a|..];
  }

  /** skip_punct: consume one punctuation token equal to `p`. */
  function SkipPunct(c: seq<Token>, p: char): (r: Result<seq<Token>, ParseError>)
    ensures r.Ok? <==> c != [] && c[0] == Punct(p)
    ensures r.Ok? ==> r.value == c[1..]
    ensures r.Err? ==> r.error == ExpectedPunct(p)
  {
    if c != [] && c[0] == Punct(p) then Ok(c[1..]) else Err(ExpectedPunct(p))
  }

  /** skip_parenthesis: enter a parenthesised group; returns the cursor on
      its arguments and the cursor after the group. */
  function SkipParenthesis(c: seq<Token>): (r: Result<(seq<Token>, seq<Token>), ParseError>)
    ensures r.Ok? <==> c != [] && c[0].Group? && c[0].delim == Parenthesis
    ensures r.Ok? ==> r.value.0 == c[0].inner && r.value.1 == c[1..]
    ensures r.Err? ==> r.error == ExpectedParenthesis
  {
    if c != [] && c[0].Group? && c[0].delim == Parenthesis then Ok((c[0].inner, c[1..]))
    else Err(ExpectedParenthesis)
  }

  // ---------------------------------------------------------------------
  // Decimal text, as read by Rust's `str::parse::<u32>`.

  const U32_MAX: nat := 0xFFFF_FFFF

  predicate IsDigit(c: char)
  {
    '0' <= c <= '9'
  }

  predicate AllDigits(s: string)
  {
    forall i :: 0 <= i < |s| ==> IsDigit(s[i])
  }

  function DigitsValue(s: string): nat
    requires AllDigits(s)
  {
    if s == [] then 0 else DigitsValue(s[..|s| - 1]) * 10 + (s[|s| - 1] as int - '0' as int)
  }

  /** `str::parse::<u32>`: an optional leading '+', then one or more decimal
      digits whose value fits in 32 bits; anything else fails. */
  function ParseU32(s: string): (r: Option<nat>)
    ensures r.Some? ==> r.value <= U32_MAX
    ensures r.Some? ==> s != [] && s[0] != '-'
  {
    if s == [] then None
    else
      var digits := if s[0] == '+' then s[1..] else s;
      if digits != [] && AllDigits(digits) && DigitsValue(digits) <= U32_MAX
      then Some(DigitsValue(digits))
      else None
  }

  /** The decimal text of `n`, as a literal token or an environment value
      would carry it. */
  function Decimal(n: nat): (s: string)
  {
    if n < 10 then [('0' as int + n) as char]
    else Decimal(n / 10) + [('0' as int + n % 10) as char]
  }

  lemma {:induction false} DecimalDigits(n: nat)
    ensures Decimal(n) != [] && AllDigits(Decimal(n)) && DigitsValue(Decimal(n)) == n
  {
    if n >= 10 {
      DecimalDigits(n / 10);
      var s := Decimal(n);
      assert s[..|s| - 1] == Decimal(n / 10);
    }
  }

  /** Printing a 32-bit value in decimal and parsing it back gives the value. */
  lemma DecimalRoundTrip(n: nat)
    requires n <= U32_MAX
    ensures ParseU32(Decimal(n)) == Some(n)
  {
    DecimalDigits(n);
  }
}
