/** The parser of pump.py: a recursive descent over a shared token list, read against the token lists
    that syntax trees print to. Positions in the file and the Python form of expressions are left out. */
module PumpParser {
  import opened CStrings

  datatype Kind =
    | KVar | KElif | KElse | KFor | KIf | KRange | KDollarId | KLiteralDollar | KDollar | KOpen | KClose
    | KCode | KId | KEq | KExp | KDots

  datatype Token = Token(kind: Kind, value: string)

  /** `not value.strip()` */
  predicate Blank(value: string) {
    forall i | 0 <= i < |value| :: value[i] in {' ', '\t', '\n', '\r', '\U{0B}', '\U{0C}'}
  }

  datatype Node =
    | Code(atoms: seq<Node>)
    | Var(id: Token, body: Node)
    | Range(id: Token, exp1: Token, exp2: Token)
    | For(id: Token, sep: Option<Token>, code: Node)
    | If(exp: Token, thenBranch: Node, elseBranch: Option<Node>)
    | RawCode(token: Token)
    | LiteralDollar(token: Token)
    | Exp(token: Token)

  /** An exit with an error message, and a Python exception on an exhausted list, are both `Err`. */
  datatype Parsed<T> = Ok(node: T, rest: seq<Token>) | Err

  // ---------------------------------------------------------------- the parser on token sequences

  predicate Starts(ts: seq<Token>, kinds: seq<Kind>) {
    |kinds| <= |ts| && forall i | 0 <= i < |kinds| :: ts[i].kind == kinds[i]
  }

  /** `Pop('[[')`, a code node, `Pop(']]')`. */
  function ParseBracketed(ts: seq<Token>): (r: Parsed<Node>)
    ensures r.Ok? ==> |r.rest| < |ts|
    decreases |ts|, 0
  {
    if !Starts(ts, [KOpen]) then Err
    else match ParseCode(ts[1..])
      case Err => Err
      case Ok(atoms, rest) => if Starts(rest, [KClose]) then Ok(Code(atoms), rest[1..]) else Err
  }

  function ParseElse(ts: seq<Token>): (r: Parsed<Option<Node>>)
    ensures r.Ok? ==> |r.rest| <= |ts|
    decreases |ts|, 1
  {
    if ts == [] then Ok(None, ts)
    else if ts[0].kind == KElse then
      match ParseBracketed(ts[1..])
      case Err => Err
      case Ok(code, rest) => Ok(Some(code), rest)
    else if ts[0].kind == KElif then
      if !Starts(ts[1..], [KCode]) then Err
      else match ParseBracketed(ts[2..])
        case Err => Err
        case Ok(code, rest) =>
          match ParseElse(rest)
          case Err => Err
          case Ok(inner, rest') => Ok(Some(Code([If(ts[1], code, inner)])), rest')
    else if Blank(ts[0].value) then
      if ts[0].kind == KCode then ParseElse(ts[1..]) else Err
    else Ok(None, ts)
  }

  /** After `$var`. */
  function ParseVar(ts: seq<Token>): (r: Parsed<Node>)
    ensures r.Ok? ==> |r.rest| <= |ts|
    decreases |ts|, 1
  {
    if !Starts(ts, [KId, KEq]) || |ts| == 2 then Err
    else if ts[2].kind == KExp then Ok(Var(ts[0], Exp(ts[2])), ts[3..])
    else match ParseBracketed(ts[2..])
      case Err => Err
      case Ok(code, rest) => Ok(Var(ts[0], code), rest)
  }

  /** After `$for`. */
  function ParseFor(ts: seq<Token>): (r: Parsed<Node>)
    ensures r.Ok? ==> |r.rest| <= |ts|
    decreases |ts|, 1
  {
    if !Starts(ts, [KId]) || |ts| == 1 then Err
    else
      var sep := if ts[1].kind == KCode then Some(ts[1]) else None;
      match ParseBracketed(if sep.Some? then ts[2..] else ts[1..])
      case Err => Err
      case Ok(code, rest) => Ok(For(ts[0], sep, code), rest)
  }

  /** After `$if`. */
  function ParseIf(ts: seq<Token>): (r: Parsed<Node>)
    ensures r.Ok? ==> |r.rest| <= |ts|
    decreases |ts|, 1
  {
    if !Starts(ts, [KCode]) then Err
    else match ParseBracketed(ts[1..])
      case Err => Err
      case Ok(code, rest) =>
        match ParseElse(rest)
        case Err => Err
        case Ok(els, rest') => Ok(If(ts[0], code, els), rest')
  }

  /** After `$range`. */
  function ParseRange(ts: seq<Token>): (r: Parsed<Node>)
    ensures r.Ok? ==> |r.rest| <= |ts|
  {
    if Starts(ts, [KId, KExp, KDots, KExp]) then Ok(Range(ts[0], ts[1], ts[3]), ts[4..]) else Err
  }

  function Found(r: Parsed<Node>): Parsed<Option<Node>> {
    match r
    case Err => Err
    case Ok(node, rest) => Ok(Some(node), rest)
  }

  /** None, with the token put back, where no atomic code begins. */
  function ParseAtomic(ts: seq<Token>): (r: Parsed<Option<Node>>)
    requires ts != []
    ensures r.Ok? ==> if r.node.Some? then |r.rest| < |ts| else r.rest == ts
    decreases |ts|, 2
  {
    var head, tail := ts[0], ts[1..];
    match head.kind
    case KCode => Ok(Some(RawCode(head)), tail)
    case KVar => Found(ParseVar(tail))
    case KFor => Found(ParseFor(tail))
    case KIf => Found(ParseIf(tail))
    case KRange => Found(ParseRange(tail))
    case KDollarId => Ok(Some(Exp(Token(KId, if head.value == "" then "" else head.value[1..]))), tail)
    case KLiteralDollar => Ok(Some(LiteralDollar(head)), tail)
    case KDollar => if Starts(tail, [KExp]) then Ok(Some(Exp(tail[0])), tail[1..]) else Err
    case KOpen => Found(ParseBracketed(ts))
    case _ => Ok(None, ts)
  }

  function ParseCode(ts: seq<Token>): (r: Parsed<seq<Node>>)
    ensures r.Ok? ==> |r.rest| <= |ts|
    decreases |ts|, 3
  {
    if ts == [] then Ok([], [])
    else match ParseAtomic(ts)
      case Err => Err
      case Ok(None, rest) => Ok([], rest)
      case Ok(Some(atom), rest) =>
        match ParseCode(rest)
        case Err => Err
        case Ok(atoms, rest') => Ok([atom] + atoms, rest')
  }

  // ---------------------------------------------------------------- the parser on the shared list

  class TokenList {
    var tokens: seq<Token>

    constructor (ts: seq<Token>)
      ensures tokens == ts
    {
      tokens := ts;
    }

    /** Removes the first token and checks its kind; None stands for the error exits. */
    method Pop(kind: Option<Kind>) returns (token: Option<Token>)
      modifies this
      ensures token.Some? <==> old(tokens) != [] && (kind.Some? ==> old(tokens)[0].kind == kind.value)
      ensures token.Some? ==> token.value == old(tokens)[0] && tokens == old(tokens)[1..]
    {
      if tokens == [] {
        return None;
      }
      var head := tokens[0];
      tokens := tokens[1..];
      return if kind.Some? && head.kind != kind.value then None else Some(head);
    }

    method PushFront(token: Token)
      modifies this
      ensures tokens == [token] + old(tokens)
    {
      tokens := [token] + tokens;
    }

    method Peek() returns (token: Option<Token>)
      ensures token == if tokens == [] then None else Some(tokens[0])
    {
      return if tokens == [] then None else Some(tokens[0]);
    }
  }

  /** The outcome of a parse that consumed part of the list. */
  ghost predicate Agrees<T>(r: Option<T>, after: seq<Token>, spec: Parsed<T>) {
    match r
    case None => spec.Err?
    case Some(node) => spec == Ok(node, after)
  }

  method ParseBracketedNode(tokens: TokenList) returns (r: Option<Node>)
    modifies tokens
    ensures Agrees(r, tokens.tokens, ParseBracketed(old(tokens.tokens)))
    decreases |tokens.tokens|, 0
  {
    var open := tokens.Pop(Some(KOpen));
    if open.None? {
      return None;
    }
    var code := ParseCodeNode(tokens);
    if code.None? {
      return None;
    }
    var close := tokens.Pop(Some(KClose));
    return if close.None? then None else Some(Code(code.value));
  }

  method ParseElseNode(tokens: TokenList) returns (r: Option<Option<Node>>)
    modifies tokens
    ensures Agrees(r, tokens.tokens, ParseElse(old(tokens.tokens)))
    decreases |tokens.tokens|, 1
  {
    var next := tokens.Peek();
    if next.None? {
      return Some(None);
    }
    if next.value.kind == KElse {
      var _ := tokens.Pop(Some(KElse));
      var code := ParseBracketedNode(tokens);
      return if code.None? then None else Some(Some(code.value));
    } else if next.value.kind == KElif {
      var _ := tokens.Pop(Some(KElif));
      var exp := tokens.Pop(Some(KCode));
      if exp.None? {
        return None;
      }
      var code := ParseBracketedNode(tokens);
      if code.None? {
        return None;
      }
      var inner := ParseElseNode(tokens);
      return if inner.None? then None else Some(Some(Code([If(exp.value, code.value, inner.value)])));
    } else if Blank(next.value.value) {
      var blank := tokens.Pop(Some(KCode));
      if blank.None? {
        return None;
      }
      r := ParseElseNode(tokens);
    } else {
      return Some(None);
    }
  }

  method ParseVarNode(tokens: TokenList) returns (r: Option<Node>)
    modifies tokens
    ensures Agrees(r, tokens.tokens, ParseVar(old(tokens.tokens)))
    decreases |tokens.tokens|, 1
  {
    ghost var ts := tokens.tokens;
    var id := tokens.Pop(Some(KId));
    if id.None? { return None; }
    var eq := tokens.Pop(Some(KEq));
    if eq.None? { return None; }
    var next := tokens.Peek();
    if next.None? { return None; }
    assert tokens.tokens == ts[2..];
    if next.value.kind == KExp {
      var exp := tokens.Pop(None);
      return Some(Var(id.value, Exp(exp.value)));
    }
    var code := ParseBracketedNode(tokens);
    return if code.None? then None else Some(Var(id.value, code.value));
  }

  method ParseForNode(tokens: TokenList) returns (r: Option<Node>)
    modifies tokens
    ensures Agrees(r, tokens.tokens, ParseFor(old(tokens.tokens)))
    decreases |tokens.tokens|, 1
  {
    ghost var ts := tokens.tokens;
    var id := tokens.Pop(Some(KId));
    if id.None? { return None; }
    var next := tokens.Peek();
    if next.None? { return None; }
    var sep := None;
    if next.value.kind == KCode {
      sep := tokens.Pop(Some(KCode));
    }
    assert tokens.tokens == if sep.Some? then ts[2..] else ts[1..];
    var code := ParseBracketedNode(tokens);
    return if code.None? then None else Some(For(id.value, sep, code.value));
  }

  method ParseIfNode(tokens: TokenList) returns (r: Option<Node>)
    modifies tokens
    ensures Agrees(r, tokens.tokens, ParseIf(old(tokens.tokens)))
    decreases |tokens.tokens|, 1
  {
    var exp := tokens.Pop(Some(KCode));
    if exp.None? { return None; }
    var code := ParseBracketedNode(tokens);
    if code.None? { return None; }
    var els := ParseElseNode(tokens);
    return if els.None? then None else Some(If(exp.value, code.value, els.value));
  }

  method ParseRangeNode(tokens: TokenList) returns (r: Option<Node>)
    modifies tokens
    ensures Agrees(r, tokens.tokens, ParseRange(old(tokens.tokens)))
  {
    ghost var ts := tokens.tokens;
    var id := tokens.Pop(Some(KId));
    if id.None? { return None; }
    var exp1 := tokens.Pop(Some(KExp));
    if exp1.None? { return None; }
    assert tokens.tokens == ts[2..];
    var dots := tokens.Pop(Some(KDots));
    if dots.None? { return None; }
    var exp2 := tokens.Pop(Some(KExp));
    if exp2.None? { return None; }
    assert tokens.tokens == ts[2..][2..] == ts[4..];
    return Some(Range(id.value, exp1.value, exp2.value));
  }

  method ParseAtomicCodeNode(tokens: TokenList) returns (r: Option<Option<Node>>)
    requires tokens.tokens != []
    modifies tokens
    ensures Agrees(r, tokens.tokens, ParseAtomic(old(tokens.tokens)))
    decreases |tokens.tokens|, 2
  {
    ghost var ts := tokens.tokens;
    var popped := tokens.Pop(None);
    var head := popped.value;
    var node: Option<Node>;
    match head.kind {
      case KCode =>
        node := Some(RawCode(head));
      case KVar =>
        node := ParseVarNode(tokens);
      case KFor =>
        node := ParseForNode(tokens);
      case KIf =>
        node := ParseIfNode(tokens);
      case KRange =>
        node := ParseRangeNode(tokens);
      case KDollarId =>
        node := Some(Exp(Token(KId, if head.value == "" then "" else head.value[1..])));
      case KLiteralDollar =>
        node := Some(LiteralDollar(head));
      case KDollar =>
        var exp := tokens.Pop(Some(KExp));
        node := if exp.None? then None else Some(Exp(exp.value));
      case KOpen =>
        var code := ParseCodeNode(tokens);
        node := None;
        if code.Some? {
          var close := tokens.Pop(Some(KClose));
          node := if close.None? then None else Some(Code(code.value));
        }
      case _ =>
        tokens.PushFront(head);
        assert tokens.tokens == ts;
        return Some(None);
    }
    return if node.None? then None else Some(Some(node.value));
  }

  method ParseCodeNode(tokens: TokenList) returns (r: Option<seq<Node>>)
    modifies tokens
    ensures Agrees(r, tokens.tokens, ParseCode(old(tokens.tokens)))
    decreases |tokens.tokens|, 3
  {
    var atoms: seq<Node> := [];
    ghost var ts := tokens.tokens;
    assert forall more: seq<Node> :: atoms + more == more;
    while true
      invariant |tokens.tokens| <= |ts|
      invariant match ParseCode(tokens.tokens)
                case Err => ParseCode(ts).Err?
                case Ok(more, rest) => ParseCode(ts) == Ok(atoms + more, rest)
      decreases |tokens.tokens|
    {
      if tokens.tokens == [] {
        break;
      }
      var atom := ParseAtomicCodeNode(tokens);
      if atom.None? {
        return None;
      }
      if atom.value.Some? {
        ghost var before := atoms;
        atoms := atoms + [atom.value.value];
        if ParseCode(tokens.tokens).Ok? {
          Associate(before, [atom.value.value], ParseCode(tokens.tokens).node);
        }
      } else {
        break;
      }
    }
    assert atoms + [] == atoms;
    return Some(atoms);
  }

  // ---------------------------------------------------------------- printing a tree

  function Fixed(kind: Kind): Token {
    Token(kind, match kind
                case KVar => "$var " case KElif => "$elif " case KElse => "$else " case KFor => "$for "
                case KIf => "$if " case KRange => "$range " case KDollar => "$" case KOpen => "[["
                case KClose => "]]" case KEq => "=" case KDots => ".." case _ => "")
  }

  /** The kinds and shapes the parser builds nodes from. */
  ghost predicate WellFormed(n: Node)
    decreases n, 1
  {
    match n
    case Code(atoms) => AllWellFormed(atoms)
    case Var(id, body) =>
      id.kind == KId && ((body.Exp? && body.token.kind == KExp) || (body.Code? && WellFormed(body)))
    case Range(id, exp1, exp2) => id.kind == KId && exp1.kind == KExp && exp2.kind == KExp
    case For(id, sep, code) =>
      id.kind == KId && (sep.Some? ==> sep.value.kind == KCode) && code.Code? && WellFormed(code)
    case If(exp, thenBranch, els) =>
      && exp.kind == KCode && thenBranch.Code? && WellFormed(thenBranch)
      && (els.Some? ==> els.value.Code? && WellFormed(els.value))
    case RawCode(token) => token.kind == KCode
    case LiteralDollar(token) => token.kind == KLiteralDollar && !Blank(token.value)
    case Exp(token) => token.kind == KId || token.kind == KExp
  }

  ghost predicate AllWellFormed(atoms: seq<Node>)
    decreases atoms, 0
  {
    forall i | 0 <= i < |atoms| :: WellFormed(atoms[i])
  }

  /** The tokens of a node where an atomic code is wanted. */
  ghost function Print(n: Node): (ts: seq<Token>)
    requires WellFormed(n)
    ensures ts != []
    decreases n, 2
  {
    match n
    case Code(_) => Bracketed(n)
    case Var(id, body) =>
      [Fixed(KVar), id, Fixed(KEq)] + if body.Exp? then [body.token] else Bracketed(body)
    case Range(id, exp1, exp2) => [Fixed(KRange), id, exp1, Fixed(KDots), exp2]
    case For(id, sep, code) => [Fixed(KFor), id] + (if sep.Some? then [sep.value] else []) + Bracketed(code)
    case If(exp, thenBranch, els) =>
      [Fixed(KIf), exp] + Bracketed(thenBranch) + PrintElse(els)
    case RawCode(token) => [token]
    case LiteralDollar(token) => [token]
    case Exp(token) =>
      if token.kind == KId then [Token(KDollarId, "$" + token.value)] else [Fixed(KDollar), token]
  }

  ghost function Bracketed(code: Node): (ts: seq<Token>)
    requires code.Code? && WellFormed(code)
    ensures ts != []
    decreases code, 1
  {
    [Fixed(KOpen)] + PrintAll(code.atoms) + [Fixed(KClose)]
  }

  /** A branch that is one `if` is printed as `$elif`, any other as `$else`. */
  ghost function PrintElse(els: Option<Node>): seq<Token>
    requires els.Some? ==> els.value.Code? && WellFormed(els.value)
    decreases els, 2
  {
    if els.None? then []
    else if IsElif(els.value) then
      var inner := els.value.atoms[0];
      assert AllWellFormed(els.value.atoms) && WellFormed(inner);
      [Fixed(KElif), inner.exp] + Bracketed(inner.thenBranch) + PrintElse(inner.elseBranch)
    else [Fixed(KElse)] + Bracketed(els.value)
  }

  ghost function PrintAll(atoms: seq<Node>): seq<Token>
    requires AllWellFormed(atoms)
    decreases atoms, 0
  {
    if atoms == [] then [] else Print(atoms[0]) + PrintAll(atoms[1..])
  }

  predicate IsElif(code: Node) { code.Code? && |code.atoms| == 1 && code.atoms[0].If? }

  // ---------------------------------------------------------------- what the parser makes of it

  /** An `if` whose chain of `$elif`s has no `$else` at its end. */
  predicate ElseLess(n: Node) { n.If? && OpenEnd(n.elseBranch) }

  predicate OpenEnd(els: Option<Node>) {
    els.None? || (IsElif(els.value) && OpenEnd(els.value.atoms[0].elseBranch))
  }

  predicate IsBlankRaw(n: Node) { n.RawCode? && Blank(n.token.value) }

  /** The number of blank raw atoms at the front. */
  function BlankRun(atoms: seq<Node>): (k: nat)
    ensures k <= |atoms|
    ensures forall i | 0 <= i < k :: IsBlankRaw(atoms[i])
    ensures k < |atoms| ==> !IsBlankRaw(atoms[k])
  {
    if atoms == [] || !IsBlankRaw(atoms[0]) then 0 else 1 + BlankRun(atoms[1..])
  }

  /** The tree without the blank raw code that directly follows an `if` without `else`. */
  function Swallow(n: Node): (r: Node)
    ensures n.Code? <==> r.Code?
    decreases n, 1
  {
    match n
    case Code(atoms) => Code(SwallowAll(atoms))
    case Var(id, body) => Var(id, Swallow(body))
    case For(id, sep, code) => For(id, sep, Swallow(code))
    case If(exp, thenBranch, els) =>
      If(exp, Swallow(thenBranch), if els.None? then None else Some(Swallow(els.value)))
    case _ => n
  }

  function SwallowAll(atoms: seq<Node>): (r: seq<Node>)
    ensures |r| <= |atoms|
    decreases atoms, 0
  {
    if atoms == [] then []
    else
      var rest := atoms[1..];
      var k := if ElseLess(atoms[0]) then BlankRun(rest) else 0;
      [Swallow(atoms[0])] + SwallowAll(rest[k..])
  }

  /** No code list has blank raw code directly after an `if` without `else`. */
  ghost predicate NothingSwallowed(n: Node)
    decreases n, 1
  {
    match n
    case Code(atoms) => NothingSwallowedIn(atoms)
    case Var(id, body) => NothingSwallowed(body)
    case For(id, sep, code) => NothingSwallowed(code)
    case If(exp, thenBranch, els) => NothingSwallowed(thenBranch) && (els.Some? ==> NothingSwallowed(els.value))
    case _ => true
  }

  ghost predicate NothingSwallowedIn(atoms: seq<Node>)
    decreases atoms, 0
  {
    && (forall i | 0 <= i < |atoms| :: NothingSwallowed(atoms[i]))
    && (forall i | 0 <= i < |atoms| - 1 :: ElseLess(atoms[i]) ==> !IsBlankRaw(atoms[i + 1]))
  }

  // ---------------------------------------------------------------- the round trip

  function SkipBlank(ts: seq<Token>): seq<Token> {
    if ts != [] && ts[0].kind == KCode && Blank(ts[0].value) then SkipBlank(ts[1..]) else ts
  }

  /** No `$else` or `$elif` follows, blank code left aside. */
  ghost predicate NoElseFollows(rest: seq<Token>) {
    var r := SkipBlank(rest);
    r == [] || (r[0].kind !in {KElse, KElif} && !Blank(r[0].value))
  }

  /** The end of the list, or of the block. */
  ghost predicate Ends(rest: seq<Token>) { rest == [] || rest[0] == Fixed(KClose) }

  lemma NoElse(rest: seq<Token>)
    requires NoElseFollows(rest)
    ensures ParseElse(rest) == Ok(None, SkipBlank(rest))
  {
    if rest != [] && rest[0].kind == KCode && Blank(rest[0].value) {
      NoElse(rest[1..]);
    }
  }

  /** Code of spaces and of characters from tab to carriage return is passed over in the search for an else branch. */
  lemma SpacePassedOver(text: string, ts: seq<Token>)
    requires forall i | 0 <= i < |text| :: text[i] as int == 32 || 9 <= text[i] as int <= 13
    ensures ParseElse([Token(KCode, text)] + ts) == ParseElse(ts)
  {
    var all := [Token(KCode, text)] + ts;
    assert Blank(text) && all[0].value == text && all[1..] == ts;
  }

  /** Code with any other character ends the search, and stays where it is. */
  lemma OtherCodeStays(text: string, i: nat, ts: seq<Token>)
    requires i < |text| && text[i] as int != 32 && !(9 <= text[i] as int <= 13)
    ensures ParseElse([Token(KCode, text)] + ts) == Ok(None, [Token(KCode, text)] + ts)
  {
    var all := [Token(KCode, text)] + ts;
    assert !Blank(text) && all[0].value == text;
  }

  lemma FixedNotBlank(kind: Kind)
    requires Fixed(kind).value != ""
    ensures !Blank(Fixed(kind).value)
  {
    assert Fixed(kind).value[0] in {'$', '[', ']', '=', '.'};
  }

  /** The first token of a node. */
  ghost function Head(n: Node): Token
    requires WellFormed(n)
  {
    match n
    case Code(_) => Fixed(KOpen)
    case Var(_, _) => Fixed(KVar)
    case For(_, _, _) => Fixed(KFor)
    case If(_, _, _) => Fixed(KIf)
    case Range(_, _, _) => Fixed(KRange)
    case RawCode(token) => token
    case LiteralDollar(token) => token
    case Exp(token) => if token.kind == KId then Token(KDollarId, "$" + token.value) else Fixed(KDollar)
  }

  lemma HeadFacts(n: Node)
    requires WellFormed(n)
    ensures Head(n).kind !in {KElse, KElif, KClose}
    ensures Blank(Head(n).value) <==> IsBlankRaw(n)
    ensures IsBlankRaw(n) ==> Head(n).kind == KCode && Head(n) == n.token
  {
    if n.Exp? && n.token.kind == KId {
      assert Head(n).value[0] == '$';
    } else if !n.RawCode? && !n.LiteralDollar? {
      FixedNotBlank(Head(n).kind);
    }
  }

  lemma PrintHead(n: Node)
    requires WellFormed(n)
    ensures Print(n)[0] == Head(n)
    ensures IsBlankRaw(n) ==> Print(n) == [Head(n)]
  {
  }

  lemma SkipRun(atoms: seq<Node>, rest: seq<Token>)
    requires AllWellFormed(atoms) && Ends(rest)
    ensures AllWellFormed(atoms[BlankRun(atoms)..])
    ensures SkipBlank(PrintAll(atoms) + rest) == PrintAll(atoms[BlankRun(atoms)..]) + rest
    ensures NoElseFollows(PrintAll(atoms) + rest)
  {
    if atoms == [] {
      assert PrintAll(atoms) + rest == rest;
      FixedNotBlank(KClose);
    } else {
      var n, more := atoms[0], PrintAll(atoms[1..]) + rest;
      PrintHead(n);
      HeadFacts(n);
      Associate(Print(n), PrintAll(atoms[1..]), rest);
      if IsBlankRaw(n) {
        SkipRun(atoms[1..], rest);
        SkipOne(n.token, more);
        assert atoms[1..][BlankRun(atoms[1..])..] == atoms[BlankRun(atoms)..];
      } else {
        StopAt(Print(n) + more);
        assert atoms[0..] == atoms;
      }
    }
  }

  lemma SkipOne(t: Token, more: seq<Token>)
    requires t.kind == KCode && Blank(t.value)
    ensures SkipBlank([t] + more) == SkipBlank(more)
  {
    assert ([t] + more)[1..] == more;
  }

  lemma StopAt(ts: seq<Token>)
    requires ts != [] && !Blank(ts[0].value) && ts[0].kind !in {KElse, KElif}
    ensures SkipBlank(ts) == ts && NoElseFollows(ts)
  {
  }

  // One step of the parser, on tokens whose rest is known to parse.

  lemma StepVar(id: Token, ts: seq<Token>, code: Node, rest: seq<Token>)
    requires id.kind == KId && ParseBracketed(ts) == Ok(code, rest)
    ensures ParseAtomic([Fixed(KVar), id, Fixed(KEq)] + ts) == Ok(Some(Var(id, code)), rest)
  {
    var all := [Fixed(KVar), id, Fixed(KEq)] + ts;
    assert all[1..] == [id, Fixed(KEq)] + ts;
    assert all[1..][2..] == ts;
  }

  lemma StepVarExp(id: Token, exp: Token, rest: seq<Token>)
    requires id.kind == KId && exp.kind == KExp
    ensures ParseAtomic([Fixed(KVar), id, Fixed(KEq), exp] + rest) == Ok(Some(Var(id, Exp(exp))), rest)
  {
    var all := [Fixed(KVar), id, Fixed(KEq), exp] + rest;
    assert all[1..] == [id, Fixed(KEq), exp] + rest;
    assert all[1..][3..] == rest;
  }

  lemma StepFor(id: Token, sep: Option<Token>, ts: seq<Token>, code: Node, rest: seq<Token>)
    requires id.kind == KId && (sep.Some? ==> sep.value.kind == KCode) && ParseBracketed(ts) == Ok(code, rest)
    ensures ParseAtomic([Fixed(KFor), id] + (if sep.Some? then [sep.value] else []) + ts)
         == Ok(Some(For(id, sep, code)), rest)
  {
    var all := [Fixed(KFor), id] + (if sep.Some? then [sep.value] else []) + ts;
    assert all[1..] == [id] + (if sep.Some? then [sep.value] else []) + ts;
    assert all[1..][if sep.Some? then 2 else 1..] == ts;
  }

  lemma StepIf(exp: Token, ts: seq<Token>, code: Node, more: seq<Token>, els: Option<Node>, rest: seq<Token>)
    requires exp.kind == KCode && ParseBracketed(ts) == Ok(code, more) && ParseElse(more) == Ok(els, rest)
    ensures ParseAtomic([Fixed(KIf), exp] + ts) == Ok(Some(If(exp, code, els)), rest)
  {
    var all := [Fixed(KIf), exp] + ts;
    assert all[1..] == [exp] + ts;
    assert all[1..][1..] == ts;
  }

  lemma StepElif(exp: Token, ts: seq<Token>, code: Node, more: seq<Token>, els: Option<Node>, rest: seq<Token>)
    requires exp.kind == KCode && ParseBracketed(ts) == Ok(code, more) && ParseElse(more) == Ok(els, rest)
    ensures ParseElse([Fixed(KElif), exp] + ts) == Ok(Some(Code([If(exp, code, els)])), rest)
  {
    var all := [Fixed(KElif), exp] + ts;
    assert all[1..] == [exp] + ts;
    assert all[2..] == ts;
  }

  lemma StepElse(ts: seq<Token>, code: Node, rest: seq<Token>)
    requires ParseBracketed(ts) == Ok(code, rest)
    ensures ParseElse([Fixed(KElse)] + ts) == Ok(Some(code), rest)
  {
    assert ([Fixed(KElse)] + ts)[1..] == ts;
  }

  lemma StepRange(id: Token, exp1: Token, exp2: Token, rest: seq<Token>)
    requires id.kind == KId && exp1.kind == KExp && exp2.kind == KExp
    ensures ParseAtomic([Fixed(KRange), id, exp1, Fixed(KDots), exp2] + rest) == Ok(Some(Range(id, exp1, exp2)), rest)
  {
    var all := [Fixed(KRange), id, exp1, Fixed(KDots), exp2] + rest;
    assert all[1..] == [id, exp1, Fixed(KDots), exp2] + rest;
    assert all[1..][4..] == rest;
  }

  lemma StepExp(token: Token, rest: seq<Token>)
    requires token.kind == KId || token.kind == KExp
    ensures ParseAtomic(Print(Exp(token)) + rest) == Ok(Some(Exp(token)), rest)
  {
    var all := Print(Exp(token)) + rest;
    if token.kind == KId {
      assert all[1..] == rest;
      assert ("$" + token.value)[1..] == token.value;
      assert Token(KId, token.value) == token;
    } else {
      assert all[1..] == [token] + rest;
      assert all[1..][1..] == rest;
    }
  }

  lemma {:induction false} ParsePrintedAll(atoms: seq<Node>, rest: seq<Token>)
    requires AllWellFormed(atoms) && Ends(rest)
    ensures ParseCode(PrintAll(atoms) + rest) == Ok(SwallowAll(atoms), rest)
    decreases atoms, 0
  {
    if atoms == [] {
      assert PrintAll(atoms) + rest == rest;
    } else {
      var n, more := atoms[0], atoms[1..];
      var tail := PrintAll(more) + rest;
      SkipRun(more, rest);
      ParsePrinted(n, tail);
      Associate(Print(n), PrintAll(more), rest);
      var k := if ElseLess(n) then BlankRun(more) else 0;
      assert more[0..] == more;
      ParsePrintedAll(more[k..], rest);
    }
  }

  lemma {:induction false} ParsePrintedBlock(code: Node, rest: seq<Token>)
    requires code.Code? && WellFormed(code)
    ensures ParseBracketed(Bracketed(code) + rest) == Ok(Swallow(code), rest)
    decreases code, 1
  {
    var after := [Fixed(KClose)] + rest;
    ParsePrintedAll(code.atoms, after);
    var ts := Bracketed(code) + rest;
    assert ts[1..] == PrintAll(code.atoms) + after;
    assert after[1..] == rest;
  }

  lemma {:induction false} ParsePrintedElse(els: Option<Node>, rest: seq<Token>)
    requires els.Some? ==> els.value.Code? && WellFormed(els.value)
    requires OpenEnd(els) ==> NoElseFollows(rest)
    ensures ParseElse(PrintElse(els) + rest)
         == Ok(if els.None? then None else Some(Swallow(els.value)), if OpenEnd(els) then SkipBlank(rest) else rest)
    decreases els, 2
  {
    if els.None? {
      assert PrintElse(els) + rest == rest;
      NoElse(rest);
    } else if IsElif(els.value) {
      var inner := els.value.atoms[0];
      assert AllWellFormed(els.value.atoms) && WellFormed(inner);
      var more := PrintElse(inner.elseBranch) + rest;
      ParsePrintedBlock(inner.thenBranch, more);
      ParsePrintedElse(inner.elseBranch, rest);
      var innerElse := if inner.elseBranch.None? then None else Some(Swallow(inner.elseBranch.value));
      StepElif(inner.exp, Bracketed(inner.thenBranch) + more, Swallow(inner.thenBranch), more, innerElse,
               if OpenEnd(els) then SkipBlank(rest) else rest);
      FourParts([Fixed(KElif), inner.exp], Bracketed(inner.thenBranch), PrintElse(inner.elseBranch), rest);
      assert els.value.atoms == [inner];
      assert SwallowAll([inner]) == [Swallow(inner)];
    } else {
      ParsePrintedBlock(els.value, rest);
      StepElse(Bracketed(els.value) + rest, Swallow(els.value), rest);
      Associate([Fixed(KElse)], Bracketed(els.value), rest);
    }
  }

  lemma FourParts(a: seq<Token>, b: seq<Token>, c: seq<Token>, d: seq<Token>)
    ensures a + b + c + d == a + (b + (c + d))
  {
  }

  /** The tokens of a node parse to the node with the swallowed code gone, and to nothing beyond it but
      the blank code that an `if` without `else` swallows. */
  lemma {:induction false} ParsePrinted(n: Node, rest: seq<Token>)
    requires WellFormed(n)
    requires ElseLess(n) ==> NoElseFollows(rest)
    ensures ParseAtomic(Print(n) + rest) == Ok(Some(Swallow(n)), if ElseLess(n) then SkipBlank(rest) else rest)
    decreases n, 2
  {
    match n {
      case Code(_) =>
        ParsePrintedBlock(n, rest);
      case Var(id, body) =>
        if body.Exp? {
          StepVarExp(id, body.token, rest);
          assert [Fixed(KVar), id, Fixed(KEq)] + [body.token] == [Fixed(KVar), id, Fixed(KEq), body.token];
        } else {
          ParsePrintedBlock(body, rest);
          StepVar(id, Bracketed(body) + rest, Swallow(body), rest);
          Associate([Fixed(KVar), id, Fixed(KEq)], Bracketed(body), rest);
        }
      case For(id, sep, code) =>
        ParsePrintedBlock(code, rest);
        StepFor(id, sep, Bracketed(code) + rest, Swallow(code), rest);
        Associate([Fixed(KFor), id] + (if sep.Some? then [sep.value] else []), Bracketed(code), rest);
      case If(exp, thenBranch, els) =>
        ParsePrintedIf(n, rest);
      case Range(id, exp1, exp2) =>
        StepRange(id, exp1, exp2, rest);
      case RawCode(token) =>
        assert ([token] + rest)[1..] == rest;
      case LiteralDollar(token) =>
        assert ([token] + rest)[1..] == rest;
      case Exp(token) =>
        StepExp(token, rest);
    }
  }

  lemma {:induction false} ParsePrintedIf(n: Node, rest: seq<Token>)
    requires WellFormed(n) && n.If?
    requires ElseLess(n) ==> NoElseFollows(rest)
    ensures ParseAtomic(Print(n) + rest) == Ok(Some(Swallow(n)), if ElseLess(n) then SkipBlank(rest) else rest)
    decreases n, 1
  {
    var more := PrintElse(n.elseBranch) + rest;
    ParsePrintedBlock(n.thenBranch, more);
    ParsePrintedElse(n.elseBranch, rest);
    StepIf(n.exp, Bracketed(n.thenBranch) + more, Swallow(n.thenBranch), more,
           if n.elseBranch.None? then None else Some(Swallow(n.elseBranch.value)),
           if ElseLess(n) then SkipBlank(rest) else rest);
    FourParts([Fixed(KIf), n.exp], Bracketed(n.thenBranch), PrintElse(n.elseBranch), rest);
  }

  // ---------------------------------------------------------------- when nothing is swallowed

  lemma {:induction false} SwallowIdentity(n: Node)
    ensures Swallow(n) == n <==> NothingSwallowed(n)
    decreases n, 1
  {
    match n {
      case Code(atoms) => SwallowAllIdentity(atoms);
      case Var(id, body) => SwallowIdentity(body);
      case For(id, sep, code) => SwallowIdentity(code);
      case If(exp, thenBranch, els) =>
        SwallowIdentity(thenBranch);
        if els.Some? { SwallowIdentity(els.value); }
      case _ =>
    }
  }

  lemma {:induction false} SwallowAllIdentity(atoms: seq<Node>)
    ensures SwallowAll(atoms) == atoms <==> NothingSwallowedIn(atoms)
    decreases atoms, 0
  {
    if atoms != [] {
      var rest := atoms[1..];
      var k := if ElseLess(atoms[0]) then BlankRun(rest) else 0;
      SwallowIdentity(atoms[0]);
      SwallowAllIdentity(rest);
      assert rest[0..] == rest;
      assert atoms == [atoms[0]] + rest;
      NothingSwallowedCons(atoms);
    }
  }

  lemma NothingSwallowedCons(atoms: seq<Node>)
    requires atoms != []
    ensures NothingSwallowedIn(atoms) <==>
              NothingSwallowed(atoms[0]) && NothingSwallowedIn(atoms[1..]) &&
              (ElseLess(atoms[0]) ==> BlankRun(atoms[1..]) == 0)
  {
    var rest := atoms[1..];
    assert forall i | 0 <= i < |rest| :: rest[i] == atoms[i + 1];
    if NothingSwallowed(atoms[0]) && NothingSwallowedIn(rest) && (ElseLess(atoms[0]) ==> BlankRun(rest) == 0) {
      forall i | 0 <= i < |atoms| ensures NothingSwallowed(atoms[i]) {
        if i > 0 { assert NothingSwallowed(rest[i - 1]); }
      }
      forall i | 0 <= i < |atoms| - 1 && ElseLess(atoms[i]) ensures !IsBlankRaw(atoms[i + 1]) {
        if i > 0 { assert ElseLess(rest[i - 1]) && !IsBlankRaw(rest[i - 1 + 1]); }
      }
    }
    if NothingSwallowedIn(atoms) {
      forall i | 0 <= i < |rest| ensures NothingSwallowed(rest[i]) {
        assert NothingSwallowed(atoms[i + 1]);
      }
      forall i | 0 <= i < |rest| - 1 && ElseLess(rest[i]) ensures !IsBlankRaw(rest[i + 1]) {
        assert ElseLess(atoms[i + 1]) && !IsBlankRaw(atoms[i + 1 + 1]);
      }
    }
  }

  /** Every tree's token list is accepted to its end; the tree itself comes back if and only if no blank
      raw code directly follows an `if` without `else`. */
  lemma {:induction false} PrintParseRoundTrip(atoms: seq<Node>)
    requires AllWellFormed(atoms)
    ensures ParseCode(PrintAll(atoms)) == Ok(SwallowAll(atoms), [])
    ensures ParseCode(PrintAll(atoms)) == Ok(atoms, []) <==> NothingSwallowedIn(atoms)
  {
    ParsePrintedAll(atoms, []);
    assert PrintAll(atoms) + [] == PrintAll(atoms);
    SwallowAllIdentity(atoms);
  }
}
