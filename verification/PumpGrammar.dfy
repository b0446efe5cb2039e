/** The grammar of pump's token lists, stated apart from the parser: which words of tokens spell which syntax
    tree. A word is open when it ends in an `if` whose chain of `$elif`s has no `$else`; blank code behind an
    open word belongs to it. The parser accepts exactly these words, each with the one tree that it spells. */
module PumpGrammar {
  import opened CStrings
  import opened PumpParser

  // ---------------------------------------------------------------- the grammar

  ghost predicate SpellsBlock(code: Node, w: seq<Token>)
    decreases code, 1
  {
    && code.Code? && |w| >= 2 && w[0].kind == KOpen && w[|w| - 1].kind == KClose
    && SpellsAll(code.atoms, w[1..|w| - 1])
  }

  /** One word after the other; what follows an open word is not blank. */
  ghost predicate SpellsAll(atoms: seq<Node>, w: seq<Token>)
    decreases atoms, 0
  {
    if atoms == [] then w == []
    else exists k, open | 0 <= k <= |w| ::
      Spells(atoms[0], w[..k], open) && SpellsAll(atoms[1..], w[k..]) && (open ==> !BlankAhead(w[k..]))
  }

  ghost predicate Spells(n: Node, w: seq<Token>, open: bool)
    decreases n, 3
  {
    if n.If? then w != [] && w[0].kind == KIf && SpellsBranch(n, w[1..], open) else !open && SpellsPlain(n, w)
  }

  ghost predicate SpellsPlain(n: Node, w: seq<Token>)
    requires !n.If?
    decreases n, 2
  {
    match n
    case Code(_) => SpellsBlock(n, w)
    case Var(id, body) =>
      && |w| > 3 && w[0].kind == KVar && w[1] == id && id.kind == KId && w[2].kind == KEq
      && if body.Exp? then w[3..] == [body.token] && body.token.kind == KExp else SpellsBlock(body, w[3..])
    case Range(id, exp1, exp2) =>
      && |w| == 5 && w[0].kind == KRange && w[1] == id && w[2] == exp1 && w[3].kind == KDots && w[4] == exp2
      && id.kind == KId && exp1.kind == KExp && exp2.kind == KExp
    case For(id, sep, code) =>
      && |w| > 2 && w[0].kind == KFor && w[1] == id && id.kind == KId
      && if sep.None? then SpellsBlock(code, w[2..])
         else w[2] == sep.value && w[2].kind == KCode && SpellsBlock(code, w[3..])
    case RawCode(token) => w == [token] && token.kind == KCode
    case LiteralDollar(token) => w == [token] && token.kind == KLiteralDollar
    case Exp(token) =>
      || (|w| == 1 && w[0].kind == KDollarId && token == IdOf(w[0]))
      || (|w| == 2 && w[0].kind == KDollar && w[1] == token && token.kind == KExp)
  }

  /** The identifier in a token like `$name`. */
  function IdOf(t: Token): Token { Token(KId, if t.value == "" then "" else t.value[1..]) }

  /** The condition, its block, and what else there is. */
  ghost predicate SpellsBranch(n: Node, w: seq<Token>, open: bool)
    requires n.If?
    decreases n, 1
  {
    && w != [] && w[0] == n.exp && n.exp.kind == KCode
    && exists k | 1 <= k <= |w| :: SpellsBlock(n.thenBranch, w[1..k]) && SpellsElse(n.elseBranch, w[k..], open)
  }

  /** Blank code may come first. A branch that is one `if` may be spelled with `$elif` or with `$else`. */
  ghost predicate SpellsElse(els: Option<Node>, w: seq<Token>, open: bool)
    decreases els, 1, |w|
  {
    if w == [] then els.None? && open
    else
      || (w[0].kind == KCode && Blank(w[0].value) && SpellsElse(els, w[1..], open))
      || (w[0].kind == KElse && els.Some? && !open && SpellsBlock(els.value, w[1..]))
      || (w[0].kind == KElif && els.Some? && IsElif(els.value) && SpellsBranch(els.value.atoms[0], w[1..], open))
  }

  const BEGINS_NO_CODE := {KElif, KElse, KClose, KId, KEq, KExp, KDots}

  predicate BlankAhead(ts: seq<Token>) { ts != [] && Blank(ts[0].value) }

  // ---------------------------------------------------------------- putting words together

  lemma JoinBlock(open: Token, atoms: seq<Node>, w: seq<Token>, close: Token)
    requires open.kind == KOpen && close.kind == KClose && SpellsAll(atoms, w)
    ensures SpellsBlock(Code(atoms), [open] + w + [close])
  {
    var all := [open] + w + [close];
    assert |all| == |w| + 2 && all[0] == open && all[|w| + 1] == close;
    assert all[1..|all| - 1] == w;
  }

  lemma JoinAll(n: Node, w: seq<Token>, open: bool, atoms: seq<Node>, more: seq<Token>)
    requires Spells(n, w, open) && SpellsAll(atoms, more) && (open ==> !BlankAhead(more))
    ensures SpellsAll([n] + atoms, w + more)
  {
    var nodes, all, k := [n] + atoms, w + more, |w|;
    assert nodes[0] == n && nodes[1..] == atoms;
    assert all[..k] == w && all[k..] == more;
    assert Spells(nodes[0], all[..k], open) && SpellsAll(nodes[1..], all[k..]) && (open ==> !BlankAhead(all[k..]));
  }

  lemma JoinBranch(n: Node, block: seq<Token>, w: seq<Token>, open: bool)
    requires n.If? && n.exp.kind == KCode && SpellsBlock(n.thenBranch, block) && SpellsElse(n.elseBranch, w, open)
    ensures SpellsBranch(n, [n.exp] + block + w, open)
  {
    var all, k := [n.exp] + block + w, 1 + |block|;
    assert all[1..k] == block && all[k..] == w;
  }

  lemma Before(head: Token, w: seq<Token>, rest: seq<Token>)
    ensures ([head] + w)[0] == head && ([head] + w)[1..] == w
    ensures [head] + w + rest == [head] + (w + rest)
  {
  }

  lemma HeadAndTail(ts: seq<Token>)
    requires ts != []
    ensures ts == [ts[0]] + ts[1..]
  {
  }

  // ---------------------------------------------------------------- what is accepted is spelled

  lemma {:induction false} BlockSpelled(ts: seq<Token>) returns (w: seq<Token>)
    requires ParseBracketed(ts).Ok?
    ensures ts == w + ParseBracketed(ts).rest && SpellsBlock(ParseBracketed(ts).node, w)
    decreases |ts|, 0
  {
    var inner := AllSpelled(ts[1..]);
    var r := ParseCode(ts[1..]);
    JoinBlock(ts[0], r.node, inner, r.rest[0]);
    w := [ts[0]] + inner + [r.rest[0]];
    HeadAndTail(ts);
    HeadAndTail(r.rest);
    FourParts([ts[0]], inner, [r.rest[0]], r.rest[1..]);
  }

  /** Nothing that would belong to an open word is left behind it. */
  lemma {:induction false} ElseSpelled(ts: seq<Token>) returns (w: seq<Token>, open: bool)
    requires ParseElse(ts).Ok?
    ensures ts == w + ParseElse(ts).rest && SpellsElse(ParseElse(ts).node, w, open)
    ensures open ==> !BlankAhead(ParseElse(ts).rest)
    decreases |ts|, 1
  {
    w, open := [], true;
    if ts != [] {
      var head, tail, more := ts[0], ts[1..], [];
      HeadAndTail(ts);
      if head.kind == KElse {
        more := BlockSpelled(tail);
        w, open := [head] + more, false;
      } else if head.kind == KElif {
        assert ts[2..] == tail[1..];
        more, open := BranchSpelled(tail);
        w := [head] + more;
      } else if Blank(head.value) {
        more, open := ElseSpelled(tail);
        w := [head] + more;
      }
      Before(head, more, ParseElse(ts).rest);
    }
  }

  lemma {:induction false} BranchSpelled(ts: seq<Token>) returns (w: seq<Token>, open: bool)
    requires ParseIf(ts).Ok?
    ensures ts == w + ParseIf(ts).rest && SpellsBranch(ParseIf(ts).node, w, open)
    ensures open ==> !BlankAhead(ParseIf(ts).rest)
    decreases |ts|, 0
  {
    var block := BlockSpelled(ts[1..]);
    var r := ParseBracketed(ts[1..]);
    var more;
    more, open := ElseSpelled(r.rest);
    JoinBranch(ParseIf(ts).node, block, more, open);
    w := [ts[0]] + block + more;
    FourParts([ts[0]], block, more, ParseIf(ts).rest);
  }

  lemma {:induction false} VarSpelled(mark: Token, ts: seq<Token>) returns (w: seq<Token>)
    requires mark.kind == KVar && ParseVar(ts).Ok?
    ensures [mark] + ts == w + ParseVar(ts).rest && SpellsPlain(ParseVar(ts).node, w)
    decreases |ts|, 1
  {
    if ts[2].kind == KExp {
      w := [mark] + ts[..3];
      assert w[3..] == [ts[2]];
      assert ts == ts[..3] + ts[3..];
    } else {
      var block := BlockSpelled(ts[2..]);
      w := Marked(mark, ts, 2, block, ParseVar(ts).rest);
    }
  }

  lemma {:induction false} ForSpelled(mark: Token, ts: seq<Token>) returns (w: seq<Token>)
    requires mark.kind == KFor && ParseFor(ts).Ok?
    ensures [mark] + ts == w + ParseFor(ts).rest && SpellsPlain(ParseFor(ts).node, w)
    decreases |ts|, 1
  {
    var k := if ts[1].kind == KCode then 2 else 1;
    var block := BlockSpelled(ts[k..]);
    w := Marked(mark, ts, k, block, ParseFor(ts).rest);
  }

  lemma Marked(mark: Token, ts: seq<Token>, k: nat, block: seq<Token>, rest: seq<Token>) returns (w: seq<Token>)
    requires k <= |ts| && ts[k..] == block + rest
    ensures [mark] + ts == w + rest && |w| == 1 + k + |block| && w[k + 1..] == block
    ensures w[0] == mark && forall i | 1 <= i <= k :: w[i] == ts[i - 1]
  {
    w := [mark] + ts[..k] + block;
    FourParts([mark], ts[..k], block, rest);
    assert ts == ts[..k] + ts[k..];
  }

  lemma {:induction false} AtomSpelled(ts: seq<Token>) returns (w: seq<Token>, open: bool)
    requires ts != [] && ParseAtomic(ts).Ok? && ParseAtomic(ts).node.Some?
    ensures ts == w + ParseAtomic(ts).rest && Spells(ParseAtomic(ts).node.value, w, open)
    ensures open ==> !BlankAhead(ParseAtomic(ts).rest)
    decreases |ts|, 2
  {
    var head, tail := ts[0], ts[1..];
    HeadAndTail(ts);
    open := false;
    match head.kind {
      case KVar =>
        w := VarSpelled(head, tail);
      case KFor =>
        w := ForSpelled(head, tail);
      case KIf =>
        var branch;
        branch, open := BranchSpelled(tail);
        w := [head] + branch;
        Before(head, branch, ParseAtomic(ts).rest);
      case KRange =>
        w := [head] + tail[..4];
        assert ts == w + tail[4..];
      case KDollar =>
        w := [head, tail[0]];
        assert ts == w + tail[1..];
      case KOpen =>
        w := BlockSpelled(ts);
      case _ =>
        w := [head];
    }
  }

  /** What is left over begins no code, blank code included. */
  lemma {:induction false} AllSpelled(ts: seq<Token>) returns (w: seq<Token>)
    requires ParseCode(ts).Ok?
    ensures ts == w + ParseCode(ts).rest && SpellsAll(ParseCode(ts).node, w)
    ensures ParseCode(ts).rest != [] ==> ParseCode(ts).rest[0].kind in BEGINS_NO_CODE
    decreases |ts|, 3
  {
    if ts == [] || ParseAtomic(ts).node.None? {
      w := [];
    } else {
      var atom := ParseAtomic(ts);
      var first, open := AtomSpelled(ts);
      var more := AllSpelled(atom.rest);
      JoinAll(atom.node.value, first, open, ParseCode(atom.rest).node, more);
      Associate(first, more, ParseCode(ts).rest);
      w := first + more;
    }
  }

  // ---------------------------------------------------------------- what is spelled is accepted

  /** The text of a closing mark is never blank. */
  ghost predicate Lexed(ts: seq<Token>) {
    forall i | 0 <= i < |ts| :: ts[i].kind == KClose ==> !Blank(ts[i].value)
  }

  /** The end of the list, or of the block. */
  ghost predicate ClosedBy(rest: seq<Token>) { rest != [] ==> rest[0].kind == KClose && !Blank(rest[0].value) }

  /** Nothing that an `if` without `else` would go on with. */
  ghost predicate NotElse(rest: seq<Token>) { rest != [] ==> !Blank(rest[0].value) && rest[0].kind !in {KElse, KElif} }

  lemma Taken(w: seq<Token>, rest: seq<Token>)
    requires w != []
    ensures (w + rest)[0] == w[0] && (w + rest)[1..] == w[1..] + rest
  {
  }

  lemma Cut(w: seq<Token>, k: nat, rest: seq<Token>)
    requires k <= |w|
    ensures w + rest == w[..k] + (w[k..] + rest)
  {
  }

  lemma CutBlock(w: seq<Token>, rest: seq<Token>)
    requires |w| >= 2
    ensures (w + rest)[0] == w[0]
    ensures (w + rest)[1..] == w[1..|w| - 1] + ([w[|w| - 1]] + rest)
    ensures ([w[|w| - 1]] + rest)[1..] == rest
  {
  }

  lemma CutAround(w: seq<Token>, k: nat, rest: seq<Token>)
    requires 1 <= k <= |w|
    ensures w + rest == [w[0]] + (w[1..k] + (w[k..] + rest))
  {
  }

  lemma SpelledFirst(n: Node, w: seq<Token>, open: bool)
    requires Spells(n, w, open)
    ensures w != [] && w[0].kind !in {KElse, KElif, KClose}
  {
    if n.Code? {
      assert SpellsPlain(n, w);
      assert SpellsBlock(n, w);
    } else if !n.If? {
      assert SpellsPlain(n, w);
    }
  }

  lemma {:induction false} BlockAccepted(code: Node, w: seq<Token>, rest: seq<Token>)
    requires SpellsBlock(code, w) && Lexed(w)
    ensures ParseBracketed(w + rest) == Ok(code, rest)
    decreases code, 1
  {
    var inner, after := w[1..|w| - 1], [w[|w| - 1]] + rest;
    AllAccepted(code.atoms, inner, after);
    CutBlock(w, rest);
    assert code == Code(code.atoms);
  }

  lemma {:induction false} ElseAccepted(els: Option<Node>, w: seq<Token>, open: bool, rest: seq<Token>)
    requires SpellsElse(els, w, open) && Lexed(w) && (open ==> NotElse(rest))
    ensures ParseElse(w + rest) == Ok(els, rest)
    decreases els, 1, |w|
  {
    if w == [] {
      assert w + rest == rest;
    } else {
      assert (w + rest)[1..] == w[1..] + rest;
      if w[0].kind == KElse {
        BlockAccepted(els.value, w[1..], rest);
      } else if w[0].kind == KElif {
        BranchAccepted(els.value.atoms[0], w[1..], open, rest);
        assert (w + rest)[1..][1..] == (w + rest)[2..];
        assert els.value == Code([els.value.atoms[0]]);
      } else {
        ElseAccepted(els, w[1..], open, rest);
      }
    }
  }

  lemma {:induction false} BranchAccepted(n: Node, w: seq<Token>, open: bool, rest: seq<Token>)
    requires n.If? && SpellsBranch(n, w, open) && Lexed(w) && (open ==> NotElse(rest))
    ensures ParseIf(w + rest) == Ok(n, rest)
    decreases n, 1
  {
    var k :| 1 <= k <= |w| && SpellsBlock(n.thenBranch, w[1..k]) && SpellsElse(n.elseBranch, w[k..], open);
    BlockAccepted(n.thenBranch, w[1..k], w[k..] + rest);
    ElseAccepted(n.elseBranch, w[k..], open, rest);
    IfAccepted(n, w[1..k] + (w[k..] + rest), w[k..] + rest, rest);
    CutAround(w, k, rest);
  }

  lemma IfAccepted(n: Node, ts: seq<Token>, more: seq<Token>, rest: seq<Token>)
    requires n.If? && n.exp.kind == KCode
    requires ParseBracketed(ts) == Ok(n.thenBranch, more) && ParseElse(more) == Ok(n.elseBranch, rest)
    ensures ParseIf([n.exp] + ts) == Ok(n, rest)
  {
    assert ([n.exp] + ts)[1..] == ts;
  }

  lemma {:induction false} VarAccepted(n: Node, w: seq<Token>, rest: seq<Token>)
    requires n.Var? && SpellsPlain(n, w) && Lexed(w)
    ensures ParseVar(w[1..] + rest) == Ok(n, rest)
    decreases n, 1
  {
    var ts := w[1..] + rest;
    assert ts[2..] == w[3..] + rest;
    if n.body.Exp? {
      assert ts[3..] == rest;
    } else {
      BlockAccepted(n.body, w[3..], rest);
    }
  }

  lemma {:induction false} ForAccepted(n: Node, w: seq<Token>, rest: seq<Token>)
    requires n.For? && SpellsPlain(n, w) && Lexed(w)
    ensures ParseFor(w[1..] + rest) == Ok(n, rest)
    decreases n, 1
  {
    var ts := w[1..] + rest;
    if n.sep.Some? {
      BlockAccepted(n.code, w[3..], rest);
      assert ts[2..] == w[3..] + rest;
      assert ts[0] == n.id && ts[1] == n.sep.value;
    } else {
      BlockAccepted(n.code, w[2..], rest);
      assert ts[1..] == w[2..] + rest;
      assert ts[0] == n.id && ts[1] == w[2];
    }
  }

  lemma RangeAccepted(n: Node, w: seq<Token>, rest: seq<Token>)
    requires n.Range? && SpellsPlain(n, w)
    ensures ParseRange(w[1..] + rest) == Ok(n, rest)
  {
    assert (w[1..] + rest)[4..] == rest;
  }

  lemma TokenAccepted(n: Node, w: seq<Token>, rest: seq<Token>)
    requires (n.RawCode? || n.LiteralDollar? || n.Exp?) && SpellsPlain(n, w)
    ensures w != [] && ParseAtomic(w + rest) == Ok(Some(n), rest)
  {
    Taken(w, rest);
    if |w| == 1 {
      assert w[1..] + rest == rest;
    } else {
      assert w[1..] + rest == [w[1]] + rest;
      assert ([w[1]] + rest)[1..] == rest;
    }
  }

  lemma {:induction false} AtomAccepted(n: Node, w: seq<Token>, open: bool, rest: seq<Token>)
    requires Spells(n, w, open) && Lexed(w) && (open ==> NotElse(rest))
    ensures w != [] && ParseAtomic(w + rest) == Ok(Some(n), rest)
    decreases n, 3
  {
    SpelledFirst(n, w, open);
    Taken(w, rest);
    match n {
      case If(_, _, _) => BranchAccepted(n, w[1..], open, rest);
      case Code(_) => BlockAccepted(n, w, rest);
      case Var(_, _) => VarAccepted(n, w, rest);
      case For(_, _, _) => ForAccepted(n, w, rest);
      case Range(_, _, _) => RangeAccepted(n, w, rest);
      case _ => TokenAccepted(n, w, rest);
    }
  }

  lemma {:induction false} AllAccepted(atoms: seq<Node>, w: seq<Token>, rest: seq<Token>)
    requires SpellsAll(atoms, w) && Lexed(w) && ClosedBy(rest)
    ensures ParseCode(w + rest) == Ok(atoms, rest)
    decreases atoms, 0
  {
    if atoms == [] {
      assert w + rest == rest;
    } else {
      var n, more := atoms[0], atoms[1..];
      var k, open :| 0 <= k <= |w| && Spells(n, w[..k], open) && SpellsAll(more, w[k..])
                     && (open ==> !BlankAhead(w[k..]));
      AllAccepted(more, w[k..], rest);
      AheadOf(more, w[k..], rest);
      AtomAccepted(n, w[..k], open, w[k..] + rest);
      Cut(w, k, rest);
      assert atoms == [n] + more;
    }
  }

  lemma AheadOf(atoms: seq<Node>, w: seq<Token>, rest: seq<Token>)
    requires SpellsAll(atoms, w) && ClosedBy(rest)
    ensures !BlankAhead(w) ==> NotElse(w + rest)
  {
    if atoms == [] {
      assert w + rest == rest;
    } else {
      var k, open :| 0 <= k <= |w| && Spells(atoms[0], w[..k], open);
      SpelledFirst(atoms[0], w[..k], open);
    }
  }

  // ---------------------------------------------------------------- the parser decides the grammar

  /** A token list is accepted to its end with a tree if and only if it spells that tree. */
  lemma {:induction false} AcceptsExactlyTheGrammar(ts: seq<Token>, atoms: seq<Node>)
    requires Lexed(ts)
    ensures ParseCode(ts) == Ok(atoms, []) <==> SpellsAll(atoms, ts)
  {
    assert ts + [] == ts;
    if ParseCode(ts) == Ok(atoms, []) {
      var w := AllSpelled(ts);
      assert w + [] == w;
    }
    if SpellsAll(atoms, ts) {
      AllAccepted(atoms, ts, []);
    }
  }

  /** No token list spells two trees. */
  lemma {:induction false} SpellsOneTree(ts: seq<Token>, atoms: seq<Node>, others: seq<Node>)
    requires Lexed(ts) && SpellsAll(atoms, ts) && SpellsAll(others, ts)
    ensures atoms == others
  {
    AcceptsExactlyTheGrammar(ts, atoms);
    AcceptsExactlyTheGrammar(ts, others);
  }

  // ---------------------------------------------------------------- accepted trees printed again

  ghost predicate NoBlankDollar(ts: seq<Token>) {
    forall i | 0 <= i < |ts| :: ts[i].kind == KLiteralDollar ==> !Blank(ts[i].value)
  }

  lemma {:induction false} BlockWellFormed(code: Node, w: seq<Token>)
    requires SpellsBlock(code, w) && NoBlankDollar(w)
    ensures WellFormed(code)
    decreases code, 1
  {
    AllAreWellFormed(code.atoms, w[1..|w| - 1]);
  }

  lemma {:induction false} BranchWellFormed(n: Node, w: seq<Token>, open: bool)
    requires n.If? && SpellsBranch(n, w, open) && NoBlankDollar(w)
    ensures WellFormed(n)
    decreases n, 1
  {
    var k :| 1 <= k <= |w| && SpellsBlock(n.thenBranch, w[1..k]) && SpellsElse(n.elseBranch, w[k..], open);
    BlockWellFormed(n.thenBranch, w[1..k]);
    ElseWellFormed(n.elseBranch, w[k..], open);
  }

  lemma {:induction false} ElseWellFormed(els: Option<Node>, w: seq<Token>, open: bool)
    requires SpellsElse(els, w, open) && NoBlankDollar(w)
    ensures els.Some? ==> els.value.Code? && WellFormed(els.value)
    decreases els, 1, |w|
  {
    if w != [] {
      if w[0].kind == KElse {
        BlockWellFormed(els.value, w[1..]);
      } else if w[0].kind == KElif {
        BranchWellFormed(els.value.atoms[0], w[1..], open);
      } else {
        ElseWellFormed(els, w[1..], open);
      }
    }
  }

  lemma {:induction false} AtomWellFormed(n: Node, w: seq<Token>, open: bool)
    requires Spells(n, w, open) && NoBlankDollar(w)
    ensures WellFormed(n)
    decreases n, 3
  {
    match n {
      case If(_, _, _) => BranchWellFormed(n, w[1..], open);
      case Code(_) => BlockWellFormed(n, w);
      case Var(_, body) => if !body.Exp? { BlockWellFormed(body, w[3..]); }
      case For(_, sep, code) => BlockWellFormed(code, w[if sep.Some? then 3 else 2..]);
      case LiteralDollar(token) => assert SpellsPlain(n, w) && w[0] == token;
      case _ => assert SpellsPlain(n, w);
    }
  }

  lemma {:induction false} AllAreWellFormed(atoms: seq<Node>, w: seq<Token>)
    requires SpellsAll(atoms, w) && NoBlankDollar(w)
    ensures AllWellFormed(atoms)
    decreases atoms, 0
  {
    if atoms != [] {
      var k, open :| 0 <= k <= |w| && Spells(atoms[0], w[..k], open) && SpellsAll(atoms[1..], w[k..]);
      AtomWellFormed(atoms[0], w[..k], open);
      AllAreWellFormed(atoms[1..], w[k..]);
      assert forall i | 1 <= i < |atoms| :: atoms[i] == atoms[1..][i - 1];
    }
  }

  /** A tree that the parser made is one that can be printed, and printing it is the parser's inverse once
      more, if and only if it has no blank code directly after an `if` without `else`. */
  lemma {:induction false} AcceptedReprints(ts: seq<Token>, atoms: seq<Node>)
    requires NoBlankDollar(ts) && ParseCode(ts) == Ok(atoms, [])
    ensures AllWellFormed(atoms)
    ensures ParseCode(PrintAll(atoms)) == Ok(atoms, []) <==> NothingSwallowedIn(atoms)
  {
    var w := AllSpelled(ts);
    assert w + [] == w;
    AllAreWellFormed(atoms, w);
    PrintParseRoundTrip(atoms);
  }

  /** An `$else` block closes the word, also where it is one `if` without `else`. */
  lemma ElseCloses(n: Node, thenWord: seq<Token>, elseWord: seq<Token>)
    requires n.If? && n.exp.kind == KCode && SpellsBlock(n.thenBranch, thenWord)
    requires n.elseBranch.Some? && SpellsBlock(n.elseBranch.value, elseWord)
    ensures Spells(n, [Fixed(KIf)] + ([n.exp] + thenWord + ([Fixed(KElse)] + elseWord)), false)
  {
    var elseTail := [Fixed(KElse)] + elseWord;
    assert elseTail[1..] == elseWord;
    JoinBranch(n, thenWord, elseTail, false);
    var branch := [n.exp] + thenWord + elseTail;
    assert ([Fixed(KIf)] + branch)[1..] == branch;
  }

  /** Blank code behind a closed word is kept; but where the tree prints with `$elif`s and no `$else`, it is
      swallowed from the print. */
  lemma BlankBehindClosed(n: Node, w: seq<Token>, blank: Token)
    requires Spells(n, w, false) && Lexed(w) && blank.kind == KCode && Blank(blank.value)
    ensures ParseCode(w + [blank]) == Ok([n, RawCode(blank)], [])
    ensures NoBlankDollar(w) && ElseLess(n) ==>
              && AllWellFormed([n, RawCode(blank)])
              && ParseCode(PrintAll([n, RawCode(blank)])) != Ok([n, RawCode(blank)], [])
  {
    var raw := RawCode(blank);
    var atoms := [n, raw];
    JoinAll(raw, [blank], false, [], []);
    assert [raw] + [] == [raw] && [blank] + [] == [blank];
    JoinAll(n, w, false, [raw], [blank]);
    assert [n] + [raw] == atoms;
    AcceptsExactlyTheGrammar(w + [blank], atoms);
    if NoBlankDollar(w) && ElseLess(n) {
      AcceptedReprints(w + [blank], atoms);
      assert IsBlankRaw(atoms[0 + 1]);
    }
  }

  /** `$if d [[]]` */
  function ElselessIf(d: Token): Node { If(d, Code([]), None) }

  function EmptyBlock(): seq<Token> { [Fixed(KOpen), Fixed(KClose)] }

  function ElselessWord(d: Token): seq<Token> { [Fixed(KIf)] + ([d] + EmptyBlock() + []) }

  lemma ElselessSpelled(d: Token)
    requires d.kind == KCode
    ensures SpellsBlock(Code([]), EmptyBlock())
    ensures SpellsAll([ElselessIf(d)], ElselessWord(d))
  {
    var n, branch := ElselessIf(d), [d] + EmptyBlock() + [];
    JoinBlock(Fixed(KOpen), [], [], Fixed(KClose));
    assert [Fixed(KOpen)] + [] + [Fixed(KClose)] == EmptyBlock();
    JoinBranch(n, EmptyBlock(), [], true);
    assert ElselessWord(d)[1..] == branch;
    assert Spells(n, ElselessWord(d), true);
    JoinAll(n, ElselessWord(d), true, [], []);
    assert [n] + [] == [n] && ElselessWord(d) + [] == ElselessWord(d);
  }

  /** `$if c [[]] $else [[$if d [[]]]]` */
  function NestedWord(c: Token, d: Token): seq<Token> {
    [Fixed(KIf)] + ([c] + EmptyBlock() + ([Fixed(KElse)] + ([Fixed(KOpen)] + ElselessWord(d) + [Fixed(KClose)])))
  }

  function NestedIf(c: Token, d: Token): Node { If(c, Code([]), Some(Code([ElselessIf(d)]))) }

  lemma NestedSpelled(c: Token, d: Token)
    requires c.kind == KCode && d.kind == KCode
    ensures Spells(NestedIf(c, d), NestedWord(c, d), false)
  {
    ElselessSpelled(d);
    JoinBlock(Fixed(KOpen), [ElselessIf(d)], ElselessWord(d), Fixed(KClose));
    ElseCloses(NestedIf(c, d), EmptyBlock(), [Fixed(KOpen)] + ElselessWord(d) + [Fixed(KClose)]);
  }

  lemma NestedTokens(c: Token, d: Token)
    requires c.kind == KCode && d.kind == KCode
    ensures NestedWord(c, d) == [Fixed(KIf), c, Fixed(KOpen), Fixed(KClose), Fixed(KElse), Fixed(KOpen), Fixed(KIf), d,
                                 Fixed(KOpen), Fixed(KClose), Fixed(KClose)]
    ensures Lexed(NestedWord(c, d)) && NoBlankDollar(NestedWord(c, d))
  {
    FixedNotBlank(KClose);
  }

  /** Printing is not the parser's inverse on everything it accepts: blank code behind
      `$if c [[]] $else [[$if d [[]]]]` is lost from the print. */
  lemma PrintLosesBlank(c: Token, d: Token, blank: Token)
    requires c.kind == KCode && d.kind == KCode && blank.kind == KCode && Blank(blank.value)
    ensures var ts := [Fixed(KIf), c, Fixed(KOpen), Fixed(KClose), Fixed(KElse), Fixed(KOpen), Fixed(KIf), d,
                       Fixed(KOpen), Fixed(KClose), Fixed(KClose)] + [blank];
            var atoms := [NestedIf(c, d), RawCode(blank)];
            && ParseCode(ts) == Ok(atoms, []) && AllWellFormed(atoms)
            && ParseCode(PrintAll(atoms)) == Ok([NestedIf(c, d)], [])
  {
    var atoms := [NestedIf(c, d), RawCode(blank)];
    NestedSpelled(c, d);
    NestedTokens(c, d);
    NestedSwallowed(c, d, blank);
    BlankBehindClosed(NestedIf(c, d), NestedWord(c, d), blank);
    PrintParseRoundTrip(atoms);
  }

  lemma NestedSwallowed(c: Token, d: Token, blank: Token)
    requires blank.kind == KCode && Blank(blank.value)
    ensures ElseLess(NestedIf(c, d))
    ensures SwallowAll([NestedIf(c, d), RawCode(blank)]) == [NestedIf(c, d)]
  {
    var n, rest := NestedIf(c, d), [RawCode(blank)];
    assert ElseLess(n) && BlankRun(rest) == 1;
    assert [n, RawCode(blank)][1..] == rest && rest[1..] == [];
    assert Swallow(ElselessIf(d)) == ElselessIf(d);
    assert SwallowAll([ElselessIf(d)]) == [ElselessIf(d)];
    assert Swallow(n) == n;
  }
}
