/** The order in which the parser's two loops collect declarations, stated
    independently of the loops. The loop of `Parse()` and the loop of
    `Block()` both parse one declaration, then the next from where it
    stopped, until the end-of-input token (or, in a block, `}`).
    `DeclarationStarts` lists those cursor positions; the loops' results
    are then exactly the declarations begun there, one entry each, in that
    order, with their diagnostics in that order. */
module ParserOrder {
  import opened Wrappers
  import opened Tokens
  import opened Ast
  import opened Reporting
  import opened Dialects
  import opened Parser

  /** Where each declaration of a run begins: the first at `pos`, every next
      one where the previous declaration stopped, until the end-of-input
      token or a token in `closers` (`}` for a block, none at top level). */
  function DeclarationStarts(d: Dialect, toks: seq<Token>, pos: nat, closers: set<TokenType>): (r: seq<nat>)
    requires Terminated(toks) && pos < |toks|
    ensures |r| == 0 <==> IsAtEnd(toks, pos) || MatchAny(toks, pos, closers)
    ensures |r| > 0 ==> r[0] == pos
    ensures ValidStarts(toks, r)
    ensures forall i :: 0 <= i < |r| ==> pos <= r[i] && !MatchAny(toks, r[i], closers)
    decreases |toks| - pos
  {
    if IsAtEnd(toks, pos) || MatchAny(toks, pos, closers) then []
    else [pos] + DeclarationStarts(d, toks, Declaration(d, toks, pos).pos, closers)
  }

  /** Cursors at which a declaration can be parsed. */
  predicate ValidStarts(toks: seq<Token>, starts: seq<nat>) {
    Terminated(toks) && forall i :: 0 <= i < |starts| ==> starts[i] < |toks| && !IsAtEnd(toks, starts[i])
  }

  /** The statements of the declarations begun at `starts`, in that order. */
  function StatementsAt(d: Dialect, toks: seq<Token>, starts: seq<nat>): (r: seq<Option<Stmt>>)
    requires ValidStarts(toks, starts)
    ensures |r| == |starts|
  {
    if |starts| == 0 then [] else [Declaration(d, toks, starts[0]).value] + StatementsAt(d, toks, starts[1..])
  }

  /** The diagnostics of the declarations begun at `starts`, in that order. */
  function DiagsOf(d: Dialect, toks: seq<Token>, starts: seq<nat>): (r: seq<Diagnostic>)
    requires ValidStarts(toks, starts)
    ensures |starts| == 0 ==> r == []
  {
    if |starts| == 0 then [] else Declaration(d, toks, starts[0]).diags + DiagsOf(d, toks, starts[1..])
  }

  /** Entry `i` of `StatementsAt` is the declaration begun at `starts[i]`. */
  lemma {:induction false} StatementsAtIndex(d: Dialect, toks: seq<Token>, starts: seq<nat>, i: nat)
    requires ValidStarts(toks, starts) && i < |starts|
    ensures StatementsAt(d, toks, starts)[i] == Declaration(d, toks, starts[i]).value
    decreases i
  {
    var rest := starts[1..];
    assert ValidStarts(toks, rest) by {
      assert forall j :: 0 <= j < |rest| ==> rest[j] == starts[j + 1];
    }
    assert StatementsAt(d, toks, starts) == [Declaration(d, toks, starts[0]).value] + StatementsAt(d, toks, rest);
    if i > 0 {
      StatementsAtIndex(d, toks, rest, i - 1);
      assert rest[i - 1] == starts[i];
    }
  }

  /** One round of a loop: the run at `pos` is `pos`, then the run from
      where that declaration stopped. */
  lemma StartsStep(d: Dialect, toks: seq<Token>, pos: nat, closers: set<TokenType>)
    requires Terminated(toks) && pos < |toks|
    requires !IsAtEnd(toks, pos) && !MatchAny(toks, pos, closers)
    ensures var starts := DeclarationStarts(d, toks, pos, closers);
      var later := DeclarationStarts(d, toks, Declaration(d, toks, pos).pos, closers);
      && starts == [pos] + later
      && starts[1..] == later
      && StatementsAt(d, toks, starts) == [Declaration(d, toks, pos).value] + StatementsAt(d, toks, later)
      && DiagsOf(d, toks, starts) == Declaration(d, toks, pos).diags + DiagsOf(d, toks, later)
  {
  }

  /** The `i`-th declaration begins where the one before it stopped. */
  predicate FollowsOn(d: Dialect, toks: seq<Token>, starts: seq<nat>, i: int) {
    && ValidStarts(toks, starts)
    && 0 < i < |starts|
    && starts[i] == Declaration(d, toks, starts[i - 1]).pos
  }

  /** A declaration in front of a run that begins where it stops keeps the
      run chained. */
  lemma FollowsOnCons(d: Dialect, toks: seq<Token>, pos: nat, later: seq<nat>)
    requires ValidStarts(toks, later) && pos < |toks| && !IsAtEnd(toks, pos)
    requires |later| > 0 ==> later[0] == Declaration(d, toks, pos).pos
    requires forall j :: 0 < j < |later| ==> FollowsOn(d, toks, later, j)
    ensures forall i :: 0 < i < |later| + 1 ==> FollowsOn(d, toks, [pos] + later, i)
  {
    var starts := [pos] + later;
    forall i | 0 < i < |starts|
      ensures FollowsOn(d, toks, starts, i)
    {
      if i > 1 {
        assert FollowsOn(d, toks, later, i - 1);
        assert starts[i] == later[i - 1] && starts[i - 1] == later[i - 2];
      }
    }
  }

  /** Each declaration of a run begins where the one before it stopped. */
  lemma {:induction false} StartsFollowOn(d: Dialect, toks: seq<Token>, pos: nat, closers: set<TokenType>)
    requires Terminated(toks) && pos < |toks|
    ensures var starts := DeclarationStarts(d, toks, pos, closers);
      forall i :: 0 < i < |starts| ==> FollowsOn(d, toks, starts, i)
    decreases |toks| - pos
  {
    if !IsAtEnd(toks, pos) && !MatchAny(toks, pos, closers) {
      var next := Declaration(d, toks, pos).pos;
      StartsFollowOn(d, toks, next, closers);
      assert ValidStarts(toks, DeclarationStarts(d, toks, next, closers));
      assert |DeclarationStarts(d, toks, next, closers)| > 0 ==> DeclarationStarts(d, toks, next, closers)[0] == next;
      FollowsOnCons(d, toks, pos, DeclarationStarts(d, toks, next, closers));
    }
  }

  /** The loop of `Parse()` collects the declarations begun at the
      successive starts up to the end-of-input token, in that order, with
      their diagnostics in that order. */
  lemma {:induction false} ParseFromInOrder(d: Dialect, toks: seq<Token>, pos: nat)
    requires Terminated(toks) && pos < |toks|
    ensures var r := ParseFrom(d, toks, pos);
      var starts := DeclarationStarts(d, toks, pos, {});
      r.statements == StatementsAt(d, toks, starts) && r.diags == DiagsOf(d, toks, starts)
    decreases |toks| - pos
  {
    if !IsAtEnd(toks, pos) {
      var next := Declaration(d, toks, pos).pos;
      ParseFromInOrder(d, toks, next);
      StartsStep(d, toks, pos, {});
    }
  }

  /** `Parse()` yields the top-level declarations in source order: entry `i`
      is the declaration begun at the `i`-th start, and the diagnostics are
      theirs, in that order. */
  lemma ParseInOrder(d: Dialect, toks: seq<Token>)
    requires Terminated(toks)
    ensures var r := Parse(d, toks);
      var starts := DeclarationStarts(d, toks, 0, {});
      && |r.statements| == |starts|
      && (forall i :: 0 <= i < |starts| ==> r.statements[i] == Declaration(d, toks, starts[i]).value)
      && r.diags == DiagsOf(d, toks, starts)
  {
    var starts := DeclarationStarts(d, toks, 0, {});
    ParseFromInOrder(d, toks, 0);
    forall i | 0 <= i < |starts|
      ensures Parse(d, toks).statements[i] == Declaration(d, toks, starts[i]).value
    {
      StatementsAtIndex(d, toks, starts, i);
    }
  }

  /** One round of the loop of `Block()`: a declaration, then the rest. */
  lemma BlockItemsStep(d: Dialect, toks: seq<Token>, pos: nat)
    requires Terminated(toks) && pos < |toks|
    requires !Check(toks, pos, RightBrace) && !IsAtEnd(toks, pos)
    ensures var first := Declaration(d, toks, pos);
      var rest := BlockItems(d, toks, first.pos);
      BlockItems(d, toks, pos) == Done([first.value] + rest.value, rest.pos, first.diags + rest.diags)
  {
  }

  /** The loop of `Block()` collects the declarations begun at the
      successive starts up to `}` or the end, in that order, with their
      diagnostics in that order, and stops where the last of them stopped. */
  lemma {:induction false} BlockItemsFromStarts(d: Dialect, toks: seq<Token>, pos: nat)
    requires Terminated(toks) && pos < |toks|
    ensures var r := BlockItems(d, toks, pos);
      var starts := DeclarationStarts(d, toks, pos, {RightBrace});
      && r.value == StatementsAt(d, toks, starts)
      && r.diags == DiagsOf(d, toks, starts)
      && r.pos == (if |starts| == 0 then pos else Declaration(d, toks, starts[|starts| - 1]).pos)
    decreases |toks| - pos
  {
    assert MatchAny(toks, pos, {RightBrace}) == Check(toks, pos, RightBrace);
    if !Check(toks, pos, RightBrace) && !IsAtEnd(toks, pos) {
      var next := Declaration(d, toks, pos).pos;
      BlockItemsFromStarts(d, toks, next);
      BlockItemsStep(d, toks, pos);
      StartsStep(d, toks, pos, {RightBrace});
    }
  }

  /** `Block()`'s loop in source order, entry by entry. */
  lemma BlockItemsInOrder(d: Dialect, toks: seq<Token>, pos: nat)
    requires Terminated(toks) && pos < |toks|
    ensures var r := BlockItems(d, toks, pos);
      var starts := DeclarationStarts(d, toks, pos, {RightBrace});
      && |r.value| == |starts|
      && (forall i :: 0 <= i < |starts| ==> r.value[i] == Declaration(d, toks, starts[i]).value)
      && r.diags == DiagsOf(d, toks, starts)
      && r.pos == (if |starts| == 0 then pos else Declaration(d, toks, starts[|starts| - 1]).pos)
  {
    var starts := DeclarationStarts(d, toks, pos, {RightBrace});
    BlockItemsFromStarts(d, toks, pos);
    forall i | 0 <= i < |starts|
      ensures BlockItems(d, toks, pos).value[i] == Declaration(d, toks, starts[i]).value
    {
      StatementsAtIndex(d, toks, starts, i);
    }
  }
}
