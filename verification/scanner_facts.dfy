/** Properties of the scanning loop around one `==`. `Match` never
    advancing means that as written the `==` yields an `==` token whose
    lexeme is a single `=`, after which the second `=` is scanned again as
    the start of a token of its own; `a==b` therefore scans as `a`, `==`,
    `=`, `b`. The corrected scanner yields one two-character token. */
module ScannerFacts {
  import opened Strings
  import opened Values
  import opened Tokens
  import opened Dialects
  import opened Scanner
  import opened Reporting

  /** Two single-element prefixes in a row. */
  lemma TwoInFront<T>(a: T, b: T, z: seq<T>, y: seq<T>, x: seq<T>)
    requires x == [a] + y && y == [b] + z
    ensures x == [a, b] + z
  {
  }

  /** One turn of the scanning loop, given the step it takes. */
  lemma ScanFromStep(d: Dialect, src: string, i: nat, line: nat, step: Lexed)
    requires i < |src| && ScanToken(d, src, i, line) == step
    ensures ScanFrom(d, src, i, line).emitted == step.emitted + ScanFrom(d, src, step.next, step.line).emitted
    ensures ScanFrom(d, src, i, line).diags == step.diags + ScanFrom(d, src, step.next, step.line).diags
  {
  }

  /** The step at an `=` followed by `=`. */
  lemma EqualEqualStep(d: Dialect, src: string, i: nat, line: nat)
    requires i + 1 < |src| && src[i] == '=' && src[i + 1] == '='
    ensures d == AsWritten ==> ScanToken(d, src, i, line) == Lexed(i + 1, line, [Token(EqualEqual, "=", Value.Nil, line)], [])
    ensures d == Corrected ==> ScanToken(d, src, i, line) == Lexed(i + 2, line, [Token(EqualEqual, "==", Value.Nil, line)], [])
  {
    assert src[i..i + 1] == "=" && src[i..i + 2] == "==";
    assert src[i] !in SingleCharTokens && src[i] in BareOperators;
  }

  /** As written, the step at the second `=` of a `==` emits a token
      spelled `=` again: an `=`, or another `==` when a third `=` follows. */
  lemma SecondEqualStep(src: string, i: nat, line: nat)
    requires i + 1 < |src| && src[i] == '=' && src[i + 1] == '='
    ensures var second := ScanToken(AsWritten, src, i + 1, line);
      && second.next == i + 2
      && second.emitted == [Token(if i + 2 < |src| && src[i + 2] == '=' then EqualEqual else Equal, "=", Value.Nil, line)]
  {
    assert src[i + 1..i + 2] == "=";
    assert src[i + 1] !in SingleCharTokens && src[i + 1] in BareOperators;
  }

  /** As written, the loop from the second `=` of a `==`. */
  lemma FromSecondEqual(src: string, i: nat, line: nat)
    requires i + 1 < |src| && src[i] == '=' && src[i + 1] == '='
    ensures ScanFrom(AsWritten, src, i + 1, line).emitted ==
      [Token(if i + 2 < |src| && src[i + 2] == '=' then EqualEqual else Equal, "=", Value.Nil, line)]
      + ScanFrom(AsWritten, src, i + 2, line).emitted
  {
    SecondEqualStep(src, i, line);
    ScanFromStep(AsWritten, src, i + 1, line, ScanToken(AsWritten, src, i + 1, line));
  }

  /** As written, the loop at a `==` emits an `==` token spelled `=`, and
      then, from the second `=`, a token spelled `=` of type `=` or `==`:
      two tokens where the source has one operator. */
  lemma EqualEqualAsWritten(src: string, i: nat, line: nat)
    requires i + 1 < |src| && src[i] == '=' && src[i + 1] == '='
    ensures var tail := ScanFrom(AsWritten, src, i + 2, line).emitted;
      ScanFrom(AsWritten, src, i, line).emitted ==
        [Token(EqualEqual, "=", Value.Nil, line),
         Token(if i + 2 < |src| && src[i + 2] == '=' then EqualEqual else Equal, "=", Value.Nil, line)] + tail
  {
    EqualEqualStep(AsWritten, src, i, line);
    ScanFromStep(AsWritten, src, i, line, ScanToken(AsWritten, src, i, line));
    FromSecondEqual(src, i, line);
    TwoInFront(
      Token(EqualEqual, "=", Value.Nil, line),
      Token(if i + 2 < |src| && src[i + 2] == '=' then EqualEqual else Equal, "=", Value.Nil, line),
      ScanFrom(AsWritten, src, i + 2, line).emitted,
      ScanFrom(AsWritten, src, i + 1, line).emitted,
      ScanFrom(AsWritten, src, i, line).emitted);
  }

  /** Corrected, the loop at a `==` emits one `==` token spelled `==` and
      carries on after it. */
  lemma EqualEqualCorrected(src: string, i: nat, line: nat)
    requires i + 1 < |src| && src[i] == '=' && src[i + 1] == '='
    ensures ScanFrom(Corrected, src, i, line).emitted ==
      [Token(EqualEqual, "==", Value.Nil, line)] + ScanFrom(Corrected, src, i + 2, line).emitted
  {
    EqualEqualStep(Corrected, src, i, line);
    ScanFromStep(Corrected, src, i, line, ScanToken(Corrected, src, i, line));
  }

  /** The decimal text of a natural number is a number lexeme that denotes
      that number. */
  lemma DecimalIsNumber(n: nat)
    ensures IsNumberLexeme(NatToDecimal(n))
    ensures NumberValue(NatToDecimal(n)) == n as real
  {
    var s := NatToDecimal(n);
    SpanEndUnique(s, 0, IsDigit, |s|);
    assert s[..|s|] == s;
  }

  /** Scanning the decimal text of `n` yields one number token spelled as
      the whole text and carrying `n`: the number scanner reads back what
      the decimal printer writes. */
  lemma ScanDecimal(n: nat, line: nat)
    ensures var src := NatToDecimal(n);
      ScanNumber(src, 0, line) == Lexed(|src|, line, [Token(Number, src, Num(n as real), line)], [])
  {
    var src := NatToDecimal(n);
    DecimalIsNumber(n);
    assert src[0..|src|] == src;
  }

  /** A `.` without a digit after it is not part of the number before it:
      the number ends at the `.`, which the next step scans as DOT. So `1.`
      is NUMBER `1` followed by DOT. */
  lemma DotWithoutDigit(d: Dialect, src: string, start: nat, k: nat, line: nat)
    requires start < k < |src| && src[k] == '.'
    requires forall j :: start <= j < k ==> IsDigit(src[j])
    requires k + 1 == |src| || !IsDigit(src[k + 1])
    ensures ScanNumber(src, start, line).next == k
    ensures ScanToken(d, src, k, line) == Lexed(k + 1, line, [Token(Dot, ".", Value.Nil, line)], [])
  {
    var digits := src[start..k];
    SpanEndUnique(digits, 0, IsDigit, |digits|);
    assert IsNumberLexeme(digits);
    forall m | k < m <= |src|
      ensures !IsNumberLexeme(src[start..m])
    {
      var s := src[start..m];
      SpanEndUnique(s, 0, IsDigit, k - start);
      if k - start + 1 < |s| {
        assert s[k - start + 1..][0] == src[k + 1];
      }
    }
    assert src[k..k + 1] == ".";
  }

  /** A character no rule of the scanner handles is reported at the
      current line and skipped, without a token. */
  lemma UnexpectedCharacter(d: Dialect, src: string, start: nat, line: nat)
    requires start < |src|
    requires src[start] !in SingleCharTokens && src[start] !in BareOperators && src[start] != '/'
    requires !IsWhitespace(src[start]) && src[start] != '"' && !IsDigit(src[start]) && !IsAlpha(src[start])
    ensures ScanToken(d, src, start, line) == Lexed(start + 1, line, [], [ErrorAtLine(line, "Unexpected character.")])
  {
  }
}
