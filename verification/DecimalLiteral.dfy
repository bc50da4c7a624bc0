/** Argument::is_decimal_literal and is_positional, against the grammar in their comments. */
module DecimalLiteral {

  // ---- the grammar ----

  predicate IsDigit(c: char) {
    '0' <= c <= '9'
  }

  predicate AllDigits(s: string) {
    forall i :: 0 <= i < |s| ==> IsDigit(s[i])
  }

  predicate DigitSequence(s: string) {
    s != [] && AllDigits(s)
  }

  /** sign_opt digit-sequence */
  predicate PostE(s: string) {
    DigitSequence(s) || (s != [] && s[0] in {'+', '-'} && DigitSequence(s[1..]))
  }

  /** 'e' post-e, 'E' post-e */
  predicate ExponentPart(s: string) {
    s != [] && s[0] in {'e', 'E'} && PostE(s[1..])
  }

  predicate ExponentPartOpt(s: string) {
    s == [] || ExponentPart(s)
  }

  /** digit-sequence exponent-part_opt */
  predicate PostDecimalPoint(s: string) {
    exists k :: 0 < k <= |s| && DigitSequence(s[..k]) && ExponentPartOpt(s[k..])
  }

  /** '.' post-decimal-point */
  predicate FractionalPart(s: string) {
    s != [] && s[0] == '.' && PostDecimalPoint(s[1..])
  }

  /** What may follow an integer-part: fractional-part, '.' exponent-part_opt, exponent-part. */
  predicate AfterInteger(s: string) {
    || FractionalPart(s)
    || (s != [] && s[0] == '.' && ExponentPartOpt(s[1..]))
    || ExponentPart(s)
  }

  predicate Literal(s: string) {
    || s == "0"
    || (DigitSequence(s) && s[0] != '0')
    || (exists k :: 0 < k <= |s| && DigitSequence(s[..k]) && AfterInteger(s[k..]))
    || FractionalPart(s)
  }

  // ---- the recogniser ----

  datatype Label = INTEGER_PART | INTEGER_PART_CONSUMED | POST_DECIMAL_POINT | EXPONENT_PART_OPT | POST_E | TRUE | FALSE

  /** find_if_not: the first place from k on that is no digit. */
  function DigitsEnd(s: string, k: nat): (n: nat)
    requires k <= |s|
    ensures k <= n <= |s|
    ensures forall i :: k <= i < n ==> IsDigit(s[i])
    ensures n < |s| ==> !IsDigit(s[n])
    decreases |s| - k
  {
    if k < |s| && IsDigit(s[k]) then DigitsEnd(s, k + 1) else k
  }

  /** consume_digits. */
  function ConsumeDigits(s: string): (rest: string)
    ensures |rest| <= |s|
    ensures s != [] && IsDigit(s[0]) ==> |rest| < |s|
  {
    s[DigitsEnd(s, 0)..]
  }

  /** What the code still accepts at a label. */
  predicate Accepts(at: Label, s: string) {
    match at
    case INTEGER_PART => AfterInteger(ConsumeDigits(s))
    case INTEGER_PART_CONSUMED => AfterInteger(s)
    case POST_DECIMAL_POINT => PostDecimalPoint(s)
    case EXPONENT_PART_OPT => ExponentPartOpt(s)
    case POST_E => PostE(s)
    case TRUE => true
    case FALSE => false
  }

  /** Digits followed by something that does not begin with a digit can be split in one place only. */
  lemma SplitIsUnique(s: string, k: nat)
    requires k <= |s| && AllDigits(s[..k]) && (k < |s| ==> !IsDigit(s[k]))
    ensures DigitsEnd(s, 0) == k
  {
    forall i | 0 <= i < k
      ensures IsDigit(s[i])
    {
      assert s[..k][i] == s[i];
    }
  }

  /** Greedy consumption loses nothing: the digits after the point end where the consumed ones do. */
  lemma PointDigitsAreGreedy(s: string, k: nat)
    requires 0 < k <= |s| && DigitSequence(s[..k]) && ExponentPartOpt(s[k..])
    ensures IsDigit(s[0]) && ExponentPartOpt(ConsumeDigits(s))
  {
    assert k < |s| ==> s[k..][0] == s[k];
    SplitIsUnique(s, k);
    assert s[..k][0] == s[0];
  }

  lemma PointDigitsSplit(s: string)
    requires s != [] && IsDigit(s[0]) && ExponentPartOpt(ConsumeDigits(s))
    ensures PostDecimalPoint(s)
  {
    var n := DigitsEnd(s, 0);
    assert 0 < n && DigitSequence(s[..n]) && ExponentPartOpt(s[n..]);
  }

  lemma PostDecimalPointIsGreedy(s: string)
    ensures PostDecimalPoint(s) <==> s != [] && IsDigit(s[0]) && ExponentPartOpt(ConsumeDigits(s))
  {
    if k :| 0 < k <= |s| && DigitSequence(s[..k]) && ExponentPartOpt(s[k..]) {
      PointDigitsAreGreedy(s, k);
    }
    if s != [] && IsDigit(s[0]) && ExponentPartOpt(ConsumeDigits(s)) {
      PointDigitsSplit(s);
    }
  }

  lemma IntegerDigitsAreGreedy(s: string, k: nat)
    requires 0 < k <= |s| && DigitSequence(s[..k]) && AfterInteger(s[k..])
    ensures IsDigit(s[0]) && AfterInteger(ConsumeDigits(s))
  {
    assert k < |s| && s[k..][0] == s[k];
    SplitIsUnique(s, k);
    assert s[..k][0] == s[0];
  }

  lemma IntegerDigitsSplit(s: string)
    requires s != [] && IsDigit(s[0]) && AfterInteger(ConsumeDigits(s))
    ensures exists k :: 0 < k <= |s| && DigitSequence(s[..k]) && AfterInteger(s[k..])
  {
    var n := DigitsEnd(s, 0);
    assert 0 < n && DigitSequence(s[..n]) && AfterInteger(s[n..]);
  }

  lemma IntegerIsGreedy(s: string)
    ensures (exists k :: 0 < k <= |s| && DigitSequence(s[..k]) && AfterInteger(s[k..]))
       <==> s != [] && IsDigit(s[0]) && AfterInteger(ConsumeDigits(s))
  {
    if k :| 0 < k <= |s| && DigitSequence(s[..k]) && AfterInteger(s[k..]) {
      IntegerDigitsAreGreedy(s, k);
    }
    if s != [] && IsDigit(s[0]) && AfterInteger(ConsumeDigits(s)) {
      IntegerDigitsSplit(s);
    }
  }

  lemma AllDigitsIffConsumed(s: string)
    ensures AllDigits(s) <==> ConsumeDigits(s) == []
  {
    if AllDigits(s) {
      assert s[..|s|] == s;
      SplitIsUnique(s, |s|);
    }
  }

  lemma ZeroFirst(s: string)
    requires s != [] && s[0] == '0'
    ensures ConsumeDigits(s) == ConsumeDigits(s[1..])
    ensures s == "0" <==> s[1..] == []
  {
    var n := DigitsEnd(s[1..], 0);
    var front := s[..n + 1];
    forall i | 0 <= i < |front|
      ensures IsDigit(front[i])
    {
      assert i > 0 ==> s[i] == s[1..][i - 1];
    }
    assert n + 1 < |s| ==> s[n + 1] == s[1..][n];
    SplitIsUnique(s, n + 1);
  }

  /** After a point that follows an integer, one character tells which rule can apply. */
  lemma AfterPoint(s: string)
    requires s != [] && s[0] == '.'
    ensures AfterInteger(s) <==>
            if s[1..] != [] && IsDigit(s[1..][0]) then PostDecimalPoint(s[1..]) else ExponentPartOpt(s[1..])
  {
    var t := s[1..];
    assert AfterInteger(s) <==> PostDecimalPoint(t) || ExponentPartOpt(t);
    assert t != [] && IsDigit(t[0]) ==> !ExponentPartOpt(t);
    if PostDecimalPoint(t) {
      NoDigitNoPoint(t);
    }
  }

  lemma NoDigitNoPoint(t: string)
    requires PostDecimalPoint(t)
    ensures t != [] && IsDigit(t[0])
  {
    PostDecimalPointIsGreedy(t);
  }

  lemma DigitSequenceIff(s: string)
    ensures DigitSequence(s) <==> s != [] && IsDigit(s[0]) && ConsumeDigits(s) == []
  {
    AllDigitsIffConsumed(s);
  }

  lemma PostEIsGreedy(s: string)
    ensures var digits := if s != [] && s[0] in {'-', '+'} then s[1..] else s;
            PostE(s) <==> digits != [] && IsDigit(digits[0]) && ConsumeDigits(digits) == []
  {
    DigitSequenceIff(s);
    if s != [] && s[0] in {'-', '+'} {
      DigitSequenceIff(s[1..]);
      assert !IsDigit(s[0]);
    }
  }

  /** Labels are ordered so that a jump that consumes nothing goes down. */
  function Rank(at: Label): nat {
    match at
    case INTEGER_PART => 2
    case TRUE => 0
    case FALSE => 0
    case _ => 1
  }

  /** The first switch of is_decimal_literal. */
  method Enter(literal: string) returns (at: Label, s: string)
    ensures Accepts(at, s) <==> Literal(literal)
  {
    IntegerIsGreedy(literal);
    AllDigitsIffConsumed(literal);
    s := literal;
    if s == [] {
      at := FALSE;
    } else if s[0] == '0' {
      ZeroFirst(s);
      s := s[1..];
      at := if s == [] then TRUE else INTEGER_PART;
    } else if IsDigit(s[0]) {
      s := ConsumeDigits(s);
      at := if s == [] then TRUE else INTEGER_PART_CONSUMED;
    } else if s[0] == '.' {
      s := s[1..];
      at := POST_DECIMAL_POINT;
    } else {
      at := FALSE;
    }
  }

  /** The block of statements at a label, up to its goto or return. */
  method Jump(from: Label, left: string) returns (at: Label, s: string)
    requires from != TRUE && from != FALSE
    ensures Accepts(at, s) <==> Accepts(from, left)
    ensures |s| < |left| || (|s| == |left| && Rank(at) < Rank(from))
  {
    s := left;
    match from {
      case INTEGER_PART =>
        s := ConsumeDigits(s);
        at := INTEGER_PART_CONSUMED;
      case INTEGER_PART_CONSUMED =>
        if s != [] && s[0] == '.' {
          AfterPoint(s);
          s := s[1..];
          at := if s != [] && IsDigit(s[0]) then POST_DECIMAL_POINT else EXPONENT_PART_OPT;
        } else if s != [] && s[0] in {'e', 'E'} {
          s := s[1..];
          at := POST_E;
        } else {
          at := FALSE;
        }
      case POST_DECIMAL_POINT =>
        PostDecimalPointIsGreedy(s);
        if s != [] && IsDigit(s[0]) {
          s := ConsumeDigits(s);
          at := EXPONENT_PART_OPT;
        } else {
          at := FALSE;
        }
      case EXPONENT_PART_OPT =>
        if s == [] {
          at := TRUE;
        } else if s[0] in {'e', 'E'} {
          s := s[1..];
          at := POST_E;
        } else {
          at := FALSE;
        }
      case POST_E =>
        PostEIsGreedy(s);
        if s != [] && s[0] in {'-', '+'} {
          s := s[1..];
        }
        if s != [] && IsDigit(s[0]) {
          s := ConsumeDigits(s);
          at := if s == [] then TRUE else FALSE;
        } else {
          at := FALSE;
        }
    }
  }

  /** Accepts exactly the decimal literals of the grammar; every jump consumes input or goes down. */
  method IsDecimalLiteral(literal: string) returns (ok: bool)
    ensures ok <==> Literal(literal)
  {
    var at, s := Enter(literal);
    while at != TRUE && at != FALSE
      invariant Accepts(at, s) <==> Literal(literal)
      decreases |s|, Rank(at)
    {
      at, s := Jump(at, s);
    }
    ok := at == TRUE;
  }

  /** The comment on is_positional, with any prefix character where it has '-'. */
  predicate Positional(name: string, prefixChars: string) {
    || name == []
    || name[0] !in prefixChars
    || name[1..] == []
    || Literal(name[1..])
  }

  method IsPositional(name: string, prefixChars: string) returns (ok: bool)
    ensures ok <==> Positional(name, prefixChars)
  {
    if name == [] {
      return true;
    }
    if name[0] in prefixChars {
      var rest := name[1..];
      if rest == [] {
        return true;
      }
      ok := IsDecimalLiteral(rest);
    } else {
      return true;
    }
  }
}
