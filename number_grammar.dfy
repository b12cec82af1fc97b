/** The number grammar of RFC 8259 section 6 written rule by rule,
      number = [ minus ] int [ frac ] [ exp ]
      int = zero / ( digit1-9 *DIGIT )
      frac = decimal-point 1*DIGIT
      exp = e [ minus / plus ] 1*DIGIT
    and proved to be exactly the language of the automaton that
    jsonny_scan_number follows (Lexemes.IsJsonNumber). */
module NumberGrammar {
  import opened Chars
  import opened Lexemes

  /** *DIGIT */
  predicate AllDigits(s: seq<bv8>) {
    forall k | 0 <= k < |s| :: IsDigit(s[k] as int)
  }

  /** [ minus ] */
  predicate IsSign(s: seq<bv8>) {
    s == [] || (|s| == 1 && s[0] as int == MINUS)
  }

  /** int = zero / ( digit1-9 *DIGIT ) */
  predicate IsInt(s: seq<bv8>) {
    |s| >= 1 && IsDigit(s[0] as int) &&
    (if s[0] as int == ZERO then |s| == 1 else AllDigits(s[1..]))
  }

  /** [ frac ] */
  predicate IsFrac(s: seq<bv8>) {
    s == [] || (|s| >= 2 && s[0] as int == DOT && AllDigits(s[1..]))
  }

  /** [ exp ] */
  predicate IsExp(s: seq<bv8>) {
    s == [] ||
    (|s| >= 2 && IsExpMark(s[0] as int) &&
     if s[1] as int == MINUS || s[1] as int == PLUS then |s| >= 3 && AllDigits(s[2..]) else AllDigits(s[1..]))
  }

  /** `s` splits into the four parts of the rule `number`. */
  predicate IsNumberText(s: seq<bv8>) {
    exists a: nat, b: nat, c: nat | a <= b <= c <= |s| ::
      IsSign(s[..a]) && IsInt(s[a..b]) && IsFrac(s[b..c]) && IsExp(s[c..])
  }

  // ---------------------------------------------------------------------
  // From the automaton to the grammar

  /** What has been read when the automaton is in state `q`: `s` splits at
      a, b and c into a sign, an integer part, a fraction and an exponent,
      the last of them possibly unfinished. */
  predicate Shape(q: NumState, s: seq<bv8>, a: nat, b: nat, c: nat)
    requires a <= b <= c <= |s|
  {
    IsSign(s[..a]) &&
    match q
    case NStart => |s| == 0
    case NMinus => a == |s| == 1
    case NZero => b == c == |s| == a + 1 && s[a] as int == ZERO
    case NInt => a < b == c == |s| && s[a] as int != ZERO && IsInt(s[a..b])
    case NDot => c == |s| == b + 1 && IsInt(s[a..b]) && s[b] as int == DOT
    case NFrac => b < c == |s| && IsInt(s[a..b]) && IsFrac(s[b..c])
    case NExpMark => |s| == c + 1 && IsInt(s[a..b]) && IsFrac(s[b..c]) && IsExpMark(s[c] as int)
    case NExpSign =>
      |s| == c + 2 && IsInt(s[a..b]) && IsFrac(s[b..c]) && IsExpMark(s[c] as int) &&
      (s[c + 1] as int == MINUS || s[c + 1] as int == PLUS)
    case NExpDigits => c < |s| && IsInt(s[a..b]) && IsFrac(s[b..c]) && IsExp(s[c..])
    case NDead => false
  }

  lemma AllDigitsSnoc(t: seq<bv8>, x: bv8)
    requires AllDigits(t) && IsDigit(x as int)
    ensures AllDigits(t + [x])
  {
    assert forall k | 0 <= k < |t + [x]| :: (t + [x])[k] == if k < |t| then t[k] else x;
  }

  lemma AllDigitsTail(t: seq<bv8>)
    requires |t| >= 1 && AllDigits(t)
    ensures IsDigit(t[0] as int) && AllDigits(t[1..])
  {
    assert forall k | 0 <= k < |t| - 1 :: t[1..][k] == t[k + 1];
  }

  /** The slices of `p + [x]` that end within `p` are slices of `p`. */
  lemma SnocSlices(p: seq<bv8>, x: bv8, k: nat, l: nat)
    requires k <= l <= |p|
    ensures (p + [x])[..k] == p[..k] && (p + [x])[k..l] == p[k..l]
    ensures (p + [x])[k..] == p[k..] + [x]
  {
  }

  /** One step of the automaton keeps the shape. */
  lemma ShapeStep(q: NumState, p: seq<bv8>, a: nat, b: nat, c: nat, x: bv8) returns (a': nat, b': nat, c': nat)
    requires a <= b <= c <= |p| && Shape(q, p, a, b, c) && NumStep(q, x as int) != NDead
    ensures a' <= b' <= c' <= |p| + 1 && Shape(NumStep(q, x as int), p + [x], a', b', c')
  {
    SnocSlices(p, x, a, b);
    SnocSlices(p, x, b, c);
    match q
    case NStart => a', b', c' := SignStep(p, x);
    case NMinus => a', b', c' := SignStep(p, x);
    case NZero => a', b', c' := IntStep(q, p, a, b, c, x);
    case NInt => a', b', c' := IntStep(q, p, a, b, c, x);
    case NDot => a', b', c' := FracStep(q, p, a, b, c, x);
    case NFrac => a', b', c' := FracStep(q, p, a, b, c, x);
    case NExpMark => a', b', c' := ExpStep(q, p, a, b, c, x);
    case NExpSign => a', b', c' := ExpStep(q, p, a, b, c, x);
    case NExpDigits => a', b', c' := ExpStep(q, p, a, b, c, x);
  }

  /** Steps out of the start and the minus state. */
  lemma SignStep(p: seq<bv8>, x: bv8) returns (a': nat, b': nat, c': nat)
    requires p == [] || (|p| == 1 && p[0] as int == MINUS)
    requires NumStep(if p == [] then NStart else NMinus, x as int) != NDead
    ensures a' <= b' <= c' <= |p| + 1 && Shape(NumStep(if p == [] then NStart else NMinus, x as int), p + [x], a', b', c')
  {
    var s := p + [x];
    if p == [] && x as int == MINUS {
      a', b', c' := 1, 1, 1;
      assert s[..1] == s;
    } else {
      a', b', c' := |p|, |p| + 1, |p| + 1;
      assert s[|p|..|p| + 1] == [x];
      assert s[..|p|] == p;
    }
  }

  /** Steps out of the integer part: more digits, `.` or an exponent mark. */
  lemma IntStep(q: NumState, p: seq<bv8>, a: nat, b: nat, c: nat, x: bv8) returns (a': nat, b': nat, c': nat)
    requires q in {NZero, NInt} && a <= b <= c <= |p| && Shape(q, p, a, b, c) && NumStep(q, x as int) != NDead
    requires (p + [x])[..a] == p[..a] && (p + [x])[a..b] == p[a..b]
    ensures a' <= b' <= c' <= |p| + 1 && Shape(NumStep(q, x as int), p + [x], a', b', c')
  {
    var s, n := p + [x], |p|;
    if IsDigit(x as int) {
      a', b', c' := a, n + 1, n + 1;
      assert q == NInt;
      assert s[a..n + 1][1..] == p[a..n][1..] + [x];
      AllDigitsSnoc(p[a..n][1..], x);
    } else if x as int == DOT {
      a', b', c' := a, b, n + 1;
      assert s[b] == x;
    } else {
      a', b', c' := a, b, b;
      assert s[b..b] == [] && s[b] == x;
    }
  }

  /** Steps out of the fraction: more digits or an exponent mark. */
  lemma FracStep(q: NumState, p: seq<bv8>, a: nat, b: nat, c: nat, x: bv8) returns (a': nat, b': nat, c': nat)
    requires q in {NDot, NFrac} && a <= b <= c <= |p| && Shape(q, p, a, b, c) && NumStep(q, x as int) != NDead
    requires (p + [x])[..a] == p[..a] && (p + [x])[a..b] == p[a..b]
    ensures a' <= b' <= c' <= |p| + 1 && Shape(NumStep(q, x as int), p + [x], a', b', c')
  {
    var s, n := p + [x], |p|;
    if IsDigit(x as int) {
      a', b', c' := a, b, n + 1;
      assert s[b..n + 1] == p[b..n] + [x];
      assert s[b..n + 1][1..] == p[b..n][1..] + [x];
      AllDigitsSnoc(p[b..n][1..], x);
    } else {
      assert q == NFrac;
      a', b', c' := a, b, n;
      assert s[b..n] == p[b..n] && s[n] == x;
    }
  }

  /** Steps inside the exponent: a sign or digits. */
  lemma ExpStep(q: NumState, p: seq<bv8>, a: nat, b: nat, c: nat, x: bv8) returns (a': nat, b': nat, c': nat)
    requires q in {NExpMark, NExpSign, NExpDigits} && a <= b <= c <= |p| && Shape(q, p, a, b, c) && NumStep(q, x as int) != NDead
    requires (p + [x])[..a] == p[..a] && (p + [x])[a..b] == p[a..b] && (p + [x])[b..c] == p[b..c]
    ensures a' <= b' <= c' <= |p| + 1 && Shape(NumStep(q, x as int), p + [x], a', b', c')
  {
    var s := p + [x];
    var e := p[c..];
    a', b', c' := a, b, c;
    assert s[c..] == e + [x];
    assert (e + [x])[0] == e[0] == p[c];
    if q == NExpMark {
      if IsDigit(x as int) {
        assert (e + [x])[1..] == [x];
      }
    } else if q == NExpSign {
      assert (e + [x])[1] == p[c + 1];
      assert (e + [x])[2..] == [x];
    } else if e[1] as int == MINUS || e[1] as int == PLUS {
      assert (e + [x])[2..] == e[2..] + [x];
      AllDigitsSnoc(e[2..], x);
    } else {
      assert (e + [x])[1..] == e[1..] + [x];
      AllDigitsSnoc(e[1..], x);
    }
  }

  /** Every text the automaton has not rejected has the shape of its state. */
  lemma {:induction false} ShapeOfRun(s: seq<bv8>) returns (a: nat, b: nat, c: nat)
    requires NumRun(NStart, s) != NDead
    ensures a <= b <= c <= |s| && Shape(NumRun(NStart, s), s, a, b, c)
    decreases |s|
  {
    if s == [] {
      a, b, c := 0, 0, 0;
    } else {
      var p, x := s[..|s| - 1], s[|s| - 1];
      assert p + [x] == s;
      NumRunLast(NStart, s);
      var a0, b0, c0 := ShapeOfRun(p);
      a, b, c := ShapeStep(NumRun(NStart, p), p, a0, b0, c0, x);
    }
  }

  /** A text the automaton accepts follows the grammar. */
  lemma AcceptedIsNumberText(s: seq<bv8>)
    requires IsJsonNumber(s)
    ensures IsNumberText(s)
  {
    var a, b, c := ShapeOfRun(s);
    var q := NumRun(NStart, s);
    if q == NZero {
      assert IsInt(s[a..b]) && IsFrac(s[b..c]) && IsExp(s[c..]);
    } else if q == NInt || q == NFrac {
      assert IsFrac(s[b..c]) && IsExp(s[c..]);
    } else {
      assert IsExp(s[c..]);
    }
  }

  // ---------------------------------------------------------------------
  // From the grammar to the automaton

  /** Reading `s` and then `t` is reading `s + t`. */
  lemma {:induction false} RunAppend(q: NumState, s: seq<bv8>, t: seq<bv8>)
    ensures NumRun(q, s + t) == NumRun(NumRun(q, s), t)
    decreases |t|
  {
    if t == [] {
      assert s + t == s;
    } else {
      RunAppend(q, s, t[..|t| - 1]);
      assert (s + t)[..|s + t| - 1] == s + t[..|t| - 1];
      NumRunLast(q, s + t);
      NumRunLast(NumRun(q, s), t);
    }
  }

  /** Digits keep the states that loop on a digit. */
  lemma {:induction false} DigitsStay(q: NumState, d: seq<bv8>)
    requires q in {NInt, NFrac, NExpDigits} && AllDigits(d)
    ensures NumRun(q, d) == q
    decreases |d|
  {
    if d != [] {
      DigitsStay(q, d[..|d| - 1]);
      NumRunLast(q, d);
    }
  }

  /** `c` followed by digits, read from `q`. */
  lemma FirstThenDigits(q: NumState, t: seq<bv8>, r: NumState)
    requires |t| >= 1 && r in {NInt, NFrac, NExpDigits} && NumStep(q, t[0] as int) == r && AllDigits(t[1..])
    ensures NumRun(q, t) == r
  {
    assert t == [t[0]] + t[1..];
    RunAppend(q, [t[0]], t[1..]);
    assert NumRun(q, [t[0]]) == NumStep(NumRun(q, []), t[0] as int);
    DigitsStay(r, t[1..]);
  }

  lemma IntRun(q: NumState, t: seq<bv8>)
    requires q in {NStart, NMinus} && IsInt(t)
    ensures NumRun(q, t) == if t[0] as int == ZERO then NZero else NInt
  {
    if t[0] as int == ZERO {
      assert t == [t[0]];
      assert NumRun(q, t) == NumStep(NumRun(q, []), t[0] as int);
    } else {
      FirstThenDigits(q, t, NInt);
    }
  }

  lemma FracRun(q: NumState, t: seq<bv8>)
    requires q in {NZero, NInt} && IsFrac(t)
    ensures NumRun(q, t) == if t == [] then q else NFrac
  {
    if t != [] {
      var u := t[1..];
      assert t == [t[0]] + u;
      RunAppend(q, [t[0]], u);
      assert NumRun(q, [t[0]]) == NumStep(NumRun(q, []), t[0] as int) == NDot;
      FirstThenDigits(NDot, u, NFrac);
    }
  }

  lemma ExpRun(q: NumState, t: seq<bv8>)
    requires q in {NZero, NInt, NFrac} && IsExp(t)
    ensures NumRun(q, t) == if t == [] then q else NExpDigits
  {
    if t != [] {
      var u := t[1..];
      assert t == [t[0]] + u;
      RunAppend(q, [t[0]], u);
      assert NumRun(q, [t[0]]) == NumStep(NumRun(q, []), t[0] as int) == NExpMark;
      if t[1] as int == MINUS || t[1] as int == PLUS {
        var v := u[1..];
        assert u == [u[0]] + v;
        RunAppend(NExpMark, [u[0]], v);
        assert NumRun(NExpMark, [u[0]]) == NumStep(NumRun(NExpMark, []), u[0] as int) == NExpSign;
        assert v == t[2..];
        AllDigitsTail(v);
        FirstThenDigits(NExpSign, v, NExpDigits);
      } else {
        FirstThenDigits(NExpMark, u, NExpDigits);
      }
    }
  }

  lemma SignRun(t: seq<bv8>)
    requires IsSign(t)
    ensures NumRun(NStart, t) == if t == [] then NStart else NMinus
  {
    if t != [] {
      assert t == [t[0]];
      assert NumRun(NStart, t) == NumStep(NumRun(NStart, []), t[0] as int);
    }
  }

  /** Reading the four parts one after the other. */
  lemma RunParts(s: seq<bv8>, a: nat, b: nat, c: nat)
    requires a <= b <= c <= |s|
    ensures NumRun(NStart, s) == NumRun(NumRun(NumRun(NumRun(NStart, s[..a]), s[a..b]), s[b..c]), s[c..])
  {
    hide NumRun;
    RunAppend(NStart, s[..a], s[a..b]);
    assert s[..a] + s[a..b] == s[..b];
    RunAppend(NStart, s[..b], s[b..c]);
    assert s[..b] + s[b..c] == s[..c];
    RunAppend(NStart, s[..c], s[c..]);
    assert s[..c] + s[c..] == s;
  }

  /** A text that follows the grammar is accepted by the automaton. */
  lemma NumberTextIsAccepted(s: seq<bv8>)
    requires IsNumberText(s)
    ensures IsJsonNumber(s)
  {
    var a: nat, b: nat, c: nat :| a <= b <= c <= |s| &&
      IsSign(s[..a]) && IsInt(s[a..b]) && IsFrac(s[b..c]) && IsExp(s[c..]);
    hide NumRun, IsSign, IsInt, IsFrac, IsExp;
    SignRun(s[..a]);
    var q0 := NumRun(NStart, s[..a]);
    IntRun(q0, s[a..b]);
    var q1 := NumRun(q0, s[a..b]);
    FracRun(q1, s[b..c]);
    var q2 := NumRun(q1, s[b..c]);
    ExpRun(q2, s[c..]);
    RunParts(s, a, b, c);
  }

  /** The automaton accepts exactly the texts of the grammar. */
  lemma JsonNumberGrammar(s: seq<bv8>)
    ensures IsJsonNumber(s) <==> IsNumberText(s)
  {
    if IsJsonNumber(s) {
      AcceptedIsNumberText(s);
    }
    if IsNumberText(s) {
      NumberTextIsAccepted(s);
    }
  }

  /** jsonny_scan_number in the grammar's terms: it accepts exactly when
      the text it read follows the rule `number`, and no longer slice of
      the input from the same place follows it. */
  lemma NumberLexGrammar(data: seq<bv8>, i: nat)
    requires i <= |data|
    ensures var r := NumberLex(data, i); var e := i + |r.text|;
      e <= |data| && r.text == data[i..e] &&
      (r.status == Accepted <==> IsNumberText(r.text)) &&
      forall j | e < j <= |data| :: !IsNumberText(data[i..j])
  {
    NumberLexAccepts(data, i);
    NumberLexLongest(data, i);
    JsonNumberGrammar(NumberLex(data, i).text);
    var e := i + |NumberLex(data, i).text|;
    forall j | e < j <= |data|
      ensures !IsNumberText(data[i..j])
    {
      JsonNumberGrammar(data[i..j]);
    }
  }
}
