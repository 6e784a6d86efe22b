/**
 * The algorithm exercises of lesson_02/main.go. Go's `int` is modelled by unbounded `int`;
 * the `math.Sqrt` loop bound of IsPrime is modelled as `i * i <= n`.
 */
module Lesson02Exercises {
  import opened Wrappers
  import opened Lesson02RuneStack

  // ---------------------------------------------------------------- Fibonacci

  /** FibonacciRecursive: `n` itself below 2 (negative `n` included), else the sum of the two before. */
  function FibonacciRecursive(n: int): (r: int)
    ensures n < 2 ==> r == n
    ensures n >= 0 ==> r >= 0
    ensures n >= 1 ==> r >= 1
    decreases n
  {
    if n < 2 then n else FibonacciRecursive(n - 1) + FibonacciRecursive(n - 2)
  }

  /** The sequence never decreases from index 1 on. */
  lemma {:induction false} FibonacciMonotone(m: int, n: int)
    requires 1 <= m <= n
    ensures FibonacciRecursive(m) <= FibonacciRecursive(n)
    decreases n - m
  {
    if m < n {
      FibonacciMonotone(m, n - 1);
    }
  }

  /** FibonacciIterative computes the same numbers as FibonacciRecursive, for every `n`. */
  method FibonacciIterative(n: int) returns (r: int)
    ensures r == FibonacciRecursive(n)
  {
    if n < 2 {
      return n;
    }
    var x, y := 0, 1;
    var k := 0;
    while k < n
      invariant 0 <= k <= n
      invariant x == FibonacciRecursive(k)
      invariant y == if k == 0 then 1 else FibonacciRecursive(k - 1)
    {
      x, y := x + y, x;
      k := k + 1;
    }
    return x;
  }

  // ---------------------------------------------------------------- IsPrime

  ghost predicate Prime(n: int)
  {
    n >= 2 && forall d :: 2 <= d < n ==> n % d != 0
  }

  /** An even divisor makes `n` even. */
  lemma EvenDivisor(n: int, d: int)
    requires d >= 2 && d % 2 == 0 && n % d == 0
    ensures n % 2 == 0
  {
    var q := n / d;
    assert n == d * q;
    var h := d / 2;
    assert n == 2 * (h * q);
  }

  /** The only multiple of `q > 0` in `[0, q)` is zero. */
  lemma SmallMultiple(q: int, k: int)
    requires q > 0 && 0 <= q * k < q
    ensures k == 0
  {
    if k >= 1 {
      MulMonotone(q, 1, q, k);
    } else if k <= -1 {
      MulMonotone(q, 1, q, -k);
    }
  }

  /** `q * d` is a multiple of `q`. */
  lemma MultipleMod(q: int, d: int)
    requires q > 0
    ensures (q * d) % q == 0
  {
    var t := (q * d) / q;
    assert q * (d - t) == (q * d) % q;
    SmallMultiple(q, d - t);
  }

  lemma MulMonotone(a: int, b: int, c: int, e: int)
    requires 0 <= a <= c && 0 <= b <= e
    ensures a * b <= c * e
  {
    assert a * b <= a * e;
    assert a * e <= c * e;
  }

  /** The cofactor `q` of a divisor `d >= i` of `n < i * i` lies in `[2, i)`. */
  lemma CofactorBounds(n: int, i: int, d: int, q: int)
    requires 2 <= i <= d < n && n < i * i && n == d * q
    ensures 2 <= q < i
  {
    if q <= 0 {
      MulMonotone(0, d, -q, d);
    }
    assert q != 1;
    if q >= i {
      MulMonotone(i, i, d, q);
    }
  }

  /** A divisor `d` of `n` with `d >= i` and `n < i * i` has a cofactor in `[2, i)` that divides `n` too. */
  lemma CofactorBelow(n: int, i: int, d: int)
    requires 2 <= i <= d < n && n < i * i && n % d == 0
    ensures 2 <= n / d < i && n % (n / d) == 0
  {
    var q := n / d;
    assert n == d * q;
    CofactorBounds(n, i, d, q);
    MultipleMod(q, d);
    assert n == q * d;
  }

  lemma SquareBelow(i: int, n: int)
    requires 3 <= i && i * i <= n
    ensures i < n
  {
    MulMonotone(3, i, i, i);
  }

  lemma ProperDivisor(n: int, d: int)
    requires 2 <= d < n && n % d == 0
    ensures !Prime(n)
  {
  }

  /** An odd `n` with no divisor in `[2, i]`, `i` odd, has none in `[2, i + 2)`: `i + 1` is even. */
  lemma NextOddCandidate(n: int, i: int)
    requires 3 <= i && i % 2 == 1 && n % 2 != 0 && n % i != 0 && forall d :: 2 <= d < i ==> n % d != 0
    ensures forall d :: 2 <= d < i + 2 ==> n % d != 0
  {
    if n % (i + 1) == 0 {
      EvenDivisor(n, i + 1);
    }
  }

  /** No divisor below `i` with `n < i * i` leaves `n` prime. */
  lemma NoDivisorBelowRoot(n: int, i: int)
    requires 2 <= n && 2 <= i && n < i * i && forall d :: 2 <= d < i ==> n % d != 0
    ensures Prime(n)
  {
    forall d | i <= d < n
      ensures n % d != 0
    {
      if n % d == 0 {
        CofactorBelow(n, i, d);
      }
    }
  }

  /** IsPrime holds iff `n >= 2` and no `d` in `[2, n)` divides `n`. */
  method IsPrime(n: int) returns (r: bool)
    ensures r <==> Prime(n)
  {
    if n == 2 {
      return true;
    }
    if n <= 1 || n % 2 == 0 {
      if n > 2 {
        ProperDivisor(n, 2);
      }
      return false;
    }
    var i := 3;
    while i * i <= n
      invariant 3 <= i && i % 2 == 1
      invariant forall d :: 2 <= d < i ==> n % d != 0
      decreases n - i
    {
      SquareBelow(i, n);
      if n % i == 0 {
        ProperDivisor(n, i);
        return false;
      }
      NextOddCandidate(n, i);
      i := i + 2;
    }
    NoDivisorBelowRoot(n, i);
    return true;
  }

  // ---------------------------------------------------------------- base-2 formatting and IsBinaryPalindrome

  predicate IsBinaryDigit(c: char)
  {
    c == '0' || c == '1'
  }

  predicate AllBinary(s: string)
  {
    forall k :: 0 <= k < |s| ==> IsBinaryDigit(s[k])
  }

  /** The base-2 digits of `n`, most significant first, without leading zeros ("0" for zero). */
  function BinaryDigits(n: nat): (s: string)
    ensures |s| >= 1 && AllBinary(s)
    ensures n == 0 <==> s == "0"
    ensures n > 0 ==> s[0] == '1'
    ensures s[|s| - 1] == (if n % 2 == 0 then '0' else '1')
  {
    if n < 2 then [if n == 0 then '0' else '1']
    else BinaryDigits(n / 2) + [if n % 2 == 0 then '0' else '1']
  }

  /**
   * strconv.FormatInt(n, 2): the base-2 digits of |n| without leading zeros ("0" for zero), with a
   * minus sign in front on negative input. FormatBinaryValue reads the digits back.
   */
  function FormatBinary(n: int): (s: string)
    ensures n >= 0 ==> |s| >= 1 && AllBinary(s) && (n > 0 ==> s[0] == '1') && (n == 0 <==> s == "0")
    ensures n < 0 ==> |s| >= 2 && s[0] == '-' && AllBinary(s[1..]) && s[1] == '1'
  {
    if n < 0 then
      var d := BinaryDigits(-n);
      assert ("-" + d)[1..] == d;
      "-" + d
    else BinaryDigits(n)
  }

  /** The digits FormatBinary writes have the value |n|. */
  lemma FormatBinaryValue(n: int)
    ensures n >= 0 ==> Value(FormatBinary(n)) == n
    ensures n < 0 ==> Value(FormatBinary(n)[1..]) == -n
  {
    if n < 0 {
      BinaryDigitsValue(-n);
      assert FormatBinary(n)[1..] == BinaryDigits(-n);
    } else {
      BinaryDigitsValue(n);
    }
  }

  function Reverse(s: string): (r: string)
    ensures |r| == |s| && forall k :: 0 <= k < |s| ==> r[k] == s[|s| - 1 - k]
  {
    if s == [] then [] else Reverse(s[1..]) + [s[0]]
  }

  /** IsBinaryPalindrome holds iff the base-2 string of `n` reads the same backwards. */
  method IsBinaryPalindrome(n: int) returns (r: bool)
    ensures r <==> FormatBinary(n) == Reverse(FormatBinary(n))
  {
    var binaryString := FormatBinary(n);
    var l, r' := 0, |binaryString| - 1;
    while l <= r'
      invariant 0 <= l && r' == |binaryString| - 1 - l
      invariant l <= |binaryString|
      invariant forall k :: 0 <= k < l ==> binaryString[k] == binaryString[|binaryString| - 1 - k]
    {
      if binaryString[l] != binaryString[r'] {
        assert Reverse(binaryString)[l] != binaryString[l];
        return false;
      }
      l := l + 1;
      r' := r' - 1;
    }
    assert forall k :: 0 <= k < |binaryString| ==> Reverse(binaryString)[k] == binaryString[k] by {
      forall k | 0 <= k < |binaryString|
        ensures binaryString[|binaryString| - 1 - k] == binaryString[k]
      {
        if k >= l {
          var k' := |binaryString| - 1 - k;
          assert 0 <= k' < l;
        }
      }
    }
    return true;
  }

  /** A negative number is never a binary palindrome: its string starts with '-' and ends with a digit. */
  lemma NegativeNeverPalindrome(n: int)
    requires n < 0
    ensures FormatBinary(n) != Reverse(FormatBinary(n))
  {
    var s := FormatBinary(n);
    assert s[|s| - 1] == BinaryDigits(-n)[|s| - 2];
    assert Reverse(s)[0] != s[0];
  }

  lemma FormatNonNegative(n: int)
    requires n >= 0
    ensures FormatBinary(n) == BinaryDigits(n)
  {
  }

  /** A palindrome ends with the character it starts with. */
  lemma PalindromeEnds(s: string)
    requires |s| > 0 && s == Reverse(s)
    ensures s[|s| - 1] == s[0]
  {
    assert Reverse(s)[0] == s[|s| - 1];
  }

  /** A positive binary palindrome is odd: its last digit mirrors the leading '1'. */
  lemma PositivePalindromeIsOdd(n: int)
    requires n > 0 && FormatBinary(n) == Reverse(FormatBinary(n))
    ensures n % 2 == 1
  {
    FormatNonNegative(n);
    PalindromeEnds(BinaryDigits(n));
  }

  // ---------------------------------------------------------------- ValidParentheses

  predicate IsOpen(ch: char)
  {
    ch == '[' || ch == '(' || ch == '{'
  }

  predicate IsClose(ch: char)
  {
    ch == ']' || ch == ')' || ch == '}'
  }

  predicate IsBracket(ch: char)
  {
    IsOpen(ch) || IsClose(ch)
  }

  const OpenClosed: map<char, char> := map['(' := ')', '[' := ']', '{' := '}']

  /** `openClosedParentheses[open]`: the matching closer, or the zero rune for a missing key. */
  function Closer(open: char): (c: char)
    ensures IsOpen(open) ==> IsClose(c) && !IsOpen(c)
    ensures !IsOpen(open) ==> c == '\0'
  {
    if open in OpenClosed then OpenClosed[open] else '\0'
  }

  /** One character of the scan: push an opener, pop a matching closer, skip anything else; None rejects. */
  function Step(st: seq<char>, ch: char): Option<seq<char>>
  {
    if IsOpen(ch) then Some(st + [ch])
    else if IsClose(ch) then
      if |st| == 0 || ch != Closer(st[|st| - 1]) then None else Some(st[..|st| - 1])
    else Some(st)
  }

  /** The scan of `s` from stack `st`: the final stack, or None once a closer is rejected. */
  function Run(st: seq<char>, s: string): Option<seq<char>>
    decreases |s|
  {
    if s == [] then Some(st)
    else match Step(st, s[0])
      case None => None
      case Some(next) => Run(next, s[1..])
  }

  /** The bracket characters of `s`, in order. */
  function Brackets(s: string): (t: string)
    ensures BracketsOnly(t)
  {
    if s == [] then [] else (if IsBracket(s[0]) then [s[0]] else []) + Brackets(s[1..])
  }

  predicate BracketsOnly(t: string)
  {
    forall k :: 0 <= k < |t| ==> IsBracket(t[k])
  }

  /** A properly nested bracket pair: an opener, the pairs nested inside it, then its closer. */
  datatype Pair = Pair(open: char, inside: seq<Pair>)

  ghost predicate WellFormed(f: seq<Pair>)
  {
    forall k :: 0 <= k < |f| ==> IsOpen(f[k].open) && WellFormed(f[k].inside)
  }

  /** The bracket string a sequence of nested pairs is written as. */
  function Flatten(f: seq<Pair>): string
    decreases f, 0
  {
    if f == [] then [] else FlattenPair(f[0]) + Flatten(f[1..])
  }

  function FlattenPair(p: Pair): string
    decreases p, 1
  {
    [p.open] + Flatten(p.inside) + [Closer(p.open)]
  }

  /** Balanced brackets: the writing of some sequence of properly nested pairs. */
  ghost predicate Balanced(t: string)
  {
    exists f :: WellFormed(f) && Flatten(f) == t
  }

  /** A string that closes the openers of `st`, top first, with balanced stretches `fs` between and after. */
  function ClosingString(st: seq<char>, fs: seq<seq<Pair>>): string
    requires |fs| == |st| + 1
    decreases |st|
  {
    if |st| == 0 then Flatten(fs[0])
    else Flatten(fs[0]) + [Closer(st[|st| - 1])] + ClosingString(st[..|st| - 1], fs[1..])
  }

  lemma {:induction false} RunConcat(st: seq<char>, a: string, b: string)
    ensures Run(st, a + b) == match Run(st, a) case None => None case Some(u) => Run(u, b)
    decreases |a|
  {
    if a == [] {
      assert a + b == b;
    } else {
      assert (a + b)[0] == a[0];
      assert (a + b)[1..] == a[1..] + b;
      match Step(st, a[0]) {
        case None =>
        case Some(u) => RunConcat(u, a[1..], b);
      }
    }
  }

  /** Characters other than brackets do not affect the scan. */
  lemma {:induction false} RunIgnoresOthers(st: seq<char>, s: string)
    ensures Run(st, s) == Run(st, Brackets(s))
    decreases |s|
  {
    if s != [] {
      var rest := Brackets(s[1..]);
      if IsBracket(s[0]) {
        assert Brackets(s) == [s[0]] + rest;
        assert Brackets(s)[1..] == rest;
        match Step(st, s[0]) {
          case None =>
          case Some(u) => RunIgnoresOthers(u, s[1..]);
        }
      } else {
        assert Brackets(s) == rest;
        RunIgnoresOthers(st, s[1..]);
      }
    }
  }

  lemma {:induction false} FlattenConcat(f: seq<Pair>, g: seq<Pair>)
    ensures Flatten(f + g) == Flatten(f) + Flatten(g)
    decreases |f|
  {
    if f == [] {
      assert f + g == g;
    } else {
      assert (f + g)[0] == f[0] && (f + g)[1..] == f[1..] + g;
      FlattenConcat(f[1..], g);
    }
  }

  /** Nested pairs scan from any stack back to that same stack. */
  lemma {:induction false} FlattenRuns(st: seq<char>, f: seq<Pair>)
    requires WellFormed(f)
    ensures Run(st, Flatten(f)) == Some(st)
    decreases f, 0
  {
    if f != [] {
      FlattenPairRuns(st, f[0]);
      FlattenRuns(st, f[1..]);
      RunConcat(st, FlattenPair(f[0]), Flatten(f[1..]));
    }
  }

  lemma {:induction false} FlattenPairRuns(st: seq<char>, p: Pair)
    requires IsOpen(p.open) && WellFormed(p.inside)
    ensures Run(st, FlattenPair(p)) == Some(st)
    decreases p, 1
  {
    var inner := Flatten(p.inside);
    var c := Closer(p.open);
    assert FlattenPair(p) == [p.open] + (inner + [c]);
    assert ([p.open] + (inner + [c]))[1..] == inner + [c];
    FlattenRuns(st + [p.open], p.inside);
    RunConcat(st + [p.open], inner, [c]);
    assert (st + [p.open])[..|st|] == st;
    assert [c][1..] == [];
  }

  lemma ClosingUnfold(st: seq<char>, fs: seq<seq<Pair>>)
    requires |fs| == |st| + 1 && |st| > 0
    ensures ClosingString(st, fs) == Flatten(fs[0]) + ([Closer(st[|st| - 1])] + ClosingString(st[..|st| - 1], fs[1..]))
  {
    var c, rest := Closer(st[|st| - 1]), ClosingString(st[..|st| - 1], fs[1..]);
    assert Flatten(fs[0]) + [c] + rest == Flatten(fs[0]) + ([c] + rest);
  }

  /** The first balanced stretch of a closing string can be split off. */
  lemma ClosingHead(st: seq<char>, fs: seq<seq<Pair>>)
    requires |fs| == |st| + 1
    ensures ClosingString(st, fs) == Flatten(fs[0]) + ClosingString(st, [[]] + fs[1..])
  {
    var fs0 := [[]] + fs[1..];
    assert fs0[0] == [] && fs0[1..] == fs[1..];
    assert Flatten(fs0[0]) == [];
    if |st| == 0 {
      assert Flatten(fs[0]) + [] == Flatten(fs[0]);
    } else {
      ClosingUnfold(st, fs);
      ClosingUnfold(st, fs0);
    }
  }

  /** A pair followed by a stretch is written as the opener, the inside, the closer, then the stretch. */
  lemma FlattenCons(p: Pair, rest: seq<Pair>)
    ensures Flatten([p] + rest) == [p.open] + Flatten(p.inside) + [Closer(p.open)] + Flatten(rest)
  {
    FlattenConcat([p], rest);
    assert Flatten([p]) == FlattenPair(p) by {
      assert [p][1..] == [];
    }
  }

  lemma Regroup(x: string, a: string, y: string, b: string, r: string)
    ensures x + (a + (y + (b + r))) == (x + a + y + b) + r
  {
  }

  /** Closing `st + [o]` after an opener `o` closes `st`, the opener's pair joining the next stretch. */
  lemma ClosingAfterOpener(st: seq<char>, o: char, fs': seq<seq<Pair>>) returns (fs: seq<seq<Pair>>)
    requires |fs'| == |st| + 2 && IsOpen(o) && forall k :: 0 <= k < |fs'| ==> WellFormed(fs'[k])
    ensures |fs| == |st| + 1 && (forall k :: 0 <= k < |fs| ==> WellFormed(fs[k]))
    ensures [o] + ClosingString(st + [o], fs') == ClosingString(st, fs)
  {
    var st' := st + [o];
    assert st'[..|st'| - 1] == st && st'[|st'| - 1] == o;
    var p := Pair(o, fs'[0]);
    var g := [p] + fs'[1];
    fs := [g] + fs'[2..];
    assert WellFormed(g);
    assert fs[0] == g && fs[1..] == fs'[2..] == fs'[1..][1..];
    var r := ClosingString(st, [[]] + fs'[2..]);
    ClosingUnfold(st', fs');
    ClosingHead(st, fs'[1..]);
    FlattenCons(p, fs'[1]);
    ClosingHead(st, fs);
    Regroup([o], Flatten(fs'[0]), [Closer(o)], Flatten(fs'[1]), r);
  }

  /** A bracket string that scans from `st` to the empty stack closes `st`: the balanced stretches exist. */
  lemma {:induction false} RunClosesStack(st: seq<char>, t: string) returns (fs: seq<seq<Pair>>)
    requires BracketsOnly(t) && Run(st, t) == Some([])
    ensures |fs| == |st| + 1 && (forall k :: 0 <= k < |fs| ==> WellFormed(fs[k]))
    ensures t == ClosingString(st, fs)
    decreases |t|
  {
    if |t| == 0 {
      assert st == [];
      fs := [[]];
    } else if IsOpen(t[0]) {
      var fs' := RunClosesStack(st + [t[0]], t[1..]);
      fs := ClosingAfterOpener(st, t[0], fs');
      assert t == [t[0]] + t[1..];
    } else {
      assert |st| > 0 && t[0] == Closer(st[|st| - 1]);
      var fs' := RunClosesStack(st[..|st| - 1], t[1..]);
      fs := [[]] + fs';
      assert fs[1..] == fs';
      assert t == [t[0]] + t[1..];
    }
  }

  /** The scan of `s` ends on the empty stack iff the brackets of `s` are balanced. */
  lemma ValidIffBalanced(s: string)
    ensures Run([], s) == Some([]) <==> Balanced(Brackets(s))
  {
    RunIgnoresOthers([], s);
    if Balanced(Brackets(s)) {
      var f :| WellFormed(f) && Flatten(f) == Brackets(s);
      FlattenRuns([], f);
    }
    if Run([], Brackets(s)) == Some([]) {
      var fs := RunClosesStack([], Brackets(s));
      assert WellFormed(fs[0]) && Flatten(fs[0]) == Brackets(s);
    }
  }

  /** A closer that meets an empty stack or a different opener rejects `s` whatever follows it. */
  lemma EarlyReject(p: string, ch: char, q: string, st: seq<char>)
    requires Run([], p) == Some(st) && IsClose(ch) && (|st| == 0 || ch != Closer(st[|st| - 1]))
    ensures !Balanced(Brackets(p + [ch] + q))
  {
    assert p + [ch] + q == p + ([ch] + q);
    RunConcat([], p, [ch] + q);
    ValidIffBalanced(p + [ch] + q);
  }

  /** ValidParentheses holds iff the bracket characters of `s` are balanced; other characters are ignored. */
  method ValidParentheses(s: string) returns (r: bool)
    ensures r <==> Balanced(Brackets(s))
  {
    ValidIffBalanced(s);
    var openParentheses := new RuneStack();
    var i := 0;
    while i < |s|
      invariant 0 <= i <= |s|
      invariant Run(openParentheses.data, s[i..]) == Run([], s)
    {
      var ch := s[i];
      assert s[i..][0] == ch && s[i..][1..] == s[i + 1..];
      if IsOpen(ch) {
        openParentheses.Push(ch);
      } else if IsClose(ch) {
        var empty := openParentheses.IsEmpty();
        if empty {
          return false;
        }
        var open, _ := openParentheses.Pop();
        var closed := Closer(open);
        if ch != closed {
          return false;
        }
      }
      i := i + 1;
    }
    r := openParentheses.IsEmpty();
  }

  // ---------------------------------------------------------------- Increment

  const Int32Min: int := -0x8000_0000
  const Int32Max: int := 0x7fff_ffff

  /** The value of a string of base-2 digits. */
  function Value(d: string): nat
    decreases |d|
  {
    if |d| == 0 then 0 else 2 * Value(d[..|d| - 1]) + (if d[|d| - 1] == '1' then 1 else 0)
  }

  /** strconv.ParseInt(s, 2, 32): an optional sign, then one or more '0'/'1' digits; None when the
      syntax is wrong or the signed value is outside the 32-bit range. */
  function ParseBinary32(s: string): (r: Option<int>)
    ensures r.Some? ==> Int32Min <= r.value <= Int32Max
    ensures |s| == 0 ==> r.None?
  {
    if |s| == 0 then None
    else
      var digits := if s[0] == '+' || s[0] == '-' then s[1..] else s;
      if |digits| == 0 || !AllBinary(digits) then None
      else
        var magnitude: int := Value(digits);
        var v := if s[0] == '-' then -magnitude else magnitude;
        if Int32Min <= v <= Int32Max then Some(v) else None
  }

  /** Increment: the parsed value plus one, or 0 when parsing fails. */
  function Increment(num: string): (r: int)
    ensures r != 0 ==> ParseBinary32(num).Some? && r == ParseBinary32(num).value + 1
  {
    match ParseBinary32(num)
    case None => 0
    case Some(parsedInt) => parsedInt + 1
  }

  lemma {:induction false} BinaryDigitsValue(n: nat)
    ensures Value(BinaryDigits(n)) == n
  {
    if n >= 2 {
      var d := BinaryDigits(n);
      BinaryDigitsValue(n / 2);
      assert d[..|d| - 1] == BinaryDigits(n / 2);
    }
  }

  lemma {:induction false} ZerosValue(z: string)
    requires forall k :: 0 <= k < |z| ==> z[k] == '0'
    ensures Value(z) == 0
    decreases |z|
  {
    if |z| > 0 {
      ZerosValue(z[..|z| - 1]);
    }
  }

  /** Leading zeros do not change the value. */
  lemma {:induction false} LeadingZeros(z: string, d: string)
    requires forall k :: 0 <= k < |z| ==> z[k] == '0'
    ensures Value(z + d) == Value(d)
    decreases |d|
  {
    if |d| == 0 {
      assert z + d == z;
      ZerosValue(z);
    } else {
      LeadingZeros(z, d[..|d| - 1]);
      assert (z + d)[..|z + d| - 1] == z + d[..|d| - 1];
    }
  }

  /** FormatInt and ParseInt agree on every 32-bit number: parsing the base-2 string gives the number back. */
  lemma ParseFormatRoundTrip(n: int)
    requires Int32Min <= n <= Int32Max
    ensures ParseBinary32(FormatBinary(n)) == Some(n)
  {
    if n < 0 {
      BinaryDigitsValue(-n);
    } else {
      BinaryDigitsValue(n);
    }
  }

  /** Incrementing the base-2 string of a 32-bit number gives the next number. */
  lemma IncrementFormatted(n: int)
    requires Int32Min <= n <= Int32Max
    ensures Increment(FormatBinary(n)) == n + 1
  {
    ParseFormatRoundTrip(n);
  }

  /** A digit string with value at most 2^31-1, leading zeros allowed, increments to value + 1. */
  lemma IncrementDigits(d: string)
    requires |d| > 0 && AllBinary(d) && Value(d) <= Int32Max
    ensures Increment(d) == Value(d) + 1
  {
  }

  /** Leading zeros in front of the digits of `n` do not change the result. */
  lemma IncrementLeadingZeros(z: string, n: nat)
    requires forall k :: 0 <= k < |z| ==> z[k] == '0'
    requires n <= Int32Max
    ensures Increment(z + BinaryDigits(n)) == n + 1
  {
    LeadingZeros(z, BinaryDigits(n));
    BinaryDigitsValue(n);
    var s := z + BinaryDigits(n);
    assert AllBinary(s);
    assert s[0] != '+' && s[0] != '-';
  }

  /** A digit string whose value exceeds 2^31-1 is out of range, and Increment returns 0. */
  lemma IncrementOutOfRange(d: string)
    requires |d| > 0 && AllBinary(d) && Value(d) > Int32Max
    ensures Increment(d) == 0
  {
  }

  /** The empty string, a bare sign, or any character other than '0'/'1' after the optional sign gives 0. */
  lemma IncrementRejectsSyntax(s: string, k: int)
    requires |s| == 0 || s == "+" || s == "-"
      || (0 <= k < |s| && !IsBinaryDigit(s[k]) && !(k == 0 && (s[0] == '+' || s[0] == '-')))
    ensures Increment(s) == 0
  {
    if |s| > 0 && s != "+" && s != "-" {
      var digits := if s[0] == '+' || s[0] == '-' then s[1..] else s;
      if s[0] == '+' || s[0] == '-' {
        assert !IsBinaryDigit(digits[k - 1]);
      } else {
        assert !IsBinaryDigit(digits[k]);
      }
    }
  }
}
