/** The string helpers the bridge takes from Go's standard library, on ASCII text. */
module Text {

  function LowerChar(c: char): char {
    if 'A' <= c <= 'Z' then (c as int + 32) as char else c
  }

  /** strings.ToLower. */
  function Lower(s: string): (r: string)
    ensures |r| == |s|
    ensures forall i | 0 <= i < |s| :: r[i] == LowerChar(s[i])
  {
    seq(|s|, i requires 0 <= i < |s| => LowerChar(s[i]))
  }

  predicate IsSpace(c: char) {
    c == ' ' || 9 <= c as int <= 13
  }

  function TrimLeft(s: string): string {
    if s != "" && IsSpace(s[0]) then TrimLeft(s[1..]) else s
  }

  function TrimRight(s: string): string {
    if s != "" && IsSpace(s[|s| - 1]) then TrimRight(s[..|s| - 1]) else s
  }

  /** strings.TrimSpace. */
  function TrimSpace(s: string): string {
    TrimRight(TrimLeft(s))
  }

  predicate IsHexDigit(c: char) {
    '0' <= c <= '9' || 'a' <= c <= 'f'
  }

  /** Lower-case hexadecimal text: what every id constructor demands of its parts. */
  predicate IsHex(s: string) {
    forall i | 0 <= i < |s| :: IsHexDigit(s[i])
  }

  /** Lower-casing and trimming leave text alone when every character is lower-case and none is a space. */
  lemma NormalIsFixed(s: string)
    requires forall i | 0 <= i < |s| :: !IsSpace(s[i]) && LowerChar(s[i]) == s[i]
    ensures Lower(TrimSpace(s)) == s && TrimSpace(s) == s
  {
    assert TrimLeft(s) == s;
    assert TrimRight(s) == s;
    assert Lower(s) == s;
  }

  /** No space at either end. */
  predicate Trimmed(s: string) { s == "" || (!IsSpace(s[0]) && !IsSpace(s[|s| - 1])) }

  lemma {:induction false} TrimLeftHolds(s: string)
    ensures var r := TrimLeft(s);
      |r| <= |s| && (r == "" || !IsSpace(r[0]))
  {
    if s != "" && IsSpace(s[0]) {
      TrimLeftHolds(s[1..]);
    }
  }

  lemma {:induction false} TrimRightHolds(s: string)
    ensures var r := TrimRight(s);
      |r| <= |s| && r == s[..|r|] && (r == "" || !IsSpace(r[|r| - 1]))
  {
    if s != "" && IsSpace(s[|s| - 1]) {
      TrimRightHolds(s[..|s| - 1]);
      assert s[..|s| - 1][..|TrimRight(s)|] == s[..|TrimRight(s)|];
    }
  }

  /** Trimming leaves no space at either end, and changes nothing exactly when there was none. */
  lemma TrimSpaceTrims(s: string)
    ensures Trimmed(TrimSpace(s)) && (TrimSpace(s) == s <==> Trimmed(s))
  {
    TrimLeftHolds(s);
    TrimRightHolds(TrimLeft(s));
    if TrimSpace(s) != "" {
      assert TrimSpace(s)[0] == TrimLeft(s)[0];
    }
  }

  predicate IsBlankText(s: string) { forall i | 0 <= i < |s| :: IsSpace(s[i]) }

  lemma {:induction false} TrimLeftUnpads(left: string, s: string)
    requires IsBlankText(left) && (s == "" || !IsSpace(s[0]))
    ensures TrimLeft(left + s) == s
  {
    if left == "" {
      assert left + s == s;
    } else {
      assert (left + s)[1..] == left[1..] + s;
      TrimLeftUnpads(left[1..], s);
    }
  }

  lemma {:induction false} TrimRightUnpads(s: string, right: string)
    requires IsBlankText(right) && (s == "" || !IsSpace(s[|s| - 1]))
    ensures TrimRight(s + right) == s
  {
    var n := |right| - 1;
    if right == "" {
      assert s + right == s;
    } else {
      assert (s + right)[..|s| + n] == s + right[..n];
      TrimRightUnpads(s, right[..n]);
    }
  }

  /** Trimming takes away exactly the spaces around a text. */
  lemma TrimSpaceUnpads(left: string, s: string, right: string)
    requires IsBlankText(left) && IsBlankText(right) && Trimmed(s)
    ensures TrimSpace(left + s + right) == s
  {
    if s == "" {
      assert left + s + right == (left + right) + "";
      assert IsBlankText(left + right);
      TrimLeftUnpads(left + right, "");
    } else {
      assert left + s + right == left + (s + right) && (s + right)[0] == s[0];
      TrimLeftUnpads(left, s + right);
      TrimRightUnpads(s, right);
    }
  }

  lemma {:induction false} TrimLeftOfBlank(s: string)
    requires TrimLeft(s) == ""
    ensures IsBlankText(s)
  {
    if s != "" {
      TrimLeftOfBlank(s[1..]);
      assert forall i | 1 <= i < |s| :: s[i] == s[1..][i - 1];
    }
  }

  lemma {:induction false} TrimRightOfBlank(s: string)
    requires TrimRight(s) == ""
    ensures IsBlankText(s)
  {
    if s != "" {
      TrimRightOfBlank(s[..|s| - 1]);
      assert forall i | 0 <= i < |s| - 1 :: s[i] == s[..|s| - 1][i];
    }
  }

  /** Nothing is left of a text exactly when it holds only spaces, tabs, line ends and form feeds. */
  lemma BlankExactlyWhen(s: string)
    ensures TrimSpace(s) == "" <==> forall i | 0 <= i < |s| :: s[i] in {' ', '\t', '\n', '\r', 11 as char, 12 as char}
  {
    if IsBlankText(s) {
      TrimSpaceUnpads(s, "", "");
      assert s + "" + "" == s;
    }
    if TrimSpace(s) == "" {
      TrimLeftHolds(s);
      TrimRightOfBlank(TrimLeft(s));
      assert TrimLeft(s) == "";
      TrimLeftOfBlank(s);
    }
  }

  /** A separator splits a text in one way only when the left part does not contain it. */
  lemma SplitIsUnique(x: string, y: string, x': string, y': string, sep: char)
    requires sep !in x && sep !in x'
    requires x + [sep] + y == x' + [sep] + y'
    ensures x == x' && y == y'
  {
    var s := x + [sep] + y;
    var s' := x' + [sep] + y';
    assert s[|x|] == sep;
    assert s'[|x'|] == sep;
    assert |x| == |x'|;
    assert x == s[..|x|] == s'[..|x'|] == x';
    assert y == s[|x| + 1..] == s'[|x'| + 1..] == y';
  }

  /** Equal texts with heads of equal length agree on heads and tails. */
  lemma EqualHeads(x: string, y: string, x': string, y': string)
    requires |x| == |x'| && x + y == x' + y'
    ensures x == x' && y == y'
  {
    assert x == (x + y)[..|x|];
    assert x' == (x' + y')[..|x'|];
    assert y == (x + y)[|x|..];
    assert y' == (x' + y')[|x'|..];
  }

  function Digit(n: nat): char
    requires n < 10
  {
    ('0' as int + n) as char
  }

  /** The %d verb on a non-negative number. */
  function Decimal(n: nat): (r: string)
    ensures r != ""
    ensures forall i | 0 <= i < |r| :: '0' <= r[i] <= '9'
  {
    if n < 10 then [Digit(n)] else Decimal(n / 10) + [Digit(n % 10)]
  }

  lemma {:induction false} DecimalIsInjective(m: nat, n: nat)
    requires Decimal(m) == Decimal(n)
    ensures m == n
    decreases m
  {
    var s, t := Decimal(m), Decimal(n);
    assert s[|s| - 1] == Digit(m % 10);
    assert t[|t| - 1] == Digit(n % 10);
    if m < 10 || n < 10 {
      assert m < 10 <==> |s| == 1;
      assert n < 10 <==> |t| == 1;
    } else {
      EqualHeads(Decimal(m / 10), [Digit(m % 10)], Decimal(n / 10), [Digit(n % 10)]) by {
        assert |Decimal(m / 10)| == |s| - 1 == |Decimal(n / 10)|;
      }
      DecimalIsInjective(m / 10, n / 10);
    }
  }

  // ------------------------------------------------------------ sequences

  /** The readings of all elements, in order. */
  function Concat<A, B>(read: A -> seq<B>, xs: seq<A>): seq<B> {
    if xs == [] then [] else Concat(read, xs[..|xs| - 1]) + read(xs[|xs| - 1])
  }

  lemma ConcatSnoc<A, B>(read: A -> seq<B>, xs: seq<A>, x: A)
    ensures Concat(read, xs + [x]) == Concat(read, xs) + read(x)
  {
    assert (xs + [x])[..|xs|] == xs;
  }

  /** Each element is read where it stands, whatever is around it. */
  lemma {:induction false} ConcatSplits<A, B>(read: A -> seq<B>, xs: seq<A>, ys: seq<A>)
    ensures Concat(read, xs + ys) == Concat(read, xs) + Concat(read, ys)
  {
    if ys == [] {
      assert xs + ys == xs;
    } else {
      var n := |ys| - 1;
      var rest, y := ys[..n], ys[n];
      assert ys == rest + [y] && xs + ys == (xs + rest) + [y];
      ConcatSplits(read, xs, rest);
      ConcatSnoc(read, xs + rest, y);
      ConcatSnoc(read, rest, y);
    }
  }
}
