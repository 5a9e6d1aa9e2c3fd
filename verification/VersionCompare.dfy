/** my_strverscmp and ykpers_check_version of ykpers-version.c.

    A string is cut into tokens: single characters and maximal runs of digits.  The comparison is decided at the first
    pair of tokens that differ.  Only the sign of a result is modelled, as -1, 0 or 1. */
module VersionCompare {
  import opened Bits
  import opened CStrings

  // ---------- the C library ----------

  predicate IsDigit(c: char) { '0' <= c <= '9' }

  /** strspn(s, "0123456789") and strcspn(s, "0123456789"): the first characters that are all digits, or none. */
  function Span(s: string, digits: bool): (n: nat)
    ensures n <= |s| && (forall i :: 0 <= i < n ==> IsDigit(s[i]) == digits)
    ensures n < |s| ==> IsDigit(s[n]) != digits
  {
    if s == "" || IsDigit(s[0]) != digits then 0 else 1 + Span(s[1..], digits)
  }

  function StrCmp(a: string, b: string): (r: int)
    ensures -1 <= r <= 1
  {
    if a == "" && b == "" then 0
    else if a == "" then -1
    else if b == "" then 1
    else if a[0] < b[0] then -1
    else if b[0] < a[0] then 1
    else StrCmp(a[1..], b[1..])
  }

  function Take(s: string, n: nat): string { if n <= |s| then s[..n] else s }

  function StrNCmp(a: string, b: string, n: nat): int { StrCmp(Take(a, n), Take(b, n)) }

  // ---------- tokens ----------

  datatype Token = Char(c: char) | Run(digits: string)

  function Tokens(s: string): (ts: seq<Token>)
    ensures s == "" <==> ts == []
    decreases |s|
  {
    if s == "" then []
    else if IsDigit(s[0]) then [Run(s[..Span(s, true)])] + Tokens(s[Span(s, true)..])
    else [Char(s[0])] + Tokens(s[1..])
  }

  function Sign(x: int): int { if x < 0 then -1 else if x > 0 then 1 else 0 }

  /** Shorter is smaller; runs of one length compare as strings. */
  function ShortLex(d: string, e: string): int {
    if |d| != |e| then Sign(|d| - |e|) else StrCmp(d, e)
  }

  function CommonZeros(d: string, e: string): (z: nat)
    ensures z <= |d| && z <= |e| && (forall i :: 0 <= i < z ==> d[i] == '0' && e[i] == '0')
    ensures z < |d| && z < |e| ==> d[z] != '0' || e[z] != '0'
  {
    if First(d) == '0' && First(e) == '0' then 1 + CommonZeros(d[1..], e[1..]) else 0
  }

  /** What is left of two runs with leading zeros once their common zeros are gone. */
  function PaddedCmp(u: string, v: string): int {
    if u == "" && v == "" then 0
    else if u == "" then 1
    else if v == "" then -1
    else if u[0] != v[0] && u[0] != '0' && v[0] != '0' && |u| != |v| then Sign(|v| - |u|)
    else StrCmp(u, v)
  }

  function RunCmp(d: string, e: string): int {
    if First(d) == '0' && First(e) != '0' then -1
    else if First(d) != '0' && First(e) == '0' then 1
    else if First(d) != '0' then ShortLex(d, e)
    else PaddedCmp(d[CommonZeros(d, e)..], e[CommonZeros(d, e)..])
  }

  function TokenCmp(s: Token, t: Token): int {
    match (s, t)
    case (Char(c), Char(d)) => Sign(c as int - d as int)
    case (Char(c), Run(d)) => Sign(c as int - First(d) as int)
    case (Run(d), Char(c)) => Sign(First(d) as int - c as int)
    case (Run(d), Run(e)) => RunCmp(d, e)
  }

  /** Lexicographic: the first two tokens that differ decide, and a proper prefix is smaller. */
  function Compare(ss: seq<Token>, ts: seq<Token>): int
    decreases |ss|
  {
    if ss == [] && ts == [] then 0
    else if ss == [] then -1
    else if ts == [] then 1
    else if TokenCmp(ss[0], ts[0]) != 0 then TokenCmp(ss[0], ts[0])
    else Compare(ss[1..], ts[1..])
  }

  // ---------- the parts of the loop ----------

  lemma FirstToken(s: string)
    requires s != ""
    ensures Tokens(s) != []
    ensures !IsDigit(s[0]) ==> Tokens(s)[0] == Char(s[0]) && Tokens(s)[1..] == Tokens(s[1..])
    ensures IsDigit(s[0]) ==> Tokens(s)[0].Run? && First(Tokens(s)[0].digits) == s[0]
  {
  }

  /** The final strcmp decides as the tokens do. */
  lemma {:induction false} StrCmpDecides(a: string, b: string)
    requires Span(a, false) != Span(b, false) || Span(a, false) == |a| || Span(b, false) == |b|
    ensures Compare(Tokens(a), Tokens(b)) == StrCmp(a, b)
    decreases |a|
  {
    hide RunCmp, Tokens, IsDigit;
    if a != "" && b != "" {
      FirstToken(a);
      FirstToken(b);
      if IsDigit(a[0]) != IsDigit(b[0]) {
        DigitDiffers(a[0], b[0]);
      } else if a[0] == b[0] && !IsDigit(a[0]) {
        StrCmpDecides(a[1..], b[1..]);
      }
    }
  }

  lemma DigitDiffers(c: char, d: char)
    requires IsDigit(c) != IsDigit(d)
    ensures c != d
  {
  }

  /** Equally long prefixes without digits, in front of digits: they decide unless they are equal. */
  lemma {:induction false} PrefixDecides(a: string, b: string)
    requires Span(a, false) == Span(b, false)
    ensures
      var p := Span(a, false);
      Compare(Tokens(a), Tokens(b)) ==
        if StrNCmp(a, b, p) != 0 then StrNCmp(a, b, p) else Compare(Tokens(a[p..]), Tokens(b[p..]))
    decreases |a|
  {
    hide RunCmp;
    var p := Span(a, false);
    if p == 0 {
      assert a[0..] == a && b[0..] == b;
    } else {
      assert Tokens(a)[1..] == Tokens(a[1..]) && Tokens(b)[1..] == Tokens(b[1..]);
      assert a[..p][1..] == a[1..][..p - 1] && b[..p][1..] == b[1..][..p - 1];
      assert a[1..][p - 1..] == a[p..] && b[1..][p - 1..] == b[p..];
      PrefixDecides(a[1..], b[1..]);
    }
  }

  /** Two runs decide unless they compare equal. */
  lemma RunsDecide(x: string, y: string)
    requires IsDigit(First(x)) && IsDigit(First(y))
    ensures
      var m, n := Span(x, true), Span(y, true);
      Compare(Tokens(x), Tokens(y)) ==
        if RunCmp(x[..m], y[..n]) != 0 then RunCmp(x[..m], y[..n]) else Compare(Tokens(x[m..]), Tokens(y[n..]))
  {
    hide RunCmp;
    var m, n := Span(x, true), Span(y, true);
    assert Tokens(x)[1..] == Tokens(x[m..]) && Tokens(y)[1..] == Tokens(y[n..]);
  }

  lemma {:induction false} RestOfRun(x: string, z: nat)
    requires z <= Span(x, true)
    ensures Span(x[z..], true) == Span(x, true) - z
  {
    if z > 0 {
      RestOfRun(x[1..], z - 1);
      assert x[1..][z - 1..] == x[z..];
    } else {
      assert x[0..] == x;
    }
  }

  lemma {:induction false} ZerosAdd(d: string, e: string, z: nat)
    requires z <= |d| && z <= |e| && forall i :: 0 <= i < z ==> d[i] == '0' && e[i] == '0'
    ensures CommonZeros(d, e) == z + CommonZeros(d[z..], e[z..])
  {
    if z > 0 {
      assert forall i :: 0 <= i < z - 1 ==> d[1..][i] == d[i + 1] && e[1..][i] == e[i + 1];
      ZerosAdd(d[1..], e[1..], z - 1);
      assert d[1..][z - 1..] == d[z..] && e[1..][z - 1..] == e[z..];
    } else {
      assert d[0..] == d && e[0..] == e;
    }
  }

  /** strncmp over the shorter run, and then the lengths, is strcmp on the runs. */
  lemma {:induction false} ShorterFirst(u: string, v: string)
    requires |u| < |v|
    ensures StrCmp(u, v) == if StrCmp(u, v[..|u|]) != 0 then StrCmp(u, v[..|u|]) else -1
    ensures StrCmp(v, u) == if StrCmp(v[..|u|], u) != 0 then StrCmp(v[..|u|], u) else 1
  {
    if u != "" {
      ShorterFirst(u[1..], v[1..]);
      assert v[..|u|][1..] == v[1..][..|u| - 1];
    }
  }

  lemma {:induction false} StrCmpSame(s: string)
    ensures StrCmp(s, s) == 0
  {
    if s != "" {
      StrCmpSame(s[1..]);
    }
  }

  // ---------- the code ----------

  lemma ZerosSkipped(x: string, y: string, z: nat)
    requires z <= Span(x, true) && z <= Span(y, true) && forall i :: 0 <= i < z ==> x[i] == '0' && y[i] == '0'
    requires !(First(x[z..]) == '0' && First(y[z..]) == '0')
    ensures
      var d, e := x[..Span(x, true)], y[..Span(y, true)];
      z == CommonZeros(d, e) && x[z..][..Span(x[z..], true)] == d[z..] && y[z..][..Span(y[z..], true)] == e[z..]
  {
    hide IsDigit, CommonZeros, Span;
    RestOfRun(x, z);
    RestOfRun(y, z);
    ZerosAdd(x[..Span(x, true)], y[..Span(y, true)], z);
  }

  /** The loop over common leading zeros. */
  method SkipZeros(x: string, y: string) returns (a: string, b: string)
    ensures
      var d, e := x[..Span(x, true)], y[..Span(y, true)];
      var z := CommonZeros(d, e);
      z <= |x| && z <= |y| && a == x[z..] && b == y[z..] && a[..Span(a, true)] == d[z..] && b[..Span(b, true)] == e[z..]
  {
    hide CommonZeros;
    a, b := x, y;
    ghost var z := 0;
    while First(a) == '0' && First(b) == '0'
      invariant z <= Span(x, true) && z <= Span(y, true) && a == x[z..] && b == y[z..]
      invariant forall i :: 0 <= i < z ==> x[i] == '0' && y[i] == '0'
      decreases |a|
    {
      a, b := a[1..], b[1..];
      z := z + 1;
    }
    ZerosSkipped(x, y, z);
  }

  method StrVersCmp(s1: string, s2: string) returns (ret: int)
    requires Clean(s1) && Clean(s2)
    ensures ret == Compare(Tokens(s1), Tokens(s2))
  {
    hide Compare, Tokens, RunCmp, IsDigit, StrCmp;
    var a, b := s1, s2;
    var p1, p2 := Span(a, false), Span(b, false);
    while p1 == p2 && First(a[p1..]) != '\0' && First(b[p2..]) != '\0'
      invariant p1 == Span(a, false) && p2 == Span(b, false) && Clean(a) && Clean(b)
      invariant Compare(Tokens(s1), Tokens(s2)) == Compare(Tokens(a), Tokens(b))
      decreases |a|
    {
      PrefixDecides(a, b);
      ret := StrNCmp(a, b, p1);
      if ret != 0 {
        return;
      }
      a, b := a[p1..], b[p2..];
      RunsDecide(a, b);
      ret := CompareRuns(a, b);
      if ret != 0 {
        return;
      }
      p1, p2 := Span(a, true), Span(b, true);
      a, b := a[p1..], b[p2..];
      p1, p2 := Span(a, false), Span(b, false);
    }
    StrCmpDecides(a, b);
    ret := StrCmp(a, b);
  }

  /** Two runs that both started with a zero, without their common zeros: decided, or left to the plain comparison. */
  method ComparePadded(a: string, b: string) returns (ret: int)
    requires !(First(a) == '0' && First(b) == '0')
    ensures
      var u, v := a[..Span(a, true)], b[..Span(b, true)];
      if ret != 0 then ret == PaddedCmp(u, v) else PaddedCmp(u, v) == ShortLex(u, v)
  {
    hide StrCmp;
    StrCmpSame("");
    var p1, p2 := Span(a, true), Span(b, true);
    if p1 == 0 && p2 > 0 {
      return 1;
    } else if p2 == 0 && p1 > 0 {
      return -1;
    }
    ret := 0;
    if First(a) != First(b) && First(a) != '0' && First(b) != '0' {
      if p1 < p2 {
        return 1;
      } else if p1 > p2 {
        return -1;
      }
    } else {
      if p1 < p2 {
        ret := StrNCmp(a, b, p1);
        assert b[..p2][..p1] == b[..p1];
        ShorterFirst(a[..p1], b[..p2]);
      } else if p1 > p2 {
        ret := StrNCmp(a, b, p2);
        assert a[..p1][..p2] == a[..p2];
        ShorterFirst(b[..p2], a[..p1]);
      }
    }
  }

  /** The comparison of the numbers at the start of both strings. */
  method CompareRuns(x: string, y: string) returns (ret: int)
    requires IsDigit(First(x)) && IsDigit(First(y))
    ensures ret == RunCmp(x[..Span(x, true)], y[..Span(y, true)])
  {
    hide StrCmp, PaddedCmp, CommonZeros, Span, IsDigit;
    var a, b := x, y;
    var lz1 := First(a) == '0';
    var lz2 := First(b) == '0';
    if lz1 && !lz2 {
      return -1;
    } else if !lz1 && lz2 {
      return 1;
    } else if lz1 {
      a, b := SkipZeros(a, b);
      ret := ComparePadded(a, b);
      if ret != 0 {
        return;
      }
    }
    var p1, p2 := Span(a, true), Span(b, true);
    if p1 < p2 {
      return -1;
    } else if p1 > p2 {
      return 1;
    }
    ret := StrNCmp(a, b, p1);
  }

  // ---------- antisymmetry and equality, for all strings ----------

  lemma {:induction false} StrCmpSwaps(a: string, b: string)
    ensures StrCmp(b, a) == -StrCmp(a, b)
    ensures StrCmp(a, b) == 0 <==> a == b
  {
    if a != "" && b != "" && a[0] == b[0] {
      StrCmpSwaps(a[1..], b[1..]);
      assert a == [a[0]] + a[1..] && b == [b[0]] + b[1..];
    }
  }

  lemma {:induction false} CommonZerosSwap(d: string, e: string)
    ensures CommonZeros(d, e) == CommonZeros(e, d)
  {
    if First(d) == '0' && First(e) == '0' {
      CommonZerosSwap(d[1..], e[1..]);
    }
  }

  lemma SameTail(d: string, e: string, z: nat)
    requires z <= |d| && z <= |e| && (forall i :: 0 <= i < z ==> d[i] == e[i]) && d[z..] == e[z..]
    ensures d == e
  {
    assert d == d[..z] + d[z..] && e == e[..z] + e[z..];
    assert d[..z] == e[..z];
  }

  lemma RunCmpSwaps(d: string, e: string)
    ensures RunCmp(e, d) == -RunCmp(d, e)
    ensures RunCmp(d, e) == 0 <==> d == e
  {
    hide StrCmp, CommonZeros;
    CommonZerosSwap(d, e);
    StrCmpSwaps(d, e);
    var z := CommonZeros(d, e);
    StrCmpSwaps(d[z..], e[z..]);
    if d[z..] == e[z..] {
      SameTail(d, e, z);
    }
  }

  predicate AllDigits(d: string) { forall i :: 0 <= i < |d| ==> IsDigit(d[i]) }

  /** A token as it comes from a string: a character that is no digit, or a non-empty run of digits. */
  predicate Single(t: Token) {
    if t.Char? then !IsDigit(t.c) else t.digits != "" && AllDigits(t.digits)
  }

  predicate Proper(ts: seq<Token>) { forall i :: 0 <= i < |ts| ==> Single(ts[i]) }

  lemma {:induction false} TokensAreProper(s: string)
    ensures Proper(Tokens(s))
    decreases |s|
  {
    if s != "" {
      TokensAreProper(if IsDigit(s[0]) then s[Span(s, true)..] else s[1..]);
    }
  }

  lemma {:induction false} CompareSwaps(ss: seq<Token>, ts: seq<Token>)
    requires Proper(ss) && Proper(ts)
    ensures Compare(ts, ss) == -Compare(ss, ts)
    ensures Compare(ss, ts) == 0 <==> ss == ts
  {
    hide RunCmp;
    if ss != [] && ts != [] {
      TokenCmpSwaps(ss[0], ts[0]);
      CompareSwaps(ss[1..], ts[1..]);
      assert ss == [ss[0]] + ss[1..] && ts == [ts[0]] + ts[1..];
    }
  }

  lemma TokenCmpSwaps(s: Token, t: Token)
    requires Single(s) && Single(t)
    ensures TokenCmp(t, s) == -TokenCmp(s, t)
    ensures TokenCmp(s, t) == 0 <==> s == t
  {
    hide RunCmp;
    if s.Run? && t.Run? {
      RunCmpSwaps(s.digits, t.digits);
    }
  }

  /** The string that a sequence of tokens was cut from. */
  function Text(ts: seq<Token>): string {
    if ts == [] then "" else (if ts[0].Char? then [ts[0].c] else ts[0].digits) + Text(ts[1..])
  }

  lemma {:induction false} TextOfTokens(s: string)
    ensures Text(Tokens(s)) == s
    decreases |s|
  {
    if s != "" {
      var n := if IsDigit(s[0]) then Span(s, true) else 1;
      TextOfTokens(s[n..]);
      assert Tokens(s)[1..] == Tokens(s[n..]);
      assert s == s[..n] + s[n..];
    }
  }

  /** my_strverscmp on any two strings. */
  function VersionCmp(a: string, b: string): int { Compare(Tokens(a), Tokens(b)) }

  /** Swapping the arguments negates the sign, and only identical strings compare equal. */
  lemma SwapNegates(a: string, b: string)
    ensures VersionCmp(b, a) == -VersionCmp(a, b)
    ensures VersionCmp(a, b) == 0 <==> a == b
  {
    TokensAreProper(a);
    TokensAreProper(b);
    CompareSwaps(Tokens(a), Tokens(b));
    TextOfTokens(a);
    TextOfTokens(b);
  }

  // ---------- when it compares by value ----------

  /** A run of digits as a number is written: no zero in front. */
  predicate Canonical(d: string) { |d| > 1 ==> d[0] != '0' }

  /** The number that a run denotes. */
  function Value(d: string): (n: nat)
    requires AllDigits(d)
  {
    if d == "" then 0 else 10 * Value(d[..|d| - 1]) + (d[|d| - 1] as int - '0' as int)
  }

  /** No version number in the string has a zero in front. */
  predicate Unpadded(s: string) { AllCanonical(Tokens(s)) }

  /** The comparison is no order: "02" < "021" < "031" < "02". */
  lemma NotTransitive()
    ensures VersionCmp("02", "021") == -1 && VersionCmp("021", "031") == -1 && VersionCmp("031", "02") == -1
  {
    OneRun("02");
    OneRun("021");
    OneRun("031");
    assert "02"[1..] == "2" && "021"[1..] == "21" && "031"[1..] == "31";
    assert CommonZeros("2", "21") == 0 && CommonZeros("21", "31") == 0 && CommonZeros("31", "2") == 0;
    assert CommonZeros("02", "021") == 1 && CommonZeros("021", "031") == 1 && CommonZeros("031", "02") == 1;
    assert StrCmp("2", "21") == -1 by { assert "2"[1..] == "" && "21"[1..] == "1"; }
  }

  lemma OneRun(d: string)
    requires d != "" && AllDigits(d)
    ensures Tokens(d) == [Run(d)]
  {
    RunSpan(d);
    assert d[..|d|] == d && Tokens(d[|d|..]) == [];
  }

  lemma {:induction false} RunSpan(d: string)
    requires AllDigits(d)
    ensures Span(d, true) == |d|
  {
    if d != "" {
      RunSpan(d[1..]);
    }
  }

  function Pow10(n: nat): (r: nat)
    ensures r > 0
  {
    if n == 0 then 1 else 10 * Pow10(n - 1)
  }

  lemma {:induction false} Pow10Grows(m: nat, n: nat)
    requires m <= n
    ensures Pow10(m) <= Pow10(n)
  {
    if m < n {
      Pow10Grows(m, n - 1);
    }
  }

  lemma {:induction false} ValueBounds(d: string)
    requires AllDigits(d)
    ensures Value(d) < Pow10(|d|)
    ensures d != "" && d[0] != '0' ==> Value(d) >= Pow10(|d| - 1)
  {
    if d != "" {
      ValueBounds(d[..|d| - 1]);
      assert |d| > 1 ==> d[..|d| - 1][0] == d[0];
    }
  }

  lemma {:induction false} StrCmpLast(d: string, e: string)
    requires |d| == |e| > 0
    ensures StrCmp(d, e) ==
      if StrCmp(d[..|d| - 1], e[..|e| - 1]) != 0 then StrCmp(d[..|d| - 1], e[..|e| - 1])
      else Sign(d[|d| - 1] as int - e[|e| - 1] as int)
  {
    if |d| > 1 {
      StrCmpLast(d[1..], e[1..]);
      assert d[1..][..|d| - 2] == d[..|d| - 1][1..] && e[1..][..|e| - 2] == e[..|e| - 1][1..];
    } else {
      assert d[1..] == "" && e[1..] == "";
    }
  }

  lemma {:induction false} SameLengthByValue(d: string, e: string)
    requires |d| == |e| && AllDigits(d) && AllDigits(e)
    ensures StrCmp(d, e) == Sign(Value(d) - Value(e))
  {
    hide StrCmp;
    if d == "" {
      assert e == "";
      StrCmpSame(d);
    } else {
      SameLengthByValue(d[..|d| - 1], e[..|e| - 1]);
      StrCmpLast(d, e);
    }
  }

  /** Canonical runs compare as the numbers they denote. */
  lemma CanonicalByValue(d: string, e: string)
    requires d != "" && e != "" && AllDigits(d) && AllDigits(e) && Canonical(d) && Canonical(e)
    ensures RunCmp(d, e) == Sign(Value(d) - Value(e))
  {
    ValueBounds(d);
    ValueBounds(e);
    if d[0] == '0' {
      assert d == "0" && Value(d[..0]) == 0;
    }
    if e[0] == '0' {
      assert e == "0" && Value(e[..0]) == 0;
    }
    if |d| == |e| {
      SameLengthByValue(d, e);
    } else if |d| < |e| {
      Pow10Grows(|d|, |e| - 1);
    } else {
      Pow10Grows(|e|, |d| - 1);
    }
  }

  function ValueCmp(s: Token, t: Token): int
    requires s.Run? ==> AllDigits(s.digits)
    requires t.Run? ==> AllDigits(t.digits)
  {
    if s.Run? && t.Run? then Sign(Value(s.digits) - Value(t.digits)) else TokenCmp(s, t)
  }

  /** The order of lists of characters and numbers. */
  function CompareByValue(ss: seq<Token>, ts: seq<Token>): int
    requires Proper(ss) && Proper(ts)
    decreases |ss|
  {
    if ss == [] && ts == [] then 0
    else if ss == [] then -1
    else if ts == [] then 1
    else if ValueCmp(ss[0], ts[0]) != 0 then ValueCmp(ss[0], ts[0])
    else CompareByValue(ss[1..], ts[1..])
  }

  predicate AllCanonical(ts: seq<Token>) {
    forall i :: 0 <= i < |ts| && ts[i].Run? ==> Canonical(ts[i].digits)
  }

  lemma {:induction false} CanonicalCompareByValue(ss: seq<Token>, ts: seq<Token>)
    requires Proper(ss) && Proper(ts) && AllCanonical(ss) && AllCanonical(ts)
    ensures Compare(ss, ts) == CompareByValue(ss, ts)
  {
    hide RunCmp, Value, Canonical;
    if ss != [] && ts != [] {
      if ss[0].Run? && ts[0].Run? {
        CanonicalByValue(ss[0].digits, ts[0].digits);
      }
      CanonicalCompareByValue(ss[1..], ts[1..]);
    }
  }

  /** Strings without padded numbers compare as lists of characters and numbers. */
  lemma UnpaddedByValue(a: string, b: string)
    requires Unpadded(a) && Unpadded(b)
    ensures Proper(Tokens(a)) && Proper(Tokens(b)) && VersionCmp(a, b) == CompareByValue(Tokens(a), Tokens(b))
  {
    TokensAreProper(a);
    TokensAreProper(b);
    CanonicalCompareByValue(Tokens(a), Tokens(b));
  }

  // ---------- decimal numbers ----------

  function Decimal(n: nat): (d: string)
    ensures d != "" && AllDigits(d) && Value(d) == n && (n > 0 ==> d[0] != '0') && Canonical(d)
  {
    var last := [('0' as int + n % 10) as char];
    if n < 10 then
      assert Value(last[..0]) == 0;
      last
    else
      var all := Decimal(n / 10) + last;
      assert all[..|all| - 1] == Decimal(n / 10);
      all
  }

  /** A run compares by value with all canonical runs exactly when it is canonical itself. */
  lemma RunByValueExactlyWhen(d: string)
    requires d != "" && AllDigits(d)
    ensures (forall e :: e != "" && AllDigits(e) && Canonical(e) ==> RunCmp(d, e) == Sign(Value(d) - Value(e)))
        <==> Canonical(d)
  {
    hide Value, RunCmp;
    if Canonical(d) {
      forall e | e != "" && AllDigits(e) && Canonical(e)
        ensures RunCmp(d, e) == Sign(Value(d) - Value(e))
      {
        CanonicalByValue(d, e);
      }
    } else {
      RunCmpSwaps(d, Decimal(Value(d)));
    }
  }

  /** The string with every number written canonically. */
  function Normal(ts: seq<Token>): (ns: seq<Token>)
    requires Proper(ts)
    ensures |ns| == |ts| && Proper(ns) && AllCanonical(ns)
    ensures forall i :: 0 <= i < |ts| ==> ns[i].Run? == ts[i].Run?
  {
    if ts == [] then []
    else [if ts[0].Run? then Run(Decimal(Value(ts[0].digits))) else ts[0]] + Normal(ts[1..])
  }

  lemma {:induction false} NormalIsEqualByValue(ts: seq<Token>)
    requires Proper(ts)
    ensures CompareByValue(ts, Normal(ts)) == 0
  {
    hide Value;
    if ts != [] {
      NormalIsEqualByValue(ts[1..]);
      assert Normal(ts)[1..] == Normal(ts[1..]);
    }
  }

  predicate Separated(ts: seq<Token>) {
    forall i :: 0 <= i < |ts| - 1 && ts[i].Run? ==> ts[i + 1].Char?
  }

  lemma {:induction false} TokensAreSeparated(s: string)
    ensures Separated(Tokens(s))
    decreases |s|
  {
    if s != "" {
      var n := if IsDigit(s[0]) then Span(s, true) else 1;
      TokensAreSeparated(s[n..]);
      assert Tokens(s)[1..] == Tokens(s[n..]);
    }
  }

  /** Cutting the text of proper, separated tokens gives them back. */
  lemma {:induction false} TokensOfText(ts: seq<Token>)
    requires Proper(ts) && Separated(ts)
    ensures Tokens(Text(ts)) == ts
  {
    if ts != [] {
      var rest := ts[1..];
      TokensOfText(rest);
      var s := Text(ts);
      if ts[0].Char? {
        assert s[1..] == Text(rest);
      } else {
        var d := ts[0].digits;
        if rest != [] {
          assert rest[0].Char? && Text(rest)[0] == rest[0].c;
        }
        SpanOfRun(d, Text(rest));
        assert s[..|d|] == d && s[|d|..] == Text(rest);
      }
      assert ts == [ts[0]] + rest;
    }
  }

  lemma {:induction false} SpanOfRun(d: string, t: string)
    requires AllDigits(d) && (t != "" ==> !IsDigit(t[0]))
    ensures Span(d + t, true) == |d|
  {
    if d == "" {
      assert d + t == t;
    } else {
      assert (d + t)[1..] == d[1..] + t;
      SpanOfRun(d[1..], t);
    }
  }

  /** Exactly the strings without padded numbers compare by value with all such strings. */
  lemma ByValueExactlyWhen(a: string)
    ensures Proper(Tokens(a)) && (forall b :: Proper(Tokens(b)))
    ensures (forall b :: Unpadded(b) ==> VersionCmp(a, b) == CompareByValue(Tokens(a), Tokens(b))) <==> Unpadded(a)
  {
    hide Tokens, Compare, CompareByValue, AllCanonical, Proper;
    TokensAreProper(a);
    forall b: string
      ensures Proper(Tokens(b))
    {
      TokensAreProper(b);
    }
    if Unpadded(a) {
      forall b | Unpadded(b)
        ensures VersionCmp(a, b) == CompareByValue(Tokens(a), Tokens(b))
      {
        UnpaddedByValue(a, b);
      }
    } else {
      var ns := Normal(Tokens(a));
      var b := Text(ns);
      TokensAreSeparated(a);
      NormalIsSeparated(Tokens(a));
      TokensOfText(ns);
      NormalIsEqualByValue(Tokens(a));
      SwapNegates(a, b);
      assert Unpadded(b);
    }
  }

  lemma NormalIsSeparated(ts: seq<Token>)
    requires Proper(ts) && Separated(ts)
    ensures Separated(Normal(ts))
  {
    hide Normal, Proper;
  }

  /** A dotted version number. */
  function Dotted(ns: seq<nat>): (s: string)
    requires ns != []
    ensures s != "" && IsDigit(s[0])
  {
    if |ns| == 1 then Decimal(ns[0]) else Decimal(ns[0]) + "." + Dotted(ns[1..])
  }

  /** The order of version numbers: lexicographic by component, a proper prefix being smaller. */
  function CompareNumbers(ms: seq<nat>, ns: seq<nat>): int {
    if ms == [] && ns == [] then 0
    else if ms == [] then -1
    else if ns == [] then 1
    else if ms[0] != ns[0] then Sign(ms[0] as int - ns[0] as int)
    else CompareNumbers(ms[1..], ns[1..])
  }

  function DottedTokens(ns: seq<nat>): (ts: seq<Token>)
    requires ns != []
    ensures Proper(ts) && Separated(ts) && AllCanonical(ts) && ts != [] && ts[0] == Run(Decimal(ns[0]))
  {
    if |ns| == 1 then [Run(Decimal(ns[0]))] else [Run(Decimal(ns[0])), Char('.')] + DottedTokens(ns[1..])
  }

  lemma {:induction false} TokensOfDotted(ns: seq<nat>)
    requires ns != []
    ensures Tokens(Dotted(ns)) == DottedTokens(ns)
  {
    TextOfDotted(ns);
    TokensOfText(DottedTokens(ns));
  }

  lemma {:induction false} TextOfDotted(ns: seq<nat>)
    requires ns != []
    ensures Text(DottedTokens(ns)) == Dotted(ns)
  {
    hide Proper, Separated, AllCanonical;
    if |ns| == 1 {
      assert Text([]) == "";
      assert Text([Run(Decimal(ns[0]))]) == Decimal(ns[0]) + "";
    } else {
      TextOfDotted(ns[1..]);
      var rest := DottedTokens(ns[1..]);
      assert ([Char('.')] + rest)[1..] == rest;
      assert Text([Char('.')] + rest) == "." + Text(rest);
      assert DottedTokens(ns)[1..] == [Char('.')] + rest;
      assert Decimal(ns[0]) + ("." + Dotted(ns[1..])) == Decimal(ns[0]) + "." + Dotted(ns[1..]);
    }
  }

  lemma {:induction false} DottedByValue(ms: seq<nat>, ns: seq<nat>)
    requires ms != [] && ns != []
    ensures CompareByValue(DottedTokens(ms), DottedTokens(ns)) == CompareNumbers(ms, ns)
    decreases |ms|
  {
    hide Decimal, Separated, AllCanonical;
    var ss, ts := DottedTokens(ms), DottedTokens(ns);
    assert ValueCmp(ss[0], ts[0]) == Sign(ms[0] as int - ns[0] as int);
    if ms[0] == ns[0] {
      if |ms| > 1 && |ns| > 1 {
        DottedByValue(ms[1..], ns[1..]);
        assert ss[1..][1..] == DottedTokens(ms[1..]) && ts[1..][1..] == DottedTokens(ns[1..]);
      }
    }
  }

  /** On dotted decimal versions, of any length and size, my_strverscmp compares the lists of integers. */
  lemma VersionsCompareAsNumbers(ms: seq<nat>, ns: seq<nat>)
    requires ms != [] && ns != []
    ensures VersionCmp(Dotted(ms), Dotted(ns)) == CompareNumbers(ms, ns)
  {
    hide Dotted, DottedTokens, CompareByValue, CompareNumbers;
    TokensOfDotted(ms);
    TokensOfDotted(ns);
    DottedByValue(ms, ns);
    UnpaddedByValue(Dotted(ms), Dotted(ns));
  }

  // ---------- ykpers_check_version ----------

  /** The library's own version when it is at least the requested one, or when none is requested. */
  method CheckVersion(requested: Option<string>, own: string) returns (r: Option<string>)
    requires (requested.Some? ==> Clean(requested.value)) && Clean(own)
    ensures r == if requested.None? || VersionCmp(requested.value, own) <= 0 then Some(own) else None
  {
    hide Compare, Tokens;
    if requested.None? {
      return Some(own);
    }
    var c := StrVersCmp(requested.value, own);
    r := if c <= 0 then Some(own) else None;
  }
}
