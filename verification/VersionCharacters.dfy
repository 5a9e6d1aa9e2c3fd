/** The version comparison told by characters, without tokens: where two strings first differ, and what stands in front
    of that place, decides. */
module VersionCharacters {
  import opened CStrings
  import opened VersionCompare

  /** The strings differ in their first character, or one has ended. */
  predicate Differ(x: string, y: string) { if x == "" || y == "" then x != y else x[0] != y[0] }

  /** By code; an end comes before every character. */
  function ByCode(x: string, y: string): int {
    if x == "" then -1 else if y == "" then 1 else if x[0] < y[0] then -1 else 1
  }

  predicate AllZeros(r: string) { forall i :: 0 <= i < |r| ==> r[i] == '0' }

  /** How many digits a string begins with. */
  function Digits(s: string): (n: nat)
    ensures n <= |s| && (forall i :: 0 <= i < n ==> '0' <= s[i] <= '9')
    ensures n < |s| ==> !('0' <= s[n] <= '9')
  {
    Span(s, true)
  }

  /** What decides when the digits r, and nothing else of a number, stand in front of the difference. */
  function Decision(r: string, x: string, y: string): int {
    var m, n := Digits(x), Digits(y);
    if (m == 0 && n == 0) || (r == "" && (m == 0 || n == 0)) then ByCode(x, y)
    else if r == "" && (x[0] == '0' || y[0] == '0') then ByCode(x, y)
    else if r == "" || r[0] != '0' then if m < n then -1 else if m > n then 1 else ByCode(x, y)
    else if m == 0 then if AllZeros(r) then 1 else -1
    else if n == 0 then if AllZeros(r) then -1 else 1
    else if AllZeros(r) && x[0] != '0' && y[0] != '0' && m != n then if m < n then 1 else -1
    else ByCode(x, y)
  }

  /** The text in front of the digits does not end with one. */
  predicate Ends(q: string) { q != "" ==> !IsDigit(q[|q| - 1]) }

  // ---------- tokens of two parts ----------

  lemma {:induction false} SpanEnds(q: string, s: string)
    requires q != "" && Ends(q)
    ensures Span(q, true) < |q| && Span(q + s, true) == Span(q, true)
  {
    assert (q + s)[0] == q[0];
    if IsDigit(q[0]) {
      assert (q + s)[1..] == q[1..] + s;
      SpanEnds(q[1..], s);
    }
  }

  function Head(s: string): (n: nat)
    requires s != ""
    ensures 1 <= n <= |s|
  {
    if IsDigit(s[0]) then Span(s, true) else 1
  }

  lemma FirstCut(s: string)
    requires s != ""
    ensures Tokens(s) == [if IsDigit(s[0]) then Run(s[..Head(s)]) else Char(s[0])] + Tokens(s[Head(s)..])
  {
  }

  lemma HeadEnds(q: string, s: string)
    requires q != "" && Ends(q)
    ensures Head(q + s) == Head(q) && Ends(q[Head(q)..]) && (q + s)[0] == q[0]
    ensures (q + s)[Head(q)..] == q[Head(q)..] + s && (q + s)[..Head(q)] == q[..Head(q)]
  {
    SpanEnds(q, s);
    assert (q + s)[0] == q[0];
  }

  lemma {:induction false} TokensBehind(q: string, s: string)
    requires Ends(q)
    ensures Tokens(q + s) == Tokens(q) + Tokens(s)
    decreases |q|
  {
    hide IsDigit, Head, Ends, Tokens;
    if q == "" {
      assert q + s == s;
    } else {
      HeadEnds(q, s);
      FirstCut(q);
      FirstCut(q + s);
      TokensBehind(q[Head(q)..], s);
    }
  }

  lemma TokenSame(t: Token)
    ensures TokenCmp(t, t) == 0
  {
    if t.Run? {
      StrCmpSame(t.digits);
      StrCmpSame(t.digits[CommonZeros(t.digits, t.digits)..]);
    }
    hide CommonZeros, StrCmp;
  }

  lemma {:induction false} CompareBehind(ts: seq<Token>, ss: seq<Token>, us: seq<Token>)
    ensures Compare(ts + ss, ts + us) == Compare(ss, us)
  {
    hide TokenCmp;
    if ts == [] {
      assert ts + ss == ss && ts + us == us;
    } else {
      TokenSame(ts[0]);
      assert (ts + ss)[1..] == ts[1..] + ss && (ts + us)[1..] == ts[1..] + us;
      CompareBehind(ts[1..], ss, us);
    }
  }

  // ---------- two numbers ----------

  lemma {:induction false} StrCmpBehind(r: string, x: string, y: string)
    ensures StrCmp(r + x, r + y) == StrCmp(x, y)
  {
    if r == "" {
      assert r + x == x && r + y == y;
    } else {
      assert (r + x)[1..] == r[1..] + x && (r + y)[1..] == r[1..] + y;
      StrCmpBehind(r[1..], x, y);
    }
  }

  /** Zeros in front of both are left out, and no more. */
  lemma {:induction false} CommonBehind(r: string, x: string, y: string)
    requires Differ(x, y)
    ensures CommonZeros(r + x, r + y) <= |r|
    ensures AllZeros(r) <==> CommonZeros(r + x, r + y) == |r|
  {
    if r == "" {
      assert r + x == x && r + y == y;
    } else {
      assert (r + x)[1..] == r[1..] + x && (r + y)[1..] == r[1..] + y;
      CommonBehind(r[1..], x, y);
      assert AllZeros(r) <==> r[0] == '0' && AllZeros(r[1..]);
    }
  }

  /** The decision between two numbers that share the digits r. */
  function NumberDecision(r: string, u: string, v: string): int {
    if r == "" && (First(u) == '0' || First(v) == '0') then ByCode(u, v)
    else if First(r) != '0' then if |u| < |v| then -1 else if |u| > |v| then 1 else ByCode(u, v)
    else if u == "" then if AllZeros(r) then 1 else -1
    else if v == "" then if AllZeros(r) then -1 else 1
    else if AllZeros(r) && u[0] != '0' && v[0] != '0' && |u| != |v| then if |u| < |v| then 1 else -1
    else ByCode(u, v)
  }

  lemma StrCmpAtOnce(x: string, y: string)
    requires Differ(x, y)
    ensures StrCmp(x, y) == ByCode(x, y)
  {
  }

  lemma NumbersDecide(r: string, u: string, v: string)
    requires Differ(u, v) && AllDigits(r) && AllDigits(u) && AllDigits(v) && (r == "" ==> u != "" && v != "")
    ensures RunCmp(r + u, r + v) == NumberDecision(r, u, v)
  {
    hide CommonZeros, StrCmp, AllZeros;
    StrCmpAtOnce(u, v);
    StrCmpBehind(r, u, v);
    if First(r) == '0' {
      CommonBehind(r, u, v);
      var z := CommonZeros(r + u, r + v);
      assert (r + u)[z..] == r[z..] + u && (r + v)[z..] == r[z..] + v;
      StrCmpBehind(r[z..], u, v);
      if z == |r| {
        assert r[z..] + u == u && r[z..] + v == v;
      }
    } else if r == "" {
      assert r + u == u && r + v == v;
    }
  }

  // ---------- the comparison ----------

  lemma RestDecides(r: string, x: string, y: string)
    requires AllDigits(r) && Differ(x, y)
    ensures Compare(Tokens(r + x), Tokens(r + y)) == Decision(r, x, y)
  {
    hide *;
    var m, n := Digits(x), Digits(y);
    if (m == 0 && n == 0) || (r == "" && (m == 0 || n == 0)) {
      NoNumbers(r, x, y);
    } else {
      NumberFirst(r, x);
      NumberFirst(r, y);
      PartsDiffer(x, y);
      NumbersDecide(r, x[..m], y[..n]);
      DecisionIs(r, x, y);
      TwoNumbers(Run(r + x[..m]), Tokens(x[m..]), Run(r + y[..n]), Tokens(y[n..]));
    }
  }

  lemma TwoNumbers(s: Token, ss: seq<Token>, t: Token, ts: seq<Token>)
    requires s.Run? && t.Run?
    ensures RunCmp(s.digits, t.digits) != 0 ==> Compare([s] + ss, [t] + ts) == RunCmp(s.digits, t.digits)
  {
    hide RunCmp;
  }

  lemma DecisionIs(r: string, x: string, y: string)
    requires Differ(x, y)
    ensures
      var m, n := Digits(x), Digits(y);
      m > 0 || n > 0 ==> (r == "" ==> m > 0 && n > 0) ==>
        Decision(r, x, y) == NumberDecision(r, x[..m], y[..n]) && Decision(r, x, y) != 0
  {
    hide AllZeros, Digits;
    assert |x[..Digits(x)]| == Digits(x) && |y[..Digits(y)]| == Digits(y);
  }

  /** Numbers on one side only, or that end before the difference. */
  lemma NoNumbers(r: string, x: string, y: string)
    requires AllDigits(r) && Differ(x, y)
    requires (Digits(x) == 0 && Digits(y) == 0) || (r == "" && (Digits(x) == 0 || Digits(y) == 0))
    ensures Compare(Tokens(r + x), Tokens(r + y)) == Decision(r, x, y)
  {
    hide Tokens, Compare, AllDigits, Span;
    FirstDecides(x, y);
    if r == "" {
      assert r + x == x && r + y == y;
    } else {
      NumberFirst(r, x);
      NumberFirst(r, y);
      assert r + x[..0] == r && r + y[..0] == r && x[0..] == x && y[0..] == y;
      CompareBehind([Run(r)], Tokens(x), Tokens(y));
    }
  }

  lemma FirstDecides(x: string, y: string)
    requires Differ(x, y) && (Digits(x) == 0 || Digits(y) == 0)
    ensures Compare(Tokens(x), Tokens(y)) == ByCode(x, y)
  {
    hide Tokens, RunCmp;
    if x != "" && y != "" {
      FirstToken(x);
      FirstToken(y);
    }
  }

  lemma PartsDiffer(x: string, y: string)
    requires Differ(x, y)
    ensures Digits(x) > 0 || Digits(y) > 0 ==> Differ(x[..Digits(x)], y[..Digits(y)])
    ensures AllDigits(x[..Digits(x)]) && AllDigits(y[..Digits(y)])
    ensures (x[..Digits(x)] == "" <==> Digits(x) == 0) && (y[..Digits(y)] == "" <==> Digits(y) == 0)
  {
  }

  /** A number in front is one token. */
  lemma NumberFirst(r: string, x: string)
    requires AllDigits(r)
    ensures
      var n := Digits(x);
      r != "" || n > 0 ==> Tokens(r + x) == [Run(r + x[..n])] + Tokens(x[n..])
  {
    var n := Digits(x);
    var d := r + x[..n];
    if d != "" {
      assert r + x == d + x[n..];
      SpanOfRun(d, x[n..]);
      assert (d + x[n..])[..|d|] == d && (d + x[n..])[|d|..] == x[n..];
      assert IsDigit((d + x[n..])[0]);
    }
  }

  /** Where two strings first differ decides, with the digits in front of that place. */
  lemma DecidedAtDifference(q: string, r: string, x: string, y: string)
    requires Ends(q) && AllDigits(r) && Differ(x, y)
    ensures VersionCmp(q + r + x, q + r + y) == Decision(r, x, y)
  {
    hide Tokens, Compare, Decision, Ends, AllDigits, Differ;
    assert q + r + x == q + (r + x) && q + r + y == q + (r + y);
    TokensBehind(q, r + x);
    TokensBehind(q, r + y);
    CompareBehind(Tokens(q), Tokens(r + x), Tokens(r + y));
    RestDecides(r, x, y);
  }

  /** Any two strings differ somewhere or are the same. */
  lemma {:induction false} Divided(a: string, b: string) returns (q: string, r: string, x: string, y: string)
    requires a != b
    ensures Ends(q) && AllDigits(r) && Differ(x, y) && a == q + r + x && b == q + r + y
  {
    if Differ(a, b) {
      q, r, x, y := "", "", a, b;
    } else {
      assert a == [a[0]] + a[1..] && b == [b[0]] + b[1..];
      q, r, x, y := Divided(a[1..], b[1..]);
      if q == "" && IsDigit(a[0]) {
        r := [a[0]] + r;
      } else {
        q := [a[0]] + q;
      }
      assert a == q + r + x && b == q + r + y;
    }
  }
}
